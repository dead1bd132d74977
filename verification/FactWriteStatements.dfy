/**
 writeCurrentFact (src/persistence/repositories/lead-facts.repo.ts) statement by statement: any number of overlapping
 transactions under read-committed isolation, each writing any number of facts of different types.

 A transaction's statements change only what it sees itself until it commits. The demote finds its row in a snapshot,
 waits while another transaction holds that row, and then looks at the row again. The insert waits while another
 transaction holds the index entry of the same (lead, type), and fails when a committed current row is left.
 */
module FactWriteStatements {
  import opened Wrappers
  import opened GooglePlaceFacts
  import Races = GooglePlaceFactRaces

  datatype Fact = Fact(leadId: string, kind: FactType, value: string, source: Source)

  predicate SameKey(a: Fact, b: Fact) {
    a.leadId == b.leadId && a.kind == b.kind
  }

  // A finished writeCurrentFact: the current row in its demote's snapshot, the row it demoted, the rows it linked.
  datatype Write = Write(fact: Fact, seen: Option<nat>, demoted: Option<nat>, linked: set<nat>)

  datatype Stage =
    | Ready
    | Seeking(fact: Fact, seen: Option<nat>)
    | AfterDemote(fact: Fact, seen: Option<nat>, demoted: Option<nat>)
    | AfterInsert(fact: Fact, seen: Option<nat>, demoted: Option<nat>)
    | Over

  datatype Txn = Txn(writes: seq<Write>, stage: Stage)

  // The committed rows, and what each transaction has done besides.
  datatype World = World(rows: Table, txns: map<nat, Txn>)

  datatype Step =
    | Begin(p: nat)
    | Seek(p: nat, fact: Fact)
    | Demote(p: nat)
    | Insert(p: nat)
    | Link(p: nat)
    | Commit(p: nat)
    | Abort(p: nat)

  function CurrentOf(t: Table, f: Fact): Option<nat> {
    Current(t, f.leadId, f.kind)
  }

  predicate HasWritten(writes: seq<Write>, f: Fact) {
    exists i :: 0 <= i < |writes| && SameKey(writes[i].fact, f)
  }

  /** The transaction has uncommitted changes under the index entry of this (lead, type). */
  predicate Holds(x: Txn, f: Fact) {
    || HasWritten(x.writes, f)
    || (x.stage.AfterInsert? && SameKey(x.stage.fact, f))
    || (x.stage.AfterDemote? && x.stage.demoted.Some? && SameKey(x.stage.fact, f))
  }

  /** The transaction has updated this committed row and not yet ended. */
  predicate Locks(x: Txn, row: nat) {
    || (exists i :: 0 <= i < |x.writes| && x.writes[i].demoted == Some(row))
    || ((x.stage.AfterDemote? || x.stage.AfterInsert?) && x.stage.demoted == Some(row))
  }

  predicate Enabled(w: World, s: Step) {
    if s.Begin? then s.p !in w.txns
    else
      && s.p in w.txns
      && var x := w.txns[s.p];
         match s
         case Seek(p, f) => x.stage.Ready? && !HasWritten(x.writes, f)
         case Demote(p) =>
           && x.stage.Seeking?
           && (x.stage.seen.Some? ==>
                 forall q :: q in w.txns && q != p ==> !Locks(w.txns[q], x.stage.seen.value))
         case Insert(p) =>
           x.stage.AfterDemote? && forall q :: q in w.txns && q != p ==> !Holds(w.txns[q], x.stage.fact)
         case Link(_) => x.stage.AfterInsert?
         case Commit(_) => x.stage.Ready?
         case Abort(_) => !x.stage.Over?
  }

  /** The rows the third statement links, as the transaction sees them: not current, unlinked, of its lead and type. */
  function Unlinked(t: Table, f: Fact, demoted: Option<nat>): set<nat> {
    set i: nat | i < |t| && Same(t[i], f.leadId, f.kind) && (!t[i].current || demoted == Some(i))
                 && t[i].supersededBy.None?
  }

  /** What a committed write changes: the row it demoted, the rows it linked, and its own new row. */
  function Apply(t: Table, x: Write): (r: Table)
    ensures |r| == |t| + 1
  {
    var f := x.fact;
    seq(|t|, i requires 0 <= i < |t| =>
          t[i].(current := t[i].current && x.demoted != Some(i),
                supersededBy := if i in x.linked then Some(|t|) else t[i].supersededBy))
    + [Row(f.leadId, f.kind, f.value, f.source, true, None)]
  }

  function ApplyAll(t: Table, writes: seq<Write>): Table
    decreases |writes|
  {
    if writes == [] then t else ApplyAll(Apply(t, writes[0]), writes[1..])
  }

  function Put(w: World, p: nat, x: Txn): World {
    w.(txns := w.txns[p := x])
  }

  function Next(w: World, s: Step): World
    requires Enabled(w, s)
  {
    if s.Begin? then Put(w, s.p, Txn([], Ready))
    else
      var x := w.txns[s.p];
      match s
      case Seek(p, f) => Put(w, p, x.(stage := Seeking(f, CurrentOf(w.rows, f))))
      case Demote(p) =>
        var seen := x.stage.seen;
        var still := seen.Some? && seen.value < |w.rows| && w.rows[seen.value].current;
        Put(w, p, x.(stage := AfterDemote(x.stage.fact, seen, if still then seen else None)))
      case Insert(p) =>
        var c := CurrentOf(w.rows, x.stage.fact);
        Put(w, p, if c.Some? && c != x.stage.demoted then Txn([], Over)
                  else x.(stage := AfterInsert(x.stage.fact, x.stage.seen, x.stage.demoted)))
      case Link(p) =>
        var st := x.stage;
        var done := Write(st.fact, st.seen, st.demoted, Unlinked(w.rows, st.fact, st.demoted));
        Put(w, p, Txn(x.writes + [done], Ready))
      case Commit(p) => Put(w, p, Txn([], Over)).(rows := ApplyAll(w.rows, x.writes))
      case Abort(p) => Put(w, p, Txn([], Over))
  }

  // ---------- a commit is a sequence of whole writes ----------

  /** The write has seen, demoted and linked exactly the row that is current. */
  ghost predicate Exact(t: Table, x: Write) {
    && x.seen == x.demoted == CurrentOf(t, x.fact)
    && x.linked == if x.demoted.Some? then {x.demoted.value} else {}
  }

  ghost predicate AllExact(t: Table, writes: seq<Write>) {
    forall i :: 0 <= i < |writes| ==> Exact(t, writes[i])
  }

  ghost predicate DistinctKeys(writes: seq<Write>) {
    forall i, j :: 0 <= i < j < |writes| ==> !SameKey(writes[i].fact, writes[j].fact)
  }

  function WriteFact(t: Table, f: Fact): Table {
    WriteCurrent(t, f.leadId, f.kind, f.value, f.source)
  }

  function WriteAll(t: Table, writes: seq<Write>): Table
    decreases |writes|
  {
    if writes == [] then t else WriteAll(WriteFact(t, writes[0].fact), writes[1..])
  }

  lemma ApplyIsWrite(t: Table, x: Write)
    requires Chained(t) && Exact(t, x)
    ensures Apply(t, x) == WriteFact(t, x.fact)
  {
    var f := x.fact;
    forall i | 0 <= i < |t|
      ensures Apply(t, x)[i] == WriteFact(t, f)[i]
    {
      if Same(t[i], f.leadId, f.kind) && t[i].current {
        OneCurrentFact(t, i, x.demoted.value);
      }
    }
  }

  lemma CurrentAfterFact(t: Table, f: Fact, g: Fact)
    ensures CurrentOf(WriteFact(t, f), g) == if SameKey(f, g) then Some(|t|) else CurrentOf(t, g)
  {
    CurrentAfterWrite(t, f.leadId, f.kind, f.value, f.source, g.leadId, g.kind);
  }

  lemma RestStaysExact(t: Table, writes: seq<Write>)
    requires writes != [] && AllExact(t, writes) && DistinctKeys(writes)
    ensures AllExact(WriteFact(t, writes[0].fact), writes[1..]) && DistinctKeys(writes[1..])
  {
    hide CurrentOf, WriteFact;
    forall i | 0 <= i < |writes| - 1
      ensures Exact(WriteFact(t, writes[0].fact), writes[1..][i])
    {
      assert Exact(t, writes[i + 1]) && !SameKey(writes[0].fact, writes[i + 1].fact);
      CurrentAfterFact(t, writes[0].fact, writes[i + 1].fact);
    }
  }

  lemma {:induction false} ApplyAllIsWriteAll(t: Table, writes: seq<Write>)
    requires Chained(t) && AllExact(t, writes) && DistinctKeys(writes)
    ensures ApplyAll(t, writes) == WriteAll(t, writes) && Chained(WriteAll(t, writes))
    decreases |writes|
  {
    if writes != [] {
      var f := writes[0].fact;
      assert Exact(t, writes[0]);
      ApplyIsWrite(t, writes[0]);
      WriteKeepsChain(t, f.leadId, f.kind, f.value, f.source);
      RestStaysExact(t, writes);
      hide Chained, AllExact, DistinctKeys, Apply, WriteCurrent;
      ApplyAllIsWriteAll(WriteFact(t, f), writes[1..]);
    }
  }

  /** Committed rows keep their place, lead and type, and a (lead, type) changes its current row only if written. */
  lemma {:induction false} WriteAllEffect(t: Table, writes: seq<Write>, g: Fact)
    ensures var r := WriteAll(t, writes);
            && |t| <= |r| && (forall i :: 0 <= i < |t| ==> r[i].leadId == t[i].leadId && r[i].kind == t[i].kind)
            && (if HasWritten(writes, g) then CurrentOf(r, g).Some? && CurrentOf(r, g).value >= |t|
                else CurrentOf(r, g) == CurrentOf(t, g))
    decreases |writes|
  {
    if writes != [] {
      var f, rest := writes[0].fact, writes[1..];
      CurrentAfterFact(t, f, g);
      WriteAllEffect(WriteFact(t, f), rest, g);
      assert HasWritten(writes, g) <==> SameKey(f, g) || HasWritten(rest, g) by {
        if HasWritten(rest, g) {
          var i :| 0 <= i < |rest| && SameKey(rest[i].fact, g);
          assert writes[i + 1] == rest[i];
        }
        if HasWritten(writes, g) && !SameKey(f, g) {
          var i :| 0 <= i < |writes| && SameKey(writes[i].fact, g);
          assert writes[i] == rest[i - 1];
        }
      }
      hide CurrentOf, HasWritten, SameKey;
    }
  }

  // ---------- the invariant ----------

  /** What was seen as current is a row of that lead and type. */
  ghost predicate SawRow(t: Table, f: Fact, seen: Option<nat>) {
    seen.Some? ==> seen.value < |t| && Same(t[seen.value], f.leadId, f.kind)
  }

  ghost predicate StageOk(t: Table, x: Txn) {
    match x.stage
    case Ready => true
    case Seeking(f, seen) => !HasWritten(x.writes, f) && SawRow(t, f, seen)
    case AfterDemote(f, seen, demoted) =>
      && !HasWritten(x.writes, f) && SawRow(t, f, seen)
      && (demoted.Some? ==> demoted == seen == CurrentOf(t, f))
    case AfterInsert(f, seen, demoted) => !HasWritten(x.writes, f) && demoted == seen == CurrentOf(t, f)
    case Over => x.writes == []
  }

  ghost predicate TxnOk(t: Table, x: Txn) {
    AllExact(t, x.writes) && DistinctKeys(x.writes) && StageOk(t, x)
  }

  /** No (lead, type) is held by both. */
  ghost predicate Apart(x: Txn, y: Txn) {
    forall f :: !(Holds(x, f) && Holds(y, f))
  }

  ghost predicate Inv(w: World) {
    && Chained(w.rows)
    && (forall p :: p in w.txns ==> TxnOk(w.rows, w.txns[p]))
    && (forall p, q :: p in w.txns && q in w.txns && p != q ==> Apart(w.txns[p], w.txns[q]))
  }

  /** A transaction may change as long as it stays well formed and holds nothing that another one holds. */
  lemma PutKeepsInv(w: World, p: nat, x: Txn)
    requires Inv(w) && TxnOk(w.rows, x)
    requires forall q :: q in w.txns && q != p ==> Apart(x, w.txns[q])
    ensures Inv(Put(w, p, x))
  {
    hide TxnOk, Chained, Holds;
  }

  lemma NothingHeld(x: Txn, y: Txn)
    requires x.writes == [] && (x.stage.Ready? || x.stage.Over?)
    ensures Apart(x, y)
  {
  }

  lemma HoldsNoMore(x: Txn, y: Txn, z: Txn)
    requires Apart(x, z) && forall f :: Holds(y, f) ==> Holds(x, f)
    ensures Apart(y, z)
  {
    hide Holds;
  }

  lemma BeginKeepsInv(w: World, p: nat)
    requires Inv(w) && Enabled(w, Begin(p))
    ensures Inv(Next(w, Begin(p)))
  {
    hide Chained, Holds;
    forall q | q in w.txns && q != p
      ensures Apart(Txn([], Ready), w.txns[q])
    {
      NothingHeld(Txn([], Ready), w.txns[q]);
    }
    PutKeepsInv(w, p, Txn([], Ready));
  }

  lemma SeekKeepsInv(w: World, p: nat, f: Fact)
    requires Inv(w) && Enabled(w, Seek(p, f))
    ensures Inv(Next(w, Seek(p, f)))
  {
    var x, y := w.txns[p], Next(w, Seek(p, f)).txns[p];
    assert TxnOk(w.rows, x);
    forall q | q in w.txns && q != p
      ensures Apart(y, w.txns[q])
    {
      HoldsNoMore(x, y, w.txns[q]);
    }
    hide Chained, Holds, HasWritten, AllExact, DistinctKeys, Apart;
    PutKeepsInv(w, p, y);
  }

  /** Whoever holds the lead and type of a current row has updated that row, and holds it. */
  lemma HolderLocks(t: Table, x: Txn, f: Fact, row: nat)
    requires TxnOk(t, x) && Holds(x, f) && CurrentOf(t, f) == Some(row)
    ensures Locks(x, row)
  {
    if HasWritten(x.writes, f) {
      var i :| 0 <= i < |x.writes| && SameKey(x.writes[i].fact, f);
      assert Exact(t, x.writes[i]);
    }
    hide Current;
  }

  lemma CurrentIsTheRow(t: Table, f: Fact, row: nat)
    requires Chained(t) && row < |t| && t[row].current && Same(t[row], f.leadId, f.kind)
    ensures CurrentOf(t, f) == Some(row)
  {
    OneCurrentFact(t, row, CurrentOf(t, f).value);
  }

  lemma DemoteKeepsInv(w: World, p: nat)
    requires Inv(w) && Enabled(w, Demote(p))
    ensures Inv(Next(w, Demote(p)))
  {
    var x, y := w.txns[p], Next(w, Demote(p)).txns[p];
    var f := x.stage.fact;
    assert TxnOk(w.rows, x);
    if y.stage.demoted.Some? { CurrentIsTheRow(w.rows, f, y.stage.demoted.value); }
    forall q | q in w.txns && q != p
      ensures Apart(y, w.txns[q])
    {
      hide Chained, Current;
      assert Apart(x, w.txns[q]) && TxnOk(w.rows, w.txns[q]);
      forall g | Holds(y, g)
        ensures !Holds(w.txns[q], g)
      {
        if SameKey(f, g) && y.stage.demoted.Some? && Holds(w.txns[q], g) {
          HolderLocks(w.rows, w.txns[q], g, y.stage.demoted.value);
          assert false;
        }
        assert Holds(x, g) || (SameKey(f, g) && y.stage.demoted.Some?);
      }
    }
    hide Chained, Holds, HasWritten, AllExact, DistinctKeys, Apart, Current;
    PutKeepsInv(w, p, y);
  }

  /** An insert that meets no other current row has seen and demoted the one there is, if there is one. */
  lemma InsertHasSeen(t: Table, f: Fact, seen: Option<nat>, demoted: Option<nat>)
    requires Chained(t) && SawRow(t, f, seen) && (demoted.Some? ==> demoted == seen == CurrentOf(t, f))
    requires CurrentOf(t, f).None? || CurrentOf(t, f) == demoted
    ensures demoted == seen == CurrentOf(t, f)
  {
    if CurrentOf(t, f).None? && seen.Some? {
      NoCurrentNoRows(t, f.leadId, f.kind, seen.value);
      assert false;
    }
  }

  lemma InsertKeepsInv(w: World, p: nat)
    requires Inv(w) && Enabled(w, Insert(p))
    ensures Inv(Next(w, Insert(p)))
  {
    var x, y := w.txns[p], Next(w, Insert(p)).txns[p];
    var f := x.stage.fact;
    assert TxnOk(w.rows, x);
    if y.stage.AfterInsert? { InsertHasSeen(w.rows, f, x.stage.seen, x.stage.demoted); }
    forall q | q in w.txns && q != p
      ensures Apart(y, w.txns[q])
    {
      hide Chained, Current;
      assert Apart(x, w.txns[q]) && !Holds(w.txns[q], f);
      forall g | Holds(y, g)
        ensures !Holds(w.txns[q], g)
      {
        assert Holds(x, g) || SameKey(f, g);
      }
    }
    hide Chained, Holds, HasWritten, Apart, Current;
    PutKeepsInv(w, p, y);
  }

  /** In a chained table the third statement links the demoted row and no other. */
  lemma LinksTheDemoted(t: Table, f: Fact, demoted: Option<nat>)
    requires Chained(t) && demoted == CurrentOf(t, f)
    ensures Unlinked(t, f, demoted) == if demoted.Some? then {demoted.value} else {}
  {
  }

  lemma LinkKeepsInv(w: World, p: nat)
    requires Inv(w) && Enabled(w, Link(p))
    ensures Inv(Next(w, Link(p)))
  {
    var x, y := w.txns[p], Next(w, Link(p)).txns[p];
    assert TxnOk(w.rows, x);
    LinksTheDemoted(w.rows, x.stage.fact, x.stage.demoted);
    hide Chained, Current, Unlinked;
    assert Exact(w.rows, y.writes[|x.writes|]);
    assert y.writes[..|x.writes|] == x.writes;
    assert TxnOk(w.rows, y);
    forall q | q in w.txns && q != p
      ensures Apart(y, w.txns[q])
    {
      forall g | Holds(y, g)
        ensures Holds(x, g)
      {
        var i :| 0 <= i < |y.writes| && SameKey(y.writes[i].fact, g);
        assert i < |x.writes| ==> SameKey(x.writes[i].fact, g);
      }
      HoldsNoMore(x, y, w.txns[q]);
    }
    hide *;
    PutKeepsInv(w, p, y);
  }

  /** A commit leaves the others well formed: what they hold, it does not touch. */
  lemma CommitKeepsOther(t: Table, writes: seq<Write>, y: Txn)
    requires TxnOk(t, y) && forall f :: !(HasWritten(writes, f) && Holds(y, f))
    ensures TxnOk(WriteAll(t, writes), y)
  {
    var r := WriteAll(t, writes);
    hide Current, WriteAll, Same;
    forall i | 0 <= i < |y.writes|
      ensures Exact(r, y.writes[i])
    {
      assert Exact(t, y.writes[i]) && HasWritten(y.writes, y.writes[i].fact);
      WriteAllEffect(t, writes, y.writes[i].fact);
    }
    if y.stage.Seeking? || y.stage.AfterDemote? || y.stage.AfterInsert? {
      WriteAllEffect(t, writes, y.stage.fact);
      StillSaw(t, r, y.stage.fact, y.stage.seen);
    }
  }

  lemma StillSaw(t: Table, r: Table, f: Fact, seen: Option<nat>)
    requires |t| <= |r| && forall i :: 0 <= i < |t| ==> r[i].leadId == t[i].leadId && r[i].kind == t[i].kind
    ensures SawRow(t, f, seen) ==> SawRow(r, f, seen)
  {
  }

  lemma CommitKeepsInv(w: World, p: nat)
    requires Inv(w) && Enabled(w, Commit(p))
    ensures Inv(Next(w, Commit(p)))
    ensures Next(w, Commit(p)).rows == WriteAll(w.rows, w.txns[p].writes)
  {
    var x := w.txns[p];
    assert TxnOk(w.rows, x);
    ApplyAllIsWriteAll(w.rows, x.writes);
    var rows := WriteAll(w.rows, x.writes);
    hide Chained, WriteAll, ApplyAll, AllExact, DistinctKeys, StageOk;
    forall q | q in w.txns && q != p
      ensures TxnOk(rows, w.txns[q]) && Apart(Txn([], Over), w.txns[q])
    {
      assert Apart(x, w.txns[q]);
      assert forall f :: HasWritten(x.writes, f) ==> Holds(x, f);
      CommitKeepsOther(w.rows, x.writes, w.txns[q]);
      NothingHeld(Txn([], Over), w.txns[q]);
    }
    NothingWritten(rows);
    hide TxnOk, Holds, HasWritten;
    assert forall q :: q in w.txns && q != p ==> Apart(w.txns[q], Txn([], Over));
  }

  lemma NothingWritten(t: Table)
    ensures TxnOk(t, Txn([], Over)) && TxnOk(t, Txn([], Ready))
  {
  }

  lemma AbortKeepsInv(w: World, p: nat)
    requires Inv(w) && Enabled(w, Abort(p))
    ensures Inv(Next(w, Abort(p)))
  {
    hide Chained, Holds;
    forall q | q in w.txns && q != p
      ensures Apart(Txn([], Over), w.txns[q])
    {
      NothingHeld(Txn([], Over), w.txns[q]);
    }
    NothingWritten(w.rows);
    PutKeepsInv(w, p, Txn([], Over));
  }

  /** Every statement of every transaction keeps the chains, and keeps what each has done apart from the others. */
  lemma StepKeepsInv(w: World, s: Step)
    requires Inv(w) && Enabled(w, s)
    ensures Inv(Next(w, s))
  {
    hide *;
    match s
    case Begin(p) => BeginKeepsInv(w, p);
    case Seek(p, f) => SeekKeepsInv(w, p, f);
    case Demote(p) => DemoteKeepsInv(w, p);
    case Insert(p) => InsertKeepsInv(w, p);
    case Link(p) => LinkKeepsInv(w, p);
    case Commit(p) => CommitKeepsInv(w, p);
    case Abort(p) => AbortKeepsInv(w, p);
  }

  // ---------- over every interleaving of statements ----------

  ghost predicate Run(ws: seq<World>, steps: seq<Step>) {
    && |ws| == |steps| + 1
    && Chained(ws[0].rows) && ws[0].txns == map[]
    && forall i :: 0 <= i < |steps| ==> Enabled(ws[i], steps[i]) && ws[i + 1] == Next(ws[i], steps[i])
  }

  lemma {:induction false} RunKeepsInv(ws: seq<World>, steps: seq<Step>, n: nat)
    requires Run(ws, steps) && n < |ws|
    ensures Inv(ws[n])
    decreases n
  {
    hide Chained, Next, Enabled, TxnOk, Apart;
    if n > 0 {
      RunKeepsInv(ws, steps, n - 1);
      hide Inv;
      StepKeepsInv(ws[n - 1], steps[n - 1]);
    }
  }

  /**
   A commit is atomic: the table becomes what the transaction's writes give one after the other, each as the whole
   demote, insert and link; and the row each of them replaces is the one its demote saw, whatever committed since.
   */
  lemma CommitIsAtomic(ws: seq<World>, steps: seq<Step>, n: nat, i: nat)
    requires Run(ws, steps) && n < |steps| && steps[n].Commit? && i < |ws[n].txns[steps[n].p].writes|
    ensures var writes := ws[n].txns[steps[n].p].writes;
            && ws[n + 1].rows == WriteAll(ws[n].rows, writes)
            && writes[i].seen == CurrentOf(ws[n].rows, writes[i].fact)
  {
    RunKeepsInv(ws, steps, n);
    hide Chained, ApplyAll, WriteAll, Current;
    CommitKeepsInv(ws[n], steps[n].p);
    assert TxnOk(ws[n].rows, ws[n].txns[steps[n].p]);
    assert Exact(ws[n].rows, ws[n].txns[steps[n].p].writes[i]);
  }

  /** In every committed state between any two statements a lead has at most one current fact of a type. */
  lemma OneCurrentFactBetweenStatements(ws: seq<World>, steps: seq<Step>, n: nat, i: nat, j: nat)
    requires Run(ws, steps) && n < |ws|
    requires i < |ws[n].rows| && j < |ws[n].rows| && ws[n].rows[i].current && ws[n].rows[j].current
    requires Same(ws[n].rows[j], ws[n].rows[i].leadId, ws[n].rows[i].kind)
    ensures i == j
  {
    hide Chained, Run;
    RunKeepsInv(ws, steps, n);
    OneCurrentFact(ws[n].rows, i, j);
  }

  // ---------- which writer aborts ----------

  /** The step commits a write of this (lead, type). */
  predicate CommitsKey(w: World, s: Step, f: Fact) {
    s.Commit? && s.p in w.txns && HasWritten(w.txns[s.p].writes, f)
  }

  /** The demote's snapshot is taken at step m, and the insert of the same fact runs at step n. */
  ghost predicate Attempt(ws: seq<World>, steps: seq<Step>, m: nat, n: nat) {
    && Run(ws, steps) && m < n < |steps|
    && steps[m].Seek? && steps[n] == Insert(steps[m].p)
    && forall k :: m < k < n ==> steps[k] != Insert(steps[m].p)
  }

  /** Between snapshot and insert; `moved` says whether a write of the same (lead, type) was committed since. */
  ghost predicate Underway(w: World, p: nat, f: Fact, seen: Option<nat>, size: nat, moved: bool) {
    && p in w.txns && size <= |w.rows| && (seen.Some? ==> seen.value < size)
    && (w.txns[p].stage.Over? || w.txns[p].stage == Seeking(f, seen)
        || w.txns[p].stage == AfterDemote(f, seen, if moved then None else seen))
    && var c := CurrentOf(w.rows, f);
       if moved then c.Some? && c.value >= size else c == seen
  }

  lemma DemoteUnderway(w: World, p: nat, f: Fact, seen: Option<nat>, size: nat, moved: bool)
    requires Inv(w) && Enabled(w, Demote(p)) && Underway(w, p, f, seen, size, moved)
    ensures Underway(Next(w, Demote(p)), p, f, seen, size, moved)
  {
    assert TxnOk(w.rows, w.txns[p]);
    if seen.Some? && w.rows[seen.value].current { CurrentIsTheRow(w.rows, f, seen.value); }
    hide Chained, TxnOk, Holds, Apart;
  }

  lemma CommitUnderway(w: World, q: nat, p: nat, f: Fact, seen: Option<nat>, size: nat, moved: bool)
    requires Inv(w) && Enabled(w, Commit(q)) && Underway(w, p, f, seen, size, moved)
    ensures Underway(Next(w, Commit(q)), p, f, seen, size, moved || CommitsKey(w, Commit(q), f))
  {
    CommitKeepsInv(w, q);
    WriteAllEffect(w.rows, w.txns[q].writes, f);
    if p != q && HasWritten(w.txns[q].writes, f) { WriterKeepsOthersOut(w, q, p, f); }
    hide Inv, Current, WriteAll, ApplyAll, HasWritten;
  }

  lemma WriterKeepsOthersOut(w: World, q: nat, p: nat, f: Fact)
    requires Inv(w) && p in w.txns && q in w.txns && p != q && HasWritten(w.txns[q].writes, f)
    ensures var st := w.txns[p].stage;
            st.AfterDemote? && SameKey(st.fact, f) ==> st.demoted.None?
  {
    hide Chained, TxnOk, HasWritten;
    assert Apart(w.txns[q], w.txns[p]) && Holds(w.txns[q], f);
  }

  lemma StepUnderway(w: World, s: Step, p: nat, f: Fact, seen: Option<nat>, size: nat, moved: bool)
    requires Inv(w) && Enabled(w, s) && s != Insert(p) && Underway(w, p, f, seen, size, moved)
    ensures Underway(Next(w, s), p, f, seen, size, moved || CommitsKey(w, s, f))
  {
    hide Inv, Current, ApplyAll, HasWritten;
    if s.Commit? {
      CommitUnderway(w, s.p, p, f, seen, size, moved);
    } else if s == Demote(p) {
      DemoteUnderway(w, p, f, seen, size, moved);
    }
  }

  /** Whether a write of this (lead, type) was committed after step m and before step n. */
  ghost predicate Moved(ws: seq<World>, steps: seq<Step>, m: nat, n: nat, f: Fact)
    requires |steps| < |ws| && n <= |steps|
  {
    exists k :: m < k < n && CommitsKey(ws[k], steps[k], f)
  }

  lemma MovedStep(ws: seq<World>, steps: seq<Step>, m: nat, k: nat, f: Fact)
    requires |steps| < |ws| && m < k < |steps|
    ensures Moved(ws, steps, m, k + 1, f) <==> Moved(ws, steps, m, k, f) || CommitsKey(ws[k], steps[k], f)
  {
    hide CommitsKey;
  }

  lemma AttemptStep(ws: seq<World>, steps: seq<Step>, m: nat, n: nat, k: nat)
    requires Attempt(ws, steps, m, n) && m < k < n
    ensures Enabled(ws[k], steps[k]) && ws[k + 1] == Next(ws[k], steps[k]) && steps[k] != Insert(steps[m].p)
  {
    hide Enabled, Next, Chained;
  }

  lemma SnapshotUnderway(w: World, p: nat, f: Fact)
    requires Enabled(w, Seek(p, f))
    ensures Underway(Next(w, Seek(p, f)), p, f, CurrentOf(w.rows, f), |w.rows|, false)
  {
    hide HasWritten;
  }

  lemma AttemptBegins(ws: seq<World>, steps: seq<Step>, m: nat, n: nat)
    requires Attempt(ws, steps, m, n)
    ensures Enabled(ws[m], steps[m]) && ws[m + 1] == Next(ws[m], steps[m])
    ensures !Moved(ws, steps, m, m + 1, steps[m].fact)
  {
    hide Enabled, Next, Chained;
  }

  lemma AttemptRuns(ws: seq<World>, steps: seq<Step>, m: nat, n: nat)
    requires Attempt(ws, steps, m, n)
    ensures Run(ws, steps) && m < n < |steps| < |ws| && steps[m].Seek?
  {
    hide Run, Chained;
    assert Run(ws, steps);
    RunLength(ws, steps);
  }

  lemma RunLength(ws: seq<World>, steps: seq<Step>)
    requires Run(ws, steps)
    ensures |ws| == |steps| + 1
  {
  }

  lemma {:induction false} AttemptUnderway(ws: seq<World>, steps: seq<Step>, m: nat, n: nat, k: nat)
    requires Attempt(ws, steps, m, n) && m < k <= n
    ensures Underway(ws[k], steps[m].p, steps[m].fact, CurrentOf(ws[m].rows, steps[m].fact), |ws[m].rows|,
                     Moved(ws, steps, m, k, steps[m].fact))
    decreases k
  {
    hide *;
    AttemptRuns(ws, steps, m, n);
    var p, f := steps[m].p, steps[m].fact;
    if k == m + 1 {
      AttemptBegins(ws, steps, m, n);
      SnapshotUnderway(ws[m], p, f);
    } else {
      AttemptUnderway(ws, steps, m, n, k - 1);
      RunKeepsInv(ws, steps, k - 1);
      AttemptStep(ws, steps, m, n, k - 1);
      var moved := Moved(ws, steps, m, k - 1, f);
      MovedStep(ws, steps, m, k - 1, f);
      assert Moved(ws, steps, m, k, f) == (moved || CommitsKey(ws[k - 1], steps[k - 1], f));
      StepUnderway(ws[k - 1], steps[k - 1], p, f, CurrentOf(ws[m].rows, f), |ws[m].rows|, moved);
    }
  }

  /**
   Exactly when a writer fails on the unique index: some transaction committed a write of the same (lead, type) after
   the snapshot of its demote. A writer that passes the insert has demoted what was current then.
   */
  lemma InsertFailsIff(ws: seq<World>, steps: seq<Step>, m: nat, n: nat)
    requires Attempt(ws, steps, m, n)
    ensures var f, after := steps[m].fact, ws[n + 1].txns[steps[m].p];
            && (after.stage.Over? <==> Moved(ws, steps, m, n, f))
            && (!after.stage.Over? ==> after.stage.AfterInsert? && after.stage.demoted == CurrentOf(ws[m].rows, f))
  {
    AttemptUnderway(ws, steps, m, n, n);
    assert ws[n + 1] == Next(ws[n], steps[n]);
    hide Run, Current, Moved, Holds;
  }

  // ---------- the atomic machine ----------

  lemma RacesSnoc(rs: seq<Races.World>, rsteps: seq<Races.Step>, s: Races.Step)
    requires Races.Run(rs, rsteps) && Races.Enabled(rs[|rsteps|], s)
    ensures Races.Run(rs + [Races.Next(rs[|rsteps|], s)], rsteps + [s])
  {
    hide Races.Next, Races.Enabled, Chained;
  }

  /** The whole writes of a commit, as steps of the machine in which a write is one step. */
  lemma {:induction false} WritesAsSteps(rs: seq<Races.World>, rsteps: seq<Races.Step>, writes: seq<Write>)
    returns (rs': seq<Races.World>, rsteps': seq<Races.Step>)
    requires Races.Run(rs, rsteps)
    ensures Races.Run(rs', rsteps') && rs <= rs'
    ensures rs'[|rsteps'|].rows == WriteAll(rs[|rsteps|].rows, writes)
    decreases |writes|
  {
    if writes == [] {
      rs', rsteps' := rs, rsteps;
    } else {
      var f := writes[0].fact;
      var s := Races.Other(f.leadId, f.kind, f.value, f.source);
      RacesSnoc(rs, rsteps, s);
      rs', rsteps' := WritesAsSteps(rs + [Races.Next(rs[|rsteps|], s)], rsteps + [s], writes[1..]);
    }
  }

  /** Each of the first n + 1 committed tables is one of the tables of the other run. */
  ghost predicate Occur(rs: seq<Races.World>, ws: seq<World>, n: nat)
    requires n < |ws|
  {
    forall k :: 0 <= k <= n ==> exists i :: 0 <= i < |rs| && rs[i].rows == ws[k].rows
  }

  /**
   Every interleaving of statements is an interleaving of whole writes: the tables committed along it all occur, in a
   run of the machine of GooglePlaceFactRaces, and the last one is that run's last.
   */
  lemma {:induction false} StatementsAreWrites(ws: seq<World>, steps: seq<Step>, n: nat)
    returns (rs: seq<Races.World>, rsteps: seq<Races.Step>)
    requires Run(ws, steps) && n < |ws|
    ensures Races.Run(rs, rsteps) && rs[|rsteps|].rows == ws[n].rows && Occur(rs, ws, n)
    decreases n
  {
    if n == 0 {
      rs, rsteps := [Races.World(ws[0].rows, map[])], [];
      assert rs[0].rows == ws[0].rows;
    } else {
      rs, rsteps := StatementsAreWrites(ws, steps, n - 1);
      var before := rs;
      RunKeepsInv(ws, steps, n - 1);
      RunSteps(ws, steps, n - 1);
      hide *;
      rs, rsteps := StepAsWrites(rs, rsteps, ws[n - 1], steps[n - 1]);
      StillOccur(before, rs, ws, n, |rsteps|);
    }
  }

  lemma RunSteps(ws: seq<World>, steps: seq<Step>, i: nat)
    requires Run(ws, steps) && i < |steps|
    ensures i + 1 < |ws| && Enabled(ws[i], steps[i]) && ws[i + 1] == Next(ws[i], steps[i])
  {
    hide Enabled, Next;
  }

  /** One statement is no whole write, or a commit: those of its transaction. */
  lemma StepAsWrites(rs: seq<Races.World>, rsteps: seq<Races.Step>, w: World, s: Step)
    returns (rs': seq<Races.World>, rsteps': seq<Races.Step>)
    requires Inv(w) && Enabled(w, s)
    requires Races.Run(rs, rsteps) && rs[|rsteps|].rows == w.rows
    ensures Races.Run(rs', rsteps') && rs <= rs' && rs'[|rsteps'|].rows == Next(w, s).rows
  {
    rs', rsteps' := rs, rsteps;
    if s.Commit? {
      CommitKeepsInv(w, s.p);
      hide Races.Run, Inv, WriteAll, Next;
      rs', rsteps' := WritesAsSteps(rs, rsteps, w.txns[s.p].writes);
    } else {
      hide Races.Run, Inv, Enabled;
    }
  }

  lemma StillOccur(before: seq<Races.World>, rs: seq<Races.World>, ws: seq<World>, n: nat, last: nat)
    requires before <= rs && 0 < n < |ws| && last < |rs| && rs[last].rows == ws[n].rows
    requires Occur(before, ws, n - 1)
    ensures Occur(rs, ws, n)
  {
    forall k | 0 <= k <= n
      ensures exists i :: 0 <= i < |rs| && rs[i].rows == ws[k].rows
    {
      if k < n {
        var i :| 0 <= i < |before| && before[i].rows == ws[k].rows;
        assert rs[i] == before[i];
      }
    }
  }
}
