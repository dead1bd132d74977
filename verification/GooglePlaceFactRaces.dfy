/**
 Overlapping fact writers (src/persistence/google-place-details-store.ts): each fact is read, and later written, in
 separate statements under read-committed isolation, so other transactions can commit in between.

 A step is what other transactions can tell apart: the read that decides, and the write as it becomes visible.
 FactWriteStatements shows that the three statements of a write, however they interleave, commit nothing that whole
 writes would not, and which writer aborts.
 */
module GooglePlaceFactRaces {
  import opened Wrappers
  import opened GooglePlaceFacts

  datatype Writer = Persist | Backfill

  // One fact on its way through a writer: the decision its read led to, and whether it has been carried out.
  datatype Call = Call(leadId: string, fact: (FactType, string), writes: bool, done: bool)

  datatype World = World(rows: Table, calls: map<nat, Call>)

  datatype Step =
    | Check(p: nat, writer: Writer, leadId: string, fact: (FactType, string))
    | Act(p: nat)
    | Abort(p: nat)
    | Other(leadId: string, kind: FactType, value: string, source: Source)

  /** What the writer decides on the rows it reads. */
  predicate WouldWrite(t: Table, writer: Writer, leadId: string, fact: (FactType, string)) {
    match writer
    case Persist => !PersistSkips(t, leadId, fact)
    case Backfill => Current(t, leadId, fact.0).None?
  }

  predicate Enabled(w: World, s: Step) {
    match s
    case Check(p, _, _, _) => p !in w.calls
    case Act(p) => p in w.calls && !w.calls[p].done
    case Abort(p) => p in w.calls && !w.calls[p].done
    case Other(_, _, _, _) => true
  }

  function Next(w: World, s: Step): World
    requires Enabled(w, s)
  {
    match s
    case Check(p, writer, leadId, fact) =>
      w.(calls := w.calls[p := Call(leadId, fact, WouldWrite(w.rows, writer, leadId, fact), false)])
    case Act(p) =>
      var c := w.calls[p];
      World(if c.writes then WriteCurrent(w.rows, c.leadId, c.fact.0, c.fact.1, GooglePlaces) else w.rows,
            w.calls[p := c.(done := true)])
    case Abort(p) => w.(calls := w.calls[p := w.calls[p].(done := true)])
    case Other(leadId, kind, value, source) => w.(rows := WriteCurrent(w.rows, leadId, kind, value, source))
  }

  ghost predicate Run(ws: seq<World>, steps: seq<Step>) {
    && |ws| == |steps| + 1
    && Chained(ws[0].rows) && ws[0].calls == map[]
    && forall i :: 0 <= i < |steps| ==> Enabled(ws[i], steps[i]) && ws[i + 1] == Next(ws[i], steps[i])
  }

  // ---------- what holds over every interleaving ----------

  lemma StepKeepsChains(w: World, s: Step)
    requires Enabled(w, s) && Chained(w.rows)
    ensures Chained(Next(w, s).rows)
  {
    hide Chained, WriteCurrent;
    match s
    case Check(_, _, _, _) =>
    case Act(p) =>
      var c := w.calls[p];
      WriteKeepsChain(w.rows, c.leadId, c.fact.0, c.fact.1, GooglePlaces);
    case Abort(_) =>
    case Other(leadId, kind, value, source) =>
      WriteKeepsChain(w.rows, leadId, kind, value, source);
  }

  lemma {:induction false} RunKeepsChains(ws: seq<World>, steps: seq<Step>, n: nat)
    requires Run(ws, steps) && n < |ws|
    ensures Chained(ws[n].rows)
    decreases n
  {
    hide Chained, Next;
    if n > 0 {
      RunKeepsChains(ws, steps, n - 1);
      StepKeepsChains(ws[n - 1], steps[n - 1]);
    }
  }

  /** In every state of every interleaving a lead has at most one current fact of a type. */
  lemma OneCurrentFactAlways(ws: seq<World>, steps: seq<Step>, n: nat, i: nat, j: nat)
    requires Run(ws, steps) && n < |ws|
    requires i < |ws[n].rows| && j < |ws[n].rows| && ws[n].rows[i].current && ws[n].rows[j].current
    requires Same(ws[n].rows[j], ws[n].rows[i].leadId, ws[n].rows[i].kind)
    ensures i == j
  {
    hide Chained, Run;
    RunKeepsChains(ws, steps, n);
    OneCurrentFact(ws[n].rows, i, j);
  }

  // ---------- the current row of one (lead, type) ----------

  function CurrentRow(t: Table, leadId: string, kind: FactType): Option<Row> {
    match Current(t, leadId, kind)
    case None => None
    case Some(i) => Some(t[i])
  }

  /** The step puts a row of this (lead, type) into the table. */
  predicate WritesKey(w: World, s: Step, leadId: string, kind: FactType) {
    match s
    case Act(p) => p in w.calls && w.calls[p].writes && w.calls[p].leadId == leadId && w.calls[p].fact.0 == kind
    case Other(l, k, _, _) => l == leadId && k == kind
    case _ => false
  }

  predicate ForeignWrite(s: Step) {
    s.Other? && s.source != GooglePlaces
  }

  lemma CurrentRowAfterWrite(t: Table, l: string, k: FactType, value: string, source: Source, leadId: string,
                             kind: FactType)
    ensures CurrentRow(WriteCurrent(t, l, k, value, source), leadId, kind)
         == if l == leadId && k == kind then Some(Row(l, k, value, source, true, None)) else CurrentRow(t, leadId, kind)
  {
    CurrentAfterWrite(t, l, k, value, source, leadId, kind);
    hide Current;
  }

  lemma StepOnKey(w: World, s: Step, leadId: string, kind: FactType)
    requires Enabled(w, s)
    ensures var after := CurrentRow(Next(w, s).rows, leadId, kind);
            if WritesKey(w, s, leadId, kind)
            then after.Some? && (after.value.source != GooglePlaces <==> ForeignWrite(s))
            else after == CurrentRow(w.rows, leadId, kind)
  {
    hide CurrentRow, WriteCurrent, WouldWrite;
    match s
    case Check(_, _, _, _) =>
    case Act(p) =>
      var c := w.calls[p];
      CurrentRowAfterWrite(w.rows, c.leadId, c.fact.0, c.fact.1, GooglePlaces, leadId, kind);
    case Abort(_) =>
    case Other(l, k, value, source) =>
      CurrentRowAfterWrite(w.rows, l, k, value, source, leadId, kind);
  }

  ghost predicate Quiet(ws: seq<World>, steps: seq<Step>, lo: nat, hi: nat, leadId: string, kind: FactType)
    requires |steps| < |ws| && hi <= |steps|
  {
    forall k :: lo <= k < hi ==> !WritesKey(ws[k], steps[k], leadId, kind)
  }

  /** Step j is the last write of this (lead, type) after step m and before step n. */
  ghost predicate LastWrite(ws: seq<World>, steps: seq<Step>, m: nat, j: nat, n: nat, leadId: string, kind: FactType)
    requires |steps| < |ws| && n <= |steps|
  {
    m < j < n && WritesKey(ws[j], steps[j], leadId, kind) && Quiet(ws, steps, j + 1, n, leadId, kind)
  }

  lemma {:induction false} QuietKeepsRow(ws: seq<World>, steps: seq<Step>, lo: nat, hi: nat, leadId: string,
                                         kind: FactType)
    requires Run(ws, steps) && lo <= hi <= |steps| && Quiet(ws, steps, lo, hi, leadId, kind)
    ensures CurrentRow(ws[hi].rows, leadId, kind) == CurrentRow(ws[lo].rows, leadId, kind)
    decreases hi - lo
  {
    hide Next, CurrentRow, WritesKey;
    if lo < hi {
      StepOnKey(ws[hi - 1], steps[hi - 1], leadId, kind);
      QuietKeepsRow(ws, steps, lo, hi - 1, leadId, kind);
    }
  }

  lemma {:induction false} FindLastWrite(ws: seq<World>, steps: seq<Step>, m: nat, n: nat, leadId: string,
                                         kind: FactType)
    returns (j: nat)
    requires |steps| < |ws| && m < n <= |steps|
    ensures if Quiet(ws, steps, m + 1, n, leadId, kind) then true else LastWrite(ws, steps, m, j, n, leadId, kind)
    decreases n - m
  {
    hide WritesKey;
    j := 0;
    if m + 1 < n {
      if WritesKey(ws[n - 1], steps[n - 1], leadId, kind) {
        j := n - 1;
      } else {
        j := FindLastWrite(ws, steps, m, n - 1, leadId, kind);
      }
    }
  }

  // ---------- the window between a check and its act ----------

  /** A fact is checked at step m and acted on at step n. */
  ghost predicate Window(ws: seq<World>, steps: seq<Step>, m: nat, n: nat) {
    && Run(ws, steps) && m < n < |steps|
    && steps[m].Check? && steps[n] == Act(steps[m].p)
  }

  lemma {:induction false} CallWaits(ws: seq<World>, steps: seq<Step>, m: nat, k: nat)
    requires Run(ws, steps) && m < k < |ws| && steps[m].Check?
    ensures var c := steps[m];
            && c.p in ws[k].calls
            && ws[k].calls[c.p].(done := false)
               == Call(c.leadId, c.fact, WouldWrite(ws[m].rows, c.writer, c.leadId, c.fact), false)
    decreases k
  {
    hide WouldWrite, WriteCurrent, Chained;
    assert ws[k] == Next(ws[k - 1], steps[k - 1]);
    if k - 1 > m { CallWaits(ws, steps, m, k - 1); }
  }

  /** Just before it acts, the current row is what the check saw, unless something wrote in between. */
  lemma RowAtAct(ws: seq<World>, steps: seq<Step>, m: nat, n: nat) returns (j: nat)
    requires Window(ws, steps, m, n)
    ensures var l, kind := steps[m].leadId, steps[m].fact.0;
            var row := CurrentRow(ws[n].rows, l, kind);
            if Quiet(ws, steps, m + 1, n, l, kind) then row == CurrentRow(ws[m].rows, l, kind)
            else
              && LastWrite(ws, steps, m, j, n, l, kind) && row.Some?
              && (row.value.source != GooglePlaces <==> ForeignWrite(steps[j]))
  {
    var l, kind := steps[m].leadId, steps[m].fact.0;
    assert ws[m + 1] == Next(ws[m], steps[m]) && ws[m + 1].rows == ws[m].rows;
    hide CurrentRow, WritesKey;
    j := FindLastWrite(ws, steps, m, n, l, kind);
    if Quiet(ws, steps, m + 1, n, l, kind) {
      QuietKeepsRow(ws, steps, m + 1, n, l, kind);
    } else {
      assert ws[j + 1] == Next(ws[j], steps[j]);
      StepOnKey(ws[j], steps[j], l, kind);
      QuietKeepsRow(ws, steps, j + 1, n, l, kind);
    }
  }

  lemma LastWriteIsUnique(ws: seq<World>, steps: seq<Step>, m: nat, i: nat, j: nat, n: nat, leadId: string,
                          kind: FactType)
    requires |steps| < |ws| && n <= |steps|
    requires LastWrite(ws, steps, m, i, n, leadId, kind) && LastWrite(ws, steps, m, j, n, leadId, kind)
    ensures i == j
  {
    hide WritesKey;
  }

  /** Some current row of another source is changed. */
  ghost predicate DisplacesForeign(t: Table, t': Table) {
    exists i: nat :: i < |t'| && Foreign(t, i) && t'[i] != t[i]
  }

  /** Some current row, of whatever source, is changed. */
  ghost predicate Overwrites(t: Table, t': Table) {
    exists i: nat :: i < |t| && i < |t'| && t[i].current && t'[i] != t[i]
  }

  /** What one Google write does to current rows: it changes the one of its (lead, type), if there is one. */
  lemma WriteDisplaces(t: Table, leadId: string, f: (FactType, string))
    requires Chained(t)
    ensures var row, t' := CurrentRow(t, leadId, f.0), WriteCurrent(t, leadId, f.0, f.1, GooglePlaces);
            && (Overwrites(t, t') <==> row.Some?)
            && (DisplacesForeign(t, t') <==> row.Some? && row.value.source != GooglePlaces)
  {
    var t' := WriteCurrent(t, leadId, f.0, f.1, GooglePlaces);
    var c := Current(t, leadId, f.0);
    if c.Some? {
      assert t'[c.value] != t[c.value];
      forall i: nat | i < |t| && t[i].current && t'[i] != t[i]
        ensures i == c.value
      {
        OneCurrentFact(t, i, c.value);
      }
    }
  }

  lemma ActOnTable(ws: seq<World>, steps: seq<Step>, m: nat, n: nat)
    requires Window(ws, steps, m, n)
    ensures var c := steps[m];
            ws[n + 1].rows == if WouldWrite(ws[m].rows, c.writer, c.leadId, c.fact)
                              then WriteCurrent(ws[n].rows, c.leadId, c.fact.0, c.fact.1, GooglePlaces) else ws[n].rows
  {
    hide WouldWrite, WriteCurrent, Chained;
    CallWaits(ws, steps, m, n);
    assert ws[n + 1] == Next(ws[n], steps[n]);
  }

  /**
   Exactly when a Google writer displaces a fact of another source: its check decided to write, and of all writes of
   that (lead, type) committed between check and act the last came from another source.
   */
  lemma DisplacesIff(ws: seq<World>, steps: seq<Step>, m: nat, n: nat)
    requires Window(ws, steps, m, n)
    ensures var c := steps[m];
            DisplacesForeign(ws[n].rows, ws[n + 1].rows)
            <==> && WouldWrite(ws[m].rows, c.writer, c.leadId, c.fact)
                 && exists j: nat :: LastWrite(ws, steps, m, j, n, c.leadId, c.fact.0) && ForeignWrite(steps[j])
  {
    var c := steps[m];
    RunKeepsChains(ws, steps, n);
    ActOnTable(ws, steps, m, n);
    WriteDisplaces(ws[n].rows, c.leadId, c.fact);
    var j := RowAtAct(ws, steps, m, n);
    forall i: nat | LastWrite(ws, steps, m, i, n, c.leadId, c.fact.0)
      ensures i == j
    {
      if !Quiet(ws, steps, m + 1, n, c.leadId, c.fact.0) {
        LastWriteIsUnique(ws, steps, m, i, j, n, c.leadId, c.fact.0);
      }
    }
    hide Chained, WriteCurrent, Run, WritesKey, DisplacesForeign, Overwrites, LastWrite, Quiet;
  }

  /**
   Exactly when backfillMissing overwrites a current fact: its check found the type missing, and something wrote that
   (lead, type) between check and act.
   */
  lemma MissingOnlyFailsIff(ws: seq<World>, steps: seq<Step>, m: nat, n: nat)
    requires Window(ws, steps, m, n) && steps[m].writer == Backfill
    ensures var c := steps[m];
            Overwrites(ws[n].rows, ws[n + 1].rows)
            <==> && Current(ws[m].rows, c.leadId, c.fact.0).None?
                 && !Quiet(ws, steps, m + 1, n, c.leadId, c.fact.0)
  {
    var c := steps[m];
    RunKeepsChains(ws, steps, n);
    ActOnTable(ws, steps, m, n);
    WriteDisplaces(ws[n].rows, c.leadId, c.fact);
    var j := RowAtAct(ws, steps, m, n);
    hide Chained, WriteCurrent, Run, WritesKey, DisplacesForeign, LastWrite, Quiet, Current;
    assert !Overwrites(ws[n].rows, ws[n].rows);
  }

  // ---------- without overlap, the machine is the sequential writer ----------

  /** One call that no other transaction interrupts: every fact is checked and at once acted on. */
  function Alone(w: World, writer: Writer, leadId: string, facts: Facts, p: nat): World
    requires forall q :: q in w.calls ==> q < p
    decreases |facts|
  {
    if facts == [] then w
    else
      var w' := Next(Next(w, Check(p, writer, leadId, facts[0])), Act(p));
      Alone(w', writer, leadId, facts[1..], p + 1)
  }

  lemma {:induction false} AloneIsPersist(w: World, leadId: string, facts: Facts, p: nat)
    requires forall q :: q in w.calls ==> q < p
    ensures Alone(w, Persist, leadId, facts, p).rows == PersistFacts(w.rows, leadId, facts)
    decreases |facts|
  {
    hide PersistSkips, WriteCurrent;
    if facts != [] {
      AloneIsPersist(Next(Next(w, Check(p, Persist, leadId, facts[0])), Act(p)), leadId, facts[1..], p + 1);
    }
  }

  lemma {:induction false} AloneIsBackfill(w: World, b: Backfilled, leadId: string, facts: Facts, p: nat)
    requires (forall q :: q in w.calls ==> q < p) && b.table == w.rows
    ensures Alone(w, Backfill, leadId, facts, p).rows == BackfillFacts(b, leadId, facts).table
    decreases |facts|
  {
    hide Current, WriteCurrent;
    if facts != [] {
      var w' := Next(Next(w, Check(p, Backfill, leadId, facts[0])), Act(p));
      var b' := if Current(w.rows, leadId, facts[0].0).Some? then b.(skipped := b.skipped + [facts[0].0])
                else Backfilled(w'.rows, b.written + [facts[0].0], b.skipped);
      AloneIsBackfill(w', b', leadId, facts[1..], p + 1);
    }
  }

  // ---------- a run in which precedence fails ----------

  /** Either writer, with an empty table, overtaken by a manual write between its check and its act. */
  function Overtaken(writer: Writer): seq<Step> {
    [Check(0, writer, "lead", (Phone, "1")), Other("lead", Phone, "2", Manual), Act(0)]
  }

  /** The manual fact is displaced by the Google one, whichever writer it was. */
  lemma ManualFactCanBeDisplaced(writer: Writer) returns (ws: seq<World>)
    ensures Run(ws, Overtaken(writer)) && Window(ws, Overtaken(writer), 0, 2)
    ensures DisplacesForeign(ws[2].rows, ws[3].rows)
  {
    var steps := Overtaken(writer);
    var w0 := World([], map[]);
    assert Current([], "lead", Phone) == None;
    var w1 := Next(w0, steps[0]);
    var w2 := Next(w1, steps[1]);
    var w3 := Next(w2, steps[2]);
    ws := [w0, w1, w2, w3];
    assert WouldWrite(w0.rows, writer, "lead", (Phone, "1"));
    assert w2.rows == [Row("lead", Phone, "2", Manual, true, None)];
    assert Foreign(w2.rows, 0) && w3.rows[0] == Demoted(w2.rows[0], "lead", Phone, 1);
    forall i | 0 <= i < |steps|
      ensures Enabled(ws[i], steps[i]) && ws[i + 1] == Next(ws[i], steps[i])
    {
      assert i == 0 || i == 1 || i == 2;
    }
    hide Next, WriteCurrent;
  }
}
