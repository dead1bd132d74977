/** Exactly when wrapping an error changes its verdict (src/utils/network-error-classification.ts). */
module NetworkErrorWrapping {
  import opened Wrappers
  import opened NetworkErrors

  // ---------- the precedence of codes, as a number ----------

  /** How early a code is tested for; 5 is a code no test looks for. */
  function Rank(code: string): (r: nat)
    ensures r <= 5
  {
    if code in TIMEOUT_CODES then 0
    else if code in DNS_CODES then 1
    else if code in TLS_CODES then 2
    else if code in CONNECT_CODES then 3
    else if TlsLike(code) then 4
    else 5
  }

  function Min(a: nat, b: nat): nat { if a <= b then a else b }

  /** The best rank among the codes; 6 when there is none. */
  function BestRank(codes: seq<string>): (r: nat)
    ensures r <= 6
  {
    if codes == [] then 6 else Min(Rank(codes[0]), BestRank(codes[1..]))
  }

  function StageOf(rank: nat): Stage {
    match rank
    case 0 => TIMEOUT
    case 1 => DNS
    case 2 => TLS
    case 3 => TCP_CONNECT
    case 4 => TLS
    case _ => UNKNOWN
  }

  lemma HasStep(codes: seq<string>, members: set<string>)
    requires codes != []
    ensures Has(codes, members) <==> codes[0] in members || Has(codes[1..], members)
  {
    if i :| 0 <= i < |codes| && codes[i] in members { assert i > 0 ==> codes[1..][i - 1] in members; }
    if i :| 0 <= i < |codes[1..]| && codes[1..][i] in members { assert codes[i + 1] in members; }
  }

  lemma TlsLikeStep(codes: seq<string>)
    requires codes != []
    ensures HasTlsLike(codes) <==> TlsLike(codes[0]) || HasTlsLike(codes[1..])
  {
    hide TlsLike;
    if i :| 0 <= i < |codes| && TlsLike(codes[i]) { assert i > 0 ==> TlsLike(codes[1..][i - 1]); }
    if i :| 0 <= i < |codes[1..]| && TlsLike(codes[1..][i]) { assert TlsLike(codes[i + 1]); }
  }

  lemma {:induction false} BestRankFinds(codes: seq<string>)
    ensures BestRank(codes) <= 0 <==> Has(codes, TIMEOUT_CODES)
    ensures BestRank(codes) <= 1 <==> Has(codes, TIMEOUT_CODES) || Has(codes, DNS_CODES)
    ensures BestRank(codes) <= 2 <==> Has(codes, TIMEOUT_CODES) || Has(codes, DNS_CODES) || Has(codes, TLS_CODES)
    ensures BestRank(codes) <= 3 <==> Has(codes, TIMEOUT_CODES) || Has(codes, DNS_CODES) || Has(codes, TLS_CODES)
                                      || Has(codes, CONNECT_CODES)
    ensures BestRank(codes) <= 4 <==> Has(codes, TIMEOUT_CODES) || Has(codes, DNS_CODES) || Has(codes, TLS_CODES)
                                      || Has(codes, CONNECT_CODES) || HasTlsLike(codes)
  {
    if codes != [] {
      HasStep(codes, TIMEOUT_CODES);
      HasStep(codes, DNS_CODES);
      HasStep(codes, TLS_CODES);
      HasStep(codes, CONNECT_CODES);
      TlsLikeStep(codes);
      hide Has, HasTlsLike, TlsLike;
      BestRankFinds(codes[1..]);
    }
  }

  lemma DetailedStep(codes: seq<string>)
    requires codes != []
    ensures if codes[0] == WRAPPER then Detailed(codes) == Detailed(codes[1..])
            else Detailed(codes) != [] && Detailed(codes)[0] == codes[0] && Detailed(codes)[1..] == Detailed(codes[1..])
  {
  }

  lemma {:induction false} DetailedHas(codes: seq<string>, members: set<string>)
    requires WRAPPER !in members
    ensures Has(Detailed(codes), members) <==> Has(codes, members)
  {
    if codes != [] {
      DetailedStep(codes);
      HasStep(codes, members);
      DetailedHas(codes[1..], members);
      hide Has, Detailed;
      if codes[0] != WRAPPER { HasStep(Detailed(codes), members); }
    }
  }

  lemma {:induction false} DetailedTlsLike(codes: seq<string>)
    ensures HasTlsLike(Detailed(codes)) <==> HasTlsLike(codes)
  {
    if codes != [] {
      WrapperIsGeneric();
      DetailedStep(codes);
      hide HasTlsLike, TlsLike, Detailed;
      TlsLikeStep(codes);
      DetailedTlsLike(codes[1..]);
      if codes[0] != WRAPPER { TlsLikeStep(Detailed(codes)); }
    } else {
      assert Detailed([]) == [];
    }
  }

  lemma UsedHas(codes: seq<string>, members: set<string>)
    requires WRAPPER !in members
    ensures Has(Used(codes), members) <==> Has(codes, members)
  {
    DetailedHas(codes, members);
    hide Has, Detailed;
  }

  lemma UsedTlsLike(codes: seq<string>)
    ensures HasTlsLike(Used(codes)) <==> HasTlsLike(codes)
  {
    DetailedTlsLike(codes);
    hide HasTlsLike, Detailed;
  }

  /** The stage is that of the best rank among all codes, the wrapper's own included. */
  lemma StageIsBestRank(codes: seq<string>)
    ensures Classify(codes).stage == StageOf(BestRank(codes))
    ensures Classify(codes).retryable <==> StageOf(BestRank(codes)) != TLS
  {
    WrapperInNoSet();
    hide Classify, Has, HasTlsLike, BestRank, Detailed, Used;
    StagePrecedence(codes);
    BestRankFinds(codes);
    UsedHas(codes, TIMEOUT_CODES);
    UsedHas(codes, DNS_CODES);
    UsedHas(codes, TLS_CODES);
    UsedHas(codes, CONNECT_CODES);
    UsedTlsLike(codes);
    StageFromFacts(Classify(codes).stage, BestRank(codes));
  }

  lemma StageFromFacts(stage: Stage, rank: nat)
    requires stage == TIMEOUT <==> rank == 0
    requires stage == DNS <==> rank == 1
    requires stage == TLS <==> rank == 2 || rank == 4
    requires stage == TCP_CONNECT <==> rank == 3
    requires rank <= 6 && (rank >= 5 ==> stage == UNKNOWN)
    ensures stage == StageOf(rank)
  {
  }

  lemma {:induction false} BestRankAppend(a: seq<string>, b: seq<string>)
    ensures BestRank(a + b) == Min(BestRank(a), BestRank(b))
    decreases |a|
  {
    hide Rank;
    if a == [] {
      assert a + b == b;
    } else {
      assert (a + b)[1..] == a[1..] + b;
      BestRankAppend(a[1..], b);
    }
  }

  lemma {:induction false} CodesAppend(h: Heap, a: seq<nat>, b: seq<nat>, normalize: string -> string)
    ensures CodesOf(h, a + b, normalize) == CodesOf(h, a, normalize) + CodesOf(h, b, normalize)
    decreases |a|
  {
    hide SafeCode;
    if a == [] {
      assert a + b == b;
    } else {
      assert (a + b)[1..] == a[1..] + b;
      CodesAppend(h, a[1..], b, normalize);
    }
  }

  // ---------- one graph ----------

  /** The best rank among the nodes the wrapper leaves room for, and the rank of the one it pushes out. */
  function KeptRank(h: Heap, inner: seq<nat>, normalize: string -> string): nat {
    BestRank(CodesOf(h, Front(inner), normalize))
  }

  function LostRank(h: Heap, inner: seq<nat>, normalize: string -> string): nat
    requires |inner| == LIMIT
  {
    var code := SafeCode(h(inner[LIMIT - 1]).code, normalize);
    if code.None? then 6 else Rank(code.value)
  }

  lemma BothVerdicts(h: Heap, w: nat, error: Value, normalize: string -> string)
    requires Wraps(h, w, error) && normalize(WRAPPER) == WRAPPER
    ensures var inner := NestedErrors(h, error);
            var plain := ClassifyNetworkError(h, error, normalize);
            var wrapped := ClassifyNetworkError(h, Ref(w), normalize);
            var kept := KeptRank(h, inner, normalize);
            var all := if |inner| != LIMIT then kept else Min(kept, LostRank(h, inner, normalize));
            && |inner| <= LIMIT
            && wrapped.stage == StageOf(kept) && (wrapped.retryable <==> StageOf(kept) != TLS)
            && plain.stage == StageOf(all) && (plain.retryable <==> StageOf(all) != TLS)
  {
    var inner := NestedErrors(h, error);
    WalkBound(h, [error], []);
    WrappedVerdict(h, w, error, normalize);
    StageIsBestRank(CodesOf(h, Front(inner), normalize));
    StageIsBestRank(CodesOf(h, inner, normalize));
    if |inner| == LIMIT {
      var last := [inner[LIMIT - 1]];
      assert inner == Front(inner) + last;
      CodesAppend(h, Front(inner), last, normalize);
      BestRankAppend(CodesOf(h, Front(inner), normalize), CodesOf(h, last, normalize));
      LastRank(h, inner[LIMIT - 1], normalize);
    }
    hide Classify, CodesOf, BestRank, NestedErrors, Wraps, Rank, SafeCode;
  }

  lemma LastRank(h: Heap, id: nat, normalize: string -> string)
    ensures var code := SafeCode(h(id).code, normalize);
            BestRank(CodesOf(h, [id], normalize)) == if code.None? then 6 else Rank(code.value)
  {
    hide SafeCode, Rank;
    assert [id][1..] == [];
    var code := SafeCode(h(id).code, normalize);
    if code.Some? {
      assert CodesOf(h, [id], normalize) == [code.value] + CodesOf(h, [], normalize);
      assert [code.value][1..] == [];
    }
  }

  /**
   Exactly which graphs keep their stage and retryability behind a wrapper: those of fewer than 32 nodes, and those
   whose 32nd node found carries no code tested for earlier than every code before it, where trading a TLS-like code for
   a listed TLS code counts as no change.
   */
  lemma StageSurvivesIff(h: Heap, w: nat, error: Value, normalize: string -> string)
    requires Wraps(h, w, error) && normalize(WRAPPER) == WRAPPER
    ensures var inner := NestedErrors(h, error);
            var plain := ClassifyNetworkError(h, error, normalize);
            var wrapped := ClassifyNetworkError(h, Ref(w), normalize);
            && (wrapped.stage == plain.stage <==> Survives(h, inner, normalize))
            && (wrapped.stage == plain.stage ==> wrapped.retryable == plain.retryable)
  {
    BothVerdicts(h, w, error, normalize);
    var inner := NestedErrors(h, error);
    RanksOfStages(KeptRank(h, inner, normalize), if |inner| == LIMIT then LostRank(h, inner, normalize) else 6);
    hide ClassifyNetworkError, NestedErrors, KeptRank, LostRank, Wraps;
  }

  predicate Survives(h: Heap, inner: seq<nat>, normalize: string -> string) {
    |inner| == LIMIT ==>
      var kept, lost := KeptRank(h, inner, normalize), LostRank(h, inner, normalize);
      lost >= kept || lost >= 5 || (kept == 4 && lost == 2)
  }

  lemma RanksOfStages(kept: nat, lost: nat)
    requires kept <= 6 && lost <= 6
    ensures StageOf(kept) == StageOf(Min(kept, lost)) <==> lost >= kept || lost >= 5 || (kept == 4 && lost == 2)
  {
  }

  // ---------- one shape, every assignment of codes ----------

  function Recoded(h: Heap, codes: nat -> Option<string>): Heap {
    (id: nat) => Node(codes(id), h(id).cause, h(id).errors)
  }

  lemma {:induction false} WalkIgnoresCodes(h: Heap, codes: nat -> Option<string>, queue: seq<Value>, found: seq<nat>)
    ensures Walk(Recoded(h, codes), queue, found) == Walk(h, queue, found)
    decreases LIMIT - |found|, |queue|
  {
    if queue != [] && |found| < LIMIT {
      if !queue[0].Ref? || queue[0].id in found {
        WalkIgnoresCodes(h, codes, queue[1..], found);
      } else {
        WalkIgnoresCodes(h, codes, queue[1..] + Children(h(queue[0].id)), found + [queue[0].id]);
      }
    }
  }

  lemma StillWraps(h: Heap, codes: nat -> Option<string>, w: nat, error: Value)
    requires Wraps(h, w, error) && codes(w) == Some(WRAPPER)
    ensures NestedErrors(Recoded(h, codes), error) == NestedErrors(h, error)
    ensures Wraps(Recoded(h, codes), w, error)
  {
    WalkIgnoresCodes(h, codes, [error], []);
    hide Walk;
    forall id | id in NestedErrors(h, error)
      ensures Ref(w) !in Children(Recoded(h, codes)(id))
    {
      assert Children(Recoded(h, codes)(id)) == Children(h(id));
    }
  }

  /** With these codes on the graph's nodes, the wrapped error and the error have one stage and one retryability. */
  ghost predicate SameVerdict(h: Heap, codes: nat -> Option<string>, w: nat, error: Value,
                              normalize: string -> string)
  {
    codes(w) == Some(WRAPPER) ==>
      var plain := ClassifyNetworkError(Recoded(h, codes), error, normalize);
      var wrapped := ClassifyNetworkError(Recoded(h, codes), Ref(w), normalize);
      wrapped.stage == plain.stage && wrapped.retryable == plain.retryable
  }

  lemma {:induction false} WalkAvoids(h: Heap, w: nat, queue: seq<Value>, found: seq<nat>)
    requires Ref(w) !in queue && w !in found
    requires forall id :: id in Walk(h, queue, found) ==> Ref(w) !in Children(h(id))
    ensures w !in Walk(h, queue, found)
    decreases LIMIT - |found|, |queue|
  {
    if queue != [] && |found| < LIMIT {
      assert queue[0] in queue;
      if !queue[0].Ref? || queue[0].id in found {
        WalkAvoids(h, w, queue[1..], found);
      } else {
        var id := queue[0].id;
        var next := queue[1..] + Children(h(id));
        WalkExtends(h, next, found + [id]);
        assert (found + [id])[|found|] in Walk(h, next, found + [id]);
        WalkAvoids(h, w, next, found + [id]);
      }
    }
  }

  // Only the 32nd node found, and the wrapper, carry a code.
  function LastOnly(w: nat, last: nat): nat -> Option<string> {
    (id: nat) => if id == w then Some(WRAPPER) else if id == last then Some("ETIMEDOUT") else None
  }

  lemma {:induction false} Silent(h: Heap, w: nat, last: nat, ids: seq<nat>, normalize: string -> string)
    requires w !in ids && last !in ids
    ensures CodesOf(Recoded(h, LastOnly(w, last)), ids, normalize) == []
  {
    if ids != [] {
      assert ids[0] in ids;
      Silent(h, w, last, ids[1..], normalize);
    }
  }

  /** In a walk of 32 nodes the last one, and the wrapper, are not among those the wrapper leaves room for. */
  lemma LastIsApart(h: Heap, w: nat, error: Value)
    requires Wraps(h, w, error) && |NestedErrors(h, error)| == LIMIT
    ensures var inner := NestedErrors(h, error);
            var last := inner[LIMIT - 1];
            w != last && w !in Front(inner) && last !in Front(inner)
  {
    var inner := NestedErrors(h, error);
    NestedErrorsSound(h, error);
    WalkAvoids(h, w, [error], []);
    assert inner[LIMIT - 1] in inner;
    assert forall i :: 0 <= i < LIMIT - 1 ==> Front(inner)[i] == inner[i] && inner[i] in inner;
    hide NestedErrors, Walk, Wraps, Reachable;
  }

  lemma LongGraphsCanLose(h: Heap, w: nat, error: Value, normalize: string -> string)
    requires Wraps(h, w, error) && normalize(WRAPPER) == WRAPPER && normalize("ETIMEDOUT") == "ETIMEDOUT"
    requires |NestedErrors(h, error)| == LIMIT
    ensures !SameVerdict(h, LastOnly(w, NestedErrors(h, error)[LIMIT - 1]), w, error, normalize)
  {
    hide ClassifyNetworkError, NestedErrors, Wraps, Front, CodesOf, SafeCode, Rank;
    var inner := NestedErrors(h, error);
    var last := inner[LIMIT - 1];
    var codes := LastOnly(w, last);
    LastIsApart(h, w, error);
    StillWraps(h, codes, w, error);
    var recoded := Recoded(h, codes);
    StageSurvivesIff(recoded, w, error, normalize);
    Silent(h, w, last, Front(inner), normalize);
    assert KeptRank(recoded, inner, normalize) == 6;
    assert recoded(last).code == Some("ETIMEDOUT");
    TimeoutIsCode(normalize);
    assert LostRank(recoded, inner, normalize) == 0;
  }

  lemma TimeoutIsCode(normalize: string -> string)
    requires normalize("ETIMEDOUT") == "ETIMEDOUT"
    ensures SafeCode(Some("ETIMEDOUT"), normalize) == Some("ETIMEDOUT") && Rank("ETIMEDOUT") == 0
  {
    assert "ETIMEDOUT" in TIMEOUT_CODES;
  }

  /**
   For a given shape of error graph, stage and retryability survive wrapping under every assignment of codes if and only
   if fewer than 32 nodes are found in it.
   */
  lemma ShapeSurvivesIff(h: Heap, w: nat, error: Value, normalize: string -> string)
    requires Wraps(h, w, error) && normalize(WRAPPER) == WRAPPER && normalize("ETIMEDOUT") == "ETIMEDOUT"
    ensures (forall codes: nat -> Option<string> :: SameVerdict(h, codes, w, error, normalize))
       <==> |NestedErrors(h, error)| < LIMIT
  {
    WalkBound(h, [error], []);
    if |NestedErrors(h, error)| < LIMIT {
      forall codes: nat -> Option<string>
        ensures SameVerdict(h, codes, w, error, normalize)
      {
        if codes(w) == Some(WRAPPER) {
          StillWraps(h, codes, w, error);
          StageSurvivesIff(Recoded(h, codes), w, error, normalize);
        }
      }
    } else {
      LongGraphsCanLose(h, w, error, normalize);
    }
    hide SameVerdict, NestedErrors;
  }
}
