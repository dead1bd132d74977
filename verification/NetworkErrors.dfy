/**
 Error classification (src/utils/network-error-classification.ts): a bounded breadth-first walk of a
 possibly cyclic graph of causes and aggregated errors, then a classification of the codes found.
 */
module NetworkErrors {
  import opened Wrappers

  // A JavaScript value, as far as the walk looks at it.
  datatype Value = Falsy | Primitive | Ref(id: nat)

  datatype Node = Node(code: Option<string>, cause: Value, errors: Option<seq<Value>>)

  type Heap = nat -> Node

  const LIMIT := 32

  function Children(node: Node): seq<Value> {
    (if node.cause.Falsy? then [] else [node.cause]) + (if node.errors.Some? then node.errors.value else [])
  }

  /** The walk: take the first of the queue, skip it unless it is a new object, else append its children. */
  function Walk(h: Heap, queue: seq<Value>, found: seq<nat>): seq<nat>
    decreases LIMIT - |found|, |queue|
  {
    if queue == [] || |found| >= LIMIT then found
    else if !queue[0].Ref? || queue[0].id in found then Walk(h, queue[1..], found)
    else Walk(h, queue[1..] + Children(h(queue[0].id)), found + [queue[0].id])
  }

  function NestedErrors(h: Heap, root: Value): seq<nat> {
    Walk(h, [root], [])
  }

  method CollectNestedErrors(h: Heap, root: Value) returns (found: seq<nat>)
    ensures found == NestedErrors(h, root)
  {
    found := [];
    var queue := [root];
    var seen: set<nat> := {};
    while |queue| > 0 && |found| < 32
      invariant forall id :: id in seen <==> id in found
      invariant Walk(h, queue, found) == NestedErrors(h, root)
      decreases 32 - |found|, |queue|
    {
      var current := queue[0];
      queue := queue[1..];
      if !current.Ref? || current.id in seen { continue; }
      seen := seen + {current.id};
      found := found + [current.id];
      var record := h(current.id);
      ghost var rest := queue;
      if !record.cause.Falsy? { queue := queue + [record.cause]; }
      if record.errors.Some? { queue := queue + record.errors.value; }
      assert queue == rest + Children(record);
    }
  }

  // ---------- reachability ----------

  ghost predicate Path(h: Heap, root: Value, p: seq<nat>) {
    && p != [] && root == Ref(p[0])
    && forall i :: 0 <= i < |p| - 1 ==> Ref(p[i + 1]) in Children(h(p[i]))
  }

  ghost predicate Reachable(h: Heap, root: Value, id: nat) {
    exists p: seq<nat> :: Path(h, root, p) && p[|p| - 1] == id
  }

  lemma ReachChild(h: Heap, root: Value, id: nat, child: nat)
    requires Reachable(h, root, id) && Ref(child) in Children(h(id))
    ensures Reachable(h, root, child)
  {
    var p: seq<nat> :| Path(h, root, p) && p[|p| - 1] == id;
    assert Path(h, root, p + [child]);
  }

  lemma {:induction false} WalkSound(h: Heap, root: Value, queue: seq<Value>, found: seq<nat>)
    requires Distinct(found) && |found| <= LIMIT
    requires forall id :: id in found ==> Reachable(h, root, id)
    requires forall v: Value :: v in queue && v.Ref? ==> Reachable(h, root, v.id)
    ensures var r := Walk(h, queue, found);
            Distinct(r) && |r| <= LIMIT && forall id :: id in r ==> Reachable(h, root, id)
    decreases LIMIT - |found|, |queue|
  {
    if queue != [] && |found| < LIMIT {
      if !queue[0].Ref? || queue[0].id in found {
        WalkSound(h, root, queue[1..], found);
      } else {
        var id := queue[0].id;
        var next := queue[1..] + Children(h(id));
        forall v: Value | v in next && v.Ref?
          ensures Reachable(h, root, v.id)
        {
          if v in Children(h(id)) { ReachChild(h, root, id, v.id); }
        }
        WalkSound(h, root, next, found + [id]);
      }
    }
  }

  /** Every child of a found node is found or still queued. */
  ghost predicate Frontier(h: Heap, queue: seq<Value>, found: seq<nat>) {
    forall id, child :: id in found && Ref(child) in Children(h(id)) ==> child in found || Ref(child) in queue
  }

  lemma {:induction false} WalkClosed(h: Heap, queue: seq<Value>, found: seq<nat>)
    requires Frontier(h, queue, found)
    requires |Walk(h, queue, found)| < LIMIT
    ensures var r := Walk(h, queue, found);
            && (forall id :: id in found ==> id in r)
            && (forall v: Value :: v in queue && v.Ref? ==> v.id in r)
            && (forall id, child :: id in r && Ref(child) in Children(h(id)) ==> child in r)
    decreases LIMIT - |found|, |queue|
  {
    if queue != [] && |found| < LIMIT {
      assert forall v :: v in queue ==> v == queue[0] || v in queue[1..];
      if !queue[0].Ref? || queue[0].id in found {
        WalkClosed(h, queue[1..], found);
      } else {
        WalkClosed(h, queue[1..] + Children(h(queue[0].id)), found + [queue[0].id]);
      }
    }
  }

  lemma {:induction false} PathStaysInside(h: Heap, root: Value, p: seq<nat>, r: seq<nat>)
    requires Path(h, root, p) && p[0] in r
    requires forall id, child :: id in r && Ref(child) in Children(h(id)) ==> child in r
    ensures p[|p| - 1] in r
    decreases |p|
  {
    if |p| > 1 {
      var q := p[..|p| - 1];
      assert Path(h, root, q);
      PathStaysInside(h, root, q, r);
      assert Ref(p[|p| - 2 + 1]) in Children(h(p[|p| - 2]));
    }
  }

  lemma {:induction false} DistinctCount(s: seq<nat>, t: set<nat>)
    requires Distinct(s) && forall x :: x in s ==> x in t
    ensures |s| <= |t|
    ensures |s| == |t| ==> forall x :: x in t ==> x in s
    decreases |s|
  {
    if s != [] {
      var n := |s| - 1;
      assert s[n] !in s[..n];
      DistinctCount(s[..n], t - {s[n]});
      forall x | |s| == |t| && x in t
        ensures x in s
      {
        if x != s[n] { assert x in s[..n]; }
      }
    }
  }

  /** The walk returns distinct reachable nodes, never more than 32, and misses one only at the limit. */
  lemma NestedErrorsSound(h: Heap, root: Value)
    ensures var r := NestedErrors(h, root);
            && Distinct(r) && |r| <= LIMIT
            && (forall id :: id in r ==> Reachable(h, root, id))
            && (|r| < LIMIT ==> forall id :: Reachable(h, root, id) ==> id in r)
  {
    if root.Ref? {
      assert Path(h, root, [root.id]) && [root.id][|[root.id]| - 1] == root.id;
    }
    WalkSound(h, root, [root], []);
    var r := NestedErrors(h, root);
    if |r| < LIMIT {
      WalkClosed(h, [root], []);
      assert root in [root];
      forall id | Reachable(h, root, id)
        ensures id in r
      {
        var p: seq<nat> :| Path(h, root, p) && p[|p| - 1] == id;
        PathStaysInside(h, root, p, r);
      }
    }
  }

  /** The walk finds everything exactly when at most 32 nodes are reachable. */
  lemma NestedErrorsComplete(h: Heap, root: Value)
    ensures (forall id :: Reachable(h, root, id) ==> id in NestedErrors(h, root))
        <==> exists s: set<nat> :: |s| <= LIMIT && forall id :: Reachable(h, root, id) ==> id in s
  {
    NestedErrorsSound(h, root);
    var r := NestedErrors(h, root);
    if forall id :: Reachable(h, root, id) ==> id in r {
      assert |Elements(r)| <= LIMIT;
    }
    if s: set<nat> :| |s| <= LIMIT && forall id :: Reachable(h, root, id) ==> id in s {
      DistinctCount(r, s);
    }
  }

  function Elements(r: seq<nat>): (s: set<nat>)
    ensures |s| <= |r|
    ensures forall x :: x in s <==> x in r
  {
    if r == [] then {}
    else
      assert r == r[..|r| - 1] + [r[|r| - 1]];
      Elements(r[..|r| - 1]) + {r[|r| - 1]}
  }

  // ---------- classification ----------

  datatype Stage = DNS | TCP_CONNECT | TLS | HTTP | REDIRECT | TIMEOUT | POLICY | UNKNOWN

  datatype Classification = Classification(stage: Stage, errorCode: Option<string>, retryable: bool)

  const DNS_CODES := {"ENOTFOUND", "EAI_AGAIN"}
  const CONNECT_CODES := {"ECONNREFUSED", "ECONNRESET", "EHOSTUNREACH", "ENETUNREACH"}
  const TIMEOUT_CODES := {"ETIMEDOUT", "ESOCKETTIMEDOUT", "UND_ERR_CONNECT_TIMEOUT", "UND_ERR_HEADERS_TIMEOUT",
                          "UND_ERR_BODY_TIMEOUT"}
  const TLS_CODES := {"CERT_HAS_EXPIRED", "DEPTH_ZERO_SELF_SIGNED_CERT", "ERR_TLS_CERT_ALTNAME_INVALID",
                      "ERR_TLS_CERT_SIGNATURE_ALGORITHM_UNSUPPORTED", "SELF_SIGNED_CERT_IN_CHAIN",
                      "UNABLE_TO_GET_ISSUER_CERT", "UNABLE_TO_GET_ISSUER_CERT_LOCALLY",
                      "UNABLE_TO_VERIFY_LEAF_SIGNATURE"}
  const WRAPPER := "TRANSIENT_FETCH"

  predicate CodeChar(c: char) { 'A' <= c <= 'Z' || '0' <= c <= '9' || c == '_' }

  /** safeCode; `normalize` stands for trim and toUpperCase. */
  function SafeCode(code: Option<string>, normalize: string -> string): Option<string> {
    if code.None? then None
    else
      var n := normalize(code.value);
      if 2 <= |n| <= 80 && forall i :: 0 <= i < |n| ==> CodeChar(n[i]) then Some(n) else None
  }

  function CodesOf(h: Heap, found: seq<nat>, normalize: string -> string): seq<string> {
    if found == [] then []
    else
      match SafeCode(h(found[0]).code, normalize)
      case None => CodesOf(h, found[1..], normalize)
      case Some(c) => [c] + CodesOf(h, found[1..], normalize)
  }

  function Detailed(codes: seq<string>): seq<string> {
    if codes == [] then []
    else (if codes[0] == WRAPPER then [] else [codes[0]]) + Detailed(codes[1..])
  }

  function FirstIn(codes: seq<string>, members: set<string>): Option<string> {
    if codes == [] then None else if codes[0] in members then Some(codes[0]) else FirstIn(codes[1..], members)
  }

  function Contains(s: string, part: string): bool {
    part <= s || (s != "" && Contains(s[1..], part))
  }

  predicate TlsLike(code: string) {
    "ERR_TLS_" <= code || Contains(code, "CERTIFICATE") || "CERT_" <= code
  }

  function FirstTlsLike(codes: seq<string>): Option<string> {
    if codes == [] then None else if TlsLike(codes[0]) then Some(codes[0]) else FirstTlsLike(codes[1..])
  }

  function Classify(codes: seq<string>): Classification {
    var used := Used(codes);
    var timeout, dns := FirstIn(used, TIMEOUT_CODES), FirstIn(used, DNS_CODES);
    var tls, connect := FirstIn(used, TLS_CODES), FirstIn(used, CONNECT_CODES);
    if timeout.Some? then Classification(TIMEOUT, timeout, true)
    else if dns.Some? then Classification(DNS, dns, true)
    else if tls.Some? then Classification(TLS, tls, false)
    else if connect.Some? then Classification(TCP_CONNECT, connect, true)
    else if FirstTlsLike(used).Some? then Classification(TLS, FirstTlsLike(used), false)
    else Classification(UNKNOWN, if used == [] then None else Some(used[0]), true)
  }

  function ClassifyNetworkError(h: Heap, error: Value, normalize: string -> string): Classification {
    Classify(CodesOf(h, NestedErrors(h, error), normalize))
  }

  ghost predicate Has(codes: seq<string>, members: set<string>) {
    exists i :: 0 <= i < |codes| && codes[i] in members
  }

  ghost predicate HasTlsLike(codes: seq<string>) {
    exists i :: 0 <= i < |codes| && TlsLike(codes[i])
  }

  lemma {:induction false} FirstInFinds(codes: seq<string>, members: set<string>)
    ensures FirstIn(codes, members).Some? <==> Has(codes, members)
    ensures FirstIn(codes, members).Some? ==> FirstIn(codes, members).value in codes
  {
    if codes != [] {
      FirstInFinds(codes[1..], members);
      assert codes == [codes[0]] + codes[1..];
      if i :| 0 <= i < |codes| && codes[i] in members { assert i > 0 ==> codes[1..][i - 1] in members; }
      if i :| 0 <= i < |codes[1..]| && codes[1..][i] in members { assert codes[i + 1] in members; }
    }
  }

  lemma {:induction false} FirstTlsLikeFinds(codes: seq<string>)
    ensures FirstTlsLike(codes).Some? <==> HasTlsLike(codes)
    ensures FirstTlsLike(codes).Some? ==> FirstTlsLike(codes).value in codes
  {
    if codes != [] {
      hide TlsLike;
      FirstTlsLikeFinds(codes[1..]);
      assert codes == [codes[0]] + codes[1..];
      if i :| 0 <= i < |codes| && TlsLike(codes[i]) { assert i > 0 ==> TlsLike(codes[1..][i - 1]); }
      if i :| 0 <= i < |codes[1..]| && TlsLike(codes[1..][i]) { assert TlsLike(codes[i + 1]); }
    }
  }

  /** The codes the verdict is about: the wrapper code counts only when there is no other. */
  function Used(codes: seq<string>): seq<string> {
    if Detailed(codes) != [] then Detailed(codes) else codes
  }

  /**
   The stage depends on which codes occur anywhere in the graph, in a fixed precedence, and not on where they occur;
   only TLS failures are final; and the code reported is one that occurred.
   */
  lemma StagePrecedence(codes: seq<string>)
    ensures var c, used := Classify(codes), Used(codes);
            var timeout, dns := Has(used, TIMEOUT_CODES), Has(used, DNS_CODES);
            var tls, connect := Has(used, TLS_CODES), Has(used, CONNECT_CODES);
            && (c.stage == TIMEOUT <==> timeout)
            && (c.stage == DNS <==> !timeout && dns)
            && (c.stage == TLS <==> !timeout && !dns && (tls || (!connect && HasTlsLike(used))))
            && (c.stage == TCP_CONNECT <==> !timeout && !dns && !tls && connect)
            && c.stage in {TIMEOUT, DNS, TLS, TCP_CONNECT, UNKNOWN}
            && (c.retryable <==> c.stage != TLS)
            && (c.errorCode.None? <==> codes == [])
            && (c.errorCode.Some? ==> c.errorCode.value in used)
  {
    hide Has, HasTlsLike, FirstIn, FirstTlsLike, TlsLike;
    var used := Used(codes);
    FirstInFinds(used, TIMEOUT_CODES);
    FirstInFinds(used, DNS_CODES);
    FirstInFinds(used, TLS_CODES);
    FirstInFinds(used, CONNECT_CODES);
    FirstTlsLikeFinds(used);
  }

  // ---------- wrapping ----------

  /** `w` is a TRANSIENT_FETCH error around `error`, not itself part of the wrapped graph. */
  predicate Wraps(h: Heap, w: nat, error: Value) {
    && h(w) == Node(Some(WRAPPER), error, None)
    && error != Ref(w)
    && forall id :: id in NestedErrors(h, error) ==> Ref(w) !in Children(h(id))
  }

  lemma {:induction false} WalkExtends(h: Heap, queue: seq<Value>, found: seq<nat>)
    ensures found <= Walk(h, queue, found)
    decreases LIMIT - |found|, |queue|
  {
    if queue != [] && |found| < LIMIT {
      if !queue[0].Ref? || queue[0].id in found {
        WalkExtends(h, queue[1..], found);
      } else {
        WalkExtends(h, queue[1..] + Children(h(queue[0].id)), found + [queue[0].id]);
      }
    }
  }

  /** The first 32 nodes. */
  function Cut(s: seq<nat>): seq<nat> {
    if |s| > LIMIT then s[..LIMIT] else s
  }

  /** A node already found in front takes one place of the walk, and changes nothing else. */
  lemma {:induction false} WalkBehind(h: Heap, w: nat, queue: seq<Value>, found: seq<nat>)
    requires |found| < LIMIT
    requires Ref(w) !in queue
    requires forall id :: id in Walk(h, queue, found) ==> Ref(w) !in Children(h(id))
    ensures Walk(h, queue, [w] + found) == Cut([w] + Walk(h, queue, found))
    decreases LIMIT - |found|, |queue|
  {
    WalkExtends(h, queue, found);
    if queue == [] {
    } else if |found| == LIMIT - 1 {
      var r := Walk(h, queue, found);
      assert r[..|found|] == found;
      assert ([w] + r)[..LIMIT] == [w] + found;
      WalkBound(h, queue, found);
    } else if !queue[0].Ref? || queue[0].id in found {
      WalkBehind(h, w, queue[1..], found);
    } else {
      var id := queue[0].id;
      var next := queue[1..] + Children(h(id));
      WalkExtends(h, next, found + [id]);
      assert (found + [id])[|found|] in Walk(h, next, found + [id]);
      WalkBehind(h, w, next, found + [id]);
      assert [w] + (found + [id]) == ([w] + found) + [id];
    }
  }

  lemma {:induction false} WalkBound(h: Heap, queue: seq<Value>, found: seq<nat>)
    requires |found| <= LIMIT
    ensures |found| <= |Walk(h, queue, found)| <= LIMIT
    decreases LIMIT - |found|, |queue|
  {
    if queue != [] && |found| < LIMIT {
      if !queue[0].Ref? || queue[0].id in found {
        WalkBound(h, queue[1..], found);
      } else {
        WalkBound(h, queue[1..] + Children(h(queue[0].id)), found + [queue[0].id]);
      }
    }
  }

  /** For every graph: the walk from a wrapper is the wrapper and then the walk of the graph, cut at 32 nodes. */
  lemma WrappedWalk(h: Heap, w: nat, error: Value)
    requires Wraps(h, w, error)
    ensures NestedErrors(h, Ref(w)) == Cut([w] + NestedErrors(h, error))
  {
    var next := [Ref(w)][1..] + Children(h(w));
    assert Walk(h, [Ref(w)], []) == Walk(h, next, [] + [w]);
    assert [] + [w] == [w] + [];
    if error.Falsy? {
      assert next == [];
      assert Walk(h, [error], []) == Walk(h, [error][1..], []) == [];
    } else {
      assert next == [error];
      WalkBehind(h, w, [error], []);
    }
  }

  predicate AllWrappers(codes: seq<string>) {
    forall i :: 0 <= i < |codes| ==> codes[i] == WRAPPER
  }

  lemma {:induction false} DetailedHasNoWrapper(codes: seq<string>)
    ensures Detailed(codes) == [] ==> AllWrappers(codes)
    decreases |codes|
  {
    if codes != [] {
      DetailedHasNoWrapper(codes[1..]);
    }
  }

  lemma {:induction false} NoneInSet(codes: seq<string>, members: set<string>)
    requires WRAPPER !in members && AllWrappers(codes)
    ensures FirstIn(codes, members).None?
    decreases |codes|
  {
    if codes != [] {
      NoneInSet(codes[1..], members);
    }
  }

  lemma {:induction false} NoneTlsLike(codes: seq<string>)
    requires AllWrappers(codes)
    ensures FirstTlsLike(codes).None?
    decreases |codes|
  {
    hide TlsLike;
    WrapperIsGeneric();
    if codes != [] {
      NoneTlsLike(codes[1..]);
    }
  }

  lemma OnlyWrappers(codes: seq<string>)
    requires AllWrappers(codes)
    ensures Classify(codes) == Classification(UNKNOWN, if codes == [] then None else Some(WRAPPER), true)
  {
    WrapperInNoSet();
    WrapperIsGeneric();
    NoneInSet(codes, TIMEOUT_CODES);
    NoneInSet(codes, DNS_CODES);
    NoneInSet(codes, TLS_CODES);
    NoneInSet(codes, CONNECT_CODES);
    NoneTlsLike(codes);
    NothingDetailed(codes);
    hide FirstIn, FirstTlsLike, Detailed, TlsLike;
  }

  lemma {:induction false} NothingDetailed(codes: seq<string>)
    requires AllWrappers(codes)
    ensures Detailed(codes) == []
    decreases |codes|
  {
    if codes != [] {
      NothingDetailed(codes[1..]);
    }
  }

  lemma WrapperIsGeneric()
    ensures !TlsLike(WRAPPER)
  {
    WrapperLetters();
    NoC(WRAPPER, "CERTIFICATE");
    assert WRAPPER[0] == 'T' && "ERR_TLS_"[0] == 'E' && "CERT_"[0] == 'C';
  }

  lemma WrapperInNoSet()
    ensures WRAPPER !in TIMEOUT_CODES && WRAPPER !in DNS_CODES && WRAPPER !in TLS_CODES && WRAPPER !in CONNECT_CODES
  {
    assert WRAPPER[0] == 'T';
    assert forall c :: c in TIMEOUT_CODES ==> c[0] != 'T';
    assert forall c :: c in DNS_CODES ==> c[0] != 'T';
    assert forall c :: c in TLS_CODES ==> c[0] != 'T';
    assert forall c :: c in CONNECT_CODES ==> c[0] != 'T';
  }

  lemma WrapperLetters()
    ensures forall i :: 0 <= i < |WRAPPER| - 1 ==> WRAPPER[i] != "CERTIFICATE"[0] || WRAPPER[i + 1] != "CERTIFICATE"[1]
  {
  }

  lemma {:induction false} NoC(s: string, part: string)
    requires |part| > 1 && forall i :: 0 <= i < |s| - 1 ==> s[i] != part[0] || s[i + 1] != part[1]
    ensures !Contains(s, part)
    decreases |s|
  {
    if s != "" {
      assert forall i :: 0 <= i < |s[1..]| ==> s[1..][i] == s[i + 1];
      NoC(s[1..], part);
    }
    if part <= s { PrefixLetters(part, s); }
  }

  lemma PrefixLetters(part: string, s: string)
    requires |part| > 1 && part <= s
    ensures s[0] == part[0] && s[1] == part[1]
  {
  }

  /** The nodes of a graph that are still found behind a wrapper. */
  function Front(inner: seq<nat>): seq<nat> {
    if |inner| < LIMIT then inner else inner[..LIMIT - 1]
  }

  /**
   The verdict on a wrapped error, for every graph: that of the nodes the wrapper leaves room for, with the wrapper's
   own code when those have none.
   */
  lemma WrappedVerdict(h: Heap, w: nat, error: Value, normalize: string -> string)
    requires Wraps(h, w, error) && normalize(WRAPPER) == WRAPPER
    ensures var codes := CodesOf(h, Front(NestedErrors(h, error)), normalize);
            ClassifyNetworkError(h, Ref(w), normalize)
            == if codes == [] then Classify(codes).(errorCode := Some(WRAPPER)) else Classify(codes)
  {
    WrappedWalk(h, w, error);
    WalkBound(h, [error], []);
    var inner := NestedErrors(h, error);
    var front := Front(inner);
    assert NestedErrors(h, Ref(w)) == [w] + front;
    assert ([w] + front)[1..] == front;
    var codes := CodesOf(h, front, normalize);
    WrapperIsACode(normalize);
    assert CodesOf(h, [w] + front, normalize) == [WRAPPER] + codes;
    hide Walk, CodesOf, Classify;
    ClassifyBehindWrapper(codes);
  }

  /**
   Wrapping an error graph of fewer than 32 nodes never changes stage or retryable; it keeps the error
   code exactly when the graph holds any code at all.
   */
  lemma WrappingKeepsClassification(h: Heap, w: nat, error: Value, normalize: string -> string)
    requires Wraps(h, w, error) && normalize(WRAPPER) == WRAPPER
    requires |NestedErrors(h, error)| < LIMIT
    ensures var plain := ClassifyNetworkError(h, error, normalize);
            var wrapped := ClassifyNetworkError(h, Ref(w), normalize);
            && wrapped.stage == plain.stage && wrapped.retryable == plain.retryable
            && (wrapped.errorCode == plain.errorCode <==> CodesOf(h, NestedErrors(h, error), normalize) != [])
  {
    WrappedVerdict(h, w, error, normalize);
    StagePrecedence(CodesOf(h, NestedErrors(h, error), normalize));
    hide Walk, CodesOf, Classify, Has, HasTlsLike, Used;
  }

  lemma WrapperIsACode(normalize: string -> string)
    requires normalize(WRAPPER) == WRAPPER
    ensures SafeCode(Some(WRAPPER), normalize) == Some(WRAPPER)
  {
  }

  lemma ClassifyBehindWrapper(codes: seq<string>)
    ensures Classify([WRAPPER] + codes)
         == if codes == [] then Classify(codes).(errorCode := Some(WRAPPER)) else Classify(codes)
  {
    assert ([WRAPPER] + codes)[1..] == codes;
    assert Detailed([WRAPPER] + codes) == [] + Detailed(codes) == Detailed(codes);
    hide FirstIn, FirstTlsLike;
    if Detailed(codes) == [] {
      DetailedHasNoWrapper(codes);
      OnlyWrappers(codes);
      OnlyWrappers([WRAPPER] + codes);
      hide Classify;
    }
  }

  // ---------- the bound of 32 is tight ----------

  // A chain of 32 causes whose last node carries the only code, and node 32 wrapping it.
  function Chain(id: nat): Node {
    if id < 31 then Node(None, Ref(id + 1), None)
    else if id == 31 then Node(Some("ETIMEDOUT"), Falsy, None)
    else Node(Some(WRAPPER), Ref(0), None)
  }

  function Same(s: string): string { s }

  function Upto(k: nat): (s: seq<nat>)
    ensures |s| == k && forall i :: 0 <= i < k ==> s[i] == i
  {
    if k == 0 then [] else Upto(k - 1) + [k - 1]
  }

  lemma {:induction false} ChainWalk(head: seq<nat>, k: nat)
    requires head == [] || head == [32]
    requires k + |head| <= 32
    ensures Walk(Chain, [Ref(k)], head + Upto(k)) == head + Upto(32 - |head|)
    decreases 32 - k
  {
    var found := head + Upto(k);
    if k + |head| < 32 {
      assert Ref(k).id !in found;
      assert found + [k] == head + Upto(k + 1);
      if k < 31 {
        assert [Ref(k)][1..] + Children(Chain(k)) == [Ref(k + 1)];
        ChainWalk(head, k + 1);
      } else {
        assert [Ref(k)][1..] + Children(Chain(k)) == [];
      }
    }
  }

  lemma {:induction false} SilentCodes(a: seq<nat>, b: seq<nat>)
    requires forall i :: 0 <= i < |a| ==> a[i] < 31
    ensures CodesOf(Chain, a + b, Same) == CodesOf(Chain, b, Same)
    decreases |a|
  {
    if a == [] {
      assert a + b == b;
    } else {
      assert (a + b)[1..] == a[1..] + b;
      SilentCodes(a[1..], b);
    }
  }

  lemma PlainChain()
    ensures NestedErrors(Chain, Ref(0)) == Upto(32)
    ensures CodesOf(Chain, Upto(32), Same) == ["ETIMEDOUT"]
  {
    ChainWalk([], 0);
    assert [] + Upto(0) == [] && [] + Upto(32) == Upto(32);
    LastOfUpto();
    SilentCodes(Upto(31), [31]);
    hide Walk, Upto;
    assert CodesOf(Chain, [31], Same) == ["ETIMEDOUT"];
  }

  lemma ChainIsWrapped()
    requires NestedErrors(Chain, Ref(0)) == Upto(32)
    ensures Wraps(Chain, 32, Ref(0))
  {
    hide NestedErrors, Walk;
  }

  lemma WrappedChain()
    ensures NestedErrors(Chain, Ref(32)) == [32] + Upto(31)
    ensures CodesOf(Chain, [32] + Upto(31), Same) == [WRAPPER]
  {
    ChainWalk([32], 0);
    assert [Ref(32)][1..] + Children(Chain(32)) == [Ref(0)];
    assert [32] + Upto(0) == [] + [32];
    SilentCodes(Upto(31), []);
    hide Walk, Upto;
    assert Upto(31) + [] == Upto(31);
    assert ([32] + Upto(31))[1..] == Upto(31);
    WrapperIsACode(Same);
  }

  /** With 32 nodes the wrapper pushes the last one out of the walk, and its code out of the verdict. */
  lemma WrappingCanLoseTheThirtySecondNode()
    ensures Wraps(Chain, 32, Ref(0)) && |NestedErrors(Chain, Ref(0))| == LIMIT
    ensures ClassifyNetworkError(Chain, Ref(0), Same).stage == TIMEOUT
    ensures ClassifyNetworkError(Chain, Ref(32), Same).stage == UNKNOWN
  {
    PlainChain();
    ChainIsWrapped();
    WrappedChain();
    OnlyWrappers([WRAPPER]);
    TimeoutCode();
    hide Walk, CodesOf, Classify, NestedErrors, Wraps, Chain;
  }

  lemma LastOfUpto()
    ensures Upto(32) == Upto(31) + [31]
  {
  }

  lemma TimeoutCode()
    ensures Classify(["ETIMEDOUT"]).stage == TIMEOUT
  {
    assert "ETIMEDOUT"[0] != WRAPPER[0];
    assert Detailed(["ETIMEDOUT"]) == ["ETIMEDOUT"] + [];
    assert "ETIMEDOUT" in TIMEOUT_CODES;
  }
}
