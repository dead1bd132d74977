/**
 What each error code means (src/utils/network-error-classification.ts), which code of an error graph decides, and in
 which order the graph is searched for it.
 */
module NetworkErrorCodes {
  import opened Wrappers
  import opened NetworkErrors

  // ---------- the meaning of a code ----------

  predicate Within(s: string, part: string) {
    exists i :: 0 <= i <= |s| && part <= s[i..]
  }

  /** The kinds of code, in the order in which they are looked for; 5 is any other. */
  function Kind(code: string): nat {
    if code in {"ETIMEDOUT", "ESOCKETTIMEDOUT", "UND_ERR_CONNECT_TIMEOUT", "UND_ERR_HEADERS_TIMEOUT",
                "UND_ERR_BODY_TIMEOUT"} then 0
    else if code in {"ENOTFOUND", "EAI_AGAIN"} then 1
    else if code in {"CERT_HAS_EXPIRED", "DEPTH_ZERO_SELF_SIGNED_CERT", "ERR_TLS_CERT_ALTNAME_INVALID",
                     "ERR_TLS_CERT_SIGNATURE_ALGORITHM_UNSUPPORTED", "SELF_SIGNED_CERT_IN_CHAIN",
                     "UNABLE_TO_GET_ISSUER_CERT", "UNABLE_TO_GET_ISSUER_CERT_LOCALLY",
                     "UNABLE_TO_VERIFY_LEAF_SIGNATURE"} then 2
    else if code in {"ECONNREFUSED", "ECONNRESET", "EHOSTUNREACH", "ENETUNREACH"} then 3
    else if "ERR_TLS_" <= code || "CERT_" <= code || Within(code, "CERTIFICATE") then 4
    else 5
  }

  function Meaning(kind: nat): (Stage, bool) {
    match kind
    case 0 => (TIMEOUT, true)
    case 1 => (DNS, true)
    case 2 => (TLS, false)
    case 3 => (TCP_CONNECT, true)
    case 4 => (TLS, false)
    case _ => (UNKNOWN, true)
  }

  lemma {:induction false} ContainsMeans(s: string, part: string)
    ensures Contains(s, part) <==> Within(s, part)
  {
    if part <= s { assert s[0..] == s; }
    if s != "" {
      ContainsMeans(s[1..], part);
      if Within(s[1..], part) {
        var i :| 0 <= i <= |s[1..]| && part <= s[1..][i..];
        assert s[1..][i..] == s[i + 1..];
      }
      if Within(s, part) && !(part <= s) {
        var i :| 0 <= i <= |s| && part <= s[i..];
        assert i > 0 && s[i..] == s[1..][i - 1..];
      }
    }
  }

  lemma KindMeans(code: string)
    ensures Kind(code) == (if code in TIMEOUT_CODES then 0 else if code in DNS_CODES then 1
                           else if code in TLS_CODES then 2 else if code in CONNECT_CODES then 3
                           else if TlsLike(code) then 4 else 5)
  {
    ContainsMeans(code, "CERTIFICATE");
    hide Contains, Within;
  }

  // ---------- the code that decides ----------

  function WithoutWrapper(codes: seq<string>): seq<string> {
    if codes == [] then []
    else (if codes[0] == "TRANSIENT_FETCH" then [] else [codes[0]]) + WithoutWrapper(codes[1..])
  }

  /** Code i decides: none is of a kind looked for earlier, and none before it is of the same kind. */
  ghost predicate Decides(codes: seq<string>, i: nat) {
    && i < |codes|
    && (forall j :: 0 <= j < |codes| ==> Kind(codes[i]) <= Kind(codes[j]))
    && (forall j :: 0 <= j < i ==> Kind(codes[i]) != Kind(codes[j]))
  }

  lemma {:induction false} DetailedIsWithout(codes: seq<string>)
    ensures Detailed(codes) == WithoutWrapper(codes)
  {
    if codes != [] { DetailedIsWithout(codes[1..]); }
  }

  lemma {:induction false} FirstInAt(codes: seq<string>, members: set<string>) returns (i: nat)
    ensures FirstIn(codes, members).None? ==> forall j :: 0 <= j < |codes| ==> codes[j] !in members
    ensures FirstIn(codes, members).Some? ==>
              && i < |codes| && FirstIn(codes, members) == Some(codes[i]) && codes[i] in members
              && forall j :: 0 <= j < i ==> codes[j] !in members
  {
    i := 0;
    if codes != [] && codes[0] !in members {
      i := FirstInAt(codes[1..], members);
      assert forall j :: 0 < j < |codes| ==> codes[j] == codes[1..][j - 1];
      i := i + 1;
    }
  }

  lemma {:induction false} FirstTlsLikeAt(codes: seq<string>) returns (i: nat)
    ensures FirstTlsLike(codes).None? ==> forall j :: 0 <= j < |codes| ==> !TlsLike(codes[j])
    ensures FirstTlsLike(codes).Some? ==>
              && i < |codes| && FirstTlsLike(codes) == Some(codes[i]) && TlsLike(codes[i])
              && forall j :: 0 <= j < i ==> !TlsLike(codes[j])
  {
    hide TlsLike;
    i := 0;
    if codes != [] && !TlsLike(codes[0]) {
      i := FirstTlsLikeAt(codes[1..]);
      assert forall j :: 0 < j < |codes| ==> codes[j] == codes[1..][j - 1];
      i := i + 1;
    }
  }

  lemma FirstOfItsKind(used: seq<string>, timeouts: set<string>, dns: set<string>, tls: set<string>,
                       connects: set<string>, c: Classification) returns (i: nat)
    requires used != []
    requires forall j :: 0 <= j < |used| ==>
      Kind(used[j]) == if used[j] in timeouts then 0 else if used[j] in dns then 1 else if used[j] in tls then 2
                       else if used[j] in connects then 3 else if TlsLike(used[j]) then 4 else 5
    requires var t, d, s, o := FirstIn(used, timeouts), FirstIn(used, dns), FirstIn(used, tls), FirstIn(used, connects);
             c == if t.Some? then Classification(TIMEOUT, t, true)
                  else if d.Some? then Classification(DNS, d, true)
                  else if s.Some? then Classification(TLS, s, false)
                  else if o.Some? then Classification(TCP_CONNECT, o, true)
                  else if FirstTlsLike(used).Some? then Classification(TLS, FirstTlsLike(used), false)
                  else Classification(UNKNOWN, Some(used[0]), true)
    ensures Decides(used, i) && c.errorCode == Some(used[i]) && (c.stage, c.retryable) == Meaning(Kind(used[i]))
  {
    hide Kind, TlsLike, FirstIn, FirstTlsLike;
    i := FirstInAt(used, timeouts);
    if FirstIn(used, timeouts).None? {
      i := FirstInAt(used, dns);
      if FirstIn(used, dns).None? {
        i := FirstInAt(used, tls);
        if FirstIn(used, tls).None? {
          i := FirstInAt(used, connects);
          if FirstIn(used, connects).None? {
            i := FirstTlsLikeAt(used);
            if FirstTlsLike(used).None? { i := 0; }
          }
        }
      }
    }
  }

  /**
   The verdict on the codes of an error graph, wrapper codes left aside when there are others: one code decides, the
   first of the earliest kind present; it is the one reported, and its kind gives the stage and whether to try again.
   */
  lemma CodeDecides(codes: seq<string>) returns (i: nat)
    ensures var used := if WithoutWrapper(codes) != [] then WithoutWrapper(codes) else codes;
            var c := Classify(codes);
            if used == [] then c == Classification(UNKNOWN, None, true)
            else Decides(used, i) && c.errorCode == Some(used[i]) && (c.stage, c.retryable) == Meaning(Kind(used[i]))
  {
    DetailedIsWithout(codes);
    var used := Used(codes);
    i := 0;
    if used == [] {
      hide Kind, Meaning, WithoutWrapper, Detailed;
    } else {
      forall j | 0 <= j < |used|
        ensures Kind(used[j]) == (if used[j] in TIMEOUT_CODES then 0 else if used[j] in DNS_CODES then 1
                                  else if used[j] in TLS_CODES then 2 else if used[j] in CONNECT_CODES then 3
                                  else if TlsLike(used[j]) then 4 else 5)
      {
        KindMeans(used[j]);
      }
      hide Kind, TlsLike, FirstIn, FirstTlsLike, Detailed, WithoutWrapper, Decides, Meaning;
      i := FirstOfItsKind(used, TIMEOUT_CODES, DNS_CODES, TLS_CODES, CONNECT_CODES, Classify(codes));
    }
  }

  /** A node's code counts when, normalised, it is 2 to 80 upper-case letters, digits and underscores. */
  lemma CodeCounts(h: Heap, id: nat, normalize: string -> string)
    ensures var code := h(id).code;
            CodesOf(h, [id], normalize)
            == if && code.Some? && 2 <= |normalize(code.value)| <= 80
                  && (forall c :: c in normalize(code.value) ==> 'A' <= c <= 'Z' || '0' <= c <= '9' || c == '_')
               then [normalize(code.value)] else []
  {
    assert [id][1..] == [] && CodesOf(h, [], normalize) == [];
    if h(id).code.Some? {
      var n := normalize(h(id).code.value);
      assert forall i :: 0 <= i < |n| ==> n[i] in n;
    }
  }

  /** The codes are those of the nodes, in the order found. */
  lemma {:induction false} CodesInOrder(h: Heap, a: seq<nat>, b: seq<nat>, normalize: string -> string)
    ensures CodesOf(h, a + b, normalize) == CodesOf(h, a, normalize) + CodesOf(h, b, normalize)
    decreases |a|
  {
    if a == [] {
      assert a + b == b;
    } else {
      hide SafeCode;
      assert (a + b)[1..] == a[1..] + b;
      CodesInOrder(h, a[1..], b, normalize);
    }
  }

  // ---------- the order of the search ----------

  /** What a node leads to: its cause, if it has one, and then its aggregated errors. */
  function LeadsTo(node: Node): seq<Value> {
    if node.cause.Falsy? then (if node.errors.Some? then node.errors.value else [])
    else [node.cause] + (if node.errors.Some? then node.errors.value else [])
  }

  function AllLeadsTo(h: Heap, found: seq<nat>): seq<Value> {
    if found == [] then [] else AllLeadsTo(h, found[..|found| - 1]) + LeadsTo(h(found[|found| - 1]))
  }

  /** The objects of a list, each at its first place. */
  function Distinct(vs: seq<Value>): seq<nat> {
    if vs == [] then []
    else
      var front, v := Distinct(vs[..|vs| - 1]), vs[|vs| - 1];
      if v.Ref? && v.id !in front then front + [v.id] else front
  }

  lemma SearchStep(h: Heap, found: seq<nat>, id: nat)
    ensures AllLeadsTo(h, found + [id]) == AllLeadsTo(h, found) + Children(h(id))
  {
    assert (found + [id])[..|found|] == found;
    var node := h(id);
    assert LeadsTo(node) == Children(node);
  }

  lemma DistinctSnoc(vs: seq<Value>, v: Value)
    ensures Distinct(vs + [v]) == if v.Ref? && v.id !in Distinct(vs) then Distinct(vs) + [v.id] else Distinct(vs)
  {
    assert (vs + [v])[..|vs|] == vs;
  }

  /** Looking at the next of the queue: what was looked at and what is waiting stay the whole of what is offered. */
  ghost predicate Searching(h: Heap, root: Value, looked: seq<Value>, queue: seq<Value>, found: seq<nat>) {
    looked + queue == [root] + AllLeadsTo(h, found) && Distinct(looked) == found
  }

  lemma LookAgain(h: Heap, root: Value, looked: seq<Value>, queue: seq<Value>, found: seq<nat>)
    requires queue != [] && Searching(h, root, looked, queue, found) && (!queue[0].Ref? || queue[0].id in found)
    ensures Searching(h, root, looked + [queue[0]], queue[1..], found)
  {
    DistinctSnoc(looked, queue[0]);
    hide Distinct, AllLeadsTo;
    assert looked + [queue[0]] + queue[1..] == looked + queue;
  }

  lemma LookAtNew(h: Heap, root: Value, looked: seq<Value>, queue: seq<Value>, found: seq<nat>)
    requires queue != [] && Searching(h, root, looked, queue, found) && queue[0].Ref? && queue[0].id !in found
    ensures Searching(h, root, looked + [queue[0]], queue[1..] + Children(h(queue[0].id)), found + [queue[0].id])
  {
    var id := queue[0].id;
    DistinctSnoc(looked, queue[0]);
    SearchStep(h, found, id);
    hide Distinct, AllLeadsTo, Children;
    MoreOffered(looked, queue, root, AllLeadsTo(h, found), Children(h(id)));
  }

  lemma MoreOffered(looked: seq<Value>, queue: seq<Value>, root: Value, offered: seq<Value>, more: seq<Value>)
    requires queue != [] && looked + queue == [root] + offered
    ensures looked + [queue[0]] + (queue[1..] + more) == [root] + (offered + more)
  {
    assert looked + [queue[0]] + (queue[1..] + more) == (looked + queue) + more;
    assert [root] + (offered + more) == ([root] + offered) + more;
  }

  lemma SearchEnds(h: Heap, root: Value, looked: seq<Value>, queue: seq<Value>, found: seq<nat>)
    requires Searching(h, root, looked, queue, found)
    ensures var offered := [root] + AllLeadsTo(h, found);
            |looked| <= |offered| && Distinct(offered[..|looked|]) == found && (queue == [] ==> |looked| == |offered|)
  {
    hide Distinct, AllLeadsTo;
    assert (looked + queue)[..|looked|] == looked;
  }

  lemma {:induction false} WalkInOrder(h: Heap, root: Value, looked: seq<Value>, queue: seq<Value>, found: seq<nat>)
    returns (n: nat)
    requires Searching(h, root, looked, queue, found) && |found| <= LIMIT
    ensures var all := Walk(h, queue, found);
            var offered := [root] + AllLeadsTo(h, all);
            n <= |offered| && all == Distinct(offered[..n]) && (n == |offered| || |all| == LIMIT)
    decreases LIMIT - |found|, |queue|
  {
    hide Searching, Distinct, AllLeadsTo, Children;
    if queue == [] || |found| >= LIMIT {
      n := |looked|;
      SearchEnds(h, root, looked, queue, found);
    } else if !queue[0].Ref? || queue[0].id in found {
      LookAgain(h, root, looked, queue, found);
      n := WalkInOrder(h, root, looked + [queue[0]], queue[1..], found);
    } else {
      var id := queue[0].id;
      LookAtNew(h, root, looked, queue, found);
      n := WalkInOrder(h, root, looked + [queue[0]], queue[1..] + Children(h(id)), found + [id]);
    }
  }

  /**
   The order of the search, for every graph: the nodes found are the distinct objects met when the error itself is
   looked at first and then, node by node in the order found, its cause and its aggregated errors; the search ends
   when these run out or 32 nodes are found.
   */
  lemma FoundInOrder(h: Heap, root: Value) returns (n: nat)
    ensures var found := NestedErrors(h, root);
            var offered := [root] + AllLeadsTo(h, found);
            n <= |offered| && found == Distinct(offered[..n]) && (n == |offered| || |found| == 32)
  {
    assert [] + [root] == [root] + AllLeadsTo(h, []);
    n := WalkInOrder(h, root, [], [root], []);
  }
}
