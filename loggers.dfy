/**
 * The sequential logic of logger.go. Loggers live in an arena: a node is
 * named by its index, its parent is an index, and a node is always created
 * after its parent, so parent indices are smaller than their children's.
 *
 * Modelled: turning `Log`'s pairs into a Ctx, `log`'s intake test (running and level) and
 * its effect on the in-flight counter and the raw queue, the level helpers,
 * one iteration of `processRecords` (ancestor chain, context merge, forward
 * to the parent), `SubLogger`/`addChild`, `removeChild`, `Stop` and
 * `IsRunning`. The goroutines, channels and waiting are not modelled.
 */
module Loggers {
  import opened Wrappers
  import opened Text
  import opened Levels
  import opened Records

  /** A logger: its context, its relationship fields, its state and minimum
      level, the in-flight counter `toProcess`, the raw queue `rawRecords`
      and the dispatch queue `records`. */
  datatype Node = Node(
    context: Ctx,
    parent: Option<nat>,
    children: seq<nat>,
    preventPropagation: bool,
    running: bool,
    level: Level,
    toProcess: nat,
    rawRecords: seq<Record>,
    records: seq<Record>)

  /** `createLogger`: a running logger with empty queues and no relations. */
  function NewNode(context: Ctx, level: Level): Node {
    Node(context, None, [], false, true, level, 0, [], [])
  }

  // ---------------------------------------------------------------------
  // Level checks

  /** `shouldProcessLevel`: the logger's minimum level is at most `level`. */
  predicate ShouldProcessLevel(n: Node, level: Level) {
    n.level <= level
  }

  predicate IsLevel(n: Node, level: Level) {
    ShouldProcessLevel(n, level)
  }

  predicate IsDebug(n: Node) {
    ShouldProcessLevel(n, DEBUG)
  }

  // IsInfo, IsWarning, IsError and IsCritical test DEBUG, as the code does.

  predicate IsInfo(n: Node) {
    ShouldProcessLevel(n, DEBUG)
  }

  predicate IsWarning(n: Node) {
    ShouldProcessLevel(n, DEBUG)
  }

  predicate IsError(n: Node) {
    ShouldProcessLevel(n, DEBUG)
  }

  predicate IsCritical(n: Node) {
    ShouldProcessLevel(n, DEBUG)
  }

  /** The check at the top of `log`: running and the level passes. */
  predicate Accepts(n: Node, level: Level) {
    n.running && ShouldProcessLevel(n, level)
  }

  /** For levels l1 < l2, a logger whose minimum is l2 discards l1 and takes
      l2 and everything above; a stopped logger takes nothing. */
  lemma LevelOrdering(n: Node, l1: Level, l2: Level, l3: Level)
    requires n.level == l2 && l1 < l2 <= l3
    ensures !IsLevel(n, l1) && IsLevel(n, l2) && IsLevel(n, l3)
    ensures Accepts(n, l3) <==> n.running
    ensures !Accepts(n, l1)
  {
  }

  /** As written, every level helper answers the DEBUG question. */
  lemma HelpersAllTestDebug(n: Node)
    ensures IsInfo(n) == IsDebug(n) && IsWarning(n) == IsDebug(n)
    ensures IsError(n) == IsDebug(n) && IsCritical(n) == IsDebug(n)
    ensures IsDebug(n) == IsLevel(n, DEBUG)
  {
  }

  /** A logger whose minimum level is INFO processes INFO records, yet IsInfo
      says it does not; an ERROR logger processes CRITICAL records, yet
      IsCritical says it does not. */
  lemma IsInfoContradictsDoc()
    ensures var n := NewNode(map[], INFO); IsLevel(n, INFO) && !IsInfo(n)
    ensures var n := NewNode(map[], ERROR); IsLevel(n, CRITICAL) && !IsCritical(n)
  {
  }

  // What the doc comments of IsInfo ... IsCritical promise.

  predicate IntendedIsInfo(n: Node) {
    IsLevel(n, INFO)
  }

  predicate IntendedIsWarning(n: Node) {
    IsLevel(n, WARNING)
  }

  predicate IntendedIsError(n: Node) {
    IsLevel(n, ERROR)
  }

  predicate IntendedIsCritical(n: Node) {
    IsLevel(n, CRITICAL)
  }

  /** Corrected helpers: each answers for its own level, so they are ordered
      by severity: processing a level implies processing every higher one. */
  lemma IntendedHelpersOrdered(n: Node)
    ensures IsDebug(n) ==> IntendedIsInfo(n)
    ensures IntendedIsInfo(n) ==> IntendedIsWarning(n)
    ensures IntendedIsWarning(n) ==> IntendedIsError(n)
    ensures IntendedIsError(n) ==> IntendedIsCritical(n)
    ensures IntendedIsInfo(n) <==> n.level <= INFO
  {
  }

  // ---------------------------------------------------------------------
  // Pairs to context

  /** `Log` appends "" to an odd-length list of pairs. */
  function Padded(pairs: seq<string>): (p: seq<string>)
    ensures |p| % 2 == 0
    ensures |pairs| <= |p| <= |pairs| + 1 && p[..|pairs|] == pairs
    ensures |p| > |pairs| ==> p[|pairs|] == ""
  {
    if |pairs| % 2 != 0 then pairs + [""] else pairs
  }

  /** The map `d[pairs[i]] = pairs[i+1]` builds, for i = 0, 2, 4, ... */
  function PairsCtx(p: seq<string>): Ctx
    requires |p| % 2 == 0
    decreases |p|
  {
    if p == [] then map[] else PairsCtx(p[..|p| - 2])[p[|p| - 2] := Str(p[|p| - 1])]
  }

  /** `k` stands at an even (key) position of `p`. */
  predicate IsKeyOf(p: seq<string>, k: string) {
    exists i :: 0 <= i < |p| && i % 2 == 0 && p[i] == k
  }

  /** The keys of the context are exactly the strings at even positions. */
  lemma {:induction false} PairsCtxDomain(p: seq<string>, k: string)
    requires |p| % 2 == 0
    ensures k in PairsCtx(p) <==> IsKeyOf(p, k)
    decreases |p|
  {
    if p != [] {
      var q := p[..|p| - 2];
      PairsCtxDomain(q, k);
      if IsKeyOf(q, k) {
        var i :| 0 <= i < |q| && i % 2 == 0 && q[i] == k;
        assert p[i] == k;
      }
      if IsKeyOf(p, k) && k != p[|p| - 2] {
        var i :| 0 <= i < |p| && i % 2 == 0 && p[i] == k;
        assert i < |q| && q[i] == k;
      }
    }
  }

  /** A key maps to the value after its last occurrence: later duplicates
      overwrite earlier ones. */
  lemma {:induction false} PairsCtxLastWins(p: seq<string>, i: nat)
    requires |p| % 2 == 0 && i < |p| && i % 2 == 0
    requires forall j :: i < j < |p| && j % 2 == 0 ==> p[j] != p[i]
    ensures p[i] in PairsCtx(p) && PairsCtx(p)[p[i]] == Str(p[i + 1])
    decreases |p|
  {
    if i < |p| - 2 {
      var q := p[..|p| - 2];
      assert p[|p| - 2] != p[i];
      assert q[i] == p[i] && q[i + 1] == p[i + 1];
      forall j | i < j < |q| && j % 2 == 0 ensures q[j] != q[i] {
        assert q[j] == p[j];
      }
      PairsCtxLastWins(q, i);
    }
  }

  /** The pairs-to-Ctx loop of `Log`, padding included. */
  method ContextFromPairs(pairs: seq<string>) returns (d: Ctx)
    ensures d == PairsCtx(Padded(pairs))
    ensures forall k :: k in d <==> IsKeyOf(pairs, k)
    ensures |pairs| % 2 == 1 ==> d[pairs[|pairs| - 1]] == Str("")
  {
    var p := pairs;
    if |p| % 2 != 0 {
      p := p + [""];
    }
    d := map[];
    var i := 0;
    while i < |p|
      invariant 0 <= i <= |p| && i % 2 == 0
      invariant d == PairsCtx(p[..i])
    {
      assert p[..i + 2][..i] == p[..i];
      d := d[p[i] := Str(p[i + 1])];
      i := i + 2;
    }
    assert p[..i] == p;
    assert p == Padded(pairs);
    PaddedPairs(pairs);
  }

  /** The context built from the padded pairs has exactly the keys of the
      pairs, and an odd list's last key maps to "". */
  lemma PaddedPairs(pairs: seq<string>)
    ensures var d := PairsCtx(Padded(pairs));
      && (forall k :: k in d <==> IsKeyOf(pairs, k))
      && (|pairs| % 2 == 1 ==> pairs[|pairs| - 1] in d && d[pairs[|pairs| - 1]] == Str(""))
  {
    var p := Padded(pairs);
    forall k ensures k in PairsCtx(p) <==> IsKeyOf(pairs, k) {
      PairsCtxDomain(p, k);
      if IsKeyOf(p, k) {
        var j :| 0 <= j < |p| && j % 2 == 0 && p[j] == k;
        assert j < |pairs| && pairs[j] == k;
      }
      if IsKeyOf(pairs, k) {
        var j :| 0 <= j < |pairs| && j % 2 == 0 && pairs[j] == k;
        assert p[j] == k;
      }
    }
    if |pairs| % 2 == 1 {
      PairsCtxLastWins(p, |pairs| - 1);
    }
  }

  // ---------------------------------------------------------------------
  // Ancestor chain, merged context and propagation

  /** Parents come before their children in the arena: the parent relation is acyclic. */
  predicate ParentsBefore(nodes: seq<Node>) {
    forall i :: 0 <= i < |nodes| && nodes[i].parent.Some? ==> nodes[i].parent.value < i
  }

  predicate InArena(nodes: seq<Node>, chain: seq<nat>) {
    forall k :: 0 <= k < |chain| ==> chain[k] < |nodes|
  }

  /** `loggerChain` of `processRecords`: the node itself, then its parents up to the root. */
  function Chain(nodes: seq<Node>, i: nat): (c: seq<nat>)
    requires ParentsBefore(nodes) && i < |nodes|
    ensures |c| > 0 && c[0] == i && InArena(nodes, c)
    decreases i
  {
    match nodes[i].parent
    case None => [i]
    case Some(p) => [i] + Chain(nodes, p)
  }

  /** The chain steps from each logger to its parent, its indices strictly
      decrease, and it ends at a logger without a parent. */
  lemma {:induction false} ChainShape(nodes: seq<Node>, i: nat)
    requires ParentsBefore(nodes) && i < |nodes|
    ensures var c := Chain(nodes, i);
      && (forall k :: 0 <= k < |c| - 1 ==> nodes[c[k]].parent == Some(c[k + 1]))
      && (forall k :: 0 < k < |c| ==> c[k] < c[k - 1])
      && nodes[c[|c| - 1]].parent == None
    decreases i
  {
    var c := Chain(nodes, i);
    if nodes[i].parent.Some? {
      var p := nodes[i].parent.value;
      ChainShape(nodes, p);
      var c' := Chain(nodes, p);
      assert c == [i] + c';
      forall k | 0 <= k < |c| - 1 ensures nodes[c[k]].parent == Some(c[k + 1]) {
        if k > 0 { assert c[k] == c'[k - 1] && c[k + 1] == c'[k]; }
      }
      forall k | 0 < k < |c| ensures c[k] < c[k - 1] {
        if k > 1 { assert c[k] == c'[k - 1] && c[k - 1] == c'[k - 2]; }
      }
    }
  }

  /** The chain of any member of a chain is the rest of that chain. */
  lemma {:induction false} ChainSuffix(nodes: seq<Node>, i: nat, k: nat)
    requires ParentsBefore(nodes) && i < |nodes|
    requires k < |Chain(nodes, i)|
    ensures Chain(nodes, Chain(nodes, i)[k]) == Chain(nodes, i)[k..]
    decreases i
  {
    if k > 0 {
      var p := nodes[i].parent.value;
      assert Chain(nodes, i)[1..] == Chain(nodes, p);
      ChainSuffix(nodes, p, k - 1);
      assert Chain(nodes, i)[k..] == Chain(nodes, p)[k - 1..];
    }
  }

  /** The contexts of `chain` merged root first, so that nearer nodes override. */
  function ChainContext(nodes: seq<Node>, chain: seq<nat>): Ctx
    requires InArena(nodes, chain)
    decreases |chain|
  {
    if chain == [] then map[] else ChainContext(nodes, chain[1..]) + nodes[chain[0]].context
  }

  /** `mergedData`: the chain's contexts, then the record's own context on top. */
  function Merged(nodes: seq<Node>, chain: seq<nat>, own: Ctx): Ctx
    requires InArena(nodes, chain)
  {
    ChainContext(nodes, chain) + own
  }

  predicate InSomeContext(nodes: seq<Node>, chain: seq<nat>, key: string)
    requires InArena(nodes, chain)
  {
    exists j :: 0 <= j < |chain| && key in nodes[chain[j]].context
  }

  lemma {:induction false} ChainContextDomain(nodes: seq<Node>, chain: seq<nat>, key: string)
    requires InArena(nodes, chain)
    ensures key in ChainContext(nodes, chain) <==> InSomeContext(nodes, chain, key)
    decreases |chain|
  {
    if chain != [] {
      var rest := chain[1..];
      ChainContextDomain(nodes, rest, key);
      if InSomeContext(nodes, rest, key) {
        var j :| 0 <= j < |rest| && key in nodes[rest[j]].context;
        assert chain[j + 1] == rest[j];
      }
      if InSomeContext(nodes, chain, key) && key !in nodes[chain[0]].context {
        var j :| 0 <= j < |chain| && key in nodes[chain[j]].context;
        assert j > 0 && rest[j - 1] == chain[j];
      }
    }
  }

  /** Position `j` is the first on the chain whose context has `key`. */
  predicate NearestWith(nodes: seq<Node>, chain: seq<nat>, j: nat, key: string)
    requires InArena(nodes, chain)
  {
    && j < |chain|
    && key in nodes[chain[j]].context
    && forall m :: 0 <= m < j ==> key !in nodes[chain[m]].context
  }

  lemma {:induction false} ChainContextNearest(nodes: seq<Node>, chain: seq<nat>, j: nat, key: string)
    requires InArena(nodes, chain) && j < |chain|
    requires key in nodes[chain[j]].context
    requires forall m :: 0 <= m < j ==> key !in nodes[chain[m]].context
    ensures key in ChainContext(nodes, chain)
    ensures ChainContext(nodes, chain)[key] == nodes[chain[j]].context[key]
    decreases |chain|
  {
    if j > 0 {
      var rest := chain[1..];
      assert key !in nodes[chain[0]].context;
      forall m | 0 <= m < j - 1 ensures key !in nodes[rest[m]].context {
        assert rest[m] == chain[m + 1];
      }
      ChainContextNearest(nodes, rest, j - 1, key);
    }
  }

  /** The merged context: its keys are those of the record and of every
      context on the chain; the record's own value wins; otherwise the
      nearest node on the chain that has the key gives its value. */
  lemma MergedContext(nodes: seq<Node>, chain: seq<nat>, own: Ctx, key: string)
    requires InArena(nodes, chain)
    ensures key in Merged(nodes, chain, own) <==> key in own || InSomeContext(nodes, chain, key)
    ensures key in own ==> Merged(nodes, chain, own)[key] == own[key]
    ensures forall j: nat :: key !in own && NearestWith(nodes, chain, j, key) ==>
              Merged(nodes, chain, own)[key] == nodes[chain[j]].context[key]
  {
    ChainContextDomain(nodes, chain, key);
    forall j: nat | key !in own && NearestWith(nodes, chain, j, key)
      ensures Merged(nodes, chain, own)[key] == nodes[chain[j]].context[key]
    {
      ChainContextNearest(nodes, chain, j, key);
    }
  }

  /** Merging again from any later point of the chain with an already merged
      context changes nothing. */
  lemma ReMergeIdentity(nodes: seq<Node>, chain: seq<nat>, own: Ctx, k: nat)
    requires InArena(nodes, chain) && k <= |chain|
    ensures Merged(nodes, chain[k..], Merged(nodes, chain, own)) == Merged(nodes, chain, own)
  {
    var m := Merged(nodes, chain, own);
    var x := ChainContext(nodes, chain[k..]);
    forall key | key in x ensures key in m {
      ChainContextDomain(nodes, chain[k..], key);
      ChainContextDomain(nodes, chain, key);
      var j :| 0 <= j < |chain[k..]| && key in nodes[chain[k..][j]].context;
      assert chain[k + j] == chain[k..][j];
    }
    assert x + m == m;
  }

  /** Context precedence on a two-level tree: a parent with {x: 1}, a child
      with {x: 2, y: 3}, and a call at the child with {y: 4} give {x: 2, y: 4}. */
  lemma ContextPrecedenceExample()
    ensures var a := NewNode(map["x" := Str("1")], NOTSET);
            var b := NewNode(map["x" := Str("2"), "y" := Str("3")], DEBUG).(parent := Some(0));
            var nodes := [a, b];
            Merged(nodes, Chain(nodes, 1), map["y" := Str("4")]) == map["x" := Str("2"), "y" := Str("4")]
  {
    var a := NewNode(map["x" := Str("1")], NOTSET);
    var b := NewNode(map["x" := Str("2"), "y" := Str("3")], DEBUG).(parent := Some(0));
    var nodes := [a, b];
    assert Chain(nodes, 0) == [0];
    assert Chain(nodes, 1) == [1, 0];
    assert [1, 0][1..] == [0];
    assert ChainContext(nodes, [0]) == map["x" := Str("1")];
  }

  /** The loggers whose raw queue a record logged at `i` reaches: `i` if it
      accepts, then, while the receiving node does not prevent propagation
      and has a parent, the parent if it accepts. */
  function Receivers(nodes: seq<Node>, i: nat, level: Level): seq<nat>
    requires ParentsBefore(nodes) && i < |nodes|
    decreases i
  {
    if !Accepts(nodes[i], level) then []
    else if !nodes[i].preventPropagation && nodes[i].parent.Some? then
      [i] + Receivers(nodes, nodes[i].parent.value, level)
    else [i]
  }

  /** Every receiver accepts the level and every receiver but the last
      propagates to its parent. */
  lemma {:induction false} ReceiversAccept(nodes: seq<Node>, i: nat, level: Level)
    requires ParentsBefore(nodes) && i < |nodes|
    ensures forall k :: 0 <= k < |Receivers(nodes, i, level)| ==>
              Receivers(nodes, i, level)[k] < |nodes| && Accepts(nodes[Receivers(nodes, i, level)[k]], level)
    ensures forall k :: 0 <= k < |Receivers(nodes, i, level)| - 1 ==>
              !nodes[Receivers(nodes, i, level)[k]].preventPropagation
    decreases i
  {
    var r := Receivers(nodes, i, level);
    if Accepts(nodes[i], level) && !nodes[i].preventPropagation && nodes[i].parent.Some? {
      var p := nodes[i].parent.value;
      ReceiversAccept(nodes, p, level);
      var r' := Receivers(nodes, p, level);
      assert r == [i] + r';
      forall k | 0 <= k < |r| ensures r[k] < |nodes| && Accepts(nodes[r[k]], level) {
        if k > 0 { assert r[k] == r'[k - 1]; }
      }
      forall k | 0 <= k < |r| - 1 ensures !nodes[r[k]].preventPropagation {
        if k > 0 { assert r[k] == r'[k - 1]; }
      }
    } else if Accepts(nodes[i], level) {
      assert r == [i];
    }
  }

  /** The receivers are a prefix of the ancestor chain, and the prefix stops
      early only at a node that rejects the level or after a node that
      prevents propagation. */
  lemma {:induction false} ReceiversInChain(nodes: seq<Node>, i: nat, level: Level)
    requires ParentsBefore(nodes) && i < |nodes|
    ensures var c, r := Chain(nodes, i), Receivers(nodes, i, level);
      && |r| <= |c| && r == c[..|r|]
      && (|r| < |c| ==> !Accepts(nodes[c[|r|]], level) ||
                        (|r| > 0 && nodes[c[|r| - 1]].preventPropagation))
    decreases i
  {
    var c, r := Chain(nodes, i), Receivers(nodes, i, level);
    if Accepts(nodes[i], level) && !nodes[i].preventPropagation && nodes[i].parent.Some? {
      var p := nodes[i].parent.value;
      ReceiversInChain(nodes, p, level);
      var c', r' := Chain(nodes, p), Receivers(nodes, p, level);
      assert c == [i] + c' && r == [i] + r';
      assert c[..|r|] == [i] + c'[..|r'|];
      if |r| < |c| {
        assert c[|r|] == c'[|r'|];
        if |r'| > 0 { assert c[|r| - 1] == c'[|r'| - 1]; }
      }
    }
  }

  /** The receivers are the longest prefix of the ancestor chain in which
      every node accepts and every node but the last propagates. */
  lemma ReceiversPrefix(nodes: seq<Node>, i: nat, level: Level)
    requires ParentsBefore(nodes) && i < |nodes|
    ensures var c, r := Chain(nodes, i), Receivers(nodes, i, level);
      && |r| <= |c| && r == c[..|r|]
      && (forall k :: 0 <= k < |r| ==> Accepts(nodes[r[k]], level))
      && (forall k :: 0 <= k < |r| - 1 ==> !nodes[r[k]].preventPropagation)
      && (|r| < |c| ==> !Accepts(nodes[c[|r|]], level) ||
                        (|r| > 0 && nodes[c[|r| - 1]].preventPropagation))
  {
    ReceiversAccept(nodes, i, level);
    ReceiversInChain(nodes, i, level);
  }

  datatype Delivery = Delivery(node: nat, record: Record)

  /** What `processRecords` puts on each receiving logger's dispatch queue:
      every node merges the record it got and forwards the merged record to
      its parent's `log`. */
  function Deliveries(nodes: seq<Node>, i: nat, rec: Record): seq<Delivery>
    requires ParentsBefore(nodes) && i < |nodes|
    decreases i
  {
    if !Accepts(nodes[i], rec.level) then []
    else
      var m := rec.(context := Merged(nodes, Chain(nodes, i), rec.context));
      [Delivery(i, m)] +
        (if !nodes[i].preventPropagation && nodes[i].parent.Some? then
           Deliveries(nodes, nodes[i].parent.value, m)
         else [])
  }

  /** Because the merged record is forwarded, every receiving ancestor
      dispatches exactly the originating logger's merged record. */
  lemma {:induction false} DeliveriesCarryOriginMerge(nodes: seq<Node>, i: nat, rec: Record)
    requires ParentsBefore(nodes) && i < |nodes|
    ensures var d, r := Deliveries(nodes, i, rec), Receivers(nodes, i, rec.level);
      && |d| == |r|
      && forall k :: 0 <= k < |d| ==>
           d[k].node == r[k] &&
           d[k].record == rec.(context := Merged(nodes, Chain(nodes, i), rec.context))
    decreases i
  {
    if Accepts(nodes[i], rec.level) && !nodes[i].preventPropagation && nodes[i].parent.Some? {
      var p := nodes[i].parent.value;
      var m := rec.(context := Merged(nodes, Chain(nodes, i), rec.context));
      DeliveriesCarryOriginMerge(nodes, p, m);
      assert Chain(nodes, p) == Chain(nodes, i)[1..];
      ReMergeIdentity(nodes, Chain(nodes, i), rec.context, 1);
      assert m.(context := Merged(nodes, Chain(nodes, p), m.context)) == m;
    }
  }

  /** Re-merging the originating node's merged context at any ancestor
      reproduces it. */
  lemma AncestorsReproduceMerge(nodes: seq<Node>, i: nat, own: Ctx, k: nat)
    requires ParentsBefore(nodes) && i < |nodes| && k < |Chain(nodes, i)|
    ensures var c := Chain(nodes, i);
      Merged(nodes, Chain(nodes, c[k]), Merged(nodes, c, own)) == Merged(nodes, c, own)
  {
    ChainSuffix(nodes, i, k);
    ReMergeIdentity(nodes, Chain(nodes, i), own, k);
  }

  // ---------------------------------------------------------------------
  // Children lists

  /** `removeChild`'s effect on the children slice: drop the first occurrence. */
  function RemoveFirst(s: seq<nat>, x: nat): seq<nat> {
    if s == [] then []
    else if s[0] == x then s[1..]
    else [s[0]] + RemoveFirst(s[1..], x)
  }

  /** Without `x` the list is unchanged, and with it the list is one shorter. */
  lemma {:induction false} RemoveFirstLength(s: seq<nat>, x: nat)
    ensures x !in s ==> RemoveFirst(s, x) == s
    ensures x in s ==> |RemoveFirst(s, x)| == |s| - 1
  {
    if s != [] {
      RemoveFirstLength(s[1..], x);
      assert s == [s[0]] + s[1..];
      if x in s && s[0] != x {
        assert x in s[1..];
      }
    }
  }

  /** When `k` is the first index holding `x`, exactly element `k` goes. */
  lemma {:induction false} RemoveFirstAt(s: seq<nat>, x: nat, k: nat)
    requires k < |s| && s[k] == x && forall m :: 0 <= m < k ==> s[m] != x
    ensures RemoveFirst(s, x) == s[..k] + s[k + 1..]
  {
    if k > 0 {
      assert s[1..][k - 1] == x;
      assert forall m :: 0 <= m < k - 1 ==> s[1..][m] != x by {
        forall m | 0 <= m < k - 1 ensures s[1..][m] != x { assert s[1..][m] == s[m + 1]; }
      }
      RemoveFirstAt(s[1..], x, k - 1);
      assert s[1..][..k - 1] + s[1..][k..] == s[1..k] + s[k + 1..];
      assert s[..k] == [s[0]] + s[1..k];
    }
  }

  /** Without `x` the list is unchanged; otherwise exactly its first occurrence
      goes, the others keep their order and the list is one shorter. */
  lemma RemoveFirstSpec(s: seq<nat>, x: nat)
    ensures x !in s ==> RemoveFirst(s, x) == s
    ensures forall k :: 0 <= k < |s| && s[k] == x && (forall m :: 0 <= m < k ==> s[m] != x) ==>
              RemoveFirst(s, x) == s[..k] + s[k + 1..]
    ensures x in s ==> |RemoveFirst(s, x)| == |s| - 1
  {
    RemoveFirstLength(s, x);
    forall k | 0 <= k < |s| && s[k] == x && (forall m :: 0 <= m < k ==> s[m] != x)
      ensures RemoveFirst(s, x) == s[..k] + s[k + 1..]
    {
      RemoveFirstAt(s, x, k);
    }
  }

  /** On a list without duplicates the removal drops `x` and keeps everything else. */
  lemma {:induction false} RemoveFirstMembers(s: seq<nat>, x: nat)
    requires Distinct(s)
    ensures Distinct(RemoveFirst(s, x))
    ensures forall y :: y in RemoveFirst(s, x) <==> y in s && y != x
  {
    if s != [] {
      assert Distinct(s[1..]) by {
        forall i, j | 0 <= i < j < |s[1..]| ensures s[1..][i] != s[1..][j] {
          assert s[1..][i] == s[i + 1] && s[1..][j] == s[j + 1];
        }
      }
      RemoveFirstMembers(s[1..], x);
      assert s == [s[0]] + s[1..];
      if s[0] == x {
        assert x !in s[1..];
      } else {
        var r := [s[0]] + RemoveFirst(s[1..], x);
        assert s[0] !in s[1..];
        assert Distinct(r) by {
          forall i, j | 0 <= i < j < |r| ensures r[i] != r[j] {
            if i == 0 { assert r[j] in RemoveFirst(s[1..], x); }
          }
        }
      }
    }
  }

  /** The search loop of `removeChild`: the first index holding `x`, or -1. */
  method IndexOf(s: seq<nat>, x: nat) returns (idx: int)
    ensures -1 <= idx < |s|
    ensures idx >= 0 ==> s[idx] == x && forall m :: 0 <= m < idx ==> s[m] != x
    ensures idx == -1 <==> x !in s
  {
    idx := -1;
    var i := 0;
    while i < |s|
      invariant 0 <= i <= |s|
      invariant forall m :: 0 <= m < i ==> s[m] != x
    {
      if s[i] == x {
        idx := i;
        return;
      }
      i := i + 1;
    }
  }

  /** `copy(children[k:], children[k+1:])` followed by truncation by one. */
  method ShiftOut(s: seq<nat>, k: nat) returns (r: seq<nat>)
    requires k < |s|
    ensures r == s[..k] + s[k + 1..]
  {
    r := s;
    var j := k;
    while j < |r| - 1
      invariant k <= j <= |s| - 1 && |r| == |s|
      invariant forall m :: 0 <= m < k ==> r[m] == s[m]
      invariant forall m :: k <= m < j ==> r[m] == s[m + 1]
      invariant forall m :: j < m < |s| ==> r[m] == s[m]
    {
      r := r[j := r[j + 1]];
      j := j + 1;
    }
    r := r[..|r| - 1];
  }

  /** `for k, v := range src { dst[k] = v }`. */
  method CopyInto(dst: Ctx, src: Ctx) returns (r: Ctx)
    ensures r == dst + src
  {
    r := dst;
    var rest := src.Keys;
    while rest != {}
      invariant rest <= src.Keys
      invariant forall k :: k in r <==> k in dst || (k in src && k !in rest)
      invariant forall k :: k in r ==> r[k] == if k in src && k !in rest then src[k] else dst[k]
      decreases |rest|
    {
      var k :| k in rest;
      r := r[k := src[k]];
      rest := rest - {k};
    }
    assert r == dst + src;
  }

  // ---------------------------------------------------------------------
  // The arena

  /** The tree invariant: node 0 is the root and every other node has an
      earlier parent; a parent's children point back at it, hold no
      duplicates, and include every running child. */
  predicate WellFormed(nodes: seq<Node>) {
    && |nodes| > 0
    && nodes[0].parent == None
    && ParentsBefore(nodes)
    && (forall i :: 0 < i < |nodes| ==> nodes[i].parent.Some?)
    && (forall p, k :: 0 <= p < |nodes| && 0 <= k < |nodes[p].children| ==>
          nodes[p].children[k] < |nodes| && nodes[nodes[p].children[k]].parent == Some(p))
    && (forall p :: 0 <= p < |nodes| ==> Distinct(nodes[p].children))
    && (forall c :: 0 < c < |nodes| && nodes[c].running ==>
          c in nodes[nodes[c].parent.value].children)
  }

  /** Every chain ends at the root. */
  lemma ChainEndsAtRoot(nodes: seq<Node>, i: nat)
    requires WellFormed(nodes) && i < |nodes|
    ensures var c := Chain(nodes, i); c[|c| - 1] == 0
  {
    ChainShape(nodes, i);
  }

  /** `log`: an accepted record bumps the counter and joins the raw queue;
      any other record leaves the logger untouched. */
  function Logged(nodes: seq<Node>, i: nat, r: Record): seq<Node>
    requires i < |nodes|
  {
    if Accepts(nodes[i], r.level) then
      nodes[i := nodes[i].(toProcess := nodes[i].toProcess + 1,
                           rawRecords := nodes[i].rawRecords + [r])]
    else nodes
  }

  /** One iteration of `processRecords` at logger `i`: take the first raw
      record, put it with the merged context on the dispatch queue, and pass
      that merged record to the parent's `log` unless propagation is prevented. */
  function ProcessStep(nodes: seq<Node>, i: nat): seq<Node>
    requires ParentsBefore(nodes) && i < |nodes| && nodes[i].rawRecords != []
  {
    var r := nodes[i].rawRecords[0];
    var m := r.(context := Merged(nodes, Chain(nodes, i), r.context));
    var n1 := nodes[i := nodes[i].(rawRecords := nodes[i].rawRecords[1..],
                                   records := nodes[i].records + [m])];
    if !nodes[i].preventPropagation && nodes[i].parent.Some? then
      Logged(n1, nodes[i].parent.value, m)
    else n1
  }

  /** The tree invariant reads only parents, children and states. */
  predicate SameShape(a: seq<Node>, b: seq<Node>) {
    |a| == |b| &&
    forall j :: 0 <= j < |a| ==>
      a[j].parent == b[j].parent && a[j].children == b[j].children && a[j].running == b[j].running
  }

  lemma WellFormedShape(a: seq<Node>, b: seq<Node>)
    requires WellFormed(a) && SameShape(a, b)
    ensures WellFormed(b)
  {
    assert forall p :: 0 <= p < |b| ==> b[p].children == a[p].children;
  }

  /** Stopping a logger ends all intake: nothing logged to it afterwards
      reaches its counter or queue. */
  lemma StoppedLoggerIsSilent(nodes: seq<Node>, i: nat, r: Record)
    requires i < |nodes| && !nodes[i].running
    ensures Logged(nodes, i, r) == nodes
  {
  }

  /** One process step at `i` moves the head of its raw queue, with the
      merged context, to its dispatch queue, and the only other logger it
      touches is the parent: the merged record joins the parent's raw queue
      and bumps its counter exactly when `i` propagates and the parent
      accepts the level; every other logger is left as it was. */
  lemma ProcessStepEffect(nodes: seq<Node>, i: nat)
    requires ParentsBefore(nodes) && i < |nodes| && nodes[i].rawRecords != []
    ensures var n2 := ProcessStep(nodes, i);
      var r := nodes[i].rawRecords[0];
      var m := r.(context := Merged(nodes, Chain(nodes, i), r.context));
      && |n2| == |nodes|
      && n2[i] == nodes[i].(rawRecords := nodes[i].rawRecords[1..], records := nodes[i].records + [m])
      && (forall p :: 0 <= p < |nodes| && p != i && nodes[i].parent != Some(p) ==> n2[p] == nodes[p])
      && (forall p :: nodes[i].parent == Some(p) ==>
            n2[p] == if !nodes[i].preventPropagation && Accepts(nodes[p], r.level)
                     then nodes[p].(toProcess := nodes[p].toProcess + 1, rawRecords := nodes[p].rawRecords + [m])
                     else nodes[p])
      && (forall p :: 0 <= p < |nodes| && p != i ==>
            (n2[p].rawRecords == nodes[p].rawRecords + [m] <==>
               nodes[i].parent == Some(p) && !nodes[i].preventPropagation && Accepts(nodes[p], r.level)))
  {
    var n2 := ProcessStep(nodes, i);
    var r := nodes[i].rawRecords[0];
    var m := r.(context := Merged(nodes, Chain(nodes, i), r.context));
    forall p | 0 <= p < |nodes| && p != i
      ensures n2[p].rawRecords == nodes[p].rawRecords + [m] <==>
              nodes[i].parent == Some(p) && !nodes[i].preventPropagation && Accepts(nodes[p], r.level)
    {
      if !(nodes[i].parent == Some(p) && !nodes[i].preventPropagation && Accepts(nodes[p], r.level)) {
        assert n2[p].rawRecords == nodes[p].rawRecords;
        assert |n2[p].rawRecords| != |nodes[p].rawRecords + [m]|;
      }
    }
  }

  /** Logging a record at an idle logger and running its process step once:
      the record is dispatched with the merged context computed on the tree
      as it was, and it is forwarded to the parent exactly when the logger
      does not prevent propagation and the parent accepts the level. */
  lemma LogThenProcessForwards(nodes: seq<Node>, i: nat, r: Record)
    requires ParentsBefore(nodes) && i < |nodes| && nodes[i].rawRecords == []
    requires Accepts(nodes[i], r.level)
    ensures ParentsBefore(Logged(nodes, i, r))
    ensures var n1 := Logged(nodes, i, r);
      var n2 := ProcessStep(n1, i);
      var m := r.(context := Merged(nodes, Chain(nodes, i), r.context));
      && n2[i].records == nodes[i].records + [m]
      && n2[i].rawRecords == []
      && (forall p :: 0 <= p < |nodes| && p != i ==>
            (n2[p].rawRecords == nodes[p].rawRecords + [m] <==>
               nodes[i].parent == Some(p) && !nodes[i].preventPropagation && Accepts(nodes[p], r.level)))
  {
    var n1 := Logged(nodes, i, r);
    assert nodes[i].rawRecords + [r] == [r];
    assert SameShape(nodes, n1);
    ChainSame(nodes, n1, i);
    ChainContextSame(nodes, n1, Chain(nodes, i));
    ProcessStepEffect(n1, i);
    assert forall p :: 0 <= p < |nodes| && p != i ==> n1[p] == nodes[p];
  }

  lemma {:induction false} ChainSame(a: seq<Node>, b: seq<Node>, i: nat)
    requires ParentsBefore(a) && SameShape(a, b) && i < |a|
    ensures ParentsBefore(b) && Chain(a, i) == Chain(b, i)
    decreases i
  {
    if a[i].parent.Some? {
      ChainSame(a, b, a[i].parent.value);
    }
  }

  lemma {:induction false} ChainContextSame(a: seq<Node>, b: seq<Node>, chain: seq<nat>)
    requires |a| == |b| && InArena(a, chain)
    requires forall j :: 0 <= j < |a| ==> a[j].context == b[j].context
    ensures ChainContext(a, chain) == ChainContext(b, chain)
    decreases |chain|
  {
    if chain != [] {
      ChainContextSame(a, b, chain[1..]);
    }
  }

  // ---------------------------------------------------------------------
  // The cascade of process steps

  /** No record is in flight: every raw queue is empty. */
  predicate Idle(nodes: seq<Node>) {
    forall j :: 0 <= j < |nodes| ==> nodes[j].rawRecords == []
  }

  /** Two arenas that differ at most in counters and queues. */
  predicate SameSettings(a: seq<Node>, b: seq<Node>) {
    && SameShape(a, b)
    && forall j :: 0 <= j < |a| ==>
         && a[j].context == b[j].context && a[j].level == b[j].level
         && a[j].preventPropagation == b[j].preventPropagation
  }

  /** A process step changes only counters and queues. */
  lemma ProcessStepSettings(nodes: seq<Node>, i: nat)
    requires ParentsBefore(nodes) && i < |nodes| && nodes[i].rawRecords != []
    ensures SameSettings(nodes, ProcessStep(nodes, i)) && ParentsBefore(ProcessStep(nodes, i))
  {
  }

  /** The process steps a record logged at `i` sets off: `i` processes the
      head of its raw queue and, when that step forwards the record, the
      parent processes it in turn, and so on up the chain. */
  function Cascade(nodes: seq<Node>, i: nat): seq<Node>
    requires ParentsBefore(nodes) && i < |nodes|
    decreases i
  {
    if nodes[i].rawRecords == [] then nodes
    else if !nodes[i].preventPropagation && nodes[i].parent.Some? then
      ProcessStepSettings(nodes, i);
      Cascade(ProcessStep(nodes, i), nodes[i].parent.value)
    else ProcessStep(nodes, i)
  }

  /** The records a list of deliveries puts on the dispatch queue of `j`, in order. */
  function RecordsAt(ds: seq<Delivery>, j: nat): seq<Record>
    decreases |ds|
  {
    if ds == [] then []
    else (if ds[0].node == j then [ds[0].record] else []) + RecordsAt(ds[1..], j)
  }

  /** Deliveries read only the settings of the arena, not its queues. */
  lemma {:induction false} DeliveriesSame(a: seq<Node>, b: seq<Node>, i: nat, rec: Record)
    requires ParentsBefore(a) && SameSettings(a, b) && i < |a|
    ensures ParentsBefore(b) && Deliveries(a, i, rec) == Deliveries(b, i, rec)
    decreases i
  {
    ChainSame(a, b, i);
    ChainContextSame(a, b, Chain(a, i));
    if Accepts(a[i], rec.level) && !a[i].preventPropagation && a[i].parent.Some? {
      var m := rec.(context := Merged(a, Chain(a, i), rec.context));
      DeliveriesSame(a, b, a[i].parent.value, m);
    }
  }

  /** A record logged at `i` reaches no logger after `i` in the arena. */
  lemma {:induction false} DeliveriesBelow(nodes: seq<Node>, i: nat, rec: Record, j: nat)
    requires ParentsBefore(nodes) && i < |nodes| && i < j
    ensures RecordsAt(Deliveries(nodes, i, rec), j) == []
    decreases i
  {
    var ds := Deliveries(nodes, i, rec);
    if Accepts(nodes[i], rec.level) {
      var m := rec.(context := Merged(nodes, Chain(nodes, i), rec.context));
      if !nodes[i].preventPropagation && nodes[i].parent.Some? {
        DeliveriesBelow(nodes, nodes[i].parent.value, m, j);
        assert ds[1..] == Deliveries(nodes, nodes[i].parent.value, m);
      } else {
        assert ds[1..] == [];
      }
    }
  }

  /** The first step of a cascade: a record accepted at an idle logger `i`
      is its only raw record, and processing it dispatches it with the
      merged context and leaves `i` idle, with only counters and queues changed. */
  lemma LoggedStep(nodes: seq<Node>, i: nat, rec: Record)
    requires ParentsBefore(nodes) && i < |nodes| && Idle(nodes) && Accepts(nodes[i], rec.level)
    ensures ParentsBefore(Logged(nodes, i, rec))
    ensures var n1 := Logged(nodes, i, rec);
      var m := rec.(context := Merged(nodes, Chain(nodes, i), rec.context));
      var base := n1[i := n1[i].(rawRecords := n1[i].rawRecords[1..], records := n1[i].records + [m])];
      && n1[i].rawRecords != []
      && ProcessStep(n1, i) == (if !nodes[i].preventPropagation && nodes[i].parent.Some?
                                then Logged(base, nodes[i].parent.value, m) else base)
      && ParentsBefore(base) && SameSettings(nodes, base) && Idle(base)
      && base[i].records == nodes[i].records + [m]
      && forall j :: 0 <= j < |nodes| && j != i ==> base[j].records == nodes[j].records
  {
    var n1 := Logged(nodes, i, rec);
    assert SameSettings(nodes, n1);
    ChainSame(nodes, n1, i);
    ChainContextSame(nodes, n1, Chain(nodes, i));
    assert n1[i].rawRecords == [rec];
    assert n1[i].rawRecords[1..] == [];
  }

  /** Logging a record at a logger of an idle tree and running the process
      steps it sets off leaves the tree idle again and appends to each
      logger's dispatch queue exactly the records `Deliveries` gives it. */
  lemma {:induction false} CascadeDelivers(nodes: seq<Node>, i: nat, rec: Record)
    requires ParentsBefore(nodes) && i < |nodes| && Idle(nodes)
    ensures ParentsBefore(Logged(nodes, i, rec))
    ensures var n := Cascade(Logged(nodes, i, rec), i);
      && |n| == |nodes| && Idle(n)
      && forall j :: 0 <= j < |nodes| ==>
           n[j].records == nodes[j].records + RecordsAt(Deliveries(nodes, i, rec), j)
    decreases i
  {
    var ds := Deliveries(nodes, i, rec);
    if !Accepts(nodes[i], rec.level) {
      assert Logged(nodes, i, rec) == nodes;
      assert ds == [];
    } else {
      LoggedStep(nodes, i, rec);
      var n1 := Logged(nodes, i, rec);
      var m := rec.(context := Merged(nodes, Chain(nodes, i), rec.context));
      var base := n1[i := n1[i].(rawRecords := n1[i].rawRecords[1..], records := n1[i].records + [m])];
      if !nodes[i].preventPropagation && nodes[i].parent.Some? {
        var p := nodes[i].parent.value;
        CascadeDelivers(base, p, m);
        DeliveriesSame(nodes, base, p, m);
        DeliveriesBelow(nodes, p, m, i);
        assert ds[1..] == Deliveries(nodes, p, m);
      } else {
        assert ds[1..] == [];
      }
    }
  }

  /** The arena after `SubLogger` creates `n` as a new last child of `p`. */
  function AddedLeaf(nodes: seq<Node>, p: nat, n: Node): seq<Node>
    requires p < |nodes|
  {
    nodes[p := nodes[p].(children := nodes[p].children + [|nodes|])] + [n]
  }

  /** Creating a leaf whose parent is an existing node keeps the tree well formed. */
  lemma AddedLeafWellFormed(nodes: seq<Node>, p: nat, n: Node)
    requires WellFormed(nodes) && p < |nodes|
    requires n.parent == Some(p) && n.children == []
    ensures WellFormed(AddedLeaf(nodes, p, n))
  {
    var t := AddedLeaf(nodes, p, n);
    AddedLeafLinks(nodes, p, n);
    AddedLeafRunning(nodes, p, n);
    assert Distinct(t[p].children) by {
      assert |nodes| !in nodes[p].children;
    }
    assert forall q :: 0 <= q < |t| ==> Distinct(t[q].children) by {
      forall q | 0 <= q < |t| ensures Distinct(t[q].children) {
        if q != p && q < |nodes| { assert t[q] == nodes[q]; }
      }
    }
  }

  /** After adding the leaf, every child entry points back at its parent. */
  lemma AddedLeafLinks(nodes: seq<Node>, p: nat, n: Node)
    requires WellFormed(nodes) && p < |nodes|
    requires n.parent == Some(p) && n.children == []
    ensures var t := AddedLeaf(nodes, p, n);
      forall q, k :: 0 <= q < |t| && 0 <= k < |t[q].children| ==>
        t[q].children[k] < |t| && t[t[q].children[k]].parent == Some(q)
  {
    var c := |nodes|;
    var t := AddedLeaf(nodes, p, n);
    assert forall q :: 0 <= q < c && q != p ==> t[q] == nodes[q];
    assert t[c] == n && t[p].children == nodes[p].children + [c];
    forall q, k | 0 <= q < |t| && 0 <= k < |t[q].children|
      ensures t[q].children[k] < |t| && t[t[q].children[k]].parent == Some(q)
    {
      if q == p && k == |nodes[p].children| {
      } else {
        assert q < c && t[q].children[k] == nodes[q].children[k];
      }
    }
  }

  /** After adding the leaf, every running logger is still among its parent's children. */
  lemma AddedLeafRunning(nodes: seq<Node>, p: nat, n: Node)
    requires WellFormed(nodes) && p < |nodes|
    requires n.parent == Some(p) && n.children == []
    ensures var t := AddedLeaf(nodes, p, n);
      forall q :: 0 < q < |t| && t[q].running ==> t[q].parent.Some? && q in t[t[q].parent.value].children
  {
    var c := |nodes|;
    var t := AddedLeaf(nodes, p, n);
    assert forall q :: 0 <= q < c && q != p ==> t[q] == nodes[q];
    assert t[c] == n && t[p].children == nodes[p].children + [c];
    forall q | 0 < q < |t| && t[q].running
      ensures t[q].parent.Some? && q in t[t[q].parent.value].children
    {
      if q < c {
        var pq := nodes[q].parent.value;
        assert q in nodes[pq].children;
        if pq == p {
          assert nodes[p].children <= t[p].children;
        }
      }
    }
  }

  /** The arena after `Stop` at `i`: stopped and removed from its parent. */
  function Stopped(nodes: seq<Node>, i: nat): seq<Node>
    requires ParentsBefore(nodes) && i < |nodes|
  {
    var n1 := nodes[i := nodes[i].(running := false)];
    match nodes[i].parent
    case None => n1
    case Some(p) => n1[p := n1[p].(children := RemoveFirst(n1[p].children, i))]
  }

  /** Stopping a logger keeps the tree well formed and detaches the logger. */
  lemma StoppedWellFormed(nodes: seq<Node>, i: nat)
    requires WellFormed(nodes) && i < |nodes|
    ensures WellFormed(Stopped(nodes, i))
    ensures |Stopped(nodes, i)| == |nodes| && !Stopped(nodes, i)[i].running
    ensures nodes[i].parent.Some? ==> i !in Stopped(nodes, i)[nodes[i].parent.value].children
  {
    if nodes[i].parent.Some? {
      StoppedChildWellFormed(nodes, i, nodes[i].parent.value);
    } else {
      var t := Stopped(nodes, i);
      assert SameShape(nodes, t[i := nodes[i]]);
    }
  }

  /** Stopping a logger with parent `p`: only the running flag of `i` and the
      children of `p` change, and `i` leaves those children. */
  lemma StoppedChildWellFormed(nodes: seq<Node>, i: nat, p: nat)
    requires WellFormed(nodes) && i < |nodes| && nodes[i].parent == Some(p)
    ensures WellFormed(Stopped(nodes, i))
    ensures i !in Stopped(nodes, i)[p].children
  {
    var t := Stopped(nodes, i);
    StoppedLayout(nodes, i, p);
    RemoveFirstMembers(nodes[p].children, i);
    assert forall q :: 0 <= q < |nodes| ==> Distinct(t[q].children) by {
      forall q | 0 <= q < |nodes| ensures Distinct(t[q].children) {
        if q != p { assert t[q].children == nodes[q].children; }
      }
    }
    StoppedLinks(nodes, i, p);
    StoppedRunning(nodes, i, p);
  }

  /** What `Stop` changes: the running flag of `i` and the children of `p`. */
  lemma StoppedLayout(nodes: seq<Node>, i: nat, p: nat)
    requires WellFormed(nodes) && i < |nodes| && nodes[i].parent == Some(p)
    ensures var t := Stopped(nodes, i);
      && p < i && |t| == |nodes|
      && t[p] == nodes[p].(children := RemoveFirst(nodes[p].children, i))
      && t[i] == nodes[i].(running := false)
      && (forall q :: 0 <= q < |nodes| && q != p && q != i ==> t[q] == nodes[q])
      && (forall q :: 0 <= q < |nodes| ==> t[q].parent == nodes[q].parent)
  {
  }

  /** After `Stop`, every child entry still points back at its parent. */
  lemma StoppedLinks(nodes: seq<Node>, i: nat, p: nat)
    requires WellFormed(nodes) && i < |nodes| && nodes[i].parent == Some(p)
    ensures var t := Stopped(nodes, i);
      forall q, k :: 0 <= q < |t| && 0 <= k < |t[q].children| ==>
        t[q].children[k] < |t| && t[t[q].children[k]].parent == Some(q)
  {
    var t := Stopped(nodes, i);
    StoppedLayout(nodes, i, p);
    RemoveFirstMembers(nodes[p].children, i);
    forall q, k | 0 <= q < |t| && 0 <= k < |t[q].children|
      ensures t[q].children[k] < |t| && t[t[q].children[k]].parent == Some(q)
    {
      if q == p {
        assert t[q].children[k] in nodes[p].children;
      } else {
        assert t[q].children == nodes[q].children;
      }
    }
  }

  /** After `Stop`, every running logger is still among its parent's children. */
  lemma StoppedRunning(nodes: seq<Node>, i: nat, p: nat)
    requires WellFormed(nodes) && i < |nodes| && nodes[i].parent == Some(p)
    ensures var t := Stopped(nodes, i);
      forall c :: 0 < c < |t| && t[c].running ==> t[c].parent.Some? && c in t[t[c].parent.value].children
  {
    var t := Stopped(nodes, i);
    var kids := RemoveFirst(nodes[p].children, i);
    StoppedLayout(nodes, i, p);
    RemoveFirstMembers(nodes[p].children, i);
    forall c | 0 < c < |t| && t[c].running
      ensures t[c].parent.Some? && c in t[t[c].parent.value].children
    {
      assert c != i && nodes[c].running;
      var pc := nodes[c].parent.value;
      assert c in nodes[pc].children;
      if pc == p {
        assert c in kids;
      } else {
        assert t[pc].children == nodes[pc].children;
      }
    }
  }

  /** The chain of a node with a parent is the node followed by the parent's chain. */
  lemma ChainStep(nodes: seq<Node>, c: nat)
    requires ParentsBefore(nodes) && c < |nodes|
    ensures nodes[c].parent.None? ==> Chain(nodes, c) == [c]
    ensures nodes[c].parent.Some? ==> Chain(nodes, c) == [c] + Chain(nodes, nodes[c].parent.value)
  {
  }

  class LoggerTree {
    var nodes: seq<Node>

    predicate Valid()
      reads this
    {
      WellFormed(nodes)
    }

    /** The root logger: `createLogger(nil, nil, NOTSET, 2048, 2048)`. */
    constructor ()
      ensures Valid()
      ensures nodes == [NewNode(map[], NOTSET)]
    {
      nodes := [NewNode(map[], NOTSET)];
    }

    /** `IsRunning`: a logger that is not running takes no record. */
    function IsRunning(i: nat): (running: bool)
      reads this
      requires i < |nodes|
      ensures !running ==> forall r: Record :: Logged(nodes, i, r) == nodes
    {
      nodes[i].running
    }

    /** `addChild`: append `c` to the children of `p` and point `c` at `p`. */
    method AddChild(p: nat, c: nat, preventPropagation: bool)
      requires p < |nodes| && c < |nodes| && p != c
      modifies this
      ensures nodes == old(nodes)[p := old(nodes)[p].(children := old(nodes)[p].children + [c])]
                                 [c := old(nodes)[c].(parent := Some(p), preventPropagation := preventPropagation)]
    {
      nodes := nodes[p := nodes[p].(children := nodes[p].children + [c])];
      nodes := nodes[c := nodes[c].(parent := Some(p), preventPropagation := preventPropagation)];
    }

    /** `SubLogger`: create a running logger at level DEBUG and add it as the
        last child of `p`. */
    method SubLogger(p: nat, context: Ctx, preventPropagation: bool) returns (c: nat)
      requires Valid() && p < |nodes|
      modifies this
      ensures Valid()
      ensures c == |old(nodes)|
      ensures nodes == AddedLeaf(old(nodes), p,
                                 NewNode(context, DEBUG).(parent := Some(p), preventPropagation := preventPropagation))
    {
      ghost var before := nodes;
      nodes := nodes + [NewNode(context, DEBUG)];
      c := |nodes| - 1;
      AddChild(p, c, preventPropagation);
      assert nodes == AddedLeaf(before, p,
                                NewNode(context, DEBUG).(parent := Some(p), preventPropagation := preventPropagation));
      AddedLeafWellFormed(before, p,
                          NewNode(context, DEBUG).(parent := Some(p), preventPropagation := preventPropagation));
    }

    /** `removeChild`: drop the first occurrence of `c` from the children of `p`. */
    method RemoveChild(p: nat, c: nat)
      requires p < |nodes|
      modifies this
      ensures nodes == old(nodes)[p := old(nodes)[p].(children := RemoveFirst(old(nodes)[p].children, c))]
    {
      var children := nodes[p].children;
      var removeIndex := IndexOf(children, c);
      RemoveFirstSpec(children, c);
      if removeIndex > -1 {
        children := ShiftOut(children, removeIndex);
        nodes := nodes[p := nodes[p].(children := children)];
      }
    }

    /** `Stop`: mark the logger stopped (closing its intake) and detach it
        from its parent. A second Stop would close a closed channel, which
        panics, so the logger must be running. */
    method Stop(i: nat)
      requires Valid() && i < |nodes| && nodes[i].running
      modifies this
      ensures Valid() && nodes == Stopped(old(nodes), i)
      ensures |nodes| == |old(nodes)| && !IsRunning(i)
      ensures nodes[i].parent.Some? ==> i !in nodes[nodes[i].parent.value].children
    {
      StoppedWellFormed(nodes, i);
      nodes := nodes[i := nodes[i].(running := false)];
      match nodes[i].parent
      case None =>
      case Some(p) =>
        RemoveChild(p, i);
    }

    /** `log`. */
    method LogRecord(i: nat, r: Record)
      requires i < |nodes|
      modifies this
      ensures nodes == Logged(old(nodes), i, r)
      ensures old(Valid()) ==> Valid()
    {
      if !nodes[i].running || !ShouldProcessLevel(nodes[i], r.level) {
        return;
      }
      ghost var before := nodes;
      nodes := nodes[i := nodes[i].(toProcess := nodes[i].toProcess + 1,
                                    rawRecords := nodes[i].rawRecords + [r])];
      if WellFormed(before) {
        assert SameShape(before, nodes);
        WellFormedShape(before, nodes);
      }
    }

    /** `Log(level, message, pairs...)` at logger `i`; `now` is the clock reading. */
    method Log(i: nat, level: Level, message: string, pairs: seq<string>, now: nat)
      requires i < |nodes|
      modifies this
      ensures var d := PairsCtx(Padded(pairs));
        nodes == Logged(old(nodes), i, Record(now, level, message, d, None))
      ensures old(Valid()) ==> Valid()
    {
      var d := ContextFromPairs(pairs);
      LogRecord(i, Record(now, level, message, d, None));
    }

    /** `LogCtx(level, message, data)` at logger `i`. */
    method LogCtx(i: nat, level: Level, message: string, data: Ctx, now: nat)
      requires i < |nodes|
      modifies this
      ensures nodes == Logged(old(nodes), i, Record(now, level, message, data, None))
      ensures old(Valid()) ==> Valid()
    {
      LogRecord(i, Record(now, level, message, data, None));
    }

    /** The loop of `processRecords` that lists the logger and its parents. */
    method BuildChain(i: nat) returns (chain: seq<nat>)
      requires ParentsBefore(nodes) && i < |nodes|
      ensures chain == Chain(nodes, i)
    {
      chain := [];
      var current: Option<nat> := Some(i);
      while current.Some?
        invariant current.Some? ==> current.value < |nodes| &&
                                    chain + Chain(nodes, current.value) == Chain(nodes, i)
        invariant current.None? ==> chain == Chain(nodes, i)
        decreases if current.Some? then current.value + 1 else 0
      {
        var c := current.value;
        ChainStep(nodes, c);
        if nodes[c].parent.Some? {
          assert chain + Chain(nodes, c) == (chain + [c]) + Chain(nodes, nodes[c].parent.value);
        }
        chain := chain + [c];
        current := nodes[c].parent;
      }
    }

    /** The nested loops of `processRecords` that build `mergedData`: the
        chain's contexts from the root down, then the record's. */
    method MergeContexts(chain: seq<nat>, own: Ctx) returns (merged: Ctx)
      requires InArena(nodes, chain)
      ensures merged == Merged(nodes, chain, own)
    {
      merged := map[];
      var i := |chain|;
      while i > 0
        invariant 0 <= i <= |chain|
        invariant merged == ChainContext(nodes, chain[i..])
      {
        i := i - 1;
        assert chain[i..][1..] == chain[i + 1..];
        merged := CopyInto(merged, nodes[chain[i]].context);
      }
      merged := CopyInto(merged, own);
    }

    /** One iteration of `processRecords` at logger `i`. */
    method ProcessRecord(i: nat)
      requires Valid() && i < |nodes| && nodes[i].rawRecords != []
      modifies this
      ensures Valid()
      ensures nodes == ProcessStep(old(nodes), i)
    {
      var record := nodes[i].rawRecords[0];
      var loggerChain := BuildChain(i);
      var mergedData := MergeContexts(loggerChain, record.context);
      record := record.(context := mergedData);
      ghost var before := nodes;
      nodes := nodes[i := nodes[i].(rawRecords := nodes[i].rawRecords[1..],
                                    records := nodes[i].records + [record])];
      assert SameShape(before, nodes);
      WellFormedShape(before, nodes);
      if !nodes[i].preventPropagation && nodes[i].parent.Some? {
        LogRecord(nodes[i].parent.value, record);
      }
    }
  }
}
