/** The size budget that every RPC value must meet before it is sent or accepted. */
module RpcBudget {
  import opened Bytes

  // --- Values as they lie in memory ----------------------------------------

  /**
   * A value is a string (by its UTF-8 length), a blob or buffer (both counted
   * the same way, by size), another primitive, or a reference to an object.
   */
  datatype Value = Text(bytes: nat) | Binary(size: nat) | Primitive | Ref(ref: nat)

  datatype Node = ArrayNode(items: seq<Value>) | ObjectNode(values: seq<Value>)

  type Heap = map<nat, Node>

  function Children(n: Node): seq<Value> {
    match n
    case ArrayNode(items) => items
    case ObjectNode(values) => values
  }

  predicate Lives(h: Heap, v: Value) { v.Ref? ==> v.ref in h }

  predicate AllLive(h: Heap, vs: seq<Value>) {
    forall i :: 0 <= i < |vs| ==> Lives(h, vs[i])
  }

  /** No dangling references: what any JavaScript heap guarantees. Cycles and sharing are allowed. */
  predicate Closed(h: Heap) {
    forall r :: r in h ==> AllLive(h, Children(h[r]))
  }

  datatype Budget = Budget(
    maxDepth: nat, maxNodes: nat, maxArrayItems: nat, maxStringBytes: nat,
    maxBlobs: nat, maxBlobBytes: nat, maxTotalBlobBytes: nat)

  datatype Tally = Tally(nodes: nat, strings: nat, blobs: nat, blobBytes: nat) {
    function Plus(o: Tally): Tally {
      Tally(nodes + o.nodes, strings + o.strings, blobs + o.blobs, blobBytes + o.blobBytes)
    }
    predicate Within(b: Budget) {
      nodes <= b.maxNodes && strings <= b.maxStringBytes && blobs <= b.maxBlobs && blobBytes <= b.maxTotalBlobBytes
    }
  }

  const ZERO := Tally(0, 0, 0, 0)

  // --- The traversal -------------------------------------------------------

  /** Visits still allowed. */
  function Left(b: Budget, t: Tally): nat {
    if t.nodes > b.maxNodes then 0 else b.maxNodes + 1 - t.nodes
  }

  /** Visits one value with the counters at `t`; None where the source throws. */
  function Visit(h: Heap, b: Budget, v: Value, depth: nat, seen: set<nat>, t: Tally): (r: Option<Tally>)
    requires Closed(h) && Lives(h, v)
    ensures r.Some? ==> r.value.nodes > t.nodes
    decreases Left(b, t), 0
  {
    var t1 := t.(nodes := t.nodes + 1);
    if t1.nodes > b.maxNodes || depth > b.maxDepth then None
    else
      match v
      case Text(n) =>
        if t1.strings + n > b.maxStringBytes then None else Some(t1.(strings := t1.strings + n))
      case Binary(n) =>
        var t2 := t1.(blobs := t1.blobs + 1, blobBytes := t1.blobBytes + n);
        if t2.blobs > b.maxBlobs || n > b.maxBlobBytes || t2.blobBytes > b.maxTotalBlobBytes then None else Some(t2)
      case Primitive => Some(t1)
      case Ref(r) =>
        if r in seen then None
        else if h[r].ArrayNode? && |h[r].items| > b.maxArrayItems then None
        else VisitAll(h, b, Children(h[r]), depth + 1, seen + {r}, t1)
  }

  function VisitAll(h: Heap, b: Budget, vs: seq<Value>, depth: nat, seen: set<nat>, t: Tally): (r: Option<Tally>)
    requires Closed(h) && AllLive(h, vs)
    ensures r.Some? ==> r.value.nodes >= t.nodes
    decreases Left(b, t), 1 + |vs|
  {
    if vs == [] then Some(t)
    else
      match Visit(h, b, vs[0], depth, seen, t)
      case None => None
      case Some(t1) => VisitAll(h, b, vs[1..], depth, seen, t1)
  }

  predicate Accepts(h: Heap, b: Budget, v: Value)
    requires Closed(h) && Lives(h, v)
  {
    Visit(h, b, v, 0, {}, ZERO).Some?
  }

  // --- What it should mean -------------------------------------------------

  /** The finite trees that values denote. */
  datatype Tree =
    | TextLeaf(bytes: nat)
    | BinaryLeaf(size: nat)
    | PrimitiveLeaf
    | ArrayTree(kids: seq<Tree>)
    | ObjectTree(kids: seq<Tree>)

  ghost predicate Unfolds(h: Heap, v: Value, t: Tree)
    decreases t
  {
    match t
    case TextLeaf(n) => v == Text(n)
    case BinaryLeaf(n) => v == Binary(n)
    case PrimitiveLeaf => v == Primitive
    case ArrayTree(ts) =>
      && v.Ref? && v.ref in h && h[v.ref].ArrayNode? && |h[v.ref].items| == |ts|
      && forall i :: 0 <= i < |ts| ==> Unfolds(h, h[v.ref].items[i], ts[i])
    case ObjectTree(ts) =>
      && v.Ref? && v.ref in h && h[v.ref].ObjectNode? && |h[v.ref].values| == |ts|
      && forall i :: 0 <= i < |ts| ==> Unfolds(h, h[v.ref].values[i], ts[i])
  }

  ghost predicate UnfoldsAll(h: Heap, vs: seq<Value>, ts: seq<Tree>) {
    |vs| == |ts| && forall i :: 0 <= i < |ts| ==> Unfolds(h, vs[i], ts[i])
  }

  function Cost(t: Tree): (c: Tally)
    ensures c.nodes > 0
    decreases t, 0
  {
    match t
    case TextLeaf(n) => Tally(1, n, 0, 0)
    case BinaryLeaf(n) => Tally(1, 0, 1, n)
    case PrimitiveLeaf => Tally(1, 0, 0, 0)
    case ArrayTree(ts) => Tally(1, 0, 0, 0).Plus(CostAll(ts))
    case ObjectTree(ts) => Tally(1, 0, 0, 0).Plus(CostAll(ts))
  }

  function CostAll(ts: seq<Tree>): Tally
    decreases ts, 1
  {
    if ts == [] then ZERO else Cost(ts[0]).Plus(CostAll(ts[1..]))
  }

  /** The limits that concern single nodes: depth, array length and blob size. */
  predicate Shaped(b: Budget, t: Tree, depth: nat)
    decreases t
  {
    && depth <= b.maxDepth
    && match t
       case BinaryLeaf(n) => n <= b.maxBlobBytes
       case ArrayTree(ts) => |ts| <= b.maxArrayItems && forall i :: 0 <= i < |ts| ==> Shaped(b, ts[i], depth + 1)
       case ObjectTree(ts) => forall i :: 0 <= i < |ts| ==> Shaped(b, ts[i], depth + 1)
       case _ => true
  }

  predicate ShapedAll(b: Budget, ts: seq<Tree>, depth: nat) {
    forall i :: 0 <= i < |ts| ==> Shaped(b, ts[i], depth)
  }

  predicate MeetsBudget(b: Budget, t: Tree) {
    Cost(t).Within(b) && Shaped(b, t, 0)
  }

  // --- Soundness: what is accepted is a finite tree within the limits ------

  lemma {:induction false} VisitSound(h: Heap, b: Budget, v: Value, depth: nat, seen: set<nat>, t: Tally)
      returns (tree: Tree)
    requires Closed(h) && Lives(h, v) && t.Within(b)
    requires Visit(h, b, v, depth, seen, t).Some?
    ensures Unfolds(h, v, tree) && Shaped(b, tree, depth)
    ensures Visit(h, b, v, depth, seen, t).value == t.Plus(Cost(tree))
    ensures t.Plus(Cost(tree)).Within(b)
    decreases Left(b, t), 0
  {
    match v
    case Text(n) => tree := TextLeaf(n);
    case Binary(n) => tree := BinaryLeaf(n);
    case Primitive => tree := PrimitiveLeaf;
    case Ref(r) =>
      var ts := VisitAllSound(h, b, Children(h[r]), depth + 1, seen + {r}, t.(nodes := t.nodes + 1));
      tree := if h[r].ArrayNode? then ArrayTree(ts) else ObjectTree(ts);
  }

  lemma {:induction false} VisitAllSound(h: Heap, b: Budget, vs: seq<Value>, depth: nat, seen: set<nat>, t: Tally)
      returns (ts: seq<Tree>)
    requires Closed(h) && AllLive(h, vs) && t.Within(b)
    requires VisitAll(h, b, vs, depth, seen, t).Some?
    ensures UnfoldsAll(h, vs, ts) && ShapedAll(b, ts, depth)
    ensures VisitAll(h, b, vs, depth, seen, t).value == t.Plus(CostAll(ts))
    ensures t.Plus(CostAll(ts)).Within(b)
    decreases Left(b, t), 1 + |vs|
  {
    if vs == [] {
      ts := [];
    } else {
      var one := VisitSound(h, b, vs[0], depth, seen, t);
      var more := VisitAllSound(h, b, vs[1..], depth, seen, t.Plus(Cost(one)));
      ts := [one] + more;
      assert ts[1..] == more;
    }
  }

  // --- Completeness: every such tree is accepted ---------------------------

  lemma {:induction false} UnfoldsUnique(h: Heap, v: Value, s: Tree, t: Tree)
    requires Unfolds(h, v, s) && Unfolds(h, v, t)
    ensures s == t
    decreases s
  {
    if s.ArrayTree? || s.ObjectTree? {
      forall i | 0 <= i < |s.kids| ensures s.kids[i] == t.kids[i] {
        UnfoldsUnique(h, Children(h[v.ref])[i], s.kids[i], t.kids[i]);
      }
      assert s.kids == t.kids;
    }
  }

  /** Every reference on the path from the root unfolds to a tree of more than n nodes. */
  ghost predicate Above(h: Heap, seen: set<nat>, n: nat) {
    forall r :: r in seen ==> Bigger(h, r, n)
  }

  ghost predicate Bigger(h: Heap, r: nat, n: nat) {
    exists t :: Unfolds(h, Ref(r), t) && Cost(t).nodes > n
  }

  /** A value that unfolds to a tree of n nodes is none of the references above it: no cycle is reported. */
  lemma NotSeen(h: Heap, seen: set<nat>, r: nat, t: Tree)
    requires Above(h, seen, Cost(t).nodes) && Unfolds(h, Ref(r), t)
    ensures r !in seen
  {
    if r in seen {
      assert Bigger(h, r, Cost(t).nodes);
      var s :| Unfolds(h, Ref(r), s) && Cost(s).nodes > Cost(t).nodes;
      UnfoldsUnique(h, Ref(r), s, t);
      assert false;
    }
  }

  lemma AboveChildren(h: Heap, seen: set<nat>, r: nat, t: Tree, n: nat)
    requires Above(h, seen, Cost(t).nodes) && Unfolds(h, Ref(r), t) && n < Cost(t).nodes
    ensures Above(h, seen + {r}, n)
  {
    forall q | q in seen + {r} ensures Bigger(h, q, n) {
      if q in seen {
        assert Bigger(h, q, Cost(t).nodes);
      }
    }
  }

  lemma {:induction false} VisitComplete(h: Heap, b: Budget, v: Value, depth: nat, seen: set<nat>, t: Tally, tree: Tree)
    requires Closed(h) && Lives(h, v) && Unfolds(h, v, tree) && Shaped(b, tree, depth)
    requires t.Plus(Cost(tree)).Within(b) && Above(h, seen, Cost(tree).nodes)
    ensures Visit(h, b, v, depth, seen, t) == Some(t.Plus(Cost(tree)))
    decreases tree, 0
  {
    if v.Ref? {
      var ts := tree.kids;
      NotSeen(h, seen, v.ref, tree);
      AboveChildren(h, seen, v.ref, tree, CostAll(ts).nodes);
      PlusOne(t, CostAll(ts));
      VisitAllComplete(h, b, Children(h[v.ref]), depth + 1, seen + {v.ref}, t.(nodes := t.nodes + 1), ts);
      RefVisited(h, b, v, depth, seen, t, t.(nodes := t.nodes + 1).Plus(CostAll(ts)));
    } else {
      LeafVisited(h, b, v, depth, seen, t, tree);
    }
  }

  lemma PlusOne(t: Tally, c: Tally)
    ensures t.(nodes := t.nodes + 1).Plus(c) == t.Plus(Tally(1, 0, 0, 0).Plus(c))
  {
  }

  /** An object not seen above it costs one visit and those of its children. */
  lemma RefVisited(h: Heap, b: Budget, v: Value, depth: nat, seen: set<nat>, t: Tally, r: Tally)
    requires Closed(h) && Lives(h, v) && v.Ref? && v.ref !in seen && depth <= b.maxDepth && t.nodes < b.maxNodes
    requires h[v.ref].ArrayNode? ==> |h[v.ref].items| <= b.maxArrayItems
    requires VisitAll(h, b, Children(h[v.ref]), depth + 1, seen + {v.ref}, t.(nodes := t.nodes + 1)) == Some(r)
    ensures Visit(h, b, v, depth, seen, t) == Some(r)
  {
  }

  lemma LeafVisited(h: Heap, b: Budget, v: Value, depth: nat, seen: set<nat>, t: Tally, tree: Tree)
    requires Closed(h) && Lives(h, v) && !v.Ref? && Unfolds(h, v, tree) && Shaped(b, tree, depth)
    requires t.Plus(Cost(tree)).Within(b)
    ensures Visit(h, b, v, depth, seen, t) == Some(t.Plus(Cost(tree)))
  {
  }

  lemma {:induction false} VisitAllComplete(h: Heap, b: Budget, vs: seq<Value>, depth: nat, seen: set<nat>, t: Tally,
      ts: seq<Tree>)
    requires Closed(h) && AllLive(h, vs) && UnfoldsAll(h, vs, ts) && ShapedAll(b, ts, depth)
    requires t.Plus(CostAll(ts)).Within(b) && Above(h, seen, CostAll(ts).nodes)
    ensures VisitAll(h, b, vs, depth, seen, t) == Some(t.Plus(CostAll(ts)))
    decreases ts, 1
  {
    if vs != [] {
      AboveSmaller(h, seen, CostAll(ts).nodes, Cost(ts[0]).nodes);
      AboveSmaller(h, seen, CostAll(ts).nodes, CostAll(ts[1..]).nodes);
      VisitComplete(h, b, vs[0], depth, seen, t, ts[0]);
      VisitAllComplete(h, b, vs[1..], depth, seen, t.Plus(Cost(ts[0])), ts[1..]);
    }
  }

  lemma AboveSmaller(h: Heap, seen: set<nat>, n: nat, m: nat)
    requires Above(h, seen, n) && m <= n
    ensures Above(h, seen, m)
  {
    forall r | r in seen ensures Bigger(h, r, m) {
      assert Bigger(h, r, n);
    }
  }

  /**
   * Early exit, counters and cycle check together decide one thing: whether the
   * value, however shared or cyclic its objects, unfolds to a finite tree that
   * meets every limit.
   */
  lemma AcceptsIffMeetsBudget(h: Heap, b: Budget, v: Value)
    requires Closed(h) && Lives(h, v)
    ensures Accepts(h, b, v) <==> exists t :: Unfolds(h, v, t) && MeetsBudget(b, t)
  {
    if Accepts(h, b, v) {
      var t := AcceptedTree(h, b, v);
    }
    if t :| Unfolds(h, v, t) && MeetsBudget(b, t) {
      TreeAccepted(h, b, v, t);
    }
  }

  lemma AcceptedTree(h: Heap, b: Budget, v: Value) returns (t: Tree)
    requires Closed(h) && Lives(h, v) && Accepts(h, b, v)
    ensures Unfolds(h, v, t) && MeetsBudget(b, t)
  {
    t := VisitSound(h, b, v, 0, {}, ZERO);
    ZeroPlus(Cost(t));
  }

  lemma TreeAccepted(h: Heap, b: Budget, v: Value, t: Tree)
    requires Closed(h) && Lives(h, v) && Unfolds(h, v, t) && MeetsBudget(b, t)
    ensures Accepts(h, b, v)
  {
    ZeroPlus(Cost(t));
    NothingAbove(h, Cost(t).nodes);
    VisitComplete(h, b, v, 0, {}, ZERO, t);
  }

  lemma ZeroPlus(c: Tally)
    ensures ZERO.Plus(c) == c
  {
  }

  lemma NothingAbove(h: Heap, n: nat)
    ensures Above(h, {}, n)
  {
  }

  // --- The traversal as it runs --------------------------------------------

  class Checker {
    const heap: Heap
    const budget: Budget
    var nodes: nat
    var strings: nat
    var blobs: nat
    var totalBlobBytes: nat
    var seen: set<nat>

    constructor (heap: Heap, budget: Budget)
      ensures this.heap == heap && this.budget == budget && Count() == ZERO && seen == {}
    {
      this.heap := heap;
      this.budget := budget;
      nodes, strings, blobs, totalBlobBytes, seen := 0, 0, 0, 0, {};
    }

    ghost function Count(): Tally
      reads this
    {
      Tally(nodes, strings, blobs, totalBlobBytes)
    }

    /** `ok` is false where the source throws; the visits made never exceed maxNodes + 1. */
    method VisitValue(current: Value, depth: nat) returns (ok: bool)
      requires Closed(heap) && Lives(heap, current) && nodes <= budget.maxNodes
      modifies this
      ensures nodes <= budget.maxNodes + 1
      ensures ok <==> Visit(heap, budget, current, depth, old(seen), old(Count())).Some?
      ensures ok ==> Visit(heap, budget, current, depth, old(seen), old(Count())) == Some(Count()) && seen == old(seen)
      ensures ok ==> nodes <= budget.maxNodes
      decreases budget.maxNodes + 1 - nodes, 0
    {
      nodes := nodes + 1;
      if nodes > budget.maxNodes { return false; }
      if depth > budget.maxDepth { return false; }
      match current
      case Text(n) =>
        strings := strings + n;
        return strings <= budget.maxStringBytes;
      case Binary(n) =>
        blobs := blobs + 1;
        totalBlobBytes := totalBlobBytes + n;
        return !(blobs > budget.maxBlobs || n > budget.maxBlobBytes || totalBlobBytes > budget.maxTotalBlobBytes);
      case Primitive =>
        return true;
      case Ref(r) =>
        if r in seen { return false; }
        seen := seen + {r};
        var node := heap[r];
        if node.ArrayNode? && |node.items| > budget.maxArrayItems { return false; }
        ok := VisitValues(Children(node), depth + 1);
        seen := seen - {r};
    }

    method VisitValues(values: seq<Value>, depth: nat) returns (ok: bool)
      requires Closed(heap) && AllLive(heap, values) && nodes <= budget.maxNodes
      modifies this
      ensures nodes <= budget.maxNodes + 1
      ensures ok <==> VisitAll(heap, budget, values, depth, old(seen), old(Count())).Some?
      ensures ok ==>
        VisitAll(heap, budget, values, depth, old(seen), old(Count())) == Some(Count()) && seen == old(seen)
      ensures ok ==> nodes <= budget.maxNodes
      decreases budget.maxNodes + 1 - nodes, 1 + |values|
    {
      var i := 0;
      ghost var all := VisitAll(heap, budget, values, depth, seen, Count());
      assert values[0..] == values;
      while i < |values|
        invariant 0 <= i <= |values| && seen == old(seen) && old(nodes) <= nodes <= budget.maxNodes
        invariant all == VisitAll(heap, budget, values[i..], depth, seen, Count())
      {
        assert values[i..][0] == values[i] && values[i..][1..] == values[i + 1..];
        var one := VisitValue(values[i], depth);
        if !one { return false; }
        i := i + 1;
      }
      ok := true;
    }
  }

  /** True exactly when the source does not throw, which is exactly when the value meets the budget. */
  method AssertRpcValueBudget(heap: Heap, value: Value, budget: Budget) returns (ok: bool)
    requires Closed(heap) && Lives(heap, value)
    ensures ok <==> exists t :: Unfolds(heap, value, t) && MeetsBudget(budget, t)
  {
    var checker := new Checker(heap, budget);
    ok := checker.VisitValue(value, 0);
    AcceptsIffMeetsBudget(heap, budget, value);
  }
}
