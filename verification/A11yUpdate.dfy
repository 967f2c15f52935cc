/**
  Snapshots and deltas, and the receiver that applies them
  (crates/px-a11y/src/wire.rs).
 */
module A11yUpdate {
  import opened Common
  import opened A11yText
  import opened A11yTree
  import opened A11yWalk
  import opened A11yWire

  // ---- the receiver ----

  type Held = map<nat, WireNode>

  ghost function Upsert(held: Held, nodes: seq<WireNode>): Held {
    if nodes == [] then held
    else
      var last := nodes[|nodes| - 1];
      Upsert(held, nodes[..|nodes| - 1])[last.data.key := last]
  }

  ghost function Keys(removed: seq<nat>): set<nat> {
    set k | k in removed
  }

  /** One part of a delta: delete, then upsert. */
  ghost function ApplyPart(held: Held, u: Update): Held {
    Upsert(held - Keys(u.removed), u.nodes)
  }

  ghost function Apply(held: Held, us: seq<Update>): Held {
    if us == [] then held else ApplyPart(Apply(held, us[..|us| - 1]), us[|us| - 1])
  }

  /** A receiver holding exactly this tree. */
  ghost function HeldFor(d: Doc): Held
    requires forall k :: k in d.find ==> d.find[k] < |d.nodes| && d.find[k] < |d.tree.sibling|
  {
    map k | k in d.find :: d.Wire(d.find[k])
  }

  ghost function NodeMap(nodes: seq<WireNode>): Held {
    Upsert(map[], nodes)
  }

  lemma {:induction false} UpsertIsMerge(held: Held, nodes: seq<WireNode>)
    ensures Upsert(held, nodes) == held + NodeMap(nodes)
    decreases |nodes|
  {
    if nodes != [] { UpsertIsMerge(held, nodes[..|nodes| - 1]); }
  }

  lemma {:induction false} NodeMapAppend(a: seq<WireNode>, b: seq<WireNode>)
    ensures NodeMap(a + b) == NodeMap(a) + NodeMap(b)
    decreases |b|
  {
    if b == [] {
      assert a + b == a;
    } else {
      assert (a + b)[..|a + b| - 1] == a + b[..|b| - 1];
      NodeMapAppend(a, b[..|b| - 1]);
    }
  }

  lemma {:induction false} NodeMapIs(nodes: seq<WireNode>, k: nat)
    requires DistinctKeys(nodes)
    ensures k in NodeMap(nodes) <==> exists i :: 0 <= i < |nodes| && nodes[i].data.key == k
    ensures k in NodeMap(nodes) ==> NodeMap(nodes)[k] in nodes && NodeMap(nodes)[k].data.key == k
    decreases |nodes|
  {
    if nodes != [] {
      var n := |nodes| - 1;
      NodeMapIs(nodes[..n], k);
      if i :| 0 <= i < |nodes| && nodes[i].data.key == k {
        if i < n { assert nodes[..n][i].data.key == k; }
      }
    }
  }

  /** No key is both sent and removed. */
  ghost predicate Apart(nodes: seq<WireNode>, removed: seq<nat>) {
    forall i :: 0 <= i < |nodes| ==> nodes[i].data.key !in removed
  }

  lemma {:induction false} NodeMapKeys(nodes: seq<WireNode>, removed: seq<nat>)
    requires Apart(nodes, removed)
    ensures NodeMap(nodes).Keys !! Keys(removed)
    decreases |nodes|
  {
    if nodes != [] {
      var front := nodes[..|nodes| - 1];
      assert Apart(front, removed) by {
        forall i | 0 <= i < |front| ensures front[i].data.key !in removed { assert nodes[i].data.key !in removed; }
      }
      NodeMapKeys(front, removed);
    }
  }

  ghost predicate ApartParts(us: seq<Update>) {
    Apart(AllNodesOf(us), AllRemovedOf(us))
  }

  lemma ApartFront(us: seq<Update>)
    requires us != [] && ApartParts(us)
    ensures ApartParts(us[..|us| - 1])
    ensures Apart(AllNodesOf(us[..|us| - 1]), us[|us| - 1].removed)
  {
    var front, last := us[..|us| - 1], us[|us| - 1];
    var nodes, removed := AllNodesOf(front), AllRemovedOf(front);
    forall i | 0 <= i < |nodes| ensures nodes[i].data.key !in removed && nodes[i].data.key !in last.removed {
      assert AllNodesOf(us)[i] == nodes[i];
      assert forall k :: k in removed || k in last.removed ==> k in AllRemovedOf(us);
    }
  }

  lemma MergeThenDrop(held: Held, more: Held, r1: set<nat>, r2: set<nat>)
    requires more.Keys !! r2
    ensures ((held - r1) + more) - r2 == (held - (r1 + r2)) + more
  {
  }

  lemma MergeTwice(held: Held, a: Held, b: Held)
    ensures (held + a) + b == held + (a + b)
  {
  }

  lemma KeysAppend(a: seq<nat>, b: seq<nat>)
    ensures Keys(a + b) == Keys(a) + Keys(b)
  {
  }

  /** Applying the parts one by one is applying the concatenated lists once. */
  lemma {:induction false} ApplyIsOnce(held: Held, us: seq<Update>)
    requires ApartParts(us)
    ensures Apply(held, us) == (held - Keys(AllRemovedOf(us))) + NodeMap(AllNodesOf(us))
    decreases |us|
  {
    if us != [] {
      var front, last := us[..|us| - 1], us[|us| - 1];
      ApartFront(us);
      ApplyIsOnce(held, front);
      UpsertIsMerge(Apply(held, front) - Keys(last.removed), last.nodes);
      NodeMapAppend(AllNodesOf(front), last.nodes);
      NodeMapKeys(AllNodesOf(front), last.removed);
      KeysAppend(AllRemovedOf(front), last.removed);
      MergeThenDrop(held, NodeMap(AllNodesOf(front)), Keys(AllRemovedOf(front)), Keys(last.removed));
      MergeTwice(held - Keys(AllRemovedOf(us)), NodeMap(AllNodesOf(front)), NodeMap(last.nodes));
    }
  }

  // ---- parts pass the gate ----

  lemma ChunkIn<T>(s: seq<T>, size: nat, i: nat, k: nat)
    requires k < |Chunk(s, size, i)|
    ensures i * size + k < |s| && Chunk(s, size, i)[k] == s[i * size + k]
  {
  }

  lemma PartsPass(kind: UpdateKind, root: Option<nat>, nodes: seq<WireNode>, removed: seq<nat>)
    requires (forall i :: 0 <= i < |nodes| ==> GoodNode(nodes[i])) && DistinctKeys(nodes) && 0 !in removed
    requires kind == Snapshot ==> removed == []
    requires root.Some? ==> kind == Snapshot && nodes != [] && nodes[0].data.key == root.value
    ensures forall p :: 0 <= p < |Split(kind, root, nodes, removed)| ==>
            Acceptable(Split(kind, root, nodes, removed)[p])
  {
    var us := Split(kind, root, nodes, removed);
    forall p | 0 <= p < |us| ensures Acceptable(us[p]) {
      var u := us[p];
      forall k | 0 <= k < |u.nodes| ensures GoodNode(u.nodes[k]) { ChunkIn(nodes, MAX_UPDATE_NODES, p, k); }
      forall j, k | 0 <= j < k < |u.nodes| ensures u.nodes[j].data.key != u.nodes[k].data.key {
        ChunkIn(nodes, MAX_UPDATE_NODES, p, j);
        ChunkIn(nodes, MAX_UPDATE_NODES, p, k);
      }
      forall k | 0 <= k < |u.removed| ensures u.removed[k] != 0 { ChunkIn(removed, MAX_UPDATE_REMOVED, p, k); }
      if u.root.Some? { assert u.nodes[0] == nodes[0]; }
    }
  }

  // ---- snapshots ----

  ghost predicate CleanDoc(d: Doc) {
    forall i :: 0 <= i < |d.nodes| ==> CleanNode(d.nodes[i])
  }

  function WireAll(d: Doc, order: seq<nat>): seq<WireNode>
    requires |d.nodes| == |d.tree.parent| == |d.tree.sibling| && forall k :: 0 <= k < |order| ==> order[k] < |d.nodes|
  {
    seq(|order|, k requires 0 <= k < |order| => d.Wire(order[k]))
  }

  lemma WireIsGood(d: Doc, depth: seq<nat>, i: nat)
    requires d.Valid(depth) && CleanDoc(d) && i < |d.nodes|
    ensures GoodNode(d.Wire(i))
  {
    assert EdgeOk(d.tree.parent, depth, i);
  }

  lemma PreorderStarts(t: Tree, depth: seq<nat>, order: seq<nat>)
    requires IsTree(t, depth) && order == Preorder(t, depth, 0)
    ensures order != [] && order[0] == 0
  {
  }

  ghost predicate Traversal(d: Doc, order: seq<nat>, nodes: seq<WireNode>) {
    && |d.nodes| == |d.tree.parent| == |d.tree.sibling| == |order| && AllNodes(d.tree, order) && Unrepeated(order)
    && (forall w: nat :: w < |d.nodes| ==> w in order)
    && nodes == WireAll(d, order)
  }

  lemma TraversalDistinct(d: Doc, depth: seq<nat>, order: seq<nat>, nodes: seq<WireNode>)
    requires d.Valid(depth) && Traversal(d, order, nodes)
    ensures DistinctKeys(nodes)
  {
  }

  lemma SnapshotPasses(d: Doc, depth: seq<nat>, order: seq<nat>, nodes: seq<WireNode>)
    requires d.Valid(depth) && CleanDoc(d) && Traversal(d, order, nodes) && order != [] && order[0] == 0
    ensures var us := Split(Snapshot, Some(d.Key(0)), nodes, []);
            |us| > 0 && us[0].root == Some(d.Key(0)) && forall p :: 0 <= p < |us| ==> Acceptable(us[p])
  {
    forall i | 0 <= i < |nodes| ensures GoodNode(nodes[i]) { WireIsGood(d, depth, order[i]); }
    TraversalDistinct(d, depth, order, nodes);
    PartsPass(Snapshot, Some(d.Key(0)), nodes, []);
  }

  lemma FreshApply(us: seq<Update>, nodes: seq<WireNode>)
    requires AllNodesOf(us) == nodes && AllRemovedOf(us) == []
    ensures Apply(map[], us) == NodeMap(nodes)
  {
    ApplyIsOnce(map[], us);
    var held: Held := map[];
    assert (held - Keys([])) + NodeMap(nodes) == NodeMap(nodes);
  }

  lemma NodeMapIsHeld(d: Doc, depth: seq<nat>, order: seq<nat>, nodes: seq<WireNode>)
    requires d.Valid(depth) && AllNodes(d.tree, order) && (forall w: nat :: w < |d.nodes| ==> w in order)
    requires nodes == WireAll(d, order) && DistinctKeys(nodes)
    ensures NodeMap(nodes) == HeldFor(d)
  {
    forall k ensures k in NodeMap(nodes) <==> k in d.find
             ensures k in NodeMap(nodes) ==> NodeMap(nodes)[k] == d.Wire(d.find[k])
    {
      NodeMapIs(nodes, k);
      if k in d.find {
        assert d.find[k] in order;
        var i :| 0 <= i < |order| && order[i] == d.find[k];
        assert nodes[i].data.key == k;
      }
      if k in NodeMap(nodes) {
        var i :| 0 <= i < |nodes| && nodes[i] == NodeMap(nodes)[k];
        assert d.nodes[order[i]].key == k;
      }
    }
  }

  lemma SnapshotHolds(d: Doc, depth: seq<nat>, order: seq<nat>, nodes: seq<WireNode>, us: seq<Update>)
    requires d.Valid(depth) && Traversal(d, order, nodes) && us == Split(Snapshot, Some(d.Key(0)), nodes, [])
    ensures Apply(map[], us) == HeldFor(d)
  {
    SplitIsLossless(Snapshot, Some(d.Key(0)), nodes, [], us);
    TraversalDistinct(d, depth, order, nodes);
    NodeMapIsHeld(d, depth, order, nodes);
    FreshApply(us, nodes);
  }

  /**
    Numbered parts carry the nodes in document order and pass the gate; a
    receiver that applies them holds the tree.
   */
  method MakeSnapshot(d: Doc, ghost depth: seq<nat>) returns (us: seq<Update>)
    requires d.Valid(depth) && CleanDoc(d)
    ensures forall p :: 0 <= p < |us| ==> Acceptable(us[p])
    ensures |us| > 0 && Numbered(us, Snapshot, Some(d.Key(0)))
    ensures AllNodes(d.tree, Preorder(d.tree, depth, 0)) && AllNodesOf(us) == WireAll(d, Preorder(d.tree, depth, 0))
    ensures Apply(map[], us) == HeldFor(d)
  {
    var order := All(d.tree, depth);
    TraversalInside(d.tree, order);
    var nodes := WireAll(d, order);
    us := Split(Snapshot, Some(d.Key(0)), nodes, []);
    PreorderStarts(d.tree, depth, order);
    SnapshotPasses(d, depth, order, nodes);
    SnapshotHolds(d, depth, order, nodes, us);
    SplitIsLossless(Snapshot, Some(d.Key(0)), nodes, [], us);
  }

  /** The keys whose parent is `pk`, each at the position its index says. */
  ghost predicate ChildListIs(held: Held, pk: nat, list: seq<nat>) {
    && (forall j :: 0 <= j < |list| ==> list[j] in held && held[list[j]].parent == Some(pk) && held[list[j]].index == j)
    && (forall k :: k in held && held[k].parent == Some(pk) ==> k in list)
  }

  lemma ListIsFront(held: Held, pk: nat, a: seq<nat>, b: seq<nat>)
    requires ChildListIs(held, pk, a) && ChildListIs(held, pk, b)
    ensures |a| <= |b| && forall j :: 0 <= j < |a| ==> a[j] == b[j]
  {
    forall j | 0 <= j < |a| ensures j < |b| && a[j] == b[j] {
      assert a[j] in b;
      var k :| 0 <= k < |b| && b[k] == a[j];
      assert held[a[j]].index == j && held[b[k]].index == k;
    }
    if a != [] {
      var last := a[|a| - 1];
      assert |a| - 1 < |b|;
    }
  }

  lemma ListsAgree(held: Held, pk: nat, a: seq<nat>, b: seq<nat>)
    requires ChildListIs(held, pk, a) && ChildListIs(held, pk, b)
    ensures a == b
  {
    ListIsFront(held, pk, a, b);
    ListIsFront(held, pk, b, a);
  }

  /** A receiver can rebuild every child list, in order, and there is only one way to do it. */
  lemma ChildListsComeBack(d: Doc, depth: seq<nat>, i: nat)
    requires d.Valid(depth) && i < |d.nodes|
    ensures ChildListIs(HeldFor(d), d.Key(i), d.ChildKeys(i))
    ensures forall list :: ChildListIs(HeldFor(d), d.Key(i), list) ==> list == d.ChildKeys(i)
  {
    var held, kids, keys := HeldFor(d), d.tree.kids[i], d.ChildKeys(i);
    assert ListOk(d.tree, i);
    forall j | 0 <= j < |keys|
      ensures keys[j] in held && held[keys[j]].parent == Some(d.Key(i)) && held[keys[j]].index == j
    {
      assert kids[j] in kids;
      assert EdgeOk(d.tree.parent, depth, kids[j]) && PlaceOk(d.tree, kids[j]);
    }
    forall k | k in held && held[k].parent == Some(d.Key(i)) ensures k in keys {
      var c := d.find[k];
      assert EdgeOk(d.tree.parent, depth, c);
      assert d.tree.parent[c] == Some(i);
      var j :| 0 <= j < |kids| && kids[j] == c;
      assert keys[j] == k;
    }
    forall list | ChildListIs(held, d.Key(i), list) ensures list == keys {
      ListsAgree(held, d.Key(i), list, keys);
    }
  }
}
