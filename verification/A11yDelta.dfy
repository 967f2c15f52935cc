/**
  Deltas (crates/px-a11y/src/wire.rs): what a receiver holding the old tree
  holds after applying one.
 */
module A11yDelta {
  import opened Common
  import opened A11yTree
  import opened A11yWalk
  import opened A11yWire
  import opened A11yCollect
  import opened A11yUpdate

  ghost predicate Sent(nodes: seq<WireNode>, k: nat) {
    exists i :: 0 <= i < |nodes| && nodes[i].data.key == k
  }

  /** The lists of a delta: every touched node of the new tree once, and the keys that went away. */
  ghost predicate DeltaLists(was: Doc, now: Doc, nodes: seq<WireNode>, removed: seq<nat>)
    requires |now.tree.sibling| == |now.nodes|
  {
    && DistinctKeys(nodes)
    && (forall i :: 0 <= i < |nodes| ==>
        Touched(was, now, nodes[i].data.key) && nodes[i] == now.Wire(now.find[nodes[i].data.key]))
    && (forall k :: Touched(was, now, k) ==> Sent(nodes, k))
    && (forall k :: k in removed <==> k in was.find && k !in now.find)
  }

  lemma {:induction false} JoinedBounded(css: seq<seq<Change>>)
    requires forall k :: 0 <= k < |css| ==> |css[k]| <= 8
    ensures |Joined(css)| <= 8 * |css|
    decreases |css|
  {
    if css != [] { JoinedBounded(css[..|css| - 1]); }
  }

  lemma {:induction false} RemovalsBounded(was: Doc, now: Doc, order: seq<nat>)
    ensures |Removals(was, now, order)| <= |order|
    decreases |order|
  {
    if order != [] { RemovalsBounded(was, now, order[..|order| - 1]); }
  }

  /** Touched nodes as sent. */
  method WireTouched(now: Doc, order: seq<nat>) returns (nodes: seq<WireNode>)
    requires |now.nodes| == |now.tree.sibling| && forall k: nat :: k in order ==>
            k in now.find && now.find[k] < |now.nodes|
    ensures |nodes| == |order|
    ensures forall i :: 0 <= i < |order| ==>
            order[i] in now.find && now.find[order[i]] < |now.nodes| && nodes[i] == now.Wire(now.find[order[i]])
  {
    nodes := [];
    for i := 0 to |order|
      invariant |nodes| == i
      invariant forall k :: 0 <= k < i ==>
          order[k] in now.find && now.find[order[k]] < |now.nodes| && nodes[k] == now.Wire(now.find[order[k]])
    {
      assert order[i] in order;
      nodes := nodes + [now.Wire(now.find[order[i]])];
    }
  }

  lemma ListsAreDelta(was: Doc, now: Doc, depthN: seq<nat>, order: seq<nat>, nodes: seq<WireNode>, removed: seq<nat>)
    requires now.Valid(depthN) && Unrepeated(order) && (forall k: nat :: k in order <==> Touched(was, now, k))
    requires |nodes| == |order| && forall i :: 0 <= i < |order| ==>
            order[i] in now.find && nodes[i] == now.Wire(now.find[order[i]])
    requires forall k: nat :: k in removed <==> k in was.find && k !in now.find
    ensures DeltaLists(was, now, nodes, removed)
  {
  }

  /** The keys of a list of nodes, as they come. */
  function KeysOf(nodes: seq<WireNode>): seq<nat> {
    seq(|nodes|, i requires 0 <= i < |nodes| => nodes[i].data.key)
  }

  /** What the loop over a difference collects: the touched keys in the new document order, the gone ones in the old. */
  lemma CollectedFromDiff(was: Doc, now: Doc, depthW: seq<nat>, depthN: seq<nat>, before: seq<nat>, after: seq<nat>,
                          cs: seq<Change>)
    requires was.Valid(depthW) && now.Valid(depthN) && Visits(was.tree, before) && Visits(now.tree, after)
            && Unrepeated(after)
    requires |before| == |was.nodes| && |after| == |now.nodes|
    requires cs == Removals(was, now, before) + Updates(was, now, after)
    ensures MentionedIn(cs) == TouchedInOrder(was, now, after) && RemovedIn(cs) == GoneInOrder(was, now, before)
    ensures Unrepeated(MentionedIn(cs)) && (forall k: nat :: k in MentionedIn(cs) <==> Touched(was, now, k))
    ensures forall k: nat :: k in RemovedIn(cs) <==> k in was.find && k !in now.find
    ensures |cs| <= MAX_NODES + 8 * MAX_NODES && |MentionedIn(cs)| <= |cs| && |RemovedIn(cs)| <= |cs|
  {
    forall k: nat ensures Mentions(cs, k) <==> Touched(was, now, k)
                  ensures Removed(k) in cs <==> k in was.find && k !in now.find
    {
      DiffMeans(was, now, depthW, depthN, before, after, cs, k);
    }
    MentionedAre(cs);
    RemovedAre(cs);
    RemovalsGone(was, now, before);
    UpdatesTouched(was, now, depthW, depthN, after);
    ApartInParts(Removals(was, now, before), Updates(was, now, after));
    RemovalsBounded(was, now, before);
    JoinedBounded(PerNode(was, now, after));
  }

  lemma Orders(was: Doc, now: Doc, depthW: seq<nat>, depthN: seq<nat>) returns (before: seq<nat>, after: seq<nat>)
    requires was.Valid(depthW) && now.Valid(depthN)
    ensures before == Preorder(was.tree, depthW, 0) && after == Preorder(now.tree, depthN, 0)
    ensures AllNodes(was.tree, before) && (forall w: nat :: w < |was.tree.parent| ==> w in before)
            && |before| == |was.nodes|
    ensures AllNodes(now.tree, after) && (forall w: nat :: w < |now.tree.parent| ==> w in after)
            && |after| == |now.nodes|
    ensures Unrepeated(after)
  {
    before, after := Preorder(was.tree, depthW, 0), Preorder(now.tree, depthN, 0);
    EveryNodeOnce(was.tree, depthW);
    EveryNodeOnce(now.tree, depthN);
    TraversalInside(was.tree, before);
    TraversalInside(now.tree, after);
  }

  /** The keys to send, in the new document order, and those to remove, in the old one. */
  method DeltaKeys(was: Doc, now: Doc, ghost depthW: seq<nat>, ghost depthN: seq<nat>)
    returns (order: seq<nat>, gone: seq<nat>)
    requires was.Valid(depthW) && now.Valid(depthN)
    ensures order == TouchedInOrder(was, now, Preorder(now.tree, depthN, 0))
    ensures gone == GoneInOrder(was, now, Preorder(was.tree, depthW, 0))
    ensures Unrepeated(order) && (forall k: nat :: k in order <==> Touched(was, now, k))
    ensures forall k: nat :: k in gone <==> k in was.find && k !in now.find
    ensures |order| <= 9 * MAX_NODES && |gone| <= 9 * MAX_NODES
  {
    var changes := Diff(was, now, depthW, depthN);
    ghost var before, after := Orders(was, now, depthW, depthN);
    CollectedFromDiff(was, now, depthW, depthN, before, after, changes);
    order, gone := Collect(changes);
  }

  lemma DeltaPasses(was: Doc, now: Doc, depthW: seq<nat>, depthN: seq<nat>, nodes: seq<WireNode>, removed: seq<nat>)
    requires was.Valid(depthW) && now.Valid(depthN) && CleanDoc(now) && DeltaLists(was, now, nodes, removed)
    ensures forall p :: 0 <= p < |Split(Delta, None, nodes, removed)| ==>
            Acceptable(Split(Delta, None, nodes, removed)[p])
  {
    forall i | 0 <= i < |nodes| ensures GoodNode(nodes[i]) { WireIsGood(now, depthN, now.find[nodes[i].data.key]); }
    PartsPass(Delta, None, nodes, removed);
  }

  /**
    Every part of a delta passes the gate, the parts are numbered, and together
    they carry the touched nodes in the new document order and the keys that
    went away in the old one.
   */
  method MakeDelta(was: Doc, now: Doc, ghost depthW: seq<nat>, ghost depthN: seq<nat>)
    returns (us: seq<Update>, ghost nodes: seq<WireNode>, ghost removed: seq<nat>)
    requires was.Valid(depthW) && now.Valid(depthN) && CleanDoc(now)
    ensures DeltaLists(was, now, nodes, removed)
    ensures KeysOf(nodes) == TouchedInOrder(was, now, Preorder(now.tree, depthN, 0))
    ensures removed == GoneInOrder(was, now, Preorder(was.tree, depthW, 0))
    ensures AllNodesOf(us) == nodes && AllRemovedOf(us) == removed
    ensures Numbered(us, Delta, None) && forall p :: 0 <= p < |us| ==> Acceptable(us[p])
  {
    var order, gone := DeltaKeys(was, now, depthW, depthN);
    var sent := WireTouched(now, order);
    nodes, removed := sent, gone;
    ListsAreDelta(was, now, depthN, order, nodes, removed);
    assert KeysOf(nodes) == order;
    us := Split(Delta, None, sent, gone);
    SplitIsLossless(Delta, None, sent, gone, us);
    DeltaPasses(was, now, depthW, depthN, nodes, removed);
  }

  // ---- what the receiver ends up with ----

  /** Equal in everything the differ compares. */
  ghost predicate Agree(a: WireNode, b: WireNode) {
    a.parent == b.parent && a.data.(tab := None) == b.data.(tab := None)
  }

  /** Nodes and positions fit together as far as sending a node needs. */
  ghost predicate Sendable(d: Doc) {
    |d.tree.sibling| == |d.nodes| && forall k :: k in d.find ==> d.find[k] < |d.nodes|
  }

  /** One key of the new tree, except that an untouched node keeps the index and tab index it was last sent with. */
  ghost predicate YieldsAt(was: Doc, now: Doc, held: Held, k: nat)
    requires Sendable(was) && Sendable(now)
  {
    && (k in held <==> k in now.find)
    && (k in held ==> Agree(held[k], now.Wire(now.find[k])))
    && (k in held && Touched(was, now, k) ==> held[k] == now.Wire(now.find[k]))
    && (k in held && !Touched(was, now, k) ==> k in was.find && held[k] == was.Wire(was.find[k]))
  }

  /** The new tree's nodes, up to stale indices of untouched ones. */
  ghost predicate YieldsNew(was: Doc, now: Doc, held: Held)
    requires Sendable(was) && Sendable(now)
  {
    forall k: nat :: YieldsAt(was, now, held, k)
  }

  /** What is held under one key after the whole delta. */
  lemma DeltaAt(was: Doc, now: Doc, depthW: seq<nat>, depthN: seq<nat>, nodes: seq<WireNode>, removed: seq<nat>, k: nat)
    requires was.Valid(depthW) && now.Valid(depthN) && DeltaLists(was, now, nodes, removed)
    ensures YieldsAt(was, now, (HeldFor(was) - Keys(removed)) + NodeMap(nodes), k)
  {
    NodeMapIs(nodes, k);
    if Touched(was, now, k) { assert Sent(nodes, k); }
    assert k in NodeMap(nodes) <==> Touched(was, now, k);
    assert k in NodeMap(nodes) ==> NodeMap(nodes)[k] == now.Wire(now.find[k]);
  }

  /** A receiver that held the old tree holds the new one's keys and data. */
  lemma DeltaYieldsNew(was: Doc, now: Doc, depthW: seq<nat>, depthN: seq<nat>, nodes: seq<WireNode>, removed: seq<nat>,
                       us: seq<Update>)
    requires was.Valid(depthW) && now.Valid(depthN) && DeltaLists(was, now, nodes, removed)
    requires AllNodesOf(us) == nodes && AllRemovedOf(us) == removed
    ensures YieldsNew(was, now, Apply(HeldFor(was), us))
  {
    assert Apart(nodes, removed);
    ApplyIsOnce(HeldFor(was), us);
    forall k: nat ensures YieldsAt(was, now, Apply(HeldFor(was), us), k) {
      DeltaAt(was, now, depthW, depthN, nodes, removed, k);
    }
  }

  /** A node the differ finds unchanged kept its sibling index and tab index. */
  ghost predicate Settled(was: Doc, now: Doc, k: nat)
    requires Sendable(was) && Sendable(now)
  {
    k in was.find && k in now.find && Same(was, was.find[k], now, now.find[k]) ==>
      && was.tree.sibling[was.find[k]] == now.tree.sibling[now.find[k]]
      && was.nodes[was.find[k]].tab == now.nodes[now.find[k]].tab
  }

  lemma ExactAt(was: Doc, now: Doc, depthW: seq<nat>, depthN: seq<nat>, held: Held, k: nat)
    requires was.Valid(depthW) && now.Valid(depthN) && YieldsAt(was, now, held, k)
    ensures k in now.find ==> (held[k] == HeldFor(now)[k] <==> Settled(was, now, k))
  {
    if k in now.find && !Touched(was, now, k) {
      var o, n := was.nodes[was.find[k]], now.nodes[now.find[k]];
      assert o.(tab := None) == n.(tab := None);
      assert o == n <==> o.tab == n.tab;
    }
  }

  /** The receiver holds the new tree exactly, if and only if every unchanged node also kept its index and tab index. */
  lemma DeltaIsExactWhen(was: Doc, now: Doc, depthW: seq<nat>, depthN: seq<nat>, held: Held)
    requires was.Valid(depthW) && now.Valid(depthN) && YieldsNew(was, now, held)
    ensures held == HeldFor(now) <==> forall k: nat :: Settled(was, now, k)
  {
    forall k: nat ensures k in held <==> k in now.find
                  ensures k in now.find ==> (held[k] == HeldFor(now)[k] <==> Settled(was, now, k))
    {
      assert YieldsAt(was, now, held, k);
      ExactAt(was, now, depthW, depthN, held, k);
    }
    if forall k: nat :: Settled(was, now, k) {
      forall k | k in held ensures held[k] == HeldFor(now)[k] { assert Settled(was, now, k); }
      assert held.Keys == HeldFor(now).Keys;
    }
  }

  // ---- child lists after a delta ----

  /** A node the differ finds unchanged is still at its old place among its siblings. */
  ghost predicate KeptPlace(was: Doc, now: Doc, k: nat)
    requires Sendable(was) && Sendable(now)
  {
    k in was.find && k in now.find && Same(was, was.find[k], now, now.find[k]) ==>
      was.tree.sibling[was.find[k]] == now.tree.sibling[now.find[k]]
  }

  lemma IndexAfterDelta(was: Doc, now: Doc, depthW: seq<nat>, depthN: seq<nat>, held: Held, k: nat)
    requires was.Valid(depthW) && now.Valid(depthN) && YieldsAt(was, now, held, k) && k in now.find
    ensures k in held && held[k].parent == HeldFor(now)[k].parent
    ensures held[k].index == HeldFor(now)[k].index <==> KeptPlace(was, now, k)
  {
  }

  /**
    A receiver can rebuild a child list of the new tree if and only if every
    child that the differ finds unchanged kept its place; tab indices play no part.
   */
  lemma ChildListAfterDelta(was: Doc, now: Doc, depthW: seq<nat>, depthN: seq<nat>, held: Held, i: nat)
    requires was.Valid(depthW) && now.Valid(depthN) && YieldsNew(was, now, held) && i < |now.nodes|
    ensures ChildListIs(held, now.Key(i), now.ChildKeys(i)) <==>
            forall j :: 0 <= j < |now.ChildKeys(i)| ==> KeptPlace(was, now, now.ChildKeys(i)[j])
  {
    var keys, sent := now.ChildKeys(i), HeldFor(now);
    ChildListsComeBack(now, depthN, i);
    forall k: nat ensures k in held <==> k in now.find { assert YieldsAt(was, now, held, k); }
    forall k | k in held
      ensures held[k].parent == sent[k].parent && (held[k].index == sent[k].index <==> KeptPlace(was, now, k))
    {
      assert YieldsAt(was, now, held, k);
      IndexAfterDelta(was, now, depthW, depthN, held, k);
    }
  }

  // ---- the index can go stale ----

  function Plain(key: nat): NodeData {
    NodeData(key, 0, "", "", 0, Props(None, None, [], 0), None, None)
  }

  /** A document with two children. */
  const TWO: Doc := Doc(
    Tree([None, Some(0), Some(0)], [[1, 2], [], []], [0, 0, 1], false),
    [Plain(1), Plain(2), Plain(3)], map[1 := 0, 2 := 1, 3 := 2])

  /** The same document with the first child gone. */
  const ONE: Doc := Doc(
    Tree([None, Some(0)], [[1], []], [0, 0], false),
    [Plain(1), Plain(3)], map[1 := 0, 3 := 1])

  /** The same document with the children the other way round. */
  const SWAPPED: Doc := Doc(
    Tree([None, Some(0), Some(0)], [[2, 1], [], []], [0, 1, 0], false),
    [Plain(1), Plain(2), Plain(3)], map[1 := 0, 2 := 1, 3 := 2])

  lemma TwoLists()
    ensures ListOk(TWO.tree, 0) && ListOk(TWO.tree, 1) && ListOk(TWO.tree, 2)
  {
  }

  lemma TwoIsValid()
    ensures TWO.Valid([1, 2, 2])
  {
    var t, depth := TWO.tree, [1, 2, 2];
    forall v | 0 <= v < 3 ensures EdgeOk(t.parent, depth, v) {}
    TwoLists();
    forall c | 0 < c < 3 ensures PlaceOk(t, c) {}
  }

  lemma OneIsValid()
    ensures ONE.Valid([1, 2])
  {
    var t, depth := ONE.tree, [1, 2];
    forall v | 0 <= v < 2 ensures EdgeOk(t.parent, depth, v) {}
    assert ListOk(t, 0) && ListOk(t, 1);
    forall c | 0 < c < 2 ensures PlaceOk(t, c) {}
  }

  /**
    Removing a first child: whatever delta is made, the sibling that moves up is
    not sent, and the receiver's index for it stays 1 where it should be 0.
   */
  lemma StaleIndex(nodes: seq<WireNode>, removed: seq<nat>, us: seq<Update>)
    requires DeltaLists(TWO, ONE, nodes, removed) && AllNodesOf(us) == nodes && AllRemovedOf(us) == removed
    ensures var held := Apply(HeldFor(TWO), us);
            3 in held && held[3].index == 1 && HeldFor(ONE)[3].index == 0 && held != HeldFor(ONE)
  {
    TwoIsValid();
    OneIsValid();
    DeltaYieldsNew(TWO, ONE, [1, 2, 2], [1, 2], nodes, removed, us);
    assert Same(TWO, 2, ONE, 1);
    assert !Touched(TWO, ONE, 3);
    assert YieldsAt(TWO, ONE, Apply(HeldFor(TWO), us), 3);
  }

  /** What a key that the differ finds unchanged is held as after a delta. */
  lemma UnsentStays(was: Doc, now: Doc, held: Held, k: nat)
    requires Sendable(was) && Sendable(now) && YieldsNew(was, now, held)
    requires k in was.find && k in now.find && Same(was, was.find[k], now, now.find[k])
    ensures k in held && held[k] == was.Wire(was.find[k])
  {
    assert YieldsAt(was, now, held, k);
  }

  lemma SwapHeld(held: Held)
    requires YieldsNew(TWO, SWAPPED, held)
    ensures ChildListIs(held, 1, [2, 3])
  {
    assert Same(TWO, 1, SWAPPED, 1) && Same(TWO, 2, SWAPPED, 2);
    UnsentStays(TWO, SWAPPED, held, 2);
    UnsentStays(TWO, SWAPPED, held, 3);
    forall k | k in held && held[k].parent == Some(1) ensures k in [2, 3] {
      assert YieldsAt(TWO, SWAPPED, held, k);
    }
  }

  lemma SwappedLists()
    ensures ListOk(SWAPPED.tree, 0) && ListOk(SWAPPED.tree, 1) && ListOk(SWAPPED.tree, 2)
  {
  }

  lemma SwappedIsValid()
    ensures SWAPPED.Valid([1, 2, 2])
  {
    var t, depth := SWAPPED.tree, [1, 2, 2];
    forall v | 0 <= v < 3 ensures EdgeOk(t.parent, depth, v) {}
    SwappedLists();
    forall c | 0 < c < 3 ensures PlaceOk(t, c) {}
  }

  /** Swapping two children: whatever delta is made, the receiver goes on rebuilding the old order. */
  lemma SwapIsLost(nodes: seq<WireNode>, removed: seq<nat>, us: seq<Update>)
    requires DeltaLists(TWO, SWAPPED, nodes, removed) && AllNodesOf(us) == nodes && AllRemovedOf(us) == removed
    ensures SWAPPED.ChildKeys(0) == [3, 2] && ChildListIs(Apply(HeldFor(TWO), us), 1, [2, 3])
  {
    TwoIsValid();
    SwappedIsValid();
    DeltaYieldsNew(TWO, SWAPPED, [1, 2, 2], [1, 2, 2], nodes, removed, us);
    SwapHeld(Apply(HeldFor(TWO), us));
  }
}
