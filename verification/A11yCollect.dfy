/**
  The keys that a list of changes asks to send and to remove, in order
  (crates/px-a11y/src/wire.rs, the loop of `delta`).
 */
module A11yCollect {
  import opened Common
  import opened A11yTree
  import opened A11yWalk
  import opened A11yWire

  /** The removed keys, as they come. */
  ghost function RemovedIn(cs: seq<Change>): seq<nat> {
    if cs == [] then []
    else
      var c := cs[|cs| - 1];
      RemovedIn(cs[..|cs| - 1]) + (if c.Removed? then [c.node] else [])
  }

  /** The keys of the other changes, each where it first comes. */
  ghost function MentionedIn(cs: seq<Change>): seq<nat> {
    if cs == [] then []
    else
      var before, c := MentionedIn(cs[..|cs| - 1]), cs[|cs| - 1];
      if c.Removed? || c.node in before then before else before + [c.node]
  }

  /** One pass separates removals from the rest and drops repetitions. */
  method Collect(changes: seq<Change>) returns (order: seq<nat>, removed: seq<nat>)
    ensures order == MentionedIn(changes) && removed == RemovedIn(changes)
  {
    order, removed := [], [];
    var touched: set<nat> := {};
    for i := 0 to |changes|
      invariant order == MentionedIn(changes[..i]) && removed == RemovedIn(changes[..i])
      invariant forall k: nat :: k in touched <==> k in order
    {
      var c := changes[i];
      assert changes[..i + 1][..i] == changes[..i];
      if c.Removed? {
        removed := removed + [c.node];
      } else if c.node !in touched {
        touched := touched + {c.node};
        order := order + [c.node];
      }
    }
    assert changes[..|changes|] == changes;
  }

  lemma {:induction false} MentionedAre(cs: seq<Change>)
    ensures Unrepeated(MentionedIn(cs)) && |MentionedIn(cs)| <= |cs|
    ensures forall k: nat :: k in MentionedIn(cs) <==> Mentions(cs, k)
    decreases |cs|
  {
    if cs != [] {
      var front, c := cs[..|cs| - 1], cs[|cs| - 1];
      MentionedAre(front);
      forall k: nat ensures Mentions(cs, k) <==> Mentions(front, k) || (!c.Removed? && c.node == k) {
        if x :| x in front && !x.Removed? && x.node == k { assert x in cs; }
        if x :| x in cs && !x.Removed? && x.node == k { assert x in front || x == c; }
        assert c in cs;
      }
    }
  }

  lemma {:induction false} RemovedAre(cs: seq<Change>)
    ensures |RemovedIn(cs)| <= |cs| && forall k: nat :: k in RemovedIn(cs) <==> Removed(k) in cs
    decreases |cs|
  {
    if cs != [] {
      var front, c := cs[..|cs| - 1], cs[|cs| - 1];
      RemovedAre(front);
      assert forall x :: x in cs <==> x in front || x == c;
    }
  }

  // ---- of a difference ----

  /** The keys of the old tree that are gone, in document order. */
  ghost function GoneInOrder(was: Doc, now: Doc, order: seq<nat>): seq<nat> {
    if order == [] then []
    else
      var k := was.Key(order[|order| - 1]);
      GoneInOrder(was, now, order[..|order| - 1]) + (if k !in now.find then [k] else [])
  }

  /** The keys of the new tree that are touched, in document order. */
  ghost function TouchedInOrder(was: Doc, now: Doc, order: seq<nat>): seq<nat> {
    if order == [] then []
    else
      var k := now.Key(order[|order| - 1]);
      TouchedInOrder(was, now, order[..|order| - 1]) + (if Touched(was, now, k) then [k] else [])
  }

  ghost predicate NoneRemoved(cs: seq<Change>) {
    forall i :: 0 <= i < |cs| ==> !cs[i].Removed?
  }

  ghost predicate AllRemoved(cs: seq<Change>) {
    forall i :: 0 <= i < |cs| ==> cs[i].Removed?
  }

  lemma {:induction false} RemovalsGone(was: Doc, now: Doc, order: seq<nat>)
    ensures AllRemoved(Removals(was, now, order))
            && RemovedIn(Removals(was, now, order)) == GoneInOrder(was, now, order)
    decreases |order|
  {
    if order != [] {
      var front := order[..|order| - 1];
      RemovalsGone(was, now, front);
      var cs := Removals(was, now, front);
      var k := was.Key(order[|order| - 1]);
      if k !in now.find {
        assert (cs + [Removed(k)])[..|cs|] == cs;
      } else {
        assert Removals(was, now, order) == cs;
      }
    }
  }

  /** Removals come first and the rest follow, so the two lists are read off the two parts. */
  lemma {:induction false} ApartInParts(a: seq<Change>, b: seq<Change>)
    requires AllRemoved(a) && NoneRemoved(b)
    ensures RemovedIn(a + b) == RemovedIn(a) && MentionedIn(a + b) == MentionedIn(b)
    decreases |a| + |b|
  {
    var all := a + b;
    if b != [] {
      assert all[..|all| - 1] == a + b[..|b| - 1];
      ApartInParts(a, b[..|b| - 1]);
    } else if a != [] {
      assert all == a && all[..|all| - 1] == a[..|a| - 1] + [];
      ApartInParts(a[..|a| - 1], []);
    }
  }

  /** The changes of one node add its key, if there are any and it is new. */
  lemma {:induction false} BlockMentions(before: seq<Change>, block: seq<Change>, k: nat)
    requires NoneRemoved(block) && (forall i :: 0 <= i < |block| ==> block[i].node == k) && k !in MentionedIn(before)
    ensures MentionedIn(before + block) == MentionedIn(before) + (if block == [] then [] else [k])
    decreases |block|
  {
    var all := before + block;
    if block == [] {
      assert all == before;
    } else {
      assert all[..|all| - 1] == before + block[..|block| - 1];
      BlockMentions(before, block[..|block| - 1], k);
    }
  }

  lemma {:induction false} UpdatesTouched(was: Doc, now: Doc, depthW: seq<nat>, depthN: seq<nat>, order: seq<nat>)
    requires was.Valid(depthW) && now.Valid(depthN) && AllNodes(now.tree, order) && Unrepeated(order)
    ensures NoneRemoved(Updates(was, now, order))
    ensures MentionedIn(Updates(was, now, order)) == TouchedInOrder(was, now, order)
    ensures forall k :: k in MentionedIn(Updates(was, now, order)) ==> k in now.find && now.find[k] in order
    decreases |order|
  {
    if order != [] {
      var n := |order| - 1;
      var front, j := order[..n], order[n];
      var block, before := ChangesFor(was, now, j), Updates(was, now, front);
      UpdatesTouched(was, now, depthW, depthN, front);
      assert PerNode(was, now, order)[..n] == PerNode(was, now, front);
      assert Updates(was, now, order) == before + block;
      QuietMeansSame(was, now, j);
      forall i | 0 <= i < |block| ensures !block[i].Removed? && block[i].node == now.Key(j) {
        assert block[i] in block;
      }
      assert now.find[now.Key(j)] == j && j !in front;
      BlockMentions(before, block, now.Key(j));
    }
  }
}
