/**
  Document order traversal with an explicit stack
  (crates/px-a11y/src/tree.rs, `descendants` and `all`).
 */
module A11yWalk {
  import opened Common
  import opened A11yTree

  /** Some number no depth exceeds. */
  ghost function Bound(depth: seq<nat>): (b: nat)
    ensures forall v :: 0 <= v < |depth| ==> depth[v] <= b
  {
    if depth == [] then 0
    else
      var n := |depth| - 1;
      var b := Bound(depth[..n]);
      assert forall v :: 0 <= v < n ==> depth[..n][v] == depth[v];
      if depth[n] > b then depth[n] else b
  }

  ghost predicate AllAt(t: Tree, depth: seq<nat>, cs: seq<nat>, d: nat) {
    forall k :: 0 <= k < |cs| ==> cs[k] < |t.parent| && cs[k] < |depth| && depth[cs[k]] == d
  }

  lemma KidsOneDeeper(t: Tree, depth: seq<nat>, v: nat)
    requires IsTree(t, depth) && v < |t.kids|
    ensures AllAt(t, depth, t.kids[v], depth[v] + 1)
  {
    assert ListOk(t, v);
    forall k | 0 <= k < |t.kids[v]| ensures t.kids[v][k] < |t.parent| && depth[t.kids[v][k]] == depth[v] + 1 {
      var c := t.kids[v][k];
      assert c in t.kids[v];
      assert EdgeOk(t.parent, depth, c);
    }
  }

  /** Preorder: the root of a subtree and then, from left to right, the subtrees below it. */
  ghost function Preorder(t: Tree, depth: seq<nat>, v: nat): seq<nat>
    requires IsTree(t, depth) && v < |t.parent|
    decreases Bound(depth) - depth[v], 1, 0
  {
    KidsOneDeeper(t, depth, v);
    [v] + PreorderAll(t, depth, t.kids[v], depth[v] + 1)
  }

  ghost function PreorderAll(t: Tree, depth: seq<nat>, cs: seq<nat>, d: nat): seq<nat>
    requires IsTree(t, depth) && AllAt(t, depth, cs, d) && d <= Bound(depth) + 1
    decreases Bound(depth) + 1 - d, 0, |cs|
  {
    if cs == [] then [] else Preorder(t, depth, cs[0]) + PreorderAll(t, depth, cs[1..], d)
  }

  // ---- every node exactly once ----

  lemma {:induction false} OneAncestorPerDepth(parent: Parents, depth: seq<nat>, a: nat, b: nat, w: nat)
    requires Rooted(parent, depth) && a < |parent| && b < |parent| && w < |parent|
    requires Under(parent, depth, a, w) && Under(parent, depth, b, w) && depth[a] == depth[b]
    ensures a == b
    decreases depth[w]
  {
    if w != a && w != b {
      assert EdgeOk(parent, depth, w);
      OneAncestorPerDepth(parent, depth, a, b, parent[w].value);
    } else if a != b {
      assert EdgeOk(parent, depth, w);
      if w == a {
        UnderIsDeeper(parent, depth, b, parent[w].value);
      } else {
        UnderIsDeeper(parent, depth, a, parent[w].value);
      }
    }
  }

  lemma {:induction false} ChildOnTheWay(t: Tree, depth: seq<nat>, v: nat, w: nat) returns (c: nat)
    requires IsTree(t, depth) && v < |t.parent| && w < |t.parent| && w != v && Under(t.parent, depth, v, w)
    ensures c < |t.parent| && c in t.kids[v] && Under(t.parent, depth, c, w)
    decreases depth[w]
  {
    assert EdgeOk(t.parent, depth, w);
    var p := t.parent[w].value;
    if p == v {
      c := w;
      assert ListOk(t, v);
    } else {
      c := ChildOnTheWay(t, depth, v, p);
    }
  }

  lemma {:induction false} UnderTransitive(parent: Parents, depth: seq<nat>, a: nat, b: nat, w: nat)
    requires Rooted(parent, depth) && a < |parent| && b < |parent| && w < |parent|
    requires Under(parent, depth, a, b) && Under(parent, depth, b, w)
    ensures Under(parent, depth, a, w)
    decreases depth[w]
  {
    if w != b {
      assert EdgeOk(parent, depth, w);
      UnderTransitive(parent, depth, a, b, parent[w].value);
    }
  }

  ghost predicate AnyAbove(t: Tree, depth: seq<nat>, cs: seq<nat>, w: nat)
    requires IsTree(t, depth) && w < |t.parent|
  {
    exists k :: 0 <= k < |cs| && Under(t.parent, depth, cs[k], w)
  }

  lemma {:induction false} VisitsOnce(t: Tree, depth: seq<nat>, v: nat, w: nat)
    requires IsTree(t, depth) && v < |t.parent| && w < |t.parent|
    ensures multiset(Preorder(t, depth, v))[w] == if Under(t.parent, depth, v, w) then 1 else 0
    decreases Bound(depth) - depth[v], 1, 0
  {
    KidsOneDeeper(t, depth, v);
    var cs, d := t.kids[v], depth[v] + 1;
    assert ListOk(t, v);
    VisitsAllOnce(t, depth, cs, d, w);
    if w == v {
      forall k | 0 <= k < |cs| ensures !Under(t.parent, depth, cs[k], v) {
        if Under(t.parent, depth, cs[k], v) { UnderIsDeeper(t.parent, depth, cs[k], v); }
      }
    } else if Under(t.parent, depth, v, w) {
      var c := ChildOnTheWay(t, depth, v, w);
      var k :| 0 <= k < |cs| && cs[k] == c;
      assert AnyAbove(t, depth, cs, w);
    } else {
      forall k | 0 <= k < |cs| ensures !Under(t.parent, depth, cs[k], w) {
        assert cs[k] in cs;
        assert Under(t.parent, depth, v, v);
        assert EdgeOk(t.parent, depth, cs[k]);
        if Under(t.parent, depth, cs[k], w) { UnderTransitive(t.parent, depth, v, cs[k], w); }
      }
    }
  }

  lemma {:induction false} VisitsAllOnce(t: Tree, depth: seq<nat>, cs: seq<nat>, d: nat, w: nat)
    requires IsTree(t, depth) && AllAt(t, depth, cs, d) && d <= Bound(depth) + 1 && w < |t.parent| && Unrepeated(cs)
    ensures multiset(PreorderAll(t, depth, cs, d))[w] == if AnyAbove(t, depth, cs, w) then 1 else 0
    decreases Bound(depth) + 1 - d, 0, |cs|
  {
    if cs != [] {
      VisitsOnce(t, depth, cs[0], w);
      VisitsAllOnce(t, depth, cs[1..], d, w);
      assert AnyAbove(t, depth, cs, w) <==> Under(t.parent, depth, cs[0], w) || AnyAbove(t, depth, cs[1..], w) by {
        if k :| 0 <= k < |cs| && Under(t.parent, depth, cs[k], w) {
          if k > 0 { assert cs[1..][k - 1] == cs[k]; }
        }
        if k :| 0 <= k < |cs[1..]| && Under(t.parent, depth, cs[1..][k], w) { assert cs[k + 1] == cs[1..][k]; }
      }
      if Under(t.parent, depth, cs[0], w) && AnyAbove(t, depth, cs[1..], w) {
        var k :| 0 <= k < |cs[1..]| && Under(t.parent, depth, cs[1..][k], w);
        OneAncestorPerDepth(t.parent, depth, cs[0], cs[1..][k], w);
        assert false;
      }
    }
  }

  lemma {:induction false} VisitsOnlyNodes(t: Tree, depth: seq<nat>, v: nat, k: nat)
    requires IsTree(t, depth) && v < |t.parent| && k < |Preorder(t, depth, v)|
    ensures Preorder(t, depth, v)[k] < |t.parent|
    decreases Bound(depth) - depth[v], 1, 0
  {
    KidsOneDeeper(t, depth, v);
    if k > 0 { VisitsOnlyNodesAll(t, depth, t.kids[v], depth[v] + 1, k - 1); }
  }

  lemma {:induction false} VisitsOnlyNodesAll(t: Tree, depth: seq<nat>, cs: seq<nat>, d: nat, k: nat)
    requires IsTree(t, depth) && AllAt(t, depth, cs, d) && d <= Bound(depth) + 1 && k < |PreorderAll(t, depth, cs, d)|
    ensures PreorderAll(t, depth, cs, d)[k] < |t.parent|
    decreases Bound(depth) + 1 - d, 0, |cs|
  {
    var first := Preorder(t, depth, cs[0]);
    if k < |first| {
      VisitsOnlyNodes(t, depth, cs[0], k);
    } else {
      VisitsOnlyNodesAll(t, depth, cs[1..], d, k - |first|);
    }
  }

  // ---- the stack ----

  ghost predicate AllNodes(t: Tree, stack: seq<nat>) {
    forall k :: 0 <= k < |stack| ==> stack[k] < |t.parent|
  }

  /** What a stack with its top at the end still has to visit. */
  ghost function Pending(t: Tree, depth: seq<nat>, stack: seq<nat>): seq<nat>
    requires IsTree(t, depth) && AllNodes(t, stack)
  {
    if stack == [] then []
    else Preorder(t, depth, stack[|stack| - 1]) + Pending(t, depth, stack[..|stack| - 1])
  }

  lemma PendingLast(t: Tree, depth: seq<nat>, stack: seq<nat>, v: nat)
    requires IsTree(t, depth) && AllNodes(t, stack) && v < |t.parent|
    ensures AllNodes(t, stack + [v])
    ensures Pending(t, depth, stack + [v]) == Preorder(t, depth, v) + Pending(t, depth, stack)
  {
    assert (stack + [v])[..|stack|] == stack;
  }

  lemma {:induction false} PendingPush(t: Tree, depth: seq<nat>, stack: seq<nat>, cs: seq<nat>, d: nat)
    requires IsTree(t, depth) && AllNodes(t, stack) && AllAt(t, depth, cs, d) && d <= Bound(depth) + 1
    ensures AllNodes(t, stack + Reverse(cs))
    ensures Pending(t, depth, stack + Reverse(cs)) == PreorderAll(t, depth, cs, d) + Pending(t, depth, stack)
    decreases |cs|
  {
    if cs == [] {
      assert stack + Reverse(cs) == stack;
    } else {
      var inner := stack + Reverse(cs[1..]);
      assert stack + Reverse(cs) == inner + [cs[0]];
      PendingPush(t, depth, stack, cs[1..], d);
      PendingLast(t, depth, inner, cs[0]);
      Associate(Preorder(t, depth, cs[0]), PreorderAll(t, depth, cs[1..], d), Pending(t, depth, stack));
    }
  }

  lemma PopOne(t: Tree, depth: seq<nat>, stack: seq<nat>, v: nat)
    requires IsTree(t, depth) && AllNodes(t, stack) && v < |t.parent|
    ensures AllNodes(t, stack + [v]) && AllNodes(t, stack + Reverse(t.kids[v]))
    ensures Pending(t, depth, stack + [v]) == [v] + Pending(t, depth, stack + Reverse(t.kids[v]))
  {
    KidsOneDeeper(t, depth, v);
    var below := PreorderAll(t, depth, t.kids[v], depth[v] + 1);
    assert Preorder(t, depth, v) == [v] + below;
    PendingLast(t, depth, stack, v);
    PendingPush(t, depth, stack, t.kids[v], depth[v] + 1);
    Associate([v], below, Pending(t, depth, stack));
  }

  method Descendants(t: Tree, v: nat, ghost depth: seq<nat>) returns (out: seq<nat>)
    requires IsTree(t, depth) && v < |t.parent|
    ensures out == Preorder(t, depth, v)
  {
    out := [];
    var stack := [v];
    PendingLast(t, depth, [], v);
    assert [] + [v] == stack;
    while stack != []
      invariant AllNodes(t, stack) && out + Pending(t, depth, stack) == Preorder(t, depth, v)
      decreases |Pending(t, depth, stack)|
    {
      var i := stack[|stack| - 1];
      ghost var whole := stack;
      stack := stack[..|stack| - 1];
      assert whole == stack + [i];
      PopOne(t, depth, stack, i);
      ghost var rest := Pending(t, depth, stack + Reverse(t.kids[i]));
      Associate(out, [i], rest);
      out := out + [i];
      stack := stack + Reverse(t.kids[i]);
    }
  }

  /** Document order visits every node exactly once. */
  lemma EveryNodeOnce(t: Tree, depth: seq<nat>)
    requires IsTree(t, depth)
    ensures forall w: nat :: multiset(Preorder(t, depth, 0))[w] == if w < |t.parent| then 1 else 0
  {
    var out := Preorder(t, depth, 0);
    forall w: nat ensures multiset(out)[w] == if w < |t.parent| then 1 else 0 {
      if w < |t.parent| {
        VisitsOnce(t, depth, 0, w);
        RootIsAbove(t.parent, depth, w);
      } else if w in out {
        var k :| 0 <= k < |out| && out[k] == w;
        VisitsOnlyNodes(t, depth, 0, k);
        assert false;
      }
    }
  }

  /** The whole tree in document order. */
  method All(t: Tree, ghost depth: seq<nat>) returns (out: seq<nat>)
    requires IsTree(t, depth)
    ensures out == Preorder(t, depth, 0)
    ensures forall w: nat :: multiset(out)[w] == if w < |t.parent| then 1 else 0
  {
    EveryNodeOnce(t, depth);
    out := Descendants(t, 0, depth);
  }
}
