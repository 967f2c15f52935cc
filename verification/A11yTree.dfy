/**
  Building the accessibility tree from its structural parents and `aria-owns`
  (crates/px-a11y/src/tree.rs, `Builder::finish`).

  Nodes are indices; node 0 is the document.  `depth` is a ghost certificate:
  it counts the nodes from the root down to and including a node, so its
  existence says that every upward walk ends at the root.
 */
module A11yTree {
  import opened Common

  const MAX_TREE_DEPTH := 1024
  const MAX_OWNS := 10_000
  const MAX_OWNS_PER_NODE := 64

  type Parents = seq<Option<nat>>

  ghost predicate EdgeOk(parent: Parents, depth: seq<nat>, v: nat)
    requires v < |parent| == |depth|
  {
    if v == 0 then parent[v].None? && depth[v] == 1
    else parent[v].Some? && parent[v].value < |parent| && depth[v] == depth[parent[v].value] + 1
  }

  /** One tree rooted at node 0. */
  ghost predicate Rooted(parent: Parents, depth: seq<nat>) {
    && |depth| == |parent| > 0
    && forall v {:trigger EdgeOk(parent, depth, v)} :: 0 <= v < |parent| ==> EdgeOk(parent, depth, v)
  }

  /** `w` is `t` or lies below it. */
  ghost predicate Under(parent: Parents, depth: seq<nat>, t: nat, w: nat)
    requires Rooted(parent, depth) && w < |parent|
    decreases depth[w]
  {
    w == t || (w != 0 && assert EdgeOk(parent, depth, w); Under(parent, depth, t, parent[w].value))
  }

  ghost predicate CoversEdge(parent: Parents, height: seq<nat>, v: nat)
    requires v < |parent| == |height|
  {
    parent[v].Some? && parent[v].value < |height| ==> height[parent[v].value] >= height[v] + 1
  }

  /** The height array covers every edge: it may overestimate, never underestimate. */
  ghost predicate HighEnough(parent: Parents, height: seq<nat>) {
    && |height| == |parent|
    && forall v :: 0 <= v < |parent| ==> CoversEdge(parent, height, v)
  }

  ghost predicate AtLeast(a: seq<nat>, b: seq<nat>) {
    |a| == |b| && forall v :: 0 <= v < |a| ==> a[v] >= b[v]
  }

  /** The least heights that cover every edge and lower none of `height`. */
  ghost predicate LeastAbove(parent: Parents, height: seq<nat>, raised: seq<nat>) {
    && HighEnough(parent, raised) && AtLeast(raised, height)
    && forall h :: HighEnough(parent, h) && AtLeast(h, height) ==> AtLeast(h, raised)
  }

  ghost predicate WithinDepth(depth: seq<nat>) {
    forall v :: 0 <= v < |depth| ==> depth[v] <= MAX_TREE_DEPTH
  }

  // ---- facts about trees ----

  /** Going down from `t` to `w` uses up at least one unit of height per level. */
  lemma {:induction false} HeightSpans(parent: Parents, depth: seq<nat>, height: seq<nat>, t: nat, w: nat)
    requires Rooted(parent, depth) && HighEnough(parent, height)
            && t < |parent| && w < |parent| && Under(parent, depth, t, w)
    ensures depth[t] <= depth[w] && depth[w] + height[w] <= depth[t] + height[t]
    decreases depth[w]
  {
    if w != t {
      assert EdgeOk(parent, depth, w) && CoversEdge(parent, height, w);
      HeightSpans(parent, depth, height, t, parent[w].value);
    }
  }

  lemma {:induction false} RootIsAbove(parent: Parents, depth: seq<nat>, w: nat)
    requires Rooted(parent, depth) && w < |parent|
    ensures Under(parent, depth, 0, w)
    decreases depth[w]
  {
    if w != 0 {
      assert EdgeOk(parent, depth, w);
      RootIsAbove(parent, depth, parent[w].value);
    }
  }

  /** The depths after moving `t`, with all below it, under `owner`. */
  ghost function MovedDepths(parent: Parents, depth: seq<nat>, owner: nat, t: nat): (d: seq<nat>)
    requires Rooted(parent, depth) && owner < |parent| && t < |parent|
    ensures |d| == |depth|
  {
    seq(|depth|, w requires 0 <= w < |depth| =>
      if Under(parent, depth, t, w) && depth[w] >= depth[t] then depth[w] - depth[t] + depth[owner] + 1 else depth[w])
  }

  lemma {:induction false} UnderIsDeeper(parent: Parents, depth: seq<nat>, t: nat, w: nat)
    requires Rooted(parent, depth) && t < |parent| && w < |parent| && Under(parent, depth, t, w)
    ensures depth[t] <= depth[w]
    decreases depth[w]
  {
    if w != t {
      assert EdgeOk(parent, depth, w);
      UnderIsDeeper(parent, depth, t, parent[w].value);
    }
  }

  /** Moving a node under one that is not below it leaves one rooted tree. */
  lemma MoveKeepsTree(parent: Parents, depth: seq<nat>, owner: nat, t: nat)
    requires Rooted(parent, depth) && owner < |parent| && 0 < t < |parent| && !Under(parent, depth, t, owner)
    ensures Rooted(parent[t := Some(owner)], MovedDepths(parent, depth, owner, t))
  {
    var now, d := parent[t := Some(owner)], MovedDepths(parent, depth, owner, t);
    forall v | 0 <= v < |now| ensures EdgeOk(now, d, v) {
      assert EdgeOk(parent, depth, v);
      if Under(parent, depth, t, v) { UnderIsDeeper(parent, depth, t, v); }
      if v == 0 {
        assert !Under(parent, depth, t, 0);
      } else if v != t {
        var p := parent[v].value;
        assert Under(parent, depth, t, v) == Under(parent, depth, t, p);
        if Under(parent, depth, t, p) { UnderIsDeeper(parent, depth, t, p); }
      }
    }
  }

  /** If the owner is shallow enough for the height of what is moved, no node ends up too deep. */
  lemma MoveKeepsDepth(parent: Parents, depth: seq<nat>, height: seq<nat>, owner: nat, t: nat)
    requires Rooted(parent, depth) && HighEnough(parent, height) && WithinDepth(depth)
    requires owner < |parent| && 0 < t < |parent|
    requires depth[owner] + 1 + height[t] <= MAX_TREE_DEPTH
    ensures WithinDepth(MovedDepths(parent, depth, owner, t))
  {
    forall w | 0 <= w < |depth| ensures MovedDepths(parent, depth, owner, t)[w] <= MAX_TREE_DEPTH {
      if Under(parent, depth, t, w) { HeightSpans(parent, depth, height, t, w); }
    }
  }

  // ---- the two upward walks ----

  /** Count the nodes from `owner` up to the root, noticing `t` on the way. */
  method WalkUp(parent: Parents, owner: nat, t: nat, ghost depth: seq<nat>) returns (cycle: bool, count: nat)
    requires Rooted(parent, depth) && owner < |parent| && t < |parent|
    ensures cycle ==> Under(parent, depth, t, owner)
    ensures !cycle && count <= MAX_TREE_DEPTH ==> count == depth[owner] && !Under(parent, depth, t, owner)
    ensures !cycle && count > MAX_TREE_DEPTH ==> depth[owner] > MAX_TREE_DEPTH
  {
    cycle, count := false, 0;
    var cursor: Option<nat> := Some(owner);
    while cursor.Some?
      invariant count <= MAX_TREE_DEPTH
      invariant cursor.Some? ==> cursor.value < |parent| && count + depth[cursor.value] == depth[owner]
      invariant cursor.Some? ==> (Under(parent, depth, t, owner) <==> Under(parent, depth, t, cursor.value))
      invariant cursor.None? ==> count == depth[owner] && !Under(parent, depth, t, owner)
      decreases if cursor.Some? then depth[cursor.value] else 0
    {
      var c := cursor.value;
      assert EdgeOk(parent, depth, c);
      if c == t { return true, count; }
      count := count + 1;
      if count > MAX_TREE_DEPTH { return; }
      cursor := parent[c];
    }
  }

  /** Raise heights from `owner` up until one is already high enough. */
  method RaiseHeights(parent: Parents, height: seq<nat>, t: nat, ghost depth: seq<nat>) returns (raised: seq<nat>)
    requires Rooted(parent, depth) && |height| == |parent| && 0 < t < |parent|
    requires forall v :: 0 <= v < |parent| && v != t ==> CoversEdge(parent, height, v)
    ensures LeastAbove(parent, height, raised)
  {
    raised := height;
    assert EdgeOk(parent, depth, t);
    var h := height[t] + 1;
    var at := parent[t];
    // The node whose own edge is still to be covered.
    ghost var low := t;
    while at.Some?
      invariant |raised| == |parent| && low < |parent| && at == parent[low] && h == raised[low] + 1
      invariant at.Some? ==> at.value < |parent|
      invariant forall v :: 0 <= v < |parent| && v != low ==> CoversEdge(parent, raised, v)
      invariant AtLeast(raised, height) && forall h :: HighEnough(parent, h) && AtLeast(h, height) ==>
          AtLeast(h, raised)
      decreases if at.Some? then depth[at.value] else 0
    {
      var x := at.value;
      assert EdgeOk(parent, depth, x) && EdgeOk(parent, depth, low);
      if raised[x] >= h { break; }
      ghost var before := raised;
      raised := raised[x := h];
      forall v | 0 <= v < |parent| && v != x ensures CoversEdge(parent, raised, v) {
        assert v != low ==> CoversEdge(parent, before, v);
      }
      forall g | HighEnough(parent, g) && AtLeast(g, height) ensures AtLeast(g, raised) {
        assert AtLeast(g, before) && CoversEdge(parent, g, low);
      }
      low := x;
      h := h + 1;
      at := parent[x];
    }
  }

  // ---- honouring requests ----

  /** The arrays of the owns loop. */
  datatype Forest = Forest(parent: Parents, height: seq<nat>, ownedBy: seq<Option<nat>>, owned: seq<seq<nat>>)

  /** An accepted request, in order of acceptance. */
  datatype Owns = Owns(owner: nat, target: nat)

  ghost function OwnedOf(log: seq<Owns>, i: nat): seq<nat> {
    if log == [] then []
    else
      var last := log[|log| - 1];
      OwnedOf(log[..|log| - 1], i) + (if last.owner == i then [last.target] else [])
  }

  /** Who owns `t`, by the first (and only) accepted request for it. */
  ghost predicate OwnerIs(log: seq<Owns>, t: nat, o: Option<nat>) {
    if o.Some? then Owns(o.value, t) in log else forall r :: r in log ==> r.target != t
  }

  ghost predicate OnceEach(log: seq<Owns>) {
    forall i, j :: 0 <= i < j < |log| ==> log[i].target != log[j].target
  }

  /** The arrays say what the log says. */
  ghost predicate Agrees(p0: Parents, f: Forest, log: seq<Owns>) {
    && |p0| == |f.parent| == |f.ownedBy| == |f.owned|
    && OnceEach(log)
    && (forall r :: r in log ==> r.owner < |p0| && 0 < r.target < |p0|)
    && (forall i :: 0 <= i < |p0| ==> f.owned[i] == OwnedOf(log, i))
    && (forall v :: 0 <= v < |p0| ==> OwnerIs(log, v, f.ownedBy[v]))
    && (forall v :: 0 <= v < |p0| ==> f.parent[v] == if f.ownedBy[v].Some? then f.ownedBy[v] else p0[v])
  }

  ghost predicate Good(p0: Parents, f: Forest, log: seq<Owns>, depth: seq<nat>) {
    Agrees(p0, f, log) && Rooted(f.parent, depth) && HighEnough(f.parent, f.height)
  }

  lemma AgreesMore(p0: Parents, f: Forest, log: seq<Owns>, owner: nat, t: nat, g: Forest)
    requires Agrees(p0, f, log) && owner < |p0| && 0 < t < |p0| && f.ownedBy[t].None?
    requires g.parent == f.parent[t := Some(owner)] && g.ownedBy == f.ownedBy[t := Some(owner)]
    requires g.owned == f.owned[owner := f.owned[owner] + [t]]
    ensures Agrees(p0, g, log + [Owns(owner, t)])
  {
    var now := log + [Owns(owner, t)];
    assert now[..|log|] == log;
    assert OwnerIs(log, t, None);
    assert forall r :: r in now <==> r in log || r == Owns(owner, t);
    forall v | 0 <= v < |p0| ensures OwnerIs(now, v, g.ownedBy[v]) {
      assert OwnerIs(log, v, f.ownedBy[v]);
    }
  }

  /** Whether a request is honoured. */
  ghost predicate Honoured(f: Forest, depth: seq<nat>, owner: nat, t: nat)
    requires Rooted(f.parent, depth) && owner < |f.parent| == |f.height| == |f.ownedBy| && t < |f.parent|
  {
    && t != 0 && f.ownedBy[t].None?
    && !Under(f.parent, depth, t, owner)
    && depth[owner] + 1 + f.height[t] <= MAX_TREE_DEPTH
  }

  /** What one request does: honoured, it moves the target and raises heights no more than needed; refused, nothing. */
  ghost predicate Stepped(f: Forest, log: seq<Owns>, depth: seq<nat>, r: Option<Owns>, g: Forest, log': seq<Owns>,
                          depth': seq<nat>) {
    && Rooted(f.parent, depth) && |f.parent| == |f.height| == |f.ownedBy| == |f.owned|
    && (r.Some? ==> r.value.owner < |f.parent| && r.value.target < |f.parent|)
    && if r.Some? && Honoured(f, depth, r.value.owner, r.value.target) then
         var owner, t := r.value.owner, r.value.target;
         && g.parent == f.parent[t := Some(owner)] && g.ownedBy == f.ownedBy[t := Some(owner)]
         && g.owned == f.owned[owner := f.owned[owner] + [t]]
         && LeastAbove(g.parent, f.height, g.height)
         && log' == log + [r.value] && depth' == MovedDepths(f.parent, depth, owner, t)
       else g == f && log' == log && depth' == depth
  }

  method TryOwn(f: Forest, owner: nat, t: nat, ghost p0: Parents, ghost log: seq<Owns>, ghost depth: seq<nat>)
    returns (g: Forest, ghost log': seq<Owns>, ghost depth': seq<nat>)
    requires Good(p0, f, log, depth) && owner < |p0| && t < |p0|
    ensures Good(p0, g, log', depth') && Stepped(f, log, depth, Some(Owns(owner, t)), g, log', depth')
    ensures g.parent == if Honoured(f, depth, owner, t) then f.parent[t := Some(owner)] else f.parent
    ensures WithinDepth(depth) ==> WithinDepth(depth')
  {
    g, log', depth' := f, log, depth;
    if t == 0 || t == owner || f.ownedBy[t].Some? { return; }
    var cycle, count := WalkUp(f.parent, owner, t, depth);
    if cycle || count + 1 + f.height[t] > MAX_TREE_DEPTH { return; }
    var parent := f.parent[t := Some(owner)];
    MoveKeepsTree(f.parent, depth, owner, t);
    if WithinDepth(depth) { MoveKeepsDepth(f.parent, depth, f.height, owner, t); }
    depth' := MovedDepths(f.parent, depth, owner, t);
    forall v | 0 <= v < |parent| && v != t ensures CoversEdge(parent, f.height, v) {
      assert CoversEdge(f.parent, f.height, v);
    }
    var height := RaiseHeights(parent, f.height, t, depth');
    g := Forest(parent, height, f.ownedBy[t := Some(owner)], f.owned[owner := f.owned[owner] + [t]]);
    log' := log + [Owns(owner, t)];
    AgreesMore(p0, f, log, owner, t, g);
  }

  // ---- the structural tree ----

  /** Created parent first, as the builder pushes nodes. */
  ghost predicate Structural(p0: Parents) {
    && |p0| > 0 && p0[0].None?
    && forall v :: 0 < v < |p0| ==> p0[v].Some? && p0[v].value < v
  }

  lemma DepthsExtend(p0: Parents, front: seq<nat>)
    requires Structural(p0) && |p0| > 1 && Rooted(p0[..|p0| - 1], front)
    ensures Rooted(p0, front + [front[p0[|p0| - 1].value] + 1])
  {
    var n := |p0| - 1;
    var d := front + [front[p0[n].value] + 1];
    forall v | 0 <= v < |p0| ensures EdgeOk(p0, d, v) {
      if v < n { assert EdgeOk(p0[..n], front, v); }
    }
  }

  /** Depths of the structural tree, front to back. */
  ghost function StructuralDepths(p0: Parents): (d: seq<nat>)
    requires Structural(p0)
    ensures Rooted(p0, d)
    decreases |p0|
  {
    if |p0| == 1 then
      assert EdgeOk(p0, [1], 0); [1]
    else
      var n := |p0| - 1;
      var front := StructuralDepths(p0[..n]);
      DepthsExtend(p0, front);
      front + [front[p0[n].value] + 1]
  }

  /** One pass from the last node to the first, raising each parent above its child. */
  method StructuralHeights(p0: Parents) returns (height: seq<nat>)
    requires Structural(p0)
    ensures HighEnough(p0, height) && forall h :: HighEnough(p0, h) ==> AtLeast(h, height)
  {
    height := seq(|p0|, _ => 0);
    var i := |p0| - 1;
    while i > 0
      invariant 0 <= i < |p0| && |height| == |p0|
      invariant forall v :: i < v < |p0| ==> CoversEdge(p0, height, v)
      invariant forall h :: HighEnough(p0, h) ==> AtLeast(h, height)
    {
      var p := p0[i].value;
      ghost var before := height;
      if height[p] < height[i] + 1 { height := height[p := height[i] + 1]; }
      forall v | i - 1 < v < |p0| ensures CoversEdge(p0, height, v) {
        assert v > i ==> CoversEdge(p0, before, v);
      }
      forall h | HighEnough(p0, h) ensures AtLeast(h, height) {
        assert AtLeast(h, before) && CoversEdge(p0, h, i);
      }
      i := i - 1;
    }
  }

  /** The structural children of `i` among the first `n` nodes, ascending. */
  ghost function KidsOf(p0: Parents, i: nat, n: nat): seq<nat>
    requires n <= |p0|
  {
    if n == 0 then []
    else KidsOf(p0, i, n - 1) + (if p0[n - 1] == Some(i) then [n - 1] else [])
  }

  method StructuralKids(p0: Parents) returns (kids: seq<seq<nat>>)
    requires Structural(p0)
    ensures |kids| == |p0| && forall i :: 0 <= i < |p0| ==> kids[i] == KidsOf(p0, i, |p0|)
  {
    kids := seq(|p0|, _ => []);
    for n := 0 to |p0|
      invariant |kids| == |p0| && forall i :: 0 <= i < |p0| ==> kids[i] == KidsOf(p0, i, n)
    {
      if p0[n].Some? {
        var p := p0[n].value;
        kids := kids[p := kids[p] + [n]];
      }
      forall i | 0 <= i < |p0| ensures kids[i] == KidsOf(p0, i, n + 1) {}
    }
  }

  lemma {:induction false} KidsAre(p0: Parents, i: nat, n: nat)
    requires n <= |p0|
    ensures forall c: nat :: c in KidsOf(p0, i, n) <==> c < n && p0[c] == Some(i)
    ensures Unrepeated(KidsOf(p0, i, n))
  {
    if n > 0 { KidsAre(p0, i, n - 1); }
  }

  ghost predicate InRange(list: seq<nat>, n: nat) {
    forall k :: 0 <= k < |list| ==> list[k] < n
  }

  lemma KidsInRange(p0: Parents, i: nat)
    ensures InRange(KidsOf(p0, i, |p0|), |p0|)
  {
    KidsAre(p0, i, |p0|);
    forall k | 0 <= k < |KidsOf(p0, i, |p0|)| ensures KidsOf(p0, i, |p0|)[k] < |p0| {
      assert KidsOf(p0, i, |p0|)[k] in KidsOf(p0, i, |p0|);
    }
  }

  // ---- the owns loop ----

  /** One owner and what its `aria-owns` names, `None` where the target has no node. */
  datatype Request = Request(owner: nat, targets: seq<Option<nat>>)

  ghost predicate ValidRequests(reqs: seq<Request>, n: nat) {
    forall i :: 0 <= i < |reqs| ==>
      reqs[i].owner < n && forall k :: 0 <= k < |reqs[i].targets| && reqs[i].targets[k].Some? ==>
          reqs[i].targets[k].value < n
  }

  /** What one owner asks for, in order, `None` where the target has no node. */
  function Wants(r: Request): (ws: seq<Option<Owns>>)
    ensures |ws| <= MAX_OWNS_PER_NODE
  {
    var n := if |r.targets| > MAX_OWNS_PER_NODE then MAX_OWNS_PER_NODE else |r.targets|;
    seq(n, k requires 0 <= k < n => if r.targets[k].Some? then Some(Owns(r.owner, r.targets[k].value)) else None)
  }

  /** All that is asked for, in document order. */
  ghost function AllWants(reqs: seq<Request>): seq<Option<Owns>> {
    if reqs == [] then [] else AllWants(reqs[..|reqs| - 1]) + Wants(reqs[|reqs| - 1])
  }

  /** Taking the wishes one after the other leads from the first forest to this one. */
  ghost predicate Ran(f0: Forest, depth0: seq<nat>, wants: seq<Option<Owns>>, f: Forest, log: seq<Owns>,
                      depth: seq<nat>)
    decreases |wants|, 0
  {
    if wants == [] then f == f0 && log == [] && depth == depth0
    else RanLast(f0, depth0, wants[..|wants| - 1], wants[|wants| - 1], f, log, depth)
  }

  ghost predicate RanLast(f0: Forest, depth0: seq<nat>, front: seq<Option<Owns>>, last: Option<Owns>, f: Forest,
                          log: seq<Owns>, depth: seq<nat>)
    decreases |front|, 1
  {
    exists g, log1, depth1 :: Ran(f0, depth0, front, g, log1, depth1) && Stepped(g, log1, depth1, last, f, log, depth)
  }

  /** The state of the loop after some wishes. */
  ghost predicate Honouring(f0: Forest, depth0: seq<nat>, wants: seq<Option<Owns>>, f: Forest, log: seq<Owns>,
                            depth: seq<nat>) {
    && Good(f0.parent, f, log, depth) && Ran(f0, depth0, wants, f, log, depth)
    && (WithinDepth(depth0) ==> WithinDepth(depth))
  }

  /** Take one wish. */
  method TakeWish(f: Forest, w: Option<Owns>, ghost f0: Forest, ghost depth0: seq<nat>, ghost wants: seq<Option<Owns>>,
                  ghost log: seq<Owns>, ghost depth: seq<nat>)
    returns (g: Forest, ghost log': seq<Owns>, ghost depth': seq<nat>)
    requires Honouring(f0, depth0, wants, f, log, depth)
    requires w.Some? ==> w.value.owner < |f0.parent| && w.value.target < |f0.parent|
    ensures Honouring(f0, depth0, wants + [w], g, log', depth')
  {
    g, log', depth' := f, log, depth;
    if w.Some? { g, log', depth' := TryOwn(f, w.value.owner, w.value.target, f0.parent, log, depth); }
    assert (wants + [w])[..|wants|] == wants;
    assert RanLast(f0, depth0, wants, w, g, log', depth');
  }

  lemma LeastIsUnique(parent: Parents, height: seq<nat>, a: seq<nat>, b: seq<nat>)
    requires LeastAbove(parent, height, a) && LeastAbove(parent, height, b)
    ensures a == b
  {
    assert AtLeast(a, b) && AtLeast(b, a);
  }

  /** The wishes decide the outcome: there is only one way to take them in turn. */
  lemma {:induction false} RanIsUnique(f0: Forest, depth0: seq<nat>, wants: seq<Option<Owns>>,
                                       f: Forest, log: seq<Owns>, depth: seq<nat>, f': Forest, log': seq<Owns>,
                                           depth': seq<nat>)
    requires Ran(f0, depth0, wants, f, log, depth) && Ran(f0, depth0, wants, f', log', depth')
    ensures f == f' && log == log' && depth == depth'
    decreases |wants|
  {
    if wants != [] {
      var front, last := wants[..|wants| - 1], wants[|wants| - 1];
      var g, log1, depth1 :| Ran(f0, depth0, front, g, log1, depth1) && Stepped(g, log1, depth1, last, f, log, depth);
      var g', log1', depth1' :| Ran(f0, depth0, front, g', log1', depth1')
          && Stepped(g', log1', depth1', last, f', log', depth');
      RanIsUnique(f0, depth0, front, g, log1, depth1, g', log1', depth1');
      if last.Some? && Honoured(g, depth1, last.value.owner, last.value.target) {
        LeastIsUnique(f.parent, g.height, f.height, f'.height);
      }
    }
  }

  /** The wishes that count: at most `MAX_OWNS` of them. */
  ghost function Counted(wants: seq<Option<Owns>>): seq<Option<Owns>> {
    if |wants| > MAX_OWNS then wants[..MAX_OWNS] else wants
  }

  lemma {:induction false} AllWantsFront(reqs: seq<Request>, i: nat)
    requires i <= |reqs|
    ensures AllWants(reqs[..i]) <= AllWants(reqs)
    decreases |reqs|
  {
    if i < |reqs| {
      var front := reqs[..|reqs| - 1];
      assert front[..i] == reqs[..i];
      AllWantsFront(front, i);
    } else {
      assert reqs[..i] == reqs;
    }
  }

  lemma CutShort(reqs: seq<Request>, i: nat, k: nat, wants: seq<Option<Owns>>)
    requires i < |reqs| && k < |Wants(reqs[i])| && |wants| == MAX_OWNS
    requires wants == AllWants(reqs[..i]) + Wants(reqs[i])[..k]
    ensures |AllWants(reqs)| > MAX_OWNS && wants == Counted(AllWants(reqs))
  {
    AllWantsFront(reqs, i + 1);
    var upto := reqs[..i + 1];
    assert upto[..|upto| - 1] == reqs[..i];
    var all := AllWants(upto);
    assert all == AllWants(reqs[..i]) + Wants(reqs[i]);
    assert all[..MAX_OWNS] == wants && |all| > MAX_OWNS;
  }

  /** The wishes of one owner, up to the cap; `k` of them were taken. */
  method HonourOne(f: Forest, targets: seq<Option<Owns>>, processed: nat, ghost f0: Forest, ghost depth0: seq<nat>,
                   ghost wants: seq<Option<Owns>>, ghost log: seq<Owns>, ghost depth: seq<nat>)
    returns (k: nat, g: Forest, processed': nat, ghost wants': seq<Option<Owns>>, ghost log': seq<Owns>,
        ghost depth': seq<nat>)
    requires Honouring(f0, depth0, wants, f, log, depth) && processed == |wants| <= MAX_OWNS
    requires forall i :: 0 <= i < |targets| && targets[i].Some? ==>
               targets[i].value.owner < |f0.parent| && targets[i].value.target < |f0.parent|
    ensures Honouring(f0, depth0, wants', g, log', depth') && processed' == |wants'| <= MAX_OWNS
    ensures k <= |targets| && wants' == wants + targets[..k] && (k < |targets| ==> processed' == MAX_OWNS)
  {
    k, g, processed', wants', log', depth' := 0, f, processed, wants, log, depth;
    while k < |targets| && processed' < MAX_OWNS
      invariant Honouring(f0, depth0, wants', g, log', depth') && processed' == |wants'| <= MAX_OWNS
      invariant k <= |targets| && wants' == wants + targets[..k]
    {
      processed' := processed' + 1;
      g, log', depth' := TakeWish(g, targets[k], f0, depth0, wants', log', depth');
      assert targets[..k + 1] == targets[..k] + [targets[k]];
      wants' := wants' + [targets[k]];
      k := k + 1;
    }
  }

  /** Every wish that counts is taken in turn; the rest are cut off, and that is reported. */
  method HonourOwns(f0: Forest, reqs: seq<Request>, ghost depth0: seq<nat>)
    returns (f: Forest, truncated: bool, ghost log: seq<Owns>, ghost depth: seq<nat>)
    requires Good(f0.parent, f0, [], depth0) && ValidRequests(reqs, |f0.parent|)
    ensures Honouring(f0, depth0, Counted(AllWants(reqs)), f, log, depth)
    ensures truncated <==> |AllWants(reqs)| > MAX_OWNS
  {
    f, truncated, log, depth := f0, false, [], depth0;
    var processed := 0;
    ghost var wants: seq<Option<Owns>> := [];
    for i := 0 to |reqs|
      invariant Honouring(f0, depth0, wants, f, log, depth)
      invariant wants == AllWants(reqs[..i]) && |wants| <= MAX_OWNS && processed == |wants|
    {
      var k;
      k, f, processed, wants, log, depth := HonourOne(f, Wants(reqs[i]), processed, f0, depth0, wants, log, depth);
      if k < |Wants(reqs[i])| {
        CutShort(reqs, i, k, wants);
        return f, true, log, depth;
      }
      assert Wants(reqs[i])[..k] == Wants(reqs[i]);
      assert reqs[..i + 1][..i] == reqs[..i];
    }
    assert reqs[..|reqs|] == reqs;
  }

  // ---- final child lists ----

  /** Keep the structural children that nobody came to own. */
  ghost function Kept(list: seq<nat>, ownedBy: seq<Option<nat>>): seq<nat>
    requires InRange(list, |ownedBy|)
  {
    if list == [] then []
    else
      var n := |list| - 1;
      Kept(list[..n], ownedBy) + (if ownedBy[list[n]].None? then [list[n]] else [])
  }

  lemma {:induction false} KeptAre(list: seq<nat>, ownedBy: seq<Option<nat>>)
    requires InRange(list, |ownedBy|) && Unrepeated(list)
    ensures forall c: nat :: c in Kept(list, ownedBy) <==> c in list && c < |ownedBy| && ownedBy[c].None?
    ensures Unrepeated(Kept(list, ownedBy))
    decreases |list|
  {
    if list != [] {
      var n := |list| - 1;
      KeptAre(list[..n], ownedBy);
      assert list == list[..n] + [list[n]];
    }
  }

  lemma UnrepeatedAppend(a: seq<nat>, b: seq<nat>)
    requires Unrepeated(a) && Unrepeated(b) && forall c :: c in a ==> c !in b
    ensures Unrepeated(a + b)
  {
    forall i, j | 0 <= i < j < |a + b| ensures (a + b)[i] != (a + b)[j] {
      if i < |a| <= j { assert a[i] in a && b[j - |a|] in b; }
    }
  }

  lemma {:induction false} OwnedAre(log: seq<Owns>, i: nat)
    requires OnceEach(log)
    ensures forall c: nat :: c in OwnedOf(log, i) <==> Owns(i, c) in log
    ensures Unrepeated(OwnedOf(log, i))
    decreases |log|
  {
    if log != [] {
      var n := |log| - 1;
      var before, front, last := log[..n], OwnedOf(log[..n], i), log[n];
      OwnedAre(before, i);
      assert log == before + [last];
      assert forall r :: r in log <==> r in before || r == last;
      if last.owner == i {
        assert forall j :: 0 <= j < n ==> log[j].target != log[n].target;
        assert forall r :: r in before ==> r.target != last.target;
        UnrepeatedAppend(front, [last.target]);
      }
    }
  }

  /** The list of one node: surviving structural children in document order, then owned ones in order of acceptance. */
  ghost function FinalKids(p0: Parents, f: Forest, i: nat): seq<nat>
    requires |f.ownedBy| == |p0| == |f.owned| && i < |p0|
  {
    KidsInRange(p0, i);
    Kept(KidsOf(p0, i, |p0|), f.ownedBy) + f.owned[i]
  }

  method RetainKept(list: seq<nat>, i: nat, p0: Parents, f: Forest, ghost log: seq<Owns>) returns (out: seq<nat>)
    requires Agrees(p0, f, log) && i < |p0| && InRange(list, |p0|)
    requires forall k :: 0 <= k < |list| ==> p0[list[k]] == Some(i)
    ensures out == Kept(list, f.ownedBy)
  {
    out := [];
    for k := 0 to |list|
      invariant out == Kept(list[..k], f.ownedBy)
    {
      var c := list[k];
      assert list[..k + 1][..k] == list[..k];
      if f.parent[c] == Some(i) && f.ownedBy[c].None? { out := out + [c]; }
    }
    assert list[..|list|] == list;
  }

  method FinalLists(p0: Parents, f: Forest, kids0: seq<seq<nat>>, ghost log: seq<Owns>) returns (kids: seq<seq<nat>>)
    requires Agrees(p0, f, log) && |kids0| == |p0| && forall i :: 0 <= i < |p0| ==> kids0[i] == KidsOf(p0, i, |p0|)
    ensures |kids| == |p0| && forall i :: 0 <= i < |p0| ==> kids[i] == FinalKids(p0, f, i)
  {
    kids := kids0;
    for i := 0 to |p0|
      invariant |kids| == |p0|
      invariant forall k :: 0 <= k < i ==> kids[k] == FinalKids(p0, f, k)
      invariant forall k :: i <= k < |p0| ==> kids[k] == KidsOf(p0, k, |p0|)
    {
      KidsAre(p0, i, |p0|);
      KidsInRange(p0, i);
      forall k | 0 <= k < |kids[i]| ensures p0[kids[i][k]] == Some(i) { assert kids[i][k] in kids[i]; }
      var kept := RetainKept(kids[i], i, p0, f, log);
      kids := kids[i := kept + f.owned[i]];
    }
  }

  lemma OnlyOwner(log: seq<Owns>, c: nat, o: Option<nat>, i: nat)
    requires OnceEach(log) && OwnerIs(log, c, o)
    ensures Owns(i, c) in log <==> o == Some(i)
  {
    if Owns(i, c) in log && o.Some? {
      var a :| 0 <= a < |log| && log[a] == Owns(i, c);
      var b :| 0 <= b < |log| && log[b] == Owns(o.value, c);
      assert a == b;
    }
  }

  lemma FinalKidsAreChildren(p0: Parents, f: Forest, log: seq<Owns>, i: nat)
    requires Structural(p0) && Agrees(p0, f, log) && i < |p0|
    ensures forall c: nat :: c in FinalKids(p0, f, i) <==> c < |p0| && f.parent[c] == Some(i)
    ensures Unrepeated(FinalKids(p0, f, i))
  {
    KidsAre(p0, i, |p0|);
    KidsInRange(p0, i);
    var list := KidsOf(p0, i, |p0|);
    var kept, owned := Kept(list, f.ownedBy), f.owned[i];
    KeptAre(list, f.ownedBy);
    OwnedAre(log, i);
    forall c: nat | c < |p0| ensures c in owned <==> f.ownedBy[c] == Some(i) {
      assert OwnerIs(log, c, f.ownedBy[c]);
      OnlyOwner(log, c, f.ownedBy[c], i);
    }
    forall c: nat | c in owned ensures c < |p0| { assert Owns(i, c) in log; }
    assert forall c: nat :: c in kept + owned <==> c in kept || c in owned;
    UnrepeatedAppend(kept, owned);
  }

  // ---- the finished tree ----

  datatype Tree = Tree(parent: Parents, kids: seq<seq<nat>>, sibling: seq<nat>, truncated: bool)

  ghost predicate ListOk(t: Tree, i: nat)
    requires i < |t.kids|
  {
    && Unrepeated(t.kids[i])
    && forall c: nat :: c in t.kids[i] <==> c < |t.parent| && t.parent[c] == Some(i)
  }

  ghost predicate PlaceOk(t: Tree, c: nat)
    requires c < |t.parent| == |t.sibling| == |t.kids|
  {
    && t.parent[c].Some? && t.parent[c].value < |t.kids|
    && t.sibling[c] < |t.kids[t.parent[c].value]|
    && t.kids[t.parent[c].value][t.sibling[c]] == c
  }

  /**
    One tree rooted at node 0; every other node is in exactly one child list,
    its parent's, once, at its sibling index.
   */
  ghost predicate IsTree(t: Tree, depth: seq<nat>) {
    && Rooted(t.parent, depth)
    && |t.kids| == |t.sibling| == |t.parent|
    && (forall i :: 0 <= i < |t.kids| ==> ListOk(t, i))
    && (forall c :: 0 < c < |t.parent| ==> PlaceOk(t, c))
  }

  method SiblingIndices(parent: Parents, kids: seq<seq<nat>>, ghost depth: seq<nat>) returns (sibling: seq<nat>)
    requires Rooted(parent, depth) && |kids| == |parent|
    requires forall i :: 0 <= i < |kids| ==> ListOk(Tree(parent, kids, [], false), i)
    ensures |sibling| == |parent|
    ensures forall i, k :: 0 <= i < |kids| && 0 <= k < |kids[i]| ==> kids[i][k] < |sibling| && sibling[kids[i][k]] == k
  {
    sibling := seq(|parent|, _ => 0);
    for i := 0 to |kids|
      invariant |sibling| == |parent|
      invariant forall a, b :: 0 <= a < i && 0 <= b < |kids[a]| ==> kids[a][b] < |sibling| && sibling[kids[a][b]] == b
    {
      assert ListOk(Tree(parent, kids, [], false), i);
      for k := 0 to |kids[i]|
        invariant |sibling| == |parent|
        invariant forall a, b :: 0 <= a < i && 0 <= b < |kids[a]| ==> kids[a][b] < |sibling| && sibling[kids[a][b]] == b
        invariant forall b :: 0 <= b < k ==> kids[i][b] < |sibling| && sibling[kids[i][b]] == b
      {
        var c := kids[i][k];
        assert c in kids[i];
        forall a, b | 0 <= a < i && 0 <= b < |kids[a]| ensures kids[a][b] != c {
          assert ListOk(Tree(parent, kids, [], false), a);
          assert kids[a][b] in kids[a];
        }
        sibling := sibling[c := k];
      }
    }
  }

  lemma PlacesFollow(t: Tree, depth: seq<nat>)
    requires Rooted(t.parent, depth) && |t.kids| == |t.sibling| == |t.parent|
    requires forall i :: 0 <= i < |t.kids| ==> ListOk(t, i)
    requires forall i, k :: 0 <= i < |t.kids| && 0 <= k < |t.kids[i]| ==>
            t.kids[i][k] < |t.sibling| && t.sibling[t.kids[i][k]] == k
    ensures IsTree(t, depth)
  {
    forall c | 0 < c < |t.parent| ensures PlaceOk(t, c) {
      assert EdgeOk(t.parent, depth, c);
      var p := t.parent[c].value;
      assert ListOk(t, p);
      assert c in t.kids[p];
      var k :| 0 <= k < |t.kids[p]| && t.kids[p][k] == c;
    }
  }

  ghost predicate ListsFrom(p0: Parents, f: Forest, t: Tree) {
    && f.parent == t.parent && |f.ownedBy| == |f.owned| == |p0| == |t.kids|
    && forall i :: 0 <= i < |p0| ==> t.kids[i] == FinalKids(p0, f, i)
  }

  /** The log decides parents and child lists: survivors in document order, then owned nodes in order of acceptance. */
  ghost predicate ListsFollow(p0: Parents, log: seq<Owns>, t: Tree) {
    exists f :: Agrees(p0, f, log) && ListsFrom(p0, f, t)
  }

  /** The arrays before the first request. */
  ghost predicate Unowned(p0: Parents, f: Forest) {
    && f.parent == p0 && |f.ownedBy| == |f.owned| == |p0|
    && (forall v :: 0 <= v < |p0| ==> f.ownedBy[v].None? && f.owned[v] == [])
    && HighEnough(p0, f.height) && forall h :: HighEnough(p0, h) ==> AtLeast(h, f.height)
  }

  /** The log is what taking the wishes in turn accepts, from the structural tree with its exact heights. */
  ghost predicate OwnsLog(p0: Parents, reqs: seq<Request>, t: Tree, log: seq<Owns>, depth: seq<nat>)
    requires Structural(p0)
  {
    exists f0: Forest, f: Forest ::
        Unowned(p0, f0) && f.parent == t.parent && Ran(f0, StructuralDepths(p0), Counted(AllWants(reqs)), f, log, depth)
  }

  /** The finished child lists and places, once the parents are settled. */
  method Assemble(p0: Parents, f: Forest, truncated: bool, ghost log: seq<Owns>, ghost depth: seq<nat>)
    returns (t: Tree)
    requires Structural(p0) && Good(p0, f, log, depth)
    ensures t.parent == f.parent && t.truncated == truncated && IsTree(t, depth) && ListsFrom(p0, f, t)
  {
    var kids0 := StructuralKids(p0);
    var kids := FinalLists(p0, f, kids0, log);
    forall i | 0 <= i < |kids| ensures ListOk(Tree(f.parent, kids, [], false), i) {
      FinalKidsAreChildren(p0, f, log, i);
    }
    var sibling := SiblingIndices(f.parent, kids, depth);
    t := Tree(f.parent, kids, sibling, truncated);
    forall i | 0 <= i < |kids| ensures ListOk(t, i) { assert ListOk(Tree(f.parent, kids, [], false), i); }
    PlacesFollow(t, depth);
  }

  /** An accepted request decides its target's parent; every other node keeps its own. */
  lemma ParentsFollow(p0: Parents, f: Forest, log: seq<Owns>)
    requires Agrees(p0, f, log)
    ensures forall r :: r in log ==> r.target < |p0| && f.parent[r.target] == Some(r.owner)
    ensures forall v :: 0 <= v < |p0| && (forall r :: r in log ==> r.target != v) ==> f.parent[v] == p0[v]
  {
    forall v | 0 <= v < |p0| && (forall r :: r in log ==> r.target != v) ensures f.parent[v] == p0[v] {
      assert OwnerIs(log, v, f.ownedBy[v]);
    }
    forall r | r in log ensures f.parent[r.target] == Some(r.owner) {
      assert OwnerIs(log, r.target, f.ownedBy[r.target]);
      OnlyOwner(log, r.target, f.ownedBy[r.target], r.owner);
    }
  }

  /** The finished tree from the structural parents and the requests in document order; `cut` if nodes were left out. */
  method Finish(p0: Parents, reqs: seq<Request>, cut: bool)
    returns (t: Tree, ghost log: seq<Owns>, ghost depth: seq<nat>)
    requires Structural(p0) && ValidRequests(reqs, |p0|)
    ensures |t.parent| == |p0| && IsTree(t, depth) && ListsFollow(p0, log, t)
    ensures WithinDepth(StructuralDepths(p0)) ==> WithinDepth(depth)
    ensures OwnsLog(p0, reqs, t, log, depth) && (t.truncated <==> cut || |AllWants(reqs)| > MAX_OWNS)
    ensures OnceEach(log) && forall r :: r in log ==> r.target < |p0| && t.parent[r.target] == Some(r.owner)
    ensures forall v :: 0 <= v < |p0| && (forall r :: r in log ==> r.target != v) ==> t.parent[v] == p0[v]
  {
    var height := StructuralHeights(p0);
    var f0 := Forest(p0, height, seq(|p0|, _ => None), seq(|p0|, _ => []));
    assert Unowned(p0, f0);
    var f, over;
    f, over, log, depth := HonourOwns(f0, reqs, StructuralDepths(p0));
    t := Assemble(p0, f, cut || over, log, depth);
    ParentsFollow(p0, f, log);
  }

  // ---- siblings ----

  function NextSibling(t: Tree, c: nat): Option<nat>
    requires c < |t.parent| == |t.sibling| == |t.kids|
  {
    if t.parent[c].Some? && t.parent[c].value < |t.kids| && t.sibling[c] + 1 < |t.kids[t.parent[c].value]|
    then Some(t.kids[t.parent[c].value][t.sibling[c] + 1]) else None
  }

  function PrevSibling(t: Tree, c: nat): Option<nat>
    requires c < |t.parent| == |t.sibling| == |t.kids|
  {
    if t.parent[c].Some? && t.parent[c].value < |t.kids| && 0 < t.sibling[c] <= |t.kids[t.parent[c].value]|
    then Some(t.kids[t.parent[c].value][t.sibling[c] - 1]) else None
  }

  /** Stepping forward and back along siblings returns, and stays under one parent. */
  lemma SiblingsAreInverse(t: Tree, depth: seq<nat>, c: nat, d: nat)
    requires IsTree(t, depth) && c < |t.parent| && d < |t.parent|
    ensures NextSibling(t, c) == Some(d) <==> PrevSibling(t, d) == Some(c)
    ensures NextSibling(t, c) == Some(d) ==> t.parent[c] == t.parent[d] && c != d
  {
    assert EdgeOk(t.parent, depth, c) && EdgeOk(t.parent, depth, d);
    if NextSibling(t, c) == Some(d) {
      var p := t.parent[c].value;
      assert PlaceOk(t, c) && ListOk(t, p);
      assert d in t.kids[p];
      assert PlaceOk(t, d);
    }
    if PrevSibling(t, d) == Some(c) {
      var p := t.parent[d].value;
      assert PlaceOk(t, d) && ListOk(t, p);
      assert c in t.kids[p];
      assert PlaceOk(t, c);
    }
  }
}
