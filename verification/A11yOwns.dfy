/**
  Laws of the finished tree (crates/px-a11y/src/tree.rs, `Builder::finish`),
  told from the structural parents and the requests: which requests are honoured
  and which refused, the order of every child list, and document order.
 */
module A11yOwns {
  import opened Common
  import opened A11yTree
  import opened A11yWalk
  import A11yWire

  // ---- where a wish stands in the order ----

  /** How many wishes the first `i` requests have, at most 64 of each. */
  ghost function WishesBefore(reqs: seq<Request>, i: nat): nat
    requires i <= |reqs|
  {
    if i == 0 then 0
    else WishesBefore(reqs, i - 1) + (if |reqs[i - 1].targets| > 64 then 64 else |reqs[i - 1].targets|)
  }

  lemma {:induction false} WishesAreCounted(reqs: seq<Request>, i: nat)
    requires i <= |reqs|
    ensures |AllWants(reqs[..i])| == WishesBefore(reqs, i)
    decreases i
  {
    if i > 0 {
      assert reqs[..i][..i - 1] == reqs[..i - 1];
      WishesAreCounted(reqs, i - 1);
    }
  }

  /** Wishes come in document order of their owners, each owner's in the order written, 64 of them at most. */
  lemma WishIsPlaced(reqs: seq<Request>, i: nat, k: nat)
    requires i < |reqs| && k < |reqs[i].targets| && k < 64
    ensures var at, target := WishesBefore(reqs, i) + k, reqs[i].targets[k];
            && at < WishesBefore(reqs, |reqs|) == |AllWants(reqs)|
            && AllWants(reqs)[at] == (if target.Some? then Some(Owns(reqs[i].owner, target.value)) else None)
  {
    assert reqs[..|reqs|] == reqs;
    WishesAreCounted(reqs, |reqs|);
    WishesAreCounted(reqs, i);
    WishesAreCounted(reqs, i + 1);
    AllWantsFront(reqs, i + 1);
    var upto := reqs[..i + 1];
    assert upto[..i] == reqs[..i];
    assert AllWants(upto) == AllWants(reqs[..i]) + Wants(reqs[i]);
    assert AllWants(upto)[WishesBefore(reqs, i) + k] == Wants(reqs[i])[k];
  }

  // ---- which wishes are honoured ----

  /** What is known between two wishes: parents, depths, the heights counted on and the wishes honoured so far. */
  datatype Moment = Moment(parent: Parents, depth: seq<nat>, height: seq<nat>, log: seq<Owns>)

  /** The parents that the honoured wishes give: the owner's, or the structural one. */
  ghost predicate ParentsBy(p0: Parents, log: seq<Owns>, parent: Parents) {
    && |parent| == |p0|
    && (forall r :: r in log ==> r.target < |p0| && parent[r.target] == Some(r.owner))
    && (forall v :: 0 <= v < |p0| && (forall r :: r in log ==> r.target != v) ==> parent[v] == p0[v])
  }

  /**
    A wish is honoured unless it is for the document, its target was taken
    already, the owner is the target or below it, or a node would end up too deep.
   */
  ghost predicate Admissible(m: Moment, w: Owns)
    requires Rooted(m.parent, m.depth) && |m.height| == |m.parent| && w.owner < |m.parent| && w.target < |m.parent|
  {
    && w.target != 0
    && (forall r :: r in m.log ==> r.target != w.target)
    && !Under(m.parent, m.depth, w.target, w.owner)
    && m.depth[w.owner] + 1 + m.height[w.target] <= 1024
  }

  ghost predicate MomentOk(p0: Parents, m: Moment) {
    ParentsBy(p0, m.log, m.parent) && Rooted(m.parent, m.depth) && HighEnough(m.parent, m.height)
  }

  /** One wish: honoured if admissible, and heights are raised as little as the new edge needs. */
  ghost predicate Passes(p0: Parents, m: Moment, w: Option<Owns>, m': Moment) {
    && MomentOk(p0, m) && MomentOk(p0, m')
    && (w.Some? ==> w.value.owner < |p0| && w.value.target < |p0|)
    && m'.log == m.log + (if w.Some? && Admissible(m, w.value) then [w.value] else [])
    && LeastAbove(m'.parent, m.height, m'.height)
  }

  /** A course of wishes, one moment between each two. */
  ghost predicate Course(p0: Parents, wants: seq<Option<Owns>>, ms: seq<Moment>) {
    && |ms| == |wants| + 1
    && forall k :: 0 <= k < |wants| ==> Passes(p0, ms[k], wants[k], ms[k + 1])
  }

  lemma {:induction false} DepthIsUnique(parent: Parents, d: seq<nat>, e: seq<nat>, v: nat)
    requires Rooted(parent, d) && Rooted(parent, e) && v < |parent|
    ensures d[v] == e[v]
    decreases d[v]
  {
    assert EdgeOk(parent, d, v) && EdgeOk(parent, e, v);
    if v != 0 { DepthIsUnique(parent, d, e, parent[v].value); }
  }

  /** Heights that cover every edge need no raising. */
  lemma CoveredStays(parent: Parents, height: seq<nat>)
    requires HighEnough(parent, height)
    ensures LeastAbove(parent, height, height)
  {
  }

  lemma ParentsByLog(p0: Parents, f: Forest, log: seq<Owns>)
    requires Agrees(p0, f, log)
    ensures ParentsBy(p0, log, f.parent)
  {
    ParentsFollow(p0, f, log);
  }

  lemma StepPasses(p0: Parents, f: Forest, log: seq<Owns>, depth: seq<nat>, w: Option<Owns>,
                   g: Forest, log': seq<Owns>, depth': seq<nat>)
    requires Good(p0, f, log, depth) && Stepped(f, log, depth, w, g, log', depth')
    ensures Good(p0, g, log', depth')
    ensures Passes(p0, Moment(f.parent, depth, f.height, log), w, Moment(g.parent, depth', g.height, log'))
  {
    ParentsByLog(p0, f, log);
    if w.Some? {
      var o, t := w.value.owner, w.value.target;
      assert OwnerIs(log, t, f.ownedBy[t]);
      if Honoured(f, depth, o, t) {
        MoveKeepsTree(f.parent, depth, o, t);
        AgreesMore(p0, f, log, o, t, g);
        ParentsByLog(p0, g, log');
      } else {
        CoveredStays(f.parent, f.height);
      }
    } else {
      CoveredStays(f.parent, f.height);
    }
  }

  ghost function MomentOf(f: Forest, log: seq<Owns>, depth: seq<nat>): Moment {
    Moment(f.parent, depth, f.height, log)
  }

  lemma CourseGrows(p0: Parents, wants: seq<Option<Owns>>, ms: seq<Moment>, w: Option<Owns>, m: Moment)
    requires Course(p0, wants, ms) && Passes(p0, ms[|wants|], w, m)
    ensures Course(p0, wants + [w], ms + [m])
  {
  }

  lemma {:induction false} RanIsCourse(f0: Forest, depth0: seq<nat>, wants: seq<Option<Owns>>, f: Forest,
                                       log: seq<Owns>, depth: seq<nat>) returns (ms: seq<Moment>)
    requires Good(f0.parent, f0, [], depth0) && Ran(f0, depth0, wants, f, log, depth)
    ensures Course(f0.parent, wants, ms) && Good(f0.parent, f, log, depth)
    ensures ms[0] == MomentOf(f0, [], depth0) && ms[|wants|] == MomentOf(f, log, depth)
    decreases |wants|
  {
    if wants == [] {
      ms := [MomentOf(f0, [], depth0)];
    } else {
      var front, last := wants[..|wants| - 1], wants[|wants| - 1];
      var g, log1, depth1 :| Ran(f0, depth0, front, g, log1, depth1) && Stepped(g, log1, depth1, last, f, log, depth);
      ms := RanIsCourse(f0, depth0, front, g, log1, depth1);
      StepPasses(f0.parent, g, log1, depth1, last, f, log, depth);
      CourseGrows(f0.parent, front, ms, last, MomentOf(f, log, depth));
      assert front + [last] == wants;
      ms := ms + [MomentOf(f, log, depth)];
    }
  }

  /** Before the first wish: the structural tree, nothing honoured, heights no larger than they must be. */
  ghost predicate AtFirst(p0: Parents, m: Moment) {
    && m.parent == p0 && m.log == [] && Rooted(p0, m.depth)
    && HighEnough(p0, m.height) && forall h :: HighEnough(p0, h) ==> AtLeast(h, m.height)
  }

  /** The wishes of a document that are looked at: the first ten thousand. */
  ghost predicate LookedAt(reqs: seq<Request>, wants: seq<Option<Owns>>) {
    wants <= AllWants(reqs) && |wants| == if |AllWants(reqs)| < 10_000 then |AllWants(reqs)| else 10_000
  }

  /** The finished tree is the end of a course of the wishes in their order, each honoured exactly if admissible. */
  lemma WishesAreHonoured(p0: Parents, reqs: seq<Request>, t: Tree, log: seq<Owns>, depth: seq<nat>)
    returns (wants: seq<Option<Owns>>, ms: seq<Moment>)
    requires Structural(p0) && OwnsLog(p0, reqs, t, log, depth)
    ensures LookedAt(reqs, wants) && Course(p0, wants, ms) && AtFirst(p0, ms[0])
    ensures ms[|wants|].parent == t.parent && ms[|wants|].depth == depth && ms[|wants|].log == log
  {
    wants := Counted(AllWants(reqs));
    var f0: Forest, f: Forest :|
      Unowned(p0, f0) && f.parent == t.parent && Ran(f0, StructuralDepths(p0), wants, f, log, depth);
    assert Agrees(p0, f0, []);
    ms := RanIsCourse(f0, StructuralDepths(p0), wants, f, log, depth);
  }

  lemma ParentsAreDecided(p0: Parents, log: seq<Owns>, a: Parents, b: Parents)
    requires ParentsBy(p0, log, a) && ParentsBy(p0, log, b)
    ensures a == b
  {
    forall v | 0 <= v < |p0| ensures a[v] == b[v] {
      if r :| r in log && r.target == v { assert a[v] == Some(r.owner) == b[v]; }
    }
  }

  lemma MomentIsDecided(p0: Parents, a: Moment, b: Moment, w: Option<Owns>, a': Moment, b': Moment)
    requires Passes(p0, a, w, a') && Passes(p0, b, w, b') && a == b
    ensures a' == b'
  {
    assert a'.log == b'.log;
    ParentsAreDecided(p0, a'.log, a'.parent, b'.parent);
    forall v | 0 <= v < |p0| ensures a'.depth[v] == b'.depth[v] { DepthIsUnique(a'.parent, a'.depth, b'.depth, v); }
    LeastIsUnique(a'.parent, a.height, a'.height, b'.height);
  }

  lemma FirstIsDecided(p0: Parents, a: Moment, b: Moment)
    requires AtFirst(p0, a) && AtFirst(p0, b)
    ensures a == b
  {
    forall v | 0 <= v < |p0| ensures a.depth[v] == b.depth[v] { DepthIsUnique(p0, a.depth, b.depth, v); }
    assert AtLeast(a.height, b.height) && AtLeast(b.height, a.height);
  }

  /** There is one course of the wishes: who ends up where is decided by the rule alone. */
  lemma {:induction false} CourseIsUnique(p0: Parents, wants: seq<Option<Owns>>, ms: seq<Moment>, ns: seq<Moment>,
                                          k: nat)
    requires Course(p0, wants, ms) && Course(p0, wants, ns) && AtFirst(p0, ms[0]) && AtFirst(p0, ns[0]) && k <= |wants|
    ensures ms[k] == ns[k]
    decreases k
  {
    if k == 0 {
      FirstIsDecided(p0, ms[0], ns[0]);
    } else {
      CourseIsUnique(p0, wants, ms, ns, k - 1);
      MomentIsDecided(p0, ms[k - 1], ns[k - 1], wants[k - 1], ms[k], ns[k]);
    }
  }

  // ---- heights ----

  lemma LoweringCovers(parent: Parents, depth: seq<nat>, height: seq<nat>, v: nat)
    requires Rooted(parent, depth) && HighEnough(parent, height) && v < |parent| && height[v] > 0
    requires forall c :: 0 <= c < |parent| && parent[c] == Some(v) ==> height[c] + 1 != height[v]
    ensures HighEnough(parent, height[v := height[v] - 1]) && !AtLeast(height[v := height[v] - 1], height)
  {
    var h := height[v := height[v] - 1];
    forall c | 0 <= c < |parent| ensures CoversEdge(parent, h, c) {
      assert CoversEdge(parent, height, c) && EdgeOk(parent, depth, c);
    }
    assert h[v] < height[v];
  }

  /** Least heights are no larger than some child asks for. */
  lemma TightChild(parent: Parents, depth: seq<nat>, height: seq<nat>, v: nat)
    requires Rooted(parent, depth) && HighEnough(parent, height) && v < |parent| && height[v] > 0
    requires forall h :: HighEnough(parent, h) ==> AtLeast(h, height)
    ensures exists c :: 0 <= c < |parent| && parent[c] == Some(v) && height[c] + 1 == height[v]
  {
    if forall c :: 0 <= c < |parent| && parent[c] == Some(v) ==> height[c] + 1 != height[v] {
      LoweringCovers(parent, depth, height, v);
    }
  }

  /** The least heights are exact: some node lies that far below. */
  lemma {:induction false} HeightIsReached(parent: Parents, depth: seq<nat>, height: seq<nat>, v: nat) returns (w: nat)
    requires Rooted(parent, depth) && HighEnough(parent, height) && v < |parent|
    requires forall h :: HighEnough(parent, h) ==> AtLeast(h, height)
    ensures w < |parent| && Under(parent, depth, v, w) && depth[w] == depth[v] + height[v]
    decreases height[v]
  {
    if height[v] == 0 {
      w := v;
    } else {
      TightChild(parent, depth, height, v);
      var c :| 0 <= c < |parent| && parent[c] == Some(v) && height[c] + 1 == height[v];
      w := HeightIsReached(parent, depth, height, c);
      assert EdgeOk(parent, depth, c);
      assert Under(parent, depth, v, v);
      UnderTransitive(parent, depth, v, c, w);
    }
  }

  lemma {:induction false} UntouchedHeights(p0: Parents, wants: seq<Option<Owns>>, ms: seq<Moment>, k: nat)
    requires Course(p0, wants, ms) && AtFirst(p0, ms[0]) && k <= |wants| && ms[k].log == []
    ensures ms[k] == ms[0]
    decreases k
  {
    if k > 0 {
      assert Passes(p0, ms[k - 1], wants[k - 1], ms[k]);
      UntouchedHeights(p0, wants, ms, k - 1);
      ParentsAreDecided(p0, [], ms[k].parent, p0);
      CoveredStays(p0, ms[0].height);
      LeastIsUnique(p0, ms[0].height, ms[k].height, ms[0].height);
      forall v | 0 <= v < |p0| ensures ms[k].depth[v] == ms[0].depth[v] {
        DepthIsUnique(p0, ms[k].depth, ms[0].depth, v);
      }
    }
  }

  /** Everything that would move stays within 1024 levels. */
  ghost predicate HasRoom(parent: Parents, d: seq<nat>, w: Owns)
    requires Rooted(parent, d) && w.owner < |parent| && w.target < |parent|
  {
    forall x :: 0 <= x < |parent| && Under(parent, d, w.target, x) ==> d[w.owner] + 1 + d[x] <= 1024 + d[w.target]
  }

  lemma RoomMeans(parent: Parents, d: seq<nat>, height: seq<nat>, w: Owns)
    requires Rooted(parent, d) && w.owner < |parent| && w.target < |parent| && HighEnough(parent, height)
    requires forall h :: HighEnough(parent, h) ==> AtLeast(h, height)
    ensures HasRoom(parent, d, w) <==> d[w.owner] + 1 + height[w.target] <= 1024
  {
    var far := HeightIsReached(parent, d, height, w.target);
    forall x | 0 <= x < |parent| && Under(parent, d, w.target, x) ensures d[x] <= d[w.target] + height[w.target] {
      HeightSpans(parent, d, height, w.target, x);
    }
  }

  /**
    While nothing was honoured, a wish is honoured exactly when its target is not
    the document, the owner is not the target or below it, and every node that
    would move stays within 1024 levels.
   */
  lemma FirstHonoured(p0: Parents, wants: seq<Option<Owns>>, ms: seq<Moment>, k: nat)
    requires Course(p0, wants, ms) && AtFirst(p0, ms[0]) && k < |wants| && wants[k].Some? && ms[k].log == []
    ensures var w, d := wants[k].value, ms[0].depth;
            && w.owner < |p0| && w.target < |p0|
            && (ms[k + 1].log == [w] <==>
                && w.target != 0 && !Under(p0, d, w.target, w.owner)
                && HasRoom(p0, d, w))
  {
    UntouchedHeights(p0, wants, ms, k);
    assert Passes(p0, ms[k], wants[k], ms[k + 1]);
    var w := wants[k].value;
    RoomMeans(p0, ms[0].depth, ms[0].height, w);
    assert ms[k + 1].log == [w] <==> Admissible(ms[0], w);
  }

  // ---- the order of child lists ----

  ghost predicate Ascending(s: seq<nat>) {
    forall i, j :: 0 <= i < j < |s| ==> s[i] < s[j]
  }

  lemma AscendMore(s: seq<nat>, x: nat)
    requires Ascending(s) && forall c :: c in s ==> c < x
    ensures Ascending(s + [x])
  {
    forall i, j | 0 <= i < j < |s + [x]| ensures (s + [x])[i] < (s + [x])[j] {
      if j == |s| { assert s[i] in s; }
    }
  }

  lemma {:induction false} KidsAscend(p0: Parents, i: nat, n: nat)
    requires n <= |p0|
    ensures Ascending(KidsOf(p0, i, n)) && forall c :: c in KidsOf(p0, i, n) ==> c < n
  {
    if n > 0 {
      KidsAscend(p0, i, n - 1);
      AscendMore(KidsOf(p0, i, n - 1), n - 1);
    }
  }

  lemma {:induction false} KeptAscend(list: seq<nat>, ownedBy: seq<Option<nat>>)
    requires InRange(list, |ownedBy|) && Ascending(list)
    ensures Ascending(Kept(list, ownedBy)) && forall c :: c in Kept(list, ownedBy) ==> c in list
    decreases |list|
  {
    if list != [] {
      var n := |list| - 1;
      KeptAscend(list[..n], ownedBy);
      assert list == list[..n] + [list[n]];
      assert forall c :: c in list[..n] ==> c < list[n];
      AscendMore(Kept(list[..n], ownedBy), list[n]);
    }
  }

  /** Two nodes were taken by the same owner, the first before the second. */
  ghost predicate TakenBefore(log: seq<Owns>, i: nat, x: nat, y: nat) {
    exists j, k :: 0 <= j < k < |log| && log[j] == Owns(i, x) && log[k] == Owns(i, y)
  }

  ghost predicate Taken(log: seq<Owns>, x: nat) {
    exists r :: r in log && r.target == x
  }

  lemma {:induction false} OwnedInOrder(log: seq<Owns>, i: nat, a: nat, b: nat)
    requires OnceEach(log) && a < b < |OwnedOf(log, i)|
    ensures TakenBefore(log, i, OwnedOf(log, i)[a], OwnedOf(log, i)[b])
    decreases |log|
  {
    var n := |log| - 1;
    var front := log[..n];
    var list := OwnedOf(front, i);
    if b < |list| {
      OwnedInOrder(front, i, a, b);
      var j, k :| 0 <= j < k < |front| && front[j] == Owns(i, list[a]) && front[k] == Owns(i, list[b]);
      assert log[j] == Owns(i, list[a]) && log[k] == Owns(i, list[b]);
    } else {
      OwnedAre(front, i);
      assert list[a] in list;
      var j :| 0 <= j < |front| && front[j] == Owns(i, list[a]);
      assert log[j] == Owns(i, list[a]) && log[n] == Owns(i, OwnedOf(log, i)[b]);
    }
  }

  lemma BothTaken(log: seq<Owns>, i: nat, x: nat, y: nat)
    requires TakenBefore(log, i, x, y)
    ensures Taken(log, x) && Taken(log, y)
  {
    assert Owns(i, x) in log && Owns(i, y) in log;
  }

  lemma KeptAreFree(p0: Parents, f: Forest, log: seq<Owns>, i: nat)
    requires Agrees(p0, f, log) && i < |p0| && InRange(KidsOf(p0, i, |p0|), |p0|)
    ensures var kept := Kept(KidsOf(p0, i, |p0|), f.ownedBy);
            Ascending(kept) && forall c :: c in kept ==> !Taken(log, c)
  {
    var list := KidsOf(p0, i, |p0|);
    KidsAscend(p0, i, |p0|);
    KeptAscend(list, f.ownedBy);
    KidsAre(p0, i, |p0|);
    KeptAre(list, f.ownedBy);
    forall c | c in Kept(list, f.ownedBy) ensures !Taken(log, c) { assert OwnerIs(log, c, f.ownedBy[c]); }
  }

  /** Nodes nobody took come first, in document order; those taken follow in the order in which they were taken. */
  ghost predicate InOrder(log: seq<Owns>, i: nat, x: nat, y: nat) {
    if Taken(log, x) then Taken(log, y) && TakenBefore(log, i, x, y) else Taken(log, y) || x < y
  }

  lemma ListInOrder(log: seq<Owns>, i: nat, kept: seq<nat>, a: nat, b: nat)
    requires OnceEach(log) && Ascending(kept) && (forall c :: c in kept ==> !Taken(log, c))
    requires a < b < |kept + OwnedOf(log, i)|
    ensures var all := kept + OwnedOf(log, i); InOrder(log, i, all[a], all[b])
  {
    var owned := OwnedOf(log, i);
    if a >= |kept| {
      OwnedInOrder(log, i, a - |kept|, b - |kept|);
      BothTaken(log, i, owned[a - |kept|], owned[b - |kept|]);
    } else {
      assert kept[a] in kept;
      if b >= |kept| {
        OwnedAre(log, i);
        assert owned[b - |kept|] in owned;
        assert Owns(i, owned[b - |kept|]) in log;
      }
    }
  }

  /** Every child list of the finished tree is in that order. */
  lemma ChildrenInOrder(p0: Parents, log: seq<Owns>, t: Tree, i: nat, a: nat, b: nat)
    requires Structural(p0) && ListsFollow(p0, log, t) && i < |t.kids| && a < b < |t.kids[i]|
    ensures InOrder(log, i, t.kids[i][a], t.kids[i][b])
  {
    var f :| Agrees(p0, f, log) && ListsFrom(p0, f, t);
    KidsInRange(p0, i);
    KeptAreFree(p0, f, log, i);
    ListInOrder(log, i, Kept(KidsOf(p0, i, |p0|), f.ownedBy), a, b);
  }

  // ---- document order ----

  ghost predicate Before(s: seq<nat>, x: nat, y: nat) {
    exists i, j :: 0 <= i < j < |s| && s[i] == x && s[j] == y
  }

  /** A contiguous stretch of a list. */
  ghost predicate Stretch(part: seq<nat>, whole: seq<nat>) {
    exists a, b :: a + part + b == whole
  }

  lemma StretchOf(part: seq<nat>, middle: seq<nat>, whole: seq<nat>)
    requires Stretch(part, middle) && Stretch(middle, whole)
    ensures Stretch(part, whole)
  {
    var a, b :| a + part + b == middle;
    var c, d :| c + middle + d == whole;
    assert (c + a) + part + (b + d) == whole;
  }

  lemma StretchKeepsOrder(part: seq<nat>, whole: seq<nat>, x: nat, y: nat)
    requires Stretch(part, whole) && Before(part, x, y)
    ensures Before(whole, x, y)
  {
    var a, b :| a + part + b == whole;
    var i, j :| 0 <= i < j < |part| && part[i] == x && part[j] == y;
    assert whole[|a| + i] == x && whole[|a| + j] == y;
  }

  lemma {:induction false} ChildStretch(t: Tree, depth: seq<nat>, cs: seq<nat>, d: nat, k: nat)
    requires IsTree(t, depth) && AllAt(t, depth, cs, d) && d <= Bound(depth) + 1 && k < |cs|
    ensures Stretch(Preorder(t, depth, cs[k]), PreorderAll(t, depth, cs, d))
    decreases |cs|
  {
    var first, rest := Preorder(t, depth, cs[0]), PreorderAll(t, depth, cs[1..], d);
    assert first + rest == PreorderAll(t, depth, cs, d);
    if k == 0 {
      assert [] + first + rest == first + rest;
    } else {
      ChildStretch(t, depth, cs[1..], d, k - 1);
      assert first + rest + [] == first + rest;
      StretchOf(Preorder(t, depth, cs[k]), rest, first + rest);
    }
  }

  lemma {:induction false} ChildrenStretch(t: Tree, depth: seq<nat>, cs: seq<nat>, d: nat, a: nat, b: nat,
                                           x: nat, y: nat)
    requires IsTree(t, depth) && AllAt(t, depth, cs, d) && d <= Bound(depth) + 1 && a < b < |cs|
    requires x in Preorder(t, depth, cs[a]) && y in Preorder(t, depth, cs[b])
    ensures Before(PreorderAll(t, depth, cs, d), x, y)
    decreases |cs|
  {
    var first, rest := Preorder(t, depth, cs[0]), PreorderAll(t, depth, cs[1..], d);
    assert first + rest == PreorderAll(t, depth, cs, d);
    if a == 0 {
      var i :| 0 <= i < |first| && first[i] == x;
      ChildStretch(t, depth, cs[1..], d, b - 1);
      var c, e :| c + Preorder(t, depth, cs[b]) + e == rest;
      var j :| 0 <= j < |Preorder(t, depth, cs[b])| && Preorder(t, depth, cs[b])[j] == y;
      assert (first + rest)[i] == x && (first + rest)[|first| + |c| + j] == y;
    } else {
      ChildrenStretch(t, depth, cs[1..], d, a - 1, b - 1, x, y);
      assert first + rest + [] == first + rest;
      StretchKeepsOrder(rest, first + rest, x, y);
    }
  }

  lemma {:induction false} SubtreeStretch(t: Tree, depth: seq<nat>, v: nat)
    requires IsTree(t, depth) && v < |t.parent|
    ensures Stretch(Preorder(t, depth, v), Preorder(t, depth, 0))
    decreases depth[v]
  {
    var own := Preorder(t, depth, v);
    if v == 0 {
      assert [] + own + [] == own;
    } else {
      assert EdgeOk(t.parent, depth, v);
      var p := t.parent[v].value;
      assert PlaceOk(t, v);
      KidsOneDeeper(t, depth, p);
      var below := PreorderAll(t, depth, t.kids[p], depth[p] + 1);
      ChildStretch(t, depth, t.kids[p], depth[p] + 1, t.sibling[v]);
      assert [p] + below + [] == Preorder(t, depth, p);
      StretchOf(own, below, Preorder(t, depth, p));
      SubtreeStretch(t, depth, p);
      StretchOf(own, Preorder(t, depth, p), Preorder(t, depth, 0));
    }
  }

  /** Two nodes hang from different children of one node, the first from an earlier one. */
  ghost predicate Left(t: Tree, depth: seq<nat>, x: nat, y: nat)
    requires IsTree(t, depth) && x < |t.parent| && y < |t.parent|
  {
    exists v, a, b :: 0 <= v < |t.kids| && 0 <= a < b < |t.kids[v]|
      && Under(t.parent, depth, t.kids[v][a], x) && Under(t.parent, depth, t.kids[v][b], y)
  }

  lemma InOwnOrder(t: Tree, depth: seq<nat>, v: nat, w: nat)
    requires IsTree(t, depth) && v < |t.parent| && w < |t.parent| && Under(t.parent, depth, v, w)
    ensures w in Preorder(t, depth, v)
  {
    VisitsOnce(t, depth, v, w);
    assert multiset(Preorder(t, depth, v))[w] == 1;
  }

  lemma AboveIsBefore(t: Tree, depth: seq<nat>, x: nat, y: nat)
    requires IsTree(t, depth) && x < |t.parent| && y < |t.parent| && x != y && Under(t.parent, depth, x, y)
    ensures Before(Preorder(t, depth, 0), x, y)
  {
    InOwnOrder(t, depth, x, y);
    var own := Preorder(t, depth, x);
    var j :| 0 <= j < |own| && own[j] == y;
    assert own[0] == x && 0 < j;
    SubtreeStretch(t, depth, x);
    StretchKeepsOrder(own, Preorder(t, depth, 0), x, y);
  }

  lemma LeftIsBefore(t: Tree, depth: seq<nat>, x: nat, y: nat)
    requires IsTree(t, depth) && x < |t.parent| && y < |t.parent| && Left(t, depth, x, y)
    ensures Before(Preorder(t, depth, 0), x, y)
  {
    var v, a, b :| 0 <= v < |t.kids| && 0 <= a < b < |t.kids[v]|
      && Under(t.parent, depth, t.kids[v][a], x) && Under(t.parent, depth, t.kids[v][b], y);
    KidsOneDeeper(t, depth, v);
    InOwnOrder(t, depth, t.kids[v][a], x);
    InOwnOrder(t, depth, t.kids[v][b], y);
    var below := PreorderAll(t, depth, t.kids[v], depth[v] + 1);
    ChildrenStretch(t, depth, t.kids[v], depth[v] + 1, a, b, x, y);
    assert [v] + below + [] == Preorder(t, depth, v);
    StretchKeepsOrder(below, Preorder(t, depth, v), x, y);
    SubtreeStretch(t, depth, v);
    StretchKeepsOrder(Preorder(t, depth, v), Preorder(t, depth, 0), x, y);
  }

  /** Of two nodes one is above the other or they part somewhere. */
  lemma {:induction false} NodesPart(t: Tree, depth: seq<nat>, v: nat, x: nat, y: nat)
    requires IsTree(t, depth) && v < |t.parent| && x < |t.parent| && y < |t.parent| && x != y
    requires Under(t.parent, depth, v, x) && Under(t.parent, depth, v, y)
    ensures Under(t.parent, depth, x, y) || Under(t.parent, depth, y, x) || Left(t, depth, x, y) || Left(t, depth, y, x)
    decreases Bound(depth) - depth[v]
  {
    if x != v && y != v {
      var c := ChildOnTheWay(t, depth, v, x);
      var e := ChildOnTheWay(t, depth, v, y);
      KidsOneDeeper(t, depth, v);
      var a :| 0 <= a < |t.kids[v]| && t.kids[v][a] == c;
      var b :| 0 <= b < |t.kids[v]| && t.kids[v][b] == e;
      if c == e { NodesPart(t, depth, c, x, y); }
    }
  }

  lemma OnlyOneOrder(s: seq<nat>, x: nat, y: nat)
    requires Unrepeated(s) && Before(s, x, y)
    ensures !Before(s, y, x)
  {
    var i, j :| 0 <= i < j < |s| && s[i] == x && s[j] == y;
    forall k, l | 0 <= k < l < |s| && s[k] == y ensures s[l] != x { assert k == j; }
  }

  /**
    Document order: a node comes before another exactly when it is above it, or
    hangs from an earlier child of a node above both.
   */
  lemma DocumentOrder(t: Tree, depth: seq<nat>, x: nat, y: nat)
    requires IsTree(t, depth) && x < |t.parent| && y < |t.parent| && x != y
    ensures Before(Preorder(t, depth, 0), x, y) <==> Under(t.parent, depth, x, y) || Left(t, depth, x, y)
  {
    RootIsAbove(t.parent, depth, x);
    RootIsAbove(t.parent, depth, y);
    NodesPart(t, depth, 0, x, y);
    if Under(t.parent, depth, x, y) {
      AboveIsBefore(t, depth, x, y);
    } else if Left(t, depth, x, y) {
      LeftIsBefore(t, depth, x, y);
    } else {
      if Under(t.parent, depth, y, x) { AboveIsBefore(t, depth, y, x); } else { LeftIsBefore(t, depth, y, x); }
      EveryNodeOnce(t, depth);
      A11yWire.TraversalInside(t, Preorder(t, depth, 0));
      OnlyOneOrder(Preorder(t, depth, 0), y, x);
    }
  }
}
