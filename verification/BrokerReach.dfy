/**
  What the broker's answers mean in terms of who embeds and who hosts
  (crates/px-broker/src/lib.rs): every call succeeds exactly when it should,
  and every reason is given exactly when its test is the first to fail.
 */
module BrokerReach {
  import opened Common
  import opened BrokerTree
  import opened BrokerState

  // ---- embedding as a path of parent handles ----

  /** From a frame up to one that embeds it, parent by parent. */
  ghost predicate ParentPath(t: Tree, path: seq<FrameId>) {
    |path| >= 2 && forall k :: 0 <= k < |path| - 1 ==> ParentOf(t, path[k]) == Some(path[k + 1])
  }

  ghost predicate Embeds(t: Tree, a: FrameId, f: FrameId) {
    exists path :: ParentPath(t, path) && path[0] == f && path[|path| - 1] == a
  }

  lemma {:induction false} PathIsAncestor(t: Tree, path: seq<FrameId>)
    requires Forest(t) && ParentPath(t, path)
    ensures Ancestor(t, path[|path| - 1], path[0])
    decreases |path|
  {
    var f, p := path[0], path[1];
    assert ParentOf(t, path[0]) == Some(path[0 + 1]);
    assert SlotOk(t, f.index);
    if |path| > 2 {
      var rest := path[1..];
      forall k | 0 <= k < |rest| - 1 ensures ParentOf(t, rest[k]) == Some(rest[k + 1]) {
        assert ParentOf(t, path[k + 1]) == Some(path[k + 1 + 1]);
      }
      PathIsAncestor(t, rest);
    }
  }

  lemma {:induction false} AncestorHasPath(t: Tree, a: FrameId, f: FrameId) returns (path: seq<FrameId>)
    requires Forest(t) && Ancestor(t, a, f)
    ensures ParentPath(t, path) && path[0] == f && path[|path| - 1] == a
    decreases t.slots[f.index].depth
  {
    assert SlotOk(t, f.index);
    var p := t.slots[f.index].parent.value;
    if p.index == a.index {
      path := [f, a];
    } else {
      var rest := AncestorHasPath(t, a, p);
      path := [f] + rest;
      forall k | 0 < k < |path| - 1 ensures ParentOf(t, path[k]) == Some(path[k + 1]) {
        assert ParentOf(t, rest[k - 1]) == Some(rest[k - 1 + 1]);
      }
    }
  }

  /** The ancestor relation is being reached by following parent handles. */
  lemma AncestorIsPath(t: Tree, a: FrameId, f: FrameId)
    requires Forest(t)
    ensures Ancestor(t, a, f) <==> Embeds(t, a, f)
  {
    if Ancestor(t, a, f) {
      var path := AncestorHasPath(t, a, f);
    }
    if Embeds(t, a, f) {
      var path :| ParentPath(t, path) && path[0] == f && path[|path| - 1] == a;
      PathIsAncestor(t, path);
    }
  }

  lemma {:induction false} BeneathOne(t: Tree, i: nat, seed: set<nat>) returns (a: nat)
    requires Forest(t) && i < |t.slots| && Beneath(t, i, seed)
    ensures a in seed && Used(t, a) && Beneath(t, i, {a})
    decreases t.slots[i].depth
  {
    assert SlotOk(t, i);
    var p := t.slots[i].parent.value.index;
    if p in seed { a := p; } else { a := BeneathOne(t, p, seed); }
  }

  lemma {:induction false} BeneathMore(t: Tree, i: nat, a: nat, seed: set<nat>)
    requires Forest(t) && i < |t.slots| && Beneath(t, i, {a}) && a in seed
    ensures Beneath(t, i, seed)
    decreases t.slots[i].depth
  {
    assert SlotOk(t, i);
    var p := t.slots[i].parent.value.index;
    if p != a { BeneathMore(t, p, a, seed); }
  }

  // ---- navigation ----

  /** The channel hosts the frame, or a frame that embeds it at any distance. */
  ghost predicate Controls(s: State, c: Channel, f: FrameId) {
    exists a :: OwnerOf(s.tree, a) == Some(c) && (a == f || Embeds(s.tree, a, f))
  }

  lemma HostsAboveIsEmbedding(s: State, c: Channel, f: FrameId)
    requires Inv(s) && IsLive(s.tree, f)
    ensures Controls(s, c, f) <==> OwnerOf(s.tree, f) == Some(c) || HostsAbove(s, c, f)
  {
    if HostsAbove(s, c, f) {
      var i := BeneathOne(s.tree, f.index, OwnedBy(s.tree, c));
      AncestorIsPath(s.tree, IdAt(s.tree, i), f);
      assert OwnerOf(s.tree, IdAt(s.tree, i)) == Some(c);
    }
    if a :| OwnerOf(s.tree, a) == Some(c) && Embeds(s.tree, a, f) {
      AncestorIsPath(s.tree, a, f);
      OwnedMeansLive(s.tree, a);
      BeneathMore(s.tree, f.index, a.index, OwnedBy(s.tree, c));
    }
  }

  /** The answer to a navigation, test by test. */
  ghost predicate RightNavigation(s: State, c: Channel, f: FrameId, urlParses: bool, refusal: Option<DenyReason>) {
    && (refusal.None? <==> c in s.caps && IsLive(s.tree, f) && Controls(s, c, f) && urlParses)
    && (refusal == Some(UnknownChannel) <==> c !in s.caps)
    && (refusal == Some(NoSuchFrame) <==> c in s.caps && !IsLive(s.tree, f))
    && (refusal == Some(NotAncestor) <==> c in s.caps && IsLive(s.tree, f) && !Controls(s, c, f))
    && (refusal == Some(BadUrl) <==> c in s.caps && IsLive(s.tree, f) && Controls(s, c, f) && !urlParses)
  }

  /** Navigation is authorised exactly for a host of the frame or of one that embeds it. */
  lemma AuthoriseMeans(s: State, c: Channel, f: FrameId, urlParses: bool)
    requires Inv(s)
    ensures RightNavigation(s, c, f, urlParses, Authorise(s, c, f, urlParses))
  {
    if IsLive(s.tree, f) { HostsAboveIsEmbedding(s, c, f); }
  }

  // ---- making and showing frames ----

  /** A handle can still be minted: a slot can be used again, or a new one addressed. */
  ghost predicate RoomForFrame(t: Tree) {
    |t.slots| <= U32_MAX ||
    exists i :: 0 <= i < |t.slots| &&
      t.slots[i].lifecycle.Free? && !t.slots[i].retired && t.slots[i].generation < U32_MAX
  }

  lemma AllocSucceeds(t: Tree, owner: Channel, parent: Option<FrameId>, depth: nat, ordinal: Option<nat>, group: nat)
    ensures Alloc(t, owner, parent, depth, ordinal, group).1.Some? <==> RoomForFrame(t)
  {
    var m := FirstReusable(t.slots, 0);
    if m == |t.slots| { assert forall i :: 0 <= i < |t.slots| ==> !Reusable(t.slots[i]); }
    else { assert Reusable(t.slots[m]); }
  }

  /** A top-level frame is refused only to a closed channel or when handles or groups run out. */
  lemma CreateAnswers(s: State, c: Channel)
    ensures CreateFrame(s, c).1.Some? <==> c in s.caps && s.tree.nextGroup < U64_MAX && RoomForFrame(s.tree)
  {
    AllocSucceeds(s.tree, c, None, 0, None, s.tree.nextGroup);
  }

  /** A channel is refused only when ids run out. */
  lemma OpenAnswers(s: State)
    ensures Open(s).1.Some? <==> s.nextChannel < U64_MAX
  {
  }

  /** Sight is granted exactly of a live frame to an open channel, and then the channel has it. */
  lemma GrantAnswers(s: State, viewer: Channel, f: FrameId)
    requires Inv(s)
    ensures Grant(s, viewer, f).1 <==> IsLive(s.tree, f) && viewer in s.caps
    ensures Grant(s, viewer, f).1 ==> f in Grant(s, viewer, f).0.caps[viewer].visible
  {
    OwnedMeansLive(s.tree, f);
  }

  /** The frames embedded directly in a frame. */
  ghost predicate ChildAt(t: Tree, parent: FrameId, g: FrameId, ordinal: nat) {
    ParentOf(t, g) == Some(parent) && t.slots[g.index].ordinal == Some(ordinal)
  }

  ghost predicate OrdinalFree(t: Tree, parent: FrameId, ordinal: nat) {
    forall g :: !ChildAt(t, parent, g, ordinal)
  }

  lemma OrdinalFreeMeans(t: Tree, parent: FrameId, ordinal: nat)
    ensures OrdinalFree(t, parent, ordinal) <==> !OrdinalUsed(t, parent, ordinal)
  {
    if i :| i in Children(t, parent) && t.slots[i].ordinal == Some(ordinal) {
      assert ChildAt(t, parent, IdAt(t, i), ordinal);
    }
    if g :| ChildAt(t, parent, g, ordinal) { assert g.index in Children(t, parent); }
  }

  /** The answer to a request for a child frame, test by test. */
  ghost predicate RightChild(s: State, c: Channel, parent: FrameId, ordinal: nat, out: Result<FrameId, DenyReason>) {
    var mine := c in s.caps && OwnerOf(s.tree, parent) == Some(c);
    var depth := if Exists(s.tree, parent) then s.tree.slots[parent.index].depth else 0;
    var few := |Children(s.tree, parent)| < MAX_CHILDREN_PER_FRAME;
    var fits := OrdinalFree(s.tree, parent, ordinal) && few;
    && (out.Ok? <==> mine && depth < MAX_FRAME_DEPTH && fits && RoomForFrame(s.tree))
    && (out == Err(UnknownChannel) <==> c !in s.caps)
    && (out == Err(NoSuchFrame) <==> c in s.caps && !IsLive(s.tree, parent))
    && (out == Err(NotYourFrame) <==> c in s.caps && IsLive(s.tree, parent) && !mine)
    && (out == Err(TooDeepFrame) <==> mine && depth >= MAX_FRAME_DEPTH)
    && (out == Err(FrameLimit) <==> mine && depth < MAX_FRAME_DEPTH && !fits)
    && (out == Err(Internal) <==> mine && depth < MAX_FRAME_DEPTH && fits && !RoomForFrame(s.tree))
  }

  lemma ChildAnswers(s: State, c: Channel, parent: FrameId, ordinal: nat)
    requires Inv(s)
    ensures RightChild(s, c, parent, ordinal, CreateChildFrame(s, c, parent, ordinal).1)
  {
    OwnedMeansLive(s.tree, parent);
    OrdinalFreeMeans(s.tree, parent, ordinal);
    if c in s.caps {
      assert CapsAgree(s.tree, c, s.caps[c]);
      if OwnerOf(s.tree, parent) == Some(c) {
        var p := s.tree.slots[parent.index];
        AllocSucceeds(s.tree, c, Some(parent), p.depth + 1, Some(ordinal), p.group);
      }
    }
  }

  /** What a new child is: live, empty, one level down, in its parent's group, hosted by the caller. */
  lemma ChildIsPlaced(s: State, c: Channel, parent: FrameId, ordinal: nat)
    requires Inv(s) && CreateChildFrame(s, c, parent, ordinal).1.Ok?
    ensures var (r, f) := CreateChildFrame(s, c, parent, ordinal);
            && IsLive(r.tree, f.value) && OwnerOf(r.tree, f.value) == Some(c)
            && ChildAt(r.tree, parent, f.value, ordinal) && r.tree.slots[f.value.index].origin.None?
            && Exists(r.tree, parent) && r.tree.slots[f.value.index].group == r.tree.slots[parent.index].group
            && r.tree.slots[f.value.index].depth == r.tree.slots[parent.index].depth + 1
  {
    CreateChildFrameKeeps(s, c, parent, ordinal);
    CreateChildKeeps(s.tree, c, parent, ordinal);
    var (r, f) := CreateChildFrame(s, c, parent, ordinal);
    assert SlotOk(r.tree, f.value.index);
  }

  // ---- moving, closing and crashing ----

  /** A frame goes to any open channel, or stays where it is; nothing else moves and nothing comes or goes. */
  lemma TransferAnswers(s: State, f: FrameId, to: Channel)
    requires Inv(s)
    ensures var (r, out) := TransferFrame(s, f, to);
            && (out == Err(NoSuchFrame) <==> !IsLive(s.tree, f))
            && (out == Err(UnknownChannel) <==> IsLive(s.tree, f) && OwnerOf(s.tree, f) != Some(to) && to !in s.caps)
            && (out.Ok? <==> IsLive(s.tree, f) && (OwnerOf(s.tree, f) == Some(to) || to in s.caps))
            && (out.Ok? ==>
                out.value == Transferred(if OwnerOf(s.tree, f) == Some(to) then None else OwnerOf(s.tree, f), to))
            && (forall g :: Exists(r.tree, g) == Exists(s.tree, g))
            && (forall g :: OwnerOf(r.tree, g) == if g == f && out.Ok? then Some(to) else OwnerOf(s.tree, g))
  {
    OwnedMeansLive(s.tree, f);
  }

  /** A frame of the channel embeds this one. */
  ghost predicate HostsOver(t: Tree, c: Channel, f: FrameId) {
    exists a :: OwnerOf(t, a) == Some(c) && Embeds(t, a, f)
  }

  lemma DescendantsAreEmbedded(t: Tree, c: Channel, f: FrameId)
    requires Forest(t) && Exists(t, f)
    ensures f.index in Descendants(t, OwnedBy(t, c)) <==> HostsOver(t, c, f)
    ensures f.index in OwnedBy(t, c) <==> OwnerOf(t, f) == Some(c)
  {
    OwnedMeansLive(t, f);
    if f.index in Descendants(t, OwnedBy(t, c)) {
      var i := BeneathOne(t, f.index, OwnedBy(t, c));
      AncestorIsPath(t, IdAt(t, i), f);
      assert OwnerOf(t, IdAt(t, i)) == Some(c);
    }
    if a :| OwnerOf(t, a) == Some(c) && Embeds(t, a, f) {
      AncestorIsPath(t, a, f);
      OwnedMeansLive(t, a);
      BeneathMore(t, f.index, a.index, OwnedBy(t, c));
    }
  }

  /** Frames of the channel go with all they embed, whoever hosts that, and nothing else. */
  ghost predicate Released(t: Tree, c: Channel, f: FrameId, r: Tree) {
    var gone := OwnerOf(t, f) == Some(c) || HostsOver(t, c, f);
    (Exists(r, f) <==> Exists(t, f) && !gone) && OwnerOf(r, f) == if gone then None else OwnerOf(t, f)
  }

  lemma ReleaseMeans(t: Tree, c: Channel, f: FrameId)
    requires Forest(t)
    ensures Released(t, c, f, ReleaseAll(t, c))
  {
    FreeSubtreesKeeps(t, OwnedBy(t, c));
    if Exists(t, f) { DescendantsAreEmbedded(t, c, f); }
  }

  /** Frames of the channel crash under their ids, all they embed is gone, and nothing else changes. */
  ghost predicate CrashedAway(t: Tree, c: Channel, f: FrameId, r: Tree) {
    var gone, own := HostsOver(t, c, f), OwnerOf(t, f) == Some(c);
    && (Exists(r, f) <==> Exists(t, f) && !gone)
    && (IsLive(r, f) <==> IsLive(t, f) && !gone && !own)
    && OwnerOf(r, f) == if gone || own then None else OwnerOf(t, f)
  }

  lemma CrashMeans(t: Tree, c: Channel, f: FrameId)
    requires Forest(t)
    ensures CrashedAway(t, c, f, Crash(t, c))
  {
    CrashKeeps(t, c);
    OwnedMeansLive(t, f);
    OwnedMeansLive(Crash(t, c), f);
    if Exists(t, f) { DescendantsAreEmbedded(t, c, f); }
  }

  /** What is left of the other channels when one is forgotten. */
  lemma OneIsForgotten(tree: Tree, caps: map<Channel, Caps>, pool: Pool, c: Channel)
    ensures Purged(tree, caps - {c}).Keys == caps.Keys - {c}
    ensures Forget(pool, c).byChannel == pool.byChannel - {c}
  {
  }

  /** A closed channel is forgotten, with its frames and all they embed. */
  lemma CloseMeans(s: State, c: Channel, f: FrameId)
    requires Inv(s)
    ensures var r := Close(s, c);
            && Released(s.tree, c, f, r.tree)
            && r.caps.Keys == s.caps.Keys - {c} && r.pool.byChannel == s.pool.byChannel - {c}
  {
    ReleaseMeans(s.tree, c, f);
    OneIsForgotten(ReleaseAll(s.tree, c), s.caps, s.pool, c);
  }

  /** So is a dead one, but its outermost frames stay, crashed. */
  lemma DiedMeans(s: State, c: Channel, f: FrameId)
    requires Inv(s)
    ensures var r := Died(s, c);
            && CrashedAway(s.tree, c, f, r.tree)
            && r.caps.Keys == s.caps.Keys - {c} && r.pool.byChannel == s.pool.byChannel - {c}
  {
    CrashMeans(s.tree, c, f);
    OneIsForgotten(Crash(s.tree, c), s.caps, s.pool, c);
  }

  // ---- attaching ----

  /** The answer to an attach, test by test. */
  lemma AttachAnswers(s: State, f: FrameId, key: ProcessKey, process: Channel)
    requires Inv(s)
    ensures var out := Attach(s, f, key, process).1;
            var open := Exists(s.tree, f) && process in s.caps;
            var group := if Exists(s.tree, f) then s.tree.slots[f.index].group else 0;
            var room := |s.pool.byChannel| < MAX_CONTENT_PROCESSES && process !in s.pool.byChannel
                        && forall c :: c in s.pool.byChannel ==> s.pool.byChannel[c] != (group, key);
            && (out.Ok? <==> open && room && IsLive(s.tree, f))
            && (out == Err(UnknownChannel) <==> Exists(s.tree, f) && process !in s.caps)
            && (out == Err(FrameLimit) <==> open && !room)
            && (out == Err(NoSuchFrame) <==> !Exists(s.tree, f) || (open && room && !IsLive(s.tree, f)))
  {
    OwnedMeansLive(s.tree, f);
    if Exists(s.tree, f) && process in s.caps {
      var k := (s.tree.slots[f.index].group, key);
      assert k in s.pool.byKey ==> s.pool.byChannel[s.pool.byKey[k]] == k;
      assert Register(s.pool, k, process).Ok? <==>
        |s.pool.byChannel| < MAX_CONTENT_PROCESSES && process !in s.pool.byChannel && k !in s.pool.byKey;
    }
  }

  // ---- the answer to a commit ----

  /** What is recorded at the top once a document of this origin is committed in the frame. */
  ghost function TopOnCommit(t: Tree, f: FrameId, origin: Origin): Option<Origin>
    requires Forest(t) && Exists(t, f)
  {
    if t.slots[f.index].parent.None? then Some(origin) else TopOrigin(t, f)
  }

  /** The group and key that a commit asks for. */
  ghost predicate AsksFor(s: State, f: FrameId, origin: Origin, resolve: Resolver, k: PoolKey)
    requires Forest(s.tree) && Exists(s.tree, f)
  {
    && k.0 == s.tree.slots[f.index].group && k.1.origin == origin
    && OfSite(TopOnCommit(s.tree, f, origin), resolve, k.1.site)
  }

  lemma RootIsFixed(s: State, f: FrameId, origin: Origin)
    requires Inv(s) && IsLive(s.tree, f) && Inv(s.(tree := CommitOrigin(s.tree, f, origin)))
    ensures TopOrigin(CommitOrigin(s.tree, f, origin), f) == TopOnCommit(s.tree, f, origin)
  {
    var t, u := s.tree, CommitOrigin(s.tree, f, origin);
    var a, b := RootOf(t, f.index), RootOf(u, f.index);
    assert Used(t, b) && t.slots[b].parent.None? && t.slots[b].group == t.slots[a].group;
    assert a == b;
    if t.slots[f.index].parent.Some? { assert a != f.index; }
  }

  lemma CommitKeyMeans(s: State, f: FrameId, origin: Origin, resolve: Resolver, k: PoolKey)
    requires Inv(s) && IsLive(s.tree, f)
    ensures CommitKey(s, f, origin, resolve) == Some(k) <==> AsksFor(s, f, origin, resolve, k)
  {
    CommitKeepsTree(s, f, origin);
    RootIsFixed(s, f, origin);
    KeyMeans(CommitOrigin(s.tree, f, origin), f, resolve, k.1);
  }

  ghost predicate Serves(s: State, c: Channel, k: PoolKey) {
    c in s.pool.byChannel && s.pool.byChannel[c] == k
  }

  ghost predicate Served(s: State, k: PoolKey) {
    exists c :: Serves(s, c, k)
  }

  lemma ServedIsKey(s: State, k: PoolKey)
    requires Inv(s)
    ensures Served(s, k) <==> k in s.pool.byKey
  {
    if k in s.pool.byKey { assert Serves(s, s.pool.byKey[k], k); }
  }

  /** The plan for a key, by who serves it and whether the pool has room. */
  ghost predicate RightPlan(s: State, current: Channel, k: PoolKey, plan: Result<Plan, DenyReason>) {
    var idle, full := current !in s.pool.byChannel, |s.pool.byChannel| >= MAX_CONTENT_PROCESSES;
    && (plan == Ok(InPlace) <==> Serves(s, current, k) || (idle && !Served(s, k) && !full))
    && (plan.Ok? && plan.value.MovedTo? <==> Served(s, k) && !Serves(s, current, k))
    && (plan.Ok? && plan.value.MovedTo? ==> Serves(s, plan.value.t.to, k) && plan.value.t.replaced == Some(current))
    && (plan == Ok(NeedsProcess(k.1)) <==> !idle && !Served(s, k) && !full)
    && (plan == Ok(AtCap) <==> !idle && !Served(s, k) && full)
    && (plan == Err(FrameLimit) <==> idle && !Served(s, k) && full)
  }

  lemma PlanMeans(s: State, f: FrameId, k: PoolKey, current: Channel)
    requires Inv(s) && OwnerOf(s.tree, f) == Some(current)
    ensures RightPlan(s, current, k, PlanFor(s, f, k, current).1)
  {
    ServedIsKey(s, k);
    OwnedMeansLive(s.tree, f);
    if k in s.pool.byKey {
      var to := s.pool.byKey[k];
      assert to in s.pool.byChannel && s.pool.byChannel[to] == k;
      assert Serves(s, current, k) <==> to == current;
    } else if current in s.pool.byChannel {
      assert s.pool.byChannel[current] in s.pool.byKey;
    }
  }

  ghost predicate RightCommit(s: State, f: FrameId, origin: Origin, resolve: Resolver, plan: Result<Plan, DenyReason>)
    requires Forest(s.tree)
  {
    && (plan == Err(NoSuchFrame) <==> !IsLive(s.tree, f))
    && (plan == Err(NoProcessKey) <==> IsLive(s.tree, f) && forall k :: !AsksFor(s, f, origin, resolve, k))
    && (IsLive(s.tree, f) ==> OwnerOf(s.tree, f).Some?)
    && (IsLive(s.tree, f) ==>
          forall k :: AsksFor(s, f, origin, resolve, k) ==> RightPlan(s, OwnerOf(s.tree, f).value, k, plan))
  }

  /** The right plan does not depend on the tree. */
  lemma PlanDependsOnPool(s: State, r: State, current: Channel, k: PoolKey, plan: Result<Plan, DenyReason>)
    requires s.pool == r.pool && RightPlan(r, current, k, plan)
    ensures RightPlan(s, current, k, plan)
  {
    assert forall c :: Serves(s, c, k) <==> Serves(r, c, k);
  }

  /** A commit is answered by the origin it was given, the site at the top and who serves that. */
  lemma CommitAnswers(s: State, f: FrameId, origin: Origin, resolve: Resolver)
    requires Inv(s)
    ensures RightCommit(s, f, origin, resolve, Commit(s, f, origin, resolve).1)
  {
    OwnedMeansLive(s.tree, f);
    if IsLive(s.tree, f) {
      var current := OwnerOf(s.tree, f).value;
      forall k ensures CommitKey(s, f, origin, resolve) == Some(k) <==> AsksFor(s, f, origin, resolve, k) {
        CommitKeyMeans(s, f, origin, resolve, k);
      }
      CommitKeepsTree(s, f, origin);
      var noted := s.(tree := CommitOrigin(s.tree, f, origin));
      var key := CommitKey(s, f, origin, resolve);
      if key.Some? {
        PlanMeans(noted, f, key.value, current);
        PlanDependsOnPool(s, noted, current, key.value, Commit(s, f, origin, resolve).1);
      }
    }
  }
}
