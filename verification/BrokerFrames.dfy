/**
  The frame tree as the broker runs it (crates/px-broker/src/lib.rs,
  `FrameTree`): slots updated in place by loops, each proved to do what the
  operations of `BrokerTree` say.
 */
module BrokerFrames {
  import opened Common
  import Sorting
  import opened BrokerTree

  predicate Earlier(a: Notice, b: Notice) {
    a.to < b.to || (a.to == b.to && a.frame.index < b.frame.index)
  }

  predicate InOrder(ns: seq<Notice>) {
    forall i, j :: 0 <= i < j < |ns| ==> Earlier(ns[i], ns[j])
  }

  predicate Apart(ns: seq<Notice>) {
    forall i, j :: 0 <= i < j < |ns| ==> ns[i].frame.index != ns[j].frame.index
  }

  /** Notices about different frames, by owner and then by frame. */
  method SortNotices(ns: seq<Notice>) returns (r: seq<Notice>)
    requires Apart(ns)
    ensures InOrder(r) && forall m :: m in r <==> m in ns
  {
    r := Sorting.Sort(ns, Earlier);
  }

  // ---- helpers about the tree ----

  /** Children of a frame among the first slots. */
  ghost function ChildrenUpTo(t: Tree, f: FrameId, n: nat): set<nat> {
    set i | 0 <= i < n && Used(t, i) && t.slots[i].parent == Some(f)
  }

  lemma OneMoreChild(t: Tree, f: FrameId, n: nat)
    ensures ChildrenUpTo(t, f, n + 1) ==
            ChildrenUpTo(t, f, n) + (if Used(t, n) && t.slots[n].parent == Some(f) then {n} else {})
    ensures n == |t.slots| ==> ChildrenUpTo(t, f, n) == Children(t, f)
  {
  }

  /** Every frame of the first `n` that hangs from the set is in it. */
  ghost predicate Reached(t: Tree, seed: set<nat>, found: set<nat>, n: nat) {
    forall i: nat :: i < n && Used(t, i) && t.slots[i].parent.Some? && t.slots[i].parent.value.index in seed + found ==>
        i in found
  }

  lemma {:induction false} ReachedIsAll(t: Tree, seed: set<nat>, found: set<nat>, i: nat)
    requires Forest(t) && Reached(t, seed, found, |t.slots|) && i < |t.slots| && Beneath(t, i, seed)
    ensures i in found
    decreases t.slots[i].depth
  {
    assert SlotOk(t, i);
    var p := t.slots[i].parent.value.index;
    if p !in seed { ReachedIsAll(t, seed, found, p); }
  }

  /** One step up does not change who is above, beyond the frame stepped to. */
  lemma AncestorStep(t: Tree, a: FrameId, f: FrameId)
    requires Forest(t) && Exists(t, f)
    ensures ParentOf(t, f).None? ==> !Ancestor(t, a, f)
    ensures ParentOf(t, f).Some? ==>
      var p := ParentOf(t, f).value;
      Exists(t, p) && t.slots[p.index].depth < t.slots[f.index].depth
          && (Ancestor(t, a, f) <==> p == a || Ancestor(t, a, p))
  {
    assert SlotOk(t, f.index);
  }

  lemma OneMoreOwed(t: Tree, c: Channel, was: seq<Notice>, now: seq<Notice>, todo: set<nat>, i: nat,
                    to: Option<Channel>)
    requires Forest(t) && i in todo && todo <= Outermost(t, c)
    requires Apart(was) && forall n :: n in was <==> Owed(t, c, n) && n.frame.index !in todo
    requires to == if t.slots[i].parent.Some? then OwnerOf(t, t.slots[i].parent.value) else None
    requires now == if to.Some? then was + [Notice(to.value, IdAt(t, i))] else was
    ensures Apart(now) && forall n :: n in now <==> Owed(t, c, n) && n.frame.index !in todo - {i}
  {
  }

  lemma CrashThenFree(t: Tree, crashed: set<nat>, gone: set<nat>)
    requires crashed !! gone
    ensures Freed(CrashAll(t, crashed), gone) == CrashAll(Freed(t, gone), crashed)
  {
  }

  class FrameTree {
    var slots: seq<Slot>
    var nextGroup: nat

    ghost function Abs(): Tree
      reads this
    {
      Tree(slots, nextGroup)
    }

    ghost predicate Valid()
      reads this
    {
      Forest(Abs())
    }

    constructor ()
      ensures Valid() && Abs() == Tree([], 0)
    {
      slots, nextGroup := [], 0;
      new;
      EmptyForest();
    }

    // ---- reads ----

    /** Where a handle points, if its frame is there. */
    function Resolve(f: FrameId): (i: Option<nat>)
      reads this
      ensures i == if Exists(Abs(), f) then Some(f.index) else None
    {
      if f.index >= |slots| then None
      else if slots[f.index].generation != f.generation || slots[f.index].lifecycle.Free? then None
      else Some(f.index)
    }

    function Owner(f: FrameId): (c: Option<Channel>)
      reads this
      ensures c == OwnerOf(Abs(), f)
    {
      if Resolve(f).Some? then slots[f.index].owner else None
    }

    function Parent(f: FrameId): (p: Option<FrameId>)
      reads this
      ensures p == ParentOf(Abs(), f)
    {
      if Resolve(f).Some? then slots[f.index].parent else None
    }

    function LiveFrame(f: FrameId): (b: bool)
      reads this
      ensures b == IsLive(Abs(), f)
    {
      Resolve(f).Some? && slots[f.index].lifecycle.Live?
    }

    /** The bounded walk up the tree decides the unbounded ancestor relation. */
    method IsAncestor(a: FrameId, f: FrameId) returns (yes: bool)
      requires Valid()
      ensures yes <==> Ancestor(Abs(), a, f)
    {
      var at := f;
      assert Exists(Abs(), f) ==> SlotOk(Abs(), f.index);
      for k := 0 to MAX_FRAME_DEPTH + 1
        invariant Exists(Abs(), f) ==> Exists(Abs(), at) && slots[at.index].depth + k <= MAX_FRAME_DEPTH
        invariant !Exists(Abs(), f) ==> at == f
        invariant Ancestor(Abs(), a, f) <==> Ancestor(Abs(), a, at)
      {
        if Exists(Abs(), at) { AncestorStep(Abs(), a, at); }
        var p := Parent(at);
        if p.None? { return false; }
        if p.value == a { return Resolve(a).Some?; }
        at := p.value;
      }
      return false;
    }

    /** The bounded walk to the root finds the top-level frame, so the key is the one of the whole tree. */
    method ProcessKeyOf(f: FrameId, resolve: Resolver) returns (key: Option<ProcessKey>)
      requires Valid()
      ensures key == KeyOf(Abs(), f, resolve)
      ensures forall k :: key == Some(k) <==>
                && LiveFrame(f) && slots[f.index].origin == Some(k.origin)
                && OfSite(TopOrigin(Abs(), f), resolve, k.site)
    {
      forall k ensures KeyOf(Abs(), f, resolve) == Some(k) <==>
                 LiveFrame(f) && slots[f.index].origin == Some(k.origin) && OfSite(TopOrigin(Abs(), f), resolve, k.site)
      {
        KeyMeans(Abs(), f, resolve, k);
      }
      if !LiveFrame(f) || slots[f.index].origin.None? { return None; }
      assert SlotOk(Abs(), f.index);
      var root, k := f, 0;
      while k < MAX_FRAME_DEPTH + 1 && Parent(root).Some?
        invariant Exists(Abs(), root) && RootOf(Abs(), root.index) == RootOf(Abs(), f.index)
        invariant slots[root.index].depth + k <= MAX_FRAME_DEPTH
        decreases MAX_FRAME_DEPTH + 1 - k
      {
        assert SlotOk(Abs(), root.index);
        root := Parent(root).value;
        k := k + 1;
      }
      if Parent(root).Some? { return None; }
      if slots[root.index].origin.None? { return None; }
      return NewKey(slots[root.index].origin.value, slots[f.index].origin.value, resolve);
    }

    // ---- creating frames ----

    method Alloc(owner: Channel, parent: Option<FrameId>, depth: nat, ordinal: Option<nat>, group: nat)
      returns (f: Option<FrameId>)
      modifies this
      ensures (Abs(), f) == BrokerTree.Alloc(old(Abs()), owner, parent, depth, ordinal, group)
    {
      ghost var was := slots;
      var i := 0;
      while i < |slots|
        invariant i <= |was| && nextGroup == old(nextGroup)
        invariant slots == Retired(was, i) && FirstReusable(was, 0) == FirstReusable(was, i)
      {
        var s := slots[i];
        if s.lifecycle.Free? && !s.retired {
          if s.generation < U32_MAX {
            slots := slots[i := NewSlot(s.generation + 1, owner, parent, depth, ordinal, group)];
            return Some(FrameId(i, s.generation + 1));
          }
          slots := slots[i := s.(retired := true)];
        }
        i := i + 1;
      }
      if |slots| > U32_MAX { return None; }
      slots := slots + [NewSlot(0, owner, parent, depth, ordinal, group)];
      return Some(FrameId(|slots| - 1, 0));
    }

    /** A top-level frame in a new group. */
    method Create(owner: Channel) returns (f: Option<FrameId>)
      requires Valid()
      modifies this
      ensures Valid() && (Abs(), f) == BrokerTree.Create(old(Abs()), owner)
    {
      CreateKeeps(Abs(), owner);
      if nextGroup + 1 > U64_MAX { return None; }
      var next := nextGroup + 1;
      f := Alloc(owner, None, 0, None, nextGroup);
      if f.Some? { nextGroup := next; }
    }

    /** Counts the children of a frame, or finds that the ordinal is taken. */
    method ScanChildren(parent: FrameId, ordinal: nat) returns (taken: bool, children: nat)
      ensures taken <==> OrdinalUsed(Abs(), parent, ordinal)
      ensures !taken ==> children == |Children(Abs(), parent)|
    {
      children := 0;
      OneMoreChild(Abs(), parent, 0);
      for i := 0 to |slots|
        invariant children == |ChildrenUpTo(Abs(), parent, i)|
        invariant forall j :: j in ChildrenUpTo(Abs(), parent, i) ==> slots[j].ordinal != Some(ordinal)
      {
        OneMoreChild(Abs(), parent, i);
        if !slots[i].lifecycle.Free? && slots[i].parent == Some(parent) {
          if slots[i].ordinal == Some(ordinal) {
            assert i in Children(Abs(), parent);
            return true, children;
          }
          children := children + 1;
        }
      }
      OneMoreChild(Abs(), parent, |slots|);
      taken := false;
    }

    method CreateChild(owner: Channel, parent: FrameId, ordinal: nat) returns (f: Result<FrameId, TreeError>)
      requires Valid()
      modifies this
      ensures Valid() && (Abs(), f) == BrokerTree.CreateChild(old(Abs()), owner, parent, ordinal)
    {
      CreateChildKeeps(Abs(), owner, parent, ordinal);
      if !LiveFrame(parent) || slots[parent.index].owner != Some(owner) { return Err(NoParent); }
      var depth, group := slots[parent.index].depth + 1, slots[parent.index].group;
      if depth > MAX_FRAME_DEPTH { return Err(TooDeep); }
      var taken, children := ScanChildren(parent, ordinal);
      if taken { return Err(OrdinalTaken); }
      if children >= MAX_CHILDREN_PER_FRAME { return Err(TooManyChildren); }
      var made := Alloc(owner, Some(parent), depth, Some(ordinal), group);
      f := if made.Some? then Ok(made.value) else Err(Full);
    }

    // ---- changing a frame ----

    method CommitOrigin(f: FrameId, origin: Origin) returns (ok: bool)
      modifies this
      ensures ok == IsLive(old(Abs()), f)
      ensures Abs() == if ok then BrokerTree.CommitOrigin(old(Abs()), f, origin) else old(Abs())
    {
      ok := LiveFrame(f);
      if ok { slots := slots[f.index := slots[f.index].(origin := Some(origin))]; }
    }

    method Transfer(f: FrameId, from: Channel, to: Channel) returns (ok: bool)
      modifies this
      ensures ok == (IsLive(old(Abs()), f) && OwnerOf(old(Abs()), f) == Some(from))
      ensures Abs() == if ok then BrokerTree.Transfer(old(Abs()), f, to) else old(Abs())
    {
      ok := LiveFrame(f) && slots[f.index].owner == Some(from);
      if ok { slots := slots[f.index := slots[f.index].(owner := Some(to))]; }
    }

    // ---- freeing ----

    method OwnedBy(c: Channel) returns (owned: set<nat>)
      ensures owned == BrokerTree.OwnedBy(Abs(), c)
    {
      owned := {};
      for i := 0 to |slots|
        invariant owned == set j | 0 <= j < i && slots[j].lifecycle.Live? && slots[j].owner == Some(c)
      {
        if slots[i].lifecycle.Live? && slots[i].owner == Some(c) { owned := owned + {i}; }
      }
    }

    /** The passes repeat until nothing is added; then everything beneath the seed has been found. */
    method Descendants(seed: set<nat>) returns (found: set<nat>)
      requires Valid()
      ensures found == BrokerTree.Descendants(Abs(), seed)
    {
      ghost var all := BrokerTree.Descendants(Abs(), seed);
      SubtreeIsClosed(Abs(), seed);
      found := {};
      var grew := true;
      while grew
        invariant found <= all && (!grew ==> Reached(Abs(), seed, found, |slots|))
        decreases |all| - |found|, grew
      {
        SubsetSize(found, all);
        found, grew := Pass(seed, found, all);
        SubsetSize(found, all);
      }
      forall i | i in all ensures i in found {
        ReachedIsAll(Abs(), seed, found, i);
      }
    }

    /** One pass over the slots: it stays within every set that is closed under embedding. */
    method Pass(seed: set<nat>, before: set<nat>, ghost all: set<nat>) returns (found: set<nat>, grew: bool)
      requires Valid() && before <= all && Reached(Abs(), seed, all, |slots|)
      ensures before <= found <= all
      ensures if grew then |before| < |found| else found == before && Reached(Abs(), seed, found, |slots|)
    {
      found, grew := before, false;
      for i := 0 to |slots|
        invariant before <= found <= all
        invariant if grew then |before| < |found| else found == before && Reached(Abs(), seed, found, i)
      {
        if Hangs(i, seed, found) {
          assert i in all;
          SubsetSize(before, found);
          found, grew := found + {i}, true;
        } else {
          assert SlotOk(Abs(), i);
        }
      }
    }

    /** The frame is not among those found, and hangs from one of them or from the seed. */
    predicate Hangs(i: nat, seed: set<nat>, found: set<nat>)
      reads this
      requires i < |slots|
    {
      && !slots[i].lifecycle.Free? && i !in found && slots[i].parent.Some?
      && Resolve(slots[i].parent.value).Some?
      && (Resolve(slots[i].parent.value).value in seed || Resolve(slots[i].parent.value).value in found)
    }

    method FreeIndices(indices: set<nat>)
      modifies this
      ensures Abs() == Freed(old(Abs()), indices)
    {
      var todo := indices;
      while todo != {}
        invariant todo <= indices && Abs() == Freed(old(Abs()), indices - todo)
      {
        var i :| i in todo;
        if i < |slots| { slots := slots[i := FreeSlot(slots[i])]; }
        todo := todo - {i};
      }
      assert indices - todo == indices;
    }

    method FreeWithDescendants(roots: set<nat>)
      requires Valid() && AllUsed(Abs(), roots)
      modifies this
      ensures Valid() && Abs() == FreeSubtrees(old(Abs()), roots)
    {
      FreeSubtreesKeeps(Abs(), roots);
      var all := Descendants(roots);
      FreeIndices(roots + all);
    }

    method ReleaseAll(c: Channel)
      requires Valid()
      modifies this
      ensures Valid() && Abs() == BrokerTree.ReleaseAll(old(Abs()), c)
    {
      var roots := OwnedBy(c);
      FreeWithDescendants(roots);
    }

    /** Destroying a frame takes everything embedded in it along, and only its owner can. */
    method Destroy(owner: Channel, f: FrameId) returns (ok: bool)
      requires Valid()
      modifies this
      ensures Valid() && ok == (OwnerOf(old(Abs()), f) == Some(owner))
      ensures Abs() == if ok then FreeSubtrees(old(Abs()), {f.index}) else old(Abs())
    {
      OwnedMeansLive(Abs(), f);
      ok := LiveFrame(f) && slots[f.index].owner == Some(owner);
      if ok { FreeWithDescendants({f.index}); }
    }

    // ---- crashing ----

    /** Whom the crash of frame `i` is reported to: the owner of the frame that embeds it. */
    function Embedder(i: nat, c: Channel): Option<Channel>
      reads this
      requires i < |slots|
    {
      if slots[i].parent.None? then None
      else
        var o := Owner(slots[i].parent.value);
        if o == Some(c) then None else o
    }

    /** Crashes the outermost frames of a dead channel, in whatever order the set yields them. */
    method CrashFrames(frames: set<nat>, c: Channel) returns (notices: seq<Notice>)
      requires Valid() && frames == Outermost(Abs(), c)
      modifies this
      ensures Abs() == CrashAll(old(Abs()), frames)
      ensures Apart(notices) && forall n :: n in notices <==> Owed(old(Abs()), c, n)
    {
      ghost var t := Abs();
      var todo := frames;
      notices := [];
      while todo != {}
        invariant todo <= frames && Abs() == CrashAll(t, frames - todo)
        invariant Apart(notices) && forall n :: n in notices <==> Owed(t, c, n) && n.frame.index !in todo
      {
        var i :| i in todo;
        EmbedderIsOwed(t, c, frames - todo, i);
        var to := Embedder(i, c);
        ghost var was := notices;
        if to.Some? { notices := notices + [Notice(to.value, FrameId(i, slots[i].generation))]; }
        OneMoreOwed(t, c, was, notices, todo, i, to);
        slots := slots[i := CrashSlot(slots[i])];
        todo := todo - {i};
      }
      assert frames - todo == frames;
    }

    /**
      After a crash the outermost frames are crashed, everything beneath them is
      freed, and the notices are exactly the ones owed, in order.
     */
    method CrashChannel(c: Channel) returns (notices: seq<Notice>)
      requires Valid()
      modifies this
      ensures Valid() && Abs() == Crash(old(Abs()), c)
      ensures InOrder(notices) && forall n :: n in notices <==> Owed(old(Abs()), c, n)
    {
      CrashKeeps(Abs(), c);
      var roots := OwnedBy(c);
      var doomed := Descendants(roots);
      CrashThenFree(Abs(), roots - doomed, doomed);
      notices := CrashFrames(roots - doomed, c);
      notices := SortNotices(notices);
      FreeIndices(doomed);
    }

    /** Crashing some of the frames first does not change whom the crash of another is reported to. */
    lemma EmbedderIsOwed(t: Tree, c: Channel, done: set<nat>, i: nat)
      requires Forest(t) && done <= Outermost(t, c) && i in Outermost(t, c) && Abs() == CrashAll(t, done)
      ensures slots[i].parent == t.slots[i].parent && slots[i].generation == t.slots[i].generation
      ensures Embedder(i, c) == if t.slots[i].parent.Some? then OwnerOf(t, t.slots[i].parent.value) else None
      ensures t.slots[i].parent.Some? ==> Embedder(i, c).Some?
    {
      if t.slots[i].parent.Some? {
        OutermostParent(t, c, i);
        CrashingShows(t, done);
      }
    }
  }
}
