/**
  The frame tree of the capability broker (crates/px-broker/src/lib.rs,
  `FrameTree`) as a value: its slots, its operations, and the forest they keep.
 */
module BrokerTree {
  import opened Common

  const U32_MAX: nat := 0xFFFF_FFFF
  const U64_MAX: nat := 0xFFFF_FFFF_FFFF_FFFF
  const MAX_FRAME_DEPTH := 8
  const MAX_CHILDREN_PER_FRAME := 256

  type Channel = nat

  datatype Host = Domain(name: string) | Address(text: string) | NoHost

  datatype Origin = Site(scheme: string, host: Host, port: nat) | Opaque(id: nat)

  datatype FrameId = FrameId(index: nat, generation: nat)

  datatype Lifecycle = Free | Live | Crashed

  datatype Slot = Slot(
    generation: nat, owner: Option<Channel>, retired: bool, lifecycle: Lifecycle,
    parent: Option<FrameId>, depth: nat, ordinal: Option<nat>, group: nat, origin: Option<Origin>)

  datatype Tree = Tree(slots: seq<Slot>, nextGroup: nat)

  // ---- reads ----

  /** The frame is there, running or crashed. */
  predicate Exists(t: Tree, f: FrameId) {
    f.index < |t.slots| && t.slots[f.index].generation == f.generation && !t.slots[f.index].lifecycle.Free?
  }

  function OwnerOf(t: Tree, f: FrameId): Option<Channel> {
    if Exists(t, f) then t.slots[f.index].owner else None
  }

  function ParentOf(t: Tree, f: FrameId): Option<FrameId> {
    if Exists(t, f) then t.slots[f.index].parent else None
  }

  predicate IsLive(t: Tree, f: FrameId) {
    Exists(t, f) && t.slots[f.index].lifecycle.Live?
  }

  function IdAt(t: Tree, i: nat): FrameId
    requires i < |t.slots|
  {
    FrameId(i, t.slots[i].generation)
  }

  predicate Used(t: Tree, i: nat) {
    i < |t.slots| && !t.slots[i].lifecycle.Free?
  }

  // ---- the forest ----

  ghost predicate ParentOk(t: Tree, s: Slot, p: FrameId) {
    && IsLive(t, p)
    && s.depth == t.slots[p.index].depth + 1 <= MAX_FRAME_DEPTH
    && s.group == t.slots[p.index].group
    && s.ordinal.Some?
  }

  ghost predicate UsedOk(t: Tree, s: Slot) {
    && !s.retired && s.group < t.nextGroup
    && (s.owner.Some? <==> s.lifecycle.Live?)
    && (match s.parent
        case None => s.depth == 0 && s.ordinal.None?
        case Some(p) => ParentOk(t, s, p))
  }

  ghost predicate SlotOk(t: Tree, i: nat)
    requires i < |t.slots|
  {
    var s := t.slots[i];
    && s.generation <= U32_MAX
    && (if s.lifecycle.Free? then s.owner.None? && s.parent.None? && s.ordinal.None? && s.origin.None?
        else UsedOk(t, s))
  }

  ghost function Children(t: Tree, f: FrameId): set<nat> {
    set i | 0 <= i < |t.slots| && Used(t, i) && t.slots[i].parent == Some(f)
  }

  ghost predicate SiblingsOk(t: Tree) {
    forall i, j :: 0 <= i < j < |t.slots| && Used(t, i) && Used(t, j) && t.slots[i].parent == t.slots[j].parent ==>
      if t.slots[i].parent.Some? then t.slots[i].ordinal != t.slots[j].ordinal else t.slots[i].group != t.slots[j].group
  }

  ghost predicate FamiliesOk(t: Tree) {
    forall f :: |Children(t, f)| <= MAX_CHILDREN_PER_FRAME
  }

  /**
    A forest: parents resolve to live frames one level up, a tree shares a
    group, distinct roots have distinct groups, siblings have distinct ordinals
    and number at most 256, and nothing is deeper than the cap.
   */
  ghost predicate Forest(t: Tree) {
    && |t.slots| <= U32_MAX + 1
    && (forall i {:trigger SlotOk(t, i)} :: 0 <= i < |t.slots| ==> SlotOk(t, i))
    && SiblingsOk(t)
    && FamiliesOk(t)
  }

  lemma EmptyForest()
    ensures Forest(Tree([], 0))
  {
  }

  // ---- allocation ----

  predicate Reusable(s: Slot) {
    s.lifecycle.Free? && !s.retired && s.generation < U32_MAX
  }

  /** The first slot that can be handed out again, or the number of slots. */
  function FirstReusable(slots: seq<Slot>, from: nat): (m: nat)
    requires from <= |slots|
    ensures from <= m <= |slots| && (m < |slots| ==> Reusable(slots[m]))
    ensures forall i :: from <= i < m ==> !Reusable(slots[i])
    decreases |slots| - from
  {
    if from == |slots| || Reusable(slots[from]) then from else FirstReusable(slots, from + 1)
  }

  /** Free slots at the last generation among the first `m` are retired for good. */
  function Retired(slots: seq<Slot>, m: nat): (r: seq<Slot>)
    requires m <= |slots|
    ensures |r| == |slots|
  {
    seq(|slots|, i requires 0 <= i < |slots| =>
      if i < m && slots[i].lifecycle.Free? && !slots[i].retired then slots[i].(retired := true) else slots[i])
  }

  function NewSlot(generation: nat, owner: Channel, parent: Option<FrameId>, depth: nat, ordinal: Option<nat>,
                   group: nat): Slot {
    Slot(generation, Some(owner), false, Live, parent, depth, ordinal, group, None)
  }

  function Put(slots: seq<Slot>, m: nat, s: Slot): seq<Slot>
    requires m <= |slots|
  {
    if m < |slots| then slots[m := s] else slots + [s]
  }

  /** A slot for a new frame, with the handle minted for it. */
  function Alloc(t: Tree, owner: Channel, parent: Option<FrameId>, depth: nat, ordinal: Option<nat>,
                 group: nat): (Tree, Option<FrameId>) {
    var m := FirstReusable(t.slots, 0);
    var slots := Retired(t.slots, m);
    if m == |slots| && |slots| > U32_MAX then (t.(slots := slots), None)
    else
      var g := if m < |slots| then slots[m].generation + 1 else 0;
      (t.(slots := Put(slots, m, NewSlot(g, owner, parent, depth, ordinal, group))), Some(FrameId(m, g)))
  }

  lemma RetiringKeeps(t: Tree, m: nat)
    requires Forest(t) && m <= |t.slots|
    ensures var r := t.(slots := Retired(t.slots, m));
            Forest(r) && (forall f :: Exists(r, f) <==> Exists(t, f)) && (forall f :: OwnerOf(r, f) == OwnerOf(t, f))
  {
    var r := t.(slots := Retired(t.slots, m));
    forall i | 0 <= i < |r.slots| ensures SlotOk(r, i) { assert SlotOk(t, i); }
    forall f ensures Children(r, f) == Children(t, f) {}
    forall i, j | 0 <= i < j < |r.slots| && Used(r, i) && Used(r, j) && r.slots[i].parent == r.slots[j].parent
      ensures if r.slots[i].parent.Some? then r.slots[i].ordinal != r.slots[j].ordinal
              else r.slots[i].group != r.slots[j].group
    {
      assert Used(t, i) && Used(t, j);
    }
  }

  /** A frame that may be put into the forest. */
  ghost predicate MayJoin(t: Tree, s: Slot, nextGroup: nat) {
    && s.lifecycle.Live? && s.owner.Some? && !s.retired && s.generation <= U32_MAX
    && (match s.parent
        case None => s.depth == 0 && s.ordinal.None? && s.group == t.nextGroup && nextGroup == t.nextGroup + 1
        case Some(p) =>
          && ParentOk(t, s, p) && nextGroup == t.nextGroup
          && |Children(t, p)| < MAX_CHILDREN_PER_FRAME
          && forall i :: i in Children(t, p) ==> t.slots[i].ordinal != s.ordinal)
  }

  lemma PutKeepsSlots(t: Tree, m: nat, s: Slot, nextGroup: nat)
    requires Forest(t) && m <= |t.slots| && |Put(t.slots, m, s)| <= U32_MAX + 1
    requires m < |t.slots| ==> t.slots[m].lifecycle.Free?
    requires MayJoin(t, s, nextGroup)
    ensures var r := Tree(Put(t.slots, m, s), nextGroup);
            forall i {:trigger SlotOk(r, i)} :: 0 <= i < |r.slots| ==> SlotOk(r, i)
  {
    var r := Tree(Put(t.slots, m, s), nextGroup);
    forall f | IsLive(t, f) ensures IsLive(r, f) && r.slots[f.index] == t.slots[f.index] {}
    if s.parent.Some? { assert SlotOk(t, s.parent.value.index); }
    forall i | 0 <= i < |r.slots| ensures SlotOk(r, i) {
      if i != m { assert SlotOk(t, i); }
    }
  }

  lemma PutKeepsSiblings(t: Tree, m: nat, s: Slot, nextGroup: nat)
    requires Forest(t) && m <= |t.slots|
    requires m < |t.slots| ==> t.slots[m].lifecycle.Free?
    requires MayJoin(t, s, nextGroup)
    ensures SiblingsOk(Tree(Put(t.slots, m, s), nextGroup))
  {
    var r := Tree(Put(t.slots, m, s), nextGroup);
    forall i, j | 0 <= i < j < |r.slots| && Used(r, i) && Used(r, j) && r.slots[i].parent == r.slots[j].parent
      ensures if r.slots[i].parent.Some? then r.slots[i].ordinal != r.slots[j].ordinal
              else r.slots[i].group != r.slots[j].group
    {
      if i != m && j != m {
        assert Used(t, i) && Used(t, j);
      } else {
        var o := if i == m then j else i;
        assert Used(t, o) && SlotOk(t, o);
        if s.parent.Some? { assert o in Children(t, s.parent.value); }
      }
    }
  }

  lemma ChildrenAfterPut(t: Tree, m: nat, s: Slot, nextGroup: nat, f: FrameId)
    requires m <= |t.slots| && (m < |t.slots| ==> t.slots[m].lifecycle.Free?) && s.lifecycle.Live?
    ensures Children(Tree(Put(t.slots, m, s), nextGroup), f) ==
            Children(t, f) + (if s.parent == Some(f) then {m} else {})
  {
  }

  lemma PutKeepsFamilies(t: Tree, m: nat, s: Slot, nextGroup: nat)
    requires FamiliesOk(t) && m <= |t.slots|
    requires m < |t.slots| ==> t.slots[m].lifecycle.Free?
    requires s.lifecycle.Live? && (s.parent.Some? ==> |Children(t, s.parent.value)| < MAX_CHILDREN_PER_FRAME)
    ensures FamiliesOk(Tree(Put(t.slots, m, s), nextGroup))
  {
    var r := Tree(Put(t.slots, m, s), nextGroup);
    forall f ensures |Children(r, f)| <= MAX_CHILDREN_PER_FRAME {
      ChildrenAfterPut(t, m, s, nextGroup, f);
      assert |Children(t, f)| <= MAX_CHILDREN_PER_FRAME;
    }
  }

  /** The tree looks the same to everyone. */
  ghost predicate Unseen(t: Tree, r: Tree) {
    (forall f :: Exists(r, f) <==> Exists(t, f)) && (forall f :: OwnerOf(r, f) == OwnerOf(t, f))
  }

  /** What minting a frame does to everyone's view of the tree. */
  ghost predicate Mints(t: Tree, r: Tree, f: FrameId, owner: Channel) {
    && !Exists(t, f) && Exists(r, f) && OwnerOf(r, f) == Some(owner)
    && (forall g :: g != f ==> (Exists(r, g) <==> Exists(t, g)) && OwnerOf(r, g) == OwnerOf(t, g))
  }

  lemma JoinAfterRetiring(t: Tree, m: nat, s: Slot, nextGroup: nat)
    requires Forest(t) && m <= |t.slots| && MayJoin(t, s, nextGroup)
    ensures MayJoin(t.(slots := Retired(t.slots, m)), s, nextGroup)
  {
    var r := t.(slots := Retired(t.slots, m));
    if s.parent.Some? {
      assert Children(r, s.parent.value) == Children(t, s.parent.value);
    }
  }

  lemma AllocKeeps(t: Tree, owner: Channel, parent: Option<FrameId>, depth: nat, ordinal: Option<nat>, group: nat,
                   nextGroup: nat)
    requires Forest(t)
    requires MayJoin(t, NewSlot(0, owner, parent, depth, ordinal, group), nextGroup)
    ensures var (r, f) := Alloc(t, owner, parent, depth, ordinal, group);
            && (f.None? ==> Forest(r) && Unseen(t, r))
            && (f.Some? ==> Forest(r.(nextGroup := nextGroup)) && Mints(t, r, f.value, owner))
  {
    var m := FirstReusable(t.slots, 0);
    var mid := t.(slots := Retired(t.slots, m));
    RetiringKeeps(t, m);
    var (r, f) := Alloc(t, owner, parent, depth, ordinal, group);
    if f.Some? {
      var s := NewSlot(f.value.generation, owner, parent, depth, ordinal, group);
      if m < |t.slots| { assert SlotOk(t, m); }
      assert MayJoin(t, s, nextGroup);
      JoinAfterRetiring(t, m, s, nextGroup);
      PutKeepsSlots(mid, m, s, nextGroup);
      PutKeepsSiblings(mid, m, s, nextGroup);
      PutKeepsFamilies(mid, m, s, nextGroup);
    }
  }

  // ---- creating frames ----

  function Create(t: Tree, owner: Channel): (Tree, Option<FrameId>) {
    if t.nextGroup + 1 > U64_MAX then (t, None)
    else
      var (r, f) := Alloc(t, owner, None, 0, None, t.nextGroup);
      if f.Some? then (r.(nextGroup := t.nextGroup + 1), f) else (r, None)
  }

  lemma CreateKeeps(t: Tree, owner: Channel)
    requires Forest(t)
    ensures var (r, f) := Create(t, owner);
            && Forest(r)
            && (f.None? ==> Unseen(t, r))
            && (f.Some? ==> Mints(t, r, f.value, owner))
  {
    AllocKeeps(t, owner, None, 0, None, t.nextGroup, t.nextGroup + 1);
  }

  datatype TreeError = Full | NoParent | TooDeep | TooManyChildren | OrdinalTaken

  ghost predicate OrdinalUsed(t: Tree, parent: FrameId, ordinal: nat) {
    exists i :: i in Children(t, parent) && t.slots[i].ordinal == Some(ordinal)
  }

  /** Why a child is refused, if it is. */
  ghost function ChildRefusal(t: Tree, owner: Channel, parent: FrameId, ordinal: nat): Option<TreeError> {
    if !IsLive(t, parent) || OwnerOf(t, parent) != Some(owner) then Some(NoParent)
    else if t.slots[parent.index].depth + 1 > MAX_FRAME_DEPTH then Some(TooDeep)
    else if OrdinalUsed(t, parent, ordinal) then Some(OrdinalTaken)
    else if |Children(t, parent)| >= MAX_CHILDREN_PER_FRAME then Some(TooManyChildren)
    else None
  }

  ghost function CreateChild(t: Tree, owner: Channel, parent: FrameId,
                             ordinal: nat): (Tree, Result<FrameId, TreeError>) {
    var refusal := ChildRefusal(t, owner, parent, ordinal);
    if refusal.Some? then (t, Err(refusal.value))
    else
      var p := t.slots[parent.index];
      var (r, f) := Alloc(t, owner, Some(parent), p.depth + 1, Some(ordinal), p.group);
      (r, if f.Some? then Ok(f.value) else Err(Full))
  }

  lemma ChildMayJoin(t: Tree, owner: Channel, parent: FrameId, ordinal: nat)
    requires Forest(t) && ChildRefusal(t, owner, parent, ordinal).None?
    ensures var p := t.slots[parent.index];
            MayJoin(t, NewSlot(0, owner, Some(parent), p.depth + 1, Some(ordinal), p.group), t.nextGroup)
  {
  }

  lemma AllocPlaces(t: Tree, owner: Channel, parent: Option<FrameId>, depth: nat, ordinal: Option<nat>, group: nat)
    ensures var (r, f) := Alloc(t, owner, parent, depth, ordinal, group);
            r.nextGroup == t.nextGroup && (f.Some? ==> ParentOf(r, f.value) == parent)
  {
  }

  lemma CreateChildKeeps(t: Tree, owner: Channel, parent: FrameId, ordinal: nat)
    requires Forest(t)
    ensures var (r, f) := CreateChild(t, owner, parent, ordinal);
            && Forest(r)
            && (f.Err? ==> Unseen(t, r))
            && (f.Ok? ==> Mints(t, r, f.value, owner))
            && (f.Ok? ==> ParentOf(r, f.value) == Some(parent) && OwnerOf(t, parent) == Some(owner))
  {
    if ChildRefusal(t, owner, parent, ordinal).None? {
      var p := t.slots[parent.index];
      ChildMayJoin(t, owner, parent, ordinal);
      AllocKeeps(t, owner, Some(parent), p.depth + 1, Some(ordinal), p.group, t.nextGroup);
      AllocPlaces(t, owner, Some(parent), p.depth + 1, Some(ordinal), p.group);
    }
  }

  // ---- ancestors ----

  /** Some strict ancestor of frame `i` is in `seed`. */
  ghost predicate Beneath(t: Tree, i: nat, seed: set<nat>)
    requires Forest(t) && i < |t.slots|
    decreases t.slots[i].depth
  {
    Used(t, i) && t.slots[i].parent.Some? &&
    (assert SlotOk(t, i);
     var p := t.slots[i].parent.value.index;
     p in seed || Beneath(t, p, seed))
  }

  /** `a` is a proper ancestor of `f`, at any distance. */
  ghost predicate Ancestor(t: Tree, a: FrameId, f: FrameId)
    requires Forest(t)
  {
    Exists(t, f) && Exists(t, a) && Beneath(t, f.index, {a.index})
  }

  /** The top-level frame of the tree that `i` is in. */
  ghost function RootOf(t: Tree, i: nat): (r: nat)
    requires Forest(t) && Used(t, i)
    ensures Used(t, r) && t.slots[r].parent.None? && t.slots[r].group == t.slots[i].group
    decreases t.slots[i].depth
  {
    assert SlotOk(t, i);
    if t.slots[i].parent.None? then i else RootOf(t, t.slots[i].parent.value.index)
  }

  /** Two frames of one group have the same top-level frame. */
  lemma GroupHasOneRoot(t: Tree, i: nat, j: nat)
    requires Forest(t) && Used(t, i) && Used(t, j)
    ensures t.slots[i].group == t.slots[j].group <==> RootOf(t, i) == RootOf(t, j)
  {
  }

  // ---- freeing ----

  function FreeSlot(s: Slot): Slot {
    s.(owner := None, lifecycle := Free, parent := None, ordinal := None, origin := None)
  }

  function Freed(t: Tree, gone: set<nat>): Tree {
    t.(slots := seq(|t.slots|, i requires 0 <= i < |t.slots| =>
      if i in gone then FreeSlot(t.slots[i]) else t.slots[i]))
  }

  /** Nothing outside hangs from inside. */
  ghost predicate Closed(t: Tree, gone: set<nat>) {
    forall i: nat :: Used(t, i) && t.slots[i].parent.Some? && t.slots[i].parent.value.index in gone ==> i in gone
  }

  ghost predicate AllUsed(t: Tree, s: set<nat>) {
    forall i :: i in s ==> Used(t, i)
  }

  lemma {:induction false} SubsetSize(a: set<nat>, b: set<nat>)
    requires a <= b
    ensures |a| <= |b|
    decreases |a|
  {
    if a != {} {
      var x :| x in a;
      SubsetSize(a - {x}, b - {x});
    }
  }

  lemma FreeingKeeps(t: Tree, gone: set<nat>)
    requires Forest(t) && Closed(t, gone) && AllUsed(t, gone)
    ensures Forest(Freed(t, gone))
    ensures forall f :: Exists(Freed(t, gone), f) <==> Exists(t, f) && f.index !in gone
    ensures forall f :: OwnerOf(Freed(t, gone), f) == if f.index in gone then None else OwnerOf(t, f)
  {
    var r := Freed(t, gone);
    forall i | 0 <= i < |r.slots| ensures SlotOk(r, i) { assert SlotOk(t, i); }
    forall i, j | 0 <= i < j < |r.slots| && Used(r, i) && Used(r, j) && r.slots[i].parent == r.slots[j].parent
      ensures if r.slots[i].parent.Some? then r.slots[i].ordinal != r.slots[j].ordinal
              else r.slots[i].group != r.slots[j].group
    {
      assert Used(t, i) && Used(t, j);
    }
    forall f ensures |Children(r, f)| <= MAX_CHILDREN_PER_FRAME {
      assert Children(r, f) <= Children(t, f);
      SubsetSize(Children(r, f), Children(t, f));
    }
  }

  ghost function OwnedBy(t: Tree, c: Channel): set<nat> {
    set i | 0 <= i < |t.slots| && t.slots[i].lifecycle.Live? && t.slots[i].owner == Some(c)
  }

  /** Strict descendants of a set of frames. */
  ghost function Descendants(t: Tree, seed: set<nat>): set<nat>
    requires Forest(t)
  {
    set i | 0 <= i < |t.slots| && Beneath(t, i, seed)
  }

  lemma SubtreeIsClosed(t: Tree, seed: set<nat>)
    requires Forest(t)
    ensures Closed(t, seed + Descendants(t, seed))
    ensures forall i: nat ::
            Used(t, i) && t.slots[i].parent.Some? && t.slots[i].parent.value.index in seed + Descendants(t, seed) ==>
                i in Descendants(t, seed)
  {
  }

  ghost function FreeSubtrees(t: Tree, roots: set<nat>): Tree
    requires Forest(t)
  {
    Freed(t, roots + Descendants(t, roots))
  }

  /** A closed channel takes its frames along, with all that hangs beneath them. */
  ghost function ReleaseAll(t: Tree, c: Channel): Tree
    requires Forest(t)
  {
    FreeSubtrees(t, OwnedBy(t, c))
  }

  lemma FreeSubtreesKeeps(t: Tree, roots: set<nat>)
    requires Forest(t) && AllUsed(t, roots)
    ensures var r, gone := FreeSubtrees(t, roots), roots + Descendants(t, roots);
            && Forest(r)
            && (forall f :: Exists(r, f) <==> Exists(t, f) && f.index !in gone)
            && (forall f :: OwnerOf(r, f) == if f.index in gone then None else OwnerOf(t, f))
  {
    SubtreeIsClosed(t, roots);
    FreeingKeeps(t, roots + Descendants(t, roots));
  }

  // ---- crashing ----

  function CrashSlot(s: Slot): Slot {
    s.(owner := None, lifecycle := Crashed)
  }

  /** The frames of a dead channel that are not embedded in another of its frames. */
  ghost function Outermost(t: Tree, c: Channel): set<nat>
    requires Forest(t)
  {
    OwnedBy(t, c) - Descendants(t, OwnedBy(t, c))
  }

  function CrashAll(t: Tree, crashed: set<nat>): Tree {
    t.(slots := seq(|t.slots|, i requires 0 <= i < |t.slots| =>
      if i in crashed then CrashSlot(t.slots[i]) else t.slots[i]))
  }

  ghost function Crash(t: Tree, c: Channel): Tree
    requires Forest(t)
  {
    CrashAll(Freed(t, Descendants(t, OwnedBy(t, c))), Outermost(t, c))
  }

  /** Nothing hangs from these frames. */
  ghost predicate Childless(t: Tree, s: set<nat>) {
    forall i: nat :: Used(t, i) && t.slots[i].parent.Some? ==> t.slots[i].parent.value.index !in s
  }

  lemma CrashingKeeps(t: Tree, crashed: set<nat>)
    requires Forest(t) && AllUsed(t, crashed) && Childless(t, crashed)
    ensures Forest(CrashAll(t, crashed))
  {
    var r := CrashAll(t, crashed);
    forall i | 0 <= i < |r.slots| ensures SlotOk(r, i) { assert SlotOk(t, i); }
    forall i, j | 0 <= i < j < |r.slots| && Used(r, i) && Used(r, j) && r.slots[i].parent == r.slots[j].parent
      ensures if r.slots[i].parent.Some? then r.slots[i].ordinal != r.slots[j].ordinal
              else r.slots[i].group != r.slots[j].group
    {
      assert Used(t, i) && Used(t, j);
    }
    forall f ensures |Children(r, f)| <= MAX_CHILDREN_PER_FRAME {
      assert Children(r, f) == Children(t, f);
    }
  }

  lemma CrashingShows(t: Tree, crashed: set<nat>)
    requires AllUsed(t, crashed)
    ensures forall f :: Exists(CrashAll(t, crashed), f) <==> Exists(t, f)
    ensures forall f :: OwnerOf(CrashAll(t, crashed), f) == if f.index in crashed then None else OwnerOf(t, f)
  {
  }

  /** After a crash, exactly the outermost frames are crashed and exactly what was beneath them is gone. */
  lemma CrashKeeps(t: Tree, c: Channel)
    requires Forest(t)
    ensures var r, doomed, crashed := Crash(t, c), Descendants(t, OwnedBy(t, c)), Outermost(t, c);
            && Forest(r)
            && (forall f :: Exists(r, f) <==> Exists(t, f) && f.index !in doomed)
            && (forall f :: OwnerOf(r, f) == if f.index in doomed || f.index in crashed then None else OwnerOf(t, f))
            && (forall f :: Exists(r, f) ==>
                (r.slots[f.index].lifecycle.Crashed? <==> t.slots[f.index].lifecycle.Crashed? || f.index in crashed))
  {
    var roots := OwnedBy(t, c);
    var doomed, crashed := Descendants(t, roots), Outermost(t, c);
    SubtreeIsClosed(t, roots);
    FreeingKeeps(t, doomed);
    var mid := Freed(t, doomed);
    assert AllUsed(mid, crashed) && Childless(mid, crashed);
    CrashingKeeps(mid, crashed);
    CrashingShows(mid, crashed);
  }

  /** An outermost frame that is embedded hangs from a live frame of another channel. */
  lemma OutermostParent(t: Tree, c: Channel, i: nat)
    requires Forest(t) && i in Outermost(t, c) && t.slots[i].parent.Some?
    ensures OwnerOf(t, t.slots[i].parent.value).Some? && OwnerOf(t, t.slots[i].parent.value) != Some(c)
  {
    assert SlotOk(t, i);
    var p := t.slots[i].parent.value;
    assert SlotOk(t, p.index);
    assert !Beneath(t, i, OwnedBy(t, c));
  }

  /** A crash notice: the frame, and the owner of the frame that embeds it. */
  datatype Notice = Notice(to: Channel, frame: FrameId)

  ghost predicate Owed(t: Tree, c: Channel, n: Notice)
    requires Forest(t)
  {
    && n.frame.index in Outermost(t, c) && n.frame == IdAt(t, n.frame.index)
    && t.slots[n.frame.index].parent.Some?
    && OwnerOf(t, t.slots[n.frame.index].parent.value) == Some(n.to)
  }

  // ---- changing a live frame ----

  /** Only the owner or the origin of a live frame changes. */
  ghost predicate Retouched(s: Slot, s': Slot) {
    s.lifecycle.Live? && s'.owner.Some? && s' == s.(owner := s'.owner, origin := s'.origin)
  }

  lemma RetouchingKeeps(t: Tree, f: FrameId, s': Slot)
    requires Forest(t) && Exists(t, f) && Retouched(t.slots[f.index], s')
    ensures var r := t.(slots := t.slots[f.index := s']);
            && Forest(r) && (forall g :: Exists(r, g) <==> Exists(t, g))
            && (forall g :: OwnerOf(r, g) == if g == f then s'.owner else OwnerOf(t, g))
            && (forall g :: ParentOf(r, g) == ParentOf(t, g))
  {
    var r := t.(slots := t.slots[f.index := s']);
    forall i | 0 <= i < |r.slots| ensures SlotOk(r, i) { assert SlotOk(t, i); }
    forall i, j | 0 <= i < j < |r.slots| && Used(r, i) && Used(r, j) && r.slots[i].parent == r.slots[j].parent
      ensures if r.slots[i].parent.Some? then r.slots[i].ordinal != r.slots[j].ordinal
              else r.slots[i].group != r.slots[j].group
    {
      assert Used(t, i) && Used(t, j);
    }
    forall g ensures |Children(r, g)| <= MAX_CHILDREN_PER_FRAME {
      assert Children(r, g) == Children(t, g);
    }
  }

  function CommitOrigin(t: Tree, f: FrameId, origin: Origin): Tree
    requires IsLive(t, f)
  {
    t.(slots := t.slots[f.index := t.slots[f.index].(origin := Some(origin))])
  }

  function Transfer(t: Tree, f: FrameId, to: Channel): Tree
    requires IsLive(t, f)
  {
    t.(slots := t.slots[f.index := t.slots[f.index].(owner := Some(to))])
  }

  lemma OwnedMeansLive(t: Tree, f: FrameId)
    requires Forest(t)
    ensures IsLive(t, f) <==> OwnerOf(t, f).Some?
  {
    if Exists(t, f) { assert SlotOk(t, f.index); }
  }

  // ---- process keys ----

  datatype ProcessKey = ProcessKey(site: string, origin: Origin)

  /** Registrable domain of a domain name, supplied by the caller. */
  type Resolver = string -> Option<string>

  /** The key of a document: the site of the top-level document and the document's own origin. */
  function NewKey(top: Origin, origin: Origin, resolve: Resolver): Option<ProcessKey> {
    if top.Site? && top.host.Domain? && resolve(top.host.name).Some? && resolve(top.host.name).value != []
    then Some(ProcessKey(resolve(top.host.name).value, origin)) else None
  }

  ghost function KeyOf(t: Tree, f: FrameId, resolve: Resolver): Option<ProcessKey>
    requires Forest(t)
  {
    if !IsLive(t, f) || t.slots[f.index].origin.None? then None
    else
      var top := t.slots[RootOf(t, f.index)].origin;
      if top.None? then None else NewKey(top.value, t.slots[f.index].origin.value, resolve)
  }

  // ---- what a process key separates ----

  /** The origin recorded at the top-level frame above. */
  ghost function TopOrigin(t: Tree, f: FrameId): Option<Origin>
    requires Forest(t) && Exists(t, f)
  {
    t.slots[RootOf(t, f.index)].origin
  }

  /** A top-level origin with a registrable domain. */
  ghost predicate OfSite(top: Option<Origin>, resolve: Resolver, site: string) {
    && top.Some? && top.value.Site? && top.value.host.Domain?
    && resolve(top.value.host.name) == Some(site) && site != ""
  }

  /** A key is the registrable domain at the top and the origin of the frame itself. */
  lemma KeyMeans(t: Tree, f: FrameId, resolve: Resolver, k: ProcessKey)
    requires Forest(t)
    ensures KeyOf(t, f, resolve) == Some(k) <==>
            && IsLive(t, f) && t.slots[f.index].origin == Some(k.origin)
            && OfSite(TopOrigin(t, f), resolve, k.site)
  {
  }
}
