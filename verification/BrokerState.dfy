/**
  The capability broker as a state machine (crates/px-broker/src/lib.rs,
  `Broker`, and site.rs, `ProcessPool`): what each call does to the state, and
  the invariant every call keeps.
 */
module BrokerState {
  import opened Common
  import opened BrokerTree

  const MAX_CONTENT_PROCESSES := 64
  const AUDIT_CAPACITY := 256

  datatype DenyReason =
    | NotYourFrame | NoSuchFrame | UnknownChannel | TooDeepFrame | FrameLimit
    | NotAncestor | NoProcessKey | BadUrl | Internal

  /** Frames a channel hosts, and frames it may ask about. */
  datatype Caps = Caps(hosts: set<FrameId>, visible: set<FrameId>)

  type PoolKey = (nat, ProcessKey)

  datatype Pool = Pool(byKey: map<PoolKey, Channel>, byChannel: map<Channel, PoolKey>)

  datatype State = State(
    nextChannel: nat, caps: map<Channel, Caps>, tree: Tree, pool: Pool, audit: seq<(Channel, DenyReason)>)

  const INITIAL: State := State(0, map[], Tree([], 0), Pool(map[], map[]), [])

  // ---- the invariant ----

  /** A channel hosts exactly the live frames it owns, sees what it hosts, and sees only frames that exist. */
  ghost predicate CapsAgree(t: Tree, c: Channel, caps: Caps) {
    && (forall f :: f in caps.hosts <==> OwnerOf(t, f) == Some(c))
    && caps.hosts <= caps.visible
    && (forall f :: f in caps.visible ==> Exists(t, f))
  }

  ghost predicate TableOk(t: Tree, table: map<Channel, Caps>) {
    && (forall c :: c in table ==> CapsAgree(t, c, table[c]))
    && (forall f :: OwnerOf(t, f).Some? ==> OwnerOf(t, f).value in table)
  }

  /** The two maps are inverse to each other and bounded. */
  ghost predicate PoolOk(p: Pool) {
    && (forall k :: k in p.byKey ==> p.byKey[k] in p.byChannel && p.byChannel[p.byKey[k]] == k)
    && (forall c :: c in p.byChannel ==> p.byChannel[c] in p.byKey && p.byKey[p.byChannel[c]] == c)
    && |p.byChannel| <= MAX_CONTENT_PROCESSES
  }

  /** Every pooled channel is open. */
  ghost predicate PoolOpen(p: Pool, table: map<Channel, Caps>) {
    forall c :: c in p.byChannel ==> c in table
  }

  ghost predicate Inv(s: State) {
    && Forest(s.tree) && TableOk(s.tree, s.caps) && PoolOk(s.pool) && PoolOpen(s.pool, s.caps)
    && (forall c :: c in s.caps ==> c < s.nextChannel)
    && |s.audit| <= AUDIT_CAPACITY
  }

  lemma InitialInv()
    ensures Inv(INITIAL)
  {
    EmptyForest();
  }

  // ---- the process pool ----

  datatype PoolError = PoolAtCap | KeyTaken | ChannelBusy

  datatype Lookup = Share(channel: Channel) | Spawn | AtCapacity

  function PoolLookup(p: Pool, k: PoolKey): Lookup {
    if k in p.byKey then Share(p.byKey[k])
    else if |p.byChannel| >= MAX_CONTENT_PROCESSES then AtCapacity
    else Spawn
  }

  function Register(p: Pool, k: PoolKey, c: Channel): Result<Pool, PoolError> {
    if c in p.byChannel then Err(ChannelBusy)
    else if k in p.byKey then Err(KeyTaken)
    else if |p.byChannel| >= MAX_CONTENT_PROCESSES then Err(PoolAtCap)
    else Ok(Pool(p.byKey[k := c], p.byChannel[c := k]))
  }

  function Forget(p: Pool, c: Channel): Pool {
    if c in p.byChannel then Pool(p.byKey - {p.byChannel[c]}, p.byChannel - {c}) else p
  }

  lemma RegisterPool(p: Pool, k: PoolKey, c: Channel)
    requires PoolOk(p) && Register(p, k, c).Ok?
    ensures PoolOk(Register(p, k, c).value)
  {
    assert p.byChannel[c := k].Keys == p.byChannel.Keys + {c};
  }

  lemma ForgetPool(p: Pool, c: Channel)
    requires PoolOk(p)
    ensures PoolOk(Forget(p, c)) && Forget(p, c).byChannel.Keys == p.byChannel.Keys - {c}
  {
    if c in p.byChannel {
      assert (p.byChannel - {c}).Keys == p.byChannel.Keys - {c};
    }
  }

  lemma PoolKeeps(p: Pool, k: PoolKey, c: Channel)
    requires PoolOk(p)
    ensures Register(p, k, c).Ok? ==> PoolOk(Register(p, k, c).value)
    ensures PoolOk(Forget(p, c)) && Forget(p, c).byChannel.Keys == p.byChannel.Keys - {c}
    ensures forall d :: d != c && d in p.byChannel ==> Forget(p, c).byChannel[d] == p.byChannel[d]
  {
    ForgetPool(p, c);
    if Register(p, k, c).Ok? { RegisterPool(p, k, c); }
  }

  /** A key is shared exactly with the channel that serves it. */
  lemma LookupShares(p: Pool, k: PoolKey, c: Channel)
    requires PoolOk(p)
    ensures PoolLookup(p, k) == Share(c) <==> c in p.byChannel && p.byChannel[c] == k
  {
  }

  /** What a lookup says is what registering a channel without a key would say. */
  lemma LookupForetells(p: Pool, k: PoolKey, c: Channel)
    requires c !in p.byChannel
    ensures PoolLookup(p, k).Spawn? <==> Register(p, k, c).Ok?
    ensures PoolLookup(p, k).AtCapacity? <==> Register(p, k, c) == Err(PoolAtCap)
    ensures PoolLookup(p, k).Share? <==> Register(p, k, c) == Err(KeyTaken)
  {
  }

  // ---- channels ----

  function Open(s: State): (State, Option<Channel>) {
    if s.nextChannel + 1 > U64_MAX then (s, None)
    else (s.(nextChannel := s.nextChannel + 1, caps := s.caps[s.nextChannel := Caps({}, {})]), Some(s.nextChannel))
  }

  lemma OpenKeeps(s: State)
    requires Inv(s)
    ensures Inv(Open(s).0)
  {
  }

  /** Every channel forgets the frames that are gone, and hosts only what it owns. */
  function Purged(t: Tree, table: map<Channel, Caps>): map<Channel, Caps> {
    map c | c in table :: Caps(
      set f | f in table[c].hosts && OwnerOf(t, f) == Some(c),
      set f | f in table[c].visible && Exists(t, f))
  }

  /** Frames may go and owners may vanish, but no frame changes hands. */
  lemma PurgeKeeps(t: Tree, r: Tree, table: map<Channel, Caps>, gone: Channel)
    requires TableOk(t, table)
    requires forall f :: OwnerOf(r, f).Some? ==>
            OwnerOf(r, f) == OwnerOf(t, f) && OwnerOf(r, f) != Some(gone) && Exists(r, f)
    requires forall f :: Exists(r, f) ==> Exists(t, f)
    ensures TableOk(r, Purged(r, table - {gone}))
  {
  }

  ghost function Close(s: State, c: Channel): State
    requires Inv(s)
  {
    var tree := ReleaseAll(s.tree, c);
    s.(caps := Purged(tree, s.caps - {c}), tree := tree, pool := Forget(s.pool, c))
  }

  lemma CloseKeeps(s: State, c: Channel)
    requires Inv(s)
    ensures Inv(Close(s, c))
  {
    var roots := OwnedBy(s.tree, c);
    FreeSubtreesKeeps(s.tree, roots);
    var tree := ReleaseAll(s.tree, c);
    forall f | OwnerOf(tree, f).Some? ensures OwnerOf(tree, f) != Some(c) {
      OwnedMeansLive(s.tree, f);
    }
    PurgeKeeps(s.tree, tree, s.caps, c);
    PoolKeeps(s.pool, (0, ProcessKey("", Opaque(0))), c);
  }

  ghost function Died(s: State, c: Channel): State
    requires Inv(s)
  {
    var tree := Crash(s.tree, c);
    s.(caps := Purged(tree, s.caps - {c}), tree := tree, pool := Forget(s.pool, c))
  }

  lemma DiedKeeps(s: State, c: Channel)
    requires Inv(s)
    ensures Inv(Died(s, c))
  {
    CrashKeeps(s.tree, c);
    var tree := Crash(s.tree, c);
    var roots := OwnedBy(s.tree, c);
    forall f | OwnerOf(tree, f).Some? ensures OwnerOf(tree, f) != Some(c) {
      OwnedMeansLive(s.tree, f);
    }
    PurgeKeeps(s.tree, tree, s.caps, c);
    PoolKeeps(s.pool, (0, ProcessKey("", Opaque(0))), c);
  }

  /** A notice goes to a channel that is still open, and never to the dead one. */
  lemma NoticesReachOpenChannels(s: State, c: Channel, n: Notice)
    requires Inv(s) && Owed(s.tree, c, n)
    ensures n.to != c && n.to in Died(s, c).caps
  {
    OutermostParent(s.tree, c, n.frame.index);
  }

  // ---- frames ----

  function Granted(table: map<Channel, Caps>, c: Channel, f: FrameId): map<Channel, Caps>
    requires c in table
  {
    table[c := Caps(table[c].hosts + {f}, table[c].visible + {f})]
  }

  lemma MintKeeps(t: Tree, r: Tree, table: map<Channel, Caps>, c: Channel, f: FrameId)
    requires TableOk(t, table) && c in table && Mints(t, r, f, c)
    ensures TableOk(r, Granted(table, c, f))
  {
  }

  lemma UnseenKeeps(t: Tree, r: Tree, table: map<Channel, Caps>)
    requires TableOk(t, table) && Unseen(t, r)
    ensures TableOk(r, table)
  {
  }

  function CreateFrame(s: State, c: Channel): (State, Option<FrameId>) {
    if c !in s.caps then (s, None)
    else
      var (tree, f) := Create(s.tree, c);
      if f.None? then (s.(tree := tree), None)
      else (s.(tree := tree, caps := Granted(s.caps, c, f.value)), f)
  }

  lemma CreateFrameKeeps(s: State, c: Channel)
    requires Inv(s)
    ensures Inv(CreateFrame(s, c).0)
  {
    if c in s.caps {
      CreateKeeps(s.tree, c);
      var (tree, f) := Create(s.tree, c);
      if f.Some? { MintKeeps(s.tree, tree, s.caps, c, f.value); } else { UnseenKeeps(s.tree, tree, s.caps); }
    }
  }

  function Reason(e: TreeError): DenyReason {
    match e
    case TooDeep => TooDeepFrame
    case TooManyChildren => FrameLimit
    case OrdinalTaken => FrameLimit
    case NoParent => NoSuchFrame
    case Full => Internal
  }

  /** A channel holds a frame: it owns it, and its table says so. */
  predicate Holds(s: State, c: Channel, f: FrameId) {
    OwnerOf(s.tree, f) == Some(c) && c in s.caps && f in s.caps[c].hosts
  }

  predicate CanSee(s: State, c: Channel, f: FrameId) {
    OwnerOf(s.tree, f).Some? && c in s.caps && f in s.caps[c].visible
  }

  ghost function CreateChildFrame(s: State, c: Channel, parent: FrameId,
                                  ordinal: nat): (State, Result<FrameId, DenyReason>) {
    if c !in s.caps then (s, Err(UnknownChannel))
    else if !Holds(s, c, parent) then (s, Err(if OwnerOf(s.tree, parent).None? then NoSuchFrame else NotYourFrame))
    else
      var (tree, f) := CreateChild(s.tree, c, parent, ordinal);
      if f.Err? then (s.(tree := tree), Err(Reason(f.error)))
      else (s.(tree := tree, caps := Granted(s.caps, c, f.value)), Ok(f.value))
  }

  lemma CreateChildFrameKeeps(s: State, c: Channel, parent: FrameId, ordinal: nat)
    requires Inv(s)
    ensures Inv(CreateChildFrame(s, c, parent, ordinal).0)
  {
    if c in s.caps && Holds(s, c, parent) {
      CreateChildKeeps(s.tree, c, parent, ordinal);
      var (tree, f) := CreateChild(s.tree, c, parent, ordinal);
      if f.Ok? { MintKeeps(s.tree, tree, s.caps, c, f.value); } else { UnseenKeeps(s.tree, tree, s.caps); }
    }
  }

  function Grant(s: State, viewer: Channel, f: FrameId): (State, bool) {
    if OwnerOf(s.tree, f).None? || viewer !in s.caps then (s, false)
    else (s.(caps := s.caps[viewer := s.caps[viewer].(visible := s.caps[viewer].visible + {f})]), true)
  }

  lemma GrantKeeps(s: State, viewer: Channel, f: FrameId)
    requires Inv(s)
    ensures Inv(Grant(s, viewer, f).0)
  {
    var now := Grant(s, viewer, f).0;
    forall d | d in now.caps ensures CapsAgree(now.tree, d, now.caps[d]) {
      assert CapsAgree(s.tree, d, s.caps[d]);
    }
  }

  // ---- moving frames between processes ----

  datatype Transferred = Transferred(replaced: Option<Channel>, to: Channel)

  function ParentOwner(t: Tree, f: FrameId): Option<Channel> {
    if ParentOf(t, f).Some? then OwnerOf(t, ParentOf(t, f).value) else None
  }

  /**
    The old owner loses the frame (and sight of it, unless it embeds it), the new
    one gains it, the embedder sees it.
   */
  function MovedCaps(table: map<Channel, Caps>, f: FrameId, from: Channel, to: Channel,
                     embedder: Option<Channel>): map<Channel, Caps> {
    map c | c in table ::
      var hosts := if c == from then table[c].hosts - {f} else if c == to then table[c].hosts + {f} else table[c].hosts;
      var kept := if c == from && embedder != Some(from) then table[c].visible - {f} else table[c].visible;
      Caps(hosts, if c == to || embedder == Some(c) then kept + {f} else kept)
  }

  function TransferFrame(s: State, f: FrameId, to: Channel): (State, Result<Transferred, DenyReason>) {
    if !IsLive(s.tree, f) || OwnerOf(s.tree, f).None? then (s, Err(NoSuchFrame))
    else
      var from := OwnerOf(s.tree, f).value;
      if from == to then (s, Ok(Transferred(None, to)))
      else if to !in s.caps then (s, Err(UnknownChannel))
      else
        (s.(tree := Transfer(s.tree, f, to), caps := MovedCaps(s.caps, f, from, to, ParentOwner(s.tree, f))),
         Ok(Transferred(Some(from), to)))
  }

  lemma MoveKeepsTable(t: Tree, r: Tree, table: map<Channel, Caps>, f: FrameId, from: Channel, to: Channel,
                       embedder: Option<Channel>)
    requires TableOk(t, table) && OwnerOf(t, f) == Some(from) && to in table && to != from && Exists(r, f)
    requires forall g :: Exists(r, g) <==> Exists(t, g)
    requires forall g :: OwnerOf(r, g) == if g == f then Some(to) else OwnerOf(t, g)
    ensures TableOk(r, MovedCaps(table, f, from, to, embedder))
  {
    var now := MovedCaps(table, f, from, to, embedder);
    forall d | d in now ensures CapsAgree(r, d, now[d]) {
      assert CapsAgree(t, d, table[d]);
    }
  }

  lemma TransferKeeps(s: State, f: FrameId, to: Channel)
    requires Inv(s)
    ensures var (r, out) := TransferFrame(s, f, to);
            Inv(r) && r.pool == s.pool && (out.Ok? ==> OwnerOf(r.tree, f) == Some(to)) && (out.Err? ==> r == s)
  {
    var (r, out) := TransferFrame(s, f, to);
    if out.Ok? && out.value.replaced.Some? {
      var from := OwnerOf(s.tree, f).value;
      RetouchingKeeps(s.tree, f, s.tree.slots[f.index].(owner := Some(to)));
      MoveKeepsTable(s.tree, r.tree, s.caps, f, from, to, ParentOwner(s.tree, f));
      assert r.caps.Keys == s.caps.Keys;
    }
  }

  // ---- committing documents ----

  datatype Plan = InPlace | MovedTo(t: Transferred) | NeedsProcess(key: ProcessKey) | AtCap

  ghost function PlanOther(s: State, f: FrameId, k: PoolKey): (State, Result<Plan, DenyReason>) {
    match PoolLookup(s.pool, k)
    case Share(to) =>
      var (r, out) := TransferFrame(s, f, to);
      (r, if out.Ok? then Ok(MovedTo(out.value)) else Err(out.error))
    case Spawn => (s, Ok(NeedsProcess(k.1)))
    case AtCapacity => (s, Ok(AtCap))
  }

  /** A channel without a key takes the one its document asks for, if nobody has it; otherwise the frame goes there. */
  ghost function PlanFirst(s: State, f: FrameId, k: PoolKey, current: Channel): (State, Result<Plan, DenyReason>) {
    if PoolLookup(s.pool, k).Share? then PlanOther(s, f, k)
    else
      var pool := Register(s.pool, k, current);
      if pool.Ok? then (s.(pool := pool.value), Ok(InPlace)) else (s, Err(FrameLimit))
  }

  /** What to do about a document whose key is `k`, in a frame of channel `current`. */
  ghost function PlanFor(s: State, f: FrameId, k: PoolKey, current: Channel): (State, Result<Plan, DenyReason>) {
    if current !in s.pool.byChannel then PlanFirst(s, f, k, current)
    else if s.pool.byChannel[current] == k then (s, Ok(InPlace))
    else PlanOther(s, f, k)
  }

  lemma CommitKeepsTree(s: State, f: FrameId, origin: Origin)
    requires Inv(s) && IsLive(s.tree, f)
    ensures var noted := s.(tree := CommitOrigin(s.tree, f, origin));
            Inv(noted) && Unseen(s.tree, noted.tree)
  {
    var tree := CommitOrigin(s.tree, f, origin);
    OwnedMeansLive(s.tree, f);
    RetouchingKeeps(s.tree, f, s.tree.slots[f.index].(origin := Some(origin)));
    assert Unseen(s.tree, tree);
    UnseenKeeps(s.tree, tree, s.caps);
  }

  ghost function Commit(s: State, f: FrameId, origin: Origin, resolve: Resolver): (State, Result<Plan, DenyReason>)
    requires Inv(s)
  {
    OwnedMeansLive(s.tree, f);
    if OwnerOf(s.tree, f).None? then (s, Err(NoSuchFrame))
    else
      CommitKeepsTree(s, f, origin);
      var current := OwnerOf(s.tree, f).value;
      var noted := s.(tree := CommitOrigin(s.tree, f, origin));
      var key := KeyOf(noted.tree, f, resolve);
      if key.None? then (noted, Err(NoProcessKey))
      else
        PlanFor(noted, f, (noted.tree.slots[f.index].group, key.value), current)
  }

  /** The frame's owner serves exactly this group and key. */
  ghost predicate ServedBy(s: State, f: FrameId, k: PoolKey) {
    && OwnerOf(s.tree, f).Some? && OwnerOf(s.tree, f).value in s.pool.byChannel
    && s.pool.byChannel[OwnerOf(s.tree, f).value] == k
  }

  lemma PlanOtherKeeps(s: State, f: FrameId, k: PoolKey)
    requires Inv(s) && OwnerOf(s.tree, f).Some?
    ensures var (r, plan) := PlanOther(s, f, k);
            && Inv(r) && (plan.Ok? && plan.value.MovedTo? ==> ServedBy(r, f, k)) && !(plan.Ok? && plan.value.InPlace?)
            && (k in s.pool.byKey ==> plan.Ok? && plan.value.MovedTo?)
  {
    if k in s.pool.byKey {
      OwnedMeansLive(s.tree, f);
      TransferKeeps(s, f, s.pool.byKey[k]);
    }
  }

  lemma PlanFirstKeeps(s: State, f: FrameId, k: PoolKey, current: Channel)
    requires Inv(s) && OwnerOf(s.tree, f) == Some(current)
    ensures var (r, plan) := PlanFirst(s, f, k, current);
            Inv(r) && (plan.Ok? && (plan.value.MovedTo? || plan.value.InPlace?) ==> ServedBy(r, f, k))
  {
    PoolKeeps(s.pool, k, current);
    if PoolLookup(s.pool, k).Share? { PlanOtherKeeps(s, f, k); }
  }

  /** Slots that differ at most in their owner. */
  ghost predicate SameButOwner(t: Tree, r: Tree) {
    |t.slots| == |r.slots| && forall i :: 0 <= i < |t.slots| ==>
        r.slots[i].(owner := None) == t.slots[i].(owner := None)
  }

  lemma MovingKeepsKeys(s: State, f: FrameId, to: Channel)
    ensures SameButOwner(s.tree, TransferFrame(s, f, to).0.tree)
  {
  }

  lemma PlansKeepKeys(s: State, f: FrameId, k: PoolKey, current: Channel)
    requires Inv(s)
    ensures SameButOwner(s.tree, PlanOther(s, f, k).0.tree) && SameButOwner(s.tree, PlanFirst(s, f, k, current).0.tree)
  {
    if k in s.pool.byKey {
      MovingKeepsKeys(s, f, s.pool.byKey[k]);
    } else {
      assert PlanOther(s, f, k).0.tree == s.tree && PlanFirst(s, f, k, current).0.tree == s.tree;
    }
  }

  lemma PlanForKeeps(s: State, f: FrameId, k: PoolKey, current: Channel)
    requires Inv(s) && OwnerOf(s.tree, f) == Some(current)
    ensures var (r, plan) := PlanFor(s, f, k, current);
            && Inv(r) && SameButOwner(s.tree, r.tree)
            && (plan.Ok? && (plan.value.MovedTo? || plan.value.InPlace?) ==> ServedBy(r, f, k))
  {
    PlansKeepKeys(s, f, k, current);
    if current !in s.pool.byChannel {
      PlanFirstKeeps(s, f, k, current);
    } else if s.pool.byChannel[current] != k {
      PlanOtherKeeps(s, f, k);
    }
  }

  lemma CommitKeeps(s: State, f: FrameId, origin: Origin, resolve: Resolver)
    requires Inv(s)
    ensures Inv(Commit(s, f, origin, resolve).0)
  {
    OwnedMeansLive(s.tree, f);
    if OwnerOf(s.tree, f).Some? {
      CommitKeepsTree(s, f, origin);
      var noted := s.(tree := CommitOrigin(s.tree, f, origin));
      var key := KeyOf(noted.tree, f, resolve);
      if key.Some? { PlanForKeeps(noted, f, (noted.tree.slots[f.index].group, key.value), OwnerOf(s.tree, f).value); }
    }
  }

  lemma SameKeys(t: Tree, r: Tree, f: FrameId, resolve: Resolver)
    requires Forest(t) && Forest(r) && SameButOwner(t, r) && IsLive(t, f)
    ensures IsLive(r, f) && KeyOf(r, f, resolve) == KeyOf(t, f, resolve)
            && r.slots[f.index].group == t.slots[f.index].group
  {
  }

  /** A document committed in place or by transfer runs in the process of its own group and key. */
  lemma CommittedIsServed(s: State, f: FrameId, origin: Origin, resolve: Resolver)
    requires Inv(s)
    ensures Inv(Commit(s, f, origin, resolve).0)
    ensures var (r, plan) := Commit(s, f, origin, resolve);
            plan.Ok? && (plan.value.InPlace? || plan.value.MovedTo?) ==>
              && IsLive(r.tree, f) && KeyOf(r.tree, f, resolve).Some?
              && ServedBy(r, f, (r.tree.slots[f.index].group, KeyOf(r.tree, f, resolve).value))
  {
    CommitKeeps(s, f, origin, resolve);
    OwnedMeansLive(s.tree, f);
    if OwnerOf(s.tree, f).Some? {
      CommitKeepsTree(s, f, origin);
      var noted := s.(tree := CommitOrigin(s.tree, f, origin));
      var key := KeyOf(noted.tree, f, resolve);
      if key.Some? {
        var k := (noted.tree.slots[f.index].group, key.value);
        PlanForKeeps(noted, f, k, OwnerOf(s.tree, f).value);
        var r := PlanFor(noted, f, k, OwnerOf(s.tree, f).value).0;
        assert Commit(s, f, origin, resolve) == PlanFor(noted, f, k, OwnerOf(s.tree, f).value);
        OwnedMeansLive(noted.tree, f);
        SameKeys(noted.tree, r.tree, f, resolve);
      }
    }
  }

  /** The key a commit asks for. */
  ghost function CommitKey(s: State, f: FrameId, origin: Origin, resolve: Resolver): Option<PoolKey>
    requires Inv(s) && IsLive(s.tree, f)
  {
    CommitKeepsTree(s, f, origin);
    var key := KeyOf(CommitOrigin(s.tree, f, origin), f, resolve);
    if key.Some? then Some((s.tree.slots[f.index].group, key.value)) else None
  }

  /**
    When the pool is full and nobody serves the key of the commit, the load is
    refused: as a plan when the frame's process serves another key, and as an
    error when it serves none yet.
   */
  lemma CommitAtCap(s: State, f: FrameId, origin: Origin, resolve: Resolver)
    requires Inv(s) && IsLive(s.tree, f) && CommitKey(s, f, origin, resolve).Some?
    requires CommitKey(s, f, origin, resolve).value !in s.pool.byKey && |s.pool.byChannel| == MAX_CONTENT_PROCESSES
    ensures var (r, plan) := Commit(s, f, origin, resolve);
            && r.pool == s.pool && r.caps == s.caps
            && OwnerOf(s.tree, f).Some?
            && plan == if OwnerOf(s.tree, f).value in s.pool.byChannel then Ok(AtCap) else Err(FrameLimit)
  {
    OwnedMeansLive(s.tree, f);
    CommitKeepsTree(s, f, origin);
    var owner := OwnerOf(s.tree, f).value;
    if owner in s.pool.byChannel { assert s.pool.byChannel[owner] in s.pool.byKey; }
  }

  // ---- attaching a spawned process ----

  ghost function Attach(s: State, f: FrameId, key: ProcessKey,
                        process: Channel): (State, Result<Transferred, DenyReason>) {
    if !Exists(s.tree, f) then (s, Err(NoSuchFrame))
    else if process !in s.caps then (s, Err(UnknownChannel))
    else
      var pool := Register(s.pool, (s.tree.slots[f.index].group, key), process);
      if pool.Err? then (s, Err(FrameLimit))
      else TransferFrame(s.(pool := pool.value), f, process)
  }

  lemma RegisterKeeps(p: Pool, table: map<Channel, Caps>, k: PoolKey, c: Channel)
    requires PoolOk(p) && PoolOpen(p, table) && c in table && Register(p, k, c).Ok?
    ensures var r := Register(p, k, c).value; PoolOk(r) && PoolOpen(r, table) && c in r.byChannel && r.byChannel[c] == k
  {
    PoolKeeps(p, k, c);
  }

  /** A process that was attached serves the frame's group and the key it was given. */
  lemma AttachKeeps(s: State, f: FrameId, key: ProcessKey, process: Channel)
    requires Inv(s)
    ensures var (r, out) := Attach(s, f, key, process);
            && Inv(r)
            && (out.Ok? ==> OwnerOf(r.tree, f) == Some(process) && ServedBy(r, f, (r.tree.slots[f.index].group, key)))
  {
    if Exists(s.tree, f) && process in s.caps {
      var k := (s.tree.slots[f.index].group, key);
      var pool := Register(s.pool, k, process);
      if pool.Ok? {
        RegisterKeeps(s.pool, s.caps, k, process);
        assert Inv(s.(pool := pool.value));
        TransferKeeps(s.(pool := pool.value), f, process);
        MovingKeepsKeys(s.(pool := pool.value), f, process);
      }
    }
  }

  /** A failed attach leaves the process registered exactly when the frame is crashed and the pool had room for it. */
  lemma FailedAttachRegisters(s: State, f: FrameId, key: ProcessKey, process: Channel)
    requires Inv(s) && Attach(s, f, key, process).1.Err?
    ensures Attach(s, f, key, process).0 != s <==>
            Exists(s.tree, f) && !IsLive(s.tree, f) && process in s.caps
            && Register(s.pool, (s.tree.slots[f.index].group, key), process).Ok?
  {
    OwnedMeansLive(s.tree, f);
    if Exists(s.tree, f) && process in s.caps {
      var k := (s.tree.slots[f.index].group, key);
      var pool := Register(s.pool, k, process);
      if pool.Ok? {
        assert process in pool.value.byChannel && process !in s.pool.byChannel;
        TransferKeeps(s.(pool := pool.value), f, process);
      }
    }
  }

  // ---- questions ----

  datatype Request = Ping | Echo(payload: seq<nat>) | FrameHost(frame: FrameId)

  datatype Response = Pong | Echoed(payload: seq<nat>) | HostIs(local: bool) | Denied

  datatype Decision = Decision(response: Response, reason: Option<DenyReason>)

  function Deny(r: DenyReason): Decision { Decision(Denied, Some(r)) }

  function Dispatch(s: State, c: Channel, q: Request): Decision {
    if c !in s.caps then Deny(UnknownChannel)
    else match q
      case Ping => Decision(Pong, None)
      case Echo(p) => Decision(Echoed(p), None)
      case FrameHost(f) =>
        if !CanSee(s, c, f) then Deny(if OwnerOf(s.tree, f).None? then NoSuchFrame else NotYourFrame)
        else Decision(HostIs(Holds(s, c, f)), None)
  }

  /**
    Local exactly for the owner of the live frame, Remote exactly for another
    channel that can see it, Denied otherwise.
   */
  lemma FrameHostMeans(s: State, c: Channel, f: FrameId)
    requires Inv(s)
    ensures var a := Dispatch(s, c, FrameHost(f)).response;
            && (a == HostIs(true) <==> OwnerOf(s.tree, f) == Some(c))
            && (a == HostIs(false) <==>
                c in s.caps && f in s.caps[c].visible && IsLive(s.tree, f) && OwnerOf(s.tree, f) != Some(c))
            && (a == Denied <==> a != HostIs(true) && a != HostIs(false))
  {
    OwnedMeansLive(s.tree, f);
    if c in s.caps { assert CapsAgree(s.tree, c, s.caps[c]); }
  }

  /** What a channel is told depends only on what it was given: frames it cannot see leave no trace in any answer. */
  lemma AnswersLeakNothing(s: State, r: State, c: Channel, q: Request)
    requires c in s.caps && c in r.caps && s.caps[c] == r.caps[c]
    requires forall f :: f in s.caps[c].visible ==> OwnerOf(s.tree, f) == OwnerOf(r.tree, f)
    ensures Dispatch(s, c, q).response == Dispatch(r, c, q).response
  {
  }

  function Record(s: State, c: Channel, reason: DenyReason): State {
    var kept := if |s.audit| >= AUDIT_CAPACITY then s.audit[1..] else s.audit;
    s.(audit := kept + [(c, reason)])
  }

  /** A request served on the wire: a handler that panics closes the channel, and every refusal is recorded. */
  ghost function Serve(s: State, c: Channel, q: Request, panics: bool): (State, Decision)
    requires Inv(s)
  {
    var answer := if panics then Deny(Internal) else Dispatch(s, c, q);
    var r := if panics then Close(s, c) else s;
    (if answer.reason.Some? then Record(r, c, answer.reason.value) else r, answer)
  }

  lemma ServeKeeps(s: State, c: Channel, q: Request, panics: bool)
    requires Inv(s)
    ensures Inv(Serve(s, c, q, panics).0)
  {
    CloseKeeps(s, c);
  }

  // ---- frame requests ----

  datatype FrameRequest = CreateChildRequest(parent: FrameId, ordinal: nat) | Navigate(frame: FrameId, urlParses: bool)

  datatype FrameResponse = Created(frame: FrameId) | NavigationAuthorised | FrameDenied

  /** The channel hosts the frame or one that embeds it, at any distance. */
  ghost predicate HostsAbove(s: State, c: Channel, f: FrameId)
    requires Forest(s.tree)
  {
    Exists(s.tree, f) && Beneath(s.tree, f.index, OwnedBy(s.tree, c))
  }

  ghost function Authorise(s: State, c: Channel, f: FrameId, urlParses: bool): Option<DenyReason>
    requires Forest(s.tree)
  {
    if c !in s.caps then Some(UnknownChannel)
    else if !IsLive(s.tree, f) then Some(NoSuchFrame)
    else if OwnerOf(s.tree, f) != Some(c) && !HostsAbove(s, c, f) then Some(NotAncestor)
    else if !urlParses then Some(BadUrl)
    else None
  }

  ghost function DispatchFrame(s: State, c: Channel, q: FrameRequest): (State, FrameResponse)
    requires Inv(s)
  {
    match q
    case CreateChildRequest(parent, ordinal) =>
      var (r, f) := CreateChildFrame(s, c, parent, ordinal);
      if f.Ok? then (r, Created(f.value)) else (Record(r, c, f.error), FrameDenied)
    case Navigate(f, ok) =>
      var refusal := Authorise(s, c, f, ok);
      if refusal.None? then (s, NavigationAuthorised) else (Record(s, c, refusal.value), FrameDenied)
  }

  lemma DispatchFrameKeeps(s: State, c: Channel, q: FrameRequest)
    requires Inv(s)
    ensures Inv(DispatchFrame(s, c, q).0)
  {
    if q.CreateChildRequest? {
      CreateChildFrameKeeps(s, c, q.parent, q.ordinal);
      var r := CreateChildFrame(s, c, q.parent, q.ordinal).0;
      assert Inv(r);
    }
  }
}
