/**
  The broker as it runs (crates/px-broker/src/lib.rs, `Broker`, and site.rs,
  `ProcessPool`): objects updated in place, each call proved to take the state
  where the state machine of `BrokerState` takes it.
 */
module BrokerProgram {
  import opened Common
  import opened BrokerTree
  import opened BrokerFrames
  import opened BrokerState
  import opened BrokerReach

  class ProcessPool {
    var byKey: map<PoolKey, Channel>
    var byChannel: map<Channel, PoolKey>

    ghost function Abs(): Pool
      reads this
    {
      Pool(byKey, byChannel)
    }

    constructor ()
      ensures Abs() == Pool(map[], map[])
    {
      byKey, byChannel := map[], map[];
    }

    /**
      Share names the one channel that serves the key; otherwise the answer
      foretells what registering a channel without a key would bring.
     */
    function Lookup(k: PoolKey): (l: Lookup)
      reads this
      ensures l == PoolLookup(Abs(), k)
      ensures PoolOk(Abs()) ==> forall c :: l == Share(c) <==> c in byChannel && byChannel[c] == k
      ensures forall c :: c !in byChannel ==> (l.Spawn? <==> BrokerState.Register(Abs(), k, c).Ok?)
      ensures forall c :: c !in byChannel ==> (l.AtCapacity? <==> BrokerState.Register(Abs(), k, c) == Err(PoolAtCap))
    {
      if k in byKey then Share(byKey[k])
      else if |byChannel| >= MAX_CONTENT_PROCESSES then AtCapacity
      else Spawn
    }

    method Register(k: PoolKey, c: Channel) returns (error: Option<PoolError>)
      modifies this
      ensures var r := BrokerState.Register(old(Abs()), k, c);
              if r.Ok? then error.None? && Abs() == r.value else error == Some(r.error) && Abs() == old(Abs())
    {
      if c in byChannel { return Some(ChannelBusy); }
      if k in byKey { return Some(KeyTaken); }
      if |byChannel| >= MAX_CONTENT_PROCESSES { return Some(PoolAtCap); }
      byKey := byKey[k := c];
      byChannel := byChannel[c := k];
      return None;
    }

    method Forget(c: Channel)
      modifies this
      ensures Abs() == BrokerState.Forget(old(Abs()), c)
    {
      if c in byChannel {
        var entry := byChannel[c];
        byChannel := byChannel - {c};
        byKey := byKey - {entry};
      }
    }
  }

  // ---- updates of one entry of the capability table ----

  function Dropped(table: map<Channel, Caps>, f: FrameId, c: Channel, keepSight: bool): map<Channel, Caps> {
    if c !in table then table
    else table[c := Caps(table[c].hosts - {f}, if keepSight then table[c].visible else table[c].visible - {f})]
  }

  function Hosted(table: map<Channel, Caps>, f: FrameId, c: Channel): map<Channel, Caps> {
    if c in table then table[c := Caps(table[c].hosts + {f}, table[c].visible + {f})] else table
  }

  function Shown(table: map<Channel, Caps>, f: FrameId, c: Channel): map<Channel, Caps> {
    if c in table then table[c := table[c].(visible := table[c].visible + {f})] else table
  }

  function Updated(table: map<Channel, Caps>, f: FrameId, from: Channel, to: Channel,
                   embedder: Option<Channel>): map<Channel, Caps> {
    var both := Hosted(Dropped(table, f, from, embedder == Some(from)), f, to);
    if embedder.Some? then Shown(both, f, embedder.value) else both
  }

  lemma UpdatedEntry(table: map<Channel, Caps>, f: FrameId, from: Channel, to: Channel, embedder: Option<Channel>,
                     c: Channel)
    requires from != to && c in table
    ensures Updated(table, f, from, to, embedder)[c] == MovedCaps(table, f, from, to, embedder)[c]
  {
    var dropped := Dropped(table, f, from, embedder == Some(from));
    var both := Hosted(dropped, f, to);
    if c == from {
      assert both[c] == dropped[c];
    } else if c == to {
      assert both[c] == Caps(table[c].hosts + {f}, table[c].visible + {f});
      assert (table[c].visible + {f}) + {f} == table[c].visible + {f};
    } else {
      assert both[c] == table[c];
    }
  }

  lemma ThreeUpdates(table: map<Channel, Caps>, f: FrameId, from: Channel, to: Channel, embedder: Option<Channel>)
    requires from != to
    ensures Updated(table, f, from, to, embedder) == MovedCaps(table, f, from, to, embedder)
  {
    forall c | c in table
      ensures Updated(table, f, from, to, embedder)[c] == MovedCaps(table, f, from, to, embedder)[c]
    {
      UpdatedEntry(table, f, from, to, embedder, c);
    }
    assert Updated(table, f, from, to, embedder).Keys == table.Keys;
  }

  /** In an agreeing table, holding a frame is owning it. */
  lemma OwnerHolds(s: State, c: Channel, f: FrameId)
    requires Inv(s)
    ensures Holds(s, c, f) <==> OwnerOf(s.tree, f) == Some(c)
  {
  }

  lemma HostsAboveStep(s: State, c: Channel, f: FrameId)
    requires Inv(s) && Exists(s.tree, f)
    ensures ParentOf(s.tree, f).None? ==> !HostsAbove(s, c, f)
    ensures ParentOf(s.tree, f).Some? ==>
      var p := ParentOf(s.tree, f).value;
      && Exists(s.tree, p) && s.tree.slots[p.index].depth < s.tree.slots[f.index].depth
      && (HostsAbove(s, c, f) <==> Holds(s, c, p) || HostsAbove(s, c, p))
  {
    assert SlotOk(s.tree, f.index);
    if ParentOf(s.tree, f).Some? {
      var p := ParentOf(s.tree, f).value;
      OwnerHolds(s, c, p);
    }
  }

  class Broker {
    var nextChannel: nat
    var caps: map<Channel, Caps>
    const frames: FrameTree
    const pool: ProcessPool
    var audit: seq<(Channel, DenyReason)>

    ghost function Abs(): State
      reads this, frames, pool
    {
      State(nextChannel, caps, frames.Abs(), pool.Abs(), audit)
    }

    ghost predicate Valid()
      reads this, frames, pool
    {
      Inv(Abs())
    }

    constructor ()
      ensures Valid() && Abs() == INITIAL && fresh(frames) && fresh(pool)
    {
      nextChannel, caps, audit := 0, map[], [];
      frames := new FrameTree();
      pool := new ProcessPool();
      new;
      InitialInv();
    }

    // ---- channels ----

    method OpenChannel() returns (c: Option<Channel>)
      requires Valid()
      modifies this
      ensures Valid() && (Abs(), c) == Open(old(Abs()))
    {
      OpenKeeps(Abs());
      var id := nextChannel;
      if nextChannel + 1 > U64_MAX { return None; }
      nextChannel := nextChannel + 1;
      caps := caps[id := Caps({}, {})];
      return Some(id);
    }

    method PurgeDeadFrames()
      modifies this
      ensures Abs() == old(Abs()).(caps := Purged(frames.Abs(), old(caps)))
    {
      ghost var was := caps;
      var todo := caps.Keys;
      while todo != {}
        invariant todo <= was.Keys && caps.Keys == was.Keys
        invariant forall c :: c in was ==> caps[c] == if c in todo then was[c] else Purged(frames.Abs(), was)[c]
        invariant Abs() == old(Abs()).(caps := caps)
      {
        var c :| c in todo;
        var hosts := set f | f in caps[c].hosts && frames.Owner(f) == Some(c);
        var visible := set f | f in caps[c].visible && frames.Resolve(f).Some?;
        caps := caps[c := Caps(hosts, visible)];
        todo := todo - {c};
      }
      assert caps == Purged(frames.Abs(), was);
    }

    method CloseChannel(c: Channel)
      requires Valid()
      modifies this, frames, pool
      ensures Valid() && Abs() == Close(old(Abs()), c)
    {
      CloseKeeps(Abs(), c);
      caps := caps - {c};
      frames.ReleaseAll(c);
      pool.Forget(c);
      PurgeDeadFrames();
    }

    method ChannelDied(c: Channel) returns (notices: seq<Notice>)
      requires Valid()
      modifies this, frames, pool
      ensures Valid() && Abs() == Died(old(Abs()), c)
      ensures InOrder(notices) && forall n :: n in notices <==> Owed(old(Abs()).tree, c, n)
      ensures forall n :: n in notices ==> n.to in caps
    {
      ghost var was := Abs();
      DiedKeeps(was, c);
      caps := caps - {c};
      pool.Forget(c);
      notices := frames.CrashChannel(c);
      PurgeDeadFrames();
      forall n | n in notices ensures n.to in caps { NoticesReachOpenChannels(was, c, n); }
    }

    // ---- frames ----

    method CreateFrame(c: Channel) returns (f: Option<FrameId>)
      requires Valid()
      modifies this, frames
      ensures Valid() && (Abs(), f) == BrokerState.CreateFrame(old(Abs()), c)
    {
      CreateFrameKeeps(Abs(), c);
      if c !in caps { return None; }
      f := frames.Create(c);
      if f.Some? { caps := caps[c := Caps(caps[c].hosts + {f.value}, caps[c].visible + {f.value})]; }
    }

    function HoldsFrame(c: Channel, f: FrameId): (b: bool)
      reads this, frames, pool
      ensures b == Holds(Abs(), c, f)
    {
      frames.Owner(f) == Some(c) && c in caps && f in caps[c].hosts
    }

    function MaySee(c: Channel, f: FrameId): (b: bool)
      reads this, frames, pool
      ensures b == CanSee(Abs(), c, f)
    {
      frames.Owner(f).Some? && c in caps && f in caps[c].visible
    }

    method CreateChildFrame(c: Channel, parent: FrameId, ordinal: nat) returns (f: Result<FrameId, DenyReason>)
      requires Valid()
      modifies this, frames
      ensures Valid() && (Abs(), f) == BrokerState.CreateChildFrame(old(Abs()), c, parent, ordinal)
      ensures RightChild(old(Abs()), c, parent, ordinal, f)
    {
      ChildAnswers(Abs(), c, parent, ordinal);
      CreateChildFrameKeeps(Abs(), c, parent, ordinal);
      if c !in caps { return Err(UnknownChannel); }
      if !HoldsFrame(c, parent) { return Err(if frames.Owner(parent).None? then NoSuchFrame else NotYourFrame); }
      var made := frames.CreateChild(c, parent, ordinal);
      if made.Err? { return Err(Reason(made.error)); }
      caps := caps[c := Caps(caps[c].hosts + {made.value}, caps[c].visible + {made.value})];
      return Ok(made.value);
    }

    method GrantVisibility(viewer: Channel, f: FrameId) returns (ok: bool)
      requires Valid()
      modifies this
      ensures Valid() && (Abs(), ok) == Grant(old(Abs()), viewer, f)
    {
      GrantKeeps(Abs(), viewer, f);
      if frames.Owner(f).None? { return false; }
      if viewer !in caps { return false; }
      caps := caps[viewer := caps[viewer].(visible := caps[viewer].visible + {f})];
      return true;
    }

    // ---- moving and committing ----

    /** The capability table follows the move in three separate updates. */
    method MoveCaps(f: FrameId, from: Channel, to: Channel, embedder: Option<Channel>)
      requires from != to
      modifies this
      ensures Abs() == old(Abs()).(caps := MovedCaps(old(caps), f, from, to, embedder))
    {
      ThreeUpdates(caps, f, from, to, embedder);
      caps := Dropped(caps, f, from, embedder == Some(from));
      caps := Hosted(caps, f, to);
      if embedder.Some? { caps := Shown(caps, f, embedder.value); }
    }

    method TransferFrame(f: FrameId, to: Channel) returns (out: Result<Transferred, DenyReason>)
      requires Valid()
      modifies this, frames
      ensures Valid() && (Abs(), out) == BrokerState.TransferFrame(old(Abs()), f, to)
    {
      TransferKeeps(Abs(), f, to);
      OwnedMeansLive(frames.Abs(), f);
      var owner := frames.Owner(f);
      if owner.None? { return Err(NoSuchFrame); }
      var from := owner.value;
      if from == to { return Ok(Transferred(None, to)); }
      if to !in caps { return Err(UnknownChannel); }
      var parent := frames.Parent(f);
      var embedder := if parent.Some? then frames.Owner(parent.value) else None;
      var ok := frames.Transfer(f, from, to);
      MoveCaps(f, from, to, embedder);
      return Ok(Transferred(Some(from), to));
    }

    /** Moves the frame to a process that already serves its key. */
    method ShareProcess(f: FrameId, to: Channel) returns (plan: Result<Plan, DenyReason>)
      requires Valid()
      modifies this, frames
      ensures Valid()
      ensures var (r, out) := BrokerState.TransferFrame(old(Abs()), f, to);
              Abs() == r && plan == if out.Ok? then Ok(MovedTo(out.value)) else Err(out.error)
    {
      var out := TransferFrame(f, to);
      plan := if out.Ok? then Ok(MovedTo(out.value)) else Err(out.error);
    }

    method PlanOtherProcess(f: FrameId, k: PoolKey) returns (plan: Result<Plan, DenyReason>)
      requires Valid() && frames.Owner(f).Some?
      modifies this, frames
      ensures Valid() && (Abs(), plan) == PlanOther(old(Abs()), f, k)
    {
      PlanOtherKeeps(Abs(), f, k);
      match pool.Lookup(k)
      case Share(to) =>
        plan := ShareProcess(f, to);
      case Spawn => plan := Ok(NeedsProcess(k.1));
      case AtCapacity => plan := Ok(AtCap);
    }

    method PlanFirstProcess(f: FrameId, k: PoolKey, current: Channel) returns (plan: Result<Plan, DenyReason>)
      requires Valid() && frames.Owner(f) == Some(current)
      modifies this, frames, pool
      ensures Valid() && (Abs(), plan) == PlanFirst(old(Abs()), f, k, current)
    {
      PlanFirstKeeps(Abs(), f, k, current);
      var l := pool.Lookup(k);
      if l.Share? {
        plan := ShareProcess(f, l.channel);
      } else {
        var error := pool.Register(k, current);
        plan := if error.None? then Ok(InPlace) else Err(FrameLimit);
      }
    }

    method CommitDocument(f: FrameId, origin: Origin, resolve: Resolver) returns (plan: Result<Plan, DenyReason>)
      requires Valid()
      modifies this, frames, pool
      ensures Valid() && (Abs(), plan) == Commit(old(Abs()), f, origin, resolve)
      ensures old(Valid()) && RightCommit(old(Abs()), f, origin, resolve, plan)
      ensures plan.Ok? && (plan.value.InPlace? || plan.value.MovedTo?) ==>
                && Exists(frames.Abs(), f) && KeyOf(frames.Abs(), f, resolve).Some?
                && ServedBy(Abs(), f, (frames.slots[f.index].group, KeyOf(frames.Abs(), f, resolve).value))
    {
      CommittedIsServed(Abs(), f, origin, resolve);
      CommitAnswers(Abs(), f, origin, resolve);
      CommitKeeps(Abs(), f, origin, resolve);
      OwnedMeansLive(frames.Abs(), f);
      var owner := frames.Owner(f);
      if owner.None? { return Err(NoSuchFrame); }
      CommitKeepsTree(Abs(), f, origin);
      var ok := frames.CommitOrigin(f, origin);
      var key := frames.ProcessKeyOf(f, resolve);
      if key.None? { return Err(NoProcessKey); }
      var k := (frames.slots[f.index].group, key.value);
      if owner.value !in pool.byChannel {
        plan := PlanFirstProcess(f, k, owner.value);
      } else if pool.byChannel[owner.value] == k {
        plan := Ok(InPlace);
      } else {
        plan := PlanOtherProcess(f, k);
      }
    }

    method AttachProcess(f: FrameId, key: ProcessKey, process: Channel) returns (out: Result<Transferred, DenyReason>)
      requires Valid()
      modifies this, frames, pool
      ensures Valid() && (Abs(), out) == Attach(old(Abs()), f, key, process)
      ensures out.Ok? ==> Exists(frames.Abs(), f) && ServedBy(Abs(), f, (frames.slots[f.index].group, key))
      ensures out.Ok? ==> frames.Owner(f) == Some(process)
    {
      AttachKeeps(Abs(), f, key, process);
      if frames.Resolve(f).None? { return Err(NoSuchFrame); }
      if process !in caps { return Err(UnknownChannel); }
      var k := (frames.slots[f.index].group, key);
      ghost var was := Abs();
      var error := pool.Register(k, process);
      if error.Some? { return Err(FrameLimit); }
      RegisterKeeps(was.pool, was.caps, k, process);
      out := TransferFrame(f, process);
    }

    // ---- requests ----

    /** For a frame: Local to its owner, Remote to another channel that can see it live, Denied to the rest. */
    method Answer(c: Channel, q: Request) returns (d: Decision)
      ensures d == Dispatch(Abs(), c, q)
      ensures Valid() && q.FrameHost? ==> (d.response == HostIs(true) <==> frames.Owner(q.frame) == Some(c))
      ensures Valid() && q.FrameHost? ==>
                (d.response == HostIs(false) <==>
                   c in caps && q.frame in caps[c].visible && frames.LiveFrame(q.frame)
                       && frames.Owner(q.frame) != Some(c))
    {
      if Valid() && q.FrameHost? { FrameHostMeans(Abs(), c, q.frame); }
      if c !in caps { return Deny(UnknownChannel); }
      match q
      case Ping => d := Decision(Pong, None);
      case Echo(p) => d := Decision(Echoed(p), None);
      case FrameHost(f) =>
        if !MaySee(c, f) { return Deny(if frames.Owner(f).None? then NoSuchFrame else NotYourFrame); }
        d := Decision(HostIs(HoldsFrame(c, f)), None);
    }

    method RecordReason(c: Channel, reason: DenyReason)
      modifies this
      ensures Abs() == Record(old(Abs()), c, reason)
    {
      if |audit| >= AUDIT_CAPACITY { audit := audit[1..]; }
      audit := audit + [(c, reason)];
    }

    /** A panic while deciding shuts the channel. */
    method DispatchGuarded(c: Channel, q: Request, panics: bool) returns (d: Decision)
      requires Valid()
      modifies this, frames, pool
      ensures Valid() && (Abs(), d) == Serve(old(Abs()), c, q, panics)
    {
      ServeKeeps(Abs(), c, q, panics);
      if panics {
        CloseChannel(c);
        d := Deny(Internal);
      } else {
        d := Answer(c, q);
      }
      if d.reason.Some? { RecordReason(c, d.reason.value); }
    }

    /** The bounded walk finds a hosted frame above exactly when there is one at any distance. */
    method HostsAncestor(c: Channel, f: FrameId) returns (found: bool)
      requires Valid() && frames.Resolve(f).Some?
      ensures found <==> HostsAbove(Abs(), c, f)
    {
      var at := f;
      assert SlotOk(frames.Abs(), f.index);
      for k := 0 to MAX_FRAME_DEPTH + 1
        invariant Exists(frames.Abs(), at) && frames.slots[at.index].depth + k <= MAX_FRAME_DEPTH
        invariant HostsAbove(Abs(), c, f) <==> HostsAbove(Abs(), c, at)
      {
        HostsAboveStep(Abs(), c, at);
        var p := frames.Parent(at);
        if p.None? { return false; }
        if HoldsFrame(c, p.value) { return true; }
        at := p.value;
      }
      return false;
    }

    method AuthoriseNavigation(c: Channel, f: FrameId, urlParses: bool) returns (refusal: Option<DenyReason>)
      requires Valid()
      ensures refusal == Authorise(Abs(), c, f, urlParses) && RightNavigation(Abs(), c, f, urlParses, refusal)
    {
      AuthoriseMeans(Abs(), c, f, urlParses);
      if c !in caps { return Some(UnknownChannel); }
      if !frames.LiveFrame(f) { return Some(NoSuchFrame); }
      OwnedMeansLive(frames.Abs(), f);
      var allowed := HoldsFrame(c, f);
      OwnerHolds(Abs(), c, f);
      if !allowed { allowed := HostsAncestor(c, f); }
      if !allowed { return Some(NotAncestor); }
      if !urlParses { return Some(BadUrl); }
      return None;
    }

    method DispatchFrame(c: Channel, q: FrameRequest) returns (out: FrameResponse)
      requires Valid()
      modifies this, frames
      ensures Valid() && (Abs(), out) == BrokerState.DispatchFrame(old(Abs()), c, q)
      ensures q.Navigate? ==>
                (out == NavigationAuthorised <==>
                   c in old(caps) && old(frames.LiveFrame(q.frame)) && old(Controls(Abs(), c, q.frame)) && q.urlParses)
    {
      if q.Navigate? { AuthoriseMeans(Abs(), c, q.frame, q.urlParses); }
      DispatchFrameKeeps(Abs(), c, q);
      match q
      case CreateChildRequest(parent, ordinal) =>
        var f := CreateChildFrame(c, parent, ordinal);
        if f.Ok? { return Created(f.value); }
        RecordReason(c, f.error);
        out := FrameDenied;
      case Navigate(f, ok) =>
        var refusal := AuthoriseNavigation(c, f, ok);
        if refusal.None? { return NavigationAuthorised; }
        RecordReason(c, refusal.value);
        out := FrameDenied;
    }
  }
}
