/**
  What a channel can see, which ids it has and which process key it serves,
  told from the history of a run (crates/px-broker/src/lib.rs, and the fuzz
  target broker_sequence.rs).
 */
module BrokerHistory {
  import opened Common
  import opened BrokerTree
  import opened BrokerState
  import opened BrokerRuns

  ghost predicate Sees(s: State, c: Channel, f: FrameId) {
    c in s.caps && f in s.caps[c].visible
  }

  // ---- what one call gives and takes ----

  /** A frame that changed hands. */
  datatype Move = Move(frame: FrameId, from: Channel, to: Channel, embedder: Option<Channel>)

  ghost function MoveOf(s: State, f: FrameId, out: Transferred): Option<Move> {
    if out.replaced.Some? then Some(Move(f, out.replaced.value, out.to, ParentOwner(s.tree, f))) else None
  }

  /** The frame a call moved to another process, by the call's own answer. */
  ghost function Moved(s: State, step: Step): Option<Move>
    requires Inv(s)
  {
    match step
    case DoCommit(f, origin, resolve) =>
      var plan := Commit(s, f, origin, resolve).1;
      if plan.Ok? && plan.value.MovedTo? then MoveOf(s, f, plan.value.t) else None
    case DoAttach(f, key, process) =>
      var out := Attach(s, f, key, process).1;
      if out.Ok? then MoveOf(s, f, out.value) else None
    case _ => None
  }

  ghost predicate Shows(m: Option<Move>, c: Channel, f: FrameId) {
    m.Some? && m.value.frame == f && (m.value.to == c || m.value.embedder == Some(c))
  }

  ghost predicate Hides(m: Option<Move>, c: Channel, f: FrameId) {
    m.Some? && m.value.frame == f && m.value.from == c && m.value.embedder != Some(c)
  }

  /** The call gives the channel sight of the frame: by creating it there, by a grant, or by a move. */
  ghost predicate Gives(s: State, step: Step, c: Channel, f: FrameId)
    requires Inv(s)
  {
    match step
    case DoCreate(d) => c == d && Minted(s, step) == Some(f)
    case DoChild(d, _, _) => c == d && Minted(s, step) == Some(f)
    case DoFrame(d, _) => c == d && Minted(s, step) == Some(f)
    case DoGrant(d, g) => c == d && f == g && IsLive(s.tree, g) && d in s.caps
    case _ => Shows(Moved(s, step), c, f)
  }

  /** The channel a call shuts. */
  function Shut(step: Step): Option<Channel> {
    match step
    case DoClose(c) => Some(c)
    case DoDied(c) => Some(c)
    case DoServe(c, _, panics) => if panics then Some(c) else None
    case _ => None
  }

  /**
    The call takes sight away: the channel is shut, the frame is freed, or the
    frame moves out of the channel's reach.
   */
  ghost predicate Takes(s: State, step: Step, c: Channel, f: FrameId)
    requires Inv(s)
  {
    || Shut(step) == Some(c)
    || (Exists(s.tree, f) && !Exists(Next(s, step).tree, f))
    || Hides(Moved(s, step), c, f)
  }

  // ---- one call ----

  lemma PurgeSight(s: State, tree: Tree, d: Channel, c: Channel, f: FrameId)
    requires Inv(s)
    ensures var r := s.(caps := Purged(tree, s.caps - {d}), tree := tree);
            Sees(r, c, f) <==> Sees(s, c, f) && c != d && Exists(tree, f)
  {
  }

  lemma ShutSight(s: State, step: Step, c: Channel, f: FrameId)
    requires Inv(s) && Shut(step).Some?
    ensures Sees(Next(s, step), c, f) <==> Sees(s, c, f) && Shut(step) != Some(c) && Exists(Next(s, step).tree, f)
  {
    PurgeSight(s, Next(s, step).tree, Shut(step).value, c, f);
    assert Next(s, step).caps == Purged(Next(s, step).tree, s.caps - {Shut(step).value});
  }

  lemma SeenExists(s: State, c: Channel, f: FrameId)
    requires Inv(s) && Sees(s, c, f)
    ensures Exists(s.tree, f)
  {
  }

  /** Who sees what in the table after a move. */
  lemma MovedSight(table: map<Channel, Caps>, m: Move, c: Channel, g: FrameId)
    requires m.to in table && m.from != m.to && (m.embedder.Some? ==> m.embedder.value in table)
    ensures var now := MovedCaps(table, m.frame, m.from, m.to, m.embedder);
            c in now && g in now[c].visible <==>
              Shows(Some(m), c, g) || (c in table && g in table[c].visible && !Hides(Some(m), c, g))
  {
  }

  lemma TransferSight(s: State, f: FrameId, to: Channel, c: Channel, g: FrameId)
    requires Inv(s)
    ensures var (r, out) := TransferFrame(s, f, to);
            var m := if out.Ok? then MoveOf(s, f, out.value) else None;
            Sees(r, c, g) <==> Shows(m, c, g) || (Sees(s, c, g) && !Hides(m, c, g))
  {
    var (r, out) := TransferFrame(s, f, to);
    if out.Ok? && out.value.replaced.Some? {
      var m := Move(f, OwnerOf(s.tree, f).value, to, ParentOwner(s.tree, f));
      MovedSight(s.caps, m, c, g);
    } else {
      assert r == s;
    }
  }

  /** Sight after the frame, if there is one, was handed to the channel that made it. */
  ghost predicate SightAfterMint(s: State, r: State, d: Channel, minted: Option<FrameId>, c: Channel, f: FrameId) {
    Sees(r, c, f) <==> (c == d && minted == Some(f)) || Sees(s, c, f)
  }

  lemma CreateSight(s: State, d: Channel, c: Channel, f: FrameId)
    ensures SightAfterMint(s, CreateFrame(s, d).0, d, CreateFrame(s, d).1, c, f)
  {
  }

  lemma ChildSight(s: State, d: Channel, p: FrameId, o: nat, c: Channel, f: FrameId)
    ensures SightAfterMint(s, CreateChildFrame(s, d, p, o).0, d, MintedChild(s, d, p, o), c, f)
  {
  }

  lemma FrameRequestSight(s: State, d: Channel, q: FrameRequest, c: Channel, f: FrameId)
    requires Inv(s)
    ensures SightAfterMint(s, DispatchFrame(s, d, q).0, d, Minted(s, DoFrame(d, q)), c, f)
  {
    var r := DispatchFrame(s, d, q).0;
    if q.CreateChildRequest? {
      ChildSight(s, d, q.parent, q.ordinal, c, f);
      assert r.caps == CreateChildFrame(s, d, q.parent, q.ordinal).0.caps;
    } else {
      assert r.caps == s.caps;
    }
  }

  lemma MintingSight(s: State, step: Step, c: Channel, f: FrameId)
    requires Inv(s) && (step.DoCreate? || step.DoChild? || step.DoFrame?)
    ensures Sees(Next(s, step), c, f) <==> Gives(s, step, c, f) || Sees(s, c, f)
  {
    match step
    case DoCreate(d) => CreateSight(s, d, c, f);
    case DoChild(d, p, o) => ChildSight(s, d, p, o, c, f);
    case DoFrame(d, q) => FrameRequestSight(s, d, q, c, f);
  }

  lemma AttachSight(s: State, step: Step, c: Channel, f: FrameId)
    requires Inv(s) && step.DoAttach?
    ensures Sees(Next(s, step), c, f) <==> Gives(s, step, c, f) || (Sees(s, c, f) && !Hides(Moved(s, step), c, f))
  {
    var g, process := step.f, step.process;
    if Exists(s.tree, g) && process in s.caps {
      var k := (s.tree.slots[g.index].group, step.key);
      var pool := Register(s.pool, k, process);
      if pool.Ok? {
        RegisterKeeps(s.pool, s.caps, k, process);
        var mid := s.(pool := pool.value);
        assert Inv(mid);
        TransferSight(mid, g, process, c, f);
      }
    }
  }

  lemma PlanSight(s: State, f: FrameId, k: PoolKey, current: Channel, c: Channel, g: FrameId)
    requires Inv(s)
    ensures var (r, plan) := PlanFor(s, f, k, current);
            var m := if plan.Ok? && plan.value.MovedTo? then MoveOf(s, f, plan.value.t) else None;
            Sees(r, c, g) <==> Shows(m, c, g) || (Sees(s, c, g) && !Hides(m, c, g))
  {
    if k in s.pool.byKey {
      TransferSight(s, f, s.pool.byKey[k], c, g);
    }
  }

  /** Recording an origin changes nobody's owner. */
  lemma NotedEmbedder(s: State, f: FrameId, origin: Origin)
    requires Inv(s) && IsLive(s.tree, f)
    ensures ParentOwner(CommitOrigin(s.tree, f, origin), f) == ParentOwner(s.tree, f)
  {
  }

  lemma CommitSight(s: State, step: Step, c: Channel, f: FrameId)
    requires Inv(s) && step.DoCommit?
    ensures Sees(Next(s, step), c, f) <==> Gives(s, step, c, f) || (Sees(s, c, f) && !Hides(Moved(s, step), c, f))
  {
    var g := step.f;
    OwnedMeansLive(s.tree, g);
    if OwnerOf(s.tree, g).Some? {
      CommitKeepsTree(s, g, step.origin);
      NotedEmbedder(s, g, step.origin);
      var current := OwnerOf(s.tree, g).value;
      var noted := s.(tree := CommitOrigin(s.tree, g, step.origin));
      var key := KeyOf(noted.tree, g, step.resolve);
      if key.Some? {
        var k := (noted.tree.slots[g.index].group, key.value);
        PlanSight(noted, g, k, current, c, f);
      }
    }
  }

  lemma OpenSight(s: State, step: Step, c: Channel, f: FrameId)
    requires Inv(s) && (step.DoOpen? || step.DoGrant? || (step.DoServe? && Shut(step).None?))
    ensures Sees(Next(s, step), c, f) <==> Gives(s, step, c, f) || Sees(s, c, f)
  {
    if step.DoGrant? { OwnedMeansLive(s.tree, step.f); }
  }

  /** Sight changes exactly by what the call gives and takes. */
  lemma StepSight(s: State, step: Step, c: Channel, f: FrameId)
    requires Inv(s)
    ensures Sees(Next(s, step), c, f) <==> Gives(s, step, c, f) || (Sees(s, c, f) && !Takes(s, step, c, f))
  {
    var r := Next(s, step);
    NextKeeps(s, step);
    if Sees(s, c, f) { SeenExists(s, c, f); }
    if Sees(r, c, f) { SeenExists(r, c, f); }
    if Shut(step).Some? {
      ShutSight(s, step, c, f);
    } else {
      match step
      case DoCommit(_, _, _) => CommitSight(s, step, c, f);
      case DoAttach(_, _, _) => AttachSight(s, step, c, f);
      case DoCreate(_) | DoChild(_, _, _) | DoFrame(_, _) => MintingSight(s, step, c, f);
      case _ => OpenSight(s, step, c, f);
    }
  }

  // ---- a whole run ----

  ghost predicate GivenAt(steps: seq<Step>, k: nat, c: Channel, f: FrameId)
    requires k < |steps|
  {
    Gives(After(steps[..k]), steps[k], c, f)
  }

  ghost predicate TakenAt(steps: seq<Step>, k: nat, c: Channel, f: FrameId)
    requires k < |steps|
  {
    Takes(After(steps[..k]), steps[k], c, f)
  }

  /** Step `k` gave the channel sight of the frame, and no later step took it away again. */
  ghost predicate GivenSince(steps: seq<Step>, k: nat, c: Channel, f: FrameId)
    requires k < |steps|
  {
    GivenAt(steps, k, c, f) && forall j :: k < j < |steps| ==> !TakenAt(steps, j, c, f)
  }

  /** A fact that is given and taken step by step holds exactly when it was given and not taken since. */
  ghost predicate Chronicle(holds: seq<bool>, given: seq<bool>, taken: seq<bool>) {
    && |holds| == |given| + 1 && |taken| == |given| && !holds[0]
    && forall k :: 0 <= k < |given| ==> holds[k + 1] == (given[k] || (holds[k] && !taken[k]))
  }

  ghost predicate Since(given: seq<bool>, taken: seq<bool>, k: nat, n: nat)
    requires k < n <= |given| == |taken|
  {
    given[k] && forall j :: k < j < n ==> !taken[j]
  }

  lemma {:induction false} ChronicleMeans(holds: seq<bool>, given: seq<bool>, taken: seq<bool>, n: nat)
    requires Chronicle(holds, given, taken) && n < |holds|
    ensures holds[n] <==> exists k: nat :: k < n && Since(given, taken, k, n)
  {
    if n > 0 {
      var m := n - 1;
      ChronicleMeans(holds, given, taken, m);
      assert holds[m + 1] == (given[m] || (holds[m] && !taken[m]));
      if given[m] {
        assert Since(given, taken, m, n);
      } else if holds[m + 1] {
        var k: nat :| k < m && Since(given, taken, k, m);
        assert Since(given, taken, k, n);
      } else {
        assert forall k: nat :: k < n && Since(given, taken, k, n) ==> k < m && Since(given, taken, k, m) && !taken[m];
      }
    }
  }

  ghost predicate SeesAt(steps: seq<Step>, k: nat, c: Channel, f: FrameId)
    requires k <= |steps|
  {
    Sees(After(steps[..k]), c, f)
  }

  lemma Sightings(steps: seq<Step>, c: Channel, f: FrameId) returns (holds: seq<bool>)
    ensures |holds| == |steps| + 1 && forall k :: 0 <= k <= |steps| ==> holds[k] == SeesAt(steps, k, c, f)
  {
    holds := seq(|steps| + 1, k requires 0 <= k <= |steps| => SeesAt(steps, k, c, f));
  }

  lemma Gifts(steps: seq<Step>, c: Channel, f: FrameId) returns (given: seq<bool>)
    ensures |given| == |steps| && forall k :: 0 <= k < |steps| ==> given[k] == GivenAt(steps, k, c, f)
  {
    given := seq(|steps|, k requires 0 <= k < |steps| => GivenAt(steps, k, c, f));
  }

  lemma Losses(steps: seq<Step>, c: Channel, f: FrameId) returns (taken: seq<bool>)
    ensures |taken| == |steps| && forall k :: 0 <= k < |steps| ==> taken[k] == TakenAt(steps, k, c, f)
  {
    taken := seq(|steps|, k requires 0 <= k < |steps| => TakenAt(steps, k, c, f));
  }

  lemma LastStep(steps: seq<Step>, m: nat, c: Channel, f: FrameId)
    requires m < |steps|
    ensures SeesAt(steps, m + 1, c, f) <==>
            GivenAt(steps, m, c, f) || (SeesAt(steps, m, c, f) && !TakenAt(steps, m, c, f))
  {
    AfterNext(steps, m);
    StepSight(After(steps[..m]), steps[m], c, f);
  }

  lemma RunChronicle(steps: seq<Step>, c: Channel, f: FrameId)
    returns (holds: seq<bool>, given: seq<bool>, taken: seq<bool>)
    ensures |given| == |steps| && Chronicle(holds, given, taken)
    ensures forall k :: 0 <= k < |steps| ==> given[k] == GivenAt(steps, k, c, f) && taken[k] == TakenAt(steps, k, c, f)
    ensures holds[|steps|] == Sees(After(steps), c, f)
  {
    holds := Sightings(steps, c, f);
    given := Gifts(steps, c, f);
    taken := Losses(steps, c, f);
    assert !holds[0] by { assert steps[..0] == []; assert holds[0] == SeesAt(steps, 0, c, f); }
    assert holds[|steps|] == Sees(After(steps), c, f) by { assert steps[..|steps|] == steps; }
    forall k | 0 <= k < |steps| ensures holds[k + 1] == (given[k] || (holds[k] && !taken[k])) {
      LastStep(steps, k, c, f);
      assert holds[k] == SeesAt(steps, k, c, f) && holds[k + 1] == SeesAt(steps, k + 1, c, f);
    }
  }

  /** After any run, a channel sees exactly what it was given and has not lost since. */
  lemma SightIsHistory(steps: seq<Step>, c: Channel, f: FrameId)
    ensures Sees(After(steps), c, f) <==> exists k: nat :: k < |steps| && GivenSince(steps, k, c, f)
  {
    var holds, given, taken := RunChronicle(steps, c, f);
    ChronicleMeans(holds, given, taken, |steps|);
    forall k: nat | k < |steps| ensures GivenSince(steps, k, c, f) <==> Since(given, taken, k, |steps|) {}
  }

  /**
    After any run, the host of a frame is Local exactly to its owner, Remote
    exactly to a channel that was given sight of that very frame and kept it
    while the frame is live in another process, and Denied to everyone else.
   */
  lemma AnswersAreHistory(steps: seq<Step>, c: Channel, f: FrameId)
    ensures var s := After(steps);
            var a := Dispatch(s, c, FrameHost(f)).response;
            && (a == HostIs(true) <==> OwnerOf(s.tree, f) == Some(c))
            && (a == HostIs(false) <==>
                  && IsLive(s.tree, f) && OwnerOf(s.tree, f) != Some(c)
                  && exists k: nat :: k < |steps| && GivenSince(steps, k, c, f))
            && (a == Denied <==> a != HostIs(true) && a != HostIs(false))
  {
    var s := After(steps);
    SightIsHistory(steps, c, f);
    FrameHostMeans(s, c, f);
  }

  /**
    After a process swap the frame is Local to its new owner and Remote to the
    channel that embeds it; the old owner, unless it is the embedder, is Denied.
   */
  lemma AnswersAfterMove(s: State, f: FrameId, to: Channel)
    requires Inv(s) && TransferFrame(s, f, to).1.Ok? && TransferFrame(s, f, to).1.value.replaced.Some?
    ensures var (r, out) := TransferFrame(s, f, to);
            var from, embedder := out.value.replaced.value, ParentOwner(s.tree, f);
            && Dispatch(r, to, FrameHost(f)).response == HostIs(true)
            && (embedder.Some? && embedder.value != to ==>
                Dispatch(r, embedder.value, FrameHost(f)).response == HostIs(false))
            && (embedder != Some(from) ==> Dispatch(r, from, FrameHost(f)).response == Denied)
  {
    var (r, out) := TransferFrame(s, f, to);
    var from, embedder := out.value.replaced.value, ParentOwner(s.tree, f);
    TransferKeeps(s, f, to);
    OwnedMeansLive(r.tree, f);
    TransferSight(s, f, to, from, f);
    FrameHostMeans(r, to, f);
    FrameHostMeans(r, from, f);
    if embedder.Some? {
      TransferSight(s, f, to, embedder.value, f);
      FrameHostMeans(r, embedder.value, f);
    }
  }

  // ---- what a move leaves behind ----

  /** A move changes nobody's sight of the frame's children: the new host sees one exactly if it saw it before. */
  lemma MoveLeavesChildren(s: State, f: FrameId, to: Channel, g: FrameId, c: Channel)
    requires Inv(s) && ParentOf(s.tree, g) == Some(f) && TransferFrame(s, f, to).1.Ok?
    ensures Sees(TransferFrame(s, f, to).0, c, g) <==> Sees(s, c, g)
  {
    assert SlotOk(s.tree, g.index);
    TransferSight(s, f, to, c, g);
  }

  // ---- channel ids and process keys ----

  /** The id handed out by a call. */
  function Opened(s: State, step: Step): Option<Channel> {
    if step.DoOpen? then Open(s).1 else None
  }

  /** Ids only go up, only the opened one appears, and a channel that stays open keeps the key it serves. */
  ghost predicate Ages(s: State, r: State, handed: Option<Channel>) {
    && s.nextChannel <= r.nextChannel
    && (forall c :: c in r.caps && c !in s.caps ==> handed == Some(c))
    && (handed.Some? ==> s.nextChannel <= handed.value < r.nextChannel && handed.value in r.caps)
    && (forall c :: c in s.pool.byChannel && c in r.caps ==>
        c in r.pool.byChannel && r.pool.byChannel[c] == s.pool.byChannel[c])
  }

  lemma ShutAges(s: State, step: Step)
    requires Inv(s) && Shut(step).Some?
    ensures Ages(s, Next(s, step), None)
  {
    var d := Shut(step).value;
    var r := Next(s, step);
    PoolKeeps(s.pool, (0, ProcessKey("", Opaque(0))), d);
    assert r.pool == Forget(s.pool, d) && r.nextChannel == s.nextChannel;
    assert r.caps == Purged(r.tree, s.caps - {d});
  }

  lemma TransferAges(s: State, f: FrameId, to: Channel)
    ensures var r := TransferFrame(s, f, to).0;
            r.pool == s.pool && r.caps.Keys == s.caps.Keys && r.nextChannel == s.nextChannel
  {
  }

  lemma RegisterAges(s: State, k: PoolKey, c: Channel)
    requires Register(s.pool, k, c).Ok?
    ensures Ages(s, s.(pool := Register(s.pool, k, c).value), None)
  {
  }

  lemma PlanAges(s: State, f: FrameId, k: PoolKey, current: Channel)
    ensures Ages(s, PlanFor(s, f, k, current).0, None)
  {
    if k in s.pool.byKey {
      TransferAges(s, f, s.pool.byKey[k]);
    } else if Register(s.pool, k, current).Ok? {
      RegisterAges(s, k, current);
    }
  }

  /** The tree plays no part in ageing. */
  lemma AgesElsewhere(s: State, u: State, r: State)
    requires u == s.(tree := u.tree) && Ages(u, r, None)
    ensures Ages(s, r, None)
  {
  }

  lemma CommitAges(s: State, step: Step)
    requires Inv(s) && step.DoCommit?
    ensures Ages(s, Next(s, step), None)
  {
    var f := step.f;
    OwnedMeansLive(s.tree, f);
    if OwnerOf(s.tree, f).Some? {
      CommitKeepsTree(s, f, step.origin);
      var current := OwnerOf(s.tree, f).value;
      var noted := s.(tree := CommitOrigin(s.tree, f, step.origin));
      var key := KeyOf(noted.tree, f, step.resolve);
      if key.Some? {
        PlanAges(noted, f, (noted.tree.slots[f.index].group, key.value), current);
        AgesElsewhere(s, noted, Next(s, step));
      }
    }
  }

  lemma AttachAges(s: State, step: Step)
    requires Inv(s) && step.DoAttach?
    ensures Ages(s, Next(s, step), None)
  {
    var f, process := step.f, step.process;
    if Exists(s.tree, f) && process in s.caps {
      var k := (s.tree.slots[f.index].group, step.key);
      var pool := Register(s.pool, k, process);
      if pool.Ok? {
        RegisterAges(s, k, process);
        TransferAges(s.(pool := pool.value), f, process);
      }
    }
  }

  /** At most the tree and what channels may see or host differ. */
  ghost predicate SameChannels(s: State, r: State) {
    r.pool == s.pool && r.nextChannel == s.nextChannel && r.caps.Keys == s.caps.Keys
  }

  lemma ChildChannels(s: State, c: Channel, p: FrameId, o: nat)
    ensures SameChannels(s, CreateChildFrame(s, c, p, o).0)
  {
  }

  lemma MintingAges(s: State, step: Step)
    requires Inv(s) && (step.DoCreate? || step.DoChild? || step.DoFrame?)
    ensures Ages(s, Next(s, step), None)
  {
    match step
    case DoCreate(c) => assert SameChannels(s, CreateFrame(s, c).0);
    case DoChild(c, p, o) => ChildChannels(s, c, p, o);
    case DoFrame(c, q) =>
      if q.CreateChildRequest? { ChildChannels(s, c, q.parent, q.ordinal); }
      assert SameChannels(s, DispatchFrame(s, c, q).0);
  }

  lemma StepAges(s: State, step: Step)
    requires Inv(s)
    ensures Ages(s, Next(s, step), Opened(s, step))
  {
    if Shut(step).Some? {
      ShutAges(s, step);
    } else {
      match step
      case DoCommit(_, _, _) => CommitAges(s, step);
      case DoAttach(_, _, _) => AttachAges(s, step);
      case DoCreate(_) | DoChild(_, _, _) | DoFrame(_, _) => MintingAges(s, step);
      case _ =>
    }
  }

  ghost predicate Ageing(ss: seq<State>, handed: seq<Option<Channel>>) {
    |ss| == |handed| + 1 && forall k :: 0 <= k < |handed| ==> Ages(ss[k], ss[k + 1], handed[k])
  }

  lemma {:induction false} ClosedStaysClosed(ss: seq<State>, handed: seq<Option<Channel>>, i: nat, j: nat, c: Channel)
    requires Ageing(ss, handed) && i <= j < |ss| && c < ss[i].nextChannel
    ensures c < ss[j].nextChannel && (c !in ss[i].caps ==> c !in ss[j].caps)
    decreases j
  {
    if i < j {
      ClosedStaysClosed(ss, handed, i, j - 1, c);
      assert Ages(ss[j - 1], ss[j - 1 + 1], handed[j - 1]);
    }
  }

  lemma {:induction false} KeyStays(ss: seq<State>, handed: seq<Option<Channel>>, i: nat, j: nat, c: Channel)
    requires Ageing(ss, handed) && i <= j < |ss| && c < ss[i].nextChannel && c in ss[i].pool.byChannel
            && c in ss[j].caps
    ensures c in ss[j].pool.byChannel && ss[j].pool.byChannel[c] == ss[i].pool.byChannel[c]
    decreases j
  {
    if i < j {
      ClosedStaysClosed(ss, handed, i, j - 1, c);
      ClosedStaysClosed(ss, handed, j - 1, j, c);
      KeyStays(ss, handed, i, j - 1, c);
      assert Ages(ss[j - 1], ss[j - 1 + 1], handed[j - 1]);
    }
  }

  ghost function StateAt(steps: seq<Step>, i: nat): State
    requires i <= |steps|
  {
    After(steps[..i])
  }

  ghost function OpenedAt(steps: seq<Step>, i: nat): Option<Channel>
    requires i < |steps|
  {
    Opened(StateAt(steps, i), steps[i])
  }

  lemma RunAges(steps: seq<Step>) returns (ss: seq<State>, handed: seq<Option<Channel>>)
    ensures Ageing(ss, handed) && |handed| == |steps|
    ensures forall i :: 0 <= i <= |steps| ==> ss[i] == StateAt(steps, i)
    ensures forall i :: 0 <= i < |steps| ==> handed[i] == OpenedAt(steps, i)
  {
    ss := seq(|steps| + 1, i requires 0 <= i <= |steps| => StateAt(steps, i));
    handed := seq(|steps|, i requires 0 <= i < |steps| => OpenedAt(steps, i));
    forall k | 0 <= k < |steps| ensures Ages(ss[k], ss[k + 1], handed[k]) {
      AfterNext(steps, k);
      StepAges(StateAt(steps, k), steps[k]);
    }
  }

  /** No two steps of a run open the same channel, and a channel once shut never opens again. */
  lemma ChannelsAreNotReused(steps: seq<Step>, i: nat, j: nat)
    requires i < j < |steps| && OpenedAt(steps, i).Some?
    ensures OpenedAt(steps, i) != OpenedAt(steps, j)
    ensures forall k :: j <= k <= |steps| && OpenedAt(steps, i).value !in StateAt(steps, j).caps ==>
            OpenedAt(steps, i).value !in StateAt(steps, k).caps
  {
    var ss, handed := RunAges(steps);
    assert Ages(ss[i], ss[i + 1], handed[i]) && Ages(ss[j], ss[j + 1], handed[j]);
    var c := handed[i].value;
    ClosedStaysClosed(ss, handed, i + 1, j, c);
    forall k | j <= k <= |steps| && c !in ss[j].caps ensures c !in ss[k].caps {
      ClosedStaysClosed(ss, handed, j, k, c);
    }
  }

  /** While a channel is open, the group and key it serves never change. */
  lemma ServedKeyIsFixed(steps: seq<Step>, i: nat, j: nat, c: Channel)
    requires i <= j <= |steps| && c in StateAt(steps, i).pool.byChannel && c in StateAt(steps, j).caps
    ensures c in StateAt(steps, j).pool.byChannel
            && StateAt(steps, j).pool.byChannel[c] == StateAt(steps, i).pool.byChannel[c]
  {
    var ss, handed := RunAges(steps);
    assert c < StateAt(steps, i).nextChannel;
    KeyStays(ss, handed, i, j, c);
  }
}
