/**
  Runs of the broker that end where a reader might not expect
  (crates/px-broker/src/lib.rs): a child out of its new host's sight, a failed
  attach that stays registered, and a full process pool.
 */
module BrokerWitness {
  import opened Common
  import opened BrokerTree
  import opened BrokerState
  import opened BrokerRuns
  import opened BrokerHistory

  /** A run and where it leads. */
  ghost predicate Leads(steps: seq<Step>, s: State) {
    After(steps) == s
  }

  /** One step of a run; every state of a run is valid, so the step may rely on that. */
  ghost predicate Taken(s: State, step: Step, r: State) {
    Inv(s) ==> Next(s, step) == r
  }

  lemma LeadsOn(steps: seq<Step>, s: State, step: Step, r: State)
    requires Leads(steps, s) && Taken(s, step, r)
    ensures Leads(steps + [step], r)
  {
    var all := steps + [step];
    assert all[..|all| - 1] == steps;
  }

  // ---- creating frames in a tree without free slots ----

  ghost predicate Packed(slots: seq<Slot>) {
    |slots| <= U32_MAX && forall i :: 0 <= i < |slots| ==> !slots[i].lifecycle.Free?
  }

  lemma AllocAppends(t: Tree, owner: Channel, parent: Option<FrameId>, depth: nat, ordinal: Option<nat>, group: nat)
    requires Packed(t.slots)
    ensures Alloc(t, owner, parent, depth, ordinal, group) ==
            (t.(slots := t.slots + [NewSlot(0, owner, parent, depth, ordinal, group)]), Some(FrameId(|t.slots|, 0)))
  {
    assert FirstReusable(t.slots, 0) == |t.slots|;
    assert Retired(t.slots, |t.slots|) == t.slots;
  }

  lemma CreateAppends(s: State, c: Channel)
    requires Packed(s.tree.slots) && s.tree.nextGroup + 1 <= U64_MAX && c in s.caps
    ensures var f, group := FrameId(|s.tree.slots|, 0), s.tree.nextGroup;
            var tree := Tree(s.tree.slots + [NewSlot(0, c, None, 0, None, group)], group + 1);
            CreateFrame(s, c) == (s.(tree := tree, caps := Granted(s.caps, c, f)), Some(f))
  {
    AllocAppends(s.tree, c, None, 0, None, s.tree.nextGroup);
  }

  // ---- a child that its new host cannot see ----

  const TOP := FrameId(0, 0)
  const KID := FrameId(1, 0)

  const BARE := Caps({}, {})

  ghost function TwoChannels(): State {
    State(2, map[0 := BARE, 1 := BARE], Tree([], 0), Pool(map[], map[]), [])
  }

  ghost function WithTop(): State {
    TwoChannels().(tree := Tree([NewSlot(0, 0, None, 0, None, 0)], 1), caps := map[0 := Caps({TOP}, {TOP}), 1 := BARE])
  }

  ghost function WithKid(): State {
    var slots := [NewSlot(0, 0, None, 0, None, 0), NewSlot(0, 0, Some(TOP), 1, Some(0), 0)];
    WithTop().(tree := Tree(slots, 1), caps := map[0 := Caps({TOP, KID}, {TOP, KID}), 1 := BARE])
  }

  lemma OpensTwo()
    ensures Leads([DoOpen, DoOpen], TwoChannels())
  {
    var one := Open(INITIAL).0;
    assert Leads([], INITIAL);
    LeadsOn([], INITIAL, DoOpen, one);
    LeadsOn([] + [DoOpen], one, DoOpen, TwoChannels());
    assert [] + [DoOpen] + [DoOpen] == [DoOpen, DoOpen];
  }

  lemma MakesTop()
    ensures Taken(TwoChannels(), DoCreate(0), WithTop())
  {
    var s := TwoChannels();
    CreateAppends(s, 0);
    assert {} + {TOP} == {TOP};
    assert Granted(s.caps, 0, TOP) == WithTop().caps;
  }

  lemma MakesKid()
    ensures Taken(WithTop(), DoChild(0, TOP, 0), WithKid())
  {
    var s := WithTop();
    assert Children(s.tree, TOP) == {};
    AllocAppends(s.tree, 0, Some(TOP), 1, Some(0), 0);
    assert s.tree.slots + [NewSlot(0, 0, Some(TOP), 1, Some(0), 0)] == WithKid().tree.slots;
    assert {TOP} + {KID} == {TOP, KID};
    assert Granted(s.caps, 0, KID) == WithKid().caps;
  }

  /** Channel 0 creates a frame and a child of it. */
  ghost function FamilyRun(): seq<Step> {
    [DoOpen, DoOpen] + [DoCreate(0)] + [DoChild(0, TOP, 0)]
  }

  lemma LeadsOnTwice(steps: seq<Step>, s: State, a: Step, t: State, b: Step, r: State)
    requires Leads(steps, s) && Taken(s, a, t) && Taken(t, b, r)
    ensures Leads(steps + [a] + [b], r)
  {
    LeadsOn(steps, s, a, t);
    LeadsOn(steps + [a], t, b, r);
  }

  lemma FamilyRunLeads()
    ensures Leads(FamilyRun(), WithKid())
  {
    OpensTwo();
    MakesTop();
    MakesKid();
    LeadsOnTwice([DoOpen, DoOpen], TwoChannels(), DoCreate(0), WithTop(), DoChild(0, TOP, 0), WithKid());
  }

  ghost function ParentMoved(key: ProcessKey): State {
    Attach(WithKid(), TOP, key, 1).0
  }

  /** Channel 1 hosts the frame and cannot see its child. */
  ghost predicate KidUnseen(s: State) {
    OwnerOf(s.tree, TOP) == Some(1) && ParentOf(s.tree, KID) == Some(TOP) && !Sees(s, 1, KID)
  }

  lemma MovesTop(key: ProcessKey)
    ensures Taken(WithKid(), DoAttach(TOP, key, 1), ParentMoved(key))
  {
  }

  lemma MovedIsUnseen(key: ProcessKey)
    ensures KidUnseen(ParentMoved(key))
  {
  }

  /** When the frame alone moves to channel 1, that channel hosts the frame and cannot see its child. */
  lemma ChildOutOfSight(key: ProcessKey)
    ensures KidUnseen(After(FamilyRun() + [DoAttach(TOP, key, 1)]))
  {
    FamilyRunLeads();
    MovesTop(key);
    LeadsOn(FamilyRun(), WithKid(), DoAttach(TOP, key, 1), ParentMoved(key));
    MovedIsUnseen(key);
  }

  // ---- an attach that fails and stays registered ----

  ghost function Alone(): State {
    State(1, map[0 := Caps({TOP}, {TOP})], Tree([NewSlot(0, 0, None, 0, None, 0)], 1), Pool(map[], map[]), [])
  }

  ghost function Crashed1(): State {
    State(1, map[], Tree([CrashSlot(NewSlot(0, 0, None, 0, None, 0))], 1), Pool(map[], map[]), [])
  }

  ghost function CrashedAndOpen(): State {
    Crashed1().(nextChannel := 2, caps := map[1 := BARE])
  }

  lemma MakesAlone()
    ensures Leads([DoOpen] + [DoCreate(0)], Alone())
  {
    var one := Open(INITIAL).0;
    assert Leads([], INITIAL);
    assert [] + [DoOpen] == [DoOpen];
    assert one.caps == map[0 := BARE];
    CreateAppends(one, 0);
    assert {} + {TOP} == {TOP};
    assert CreateFrame(one, 0).0 == Alone();
    LeadsOnTwice([], INITIAL, DoOpen, one, DoCreate(0), Alone());
  }

  lemma Dies()
    ensures Taken(Alone(), DoDied(0), Crashed1())
  {
    var s := Alone();
    if Inv(s) {
      assert OwnedBy(s.tree, 0) == {0};
      assert !Beneath(s.tree, 0, {0});
      assert Descendants(s.tree, {0}) == {};
      assert Outermost(s.tree, 0) == {0};
      assert Crash(s.tree, 0).slots == Crashed1().tree.slots;
      assert (s.caps - {0}) == map[];
      assert Died(s, 0).caps == map[];
    }
  }

  lemma OpensBesideCrashed()
    ensures Taken(Crashed1(), DoOpen, CrashedAndOpen())
  {
  }

  /** A channel creates a frame and dies, and another one opens. */
  ghost function CrashRun(): seq<Step> {
    [DoOpen] + [DoCreate(0)] + [DoDied(0)] + [DoOpen]
  }

  /** The attach is refused, and the process is registered all the same. */
  ghost predicate RefusedYetRegistered(s: State, key: ProcessKey) {
    Attach(s, TOP, key, 1).1 == Err(NoSuchFrame) && 1 in Attach(s, TOP, key, 1).0.pool.byChannel
        && 1 !in s.pool.byChannel
  }

  lemma RefusesAndRegisters(key: ProcessKey)
    ensures RefusedYetRegistered(CrashedAndOpen(), key)
  {
  }

  /** Attaching the new channel to the crashed frame fails and leaves it registered. */
  lemma FailedAttachStays(key: ProcessKey)
    ensures RefusedYetRegistered(After(CrashRun()), key)
  {
    MakesAlone();
    Dies();
    OpensBesideCrashed();
    LeadsOnTwice([DoOpen] + [DoCreate(0)], Alone(), DoDied(0), Crashed1(), DoOpen, CrashedAndOpen());
    RefusesAndRegisters(key);
  }

  // ---- a full pool ----

  /** The state after the origin of a document is recorded. */
  ghost function Recorded(s: State, f: FrameId, origin: Origin): State
    requires IsLive(s.tree, f)
  {
    s.(tree := CommitOrigin(s.tree, f, origin))
  }

  /** A top-level frame of channel `c`, where a document of this origin has this key. */
  ghost predicate TopLevel(s: State, f: FrameId, c: Channel, origin: Origin, resolve: Resolver, key: ProcessKey) {
    && IsLive(s.tree, f) && OwnerOf(s.tree, f) == Some(c) && s.tree.slots[f.index].parent.None?
    && NewKey(origin, origin, resolve) == Some(key)
  }

  lemma TopLevelKey(s: State, f: FrameId, c: Channel, origin: Origin, resolve: Resolver, key: ProcessKey)
    requires Inv(s) && TopLevel(s, f, c, origin, resolve, key)
    ensures Inv(Recorded(s, f, origin)) && KeyOf(Recorded(s, f, origin).tree, f, resolve) == Some(key)
  {
    CommitKeepsTree(s, f, origin);
    assert RootOf(Recorded(s, f, origin).tree, f.index) == f.index;
  }

  /** A commit in a top-level frame asks for the frame's group and its own key. */
  lemma TopLevelPlan(s: State, f: FrameId, c: Channel, origin: Origin, resolve: Resolver, key: ProcessKey)
    requires Inv(s) && TopLevel(s, f, c, origin, resolve, key)
    ensures Commit(s, f, origin, resolve) == PlanFor(Recorded(s, f, origin), f, (s.tree.slots[f.index].group, key), c)
  {
    TopLevelKey(s, f, c, origin, resolve, key);
  }

  const SITE := Site("https", Domain("a"), 443)
  const OTHER := Site("https", Domain("b"), 443)
  const KEY := ProcessKey("a", SITE)

  function SameName(name: string): Option<string> { Some(name) }

  ghost function FullCaps(n: nat): (table: map<Channel, Caps>)
    ensures forall c: Channel :: c in table <==> c < n
  {
    if n == 0 then map[] else FullCaps(n - 1)[n - 1 := Caps({FrameId(n - 1, 0)}, {FrameId(n - 1, 0)})]
  }

  function FullSlot(i: nat): Slot {
    NewSlot(0, i, None, 0, None, i).(origin := Some(SITE))
  }

  ghost function FullSlots(n: nat): (slots: seq<Slot>)
    ensures |slots| == n && forall i :: 0 <= i < n ==> slots[i] == FullSlot(i)
  {
    if n == 0 then [] else FullSlots(n - 1) + [FullSlot(n - 1)]
  }

  ghost function FullPool(n: nat): Pool {
    if n == 0 then Pool(map[], map[])
    else
      var p, k := FullPool(n - 1), (n - 1, KEY);
      Pool(p.byKey[k := n - 1], p.byChannel[n - 1 := k])
  }

  /** Channels 0 to n-1, each hosting one top-level frame whose document committed in place. */
  ghost function Full(n: nat): State {
    State(n, FullCaps(n), Tree(FullSlots(n), n), FullPool(n), [])
  }

  lemma {:induction false} FullPoolKeys(n: nat, k: PoolKey)
    requires k in FullPool(n).byKey
    ensures k.0 < n && k.1 == KEY
  {
    if k != (n - 1, KEY) { FullPoolKeys(n - 1, k); }
  }

  lemma {:induction false} FullPoolChannels(n: nat, c: Channel)
    ensures c in FullPool(n).byChannel <==> c < n
  {
    if n > 0 { FullPoolChannels(n - 1, c); }
  }

  lemma GrownSize(m: map<Channel, PoolKey>, c: Channel, k: PoolKey)
    requires c !in m
    ensures |m[c := k]| == |m| + 1
  {
    assert m[c := k].Keys == m.Keys + {c};
  }

  lemma {:induction false} FullPoolSize(n: nat)
    ensures |FullPool(n).byChannel| == n
  {
    if n > 0 {
      var m := n - 1;
      var p := FullPool(m);
      FullPoolSize(m);
      FullPoolChannels(m, m);
      assert FullPool(n).byChannel == p.byChannel[m := (m, KEY)];
      GrownSize(p.byChannel, m, (m, KEY));
    }
  }

  /** One more channel. */
  ghost function FullAndOne(n: nat): State {
    Full(n).(nextChannel := n + 1, caps := FullCaps(n)[n := BARE])
  }

  /** One more channel with a frame. */
  ghost function FullAndFrame(n: nat): State {
    Full(n).(nextChannel := n + 1, caps := FullCaps(n + 1),
             tree := Tree(FullSlots(n) + [NewSlot(0, n, None, 0, None, n)], n + 1))
  }

  lemma OpensOne(n: nat)
    requires n <= MAX_CONTENT_PROCESSES
    ensures Taken(Full(n), DoOpen, FullAndOne(n))
  {
  }

  lemma CreateTaken(s: State, c: Channel, r: State)
    requires CreateFrame(s, c).0 == r
    ensures Taken(s, DoCreate(c), r)
  {
  }

  lemma CreatesOne(n: nat)
    requires n <= MAX_CONTENT_PROCESSES
    ensures Taken(FullAndOne(n), DoCreate(n), FullAndFrame(n))
  {
    var s, f := FullAndOne(n), FrameId(n, 0);
    CreateAppends(s, n);
    assert {} + {f} == {f};
    assert Granted(s.caps, n, f) == FullCaps(n + 1);
    CreateTaken(s, n, FullAndFrame(n));
  }

  lemma NewestIsTop(n: nat)
    ensures TopLevel(FullAndFrame(n), FrameId(n, 0), n, SITE, SameName, KEY)
    ensures Recorded(FullAndFrame(n), FrameId(n, 0), SITE) ==
            FullAndFrame(n).(tree := Tree(FullSlots(n + 1), n + 1))
    ensures FullAndFrame(n).tree.slots[n].group == n
  {
    var s, f := FullAndFrame(n), FrameId(n, 0);
    assert s.tree.slots[n] == NewSlot(0, n, None, 0, None, n);
    assert CommitOrigin(s.tree, f, SITE).slots == FullSlots(n + 1);
  }

  /** The first commit of a channel without a key claims it while the pool has room. */
  lemma FirstCommitTaken(s: State, f: FrameId, c: Channel, origin: Origin, resolve: Resolver, key: ProcessKey,
                         k: PoolKey)
    requires TopLevel(s, f, c, origin, resolve, key) && k == (s.tree.slots[f.index].group, key)
    requires c !in s.pool.byChannel && k !in s.pool.byKey && |s.pool.byChannel| < MAX_CONTENT_PROCESSES
    ensures Taken(s, DoCommit(f, origin, resolve),
              Recorded(s, f, origin).(pool := Pool(s.pool.byKey[k := c], s.pool.byChannel[c := k])))
  {
    if Inv(s) { TopLevelPlan(s, f, c, origin, resolve, key); }
  }

  lemma CommitsInPlace(n: nat)
    requires n < MAX_CONTENT_PROCESSES
    ensures Taken(FullAndFrame(n), DoCommit(FrameId(n, 0), SITE, SameName), Full(n + 1))
  {
    NewestIsTop(n);
    FullPoolSize(n);
    FullPoolChannels(n, n);
    if (n, KEY) in FullPool(n).byKey { FullPoolKeys(n, (n, KEY)); }
    FirstCommitTaken(FullAndFrame(n), FrameId(n, 0), n, SITE, SameName, KEY, (n, KEY));
  }

  /** Each channel opens, creates a frame and commits a document in it. */
  ghost function FillRun(n: nat): seq<Step> {
    if n == 0 then []
    else FillRun(n - 1) + [DoOpen] + [DoCreate(n - 1)] + [DoCommit(FrameId(n - 1, 0), SITE, SameName)]
  }

  lemma {:induction false} FillRunLeads(n: nat)
    requires n <= MAX_CONTENT_PROCESSES
    ensures Leads(FillRun(n), Full(n))
  {
    if n > 0 {
      var m := n - 1;
      FillRunLeads(m);
      OpensOne(m);
      CreatesOne(m);
      CommitsInPlace(m);
      LeadsOnTwice(FillRun(m), Full(m), DoOpen, FullAndOne(m), DoCreate(m), FullAndFrame(m));
      LeadsOn(FillRun(m) + [DoOpen] + [DoCreate(m)], FullAndFrame(m), DoCommit(FrameId(m, 0), SITE, SameName), Full(n));
    }
  }

  /** 64 channels have claimed a key and one more has a frame. */
  ghost function CapRun(): seq<Step> {
    FillRun(MAX_CONTENT_PROCESSES) + [DoOpen] + [DoCreate(MAX_CONTENT_PROCESSES)]
  }

  lemma CapRunLeads(n: nat)
    requires n == MAX_CONTENT_PROCESSES
    ensures Leads(FillRun(n) + [DoOpen] + [DoCreate(n)], FullAndFrame(n))
  {
    FillRunLeads(n);
    OpensOne(n);
    CreatesOne(n);
    LeadsOnTwice(FillRun(n), Full(n), DoOpen, FullAndOne(n), DoCreate(n), FullAndFrame(n));
  }

  /** A commit of an unserved key after a run that filled the pool. */
  lemma CommitAfterCap(run: seq<Step>, s: State, f: FrameId, c: Channel, origin: Origin, resolve: Resolver,
                       key: ProcessKey)
    requires Leads(run, s) && TopLevel(s, f, c, origin, resolve, key)
    requires (s.tree.slots[f.index].group, key) !in s.pool.byKey && |s.pool.byChannel| == MAX_CONTENT_PROCESSES
    ensures Commit(After(run), f, origin, resolve).1 == if c in s.pool.byChannel then Ok(AtCap) else Err(FrameLimit)
  {
    TopLevelKey(s, f, c, origin, resolve, key);
    CommitAtCap(s, f, origin, resolve);
  }

  /** With the pool full, the first commit of a channel without a key is an error. */
  lemma FirstCommitAtCap(n: nat)
    requires n == MAX_CONTENT_PROCESSES
    ensures Commit(After(CapRun()), FrameId(n, 0), SITE, SameName).1 == Err(FrameLimit)
  {
    CapRunLeads(n);
    NewestIsTop(n);
    FullPoolSize(n);
    FullPoolChannels(n, n);
    if (n, KEY) in FullPool(n).byKey { FullPoolKeys(n, (n, KEY)); }
    CommitAfterCap(CapRun(), FullAndFrame(n), FrameId(n, 0), n, SITE, SameName, KEY);
  }

  lemma OldestIsTop(n: nat)
    requires n > 0
    ensures TopLevel(FullAndFrame(n), FrameId(0, 0), 0, OTHER, SameName, ProcessKey("b", OTHER))
    ensures FullAndFrame(n).tree.slots[0].group == 0
  {
    assert FullAndFrame(n).tree.slots[0] == FullSlot(0);
  }

  /** A commit of another key in a channel that serves one is told that the pool is full. */
  lemma LaterCommitAtCap(n: nat)
    requires n == MAX_CONTENT_PROCESSES
    ensures Commit(After(CapRun()), FrameId(0, 0), OTHER, SameName).1 == Ok(AtCap)
  {
    CapRunLeads(n);
    OldestIsTop(n);
    FullPoolSize(n);
    FullPoolChannels(n, 0);
    var k := (0, ProcessKey("b", OTHER));
    if k in FullPool(n).byKey { FullPoolKeys(n, k); }
    CommitAfterCap(CapRun(), FullAndFrame(n), FrameId(0, 0), 0, OTHER, SameName, ProcessKey("b", OTHER));
  }
}
