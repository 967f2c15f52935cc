/**
  Site isolation over whole runs of the broker (crates/px-broker/src/lib.rs and
  site.rs): documents share a process exactly when they share their origin,
  their browsing context group and the site at the top.
 */
module BrokerIsolation {
  import opened Common
  import opened BrokerTree
  import opened BrokerState
  import opened BrokerRuns
  import opened BrokerHistory
  import opened BrokerReach

  // ---- one commit ----

  /** The step commits a document, in place or by moving its frame. */
  ghost predicate Commits(s: State, step: Step)
    requires Inv(s)
  {
    step.DoCommit? &&
    var plan := Commit(s, step.f, step.origin, step.resolve).1;
    plan.Ok? && (plan.value.InPlace? || plan.value.MovedTo?)
  }

  /** Where a document belongs. */
  datatype Home = Home(origin: Origin, group: nat, site: string)

  /**
    The home of a document just committed: the origin the step was given, the
    group of its frame, and the registrable domain of the origin at the top.
   */
  ghost predicate HomeIs(s: State, step: Step, h: Home) {
    && step.DoCommit? && Forest(s.tree) && Exists(s.tree, step.f)
    && h.origin == step.origin && h.group == s.tree.slots[step.f.index].group
    && OfSite(TopOrigin(s.tree, step.f), step.resolve, h.site)
  }

  lemma HomeIsUnique(s: State, step: Step, g: Home, h: Home)
    requires HomeIs(s, step, g) && HomeIs(s, step, h)
    ensures g == h
  {
  }

  function HomeOf(k: PoolKey): Home {
    Home(k.1.origin, k.0, k.1.site)
  }

  /** A commit that gets a plan leaves its origin at the frame. */
  lemma OriginIsRecorded(s: State, f: FrameId, origin: Origin, resolve: Resolver)
    requires Inv(s) && IsLive(s.tree, f)
    ensures var r := Commit(s, f, origin, resolve).0;
            f.index < |r.tree.slots| && r.tree.slots[f.index].origin == Some(origin)
  {
    OwnedMeansLive(s.tree, f);
    CommitKeepsTree(s, f, origin);
    var noted := s.(tree := CommitOrigin(s.tree, f, origin));
    var key := CommitKey(s, f, origin, resolve);
    if key.Some? {
      PlanForKeeps(noted, f, key.value, OwnerOf(s.tree, f).value);
      var r := PlanFor(noted, f, key.value, OwnerOf(s.tree, f).value).0;
      assert r.tree.slots[f.index].(owner := None) == noted.tree.slots[f.index].(owner := None);
    }
  }

  /** A committed document is hosted by a channel that serves its home. */
  ghost predicate Housed(s: State, step: Step, c: Channel, k: PoolKey) {
    && step.DoCommit? && OwnerOf(s.tree, step.f) == Some(c) && c in s.caps
    && Serves(s, c, k) && HomeIs(s, step, HomeOf(k))
  }

  lemma CommitHouses(s: State, step: Step) returns (c: Channel, k: PoolKey)
    requires Inv(s) && Commits(s, step)
    ensures Housed(Commit(s, step.f, step.origin, step.resolve).0, step, c, k)
  {
    var f := step.f;
    var r := Commit(s, f, step.origin, step.resolve).0;
    CommittedIsServed(s, f, step.origin, step.resolve);
    var key := KeyOf(r.tree, f, step.resolve).value;
    c, k := OwnerOf(r.tree, f).value, (r.tree.slots[f.index].group, key);
    KeyMeans(r.tree, f, step.resolve, key);
    OriginIsRecorded(s, f, step.origin, step.resolve);
  }

  lemma StepHouses(s: State, step: Step) returns (c: Channel, k: PoolKey)
    requires Inv(s) && Commits(s, step)
    ensures Housed(Next(s, step), step, c, k)
  {
    c, k := CommitHouses(s, step);
  }

  // ---- two commits ----

  /** Same origin, same group, same site at the top. */
  ghost predicate SameHome(s: State, a: Step, r: State, b: Step) {
    exists h :: HomeIs(s, a, h) && HomeIs(r, b, h)
  }

  /**
    The two documents are left with the same channel only if they have one home;
    and if they have, they are, as long as the first channel is still open.
   */
  ghost predicate Isolated(s: State, a: Step, r: State, b: Step) {
    && a.DoCommit? && b.DoCommit? && OwnerOf(s.tree, a.f).Some? && OwnerOf(r.tree, b.f).Some?
    && (OwnerOf(s.tree, a.f) == OwnerOf(r.tree, b.f) ==> SameHome(s, a, r, b))
    && (SameHome(s, a, r, b) && OwnerOf(s.tree, a.f).value in r.caps ==> OwnerOf(s.tree, a.f) == OwnerOf(r.tree, b.f))
  }

  lemma SameKeySameHome(s: State, a: Step, k: PoolKey, r: State, b: Step, l: PoolKey)
    requires HomeIs(s, a, HomeOf(k)) && HomeIs(r, b, HomeOf(l))
    ensures SameHome(s, a, r, b) <==> k == l
  {
    if SameHome(s, a, r, b) {
      var h :| HomeIs(s, a, h) && HomeIs(r, b, h);
      HomeIsUnique(s, a, h, HomeOf(k));
      HomeIsUnique(r, b, h, HomeOf(l));
    }
  }

  /** In one state, channels are the same exactly if what they serve is. */
  lemma OneServer(s: State, c: Channel, k: PoolKey, d: Channel, l: PoolKey)
    requires PoolOk(s.pool) && Serves(s, c, k) && Serves(s, d, l)
    ensures c == d <==> k == l
  {
  }

  /** The channel serves the key, if it is still open. */
  ghost predicate Keeps(r: State, c: Channel, k: PoolKey) {
    PoolOk(r.pool) && (c in r.caps ==> Serves(r, c, k))
  }

  /** Both documents are housed, and the first one's channel still serves what it did. */
  ghost predicate BothHoused(s: State, a: Step, c: Channel, k: PoolKey, r: State, b: Step, d: Channel, l: PoolKey) {
    Housed(s, a, c, k) && Housed(r, b, d, l) && Keeps(r, c, k)
  }

  ghost predicate Comparable(s: State, a: Step, r: State, b: Step) {
    exists c, k, d, l :: BothHoused(s, a, c, k, r, b, d, l)
  }

  lemma ComparableIsIsolated(s: State, a: Step, r: State, b: Step)
    requires Comparable(s, a, r, b)
    ensures Isolated(s, a, r, b)
  {
    var c, k, d, l :| BothHoused(s, a, c, k, r, b, d, l);
    SameKeySameHome(s, a, k, r, b, l);
    if c in r.caps { OneServer(r, c, k, d, l); }
  }

  // ---- in a run ----

  /** The document is housed, in a state of a run. */
  ghost predicate WellHoused(s: State, step: Step) {
    exists c: Channel, k :: Housed(s, step, c, k) && c < s.nextChannel && PoolOk(s.pool)
  }

  /** The plan a step was answered with, if it was a commit and got one. */
  ghost function PlanOf(s: State, step: Step): Option<Plan>
    requires Inv(s)
  {
    if !step.DoCommit? then None
    else
      var plan := Commit(s, step.f, step.origin, step.resolve).1;
      if plan.Ok? then Some(plan.value) else None
  }

  /** Step `i` leads from one state to the next and is answered with the plan. */
  ghost predicate StepAt(steps: seq<Step>, ss: seq<State>, plans: seq<Option<Plan>>, i: nat)
    requires i < |steps| == |plans| && |ss| == |steps| + 1
  {
    Inv(ss[i]) && ss[i + 1] == Next(ss[i], steps[i]) && plans[i] == PlanOf(ss[i], steps[i])
  }

  /** A run from the empty broker: its steps, the states it goes through, and the plans its commits get. */
  ghost predicate IsRun(steps: seq<Step>, ss: seq<State>, plans: seq<Option<Plan>>) {
    && |steps| == |plans| && |ss| == |steps| + 1 && ss[0] == INITIAL
    && forall i {:trigger StepAt(steps, ss, plans, i)} :: 0 <= i < |steps| ==> StepAt(steps, ss, plans, i)
  }

  /** Every list of steps has its run. */
  lemma RunExists(steps: seq<Step>) returns (ss: seq<State>, plans: seq<Option<Plan>>)
    ensures IsRun(steps, ss, plans) && ss[|steps|] == After(steps)
  {
    ss := seq(|steps| + 1, i requires 0 <= i <= |steps| => StateAt(steps, i));
    plans := seq(|steps|, i requires 0 <= i < |steps| => PlanOf(StateAt(steps, i), steps[i]));
    assert steps[..0] == [] && steps[..|steps|] == steps;
    forall i | 0 <= i < |steps| ensures StepAt(steps, ss, plans, i) { AfterNext(steps, i); }
  }

  /** The document was committed, in place or by moving its frame. */
  predicate Landed(plan: Option<Plan>) {
    plan.Some? && (plan.value.InPlace? || plan.value.MovedTo?)
  }

  lemma LandedIsHoused(s: State, step: Step)
    requires Inv(s) && Landed(PlanOf(s, step))
    ensures WellHoused(Next(s, step), step)
  {
    var c, k := StepHouses(s, step);
    NextKeeps(s, step);
    assert Housed(Next(s, step), step, c, k);
  }

  lemma LandedAt(steps: seq<Step>, ss: seq<State>, plans: seq<Option<Plan>>, i: nat)
    requires IsRun(steps, ss, plans) && i < |steps| && Landed(plans[i])
    ensures WellHoused(ss[i + 1], steps[i])
  {
    assert StepAt(steps, ss, plans, i);
    LandedIsHoused(ss[i], steps[i]);
  }

  lemma StatesAge(steps: seq<Step>, ss: seq<State>, plans: seq<Option<Plan>>) returns (handed: seq<Option<Channel>>)
    requires IsRun(steps, ss, plans)
    ensures Ageing(ss, handed)
  {
    handed := seq(|steps|, i requires 0 <= i < |steps| => Opened(ss[i], steps[i]));
    forall i | 0 <= i < |steps| ensures Ages(ss[i], ss[i + 1], handed[i]) {
      assert StepAt(steps, ss, plans, i);
      StepAges(ss[i], steps[i]);
    }
  }

  lemma HousedInAgeing(ss: seq<State>, handed: seq<Option<Channel>>, i: nat, a: Step, j: nat, b: Step)
    requires Ageing(ss, handed) && i <= j < |ss| && WellHoused(ss[i], a) && WellHoused(ss[j], b)
    ensures Isolated(ss[i], a, ss[j], b)
  {
    var c: Channel, k :| Housed(ss[i], a, c, k) && c < ss[i].nextChannel && PoolOk(ss[i].pool);
    var d: Channel, l :| Housed(ss[j], b, d, l) && d < ss[j].nextChannel && PoolOk(ss[j].pool);
    if c in ss[j].caps { KeyStays(ss, handed, i, j, c); }
    assert BothHoused(ss[i], a, c, k, ss[j], b, d, l);
    ComparableIsIsolated(ss[i], a, ss[j], b);
  }

  /** Site isolation: any two commits of a run share a process only within one home, and do so within one. */
  lemma SitesAreIsolated(steps: seq<Step>, ss: seq<State>, plans: seq<Option<Plan>>, i: nat, j: nat)
    requires IsRun(steps, ss, plans) && i < j < |steps| && Landed(plans[i]) && Landed(plans[j])
    ensures Isolated(ss[i + 1], steps[i], ss[j + 1], steps[j])
  {
    LandedAt(steps, ss, plans, i);
    LandedAt(steps, ss, plans, j);
    var handed := StatesAge(steps, ss, plans);
    HousedInAgeing(ss, handed, i + 1, steps[i], j + 1, steps[j]);
  }

  // ---- navigation after a run ----

  /** After any run, a frame request to navigate is authorised exactly for a host of the frame or of one above it. */
  lemma NavigationAfterRun(steps: seq<Step>, c: Channel, f: FrameId, urlParses: bool)
    ensures var s := After(steps);
            DispatchFrame(s, c, Navigate(f, urlParses)).1 == NavigationAuthorised <==>
            c in s.caps && IsLive(s.tree, f) && Controls(s, c, f) && urlParses
  {
    AuthoriseMeans(After(steps), c, f, urlParses);
  }
}
