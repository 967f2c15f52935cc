/**
  Whole runs of the broker: any sequence of calls from the empty state
  (crates/px-broker/src/lib.rs; the fuzz target broker_sequence.rs asserts a
  finite version of these).
 */
module BrokerRuns {
  import opened Common
  import opened BrokerTree
  import opened BrokerState

  datatype Step =
    | DoOpen
    | DoClose(c: Channel)
    | DoDied(c: Channel)
    | DoCreate(c: Channel)
    | DoChild(c: Channel, parent: FrameId, ordinal: nat)
    | DoGrant(c: Channel, f: FrameId)
    | DoCommit(f: FrameId, origin: Origin, resolve: Resolver)
    | DoAttach(f: FrameId, key: ProcessKey, process: Channel)
    | DoServe(c: Channel, q: Request, panics: bool)
    | DoFrame(c: Channel, fq: FrameRequest)

  ghost function Next(s: State, step: Step): State
    requires Inv(s)
  {
    match step
    case DoOpen => Open(s).0
    case DoClose(c) => Close(s, c)
    case DoDied(c) => Died(s, c)
    case DoCreate(c) => CreateFrame(s, c).0
    case DoChild(c, p, o) => CreateChildFrame(s, c, p, o).0
    case DoGrant(c, f) => Grant(s, c, f).0
    case DoCommit(f, origin, resolve) => Commit(s, f, origin, resolve).0
    case DoAttach(f, key, process) => Attach(s, f, key, process).0
    case DoServe(c, q, panics) => Serve(s, c, q, panics).0
    case DoFrame(c, q) => DispatchFrame(s, c, q).0
  }

  lemma ChannelStepKeeps(s: State, step: Step)
    requires Inv(s) && (step.DoOpen? || step.DoClose? || step.DoDied?)
    ensures Inv(Next(s, step))
  {
    match step
    case DoOpen => OpenKeeps(s);
    case DoClose(c) => CloseKeeps(s, c);
    case DoDied(c) => DiedKeeps(s, c);
  }

  lemma FrameRequestStepKeeps(s: State, c: Channel, q: FrameRequest)
    requires Inv(s)
    ensures Inv(Next(s, DoFrame(c, q)))
  {
    var r := DispatchFrame(s, c, q).0;
    assert Inv(r) by { DispatchFrameKeeps(s, c, q); }
    assert Next(s, DoFrame(c, q)) == r;
  }

  lemma ServeStepKeeps(s: State, c: Channel, q: Request, panics: bool)
    requires Inv(s)
    ensures Inv(Next(s, DoServe(c, q, panics)))
  {
    ServeKeeps(s, c, q, panics);
  }

  lemma CreatingStepKeeps(s: State, step: Step)
    requires Inv(s) && (step.DoCreate? || step.DoChild?)
    ensures Inv(Next(s, step))
  {
    match step
    case DoCreate(c) => CreateFrameKeeps(s, c);
    case DoChild(c, p, o) => CreateChildFrameKeeps(s, c, p, o);
  }

  lemma GrantStepKeeps(s: State, c: Channel, f: FrameId)
    requires Inv(s)
    ensures Inv(Next(s, DoGrant(c, f)))
  {
    GrantKeeps(s, c, f);
  }

  lemma AttachStepKeeps(s: State, f: FrameId, key: ProcessKey, process: Channel)
    requires Inv(s)
    ensures Inv(Next(s, DoAttach(f, key, process)))
  {
    AttachKeeps(s, f, key, process);
  }

  lemma CommitStepKeeps(s: State, f: FrameId, origin: Origin, resolve: Resolver)
    requires Inv(s)
    ensures Inv(Next(s, DoCommit(f, origin, resolve)))
  {
    var r := Commit(s, f, origin, resolve).0;
    assert Inv(r) by { CommitKeeps(s, f, origin, resolve); }
    assert Next(s, DoCommit(f, origin, resolve)) == r;
  }

  /** Every call keeps the invariant. */
  lemma NextKeeps(s: State, step: Step)
    requires Inv(s)
    ensures Inv(Next(s, step))
  {
    match step
    case DoOpen | DoClose(_) | DoDied(_) => ChannelStepKeeps(s, step);
    case DoServe(c, q, panics) => ServeStepKeeps(s, c, q, panics);
    case DoCreate(_) | DoChild(_, _, _) => CreatingStepKeeps(s, step);
    case DoFrame(c, q) => FrameRequestStepKeeps(s, c, q);
    case DoCommit(f, origin, resolve) => CommitStepKeeps(s, f, origin, resolve);
    case DoGrant(c, f) => GrantStepKeeps(s, c, f);
    case DoAttach(f, key, process) => AttachStepKeeps(s, f, key, process);
  }

  /** The state after a run. */
  ghost function After(steps: seq<Step>): (s: State)
    ensures Inv(s)
  {
    if steps == [] then InitialInv(); INITIAL
    else
      var before := After(steps[..|steps| - 1]);
      NextKeeps(before, steps[|steps| - 1]);
      Next(before, steps[|steps| - 1])
  }

  // ---- what one step can change ----

  ghost function MintedChild(s: State, c: Channel, p: FrameId, o: nat): Option<FrameId> {
    var f := CreateChildFrame(s, c, p, o).1;
    if f.Ok? then Some(f.value) else None
  }

  /** The frame a step mints, if it mints one. */
  ghost function Minted(s: State, step: Step): Option<FrameId>
    requires Inv(s)
  {
    match step
    case DoCreate(c) => CreateFrame(s, c).1
    case DoChild(c, p, o) => MintedChild(s, c, p, o)
    case DoFrame(c, q) => if q.CreateChildRequest? then MintedChild(s, c, q.parent, q.ordinal) else None
    case _ => None
  }

  /** A handle that was minted already, or never will be. */
  ghost predicate Spent(t: Tree, f: FrameId) {
    f.index < |t.slots| && f.generation <= t.slots[f.index].generation
  }

  /** The tree grows: no handle is ever unspent, and only the minted one appears. */
  ghost predicate Grows(t: Tree, r: Tree, minted: Option<FrameId>) {
    && (forall f :: Spent(t, f) ==> Spent(r, f))
    && (forall f :: Exists(r, f) && !Exists(t, f) ==> minted == Some(f))
    && (minted.Some? ==> !Spent(t, minted.value) && Spent(r, minted.value))
  }

  lemma AllocGrows(t: Tree, owner: Channel, parent: Option<FrameId>, depth: nat, ordinal: Option<nat>, group: nat)
    ensures var (r, f) := Alloc(t, owner, parent, depth, ordinal, group); Grows(t, r, f)
  {
  }

  /** No slot changes generation, and none comes back to life. */
  ghost predicate Fades(t: Tree, r: Tree) {
    |t.slots| == |r.slots| && forall i :: 0 <= i < |t.slots| ==>
      r.slots[i].generation == t.slots[i].generation && (t.slots[i].lifecycle.Free? ==> r.slots[i].lifecycle.Free?)
  }

  lemma FadingGrows(t: Tree, r: Tree)
    requires Fades(t, r)
    ensures Grows(t, r, None)
  {
  }

  lemma TransferFades(s: State, f: FrameId, to: Channel)
    ensures Fades(s.tree, TransferFrame(s, f, to).0.tree)
  {
  }

  lemma CommitGrows(s: State, f: FrameId, origin: Origin, resolve: Resolver)
    requires Inv(s)
    ensures Grows(s.tree, Commit(s, f, origin, resolve).0.tree, None)
  {
    var r := Commit(s, f, origin, resolve).0.tree;
    assert Fades(s.tree, r) by {
      OwnedMeansLive(s.tree, f);
      if OwnerOf(s.tree, f).Some? {
        var noted := s.(tree := CommitOrigin(s.tree, f, origin));
        forall to ensures Fades(noted.tree, TransferFrame(noted, f, to).0.tree) { TransferFades(noted, f, to); }
      }
    }
    FadingGrows(s.tree, r);
  }

  lemma AttachGrows(s: State, f: FrameId, key: ProcessKey, process: Channel)
    ensures Grows(s.tree, Attach(s, f, key, process).0.tree, None)
  {
    var r := Attach(s, f, key, process).0.tree;
    assert Fades(s.tree, r) by {
      forall pool ensures Fades(s.tree, TransferFrame(s.(pool := pool), f, process).0.tree) {
        TransferFades(s.(pool := pool), f, process);
      }
    }
    FadingGrows(s.tree, r);
  }

  lemma TreeChildGrows(t: Tree, c: Channel, p: FrameId, o: nat)
    ensures var (r, f) := CreateChild(t, c, p, o); Grows(t, r, if f.Ok? then Some(f.value) else None)
  {
    if ChildRefusal(t, c, p, o).None? {
      var ps := t.slots[p.index];
      AllocGrows(t, c, Some(p), ps.depth + 1, Some(o), ps.group);
    } else {
      FadingGrows(t, t);
    }
  }

  lemma ChildGrows(s: State, c: Channel, p: FrameId, o: nat)
    ensures Grows(s.tree, CreateChildFrame(s, c, p, o).0.tree, MintedChild(s, c, p, o))
  {
    if c in s.caps && Holds(s, c, p) {
      TreeChildGrows(s.tree, c, p, o);
    } else {
      FadingGrows(s.tree, s.tree);
    }
  }

  lemma CreateGrows(s: State, c: Channel)
    ensures Grows(s.tree, CreateFrame(s, c).0.tree, CreateFrame(s, c).1)
  {
    if c in s.caps { AllocGrows(s.tree, c, None, 0, None, s.tree.nextGroup); }
  }

  lemma FreeingFades(t: Tree, gone: set<nat>)
    ensures Fades(t, Freed(t, gone))
  {
  }

  lemma CrashingFades(t: Tree, crashed: set<nat>)
    requires AllUsed(t, crashed)
    ensures Fades(t, CrashAll(t, crashed))
  {
  }

  lemma CloseGrows(s: State, c: Channel)
    requires Inv(s)
    ensures Grows(s.tree, Close(s, c).tree, None)
  {
    var roots := OwnedBy(s.tree, c);
    FreeingFades(s.tree, roots + Descendants(s.tree, roots));
    FadingGrows(s.tree, Close(s, c).tree);
  }

  lemma DiedGrows(s: State, c: Channel)
    requires Inv(s)
    ensures Grows(s.tree, Died(s, c).tree, None)
  {
    var doomed := Descendants(s.tree, OwnedBy(s.tree, c));
    FreeingFades(s.tree, doomed);
    CrashingFades(Freed(s.tree, doomed), Outermost(s.tree, c));
    FadingGrows(s.tree, Died(s, c).tree);
  }

  lemma ServeGrows(s: State, c: Channel, q: Request, panics: bool)
    requires Inv(s)
    ensures Grows(s.tree, Serve(s, c, q, panics).0.tree, None)
  {
    CloseGrows(s, c);
    FadingGrows(s.tree, s.tree);
    assert Serve(s, c, q, panics).0.tree == if panics then Close(s, c).tree else s.tree;
  }

  lemma FrameRequestGrows(s: State, c: Channel, q: FrameRequest)
    requires Inv(s)
    ensures Grows(s.tree, DispatchFrame(s, c, q).0.tree, Minted(s, DoFrame(c, q)))
  {
    var r := DispatchFrame(s, c, q).0.tree;
    if q.CreateChildRequest? {
      ChildGrows(s, c, q.parent, q.ordinal);
      assert r == CreateChildFrame(s, c, q.parent, q.ordinal).0.tree;
      assert Minted(s, DoFrame(c, q)) == MintedChild(s, c, q.parent, q.ordinal);
    } else {
      FadingGrows(s.tree, s.tree);
      assert r == s.tree;
    }
  }

  lemma ChannelStepGrows(s: State, step: Step)
    requires Inv(s) && (step.DoOpen? || step.DoClose? || step.DoDied? || step.DoServe?)
    ensures Grows(s.tree, Next(s, step).tree, Minted(s, step))
  {
    match step
    case DoOpen => FadingGrows(s.tree, s.tree);
    case DoClose(c) => CloseGrows(s, c);
    case DoDied(c) => DiedGrows(s, c);
    case DoServe(c, q, panics) => ServeGrows(s, c, q, panics);
  }

  lemma FrameStepGrows(s: State, step: Step)
    requires Inv(s) && (step.DoGrant? || step.DoCommit? || step.DoAttach?)
    ensures Grows(s.tree, Next(s, step).tree, Minted(s, step))
  {
    match step
    case DoGrant(c, f) => FadingGrows(s.tree, s.tree);
    case DoCommit(f, origin, resolve) => CommitGrows(s, f, origin, resolve);
    case DoAttach(f, key, process) => AttachGrows(s, f, key, process);
  }

  /** What one call does to the handles: at most one is minted, it was never spent before, and none comes back. */
  lemma StepGrows(s: State, step: Step)
    requires Inv(s)
    ensures Grows(s.tree, Next(s, step).tree, Minted(s, step))
  {
    match step
    case DoCreate(c) => CreateGrows(s, c);
    case DoChild(c, p, o) => ChildGrows(s, c, p, o);
    case DoFrame(c, q) => FrameRequestGrows(s, c, q);
    case DoOpen | DoClose(_) | DoDied(_) | DoServe(_, _, _) => ChannelStepGrows(s, step);
    case DoGrant(_, _) | DoCommit(_, _, _) | DoAttach(_, _, _) => FrameStepGrows(s, step);
  }

  // ---- handles over a run ----

  /** Trees one after the other, with what was minted in between. */
  ghost predicate Growth(ts: seq<Tree>, minted: seq<Option<FrameId>>) {
    |ts| == |minted| + 1 && forall k :: 0 <= k < |minted| ==> Grows(ts[k], ts[k + 1], minted[k])
  }

  lemma {:induction false} SpentStays(ts: seq<Tree>, minted: seq<Option<FrameId>>, i: nat, j: nat, f: FrameId)
    requires Growth(ts, minted) && i <= j < |ts| && Spent(ts[i], f)
    ensures Spent(ts[j], f)
    decreases j
  {
    if i < j {
      SpentStays(ts, minted, i, j - 1, f);
      assert Grows(ts[j - 1], ts[j - 1 + 1], minted[j - 1]);
    }
  }

  lemma {:induction false} GoneStaysGone(ts: seq<Tree>, minted: seq<Option<FrameId>>, i: nat, j: nat, f: FrameId)
    requires Growth(ts, minted) && i <= j < |ts| && Spent(ts[i], f) && !Exists(ts[i], f)
    ensures !Exists(ts[j], f)
    decreases j
  {
    if i < j {
      GoneStaysGone(ts, minted, i, j - 1, f);
      SpentStays(ts, minted, i, j - 1, f);
      assert Grows(ts[j - 1], ts[j - 1 + 1], minted[j - 1]);
    }
  }

  /** The handle minted by step `i` of a run. */
  ghost function MintedAt(steps: seq<Step>, i: nat): Option<FrameId>
    requires i < |steps|
  {
    Minted(After(steps[..i]), steps[i])
  }

  ghost function TreeAt(steps: seq<Step>, i: nat): Tree
    requires i <= |steps|
  {
    After(steps[..i]).tree
  }

  lemma AfterNext(steps: seq<Step>, i: nat)
    requires i < |steps|
    ensures After(steps[..i + 1]) == Next(After(steps[..i]), steps[i])
  {
    var upto := steps[..i + 1];
    assert upto[..|upto| - 1] == steps[..i];
  }

  lemma RunGrows(steps: seq<Step>) returns (ts: seq<Tree>, minted: seq<Option<FrameId>>)
    ensures Growth(ts, minted) && |minted| == |steps|
    ensures forall i :: 0 <= i <= |steps| ==> ts[i] == TreeAt(steps, i)
    ensures forall i :: 0 <= i < |steps| ==> minted[i] == MintedAt(steps, i)
  {
    ts := seq(|steps| + 1, i requires 0 <= i <= |steps| => TreeAt(steps, i));
    minted := seq(|steps|, i requires 0 <= i < |steps| => MintedAt(steps, i));
    forall k | 0 <= k < |steps| ensures Grows(ts[k], ts[k + 1], minted[k]) {
      AfterNext(steps, k);
      StepGrows(After(steps[..k]), steps[k]);
    }
  }

  /** No two steps of a run mint the same handle. */
  lemma MintedHandlesDiffer(steps: seq<Step>, i: nat, j: nat)
    requires i < j < |steps| && MintedAt(steps, i).Some? && MintedAt(steps, j).Some?
    ensures MintedAt(steps, i) != MintedAt(steps, j)
  {
    var ts, minted := RunGrows(steps);
    assert Grows(ts[i], ts[i + 1], minted[i]) && Grows(ts[j], ts[j + 1], minted[j]);
    SpentStays(ts, minted, i + 1, j, minted[i].value);
  }

  /** Once a frame is freed its handle never resolves again, whatever happens to its slot. */
  lemma FreedHandleIsDead(steps: seq<Step>, i: nat, j: nat, k: nat, f: FrameId)
    requires i <= j <= k <= |steps| && Exists(TreeAt(steps, i), f) && !Exists(TreeAt(steps, j), f)
    ensures !Exists(TreeAt(steps, k), f)
  {
    var ts, minted := RunGrows(steps);
    SpentStays(ts, minted, i, j, f);
    GoneStaysGone(ts, minted, j, k, f);
  }
}
