/**
  Who hosts a frame over a whole run of the broker
  (crates/px-broker/src/lib.rs): only a move hands a frame to another channel,
  and a frame that lost its host never gets one again.
 */
module BrokerOwners {
  import opened Common
  import opened BrokerTree
  import opened BrokerState
  import opened BrokerRuns
  import opened BrokerHistory

  /**
    A frame known before the call and hosted after it had the same host, or was
    moved from the old one to the new one.
   */
  ghost predicate HandsOver(t: Tree, r: Tree, m: Option<Move>) {
    forall f :: Spent(t, f) && OwnerOf(r, f).Some? && OwnerOf(r, f) != OwnerOf(t, f) ==>
      m.Some? && m.value.frame == f && OwnerOf(t, f) == Some(m.value.from) && OwnerOf(r, f) == Some(m.value.to)
  }

  lemma AllocHandsOver(t: Tree, owner: Channel, parent: Option<FrameId>, depth: nat, ordinal: Option<nat>, group: nat)
    ensures HandsOver(t, Alloc(t, owner, parent, depth, ordinal, group).0, None)
  {
  }

  lemma CreateHandsOver(s: State, c: Channel)
    ensures HandsOver(s.tree, CreateFrame(s, c).0.tree, None)
  {
    AllocHandsOver(s.tree, c, None, 0, None, s.tree.nextGroup);
  }

  lemma ChildHandsOver(s: State, c: Channel, p: FrameId, o: nat)
    ensures HandsOver(s.tree, CreateChildFrame(s, c, p, o).0.tree, None)
  {
    if c in s.caps && Holds(s, c, p) && ChildRefusal(s.tree, c, p, o).None? {
      var ps := s.tree.slots[p.index];
      AllocHandsOver(s.tree, c, Some(p), ps.depth + 1, Some(o), ps.group);
      assert CreateChildFrame(s, c, p, o).0.tree == Alloc(s.tree, c, Some(p), ps.depth + 1, Some(o), ps.group).0;
    } else {
      assert CreateChildFrame(s, c, p, o).0.tree == s.tree;
    }
  }

  lemma MintingHandsOver(s: State, step: Step)
    requires Inv(s) && (step.DoCreate? || step.DoChild? || step.DoFrame?)
    ensures HandsOver(s.tree, Next(s, step).tree, None)
  {
    match step
    case DoCreate(c) => CreateHandsOver(s, c);
    case DoChild(c, p, o) => ChildHandsOver(s, c, p, o);
    case DoFrame(c, q) =>
      if q.CreateChildRequest? {
        ChildHandsOver(s, c, q.parent, q.ordinal);
      } else {
        assert Next(s, step).tree == s.tree;
      }
  }

  /** No slot changes generation, and one keeps its owner or loses it. */
  ghost predicate OwnersFade(t: Tree, r: Tree) {
    |t.slots| == |r.slots| && forall i :: 0 <= i < |t.slots| ==>
      r.slots[i].generation == t.slots[i].generation && (r.slots[i].owner.None? || r.slots[i] == t.slots[i])
  }

  lemma FadingHandsOver(t: Tree, r: Tree)
    requires OwnersFade(t, r)
    ensures HandsOver(t, r, None)
  {
  }

  lemma CloseHandsOver(s: State, c: Channel)
    requires Inv(s)
    ensures HandsOver(s.tree, Close(s, c).tree, None)
  {
    assert OwnersFade(s.tree, Close(s, c).tree);
    FadingHandsOver(s.tree, Close(s, c).tree);
  }

  lemma DiedHandsOver(s: State, c: Channel)
    requires Inv(s)
    ensures HandsOver(s.tree, Died(s, c).tree, None)
  {
    assert OwnersFade(s.tree, Died(s, c).tree);
    FadingHandsOver(s.tree, Died(s, c).tree);
  }

  lemma ShutHandsOver(s: State, step: Step)
    requires Inv(s) && Shut(step).Some?
    ensures HandsOver(s.tree, Next(s, step).tree, None)
  {
    var c := Shut(step).value;
    if step.DoDied? {
      DiedHandsOver(s, c);
    } else {
      CloseHandsOver(s, c);
      assert Next(s, step).tree == Close(s, c).tree;
    }
  }

  lemma TransferHandsOver(s: State, f: FrameId, to: Channel)
    ensures var (r, out) := TransferFrame(s, f, to);
            HandsOver(s.tree, r.tree, if out.Ok? then MoveOf(s, f, out.value) else None)
  {
  }

  /** Trees in which every handle has the same owner. */
  lemma SameOwnersHandOver(t: Tree, u: Tree, r: Tree, m: Option<Move>)
    requires (forall f :: Spent(t, f) <==> Spent(u, f)) && (forall f :: OwnerOf(t, f) == OwnerOf(u, f))
            && HandsOver(u, r, m)
    ensures HandsOver(t, r, m)
  {
  }

  lemma AttachHandsOver(s: State, step: Step)
    requires Inv(s) && step.DoAttach?
    ensures HandsOver(s.tree, Next(s, step).tree, Moved(s, step))
  {
    var f, process := step.f, step.process;
    if Exists(s.tree, f) && process in s.caps {
      var pool := Register(s.pool, (s.tree.slots[f.index].group, step.key), process);
      if pool.Ok? { TransferHandsOver(s.(pool := pool.value), f, process); }
    }
  }

  lemma PlanHandsOver(s: State, f: FrameId, k: PoolKey, current: Channel)
    ensures var (r, plan) := PlanFor(s, f, k, current);
            HandsOver(s.tree, r.tree, if plan.Ok? && plan.value.MovedTo? then MoveOf(s, f, plan.value.t) else None)
  {
    if k in s.pool.byKey { TransferHandsOver(s, f, s.pool.byKey[k]); }
  }

  lemma CommitHandsOver(s: State, step: Step)
    requires Inv(s) && step.DoCommit?
    ensures HandsOver(s.tree, Next(s, step).tree, Moved(s, step))
  {
    var f := step.f;
    OwnedMeansLive(s.tree, f);
    if OwnerOf(s.tree, f).Some? {
      CommitKeepsTree(s, f, step.origin);
      NotedEmbedder(s, f, step.origin);
      var current := OwnerOf(s.tree, f).value;
      var noted := s.(tree := CommitOrigin(s.tree, f, step.origin));
      var key := KeyOf(noted.tree, f, step.resolve);
      if key.Some? {
        var k := (noted.tree.slots[f.index].group, key.value);
        PlanHandsOver(noted, f, k, current);
        SameOwnersHandOver(s.tree, noted.tree, Next(s, step).tree, Moved(s, step));
      } else {
        assert Next(s, step).tree == noted.tree;
      }
    }
  }

  /** Only a move hands a frame to another channel. */
  lemma StepHandsOver(s: State, step: Step)
    requires Inv(s)
    ensures HandsOver(s.tree, Next(s, step).tree, Moved(s, step))
  {
    if Shut(step).Some? {
      ShutHandsOver(s, step);
    } else {
      match step
      case DoCommit(_, _, _) => CommitHandsOver(s, step);
      case DoAttach(_, _, _) => AttachHandsOver(s, step);
      case DoCreate(_) | DoChild(_, _, _) | DoFrame(_, _) => MintingHandsOver(s, step);
      case _ =>
    }
  }

  // ---- over a run ----

  ghost function MovedAt(steps: seq<Step>, i: nat): Option<Move>
    requires i < |steps|
  {
    Moved(After(steps[..i]), steps[i])
  }

  ghost predicate Handing(ts: seq<Tree>, minted: seq<Option<FrameId>>, moves: seq<Option<Move>>) {
    && Growth(ts, minted) && |moves| == |minted|
    && forall k :: 0 <= k < |moves| ==> HandsOver(ts[k], ts[k + 1], moves[k])
  }

  ghost predicate Unmoved(moves: seq<Option<Move>>, i: nat, j: nat, f: FrameId) {
    forall k :: i <= k < j && k < |moves| ==> moves[k].None? || moves[k].value.frame != f
  }

  lemma {:induction false} HostStays(ts: seq<Tree>, minted: seq<Option<FrameId>>, moves: seq<Option<Move>>, i: nat,
                                     j: nat, f: FrameId)
    requires Handing(ts, minted, moves) && i <= j < |ts| && Spent(ts[i], f) && OwnerOf(ts[j], f).Some?
            && Unmoved(moves, i, j, f)
    ensures OwnerOf(ts[i], f) == OwnerOf(ts[j], f)
    decreases j
  {
    if i < j {
      SpentStays(ts, minted, i, j - 1, f);
      assert HandsOver(ts[j - 1], ts[j - 1 + 1], moves[j - 1]);
      assert moves[j - 1].None? || moves[j - 1].value.frame != f;
      HostStays(ts, minted, moves, i, j - 1, f);
    }
  }

  lemma RunHandsOver(steps: seq<Step>) returns (ts: seq<Tree>, minted: seq<Option<FrameId>>, moves: seq<Option<Move>>)
    ensures Handing(ts, minted, moves) && |moves| == |steps|
    ensures forall i :: 0 <= i <= |steps| ==> ts[i] == TreeAt(steps, i)
    ensures forall i :: 0 <= i < |steps| ==> moves[i] == MovedAt(steps, i)
  {
    ts, minted := RunGrows(steps);
    moves := seq(|steps|, i requires 0 <= i < |steps| => MovedAt(steps, i));
    forall k | 0 <= k < |steps| ensures HandsOver(ts[k], ts[k + 1], moves[k]) {
      AfterNext(steps, k);
      StepHandsOver(After(steps[..k]), steps[k]);
    }
  }

  /**
    If a frame known at one moment of a run has a host at a later one and was
    not moved in between, it had that same host all along: a crashed or freed
    frame is never hosted again, and no call but a commit or an attach hands
    one over.
   */
  lemma OnlyMovesChangeHosts(steps: seq<Step>, i: nat, j: nat, f: FrameId)
    requires i <= j <= |steps| && Spent(TreeAt(steps, i), f) && OwnerOf(TreeAt(steps, j), f).Some?
    requires forall k :: i <= k < j ==> MovedAt(steps, k).None? || MovedAt(steps, k).value.frame != f
    ensures OwnerOf(TreeAt(steps, i), f) == OwnerOf(TreeAt(steps, j), f)
  {
    var ts, minted, moves := RunHandsOver(steps);
    HostStays(ts, minted, moves, i, j, f);
  }
}
