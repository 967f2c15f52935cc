/**
  The name computer as a program (crates/px-a11y/src/accname.rs): its fields are
  updated in place and its stack is explicit.  It answers what the recursion
  answers, and stops on every document.
 */
module A11yMachine {
  import opened Common
  import opened A11yText
  import opened A11yName

  class Computer {
    const env: Env
    var visited: set<Node>
    var inRef: bool
    var entered: nat
    var budget: nat
    var src: Src

    ghost function Abs(): State
      reads this
    {
      State(visited, inRef, entered, budget, src)
    }

    constructor (env: Env, budget: nat)
      ensures this.env == env && Abs() == State({env.root}, false, 0, budget, NoSrc)
    {
      this.env := env;
      visited, inRef, entered, this.budget, src := {env.root}, false, 0, budget, NoSrc;
    }

    method Spend() returns (ok: bool)
      modifies this
      ensures ok == CanSpend(old(Abs()))
      ensures Abs() == if ok then Spent(old(Abs())) else old(Abs())
    {
      if budget == 0 || entered >= MAX_NODES_PER_NAME { return false; }
      budget := budget - 1;
      entered := entered + 1;
      return true;
    }

    method Note(id: Node, s: Src)
      modifies this
      ensures Abs() == SetSrc(env, old(Abs()), id, s)
    {
      if id == env.root { src := s; }
    }

    /** The first usable host-language candidate from `start` on. */
    method PickCandidate(cands: seq<Cand>, start: nat) returns (r: Option<nat>)
      ensures r == FirstUsable(cands, start)
    {
      var k := start;
      while k < |cands|
        invariant start <= k
        invariant FirstUsable(cands, start) == FirstUsable(cands, k)
      {
        if Usable(cands[k]) { return Some(k); }
        k := k + 1;
      }
      return None;
    }

    /** 2B, 2E and 2C: author-given names. */
    method TryAuthor(el: Element, me: Owner, from: Stage) returns (r: Option<Eval>)
      modifies this
      ensures var spec := AuthorStep(env, old(Abs()), el, me, from);
              if r.Some? then spec == Some((r.value, Abs())) else spec.None? && Abs() == old(Abs())
    {
      if from == LabelledBy && !inRef && el.labelledBy != [] {
        inRef := true;
        return Some(Push(RefsFor(me, el.labelledBy, AriaLabel, Author, true)));
      }
      if Rank(from) <= Rank(AriaLabel) {
        if me.id != env.root && el.embedded.Some? { return Some(Done(el.embedded.value)); }
        if !Blank(el.ariaLabel) {
          Note(me.id, Author);
          return Some(Done(Flat(el.ariaLabel)));
        }
      }
      return None;
    }

    /** 2D: the host language's candidates. */
    method TryNative(el: Element, me: Owner, from: Stage) returns (r: Option<Eval>)
      modifies this
      ensures var spec := NativeStep(env, old(Abs()), el, me, from);
              if r.Some? then spec == Some((r.value, Abs())) else spec.None? && Abs() == old(Abs())
    {
      var start := NativeStart(el, from);
      if start.None? { return None; }
      var pick := PickCandidate(el.cands, start.value);
      if pick.None? { return None; }
      var c := el.cands[pick.value];
      if c.CText? {
        Note(me.id, c.src);
        return Some(Done(Flat(c.text)));
      }
      return Some(Push(RefsFor(me, c.ids, Native(pick.value + 1), c.src, false)));
    }

    /** 2F, 2H and 2I: content, then the tooltip. */
    method ReadContent(el: Element, me: Owner, from: Stage) returns (e: Eval)
      modifies this
      ensures (e, Abs()) == ContentOrTip(env, old(Abs()), me.id, el, me.entry, me.hiddenOk, from)
    {
      if Rank(from) <= Rank(AtContent) && (me.id != env.root || me.entry == RefRoot || el.fromContents) {
        if el.br { return Done(" "); }
        if env.KidsOf(me.id) != [] { return Push(Content(me.id, 0, "", me.hiddenOk, false, me.entry)); }
      }
      if el.tip != [] {
        Note(me.id, el.tipSrc);
        return Done(el.tip);
      }
      return Done("");
    }

    method StepFrom(id: Node, entry: Entry, hiddenOk: bool, from: Stage) returns (e: Eval)
      modifies this
      ensures (e, Abs()) == Step(env, old(Abs()), id, entry, hiddenOk, from)
    {
      if env.InfoOf(id).None? || !env.KindOf(id).ElementNode? { return Done(""); }
      var el := env.KindOf(id).el;
      var me := Owner(id, entry, hiddenOk);
      var author := TryAuthor(el, me, from);
      if author.Some? { return author.value; }
      var native := TryNative(el, me, from);
      if native.Some? { return native.value; }
      e := ReadContent(el, me, from);
    }

    method EnterNode(id: Node, entry: Entry, hiddenOk: bool) returns (e: Eval)
      modifies this
      ensures (e, Abs()) == Enter(env, old(Abs()), id, entry, hiddenOk)
    {
      var ok := Spend();
      if !ok || env.InfoOf(id).None? { return Done(""); }
      if !hiddenOk && env.Unreadable(id) { return Done(""); }
      if env.KindOf(id).TextNode? { return Done(PushFlat("", env.KindOf(id).contents, ACC_CAP)); }
      e := StepFrom(id, entry, hiddenOk, LabelledBy);
    }

    method AdvanceTop(f: Frame) returns (next: Next, f': Frame)
      modifies this
      ensures (next, f', Abs()) == Advance(env, old(Abs()), f)
    {
      match f
      case Content(id, pos, acc, hiddenOk, pending, entry) =>
        var kids := env.KidsOf(id);
        if pos >= |kids| { return NextFinish, f; }
        var child := kids[pos];
        if child in visited { return NextSkip, f.(pos := pos + 1); }
        visited := visited + {child};
        var block := env.IsBlock(child);
        f' := f.(pos := pos + 1, acc := if block then PushSep(acc, ACC_CAP) else acc, pending := pending || block);
        next := NextEnter(child, Child, hiddenOk);
      case Refs(_, ids, i, _, _, _, _) =>
        if i >= |ids| { return NextFinish, f; }
        visited := visited + {ids[i]};
        f' := f.(i := i + 1);
        next := NextEnter(ids[i], RefRoot, env.Unreadable(ids[i]));
    }

    method FinishTop(f: Frame) returns (e: Eval)
      modifies this
      ensures (e, Abs()) == Finish(env, old(Abs()), f)
    {
      match f
      case Content(id, _, acc, hiddenOk, _, entry) =>
        if Trim(acc) != [] {
          Note(id, FromContent);
          return Done(acc);
        }
        if env.KindOf(id).ElementNode? { e := StepFrom(id, entry, hiddenOk, Tooltip); } else { e := Done(""); }
      case Refs(owner, _, _, acc, resume, from, clears) =>
        if clears { inRef := false; }
        if Trim(acc) != [] {
          if owner.Some? { Note(owner.value.id, from); } else { src := from; }
          return Done(Trim(acc));
        }
        if owner.Some? && env.KindOf(owner.value.id).ElementNode? {
          e := StepFrom(owner.value.id, owner.value.entry, owner.value.hiddenOk, resume);
        } else {
          e := Done("");
        }
    }

    method DispatchEval(e: Eval, stack: seq<Frame>) returns (stack': seq<Frame>, ret: Option<string>)
      modifies this
      ensures (Abs(), stack', ret) == Dispatch(old(Abs()), e, stack)
    {
      if e.Done? { return stack, Some(e.text); }
      if |stack| >= MAX_FRAMES {
        if e.frame.Refs? && e.frame.clears { inRef := false; }
        return stack, Some("");
      }
      return stack + [e.frame], None;
    }

    /** One turn: the top frame takes its next action and the result is dispatched. */
    method Turn(rest: seq<Frame>, top: Frame) returns (stack: seq<Frame>, ret: Option<string>)
      requires MachineOk(Abs(), rest + [top]) && Resumable(top) && AllResumable(rest)
      modifies this
      ensures MachineOk(Abs(), stack)
      ensures Answer(env, Abs(), stack, ret) == Answer(env, old(Abs()), rest + [top], None)
      ensures entered + budget == old(entered + budget)
      ensures Left(Abs()) < old(Left(Abs())) ||
              (Left(Abs()) == old(Left(Abs())) && StackWork(env, stack) < StackWork(env, rest + [top]))
    {
      ghost var st := Abs();
      var next, f1 := AdvanceTop(top);
      match next
      case NextSkip =>
        SkipTurn(env, st, rest, top);
        return rest + [f1], None;
      case NextEnter(id, entry, hiddenOk) =>
        EnterTurn(env, st, rest, top);
        var e := EnterNode(id, entry, hiddenOk);
        stack, ret := DispatchEval(e, rest + [f1]);
      case NextFinish =>
        AdvanceKeeps(env, st, top);
        FinishTurn(env, st, rest, top);
        var e := FinishTop(f1);
        stack, ret := DispatchEval(e, rest);
    }

    /** Feed a returned text to the top frame, then let that frame take its turn. */
    method Cycle(stack: seq<Frame>, ret: Option<string>) returns (stack': seq<Frame>, ret': Option<string>)
      requires stack != [] && MachineOk(Abs(), stack)
      modifies this
      ensures MachineOk(Abs(), stack')
      ensures Answer(env, Abs(), stack', ret') == old(Answer(env, Abs(), stack, ret))
      ensures entered + budget == old(entered + budget)
      ensures Left(Abs()) < old(Left(Abs())) ||
              (Left(Abs()) == old(Left(Abs())) && StackWork(env, stack') < StackWork(env, stack))
    {
      var n := |stack| - 1;
      var rest, top := stack[..n], stack[n];
      assert stack == rest + [top];
      if ret.Some? {
        FedAnswer(env, Abs(), rest, top, ret.value);
        FeedKeeps(env, top, ret.value);
        top := Feed(top, ret.value);
      }
      stack', ret' := Turn(rest, top);
    }

    /** The machine answers what the recursion answers, in the same final state. */
    method Run(first: Eval) returns (r: string)
      requires entered <= MAX_NODES_PER_NAME && (first.Push? ==> Resumable(first.frame)) && FlagOk(Abs(), [], first)
      modifies this
      ensures (r, Abs()) == TextOfEval(env, old(Abs()), first, 0)
      ensures entered + budget == old(entered + budget) && entered <= MAX_NODES_PER_NAME
      ensures !inRef
    {
      ghost var st0 := Abs();
      DispatchKeeps(env, st0, first, []);
      var stack, ret := DispatchEval(first, []);
      while true
        invariant MachineOk(Abs(), stack)
        invariant Answer(env, Abs(), stack, ret) == TextOfEval(env, st0, first, 0)
        invariant entered + budget == old(entered + budget)
        decreases Left(Abs()), StackWork(env, stack)
      {
        if stack == [] {
          return if ret.Some? then ret.value else "";
        }
        stack, ret := Cycle(stack, ret);
      }
    }
  }

  /** The accessible name by the recursion. */
  function NameOf(env: Env, budget: nat): (string, State) {
    var st := State({env.root}, false, 0, budget, NoSrc);
    EnterWork(env, st, env.root, Root, false);
    var (e, st1) := Enter(env, st, env.root, Root, false);
    TextOfEval(env, st1, e, 0)
  }

  /** Naming does not apply: the root is unknown to the document, or its role rules it out. */
  predicate Nameless(env: Env, prohibited: bool) { env.InfoOf(env.root).None? || prohibited }

  /**
    The accessible name of the root is what the recursion says, cleaned, for at
    most 4096 nodes of the shared budget.
   */
  method ComputeName(env: Env, prohibited: bool, budget: nat) returns (text: string, src: Src, left: nat)
    ensures Nameless(env, prohibited) ==> text == "" && src == NoSrc && left == budget
    ensures !Nameless(env, prohibited) ==> text == Clean(NameOf(env, budget).0) && left == NameOf(env, budget).1.budget
    ensures !Nameless(env, prohibited) ==>
            src == if Trim(NameOf(env, budget).0) == [] then NoSrc else NameOf(env, budget).1.src
    ensures left <= budget && budget - left <= MAX_NODES_PER_NAME
  {
    if Nameless(env, prohibited) { return "", NoSrc, budget; }
    var c := new Computer(env, budget);
    EnterWork(env, c.Abs(), env.root, Root, false);
    var first := c.EnterNode(env.root, Root, false);
    var r := c.Run(first);
    return Clean(r), if Trim(r) == [] then NoSrc else c.src, c.budget;
  }

  /** A description by reference: the targets are read with the reference flag raised. */
  method DescribeBy(env: Env, ids: seq<Node>, budget: nat) returns (text: string, left: nat)
    ensures text == Clean(TextOfEval(env, State({env.root}, true, 0, budget, NoSrc),
                            Push(Refs(None, ids, 0, "", AtContent, Author, true)), 0).0)
    ensures left <= budget && budget - left <= MAX_NODES_PER_NAME
  {
    var c := new Computer(env, budget);
    c.inRef := true;
    var r := c.Run(Push(Refs(None, ids, 0, "", AtContent, Author, true)));
    return Clean(r), c.budget;
  }
}
