/**
  Accessible name computation (crates/px-a11y/src/accname.rs): the recursion of
  "Computation steps" (section 4.3.2 of Accessible Name and Description
  Computation 1.2), with the program's limits, and the explicit frame machine
  that computes it without recursing.
 */
module A11yName {
  import opened Common
  import opened A11yText

  const MAX_NODES_PER_NAME := 4096
  const MAX_FRAMES := 2048

  type Node = nat

  datatype Src = NoSrc | Author | Label | Alt | Value | Caption | Legend | FromContent | Title | Placeholder

  datatype Entry = Root | RefRoot | Child

  datatype Stage = LabelledBy | AriaLabel | Native(k: nat) | AtContent | Tooltip

  function Rank(s: Stage): nat {
    match s
    case LabelledBy => 0
    case AriaLabel => 1
    case Native(_) => 2
    case AtContent => 3
    case Tooltip => 4
  }

  /** A host-language candidate for the name: text, or nodes to read. */
  datatype Cand = CText(text: string, src: Src) | CRefs(ids: seq<Node>, src: Src)

  /** What the computation reads off one element. */
  datatype Element = Element(
    labelledBy: seq<Node>, embedded: Option<string>, ariaLabel: string, presentation: bool, cands: seq<Cand>,
    fromContents: bool, br: bool, block: bool, tip: string, tipSrc: Src)

  datatype Kind = TextNode(contents: string) | ElementNode(el: Element) | OtherNode

  datatype Info = Info(hidden: bool, visHidden: bool)

  datatype NodeData = NodeData(info: Option<Info>, kind: Kind, kids: seq<Node>)

  /** The document, and the node being named. */
  datatype Env = Env(nodes: map<Node, NodeData>, root: Node)
  {
    function InfoOf(n: Node): Option<Info> { if n in nodes then nodes[n].info else None }
    function KindOf(n: Node): Kind { if n in nodes then nodes[n].kind else OtherNode }
    function KidsOf(n: Node): seq<Node> { if n in nodes then nodes[n].kids else [] }

    predicate Unreadable(n: Node) { InfoOf(n).None? || InfoOf(n).value.hidden || InfoOf(n).value.visHidden }
    predicate IsBlock(n: Node) { KindOf(n).ElementNode? && KindOf(n).el.block }
  }

  datatype Owner = Owner(id: Node, entry: Entry, hiddenOk: bool)

  datatype Frame =
    | Content(id: Node, pos: nat, acc: string, hiddenOk: bool, pending: bool, entry: Entry)
    | Refs(owner: Option<Owner>, ids: seq<Node>, i: nat, acc: string, resume: Stage, src: Src, clears: bool)

  datatype Eval = Done(text: string) | Push(frame: Frame)

  /** The fields of the computer. */
  datatype State = State(visited: set<Node>, inRef: bool, entered: nat, budget: nat, src: Src)

  // ---- one node ----

  predicate CanSpend(st: State) {
    st.budget > 0 && st.entered < MAX_NODES_PER_NAME
  }

  function Spent(st: State): State
    requires CanSpend(st)
  {
    st.(budget := st.budget - 1, entered := st.entered + 1)
  }

  function SetSrc(env: Env, st: State, id: Node, src: Src): State {
    if id == env.root then st.(src := src) else st
  }

  function RefsFor(owner: Owner, ids: seq<Node>, resume: Stage, src: Src, clears: bool): Frame {
    Refs(Some(owner), ids, 0, "", resume, src, clears)
  }

  predicate Usable(c: Cand) {
    if c.CText? then !Blank(c.text) else c.ids != []
  }

  /** The first usable candidate from `k` on. */
  function FirstUsable(cands: seq<Cand>, k: nat): (r: Option<nat>)
    ensures r.Some? ==> k <= r.value < |cands| && Usable(cands[r.value])
    ensures forall j :: k <= j < |cands| && Usable(cands[j]) ==> r.Some? && r.value <= j
    decreases |cands| - k
  {
    if k >= |cands| then None else if Usable(cands[k]) then Some(k) else FirstUsable(cands, k + 1)
  }

  function NativeStart(el: Element, from: Stage): Option<nat> {
    if el.presentation then None
    else match from
      case LabelledBy => Some(0)
      case AriaLabel => Some(0)
      case Native(k) => Some(k)
      case AtContent => None
      case Tooltip => None
  }

  /** Steps 2F, 2H and 2I. */
  function ContentOrTip(env: Env, st: State, id: Node, el: Element, entry: Entry, hiddenOk: bool,
                        from: Stage): (Eval, State) {
    var allowed := Rank(from) <= Rank(AtContent) && (id != env.root || entry == RefRoot || el.fromContents);
    if allowed && el.br then (Done(" "), st)
    else if allowed && env.KidsOf(id) != [] then (Push(Content(id, 0, "", hiddenOk, false, entry)), st)
    else if el.tip != [] then (Done(el.tip), SetSrc(env, st, id, el.tipSrc))
    else (Done(""), st)
  }

  /** Steps 2B, 2E and 2C. */
  function AuthorStep(env: Env, st: State, el: Element, me: Owner, from: Stage): Option<(Eval, State)> {
    if from == LabelledBy && !st.inRef && el.labelledBy != [] then
      Some((Push(RefsFor(me, el.labelledBy, AriaLabel, Author, true)), st.(inRef := true)))
    else if Rank(from) <= Rank(AriaLabel) && me.id != env.root && el.embedded.Some? then
      Some((Done(el.embedded.value), st))
    else if Rank(from) <= Rank(AriaLabel) && !Blank(el.ariaLabel) then
      Some((Done(Flat(el.ariaLabel)), SetSrc(env, st, me.id, Author)))
    else None
  }

  /** Step 2D. */
  function NativeStep(env: Env, st: State, el: Element, me: Owner, from: Stage): Option<(Eval, State)> {
    var start := NativeStart(el, from);
    var pick := if start.Some? then FirstUsable(el.cands, start.value) else None;
    if pick.None? then None
    else
      var c := el.cands[pick.value];
      if c.CText? then Some((Done(Flat(c.text)), SetSrc(env, st, me.id, c.src)))
      else Some((Push(RefsFor(me, c.ids, Native(pick.value + 1), c.src, false)), st))
  }

  /** The ordered steps for one element, from a stage on. */
  function Step(env: Env, st: State, id: Node, entry: Entry, hiddenOk: bool, from: Stage): (Eval, State) {
    if env.InfoOf(id).None? || !env.KindOf(id).ElementNode? then (Done(""), st)
    else
      var el := env.KindOf(id).el;
      var me := Owner(id, entry, hiddenOk);
      var author := AuthorStep(env, st, el, me, from);
      var native := NativeStep(env, st, el, me, from);
      if author.Some? then author.value
      else if native.Some? then native.value
      else ContentOrTip(env, st, id, el, entry, hiddenOk, from)
  }

  /** Charge a node and settle it at once if it is absent, unreadable or text; otherwise start on its ordered steps. */
  function Enter(env: Env, st: State, id: Node, entry: Entry, hiddenOk: bool): (Eval, State) {
    if !CanSpend(st) then (Done(""), st)
    else if env.InfoOf(id).None? then (Done(""), Spent(st))
    else if !hiddenOk && env.Unreadable(id) then (Done(""), Spent(st))
    else if env.KindOf(id).TextNode? then (Done(PushFlat("", env.KindOf(id).contents, ACC_CAP)), Spent(st))
    else Step(env, Spent(st), id, entry, hiddenOk, LabelledBy)
  }

  // ---- what one frame does ----

  /** The text of a finished child or target flows into the frame beneath. */
  function Feed(f: Frame, r: string): Frame {
    match f
    case Content(_, _, acc, _, pending, _) =>
      var more := PushFlat(acc, r, ACC_CAP);
      f.(acc := if pending then PushSep(more, ACC_CAP) else more, pending := false)
    case Refs(_, _, _, acc, _, _, _) =>
      f.(acc := PushFlat(PushSep(acc, ACC_CAP), r, ACC_CAP))
  }

  /** The three moves of a frame: on to a node, past one already read, or done. */
  datatype Next = NextEnter(id: Node, entry: Entry, hiddenOk: bool) | NextSkip | NextFinish

  function Advance(env: Env, st: State, f: Frame): (Next, Frame, State) {
    match f
    case Content(id, pos, acc, hiddenOk, pending, entry) =>
      var kids := env.KidsOf(id);
      if pos >= |kids| then (NextFinish, f, st)
      else if kids[pos] in st.visited then (NextSkip, f.(pos := pos + 1), st)
      else
        var block := env.IsBlock(kids[pos]);
        var f' := f.(pos := pos + 1,
                     acc := if block then PushSep(acc, ACC_CAP) else acc,
                     pending := pending || block);
        (NextEnter(kids[pos], Child, hiddenOk), f', st.(visited := st.visited + {kids[pos]}))
    case Refs(_, ids, i, _, _, _, _) =>
      if i >= |ids| then (NextFinish, f, st)
      else (NextEnter(ids[i], RefRoot, env.Unreadable(ids[i])), f.(i := i + 1), st.(visited := st.visited + {ids[i]}))
  }

  /** A finished frame gives its text, or its node resumes after the step that pushed it. */
  function Finish(env: Env, st: State, f: Frame): (Eval, State) {
    match f
    case Content(id, _, acc, hiddenOk, _, entry) =>
      if Trim(acc) != [] then (Done(acc), SetSrc(env, st, id, FromContent))
      else if env.KindOf(id).ElementNode? then Step(env, st, id, entry, hiddenOk, Tooltip)
      else (Done(""), st)
    case Refs(owner, _, _, acc, resume, src, clears) =>
      var st1 := if clears then st.(inRef := false) else st;
      if Trim(acc) != [] then
        (Done(Trim(acc)), if owner.Some? then SetSrc(env, st1, owner.value.id, src) else st1.(src := src))
      else if owner.Some? && env.KindOf(owner.value.id).ElementNode? then
        Step(env, st1, owner.value.id, owner.value.entry, owner.value.hiddenOk, resume)
      else (Done(""), st1)
  }

  /** A frame over the stack cap is refused; if it would have cleared the reference flag, the flag is cleared now. */
  function Refuse(st: State, f: Frame): State {
    if f.Refs? && f.clears then st.(inRef := false) else st
  }

  // ---- a termination measure ----

  /** Nodes that may still be entered. */
  function Left(st: State): nat {
    var room := if st.entered < MAX_NODES_PER_NAME then MAX_NODES_PER_NAME - st.entered else 0;
    if st.budget < room then st.budget else room
  }

  function CandWork(cands: seq<Cand>, k: nat): nat
    decreases |cands| - k
  {
    if k >= |cands| then 0
    else (if cands[k].CRefs? then |cands[k].ids| + 1 else 0) + CandWork(cands, k + 1)
  }

  /** Work a node can still ask for when it resumes at a stage. */
  function StageWork(env: Env, id: Node, from: Stage): nat {
    if !env.KindOf(id).ElementNode? then 0
    else
      var el := env.KindOf(id).el;
      (if from == LabelledBy then |el.labelledBy| + 1 else 0)
      + (if NativeStart(el, from).Some? then CandWork(el.cands, NativeStart(el, from).value) else 0)
      + (if Rank(from) <= Rank(AtContent) then |env.KidsOf(id)| + 1 else 0)
  }

  function FrameWork(env: Env, f: Frame): nat {
    match f
    case Content(id, pos, _, _, _, _) => (if pos < |env.KidsOf(id)| then |env.KidsOf(id)| - pos else 0) + 1
    case Refs(owner, ids, i, _, resume, _, _) =>
      (if i < |ids| then |ids| - i else 0) + 1 + (if owner.Some? then StageWork(env, owner.value.id, resume) else 0)
  }

  function EvalWork(env: Env, e: Eval): nat {
    if e.Push? then FrameWork(env, e.frame) else 0
  }

  /** A frame that resumes does so past the step that pushed it. */
  ghost predicate Resumable(f: Frame) {
    f.Refs? ==> f.resume != LabelledBy
  }

  lemma {:induction false} CandWorkSkips(cands: seq<Cand>, k: nat, j: nat)
    requires k <= j <= |cands|
    ensures CandWork(cands, j) <= CandWork(cands, k)
    decreases j - k
  {
    if k < j { CandWorkSkips(cands, k + 1, j); }
  }

  /** What every step keeps: the budget, and a flag raised only for a frame that clears it. */
  ghost predicate StepKeeps(st: State, e: Eval, st': State) {
    && st'.entered == st.entered && st'.budget == st.budget && st'.visited == st.visited
    && (e.Push? ==> Resumable(e.frame))
    && (if e.Push? && e.frame.Refs? && e.frame.clears then !st.inRef && st'.inRef else st'.inRef == st.inRef)
  }

  /** A result that a stage of an element may have. */
  ghost predicate Allowed(env: Env, st: State, id: Node, from: Stage, r: (Eval, State)) {
    && StepKeeps(st, r.0, r.1)
    && EvalWork(env, r.0) <= StageWork(env, id, from)
    && (from != LabelledBy ==> !(r.0.Push? && r.0.frame.Refs? && r.0.frame.clears))
  }

  lemma AuthorAllowed(env: Env, st: State, el: Element, me: Owner, from: Stage)
    requires env.KindOf(me.id) == ElementNode(el)
    ensures var r := AuthorStep(env, st, el, me, from); r.Some? ==> Allowed(env, st, me.id, from, r.value)
  {
  }

  lemma NativeAllowed(env: Env, st: State, el: Element, me: Owner, from: Stage)
    requires env.KindOf(me.id) == ElementNode(el)
    ensures var r := NativeStep(env, st, el, me, from); r.Some? ==> Allowed(env, st, me.id, from, r.value)
  {
    var start := NativeStart(el, from);
    if start.Some? {
      var pick := FirstUsable(el.cands, start.value);
      if pick.Some? { CandWorkSkips(el.cands, start.value, pick.value); }
    }
  }

  lemma ContentAllowed(env: Env, st: State, id: Node, el: Element, entry: Entry, hiddenOk: bool, from: Stage)
    requires env.KindOf(id) == ElementNode(el)
    ensures Allowed(env, st, id, from, ContentOrTip(env, st, id, el, entry, hiddenOk, from))
  {
  }

  /** A step keeps the budget and asks for no more work than its stage allows. */
  lemma StepWork(env: Env, st: State, id: Node, entry: Entry, hiddenOk: bool, from: Stage)
    ensures Allowed(env, st, id, from, Step(env, st, id, entry, hiddenOk, from))
  {
    if env.InfoOf(id).Some? && env.KindOf(id).ElementNode? {
      var el := env.KindOf(id).el;
      AuthorAllowed(env, st, el, Owner(id, entry, hiddenOk), from);
      NativeAllowed(env, st, el, Owner(id, entry, hiddenOk), from);
      ContentAllowed(env, st, id, el, entry, hiddenOk, from);
    }
  }

  lemma EnterWork(env: Env, st: State, id: Node, entry: Entry, hiddenOk: bool)
    ensures var (e, st') := Enter(env, st, id, entry, hiddenOk);
            && (if CanSpend(st)
                then Left(st') < Left(st) && st'.entered == st.entered + 1 && st'.budget == st.budget - 1
                else e == Done("") && st' == st)
            && (e.Push? ==> Resumable(e.frame))
            && (if e.Push? && e.frame.Refs? && e.frame.clears then !st.inRef && st'.inRef else st'.inRef == st.inRef)
  {
    if CanSpend(st) { StepWork(env, Spent(st), id, entry, hiddenOk, LabelledBy); }
  }

  /** Finishing a frame costs less than the frame, drops the flag if it was this frame's, and raises it for none. */
  ghost predicate FinishKeeps(env: Env, st: State, f: Frame, r: (Eval, State)) {
    && EvalWork(env, r.0) < FrameWork(env, f)
    && r.1.entered == st.entered && r.1.budget == st.budget
    && (r.0.Push? ==> Resumable(r.0.frame) && !(r.0.frame.Refs? && r.0.frame.clears))
    && r.1.inRef == (st.inRef && !(f.Refs? && f.clears))
  }

  lemma FinishContentWork(env: Env, st: State, f: Frame)
    requires f.Content?
    ensures FinishKeeps(env, st, f, Finish(env, st, f))
  {
    StepWork(env, st, f.id, f.entry, f.hiddenOk, Tooltip);
  }

  lemma FinishRefsWork(env: Env, st: State, f: Frame)
    requires f.Refs? && Resumable(f)
    ensures FinishKeeps(env, st, f, Finish(env, st, f))
  {
    if f.owner.Some? {
      var st1 := if f.clears then st.(inRef := false) else st;
      StepWork(env, st1, f.owner.value.id, f.owner.value.entry, f.owner.value.hiddenOk, f.resume);
    }
  }

  lemma FinishWork(env: Env, st: State, f: Frame)
    requires Resumable(f)
    ensures FinishKeeps(env, st, f, Finish(env, st, f))
  {
    if f.Content? { FinishContentWork(env, st, f); } else { FinishRefsWork(env, st, f); }
  }

  // ---- the recursion ----

  /** The text of a step: its own, or that of the frame it needs, if the stack has room. */
  function TextOfEval(env: Env, st: State, e: Eval, below: nat): (r: (string, State))
    requires e.Push? ==> Resumable(e.frame)
    ensures Left(r.1) <= Left(st)
    decreases Left(st), EvalWork(env, e), 1
  {
    if e.Done? then (e.text, st)
    else if below >= MAX_FRAMES then ("", Refuse(st, e.frame))
    else TextOfFrame(env, st, e.frame, below)
  }

  /** The text a frame collects: its nodes in turn, then what finishing it gives. */
  function TextOfFrame(env: Env, st: State, f: Frame, below: nat): (r: (string, State))
    requires Resumable(f)
    ensures Left(r.1) <= Left(st)
    decreases Left(st), FrameWork(env, f), 0
  {
    var (next, f1, st1) := Advance(env, st, f);
    match next
    case NextSkip => TextOfFrame(env, st1, f1, below)
    case NextFinish =>
      FinishWork(env, st1, f1);
      var (e, st2) := Finish(env, st1, f1);
      TextOfEval(env, st2, e, below)
    case NextEnter(id, entry, hiddenOk) =>
      EnterWork(env, st1, id, entry, hiddenOk);
      var (e, st2) := Enter(env, st1, id, entry, hiddenOk);
      var (text, st3) := TextOfEval(env, st2, e, below + 1);
      TextOfFrame(env, st3, Feed(f1, text), below)
  }

  // ---- the machine ----

  ghost predicate AllResumable(stack: seq<Frame>) {
    forall k :: 0 <= k < |stack| ==> Resumable(stack[k])
  }

  /** What the machine will answer from here: finish the top frame, feed the one below, and so on. */
  ghost function Answer(env: Env, st: State, stack: seq<Frame>, ret: Option<string>): (string, State)
    requires AllResumable(stack)
    decreases |stack|
  {
    if stack == [] then (if ret.Some? then ret.value else "", st)
    else
      var n := |stack| - 1;
      var top := if ret.Some? then Feed(stack[n], ret.value) else stack[n];
      var (text, st1) := TextOfFrame(env, st, top, n);
      Answer(env, st1, stack[..n], Some(text))
  }

  ghost function StackWork(env: Env, stack: seq<Frame>): nat {
    if stack == [] then 0 else StackWork(env, stack[..|stack| - 1]) + FrameWork(env, stack[|stack| - 1])
  }

  /** How many frames on the stack will clear the reference flag. */
  ghost function Clearing(stack: seq<Frame>): nat {
    if stack == [] then 0
    else Clearing(stack[..|stack| - 1]) + (if stack[|stack| - 1].Refs? && stack[|stack| - 1].clears then 1 else 0)
  }

  /** The bounds, and the reference flag matching the one frame that clears it. */
  ghost predicate MachineOk(st: State, stack: seq<Frame>) {
    && |stack| <= MAX_FRAMES && st.entered <= MAX_NODES_PER_NAME
    && AllResumable(stack)
    && Clearing(stack) == (if st.inRef then 1 else 0)
  }

  /** The flag while a step's result is still to be put on the stack. */
  ghost predicate FlagOk(st: State, stack: seq<Frame>, e: Eval) {
    Clearing(stack) + (if e.Push? && e.frame.Refs? && e.frame.clears then 1 else 0) == (if st.inRef then 1 else 0)
  }

  /** Put a step's result on the stack: a text is returned, a frame is pushed or refused. */
  function Dispatch(st: State, e: Eval, stack: seq<Frame>): (State, seq<Frame>, Option<string>) {
    if e.Done? then (st, stack, Some(e.text))
    else if |stack| >= MAX_FRAMES then (Refuse(st, e.frame), stack, Some(""))
    else (st, stack + [e.frame], None)
  }

  lemma AnswerOf(env: Env, st: State, stack: seq<Frame>, f: Frame)
    requires AllResumable(stack) && Resumable(f)
    ensures AllResumable(stack + [f])
    ensures var (text, st1) := TextOfFrame(env, st, f, |stack|);
            Answer(env, st, stack + [f], None) == Answer(env, st1, stack, Some(text))
    ensures StackWork(env, stack + [f]) == StackWork(env, stack) + FrameWork(env, f)
    ensures Clearing(stack + [f]) == Clearing(stack) + (if f.Refs? && f.clears then 1 else 0)
  {
    var all := stack + [f];
    assert all[|all| - 1] == f && all[..|stack|] == stack;
  }

  lemma DispatchKeeps(env: Env, st: State, e: Eval, stack: seq<Frame>)
    requires AllResumable(stack) && |stack| <= MAX_FRAMES && st.entered <= MAX_NODES_PER_NAME
    requires (e.Push? ==> Resumable(e.frame)) && FlagOk(st, stack, e)
    ensures var (st', stack', ret') := Dispatch(st, e, stack);
            && MachineOk(st', stack')
            && StackWork(env, stack') <= StackWork(env, stack) + EvalWork(env, e)
            && st'.entered == st.entered && st'.budget == st.budget
            && var (text, st2) := TextOfEval(env, st, e, |stack|);
               Answer(env, st', stack', ret') == Answer(env, st2, stack, Some(text))
  {
    if e.Push? && |stack| < MAX_FRAMES { AnswerOf(env, st, stack, e.frame); }
  }

  lemma FeedKeeps(env: Env, f: Frame, r: string)
    ensures FrameWork(env, Feed(f, r)) == FrameWork(env, f) && Resumable(Feed(f, r)) == Resumable(f)
    ensures Feed(f, r).Refs? == f.Refs? && (f.Refs? ==> Feed(f, r).clears == f.clears)
  {
  }

  lemma AdvanceKeeps(env: Env, st: State, f: Frame)
    ensures var (next, f1, st1) := Advance(env, st, f);
            && st1.entered == st.entered && st1.budget == st.budget && st1.inRef == st.inRef
            && Resumable(f1) == Resumable(f) && f1.Refs? == f.Refs? && (f.Refs? ==> f1.clears == f.clears)
            && (if next.NextFinish? then f1 == f && st1 == st else FrameWork(env, f1) < FrameWork(env, f))
  {
  }

  // ---- one turn of the machine ----

  lemma FedAnswer(env: Env, st: State, rest: seq<Frame>, f: Frame, r: string)
    requires AllResumable(rest) && Resumable(f)
    ensures AllResumable(rest + [f]) && AllResumable(rest + [Feed(f, r)])
    ensures Answer(env, st, rest + [f], Some(r)) == Answer(env, st, rest + [Feed(f, r)], None)
    ensures StackWork(env, rest + [Feed(f, r)]) == StackWork(env, rest + [f])
    ensures Clearing(rest + [Feed(f, r)]) == Clearing(rest + [f])
  {
    FeedKeeps(env, f, r);
    AnswerOf(env, st, rest, Feed(f, r));
    AnswerOf(env, st, rest, f);
    var all := rest + [f];
    assert all[|all| - 1] == f && all[..|rest|] == rest;
  }

  /** The answer from a turn on, when the top frame enters a node. */
  lemma EnterTurn(env: Env, st: State, rest: seq<Frame>, f: Frame)
    requires MachineOk(st, rest + [f]) && Resumable(f) && AllResumable(rest) && Advance(env, st, f).0.NextEnter?
    ensures var (next, f1, st1) := Advance(env, st, f);
            var (e, st2) := Enter(env, st1, next.id, next.entry, next.hiddenOk);
            var (st3, stack', ret') := Dispatch(st2, e, rest + [f1]);
            && MachineOk(st3, stack')
            && Answer(env, st3, stack', ret') == Answer(env, st, rest + [f], None)
            && st3.entered + st3.budget == st.entered + st.budget
            && (Left(st3) < Left(st) || (Left(st3) == Left(st) && StackWork(env, stack') < StackWork(env, rest + [f])))
  {
    var (next, f1, st1) := Advance(env, st, f);
    AdvanceKeeps(env, st, f);
    EnterWork(env, st1, next.id, next.entry, next.hiddenOk);
    var (e, st2) := Enter(env, st1, next.id, next.entry, next.hiddenOk);
    AnswerOf(env, st, rest, f);
    AnswerOf(env, st2, rest, f1);
    DispatchKeeps(env, st2, e, rest + [f1]);
    var (text, st3) := TextOfEval(env, st2, e, |rest| + 1);
    FedAnswer(env, st3, rest, f1, text);
    AnswerOf(env, st3, rest, Feed(f1, text));
  }

  lemma SkipTurn(env: Env, st: State, rest: seq<Frame>, f: Frame)
    requires MachineOk(st, rest + [f]) && Resumable(f) && AllResumable(rest) && Advance(env, st, f).0.NextSkip?
    ensures var (next, f1, st1) := Advance(env, st, f);
            && st1 == st && MachineOk(st, rest + [f1])
            && Answer(env, st, rest + [f1], None) == Answer(env, st, rest + [f], None)
            && StackWork(env, rest + [f1]) < StackWork(env, rest + [f])
  {
    var (next, f1, st1) := Advance(env, st, f);
    AdvanceKeeps(env, st, f);
    AnswerOf(env, st, rest, f);
    AnswerOf(env, st, rest, f1);
  }

  lemma FinishTurn(env: Env, st: State, rest: seq<Frame>, f: Frame)
    requires MachineOk(st, rest + [f]) && Resumable(f) && AllResumable(rest) && Advance(env, st, f).0.NextFinish?
    ensures var (e, st2) := Finish(env, st, f);
            var (st3, stack', ret') := Dispatch(st2, e, rest);
            && MachineOk(st3, stack')
            && Answer(env, st3, stack', ret') == Answer(env, st, rest + [f], None)
            && st3.entered == st.entered && st3.budget == st.budget
            && StackWork(env, stack') < StackWork(env, rest + [f])
  {
    AdvanceKeeps(env, st, f);
    FinishWork(env, st, f);
    var (e, st2) := Finish(env, st, f);
    AnswerOf(env, st, rest, f);
    DispatchKeeps(env, st2, e, rest);
  }
}
