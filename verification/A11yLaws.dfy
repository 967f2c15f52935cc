/**
  Laws of the accessible name (crates/px-a11y/src/accname.rs), told from the
  document and not from the steps: hidden content leaves no trace unless it is
  referenced, referenced content is read even if hidden, and the sources of a
  name come in their order.
 */
module A11yLaws {
  import opened Common
  import opened A11yText
  import opened A11yName
  import opened A11yMachine

  // ---- hidden content leaves no trace ----

  /**
    Two documents with the same readable part: they agree on what is hidden and
    on what is a block, and on the kind and children of every readable node.
   */
  ghost predicate Alike(a: Env, b: Env) {
    && a.root == b.root
    && (forall n :: a.InfoOf(n) == b.InfoOf(n) && a.IsBlock(n) == b.IsBlock(n))
    && (forall n :: !a.Unreadable(n) ==> a.KindOf(n) == b.KindOf(n) && a.KidsOf(n) == b.KidsOf(n))
  }

  ghost predicate AllReadable(a: Env, ids: seq<Node>) {
    forall i :: 0 <= i < |ids| ==> !a.Unreadable(ids[i])
  }

  ghost predicate RefsReadable(a: Env, el: Element) {
    && AllReadable(a, el.labelledBy)
    && forall k :: 0 <= k < |el.cands| && el.cands[k].CRefs? ==> AllReadable(a, el.cands[k].ids)
  }

  /** No readable element refers to an unreadable node. */
  ghost predicate NoHiddenRefs(a: Env) {
    forall n :: !a.Unreadable(n) && a.KindOf(n).ElementNode? ==> RefsReadable(a, a.KindOf(n).el)
  }

  /** A frame that reads on behalf of a readable node, and only readable nodes in full. */
  ghost predicate Open(a: Env, f: Frame) {
    match f
    case Content(id, _, _, hiddenOk, _, _) => !a.Unreadable(id) && !hiddenOk
    case Refs(owner, ids, _, _, _, _, _) =>
      AllReadable(a, ids) && (owner.Some? ==> !a.Unreadable(owner.value.id) && !owner.value.hiddenOk)
  }

  ghost predicate OpenEval(a: Env, e: Eval) {
    e.Push? ==> Open(a, e.frame)
  }

  lemma AuthorOpen(a: Env, st: State, el: Element, me: Owner, from: Stage)
    requires RefsReadable(a, el) && !a.Unreadable(me.id) && !me.hiddenOk
    ensures AuthorStep(a, st, el, me, from).Some? ==> OpenEval(a, AuthorStep(a, st, el, me, from).value.0)
  {
  }

  lemma NativeOpen(a: Env, st: State, el: Element, me: Owner, from: Stage)
    requires RefsReadable(a, el) && !a.Unreadable(me.id) && !me.hiddenOk
    ensures NativeStep(a, st, el, me, from).Some? ==> OpenEval(a, NativeStep(a, st, el, me, from).value.0)
  {
  }

  /** The steps read only the element itself, the root and the children. */
  lemma StepsReadLocally(a: Env, b: Env, st: State, el: Element, me: Owner, from: Stage)
    requires a.root == b.root && a.KidsOf(me.id) == b.KidsOf(me.id)
    ensures AuthorStep(a, st, el, me, from) == AuthorStep(b, st, el, me, from)
    ensures NativeStep(a, st, el, me, from) == NativeStep(b, st, el, me, from)
    ensures ContentOrTip(a, st, me.id, el, me.entry, me.hiddenOk, from) ==
            ContentOrTip(b, st, me.id, el, me.entry, me.hiddenOk, from)
  {
  }

  lemma StepAlike(a: Env, b: Env, st: State, id: Node, entry: Entry, from: Stage)
    requires Alike(a, b) && NoHiddenRefs(a) && !a.Unreadable(id)
    ensures Step(a, st, id, entry, false, from) == Step(b, st, id, entry, false, from)
    ensures OpenEval(a, Step(a, st, id, entry, false, from).0)
  {
    assert a.InfoOf(id) == b.InfoOf(id) && a.KindOf(id) == b.KindOf(id) && a.KidsOf(id) == b.KidsOf(id);
    if a.KindOf(id).ElementNode? {
      var el, me := a.KindOf(id).el, Owner(id, entry, false);
      StepsReadLocally(a, b, st, el, me, from);
      AuthorOpen(a, st, el, me, from);
      NativeOpen(a, st, el, me, from);
    }
  }

  lemma EnterAlike(a: Env, b: Env, st: State, id: Node, entry: Entry)
    requires Alike(a, b) && NoHiddenRefs(a)
    ensures Enter(a, st, id, entry, false) == Enter(b, st, id, entry, false)
    ensures OpenEval(a, Enter(a, st, id, entry, false).0)
  {
    assert a.InfoOf(id) == b.InfoOf(id);
    if CanSpend(st) && !a.Unreadable(id) {
      assert a.KindOf(id) == b.KindOf(id);
      StepAlike(a, b, Spent(st), id, entry, LabelledBy);
    }
  }

  lemma AdvanceAlike(a: Env, b: Env, st: State, f: Frame)
    requires Alike(a, b) && Open(a, f)
    ensures Advance(a, st, f) == Advance(b, st, f) && Open(a, Advance(a, st, f).1)
    ensures Advance(a, st, f).0.NextEnter? ==> !Advance(a, st, f).0.hiddenOk
  {
    if f.Content? {
      assert a.KidsOf(f.id) == b.KidsOf(f.id);
      if f.pos < |a.KidsOf(f.id)| { assert a.IsBlock(a.KidsOf(f.id)[f.pos]) == b.IsBlock(a.KidsOf(f.id)[f.pos]); }
    } else if f.i < |f.ids| {
      assert a.InfoOf(f.ids[f.i]) == b.InfoOf(f.ids[f.i]);
    }
  }

  lemma FinishAlike(a: Env, b: Env, st: State, f: Frame)
    requires Alike(a, b) && NoHiddenRefs(a) && Open(a, f)
    ensures Finish(a, st, f) == Finish(b, st, f) && OpenEval(a, Finish(a, st, f).0)
  {
    if f.Content? {
      assert a.KindOf(f.id) == b.KindOf(f.id);
      StepAlike(a, b, st, f.id, f.entry, Tooltip);
    } else if f.owner.Some? {
      var id := f.owner.value.id;
      assert a.KindOf(id) == b.KindOf(id);
      StepAlike(a, b, if f.clears then st.(inRef := false) else st, id, f.owner.value.entry, f.resume);
    }
  }

  lemma {:induction false} EvalAlike(a: Env, b: Env, st: State, e: Eval, below: nat)
    requires Alike(a, b) && NoHiddenRefs(a) && OpenEval(a, e) && (e.Push? ==> Resumable(e.frame))
    ensures TextOfEval(a, st, e, below) == TextOfEval(b, st, e, below)
    decreases Left(st), EvalWork(a, e), 1
  {
    if e.Push? && below < MAX_FRAMES { FrameAlike(a, b, st, e.frame, below); }
  }

  lemma {:induction false} FrameAlike(a: Env, b: Env, st: State, f: Frame, below: nat)
    requires Alike(a, b) && NoHiddenRefs(a) && Open(a, f) && Resumable(f)
    ensures TextOfFrame(a, st, f, below) == TextOfFrame(b, st, f, below)
    decreases Left(st), FrameWork(a, f), 0
  {
    AdvanceAlike(a, b, st, f);
    AdvanceKeeps(a, st, f);
    AdvanceKeeps(b, st, f);
    var (next, f1, st1) := Advance(a, st, f);
    match next
    case NextSkip => FrameAlike(a, b, st1, f1, below);
    case NextFinish =>
      FinishAlike(a, b, st1, f1);
      FinishWork(a, st1, f1);
      FinishWork(b, st1, f1);
      var (e, st2) := Finish(a, st1, f1);
      EvalAlike(a, b, st2, e, below);
    case NextEnter(id, entry, _) =>
      EnterAlike(a, b, st1, id, entry);
      EnterWork(a, st1, id, entry, false);
      EnterWork(b, st1, id, entry, false);
      var (e, st2) := Enter(a, st1, id, entry, false);
      if CanSpend(st1) { EvalAlike(a, b, st2, e, below + 1); }
      var (text, st3) := TextOfEval(a, st2, e, below + 1);
      FeedKeeps(a, f1, text);
      FrameAlike(a, b, st3, Feed(f1, text), below);
  }

  /** Hidden content leaves no trace: documents with the same readable part give the same name, for every budget. */
  lemma HiddenLeavesNoTrace(a: Env, b: Env, budget: nat)
    requires Alike(a, b) && NoHiddenRefs(a)
    ensures NameOf(a, budget) == NameOf(b, budget)
  {
    var st := State({a.root}, false, 0, budget, NoSrc);
    EnterAlike(a, b, st, a.root, Root);
    EnterWork(a, st, a.root, Root, false);
    EnterWork(b, st, b.root, Root, false);
    var (e, st1) := Enter(a, st, a.root, Root, false);
    EvalAlike(a, b, st1, e, 0);
  }

  // ---- flat text ----

  /** White space is single spaces only, and no proper front reaches the cap. */
  ghost predicate IsFlat(s: string, cap: nat) {
    && (forall i :: 0 <= i < |s| ==> (IsAsciiWs(s[i]) ==> s[i] == ' ') && (i > 0 && s[i] == ' ' ==> s[i - 1] != ' '))
    && (forall i :: 0 <= i < |s| ==> Bytes(s[..i]) < cap)
  }

  lemma {:induction false} PushFlatIsFlat(acc: string, s: string, cap: nat)
    requires IsFlat(acc, cap)
    ensures IsFlat(PushFlat(acc, s, cap), cap)
    decreases |s|
  {
    if s != [] && Bytes(acc) < cap {
      var c := if IsAsciiWs(s[0]) then ' ' else s[0];
      if !(c == ' ' && EndsInSpace(acc)) {
        var more := acc + [c];
        forall i | 0 <= i < |more| ensures Bytes(more[..i]) < cap {
          if i < |acc| { assert more[..i] == acc[..i]; } else { assert more[..i] == acc; }
        }
        PushFlatIsFlat(more, s[1..], cap);
      } else {
        PushFlatIsFlat(acc, s[1..], cap);
      }
    }
  }

  /** Flattening flat text again changes nothing. */
  lemma {:induction false} FlatPushes(s: string, k: nat, cap: nat)
    requires IsFlat(s, cap) && k <= |s|
    ensures PushFlat(s[..k], s[k..], cap) == s
    decreases |s| - k
  {
    if k == |s| {
      assert s[..k] == s;
    } else {
      assert s[k..][1..] == s[k + 1..] && s[k..][0] == s[k];
      assert s[..k] + [s[k]] == s[..k + 1];
      FlatPushes(s, k + 1, cap);
      if k > 0 { assert s[..k][k - 1] == s[k - 1]; }
    }
  }

  lemma FlatTwice(s: string, cap: nat)
    ensures PushFlat("", PushFlat("", s, cap), cap) == PushFlat("", s, cap)
  {
    var r := PushFlat("", s, cap);
    PushFlatIsFlat("", s, cap);
    FlatPushes(r, 0, cap);
    assert r[..0] == "" && r[0..] == r;
  }

  // ---- referenced content is read, hidden or not ----

  /** A text node of the document, hidden or not. */
  ghost predicate TextTarget(env: Env, n: Node) {
    env.InfoOf(n).Some? && env.KindOf(n).TextNode?
  }

  function TextAt(env: Env, n: Node): string {
    if env.KindOf(n).TextNode? then PushFlat("", env.KindOf(n).contents, ACC_CAP) else ""
  }

  /** The texts of the targets, joined by single spaces. */
  function JoinTexts(env: Env, acc: string, ids: seq<Node>): string
    decreases |ids|
  {
    if ids == [] then acc
    else JoinTexts(env, PushFlat(PushSep(acc, ACC_CAP), TextAt(env, ids[0]), ACC_CAP), ids[1..])
  }

  /** The state after reading nodes that need nothing else. */
  function AfterReading(st: State, ids: seq<Node>): State
    requires |ids| <= st.budget
  {
    st.(visited := st.visited + (set n | n in ids), entered := st.entered + |ids|, budget := st.budget - |ids|)
  }

  ghost predicate AllTexts(env: Env, ids: seq<Node>) {
    forall k :: 0 <= k < |ids| ==> TextTarget(env, ids[k])
  }

  lemma EnterText(env: Env, st: State, n: Node, entry: Entry)
    requires TextTarget(env, n) && CanSpend(st)
    ensures Enter(env, st, n, entry, env.Unreadable(n)) == (Done(TextAt(env, n)), Spent(st))
    ensures Enter(env, st, n, entry, false) == (Done(if env.Unreadable(n) then "" else TextAt(env, n)), Spent(st))
  {
  }

  /** The state after reading one node. */
  function Read(st: State, n: Node): State
    requires CanSpend(st)
  {
    Spent(st.(visited := st.visited + {n}))
  }

  lemma ReadingOn(st: State, ids: seq<Node>)
    requires ids != [] && |ids| <= st.budget && CanSpend(st)
    ensures AfterReading(Read(st, ids[0]), ids[1..]) == AfterReading(st, ids)
  {
    assert {ids[0]} + (set m | m in ids[1..]) == (set m | m in ids);
  }

  /** A node that gives a text at once is fed to the frame that entered it. */
  lemma TextIsFed(env: Env, st: State, f: Frame, below: nat, text: string)
    requires Resumable(f) && Advance(env, st, f).0.NextEnter?
    requires var (next, f1, st1) := Advance(env, st, f);
             CanSpend(st1) && Enter(env, st1, next.id, next.entry, next.hiddenOk) == (Done(text), Spent(st1))
    ensures var (next, f1, st1) := Advance(env, st, f);
            Resumable(Feed(f1, text))
            && TextOfFrame(env, st, f, below) == TextOfFrame(env, Spent(st1), Feed(f1, text), below)
  {
  }

  lemma RefIsRead(env: Env, st: State, f: Frame, below: nat)
    requires f.Refs? && Resumable(f) && f.i < |f.ids| && TextTarget(env, f.ids[f.i]) && CanSpend(st)
    ensures var g := f.(i := f.i + 1, acc := PushFlat(PushSep(f.acc, ACC_CAP), TextAt(env, f.ids[f.i]), ACC_CAP));
            TextOfFrame(env, st, f, below) == TextOfFrame(env, Read(st, f.ids[f.i]), g, below)
  {
    var n := f.ids[f.i];
    EnterText(env, st.(visited := st.visited + {n}), n, RefRoot);
    TextIsFed(env, st, f, below, TextAt(env, n));
  }

  lemma {:induction false} RefsAreRead(env: Env, st: State, f: Frame, below: nat)
    requires f.Refs? && Resumable(f) && f.i <= |f.ids| && AllTexts(env, f.ids)
    requires |f.ids| - f.i <= st.budget && st.entered + (|f.ids| - f.i) <= MAX_NODES_PER_NAME
    ensures var done := f.(i := |f.ids|, acc := JoinTexts(env, f.acc, f.ids[f.i..]));
            TextOfFrame(env, st, f, below) == TextOfFrame(env, AfterReading(st, f.ids[f.i..]), done, below)
    decreases |f.ids| - f.i
  {
    var rest := f.ids[f.i..];
    if f.i == |f.ids| {
      assert rest == [] && AfterReading(st, rest) == st;
    } else {
      var g := f.(i := f.i + 1, acc := PushFlat(PushSep(f.acc, ACC_CAP), TextAt(env, f.ids[f.i]), ACC_CAP));
      RefIsRead(env, st, f, below);
      RefsAreRead(env, Read(st, f.ids[f.i]), g, below);
      assert g.ids[g.i..] == rest[1..];
      ReadingOn(st, rest);
    }
  }

  /** A readable element as the root. */
  ghost predicate RootElement(env: Env, el: Element) {
    !env.Unreadable(env.root) && env.KindOf(env.root) == ElementNode(el)
  }

  ghost function Start(env: Env, budget: nat): State {
    State({env.root}, false, 0, budget, NoSrc)
  }

  /** The name of a readable root element is decided by its ordered steps. */
  lemma NameIsStepped(env: Env, el: Element, budget: nat)
    requires RootElement(env, el) && budget > 0
    ensures var (e, st) := Step(env, Spent(Start(env, budget)), env.root, Root, false, LabelledBy);
            (e.Push? ==> Resumable(e.frame)) && NameOf(env, budget) == TextOfEval(env, st, e, 0)
  {
    EnterWork(env, Start(env, budget), env.root, Root, false);
  }

  /** A reference frame that has read everything gives its trimmed text, if there is any. */
  lemma ReadFrameEnds(env: Env, st: State, f: Frame, below: nat)
    requires f.Refs? && Resumable(f) && f.i == |f.ids| && Trim(f.acc) != []
    ensures var r := TextOfFrame(env, st, f, below);
            r.0 == Trim(f.acc) && r.1.budget == st.budget
            && (f.owner.None? || f.owner.value.id == env.root ==> r.1.src == f.src)
  {
  }

  /** Text nodes named by `aria-labelledby` are the name, joined, hidden or not, before every other source. */
  lemma LabelsAreRead(env: Env, el: Element, budget: nat)
    requires RootElement(env, el) && el.labelledBy != [] && AllTexts(env, el.labelledBy)
    requires |el.labelledBy| < budget && |el.labelledBy| < MAX_NODES_PER_NAME
    requires Trim(JoinTexts(env, "", el.labelledBy)) != []
    ensures NameOf(env, budget).0 == Trim(JoinTexts(env, "", el.labelledBy))
    ensures NameOf(env, budget).1.src == Author && NameOf(env, budget).1.budget == budget - 1 - |el.labelledBy|
  {
    NameIsStepped(env, el, budget);
    var st := Spent(Start(env, budget)).(inRef := true);
    var f := RefsFor(Owner(env.root, Root, false), el.labelledBy, AriaLabel, Author, true);
    assert Step(env, Spent(Start(env, budget)), env.root, Root, false, LabelledBy) == (Push(f), st);
    RefsAreRead(env, st, f, 0);
    assert f.ids[f.i..] == f.ids;
    ReadFrameEnds(env, AfterReading(st, f.ids), f.(i := |f.ids|, acc := JoinTexts(env, "", f.ids)), 0);
  }

  /** A hidden text node that labels the root is read in full. */
  lemma HiddenLabelIsRead(env: Env, el: Element, n: Node, budget: nat)
    requires RootElement(env, el) && el.labelledBy == [n] && TextTarget(env, n) && env.Unreadable(n)
    requires Trim(TextAt(env, n)) != [] && budget >= 2
    ensures NameOf(env, budget).0 == Trim(TextAt(env, n)) && NameOf(env, budget).1.src == Author
  {
    assert [n][1..] == [];
    assert JoinTexts(env, "", [n]) == PushFlat(PushSep("", ACC_CAP), TextAt(env, n), ACC_CAP);
    FlatTwice(env.KindOf(n).contents, ACC_CAP);
    LabelsAreRead(env, el, budget);
  }

  /** A description by reference is the joined texts of its targets, hidden or not. */
  lemma DescriptionIsRead(env: Env, ids: seq<Node>, budget: nat)
    requires AllTexts(env, ids) && |ids| <= budget && |ids| <= MAX_NODES_PER_NAME
    ensures TextOfEval(env, State({env.root}, true, 0, budget, NoSrc),
              Push(Refs(None, ids, 0, "", AtContent, Author, true)), 0).0 == Trim(JoinTexts(env, "", ids))
  {
    var st := State({env.root}, true, 0, budget, NoSrc);
    var f := Refs(None, ids, 0, "", AtContent, Author, true);
    RefsAreRead(env, st, f, 0);
    assert f.ids[f.i..] == ids;
    var done := f.(i := |ids|, acc := JoinTexts(env, "", ids));
    var (e, st1) := Finish(env, AfterReading(st, ids), done);
    assert e == Done(Trim(done.acc));
  }

  // ---- the sources of a name, in their order ----

  /** No reference and no label of its own. */
  ghost predicate Unlabelled(el: Element) {
    el.labelledBy == [] && Blank(el.ariaLabel)
  }

  ghost predicate NoCandidate(el: Element) {
    el.presentation || forall k :: 0 <= k < |el.cands| ==> !Usable(el.cands[k])
  }

  /** `aria-label` names what nothing references, whatever else there is. */
  lemma LabelNames(env: Env, el: Element, budget: nat)
    requires RootElement(env, el) && budget > 0 && el.labelledBy == [] && !Blank(el.ariaLabel)
    ensures NameOf(env, budget).0 == Flat(el.ariaLabel)
    ensures NameOf(env, budget).1.src == Author && NameOf(env, budget).1.budget == budget - 1
  {
    NameIsStepped(env, el, budget);
  }

  /** Then the first usable text of the host language. */
  lemma CandidateNames(env: Env, el: Element, budget: nat, k: nat)
    requires RootElement(env, el) && budget > 0 && Unlabelled(el) && !el.presentation
    requires k < |el.cands| && Usable(el.cands[k]) && el.cands[k].CText?
    requires forall j :: 0 <= j < k ==> !Usable(el.cands[j])
    ensures NameOf(env, budget).0 == Flat(el.cands[k].text) && NameOf(env, budget).1.src == el.cands[k].src
  {
    assert FirstUsable(el.cands, 0) == Some(k);
    NameIsStepped(env, el, budget);
  }

  /** An element other than the root that gives its own text at once: an embedded value, or else `aria-label`. */
  ghost predicate SpeaksAtOnce(env: Env, n: Node) {
    && !env.Unreadable(n) && env.KindOf(n).ElementNode? && n != env.root
    && (env.KindOf(n).el.embedded.Some? || !Blank(env.KindOf(n).el.ariaLabel))
  }

  function OwnText(env: Env, n: Node): string
    requires env.KindOf(n).ElementNode?
  {
    var el := env.KindOf(n).el;
    if el.embedded.Some? then el.embedded.value else Flat(el.ariaLabel)
  }

  lemma SpeaksOnEntry(env: Env, st: State, n: Node, entry: Entry)
    requires SpeaksAtOnce(env, n) && CanSpend(st) && (st.inRef || env.KindOf(n).el.labelledBy == [])
    ensures Enter(env, st, n, entry, false) == (Done(OwnText(env, n)), Spent(st))
  {
  }

  /** What a text adds to content: a block is set off by spaces on both sides, anything else runs on. */
  function Joined(acc: string, text: string, block: bool): string {
    if block then PushSep(PushFlat(PushSep(acc, ACC_CAP), text, ACC_CAP), ACC_CAP) else PushFlat(acc, text, ACC_CAP)
  }

  lemma ChildIsFed(env: Env, st: State, f: Frame, text: string)
    requires f.Content? && !f.pending && f.pos < |env.KidsOf(f.id)| && env.KidsOf(f.id)[f.pos] !in st.visited
    ensures var n := env.KidsOf(f.id)[f.pos];
            var (next, f1, st1) := Advance(env, st, f);
            && next == NextEnter(n, Child, f.hiddenOk) && st1 == st.(visited := st.visited + {n})
            && Feed(f1, text) == f.(pos := f.pos + 1, acc := Joined(f.acc, text, env.IsBlock(n)))
  {
  }

  /** A child that is a block is set off by spaces on both sides; any other runs on. */
  lemma BlocksAreSpaced(env: Env, st: State, f: Frame, below: nat)
    requires f.Content? && !f.hiddenOk && !f.pending && f.pos < |env.KidsOf(f.id)| && CanSpend(st)
    requires var n := env.KidsOf(f.id)[f.pos];
             SpeaksAtOnce(env, n) && n !in st.visited && (st.inRef || env.KindOf(n).el.labelledBy == [])
    ensures var n := env.KidsOf(f.id)[f.pos];
            var acc := Joined(f.acc, OwnText(env, n), env.KindOf(n).el.block);
            TextOfFrame(env, st, f, below) == TextOfFrame(env, Read(st, n), f.(pos := f.pos + 1, acc := acc), below)
  {
    var n := env.KidsOf(f.id)[f.pos];
    ChildIsFed(env, st, f, OwnText(env, n));
    SpeaksOnEntry(env, st.(visited := st.visited + {n}), n, Child);
    TextIsFed(env, st, f, below, OwnText(env, n));
  }

  /** While references are read, a target's own references are not followed. */
  lemma RefsAreNotChained(env: Env, st: State, f: Frame, below: nat)
    requires f.Refs? && Resumable(f) && f.i < |f.ids| && CanSpend(st) && st.inRef && SpeaksAtOnce(env, f.ids[f.i])
    ensures var text := OwnText(env, f.ids[f.i]);
            var g := f.(i := f.i + 1, acc := PushFlat(PushSep(f.acc, ACC_CAP), text, ACC_CAP));
            TextOfFrame(env, st, f, below) == TextOfFrame(env, Read(st, f.ids[f.i]), g, below)
  {
    var n := f.ids[f.i];
    var (next, f1, st1) := Advance(env, st, f);
    SpeaksOnEntry(env, st1, n, RefRoot);
  }

  lemma ReadContentEnds(env: Env, st: State, f: Frame, below: nat)
    requires f.Content? && f.pos == |env.KidsOf(f.id)| && f.id == env.root && Trim(f.acc) != []
    ensures var r := TextOfFrame(env, st, f, below); r.0 == f.acc && r.1.src == FromContent && r.1.budget == st.budget
  {
  }

  lemma NothingUsable(el: Element)
    requires NoCandidate(el)
    ensures el.presentation || FirstUsable(el.cands, 0).None?
  {
  }

  /** Last the tooltip, when there is no content to read. */
  lemma TooltipNames(env: Env, el: Element, budget: nat)
    requires RootElement(env, el) && budget > 0 && Unlabelled(el) && NoCandidate(el)
    requires !el.fromContents || (!el.br && env.KidsOf(env.root) == [])
    ensures NameOf(env, budget).0 == el.tip
    ensures el.tip != [] ==> NameOf(env, budget).1.src == el.tipSrc
  {
    NothingUsable(el);
    NameIsStepped(env, el, budget);
  }

  /** An unreadable root has no name. */
  lemma UnreadableIsNameless(env: Env, budget: nat)
    requires env.Unreadable(env.root)
    ensures NameOf(env, budget).0 == ""
  {
  }
}
