/**
  Names from content (crates/px-a11y/src/accname.rs): over any tree of plain
  elements and text the machine's frames, budgets and visited set amount to the
  visible text in document order, blocks set off by spaces.
 */
module A11yContent {
  import opened Common
  import opened A11yText
  import opened A11yName
  import opened A11yMachine
  import opened A11yLaws

  /** A piece of the document as a tree. */
  datatype Shape = Shape(id: Node, kids: seq<Shape>)

  function Ids(ss: seq<Shape>): seq<Node> {
    seq(|ss|, i requires 0 <= i < |ss| => ss[i].id)
  }

  /** An element that only groups what is in it. */
  ghost predicate Plain(el: Element) {
    Unlabelled(el) && NoCandidate(el) && el.embedded.None? && !el.br && el.tip == []
  }

  /** Left out, unless hidden content is read in full. */
  predicate Skipped(env: Env, n: Node, full: bool) {
    !full && env.Unreadable(n)
  }

  /** The tree is that part of the document, as far as it is read. */
  ghost predicate Fits(env: Env, s: Shape, full: bool)
    decreases s, 1
  {
    && env.InfoOf(s.id).Some? && s.id != env.root
    && (|| Skipped(env, s.id, full) || env.KindOf(s.id).TextNode?
        || (env.KindOf(s.id).ElementNode? && Plain(env.KindOf(s.id).el)
            && env.KidsOf(s.id) == Ids(s.kids) && FitAll(env, s.kids, full)))
  }

  ghost predicate FitAll(env: Env, ss: seq<Shape>, full: bool)
    decreases ss, 0
  {
    ss != [] ==> Fits(env, ss[0], full) && FitAll(env, ss[1..], full)
  }

  /** Nothing below is read: hidden, or text. */
  predicate IsLeaf(env: Env, n: Node, full: bool) {
    Skipped(env, n, full) || env.KindOf(n).TextNode?
  }

  /** The nodes that are read, in document order. */
  function Reached(env: Env, s: Shape, full: bool): seq<Node>
    decreases s, 1
  {
    if IsLeaf(env, s.id, full) then [s.id] else [s.id] + ReachedAll(env, s.kids, full)
  }

  function ReachedAll(env: Env, ss: seq<Shape>, full: bool): seq<Node>
    decreases ss, 0
  {
    if ss == [] then [] else Reached(env, ss[0], full) + ReachedAll(env, ss[1..], full)
  }

  /** How many frames reading it needs at once. */
  function Levels(env: Env, s: Shape, full: bool): nat
    decreases s, 1
  {
    if IsLeaf(env, s.id, full) || s.kids == [] then 0 else 1 + LevelsOfAll(env, s.kids, full)
  }

  function LevelsOfAll(env: Env, ss: seq<Shape>, full: bool): nat
    decreases ss, 0
  {
    if ss == [] then 0
    else
      var a, b := Levels(env, ss[0], full), LevelsOfAll(env, ss[1..], full);
      if a > b then a else b
  }

  /** The text of a piece: nothing if hidden, its own text, or that of its children unless they are blank together. */
  function TextIn(env: Env, s: Shape, full: bool): string
    decreases s, 1
  {
    if Skipped(env, s.id, full) then ""
    else if env.KindOf(s.id).TextNode? then TextAt(env, s.id)
    else
      var text := TextOfAll(env, "", s.kids, full);
      if Trim(text) == [] then "" else text
  }

  /** The texts of pieces one after the other, blocks set off by spaces. */
  function TextOfAll(env: Env, acc: string, ss: seq<Shape>, full: bool): string
    decreases ss, 0
  {
    if ss == [] then acc
    else TextOfAll(env, Joined(acc, TextIn(env, ss[0], full), env.IsBlock(ss[0].id)), ss[1..], full)
  }

  // ---- reading a tree ----

  /** Enough budget to read these nodes, none of them read before. */
  ghost predicate Room(st: State, ns: seq<Node>) {
    && |ns| <= st.budget && st.entered + |ns| <= MAX_NODES_PER_NAME
    && Unrepeated(ns) && forall n :: n in ns ==> n !in st.visited
  }

  lemma RoomSplits(st: State, a: seq<Node>, b: seq<Node>)
    requires Room(st, a + b)
    ensures Room(st, a) && Room(AfterReading(st, a), b)
    ensures AfterReading(AfterReading(st, a), b) == AfterReading(st, a + b)
  {
    var ns := a + b;
    forall i, j | 0 <= i < j < |a| ensures a[i] != a[j] { assert ns[i] != ns[j]; }
    forall i, j | 0 <= i < j < |b| ensures b[i] != b[j] { assert ns[|a| + i] != ns[|a| + j]; }
    forall n | n in b ensures n !in a {
      var j :| 0 <= j < |b| && b[j] == n;
      forall i | 0 <= i < |a| ensures a[i] != n { assert ns[i] != ns[|a| + j]; }
    }
    assert (set n | n in a) + (set n | n in b) == (set n | n in ns);
  }

  /** A frame over its last child has the children's text, or nothing if that is blank. */
  lemma PlainFrameEnds(env: Env, st: State, f: Frame, below: nat)
    requires f.Content? && f.pos == |env.KidsOf(f.id)| && f.id != env.root
    requires env.KindOf(f.id).ElementNode? && Plain(env.KindOf(f.id).el)
    ensures TextOfFrame(env, st, f, below) == (if Trim(f.acc) == [] then "" else f.acc, st)
  {
    NothingUsable(env.KindOf(f.id).el);
  }

  lemma PlainStep(env: Env, st: State, id: Node, entry: Entry, full: bool)
    requires env.InfoOf(id).Some? && env.KindOf(id).ElementNode? && Plain(env.KindOf(id).el) && id != env.root
    ensures Step(env, st, id, entry, full, LabelledBy) ==
            (if env.KidsOf(id) == [] then Done("") else Push(Content(id, 0, "", full, false, entry)), st)
  {
    NothingUsable(env.KindOf(id).el);
  }

  lemma ReadOne(st: State, n: Node)
    requires CanSpend(st)
    ensures AfterReading(st, [n]) == Read(st, n) == Spent(st.(visited := st.visited + {n}))
  {
    assert (set m | m in [n]) == {n};
  }

  /** What a node turns out to say is fed to the frame that entered it. */
  lemma EvalIsFed(env: Env, st: State, f: Frame, below: nat)
    requires Resumable(f) && Advance(env, st, f).0.NextEnter?
    ensures var (next, f1, st1) := Advance(env, st, f);
            var (e, st2) := Enter(env, st1, next.id, next.entry, next.hiddenOk);
            && (e.Push? ==> Resumable(e.frame))
            && var (text, st3) := TextOfEval(env, st2, e, below + 1);
               Resumable(Feed(f1, text))
               && TextOfFrame(env, st, f, below) == TextOfFrame(env, st3, Feed(f1, text), below)
  {
    var (next, f1, st1) := Advance(env, st, f);
    EnterWork(env, st1, next.id, next.entry, next.hiddenOk);
  }

  /** The machine, entering a piece with a state, gives a text and leaves another state. */
  ghost predicate Gives(env: Env, st: State, n: Node, entry: Entry, full: bool, below: nat, text: string, st': State) {
    var (e, st1) := Enter(env, st, n, entry, full);
    (e.Push? ==> Resumable(e.frame)) && TextOfEval(env, st1, e, below) == (text, st')
  }

  lemma LeafIsRead(env: Env, st: State, s: Shape, entry: Entry, full: bool, below: nat)
    requires Fits(env, s, full) && IsLeaf(env, s.id, full) && Room(st, [s.id])
    ensures Gives(env, st.(visited := st.visited + {s.id}), s.id, entry, full, below,
                  TextIn(env, s, full), AfterReading(st, [s.id]))
  {
    ReadOne(st, s.id);
  }

  lemma {:induction false} PieceIsRead(env: Env, st: State, s: Shape, entry: Entry, full: bool, below: nat)
    requires Fits(env, s, full) && Room(st, Reached(env, s, full)) && below + Levels(env, s, full) <= MAX_FRAMES
    ensures Gives(env, st.(visited := st.visited + {s.id}), s.id, entry, full, below,
                  TextIn(env, s, full), AfterReading(st, Reached(env, s, full)))
    decreases s, 1
  {
    if IsLeaf(env, s.id, full) {
      LeafIsRead(env, st, s, entry, full, below);
    } else {
      var rest := ReachedAll(env, s.kids, full);
      RoomSplits(st, [s.id], rest);
      ReadOne(st, s.id);
      PlainStep(env, Read(st, s.id), s.id, entry, full);
      if s.kids != [] {
        var f := Content(s.id, 0, "", full, false, entry);
        assert env.KidsOf(s.id)[0..] == Ids(s.kids);
        PiecesAreRead(env, Read(st, s.id), f, s.kids, below);
        PlainFrameEnds(env, AfterReading(st, [s.id] + rest),
                       f.(pos := |s.kids|, acc := TextOfAll(env, "", s.kids, full)), below);
      } else {
        assert Trim("") == "" && [s.id] + rest == [s.id];
      }
    }
  }

  lemma PieceIsFed(env: Env, st: State, f: Frame, below: nat, text: string, st': State)
    requires f.Content? && !f.pending && f.pos < |env.KidsOf(f.id)| && env.KidsOf(f.id)[f.pos] !in st.visited
    requires var n := env.KidsOf(f.id)[f.pos];
             Gives(env, st.(visited := st.visited + {n}), n, Child, f.hiddenOk, below + 1, text, st')
    ensures var n := env.KidsOf(f.id)[f.pos];
            TextOfFrame(env, st, f, below) ==
            TextOfFrame(env, st', f.(pos := f.pos + 1, acc := Joined(f.acc, text, env.IsBlock(n))), below)
  {
    ChildIsFed(env, st, f, text);
    EvalIsFed(env, st, f, below);
  }

  lemma NextKid(kids: seq<Node>, pos: nat, ss: seq<Shape>)
    requires pos <= |kids| && kids[pos..] == Ids(ss) && ss != []
    ensures pos < |kids| && kids[pos] == ss[0].id && kids[pos + 1..] == Ids(ss[1..])
  {
    assert |Ids(ss)| == |kids| - pos && Ids(ss)[0] == kids[pos..][0];
    forall i | 0 <= i < |ss| - 1 ensures kids[pos + 1..][i] == Ids(ss[1..])[i] {
      assert kids[pos..][i + 1] == Ids(ss)[i + 1];
    }
  }

  lemma {:induction false} PiecesAreRead(env: Env, st: State, f: Frame, ss: seq<Shape>, below: nat)
    requires f.Content? && !f.pending && f.pos <= |env.KidsOf(f.id)| && env.KidsOf(f.id)[f.pos..] == Ids(ss)
    requires FitAll(env, ss, f.hiddenOk)
    requires Room(st, ReachedAll(env, ss, f.hiddenOk)) && below + 1 + LevelsOfAll(env, ss, f.hiddenOk) <= MAX_FRAMES
    ensures var done := f.(pos := |env.KidsOf(f.id)|, acc := TextOfAll(env, f.acc, ss, f.hiddenOk));
            TextOfFrame(env, st, f, below) ==
            TextOfFrame(env, AfterReading(st, ReachedAll(env, ss, f.hiddenOk)), done, below)
    decreases ss, 0
  {
    var full := f.hiddenOk;
    if ss == [] {
      assert |Ids(ss)| == 0 && AfterReading(st, []) == st;
    } else {
      var s := ss[0];
      NextKid(env.KidsOf(f.id), f.pos, ss);
      var text, here, rest := TextIn(env, s, full), Reached(env, s, full), ReachedAll(env, ss[1..], full);
      RoomSplits(st, here, rest);
      assert here[0] in here;
      PieceIsRead(env, st, s, Child, full, below + 1);
      PieceIsFed(env, st, f, below, text, AfterReading(st, here));
      var g := f.(pos := f.pos + 1, acc := Joined(f.acc, text, env.IsBlock(s.id)));
      PiecesAreRead(env, AfterReading(st, here), g, ss[1..], below);
    }
  }

  // ---- names ----

  /** The visible text under a root named from content is its name. */
  lemma VisibleTextNames(env: Env, el: Element, ss: seq<Shape>, budget: nat)
    requires RootElement(env, el) && Unlabelled(el) && NoCandidate(el) && el.fromContents && !el.br
    requires env.KidsOf(env.root) == Ids(ss) && ss != [] && FitAll(env, ss, false)
    requires budget > 0 && Room(Spent(Start(env, budget)), ReachedAll(env, ss, false))
    requires 1 + LevelsOfAll(env, ss, false) <= MAX_FRAMES && Trim(TextOfAll(env, "", ss, false)) != []
    ensures NameOf(env, budget).0 == TextOfAll(env, "", ss, false)
    ensures NameOf(env, budget).1.src == FromContent
    ensures NameOf(env, budget).1.budget == budget - 1 - |ReachedAll(env, ss, false)|
  {
    NameIsStepped(env, el, budget);
    NothingUsable(el);
    var st, f := Spent(Start(env, budget)), Content(env.root, 0, "", false, false, Root);
    assert |Ids(ss)| > 0;
    assert Step(env, st, env.root, Root, false, LabelledBy) == (Push(f), st);
    assert env.KidsOf(env.root)[0..] == Ids(ss);
    PiecesAreRead(env, st, f, ss, 0);
    ReadContentEnds(env, AfterReading(st, ReachedAll(env, ss, false)),
                    f.(pos := |env.KidsOf(env.root)|, acc := TextOfAll(env, "", ss, false)), 0);
  }

  /** Below a reference to a hidden element everything is read, hidden or not. */
  lemma LabelIsReadInFull(env: Env, el: Element, s: Shape, budget: nat)
    requires RootElement(env, el) && el.labelledBy == [s.id] && Fits(env, s, env.Unreadable(s.id))
    requires budget > 0 && Room(Spent(Start(env, budget)), Reached(env, s, env.Unreadable(s.id)))
    requires 1 + Levels(env, s, env.Unreadable(s.id)) <= MAX_FRAMES
    requires Trim(PushFlat("", TextIn(env, s, env.Unreadable(s.id)), ACC_CAP)) != []
    ensures NameOf(env, budget).0 == Trim(PushFlat("", TextIn(env, s, env.Unreadable(s.id)), ACC_CAP))
    ensures NameOf(env, budget).1.src == Author
  {
    NameIsStepped(env, el, budget);
    var full, st := env.Unreadable(s.id), Spent(Start(env, budget)).(inRef := true);
    var f := RefsFor(Owner(env.root, Root, false), el.labelledBy, AriaLabel, Author, true);
    assert Step(env, Spent(Start(env, budget)), env.root, Root, false, LabelledBy) == (Push(f), st);
    PieceIsRead(env, st, s, RefRoot, full, 1);
    EvalIsFed(env, st, f, 0);
    var text := TextIn(env, s, full);
    ReadFrameEnds(env, AfterReading(st, Reached(env, s, full)), f.(i := 1, acc := PushFlat("", text, ACC_CAP)), 0);
  }
}
