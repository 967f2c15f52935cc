/**
  Dictionaries that hold themselves inline (crates/px-bindings/src/resolve.rs).
 */
module IdlCycles {
  import opened Common
  import opened IdlTypes
  import opened IdlModel

  /** A type holds a dictionary inline: it is that dictionary, or a union with a member that does. */
  ghost predicate HoldsInline(t: RType, n: string)
    decreases t
  {
    if t.kind.Union? then exists i :: 0 <= i < |t.kind.members| && HoldsInline(t.kind.members[i], n)
    else t.kind == Dictionary(n)
  }

  ghost predicate DependsOn(d: Dict, n: string) {
    d.parent == Some(n) || exists i :: 0 <= i < |d.members| && HoldsInline(d.members[i].ty, n)
  }

  ghost predicate Edge(m: Model, a: string, b: string) {
    m.GetDict(a).Some? && m.GetDict(b).Some? && DependsOn(m.GetDict(a).value, b)
  }

  ghost predicate EdgeAt(m: Model, p: seq<string>, i: nat)
    requires i + 1 < |p|
  {
    Edge(m, p[i], p[i + 1])
  }

  ghost predicate IsPath(m: Model, p: seq<string>) {
    forall i {:trigger EdgeAt(m, p, i)} :: 0 <= i < |p| - 1 ==> EdgeAt(m, p, i)
  }

  ghost predicate IsCycle(m: Model, p: seq<string>) {
    |p| >= 2 && IsPath(m, p) && p[0] == p[|p| - 1]
  }

  ghost predicate HasCycle(m: Model) {
    exists p :: IsCycle(m, p)
  }

  // ---- the names a dictionary depends on ----

  ghost predicate AnyHolds(ts: seq<RType>, n: string) {
    exists i :: 0 <= i < |ts| && HoldsInline(ts[i], n)
  }

  lemma AnyHoldsAppend(a: seq<RType>, b: seq<RType>, n: string)
    ensures AnyHolds(a + b, n) <==> AnyHolds(a, n) || AnyHolds(b, n)
  {
    if i :| 0 <= i < |a| && HoldsInline(a[i], n) { assert HoldsInline((a + b)[i], n); }
    if i :| 0 <= i < |b| && HoldsInline(b[i], n) { assert HoldsInline((a + b)[|a| + i], n); }
  }

  method InlineNames(t: RType) returns (out: seq<string>)
    ensures forall n :: n in out <==> HoldsInline(t, n)
  {
    out := [];
    var stack := [t];
    while stack != []
      invariant forall n :: HoldsInline(t, n) <==> n in out || AnyHolds(stack, n)
      decreases Sizes(stack)
    {
      var x := stack[|stack| - 1];
      ghost var whole := stack;
      stack := stack[..|stack| - 1];
      assert whole == stack + [x];
      SizesAppend(stack, [x]);
      ghost var added := if x.kind.Union? then x.kind.members else [];
      SizesAppend(stack, added);
      forall n ensures AnyHolds(whole, n) <==> AnyHolds(stack + added, n) || x.kind == Dictionary(n) {
        AnyHoldsAppend(stack, [x], n);
        AnyHoldsAppend(stack, added, n);
        assert AnyHolds([x], n) <==> HoldsInline(x, n) by {
          if HoldsInline(x, n) { assert HoldsInline([x][0], n); }
        }
      }
      if x.kind.Union? {
        stack := stack + x.kind.members;
      } else {
        assert stack + added == stack;
        if x.kind.Dictionary? { out := out + [x.kind.name]; }
      }
    }
  }

  method InlineDeps(d: Dict) returns (out: seq<string>)
    ensures forall n :: n in out <==> DependsOn(d, n)
  {
    out := if d.parent.Some? then [d.parent.value] else [];
    for k := 0 to |d.members|
      invariant forall n :: n in out <==>
        d.parent == Some(n) || exists i :: 0 <= i < k && HoldsInline(d.members[i].ty, n)
    {
      var more := InlineNames(d.members[k].ty);
      out := out + more;
    }
  }

  // ---- the depth-first search ----

  datatype Colour = OnStack | Done

  datatype Frame = Frame(d: Dict, deps: seq<string>, i: nat)

  /** One frame: a dictionary of the model with its dependencies, some of them looked at. */
  ghost predicate GoodFrame(m: Model, f: Frame) {
    && m.GetDict(f.d.name) == Some(f.d) && f.i <= |f.deps|
    && forall n :: n in f.deps <==> DependsOn(f.d, n)
  }

  ghost predicate Linked(stack: seq<Frame>, k: nat)
    requires k + 1 < |stack|
  {
    0 < stack[k].i <= |stack[k].deps| && stack[k].deps[stack[k].i - 1] == stack[k + 1].d.name
  }

  ghost predicate Stacked(stack: seq<Frame>, n: string) {
    exists k :: 0 <= k < |stack| && stack[k].d.name == n
  }

  /** The stack is a path of distinct dictionaries, exactly the ones coloured `OnStack`. */
  ghost predicate StackOk(m: Model, colour: map<string, Colour>, stack: seq<Frame>) {
    && (forall k :: 0 <= k < |stack| ==> GoodFrame(m, stack[k]))
    && (forall k {:trigger Linked(stack, k)} :: 0 <= k < |stack| - 1 ==> Linked(stack, k))
    && (forall k, l :: 0 <= k < l < |stack| ==> stack[k].d.name != stack[l].d.name)
    && (forall n :: n in colour && colour[n] == OnStack <==> Stacked(stack, n))
  }

  /** `n` names no dictionary, or one finished already. */
  ghost predicate Settled(m: Model, finished: seq<string>, n: string) {
    m.GetDict(n).None? || n in finished
  }

  /** Finished dictionaries depend only on dictionaries finished before them. */
  ghost predicate Ordered(m: Model, finished: seq<string>) {
    forall k, n :: 0 <= k < |finished| && Edge(m, finished[k], n) ==> n in finished[..k]
  }

  /** The dependencies of a frame that were looked at are settled, except the one the next frame is for. */
  ghost predicate LookedAt(m: Model, finished: seq<string>, stack: seq<Frame>, k: nat)
    requires k < |stack|
  {
    forall j :: 0 <= j < stack[k].i && j < |stack[k].deps| ==>
      Settled(m, finished, stack[k].deps[j]) || (k + 1 < |stack| && j == stack[k].i - 1)
  }

  ghost predicate DoneOk(m: Model, colour: map<string, Colour>, finished: seq<string>) {
    && Unrepeated(finished)
    && (forall n :: n in colour && colour[n] == Done <==> n in finished)
    && (forall n :: n in colour ==> m.GetDict(n).Some?)
  }

  ghost function Uncoloured(m: Model, colour: map<string, Colour>): set<string> {
    set i | 0 <= i < |m.dictionaries| && m.dictionaries[i].name !in colour :: m.dictionaries[i].name
  }

  ghost predicate AllLookedAt(m: Model, finished: seq<string>, stack: seq<Frame>) {
    forall k :: 0 <= k < |stack| ==> LookedAt(m, finished, stack, k)
  }

  /** What holds before and after every step of the search. */
  ghost predicate Inv(m: Model, colour: map<string, Colour>, stack: seq<Frame>, finished: seq<string>, clean: bool) {
    && StackOk(m, colour, stack)
    && DoneOk(m, colour, finished)
    && (clean ==> Ordered(m, finished))
    && (clean ==> AllLookedAt(m, finished, stack))
  }

  /** The dependency of `a` on `b` is the last step of a cycle. */
  ghost predicate ClosesCycle(m: Model, a: string, b: string) {
    exists p :: IsCycle(m, p) && p[|p| - 2] == a && p[|p| - 1] == b
  }

  lemma StackEdge(m: Model, colour: map<string, Colour>, stack: seq<Frame>, k: nat)
    requires StackOk(m, colour, stack) && k + 1 < |stack|
    ensures Edge(m, stack[k].d.name, stack[k + 1].d.name)
  {
    assert GoodFrame(m, stack[k]) && GoodFrame(m, stack[k + 1]) && Linked(stack, k);
  }

  ghost function NamesFrom(stack: seq<Frame>, k: nat): (p: seq<string>)
    requires k <= |stack|
    ensures |p| == |stack| - k
  {
    seq(|stack| - k, i requires 0 <= i < |stack| - k => stack[k + i].d.name)
  }

  lemma StackIsPath(m: Model, colour: map<string, Colour>, stack: seq<Frame>, k: nat)
    requires StackOk(m, colour, stack) && k <= |stack|
    ensures IsPath(m, NamesFrom(stack, k))
  {
    var p := NamesFrom(stack, k);
    forall i | 0 <= i < |p| - 1 ensures EdgeAt(m, p, i) {
      StackEdge(m, colour, stack, k + i);
    }
  }

  lemma CloseCycle(m: Model, p: seq<string>, n: string)
    requires |p| >= 1 && IsPath(m, p) && p[0] == n && Edge(m, p[|p| - 1], n)
    ensures ClosesCycle(m, p[|p| - 1], n)
  {
    var q := p + [n];
    forall i | 0 <= i < |q| - 1 ensures EdgeAt(m, q, i) {
      if i < |p| - 1 { assert EdgeAt(m, p, i); }
    }
    assert IsCycle(m, q) && q[|q| - 2] == p[|p| - 1];
  }

  /** A dependency that is on the stack closes a cycle. */
  lemma BackEdgeIsCycle(m: Model, colour: map<string, Colour>, stack: seq<Frame>, n: string)
    requires StackOk(m, colour, stack) && stack != []
    requires n in colour && colour[n] == OnStack && DependsOn(stack[|stack| - 1].d, n)
    ensures ClosesCycle(m, stack[|stack| - 1].d.name, n)
  {
    assert Stacked(stack, n);
    var k :| 0 <= k < |stack| && stack[k].d.name == n;
    StackIsPath(m, colour, stack, k);
    assert GoodFrame(m, stack[|stack| - 1]) && GoodFrame(m, stack[k]);
    CloseCycle(m, NamesFrom(stack, k), n);
  }

  /** Along a path of finished dictionaries the finishing position falls. */
  lemma {:induction false} PathFalls(m: Model, finished: seq<string>, p: seq<string>, at: nat)
    requires Ordered(m, finished) && IsPath(m, p) && |p| >= 1
    requires at < |finished| && finished[at] == p[0]
    ensures |p| >= 2 ==> p[|p| - 1] in finished[..at]
    ensures |p| == 1 ==> p[0] == finished[at]
    decreases |p|
  {
    if |p| >= 2 {
      assert EdgeAt(m, p, 0);
      assert p[1] in finished[..at];
      var j :| 0 <= j < at && finished[j] == p[1];
      var q := p[1..];
      forall i | 0 <= i < |q| - 1 ensures EdgeAt(m, q, i) { assert EdgeAt(m, p, i + 1); }
      PathFalls(m, finished, q, j);
    }
  }

  lemma OrderedMeansNoCycle(m: Model, finished: seq<string>)
    requires Ordered(m, finished)
    requires forall n :: m.GetDict(n).Some? ==> n in finished
    requires Unrepeated(finished)
    ensures !HasCycle(m)
  {
    if p :| IsCycle(m, p) {
      assert EdgeAt(m, p, 0);
      var at :| 0 <= at < |finished| && finished[at] == p[0];
      PathFalls(m, finished, p, at);
      assert false;
    }
  }

  /** The stack with one more dependency of its top frame looked at. */
  ghost function Advanced(stack: seq<Frame>): seq<Frame>
    requires stack != []
  {
    stack[|stack| - 1 := stack[|stack| - 1].(i := stack[|stack| - 1].i + 1)]
  }

  lemma StackAdvances(m: Model, colour: map<string, Colour>, stack: seq<Frame>)
    requires StackOk(m, colour, stack) && stack != []
    requires stack[|stack| - 1].i < |stack[|stack| - 1].deps|
    ensures StackOk(m, colour, Advanced(stack))
  {
    var next := Advanced(stack);
    forall k | 0 <= k < |next| ensures GoodFrame(m, next[k]) { assert GoodFrame(m, stack[k]); }
    forall k | 0 <= k < |next| - 1 ensures Linked(next, k) { assert Linked(stack, k); }
    forall n ensures Stacked(next, n) <==> Stacked(stack, n) {
      if k :| 0 <= k < |stack| && stack[k].d.name == n { assert next[k].d.name == n; }
    }
  }

  /** Looking at one more dependency of the top frame, without entering it. */
  lemma Advance(m: Model, colour: map<string, Colour>, stack: seq<Frame>, finished: seq<string>, clean: bool)
    requires Inv(m, colour, stack, finished, clean) && stack != []
    requires var f := stack[|stack| - 1]; f.i < |f.deps| && (clean ==> Settled(m, finished, f.deps[f.i]))
    ensures Inv(m, colour, Advanced(stack), finished, clean)
  {
    StackAdvances(m, colour, stack);
    if clean {
      forall k | 0 <= k < |stack| ensures LookedAt(m, finished, Advanced(stack), k) {
        assert LookedAt(m, finished, stack, k);
      }
    }
  }

  /** Entering an uncoloured dictionary, as a new root or as the dependency just looked at. */
  lemma Enter(m: Model, colour: map<string, Colour>, stack: seq<Frame>, finished: seq<string>, clean: bool, f: Frame)
    requires StackOk(m, colour, stack) && DoneOk(m, colour, finished) && (clean ==> Ordered(m, finished))
    requires GoodFrame(m, f) && f.i == 0 && f.d.name !in colour
    requires stack != [] ==> Linked(stack + [f], |stack| - 1)
    requires clean ==> AllLookedAt(m, finished, stack + [f])
    ensures Inv(m, colour[f.d.name := OnStack], stack + [f], finished, clean)
  {
    var next := stack + [f];
    forall k | 0 <= k < |next| - 1 ensures Linked(next, k) {
      if k < |stack| - 1 { assert Linked(stack, k); }
    }
    forall n ensures Stacked(next, n) <==> n == f.d.name || Stacked(stack, n) {
      assert next[|stack|] == f;
      if k :| 0 <= k < |stack| && stack[k].d.name == n { assert next[k].d.name == n; }
    }
  }

  lemma StackLeaves(m: Model, colour: map<string, Colour>, stack: seq<Frame>)
    requires StackOk(m, colour, stack) && stack != []
    ensures StackOk(m, colour[stack[|stack| - 1].d.name := Done], stack[..|stack| - 1])
  {
    var top := |stack| - 1;
    var f, rest := stack[top], stack[..top];
    forall k | 0 <= k < |rest| - 1 ensures Linked(rest, k) { assert Linked(stack, k); }
    forall n ensures Stacked(rest, n) <==> n != f.d.name && Stacked(stack, n) {
      if n != f.d.name {
        if k :| 0 <= k < |stack| && stack[k].d.name == n { assert rest[k].d.name == n; }
      }
      if k :| 0 <= k < |rest| && rest[k].d.name == n { assert stack[k].d.name == n; }
    }
  }

  lemma OrderGrows(m: Model, finished: seq<string>, f: Frame)
    requires Ordered(m, finished) && GoodFrame(m, f)
    requires forall j :: 0 <= j < |f.deps| ==> Settled(m, finished, f.deps[j])
    ensures Ordered(m, finished + [f.d.name])
  {
    var now := finished + [f.d.name];
    forall k, n | 0 <= k < |now| && Edge(m, now[k], n) ensures n in now[..k] {
      if k < |finished| {
        assert now[..k] == finished[..k];
      } else {
        assert now[..k] == finished;
        var j :| 0 <= j < |f.deps| && f.deps[j] == n;
      }
    }
  }

  lemma LookedAtAfterLeaving(m: Model, finished: seq<string>, stack: seq<Frame>)
    requires stack != [] && AllLookedAt(m, finished, stack)
    requires forall k {:trigger Linked(stack, k)} :: 0 <= k < |stack| - 1 ==> Linked(stack, k)
    ensures AllLookedAt(m, finished + [stack[|stack| - 1].d.name], stack[..|stack| - 1])
  {
    var top := |stack| - 1;
    forall k | 0 <= k < top ensures LookedAt(m, finished + [stack[top].d.name], stack[..top], k) {
      assert LookedAt(m, finished, stack, k);
      assert Linked(stack, k);
    }
  }

  /** Leaving a dictionary all of whose dependencies were looked at. */
  lemma Leave(m: Model, colour: map<string, Colour>, stack: seq<Frame>, finished: seq<string>, clean: bool)
    requires Inv(m, colour, stack, finished, clean) && stack != []
    requires stack[|stack| - 1].i == |stack[|stack| - 1].deps|
    ensures var d := stack[|stack| - 1].d;
            Inv(m, colour[d.name := Done], stack[..|stack| - 1], finished + [d.name], clean)
  {
    var top := |stack| - 1;
    assert Stacked(stack, stack[top].d.name);
    StackLeaves(m, colour, stack);
    if clean {
      assert LookedAt(m, finished, stack, top);
      OrderGrows(m, finished, stack[top]);
      LookedAtAfterLeaving(m, finished, stack);
    }
  }

  lemma UncolouredShrinks(m: Model, colour: map<string, Colour>, n: string, c: Colour)
    requires m.WellIndexed() && m.GetDict(n).Some?
    ensures Uncoloured(m, colour[n := c]) == Uncoloured(m, colour) - {n}
    ensures n !in colour ==> n in Uncoloured(m, colour)
  {
  }

  lemma AdvanceAndEnter(m: Model, colour: map<string, Colour>, stack: seq<Frame>, finished: seq<string>, clean: bool,
                        g: Frame)
    requires Inv(m, colour, stack, finished, clean) && stack != []
    requires var f := stack[|stack| - 1]; f.i < |f.deps| && f.deps[f.i] == g.d.name
    requires GoodFrame(m, g) && g.i == 0 && g.d.name !in colour
    ensures Inv(m, colour[g.d.name := OnStack], Advanced(stack) + [g], finished, clean)
  {
    var top := |stack| - 1;
    var next := Advanced(stack);
    StackAdvances(m, colour, stack);
    assert Linked(next + [g], top);
    if clean {
      forall k | 0 <= k < |next + [g]| ensures LookedAt(m, finished, next + [g], k) {
        if k < |stack| { assert LookedAt(m, finished, stack, k); }
      }
    }
    Enter(m, colour, next, finished, clean, g);
  }

  ghost function Remaining(stack: seq<Frame>): int {
    if stack == [] then 0 else |stack[|stack| - 1].deps| - stack[|stack| - 1].i
  }

  datatype Search = Search(colour: map<string, Colour>, stack: seq<Frame>, errors: seq<(string, string)>)

  ghost predicate SearchOk(m: Model, s: Search, finished: seq<string>) {
    && Inv(m, s.colour, s.stack, finished, s.errors == [])
    && forall e :: e in s.errors ==> ClosesCycle(m, e.0, e.1)
  }

  /** A turn colours a dictionary, or pops a frame, or looks at one more dependency. */
  ghost predicate Progress(m: Model, s: Search, t: Search) {
    && s.colour.Keys <= t.colour.Keys
    && (Uncoloured(m, t.colour) < Uncoloured(m, s.colour) ||
        (Uncoloured(m, t.colour) == Uncoloured(m, s.colour) &&
         (|t.stack| < |s.stack| || (|t.stack| == |s.stack| && 0 <= Remaining(t.stack) < Remaining(s.stack)))))
  }

  ghost predicate CanTurn(m: Model, s: Search, finished: seq<string>) {
    m.WellIndexed() && SearchOk(m, s, finished) && s.stack != []
  }

  lemma TurnLeaves(m: Model, s: Search, finished: seq<string>, f: Frame, t: Search)
    requires CanTurn(m, s, finished) && f == s.stack[|s.stack| - 1] && f.i == |f.deps|
    requires t == Search(s.colour[f.d.name := Done], s.stack[..|s.stack| - 1], s.errors)
    ensures SearchOk(m, t, finished + [f.d.name]) && Progress(m, s, t)
  {
    Leave(m, s.colour, s.stack, finished, s.errors == []);
    assert GoodFrame(m, f) && Stacked(s.stack, f.d.name);
    UncolouredShrinks(m, s.colour, f.d.name, Done);
  }

  lemma TurnReports(m: Model, s: Search, finished: seq<string>, f: Frame, t: Search)
    requires CanTurn(m, s, finished) && f == s.stack[|s.stack| - 1] && f.i < |f.deps|
    requires f.deps[f.i] in s.colour && s.colour[f.deps[f.i]] == OnStack
    requires t == Search(s.colour, Advanced(s.stack), s.errors + [(f.d.name, f.deps[f.i])])
    ensures SearchOk(m, t, finished) && Progress(m, s, t)
  {
    assert GoodFrame(m, f);
    BackEdgeIsCycle(m, s.colour, s.stack, f.deps[f.i]);
    Advance(m, s.colour, s.stack, finished, false);
  }

  lemma TurnSkips(m: Model, s: Search, finished: seq<string>, f: Frame, t: Search)
    requires CanTurn(m, s, finished) && f == s.stack[|s.stack| - 1] && f.i < |f.deps|
    requires if f.deps[f.i] in s.colour then s.colour[f.deps[f.i]] == Done else m.GetDict(f.deps[f.i]).None?
    requires t == Search(s.colour, Advanced(s.stack), s.errors)
    ensures SearchOk(m, t, finished) && Progress(m, s, t)
  {
    Advance(m, s.colour, s.stack, finished, s.errors == []);
  }

  lemma TurnEnters(m: Model, s: Search, finished: seq<string>, f: Frame, g: Frame, t: Search)
    requires CanTurn(m, s, finished) && f == s.stack[|s.stack| - 1] && f.i < |f.deps|
    requires GoodFrame(m, g) && g.i == 0 && g.d.name == f.deps[f.i] && g.d.name !in s.colour
    requires t == Search(s.colour[g.d.name := OnStack], Advanced(s.stack) + [g], s.errors)
    ensures SearchOk(m, t, finished) && Progress(m, s, t)
  {
    AdvanceAndEnter(m, s.colour, s.stack, finished, s.errors == [], g);
    UncolouredShrinks(m, s.colour, g.d.name, OnStack);
  }

  /** One turn of the search loop: the top frame leaves, reports, skips or enters. */
  method Turn(m: Model, s: Search, ghost finished: seq<string>) returns (t: Search, ghost finished': seq<string>)
    requires CanTurn(m, s, finished)
    ensures SearchOk(m, t, finished') && Progress(m, s, t)
  {
    var top := |s.stack| - 1;
    var f := s.stack[top];
    assert GoodFrame(m, f);
    if f.i == |f.deps| {
      t, finished' := Search(s.colour[f.d.name := Done], s.stack[..top], s.errors), finished + [f.d.name];
      TurnLeaves(m, s, finished, f, t);
      return;
    }
    finished' := finished;
    var n := f.deps[f.i];
    var onward := s.stack[top := f.(i := f.i + 1)];
    if n in s.colour {
      if s.colour[n] == OnStack {
        t := Search(s.colour, onward, s.errors + [(f.d.name, n)]);
        TurnReports(m, s, finished, f, t);
      } else {
        t := Search(s.colour, onward, s.errors);
        TurnSkips(m, s, finished, f, t);
      }
    } else {
      var nd := m.GetDict(n);
      if nd.None? {
        t := Search(s.colour, onward, s.errors);
        TurnSkips(m, s, finished, f, t);
      } else {
        var more := InlineDeps(nd.value);
        var g := Frame(nd.value, more, 0);
        t := Search(s.colour[n := OnStack], onward + [g], s.errors);
        TurnEnters(m, s, finished, f, g, t);
      }
    }
  }

  /** The search from one root. */
  method Visit(m: Model, root: Dict, s0: Search, ghost finished0: seq<string>)
    returns (s: Search, ghost finished: seq<string>)
    requires m.WellIndexed() && m.GetDict(root.name) == Some(root) && root.name !in s0.colour
    requires SearchOk(m, s0, finished0) && s0.stack == []
    ensures SearchOk(m, s, finished) && s.stack == []
    ensures s0.colour.Keys + {root.name} <= s.colour.Keys
  {
    var deps := InlineDeps(root);
    var first := Frame(root, deps, 0);
    Enter(m, s0.colour, [], finished0, s0.errors == [], first);
    s, finished := Search(s0.colour[root.name := OnStack], [] + [first], s0.errors), finished0;
    while s.stack != []
      invariant SearchOk(m, s, finished)
      invariant s0.colour.Keys + {root.name} <= s.colour.Keys
      decreases Uncoloured(m, s.colour), |s.stack|, Remaining(s.stack)
    {
      s, finished := Turn(m, s, finished);
    }
  }

  // ---- what a cycle is: a dictionary that no finite size fits ----

  /** The units a type takes where it is held: those of a dictionary or of every union member, one for a reference. */
  ghost function Units(m: Model, t: RType, size: map<string, nat>): nat
    decreases t, 1
  {
    if t.kind.Union? then 1 + UnitsOfAll(m, t.kind.members, size)
    else if t.kind.Dictionary? && m.GetDict(t.kind.name).Some? && t.kind.name in size then size[t.kind.name]
    else 1
  }

  ghost function UnitsOfAll(m: Model, ts: seq<RType>, size: map<string, nat>): nat
    decreases ts, 0
  {
    if ts == [] then 0 else Units(m, ts[0], size) + UnitsOfAll(m, ts[1..], size)
  }

  ghost function UnitsOfMembers(m: Model, ms: seq<DictMember>, size: map<string, nat>): nat {
    if ms == [] then 0 else Units(m, ms[0].ty, size) + UnitsOfMembers(m, ms[1..], size)
  }

  /** A dictionary takes one unit, those of its parent and those of its members. */
  ghost function UnitsOfDict(m: Model, d: Dict, size: map<string, nat>): nat {
    1 + UnitsOfMembers(m, d.members, size)
    + (if d.parent.Some? && m.GetDict(d.parent.value).Some? && d.parent.value in size then size[d.parent.value] else 0)
  }

  ghost predicate Fits(m: Model, size: map<string, nat>, n: string) {
    m.GetDict(n).Some? ==> n in size && size[n] == UnitsOfDict(m, m.GetDict(n).value, size)
  }

  ghost predicate IsLayout(m: Model, size: map<string, nat>) {
    forall n :: Fits(m, size, n)
  }

  /** Every dictionary of the model has a finite size. */
  ghost predicate HasLayout(m: Model) {
    exists size :: IsLayout(m, size)
  }

  lemma {:induction false} AllTakeMore(m: Model, ts: seq<RType>, size: map<string, nat>, i: nat)
    requires i < |ts|
    ensures Units(m, ts[i], size) <= UnitsOfAll(m, ts, size)
    decreases |ts|
  {
    if i > 0 { AllTakeMore(m, ts[1..], size, i - 1); }
  }

  lemma {:induction false} MembersTakeMore(m: Model, ms: seq<DictMember>, size: map<string, nat>, i: nat)
    requires i < |ms|
    ensures Units(m, ms[i].ty, size) <= UnitsOfMembers(m, ms, size)
    decreases |ms|
  {
    if i > 0 { MembersTakeMore(m, ms[1..], size, i - 1); }
  }

  lemma {:induction false} HeldFits(m: Model, t: RType, n: string, size: map<string, nat>)
    requires HoldsInline(t, n) && m.GetDict(n).Some? && n in size
    ensures size[n] <= Units(m, t, size)
    decreases t
  {
    if t.kind.Union? {
      var i :| 0 <= i < |t.kind.members| && HoldsInline(t.kind.members[i], n);
      HeldFits(m, t.kind.members[i], n, size);
      AllTakeMore(m, t.kind.members, size, i);
    }
  }

  lemma EdgeShrinks(m: Model, size: map<string, nat>, a: string, b: string)
    requires IsLayout(m, size) && Edge(m, a, b)
    ensures a in size && b in size && size[b] < size[a]
  {
    assert Fits(m, size, a) && Fits(m, size, b);
    var d := m.GetDict(a).value;
    if d.parent != Some(b) {
      var i :| 0 <= i < |d.members| && HoldsInline(d.members[i].ty, b);
      HeldFits(m, d.members[i].ty, b, size);
      MembersTakeMore(m, d.members, size, i);
    }
  }

  lemma {:induction false} PathShrinks(m: Model, size: map<string, nat>, p: seq<string>)
    requires IsLayout(m, size) && IsPath(m, p) && |p| >= 2
    ensures p[0] in size && p[|p| - 1] in size && size[p[|p| - 1]] < size[p[0]]
    decreases |p|
  {
    assert EdgeAt(m, p, 0);
    EdgeShrinks(m, size, p[0], p[1]);
    if |p| > 2 {
      var q := p[1..];
      forall i | 0 <= i < |q| - 1 ensures EdgeAt(m, q, i) { assert EdgeAt(m, p, i + 1); }
      PathShrinks(m, size, q);
    }
  }

  /** With finite sizes no dictionary holds itself. */
  lemma LayoutMeansNoCycle(m: Model)
    requires HasLayout(m)
    ensures !HasCycle(m)
  {
    var size :| IsLayout(m, size);
    forall p | |p| >= 2 && IsPath(m, p) ensures p[0] != p[|p| - 1] { PathShrinks(m, size, p); }
  }

  /** Two size maps agree on a dictionary. */
  ghost predicate Agree(m: Model, a: map<string, nat>, b: map<string, nat>, n: string) {
    m.GetDict(n).Some? ==> n in a && n in b && a[n] == b[n]
  }

  lemma {:induction false} UnitsAgree(m: Model, t: RType, a: map<string, nat>, b: map<string, nat>)
    requires forall n :: HoldsInline(t, n) ==> Agree(m, a, b, n)
    ensures Units(m, t, a) == Units(m, t, b)
    decreases t, 1
  {
    if t.kind.Union? {
      forall n | AnyHolds(t.kind.members, n) ensures Agree(m, a, b, n) { assert HoldsInline(t, n); }
      AllUnitsAgree(m, t.kind.members, a, b);
    } else if t.kind.Dictionary? {
      assert HoldsInline(t, t.kind.name);
    }
  }

  lemma {:induction false} AllUnitsAgree(m: Model, ts: seq<RType>, a: map<string, nat>, b: map<string, nat>)
    requires forall n :: AnyHolds(ts, n) ==> Agree(m, a, b, n)
    ensures UnitsOfAll(m, ts, a) == UnitsOfAll(m, ts, b)
    decreases ts, 0
  {
    if ts != [] {
      forall n | HoldsInline(ts[0], n) ensures Agree(m, a, b, n) { assert AnyHolds(ts, n); }
      UnitsAgree(m, ts[0], a, b);
      forall n | AnyHolds(ts[1..], n) ensures Agree(m, a, b, n) {
        var i :| 0 <= i < |ts[1..]| && HoldsInline(ts[1..][i], n);
        assert HoldsInline(ts[i + 1], n);
        assert AnyHolds(ts, n);
      }
      AllUnitsAgree(m, ts[1..], a, b);
    }
  }

  lemma {:induction false} MemberUnitsAgree(m: Model, ms: seq<DictMember>, a: map<string, nat>, b: map<string, nat>)
    requires forall i, n :: 0 <= i < |ms| && HoldsInline(ms[i].ty, n) ==> Agree(m, a, b, n)
    ensures UnitsOfMembers(m, ms, a) == UnitsOfMembers(m, ms, b)
    decreases |ms|
  {
    if ms != [] {
      UnitsAgree(m, ms[0].ty, a, b);
      MemberUnitsAgree(m, ms[1..], a, b);
    }
  }

  lemma DictUnitsAgree(m: Model, d: Dict, a: map<string, nat>, b: map<string, nat>)
    requires forall n :: DependsOn(d, n) ==> Agree(m, a, b, n)
    ensures UnitsOfDict(m, d, a) == UnitsOfDict(m, d, b)
  {
    if d.parent.Some? { assert DependsOn(d, d.parent.value); }
    forall i, n | 0 <= i < |d.members| && HoldsInline(d.members[i].ty, n) ensures Agree(m, a, b, n) {
      assert DependsOn(d, n);
    }
    MemberUnitsAgree(m, d.members, a, b);
  }

  /** Dictionaries finished in order can be given sizes in that order. */
  lemma {:induction false} SizesInOrder(m: Model, finished: seq<string>, k: nat) returns (size: map<string, nat>)
    requires Ordered(m, finished) && Unrepeated(finished) && k <= |finished|
    ensures forall j :: 0 <= j < k ==> finished[j] in size && Fits(m, size, finished[j])
    decreases k
  {
    if k == 0 {
      size := map[];
    } else {
      var before := SizesInOrder(m, finished, k - 1);
      var last := finished[k - 1];
      size := before[last := if m.GetDict(last).Some? then UnitsOfDict(m, m.GetDict(last).value, before) else 0];
      forall j | 0 <= j < k ensures Fits(m, size, finished[j]) {
        if m.GetDict(finished[j]).Some? {
          var d := m.GetDict(finished[j]).value;
          forall n | DependsOn(d, n) ensures Agree(m, before, size, n) {
            if m.GetDict(n).Some? {
              assert Edge(m, finished[j], n);
              var i :| 0 <= i < j && finished[i] == n;
            }
          }
          DictUnitsAgree(m, d, before, size);
        }
      }
    }
  }

  lemma OrderedMeansLayout(m: Model, finished: seq<string>)
    requires Ordered(m, finished) && Unrepeated(finished)
    requires forall n :: m.GetDict(n).Some? ==> n in finished
    ensures HasLayout(m)
  {
    var size := SizesInOrder(m, finished, |finished|);
    forall n ensures Fits(m, size, n) {
      if m.GetDict(n).Some? { var j :| 0 <= j < |finished| && finished[j] == n; }
    }
    assert IsLayout(m, size);
  }

  /**
    An error is reported exactly when some dictionary holds itself inline, which
    is when no finite sizes fit; each error names a step that closes a cycle.
   */
  method CheckDictionaryCycles(m: Model) returns (errors: seq<(string, string)>)
    requires m.WellIndexed()
    ensures errors != [] <==> HasCycle(m)
    ensures errors == [] <==> HasLayout(m)
    ensures forall e :: e in errors ==> ClosesCycle(m, e.0, e.1)
  {
    var s := Search(map[], [], []);
    ghost var finished: seq<string> := [];
    for i := 0 to |m.dictionaries|
      invariant SearchOk(m, s, finished) && s.stack == []
      invariant forall k :: 0 <= k < i ==> m.dictionaries[k].name in s.colour
    {
      var root := m.dictionaries[i];
      if root.name !in s.colour {
        s, finished := Visit(m, root, s, finished);
      }
    }
    errors := s.errors;
    if errors == [] {
      forall n | m.GetDict(n).Some? ensures n in finished {
        assert m.dictionaries[m.index[n].1].name == n;
      }
      OrderedMeansNoCycle(m, finished);
      OrderedMeansLayout(m, finished);
    } else {
      assert ClosesCycle(m, errors[0].0, errors[0].1);
      if HasLayout(m) { LayoutMeansNoCycle(m); }
    }
  }
}
