/**
  Inheritance chains of interfaces and dictionaries: the depth-capped checks and
  walks (crates/px-bindings/src/resolve.rs and ir.rs).
 */
module IdlInherit {
  import opened Common
  import opened Lex
  import Sorting
  import opened IdlTypes
  import opened IdlModel

  const MAX_INHERITANCE_DEPTH := 256

  /** Which of the two inheritance relations. */
  datatype Kind = OfContainers | OfDictionaries

  function Up(m: Model, g: Kind, n: string): Option<string> {
    match g
    case OfContainers => if m.GetContainer(n).Some? then m.GetContainer(n).value.parent else None
    case OfDictionaries => if m.GetDict(n).Some? then m.GetDict(n).value.parent else None
  }

  /** The unbounded chain from `cur` up has exactly `k` names. */
  ghost predicate Ends(m: Model, g: Kind, cur: Option<string>, k: nat)
    decreases k
  {
    if k == 0 then cur.None? else cur.Some? && Ends(m, g, Up(m, g, cur.value), k - 1)
  }

  ghost function Chain(m: Model, g: Kind, cur: Option<string>, k: nat): (names: seq<string>)
    requires Ends(m, g, cur, k)
    ensures |names| == k
    decreases k
  {
    if k == 0 then [] else [cur.value] + Chain(m, g, Up(m, g, cur.value), k - 1)
  }

  lemma {:induction false} EndsOnce(m: Model, g: Kind, cur: Option<string>, k: nat, l: nat)
    requires Ends(m, g, cur, k) && Ends(m, g, cur, l)
    ensures k == l
    decreases k
  {
    if k > 0 { EndsOnce(m, g, Up(m, g, cur.value), k - 1, l - 1); }
  }

  /** The chain is finite and within the cap. */
  ghost predicate Bounded(m: Model, g: Kind, parent: Option<string>) {
    exists k: nat :: k <= MAX_INHERITANCE_DEPTH && Ends(m, g, parent, k)
  }

  /** Walking up from `parent` passes the names `visited` and arrives at `cur`. */
  ghost predicate Walked(m: Model, g: Kind, parent: Option<string>, visited: seq<string>, cur: Option<string>)
    decreases |visited|
  {
    if visited == [] then cur == parent
    else parent == Some(visited[0]) && Walked(m, g, Up(m, g, visited[0]), visited[1..], cur)
  }

  lemma {:induction false} WalkOn(m: Model, g: Kind, parent: Option<string>, visited: seq<string>, cur: Option<string>)
    requires Walked(m, g, parent, visited, cur) && cur.Some?
    ensures Walked(m, g, parent, visited + [cur.value], Up(m, g, cur.value))
    decreases |visited|
  {
    if visited == [] {
      assert (visited + [cur.value])[1..] == [];
    } else {
      WalkOn(m, g, Up(m, g, visited[0]), visited[1..], cur);
      assert (visited + [cur.value])[1..] == visited[1..] + [cur.value];
    }
  }

  lemma {:induction false} WalkLength(m: Model, g: Kind, parent: Option<string>, visited: seq<string>,
                                      cur: Option<string>, k: nat)
    requires Walked(m, g, parent, visited, cur) && Ends(m, g, parent, k)
    ensures |visited| <= k && Ends(m, g, cur, k - |visited|)
    decreases |visited|
  {
    if visited != [] { WalkLength(m, g, Up(m, g, visited[0]), visited[1..], cur, k - 1); }
  }

  /** Meeting the starting name again, or one name too many, means the chain is not bounded. */
  lemma WalkFails(m: Model, g: Kind, name: string, parent: Option<string>, visited: seq<string>, cur: Option<string>)
    requires Up(m, g, name) == parent && Walked(m, g, parent, visited, cur) && cur.Some?
    requires cur.value == name || |visited| >= MAX_INHERITANCE_DEPTH
    ensures !Bounded(m, g, parent)
  {
    forall k: nat | Ends(m, g, parent, k) ensures k > MAX_INHERITANCE_DEPTH {
      WalkLength(m, g, parent, visited, cur, k);
      if cur.value == name { EndsOnce(m, g, parent, k, k - |visited| - 1); }
    }
  }

  lemma {:induction false} WalkEnds(m: Model, g: Kind, parent: Option<string>, visited: seq<string>)
    requires Walked(m, g, parent, visited, None)
    ensures Ends(m, g, parent, |visited|) && Chain(m, g, parent, |visited|) == visited
    decreases |visited|
  {
    if visited != [] { WalkEnds(m, g, Up(m, g, visited[0]), visited[1..]); }
  }

  // ---- the check ----

  ghost predicate ContainerOk(m: Model, c: Container) {
    && Bounded(m, OfContainers, c.parent)
    && (c.parent.Some? ==>
          var p := m.GetContainer(c.parent.value);
          && p.Some? && p.value.kind == InterfaceContainer
          && (c.kind == InterfaceContainer ==> c.exposure.SubsetOf(p.value.exposure)))
  }

  ghost predicate HasMember(d: Dict, x: string) {
    exists i :: 0 <= i < |d.members| && d.members[i].name == x
  }

  ghost predicate NamedMember(m: Model, n: string, x: string) {
    m.GetDict(n).Some? && HasMember(m.GetDict(n).value, x)
  }

  ghost predicate Inherits(m: Model, names: seq<string>, x: string) {
    exists n :: n in names && NamedMember(m, n, x)
  }

  lemma InheritsMore(m: Model, names: seq<string>, n: string, x: string)
    ensures Inherits(m, names + [n], x) <==> Inherits(m, names, x) || NamedMember(m, n, x)
  {
  }

  ghost predicate NoneInherited(m: Model, d: Dict, names: seq<string>) {
    forall i :: 0 <= i < |d.members| ==> !Inherits(m, names, d.members[i].name)
  }

  ghost predicate DictOk(m: Model, d: Dict) {
    && (d.parent.Some? ==> m.GetDict(d.parent.value).Some?)
    && exists k: nat :: k <= MAX_INHERITANCE_DEPTH && Ends(m, OfDictionaries, d.parent, k)
         && NoneInherited(m, d, Chain(m, OfDictionaries, d.parent, k))
  }

  ghost predicate InheritanceOk(m: Model) {
    && (forall i :: 0 <= i < |m.containers| ==> ContainerOk(m, m.containers[i]))
    && (forall i :: 0 <= i < |m.dictionaries| ==> DictOk(m, m.dictionaries[i]))
  }

  method CheckContainer(m: Model, c: Container) returns (ok: bool)
    requires Up(m, OfContainers, c.name) == c.parent
    ensures ok <==> ContainerOk(m, c)
  {
    ok := true;
    if c.parent.Some? {
      var p := m.GetContainer(c.parent.value);
      if p.Some? && p.value.kind == InterfaceContainer {
        if c.kind == InterfaceContainer && !c.exposure.SubsetOf(p.value.exposure) { ok := false; }
      } else {
        ok := false;
      }
    }
    var cur, steps := c.parent, 0;
    ghost var visited: seq<string> := [];
    while cur.Some?
      invariant steps == |visited| <= MAX_INHERITANCE_DEPTH
      invariant Walked(m, OfContainers, c.parent, visited, cur)
      decreases MAX_INHERITANCE_DEPTH - steps
    {
      if cur.value == c.name {
        WalkFails(m, OfContainers, c.name, c.parent, visited, cur);
        return false;
      }
      steps := steps + 1;
      if steps > MAX_INHERITANCE_DEPTH {
        WalkFails(m, OfContainers, c.name, c.parent, visited, cur);
        return false;
      }
      WalkOn(m, OfContainers, c.parent, visited, cur);
      visited := visited + [cur.value];
      cur := Up(m, OfContainers, cur.value);
    }
    WalkEnds(m, OfContainers, c.parent, visited);
  }

  ghost predicate InheritedAre(m: Model, d: Dict, k: nat, names: set<string>) {
    && k <= MAX_INHERITANCE_DEPTH && Ends(m, OfDictionaries, d.parent, k)
    && forall x :: x in names <==> Inherits(m, Chain(m, OfDictionaries, d.parent, k), x)
  }

  /** The member names of all ancestors, or nothing when the chain is cyclic or too deep. */
  method GatherInherited(m: Model, d: Dict) returns (r: Option<set<string>>)
    requires Up(m, OfDictionaries, d.name) == d.parent
    ensures r.None? ==> !Bounded(m, OfDictionaries, d.parent)
    ensures r.Some? ==> exists k: nat :: InheritedAre(m, d, k, r.value)
  {
    var cur, steps := d.parent, 0;
    var inherited: set<string> := {};
    ghost var visited: seq<string> := [];
    while cur.Some?
      invariant steps == |visited| <= MAX_INHERITANCE_DEPTH
      invariant Walked(m, OfDictionaries, d.parent, visited, cur)
      invariant forall x :: x in inherited <==> Inherits(m, visited, x)
      decreases MAX_INHERITANCE_DEPTH - steps
    {
      if cur.value == d.name {
        WalkFails(m, OfDictionaries, d.name, d.parent, visited, cur);
        return None;
      }
      steps := steps + 1;
      if steps > MAX_INHERITANCE_DEPTH {
        WalkFails(m, OfDictionaries, d.name, d.parent, visited, cur);
        return None;
      }
      WalkOn(m, OfDictionaries, d.parent, visited, cur);
      forall x
        ensures Inherits(m, visited + [cur.value], x) <==> Inherits(m, visited, x) || NamedMember(m, cur.value, x)
      {
        InheritsMore(m, visited, cur.value, x);
      }
      visited := visited + [cur.value];
      var p := m.GetDict(cur.value);
      if p.Some? {
        inherited := inherited + set i | 0 <= i < |p.value.members| :: p.value.members[i].name;
        cur := p.value.parent;
      } else {
        cur := None;
      }
    }
    WalkEnds(m, OfDictionaries, d.parent, visited);
    assert InheritedAre(m, d, |visited|, inherited);
    r := Some(inherited);
  }

  method CheckDict(m: Model, d: Dict) returns (ok: bool)
    requires Up(m, OfDictionaries, d.name) == d.parent
    ensures ok <==> DictOk(m, d)
  {
    if d.parent.Some? && m.GetDict(d.parent.value).None? { return false; }
    var gathered := GatherInherited(m, d);
    if gathered.None? { return false; }
    ghost var k: nat :| InheritedAre(m, d, k, gathered.value);
    ok := true;
    for i := 0 to |d.members|
      invariant ok <==> forall j :: 0 <= j < i ==> d.members[j].name !in gathered.value
    {
      if d.members[i].name in gathered.value { ok := false; }
    }
    forall l: nat | Ends(m, OfDictionaries, d.parent, l) ensures l == k {
      EndsOnce(m, OfDictionaries, d.parent, l, k);
    }
  }

  method CheckInheritance(m: Model) returns (ok: bool)
    requires m.WellIndexed()
    ensures ok <==> InheritanceOk(m)
  {
    ok := true;
    for i := 0 to |m.containers|
      invariant ok <==> forall j :: 0 <= j < i ==> ContainerOk(m, m.containers[j])
    {
      assert m.GetContainer(m.containers[i].name) == Some(m.containers[i]);
      var one := CheckContainer(m, m.containers[i]);
      if !one { ok := false; }
    }
    for i := 0 to |m.dictionaries|
      invariant ok <==> (forall j :: 0 <= j < |m.containers| ==> ContainerOk(m, m.containers[j]))
                        && (forall j :: 0 <= j < i ==> DictOk(m, m.dictionaries[j]))
    {
      assert m.GetDict(m.dictionaries[i].name) == Some(m.dictionaries[i]);
      var one := CheckDict(m, m.dictionaries[i]);
      if !one { ok := false; }
    }
  }

  // ---- walks over an accepted model are never cut short ----

  lemma AcceptedDict(m: Model, n: string)
    requires m.WellIndexed() && InheritanceOk(m) && m.GetDict(n).Some?
    ensures DictOk(m, m.GetDict(n).value)
  {
  }

  lemma AcceptedContainer(m: Model, n: string)
    requires m.WellIndexed() && InheritanceOk(m) && m.GetContainer(n).Some?
    ensures ContainerOk(m, m.GetContainer(n).value)
  {
  }

  /** All ancestors of an interface, nearest first: the whole chain, whatever its length. */
  method Ancestors(m: Model, name: string) returns (out: seq<Container>)
    requires m.WellIndexed() && InheritanceOk(m)
    ensures m.GetContainer(name).None? ==> out == []
    ensures m.GetContainer(name).Some? ==>
      var parent := m.GetContainer(name).value.parent;
      Ends(m, OfContainers, parent, |out|) && |out| <= MAX_INHERITANCE_DEPTH
      && forall i :: 0 <= i < |out| ==> m.GetContainer(Chain(m, OfContainers, parent, |out|)[i]) == Some(out[i])
  {
    out := [];
    if m.GetContainer(name).None? { return; }
    AcceptedContainer(m, name);
    var parent := m.GetContainer(name).value.parent;
    var cur := parent;
    ghost var visited: seq<string> := [];
    ghost var k: nat :| k <= MAX_INHERITANCE_DEPTH && Ends(m, OfContainers, parent, k);
    while cur.Some?
      invariant |out| == |visited| <= k
      invariant Walked(m, OfContainers, parent, visited, cur)
      invariant forall i :: 0 <= i < |out| ==> m.GetContainer(visited[i]) == Some(out[i])
      invariant cur.Some? ==> m.GetContainer(cur.value).Some?
      decreases k - |out|
    {
      WalkLength(m, OfContainers, parent, visited, cur, k);
      if |out| > MAX_INHERITANCE_DEPTH { break; }
      var c := m.GetContainer(cur.value);
      AcceptedContainer(m, cur.value);
      WalkOn(m, OfContainers, parent, visited, cur);
      visited := visited + [cur.value];
      out := out + [c.value];
      cur := c.value.parent;
    }
    WalkEnds(m, OfContainers, parent, visited);
  }

  ghost predicate AnyRequired(d: Dict) {
    exists i :: 0 <= i < |d.members| && d.members[i].required
  }

  ghost predicate Resolves(m: Model, names: seq<string>, dicts: seq<Dict>) {
    |names| == |dicts| && forall i :: 0 <= i < |names| ==> m.GetDict(names[i]) == Some(dicts[i])
  }

  /** A dictionary and all its ancestors, most derived first. */
  ghost predicate IsLineage(m: Model, d: Dict, line: seq<Dict>) {
    && 1 <= |line| <= MAX_INHERITANCE_DEPTH + 1
    && Ends(m, OfDictionaries, d.parent, |line| - 1)
    && Resolves(m, [d.name] + Chain(m, OfDictionaries, d.parent, |line| - 1), line)
  }

  /** The parent of an accepted dictionary is a dictionary. */
  lemma ParentResolves(m: Model, n: string)
    requires m.WellIndexed() && InheritanceOk(m) && m.GetDict(n).Some?
    ensures Up(m, OfDictionaries, n).Some? ==> m.GetDict(Up(m, OfDictionaries, n).value).Some?
  {
  }

  /** One step of a lineage: the parent of a dictionary is the next one, and the last has none. */
  ghost predicate LineStep(m: Model, line: seq<Dict>, i: nat)
    requires i < |line|
  {
    if i + 1 < |line|
    then line[i].parent.Some? && m.GetDict(line[i].parent.value) == Some(line[i + 1])
    else line[i].parent.None?
  }

  ghost predicate IsLine(m: Model, line: seq<Dict>) {
    && 1 <= |line| <= MAX_INHERITANCE_DEPTH + 1
    && forall i {:trigger LineStep(m, line, i)} :: 0 <= i < |line| ==> LineStep(m, line, i)
  }

  /** The walk of the lowering: it stops at the cap, which a line never reaches. */
  method WalkLine(m: Model, d: Dict, ghost line: seq<Dict>) returns (out: seq<Dict>)
    requires IsLine(m, line) && line[0] == d
    ensures out == line
  {
    out := [d];
    var cur := d.parent;
    assert LineStep(m, line, 0);
    while cur.Some?
      invariant 1 <= |out| <= |line| && out == line[..|out|] && cur == line[|out| - 1].parent
      decreases |line| - |out|
    {
      assert LineStep(m, line, |out| - 1);
      if |out| > MAX_INHERITANCE_DEPTH { break; }
      var p := m.GetDict(cur.value);
      if p.None? { break; }
      out := out + [p.value];
      cur := p.value.parent;
    }
    assert LineStep(m, line, |out| - 1);
  }

  /** The walk for required members, with its own cap. */
  method WalkRequired(m: Model, name: string, ghost line: seq<Dict>) returns (r: bool)
    requires IsLine(m, line) && m.GetDict(name) == Some(line[0])
    ensures r <==> exists i :: 0 <= i < |line| && AnyRequired(line[i])
  {
    var cur, steps := Some(name), 0;
    while cur.Some?
      invariant 0 <= steps <= |line|
      invariant cur.Some? ==> steps < |line| && m.GetDict(cur.value) == Some(line[steps])
      invariant cur.None? ==> steps == |line|
      invariant forall i :: 0 <= i < steps ==> !AnyRequired(line[i])
      decreases |line| - steps
    {
      var x := m.GetDict(cur.value).value;
      if exists i :: 0 <= i < |x.members| && x.members[i].required {
        return true;
      }
      assert LineStep(m, line, steps);
      steps := steps + 1;
      if steps > MAX_INHERITANCE_DEPTH { return false; }
      cur := x.parent;
    }
    return false;
  }

  lemma {:induction false} ChainSteps(m: Model, cur: Option<string>, k: nat, i: nat)
    requires Ends(m, OfDictionaries, cur, k) && i <= k
    ensures i == 0 && k > 0 ==> cur.Some? && Chain(m, OfDictionaries, cur, k)[0] == cur.value
    ensures i == 0 && k == 0 ==> cur.None?
    ensures 0 < i < k ==>
            Up(m, OfDictionaries, Chain(m, OfDictionaries, cur, k)[i - 1]) == Some(Chain(m, OfDictionaries, cur, k)[i])
    ensures 0 < i == k ==> Up(m, OfDictionaries, Chain(m, OfDictionaries, cur, k)[i - 1]).None?
    decreases k
  {
    if i > 0 { ChainSteps(m, Up(m, OfDictionaries, cur.value), k - 1, i - 1); }
  }

  /** Each dictionary of a lineage is the parent of the one before. */
  lemma LineSteps(m: Model, d: Dict, line: seq<Dict>, i: nat)
    requires m.WellIndexed() && IsLineage(m, d, line) && m.GetDict(d.name) == Some(d) && i < |line|
    ensures i + 1 < |line| ==> line[i].parent.Some? && m.GetDict(line[i].parent.value) == Some(line[i + 1])
    ensures i + 1 == |line| ==> line[i].parent.None?
  {
    var k := |line| - 1;
    var names := [d.name] + Chain(m, OfDictionaries, d.parent, k);
    ChainSteps(m, d.parent, k, i);
    assert m.GetDict(names[i]) == Some(line[i]);
    if i + 1 < |line| { assert m.GetDict(names[i + 1]) == Some(line[i + 1]); }
  }

  lemma LineageIsLine(m: Model, d: Dict, line: seq<Dict>)
    requires m.WellIndexed() && IsLineage(m, d, line) && m.GetDict(d.name) == Some(d)
    ensures IsLine(m, line) && line[0] == d
  {
    var names := [d.name] + Chain(m, OfDictionaries, d.parent, |line| - 1);
    assert m.GetDict(names[0]) == Some(line[0]);
    forall i | 0 <= i < |line| ensures LineStep(m, line, i) { LineSteps(m, d, line, i); }
  }

  lemma {:induction false} ChainResolves(m: Model, n: string, k: nat)
    requires m.WellIndexed() && InheritanceOk(m) && m.GetDict(n).Some?
            && Ends(m, OfDictionaries, Up(m, OfDictionaries, n), k)
    ensures forall i :: 0 <= i < k ==> m.GetDict(Chain(m, OfDictionaries, Up(m, OfDictionaries, n), k)[i]).Some?
    decreases k
  {
    ParentResolves(m, n);
    if k > 0 { ChainResolves(m, Up(m, OfDictionaries, n).value, k - 1); }
  }

  lemma LineageOf(m: Model, d: Dict) returns (line: seq<Dict>)
    requires m.WellIndexed() && InheritanceOk(m) && m.GetDict(d.name) == Some(d)
    ensures IsLineage(m, d, line)
  {
    AcceptedDict(m, d.name);
    var k: nat :| k <= MAX_INHERITANCE_DEPTH && Ends(m, OfDictionaries, d.parent, k);
    var names := Chain(m, OfDictionaries, d.parent, k);
    ChainResolves(m, d.name, k);
    line := [d] + seq(k, i requires 0 <= i < k => m.GetDict(names[i]).value);
  }

  /** A dictionary with all its ancestors. */
  method Lineage(m: Model, d: Dict) returns (line: seq<Dict>)
    requires m.WellIndexed() && InheritanceOk(m) && m.GetDict(d.name) == Some(d)
    ensures IsLineage(m, d, line)
  {
    ghost var full := LineageOf(m, d);
    LineageIsLine(m, d, full);
    line := WalkLine(m, d, full);
  }

  /** Whether a dictionary or any of its ancestors has a required member. */
  method DictionaryHasRequired(m: Model, name: string) returns (r: bool)
    requires m.WellIndexed() && InheritanceOk(m)
    ensures m.GetDict(name).None? ==> !r
    ensures m.GetDict(name).Some? ==> exists line ::
      IsLineage(m, m.GetDict(name).value, line) && (r <==> exists i :: 0 <= i < |line| && AnyRequired(line[i]))
  {
    if m.GetDict(name).None? { return false; }
    ghost var line := LineageOf(m, m.GetDict(name).value);
    LineageIsLine(m, m.GetDict(name).value, line);
    r := WalkRequired(m, name, line);
  }

  // ---- conversion order ----

  datatype MemberRef = MemberRef(owner: string, name: string)

  ghost predicate AreMemberNames(d: Dict, names: seq<string>) {
    StrictlySorted(names) && forall x :: x in names <==> HasMember(d, x)
  }

  method SortedMemberNames(d: Dict) returns (names: seq<string>)
    requires DistinctNames(d.members)
    ensures AreMemberNames(d, names)
  {
    var own := seq(|d.members|, i requires 0 <= i < |d.members| => d.members[i].name);
    StrLessIsOrder();
    names := Sorting.Sort(own, StrLess);
    forall x ensures x in own <==> HasMember(d, x) {
      if HasMember(d, x) {
        var i :| 0 <= i < |d.members| && d.members[i].name == x;
        assert own[i] == x;
      }
    }
  }

  ghost predicate BeforeAt(line: seq<Dict>, x: MemberRef, a: nat, y: MemberRef, b: nat)
    requires a < |line| && b < |line|
  {
    line[a].name == x.owner && line[b].name == y.owner && (a > b || (a == b && StrLess(x.name, y.name)))
  }

  /** Least derived first; within one dictionary, by name. */
  ghost predicate Before(line: seq<Dict>, x: MemberRef, y: MemberRef) {
    exists a: nat, b: nat :: a < |line| && b < |line| && BeforeAt(line, x, a, y, b)
  }

  ghost predicate OwnedBy(line: seq<Dict>, r: MemberRef, a: nat) {
    a < |line| && line[a].name == r.owner && HasMember(line[a], r.name)
  }

  /** The part of the order for the dictionaries from `from` on (the less derived ones). */
  ghost predicate OrderFrom(line: seq<Dict>, from: nat, order: seq<MemberRef>) {
    && (forall r :: r in order <==> exists a: nat :: from <= a && OwnedBy(line, r, a))
    && (forall i, j :: 0 <= i < j < |order| ==> order[i] != order[j] && Before(line, order[i], order[j]))
  }

  /** Every own and inherited member, once, in conversion order. */
  ghost predicate IsConversionOrder(line: seq<Dict>, order: seq<MemberRef>) {
    OrderFrom(line, 0, order)
  }

  ghost predicate DistinctOwners(line: seq<Dict>) {
    forall a, b :: 0 <= a < b < |line| ==> line[a].name != line[b].name
  }

  lemma ExtendOrder(line: seq<Dict>, from: nat, order: seq<MemberRef>, names: seq<string>, more: seq<MemberRef>)
    requires 0 < from <= |line| && DistinctOwners(line) && OrderFrom(line, from, order)
    requires AreMemberNames(line[from - 1], names)
    requires |more| == |names| && forall i :: 0 <= i < |names| ==> more[i] == MemberRef(line[from - 1].name, names[i])
    ensures OrderFrom(line, from - 1, order + more)
  {
    var all, at := order + more, from - 1;
    forall r ensures r in all <==> exists a: nat :: at <= a && OwnedBy(line, r, a) {
      if r in more {
        var i :| 0 <= i < |more| && more[i] == r;
        assert names[i] in names;
        assert OwnedBy(line, r, at);
      }
      if r in order {
        var a: nat :| from <= a && OwnedBy(line, r, a);
        assert at <= a && OwnedBy(line, r, a);
      }
      if a: nat :| at <= a && OwnedBy(line, r, a) {
        if a == at {
          var i :| 0 <= i < |names| && names[i] == r.name;
          assert more[i] == r;
        } else {
          assert from <= a && OwnedBy(line, r, a);
        }
      }
    }
    forall i, j | 0 <= i < j < |all| ensures all[i] != all[j] && Before(line, all[i], all[j]) {
      if j < |order| {
        assert order[i] != order[j] && Before(line, order[i], order[j]);
      } else if i < |order| {
        assert all[i] in order;
        var a: nat :| from <= a && OwnedBy(line, all[i], a);
        assert BeforeAt(line, all[i], a, all[j], at);
      } else {
        assert StrLess(names[i - |order|], names[j - |order|]);
        LexIrreflexive(Codes(names[i - |order|]));
        assert BeforeAt(line, all[i], at, all[j], at);
      }
    }
  }

  method OrderMembers(line: seq<Dict>) returns (order: seq<MemberRef>, hasRequired: bool)
    requires DistinctOwners(line) && forall i :: 0 <= i < |line| ==> DistinctNames(line[i].members)
    ensures IsConversionOrder(line, order)
    ensures hasRequired <==> exists i :: 0 <= i < |line| && AnyRequired(line[i])
  {
    order, hasRequired := [], false;
    var at := |line|;
    while at > 0
      invariant 0 <= at <= |line| && OrderFrom(line, at, order)
      invariant hasRequired <==> exists i :: at <= i < |line| && AnyRequired(line[i])
    {
      var dd := line[at - 1];
      var names := SortedMemberNames(dd);
      var more := seq(|names|, i requires 0 <= i < |names| => MemberRef(dd.name, names[i]));
      ExtendOrder(line, at, order, names, more);
      order := order + more;
      if exists i :: 0 <= i < |dd.members| && dd.members[i].required { hasRequired := true; }
      at := at - 1;
    }
  }

  lemma LineResolves(m: Model, d: Dict, line: seq<Dict>, i: nat)
    requires m.WellIndexed() && IsLineage(m, d, line) && i < |line|
    ensures m.GetDict(line[i].name) == Some(line[i])
  {
  }

  lemma {:induction false} EndsFrom(m: Model, line: seq<Dict>, i: nat)
    requires IsLine(m, line) && i < |line|
    ensures Ends(m, OfDictionaries, line[i].parent, |line| - 1 - i)
    decreases |line| - i
  {
    assert LineStep(m, line, i);
    if i + 1 < |line| { EndsFrom(m, line, i + 1); }
  }

  /** An accepted chain has no repeated owner. */
  lemma OwnersDistinct(m: Model, d: Dict, line: seq<Dict>)
    requires m.WellIndexed() && IsLineage(m, d, line) && m.GetDict(d.name) == Some(d)
    ensures DistinctOwners(line)
  {
    LineageIsLine(m, d, line);
    forall a, b | 0 <= a < b < |line| ensures line[a].name != line[b].name {
      LineResolves(m, d, line, a);
      LineResolves(m, d, line, b);
      EndsFrom(m, line, a);
      EndsFrom(m, line, b);
      if line[a].name == line[b].name { EndsOnce(m, OfDictionaries, line[a].parent, |line| - 1 - a, |line| - 1 - b); }
    }
  }

  ghost predicate Lowered(line: seq<Dict>, order: seq<MemberRef>, hasRequired: bool) {
    IsConversionOrder(line, order) && (hasRequired <==> exists i :: 0 <= i < |line| && AnyRequired(line[i]))
  }

  /** The conversion order of an accepted dictionary lists all its own and inherited members. */
  method LowerDictionary(m: Model, d: Dict) returns (order: seq<MemberRef>, hasRequired: bool)
    requires m.WellIndexed() && InheritanceOk(m) && m.GetDict(d.name) == Some(d)
    ensures exists line :: IsLineage(m, d, line) && Lowered(line, order, hasRequired)
  {
    var line := Lineage(m, d);
    OwnersDistinct(m, d, line);
    forall i | 0 <= i < |line| ensures DistinctNames(line[i].members) {
      LineResolves(m, d, line, i);
      assert line[i] == m.dictionaries[m.index[line[i].name].1];
    }
    order, hasRequired := OrderMembers(line);
    assert Lowered(line, order, hasRequired);
  }
}
