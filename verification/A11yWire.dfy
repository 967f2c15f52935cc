/**
  What changed between two trees, and the bounded updates sent to the browser
  process (crates/px-a11y/src/diff.rs and wire.rs).
 */
module A11yWire {
  import opened Common
  import opened A11yText
  import opened A11yTree
  import opened A11yWalk

  const MAX_UPDATE_NODES := 1024
  const MAX_UPDATE_REMOVED := 4096
  const MAX_UPDATE_PARTS := 1024
  const MAX_NODES := 65_536

  datatype Num = Finite(x: real) | NonFinite

  datatype Props = Props(value: Option<string>, href: Option<string>, range: seq<Num>, rest: nat)

  /** A node's own data; role, states and bounds are values compared for equality. */
  datatype NodeData = NodeData(
    key: nat, role: nat, name: string, description: string, states: nat, props: Props, bounds: Option<nat>,
        tab: Option<int>)

  /** One node as sent. */
  datatype WireNode = WireNode(data: NodeData, parent: Option<nat>, index: nat)

  /** A built tree: its shape, its nodes, and the index from DOM node to position. */
  datatype Doc = Doc(tree: Tree, nodes: seq<NodeData>, find: map<nat, nat>)
  {
    function Key(i: nat): nat {
      if i < |nodes| then nodes[i].key else 0
    }

    function ParentKey(i: nat): Option<nat> {
      if i < |tree.parent| && tree.parent[i].Some? then Some(Key(tree.parent[i].value)) else None
    }

    function ChildKeys(i: nat): seq<nat> {
      if i < |tree.kids| then seq(|tree.kids[i]|, k requires 0 <= k < |tree.kids[i]| => Key(tree.kids[i][k])) else []
    }

    ghost predicate Valid(depth: seq<nat>) {
      && IsTree(tree, depth) && |nodes| == |tree.parent| <= MAX_NODES
      && (forall i :: 0 <= i < |nodes| ==> nodes[i].key > 0 && nodes[i].key in find && find[nodes[i].key] == i)
      && (forall k :: k in find ==> find[k] < |nodes| && nodes[find[k]].key == k)
    }

    function Wire(i: nat): WireNode
      requires i < |nodes| && i < |tree.sibling|
    {
      WireNode(nodes[i], ParentKey(i), tree.sibling[i])
    }
  }

  // ---- differences ----

  datatype Change =
    | Added(node: nat, parent: Option<nat>)
    | Removed(node: nat)
    | Moved(node: nat, oldParent: Option<nat>, newParent: Option<nat>)
    | RoleChanged(node: nat, oldRole: nat, newRole: nat)
    | NameChanged(node: nat, oldText: string, newText: string)
    | DescriptionChanged(node: nat, oldText: string, newText: string)
    | StatesChanged(node: nat, oldStates: nat, newStates: nat)
    | PropsChanged(node: nat, oldProps: Props, newProps: Props)
    | BoundsChanged(node: nat, oldBounds: Option<nat>, newBounds: Option<nat>)
    | ChildrenChanged(node: nat)

  /** One comparison, and what to report if it fails. */
  datatype Check = Check(differs: bool, change: Change)

  /** The changes of the comparisons that fail, in order. */
  function Failing(checks: seq<Check>): (cs: seq<Change>)
    ensures |cs| <= |checks|
  {
    if checks == [] then []
    else
      var n := |checks| - 1;
      Failing(checks[..n]) + (if checks[n].differs then [checks[n].change] else [])
  }

  lemma {:induction false} FailingAre(checks: seq<Check>)
    ensures forall c :: c in Failing(checks) <==> exists k :: 0 <= k < |checks| && checks[k] == Check(true, c)
    decreases |checks|
  {
    if checks != [] {
      var n := |checks| - 1;
      FailingAre(checks[..n]);
      forall c ensures c in Failing(checks) <==> exists k :: 0 <= k < |checks| && checks[k] == Check(true, c) {
        if k :| 0 <= k < |checks| && checks[k] == Check(true, c) {
          if k < n { assert checks[..n][k] == Check(true, c); }
        }
      }
    }
  }

  lemma {:induction false} NoneFailing(checks: seq<Check>)
    ensures Failing(checks) == [] <==> forall k :: 0 <= k < |checks| ==> !checks[k].differs
    decreases |checks|
  {
    if checks != [] { NoneFailing(checks[..|checks| - 1]); }
  }

  /** The eight comparisons of one node, in their fixed order. */
  function Checks(was: Doc, i: nat, now: Doc, j: nat): seq<Check>
    requires i < |was.nodes| && j < |now.nodes|
  {
    var o, n := was.nodes[i], now.nodes[j];
    [ Check(was.ParentKey(i) != now.ParentKey(j), Moved(n.key, was.ParentKey(i), now.ParentKey(j))),
      Check(o.role != n.role, RoleChanged(n.key, o.role, n.role)),
      Check(o.name != n.name, NameChanged(n.key, o.name, n.name)),
      Check(o.description != n.description, DescriptionChanged(n.key, o.description, n.description)),
      Check(o.states != n.states, StatesChanged(n.key, o.states, n.states)),
      Check(o.props != n.props, PropsChanged(n.key, o.props, n.props)),
      Check(o.bounds != n.bounds, BoundsChanged(n.key, o.bounds, n.bounds)),
      Check(was.ChildKeys(i) != now.ChildKeys(j), ChildrenChanged(n.key)) ]
  }

  /** The changes reported for one node of the new tree. */
  function ChangesFor(was: Doc, now: Doc, j: nat): (cs: seq<Change>)
    requires j < |now.nodes|
    ensures |cs| <= 8
  {
    var key := now.nodes[j].key;
    if key !in was.find || was.find[key] >= |was.nodes| then [Added(key, now.ParentKey(j))]
    else Failing(Checks(was, was.find[key], now, j))
  }

  /** All that the differ compares: everything but the sibling index and the tab index. */
  ghost predicate Same(was: Doc, i: nat, now: Doc, j: nat)
    requires i < |was.nodes| && j < |now.nodes|
  {
    && was.ParentKey(i) == now.ParentKey(j) && was.ChildKeys(i) == now.ChildKeys(j)
    && was.nodes[i].(tab := None) == now.nodes[j].(tab := None)
  }

  lemma ChecksMean(was: Doc, i: nat, now: Doc, j: nat)
    requires i < |was.nodes| && j < |now.nodes|
    ensures var checks := Checks(was, i, now, j);
            && |checks| == 8
            && (forall k :: 0 <= k < 8 ==> checks[k].change.node == now.nodes[j].key && !checks[k].change.Removed?)
            && (was.nodes[i].key == now.nodes[j].key ==>
                  ((forall k :: 0 <= k < 8 ==> !checks[k].differs) <==> Same(was, i, now, j)))
  {
    var checks := Checks(was, i, now, j);
    if forall k :: 0 <= k < 8 ==> !checks[k].differs {
      assert !checks[0].differs && !checks[1].differs && !checks[2].differs && !checks[3].differs;
      assert !checks[4].differs && !checks[5].differs && !checks[6].differs && !checks[7].differs;
    }
  }

  /** Nothing is reported for a node exactly when it was there and nothing compared differs. */
  lemma QuietMeansSame(was: Doc, now: Doc, j: nat)
    requires j < |now.nodes| && forall k :: k in was.find ==>
            was.find[k] < |was.nodes| && was.nodes[was.find[k]].key == k
    ensures ChangesFor(was, now, j) == [] <==>
            now.nodes[j].key in was.find && Same(was, was.find[now.nodes[j].key], now, j)
    ensures forall c :: c in ChangesFor(was, now, j) ==> c.node == now.nodes[j].key && !c.Removed?
  {
    var key := now.nodes[j].key;
    if key in was.find {
      var checks := Checks(was, was.find[key], now, j);
      ChecksMean(was, was.find[key], now, j);
      FailingAre(checks);
      NoneFailing(checks);
      assert forall c :: c in Failing(checks) ==> !c.Removed? && c.node == key;
    }
  }

  ghost function Removals(was: Doc, now: Doc, order: seq<nat>): seq<Change> {
    if order == [] then []
    else
      var k := was.Key(order[|order| - 1]);
      Removals(was, now, order[..|order| - 1]) + (if k !in now.find then [Removed(k)] else [])
  }

  ghost function PerNode(was: Doc, now: Doc, order: seq<nat>): seq<seq<Change>>
    requires AllNodes(now.tree, order) && |now.nodes| == |now.tree.parent|
  {
    seq(|order|, k requires 0 <= k < |order| => ChangesFor(was, now, order[k]))
  }

  ghost function Joined(css: seq<seq<Change>>): seq<Change> {
    if css == [] then [] else Joined(css[..|css| - 1]) + css[|css| - 1]
  }

  ghost function Updates(was: Doc, now: Doc, order: seq<nat>): seq<Change>
    requires AllNodes(now.tree, order) && |now.nodes| == |now.tree.parent|
  {
    Joined(PerNode(was, now, order))
  }

  lemma OnceIsUnrepeated(s: seq<nat>)
    requires forall w: nat :: multiset(s)[w] <= 1
    ensures Unrepeated(s)
  {
    forall i, j | 0 <= i < j < |s| ensures s[i] != s[j] {
      assert s == s[..i] + [s[i]] + s[i + 1..j] + [s[j]] + s[j + 1..];
      assert multiset(s)[s[i]] >= 1;
    }
  }

  ghost function Below(n: nat): (r: set<nat>)
    ensures |r| == n && forall w: nat :: w in r <==> w < n
  {
    if n == 0 then {} else Below(n - 1) + {n - 1}
  }

  lemma CountOnce(s: seq<nat>, n: nat)
    requires forall w: nat :: multiset(s)[w] == if w < n then 1 else 0
    ensures |s| == n
  {
    assert multiset(s) == multiset(Below(n));
    assert |multiset(s)| == |s| && |multiset(Below(n))| == |Below(n)|;
  }

  /** The nodes of a traversal are nodes. */
  lemma TraversalInside(t: Tree, order: seq<nat>)
    requires forall w: nat :: multiset(order)[w] == if w < |t.parent| then 1 else 0
    ensures AllNodes(t, order) && forall w: nat :: w < |t.parent| ==> w in order
    ensures Unrepeated(order) && |order| == |t.parent|
  {
    forall k | 0 <= k < |order| ensures order[k] < |t.parent| {
      assert order[k] in multiset(order);
    }
    forall w: nat | w < |t.parent| ensures w in order { assert w in multiset(order); }
    OnceIsUnrepeated(order);
    CountOnce(order, |t.parent|);
  }

  method FindRemoved(was: Doc, now: Doc, order: seq<nat>) returns (out: seq<Change>)
    ensures out == Removals(was, now, order)
  {
    out := [];
    for k := 0 to |order|
      invariant out == Removals(was, now, order[..k])
    {
      assert order[..k + 1][..k] == order[..k];
      var key := was.Key(order[k]);
      if key !in now.find { out := out + [Removed(key)]; }
    }
    assert order[..|order|] == order;
  }

  method FindUpdated(was: Doc, now: Doc, order: seq<nat>) returns (out: seq<Change>)
    requires AllNodes(now.tree, order) && |now.nodes| == |now.tree.parent|
    ensures out == Updates(was, now, order)
  {
    out := [];
    for k := 0 to |order|
      invariant out == Updates(was, now, order[..k])
    {
      ghost var more := PerNode(was, now, order[..k + 1]);
      assert more[..k] == PerNode(was, now, order[..k]);
      out := out + ChangesFor(was, now, order[k]);
    }
    assert order[..|order|] == order;
  }

  /** Removals in the old document order, then each node's changes in the new one. */
  method Diff(was: Doc, now: Doc, ghost depthW: seq<nat>, ghost depthN: seq<nat>) returns (out: seq<Change>)
    requires was.Valid(depthW) && now.Valid(depthN)
    ensures AllNodes(now.tree, Preorder(now.tree, depthN, 0))
    ensures out == Removals(was, now, Preorder(was.tree, depthW, 0)) + Updates(was, now, Preorder(now.tree, depthN, 0))
  {
    var before := All(was.tree, depthW);
    var after := All(now.tree, depthN);
    TraversalInside(now.tree, after);
    var removals := FindRemoved(was, now, before);
    var updates := FindUpdated(was, now, after);
    out := removals + updates;
  }

  // ---- what a difference mentions ----

  lemma {:induction false} RemovalsHave(was: Doc, now: Doc, order: seq<nat>, k: nat)
    requires k < |order| && was.Key(order[k]) !in now.find
    ensures Removed(was.Key(order[k])) in Removals(was, now, order)
    decreases |order|
  {
    var n := |order| - 1;
    if k < n { RemovalsHave(was, now, order[..n], k); }
  }

  lemma {:induction false} RemovalsComeFrom(was: Doc, now: Doc, order: seq<nat>, c: Change) returns (k: nat)
    requires c in Removals(was, now, order)
    ensures k < |order| && c == Removed(was.Key(order[k])) && was.Key(order[k]) !in now.find
    decreases |order|
  {
    var n := |order| - 1;
    if c in Removals(was, now, order[..n]) { k := RemovalsComeFrom(was, now, order[..n], c); } else { k := n; }
  }

  lemma {:induction false} JoinedHas(css: seq<seq<Change>>, k: nat, c: Change)
    requires k < |css| && c in css[k]
    ensures c in Joined(css)
    decreases |css|
  {
    if k < |css| - 1 { JoinedHas(css[..|css| - 1], k, c); }
  }

  lemma {:induction false} JoinedComesFrom(css: seq<seq<Change>>, c: Change) returns (k: nat)
    requires c in Joined(css)
    ensures k < |css| && c in css[k]
    decreases |css|
  {
    var n := |css| - 1;
    if c in css[n] { k := n; } else { k := JoinedComesFrom(css[..n], c); }
  }

  /** A key that some change other than a removal is about. */
  ghost predicate Mentions(cs: seq<Change>, key: nat) {
    exists c :: c in cs && !c.Removed? && c.node == key
  }

  /** A node of the new tree that is new or differs in something compared. */
  ghost predicate Touched(was: Doc, now: Doc, key: nat) {
    && key in now.find && now.find[key] < |now.nodes|
    && !(key in was.find && was.find[key] < |was.nodes| && Same(was, was.find[key], now, now.find[key]))
  }

  ghost predicate Visits(t: Tree, order: seq<nat>) {
    AllNodes(t, order) && forall w: nat :: w < |t.parent| ==> w in order
  }

  lemma RemovedMeans(was: Doc, now: Doc, depthW: seq<nat>, before: seq<nat>, key: nat)
    requires was.Valid(depthW) && Visits(was.tree, before)
    ensures Removed(key) in Removals(was, now, before) <==> key in was.find && key !in now.find
  {
    if Removed(key) in Removals(was, now, before) {
      var k := RemovalsComeFrom(was, now, before, Removed(key));
    }
    if key in was.find && key !in now.find {
      assert was.find[key] in before;
      var k :| 0 <= k < |before| && before[k] == was.find[key];
      RemovalsHave(was, now, before, k);
    }
  }

  lemma MentionedMeans(was: Doc, now: Doc, depthW: seq<nat>, depthN: seq<nat>, after: seq<nat>, key: nat)
    requires was.Valid(depthW) && now.Valid(depthN) && Visits(now.tree, after)
    ensures Mentions(Updates(was, now, after), key) <==> Touched(was, now, key)
    ensures Removed(key) !in Updates(was, now, after)
  {
    if Mentions(Updates(was, now, after), key) {
      var c :| c in Updates(was, now, after) && !c.Removed? && c.node == key;
      var k := JoinedComesFrom(PerNode(was, now, after), c);
      QuietMeansSame(was, now, after[k]);
    }
    if Removed(key) in Updates(was, now, after) {
      var k := JoinedComesFrom(PerNode(was, now, after), Removed(key));
      QuietMeansSame(was, now, after[k]);
      assert false;
    }
    if Touched(was, now, key) {
      var j := now.find[key];
      QuietMeansSame(was, now, j);
      assert j in after;
      var k :| 0 <= k < |after| && after[k] == j;
      var c := ChangesFor(was, now, j)[0];
      JoinedHas(PerNode(was, now, after), k, c);
    }
  }

  /** A difference removes what is gone and mentions what is touched, and nothing else. */
  lemma DiffMeans(was: Doc, now: Doc, depthW: seq<nat>, depthN: seq<nat>, before: seq<nat>, after: seq<nat>,
                  cs: seq<Change>, key: nat)
    requires was.Valid(depthW) && now.Valid(depthN) && Visits(was.tree, before) && Visits(now.tree, after)
    requires cs == Removals(was, now, before) + Updates(was, now, after)
    ensures Removed(key) in cs <==> key in was.find && key !in now.find
    ensures Mentions(cs, key) <==> Touched(was, now, key)
  {
    RemovedMeans(was, now, depthW, before, key);
    MentionedMeans(was, now, depthW, depthN, after, key);
    if Mentions(cs, key) {
      var c :| c in cs && !c.Removed? && c.node == key;
      if c in Removals(was, now, before) { var k := RemovalsComeFrom(was, now, before, c); }
    }
    if Mentions(Updates(was, now, after), key) {
      var c :| c in Updates(was, now, after) && !c.Removed? && c.node == key;
      assert c in cs;
    }
  }

  // ---- updates ----

  datatype UpdateKind = Snapshot | Delta

  datatype Update = Update(kind: UpdateKind, root: Option<nat>, part: nat, parts: nat, nodes: seq<WireNode>,
      removed: seq<nat>)

  datatype UpdateError =
    | TooManyNodes | TooManyRemoved | BadParts | StringTooLong | StringHasNul | ZeroKey | DuplicateKey
    | NonFiniteNumber | RootInvalid | SnapshotRemovesNodes

  function Strings(n: NodeData): seq<string> {
    [n.name, n.description]
    + (if n.props.value.Some? then [n.props.value.value] else [])
    + (if n.props.href.Some? then [n.props.href.value] else [])
  }

  ghost predicate CleanNode(n: NodeData) {
    && (forall i :: 0 <= i < |Strings(n)| ==> Bytes(Strings(n)[i]) <= MAX_STRING && '\0' !in Strings(n)[i])
    && (forall i :: 0 <= i < |n.props.range| ==> n.props.range[i].Finite?)
  }

  ghost predicate GoodNode(n: WireNode) {
    n.data.key != 0 && n.parent != Some(0) && CleanNode(n.data)
  }

  /** One test of an update, and the reason given if it fails. */
  datatype Test = Test(fails: bool, error: UpdateError)

  /** The reason of the first test that fails. */
  function FirstFailing(tests: seq<Test>): Option<UpdateError> {
    if tests == [] then None
    else if tests[0].fails then Some(tests[0].error)
    else FirstFailing(tests[1..])
  }

  lemma {:induction false} FirstFailingIs(tests: seq<Test>, e: UpdateError)
    ensures FirstFailing(tests) == Some(e) <==>
            exists k :: 0 <= k < |tests| && tests[k] == Test(true, e) && forall j :: 0 <= j < k ==> !tests[j].fails
    decreases |tests|
  {
    if tests != [] && !tests[0].fails {
      var rest := tests[1..];
      FirstFailingIs(rest, e);
      if FirstFailing(rest) == Some(e) {
        var k :| 0 <= k < |rest| && rest[k] == Test(true, e) && forall j :: 0 <= j < k ==> !rest[j].fails;
        assert tests[k + 1] == Test(true, e) && forall j :: 0 <= j < k + 1 ==> !tests[j].fails;
      }
      if k :| 0 <= k < |tests| && tests[k] == Test(true, e) && forall j :: 0 <= j < k ==> !tests[j].fails {
        assert rest[k - 1] == Test(true, e) && forall j :: 0 <= j < k - 1 ==> !rest[j].fails;
      }
    }
  }

  lemma {:induction false} FirstOfBoth(a: seq<Test>, b: seq<Test>)
    ensures FirstFailing(a + b) == if FirstFailing(a).Some? then FirstFailing(a) else FirstFailing(b)
    decreases |a|
  {
    if a == [] {
      assert a + b == b;
    } else {
      assert (a + b)[1..] == a[1..] + b;
      FirstOfBoth(a[1..], b);
    }
  }

  /** The tests of one string. */
  function StringTest(s: string): seq<Test> {
    [Test(Bytes(s) > MAX_STRING, StringTooLong), Test('\0' in s, StringHasNul)]
  }

  function StringTests(ss: seq<string>): seq<Test> {
    if ss == [] then [] else StringTests(ss[..|ss| - 1]) + StringTest(ss[|ss| - 1])
  }

  function NumberTests(ns: seq<Num>): seq<Test> {
    seq(|ns|, i requires 0 <= i < |ns| => Test(ns[i].NonFinite?, NonFiniteNumber))
  }

  function KeyTests(n: WireNode): seq<Test> {
    [Test(n.data.key == 0, ZeroKey), Test(n.parent == Some(0), ZeroKey)]
  }

  /** The tests of one node, in the order they are made. */
  function NodeTests(n: WireNode): seq<Test> {
    KeyTests(n) + (StringTests(Strings(n.data)) + NumberTests(n.data.props.range))
  }

  lemma StringTestIs(s: string)
    ensures FirstFailing(StringTest(s)) ==
            if Bytes(s) > MAX_STRING then Some(StringTooLong) else if '\0' in s then Some(StringHasNul) else None
  {
    var rest := [Test('\0' in s, StringHasNul)];
    assert StringTest(s)[1..] == rest && rest[1..] == [];
    assert FirstFailing(rest) == if '\0' in s then Some(StringHasNul) else None;
  }

  lemma {:induction false} StringTestsFront(ss: seq<string>, k: nat)
    requires k <= |ss| && FirstFailing(StringTests(ss[..k])).Some?
    ensures FirstFailing(StringTests(ss)) == FirstFailing(StringTests(ss[..k]))
    decreases |ss|
  {
    if k < |ss| {
      var front := ss[..|ss| - 1];
      assert front[..k] == ss[..k];
      StringTestsFront(front, k);
      FirstOfBoth(StringTests(front), StringTest(ss[|ss| - 1]));
    } else {
      assert ss[..k] == ss;
    }
  }

  method StringsError(ss: seq<string>) returns (e: Option<UpdateError>)
    ensures e == FirstFailing(StringTests(ss))
  {
    for i := 0 to |ss|
      invariant FirstFailing(StringTests(ss[..i])) == None
    {
      assert ss[..i + 1][..i] == ss[..i];
      FirstOfBoth(StringTests(ss[..i]), StringTest(ss[i]));
      StringTestIs(ss[i]);
      assert StringTests(ss[..i + 1]) == StringTests(ss[..i]) + StringTest(ss[i]);
      if Bytes(ss[i]) > MAX_STRING {
        StringTestsFront(ss, i + 1);
        return Some(StringTooLong);
      }
      if '\0' in ss[i] {
        StringTestsFront(ss, i + 1);
        return Some(StringHasNul);
      }
    }
    assert ss[..|ss|] == ss;
    return None;
  }

  lemma {:induction false} NumbersFail(ns: seq<Num>)
    ensures FirstFailing(NumberTests(ns)) ==
            if exists i :: 0 <= i < |ns| && ns[i].NonFinite? then Some(NonFiniteNumber) else None
    decreases |ns|
  {
    if ns != [] {
      assert NumberTests(ns)[1..] == NumberTests(ns[1..]);
      NumbersFail(ns[1..]);
      if i :| 0 <= i < |ns| && ns[i].NonFinite? && i > 0 { assert ns[1..][i - 1].NonFinite?; }
      if i :| 0 <= i < |ns[1..]| && ns[1..][i].NonFinite? { assert ns[i + 1].NonFinite?; }
    }
  }

  /** The first fault of a node, by the tests in order. */
  method NodeError(n: WireNode) returns (e: Option<UpdateError>)
    ensures e == FirstFailing(NodeTests(n))
  {
    var strings, numbers := StringTests(Strings(n.data)), NumberTests(n.data.props.range);
    FirstOfBoth(KeyTests(n), strings + numbers);
    FirstOfBoth(strings, numbers);
    assert KeyTests(n)[1..] == [Test(n.parent == Some(0), ZeroKey)];
    if n.data.key == 0 { return Some(ZeroKey); }
    if n.parent == Some(0) { return Some(ZeroKey); }
    e := StringsError(Strings(n.data));
    if e.Some? { return; }
    NumbersFail(n.data.props.range);
    for i := 0 to |n.data.props.range|
      invariant forall k :: 0 <= k < i ==> n.data.props.range[k].Finite?
    {
      if n.data.props.range[i].NonFinite? { return Some(NonFiniteNumber); }
    }
    return None;
  }

  lemma {:induction false} StringsPass(ss: seq<string>)
    ensures FirstFailing(StringTests(ss)).None? <==>
            forall i :: 0 <= i < |ss| ==> Bytes(ss[i]) <= MAX_STRING && '\0' !in ss[i]
    decreases |ss|
  {
    if ss != [] {
      var front := ss[..|ss| - 1];
      StringsPass(front);
      FirstOfBoth(StringTests(front), StringTest(ss[|ss| - 1]));
      StringTestIs(ss[|ss| - 1]);
    }
  }

  /** A node passes its tests exactly if its keys are not zero, its strings clean and its numbers finite. */
  lemma NodePasses(n: WireNode)
    ensures FirstFailing(NodeTests(n)).None? <==> GoodNode(n)
  {
    var strings, numbers := StringTests(Strings(n.data)), NumberTests(n.data.props.range);
    FirstOfBoth(KeyTests(n), strings + numbers);
    FirstOfBoth(strings, numbers);
    assert KeyTests(n)[1..] == [Test(n.parent == Some(0), ZeroKey)];
    StringsPass(Strings(n.data));
    NumbersFail(n.data.props.range);
  }

  ghost predicate DistinctKeys(nodes: seq<WireNode>) {
    forall i, j :: 0 <= i < j < |nodes| ==> nodes[i].data.key != nodes[j].data.key
  }

  ghost predicate RootOk(u: Update) {
    u.root.Some? ==>
      u.kind == Snapshot && u.part == 0 && u.root.value != 0
          && exists i :: 0 <= i < |u.nodes| && u.nodes[i].data.key == u.root.value
  }

  /** Everything the receiver's gate demands. */
  ghost predicate Acceptable(u: Update) {
    && |u.nodes| <= MAX_UPDATE_NODES && |u.removed| <= MAX_UPDATE_REMOVED
    && u.part < u.parts <= MAX_UPDATE_PARTS
    && (u.kind == Snapshot ==> u.removed == [])
    && 0 !in u.removed && RootOk(u)
    && (forall i :: 0 <= i < |u.nodes| ==> GoodNode(u.nodes[i]))
    && DistinctKeys(u.nodes)
  }

  /** The tests of an update as a whole, in the order they are made. */
  ghost function HeaderTests(u: Update): seq<Test> {
    [ Test(|u.nodes| > MAX_UPDATE_NODES, TooManyNodes),
      Test(|u.removed| > MAX_UPDATE_REMOVED, TooManyRemoved),
      Test(!(u.part < u.parts <= MAX_UPDATE_PARTS), BadParts),
      Test(u.kind == Snapshot && u.removed != [], SnapshotRemovesNodes),
      Test(0 in u.removed, ZeroKey),
      Test(!RootOk(u), RootInvalid) ]
  }

  /** A key was used by an earlier node. */
  ghost predicate Used(nodes: seq<WireNode>, key: nat) {
    exists i :: 0 <= i < |nodes| && nodes[i].data.key == key
  }

  /** The tests of the last node of a list. */
  ghost function LastTests(nodes: seq<WireNode>): seq<Test>
    requires nodes != []
  {
    var n := nodes[|nodes| - 1];
    NodeTests(n) + [Test(Used(nodes[..|nodes| - 1], n.data.key), DuplicateKey)]
  }

  /** The tests of the nodes, in turn. */
  ghost function NodesTests(nodes: seq<WireNode>): seq<Test> {
    if nodes == [] then [] else NodesTests(nodes[..|nodes| - 1]) + LastTests(nodes)
  }

  ghost function UpdateTests(u: Update): seq<Test> {
    HeaderTests(u) + NodesTests(u.nodes)
  }

  lemma FirstFrom(tests: seq<Test>, i: nat)
    requires i < |tests|
    ensures FirstFailing(tests[i..]) == if tests[i].fails then Some(tests[i].error) else FirstFailing(tests[i + 1..])
    ensures tests[0..] == tests && (i + 1 == |tests| ==> FirstFailing(tests[i + 1..]) == None)
  {
    assert tests[i..][1..] == tests[i + 1..];
  }

  lemma HeaderFails(u: Update)
    ensures FirstFailing(HeaderTests(u)) ==
            if |u.nodes| > MAX_UPDATE_NODES then Some(TooManyNodes)
            else if |u.removed| > MAX_UPDATE_REMOVED then Some(TooManyRemoved)
            else if !(u.part < u.parts <= MAX_UPDATE_PARTS) then Some(BadParts)
            else if u.kind == Snapshot && u.removed != [] then Some(SnapshotRemovesNodes)
            else if 0 in u.removed then Some(ZeroKey)
            else if !RootOk(u) then Some(RootInvalid)
            else None
  {
    var t := HeaderTests(u);
    FirstFrom(t, 5);
    FirstFrom(t, 4);
    FirstFrom(t, 3);
    FirstFrom(t, 2);
    FirstFrom(t, 1);
    FirstFrom(t, 0);
  }

  lemma {:induction false} NodesTestsFront(nodes: seq<WireNode>, k: nat)
    requires k <= |nodes| && FirstFailing(NodesTests(nodes[..k])).Some?
    ensures FirstFailing(NodesTests(nodes)) == FirstFailing(NodesTests(nodes[..k]))
    decreases |nodes|
  {
    if k < |nodes| {
      var front := nodes[..|nodes| - 1];
      assert front[..k] == nodes[..k];
      NodesTestsFront(front, k);
      FirstOfBoth(NodesTests(front), LastTests(nodes));
    } else {
      assert nodes[..k] == nodes;
    }
  }

  lemma DistinctMore(front: seq<WireNode>, n: WireNode)
    ensures DistinctKeys(front + [n]) <==> DistinctKeys(front) && !Used(front, n.data.key)
  {
    var nodes := front + [n];
    if DistinctKeys(nodes) {
      forall i, j | 0 <= i < j < |front| ensures front[i].data.key != front[j].data.key {
        assert nodes[i].data.key != nodes[j].data.key;
      }
      forall i | 0 <= i < |front| ensures front[i].data.key != n.data.key {
        assert nodes[i].data.key != nodes[|front|].data.key;
      }
    }
  }

  lemma {:induction false} NodesPass(nodes: seq<WireNode>)
    ensures FirstFailing(NodesTests(nodes)).None? <==>
            (forall i :: 0 <= i < |nodes| ==> GoodNode(nodes[i])) && DistinctKeys(nodes)
    decreases |nodes|
  {
    if nodes != [] {
      var front, n := nodes[..|nodes| - 1], nodes[|nodes| - 1];
      NodesPass(front);
      FirstOfBoth(NodesTests(front), LastTests(nodes));
      FirstOfBoth(NodeTests(n), [Test(Used(front, n.data.key), DuplicateKey)]);
      NodePasses(n);
      assert front + [n] == nodes;
      DistinctMore(front, n);
    }
  }

  /** An update passes its tests exactly if it meets every demand of the gate. */
  lemma UpdatePasses(u: Update)
    ensures FirstFailing(UpdateTests(u)).None? <==> Acceptable(u)
  {
    FirstOfBoth(HeaderTests(u), NodesTests(u.nodes));
    HeaderFails(u);
    NodesPass(u.nodes);
  }

  method NodesError(nodes: seq<WireNode>) returns (e: Option<UpdateError>)
    ensures e == FirstFailing(NodesTests(nodes))
  {
    var seen: set<nat> := {};
    for i := 0 to |nodes|
      invariant FirstFailing(NodesTests(nodes[..i])) == None
      invariant forall x :: x in seen <==> Used(nodes[..i], x)
    {
      var n := nodes[i];
      assert nodes[..i + 1][..i] == nodes[..i];
      ghost var again := [Test(Used(nodes[..i], n.data.key), DuplicateKey)];
      FirstOfBoth(NodesTests(nodes[..i]), LastTests(nodes[..i + 1]));
      FirstOfBoth(NodeTests(n), again);
      var bad := NodeError(n);
      if bad.Some? || n.data.key in seen {
        NodesTestsFront(nodes, i + 1);
        return if bad.Some? then bad else Some(DuplicateKey);
      }
      forall x ensures Used(nodes[..i + 1], x) <==> Used(nodes[..i], x) || x == n.data.key {
        if k :| 0 <= k < i && nodes[..i][k].data.key == x { assert nodes[..i + 1][k].data.key == x; }
        assert nodes[..i + 1][i] == n;
      }
      seen := seen + {n.data.key};
    }
    assert nodes[..|nodes|] == nodes;
    return None;
  }

  /** The first limit an update breaks; none exactly if it meets every demand of the gate. */
  method Validate(u: Update) returns (e: Option<UpdateError>)
    ensures e == FirstFailing(UpdateTests(u))
    ensures e.None? <==> Acceptable(u)
  {
    UpdatePasses(u);
    FirstOfBoth(HeaderTests(u), NodesTests(u.nodes));
    HeaderFails(u);
    if |u.nodes| > MAX_UPDATE_NODES { return Some(TooManyNodes); }
    if |u.removed| > MAX_UPDATE_REMOVED { return Some(TooManyRemoved); }
    if u.parts == 0 || u.parts > MAX_UPDATE_PARTS || u.part >= u.parts { return Some(BadParts); }
    if u.kind == Snapshot && u.removed != [] { return Some(SnapshotRemovesNodes); }
    if 0 in u.removed { return Some(ZeroKey); }
    if u.root.Some? {
      if !(u.kind == Snapshot && u.part == 0 && u.root.value != 0
           && exists i :: 0 <= i < |u.nodes| && u.nodes[i].data.key == u.root.value) {
        return Some(RootInvalid);
      }
    }
    e := NodesError(u.nodes);
  }

  // ---- splitting ----

  function DivCeil(n: nat, d: nat): (q: nat)
    requires d > 0
    ensures n <= q * d < n + d
  {
    (n + d - 1) / d
  }

  function Max(a: nat, b: nat): nat { if a > b then a else b }

  /** The `i`-th chunk of a list, empty past the end. */
  function Chunk<T>(s: seq<T>, size: nat, i: nat): (c: seq<T>)
    ensures |c| <= size
  {
    var lo, hi := i * size, i * size + size;
    if lo >= |s| then [] else if hi >= |s| then s[lo..] else s[lo..hi]
  }

  function PartCount(nodes: nat, removed: nat): nat {
    var wanted := Max(Max(DivCeil(nodes, MAX_UPDATE_NODES), DivCeil(removed, MAX_UPDATE_REMOVED)), 1);
    if wanted > MAX_UPDATE_PARTS then MAX_UPDATE_PARTS else wanted
  }

  function Split(kind: UpdateKind, root: Option<nat>, nodes: seq<WireNode>, removed: seq<nat>): seq<Update> {
    var parts := PartCount(|nodes|, |removed|);
    seq(parts, i requires 0 <= i < parts =>
      Update(kind, if i == 0 then root else None, i, parts,
             Chunk(nodes, MAX_UPDATE_NODES, i), Chunk(removed, MAX_UPDATE_REMOVED, i)))
  }

  /** The parts are of one kind and numbered, and only the first names a root. */
  ghost predicate Numbered(us: seq<Update>, kind: UpdateKind, root: Option<nat>) {
    forall p :: 0 <= p < |us| ==>
      us[p].kind == kind && us[p].part == p && us[p].parts == |us| && us[p].root == if p == 0 then root else None
  }

  ghost function AllNodesOf(us: seq<Update>): seq<WireNode> {
    if us == [] then [] else AllNodesOf(us[..|us| - 1]) + us[|us| - 1].nodes
  }

  ghost function AllRemovedOf(us: seq<Update>): seq<nat> {
    if us == [] then [] else AllRemovedOf(us[..|us| - 1]) + us[|us| - 1].removed
  }

  function Upto<T>(s: seq<T>, n: nat): seq<T> { if n >= |s| then s else s[..n] }

  lemma ChunkExtends<T>(s: seq<T>, size: nat, i: nat)
    ensures Upto(s, i * size) + Chunk(s, size, i) == Upto(s, (i + 1) * size)
  {
  }

  /** The parts carry consecutive chunks of the two lists. */
  ghost predicate PartsOf(us: seq<Update>, nodes: seq<WireNode>, removed: seq<nat>) {
    forall i :: 0 <= i < |us| ==>
      us[i].nodes == Chunk(nodes, MAX_UPDATE_NODES, i) && us[i].removed == Chunk(removed, MAX_UPDATE_REMOVED, i)
  }

  /** The first `k` parts carry the front of the lists. */
  lemma {:induction false} PartsConcatenate(us: seq<Update>, nodes: seq<WireNode>, removed: seq<nat>, k: nat)
    requires PartsOf(us, nodes, removed) && k <= |us|
    ensures AllNodesOf(us[..k]) == Upto(nodes, k * MAX_UPDATE_NODES)
    ensures AllRemovedOf(us[..k]) == Upto(removed, k * MAX_UPDATE_REMOVED)
    decreases k
  {
    if k > 0 {
      PartsConcatenate(us, nodes, removed, k - 1);
      assert us[..k][..k - 1] == us[..k - 1];
      ChunkExtends(nodes, MAX_UPDATE_NODES, k - 1);
      ChunkExtends(removed, MAX_UPDATE_REMOVED, k - 1);
    }
  }

  lemma EnoughParts(nodes: nat, removed: nat)
    ensures var n := PartCount(nodes, removed);
            (nodes <= n * MAX_UPDATE_NODES && removed <= n * MAX_UPDATE_REMOVED) <==>
            (nodes <= MAX_UPDATE_PARTS * MAX_UPDATE_NODES && removed <= MAX_UPDATE_PARTS * MAX_UPDATE_REMOVED)
  {
  }

  /** No more parts than needed: with any fewer, one list would not fit; never none, and never over the cap. */
  lemma FewestParts(kind: UpdateKind, root: Option<nat>, nodes: seq<WireNode>, removed: seq<nat>, k: nat)
    requires 1 <= k < |Split(kind, root, nodes, removed)|
    ensures |nodes| > k * 1024 || |removed| > k * 4096
    ensures |Split(kind, root, nodes, removed)| <= 1024
  {
  }

  /** Nothing is lost exactly when both lists fit under the part cap. */
  lemma SplitIsLossless(kind: UpdateKind, root: Option<nat>, nodes: seq<WireNode>, removed: seq<nat>, us: seq<Update>)
    requires us == Split(kind, root, nodes, removed)
    ensures AllNodesOf(us) == nodes && AllRemovedOf(us) == removed <==>
            |nodes| <= MAX_UPDATE_PARTS * MAX_UPDATE_NODES && |removed| <= MAX_UPDATE_PARTS * MAX_UPDATE_REMOVED
  {
    PartsConcatenate(us, nodes, removed, |us|);
    assert us[..|us|] == us;
    EnoughParts(|nodes|, |removed|);
  }
}
