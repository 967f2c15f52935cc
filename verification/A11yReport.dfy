/**
  Laws of a difference (crates/px-a11y/src/diff.rs), told from the two trees:
  exactly the true changes are reported, with the values they had and have, once
  each, and in document order.
 */
module A11yReport {
  import opened Common
  import opened A11yTree
  import opened A11yWalk
  import opened A11yWire
  import opened A11yOwns

  // ---- which changes are reported ----

  ghost predicate InBoth(was: Doc, now: Doc, n: nat) {
    n in was.find && n in now.find && was.find[n] < |was.nodes| && now.find[n] < |now.nodes|
  }

  /** The data of the node with a key. */
  ghost function At(doc: Doc, n: nat): NodeData
    requires n in doc.find && doc.find[n] < |doc.nodes|
  {
    doc.nodes[doc.find[n]]
  }

  /** A change is true of two trees: it gives the values a node had and has, and they differ. */
  ghost predicate IsTrue(was: Doc, now: Doc, c: Change) {
    match c
    case Removed(n) => n in was.find && n !in now.find
    case Added(n, parent) => n !in was.find && n in now.find && parent == now.ParentKey(now.find[n])
    case Moved(n, a, b) =>
      InBoth(was, now, n) && a == was.ParentKey(was.find[n]) && b == now.ParentKey(now.find[n]) && a != b
    case ChildrenChanged(n) => InBoth(was, now, n) && was.ChildKeys(was.find[n]) != now.ChildKeys(now.find[n])
    case RoleChanged(n, a, b) => InBoth(was, now, n) && a == At(was, n).role && b == At(now, n).role && a != b
    case NameChanged(n, a, b) => InBoth(was, now, n) && a == At(was, n).name && b == At(now, n).name && a != b
    case DescriptionChanged(n, a, b) =>
      InBoth(was, now, n) && a == At(was, n).description && b == At(now, n).description && a != b
    case StatesChanged(n, a, b) => InBoth(was, now, n) && a == At(was, n).states && b == At(now, n).states && a != b
    case PropsChanged(n, a, b) => InBoth(was, now, n) && a == At(was, n).props && b == At(now, n).props && a != b
    case BoundsChanged(n, a, b) => InBoth(was, now, n) && a == At(was, n).bounds && b == At(now, n).bounds && a != b
  }

  /** The place of a change among those of one node. */
  ghost function FieldOf(c: Change): nat {
    match c
    case Moved(_, _, _) => 0
    case RoleChanged(_, _, _) => 1
    case NameChanged(_, _, _) => 2
    case DescriptionChanged(_, _, _) => 3
    case StatesChanged(_, _, _) => 4
    case PropsChanged(_, _, _) => 5
    case BoundsChanged(_, _, _) => 6
    case ChildrenChanged(_) => 7
    case _ => 8
  }

  ghost predicate TrueCheck(was: Doc, now: Doc, key: nat, k: nat, check: Check) {
    FieldOf(check.change) == k && check.change.node == key && (check.differs <==> IsTrue(was, now, check.change))
  }

  lemma PlaceChecks(was: Doc, now: Doc, key: nat)
    requires InBoth(was, now, key) && At(now, key).key == key
    ensures var checks := Checks(was, was.find[key], now, now.find[key]);
            |checks| == 8 && TrueCheck(was, now, key, 0, checks[0]) && TrueCheck(was, now, key, 7, checks[7])
  {
    var checks, i, j := Checks(was, was.find[key], now, now.find[key]), was.find[key], now.find[key];
    assert checks[0] == Check(was.ParentKey(i) != now.ParentKey(j), Moved(key, was.ParentKey(i), now.ParentKey(j)));
    assert checks[7] == Check(was.ChildKeys(i) != now.ChildKeys(j), ChildrenChanged(key));
  }

  lemma TextChecks(was: Doc, now: Doc, key: nat)
    requires InBoth(was, now, key) && At(now, key).key == key
    ensures var checks := Checks(was, was.find[key], now, now.find[key]);
            && |checks| == 8 && TrueCheck(was, now, key, 1, checks[1])
            && TrueCheck(was, now, key, 2, checks[2]) && TrueCheck(was, now, key, 3, checks[3])
  {
    var checks, o, n := Checks(was, was.find[key], now, now.find[key]), At(was, key), At(now, key);
    assert checks[1] == Check(o.role != n.role, RoleChanged(key, o.role, n.role));
    assert checks[2] == Check(o.name != n.name, NameChanged(key, o.name, n.name));
    assert checks[3] == Check(o.description != n.description, DescriptionChanged(key, o.description, n.description));
  }

  lemma ValueChecks(was: Doc, now: Doc, key: nat)
    requires InBoth(was, now, key) && At(now, key).key == key
    ensures var checks := Checks(was, was.find[key], now, now.find[key]);
            && |checks| == 8 && TrueCheck(was, now, key, 4, checks[4])
            && TrueCheck(was, now, key, 5, checks[5]) && TrueCheck(was, now, key, 6, checks[6])
  {
    var checks, o, n := Checks(was, was.find[key], now, now.find[key]), At(was, key), At(now, key);
    assert checks[4] == Check(o.states != n.states, StatesChanged(key, o.states, n.states));
    assert checks[5] == Check(o.props != n.props, PropsChanged(key, o.props, n.props));
    assert checks[6] == Check(o.bounds != n.bounds, BoundsChanged(key, o.bounds, n.bounds));
  }

  lemma AllChecksByField(was: Doc, now: Doc, key: nat)
    requires InBoth(was, now, key) && At(now, key).key == key
    ensures var checks := Checks(was, was.find[key], now, now.find[key]);
            |checks| == 8 && forall k :: 0 <= k < 8 ==> TrueCheck(was, now, key, k, checks[k])
  {
    PlaceChecks(was, now, key);
    TextChecks(was, now, key);
    ValueChecks(was, now, key);
  }

  /** A true change of a node in both trees is the change of its own comparison. */
  lemma TrueIsCompared(was: Doc, now: Doc, c: Change)
    requires InBoth(was, now, c.node) && At(now, c.node).key == c.node && IsTrue(was, now, c)
    ensures FieldOf(c) < 8 && Checks(was, was.find[c.node], now, now.find[c.node])[FieldOf(c)] == Check(true, c)
  {
  }

  lemma ChangesAreTrue(was: Doc, now: Doc, depthW: seq<nat>, depthN: seq<nat>, j: nat, c: Change)
    requires was.Valid(depthW) && now.Valid(depthN) && j < |now.nodes|
    ensures c in ChangesFor(was, now, j) <==> !c.Removed? && c.node == now.nodes[j].key && IsTrue(was, now, c)
  {
    var key := now.nodes[j].key;
    if key in was.find {
      AllChecksByField(was, now, key);
      FailingAre(Checks(was, was.find[key], now, j));
      if !c.Removed? && c.node == key && IsTrue(was, now, c) { TrueIsCompared(was, now, c); }
    }
  }

  lemma UpdatesAreTrue(was: Doc, now: Doc, depthW: seq<nat>, depthN: seq<nat>, after: seq<nat>, c: Change)
    requires was.Valid(depthW) && now.Valid(depthN) && Visits(now.tree, after) && !c.Removed?
    ensures c in Updates(was, now, after) <==> IsTrue(was, now, c)
  {
    if c in Updates(was, now, after) {
      var k := JoinedComesFrom(PerNode(was, now, after), c);
      ChangesAreTrue(was, now, depthW, depthN, after[k], c);
    }
    if IsTrue(was, now, c) {
      var j := now.find[c.node];
      ChangesAreTrue(was, now, depthW, depthN, j, c);
      assert j in after;
      var k :| 0 <= k < |after| && after[k] == j;
      JoinedHas(PerNode(was, now, after), k, c);
    }
  }

  /** A difference reports exactly the changes that are true of the two trees. */
  lemma ReportIsTrue(was: Doc, now: Doc, depthW: seq<nat>, depthN: seq<nat>, before: seq<nat>, after: seq<nat>,
                     c: Change)
    requires was.Valid(depthW) && now.Valid(depthN) && Visits(was.tree, before) && Visits(now.tree, after)
    ensures c in Removals(was, now, before) + Updates(was, now, after) <==> IsTrue(was, now, c)
  {
    if c.Removed? {
      RemovedMeans(was, now, depthW, before, c.node);
      MentionedMeans(was, now, depthW, depthN, after, c.node);
    } else {
      if c in Removals(was, now, before) { var k := RemovalsComeFrom(was, now, before, c); }
      UpdatesAreTrue(was, now, depthW, depthN, after, c);
    }
  }

  // ---- in which order ----

  ghost predicate ByField(cs: seq<Change>) {
    forall a, b :: 0 <= a < b < |cs| ==> FieldOf(cs[a]) < FieldOf(cs[b])
  }

  lemma {:induction false} FailingByField(checks: seq<Check>)
    requires forall k :: 0 <= k < |checks| ==> FieldOf(checks[k].change) == k
    ensures ByField(Failing(checks)) && forall c :: c in Failing(checks) ==> FieldOf(c) < |checks|
    decreases |checks|
  {
    if checks != [] {
      var front, n := Failing(checks[..|checks| - 1]), |checks| - 1;
      FailingByField(checks[..n]);
      forall a, b | 0 <= a < b < |Failing(checks)| ensures FieldOf(Failing(checks)[a]) < FieldOf(Failing(checks)[b]) {
        if b == |front| { assert front[a] in front; }
      }
    }
  }

  lemma ChangesByField(was: Doc, now: Doc, depthW: seq<nat>, depthN: seq<nat>, j: nat)
    requires was.Valid(depthW) && now.Valid(depthN) && j < |now.nodes|
    ensures ByField(ChangesFor(was, now, j))
  {
    var key := now.nodes[j].key;
    if key in was.find {
      AllChecksByField(was, now, key);
      FailingByField(Checks(was, was.find[key], now, j));
    }
  }

  /** Where a change of a joined list comes from. */
  lemma {:induction false} JoinedAt(css: seq<seq<Change>>, a: nat) returns (k: nat, i: nat)
    requires a < |Joined(css)|
    ensures k < |css| && i < |css[k]| && css[k][i] == Joined(css)[a]
    ensures a == |Joined(css[..k])| + i
    decreases |css|
  {
    var n := |css| - 1;
    var front := Joined(css[..n]);
    if a < |front| {
      k, i := JoinedAt(css[..n], a);
      assert css[..n][..k] == css[..k];
    } else {
      k, i := n, a - |front|;
    }
  }

  lemma {:induction false} JoinedFront(css: seq<seq<Change>>, k: nat, l: nat)
    requires k < l <= |css|
    ensures |Joined(css[..k])| + |css[k]| <= |Joined(css[..l])|
    decreases l
  {
    assert css[..l][..l - 1] == css[..l - 1];
    if k < l - 1 { JoinedFront(css, k, l - 1); }
  }

  lemma JoinedInOrder(css: seq<seq<Change>>, a: nat, b: nat) returns (k: nat, i: nat, l: nat, j: nat)
    requires a < b < |Joined(css)|
    ensures k <= l < |css| && i < |css[k]| && j < |css[l]| && (k == l ==> i < j)
    ensures css[k][i] == Joined(css)[a] && css[l][j] == Joined(css)[b]
  {
    k, i := JoinedAt(css, a);
    l, j := JoinedAt(css, b);
    if l < k { JoinedFront(css, l, k); }
  }

  lemma {:induction false} RemovalsInOrder(was: Doc, now: Doc, order: seq<nat>, a: nat, b: nat) returns (i: nat, j: nat)
    requires a < b < |Removals(was, now, order)|
    ensures i < j < |order|
    ensures Removals(was, now, order)[a] == Removed(was.Key(order[i]))
    ensures Removals(was, now, order)[b] == Removed(was.Key(order[j]))
    decreases |order|
  {
    var n := |order| - 1;
    var front := Removals(was, now, order[..n]);
    if b < |front| {
      i, j := RemovalsInOrder(was, now, order[..n], a, b);
    } else {
      assert front[a] in front;
      i := RemovalsComeFrom(was, now, order[..n], front[a]);
      j := n;
    }
  }

  /**
    Removals come first, in the old document order; then the rest in the new
    one, those of one node by field.
   */
  ghost predicate Follows(was: Doc, now: Doc, before: seq<nat>, after: seq<nat>, c: Change, d: Change) {
    if c.Removed? then
      d.Removed? ==> c.node in was.find && d.node in was.find && Before(before, was.find[c.node], was.find[d.node])
    else
      && !d.Removed?
      && if c.node == d.node then FieldOf(c) < FieldOf(d)
         else c.node in now.find && d.node in now.find && Before(after, now.find[c.node], now.find[d.node])
  }

  lemma RemovalsFollow(was: Doc, now: Doc, depthW: seq<nat>, before: seq<nat>, after: seq<nat>, c: Change, d: Change,
                       a: nat, b: nat)
    requires was.Valid(depthW) && Visits(was.tree, before) && a < b < |Removals(was, now, before)|
    requires c == Removals(was, now, before)[a] && d == Removals(was, now, before)[b]
    ensures Follows(was, now, before, after, c, d)
  {
    var i, j := RemovalsInOrder(was, now, before, a, b);
  }

  lemma UpdatesFollow(was: Doc, now: Doc, depthW: seq<nat>, depthN: seq<nat>, before: seq<nat>, after: seq<nat>,
                      c: Change, d: Change, a: nat, b: nat)
    requires was.Valid(depthW) && now.Valid(depthN) && Visits(now.tree, after) && Unrepeated(after)
    requires a < b < |Updates(was, now, after)|
    requires c == Updates(was, now, after)[a] && d == Updates(was, now, after)[b]
    ensures Follows(was, now, before, after, c, d)
  {
    var css := PerNode(was, now, after);
    var k, i, l, j := JoinedInOrder(css, a, b);
    assert c in css[k] && d in css[l];
    ChangesAreTrue(was, now, depthW, depthN, after[k], c);
    ChangesAreTrue(was, now, depthW, depthN, after[l], d);
    if k == l {
      ChangesByField(was, now, depthW, depthN, after[k]);
    } else {
      assert after[k] != after[l];
      assert now.find[c.node] == after[k] && now.find[d.node] == after[l];
    }
  }

  lemma PartsFollow(was: Doc, now: Doc, depthW: seq<nat>, depthN: seq<nat>, before: seq<nat>, after: seq<nat>,
                    c: Change, d: Change)
    requires was.Valid(depthW) && now.Valid(depthN) && Visits(was.tree, before) && Visits(now.tree, after)
    requires c in Removals(was, now, before) && d in Updates(was, now, after)
    ensures Follows(was, now, before, after, c, d)
  {
    var k := RemovalsComeFrom(was, now, before, c);
    MentionedMeans(was, now, depthW, depthN, after, d.node);
  }

  lemma JoinedFollow(was: Doc, now: Doc, before: seq<nat>, after: seq<nat>, gone: seq<Change>, rest: seq<Change>,
                     a: nat, b: nat)
    requires forall i, j :: 0 <= i < j < |gone| ==> Follows(was, now, before, after, gone[i], gone[j])
    requires forall i, j :: 0 <= i < j < |rest| ==> Follows(was, now, before, after, rest[i], rest[j])
    requires forall c, d :: c in gone && d in rest ==> Follows(was, now, before, after, c, d)
    requires a < b < |gone + rest|
    ensures Follows(was, now, before, after, (gone + rest)[a], (gone + rest)[b])
  {
    var n := |gone|;
    if b < n {
      assert Follows(was, now, before, after, gone[a], gone[b]);
    } else if a >= n {
      assert Follows(was, now, before, after, rest[a - n], rest[b - n]);
    } else {
      assert gone[a] in gone && rest[b - n] in rest;
    }
  }

  lemma AllFollow(was: Doc, now: Doc, depthW: seq<nat>, depthN: seq<nat>, before: seq<nat>, after: seq<nat>,
                  a: nat, b: nat)
    requires was.Valid(depthW) && now.Valid(depthN) && Visits(was.tree, before) && Visits(now.tree, after)
            && Unrepeated(after)
    requires a < b < |Removals(was, now, before) + Updates(was, now, after)|
    ensures var cs := Removals(was, now, before) + Updates(was, now, after);
            Follows(was, now, before, after, cs[a], cs[b])
  {
    var gone, rest := Removals(was, now, before), Updates(was, now, after);
    forall i, j | 0 <= i < j < |gone| ensures Follows(was, now, before, after, gone[i], gone[j]) {
      RemovalsFollow(was, now, depthW, before, after, gone[i], gone[j], i, j);
    }
    forall i, j | 0 <= i < j < |rest| ensures Follows(was, now, before, after, rest[i], rest[j]) {
      UpdatesFollow(was, now, depthW, depthN, before, after, rest[i], rest[j], i, j);
    }
    forall c, d | c in gone && d in rest ensures Follows(was, now, before, after, c, d) {
      PartsFollow(was, now, depthW, depthN, before, after, c, d);
    }
    JoinedFollow(was, now, before, after, gone, rest, a, b);
  }

  /** Every two changes of a difference are in that order. */
  lemma ReportIsOrdered(was: Doc, now: Doc, depthW: seq<nat>, depthN: seq<nat>, cs: seq<Change>, a: nat, b: nat)
    requires was.Valid(depthW) && now.Valid(depthN) && AllNodes(now.tree, Preorder(now.tree, depthN, 0))
    requires cs == Removals(was, now, Preorder(was.tree, depthW, 0)) + Updates(was, now, Preorder(now.tree, depthN, 0))
    requires a < b < |cs|
    ensures Follows(was, now, Preorder(was.tree, depthW, 0), Preorder(now.tree, depthN, 0), cs[a], cs[b])
  {
    EveryNodeOnce(was.tree, depthW);
    EveryNodeOnce(now.tree, depthN);
    TraversalInside(was.tree, Preorder(was.tree, depthW, 0));
    TraversalInside(now.tree, Preorder(now.tree, depthN, 0));
    AllFollow(was, now, depthW, depthN, Preorder(was.tree, depthW, 0), Preorder(now.tree, depthN, 0), a, b);
  }
}
