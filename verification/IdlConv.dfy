/**
  What the lowering emits for an accepted type (crates/px-bindings/src/ir.rs):
  every union anywhere in the conversion looks at each of its members once.
 */
module IdlConv {
  import opened Common
  import opened IdlTypes

  ghost predicate HasInnerConv(c: Conv) {
    || c.VSequence? || c.VAsyncSequence? || c.VFrozenArray? || c.VObservableArray? || c.VRecord? || c.VPromise?
    || c.VNullable?
  }

  /** The conversion `u` is part of `c`, at any depth. */
  ghost predicate Occurs(u: Conv, c: Conv)
    decreases c
  {
    || u == c
    || (HasInnerConv(c) && Occurs(u, c.inner))
    || (c.VUnion? && exists i :: 0 <= i < |c.members| && Occurs(u, c.members[i]))
  }

  lemma {:induction false} FlattenedAreOk(ts: seq<RType>, m: RType)
    requires AllOk(ts) && m in FlattenAll(ts)
    ensures AllUnionsOk(m)
    decreases Sizes(ts)
  {
    assert Sizes(ts) == Size(ts[0]) + Sizes(ts[1..]);
    assert AllUnionsOk(ts[0]);
    if m in Flatten(ts[0]) {
      if ts[0].kind.Union? {
        assert Size(ts[0]) == 1 + Sizes(ts[0].kind.members);
        FlattenedAreOk(ts[0].kind.members, m);
      }
    } else {
      FlattenedAreOk(ts[1..], m);
    }
  }

  /** A type that is not a union converts to its inner conversion, or to a leaf, possibly behind a nullable. */
  lemma InnerConversion(t: RType, u: Conv)
    requires !t.kind.Union? && u.VUnion? && Occurs(u, ConvOf(t))
    ensures HasInner(t.kind) && Occurs(u, ConvOf(t.kind.inner))
  {
    var c := ConvOf(t);
    if t.nullable { assert Occurs(u, c.inner); }
  }

  /** Of a type the resolver accepts, every union in the emitted conversion has each member in exactly one step. */
  lemma {:induction false} EmittedUnionsCover(t: RType, u: Conv)
    requires AllUnionsOk(t) && u.VUnion? && Occurs(u, ConvOf(t))
    ensures EachOnce(u.members, u.steps)
    decreases Size(t)
  {
    if t.kind.Union? {
      var ms := MemberConvs(t);
      var nullable := t.nullable || SomeNullable(Flatten(t));
      var whole := VUnion(ms, UnionSteps(ms, nullable));
      assert ConvOf(t) == Wrap(whole, nullable);
      assert Occurs(u, whole);
      if u == whole {
        AcceptedUnionIsCovered(t, nullable);
      } else {
        var i :| 0 <= i < |ms| && Occurs(u, ms[i]);
        EmittedMember(t, u, i);
      }
    } else {
      InnerConversion(t, u);
      EmittedUnionsCover(t.kind.inner, u);
    }
  }

  lemma {:induction false} EmittedMember(t: RType, u: Conv, i: nat)
    requires t.kind.Union? && AllUnionsOk(t) && i < |Flatten(t)| && u.VUnion? && Occurs(u, MemberConvs(t)[i])
    ensures EachOnce(u.members, u.steps)
    decreases Size(t), 0
  {
    var m := Flatten(t)[i];
    FlattenIsSmaller(t.kind.members, m);
    FlattenedAreOk(t.kind.members, m);
    var plain := m.(nullable := false);
    InnerConversion(plain, u);
    EmittedUnionsCover(m.kind.inner, u);
  }
}
