/**
  What acceptance of a union buys its conversion, kind by kind
  (crates/px-bindings/src/resolve.rs, `check_union`, and ir.rs, `union_steps`
  and `conv`).
 */
module IdlDistinct {
  import opened Common
  import opened IdlTypes

  // ---- the whole check ----

  /** A type is accepted exactly if every union in it, at any depth, keeps the rules on kinds. */
  lemma {:induction false} AcceptedMeans(t: RType)
    ensures AllUnionsOk(t) <==> forall x :: Within(x, t) && x.kind.Union? ==> UnionRules(x)
    decreases t
  {
    if AllUnionsOk(t) {
      forall x | Within(x, t) && x.kind.Union? ensures UnionRules(x) {
        UnionsWithinAreOk(x, t);
        UnionOkMeans(x);
      }
    }
    if forall x :: Within(x, t) && x.kind.Union? ==> UnionRules(x) {
      if t.kind.Union? {
        UnionOkMeans(t);
        assert Within(t, t);
        forall i | 0 <= i < |t.kind.members| ensures AllUnionsOk(t.kind.members[i]) {
          assert forall x :: Within(x, t.kind.members[i]) ==> Within(x, t);
          AcceptedMeans(t.kind.members[i]);
        }
      } else if HasInner(t.kind) {
        assert forall x :: Within(x, t.kind.inner) ==> Within(x, t);
        AcceptedMeans(t.kind.inner);
      }
    }
  }

  // ---- the steps ----

  /** Where a member's kind comes in the conversion of a union (section 3.2.24 of Web IDL). */
  function MemberRank(k: RKind): nat {
    match k
    case Interface(_) => 0
    case Buffer(_) => 1
    case CallbackFunction(_) => 2
    case Sequence(_) => 3
    case AsyncSequence(_) => 3
    case FrozenArray(_) => 3
    case ObservableArray(_) => 3
    case CallbackInterface(_) => 4
    case Dictionary(_) => 4
    case Record(_, _) => 4
    case Boolean => 5
    case Integer(_, _) => 6
    case Float(_, _) => 6
    case Bigint => 7
    case Object => 8
    case Symbol => 9
    case StringKind(_) => 10
    case Enum(_) => 10
    case _ => 11
  }

  lemma RankOfMember(m: RType)
    requires !m.kind.Union? && !Banned(m.kind)
    ensures KindOf(ConvOf(m.(nullable := false))).Some?
    ensures KindRank(KindOf(ConvOf(m.(nullable := false))).value) == MemberRank(m.kind)
  {
  }

  lemma MemberRanks(t: RType, i: nat)
    requires t.kind.Union? && UnionOk(t) && i < |Flatten(t)|
    ensures KindOf(MemberConvs(t)[i]).Some?
    ensures KindRank(KindOf(MemberConvs(t)[i]).value) == MemberRank(Flatten(t)[i].kind)
  {
    FlattenedLeaves(t.kind.members, i);
    RankOfMember(Flatten(t)[i]);
  }

  /** Of two members, the one whose kind comes first in Web IDL is looked at by the earlier step. */
  lemma StepsByRank(t: RType, nullable: bool, p: nat, i: nat, q: nat, j: nat)
    requires t.kind.Union? && UnionOk(t)
    requires var steps := UnionSteps(MemberConvs(t), nullable); Holds(steps, p, i) && Holds(steps, q, j)
    ensures i < |Flatten(t)| && j < |Flatten(t)|
    ensures p < q <==> MemberRank(Flatten(t)[i].kind) < MemberRank(Flatten(t)[j].kind)
  {
    var steps := UnionSteps(MemberConvs(t), nullable);
    AcceptedUnionIsCovered(t, nullable);
    assert OneStepEach(MemberConvs(t), steps) && StepsInOrder(steps);
    MemberRanks(t, i);
    MemberRanks(t, j);
  }

  lemma DictionaryConversion(m: RType)
    requires !m.kind.Union?
    ensures ConvOf(m.(nullable := false)).VDictionary? <==> m.kind.Dictionary?
  {
  }

  /** Null and undefined are looked at first, exactly if null is allowed or a dictionary is a member. */
  lemma NullishWhen(t: RType, nullable: bool)
    requires t.kind.Union?
    ensures var steps := UnionSteps(MemberConvs(t), nullable);
            steps != [] && steps[0].NullishToDictionaryOrNull? <==> nullable || SomeDictionary(Flatten(t))
  {
    var ms, flat := MemberConvs(t), Flatten(t);
    forall i | 0 <= i < |flat| ensures ms[i].VDictionary? <==> flat[i].kind.Dictionary? {
      FlattenedLeaves(t.kind.members, i);
      DictionaryConversion(flat[i]);
    }
    if SomeDictionary(flat) {
      var i :| 0 <= i < |flat| && flat[i].kind.Dictionary?;
      assert ms[i].VDictionary?;
    }
    if AnyDictionary(ms) {
      var i :| 0 <= i < |ms| && ms[i].VDictionary?;
      assert flat[i].kind.Dictionary?;
    }
    var kinds := OrderOfKinds();
    StepsAscend(ms, kinds);
    assert ConvertSteps(ms) == StepsFor(ms, kinds);
  }

  /** Two members that one step looks at are interfaces, or buffers; any other two of one rank clash. */
  lemma SameRankClashes(a: RKind, b: RKind)
    requires MemberRank(a) == MemberRank(b) && 1 < MemberRank(a) < 11
    ensures Clash(a, b)
  {
  }

  lemma StepIds(ms: seq<Conv>, nullable: bool, p: nat)
    requires p < |UnionSteps(ms, nullable)| && UnionSteps(ms, nullable)[p].Convert?
    ensures var step := UnionSteps(ms, nullable)[p]; step.ids == Picked(ms, step.kind) && step.ids != []
  {
    var kinds := OrderOfKinds();
    StepsAscend(ms, kinds);
    assert ConvertSteps(ms) == StepsFor(ms, kinds);
  }

  lemma RankInside(k: StepKind)
    ensures KindRank(k) < 11 && (KindRank(k) <= 1 <==> k == PlatformObject || k == BufferView)
  {
  }

  /** A step of an accepted union other than the ones for interfaces and buffers looks at exactly one member. */
  lemma OneMemberSteps(t: RType, nullable: bool, p: nat)
    requires t.kind.Union? && UnionOk(t)
    requires var steps := UnionSteps(MemberConvs(t), nullable);
             p < |steps| && steps[p].Convert? && steps[p].kind != PlatformObject && steps[p].kind != BufferView
    ensures |UnionSteps(MemberConvs(t), nullable)[p].ids| == 1
  {
    var ms, steps := MemberConvs(t), UnionSteps(MemberConvs(t), nullable);
    var k := steps[p].kind;
    StepIds(ms, nullable, p);
    UnionOkMeans(t);
    IndicesAre(ms, k);
    var ids := steps[p].ids;
    if |ids| > 1 {
      assert ids[0] in Indices(ms, k) && ids[1] in Indices(ms, k) && ids[0] < ids[1];
      MemberRanks(t, ids[0]);
      MemberRanks(t, ids[1]);
      RankInside(k);
      SameRankClashes(Flatten(t)[ids[0]].kind, Flatten(t)[ids[1]].kind);
      assert false;
    }
  }

  // ---- the conversion of one type ----

  ghost predicate UnionFree(t: RType)
    decreases t
  {
    !t.kind.Union? && (HasInner(t.kind) ==> UnionFree(t.kind.inner))
  }

  /** The type a conversion is for. */
  function TypeOf(c: Conv): RType
    decreases c
  {
    match c
    case VAny => RType(Any, false)
    case VUndefined => RType(Undefined, false)
    case VBoolean => RType(Boolean, false)
    case VInteger(bits, signed) => RType(Integer(bits, signed), false)
    case VBigInt => RType(Bigint, false)
    case VFloat(d, u) => RType(Float(d, u), false)
    case VString(ty) => RType(StringKind(ty), false)
    case VObject => RType(Object, false)
    case VSymbol => RType(Symbol, false)
    case VBuffer(v) => RType(Buffer(v), false)
    case VInterface(n) => RType(Interface(n), false)
    case VCallbackInterface(n) => RType(CallbackInterface(n), false)
    case VCallbackFunction(n) => RType(CallbackFunction(n), false)
    case VDictionary(n) => RType(Dictionary(n), false)
    case VEnum(n) => RType(Enum(n), false)
    case VSequence(i) => RType(Sequence(TypeOf(i)), false)
    case VAsyncSequence(i) => RType(AsyncSequence(TypeOf(i)), false)
    case VFrozenArray(i) => RType(FrozenArray(TypeOf(i)), false)
    case VObservableArray(i) => RType(ObservableArray(TypeOf(i)), false)
    case VRecord(k, i) => RType(Record(k, TypeOf(i)), false)
    case VPromise(i) => RType(Promise(TypeOf(i)), false)
    case VNullable(i) => TypeOf(i).(nullable := true)
    case VUnion(ms, _) => RType(Union(seq(|ms|, i requires 0 <= i < |ms| => TypeOf(ms[i]))), false)
  }

  lemma NullableWraps(t: RType)
    requires t.nullable && !t.kind.Union?
    ensures ConvOf(t) == VNullable(ConvOf(t.(nullable := false)))
  {
  }

  lemma LeafComesBack(t: RType)
    requires !t.nullable && !t.kind.Union? && !HasInner(t.kind)
    ensures TypeOf(ConvOf(t)) == t
  {
  }

  lemma InnerComesBack(t: RType)
    requires !t.nullable && HasInner(t.kind) && TypeOf(ConvOf(t.kind.inner)) == t.kind.inner
    ensures TypeOf(ConvOf(t)) == t
  {
  }

  /** A type without unions can be read back from its conversion. */
  lemma {:induction false} ConversionComesBack(t: RType)
    requires UnionFree(t)
    ensures TypeOf(ConvOf(t)) == t
    decreases Size(t)
  {
    var plain := t.(nullable := false);
    if HasInner(t.kind) {
      ConversionComesBack(t.kind.inner);
      InnerComesBack(plain);
    } else {
      LeafComesBack(plain);
    }
    if t.nullable { NullableWraps(t); }
  }

  /** Of a union, the flattened members can be read back, without the `?` of each; null is accepted if one had it. */
  lemma UnionComesBack(t: RType)
    requires t.kind.Union? && forall i :: 0 <= i < |Flatten(t)| ==> UnionFree(Flatten(t)[i])
    ensures var r := TypeOf(ConvOf(t));
            && r.kind.Union? && |r.kind.members| == |Flatten(t)|
            && (r.nullable <==> t.nullable || SomeNullable(Flatten(t)))
            && forall i :: 0 <= i < |Flatten(t)| ==> r.kind.members[i] == Flatten(t)[i].(nullable := false)
  {
    var flat := Flatten(t);
    forall i | 0 <= i < |flat| ensures TypeOf(MemberConvs(t)[i]) == flat[i].(nullable := false) {
      FlattenIsSmaller(t.kind.members, flat[i]);
      assert UnionFree(flat[i].(nullable := false));
      ConversionComesBack(flat[i].(nullable := false));
    }
  }
}
