/**
  Nullability of unions (crates/px-bindings/src/resolve.rs, `check_union`, and
  ir.rs, `conv`).  Both look at the flattened members only, so the `?` of a
  nested union is not seen; Web IDL counts it.
 */
module IdlNullable {
  import opened Common
  import opened IdlTypes

  // ---- what Web IDL says ----

  /**
    Web IDL's "number of nullable member types": a nullable member counts, and a
    member that is a union counts its own.
   */
  ghost function NullableMembers(t: RType): nat
    decreases t, 1
  {
    if t.kind.Union? then NullableIn(t.kind.members) else 0
  }

  function One(b: bool): nat { if b then 1 else 0 }

  ghost function NullableIn(ts: seq<RType>): nat
    decreases ts, 0
  {
    if ts == [] then 0 else One(ts[0].nullable) + NullableMembers(ts[0]) + NullableIn(ts[1..])
  }

  /** Web IDL's "includes a nullable type"; a valid union has at most one nullable member type. */
  ghost predicate IncludesNullable(t: RType) {
    t.nullable || NullableMembers(t) > 0
  }

  /** Web IDL's rules: at most one nullable type in a union, counting itself, and none beside a dictionary. */
  ghost predicate NullRules(x: RType) {
    NullableMembers(x) + One(x.nullable) <= 1 && !(SomeDictionary(Flatten(x)) && IncludesNullable(x))
  }

  // ---- what the code looks at ----

  ghost function CountNullables(flat: seq<RType>): nat {
    if flat == [] then 0 else One(flat[0].nullable) + CountNullables(flat[1..])
  }

  /** The nullable unions strictly below a union, through unions. */
  ghost function NestedNullables(t: RType): nat
    decreases t, 1
  {
    if t.kind.Union? then NestedIn(t.kind.members) else 0
  }

  ghost function NestedIn(ts: seq<RType>): nat
    decreases ts, 0
  {
    if ts == [] then 0 else One(ts[0].kind.Union? && ts[0].nullable) + NestedNullables(ts[0]) + NestedIn(ts[1..])
  }

  /** The nullability part of what the check demands of one union. */
  ghost predicate CheckedNullRules(x: RType) {
    var flat := Flatten(x);
    && AtMostOneNullable(flat) && !(x.nullable && SomeNullable(flat))
    && !(SomeDictionary(flat) && (SomeNullable(flat) || x.nullable))
  }

  lemma {:induction false} CountAppend(a: seq<RType>, b: seq<RType>)
    ensures CountNullables(a + b) == CountNullables(a) + CountNullables(b)
    decreases |a|
  {
    if a == [] {
      assert a + b == b;
    } else {
      assert (a + b)[1..] == a[1..] + b;
      CountAppend(a[1..], b);
    }
  }

  lemma {:induction false} CountMeans(flat: seq<RType>)
    ensures CountNullables(flat) > 0 <==> SomeNullable(flat)
    ensures CountNullables(flat) <= 1 <==> AtMostOneNullable(flat)
    decreases |flat|
  {
    if flat != [] {
      var rest := flat[1..];
      CountMeans(rest);
      if SomeNullable(rest) {
        var i :| 0 <= i < |rest| && rest[i].nullable;
        assert flat[i + 1].nullable;
      }
      if AtMostOneNullable(flat) {
        forall i, j | 0 <= i < j < |rest| ensures !(rest[i].nullable && rest[j].nullable) {
          assert !(flat[i + 1].nullable && flat[j + 1].nullable);
        }
      }
      if flat[0].nullable && SomeNullable(rest) {
        var i :| 0 <= i < |rest| && rest[i].nullable;
        assert flat[0].nullable && flat[i + 1].nullable;
      }
    }
  }

  /** What Web IDL counts is what flattening shows and what it hides. */
  lemma {:induction false} CountSplits(ts: seq<RType>)
    ensures NullableIn(ts) == CountNullables(FlattenAll(ts)) + NestedIn(ts)
    decreases Sizes(ts)
  {
    if ts != [] {
      assert Sizes(ts) == Size(ts[0]) + Sizes(ts[1..]);
      CountSplits(ts[1..]);
      CountAppend(Flatten(ts[0]), FlattenAll(ts[1..]));
      if ts[0].kind.Union? {
        assert Size(ts[0]) == 1 + Sizes(ts[0].kind.members);
        CountSplits(ts[0].kind.members);
      } else {
        assert [ts[0]][1..] == [];
      }
    }
  }

  // ---- the conversion ----

  /** A conversion accepts null exactly when the type or a flattened member is nullable. */
  lemma ConvNullable(t: RType)
    ensures ConvOf(t).VNullable? <==> t.nullable || SomeNullable(Flatten(t))
  {
    if !t.kind.Union? { assert Flatten(t) == [t]; }
  }

  /**
    The conversion is nullable exactly for types that include a nullable type,
    if and only if something flattening shows is nullable or nothing it hides is.
   */
  lemma ConvNullableAgrees(t: RType)
    ensures (ConvOf(t).VNullable? <==> IncludesNullable(t)) <==>
            t.nullable || SomeNullable(Flatten(t)) || NestedNullables(t) == 0
  {
    ConvNullable(t);
    if t.kind.Union? {
      CountSplits(t.kind.members);
      CountMeans(Flatten(t));
    } else {
      assert Flatten(t) == [t];
    }
  }

  // ---- the check ----

  /**
    The check refuses nothing the rules allow.  It agrees with them if and only
    if no nested union is nullable, or enough is nullable in plain sight to
    refuse the union anyway, or the one hidden nullable is the only one and no
    dictionary stands beside it.
   */
  lemma CheckedNullRulesAgree(x: RType)
    requires x.kind.Union?
    ensures NullRules(x) ==> CheckedNullRules(x)
    ensures var seen, hidden := CountNullables(Flatten(x)) + One(x.nullable), NestedNullables(x);
            var dict := SomeDictionary(Flatten(x));
            (CheckedNullRules(x) <==> NullRules(x)) <==>
              || hidden == 0
              || seen > (if dict then 0 else 1)
              || (hidden == 1 && seen == 0 && !dict)
  {
    CountSplits(x.kind.members);
    CountMeans(Flatten(x));
  }

  // ---- where they disagree ----

  function Bare(k: RKind): RType { RType(k, false) }

  /** `(DOMString or boolean)?` */
  const MAYBE: RType := RType(Union([Bare(StringKind(0)), Bare(Boolean)]), true)

  /** `(long or (DOMString or boolean)?)` */
  const LONG_OR_MAYBE: RType := Bare(Union([Bare(Integer(32, true)), MAYBE]))

  /** `(D or (DOMString or boolean)?)` with a dictionary D. */
  const DICT_OR_MAYBE: RType := Bare(Union([Bare(Dictionary("D")), MAYBE]))

  lemma MaybeIsFlat()
    ensures Flatten(MAYBE) == [Bare(StringKind(0)), Bare(Boolean)] && NullableMembers(MAYBE) == 0
  {
    var ms := [Bare(StringKind(0)), Bare(Boolean)];
    assert ms[1..] == [Bare(Boolean)] && ms[1..][1..] == [];
    assert FlattenAll(ms) == [Bare(StringKind(0))] + ([Bare(Boolean)] + []);
  }

  lemma PairWithMaybe(a: RType)
    requires !a.kind.Union? && !a.nullable
    ensures Flatten(Bare(Union([a, MAYBE]))) == [a, Bare(StringKind(0)), Bare(Boolean)]
    ensures NullableMembers(Bare(Union([a, MAYBE]))) == 1
  {
    MaybeIsFlat();
    var all, rest := [a, MAYBE], [MAYBE];
    assert all[1..] == rest && rest[1..] == [];
    assert FlattenAll(rest) == Flatten(MAYBE) + FlattenAll([]);
    assert NullableIn(rest) == 1;
    assert FlattenAll(all) == Flatten(a) + FlattenAll(rest);
    assert NullableIn(all) == One(a.nullable) + NullableMembers(a) + NullableIn(rest);
    assert Bare(Union(all)).kind.members == all;
  }

  lemma MaybeIsAccepted()
    ensures AllUnionsOk(MAYBE)
  {
    MaybeIsFlat();
  }

  /** The type is accepted and includes a nullable type, and its conversion refuses null. */
  lemma NullIsLost()
    ensures AllUnionsOk(LONG_OR_MAYBE) && IncludesNullable(LONG_OR_MAYBE) && !ConvOf(LONG_OR_MAYBE).VNullable?
  {
    var long := Bare(Integer(32, true));
    PairWithMaybe(long);
    MaybeIsAccepted();
    ConvNullable(LONG_OR_MAYBE);
    assert AllUnionsOk(long);
  }

  /** The type is accepted although it has a nullable type beside a dictionary. */
  lemma DictionaryBesideNull()
    ensures AllUnionsOk(DICT_OR_MAYBE) && !NullRules(DICT_OR_MAYBE)
  {
    var d := Bare(Dictionary("D"));
    PairWithMaybe(d);
    MaybeIsAccepted();
    assert Flatten(DICT_OR_MAYBE)[0].kind.Dictionary?;
    assert AllUnionsOk(d);
  }
}
