/**
  Resolved WebIDL types, union flattening and union conversion steps
  (crates/px-bindings/src/resolve.rs and ir.rs).
 */
module IdlTypes {
  import opened Common

  datatype RType = RType(kind: RKind, nullable: bool)

  datatype RKind =
    | Any | Undefined | Boolean
    | Integer(bits: nat, signed: bool)
    | Bigint
    | Float(double: bool, unrestricted: bool)
    | StringKind(ty: nat)
    | Object | Symbol
    | Buffer(view: string)
    | Interface(name: string)
    | CallbackInterface(name: string)
    | CallbackFunction(name: string)
    | Dictionary(name: string)
    | Enum(name: string)
    | Sequence(inner: RType)
    | AsyncSequence(inner: RType)
    | FrozenArray(inner: RType)
    | ObservableArray(inner: RType)
    | Record(key: nat, inner: RType)
    | Promise(inner: RType)
    | Union(members: seq<RType>)

  predicate HasInner(k: RKind) {
    k.Sequence? || k.AsyncSequence? || k.FrozenArray? || k.ObservableArray? || k.Record? || k.Promise?
  }

  /** Size of a type, the measure of every worklist below. */
  ghost function Size(t: RType): nat
    decreases t, 1
  {
    1 + (if t.kind.Union? then Sizes(t.kind.members) else if HasInner(t.kind) then Size(t.kind.inner) else 0)
  }

  ghost function Sizes(ts: seq<RType>): nat
    decreases ts, 0
  {
    if ts == [] then 0 else Size(ts[0]) + Sizes(ts[1..])
  }

  lemma {:induction false} SizesAppend(a: seq<RType>, b: seq<RType>)
    ensures Sizes(a + b) == Sizes(a) + Sizes(b)
    decreases |a|
  {
    if a == [] { assert a + b == b; } else {
      assert (a + b)[1..] == a[1..] + b;
      SizesAppend(a[1..], b);
    }
  }

  lemma {:induction false} SizesReverse(s: seq<RType>)
    ensures Sizes(Reverse(s)) == Sizes(s)
  {
    if s != [] {
      SizesReverse(s[1..]);
      SizesAppend(Reverse(s[1..]), [s[0]]);
      assert [s[0]][1..] == [];
    }
  }

  // ---- flattened member types ----

  /** Nested unions expanded, left to right; a non-union yields itself. */
  ghost function Flatten(t: RType): seq<RType>
    decreases t, 1
  {
    if t.kind.Union? then FlattenAll(t.kind.members) else [t]
  }

  ghost function FlattenAll(ts: seq<RType>): seq<RType>
    decreases ts, 0
  {
    if ts == [] then [] else Flatten(ts[0]) + FlattenAll(ts[1..])
  }

  /** What a worklist with its top at the end will still produce. */
  ghost function Pending(stack: seq<RType>): seq<RType> {
    if stack == [] then [] else Flatten(stack[|stack| - 1]) + Pending(stack[..|stack| - 1])
  }

  lemma PendingLast(stack: seq<RType>, x: RType)
    ensures Pending(stack + [x]) == Flatten(x) + Pending(stack)
  {
    assert (stack + [x])[..|stack|] == stack;
  }

  lemma {:induction false} PendingPush(stack: seq<RType>, ms: seq<RType>)
    ensures Pending(stack + Reverse(ms)) == FlattenAll(ms) + Pending(stack)
    decreases |ms|
  {
    if ms == [] {
      assert stack + Reverse(ms) == stack;
    } else {
      var inner := stack + Reverse(ms[1..]);
      assert stack + Reverse(ms) == inner + [ms[0]];
      PendingLast(inner, ms[0]);
      PendingPush(stack, ms[1..]);
      Associate(Flatten(ms[0]), FlattenAll(ms[1..]), Pending(stack));
    }
  }

  lemma PopUnion(stack: seq<RType>, x: RType)
    requires x.kind.Union?
    ensures Pending(stack + Reverse(x.kind.members)) == Pending(stack + [x])
    ensures Sizes(stack + Reverse(x.kind.members)) < Sizes(stack + [x])
  {
    var ms := x.kind.members;
    assert (stack + [x])[..|stack|] == stack;
    PendingPush(stack, ms);
    SizesReverse(ms);
    SizesAppend(stack, Reverse(ms));
    SizesAppend(stack, [x]);
  }

  lemma PopLeaf(stack: seq<RType>, x: RType)
    requires !x.kind.Union?
    ensures Pending(stack + [x]) == [x] + Pending(stack)
    ensures Sizes(stack) < Sizes(stack + [x])
  {
    assert (stack + [x])[..|stack|] == stack;
    SizesAppend(stack, [x]);
  }

  method FlattenedMembers(t: RType) returns (out: seq<RType>)
    ensures out == Flatten(t)
  {
    out := [];
    var stack := [t];
    assert stack[..0] == [];
    while stack != []
      invariant out + Pending(stack) == Flatten(t)
      decreases Sizes(stack)
    {
      var x := stack[|stack| - 1];
      ghost var whole := stack;
      stack := stack[..|stack| - 1];
      assert whole == stack + [x];
      if x.kind.Union? {
        PopUnion(stack, x);
        stack := stack + Reverse(x.kind.members);
      } else {
        PopLeaf(stack, x);
        assert out + ([x] + Pending(stack)) == (out + [x]) + Pending(stack);
        out := out + [x];
      }
    }
  }

  // ---- distinguishability ----

  datatype Category =
    | CBoolean | CNumeric | CBigint | CString | CSymbol | CObject
    | CInterface(name: string) | CBuffer(view: string) | CSequence | CDictionaryLike | CCallback | COther

  function DistinguishCategory(k: RKind): Category {
    match k
    case Boolean => CBoolean
    case Integer(_, _) => CNumeric
    case Float(_, _) => CNumeric
    case Bigint => CBigint
    case StringKind(_) => CString
    case Enum(_) => CString
    case Symbol => CSymbol
    case Object => CObject
    case Interface(n) => CInterface(n)
    case Buffer(v) => CBuffer(v)
    case Sequence(_) => CSequence
    case AsyncSequence(_) => CSequence
    case FrozenArray(_) => CSequence
    case ObservableArray(_) => CSequence
    case Record(_, _) => CDictionaryLike
    case Dictionary(_) => CDictionaryLike
    case CallbackInterface(_) => CDictionaryLike
    case CallbackFunction(_) => CCallback
    case Any => COther
    case Undefined => COther
    case Promise(_) => COther
    case Union(_) => COther
  }

  predicate Banned(k: RKind) {
    k.Any? || k.Promise? || k.Undefined?
  }

  ghost predicate AtMostOneNullable(flat: seq<RType>) {
    forall i, j :: 0 <= i < j < |flat| ==> !(flat[i].nullable && flat[j].nullable)
  }

  ghost predicate SomeNullable(flat: seq<RType>) {
    exists i :: 0 <= i < |flat| && flat[i].nullable
  }

  ghost predicate SomeDictionary(flat: seq<RType>) {
    exists i :: 0 <= i < |flat| && flat[i].kind.Dictionary?
  }

  ghost predicate Distinguishable(flat: seq<RType>) {
    forall i, j :: 0 <= i < j < |flat| ==>
      DistinguishCategory(flat[i].kind) != DistinguishCategory(flat[j].kind)
  }

  // ---- distinguishability, kind by kind ----

  predicate DictionaryKind(k: RKind) { k.Dictionary? || k.Record? || k.CallbackInterface? }

  predicate SequenceKind(k: RKind) { k.Sequence? || k.AsyncSequence? || k.FrozenArray? || k.ObservableArray? }

  predicate NumericKind(k: RKind) { k.Integer? || k.Float? }

  predicate StringyKind(k: RKind) { k.StringKind? || k.Enum? }

  /** A value could be meant for either: two of one sort, or the same interface or buffer type. */
  predicate Clash(a: RKind, b: RKind) {
    || (DictionaryKind(a) && DictionaryKind(b)) || (SequenceKind(a) && SequenceKind(b))
    || (NumericKind(a) && NumericKind(b)) || (StringyKind(a) && StringyKind(b))
    || (a.CallbackFunction? && b.CallbackFunction?)
    || (a.Boolean? && b.Boolean?) || (a.Bigint? && b.Bigint?) || (a.Object? && b.Object?) || (a.Symbol? && b.Symbol?)
    || (a.Interface? && b.Interface? && a.name == b.name) || (a.Buffer? && b.Buffer? && a.view == b.view)
  }

  ghost predicate NoClash(flat: seq<RType>) {
    forall i, j :: 0 <= i < j < |flat| ==> !Clash(flat[i].kind, flat[j].kind)
  }

  /** Kinds that a union may have clash exactly if they are of one category. */
  lemma ClashIsCategory(a: RKind, b: RKind)
    requires !Banned(a) && !a.Union? && !Banned(b) && !b.Union?
    ensures Clash(a, b) <==> DistinguishCategory(a) == DistinguishCategory(b)
  {
  }

  /** The rules one union must satisfy, over its flattened members. */
  ghost predicate UnionOk(x: RType) {
    var flat := Flatten(x);
    && AtMostOneNullable(flat)
    && !(x.nullable && SomeNullable(flat))
    && (forall i :: 0 <= i < |flat| ==> !Banned(flat[i].kind))
    && Distinguishable(flat)
    && !(SomeDictionary(flat) && (SomeNullable(flat) || x.nullable))
  }

  /** Every union at or below `t` obeys the rules. */
  ghost predicate AllUnionsOk(t: RType)
    decreases t
  {
    if t.kind.Union? then UnionOk(t) && forall i :: 0 <= i < |t.kind.members| ==> AllUnionsOk(t.kind.members[i])
    else if HasInner(t.kind) then AllUnionsOk(t.kind.inner)
    else true
  }

  method CountNullable(flat: seq<RType>) returns (n: nat)
    ensures n == 0 <==> !SomeNullable(flat)
    ensures n <= 1 <==> AtMostOneNullable(flat)
  {
    n := 0;
    for i := 0 to |flat|
      invariant n == 0 <==> !SomeNullable(flat[..i])
      invariant n <= 1 <==> AtMostOneNullable(flat[..i])
    {
      assert SomeNullable(flat[..i]) ==> SomeNullable(flat[..i + 1]) by {
        if k :| 0 <= k < |flat[..i]| && flat[..i][k].nullable { assert flat[..i + 1][k].nullable; }
      }
      if flat[i].nullable {
        if k :| 0 <= k < |flat[..i]| && flat[..i][k].nullable {
          assert flat[..i + 1][k].nullable && flat[..i + 1][i].nullable;
        }
        assert flat[..i + 1][i].nullable;
        n := n + 1;
      }
      assert flat[..i + 1] == flat[..i] + [flat[i]];
    }
    assert flat[..|flat|] == flat;
  }

  ghost function Categories(flat: seq<RType>): set<Category> {
    set k | 0 <= k < |flat| :: DistinguishCategory(flat[k].kind)
  }

  ghost predicate NoneBanned(flat: seq<RType>) {
    forall i :: 0 <= i < |flat| ==> !Banned(flat[i].kind)
  }

  lemma OneMore(flat: seq<RType>, m: RType)
    ensures Categories(flat + [m]) == Categories(flat) + {DistinguishCategory(m.kind)}
    ensures NoneBanned(flat + [m]) <==> NoneBanned(flat) && !Banned(m.kind)
    ensures Distinguishable(flat + [m]) <==> Distinguishable(flat) && DistinguishCategory(m.kind) !in Categories(flat)
    ensures SomeDictionary(flat + [m]) <==> SomeDictionary(flat) || m.kind.Dictionary?
  {
    var all := flat + [m];
    assert all[|flat|] == m;
    assert forall k :: 0 <= k < |flat| ==> all[k] == flat[k];
    if DistinguishCategory(m.kind) in Categories(flat) {
      var k :| 0 <= k < |flat| && DistinguishCategory(flat[k].kind) == DistinguishCategory(m.kind);
      assert DistinguishCategory(all[k].kind) == DistinguishCategory(all[|flat|].kind);
    }
    if SomeDictionary(flat) {
      var k :| 0 <= k < |flat| && flat[k].kind.Dictionary?;
      assert all[k].kind.Dictionary?;
    }
    forall c | c in Categories(flat) ensures c in Categories(all) {
      var k :| 0 <= k < |flat| && DistinguishCategory(flat[k].kind) == c;
      assert DistinguishCategory(all[k].kind) == c;
    }
    if Distinguishable(all) {
      forall i, j | 0 <= i < j < |flat| ensures DistinguishCategory(flat[i].kind) != DistinguishCategory(flat[j].kind) {
        assert DistinguishCategory(all[i].kind) != DistinguishCategory(all[j].kind);
      }
    }
    if NoneBanned(all) {
      forall i | 0 <= i < |flat| ensures !Banned(flat[i].kind) { assert !Banned(all[i].kind); }
    }
  }

  /** The rules of one union on kinds: few nullables, nothing banned, no two members that clash. */
  ghost predicate UnionRules(x: RType) {
    var flat := Flatten(x);
    && AtMostOneNullable(flat) && !(x.nullable && SomeNullable(flat))
    && !(SomeDictionary(flat) && (SomeNullable(flat) || x.nullable))
    && (forall i :: 0 <= i < |flat| ==> !flat[i].kind.Any? && !flat[i].kind.Promise? && !flat[i].kind.Undefined?)
    && NoClash(flat)
  }

  lemma {:induction false} FlattenedLeaves(ts: seq<RType>, i: nat)
    requires i < |FlattenAll(ts)|
    ensures !FlattenAll(ts)[i].kind.Union?
    decreases Sizes(ts)
  {
    assert Sizes(ts) == Size(ts[0]) + Sizes(ts[1..]);
    var first := Flatten(ts[0]);
    if i < |first| {
      if ts[0].kind.Union? {
        assert Size(ts[0]) == 1 + Sizes(ts[0].kind.members);
        FlattenedLeaves(ts[0].kind.members, i);
      }
    } else {
      FlattenedLeaves(ts[1..], i - |first|);
    }
  }

  /** The check by categories is the check by kinds. */
  lemma UnionOkMeans(x: RType)
    requires x.kind.Union?
    ensures UnionOk(x) <==> UnionRules(x)
  {
    var flat := Flatten(x);
    forall i | 0 <= i < |flat| ensures !flat[i].kind.Union? { FlattenedLeaves(x.kind.members, i); }
    if NoneBanned(flat) {
      forall i, j | 0 <= i < j < |flat|
        ensures Clash(flat[i].kind, flat[j].kind) <==>
                DistinguishCategory(flat[i].kind) == DistinguishCategory(flat[j].kind)
      {
        ClashIsCategory(flat[i].kind, flat[j].kind);
      }
    }
  }

  method CheckOneUnion(x: RType) returns (ok: bool)
    ensures ok <==> UnionOk(x)
    ensures x.kind.Union? ==> (ok <==> UnionRules(x))
  {
    if x.kind.Union? { UnionOkMeans(x); }
    var flat := FlattenedMembers(x);
    var nullable := CountNullable(flat);
    var hasDict, seen: set<Category> := false, {};
    ok := true;
    for i := 0 to |flat|
      invariant hasDict <==> SomeDictionary(flat[..i])
      invariant seen == Categories(flat[..i])
      invariant ok <==> NoneBanned(flat[..i]) && Distinguishable(flat[..i])
    {
      assert flat[..i + 1] == flat[..i] + [flat[i]];
      OneMore(flat[..i], flat[i]);
      if Banned(flat[i].kind) { ok := false; }
      if flat[i].kind.Dictionary? { hasDict := true; }
      var cat := DistinguishCategory(flat[i].kind);
      if cat in seen { ok := false; }
      seen := seen + {cat};
    }
    assert flat[..|flat|] == flat;
    if nullable > 1 || (nullable == 1 && x.nullable) { ok := false; }
    if hasDict && (nullable > 0 || x.nullable) { ok := false; }
  }

  ghost predicate AllOk(ts: seq<RType>) {
    forall i :: 0 <= i < |ts| ==> AllUnionsOk(ts[i])
  }

  lemma AllOkAppend(a: seq<RType>, b: seq<RType>)
    ensures AllOk(a + b) <==> AllOk(a) && AllOk(b)
  {
    assert forall i :: 0 <= i < |a| ==> (a + b)[i] == a[i];
    assert forall i :: 0 <= i < |b| ==> (a + b)[|a| + i] == b[i];
    if AllOk(a + b) {
      forall i | 0 <= i < |a| ensures AllUnionsOk(a[i]) { assert AllUnionsOk((a + b)[i]); }
      forall i | 0 <= i < |b| ensures AllUnionsOk(b[i]) { assert AllUnionsOk((a + b)[|a| + i]); }
    }
  }

  method CheckUnion(t: RType) returns (ok: bool)
    ensures ok <==> AllUnionsOk(t)
  {
    var stack := [t];
    ok := true;
    while stack != []
      invariant AllUnionsOk(t) <==> ok && AllOk(stack)
      decreases Sizes(stack)
    {
      var x := stack[|stack| - 1];
      ghost var whole := stack;
      stack := stack[..|stack| - 1];
      assert whole == stack + [x];
      SizesAppend(stack, [x]);
      AllOkAppend(stack, [x]);
      if HasInner(x.kind) {
        SizesAppend(stack, [x.kind.inner]);
        AllOkAppend(stack, [x.kind.inner]);
        stack := stack + [x.kind.inner];
      } else if x.kind.Union? {
        SizesAppend(stack, x.kind.members);
        AllOkAppend(stack, x.kind.members);
        stack := stack + x.kind.members;
        var one := CheckOneUnion(x);
        if !one { ok := false; }
      }
    }
  }

  // ---- conversions ----

  /** The kinds of value a union conversion looks for, in the order of section 3.2.24 of Web IDL. */
  datatype StepKind =
    | PlatformObject | BufferView | CallbackObject | SequenceLike | DictionaryLike
    | BooleanValue | NumericValue | BigIntValue | ObjectValue | SymbolValue | StringValue

  datatype UnionStep = NullishToDictionaryOrNull | Convert(kind: StepKind, ids: seq<nat>)

  datatype Conv =
    | VAny | VUndefined | VBoolean
    | VInteger(bits: nat, signed: bool)
    | VBigInt
    | VFloat(double: bool, unrestricted: bool)
    | VString(ty: nat)
    | VObject | VSymbol
    | VBuffer(view: string)
    | VInterface(name: string)
    | VCallbackInterface(name: string)
    | VCallbackFunction(name: string)
    | VDictionary(name: string)
    | VEnum(name: string)
    | VSequence(inner: Conv)
    | VAsyncSequence(inner: Conv)
    | VFrozenArray(inner: Conv)
    | VObservableArray(inner: Conv)
    | VRecord(key: nat, inner: Conv)
    | VPromise(inner: Conv)
    | VNullable(inner: Conv)
    | VUnion(members: seq<Conv>, steps: seq<UnionStep>)

  const ORDER: seq<StepKind> := [
    PlatformObject, BufferView, CallbackObject, SequenceLike, DictionaryLike,
    BooleanValue, NumericValue, BigIntValue, ObjectValue, SymbolValue, StringValue]

  /** The kind of step that looks at a member; the conversions a union cannot hold have none. */
  function KindOf(c: Conv): Option<StepKind> {
    if c.VInterface? then Some(PlatformObject)
    else if c.VBuffer? then Some(BufferView)
    else if c.VCallbackFunction? then Some(CallbackObject)
    else if c.VSequence? || c.VFrozenArray? || c.VObservableArray? || c.VAsyncSequence? then Some(SequenceLike)
    else if c.VCallbackInterface? || c.VDictionary? || c.VRecord? then Some(DictionaryLike)
    else if c.VBoolean? then Some(BooleanValue)
    else if c.VInteger? || c.VFloat? then Some(NumericValue)
    else if c.VBigInt? then Some(BigIntValue)
    else if c.VObject? then Some(ObjectValue)
    else if c.VSymbol? then Some(SymbolValue)
    else if c.VString? || c.VEnum? then Some(StringValue)
    else None
  }

  /** Steps that carry every member of their kind; the others carry the first one only. */
  predicate TakesAll(k: StepKind) {
    k == PlatformObject || k == BufferView || k == CallbackObject || k == SequenceLike || k == DictionaryLike
  }

  /** The indices, ascending, of the members of a kind. */
  function Indices(ms: seq<Conv>, k: StepKind): seq<nat> {
    if ms == [] then []
    else
      var last := |ms| - 1;
      Indices(ms[..last], k) + (if KindOf(ms[last]) == Some(k) then [last] else [])
  }

  lemma {:induction false} IndicesAre(ms: seq<Conv>, k: StepKind)
    ensures forall i: nat :: i in Indices(ms, k) <==> i < |ms| && KindOf(ms[i]) == Some(k)
    ensures forall i, j :: 0 <= i < j < |Indices(ms, k)| ==> Indices(ms, k)[i] < Indices(ms, k)[j]
    decreases |ms|
  {
    if ms != [] {
      var front := ms[..|ms| - 1];
      IndicesAre(front, k);
      var ids := Indices(front, k);
      assert forall i :: 0 <= i < |ids| ==> ids[i] in ids;
      assert forall i: nat :: i < |front| ==> front[i] == ms[i];
    }
  }

  function Picked(ms: seq<Conv>, k: StepKind): seq<nat> {
    var ids := Indices(ms, k);
    if TakesAll(k) || ids == [] then ids else [ids[0]]
  }

  /** One step for each kind that some member has. */
  function StepsFor(ms: seq<Conv>, kinds: seq<StepKind>): seq<UnionStep> {
    if kinds == [] then []
    else
      var ids := Picked(ms, kinds[0]);
      (if ids == [] then [] else [Convert(kinds[0], ids)]) + StepsFor(ms, kinds[1..])
  }

  function ConvertSteps(ms: seq<Conv>): seq<UnionStep> {
    StepsFor(ms, ORDER)
  }

  predicate AnyDictionary(ms: seq<Conv>) {
    exists i :: 0 <= i < |ms| && ms[i].VDictionary?
  }

  function UnionSteps(ms: seq<Conv>, nullable: bool): seq<UnionStep> {
    (if nullable || AnyDictionary(ms) then [NullishToDictionaryOrNull] else []) + ConvertSteps(ms)
  }

  lemma {:induction false} FlattenIsSmaller(ts: seq<RType>, m: RType)
    requires m in FlattenAll(ts)
    ensures Size(m) <= Sizes(ts) && !m.kind.Union?
    decreases Sizes(ts)
  {
    assert Sizes(ts) == Size(ts[0]) + Sizes(ts[1..]);
    if m in Flatten(ts[0]) {
      if ts[0].kind.Union? {
        assert Size(ts[0]) == 1 + Sizes(ts[0].kind.members);
        FlattenIsSmaller(ts[0].kind.members, m);
      }
    } else {
      FlattenIsSmaller(ts[1..], m);
    }
  }

  function Wrap(c: Conv, nullable: bool): Conv {
    if nullable then VNullable(c) else c
  }

  /** The conversion of a type; a union converts its flattened members with nullability stripped. */
  ghost function ConvOf(t: RType): Conv
    decreases Size(t)
  {
    match t.kind
    case Any => Wrap(VAny, t.nullable)
    case Undefined => Wrap(VUndefined, t.nullable)
    case Boolean => Wrap(VBoolean, t.nullable)
    case Integer(bits, signed) => Wrap(VInteger(bits, signed), t.nullable)
    case Bigint => Wrap(VBigInt, t.nullable)
    case Float(d, u) => Wrap(VFloat(d, u), t.nullable)
    case StringKind(ty) => Wrap(VString(ty), t.nullable)
    case Object => Wrap(VObject, t.nullable)
    case Symbol => Wrap(VSymbol, t.nullable)
    case Buffer(v) => Wrap(VBuffer(v), t.nullable)
    case Interface(n) => Wrap(VInterface(n), t.nullable)
    case CallbackInterface(n) => Wrap(VCallbackInterface(n), t.nullable)
    case CallbackFunction(n) => Wrap(VCallbackFunction(n), t.nullable)
    case Dictionary(n) => Wrap(VDictionary(n), t.nullable)
    case Enum(n) => Wrap(VEnum(n), t.nullable)
    case Sequence(i) => Wrap(VSequence(ConvOf(i)), t.nullable)
    case AsyncSequence(i) => Wrap(VAsyncSequence(ConvOf(i)), t.nullable)
    case FrozenArray(i) => Wrap(VFrozenArray(ConvOf(i)), t.nullable)
    case ObservableArray(i) => Wrap(VObservableArray(ConvOf(i)), t.nullable)
    case Record(k, i) => Wrap(VRecord(k, ConvOf(i)), t.nullable)
    case Promise(i) => Wrap(VPromise(ConvOf(i)), t.nullable)
    case Union(_) =>
      var members := MemberConvs(t);
      var nullable := t.nullable || SomeNullable(Flatten(t));
      Wrap(VUnion(members, UnionSteps(members, nullable)), nullable)
  }

  ghost function MemberConvs(t: RType): (cs: seq<Conv>)
    requires t.kind.Union?
    ensures |cs| == |Flatten(t)|
    decreases Size(t), 0
  {
    var flat := Flatten(t);
    seq(|flat|, i requires 0 <= i < |flat| =>
      FlattenIsSmaller(t.kind.members, flat[i]); ConvOf(flat[i].(nullable := false)))
  }

  // ---- what acceptance buys ----

  function KindRank(k: StepKind): nat {
    match k
    case PlatformObject => 0
    case BufferView => 1
    case CallbackObject => 2
    case SequenceLike => 3
    case DictionaryLike => 4
    case BooleanValue => 5
    case NumericValue => 6
    case BigIntValue => 7
    case ObjectValue => 8
    case SymbolValue => 9
    case StringValue => 10
  }

  ghost predicate AscendingKinds(kinds: seq<StepKind>) {
    forall p, q :: 0 <= p < q < |kinds| ==> KindRank(kinds[p]) < KindRank(kinds[q])
  }

  /** Conversion steps are non-empty, carry the members picked for their kind, and ascend in kind. */
  ghost predicate Ascending(ms: seq<Conv>, steps: seq<UnionStep>) {
    && (forall p :: 0 <= p < |steps| ==>
          steps[p].Convert? && steps[p].ids == Picked(ms, steps[p].kind) && steps[p].ids != [])
    && (forall p, q :: 0 <= p < q < |steps| ==> KindRank(steps[p].kind) < KindRank(steps[q].kind))
  }

  lemma {:induction false} StepsAscend(ms: seq<Conv>, kinds: seq<StepKind>)
    requires AscendingKinds(kinds)
    ensures Ascending(ms, StepsFor(ms, kinds))
    ensures forall p :: 0 <= p < |StepsFor(ms, kinds)| ==> StepsFor(ms, kinds)[p].kind in kinds
    decreases |kinds|
  {
    if kinds != [] {
      StepsAscend(ms, kinds[1..]);
    }
  }

  lemma {:induction false} StepExists(ms: seq<Conv>, kinds: seq<StepKind>, k: StepKind) returns (p: nat)
    requires k in kinds && Picked(ms, k) != []
    ensures p < |StepsFor(ms, kinds)| && StepsFor(ms, kinds)[p] == Convert(k, Picked(ms, k))
    decreases |kinds|
  {
    if kinds[0] == k {
      p := 0;
    } else {
      p := StepExists(ms, kinds[1..], k);
      if Picked(ms, kinds[0]) != [] { p := p + 1; }
    }
  }

  /** A one-member kind is one distinguishability category. */
  function CategoryOf(k: StepKind): Category
    requires !TakesAll(k)
  {
    match k
    case BooleanValue => CBoolean
    case NumericValue => CNumeric
    case BigIntValue => CBigint
    case ObjectValue => CObject
    case SymbolValue => CSymbol
    case StringValue => CString
  }

  lemma MemberKind(m: RType)
    requires !m.kind.Union? && !Banned(m.kind)
    ensures KindOf(ConvOf(m.(nullable := false))).Some?
    ensures var k := KindOf(ConvOf(m.(nullable := false))).value;
            !TakesAll(k) ==> DistinguishCategory(m.kind) == CategoryOf(k)
  {
  }

  /** In an accepted union every member is picked by the step of its kind. */
  lemma MemberIsPicked(t: RType, i: nat)
    requires t.kind.Union? && UnionOk(t) && i < |Flatten(t)|
    ensures KindOf(MemberConvs(t)[i]).Some?
    ensures i in Picked(MemberConvs(t), KindOf(MemberConvs(t)[i]).value)
  {
    var flat, ms := Flatten(t), MemberConvs(t);
    forall j | 0 <= j < |flat| ensures !flat[j].kind.Union? { FlattenIsSmaller(t.kind.members, flat[j]); }
    MemberKind(flat[i]);
    var k := KindOf(ms[i]).value;
    var ids := Indices(ms, k);
    IndicesAre(ms, k);
    assert i in ids;
    if !TakesAll(k) {
      var j := ids[0];
      assert j in ids;
      MemberKind(flat[j]);
      assert DistinguishCategory(flat[i].kind) == DistinguishCategory(flat[j].kind);
      assert i == j;
    }
  }

  ghost predicate Holds(steps: seq<UnionStep>, p: nat, i: nat) {
    p < |steps| && steps[p].Convert? && i in steps[p].ids
  }

  ghost predicate Held(steps: seq<UnionStep>, i: nat) {
    exists p: nat :: Holds(steps, p, i)
  }

  /** Each member is looked at by exactly one step, of its own kind; the steps ascend. */
  ghost predicate Covers(ms: seq<Conv>, steps: seq<UnionStep>) {
    && Ascending(ms, steps)
    && (forall p: nat, i: nat :: Holds(steps, p, i) ==> i < |ms| && KindOf(ms[i]) == Some(steps[p].kind))
    && (forall i: nat :: i < |ms| ==> Held(steps, i))
    && (forall p: nat, q: nat, i: nat :: Holds(steps, p, i) && Holds(steps, q, i) ==> p == q)
  }

  ghost predicate AllPicked(ms: seq<Conv>, kinds: seq<StepKind>) {
    forall i: nat :: i < |ms| ==>
      KindOf(ms[i]).Some? && KindOf(ms[i]).value in kinds && i in Picked(ms, KindOf(ms[i]).value)
  }

  lemma StepsCover(ms: seq<Conv>, kinds: seq<StepKind>, steps: seq<UnionStep>)
    requires AscendingKinds(kinds) && steps == StepsFor(ms, kinds) && AllPicked(ms, kinds)
    ensures Covers(ms, steps)
  {
    StepsAscend(ms, kinds);
    forall p: nat, i: nat | Holds(steps, p, i) ensures i < |ms| && KindOf(ms[i]) == Some(steps[p].kind) {
      IndicesAre(ms, steps[p].kind);
      assert i in Indices(ms, steps[p].kind);
    }
    forall i: nat | i < |ms| ensures Held(steps, i) {
      var p := StepExists(ms, kinds, KindOf(ms[i]).value);
      assert Holds(steps, p, i);
    }
  }

  lemma AcceptedMembersPicked(t: RType, kinds: seq<StepKind>)
    requires t.kind.Union? && UnionOk(t) && forall k :: k in kinds
    ensures AllPicked(MemberConvs(t), kinds)
  {
    var ms := MemberConvs(t);
    forall i: nat | i < |ms|
      ensures KindOf(ms[i]).Some? && KindOf(ms[i]).value in kinds && i in Picked(ms, KindOf(ms[i]).value)
    {
      MemberIsPicked(t, i);
    }
  }

  /** Every member is looked at by exactly one step, of its own kind. */
  ghost predicate OneStepEach(ms: seq<Conv>, steps: seq<UnionStep>) {
    && (forall i: nat :: i < |ms| ==> Held(steps, i))
    && (forall p: nat, i: nat :: Holds(steps, p, i) ==> i < |ms| && KindOf(ms[i]) == Some(steps[p].kind))
    && (forall p: nat, q: nat, i: nat :: Holds(steps, p, i) && Holds(steps, q, i) ==> p == q)
  }

  /** Conversion steps ascend in the order of Web IDL, after the step for null and undefined, if there is one. */
  ghost predicate StepsInOrder(steps: seq<UnionStep>) {
    && (forall p :: 0 < p < |steps| ==> steps[p].Convert?)
    && (forall p, q :: 0 <= p < q < |steps| && steps[p].Convert? && steps[q].Convert? ==>
          KindRank(steps[p].kind) < KindRank(steps[q].kind))
  }

  ghost predicate EachOnce(ms: seq<Conv>, steps: seq<UnionStep>) {
    OneStepEach(ms, steps) && StepsInOrder(steps)
  }

  lemma ShiftedHolds(body: seq<UnionStep>, steps: seq<UnionStep>, p: nat, i: nat)
    requires steps == [NullishToDictionaryOrNull] + body
    ensures Holds(steps, p, i) <==> p > 0 && Holds(body, p - 1, i)
  {
  }

  lemma NullishOneEach(ms: seq<Conv>, body: seq<UnionStep>, steps: seq<UnionStep>)
    requires OneStepEach(ms, body) && steps == [NullishToDictionaryOrNull] + body
    ensures OneStepEach(ms, steps)
  {
    forall p: nat, i: nat ensures Holds(steps, p, i) <==> p > 0 && Holds(body, p - 1, i) {
      ShiftedHolds(body, steps, p, i);
    }
    forall i: nat | i < |ms| ensures Held(steps, i) {
      assert Held(body, i);
      var p: nat :| Holds(body, p, i);
      assert Holds(steps, p + 1, i);
    }
    forall p: nat, q: nat, i: nat | Holds(steps, p, i) && Holds(steps, q, i) ensures p == q {
      assert Holds(body, p - 1, i) && Holds(body, q - 1, i);
    }
  }

  /** Steps that cover the members go on doing so behind the step for null and undefined. */
  lemma NullishFirst(ms: seq<Conv>, body: seq<UnionStep>, steps: seq<UnionStep>)
    requires Covers(ms, body) && (steps == body || steps == [NullishToDictionaryOrNull] + body)
    ensures EachOnce(ms, steps)
  {
    if steps != body { NullishOneEach(ms, body, steps); }
  }

  lemma RankInOrder(p: nat)
    requires p < |ORDER|
    ensures KindRank(ORDER[p]) == p
  {
  }

  lemma OrderOfKinds() returns (kinds: seq<StepKind>)
    ensures AscendingKinds(kinds) && (forall k :: k in kinds)
    ensures forall ms :: ConvertSteps(ms) == StepsFor(ms, kinds)
  {
    kinds := ORDER;
    forall p | 0 <= p < |kinds| ensures KindRank(kinds[p]) == p { RankInOrder(p); }
    forall k ensures k in kinds { assert kinds[KindRank(k)] == k; }
  }

  /** Of a union that passes its checks, the step list looks at each flattened member exactly once. */
  lemma AcceptedUnionIsCovered(t: RType, nullable: bool)
    requires t.kind.Union? && UnionOk(t)
    ensures EachOnce(MemberConvs(t), UnionSteps(MemberConvs(t), nullable))
  {
    var kinds := OrderOfKinds();
    var ms := MemberConvs(t);
    AcceptedMembersPicked(t, kinds);
    StepsCover(ms, kinds, ConvertSteps(ms));
    NullishFirst(ms, ConvertSteps(ms), UnionSteps(ms, nullable));
  }

  /** The union `x` occurs in `t`, at any depth. */
  ghost predicate Within(x: RType, t: RType)
    decreases t
  {
    x == t || (
      if t.kind.Union? then exists i :: 0 <= i < |t.kind.members| && Within(x, t.kind.members[i])
      else HasInner(t.kind) && Within(x, t.kind.inner))
  }

  lemma {:induction false} UnionsWithinAreOk(x: RType, t: RType)
    requires AllUnionsOk(t) && Within(x, t) && x.kind.Union?
    ensures UnionOk(x)
    decreases t
  {
    if x != t {
      if t.kind.Union? {
        var i :| 0 <= i < |t.kind.members| && Within(x, t.kind.members[i]);
        UnionsWithinAreOk(x, t.kind.members[i]);
      } else {
        UnionsWithinAreOk(x, t.kind.inner);
      }
    }
  }

  /** Every union in a type the resolver accepts, at any depth, is converted by steps that lose no member. */
  lemma AcceptedTypeCovers(t: RType, x: RType)
    requires AllUnionsOk(t) && Within(x, t) && x.kind.Union?
    ensures EachOnce(MemberConvs(x), UnionSteps(MemberConvs(x), x.nullable || SomeNullable(Flatten(x))))
  {
    UnionsWithinAreOk(x, t);
    AcceptedUnionIsCovered(x, x.nullable || SomeNullable(Flatten(x)));
  }
}
