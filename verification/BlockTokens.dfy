/**
  Index tokens of patterns and of URLs (crates/px-block/src/glob.rs).

  A rule may be filed under one token of its pattern because that token is then
  guaranteed to be among the tokens of every URL the pattern matches.
 */
module BlockTokens {
  import opened Common
  import opened BlockGlob
  import opened Lex
  import Sorting

  predicate IsTokenByte(b: Byte) {
    0x30 <= b <= 0x39 || 0x41 <= b <= 0x5A || 0x61 <= b <= 0x7A || b == 0x25
  }

  function ToLower(b: Byte): Byte {
    if 0x41 <= b <= 0x5A then b + 0x20 else b
  }

  function Lower(text: seq<Byte>): seq<Byte> {
    seq(|text|, i requires 0 <= i < |text| => ToLower(text[i]))
  }

  // ---- maximal runs ----

  ghost predicate At(mask: seq<bool>, k: int) {
    0 <= k < |mask| && mask[k]
  }

  ghost predicate Run(mask: seq<bool>, a: nat, b: nat) {
    && a < b <= |mask|
    && (forall k :: a <= k < b ==> At(mask, k))
    && !At(mask, a - 1)
    && !At(mask, b)
  }

  /** No run straddles `i`. */
  ghost predicate Boundary(mask: seq<bool>, i: nat) {
    !(At(mask, i - 1) && At(mask, i))
  }

  lemma NextRun(mask: seq<bool>, i: nat, j: nat)
    requires i < j <= |mask| && Boundary(mask, i)
    requires forall k :: i <= k < j ==> At(mask, k)
    requires !At(mask, j)
    ensures Run(mask, i, j)
    ensures forall a: nat, b: nat :: Run(mask, a, b) ==> (b <= j <==> b <= i || (a == i && b == j))
  {
  }

  lemma SkipPast(mask: seq<bool>, i: nat)
    requires !At(mask, i)
    ensures forall a: nat, b: nat :: Run(mask, a, b) ==> (b <= i + 1 <==> b <= i)
  {
  }

  // ---- tokens of a URL ----

  ghost function TextMask(text: seq<Byte>): seq<bool> {
    seq(|text|, i requires 0 <= i < |text| => IsTokenByte(text[i]))
  }

  ghost predicate UrlRun(lower: seq<Byte>, u: nat, v: nat) {
    Run(TextMask(lower), u, v) && MIN_TOKEN_BYTES <= v - u <= MAX_TOKEN_BYTES
  }

  ghost predicate IsUrlToken(lower: seq<Byte>, t: seq<Byte>) {
    exists u: nat, v: nat :: UrlRun(lower, u, v) && t == lower[u..v]
  }

  ghost predicate UrlTokenBefore(lower: seq<Byte>, i: nat, t: seq<Byte>) {
    exists u: nat, v: nat :: UrlRun(lower, u, v) && v <= i && t == lower[u..v]
  }

  predicate TokenLess(a: seq<Byte>, b: seq<Byte>) {
    LexLess(a, b)
  }

  lemma TokenLessIsOrder()
    ensures Sorting.Transitive(TokenLess)
    ensures forall a: seq<Byte>, b: seq<Byte> :: a == b || TokenLess(a, b) || TokenLess(b, a)
  {
    forall a: seq<Byte>, b: seq<Byte>, c: seq<Byte> | TokenLess(a, b) && TokenLess(b, c) ensures TokenLess(a, c) {
      LexTransitive(a, b, c);
    }
    forall a: seq<Byte>, b: seq<Byte> ensures a == b || TokenLess(a, b) || TokenLess(b, a) {
      if a != b { LexTotal(a, b); }
    }
  }

  /** The runs of indexable length, as they come. */
  method UrlRuns(lower: seq<Byte>) returns (out: seq<seq<Byte>>)
    ensures forall t :: t in out <==> IsUrlToken(lower, t)
  {
    out := [];
    ghost var mask := TextMask(lower);
    var i := 0;
    while i < |lower|
      invariant 0 <= i <= |lower| && Boundary(mask, i)
      invariant forall t :: t in out <==> UrlTokenBefore(lower, i, t)
    {
      ghost var was := out;
      if !IsTokenByte(lower[i]) {
        SkipPast(mask, i);
        i := i + 1;
      } else {
        var j := i;
        while j < |lower| && IsTokenByte(lower[j])
          invariant i <= j <= |lower|
          invariant forall k :: i <= k < j ==> At(mask, k)
        {
          j := j + 1;
        }
        NextRun(mask, i, j);
        if MIN_TOKEN_BYTES <= j - i <= MAX_TOKEN_BYTES {
          out := out + [lower[i..j]];
        }
        forall t ensures t in out <==> UrlTokenBefore(lower, j, t) {
          if t in was {
            var u: nat, v: nat :| UrlRun(lower, u, v) && v <= i && t == lower[u..v];
            assert v <= j;
          } else if t in out {
            assert UrlRun(lower, i, j);
          }
          if UrlTokenBefore(lower, j, t) {
            var u: nat, v: nat :| UrlRun(lower, u, v) && v <= j && t == lower[u..v];
            assert v <= i || (u == i && v == j);
          }
        }
        i := j;
      }
    }
    forall t ensures IsUrlToken(lower, t) <==> UrlTokenBefore(lower, i, t) {
      if IsUrlToken(lower, t) {
        var u: nat, v: nat :| UrlRun(lower, u, v) && t == lower[u..v];
        assert v <= i;
      }
    }
  }

  /** The tokens of a lower-cased URL, in lexicographic order, each once. */
  method UrlTokens(lower: seq<Byte>) returns (out: seq<seq<Byte>>)
    ensures forall t :: t in out <==> IsUrlToken(lower, t)
    ensures Sorting.SortedBy(out, TokenLess)
  {
    var runs := UrlRuns(lower);
    TokenLessIsOrder();
    out := Sorting.Sort(runs, TokenLess);
  }

  // ---- tokens of a pattern ----

  predicate TokenAt(pat: Pattern, i: nat) {
    i < |pat.elems| && pat.elems[i].Lit? && IsTokenByte(pat.elems[i].b)
  }

  ghost function PatternMask(pat: Pattern): seq<bool> {
    seq(|pat.elems|, i requires 0 <= i < |pat.elems| => TokenAt(pat, i))
  }

  predicate LeftPinned(pat: Pattern, i: nat)
    requires i < |pat.elems|
  {
    if i == 0 then pat.start != Anywhere else !pat.elems[i - 1].Star?
  }

  predicate RightPinned(pat: Pattern, j: nat)
    requires j <= |pat.elems|
  {
    if j == |pat.elems| then pat.end else !pat.elems[j].Star?
  }

  /** A maximal literal run both of whose edges are pinned, of indexable length. */
  ghost predicate KeyRun(pat: Pattern, i: nat, j: nat) {
    && Run(PatternMask(pat), i, j)
    && LeftPinned(pat, i) && RightPinned(pat, j)
    && MIN_TOKEN_BYTES <= j - i <= MAX_TOKEN_BYTES
  }

  function RunBytes(pat: Pattern, i: nat, j: nat): seq<Byte>
    requires i <= j <= |pat.elems| && forall k :: i <= k < j ==> TokenAt(pat, k)
  {
    seq<Byte>(j - i, k requires 0 <= k < j - i => assert TokenAt(pat, i + k); ToLower(pat.elems[i + k].b))
  }

  ghost predicate RunTokens(pat: Pattern, i: nat, j: nat) {
    forall k :: i <= k < j ==> TokenAt(pat, k)
  }

  ghost predicate KeyFrom(pat: Pattern, i: nat, j: nat, t: seq<Byte>) {
    KeyRun(pat, i, j) && RunTokens(pat, i, j) && t == RunBytes(pat, i, j)
  }

  lemma RunIsTokens(pat: Pattern, i: nat, j: nat)
    requires Run(PatternMask(pat), i, j)
    ensures RunTokens(pat, i, j)
  {
    forall k | i <= k < j ensures TokenAt(pat, k) { assert At(PatternMask(pat), k); }
  }

  ghost predicate IsIndexToken(pat: Pattern, t: seq<Byte>) {
    exists i: nat, j: nat :: KeyFrom(pat, i, j, t)
  }

  ghost predicate IndexTokenBefore(pat: Pattern, n: nat, t: seq<Byte>) {
    exists i: nat, j: nat :: KeyFrom(pat, i, j, t) && j <= n
  }

  /** The first run of `s` in the pattern comes before every run of `t`. */
  ghost predicate ComesFirst(pat: Pattern, s: seq<Byte>, t: seq<Byte>) {
    exists n: nat :: IndexTokenBefore(pat, n, s) && !IndexTokenBefore(pat, n, t)
  }

  ghost predicate InPatternOrder(pat: Pattern, out: seq<seq<Byte>>) {
    forall a, b :: 0 <= a < b < |out| ==> ComesFirst(pat, out[a], out[b])
  }

  /** The index tokens of a pattern, each once, in the order in which they first occur. */
  method IndexTokens(pat: Pattern) returns (out: seq<seq<Byte>>)
    ensures forall t :: t in out <==> IsIndexToken(pat, t)
    ensures Unrepeated(out) && InPatternOrder(pat, out)
  {
    out := [];
    ghost var mask := PatternMask(pat);
    var i := 0;
    while i < |pat.elems|
      invariant 0 <= i <= |pat.elems| && Boundary(mask, i)
      invariant forall t :: t in out <==> IndexTokenBefore(pat, i, t)
      invariant Unrepeated(out) && InPatternOrder(pat, out)
    {
      ghost var was := out;
      if !TokenAt(pat, i) {
        SkipPast(mask, i);
        i := i + 1;
      } else {
        var j := i;
        while TokenAt(pat, j)
          invariant i <= j <= |pat.elems|
          invariant forall k :: i <= k < j ==> At(mask, k) && TokenAt(pat, k)
          decreases |pat.elems| - j
        {
          j := j + 1;
        }
        NextRun(mask, i, j);
        var t := RunBytes(pat, i, j);
        if LeftPinned(pat, i) && RightPinned(pat, j) && MIN_TOKEN_BYTES <= j - i <= MAX_TOKEN_BYTES && t !in out {
          out := out + [t];
          forall a | 0 <= a < |was| ensures ComesFirst(pat, was[a], t) {
            assert was[a] in was;
            assert IndexTokenBefore(pat, i, was[a]) && !IndexTokenBefore(pat, i, t);
          }
        }
        forall s ensures s in out <==> IndexTokenBefore(pat, j, s) {
          if s in was {
            var a: nat, b: nat :| KeyFrom(pat, a, b, s) && b <= i;
            assert b <= j;
          } else if s in out {
            assert KeyFrom(pat, i, j, s);
          }
          if IndexTokenBefore(pat, j, s) {
            var a: nat, b: nat :| KeyFrom(pat, a, b, s) && b <= j;
            assert b <= i || (a == i && b == j);
          }
        }
        i := j;
      }
    }
    forall t ensures IsIndexToken(pat, t) <==> IndexTokenBefore(pat, i, t) {
      if IsIndexToken(pat, t) {
        var a: nat, b: nat :| KeyFrom(pat, a, b, t);
        assert b <= i;
      }
    }
  }

  // ---- the two agree ----

  /** The host of a request target is inside it and follows the `//` of the scheme. */
  predicate HostInTarget(text: seq<Byte>, host: Option<Range>) {
    host.Some? ==> 0 < host.value.lo <= host.value.hi <= |text| && text[host.value.lo - 1] == SLASH
  }

  lemma LowerKeepsClass(b: Byte)
    ensures IsTokenByte(ToLower(b)) <==> IsTokenByte(b)
  {
  }

  lemma SeparatorIsNotToken(b: Byte)
    requires IsSeparator(b)
    ensures !IsTokenByte(b)
  {
  }

  /** A run of literals covers consecutive text positions. */
  lemma {:induction false} RunCuts(pat: Pattern, text: seq<Byte>, cuts: seq<nat>, i: nat, k: nat)
    requires Placement(pat.elems, text, cuts)
    requires i <= k <= |pat.elems| && RunTokens(pat, i, k)
    ensures cuts[k] == cuts[i] + (k - i)
    ensures forall m :: i <= m < k ==> cuts[i] + (m - i) < |text| && pat.elems[m] == Lit(text[cuts[i] + (m - i)])
    decreases k
  {
    if k > i {
      RunCuts(pat, text, cuts, i, k - 1);
      assert CoversAt(pat.elems, text, cuts, k - 1);
      assert TokenAt(pat, k - 1);
    }
  }

  /** A pinned run lands on a maximal run of the text: the bytes either side are not token bytes. */
  lemma RunLandsWhole(pat: Pattern, text: seq<Byte>, host: Option<Range>, cuts: seq<nat>, i: nat, j: nat)
    requires HostInTarget(text, host) && IsWitness(pat, text, host, cuts) && KeyRun(pat, i, j)
    ensures RunTokens(pat, i, j) && cuts[j] == cuts[i] + (j - i) && cuts[j] <= |text|
    ensures Run(TextMask(text), cuts[i], cuts[j])
    ensures forall m :: i <= m < j ==> pat.elems[m] == Lit(text[cuts[i] + (m - i)])
  {
    RunIsTokens(pat, i, j);
    RunCuts(pat, text, cuts, i, j);
    var u, v := cuts[i], cuts[j];
    var mask := TextMask(text);
    assert pat.elems[i].Lit? && pat.elems[j - 1].Lit?;
    forall p | u <= p < v ensures At(mask, p) {
      assert TokenAt(pat, i + (p - u));
    }
    if u > 0 {
      if i > 0 {
        assert CoversAt(pat.elems, text, cuts, i - 1);
        assert !At(PatternMask(pat), i - 1);
        if pat.elems[i - 1].Sep? { SeparatorIsNotToken(text[u - 1]); }
      }
      assert !IsTokenByte(text[u - 1]);
    }
    if v < |text| {
      if j < |pat.elems| {
        assert CoversAt(pat.elems, text, cuts, j);
        assert !At(PatternMask(pat), j);
        if pat.elems[j].Sep? { SeparatorIsNotToken(text[v]); }
      }
      assert !IsTokenByte(text[v]);
    }
  }

  /** The bytes of a run, lower-cased, are those of the lower-cased text where it lands. */
  lemma RunIsLowered(pat: Pattern, text: seq<Byte>, u: nat, i: nat, j: nat)
    requires i <= j <= |pat.elems| && RunTokens(pat, i, j) && u + (j - i) <= |text|
    requires forall m :: i <= m < j ==> pat.elems[m] == Lit(text[u + (m - i)])
    ensures RunBytes(pat, i, j) == Lower(text)[u..u + (j - i)]
  {
    var t, lower := RunBytes(pat, i, j), Lower(text);
    forall k | 0 <= k < j - i ensures t[k] == lower[u + k] {
      var m := i + k;
      assert pat.elems[m] == Lit(text[u + (m - i)]);
    }
    assert t == lower[u..u + (j - i)];
  }

  /** Every index token of a matching pattern is a token of the lower-cased URL, in either case mode. */
  lemma TokensAreFound(pat: Pattern, text: seq<Byte>, host: Option<Range>, t: seq<Byte>)
    requires HostInTarget(text, host) && Matching(pat, text, host) && IsIndexToken(pat, t)
    ensures IsUrlToken(Lower(text), t)
  {
    var cuts :| IsWitness(pat, text, host, cuts);
    var i: nat, j: nat :| KeyFrom(pat, i, j, t);
    RunLandsWhole(pat, text, host, cuts, i, j);
    var u, v, lower := cuts[i], cuts[j], Lower(text);
    forall k | 0 <= k < |text| ensures TextMask(lower)[k] == TextMask(text)[k] { LowerKeepsClass(text[k]); }
    assert TextMask(lower) == TextMask(text);
    assert UrlRun(lower, u, v);
    RunIsLowered(pat, text, u, i, j);
  }
}
