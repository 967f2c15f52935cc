/** Small datatypes and sequence facts shared by every component. */
module Common {
  datatype Option<+T> = None | Some(value: T)

  datatype Result<+T, +E> = Ok(value: T) | Err(error: E)

  function Reverse<T>(s: seq<T>): (r: seq<T>)
    ensures |r| == |s|
  {
    if s == [] then [] else Reverse(s[1..]) + [s[0]]
  }

  ghost predicate Unrepeated<T>(s: seq<T>) {
    forall i, j :: 0 <= i < j < |s| ==> s[i] != s[j]
  }

  lemma Associate<T>(a: seq<T>, b: seq<T>, c: seq<T>)
    ensures a + (b + c) == (a + b) + c
  {
  }
}

/** Sorting by a given order, dropping repetitions. */
module Sorting {
  ghost predicate Transitive<T(!new)>(less: (T, T) -> bool) {
    forall a, b, c :: less(a, b) && less(b, c) ==> less(a, c)
  }

  ghost predicate SortedBy<T>(s: seq<T>, less: (T, T) -> bool) {
    forall i, j :: 0 <= i < j < |s| ==> less(s[i], s[j])
  }

  /** Different elements can be told apart by the order. */
  ghost predicate Comparable<T>(s: seq<T>, less: (T, T) -> bool) {
    forall a, b :: a in s && b in s ==> a == b || less(a, b) || less(b, a)
  }

  lemma PlacedIsSorted<T>(s: seq<T>, x: T, k: nat, less: (T, T) -> bool)
    requires SortedBy(s, less) && k <= |s|
    requires (forall i :: 0 <= i < k ==> less(s[i], x)) && forall i :: k <= i < |s| ==> less(x, s[i])
    ensures SortedBy(s[..k] + [x] + s[k..], less)
  {
    var out := s[..k] + [x] + s[k..];
    forall i, j | 0 <= i < j < |out| ensures less(out[i], out[j]) {
      assert out[i] == if i < k then s[i] else if i == k then x else s[i - 1];
      assert out[j] == if j < k then s[j] else if j == k then x else s[j - 1];
    }
  }

  /** Put an element in its place, unless it is there. */
  method Insert<T(==, !new)>(s: seq<T>, x: T, less: (T, T) -> bool) returns (out: seq<T>)
    requires Transitive(less) && SortedBy(s, less) && forall y :: y in s ==> y == x || less(y, x) || less(x, y)
    ensures SortedBy(out, less) && forall y :: y in out <==> y in s || y == x
  {
    var k := 0;
    while k < |s| && less(s[k], x)
      invariant 0 <= k <= |s|
      invariant forall i :: 0 <= i < k ==> less(s[i], x)
    {
      k := k + 1;
    }
    if k < |s| && s[k] == x { return s; }
    forall i | k <= i < |s| ensures less(x, s[i]) {
      assert s[k] in s;
      assert less(x, s[k]) && (k < i ==> less(s[k], s[i]));
    }
    PlacedIsSorted(s, x, k, less);
    out := s[..k] + [x] + s[k..];
    assert s == s[..k] + s[k..];
  }

  /** The elements in order, each once. */
  method Sort<T(==, !new)>(s: seq<T>, less: (T, T) -> bool) returns (out: seq<T>)
    requires Transitive(less) && Comparable(s, less)
    ensures SortedBy(out, less) && forall y :: y in out <==> y in s
  {
    out := [];
    for i := 0 to |s|
      invariant SortedBy(out, less) && forall y :: y in out <==> y in s[..i]
    {
      assert s[..i + 1] == s[..i] + [s[i]];
      assert s[i] in s && forall y :: y in s[..i] ==> y in s;
      out := Insert(out, s[i], less);
    }
    assert s[..|s|] == s;
  }
}

/** Lexicographic order on code sequences: a strict total order. */
module Lex {
  predicate LexLess(a: seq<int>, b: seq<int>) {
    if b == [] then false
    else if a == [] then true
    else a[0] < b[0] || (a[0] == b[0] && LexLess(a[1..], b[1..]))
  }

  lemma {:induction false} LexIrreflexive(a: seq<int>)
    ensures !LexLess(a, a)
    decreases |a|
  {
    if a != [] { LexIrreflexive(a[1..]); }
  }

  lemma {:induction false} LexTransitive(a: seq<int>, b: seq<int>, c: seq<int>)
    requires LexLess(a, b) && LexLess(b, c)
    ensures LexLess(a, c)
    decreases |a|
  {
    if a != [] && a[0] == b[0] == c[0] { LexTransitive(a[1..], b[1..], c[1..]); }
  }

  lemma {:induction false} LexTotal(a: seq<int>, b: seq<int>)
    requires a != b
    ensures LexLess(a, b) != LexLess(b, a)
    decreases |a|
  {
    if a != [] && b != [] && a[0] == b[0] {
      assert a == [a[0]] + a[1..] && b == [b[0]] + b[1..];
      LexTotal(a[1..], b[1..]);
    }
  }

  function Codes(s: string): seq<int> {
    seq(|s|, i requires 0 <= i < |s| => s[i] as int)
  }

  predicate StrLess(a: string, b: string) {
    LexLess(Codes(a), Codes(b))
  }

  lemma CodesInjective(a: string, b: string)
    requires Codes(a) == Codes(b)
    ensures a == b
  {
    assert |Codes(a)| == |a|;
    forall i | 0 <= i < |a| ensures a[i] == b[i] {
      assert Codes(a)[i] == Codes(b)[i];
    }
  }

  ghost predicate StrictlySorted(names: seq<string>) {
    forall i, j :: 0 <= i < j < |names| ==> StrLess(names[i], names[j])
  }

  lemma StrLessIsOrder()
    ensures forall a, b, c :: StrLess(a, b) && StrLess(b, c) ==> StrLess(a, c)
    ensures forall a, b :: a == b || StrLess(a, b) || StrLess(b, a)
  {
    forall a, b, c | StrLess(a, b) && StrLess(b, c) ensures StrLess(a, c) {
      LexTransitive(Codes(a), Codes(b), Codes(c));
    }
    forall a, b ensures a == b || StrLess(a, b) || StrLess(b, a) {
      if Codes(a) == Codes(b) { CodesInjective(a, b); } else { LexTotal(Codes(a), Codes(b)); }
    }
  }
}
