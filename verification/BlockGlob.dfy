/**
  Adblock URL patterns (crates/px-block/src/glob.rs).

  A pattern means: there are cut positions, one before and one after every
  element, such that each element covers the text between its two cuts, the
  first cut is a position the start anchor allows, and an end-anchored pattern
  has its last cut at the end of the text.  The matcher is a leftmost scan that
  never revisits a segment; it decides exactly that meaning.
 */
module BlockGlob {
  import opened Common

  type Byte = b: int | 0 <= b < 256

  const MIN_TOKEN_BYTES := 2
  const MAX_TOKEN_BYTES := 64
  const DOT: Byte := 0x2E
  const SLASH: Byte := 0x2F

  datatype Elem = Lit(b: Byte) | Sep | Star

  datatype StartAnchor = Anywhere | Start | Host

  datatype Pattern = Pattern(elems: seq<Elem>, start: StartAnchor, end: bool)

  /** The byte range of the host name inside the text. */
  datatype Range = Range(lo: nat, hi: nat)

  predicate IsSeparator(b: Byte) {
    b <= 0x24 || 0x26 <= b <= 0x2C || b == 0x2F || 0x3A <= b <= 0x40 ||
    0x5B <= b <= 0x5E || b == 0x60 || 0x7B <= b <= 0x7F
  }

  // ---- meaning ----

  ghost predicate Covers(e: Elem, text: seq<Byte>, p: nat, q: nat) {
    match e
    case Star => p <= q <= |text|
    case Lit(b) => p < |text| && text[p] == b && q == p + 1
    case Sep => if p < |text| then IsSeparator(text[p]) && q == p + 1 else p == q == |text|
  }

  ghost predicate CoversAt(elems: seq<Elem>, text: seq<Byte>, cuts: seq<nat>, i: nat)
    requires i < |elems| && |cuts| == |elems| + 1
  {
    Covers(elems[i], text, cuts[i], cuts[i + 1])
  }

  ghost predicate Placement(elems: seq<Elem>, text: seq<Byte>, cuts: seq<nat>) {
    && |cuts| == |elems| + 1
    && forall i {:trigger CoversAt(elems, text, cuts, i)} :: 0 <= i < |elems| ==> CoversAt(elems, text, cuts, i)
  }

  predicate AllowedStart(start: StartAnchor, text: seq<Byte>, host: Option<Range>, s: nat) {
    match start
    case Anywhere => s <= |text|
    case Start => s == 0
    case Host =>
      host.Some? &&
      (s == host.value.lo || (host.value.lo < s <= host.value.hi && s <= |text| && text[s - 1] == DOT))
  }

  ghost predicate IsWitness(pat: Pattern, text: seq<Byte>, host: Option<Range>, cuts: seq<nat>) {
    && Placement(pat.elems, text, cuts)
    && AllowedStart(pat.start, text, host, cuts[0])
    && (pat.end ==> cuts[|pat.elems|] == |text|)
  }

  /** Some assignment of `*` to substrings, from an allowed start, matches. */
  ghost predicate Matching(pat: Pattern, text: seq<Byte>, host: Option<Range>) {
    exists cuts :: IsWitness(pat, text, host, cuts)
  }

  /** A host range lies inside the text. */
  predicate HostInside(text: seq<Byte>, host: Option<Range>) {
    host.Some? ==> host.value.lo <= host.value.hi <= |text|
  }

  // ---- the exhaustive reference ----

  ghost predicate Go(elems: seq<Elem>, text: seq<Byte>, end: bool, j: nat)
    requires j <= |text|
    decreases |elems|, |text| - j
  {
    if elems == [] then !end || j == |text|
    else match elems[0]
      case Star => Go(elems[1..], text, end, j) || (j < |text| && Go(elems, text, end, j + 1))
      case Lit(b) => j < |text| && text[j] == b && Go(elems[1..], text, end, j + 1)
      case Sep =>
        if j < |text| then IsSeparator(text[j]) && Go(elems[1..], text, end, j + 1)
        else Go(elems[1..], text, end, j)
  }

  ghost predicate GoesFrom(elems: seq<Elem>, text: seq<Byte>, end: bool, cuts: seq<nat>, j: nat) {
    Placement(elems, text, cuts) && cuts[0] == j && (end ==> cuts[|elems|] == |text|)
  }

  lemma {:induction false} GoGivesCuts(elems: seq<Elem>, text: seq<Byte>, end: bool, j: nat) returns (cuts: seq<nat>)
    requires j <= |text| && Go(elems, text, end, j)
    ensures GoesFrom(elems, text, end, cuts, j)
    decreases |elems|, |text| - j
  {
    if elems == [] {
      cuts := [j];
    } else if elems[0].Star? && !Go(elems[1..], text, end, j) {
      var tail := GoGivesCuts(elems, text, end, j + 1);
      cuts := [j] + tail[1..];
      assert CoversAt(elems, text, tail, 0);
      forall i | 0 <= i < |elems| ensures CoversAt(elems, text, cuts, i) {
        assert CoversAt(elems, text, tail, i);
      }
    } else {
      var k := if elems[0].Star? || j == |text| then j else j + 1;
      var tail := GoGivesCuts(elems[1..], text, end, k);
      cuts := [j] + tail;
      forall i | 0 <= i < |elems| ensures CoversAt(elems, text, cuts, i) {
        if i > 0 { assert CoversAt(elems[1..], text, tail, i - 1); }
      }
    }
  }

  lemma {:induction false} CutsGiveGo(elems: seq<Elem>, text: seq<Byte>, end: bool, cuts: seq<nat>, j: nat)
    requires j <= |text| && GoesFrom(elems, text, end, cuts, j)
    ensures Go(elems, text, end, j)
    decreases |elems|, |text| - j
  {
    if elems != [] {
      assert CoversAt(elems, text, cuts, 0);
      if elems[0].Star? && cuts[1] > j {
        var next := cuts[0 := j + 1];
        forall i | 0 <= i < |elems| ensures CoversAt(elems, text, next, i) {
          assert CoversAt(elems, text, cuts, i);
        }
        CutsGiveGo(elems, text, end, next, j + 1);
      } else {
        var tail := cuts[1..];
        forall i | 0 <= i < |elems[1..]| ensures CoversAt(elems[1..], text, tail, i) {
          assert CoversAt(elems, text, cuts, i + 1);
        }
        CutsGiveGo(elems[1..], text, end, tail, tail[0]);
      }
    }
  }

  /** The memoised search of the test suite, tried at every allowed start, is the meaning. */
  lemma ReferenceIsMeaning(pat: Pattern, text: seq<Byte>, host: Option<Range>)
    requires HostInside(text, host)
    ensures Matching(pat, text, host) <==>
            exists s: nat :: s <= |text| && AllowedStart(pat.start, text, host, s) && Go(pat.elems, text, pat.end, s)
  {
    if Matching(pat, text, host) {
      var cuts :| IsWitness(pat, text, host, cuts);
      CutsGiveGo(pat.elems, text, pat.end, cuts, cuts[0]);
    }
    if exists s: nat :: s <= |text| && AllowedStart(pat.start, text, host, s) && Go(pat.elems, text, pat.end, s) {
      var s: nat :| s <= |text| && AllowedStart(pat.start, text, host, s) && Go(pat.elems, text, pat.end, s);
      var cuts := GoGivesCuts(pat.elems, text, pat.end, s);
      assert IsWitness(pat, text, host, cuts);
    }
  }

  // ---- segments ----

  ghost predicate StarFree(seg: seq<Elem>) {
    forall i :: 0 <= i < |seg| ==> !seg[i].Star?
  }

  /** Where a segment placed at `p` ends, if it fits there. */
  ghost function SegEnd(seg: seq<Elem>, text: seq<Byte>, p: nat): (e: Option<nat>)
    requires p <= |text|
    ensures e.Some? ==> p <= e.value <= |text|
    ensures e.Some? && StarFree(seg) ==> e.value == if p + |seg| <= |text| then p + |seg| else |text|
  {
    if seg == [] then Some(p)
    else match seg[0]
      case Star => None
      case Lit(b) => if p < |text| && text[p] == b then SegEnd(seg[1..], text, p + 1) else None
      case Sep =>
        if p < |text| then (if IsSeparator(text[p]) then SegEnd(seg[1..], text, p + 1) else None)
        else SegEnd(seg[1..], text, p)
  }

  /** The rest of a pattern fits somewhere at or after `cur`. */
  ghost predicate FitsAfter(elems: seq<Elem>, text: seq<Byte>, end: bool, cur: nat) {
    exists p: nat :: cur <= p <= |text| && Go(elems, text, end, p)
  }

  lemma {:induction false} GoSegment(seg: seq<Elem>, rest: seq<Elem>, text: seq<Byte>, end: bool, j: nat)
    requires StarFree(seg) && j <= |text|
    ensures Go(seg + rest, text, end, j) <==>
            SegEnd(seg, text, j).Some? && Go(rest, text, end, SegEnd(seg, text, j).value)
    decreases |seg|
  {
    if seg == [] {
      assert seg + rest == rest;
    } else {
      assert (seg + rest)[1..] == seg[1..] + rest;
      if j < |text| { GoSegment(seg[1..], rest, text, end, j + 1); }
      GoSegment(seg[1..], rest, text, end, j);
    }
  }

  lemma {:induction false} GoStar(rest: seq<Elem>, text: seq<Byte>, end: bool, j: nat)
    requires j <= |text|
    ensures Go([Star] + rest, text, end, j) <==> FitsAfter(rest, text, end, j)
    decreases |text| - j
  {
    assert ([Star] + rest)[1..] == rest;
    if j < |text| { GoStar(rest, text, end, j + 1); }
  }

  /** A segment followed by a star may be placed leftmost: its end is monotone in its start. */
  lemma LeftmostSuffices(seg: seq<Elem>, rest: seq<Elem>, text: seq<Byte>, end: bool, cur: nat, p: nat)
    requires StarFree(seg) && cur <= p <= |text| && SegEnd(seg, text, p).Some?
    requires forall q: nat :: cur <= q < p ==> SegEnd(seg, text, q).None?
    ensures FitsAfter(seg + [Star] + rest, text, end, cur) <==> FitsAfter(rest, text, end, SegEnd(seg, text, p).value)
  {
    var e := SegEnd(seg, text, p).value;
    assert seg + [Star] + rest == seg + ([Star] + rest);
    forall q: nat | cur <= q <= |text|
      ensures Go(seg + [Star] + rest, text, end, q) <==>
              SegEnd(seg, text, q).Some? && FitsAfter(rest, text, end, SegEnd(seg, text, q).value)
    {
      GoSegment(seg, [Star] + rest, text, end, q);
      if SegEnd(seg, text, q).Some? { GoStar(rest, text, end, SegEnd(seg, text, q).value); }
    }
    if FitsAfter(rest, text, end, e) {
      assert Go(seg + [Star] + rest, text, end, p);
    }
  }

  /** `seg` fits at an allowed start `q`, ending at `needEnd` if that is given. */
  ghost predicate Hit(start: StartAnchor, seg: seq<Elem>, text: seq<Byte>, host: Option<Range>, needEnd: Option<nat>,
                      q: nat)
  {
    && q <= |text|
    && AllowedStart(start, text, host, q)
    && SegEnd(seg, text, q).Some?
    && (needEnd.Some? ==> SegEnd(seg, text, q) == needEnd)
  }

  lemma FreeSegment(seg: seq<Elem>, rest: seq<Elem>, last: bool, text: seq<Byte>, end: bool, cur: nat,
                    found: Option<nat>, at: nat)
    requires StarFree(seg) && cur <= |text| && !(last && end)
    requires found.Some? ==> cur <= at <= |text| && found == SegEnd(seg, text, at)
    requires found.Some? ==> forall q: nat :: cur <= q < at ==> SegEnd(seg, text, q).None?
    requires found.None? ==> forall q: nat :: cur <= q <= |text| ==> SegEnd(seg, text, q).None?
    ensures var whole := if last then seg else seg + [Star] + rest;
            FitsAfter(whole, text, end, cur) <==> found.Some? && (last || FitsAfter(rest, text, end, found.value))
  {
    var whole := if last then seg else seg + [Star] + rest;
    var after := if last then [] else [Star] + rest;
    assert whole == seg + after;
    forall q: nat | cur <= q <= |text| { GoSegment(seg, after, text, end, q); }
    if found.Some? {
      if last { assert Go(whole, text, end, at); } else { LeftmostSuffices(seg, rest, text, end, cur, at); }
    }
  }

  lemma AnchoredSegment(pat: Pattern, text: seq<Byte>, host: Option<Range>, seg: seq<Elem>, rest: seq<Elem>, last: bool,
                        found: Option<nat>, at: nat)
    requires HostInside(text, host) && StarFree(seg)
    requires pat.elems == if last then seg else seg + [Star] + rest
    requires var needEnd := if last && pat.end then Some(|text|) else None;
             && (found.Some? ==> Hit(pat.start, seg, text, host, needEnd, at) && found == SegEnd(seg, text, at))
             && (found.Some? ==> forall q: nat :: q < at ==> !Hit(pat.start, seg, text, host, needEnd, q))
             && (found.None? ==> forall q: nat :: !Hit(pat.start, seg, text, host, needEnd, q))
    ensures Matching(pat, text, host) <==> found.Some? && (last || FitsAfter(rest, text, pat.end, found.value))
  {
    ReferenceIsMeaning(pat, text, host);
    var needEnd := if last && pat.end then Some(|text|) else None;
    var after := if last then [] else [Star] + rest;
    assert pat.elems == seg + after;
    forall q: nat | q <= |text| && AllowedStart(pat.start, text, host, q)
      ensures Go(pat.elems, text, pat.end, q) ==> Hit(pat.start, seg, text, host, needEnd, q)
      ensures Hit(pat.start, seg, text, host, needEnd, q) ==>
              (Go(pat.elems, text, pat.end, q) <==> last || FitsAfter(rest, text, pat.end, SegEnd(seg, text, q).value))
    {
      GoSegment(seg, after, text, pat.end, q);
      if SegEnd(seg, text, q).Some? { GoStar(rest, text, pat.end, SegEnd(seg, text, q).value); }
    }
  }

  lemma AnywhereFits(pat: Pattern, text: seq<Byte>, host: Option<Range>)
    requires HostInside(text, host) && pat.start == Anywhere
    ensures Matching(pat, text, host) <==> FitsAfter(pat.elems, text, pat.end, 0)
  {
    ReferenceIsMeaning(pat, text, host);
    if FitsAfter(pat.elems, text, pat.end, 0) {
      var p: nat :| 0 <= p <= |text| && Go(pat.elems, text, pat.end, p);
      assert AllowedStart(pat.start, text, host, p);
    }
  }

  // ---- the matcher ----

  method MatchAt(seg: seq<Elem>, text: seq<Byte>, p: nat) returns (r: Option<nat>)
    requires p <= |text|
    ensures r == SegEnd(seg, text, p)
  {
    var pos := p;
    for i := 0 to |seg|
      invariant p <= pos <= |text|
      invariant SegEnd(seg, text, p) == SegEnd(seg[i..], text, pos)
    {
      assert seg[i..][1..] == seg[i + 1..];
      match seg[i]
      case Lit(b) =>
        if pos < |text| && text[pos] == b { pos := pos + 1; } else { return None; }
      case Sep =>
        if pos < |text| {
          if IsSeparator(text[pos]) { pos := pos + 1; } else { return None; }
        }
      case Star => return None;
    }
    return Some(pos);
  }

  /** Tries the start of the host and of each label in turn; `needEnd` restricts where the segment may stop. */
  method MatchAtHost(seg: seq<Elem>, text: seq<Byte>, host: Range, needEnd: Option<nat>)
    returns (r: Option<nat>, ghost at: nat)
    requires host.lo <= host.hi <= |text|
    ensures r.Some? ==> Hit(Host, seg, text, Some(host), needEnd, at) && r == SegEnd(seg, text, at)
    ensures r.Some? ==> forall q: nat :: q < at ==> !Hit(Host, seg, text, Some(host), needEnd, q)
    ensures r.None? ==> forall q: nat :: !Hit(Host, seg, text, Some(host), needEnd, q)
  {
    var p := host.lo;
    at := p;
    while true
      invariant host.lo <= p <= host.hi
      invariant AllowedStart(Host, text, Some(host), p)
      invariant forall q: nat :: q < p ==> !Hit(Host, seg, text, Some(host), needEnd, q)
      decreases host.hi - p
    {
      var e := MatchAt(seg, text, p);
      if e.Some? && (needEnd.None? || e == needEnd) {
        return e, p;
      }
      var k := p;
      while k < host.hi && text[k] != DOT
        invariant p <= k <= host.hi
        invariant forall m :: p <= m < k ==> text[m] != DOT
      {
        k := k + 1;
      }
      if k == host.hi {
        return None, p;
      }
      p := k + 1;
    }
  }

  method FindSegment(seg: seq<Elem>, text: seq<Byte>, cur: nat) returns (r: Option<nat>, ghost at: nat)
    requires cur <= |text|
    ensures r.Some? ==> cur <= at <= |text| && r == SegEnd(seg, text, at)
    ensures r.Some? ==> forall q: nat :: cur <= q < at ==> SegEnd(seg, text, q).None?
    ensures r.None? ==> forall q: nat :: cur <= q <= |text| ==> SegEnd(seg, text, q).None?
  {
    at := cur;
    for p := cur to |text| + 1
      invariant forall q: nat :: cur <= q < p ==> SegEnd(seg, text, q).None?
    {
      r := MatchAt(seg, text, p);
      if r.Some? { return r, p; }
    }
    return None, at;
  }

  method AnyReachesEnd(seg: seq<Elem>, text: seq<Byte>, cur: nat) returns (r: bool)
    requires cur <= |text| && StarFree(seg)
    ensures r <==> FitsAfter(seg, text, true, cur)
  {
    assert seg + [] == seg;
    forall q: nat | q <= |text|
      ensures Go(seg, text, true, q) <==> SegEnd(seg, text, q) == Some(|text|)
    {
      GoSegment(seg, [], text, true, q);
    }
    if seg == [] {
      assert Go(seg, text, true, |text|);
      return true;
    }
    var lo := if |text| >= |seg| && |text| - |seg| > cur then |text| - |seg| else cur;
    for p := lo to |text| + 1
      invariant forall q: nat :: cur <= q < p ==> SegEnd(seg, text, q) != Some(|text|)
    {
      var e := MatchAt(seg, text, p);
      if e == Some(|text|) { return true; }
    }
    return false;
  }

  /** The next `*` at or after `i`, or the end: the bounds of one item of the split at `*`. */
  method SegmentEnd(elems: seq<Elem>, i: nat) returns (k: nat)
    requires i <= |elems|
    ensures i <= k <= |elems| && StarFree(elems[i..k])
    ensures k < |elems| ==> elems[k].Star?
  {
    k := i;
    while k < |elems| && !elems[k].Star?
      invariant i <= k <= |elems|
      invariant forall m :: i <= m < k ==> !elems[m].Star?
    {
      k := k + 1;
    }
  }

  /** The first segment of a pattern with a start anchor. */
  method AnchoredFit(pat: Pattern, text: seq<Byte>, host: Option<Range>, seg: seq<Elem>, last: bool,
                     ghost rest: seq<Elem>)
    returns (found: Option<nat>)
    requires HostInside(text, host) && StarFree(seg) && pat.start != Anywhere
    requires pat.elems == if last then seg else seg + [Star] + rest
    ensures found.Some? ==> found.value <= |text|
    ensures Matching(pat, text, host) <==> found.Some? && (last || FitsAfter(rest, text, pat.end, found.value))
  {
    var needEnd := if last && pat.end then Some(|text|) else None;
    found := None;
    ghost var at: nat := 0;
    if pat.start == Start {
      found := MatchAt(seg, text, 0);
      if needEnd.Some? && found != needEnd { found := None; }
    } else if host.Some? {
      found, at := MatchAtHost(seg, text, host.value, needEnd);
    }
    AnchoredSegment(pat, text, host, seg, rest, last, found, at);
  }

  /** A segment that may be placed anywhere from `cur` on. */
  method FreeFit(seg: seq<Elem>, last: bool, text: seq<Byte>, end: bool, cur: nat, ghost rest: seq<Elem>)
    returns (found: Option<nat>)
    requires StarFree(seg) && cur <= |text|
    ensures found.Some? ==> found.value <= |text|
    ensures var whole := if last then seg else seg + [Star] + rest;
            FitsAfter(whole, text, end, cur) <==> found.Some? && (last || FitsAfter(rest, text, end, found.value))
  {
    if last && end {
      var any := AnyReachesEnd(seg, text, cur);
      return if any then Some(|text|) else None;
    }
    ghost var at;
    found, at := FindSegment(seg, text, cur);
    FreeSegment(seg, rest, last, text, end, cur, found, at);
  }

  method Matches(pat: Pattern, text: seq<Byte>, host: Option<Range>) returns (r: bool)
    requires HostInside(text, host)
    ensures r <==> Matching(pat, text, host)
  {
    var n := |pat.elems|;
    var cur: nat, i: nat, first := 0, 0, true;
    assert pat.elems[0..] == pat.elems;
    if pat.start == Anywhere { AnywhereFits(pat, text, host); }
    while i <= n
      invariant 0 <= i <= n + 1 && cur <= |text|
      invariant first ==> i == 0 && cur == 0
      invariant (!first || pat.start == Anywhere) && i <= n ==>
        (Matching(pat, text, host) <==> FitsAfter(pat.elems[i..], text, pat.end, cur))
      invariant i == n + 1 ==> Matching(pat, text, host)
      decreases n + 1 - i
    {
      var k := SegmentEnd(pat.elems, i);
      var seg := pat.elems[i..k];
      var last := k == n;
      ghost var rest := if last then [] else pat.elems[k + 1..];
      assert pat.elems[i..] == if last then seg else seg + [Star] + rest;
      var found;
      if first && pat.start != Anywhere {
        found := AnchoredFit(pat, text, host, seg, last, rest);
      } else {
        found := FreeFit(seg, last, text, pat.end, cur, rest);
      }
      if found.None? { return false; }
      cur := found.value;
      first := false;
      i := k + 1;
    }
    return true;
  }

  // ---- normalisation ----

  ghost function Collapse(elems: seq<Elem>): (out: seq<Elem>) {
    if elems == [] then []
    else
      var out := Collapse(elems[..|elems| - 1]);
      var e := elems[|elems| - 1];
      if e.Star? && out != [] && out[|out| - 1].Star? then out else out + [e]
  }

  ghost predicate NoDoubleStar(elems: seq<Elem>) {
    forall i :: 0 <= i < |elems| - 1 ==> !(elems[i].Star? && elems[i + 1].Star?)
  }

  /** Same answers from every position, whatever follows. */
  ghost predicate SameMeaning(a: seq<Elem>, b: seq<Elem>, text: seq<Byte>, end: bool) {
    forall j: nat :: j <= |text| ==> (Go(a, text, end, j) <==> Go(b, text, end, j))
  }

  lemma {:induction false} GoCongruence(pre: seq<Elem>, a: seq<Elem>, b: seq<Elem>, text: seq<Byte>, end: bool, j: nat)
    requires SameMeaning(a, b, text, end) && j <= |text|
    ensures Go(pre + a, text, end, j) <==> Go(pre + b, text, end, j)
    decreases |pre|, |text| - j
  {
    if pre == [] {
      assert pre + a == a && pre + b == b;
    } else {
      assert (pre + a)[1..] == pre[1..] + a && (pre + b)[1..] == pre[1..] + b;
      GoCongruence(pre[1..], a, b, text, end, j);
      if j < |text| {
        GoCongruence(pre, a, b, text, end, j + 1);
        GoCongruence(pre[1..], a, b, text, end, j + 1);
      }
    }
  }

  lemma TwoStars(rest: seq<Elem>, text: seq<Byte>, end: bool)
    ensures SameMeaning([Star] + ([Star] + rest), [Star] + rest, text, end)
  {
    forall j: nat | j <= |text|
      ensures Go([Star] + ([Star] + rest), text, end, j) <==> Go([Star] + rest, text, end, j)
    {
      GoStar([Star] + rest, text, end, j);
      GoStar(rest, text, end, j);
      forall p: nat | j <= p <= |text|
        ensures Go([Star] + rest, text, end, p) <==> FitsAfter(rest, text, end, p)
      {
        GoStar(rest, text, end, p);
      }
    }
  }

  lemma {:induction false} CollapseMeaning(elems: seq<Elem>, rest: seq<Elem>, text: seq<Byte>, end: bool)
    ensures SameMeaning(elems + rest, Collapse(elems) + rest, text, end)
    decreases |elems|
  {
    if elems != [] {
      var front, e := elems[..|elems| - 1], elems[|elems| - 1];
      var out := Collapse(front);
      CollapseMeaning(front, [e] + rest, text, end);
      assert elems + rest == front + ([e] + rest);
      if e.Star? && out != [] && out[|out| - 1].Star? {
        var pre := out[..|out| - 1];
        assert out + ([e] + rest) == pre + ([Star] + ([Star] + rest));
        assert out + rest == pre + ([Star] + rest);
        TwoStars(rest, text, end);
        forall j: nat | j <= |text| {
          GoCongruence(pre, [Star] + ([Star] + rest), [Star] + rest, text, end, j);
        }
      } else {
        assert Collapse(elems) + rest == out + ([e] + rest);
      }
    }
  }

  lemma {:induction false} TrailingStar(elems: seq<Elem>, text: seq<Byte>, end: bool, j: nat)
    requires j <= |text|
    ensures Go(elems + [Star], text, end, j) <==> Go(elems, text, false, j)
    decreases |elems|, |text| - j
  {
    if elems == [] {
      GoStar([], text, end, j);
      assert elems + [Star] == [Star] + [];
      assert Go([], text, end, |text|);
    } else {
      assert (elems + [Star])[1..] == elems[1..] + [Star];
      TrailingStar(elems[1..], text, end, j);
      if j < |text| {
        TrailingStar(elems[1..], text, end, j + 1);
        TrailingStar(elems, text, end, j + 1);
      }
    }
  }

  /** A pattern whose stars are single, not last, and first only under a host anchor. */
  ghost predicate Normal(pat: Pattern) {
    && NoDoubleStar(pat.elems)
    && (pat.elems != [] ==> !pat.elems[|pat.elems| - 1].Star?)
    && (pat.elems != [] && pat.elems[0].Star? ==> pat.start == Host)
  }

  lemma DropFirstStar(raw: Pattern, text: seq<Byte>, host: Option<Range>)
    requires HostInside(text, host)
    requires raw.elems != [] && raw.elems[0].Star? && raw.start != Host
    ensures Matching(raw, text, host) <==> Matching(Pattern(raw.elems[1..], Anywhere, raw.end), text, host)
  {
    var rest := raw.elems[1..];
    assert raw.elems == [Star] + rest;
    ReferenceIsMeaning(raw, text, host);
    AnywhereFits(Pattern(rest, Anywhere, raw.end), text, host);
    forall j: nat | j <= |text|
      ensures Go(raw.elems, text, raw.end, j) <==> FitsAfter(rest, text, raw.end, j)
    {
      GoStar(rest, text, raw.end, j);
    }
    assert AllowedStart(raw.start, text, host, 0);
  }

  lemma DropLastStar(raw: Pattern, text: seq<Byte>, host: Option<Range>)
    requires HostInside(text, host)
    requires raw.elems != [] && raw.elems[|raw.elems| - 1].Star?
    ensures Matching(raw, text, host) <==> Matching(Pattern(raw.elems[..|raw.elems| - 1], raw.start, false), text, host)
  {
    var front := raw.elems[..|raw.elems| - 1];
    assert raw.elems == front + [Star];
    ReferenceIsMeaning(raw, text, host);
    ReferenceIsMeaning(Pattern(front, raw.start, false), text, host);
    forall j: nat | j <= |text| { TrailingStar(front, text, raw.end, j); }
  }

  lemma CollapseStars(raw: Pattern, text: seq<Byte>, host: Option<Range>)
    requires HostInside(text, host)
    ensures Matching(raw, text, host) <==> Matching(raw.(elems := Collapse(raw.elems)), text, host)
  {
    var out := raw.(elems := Collapse(raw.elems));
    ReferenceIsMeaning(raw, text, host);
    ReferenceIsMeaning(out, text, host);
    CollapseMeaning(raw.elems, [], text, raw.end);
    assert raw.elems + [] == raw.elems && out.elems + [] == out.elems;
  }

  /** Building a pattern normalises its stars and keeps what it matches. */
  method NewPattern(elems: seq<Elem>, start: StartAnchor, end: bool) returns (pat: Pattern)
    ensures Normal(pat)
    ensures forall text: seq<Byte>, host: Option<Range> :: HostInside(text, host) ==>
              (Matching(pat, text, host) <==> Matching(Pattern(elems, start, end), text, host))
  {
    var out: seq<Elem> := [];
    for i := 0 to |elems|
      invariant out == Collapse(elems[..i]) && NoDoubleStar(out)
    {
      assert elems[..i + 1][..i] == elems[..i];
      if !(elems[i].Star? && out != [] && out[|out| - 1].Star?) {
        out := out + [elems[i]];
      }
    }
    assert elems[..|elems|] == elems;
    pat := Pattern(out, start, end);
    ghost var p0 := pat;
    if out != [] && out[0].Star? && start != Host {
      pat := Pattern(out[1..], Anywhere, end);
    }
    ghost var p1 := pat;
    assert NoDoubleStar(p1.elems);
    assert |p1.elems| >= 2 ==> !(p1.elems[|p1.elems| - 2].Star? && p1.elems[|p1.elems| - 2 + 1].Star?);
    if pat.elems != [] && pat.elems[|pat.elems| - 1].Star? {
      pat := Pattern(pat.elems[..|pat.elems| - 1], pat.start, false);
    }
    forall text: seq<Byte>, host: Option<Range> | HostInside(text, host)
      ensures Matching(pat, text, host) <==> Matching(Pattern(elems, start, end), text, host)
    {
      CollapseStars(Pattern(elems, start, end), text, host);
      if p1 != p0 { DropFirstStar(p0, text, host); }
      if pat != p1 { DropLastStar(p1, text, host); }
    }
  }
}
