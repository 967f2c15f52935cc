/**
  What the commonest rule means: `||domain^` (crates/px-block/src/glob.rs and
  filter.rs) covers a domain and its subdomains, and nothing else.
 */
module BlockHostRule {
  import opened Common
  import opened BlockGlob
  import opened BlockDomains
  import opened BlockMatcher

  predicate LetterOrDigit(b: Byte) {
    'a' as int <= b <= 'z' as int || 'A' as int <= b <= 'Z' as int || '0' as int <= b <= '9' as int
  }

  /** A separator is any ASCII byte but a letter, a digit and the four characters `_`, `-`, `.` and `%`. */
  lemma SeparatorsAre(b: Byte)
    ensures IsSeparator(b) <==>
            b < 0x80 && !LetterOrDigit(b) && b != '_' as int && b != '-' as int && b != '.' as int && b != '%' as int
  {
  }

  ghost predicate NoSeparator(bs: seq<Byte>) {
    forall i :: 0 <= i < |bs| ==> !IsSeparator(bs[i])
  }

  function Literals(d: seq<Byte>): seq<Elem> {
    seq(|d|, i requires 0 <= i < |d| => Lit(d[i]))
  }

  /** The pattern written `||d^`. */
  function DomainRule(d: seq<Byte>): Pattern {
    Pattern(Literals(d) + [Sep], Host, false)
  }

  /** The domain itself, or something ending in a dot and the domain. */
  ghost predicate UnderDomain(h: seq<Byte>, d: seq<Byte>) {
    h == d || (|d| < |h| && h[|h| - |d|..] == d && h[|h| - |d| - 1] == '.' as int)
  }

  /** Cut positions one byte apart. */
  ghost function Marks(s: nat, n: nat): (cuts: seq<nat>)
    ensures |cuts| == n + 1 && forall i :: 0 <= i <= n ==> cuts[i] == s + i
  {
    seq(n + 1, i => s + i)
  }

  lemma {:induction false} LiteralCuts(d: seq<Byte>, text: seq<Byte>, cuts: seq<nat>, k: nat)
    requires Placement(DomainRule(d).elems, text, cuts) && k <= |d|
    ensures cuts[k] == cuts[0] + k && (k > 0 ==> cuts[k] <= |text|)
    ensures forall i :: 0 <= i < k ==> cuts[0] + i < |text| && text[cuts[0] + i] == d[i]
    decreases k
  {
    if k > 0 {
      LiteralCuts(d, text, cuts, k - 1);
      assert CoversAt(DomainRule(d).elems, text, cuts, k - 1);
    }
  }

  /** The host range holds the whole host: no separator inside, and one right after it unless the text ends. */
  ghost predicate WholeHost(text: seq<Byte>, host: Range) {
    && host.lo <= host.hi <= |text| && NoSeparator(text[host.lo..host.hi])
    && (host.hi < |text| ==> IsSeparator(text[host.hi]))
  }

  lemma HostByte(text: seq<Byte>, host: Range, p: nat)
    requires WholeHost(text, host) && host.lo <= p < host.hi
    ensures !IsSeparator(text[p])
  {
    assert text[p] == text[host.lo..host.hi][p - host.lo];
  }

  lemma DomainByte(d: seq<Byte>, i: nat)
    requires NoSeparator(d) && i < |d|
    ensures !IsSeparator(d[i])
  {
  }

  /** The literals end exactly where the host does. */
  lemma EndsAtHost(text: seq<Byte>, host: Range, d: seq<Byte>, cuts: seq<nat>)
    requires WholeHost(text, host) && d != [] && NoSeparator(d) && IsWitness(DomainRule(d), text, Some(host), cuts)
    ensures host.lo <= cuts[0] && cuts[0] + |d| == host.hi && text[cuts[0]..host.hi] == d
  {
    LiteralCuts(d, text, cuts, |d|);
    var s := cuts[0];
    assert CoversAt(DomainRule(d).elems, text, cuts, |d|);
    if s + |d| > host.hi { DomainByte(d, host.hi - s); }
    if s + |d| < host.hi { HostByte(text, host, s + |d|); }
  }

  lemma MatchIsUnder(text: seq<Byte>, host: Range, d: seq<Byte>)
    requires WholeHost(text, host) && d != [] && NoSeparator(d) && Matching(DomainRule(d), text, Some(host))
    ensures UnderDomain(text[host.lo..host.hi], d)
  {
    var cuts :| IsWitness(DomainRule(d), text, Some(host), cuts);
    EndsAtHost(text, host, d, cuts);
    var h, s := text[host.lo..host.hi], cuts[0];
    assert h[s - host.lo..] == d;
    if s > host.lo { assert h[s - host.lo - 1] == text[s - 1]; }
  }

  /** The domain fits where it stands, with a separator or the end of the text behind it. */
  lemma PlaceDomain(text: seq<Byte>, hi: nat, d: seq<Byte>, s: nat) returns (cuts: seq<nat>)
    requires s + |d| == hi <= |text| && text[s..hi] == d && (hi < |text| ==> IsSeparator(text[hi]))
    ensures Placement(DomainRule(d).elems, text, cuts) && cuts[0] == s
  {
    var elems := DomainRule(d).elems;
    cuts := Marks(s, |d|) + [if hi < |text| then hi + 1 else hi];
    forall i | 0 <= i < |elems| ensures CoversAt(elems, text, cuts, i) {
      if i < |d| { assert elems[i] == Lit(d[i]) && text[s + i] == text[s..hi][i]; } else { assert elems[i] == Sep; }
    }
  }

  lemma TailOf(text: seq<Byte>, lo: nat, hi: nat, n: nat)
    requires lo <= hi <= |text| && n <= hi - lo
    ensures text[lo..hi][hi - lo - n..] == text[hi - n..hi]
    ensures n < hi - lo ==> text[lo..hi][hi - lo - n - 1] == text[hi - n - 1]
  {
  }

  lemma UnderIsMatch(text: seq<Byte>, host: Range, d: seq<Byte>)
    requires WholeHost(text, host) && UnderDomain(text[host.lo..host.hi], d)
    ensures Matching(DomainRule(d), text, Some(host))
  {
    var h := text[host.lo..host.hi];
    var s := host.hi - |d|;
    assert h == d ==> h[|h| - |d|..] == d;
    TailOf(text, host.lo, host.hi, |d|);
    var cuts := PlaceDomain(text, host.hi, d, s);
    assert AllowedStart(Host, text, Some(host), s);
    assert IsWitness(DomainRule(d), text, Some(host), cuts);
  }

  /** `||d^` matches exactly the URLs whose host is the domain or a subdomain of it. */
  lemma DomainRuleMeans(text: seq<Byte>, host: Range, d: seq<Byte>)
    requires WholeHost(text, host) && d != [] && NoSeparator(d)
    ensures Matching(DomainRule(d), text, Some(host)) <==> UnderDomain(text[host.lo..host.hi], d)
  {
    if Matching(DomainRule(d), text, Some(host)) { MatchIsUnder(text, host, d); }
    if UnderDomain(text[host.lo..host.hi], d) { UnderIsMatch(text, host, d); }
  }

  ghost predicate Narrow(s: string) {
    forall i :: 0 <= i < |s| ==> s[i] as int < 256
  }

  lemma EncodeEqual(a: string, b: string)
    requires Narrow(a) && Narrow(b)
    ensures Encode(a) == Encode(b) <==> a == b
  {
    if Encode(a) == Encode(b) {
      assert |Encode(a)| == |a| && |Encode(b)| == |b|;
      forall i | 0 <= i < |a| ensures a[i] == b[i] { assert Encode(a)[i] == Encode(b)[i]; }
    }
  }

  /** It is the same relation by which a `domain=` entry covers a page. */
  lemma SameAsDomainEntry(h: string, d: string)
    requires Narrow(h) && Narrow(d) && d != []
    ensures HostUnder(h, d) <==> UnderDomain(Encode(h), Encode(d))
  {
    EncodeEqual(h, d);
    if |d| <= |h| {
      var cut := |h| - |d|;
      EncodeEqual(h[cut..], d);
      assert Encode(h)[cut..] == Encode(h[cut..]);
      if cut > 0 {
        assert h[..cut][cut - 1..] == [h[cut - 1]];
        assert Encode(h)[cut - 1] == h[cut - 1] as int;
      }
    }
  }
}
