/**
  The rule index and the request check (crates/px-block/src/matcher.rs).

  Each rule is filed under one token, so a request looks at a few rules only;
  the verdict is nevertheless that of scanning every rule in id order.
 */
module BlockMatcher {
  import opened Common
  import opened BlockGlob
  import opened BlockTokens
  import opened BlockDomains
  import opened Lex
  import Sorting

  const MAX_TOTAL_RULES := 1_000_000

  datatype ResourceType =
    | Script | Image | Stylesheet | XmlHttpRequest | Subdocument | Ping | Media | Font | Other | Document

  function Bit(t: ResourceType): bv16 {
    match t
    case Script => 1
    case Image => 2
    case Stylesheet => 4
    case XmlHttpRequest => 8
    case Subdocument => 16
    case Ping => 32
    case Media => 64
    case Font => 128
    case Other => 256
    case Document => 512
  }

  predicate MaskContains(mask: bv16, t: ResourceType) {
    mask & Bit(t) != 0
  }

  datatype Rule = Rule(
    exception: bool, important: bool, matchCase: bool, pattern: Pattern,
    types: bv16, thirdParty: Option<bool>, domains: DomainConstraint)

  // ---- targets ----

  datatype Target = Target(full: seq<Byte>, lower: seq<Byte>, host: Range)

  ghost predicate ValidTarget(t: Target) {
    t.lower == Lower(t.full) && HostInTarget(t.full, Some(t.host))
  }

  predicate NetworkScheme(scheme: string) {
    scheme == "http" || scheme == "https" || scheme == "ws" || scheme == "wss" || scheme == "ftp"
  }

  function Encode(s: string): seq<Byte> {
    seq(|s|, i requires 0 <= i < |s| => if s[i] as int < 256 then s[i] as int else 255)
  }

  function AfterHost(port: Option<seq<Byte>>, path: seq<Byte>, query: Option<seq<Byte>>): seq<Byte> {
    (if port.Some? then [0x3A] + port.value else []) + path + (if query.Some? then [0x3F] + query.value else [])
  }

  /** The text a rule is matched against: `scheme://host[:port]path[?query]`. */
  method BuildTarget(scheme: string, host: seq<Byte>, port: Option<seq<Byte>>, path: seq<Byte>,
                     query: Option<seq<Byte>>)
    returns (t: Option<Target>)
    ensures t.Some? <==> NetworkScheme(scheme)
    ensures t.Some? ==> ValidTarget(t.value)
    ensures t.Some? ==> t.value.full[t.value.host.lo..t.value.host.hi] == host
    ensures t.Some? ==> t.value.full[..t.value.host.lo] == Encode(scheme) + [0x3A, SLASH, SLASH]
    ensures t.Some? ==> t.value.full[t.value.host.hi..] == AfterHost(port, path, query)
  {
    if !NetworkScheme(scheme) { return None; }
    var before := Encode(scheme) + [0x3A, SLASH, SLASH];
    var after := AfterHost(port, path, query);
    var full := before + host + after;
    var lo, hi := |before|, |before| + |host|;
    assert full[lo - 1] == before[lo - 1];
    t := Some(Target(full, Lower(full), Range(lo, hi)));
  }

  lemma LowerAgain(text: seq<Byte>)
    ensures Lower(Lower(text)) == Lower(text)
  {
  }

  // ---- what a rule decides ----

  datatype Query = Query(target: Target, source: Option<string>, ty: ResourceType, thirdParty: bool)

  ghost predicate Applies(r: Rule, q: Query) {
    && MaskContains(r.types, q.ty)
    && (r.thirdParty.Some? ==> r.thirdParty.value == q.thirdParty)
    && Allowed(r.domains, if q.source.Some? then q.source.value else "")
    && Matching(r.pattern, if r.matchCase then q.target.full else q.target.lower, Some(q.target.host))
  }

  datatype Class = Exception | Important | Plain

  function ClassOf(r: Rule): Class {
    if r.exception then Exception else if r.important then Important else Plain
  }

  ghost predicate Decided(entries: seq<Rule>, q: Query, cls: Class, id: nat) {
    id < |entries| && ClassOf(entries[id]) == cls && Applies(entries[id], q)
  }

  datatype Verdict = Allow | Block(id: nat) | AllowedByException(id: nat)

  /** The lowest id from `from` on of an applicable rule of the class, found by trying them all. */
  ghost function FirstOf(entries: seq<Rule>, q: Query, cls: Class, from: nat): (r: Option<nat>)
    requires from <= |entries|
    ensures r.Some? ==> from <= r.value && Decided(entries, q, cls, r.value)
    ensures forall id: nat :: from <= id && Decided(entries, q, cls, id) ==> r.Some? && r.value <= id
    decreases |entries| - from
  {
    if from == |entries| then None
    else if Decided(entries, q, cls, from) then Some(from)
    else FirstOf(entries, q, cls, from + 1)
  }

  /** Important block, else exception, else block, each the lowest id of its class. */
  ghost function Scan(entries: seq<Rule>, q: Query): Verdict {
    if q.ty == Document then Allow
    else
      var important := FirstOf(entries, q, Important, 0);
      var exception := FirstOf(entries, q, Exception, 0);
      var plain := FirstOf(entries, q, Plain, 0);
      if important.Some? then Block(important.value)
      else if exception.Some? then AllowedByException(exception.value)
      else if plain.Some? then Block(plain.value)
      else Allow
  }

  // ---- what a verdict means ----

  /** The rule applies, and is of the given kind by its own fields. */
  ghost predicate Hits(entries: seq<Rule>, q: Query, exception: bool, important: bool, id: nat) {
    id < |entries| && Applies(entries[id], q) && entries[id].exception == exception
    && (exception || entries[id].important == important)
  }

  ghost predicate Any(entries: seq<Rule>, q: Query, exception: bool, important: bool) {
    exists id: nat :: Hits(entries, q, exception, important, id)
  }

  /** The lowest applicable rule of its kind. */
  ghost predicate LowestHit(entries: seq<Rule>, q: Query, exception: bool, important: bool, id: nat) {
    Hits(entries, q, exception, important, id) && forall k: nat :: Hits(entries, q, exception, important, k) ==> id <= k
  }

  /**
    Top-level documents are never blocked.  Otherwise an important block beats
    every exception, an exception beats every plain block, and the rule named is
    the lowest applicable one of the deciding kind.
   */
  ghost predicate RightVerdict(entries: seq<Rule>, q: Query, v: Verdict) {
    if q.ty == Document then v == Allow
    else
      var important, exception := Any(entries, q, false, true), Any(entries, q, true, false);
      var plain := Any(entries, q, false, false);
      && (v.AllowedByException? <==> exception && !important)
      && (v.Block? <==> important || (plain && !exception))
      && (v.AllowedByException? ==> LowestHit(entries, q, true, false, v.id))
      && (v.Block? && important ==> LowestHit(entries, q, false, true, v.id))
      && (v.Block? && !important ==> LowestHit(entries, q, false, false, v.id))
  }

  lemma FirstIsLowest(entries: seq<Rule>, q: Query, cls: Class, exception: bool, important: bool)
    requires exception == (cls == Exception) && important == (cls == Important)
    ensures FirstOf(entries, q, cls, 0).Some? <==> Any(entries, q, exception, important)
    ensures FirstOf(entries, q, cls, 0).Some? ==>
            LowestHit(entries, q, exception, important, FirstOf(entries, q, cls, 0).value)
  {
    forall id: nat ensures Decided(entries, q, cls, id) <==> Hits(entries, q, exception, important, id) {}
  }

  /** The scan gives the right verdict. */
  lemma ScanIsRight(entries: seq<Rule>, q: Query)
    ensures RightVerdict(entries, q, Scan(entries, q))
  {
    FirstIsLowest(entries, q, Important, false, true);
    FirstIsLowest(entries, q, Exception, true, false);
    FirstIsLowest(entries, q, Plain, false, false);
  }

  /** There is only one right verdict. */
  lemma RightVerdictIsUnique(entries: seq<Rule>, q: Query, v: Verdict, w: Verdict)
    requires RightVerdict(entries, q, v) && RightVerdict(entries, q, w)
    ensures v == w
  {
  }

  lemma BitsApart(a: ResourceType, b: ResourceType)
    ensures Bit(a) & Bit(b) != 0 <==> a == b
  {
  }

  lemma OrOfBits(m: bv16, x: bv16, y: bv16)
    ensures (m | x) & y != 0 <==> m & y != 0 || x & y != 0
  {
  }

  /** A mask holds exactly the types put into it. */
  lemma MaskIsSet(mask: bv16, a: ResourceType, b: ResourceType)
    ensures MaskContains(mask | Bit(a), b) <==> a == b || MaskContains(mask, b)
  {
    BitsApart(a, b);
    OrOfBits(mask, Bit(a), Bit(b));
  }

  /** Restricting a rule to a party keeps it exactly for requests of that party. */
  lemma PartyRestricts(r: Rule, q: Query, third: bool)
    ensures Applies(r.(thirdParty := Some(third)), q) <==> Applies(r.(thirdParty := None), q) && q.thirdParty == third
  {
  }

  /** Without `match-case` a rule cannot tell two requests apart that differ in case only. */
  lemma CaseIsIgnored(r: Rule, q: Query, p: Query)
    requires !r.matchCase && ValidTarget(q.target) && ValidTarget(p.target)
    requires p == q.(target := p.target) && p.target.host == q.target.host
    requires Lower(p.target.full) == Lower(q.target.full)
    ensures Applies(r, p) <==> Applies(r, q)
  {
  }

  // ---- the index ----

  datatype Matcher = Matcher(
    entries: seq<Rule>, index: map<seq<Byte>, seq<nat>>, untokenized: seq<nat>, dropped: nat)

  /** How many rules could use a token. */
  ghost function Frequency(entries: seq<Rule>, t: seq<Byte>): nat {
    if entries == [] then 0
    else
      Frequency(entries[..|entries| - 1], t) + (if IsIndexToken(entries[|entries| - 1].pattern, t) then 1 else 0)
  }

  /** Rarer first, then longer, then lexicographic. */
  predicate Better(fa: nat, a: seq<Byte>, fb: nat, b: seq<Byte>) {
    fa < fb || (fa == fb && (|a| > |b| || (|a| == |b| && LexLess(a, b))))
  }

  lemma BetterTransitive(fa: nat, a: seq<Byte>, fb: nat, b: seq<Byte>, fc: nat, c: seq<Byte>)
    requires Better(fa, a, fb, b) && Better(fb, b, fc, c)
    ensures Better(fa, a, fc, c)
  {
    if LexLess(a, b) && LexLess(b, c) { LexTransitive(a, b, c); }
  }

  ghost predicate IsRarest(entries: seq<Rule>, pat: Pattern, t: seq<Byte>) {
    && IsIndexToken(pat, t)
    && forall s :: IsIndexToken(pat, s) ==> !Better(Frequency(entries, s), s, Frequency(entries, t), t)
  }

  /** A pattern has at most one rarest token, so a rule is in at most one bucket. */
  lemma RarestIsUnique(entries: seq<Rule>, pat: Pattern, s: seq<Byte>, t: seq<Byte>)
    requires IsRarest(entries, pat, s) && IsRarest(entries, pat, t)
    ensures s == t
  {
    if s != t { LexTotal(s, t); }
  }

  ghost predicate InIndex(index: map<seq<Byte>, seq<nat>>, t: seq<Byte>, id: nat) {
    t in index && id in index[t]
  }

  ghost predicate Tokenless(pat: Pattern) {
    forall t :: !IsIndexToken(pat, t)
  }

  /** The filing of the first `n` rules. */
  ghost predicate FiledUpTo(entries: seq<Rule>, index: map<seq<Byte>, seq<nat>>, untokenized: seq<nat>, n: nat)
    requires n <= |entries|
  {
    && (forall t, id: nat :: InIndex(index, t, id) <==> id < n && IsRarest(entries, entries[id].pattern, t))
    && (forall id: nat :: id in untokenized <==> id < n && Tokenless(entries[id].pattern))
    && (forall id: nat :: id < n ==> id in untokenized || exists t :: InIndex(index, t, id))
  }

  /**
    A bucket holds exactly the rules whose rarest token is its key; the
    untokenized list exactly the rules with no token; no rule is left out.
   */
  ghost predicate Filed(m: Matcher) {
    FiledUpTo(m.entries, m.index, m.untokenized, |m.entries|)
  }

  ghost function Concat(lists: seq<seq<Rule>>): seq<Rule> {
    if lists == [] then [] else Concat(lists[..|lists| - 1]) + lists[|lists| - 1]
  }

  function Count(freq: map<seq<Byte>, nat>, t: seq<Byte>): nat {
    if t in freq then freq[t] else 0
  }

  ghost predicate Counted(freq: map<seq<Byte>, nat>, entries: seq<Rule>) {
    forall t :: Count(freq, t) == Frequency(entries, t)
  }

  method CountTokens(entries: seq<Rule>) returns (freq: map<seq<Byte>, nat>)
    ensures Counted(freq, entries)
  {
    freq := map[];
    for i := 0 to |entries|
      invariant forall t :: Count(freq, t) == Frequency(entries[..i], t)
    {
      var toks := IndexTokens(entries[i].pattern);
      ghost var before := freq;
      for k := 0 to |toks|
        invariant forall t :: Count(freq, t) == Count(before, t) + (if t in toks[..k] then 1 else 0)
      {
        assert toks[..k + 1] == toks[..k] + [toks[k]];
        freq := freq[toks[k] := Count(freq, toks[k]) + 1];
      }
      assert toks[..|toks|] == toks;
      assert entries[..i + 1][..i] == entries[..i];
    }
    assert entries[..|entries|] == entries;
  }

  method Rarest(entries: seq<Rule>, pat: Pattern, freq: map<seq<Byte>, nat>) returns (best: Option<seq<Byte>>)
    requires Counted(freq, entries)
    ensures best.Some? ==> IsRarest(entries, pat, best.value)
    ensures best.None? ==> forall t :: !IsIndexToken(pat, t)
  {
    var toks := IndexTokens(pat);
    best := None;
    for k := 0 to |toks|
      invariant best.None? <==> k == 0
      invariant best.Some? ==> best.value in toks
      invariant best.Some? ==> forall s :: s in toks[..k] ==>
          !Better(Count(freq, s), s, Count(freq, best.value), best.value)
    {
      var t := toks[k];
      assert toks[..k + 1] == toks[..k] + [t];
      LexIrreflexive(t);
      if best.None? || Better(Count(freq, t), t, Count(freq, best.value), best.value) {
        if best.Some? {
          forall s | s in toks[..k] ensures !Better(Count(freq, s), s, Count(freq, t), t) {
            if Better(Count(freq, s), s, Count(freq, t), t) {
              BetterTransitive(Count(freq, s), s, Count(freq, t), t, Count(freq, best.value), best.value);
            }
          }
        }
        best := Some(t);
      }
    }
    assert toks[..|toks|] == toks;
  }

  method Gather(lists: seq<seq<Rule>>) returns (entries: seq<Rule>, dropped: nat)
    ensures entries == (if |Concat(lists)| <= MAX_TOTAL_RULES then Concat(lists) else Concat(lists)[..MAX_TOTAL_RULES])
    ensures dropped + |entries| == |Concat(lists)|
  {
    entries, dropped := [], 0;
    for i := 0 to |lists|
      invariant |entries| <= MAX_TOTAL_RULES && |entries| + dropped == |Concat(lists[..i])|
      invariant entries <= Concat(lists[..i]) && (dropped > 0 ==> |entries| == MAX_TOTAL_RULES)
    {
      assert lists[..i + 1][..i] == lists[..i];
      ghost var base := Concat(lists[..i]);
      for k := 0 to |lists[i]|
        invariant |entries| <= MAX_TOTAL_RULES && |entries| + dropped == |base| + k
        invariant entries <= base + lists[i][..k] && (dropped > 0 ==> |entries| == MAX_TOTAL_RULES)
      {
        if |entries| >= MAX_TOTAL_RULES { dropped := dropped + 1; } else { entries := entries + [lists[i][k]]; }
      }
    }
    assert lists[..|lists|] == lists;
  }

  lemma FileOne(entries: seq<Rule>, index: map<seq<Byte>, seq<nat>>, untokenized: seq<nat>, i: nat,
                best: Option<seq<Byte>>,
                index': map<seq<Byte>, seq<nat>>, untokenized': seq<nat>)
    requires i < |entries| && FiledUpTo(entries, index, untokenized, i)
    requires best.Some? ==> IsRarest(entries, entries[i].pattern, best.value)
    requires best.None? ==> Tokenless(entries[i].pattern)
    requires best.Some? ==> index' == index[best.value := (if best.value in index then index[best.value] else []) + [i]]
    requires best.Some? ==> untokenized' == untokenized
    requires best.None? ==> index' == index && untokenized' == untokenized + [i]
    ensures FiledUpTo(entries, index', untokenized', i + 1)
  {
    forall t, id: nat
      ensures InIndex(index', t, id) <==> id < i + 1 && IsRarest(entries, entries[id].pattern, t)
    {
      assert InIndex(index', t, id) <==> InIndex(index, t, id) || (best == Some(t) && id == i);
      if id == i && best.Some? && IsRarest(entries, entries[i].pattern, t) {
        RarestIsUnique(entries, entries[i].pattern, t, best.value);
      }
    }
    forall id: nat | id < i + 1 ensures id in untokenized' || exists t :: InIndex(index', t, id) {
      if id < i && id !in untokenized {
        var t :| InIndex(index, t, id);
        assert InIndex(index', t, id);
      } else if id == i && best.Some? {
        assert InIndex(index', best.value, id);
      }
    }
  }

  method FileRule(entries: seq<Rule>, freq: map<seq<Byte>, nat>, i: nat, index: map<seq<Byte>, seq<nat>>,
                  untokenized: seq<nat>)
    returns (index': map<seq<Byte>, seq<nat>>, untokenized': seq<nat>)
    requires i < |entries| && Counted(freq, entries) && FiledUpTo(entries, index, untokenized, i)
    ensures FiledUpTo(entries, index', untokenized', i + 1)
  {
    var best := Rarest(entries, entries[i].pattern, freq);
    index', untokenized' := index, untokenized;
    match best {
      case Some(t) => index' := index[t := (if t in index then index[t] else []) + [i]];
      case None => untokenized' := untokenized + [i];
    }
    FileOne(entries, index, untokenized, i, best, index', untokenized');
  }

  method Build(lists: seq<seq<Rule>>) returns (m: Matcher)
    ensures m.entries ==
            (if |Concat(lists)| <= MAX_TOTAL_RULES then Concat(lists) else Concat(lists)[..MAX_TOTAL_RULES])
    ensures m.dropped + |m.entries| == |Concat(lists)|
    ensures Filed(m)
  {
    var entries, dropped := Gather(lists);
    var freq := CountTokens(entries);
    var index: map<seq<Byte>, seq<nat>> := map[];
    var untokenized: seq<nat> := [];
    for i := 0 to |entries|
      invariant FiledUpTo(entries, index, untokenized, i)
    {
      index, untokenized := FileRule(entries, freq, i, index, untokenized);
    }
    m := Matcher(entries, index, untokenized, dropped);
  }

  // ---- checking a request ----

  ghost predicate Ascending(s: seq<nat>) {
    forall i, j :: 0 <= i < j < |s| ==> s[i] < s[j]
  }

  /** Sort and drop duplicates. */
  method SortDedup(ids: seq<nat>) returns (out: seq<nat>)
    ensures Ascending(out)
    ensures forall x :: x in out <==> x in ids
  {
    out := Sorting.Sort(ids, (a: nat, b: nat) => a < b);
  }

  method RuleApplies(r: Rule, q: Query) returns (b: bool)
    requires ValidTarget(q.target)
    ensures b <==> Applies(r, q)
  {
    if !MaskContains(r.types, q.ty) { return false; }
    if r.thirdParty.Some? && r.thirdParty.value != q.thirdParty { return false; }
    var allowed := Allows(r.domains, q.source);
    if !allowed { return false; }
    b := Matches(r.pattern, if r.matchCase then q.target.full else q.target.lower, Some(q.target.host));
  }

  lemma FiledSomewhere(m: Matcher, id: nat)
    requires Filed(m) && id < |m.entries|
    ensures id in m.untokenized || exists t :: InIndex(m.index, t, id) && IsIndexToken(m.entries[id].pattern, t)
  {
  }

  lemma TokenIsInUrl(r: Rule, q: Query, t: seq<Byte>)
    requires ValidTarget(q.target) && Applies(r, q) && IsIndexToken(r.pattern, t)
    ensures IsUrlToken(q.target.lower, t)
  {
    LowerAgain(q.target.full);
    if r.matchCase {
      TokensAreFound(r.pattern, q.target.full, Some(q.target.host), t);
    } else {
      TokensAreFound(r.pattern, q.target.lower, Some(q.target.host), t);
    }
  }

  /** The rules filed under a token of the URL, and those filed under none. */
  ghost predicate IsCandidate(m: Matcher, q: Query, id: nat) {
    id in m.untokenized || exists t :: IsUrlToken(q.target.lower, t) && InIndex(m.index, t, id)
  }

  /** A rule that applies is filed where the request's tokens lead. */
  lemma ApplicableIsFound(m: Matcher, q: Query, id: nat)
    requires Filed(m) && ValidTarget(q.target) && id < |m.entries| && Applies(m.entries[id], q)
    ensures IsCandidate(m, q, id)
  {
    FiledSomewhere(m, id);
    if id !in m.untokenized {
      var t :| InIndex(m.index, t, id) && IsIndexToken(m.entries[id].pattern, t);
      TokenIsInUrl(m.entries[id], q, t);
    }
  }

  method Candidates(m: Matcher, q: Query) returns (cands: seq<nat>)
    ensures Ascending(cands)
    ensures forall id :: id in cands <==> IsCandidate(m, q, id)
  {
    cands := m.untokenized;
    var toks := UrlTokens(q.target.lower);
    for i := 0 to |toks|
      invariant forall id :: id in cands <==>
          id in m.untokenized || exists t :: t in toks[..i] && InIndex(m.index, t, id)
    {
      assert toks[..i + 1] == toks[..i] + [toks[i]];
      assert toks[i] in toks[..i + 1];
      ghost var was := cands;
      if toks[i] in m.index { cands := cands + m.index[toks[i]]; }
      assert forall id :: id in cands <==> id in was || InIndex(m.index, toks[i], id);
    }
    assert toks[..|toks|] == toks;
    cands := SortDedup(cands);
  }

  ghost predicate LowestOf(entries: seq<Rule>, q: Query, cls: Class, ids: seq<nat>, r: Option<nat>) {
    && (r.Some? ==> r.value in ids && Decided(entries, q, cls, r.value))
    && (forall id :: id in ids && Decided(entries, q, cls, id) ==> r.Some? && r.value <= id)
  }

  /** Ascending candidates that include every applicable rule give the scan's lowest id. */
  lemma LowestIsFirst(entries: seq<Rule>, q: Query, cls: Class, cands: seq<nat>, k: nat, r: Option<nat>)
    requires Ascending(cands) && k <= |cands| && LowestOf(entries, q, cls, cands[..k], r)
    requires forall id: nat :: Decided(entries, q, cls, id) ==> id in cands
    requires k == |cands| || r.Some?
    ensures FirstOf(entries, q, cls, 0) == r
  {
  }

  lemma LowestGrows(entries: seq<Rule>, q: Query, cls: Class, cands: seq<nat>, k: nat, r: Option<nat>)
    requires Ascending(cands) && k < |cands| && LowestOf(entries, q, cls, cands[..k], r)
    ensures LowestOf(entries, q, cls, cands[..k + 1],
              if r.None? && Decided(entries, q, cls, cands[k]) then Some(cands[k]) else r)
  {
  }

  lemma ApplicableAreCandidates(m: Matcher, q: Query, cands: seq<nat>, cls: Class)
    requires Filed(m) && ValidTarget(q.target)
    requires forall id :: id in cands <==> IsCandidate(m, q, id)
    ensures forall id: nat :: Decided(m.entries, q, cls, id) ==> id in cands
  {
    forall id: nat | Decided(m.entries, q, cls, id) ensures id in cands {
      ApplicableIsFound(m, q, id);
    }
  }

  /** What the candidate loop has recorded after `k` candidates. */
  ghost predicate Recorded(entries: seq<Rule>, q: Query, cands: seq<nat>, k: nat, exception: Option<nat>,
                           block: Option<nat>)
    requires k <= |cands|
  {
    && LowestOf(entries, q, Important, cands[..k], None)
    && LowestOf(entries, q, Exception, cands[..k], exception)
    && LowestOf(entries, q, Plain, cands[..k], block)
  }

  lemma CandidatesInRange(m: Matcher, q: Query, cands: seq<nat>)
    requires Filed(m)
    requires forall id :: id in cands <==> IsCandidate(m, q, id)
    ensures forall id :: id in cands ==> id < |m.entries|
  {
  }

  /** The loop over sorted candidates. */
  method Decide(entries: seq<Rule>, q: Query, cands: seq<nat>) returns (v: Verdict)
    requires ValidTarget(q.target) && q.ty != Document && Ascending(cands)
    requires forall id :: id in cands ==> id < |entries|
    requires forall cls, id: nat :: Decided(entries, q, cls, id) ==> id in cands
    ensures v == Scan(entries, q)
  {
    var exception: Option<nat> := None;
    var block: Option<nat> := None;
    for k := 0 to |cands|
      invariant Recorded(entries, q, cands, k, exception, block)
    {
      var id := cands[k];
      assert id in cands;
      LowestGrows(entries, q, Important, cands, k, None);
      LowestGrows(entries, q, Exception, cands, k, exception);
      LowestGrows(entries, q, Plain, cands, k, block);
      var applies := RuleApplies(entries[id], q);
      if applies {
        if entries[id].exception {
          if exception.None? { exception := Some(id); }
        } else if entries[id].important {
          LowestIsFirst(entries, q, Important, cands, k + 1, Some(id));
          return Block(id);
        } else {
          if block.None? { block := Some(id); }
        }
      }
    }
    LowestIsFirst(entries, q, Important, cands, |cands|, None);
    LowestIsFirst(entries, q, Exception, cands, |cands|, exception);
    LowestIsFirst(entries, q, Plain, cands, |cands|, block);
    match (exception, block)
    case (Some(id), _) => return AllowedByException(id);
    case (None, Some(id)) => return Block(id);
    case (None, None) => return Allow;
  }

  method CheckTarget(m: Matcher, q: Query) returns (v: Verdict)
    requires Filed(m) && ValidTarget(q.target)
    ensures v == Scan(m.entries, q) && RightVerdict(m.entries, q, v)
  {
    ScanIsRight(m.entries, q);
    if q.ty == Document { return Allow; }
    var cands := Candidates(m, q);
    CandidatesInRange(m, q, cands);
    ApplicableAreCandidates(m, q, cands, Important);
    ApplicableAreCandidates(m, q, cands, Exception);
    ApplicableAreCandidates(m, q, cands, Plain);
    v := Decide(m.entries, q, cands);
  }
}
