/**
  The `domain=` constraint of a filter (crates/px-block/src/filter.rs).
 */
module BlockDomains {
  import opened Common

  datatype DomainConstraint = DomainConstraint(included: seq<string>, excluded: seq<string>)

  predicate EndsWith(s: string, suffix: string) {
    |suffix| <= |s| && s[|s| - |suffix|..] == suffix
  }

  predicate HostUnder(host: string, domain: string) {
    host == domain || (EndsWith(host, domain) && EndsWith(host[..|host| - |domain|], "."))
  }

  /** Some entry of the list covers the host. */
  ghost predicate AnyUnder(host: string, entries: seq<string>) {
    exists d :: d in entries && HostUnder(host, d)
  }

  /** An include entry that is strictly longer than every exclude entry covering the host. */
  ghost predicate Decides(host: string, d: string, c: DomainConstraint) {
    && d in c.included && HostUnder(host, d)
    && forall e :: e in c.excluded && HostUnder(host, e) ==> |e| < |d|
  }

  /** The longest entry covering the host decides, exclusion wins ties, no entry means "no include list". */
  ghost predicate Allowed(c: DomainConstraint, host: string) {
    if AnyUnder(host, c.included) || AnyUnder(host, c.excluded)
    then exists d :: Decides(host, d, c)
    else c.included == []
  }

  /** The length of the longest entry so far that covers the host, and whether it excludes. */
  datatype Best = Best(len: nat, excluded: bool)

  ghost predicate IsLongest(host: string, entries: seq<string>, len: nat) {
    && (exists d :: d in entries && HostUnder(host, d) && |d| == len)
    && (forall d :: d in entries && HostUnder(host, d) ==> |d| <= len)
  }

  method ScanIncluded(host: string, entries: seq<string>) returns (best: Option<Best>)
    ensures best.None? <==> !AnyUnder(host, entries)
    ensures best.Some? ==> !best.value.excluded && IsLongest(host, entries, best.value.len)
  {
    best := None;
    for i := 0 to |entries|
      invariant best.None? <==> !AnyUnder(host, entries[..i])
      invariant best.Some? ==> !best.value.excluded && IsLongest(host, entries[..i], best.value.len)
    {
      var d := entries[i];
      assert entries[..i + 1] == entries[..i] + [d];
      assert d in entries[..i + 1];
      if HostUnder(host, d) && (best.None? || |d| > best.value.len) {
        best := Some(Best(|d|, false));
      }
    }
    assert entries[..|entries|] == entries;
  }

  /** An exclusion replaces the best entry when it is at least as long. */
  method ScanExcluded(host: string, entries: seq<string>, start: Option<Best>) returns (best: Option<Best>)
    requires start.Some? ==> !start.value.excluded
    ensures best.None? <==> start.None? && !AnyUnder(host, entries)
    ensures best.Some? && !best.value.excluded ==>
              best == start && forall d :: d in entries && HostUnder(host, d) ==> |d| < best.value.len
    ensures best.Some? && best.value.excluded ==>
              (exists d :: d in entries && HostUnder(host, d) && |d| == best.value.len)
              && (start.Some? ==> start.value.len <= best.value.len)
  {
    best := start;
    for i := 0 to |entries|
      invariant best.None? <==> start.None? && !AnyUnder(host, entries[..i])
      invariant best.Some? && !best.value.excluded ==>
        best == start && forall d :: d in entries[..i] && HostUnder(host, d) ==> |d| < best.value.len
      invariant best.Some? && best.value.excluded ==>
        (exists d :: d in entries[..i] && HostUnder(host, d) && |d| == best.value.len)
        && (start.Some? ==> start.value.len <= best.value.len)
    {
      var d := entries[i];
      assert entries[..i + 1] == entries[..i] + [d];
      assert d in entries[..i + 1];
      if HostUnder(host, d) && (best.None? || |d| >= best.value.len) {
        best := Some(Best(|d|, true));
      }
    }
    assert entries[..|entries|] == entries;
  }

  method Allows(c: DomainConstraint, source: Option<string>) returns (r: bool)
    ensures r <==> Allowed(c, if source.Some? then source.value else "")
  {
    var host := if source.Some? then source.value else "";
    var first := ScanIncluded(host, c.included);
    var best := ScanExcluded(host, c.excluded, first);
    match best
    case Some(b) =>
      if !b.excluded {
        var d :| d in c.included && HostUnder(host, d) && |d| == b.len;
        assert Decides(host, d, c);
      }
      return !b.excluded;
    case None => return c.included == [];
  }
}
