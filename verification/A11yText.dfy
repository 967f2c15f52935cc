/**
  The string hygiene names pass through (crates/px-a11y/src/attr.rs).  Lengths
  are UTF-8 byte lengths, as in the source.
 */
module A11yText {
  const MAX_STRING := 4096
  const ACC_CAP := 2 * MAX_STRING

  function Width(c: char): nat {
    if c as int < 0x80 then 1 else if c as int < 0x800 then 2 else if c as int < 0x10000 then 3 else 4
  }

  function Bytes(s: string): nat {
    if s == [] then 0 else Bytes(s[..|s| - 1]) + Width(s[|s| - 1])
  }

  predicate IsAsciiWs(c: char) {
    c == ' ' || c == '\t' || c == '\n' || c as int == 0x0C || c == '\r'
  }

  /** Unicode white space, as trimmed by the standard library. */
  predicate IsWhite(c: char) {
    var n := c as int;
    0x09 <= n <= 0x0D || n == 0x20 || n == 0x85 || n == 0xA0 || n == 0x1680 || 0x2000 <= n <= 0x200A ||
    n == 0x2028 || n == 0x2029 || n == 0x202F || n == 0x205F || n == 0x3000
  }

  function TrimBy(s: string, drop: char -> bool): string {
    if s == [] then []
    else if drop(s[0]) then TrimBy(s[1..], drop)
    else if drop(s[|s| - 1]) then TrimBy(s[..|s| - 1], drop)
    else s
  }

  function Trim(s: string): string { TrimBy(s, IsWhite) }

  predicate Blank(s: string) { TrimBy(s, IsAsciiWs) == [] }

  predicate EndsInSpace(s: string) { s != [] && s[|s| - 1] == ' ' }

  /** Append with white space runs collapsed, stopping at the cap. */
  function PushFlat(acc: string, s: string, cap: nat): string
    decreases |s|
  {
    if s == [] || Bytes(acc) >= cap then acc
    else if !IsAsciiWs(s[0]) then PushFlat(acc + [s[0]], s[1..], cap)
    else PushFlat(if EndsInSpace(acc) then acc else acc + " ", s[1..], cap)
  }

  /** Append one separating space unless empty, already spaced, or full. */
  function PushSep(acc: string, cap: nat): string {
    if acc != [] && !EndsInSpace(acc) && Bytes(acc) < cap then acc + " " else acc
  }

  function NoNul(s: string): string {
    seq(|s|, i requires 0 <= i < |s| => if s[i] == '\0' then '\U{fffd}' else s[i])
  }

  /** The front of a text that fits the byte limit, as long as whole characters allow. */
  ghost predicate CutOf(r: string, full: string) {
    r <= full && Bytes(r) <= MAX_STRING && (|r| < |full| ==> Bytes(r) + Width(full[|r|]) > MAX_STRING)
  }

  /** Cut at the byte limit, with NUL replaced. */
  function Capped(out: string, s: string): (r: string)
    requires Bytes(out) <= MAX_STRING && '\0' !in out
    ensures CutOf(r, out + NoNul(s)) && out <= r && '\0' !in r
    decreases |s|
  {
    if s == [] then out
    else
      var c := if s[0] == '\0' then '\U{fffd}' else s[0];
      assert (out + [c])[..|out|] == out;
      assert NoNul(s) == [c] + NoNul(s[1..]);
      assert out + NoNul(s) == (out + [c]) + NoNul(s[1..]);
      if Bytes(out) + Width(c) > MAX_STRING then out else Capped(out + [c], s[1..])
  }

  /** What is left of a text when a kind of character is dropped at both ends, and nowhere else. */
  lemma {:induction false} TrimBetween(s: string, drop: char -> bool) returns (i: nat, j: nat)
    ensures i <= j <= |s| && TrimBy(s, drop) == s[i..j]
    ensures (forall k :: 0 <= k < i || j <= k < |s| ==> drop(s[k])) && (i < j ==> !drop(s[i]) && !drop(s[j - 1]))
    decreases |s|
  {
    if s == [] {
      i, j := 0, 0;
    } else if drop(s[0]) {
      i, j := TrimBetween(s[1..], drop);
      i, j := i + 1, j + 1;
    } else if drop(s[|s| - 1]) {
      i, j := TrimBetween(s[..|s| - 1], drop);
    } else {
      i, j := 0, |s|;
    }
  }

  /** A string fit for a platform bridge: trimmed, without NUL, and cut to `MAX_STRING` bytes between characters. */
  function Clean(s: string): (r: string)
    ensures CutOf(r, NoNul(TrimBy(s, (c: char) => c == ' '))) && '\0' !in r
  {
    Capped("", TrimBy(s, (c: char) => c == ' '))
  }

  /** Collapsing without a cap. */
  function Flatten(s: string, acc: string): string
    decreases |s|
  {
    if s == [] then acc
    else if !IsAsciiWs(s[0]) then Flatten(s[1..], acc + [s[0]])
    else Flatten(s[1..], if EndsInSpace(acc) then acc else acc + " ")
  }

  function Flat(s: string): (r: string)
    ensures Bytes(r) <= MAX_STRING && '\0' !in r
  {
    Clean(Flatten(s, ""))
  }
}
