/** Hexadecimal text character by character, apart from how it is read and printed. */
module HexMeaning {
  import opened Hex
  import opened Wrappers

  ghost predicate Prefixed(s: string) {
    |s| >= 2 && s[0] == '0' && (s[1] == 'x' || s[1] == 'X')
  }

  /** The text behind the prefix, if it has one. */
  ghost function Behind(s: string): string {
    if Prefixed(s) then s[2..] else s
  }

  ghost predicate HexChar(c: char) {
    '0' <= c <= '9' || 'a' <= c <= 'f' || 'A' <= c <= 'F'
  }

  ghost predicate HexText(s: string) {
    forall i :: 0 <= i < |s| ==> HexChar(s[i])
  }

  ghost function CharValue(c: char): nat
    requires HexChar(c)
  {
    if c <= '9' then c as int - 48 else if c <= 'F' then c as int - 55 else c as int - 87
  }

  /** The number a hex text denotes, in either case. */
  ghost function TextValue(s: string): nat
    requires HexText(s)
  {
    if s == "" then 0 else 16 * TextValue(s[..|s| - 1]) + CharValue(s[|s| - 1])
  }

  lemma CharMeans(c: char)
    ensures CharDigit(c).Some? <==> HexChar(c)
    ensures HexChar(c) ==> CharDigit(c) == Some(CharValue(c))
  {}

  lemma TextIsHex(s: string)
    ensures IsHex(s) <==> HexText(s)
  {
    forall i | 0 <= i < |s| ensures CharDigit(s[i]).Some? <==> HexChar(s[i]) { CharMeans(s[i]); }
  }

  lemma {:induction false} ValueOfText(s: string)
    requires IsHex(s) && HexText(s)
    ensures Hex.Value(Parse(s)) == TextValue(s)
    decreases |s|
  {
    if s != "" {
      var front := s[..|s| - 1];
      ValueOfText(front);
      CharMeans(s[|s| - 1]);
      assert Parse(s)[..|s| - 1] == Parse(front);
    }
  }

  /** The number at the start of a text, behind a prefix: as many hex digits as there are, and at least one. */
  ghost predicate StartsWith(s: string, n: nat) {
    var t := Behind(s);
    exists run :: 0 < run <= |t| && (run < |t| ==> !HexChar(t[run])) && HexText(t[..run]) && TextValue(t[..run]) == n
  }

  lemma {:induction false} RunEnds(s: string)
    ensures var run := HexRun(s); HexText(s[..run]) && (run < |s| ==> !HexChar(s[run]))
    decreases |s|
  {
    TextIsHex(s[..HexRun(s)]);
    if s != "" {
      CharMeans(s[0]);
      RunEnds(s[1..]);
    }
  }

  lemma RunIsOne(s: string, a: nat, b: nat)
    requires a <= |s| && b <= |s| && HexText(s[..a]) && HexText(s[..b])
    requires (a < |s| ==> !HexChar(s[a])) && (b < |s| ==> !HexChar(s[b]))
    ensures a == b
  {
    assert forall i :: 0 <= i < a ==> s[..a][i] == s[i];
    assert forall i :: 0 <= i < b ==> s[..b][i] == s[i];
  }

  lemma NumberAtStart(s: string, n: nat)
    ensures ParseInt16(s) == Some(n) <==> StartsWith(s, n)
  {
    var t := Behind(s);
    var run := HexRun(t);
    RunEnds(t);
    if run > 0 { ValueOfText(t[..run]); }
    if r :| 0 < r <= |t| && (r < |t| ==> !HexChar(t[r])) && HexText(t[..r]) && TextValue(t[..r]) == n {
      RunIsOne(t, r, run);
    }
  }
}
