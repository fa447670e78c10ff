/** Hexadecimal text: digit values, lower-case printing, parsing in either case. */
module Hex {
  import opened Wrappers

  type Nibble = n: nat | n < 16
  type Digits = seq<Nibble>

  function DigitChar(n: Nibble): char {
    if n < 10 then ('0' as int + n) as char else ('a' as int + (n - 10)) as char
  }

  function CharDigit(c: char): Option<Nibble> {
    if '0' <= c <= '9' then Some(c as int - '0' as int)
    else if 'a' <= c <= 'f' then Some(c as int - 'a' as int + 10)
    else if 'A' <= c <= 'F' then Some(c as int - 'A' as int + 10)
    else None
  }

  function Text(d: Digits): (r: string)
    ensures |r| == |d|
  {
    seq(|d|, i requires 0 <= i < |d| => DigitChar(d[i]))
  }

  predicate IsHex(s: string) {
    forall i :: 0 <= i < |s| ==> CharDigit(s[i]).Some?
  }

  function Parse(s: string): (r: Digits)
    requires IsHex(s)
    ensures |r| == |s|
  {
    seq(|s|, i requires 0 <= i < |s| => CharDigit(s[i]).value)
  }

  predicate IsLowerHex(s: string) {
    forall i :: 0 <= i < |s| ==> '0' <= s[i] <= '9' || 'a' <= s[i] <= 'f'
  }

  lemma ParseText(d: Digits)
    ensures IsLowerHex(Text(d)) && IsHex(Text(d)) && Parse(Text(d)) == d
  {
    assert forall i :: 0 <= i < |d| ==> CharDigit(Text(d)[i]) == Some(d[i]);
  }

  lemma TextParse(s: string)
    requires IsLowerHex(s)
    ensures IsHex(s) && Text(Parse(s)) == s
  {
    assert forall i :: 0 <= i < |s| ==> DigitChar(Parse(s)[i]) == s[i];
  }

  predicate HasPrefix(s: string) {
    |s| >= 2 && s[0] == '0' && (s[1] == 'x' || s[1] == 'X')
  }

  /** `unPrefix0x`: the empty text becomes "0x0", a prefix is cut off, everything else is left alone. */
  function UnPrefix0x(s: string): string {
    if s == "" then "0x0" else if HasPrefix(s) then s[2..] else s
  }

  /** `prefix0x`: the empty text becomes "0x0", a prefix is added where there is none. */
  function Prefix0x(s: string): string {
    if s == "" then "0x0" else if HasPrefix(s) then s else "0x" + s
  }

  /** The number a digit text denotes. */
  function Value(d: Digits): nat {
    if d == [] then 0 else 16 * Value(d[..|d| - 1]) + d[|d| - 1]
  }

  /** The shortest digit text of a number. */
  function Numeral(n: nat): (r: Digits)
    ensures r != [] && Value(r) == n
  {
    if n < 16 then [n] else
      assert (Numeral(n / 16) + [n % 16])[..|Numeral(n / 16)|] == Numeral(n / 16);
      Numeral(n / 16) + [n % 16]
  }

  /** How many leading characters are hex digits. */
  function HexRun(s: string): (r: nat)
    ensures r <= |s| && IsHex(s[..r])
  {
    if s == "" || CharDigit(s[0]).None? then 0 else
      assert forall i :: 0 <= i < HexRun(s[1..]) ==> s[1..][..HexRun(s[1..])][i] == s[..1 + HexRun(s[1..])][i + 1];
      1 + HexRun(s[1..])
  }

  /** `parseInt(s, 16)`: an optional prefix, then as many digits as there are; `None` stands for not a number. */
  function ParseInt16(s: string): Option<nat> {
    var t := if HasPrefix(s) then s[2..] else s;
    var run := HexRun(t);
    if run == 0 then None else Some(Value(Parse(t[..run])))
  }

  lemma {:induction false} HexRunWhole(s: string)
    requires IsHex(s)
    ensures HexRun(s) == |s|
  {
    if s != "" { HexRunWhole(s[1..]); }
  }

  lemma ParseInt16OfText(d: Digits)
    requires d != []
    ensures ParseInt16(Text(d)) == Some(Value(d))
  {
    ParseText(d);
    HexRunWhole(Text(d));
    assert Text(d)[..|d|] == Text(d);
    if |d| >= 2 {
      assert Text(d)[1] == DigitChar(d[1]);
    }
  }
}
