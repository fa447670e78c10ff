/**
 Bit masks of validity flags (`BitmaskAccumulator.ts`), the bit vote that carries one
 (`BitVoteData.ts`) and the round check byte in front of it (`AttestationRound.ts`).
 */
module Bitmask {
  import opened Hex
  import opened HexMeaning
  import opened Powers
  import opened Subsets
  import opened Wrappers

  type Byte = n: nat | n < 256

  datatype MaskError = MaskTooLong | InvalidHexString | InvalidBitString | IncorrectBitVote

  // ---------- bytes and bits ----------

  /** Bit `i` of a mask: byte `i / 8`, the highest bit of a byte being its first. */
  predicate IsSet(bytes: seq<Byte>, i: nat) {
    i / 8 < |bytes| && Bit(bytes[i / 8], 7 - i % 8)
  }

  ghost predicate SetFrom(bytes: seq<Byte>, position: nat) {
    exists i: nat :: position <= i && IsSet(bytes, i)
  }

  ghost predicate BitBelow(n: nat, m: nat) {
    exists s: nat :: s < m && Bit(n, s)
  }

  function ShiftRight(n: nat, k: nat): nat {
    if k == 0 then n else ShiftRight(n / 2, k - 1)
  }

  lemma {:induction false} ShiftedBit(n: nat, k: nat)
    ensures ShiftRight(n, k) % 2 == 1 <==> Bit(n, k)
  {
    if k > 0 { ShiftedBit(n / 2, k - 1); }
  }

  /** No bit up to and including `t` is set. */
  ghost predicate ClearThrough(n: nat, t: nat) {
    forall s: nat :: s <= t ==> !Bit(n, s)
  }

  lemma ClearHalf(n: nat, t: nat)
    requires t > 0 && ClearThrough(n, t)
    ensures n % 2 == 0 && ClearThrough(n / 2, t - 1)
  {
    assert !Bit(n, 0);
    forall r: nat | r <= t - 1 ensures !Bit(n / 2, r) {
      assert !Bit(n, r + 1);
    }
  }

  /** Adding `2^t` to a byte that is clear through `t` does not overflow ... */
  lemma {:induction false} AddWeightFits(n: nat, t: nat, m: nat)
    requires t < m && n < Pow2(m) && ClearThrough(n, t)
    ensures n + Pow2(t) < Pow2(m)
    decreases t
  {
    if t == 0 {
      assert !Bit(n, 0);
    } else {
      ClearHalf(n, t);
      AddWeightFits(n / 2, t - 1, m - 1);
    }
  }

  /** ... and sets that bit and no other. */
  lemma {:induction false} AddWeightBit(n: nat, t: nat, s: nat)
    requires ClearThrough(n, t)
    ensures Bit(n + Pow2(t), s) <==> s == t || Bit(n, s)
    decreases t
  {
    if t == 0 {
      assert !Bit(n, 0);
      assert (n + 1) / 2 == n / 2;
    } else {
      ClearHalf(n, t);
      assert (n + Pow2(t)) / 2 == n / 2 + Pow2(t - 1);
      if s > 0 { AddWeightBit(n / 2, t - 1, s - 1); }
    }
  }

  function ShiftLeft(n: nat, k: nat): nat
    decreases k
  {
    if k == 0 then n else ShiftLeft(2 * n, k - 1)
  }

  lemma {:induction false} ShiftLeftBit(n: nat, k: nat, s: nat)
    ensures Bit(ShiftLeft(n, k), s) <==> s >= k && Bit(n, s - k)
    decreases k
  {
    if k > 0 {
      ShiftLeftBit(2 * n, k - 1, s);
      if s >= k {
        assert Bit(2 * n, s - k + 1) <==> Bit(n, s - k);
      }
    }
  }

  /** The number made of the last `m` bits. */
  function Low(n: nat, m: nat): nat {
    if m == 0 then 0 else n % 2 + 2 * Low(n / 2, m - 1)
  }

  lemma {:induction false} LowBits(n: nat, m: nat)
    ensures Low(n, m) > 0 <==> BitBelow(n, m)
    decreases m
  {
    if m > 0 {
      LowBits(n / 2, m - 1);
      if Low(n, m) == 0 {
        forall s: nat | s < m ensures !Bit(n, s) {
          assert s > 0 ==> !Bit(n / 2, s - 1);
        }
      } else if n % 2 == 1 {
        var first := 0;
        assert Bit(n, first);
      } else {
        var s: nat :| s < m - 1 && Bit(n / 2, s);
        assert Bit(n, s + 1);
      }
    }
  }

  lemma HalvedRest(n: nat, p: nat)
    requires p > 0
    ensures n % (2 * p) == n % 2 + 2 * (n / 2 % p)
  {
    var q, r := n / 2 / p, n / 2 % p;
    assert n == q * (2 * p) + (n % 2 + 2 * r);
    QuotientUnique(n, 2 * p, q, n % 2 + 2 * r);
  }

  lemma QuotientUnique(n: nat, p: nat, q: nat, r: nat)
    requires n == q * p + r && r < p
    ensures n % p == r
  {
    var d := n / p - q;
    assert d * p == r - n % p;
    assert d >= 1 ==> d * p >= p;
    assert d <= -1 ==> d * p + p <= 0;
  }

  lemma {:induction false} LowIsRest(n: nat, m: nat)
    ensures Low(n, m) == n % Pow2(m)
  {
    if m > 0 {
      LowIsRest(n / 2, m - 1);
      HalvedRest(n, Pow2(m - 1));
    }
  }

  lemma LowByte(n: nat)
    ensures Low(n, 8) == n % 256
  {
    LowIsRest(n, 8);
    Pow2Of8();
  }

  /** What is left of a byte after shifting it left by `k` positions is zero exactly when its last `8 - k` bits are. */
  lemma ShiftLeftRest(n: Byte, k: nat)
    requires k < 8
    ensures ShiftLeft(n, k) % 256 > 0 <==> BitBelow(n, 8 - k)
  {
    var m := ShiftLeft(n, k);
    LowByte(m);
    LowBits(m, 8);
    if s: nat :| s < 8 && Bit(m, s) {
      ShiftLeftBit(n, k, s);
      assert s - k < 8 - k && Bit(n, s - k);
    }
    if s: nat :| s < 8 - k && Bit(n, s) {
      ShiftLeftBit(n, k, s + k);
      assert s + k < 8 && Bit(m, s + k);
    }
  }

  // ---------- hex text of bytes ----------

  function DigitsOfBytes(bytes: seq<Byte>): (r: Digits)
    ensures |r| == 2 * |bytes|
  {
    seq(2 * |bytes|, i requires 0 <= i < 2 * |bytes| => if i % 2 == 0 then bytes[i / 2] / 16 else bytes[i / 2] % 16)
  }

  function BytesOfDigits(d: Digits): (r: seq<Byte>)
    ensures |r| == |d| / 2
  {
    seq(|d| / 2, i requires 0 <= i < |d| / 2 => ByteOf(d[2 * i], d[2 * i + 1]))
  }

  lemma ByteDigits(bytes: seq<Byte>, i: nat)
    requires i < |bytes|
    ensures DigitsOfBytes(bytes)[2 * i] == bytes[i] / 16 && DigitsOfBytes(bytes)[2 * i + 1] == bytes[i] % 16
  {
    assert (2 * i) / 2 == i && (2 * i + 1) / 2 == i && (2 * i) % 2 == 0 && (2 * i + 1) % 2 == 1;
  }

  lemma BytesAndDigits(bytes: seq<Byte>)
    ensures BytesOfDigits(DigitsOfBytes(bytes)) == bytes
  {
    var d := DigitsOfBytes(bytes);
    var b := BytesOfDigits(d);
    forall i | 0 <= i < |bytes| ensures b[i] == bytes[i] {
      ByteDigits(bytes, i);
      assert b[i] == ByteOf(d[2 * i], d[2 * i + 1]);
    }
  }

  function HexOfBytes(bytes: seq<Byte>): string {
    "0x" + Text(DigitsOfBytes(bytes))
  }

  /** The bytes `fromHex` fills its buffer with: an odd text gets a final zero, and there has to be a digit. */
  function BytesFromHex(hexString: string): Result<seq<Byte>, MaskError> {
    var cut := if HasPrefix(hexString) then hexString[2..] else hexString;
    var value := if |cut| % 2 == 1 then cut + "0" else cut;
    if value == "" || !IsHex(value) then Err(InvalidHexString) else Ok(BytesOfDigits(Parse(value)))
  }

  /** What is read from any text: two digits behind the prefix make a byte, a last one on its own is its high half. */
  lemma BytesFromHexMeans(hexString: string)
    ensures var t, r := Behind(hexString), BytesFromHex(hexString);
            if t == "" || !HexText(t) then r == Err(InvalidHexString)
            else
              && r.Ok? && |r.value| == (|t| + 1) / 2
              && forall i :: 0 <= i < |r.value| ==>
                   r.value[i] == 16 * CharValue(t[2 * i]) + if 2 * i + 1 < |t| then CharValue(t[2 * i + 1]) else 0
  {
    var t := Behind(hexString);
    var value := if |t| % 2 == 1 then t + "0" else t;
    TextIsHex(value);
    assert HexText(value) <==> HexText(t) by {
      assert forall i :: 0 <= i < |t| ==> value[i] == t[i];
    }
    if value != "" && HexText(value) {
      forall i | 0 <= i < |value| ensures Parse(value)[i] == CharValue(value[i]) { CharMeans(value[i]); }
    }
  }

  lemma HexRoundTrip(bytes: seq<Byte>)
    requires bytes != []
    ensures BytesFromHex(HexOfBytes(bytes)) == Ok(bytes)
  {
    var d := DigitsOfBytes(bytes);
    ParseText(d);
    BytesAndDigits(bytes);
    assert HexOfBytes(bytes)[2..] == Text(d);
  }

  // ---------- the accumulator ----------

  class BitmaskAccumulator {
    var length: nat
    var buffer: array<Byte>
    var weight: nat
    var index: nat
    var count: nat
    /** The bits added so far. */
    ghost var bits: seq<bool>

    ghost predicate Valid()
      reads this, buffer
    {
      && count <= length && |bits| == count
      && buffer.Length == (length + 7) / 8
      && index == count / 8 && weight == Pow2(7 - count % 8)
      && Holds(buffer[..], bits)
    }

    constructor (length: nat)
      ensures Valid() && fresh(buffer)
      ensures this.length == length && bits == []
    {
      this.length := length;
      this.buffer := new Byte[(length + 7) / 8](_ => 0);
      this.index := 0;
      this.weight := 128;
      this.count := 0;
      this.bits := [];
      new;
      Pow2Of8();
      forall i: nat ensures !IsSet(buffer[..], i) { ZeroBits(7 - i % 8); }
    }

    /** Appends a bit; refused, with nothing changed, once the declared length is reached. */
    method AddBit(bit: bool) returns (r: Result<(), MaskError>)
      requires Valid()
      modifies this, buffer
      ensures Valid() && buffer == old(buffer) && length == old(length)
      ensures r.Ok? <==> old(count) < length
      ensures bits == if r.Ok? then old(bits) + [bit] else old(bits)
    {
      if count >= length {
        return Err(MaskTooLong);
      }
      ghost var before := buffer[..];
      if bit {
        SetNextBit();
      }
      if weight == 1 {
        weight := 128;
        index := index + 1;
      } else {
        weight := weight / 2;
      }
      Pow2Of8();
      WeightStep(count);
      count := count + 1;
      bits := bits + [bit];
      r := Ok(());
    }

    /** `buffer[index] += weight`, a byte addition that wraps at 256; it never does. */
    method SetNextBit()
      requires Valid() && count < length
      modifies buffer
      ensures forall i: nat :: IsSet(buffer[..], i) <==> i == count || IsSet(old(buffer[..]), i)
    {
      ghost var before := buffer[..];
      NextWeight(before, bits);
      buffer[index] := (buffer[index] + weight) % 256;
      assert buffer[..] == before[index := before[index] + weight];
    }

    /** A full accumulator over the bytes of a hex text. */
    static method FromHex(hexString: string) returns (r: Result<BitmaskAccumulator, MaskError>)
      ensures r.Ok? <==> BytesFromHex(hexString).Ok?
      ensures r.Ok? ==> fresh(r.value) && fresh(r.value.buffer) && r.value.Valid()
      ensures r.Ok? ==> r.value.buffer[..] == BytesFromHex(hexString).value
      ensures r.Ok? ==> r.value.length == r.value.count == 8 * r.value.buffer.Length
      ensures r.Err? ==> r.error == InvalidHexString
    {
      var value := if HasPrefix(hexString) then hexString[2..] else hexString;
      if |value| % 2 == 1 {
        value := value + "0";
      }
      if value == "" || !IsHex(value) {
        return Err(InvalidHexString);
      }
      var bytes := BytesOfDigits(Parse(value));
      var bytesUsed := (|value| + 1) / 2;
      var bitmask := new BitmaskAccumulator(0);
      bitmask.Fill(bytes, bytesUsed);
      return Ok(bitmask);
    }

    method Fill(bytes: seq<Byte>, bytesUsed: nat)
      requires bytesUsed == |bytes|
      modifies this
      ensures fresh(buffer) && Valid() && buffer[..] == bytes
      ensures length == count == 8 * bytesUsed
    {
      buffer := new Byte[|bytes|](i requires 0 <= i < |bytes| => bytes[i]);
      assert buffer[..] == bytes;
      index := bytesUsed;
      count := bytesUsed * 8;
      length := bytesUsed * 8;
      weight := 128;
      bits := seq(8 * |bytes|, i requires 0 <= i < 8 * |bytes| => IsSet(bytes, i));
      Pow2Of8();
    }

    /** Reads a text of the characters 0 and 1. */
    static method FromBitString(bitString: string) returns (r: Result<BitmaskAccumulator, MaskError>)
      ensures r.Ok? <==> IsBitString(bitString)
      ensures r.Ok? ==> fresh(r.value) && r.value.Valid() && r.value.length == |bitString|
      ensures r.Ok? ==> r.value.bits == FlagsOf(bitString)
    {
      if !IsBitString(bitString) {
        return Err(InvalidBitString);
      }
      var result := new BitmaskAccumulator(|bitString|);
      for i := 0 to |bitString|
        invariant fresh(result) && fresh(result.buffer) && result.Valid() && result.length == |bitString|
        invariant result.bits == FlagsOf(bitString)[..i]
      {
        assert FlagsOf(bitString)[..i + 1] == FlagsOf(bitString)[..i] + [bitString[i] == '1'];
        var _ := result.AddBit(bitString[i] == '1');
      }
      return Ok(result);
    }

    /** The 8-padded text of 0s and 1s. */
    method ToBitString() returns (r: string)
      requires Valid()
      ensures |r| == 8 * buffer.Length
      ensures forall i :: 0 <= i < |r| ==> r[i] == if IsSet(buffer[..], i) then '1' else '0'
    {
      r := "";
      for i := 0 to buffer.Length
        invariant |r| == 8 * i
        invariant forall j :: 0 <= j < |r| ==> r[j] == if IsSet(buffer[..], j) then '1' else '0'
      {
        var n := buffer[i];
        r := r + seq(8, j requires 0 <= j < 8 => if Bit(n, 7 - j) then '1' else '0');
      }
    }

    method ToHex() returns (r: string)
      requires Valid()
      ensures r == HexOfBytes(buffer[..])
    {
      r := HexOfBytes(buffer[..]);
    }

    /** The indices below `len` whose bit is set, in increasing order; positions beyond the buffer count as clear. */
    method ToIndices(len: nat) returns (indices: seq<nat>)
      requires Valid()
      ensures indices == SetIndices(buffer[..], len) && IndicesOf(indices, buffer[..], len)
    {
      indices := [];
      for i := 0 to len
        invariant indices == SetIndices(buffer[..], i)
      {
        var byte, offset := i / 8, 8 - i % 8 - 1;
        if byte < buffer.Length {
          ShiftedBit(buffer[byte], offset);
          if ShiftRight(buffer[byte], offset) % 2 == 1 {
            indices := indices + [i];
          }
        }
      }
      SetIndicesMeaning(buffer[..], len);
    }

    /** Whether a bit is set at `position` or after it. */
    method HasActiveBitsBeyond(position: nat) returns (r: bool)
      requires Valid()
      ensures r <==> SetFrom(buffer[..], position)
    {
      if position >= length {
        return false;
      }
      var indexByte := position / 8;
      for i := indexByte + 1 to buffer.Length
        invariant forall j :: indexByte < j < i ==> buffer[j] == 0
      {
        if buffer[i] > 0 {
          NonZeroByte(buffer[..], i);
          return true;
        }
      }
      ShiftLeftRest(buffer[indexByte], position % 8);
      RestOfByte(buffer[..], position);
      var byteValue := ShiftLeft(buffer[indexByte], position % 8) % 256;
      return byteValue > 0;
    }
  }

  /** `bytes` has exactly the bits that are true in `bits`. */
  ghost predicate Holds(bytes: seq<Byte>, bits: seq<bool>) {
    |bits| <= 8 * |bytes| && forall i: nat :: IsSet(bytes, i) <==> i < |bits| && bits[i]
  }

  ghost predicate IndicesOf(indices: seq<nat>, bytes: seq<Byte>, len: nat) {
    && (forall i, j :: 0 <= i < j < |indices| ==> indices[i] < indices[j])
    && (forall x :: x in indices ==> x < len)
    && forall x: nat :: x < len ==> ListedIfSet(indices, bytes, x)
  }

  ghost predicate ListedIfSet(indices: seq<nat>, bytes: seq<Byte>, x: nat) {
    x in indices <==> IsSet(bytes, x)
  }

  function SetIndices(bytes: seq<Byte>, len: nat): seq<nat> {
    if len == 0 then [] else SetIndices(bytes, len - 1) + if IsSet(bytes, len - 1) then [len - 1] else []
  }

  lemma {:induction false} SetIndicesMeaning(bytes: seq<Byte>, len: nat)
    ensures IndicesOf(SetIndices(bytes, len), bytes, len)
  {
    if len > 0 {
      SetIndicesMeaning(bytes, len - 1);
      SetIndicesNext(bytes, len - 1);
    }
  }

  lemma SetIndicesNext(bytes: seq<Byte>, len: nat)
    requires IndicesOf(SetIndices(bytes, len), bytes, len)
    ensures IndicesOf(SetIndices(bytes, len + 1), bytes, len + 1)
  {
    SetIndicesStep(bytes, len);
    IndicesStep(SetIndices(bytes, len), bytes, len, SetIndices(bytes, len + 1));
  }

  lemma SetIndicesStep(bytes: seq<Byte>, len: nat)
    ensures SetIndices(bytes, len + 1) == if IsSet(bytes, len) then SetIndices(bytes, len) + [len] else SetIndices(bytes, len)
  {}

  lemma IndicesStep(indices: seq<nat>, bytes: seq<Byte>, len: nat, more: seq<nat>)
    requires IndicesOf(indices, bytes, len) && more == if IsSet(bytes, len) then indices + [len] else indices
    ensures IndicesOf(more, bytes, len + 1)
  {
    if IsSet(bytes, len) { AppendGreater(indices, len); }
    forall x: nat | x < len + 1 ensures ListedIfSet(more, bytes, x) {
      assert x < len ==> ListedIfSet(indices, bytes, x);
    }
  }

  lemma AppendGreater(indices: seq<nat>, len: nat)
    requires forall i, j :: 0 <= i < j < |indices| ==> indices[i] < indices[j]
    requires forall x :: x in indices ==> x < len
    ensures var r := indices + [len];
            && (forall i, j :: 0 <= i < j < |r| ==> r[i] < r[j])
            && forall x :: x in r <==> x in indices || x == len
  {
    assert forall i :: 0 <= i < |indices| ==> indices[i] in indices;
  }

  predicate IsBitString(s: string) {
    forall i :: 0 <= i < |s| ==> s[i] == '0' || s[i] == '1'
  }

  function FlagsOf(s: string): seq<bool> {
    seq(|s|, i requires 0 <= i < |s| => s[i] == '1')
  }

  lemma WeightStep(count: nat)
    ensures Pow2(7 - count % 8) == 1 <==> count % 8 == 7
    ensures count % 8 == 7 ==> (count + 1) % 8 == 0 && (count + 1) / 8 == count / 8 + 1
    ensures count % 8 < 7 ==> (count + 1) / 8 == count / 8 && Pow2(7 - count % 8) / 2 == Pow2(7 - (count + 1) % 8)
  {
    if count % 8 < 7 {
      assert Pow2(7 - count % 8) == 2 * Pow2(6 - count % 8);
    }
  }

  lemma NextWeight(bytes: seq<Byte>, bits: seq<bool>)
    requires Holds(bytes, bits) && |bits| < 8 * |bytes|
    ensures var c := |bits|;
            var n := bytes[c / 8];
            && n + Pow2(7 - c % 8) < 256
            && forall i: nat :: IsSet(bytes[c / 8 := n + Pow2(7 - c % 8)], i) <==> i == c || IsSet(bytes, i)
  {
    var c := |bits|;
    var n, t := bytes[c / 8], 7 - c % 8;
    Pow2Of8();
    forall s: nat | s <= t ensures !Bit(n, s) {
      var i := 8 * (c / 8) + 7 - s;
      assert i / 8 == c / 8 && i % 8 == 7 - s && i >= c;
      assert !IsSet(bytes, i);
    }
    AddWeightFits(n, t, 8);
    var after := bytes[c / 8 := n + Pow2(t)];
    forall i: nat ensures IsSet(after, i) <==> i == c || IsSet(bytes, i) {
      AddWeightBit(n, t, 7 - i % 8);
      assert i / 8 == c / 8 && 7 - i % 8 == t ==> i == c;
    }
  }

  lemma {:induction false} SomeBit(n: nat, m: nat)
    requires 0 < n < Pow2(m)
    ensures BitBelow(n, m)
    decreases m
  {
    if n % 2 == 1 {
      var first := 0;
      assert Bit(n, first);
    } else {
      SomeBit(n / 2, m - 1);
      var s: nat :| s < m - 1 && Bit(n / 2, s);
      assert Bit(n, s + 1);
    }
  }

  lemma NonZeroByte(bytes: seq<Byte>, j: nat)
    requires j < |bytes| && bytes[j] > 0
    ensures SetFrom(bytes, 8 * j)
  {
    Pow2Of8();
    SomeBit(bytes[j], 8);
    var s: nat :| s < 8 && Bit(bytes[j], s);
    var i := 8 * j + 7 - s;
    assert i / 8 == j && 7 - i % 8 == s;
    assert IsSet(bytes, i);
  }

  lemma RestOfByte(bytes: seq<Byte>, position: nat)
    requires position / 8 < |bytes|
    requires forall j :: position / 8 < j < |bytes| ==> bytes[j] == 0
    ensures SetFrom(bytes, position) <==> BitBelow(bytes[position / 8], 8 - position % 8)
  {
    var b := position / 8;
    if i: nat :| position <= i && IsSet(bytes, i) {
      if i / 8 > b { ZeroBits(7 - i % 8); }
      assert i / 8 == b;
      var s: nat := 7 - i % 8;
      assert s < 8 - position % 8;
      assert Bit(bytes[position / 8], s);
    }
    if s: nat :| s < 8 - position % 8 && Bit(bytes[position / 8], s) {
      var i: nat := 8 * b + 7 - s;
      assert i / 8 == b && i % 8 == 7 - s;
      assert position <= i && IsSet(bytes, i);
    }
  }

  /** The round's accumulator: one bit for each request, set when the request was found valid. */
  method BitVoteAccumulator(valid: seq<bool>) returns (bitmask: BitmaskAccumulator)
    ensures fresh(bitmask) && bitmask.Valid() && bitmask.length == |valid| && bitmask.bits == valid
  {
    bitmask := new BitmaskAccumulator(|valid|);
    for i := 0 to |valid|
      invariant fresh(bitmask) && fresh(bitmask.buffer) && bitmask.Valid() && bitmask.length == |valid|
      invariant bitmask.bits == valid[..i]
    {
      var _ := bitmask.AddBit(valid[i]);
    }
  }

  // ---------- the bit vote message ----------

  function RoundHex(roundId: nat): string {
    var padded := if |Numeral(roundId)| == 1 then [0] + Numeral(roundId) else Numeral(roundId);
    Text(padded)[|padded| - 2..]
  }

  /** The message sent to the voting contract: the last byte of the round id in front of the recorded mask. */
  function BitVoteMaskWithRoundCheck(roundId: nat, record: string): string {
    Prefix0x(RoundHex(roundId) + UnPrefix0x(record))
  }

  datatype BitVoteData = BitVoteData(sender: string, timestamp: nat, data: string) {
    predicate RoundCheck(roundId: nat) {
      data != "" && |UnPrefix0x(data)| >= 2 && ParseInt16(UnPrefix0x(data)[..2]) == Some(roundId % 256)
    }

    function BitVote(): string {
      if data == "" || |UnPrefix0x(data)| < 2 then "0x00" else Prefix0x(UnPrefix0x(data)[2..])
    }
  }

  function ReadBitVote(sender: string, timestamp: nat, data: string): Result<BitVoteData, MaskError> {
    if data == "" || |UnPrefix0x(data)| < 2 then Err(IncorrectBitVote) else Ok(BitVoteData(sender, timestamp, data))
  }

  /** A vote is read exactly if there are two characters behind its prefix. */
  lemma ReadsIff(sender: string, timestamp: nat, data: string)
    ensures ReadBitVote(sender, timestamp, data)
            == if |Behind(data)| < 2 then Err(IncorrectBitVote) else Ok(BitVoteData(sender, timestamp, data))
  {}

  lemma TwoDigits(d: Digits)
    requires |d| == 2
    ensures Value(d) == ByteOf(d[0], d[1])
  {
    var front := d[..1];
    assert front[..0] == [];
    assert Value(front) == d[0];
  }

  lemma RoundHexIsLastByte(roundId: nat)
    ensures |RoundHex(roundId)| == 2 && IsLowerHex(RoundHex(roundId))
    ensures ParseInt16(RoundHex(roundId)) == Some(roundId % 256)
  {
    var last := LastTwoDigits(roundId);
    assert RoundHex(roundId) == Text(last);
    ParseText(last);
    ParseInt16OfText(last);
    TwoDigits(last);
  }

  lemma LowByteDigits(n: nat)
    ensures n % 256 == ByteOf(n / 16 % 16, n % 16)
  {
    var q, r := n / 16 / 16, n / 16 % 16;
    QuotientUnique(n, 256, q, 16 * r + n % 16);
  }

  lemma LastTwoDigits(roundId: nat) returns (last: Digits)
    ensures |last| == 2 && ByteOf(last[0], last[1]) == roundId % 256
    ensures RoundHex(roundId) == Text(last)
  {
    var numeral := Numeral(roundId);
    var padded := if |numeral| == 1 then [0] + numeral else numeral;
    last := padded[|padded| - 2..];
    LastDigit(roundId);
    if roundId >= 16 {
      LastDigit(roundId / 16);
      assert numeral == Numeral(roundId / 16) + [roundId % 16];
    }
    LowByteDigits(roundId);
    assert Text(padded)[|padded| - 2..] == Text(last);
  }

  lemma LastDigit(n: nat)
    ensures Numeral(n)[|Numeral(n)| - 1] == n % 16
  {}

  ghost predicate ListsFlags(indices: seq<nat>, flags: seq<bool>) {
    forall i: nat :: i in indices <==> i < |flags| && flags[i]
  }

  lemma IndicesListFlags(indices: seq<nat>, flags: seq<bool>, bytes: seq<Byte>)
    requires Holds(bytes, flags) && IndicesOf(indices, bytes, |flags|)
    ensures ListsFlags(indices, flags)
  {
    forall i: nat ensures i in indices <==> i < |flags| && flags[i] {
      assert i < |flags| ==> ListedIfSet(indices, bytes, i);
    }
  }

  /**
   What a voter sends is what everybody reads: for any flags - at least one - the message passes the
   round check of its round, and its mask has exactly the bits of the valid requests.
   */
  lemma MaskRoundTrip(roundId: nat, flags: seq<bool>, bytes: seq<Byte>, sender: string, timestamp: nat)
    requires flags != [] && Holds(bytes, flags) && |bytes| == (|flags| + 7) / 8
    ensures var vote := ReadBitVote(sender, timestamp, BitVoteMaskWithRoundCheck(roundId, HexOfBytes(bytes)));
            && vote.Ok?
            && vote.value.RoundCheck(roundId)
            && BytesFromHex(vote.value.BitVote()) == Ok(bytes)
            && forall indices :: IndicesOf(indices, bytes, |flags|) ==> ListsFlags(indices, flags)
  {
    RoundHexIsLastByte(roundId);
    HexRoundTrip(bytes);
    var mask := Text(DigitsOfBytes(bytes));
    ParseText(DigitsOfBytes(bytes));
    Unwrap(RoundHex(roundId), mask, HexOfBytes(bytes));
    forall indices | IndicesOf(indices, bytes, |flags|) ensures ListsFlags(indices, flags) {
      IndicesListFlags(indices, flags, bytes);
    }
  }

  lemma Unwrap(round: string, mask: string, record: string)
    requires |round| == 2 && IsLowerHex(round) && IsLowerHex(mask) && |mask| >= 2 && record == "0x" + mask
    ensures var data := Prefix0x(round + UnPrefix0x(record));
            data != "" && UnPrefix0x(data) == round + mask
            && UnPrefix0x(data)[..2] == round && Prefix0x(UnPrefix0x(data)[2..]) == record
  {
    assert UnPrefix0x(record) == mask;
    var body := round + mask;
    assert !HasPrefix(body) by { assert body[1] == round[1]; }
    assert UnPrefix0x("0x" + body) == body;
    assert body[2..] == mask;
    assert !HasPrefix(mask) by { assert mask[1] != 'x'; }
  }
}
