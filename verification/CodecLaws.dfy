/** What encoding and parsing of requests promise, for any schema. */
module CodecLaws {
  import opened Codec
  import opened Hex
  import opened Wrappers

  // ---------- digits ----------

  function Pow16(k: nat): nat {
    if k == 0 then 1 else 16 * Pow16(k - 1)
  }

  /** A number has no more than `k` hex digits exactly when it is below the `k`-th power of 16. */
  lemma {:induction false} NumeralWidth(n: nat, k: nat)
    requires k >= 1
    ensures |Numeral(n)| <= k <==> n < Pow16(k)
    decreases k
  {
    if n < 16 {
      PowGrows(k);
    } else if k == 1 {
      assert Pow16(1) == 16 * Pow16(0) == 16;
    } else {
      NumeralWidth(n / 16, k - 1);
      assert |Numeral(n)| == |Numeral(n / 16)| + 1;
    }
  }

  lemma {:induction false} PowGrows(k: nat)
    requires k >= 1
    ensures Pow16(k) >= 16
  {
    if k > 1 { PowGrows(k - 1); } else { assert Pow16(1) == 16 * Pow16(0); }
  }

  function ZeroDigits(k: nat): (r: Digits)
    ensures |r| == k
  {
    seq(k, _ => 0)
  }

  lemma {:induction false} LeadingZeros(k: nat, d: Digits)
    ensures Hex.Value(ZeroDigits(k) + d) == Hex.Value(d)
    decreases |d|, k
  {
    var all := ZeroDigits(k) + d;
    if d == [] {
      if k > 0 {
        assert all[..k - 1] == ZeroDigits(k - 1) + [];
        LeadingZeros(k - 1, []);
      } else {
        assert all == [];
      }
    } else {
      assert all[..|all| - 1] == ZeroDigits(k) + d[..|d| - 1];
      LeadingZeros(k, d[..|d| - 1]);
    }
  }

  /** Every digit text is the numeral of its value behind some zeros. */
  lemma {:induction false} NumeralBehindZeros(d: Digits)
    requires d != []
    ensures |Numeral(Hex.Value(d))| <= |d|
    ensures d == ZeroDigits(|d| - |Numeral(Hex.Value(d))|) + Numeral(Hex.Value(d))
    decreases |d|
  {
    var front, x := d[..|d| - 1], d[|d| - 1];
    var n := Hex.Value(d);
    assert n == 16 * Hex.Value(front) + x && d == front + [x];
    if front == [] {
      assert Numeral(n) == [x] && ZeroDigits(0) + [x] == [x];
    } else {
      NumeralBehindZeros(front);
      var k := |front| - |Numeral(Hex.Value(front))|;
      if Hex.Value(front) == 0 {
        assert Numeral(0) == [0] && Numeral(n) == [x];
        assert front == ZeroDigits(|front|);
        assert d == ZeroDigits(|front|) + [x];
      } else {
        assert n / 16 == Hex.Value(front) && n % 16 == x;
        assert Numeral(n) == Numeral(Hex.Value(front)) + [x];
        assert d == ZeroDigits(k) + (Numeral(Hex.Value(front)) + [x]);
      }
    }
  }

  lemma PaddedDigits(d: Digits, n: nat)
    requires |d| <= n
    ensures LeftPad(Text(d), n) == Text(ZeroDigits(n - |d|) + d)
  {
    assert Zeros(n - |d|) == Text(ZeroDigits(n - |d|));
  }

  lemma HexHasNoPrefix(s: string)
    requires IsHex(s)
    ensures !HasPrefix(s)
  {
    if |s| >= 2 { assert CharDigit(s[1]).Some?; }
  }

  lemma ReadNumberOfText(d: Digits)
    ensures ReadNumber(Text(d)) == Some(Hex.Value(d))
  {
    ParseText(d);
    HexHasNoPrefix(Text(d));
  }

  lemma HexConcat(a: string, b: string)
    ensures IsHex(a + b) <==> IsHex(a) && IsHex(b)
    ensures IsLowerHex(a + b) <==> IsLowerHex(a) && IsLowerHex(b)
  {
    if IsHex(a + b) {
      assert forall i :: 0 <= i < |a| ==> a[i] == (a + b)[i];
      assert forall i :: 0 <= i < |b| ==> b[i] == (a + b)[|a| + i];
    }
    if IsLowerHex(a + b) {
      assert forall i :: 0 <= i < |a| ==> a[i] == (a + b)[i];
      assert forall i :: 0 <= i < |b| ==> b[i] == (a + b)[|a| + i];
    }
  }

  // ---------- one field ----------

  /** Numbers in number fields, hex texts in byte fields. */
  ghost predicate Fitting(v: Value, field: Field) {
    match field.fieldType
    case OtherType => false
    case ByteSequenceLike => v.Bytes? && IsHex(v.hex)
    case _ => v.Num?
  }

  /** The value as it comes back: byte texts are filled up with zeros to the size of the field. */
  function Normal(v: Value, field: Field): Value {
    if v.Bytes? then Bytes(LeftPad(v.hex, 2 * field.size)) else v
  }

  /** What can be encoded: numbers that are not negative and texts, within the size of the field. */
  lemma EncodableIff(v: Value, field: Field)
    requires Fitting(v, field) && field.size > 0
    ensures ToUnprefixedBytes(v, field).Ok? <==>
            match v case Num(n) => 0 <= n < Pow16(2 * field.size) case Bytes(hex) => |hex| <= 2 * field.size
  {
    if v.Num? && v.n >= 0 { NumeralWidth(v.n, 2 * field.size); }
  }

  lemma FieldRoundTrip(v: Value, field: Field)
    requires Fitting(v, field) && ToUnprefixedBytes(v, field).Ok?
    ensures IsHex(ToUnprefixedBytes(v, field).value)
    ensures FromUnprefixedBytes(ToUnprefixedBytes(v, field).value, field) == Ok(Normal(v, field))
  {
    var bytes := ToUnprefixedBytes(v, field).value;
    match v
    case Num(n) =>
      var k := 2 * field.size - |Numeral(n)|;
      PaddedDigits(Numeral(n), 2 * field.size);
      LeadingZeros(k, Numeral(n));
      ParseText(ZeroDigits(k) + Numeral(n));
      ReadNumberOfText(ZeroDigits(k) + Numeral(n));
    case Bytes(hex) =>
      HexConcat(Zeros(2 * field.size - |hex|), hex);
      HexHasNoPrefix(bytes);
  }

  lemma FieldReencodes(bytes: string, field: Field)
    requires IsLowerHex(bytes) && |bytes| == 2 * field.size && field.size > 0 && FromUnprefixedBytes(bytes, field).Ok?
    ensures ToUnprefixedBytes(FromUnprefixedBytes(bytes, field).value, field) == Ok(bytes)
  {
    TextParse(bytes);
    HexHasNoPrefix(bytes);
    if field.fieldType != ByteSequenceLike {
      var d := Parse(bytes);
      NumeralBehindZeros(d);
      PaddedDigits(Numeral(Hex.Value(d)), 2 * field.size);
    }
  }

  // ---------- whole requests ----------

  ghost predicate AllFitting(fields: seq<Field>, request: Request) {
    forall i :: 0 <= i < |fields| ==> fields[i].key in request && Fitting(request[fields[i].key], fields[i])
  }

  ghost predicate DistinctKeys(fields: seq<Field>) {
    forall i, j :: 0 <= i < j < |fields| ==> fields[i].key != fields[j].key
  }

  ghost predicate PositiveSizes(fields: seq<Field>) {
    forall i :: 0 <= i < |fields| ==> fields[i].size > 0
  }

  function NormalRequest(fields: seq<Field>, request: Request): Request
    requires forall i :: 0 <= i < |fields| ==> fields[i].key in request
  {
    if fields == [] then map[]
    else map[fields[0].key := Normal(request[fields[0].key], fields[0])] + NormalRequest(fields[1..], request)
  }

  /** Every encoding has the length the schema asks for, prefix included. */
  lemma {:induction false} EncodedLength(fields: seq<Field>, request: Request)
    requires EncodeFields(fields, request).Ok?
    ensures |EncodeFields(fields, request).value| == TotalLength(fields)
    ensures forall i :: 0 <= i < |fields| ==> fields[i].key in request
  {
    if fields != [] {
      EncodedLength(fields[1..], request);
      assert fields == [fields[0]] + fields[1..];
    }
  }

  lemma {:induction false} FieldsRoundTrip(fields: seq<Field>, request: Request)
    requires AllFitting(fields, request) && EncodeFields(fields, request).Ok?
    ensures var bytes := EncodeFields(fields, request).value;
            && IsHex(bytes) && |bytes| == TotalLength(fields)
            && ParseFields(fields, bytes) == Ok(NormalRequest(fields, request))
  {
    if fields != [] {
      EncodedLength(fields, request);
      EncodedLength(fields[1..], request);
      assert fields == [fields[0]] + fields[1..];
      FieldsRoundTrip(fields[1..], request);
      FieldRoundTrip(request[fields[0].key], fields[0]);
      var first := ToUnprefixedBytes(request[fields[0].key], fields[0]).value;
      var rest := EncodeFields(fields[1..], request).value;
      assert (first + rest)[..2 * fields[0].size] == first && (first + rest)[2 * fields[0].size..] == rest;
      HexConcat(first, rest);
    }
  }

  /** The first two bytes of an encoding name its type. */
  lemma TypeInFront(scheme: Scheme, request: Request)
    requires AllFitting(Fields(scheme), request) && EncodeFields(Fields(scheme), request).Ok?
    ensures var bytes := "0x" + EncodeFields(Fields(scheme), request).value;
            |bytes| >= 78 && request[ATTESTATION_TYPE].Num? && request[ATTESTATION_TYPE].n >= 0
            && ParseInt16(bytes[..6]) == Some(request[ATTESTATION_TYPE].n)
  {
    var fields := Fields(scheme);
    var base := REQUEST_BASE[0];
    assert fields[0] == base;
    EncodedLength(fields, request);
    BaseLength(scheme);
    var v := request[ATTESTATION_TYPE];
    FieldRoundTrip(v, base);
    var first := ToUnprefixedBytes(v, base).value;
    var bytes := "0x" + EncodeFields(fields, request).value;
    assert bytes[..6] == "0x" + first;
    assert ("0x" + first)[2..] == first;
    HexHasNoPrefix(first);
    HexRunWhole(first);
    assert first[..4] == first;
  }

  lemma BaseLength(scheme: Scheme)
    ensures TotalLength(Fields(scheme)) == 76 + TotalLength(scheme.request)
    ensures Fields(scheme)[0] == REQUEST_BASE[0] && Fields(scheme)[1] == REQUEST_BASE[1] && Fields(scheme)[2] == REQUEST_BASE[2]
  {
    var f := Fields(scheme);
    var f1 := f[1..];
    var f2 := f1[1..];
    assert f[0] == REQUEST_BASE[0] && f1[0] == REQUEST_BASE[1] && f2[0] == REQUEST_BASE[2] && f2[1..] == scheme.request;
    assert TotalLength(f2) == 64 + TotalLength(scheme.request);
    assert TotalLength(f1) == 8 + TotalLength(f2);
  }

  /** Parsing an encoded request gives it back, with byte texts filled up to full length. */
  lemma ParseOfEncoded(definitions: seq<Scheme>, request: Request)
    requires Encoded(definitions, request).Ok?
    requires AllFitting(Fields(DefinitionFor(definitions, request).value), request)
    ensures var fields := Fields(DefinitionFor(definitions, request).value);
            && |Encoded(definitions, request).value| == 2 + TotalLength(fields)
            && Parsed(definitions, Encoded(definitions, request).value) == Ok(NormalRequest(fields, request))
  {
    var scheme := DefinitionFor(definitions, request).value;
    var body := EncodeFields(Fields(scheme), request).value;
    FieldsRoundTrip(Fields(scheme), request);
    TypeInFront(scheme, request);
    assert ("0x" + body)[2..] == body;
  }

  ghost predicate FullLength(fields: seq<Field>, request: Request) {
    forall i :: 0 <= i < |fields| && fields[i].key in request && request[fields[i].key].Bytes? ==> |request[fields[i].key].hex| == 2 * fields[i].size
  }

  lemma {:induction false} NormalAt(fields: seq<Field>, request: Request, i: nat)
    requires DistinctKeys(fields) && i < |fields| && forall i :: 0 <= i < |fields| ==> fields[i].key in request
    ensures fields[i].key in NormalRequest(fields, request)
    ensures NormalRequest(fields, request)[fields[i].key] == Normal(request[fields[i].key], fields[i])
    decreases |fields|
  {
    var rest := fields[1..];
    assert forall j :: 0 <= j < |rest| ==> rest[j] == fields[j + 1];
    if i > 0 {
      NormalAt(rest, request, i - 1);
      assert rest[i - 1] == fields[i];
    } else {
      NotNormalKey(rest, request, fields[0].key);
    }
  }

  lemma {:induction false} NotNormalKey(fields: seq<Field>, request: Request, key: string)
    requires forall i :: 0 <= i < |fields| ==> fields[i].key in request && fields[i].key != key
    ensures key !in NormalRequest(fields, request)
  {
    if fields != [] {
      assert fields == [fields[0]] + fields[1..];
      NotNormalKey(fields[1..], request, key);
    }
  }

  lemma {:induction false} EqualFieldsMeaning(fields: seq<Field>, request: Request, other: Request)
    requires AllFitting(fields, request)
    requires forall i :: 0 <= i < |fields| ==> fields[i].key in other && other[fields[i].key] == Normal(request[fields[i].key], fields[i])
    requires forall i :: 0 <= i < |fields| && request[fields[i].key].Bytes? ==> |request[fields[i].key].hex| <= 2 * fields[i].size
    ensures EqualFields(fields, request, other) == Ok(FullLength(fields, request))
  {
    if fields != [] {
      assert fields == [fields[0]] + fields[1..];
      EqualFieldsMeaning(fields[1..], request, other);
      assert FullLength(fields, request) <==> FullLength(fields[..1], request) && FullLength(fields[1..], request);
      assert fields[..1] == [fields[0]];
    }
  }

  lemma {:induction false} EncodedTextsFit(fields: seq<Field>, request: Request, i: nat)
    requires EncodeFields(fields, request).Ok? && AllFitting(fields, request) && i < |fields|
    ensures request[fields[i].key].Bytes? ==> |request[fields[i].key].hex| <= 2 * fields[i].size
    decreases |fields|
  {
    assert fields == [fields[0]] + fields[1..];
    if i > 0 { EncodedTextsFit(fields[1..], request, i - 1); }
  }

  /**
   Round trip: parsing an encoded request gives one `equalsRequest` accepts, exactly when its byte
   texts have the full length of their fields; shorter ones come back filled up, and compare unequal.
   */
  lemma RoundTripEqual(definitions: seq<Scheme>, request: Request)
    requires Encoded(definitions, request).Ok?
    requires var fields := Fields(DefinitionFor(definitions, request).value);
             AllFitting(fields, request) && DistinctKeys(fields)
    ensures var parsed := Parsed(definitions, Encoded(definitions, request).value);
            parsed.Ok? && EqualRequests(definitions, request, parsed.value) == Ok(FullLength(Fields(DefinitionFor(definitions, request).value), request))
  {
    var fields := Fields(DefinitionFor(definitions, request).value);
    ParseOfEncoded(definitions, request);
    var back := NormalRequest(fields, request);
    forall i | 0 <= i < |fields|
      ensures fields[i].key in back && back[fields[i].key] == Normal(request[fields[i].key], fields[i])
      ensures request[fields[i].key].Bytes? ==> |request[fields[i].key].hex| <= 2 * fields[i].size
    {
      NormalAt(fields, request, i);
      EncodedTextsFit(fields, request, i);
    }
    EqualFieldsMeaning(fields, request, back);
    assert fields[0].key == ATTESTATION_TYPE;
  }

  // ---------- which requests are encoded alike ----------

  lemma LongerHasZeros(a: string, b: string, n: nat)
    requires |a| <= |b| <= n && LeftPad(a, n) == LeftPad(b, n)
    ensures b == LeftPad(a, |b|)
  {
    var pa, pb := LeftPad(a, n), LeftPad(b, n);
    assert pa[n - |b|..] == LeftPad(a, |b|);
    assert pb[n - |b|..] == b;
  }

  lemma PaddedTwice(a: string, k: nat, m: nat)
    requires |a| <= k <= m
    ensures LeftPad(LeftPad(a, k), m) == LeftPad(a, m)
  {}

  /** Filled up to one length alike, two texts are so to any length that has room for them. */
  lemma PaddedAlike(a: string, b: string, n: nat, m: nat)
    requires |a| <= n && |b| <= n && |a| <= m && |b| <= m && LeftPad(a, n) == LeftPad(b, n)
    ensures LeftPad(a, m) == LeftPad(b, m)
  {
    if |a| <= |b| {
      LongerHasZeros(a, b, n);
      PaddedTwice(a, |b|, m);
    } else {
      LongerHasZeros(b, a, n);
      PaddedTwice(b, |a|, m);
    }
  }

  predicate HasKey(fields: seq<Field>, key: string) {
    exists i :: 0 <= i < |fields| && fields[i].key == key
  }

  lemma KeyInFrontOrRest(fields: seq<Field>, key: string)
    requires fields != []
    ensures HasKey(fields, key) <==> fields[0].key == key || HasKey(fields[1..], key)
  {
    if HasKey(fields[1..], key) {
      var i :| 0 <= i < |fields[1..]| && fields[1..][i].key == key;
      assert fields[i + 1].key == key;
    }
    if i :| 0 <= i < |fields| && fields[i].key == key { assert i > 0 ==> fields[1..][i - 1].key == key; }
  }

  /** The last field with a key: what it reads is what a parsed request has under the key. */
  function LastWith(fields: seq<Field>, key: string): (l: nat)
    requires HasKey(fields, key)
    ensures l < |fields| && fields[l].key == key
  {
    KeyInFrontOrRest(fields, key);
    if HasKey(fields[1..], key) then 1 + LastWith(fields[1..], key) else 0
  }

  lemma {:induction false} NormalAtLast(fields: seq<Field>, request: Request, key: string)
    requires HasKey(fields, key) && forall i :: 0 <= i < |fields| ==> fields[i].key in request
    ensures key in NormalRequest(fields, request)
    ensures NormalRequest(fields, request)[key] == Normal(request[key], fields[LastWith(fields, key)])
    decreases |fields|
  {
    var rest := fields[1..];
    assert forall j :: 0 <= j < |rest| ==> rest[j] == fields[j + 1];
    KeyInFrontOrRest(fields, key);
    if HasKey(rest, key) {
      NormalAtLast(rest, request, key);
    } else {
      NotNormalKey(rest, request, key);
    }
  }

  lemma BytesAlike(v: Value, w: Value, read: Field, field: Field)
    requires Fitting(v, read) && Fitting(w, read) && Normal(v, read) == Normal(w, read)
    requires v.Bytes? ==> |v.hex| <= 2 * read.size && |v.hex| <= 2 * field.size
    requires w.Bytes? ==> |w.hex| <= 2 * read.size && |w.hex| <= 2 * field.size
    ensures ToUnprefixedBytes(v, field) == ToUnprefixedBytes(w, field)
  {
    if v.Bytes? { PaddedAlike(v.hex, w.hex, 2 * read.size, 2 * field.size); }
  }

  lemma {:induction false} FieldsAlike(fields: seq<Field>, a: Request, b: Request)
    requires forall i :: 0 <= i < |fields| ==>
               && fields[i].key in a && fields[i].key in b
               && ToUnprefixedBytes(a[fields[i].key], fields[i]) == ToUnprefixedBytes(b[fields[i].key], fields[i])
    ensures EncodeFields(fields, a) == EncodeFields(fields, b)
  {
    if fields != [] {
      assert fields == [fields[0]] + fields[1..];
      assert fields[0].key in a && fields[0].key in b;
      FieldsAlike(fields[1..], a, b);
    }
  }

  lemma NormalDeterminesEncoding(fields: seq<Field>, a: Request, b: Request)
    requires AllFitting(fields, a) && AllFitting(fields, b) && NormalRequest(fields, a) == NormalRequest(fields, b)
    requires EncodeFields(fields, a).Ok? && EncodeFields(fields, b).Ok?
    ensures EncodeFields(fields, a) == EncodeFields(fields, b)
  {
    forall i | 0 <= i < |fields| ensures ToUnprefixedBytes(a[fields[i].key], fields[i]) == ToUnprefixedBytes(b[fields[i].key], fields[i]) {
      var key := fields[i].key;
      assert HasKey(fields, key);
      var l := LastWith(fields, key);
      NormalAtLast(fields, a, key);
      NormalAtLast(fields, b, key);
      EncodedTextsFit(fields, a, i);
      EncodedTextsFit(fields, b, i);
      EncodedTextsFit(fields, a, l);
      EncodedTextsFit(fields, b, l);
      BytesAlike(a[key], b[key], fields[l], fields[i]);
    }
    FieldsAlike(fields, a, b);
  }

  function FieldsFor(definitions: seq<Scheme>, request: Request): seq<Field>
    requires Encoded(definitions, request).Ok?
  {
    Fields(DefinitionFor(definitions, request).value)
  }

  ghost predicate SameNormalForm(definitions: seq<Scheme>, a: Request, b: Request)
    requires Encoded(definitions, a).Ok? && AllFitting(FieldsFor(definitions, a), a)
    requires Encoded(definitions, b).Ok? && AllFitting(FieldsFor(definitions, b), b)
  {
    && DefinitionFor(definitions, a) == DefinitionFor(definitions, b)
    && NormalRequest(FieldsFor(definitions, a), a) == NormalRequest(FieldsFor(definitions, b), b)
  }

  lemma SameEncodingSameForm(definitions: seq<Scheme>, a: Request, b: Request)
    requires Encoded(definitions, a).Ok? && AllFitting(FieldsFor(definitions, a), a)
    requires Encoded(definitions, b).Ok? && AllFitting(FieldsFor(definitions, b), b)
    requires Encoded(definitions, a) == Encoded(definitions, b)
    ensures SameNormalForm(definitions, a, b)
  {
    TypeInFront(DefinitionFor(definitions, a).value, a);
    TypeInFront(DefinitionFor(definitions, b).value, b);
    ParseOfEncoded(definitions, a);
    ParseOfEncoded(definitions, b);
  }

  /** Two requests are encoded alike exactly when they are of the same type and agree up to leading zeros of byte values. */
  lemma EncodedAlikeIff(definitions: seq<Scheme>, a: Request, b: Request)
    requires Encoded(definitions, a).Ok? && AllFitting(FieldsFor(definitions, a), a)
    requires Encoded(definitions, b).Ok? && AllFitting(FieldsFor(definitions, b), b)
    ensures Encoded(definitions, a) == Encoded(definitions, b) <==> SameNormalForm(definitions, a, b)
  {
    if Encoded(definitions, a) == Encoded(definitions, b) {
      SameEncodingSameForm(definitions, a, b);
    }
    if SameNormalForm(definitions, a, b) {
      NormalDeterminesEncoding(FieldsFor(definitions, a), a, b);
    }
  }

  /** A request of a type without fields of its own, with an integrity code of `n` zeros. */
  function ZeroCode(n: nat): Request {
    map[ATTESTATION_TYPE := Num(1), SOURCE_ID := Num(0), MESSAGE_INTEGRITY_CODE := Bytes(Zeros(n))]
  }

  const BARE: seq<Scheme> := [Scheme(1, [])]

  lemma ZeroCodeEncodes(n: nat)
    requires n <= 64
    ensures Encoded(BARE, ZeroCode(n)).Ok? && FieldsFor(BARE, ZeroCode(n)) == REQUEST_BASE
    ensures AllFitting(REQUEST_BASE, ZeroCode(n)) && DistinctKeys(REQUEST_BASE)
    ensures NormalRequest(REQUEST_BASE, ZeroCode(n)) == ZeroCode(64)
  {
    var r, fields := ZeroCode(n), REQUEST_BASE;
    assert BARE[0] == Scheme(1, []) && Definition(BARE, 1) == Some(Scheme(1, []));
    assert REQUEST_BASE + [] == REQUEST_BASE;
    assert fields[1..][0] == fields[1] && fields[1..][1..][0] == fields[2] && fields[1..][1..][1..] == [];
    assert LeftPad(Zeros(n), 64) == Zeros(64);
    assert |Numeral(1)| == 1 && |Numeral(0)| == 1;
    assert EncodeFields(fields[1..][1..], r).Ok?;
    assert EncodeFields(fields[1..], r).Ok?;
    ZeroCodeNormal(n);
  }

  lemma ZeroCodeNormal(n: nat)
    requires n <= 64
    ensures forall i :: 0 <= i < |REQUEST_BASE| ==> REQUEST_BASE[i].key in ZeroCode(n)
    ensures NormalRequest(REQUEST_BASE, ZeroCode(n)) == ZeroCode(64)
  {
    var r, fields := ZeroCode(n), REQUEST_BASE;
    assert fields[1..][0] == fields[1] && fields[1..][1..][0] == fields[2] && fields[1..][1..][1..] == [];
    assert LeftPad(Zeros(n), 64) == Zeros(64);
    assert NormalRequest(fields[1..][1..], r) == map[MESSAGE_INTEGRITY_CODE := Bytes(Zeros(64))];
    assert NormalRequest(fields[1..], r) == map[SOURCE_ID := Num(0), MESSAGE_INTEGRITY_CODE := Bytes(Zeros(64))];
  }

  /** Codes of 63 and of 64 zeros are encoded alike, and the shorter one comes back as the longer. */
  lemma ShorterCodeComesBackLonger()
    ensures ZeroCode(63) != ZeroCode(64)
    ensures Encoded(BARE, ZeroCode(63)).Ok? && Encoded(BARE, ZeroCode(63)) == Encoded(BARE, ZeroCode(64))
    ensures var parsed := Parsed(BARE, Encoded(BARE, ZeroCode(63)).value);
            parsed.Ok? && EqualRequests(BARE, ZeroCode(63), parsed.value) == Ok(false)
  {
    ZeroCodeEncodes(63);
    ZeroCodeEncodes(64);
    EncodedAlikeIff(BARE, ZeroCode(63), ZeroCode(64));
    RoundTripEqual(BARE, ZeroCode(63));
    assert ZeroCode(63)[MESSAGE_INTEGRITY_CODE] != ZeroCode(64)[MESSAGE_INTEGRITY_CODE];
    assert !FullLength(REQUEST_BASE, ZeroCode(63)) by { assert REQUEST_BASE[2].key == MESSAGE_INTEGRITY_CODE; }
  }

  /** So with byte values of full length different requests have different encodings. */
  lemma EncodingInjective(definitions: seq<Scheme>, a: Request, b: Request, i: nat)
    requires Encoded(definitions, a).Ok? && Encoded(definitions, a) == Encoded(definitions, b)
    requires var fields := FieldsFor(definitions, a);
             AllFitting(fields, a) && FullLength(fields, a) && i < |fields|
    requires var fields := FieldsFor(definitions, b);
             AllFitting(fields, b) && FullLength(fields, b)
    ensures DefinitionFor(definitions, a) == DefinitionFor(definitions, b)
    ensures var key := FieldsFor(definitions, a)[i].key;
            key in a && key in b && a[key] == b[key]
  {
    EncodedAlikeIff(definitions, a, b);
    var fields := FieldsFor(definitions, a);
    assert HasKey(fields, fields[i].key);
    NormalAtLast(fields, a, fields[i].key);
    NormalAtLast(fields, b, fields[i].key);
  }

  // ---------- from text to text ----------

  lemma {:induction false} FieldsReencode(fields: seq<Field>, input: string)
    requires |input| == TotalLength(fields) && IsLowerHex(input) && PositiveSizes(fields) && DistinctKeys(fields)
    requires ParseFields(fields, input).Ok?
    ensures EncodeFields(fields, ParseFields(fields, input).value) == Ok(input)
  {
    if fields != [] {
      var size := 2 * fields[0].size;
      RestReencodes(fields, input);
      RestIsLowerHex(fields, input, size);
      FieldsReencode(fields[1..], input[size..]);
      FieldReencodes(input[..size], fields[0]);
      JoinedEncoding(fields, ParseFields(fields, input).value, input[..size], input[size..]);
      assert input == input[..size] + input[size..];
    }
  }

  lemma JoinedEncoding(fields: seq<Field>, request: Request, first: string, rest: string)
    requires fields != [] && fields[0].key in request && ToUnprefixedBytes(request[fields[0].key], fields[0]) == Ok(first)
    requires EncodeFields(fields[1..], request) == Ok(rest)
    ensures EncodeFields(fields, request) == Ok(first + rest)
  {}

  lemma RestIsLowerHex(fields: seq<Field>, input: string, size: nat)
    requires fields != [] && size <= |input| && IsLowerHex(input) && PositiveSizes(fields) && DistinctKeys(fields)
    ensures IsLowerHex(input[..size]) && IsLowerHex(input[size..]) && PositiveSizes(fields[1..]) && DistinctKeys(fields[1..])
  {
    assert input == input[..size] + input[size..];
    HexConcat(input[..size], input[size..]);
    assert forall i :: 0 <= i < |fields[1..]| ==> fields[1..][i] == fields[i + 1];
  }

  lemma RestReencodes(fields: seq<Field>, input: string)
    requires fields != [] && |input| == TotalLength(fields) && DistinctKeys(fields) && ParseFields(fields, input).Ok?
    ensures var size := 2 * fields[0].size;
            && size <= |input| && |input[size..]| == TotalLength(fields[1..]) && ParseFields(fields[1..], input[size..]).Ok?
            && At(ParseFields(fields, input).value, fields[0].key) == FieldValue(input[..size], fields[0])
            && EncodeFields(fields[1..], ParseFields(fields, input).value)
               == EncodeFields(fields[1..], ParseFields(fields[1..], input[size..]).value)
  {
    var size := 2 * fields[0].size;
    FirstParsed(fields, input);
    SameEncoding(fields[1..], ParseFields(fields, input).value, ParseFields(fields[1..], input[size..]).value);
  }

  lemma {:induction false} ParsedKeys(fields: seq<Field>, input: string, key: string)
    requires |input| == TotalLength(fields) && ParseFields(fields, input).Ok?
    ensures key in ParseFields(fields, input).value <==> exists i :: 0 <= i < |fields| && fields[i].key == key
  {
    if fields != [] {
      var size := 2 * fields[0].size;
      assert fields == [fields[0]] + fields[1..];
      ParsedKeys(fields[1..], input[size..], key);
      if i :| 0 <= i < |fields[1..]| && fields[1..][i].key == key { assert fields[i + 1].key == key; }
      if i :| 0 <= i < |fields| && fields[i].key == key { assert i > 0 ==> fields[1..][i - 1].key == key; }
    }
  }

  lemma {:induction false} SameEncoding(fields: seq<Field>, a: Request, b: Request)
    requires forall i :: 0 <= i < |fields| ==> At(a, fields[i].key) == At(b, fields[i].key)
    ensures EncodeFields(fields, a) == EncodeFields(fields, b)
  {
    if fields != [] {
      assert fields == [fields[0]] + fields[1..];
      assert At(a, fields[0].key) == At(b, fields[0].key);
      SameEncoding(fields[1..], a, b);
    }
  }

  /** The base fields of a parsed request are read from the first 38 bytes. */
  lemma BaseParsed(scheme: Scheme, input: string)
    requires |input| == TotalLength(Fields(scheme)) && ParseFields(Fields(scheme), input).Ok? && DistinctKeys(Fields(scheme))
    ensures |input| >= 76
    ensures var r := ParseFields(Fields(scheme), input).value;
            && At(r, ATTESTATION_TYPE) == FieldValue(input[..4], REQUEST_BASE[0])
            && At(r, SOURCE_ID) == FieldValue(input[4..12], REQUEST_BASE[1])
            && At(r, MESSAGE_INTEGRITY_CODE) == FieldValue(input[12..76], REQUEST_BASE[2])
  {
    BaseLength(scheme);
    var f, in1 := Fields(scheme), input[4..];
    var in2 := in1[8..];
    assert in1[..8] == input[4..12] && in2[..64] == input[12..76];
    FirstParsed(f, input);
    FirstParsed(f[1..], in1);
    FirstParsed(f[1..][1..], in2);
  }

  /** The first field is read from the front, and the others from what follows. */
  lemma FirstParsed(fields: seq<Field>, input: string)
    requires fields != [] && |input| == TotalLength(fields) && ParseFields(fields, input).Ok? && DistinctKeys(fields)
    ensures var size := 2 * fields[0].size;
            var rest := ParseFields(fields[1..], input[size..]);
            && rest.Ok? && DistinctKeys(fields[1..])
            && At(ParseFields(fields, input).value, fields[0].key) == FieldValue(input[..size], fields[0])
            && forall key :: key != fields[0].key ==> At(ParseFields(fields, input).value, key) == At(rest.value, key)
  {
    var rest := fields[1..];
    ParsedKeys(rest, input[2 * fields[0].size..], fields[0].key);
    assert forall j :: 0 <= j < |rest| ==> rest[j] == fields[j + 1];
  }

  function FieldValue(bytes: string, field: Field): Option<Value> {
    match FromUnprefixedBytes(bytes, field) case Ok(v) => Some(v) case Err(_) => None
  }

  /** Encoding what was parsed from a lower-case text gives the text back. */
  lemma ReencodeParsed(definitions: seq<Scheme>, body: string)
    requires IsLowerHex(body) && Parsed(definitions, "0x" + body).Ok?
    requires var fields := Fields(SchemeOf(definitions, "0x" + body).value);
             DistinctKeys(fields) && PositiveSizes(fields)
    ensures Encoded(definitions, Parsed(definitions, "0x" + body).value) == Ok("0x" + body)
  {
    var text := "0x" + body;
    assert text[2..] == body;
    var scheme := SchemeOf(definitions, text).value;
    var request := Parsed(definitions, text).value;
    FieldsReencode(Fields(scheme), body);
    BaseParsed(scheme, body);
    TypeRead(body);
  }

  lemma TypeRead(body: string)
    requires IsLowerHex(body) && |body| >= 4
    ensures ReadNumber(body[..4]).Some? && ParseInt16(("0x" + body)[..6]) == ReadNumber(body[..4])
  {
    var first := body[..4];
    assert ("0x" + body)[..6] == "0x" + first && ("0x" + first)[2..] == first;
    assert body == first + body[4..];
    HexConcat(first, body[4..]);
    TextParse(first);
    HexHasNoPrefix(first);
    HexRunWhole(first);
    assert first[..4] == first;
  }

  /**
   The quick reader agrees with the parser on the three base fields of every text the parser accepts -
   on the integrity code exactly when that does not itself look prefixed, as no hex text does.
   */
  lemma BaseFieldsAgree(definitions: seq<Scheme>, bytes: string)
    requires Parsed(definitions, bytes).Ok? && DistinctKeys(Fields(SchemeOf(definitions, bytes).value))
    ensures var r, base := Parsed(definitions, bytes).value, GetAttestationTypeAndSource(bytes);
            && base.Some?
            && At(r, ATTESTATION_TYPE) == Some(Num(base.value.attestationType))
            && At(r, SOURCE_ID) == Some(Num(base.value.sourceId))
            && (At(r, MESSAGE_INTEGRITY_CODE) == Some(base.value.messageIntegrityCode) <==> !HasPrefix(Slice(UnPrefix0x(bytes), 12, 76)))
    ensures IsHex(UnPrefix0x(bytes)) ==> !HasPrefix(Slice(UnPrefix0x(bytes), 12, 76))
  {
    var input := UnPrefix0x(bytes);
    var scheme := SchemeOf(definitions, bytes).value;
    BaseParsed(scheme, input);
    BaseNumbersRead(scheme, input);
    QuickRead(bytes, input);
    CodeAgrees(input[12..76]);
    if IsHex(input) { HexHasNoPrefix(input[12..76]); }
  }

  lemma QuickRead(bytes: string, input: string)
    requires input == UnPrefix0x(bytes) && |input| >= 76 && ReadNumber(input[..4]).Some? && ReadNumber(input[4..12]).Some?
    ensures Slice(input, 12, 76) == input[12..76]
    ensures GetAttestationTypeAndSource(bytes) ==
              Some(Base(ReadNumber(input[..4]).value, ReadNumber(input[4..12]).value, Bytes(Prefix0x(input[12..76])[2..])))
  {
    assert Slice(input, 0, 4) == input[..4] && Slice(input, 4, 12) == input[4..12] && Slice(input, 12, 76) == input[12..76];
    ReadPrefixed(input[..4]);
    ReadPrefixed(input[4..12]);
  }

  lemma CodeAgrees(code: string)
    requires |code| == 64
    ensures FieldValue(code, REQUEST_BASE[2]) == Some(Bytes(Prefix0x(code)[2..])) <==> !HasPrefix(code)
  {
    if HasPrefix(code) {
      assert |Zeros(2) + code[2..]| == 64 && |code[2..]| == 62;
    } else {
      assert ("0x" + code)[2..] == code;
    }
  }

  lemma BaseNumbersRead(scheme: Scheme, input: string)
    requires |input| == TotalLength(Fields(scheme)) && ParseFields(Fields(scheme), input).Ok?
    ensures |input| >= 76
    ensures ReadNumber(input[..4]).Some? && ReadNumber(input[4..12]).Some?
  {
    BaseLength(scheme);
    var f := Fields(scheme);
    var f1, in1 := f[1..], input[4..];
    assert f1[0] == REQUEST_BASE[1] && in1[..8] == input[4..12];
    assert ParseFields(f1, in1).Ok?;
    assert FromUnprefixedBytes(in1[..8], f1[0]).Ok?;
  }

  lemma ReadPrefixed(s: string)
    requires s != ""
    ensures ReadNumber(Prefix0x(s)) == ReadNumber(s)
  {
    if !HasPrefix(s) { assert ("0x" + s)[2..] == s; }
  }
}
