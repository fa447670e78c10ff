/** Every outcome of encoding, parsing and comparing requests, errors included, down to the characters. */
module CodecOutcomes {
  import opened Codec
  import opened CodecLaws
  import opened Hex
  import opened HexMeaning
  import opened Wrappers

  // ---------- zeros in front ----------

  /** `text` is `hex` behind zeros. */
  ghost predicate ZerosBefore(text: string, hex: string) {
    |hex| <= |text| && text[|text| - |hex|..] == hex && forall i :: 0 <= i < |text| - |hex| ==> text[i] == '0'
  }

  // ---------- schemes ----------

  /** The first scheme with the id. */
  ghost predicate SchemeIs(definitions: seq<Scheme>, id: int, scheme: Scheme) {
    exists i :: 0 <= i < |definitions| && definitions[i] == scheme && scheme.id == id && forall j :: 0 <= j < i ==> definitions[j].id != id
  }

  lemma {:induction false} DefinitionMeans(definitions: seq<Scheme>, id: int, scheme: Scheme)
    ensures Definition(definitions, id) == Some(scheme) <==> SchemeIs(definitions, id, scheme)
    decreases |definitions|
  {
    if definitions != [] {
      if definitions[0].id != id {
        DefinitionMeans(definitions[1..], id, scheme);
        SchemeInRest(definitions, definitions[1..], id, scheme);
      }
    }
  }

  lemma SchemeInRest(definitions: seq<Scheme>, rest: seq<Scheme>, id: int, scheme: Scheme)
    requires definitions != [] && definitions[0].id != id && rest == definitions[1..]
    ensures SchemeIs(definitions, id, scheme) <==> SchemeIs(rest, id, scheme)
  {
    assert forall j :: 0 <= j < |rest| ==> rest[j] == definitions[j + 1];
    if i :| 0 <= i < |rest| && rest[i] == scheme && scheme.id == id && forall j :: 0 <= j < i ==> rest[j].id != id {
      forall j | 0 <= j < i + 1 ensures definitions[j].id != id { assert j > 0 ==> rest[j - 1].id != id; }
      assert definitions[i + 1] == scheme;
    }
    if i :| 0 <= i < |definitions| && definitions[i] == scheme && scheme.id == id && forall j :: 0 <= j < i ==> definitions[j].id != id {
      assert rest[i - 1] == scheme;
    }
  }

  lemma BaseFields(scheme: Scheme)
    ensures Fields(scheme)[..3] == [Field("attestationType", 2, AttestationType), Field("sourceId", 4, SourceId), Field("messageIntegrityCode", 32, ByteSequenceLike)]
    ensures Fields(scheme)[3..] == scheme.request
  {}

  ghost predicate NamesType(request: Request, id: int) {
    "attestationType" in request && request["attestationType"] == Num(id)
  }

  lemma DefinitionForMeans(definitions: seq<Scheme>, request: Request, scheme: Scheme)
    ensures DefinitionFor(definitions, request) == Some(scheme) <==> exists id :: NamesType(request, id) && SchemeIs(definitions, id, scheme)
  {
    if ATTESTATION_TYPE in request && request[ATTESTATION_TYPE].Num? {
      DefinitionMeans(definitions, request[ATTESTATION_TYPE].n, scheme);
    }
  }

  // ---------- encoding ----------

  /** Why the value for a field cannot be encoded. */
  ghost predicate FailsToEncode(request: Request, f: Field, e: CodecError) {
    if f.key !in request then e == MissingKey(f.key)
    else if f.fieldType == OtherType then e == WrongType
    else
      match request[f.key]
      case Num(n) => if n < 0 then e == Negative else (f.size == 0 || n >= Pow16(2 * f.size)) && e == TooLong(f.key)
      case Bytes(hex) => |hex| > 2 * f.size && e == TooLong(f.key)
  }

  /** What a value is encoded as: its digits, filled up with zeros to the size of the field. */
  ghost predicate EncodedAs(v: Value, f: Field, text: string) {
    |text| == 2 * f.size &&
    match v
    case Num(n) => HexText(text) && TextValue(text) == n && IsLowerHex(text)
    case Bytes(hex) => ZerosBefore(text, hex)
  }

  lemma FieldEncodes(request: Request, f: Field)
    requires f.key in request
    ensures match ToUnprefixedBytes(request[f.key], f)
            case Err(e) => FailsToEncode(request, f, e)
            case Ok(text) => EncodedAs(request[f.key], f, text) && forall e :: !FailsToEncode(request, f, e)
  {
    var v := request[f.key];
    if f.fieldType != OtherType && v.Num? && v.n >= 0 {
      if f.size > 0 { NumeralWidth(v.n, 2 * f.size); }
      if |Numeral(v.n)| <= 2 * f.size { NumberEncodes(v.n, 2 * f.size); }
    }
  }

  lemma NumberEncodes(n: nat, size: nat)
    requires |Numeral(n)| <= size
    ensures var text := LeftPad(Text(Numeral(n)), size); HexText(text) && TextValue(text) == n && IsLowerHex(text)
  {
    var d := ZeroDigits(size - |Numeral(n)|) + Numeral(n);
    PaddedDigits(Numeral(n), size);
    LeadingZeros(size - |Numeral(n)|, Numeral(n));
    ParseText(d);
    TextIsHex(Text(d));
    ValueOfText(Text(d));
  }

  /** Where the text of a field begins. */
  ghost function Offset(fields: seq<Field>, i: nat): nat
    requires i <= |fields|
  {
    if i == 0 then 0 else 2 * fields[0].size + Offset(fields[1..], i - 1)
  }

  lemma {:induction false} OffsetEnds(fields: seq<Field>, i: nat)
    requires i < |fields|
    ensures Offset(fields, i) + 2 * fields[i].size <= TotalLength(fields)
    decreases i
  {
    if i > 0 {
      OffsetEnds(fields[1..], i - 1);
      assert fields[1..][i - 1] == fields[i];
    }
  }

  /** The first field that fails decides; if none does, each field's text stands where the sizes put it. */
  lemma {:induction false} FirstFailureDecides(fields: seq<Field>, request: Request, i: nat, e: CodecError)
    requires i < |fields| && FailsToEncode(request, fields[i], e)
    requires forall j, e' :: 0 <= j < i ==> !FailsToEncode(request, fields[j], e')
    ensures EncodeFields(fields, request) == Err(e)
    decreases i
  {
    if fields[0].key in request { FieldEncodes(request, fields[0]); }
    if i > 0 {
      assert forall j :: 0 <= j < |fields[1..]| ==> fields[1..][j] == fields[j + 1];
      assert !FailsToEncode(request, fields[0], MissingKey(fields[0].key));
      FirstFailureDecides(fields[1..], request, i - 1, e);
    }
  }

  lemma {:induction false} AllEncode(fields: seq<Field>, request: Request)
    requires forall j, e :: 0 <= j < |fields| ==> !FailsToEncode(request, fields[j], e)
    ensures EncodeFields(fields, request).Ok? && |EncodeFields(fields, request).value| == TotalLength(fields)
    ensures forall j :: 0 <= j < |fields| ==> fields[j].key in request
    decreases |fields|
  {
    if fields != [] {
      assert fields == [fields[0]] + fields[1..];
      assert !FailsToEncode(request, fields[0], MissingKey(fields[0].key));
      FieldEncodes(request, fields[0]);
      AllEncode(fields[1..], request);
    }
  }

  lemma {:induction false} FieldStandsAt(fields: seq<Field>, request: Request, i: nat)
    requires i < |fields| && forall j, e :: 0 <= j < |fields| ==> !FailsToEncode(request, fields[j], e)
    ensures fields[i].key in request && EncodeFields(fields, request).Ok?
    ensures Offset(fields, i) + 2 * fields[i].size <= |EncodeFields(fields, request).value|
    ensures EncodedAs(request[fields[i].key], fields[i], EncodeFields(fields, request).value[Offset(fields, i)..][..2 * fields[i].size])
    decreases i
  {
    AllEncode(fields, request);
    AllEncode(fields[1..], request);
    OffsetEnds(fields, i);
    FieldEncodes(request, fields[0]);
    var first, rest := ToUnprefixedBytes(request[fields[0].key], fields[0]).value, EncodeFields(fields[1..], request).value;
    if i == 0 {
      assert (first + rest)[..2 * fields[0].size] == first;
    } else {
      assert fields[1..][i - 1] == fields[i];
      FieldStandsAt(fields[1..], request, i - 1);
      assert (first + rest)[Offset(fields, i)..] == rest[Offset(fields[1..], i - 1)..];
    }
  }

  /** The text of an encoded request: the prefix, and each field's text where the sizes put it. */
  ghost predicate EncodesTo(fields: seq<Field>, request: Request, text: string) {
    && |text| == 2 + TotalLength(fields) && text[..2] == "0x"
    && forall i :: 0 <= i < |fields| ==> StandsAt(fields, request, text, i)
  }

  ghost predicate StandsAt(fields: seq<Field>, request: Request, text: string, i: nat)
    requires i < |fields|
  {
    && fields[i].key in request && 2 + Offset(fields, i) + 2 * fields[i].size <= |text|
    && EncodedAs(request[fields[i].key], fields[i], text[2 + Offset(fields, i)..][..2 * fields[i].size])
  }

  /**
   Every outcome of encoding: a request whose type is not a number with a scheme is not supported; else the
   first field whose value is missing, of a wrong type, negative or too long is the error, and if there is
   none all fields are in the text.
   */
  lemma EncodeOutcome(definitions: seq<Scheme>, request: Request)
    ensures (forall id, scheme :: NamesType(request, id) ==> !SchemeIs(definitions, id, scheme)) ==> Encoded(definitions, request) == Err(UnsupportedType)
    ensures forall id, scheme :: NamesType(request, id) && SchemeIs(definitions, id, scheme) ==>
              EncodesOrFails(Fields(scheme), request, Encoded(definitions, request))
  {
    var found := DefinitionFor(definitions, request);
    if found.Some? { DefinitionForMeans(definitions, request, found.value); }
    forall id, scheme | NamesType(request, id) && SchemeIs(definitions, id, scheme)
      ensures EncodesOrFails(Fields(scheme), request, Encoded(definitions, request))
    {
      DefinitionForMeans(definitions, request, scheme);
      FieldsOutcome(Fields(scheme), request, Encoded(definitions, request));
    }
  }

  ghost predicate EncodesOrFails(fields: seq<Field>, request: Request, r: Result<string, CodecError>) {
    && (forall i: nat, e :: i < |fields| && FailsToEncode(request, fields[i], e) && (forall j, e' :: 0 <= j < i ==> !FailsToEncode(request, fields[j], e')) ==>
          r == Err(e))
    && ((forall j, e :: 0 <= j < |fields| ==> !FailsToEncode(request, fields[j], e)) ==> r.Ok? && EncodesTo(fields, request, r.value))
  }

  lemma FieldsOutcome(fields: seq<Field>, request: Request, r: Result<string, CodecError>)
    requires r == match EncodeFields(fields, request) case Err(e) => Err(e) case Ok(bytes) => Ok("0x" + bytes)
    ensures EncodesOrFails(fields, request, r)
  {
    forall i: nat, e | i < |fields| && FailsToEncode(request, fields[i], e) && (forall j, e' :: 0 <= j < i ==> !FailsToEncode(request, fields[j], e'))
      ensures r == Err(e)
    {
      FirstFailureDecides(fields, request, i, e);
    }
    if forall j, e :: 0 <= j < |fields| ==> !FailsToEncode(request, fields[j], e) {
      AllEncode(fields, request);
      forall i: nat | i < |fields| ensures StandsAt(fields, request, r.value, i) {
        FieldStandsAt(fields, request, i);
        assert r.value[2 + Offset(fields, i)..] == EncodeFields(fields, request).value[Offset(fields, i)..];
      }
    }
  }

  // ---------- parsing ----------

  /** What a field's text reads as: a byte text filled up with zeros, or a number. */
  ghost predicate ReadsAs(text: string, f: Field, v: Value) {
    match f.fieldType
    case OtherType => false
    case ByteSequenceLike => v.Bytes? && ZerosBefore(v.hex, Behind(text)) && |v.hex| == (if |Behind(text)| < 2 * f.size then 2 * f.size else |Behind(text)|)
    case _ => HexText(Behind(text)) && v == Num(TextValue(Behind(text)))
  }

  ghost predicate FailsToParse(text: string, f: Field, e: CodecError) {
    if f.fieldType == OtherType then e == WrongType
    else f.fieldType != ByteSequenceLike && !HexText(Behind(text)) && e == NotANumber
  }

  lemma FieldParses(text: string, f: Field)
    ensures match FromUnprefixedBytes(text, f)
            case Err(e) => FailsToParse(text, f, e)
            case Ok(v) => ReadsAs(text, f, v) && forall e :: !FailsToParse(text, f, e)
    ensures forall v :: ReadsAs(text, f, v) ==> FromUnprefixedBytes(text, f) == Ok(v)
  {
    TextIsHex(Behind(text));
    if IsHex(Behind(text)) { ValueOfText(Behind(text)); }
    forall v | f.fieldType == ByteSequenceLike && ReadsAs(text, f, v) ensures v == Bytes(LeftPad(Behind(text), 2 * f.size)) {
      PaddedIs(v.hex, Behind(text), 2 * f.size);
    }
  }

  lemma PaddedIs(text: string, hex: string, size: nat)
    requires ZerosBefore(text, hex) && |text| == if |hex| < size then size else |hex|
    ensures text == LeftPad(hex, size)
  {
    assert text == text[..|text| - |hex|] + hex;
    assert text[..|text| - |hex|] == Zeros(|text| - |hex|);
  }

  /** The part of the text that belongs to a field. */
  ghost function Part(fields: seq<Field>, input: string, i: nat): string
    requires i < |fields| && |input| == TotalLength(fields)
  {
    OffsetEnds(fields, i);
    input[Offset(fields, i)..][..2 * fields[i].size]
  }

  lemma PartOfRest(fields: seq<Field>, input: string, i: nat)
    requires 0 < i < |fields| && |input| == TotalLength(fields)
    ensures |input[2 * fields[0].size..]| == TotalLength(fields[1..])
    ensures fields[1..][i - 1] == fields[i] && Part(fields[1..], input[2 * fields[0].size..], i - 1) == Part(fields, input, i)
  {
    OffsetEnds(fields, i);
    assert fields[1..][i - 1] == fields[i];
    assert input[2 * fields[0].size..][Offset(fields[1..], i - 1)..] == input[Offset(fields, i)..];
  }

  lemma {:induction false} FirstBadPartDecides(fields: seq<Field>, input: string, i: nat, e: CodecError)
    requires i < |fields| && |input| == TotalLength(fields) && FirstToFail(fields, input, i, e)
    ensures ParseFields(fields, input) == Err(e)
    decreases i
  {
    FieldParses(input[..2 * fields[0].size], fields[0]);
    assert Part(fields, input, 0) == input[..2 * fields[0].size];
    if i > 0 {
      PartOfRest(fields, input, i);
      forall j, e' | 0 <= j < i - 1 ensures !FailsToParse(Part(fields[1..], input[2 * fields[0].size..], j), fields[1..][j], e') {
        PartOfRest(fields, input, j + 1);
      }
      assert forall e' :: !FailsToParse(Part(fields, input, 0), fields[0], e');
      FirstBadPartDecides(fields[1..], input[2 * fields[0].size..], i - 1, e);
    }
  }

  /** What is parsed: under each key what the last field with that key reads as, and nothing else. */
  ghost predicate ParsesTo(fields: seq<Field>, input: string, request: Request)
    requires |input| == TotalLength(fields)
  {
    && (forall key :: key in request <==> HasKey(fields, key))
    && forall i :: 0 <= i < |fields| && (forall j :: i < j < |fields| ==> fields[j].key != fields[i].key) ==> HoldsPart(fields, input, request, i)
  }

  ghost predicate HoldsPart(fields: seq<Field>, input: string, request: Request, i: nat)
    requires i < |fields| && |input| == TotalLength(fields)
  {
    fields[i].key in request && ReadsAs(Part(fields, input, i), fields[i], request[fields[i].key])
  }

  lemma {:induction false} AllParse(fields: seq<Field>, input: string)
    requires |input| == TotalLength(fields) && forall j, e :: 0 <= j < |fields| ==> !FailsToParse(Part(fields, input, j), fields[j], e)
    ensures ParseFields(fields, input).Ok? && ParsesTo(fields, input, ParseFields(fields, input).value)
    decreases |fields|
  {
    if fields != [] {
      var rest, later := fields[1..], input[2 * fields[0].size..];
      assert Part(fields, input, 0) == input[..2 * fields[0].size];
      FieldParses(input[..2 * fields[0].size], fields[0]);
      assert forall e :: !FailsToParse(Part(fields, input, 0), fields[0], e);
      forall j, e | 0 <= j < |rest| ensures !FailsToParse(Part(rest, later, j), rest[j], e) { PartOfRest(fields, input, j + 1); }
      AllParse(rest, later);
      var request := ParseFields(fields, input).value;
      forall key ensures key in request <==> HasKey(fields, key) { KeyInFrontOrRest(fields, key); }
      forall i: nat | i < |fields| && forall j :: i < j < |fields| ==> fields[j].key != fields[i].key ensures HoldsPart(fields, input, request, i) {
        LastHoldsPart(fields, input, request, i);
      }
    }
  }

  lemma LastHoldsPart(fields: seq<Field>, input: string, request: Request, i: nat)
    requires i < |fields| && |input| == TotalLength(fields) && ParseFields(fields, input) == Ok(request)
    requires forall j :: i < j < |fields| ==> fields[j].key != fields[i].key
    requires |input[2 * fields[0].size..]| == TotalLength(fields[1..]) && ParseFields(fields[1..], input[2 * fields[0].size..]).Ok?
    requires ParsesTo(fields[1..], input[2 * fields[0].size..], ParseFields(fields[1..], input[2 * fields[0].size..]).value)
    ensures HoldsPart(fields, input, request, i)
  {
    var rest, later := fields[1..], input[2 * fields[0].size..];
    assert Part(fields, input, 0) == input[..2 * fields[0].size];
    FieldParses(input[..2 * fields[0].size], fields[0]);
    assert forall j :: 0 <= j < |rest| ==> rest[j] == fields[j + 1];
    if i > 0 {
      PartOfRest(fields, input, i);
      assert HoldsPart(rest, later, ParseFields(rest, later).value, i - 1);
    } else {
      assert !HasKey(rest, fields[0].key);
    }
  }

  ghost predicate FirstToFail(fields: seq<Field>, input: string, i: nat, e: CodecError)
    requires i < |fields| && |input| == TotalLength(fields)
  {
    FailsToParse(Part(fields, input, i), fields[i], e) && forall j, e' :: 0 <= j < i ==> !FailsToParse(Part(fields, input, j), fields[j], e')
  }

  ghost predicate ParsesOrFails(fields: seq<Field>, input: string, r: Result<Request, CodecError>)
    requires |input| == TotalLength(fields)
  {
    && (forall i: nat, e :: i < |fields| && FirstToFail(fields, input, i, e) ==> r == Err(e))
    && ((forall j, e :: 0 <= j < |fields| ==> !FailsToParse(Part(fields, input, j), fields[j], e)) ==> r.Ok? && ParsesTo(fields, input, r.value))
  }

  lemma PartsOutcome(fields: seq<Field>, input: string)
    requires |input| == TotalLength(fields)
    ensures ParsesOrFails(fields, input, ParseFields(fields, input))
  {
    forall i: nat, e | i < |fields| && FirstToFail(fields, input, i, e)
      ensures ParseFields(fields, input) == Err(e)
    {
      FirstBadPartDecides(fields, input, i, e);
    }
    if forall j, e :: 0 <= j < |fields| ==> !FailsToParse(Part(fields, input, j), fields[j], e) { AllParse(fields, input); }
  }

  /**
   Every outcome of parsing: the text has to be there, to have six characters that begin with a number,
   and that number a scheme whose fields have the length of the text behind the prefix; then the first
   field that cannot be read is the error, and if there is none all fields are read.
   */
  lemma ParseOutcome(definitions: seq<Scheme>, bytes: string)
    ensures var r := Parsed(definitions, bytes);
            && (bytes == "" ==> r == Err(EmptyRequest))
            && (0 < |bytes| < 6 ==> r == Err(IncorrectFormat))
            && (|bytes| >= 6 ==>
                  && ((forall n: nat :: !StartsWith(bytes[..6], n)) ==> r == Err(NoType))
                  && forall n: nat :: StartsWith(bytes[..6], n) ==>
                       && ((forall scheme :: !SchemeIs(definitions, n, scheme)) ==> r == Err(UnsupportedType))
                       && forall scheme :: SchemeIs(definitions, n, scheme) ==>
                            if |Behind(bytes)| != TotalLength(Fields(scheme)) then r == Err(IncorrectFormat)
                            else ParsesOrFails(Fields(scheme), Behind(bytes), r))
  {
    if |bytes| >= 6 {
      forall n: nat ensures ParseInt16(bytes[..6]) == Some(n) <==> StartsWith(bytes[..6], n) { NumberAtStart(bytes[..6], n); }
      forall n: nat | StartsWith(bytes[..6], n)
        ensures (forall scheme :: !SchemeIs(definitions, n, scheme)) ==> Parsed(definitions, bytes) == Err(UnsupportedType)
        ensures forall scheme :: SchemeIs(definitions, n, scheme) ==>
                  if |Behind(bytes)| != TotalLength(Fields(scheme)) then Parsed(definitions, bytes) == Err(IncorrectFormat)
                  else ParsesOrFails(Fields(scheme), Behind(bytes), Parsed(definitions, bytes))
      {
        forall scheme ensures Definition(definitions, n) == Some(scheme) <==> SchemeIs(definitions, n, scheme) {
          DefinitionMeans(definitions, n, scheme);
        }
        forall scheme | SchemeIs(definitions, n, scheme) && |Behind(bytes)| == TotalLength(Fields(scheme))
          ensures ParsesOrFails(Fields(scheme), Behind(bytes), Parsed(definitions, bytes))
        {
          PartsOutcome(Fields(scheme), Behind(bytes));
        }
      }
    }
  }

  // ---------- comparing ----------

  /** The number a value stands for: itself, or that of a hex text. */
  ghost predicate StandsFor(v: Value, n: int) {
    match v
    case Num(m) => n == m
    case Bytes(hex) => HexText(Behind(hex)) && n == TextValue(Behind(hex))
  }

  /** What comparing the values under a key gives; numbers are compared as numbers, all else literally. */
  ghost predicate Compares(a: Request, b: Request, f: Field, r: Result<bool, CodecError>) {
    match f.fieldType
    case OtherType => r == Err(WrongType)
    case NumberLike =>
      if f.key in a && f.key in b && (exists n :: StandsFor(a[f.key], n)) && (exists n :: StandsFor(b[f.key], n)) then
        r == Ok(exists n :: StandsFor(a[f.key], n) && StandsFor(b[f.key], n))
      else r == Err(NotANumber)
    case _ => r == Ok(if f.key in a then f.key in b && a[f.key] == b[f.key] else f.key !in b)
  }

  lemma NumberMeans(v: Value, n: int)
    ensures NumberOf(Some(v)) == Some(n) <==> StandsFor(v, n)
  {
    if v.Bytes? {
      TextIsHex(Behind(v.hex));
      if IsHex(Behind(v.hex)) { ValueOfText(Behind(v.hex)); }
    }
  }

  lemma FieldCompares(a: Request, b: Request, f: Field)
    ensures Compares(a, b, f, EqualByScheme(At(a, f.key), At(b, f.key), f.fieldType))
  {
    forall v: Value, n ensures NumberOf(Some(v)) == Some(n) <==> StandsFor(v, n) { NumberMeans(v, n); }
  }

  ghost predicate SameIn(a: Request, b: Request, f: Field) {
    Compares(a, b, f, Ok(true))
  }

  lemma {:induction false} FirstDifferenceDecides(fields: seq<Field>, a: Request, b: Request, i: nat, r: Result<bool, CodecError>)
    requires i < |fields| && Compares(a, b, fields[i], r) && r != Ok(true) && forall j :: 0 <= j < i ==> SameIn(a, b, fields[j])
    ensures EqualFields(fields, a, b) == r
    decreases i
  {
    FieldCompares(a, b, fields[0]);
    if i > 0 {
      assert SameIn(a, b, fields[0]);
      assert forall j :: 0 <= j < |fields[1..]| ==> fields[1..][j] == fields[j + 1];
      FirstDifferenceDecides(fields[1..], a, b, i - 1, r);
    }
  }

  lemma {:induction false} AllSame(fields: seq<Field>, a: Request, b: Request)
    requires forall j :: 0 <= j < |fields| ==> SameIn(a, b, fields[j])
    ensures EqualFields(fields, a, b) == Ok(true)
    decreases |fields|
  {
    if fields != [] {
      FieldCompares(a, b, fields[0]);
      assert SameIn(a, b, fields[0]);
      assert forall j :: 0 <= j < |fields[1..]| ==> fields[1..][j] == fields[j + 1];
      AllSame(fields[1..], a, b);
    }
  }

  ghost predicate ComparesAll(fields: seq<Field>, a: Request, b: Request, r: Result<bool, CodecError>) {
    && (forall i: nat, x :: i < |fields| && Compares(a, b, fields[i], x) && x != Ok(true) && (forall j :: 0 <= j < i ==> SameIn(a, b, fields[j])) ==>
          r == x)
    && ((forall j :: 0 <= j < |fields| ==> SameIn(a, b, fields[j])) ==> r == Ok(true))
  }

  ghost predicate SameType(a: Request, b: Request) {
    if "attestationType" in a then "attestationType" in b && a["attestationType"] == b["attestationType"] else "attestationType" !in b
  }

  /**
   Every outcome of comparing: requests of different types differ, those of a type without a scheme cannot be
   compared, and otherwise the first field that differs, or cannot be compared, decides.
   */
  lemma EqualOutcome(definitions: seq<Scheme>, a: Request, b: Request)
    ensures !SameType(a, b) ==> EqualRequests(definitions, a, b) == Ok(false)
    ensures SameType(a, b) && (forall id, scheme :: NamesType(a, id) ==> !SchemeIs(definitions, id, scheme)) ==>
              EqualRequests(definitions, a, b) == Err(UnsupportedType)
    ensures forall id, scheme :: SameType(a, b) && NamesType(a, id) && SchemeIs(definitions, id, scheme) ==>
              ComparesAll(Fields(scheme), a, b, EqualRequests(definitions, a, b))
  {
    var found := DefinitionFor(definitions, a);
    if found.Some? { DefinitionForMeans(definitions, a, found.value); }
    forall id, scheme | NamesType(a, id) && SchemeIs(definitions, id, scheme)
      ensures found == Some(scheme) && ComparesAll(Fields(scheme), a, b, EqualFields(Fields(scheme), a, b))
    {
      DefinitionForMeans(definitions, a, scheme);
      FieldsCompare(Fields(scheme), a, b);
    }
  }

  lemma FieldsCompare(fields: seq<Field>, a: Request, b: Request)
    ensures ComparesAll(fields, a, b, EqualFields(fields, a, b))
  {
    forall i: nat, x | i < |fields| && Compares(a, b, fields[i], x) && x != Ok(true) && (forall j :: 0 <= j < i ==> SameIn(a, b, fields[j]))
      ensures EqualFields(fields, a, b) == x
    {
      FirstDifferenceDecides(fields, a, b, i, x);
    }
    if forall j :: 0 <= j < |fields| ==> SameIn(a, b, fields[j]) { AllSame(fields, a, b); }
  }

  // ---------- the base fields alone ----------

  /** The characters from `lo` to `hi`, as far as there are any. */
  ghost predicate IsCut(s: string, lo: nat, hi: nat, part: string) {
    |part| == (if |s| <= lo then 0 else if |s| < hi then |s| - lo else hi - lo) && forall i :: 0 <= i < |part| ==> part[i] == s[lo + i]
  }

  lemma CutIs(s: string, lo: nat, hi: nat, part: string)
    requires lo <= hi
    ensures Slice(s, lo, hi) == part <==> IsCut(s, lo, hi, part)
  {}

  /** What the quick reader makes of the three parts; nothing left of the code counts as one zero. */
  ghost predicate QuickReads(first: string, second: string, third: string, r: Option<Base>) {
    if HexText(Behind(first)) && HexText(Behind(second)) then
      r == Some(Base(TextValue(Behind(first)), TextValue(Behind(second)), Bytes(if third == "" then "0" else Behind(third))))
    else r == None
  }

  lemma NumberBehind(text: string)
    requires text != ""
    ensures ReadNumber(Prefix0x(text)) == if HexText(Behind(text)) then Some(TextValue(Behind(text))) else None
  {
    TextIsHex(Behind(text));
    if IsHex(Behind(text)) { ValueOfText(Behind(text)); }
    if !Prefixed(text) { assert ("0x" + text)[2..] == text; }
  }

  /** Every outcome of reading the base fields without a scheme. */
  lemma QuickOutcome(bytes: string, first: string, second: string, third: string)
    requires IsCut(Behind(bytes), 0, 4, first) && IsCut(Behind(bytes), 4, 12, second) && IsCut(Behind(bytes), 12, 76, third)
    ensures if |bytes| < 12 then GetAttestationTypeAndSource(bytes) == None
            else QuickReads(first, second, third, GetAttestationTypeAndSource(bytes))
  {
    if |bytes| >= 12 {
      CutIs(Behind(bytes), 0, 4, first);
      CutIs(Behind(bytes), 4, 12, second);
      CutIs(Behind(bytes), 12, 76, third);
      NumberBehind(first);
      NumberBehind(second);
      if third != "" && !Prefixed(third) { assert ("0x" + third)[2..] == third; }
    }
  }
}
