/**
 The encoding of attestation requests, driven by the schema of their type
 (`AttestationDefinitionStore.ts`, `attestation-types-utils.ts`).
 */
module Codec {
  import opened Hex
  import opened Wrappers

  /** A number, or the text "0x" followed by `hex`. */
  datatype Value = Num(n: int) | Bytes(hex: string)

  datatype FieldType = AttestationType | NumberLike | SourceId | ByteSequenceLike | OtherType

  datatype Field = Field(key: string, size: nat, fieldType: FieldType)

  datatype Scheme = Scheme(id: int, request: seq<Field>)

  type Request = map<string, Value>

  datatype CodecError =
    | UnsupportedType | MissingKey(key: string) | TooLong(key: string) | Negative | WrongType
    | EmptyRequest | IncorrectFormat | NoType | NotANumber

  const ATTESTATION_TYPE := "attestationType"
  const SOURCE_ID := "sourceId"
  const MESSAGE_INTEGRITY_CODE := "messageIntegrityCode"

  const REQUEST_BASE: seq<Field> := [
    Field(ATTESTATION_TYPE, 2, AttestationType),
    Field(SOURCE_ID, 4, SourceId),
    Field(MESSAGE_INTEGRITY_CODE, 32, ByteSequenceLike)
  ]

  function Definition(definitions: seq<Scheme>, id: int): (r: Option<Scheme>)
    ensures r.Some? ==> r.value in definitions && r.value.id == id
  {
    if definitions == [] then None
    else
      assert definitions == [definitions[0]] + definitions[1..];
      if definitions[0].id == id then Some(definitions[0]) else Definition(definitions[1..], id)
  }

  function Fields(scheme: Scheme): seq<Field> {
    REQUEST_BASE + scheme.request
  }

  function TotalLength(fields: seq<Field>): nat {
    if fields == [] then 0 else 2 * fields[0].size + TotalLength(fields[1..])
  }

  // ---------- single values ----------

  function Zeros(n: nat): (r: string)
    ensures |r| == n
  {
    seq(n, _ => '0')
  }

  function LeftPad(s: string, n: nat): (r: string)
    ensures |r| == if |s| >= n then |s| else n
  {
    if |s| >= n then s else Zeros(n - |s|) + s
  }

  /** The hex digits of a value behind the prefix; there is no such text for a negative number. */
  function HexOf(v: Value): Option<string> {
    match v
    case Num(n) => if n < 0 then None else Some(Text(Numeral(n)))
    case Bytes(hex) => Some(hex)
  }

  function ToUnprefixedBytes(v: Value, field: Field): (r: Result<string, CodecError>)
    ensures r.Ok? ==> |r.value| == 2 * field.size
  {
    if field.fieldType == OtherType then Err(WrongType)
    else
      match HexOf(v)
      case None => Err(Negative)
      case Some(hex) =>
        var bytes := LeftPad(hex, 2 * field.size);
        if |bytes| > 2 * field.size then Err(TooLong(field.key)) else Ok(bytes)
  }

  /** The number the library reads from hex text, with or without a prefix. */
  function ReadNumber(text: string): Option<nat> {
    var digits := if HasPrefix(text) then text[2..] else text;
    if IsHex(digits) then Some(Hex.Value(Parse(digits))) else None
  }

  function FromUnprefixedBytes(bytes: string, field: Field): Result<Value, CodecError> {
    match field.fieldType
    case OtherType => Err(WrongType)
    case ByteSequenceLike => Ok(Bytes(LeftPad(if HasPrefix(bytes) then bytes[2..] else bytes, 2 * field.size)))
    case _ => match ReadNumber(bytes) case None => Err(NotANumber) case Some(n) => Ok(Num(n))
  }

  // ---------- requests ----------

  function EncodeFields(fields: seq<Field>, request: Request): Result<string, CodecError> {
    if fields == [] then Ok("")
    else if fields[0].key !in request then Err(MissingKey(fields[0].key))
    else
      match ToUnprefixedBytes(request[fields[0].key], fields[0])
      case Err(e) => Err(e)
      case Ok(bytes) =>
        match EncodeFields(fields[1..], request)
        case Err(e) => Err(e)
        case Ok(rest) => Ok(bytes + rest)
  }

  /** The definition for the type a request names. */
  function DefinitionFor(definitions: seq<Scheme>, request: Request): Option<Scheme> {
    if ATTESTATION_TYPE !in request || request[ATTESTATION_TYPE].Bytes? then None
    else Definition(definitions, request[ATTESTATION_TYPE].n)
  }

  function Encoded(definitions: seq<Scheme>, request: Request): Result<string, CodecError> {
    match DefinitionFor(definitions, request)
    case None => Err(UnsupportedType)
    case Some(scheme) =>
      match EncodeFields(Fields(scheme), request)
      case Err(e) => Err(e)
      case Ok(bytes) => Ok("0x" + bytes)
  }

  function ParseFields(fields: seq<Field>, input: string): Result<Request, CodecError>
    requires |input| == TotalLength(fields)
  {
    if fields == [] then Ok(map[])
    else
      match FromUnprefixedBytes(input[..2 * fields[0].size], fields[0])
      case Err(e) => Err(e)
      case Ok(v) =>
        match ParseFields(fields[1..], input[2 * fields[0].size..])
        case Err(e) => Err(e)
        case Ok(rest) => Ok(map[fields[0].key := v] + rest)
  }

  /** The scheme for the type in the first two bytes, if the text has the length it asks for. */
  function SchemeOf(definitions: seq<Scheme>, bytes: string): (r: Result<Scheme, CodecError>)
    ensures r.Ok? ==> |UnPrefix0x(bytes)| == TotalLength(Fields(r.value)) && |bytes| >= 6
  {
    if bytes == "" then Err(EmptyRequest)
    else if |bytes| < 6 then Err(IncorrectFormat)
    else
      match ParseInt16(bytes[..6])
      case None => Err(NoType)
      case Some(id) =>
        match Definition(definitions, id)
        case None => Err(UnsupportedType)
        case Some(scheme) => if |UnPrefix0x(bytes)| != TotalLength(Fields(scheme)) then Err(IncorrectFormat) else Ok(scheme)
  }

  function Parsed(definitions: seq<Scheme>, bytes: string): Result<Request, CodecError> {
    match SchemeOf(definitions, bytes)
    case Err(e) => Err(e)
    case Ok(scheme) => ParseFields(Fields(scheme), UnPrefix0x(bytes))
  }

  function NumberOf(v: Option<Value>): Option<int> {
    if v.None? then None else if v.value.Num? then Some(v.value.n) else ReadNumber(v.value.hex)
  }

  function At(request: Request, key: string): Option<Value> {
    if key in request then Some(request[key]) else None
  }

  /** Numbers are compared as numbers, everything else literally; comparing what is not a number throws. */
  function EqualByScheme(a: Option<Value>, b: Option<Value>, fieldType: FieldType): Result<bool, CodecError> {
    match fieldType
    case OtherType => Err(WrongType)
    case NumberLike => if NumberOf(a).None? || NumberOf(b).None? then Err(NotANumber) else Ok(NumberOf(a) == NumberOf(b))
    case _ => Ok(a == b)
  }

  function EqualFields(fields: seq<Field>, a: Request, b: Request): Result<bool, CodecError> {
    if fields == [] then Ok(true)
    else
      var first := EqualByScheme(At(a, fields[0].key), At(b, fields[0].key), fields[0].fieldType);
      if first.Err? || !first.value then first else EqualFields(fields[1..], a, b)
  }

  function EqualRequests(definitions: seq<Scheme>, a: Request, b: Request): Result<bool, CodecError> {
    if At(a, ATTESTATION_TYPE) != At(b, ATTESTATION_TYPE) then Ok(false)
    else
      match DefinitionFor(definitions, a)
      case None => Err(UnsupportedType)
      case Some(scheme) => EqualFields(Fields(scheme), a, b)
  }

  class AttestationDefinitionStore {
    const definitions: seq<Scheme>

    constructor (definitions: seq<Scheme>)
      ensures this.definitions == definitions
    {
      this.definitions := definitions;
    }

    method EncodeRequest(request: Request) returns (r: Result<string, CodecError>)
      ensures r == Encoded(definitions, request)
    {
      var definition := DefinitionFor(definitions, request);
      if definition.None? {
        return Err(UnsupportedType);
      }
      var fields := Fields(definition.value);
      var bytes := "";
      PrependedNothing(EncodeFields(fields, request));
      assert fields[0..] == fields;
      for i := 0 to |fields|
        invariant EncodeFields(fields, request) == Prepended(bytes, EncodeFields(fields[i..], request))
      {
        assert fields[i..][1..] == fields[i + 1..];
        if fields[i].key !in request {
          return Err(MissingKey(fields[i].key));
        }
        var value := ToUnprefixedBytes(request[fields[i].key], fields[i]);
        if value.Err? {
          return Err(value.error);
        }
        PrependedTwice(bytes, value.value, EncodeFields(fields[i + 1..], request));
        bytes := bytes + value.value;
      }
      assert fields[|fields|..] == [];
      assert bytes + "" == bytes;
      return Ok("0x" + bytes);
    }

    method ParseRequest(bytes: string) returns (r: Result<Request, CodecError>)
      ensures r == Parsed(definitions, bytes)
    {
      var scheme := SchemeOf(definitions, bytes);
      if scheme.Err? {
        return Err(scheme.error);
      }
      r := ReadFields(Fields(scheme.value), UnPrefix0x(bytes));
    }

    /** The loop over the fields. */
    method ReadFields(fields: seq<Field>, input: string) returns (r: Result<Request, CodecError>)
      requires |input| == TotalLength(fields)
      ensures r == ParseFields(fields, input)
    {
      var result: Request := map[];
      var start := 0;
      JoinedNothing(ParseFields(fields, input));
      assert fields[0..] == fields && input[0..] == input;
      for i := 0 to |fields|
        invariant 0 <= start <= |input| && |input| - start == TotalLength(fields[i..])
        invariant ParseFields(fields, input) == Joined(result, ParseFields(fields[i..], input[start..]))
      {
        var end := start + 2 * fields[i].size;
        ParseStep(fields, i, input, start);
        var value := FromUnprefixedBytes(input[start..end], fields[i]);
        if value.Err? {
          return Err(value.error);
        }
        JoinedTwice(result, fields[i].key, value.value, ParseFields(fields[i + 1..], input[end..]));
        result := result[fields[i].key := value.value];
        start := end;
      }
      assert fields[|fields|..] == [];
      JoinedEmpty(result);
      return Ok(result);
    }

    method EqualsRequest(a: Request, b: Request) returns (r: Result<bool, CodecError>)
      ensures r == EqualRequests(definitions, a, b)
    {
      if At(a, ATTESTATION_TYPE) != At(b, ATTESTATION_TYPE) {
        return Ok(false);
      }
      var definition := DefinitionFor(definitions, a);
      if definition.None? {
        return Err(UnsupportedType);
      }
      var fields := Fields(definition.value);
      for i := 0 to |fields|
        invariant EqualFields(fields, a, b) == EqualFields(fields[i..], a, b)
      {
        assert fields[i..][1..] == fields[i + 1..];
        var same := EqualByScheme(At(a, fields[i].key), At(b, fields[i].key), fields[i].fieldType);
        if same.Err? || !same.value {
          return same;
        }
      }
      return Ok(true);
    }
  }

  function Prepended(bytes: string, r: Result<string, CodecError>): Result<string, CodecError> {
    if r.Err? then r else Ok(bytes + r.value)
  }

  lemma PrependedNothing(r: Result<string, CodecError>)
    ensures Prepended("", r) == r
  {
    if r.Ok? { assert "" + r.value == r.value; }
  }

  lemma JoinedNothing(r: Result<Request, CodecError>)
    ensures Joined(map[], r) == r
  {
    if r.Ok? { assert map[] + r.value == r.value; }
  }

  lemma JoinedEmpty(m: Request)
    ensures Joined(m, Ok(map[])) == Ok(m)
  {
    assert m + map[] == m;
  }

  /** One field read, and the rest to read. */
  lemma ParseStep(fields: seq<Field>, i: nat, input: string, start: nat)
    requires i < |fields| && start <= |input| && |input| - start == TotalLength(fields[i..])
    ensures start + 2 * fields[i].size <= |input| && |input| - (start + 2 * fields[i].size) == TotalLength(fields[i + 1..])
    ensures var end := start + 2 * fields[i].size;
            var v := FromUnprefixedBytes(input[start..end], fields[i]);
            var rest := ParseFields(fields[i + 1..], input[end..]);
            ParseFields(fields[i..], input[start..]) ==
              if v.Err? then Err(v.error) else if rest.Err? then rest else Ok(map[fields[i].key := v.value] + rest.value)
  {
    var end := start + 2 * fields[i].size;
    assert fields[i..][1..] == fields[i + 1..];
    assert input[start..][..2 * fields[i].size] == input[start..end] && input[start..][2 * fields[i].size..] == input[end..];
  }

  lemma PrependedTwice(a: string, b: string, r: Result<string, CodecError>)
    ensures Prepended(a, Prepended(b, r)) == Prepended(a + b, r)
  {
    if r.Ok? { assert a + (b + r.value) == a + b + r.value; }
  }

  function Joined(m: Request, r: Result<Request, CodecError>): Result<Request, CodecError> {
    if r.Err? then r else Ok(m + r.value)
  }

  lemma JoinedTwice(m: Request, key: string, v: Value, r: Result<Request, CodecError>)
    ensures Joined(m, if r.Err? then r else Ok(map[key := v] + r.value)) == Joined(m[key := v], r)
  {
    if r.Ok? { assert m + (map[key := v] + r.value) == m[key := v] + r.value; }
  }

  // ---------- the type and source alone ----------

  datatype Base = Base(attestationType: nat, sourceId: nat, messageIntegrityCode: Value)

  function Slice(s: string, lo: nat, hi: nat): string
    requires lo <= hi
  {
    if |s| <= lo then "" else if |s| <= hi then s[lo..] else s[lo..hi]
  }

  /** Reads the base fields without a schema; an empty slice is printed as "0x0". */
  function GetAttestationTypeAndSource(bytes: string): Option<Base> {
    var input := UnPrefix0x(bytes);
    if |bytes| < 12 then None
    else
      var attestationType, sourceId := ReadNumber(Prefix0x(Slice(input, 0, 4))), ReadNumber(Prefix0x(Slice(input, 4, 12)));
      if attestationType.None? || sourceId.None? then None
      else Some(Base(attestationType.value, sourceId.value, Bytes(Prefix0x(Slice(input, 12, 76))[2..])))
  }
}
