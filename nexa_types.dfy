/** The shapes the hub's event stream and REST resources decode into,
    shared by the two client packages (nexa.go and nexa/nexa.go, whose
    `Message` structs are field for field the same), and the status check
    every REST call makes before it decodes a body. */
module NexaTypes {
  import opened Results

  /** Go's `int` on a 64-bit target. */
  newtype Int64 = x: int | -0x8000_0000_0000_0000 <= x < 0x8000_0000_0000_0000

  /** An IEEE-754 double, kept as its bit pattern: no float arithmetic is
      modelled. */
  datatype Float64 = Float64(bits: bv64)

  /** A `time.Time` as the RFC 3339 text it was decoded from. */
  datatype Timestamp = Timestamp(rfc3339: string)

  /** The dynamically typed `interface{}` value of an event, as a tagged
      union. */
  datatype Value = Nil | Bool(b: bool) | Float(f: Float64) | Int(i: Int64) | Str(s: string)
  {
    /** BoolValue: the stored bool, or an error naming the value. */
    function BoolValue(): (r: Result<bool, ValueError>)
      ensures r.Ok? <==> this.Bool?
      ensures r.Ok? ==> r.value == this.b
      ensures r.Err? ==> r.error == InvalidValue("bool", this)
    {
      if Bool? then Ok(b) else Err(InvalidValue("bool", this))
    }

    /** FloatValue: the stored float64, or an error naming the value. */
    function FloatValue(): (r: Result<Float64, ValueError>)
      ensures r.Ok? <==> this.Float?
      ensures r.Ok? ==> r.value == this.f
      ensures r.Err? ==> r.error == InvalidValue("float", this)
    {
      if Float? then Ok(f) else Err(InvalidValue("float", this))
    }

    /** IntValue: the stored int, or an error naming the value. */
    function IntValue(): (r: Result<Int64, ValueError>)
      ensures r.Ok? <==> this.Int?
      ensures r.Ok? ==> r.value == this.i
      ensures r.Err? ==> r.error == InvalidValue("int", this)
    {
      if Int? then Ok(i) else Err(InvalidValue("int", this))
    }

    /** StringValue, `fmt.Sprintf("%v", value)`; how a float prints is
        left to `formatFloat`. */
    function StringValue(formatFloat: Float64 -> string): (r: string)
      ensures this.Str? ==> r == this.s
      ensures this.Bool? ==> r == (if this.b then "true" else "false")
      ensures this.Int? ==> ParseInt(r) == Some(this.i as int)
      ensures this.Nil? ==> r == "<nil>"
    {
      match this
      case Nil => "<nil>"
      case Bool(b) => if b then "true" else "false"
      case Float(f) => formatFloat(f)
      case Int(i) => FormatIntRoundTrip(i as int); FormatInt(i as int)
      case Str(s) => s
    }
  }

  /** The error the typed accessors return (`invalid <kind> value: %v`). */
  datatype ValueError = InvalidValue(kind: string, got: Value)

  /** The typed accessors are mutually exclusive: at most one of them
      succeeds on any value, and only when the stored type is exactly the
      one asked for (no coercion between int and float). */
  lemma AccessorsExclusive(v: Value)
    ensures !(v.BoolValue().Ok? && v.FloatValue().Ok?)
    ensures !(v.BoolValue().Ok? && v.IntValue().Ok?)
    ensures !(v.FloatValue().Ok? && v.IntValue().Ok?)
    ensures v.Nil? || v.Str? <==> v.BoolValue().Err? && v.FloatValue().Err? && v.IntValue().Err?
  {
  }

  function DigitChar(d: nat): char
    requires d < 10
  {
    ('0' as nat + d) as char
  }

  /** Decimal digits of a natural number, as `%v` prints it. */
  function FormatNat(n: nat): (r: string)
    ensures |r| >= 1
    ensures forall k :: 0 <= k < |r| ==> '0' <= r[k] <= '9'
  {
    if n < 10 then [DigitChar(n)] else FormatNat(n / 10) + [DigitChar(n % 10)]
  }

  /** Decimal text of an integer, with a leading '-' when negative. */
  function FormatInt(i: int): string {
    if i < 0 then "-" + FormatNat(-i) else FormatNat(i)
  }

  /** Reads a non-empty run of decimal digits. */
  function ParseNat(s: string): Option<nat>
    decreases |s|
  {
    if |s| == 0 then None
    else
      var last := s[|s| - 1];
      if !('0' <= last <= '9') then None
      else if |s| == 1 then Some(last as nat - '0' as nat)
      else match ParseNat(s[..|s| - 1])
        case None => None
        case Some(n) => Some(n * 10 + (last as nat - '0' as nat))
  }

  function ParseInt(s: string): Option<int> {
    if |s| > 0 && s[0] == '-' then
      match ParseNat(s[1..])
      case None => None
      case Some(n) => Some(-(n as int))
    else match ParseNat(s)
      case None => None
      case Some(n) => Some(n)
  }

  lemma {:induction false} FormatNatRoundTrip(n: nat)
    ensures ParseNat(FormatNat(n)) == Some(n)
  {
    if n >= 10 {
      var s := FormatNat(n);
      FormatNatRoundTrip(n / 10);
      assert s[..|s| - 1] == FormatNat(n / 10);
    }
  }

  /** The decimal text of an integer reads back as that integer. */
  lemma FormatIntRoundTrip(i: int)
    ensures ParseInt(FormatInt(i)) == Some(i)
  {
    if i < 0 {
      FormatNatRoundTrip(-i);
      ParseSigned(FormatNat(-i), -i);
    } else {
      FormatNatRoundTrip(i);
      ParseUnsigned(FormatNat(i), i);
    }
  }

  lemma ParseSigned(digits: string, n: nat)
    requires ParseNat(digits) == Some(n)
    ensures ParseInt("-" + digits) == Some(-(n as int))
  {
    var s := "-" + digits;
    assert s[0] == '-' && s[1..] == digits;
  }

  lemma ParseUnsigned(digits: string, n: nat)
    requires |digits| >= 1 && '0' <= digits[0] <= '9'
    requires ParseNat(digits) == Some(n)
    ensures ParseInt(digits) == Some(n)
  {
  }

  /** A decoded hub event (`Message` in both client packages). */
  datatype Message = Message(
    systemType: string,
    subtype: string,
    sourceNode: string,
    capability: string,
    name: string,
    value: Value,
    time: Timestamp,
    event: string,
    nodeId: string)
  {
    /** Message.String: `Name + " "` only when Name is set, then
        `systemType.subtype: value`. */
    function String(formatFloat: Float64 -> string): string
    {
      var s := if name != "" then name + " " else "";
      s + systemType + "." + subtype + ": " + value.StringValue(formatFloat)
    }
  }

  /** The name, when there is one, is the only thing in front of
      `systemType.subtype: value`, and it is followed by one space. */
  lemma MessageStringName(m: Message, formatFloat: Float64 -> string)
    ensures m.String(formatFloat) == NamePrefix(m.name) + m.(name := "").String(formatFloat)
    ensures m.name == "" ==> m.String(formatFloat) == m.systemType + "." + m.subtype + ": " + m.value.StringValue(formatFloat)
    ensures m.name != "" ==> m.String(formatFloat)[..|m.name| + 1] == m.name + " "
  {
  }

  function NamePrefix(name: string): string {
    if name == "" then "" else name + " "
  }

  /** `json.Unmarshal` into a Message, as a parameter; like the library it
      rejects empty input ("unexpected end of JSON input"). */
  type MessageDecoder = decode: string -> Result<Message, string>
    | decode("").Err?
    witness (s: string) => Err("unexpected end of JSON input")

  /** The parts of an HTTP response the client looks at. */
  datatype HttpResponse = HttpResponse(statusCode: int, status: string)

  /** Why a REST call to the hub failed. */
  datatype FetchError =
    | Transport(msg: string)   // the request, the round trip or the body read failed
    | Status(status: string)   // a status other than 200, reported by its status line
    | Decode(msg: string)      // the body was not the expected JSON

  const StatusOK: int := 200

  /** The tail of every REST call: a transport error is passed on, any
      status but 200 is an error before the body is decoded, and only then
      does the decoded body (or its decode error) count. */
  function CheckStatus<T>(resp: Result<HttpResponse, string>, decoded: Result<T, string>): (r: Result<T, FetchError>)
    ensures resp.Err? ==> r == Err(Transport(resp.error))
    ensures resp.Ok? && resp.value.statusCode != StatusOK ==> r == Err(Status(resp.value.status))
    ensures r.Ok? <==> resp.Ok? && resp.value.statusCode == StatusOK && decoded.Ok?
    ensures r.Ok? ==> r.value == decoded.value
    ensures resp.Ok? && resp.value.statusCode == StatusOK && decoded.Err? ==> r == Err(Decode(decoded.error))
  {
    match resp
    case Err(e) => Err(Transport(e))
    case Ok(rsp) =>
      if rsp.statusCode != StatusOK then Err(Status(rsp.status))
      else match decoded
        case Err(e) => Err(Decode(e))
        case Ok(v) => Ok(v)
  }

  /** A non-200 answer is refused whatever its body holds. */
  lemma StatusCheckedBeforeBody<T>(resp: Result<HttpResponse, string>, d1: Result<T, string>, d2: Result<T, string>)
    requires resp.Ok? && resp.value.statusCode != StatusOK
    ensures CheckStatus(resp, d1) == CheckStatus(resp, d2)
    ensures CheckStatus(resp, d1).Err?
  {
  }
}
