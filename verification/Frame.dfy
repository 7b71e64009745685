/** JSON-RPC 2.0 messages, and how they are told apart by shape. */
module Messages {
  import opened Wrappers
  import opened Widths

  datatype Json =
    | JNull
    | JBool(flag: bool)
    | JInt(number: int)
    | JFloat(bits: int)
    | JString(text: string)
    | JArray(items: seq<Json>)
    | JObject(fields: map<string, Json>)

  datatype Id = NullId | NumberId(number: int) | TextId(text: string)

  datatype ErrorObject = ErrorObject(code: int, message: string, data: Option<Json>)

  datatype Request = Request(id: Id, method_: string, params: Option<Json>)

  datatype Response = Response(id: Id, result: Option<Json>, error: Option<ErrorObject>)

  function OkResponse(id: Id, result: Json): Response {
    Response(id, Some(result), None)
  }

  function FailedResponse(id: Id, error: ErrorObject): Response {
    Response(id, None, Some(error))
  }

  /** Either direction's traffic. */
  datatype Incoming = RequestIn(request: Request) | ResponseIn(response: Response)

  /** Ids are unsigned and error codes signed machine words. */
  ghost predicate InRange(m: Incoming) {
    match m
    case RequestIn(r) => IdInRange(r.id)
    case ResponseIn(r) =>
      IdInRange(r.id) && (r.error.Some? ==> -0x8000_0000 <= r.error.value.code < 0x8000_0000)
  }

  ghost predicate IdInRange(id: Id) {
    id.NumberId? ==> 0 <= id.number < 0x1_0000_0000_0000_0000
  }

  predicate CodeInRange(code: int) {
    -0x8000_0000 <= code < 0x8000_0000
  }

  // ---------------------------------------------------------------- to JSON

  function IdToJson(id: Id): Json {
    match id
    case NullId => JNull
    case NumberId(number) => JInt(number)
    case TextId(text) => JString(text)
  }

  function WithField(fields: map<string, Json>, name: string, value: Option<Json>): map<string, Json> {
    match value
    case None => fields
    case Some(json) => fields[name := json]
  }

  function ErrorToJson(e: ErrorObject): Json {
    JObject(WithField(map["code" := JInt(e.code), "message" := JString(e.message)], "data", e.data))
  }

  function ToJson(m: Incoming): Json {
    match m
    case RequestIn(r) =>
      JObject(WithField(map["jsonrpc" := JString("2.0"), "id" := IdToJson(r.id), "method" := JString(r.method_)],
        "params", r.params))
    case ResponseIn(r) =>
      var error := if r.error.Some? then Some(ErrorToJson(r.error.value)) else None;
      JObject(WithField(WithField(map["jsonrpc" := JString("2.0"), "id" := IdToJson(r.id)], "result", r.result),
        "error", error))
  }

  // ---------------------------------------------------------------- from JSON

  datatype Misread = BothShapes | NeitherShape | BadField

  function IdFromJson(value: Json): Option<Id> {
    match value
    case JNull => Some(NullId)
    case JString(text) => Some(TextId(text))
    case JInt(number) => if 0 <= number <= U64_MAX then Some(NumberId(number)) else None
    case _ => None
  }

  /** An optional field: a null in it reads as absent. */
  function Optional(fields: map<string, Json>, name: string): Option<Json> {
    if name in fields && fields[name] != JNull then Some(fields[name]) else None
  }

  function ErrorFromJson(value: Json): Option<ErrorObject> {
    if !value.JObject? || "code" !in value.fields || "message" !in value.fields then None
    else
      var code, message := value.fields["code"], value.fields["message"];
      if !code.JInt? || !CodeInRange(code.number) || !message.JString? then None
      else Some(ErrorObject(code.number, message.text, Optional(value.fields, "data")))
  }

  function Envelope(fields: map<string, Json>): Option<Id> {
    if "jsonrpc" in fields && fields["jsonrpc"] == JString("2.0") && "id" in fields then IdFromJson(fields["id"])
    else None
  }

  function RequestFromJson(fields: map<string, Json>): Option<Request> {
    var id := Envelope(fields);
    if id.None? || "method" !in fields || !fields["method"].JString? then None
    else Some(Request(id.value, fields["method"].text, Optional(fields, "params")))
  }

  function ResponseFromJson(fields: map<string, Json>): Option<Response> {
    var id, error := Envelope(fields), Optional(fields, "error");
    if id.None? then None
    else if error.None? then Some(Response(id.value, Optional(fields, "result"), None))
    else
      var read := ErrorFromJson(error.value);
      if read.None? then None else Some(Response(id.value, Optional(fields, "result"), read))
  }

  predicate Has(value: Json, name: string) {
    value.JObject? && name in value.fields
  }

  /** Shape, not a tag: a request carries `method`, a response `result` or `error`. */
  function FromJson(value: Json): Result<Incoming, Misread> {
    var asks, replies := Has(value, "method"), Has(value, "result") || Has(value, "error");
    if asks && replies then Err(BothShapes)
    else if asks then
      match RequestFromJson(value.fields)
      case None => Err(BadField)
      case Some(request) => Ok(RequestIn(request))
    else if replies then
      match ResponseFromJson(value.fields)
      case None => Err(BadField)
      case Some(response) => Ok(ResponseIn(response))
    else Err(NeitherShape)
  }

  // ---------------------------------------------------------------- what counts as a message

  ghost predicate IsId(json: Json, id: Id) {
    match id
    case NullId => json == JNull
    case NumberId(number) => json == JInt(number) && 0 <= number < 0x1_0000_0000_0000_0000
    case TextId(text) => json == JString(text)
  }

  /** What an optional field holds; a null is as good as no field. */
  ghost predicate Holds(fields: map<string, Json>, name: string, held: Option<Json>) {
    match held
    case None => name in fields ==> fields[name] == JNull
    case Some(json) => json != JNull && name in fields && fields[name] == json
  }

  ghost predicate Stamped(fields: map<string, Json>, id: Id) {
    && "jsonrpc" in fields && fields["jsonrpc"] == JString("2.0")
    && "id" in fields && IsId(fields["id"], id)
  }

  ghost predicate IsError(json: Json, e: ErrorObject) {
    && json.JObject? && "code" in json.fields && json.fields["code"] == JInt(e.code)
    && -0x8000_0000 <= e.code < 0x8000_0000
    && "message" in json.fields && json.fields["message"] == JString(e.message)
    && Holds(json.fields, "data", e.data)
  }

  /** A request by its shape, which has a method, and neither result nor error (JSON-RPC 2.0, section 4). */
  ghost predicate IsRequest(json: Json, r: Request) {
    && json.JObject? && "method" in json.fields && "result" !in json.fields && "error" !in json.fields
    && Stamped(json.fields, r.id) && json.fields["method"] == JString(r.method_)
    && Holds(json.fields, "params", r.params)
  }

  /** A response by its shape, which has a result or an error, and no method (JSON-RPC 2.0, section 5). */
  ghost predicate IsResponse(json: Json, r: Response) {
    && json.JObject? && "method" !in json.fields && ("result" in json.fields || "error" in json.fields)
    && Stamped(json.fields, r.id) && Holds(json.fields, "result", r.result)
    && if r.error.None? then Holds(json.fields, "error", None)
       else "error" in json.fields && IsError(json.fields["error"], r.error.value)
  }

  /** Exactly the two shapes are read, each as what it says; an object with both or neither is refused for that. */
  lemma ReadIff(json: Json)
    ensures forall r :: FromJson(json) == Ok(RequestIn(r)) <==> IsRequest(json, r)
    ensures forall r :: FromJson(json) == Ok(ResponseIn(r)) <==> IsResponse(json, r)
    ensures FromJson(json) == Err(BothShapes) <==>
      json.JObject? && "method" in json.fields && ("result" in json.fields || "error" in json.fields)
    ensures FromJson(json) == Err(NeitherShape) <==>
      !json.JObject? || ("method" !in json.fields && "result" !in json.fields && "error" !in json.fields)
  {
    if json.JObject? {
      EnvelopeIff(json.fields);
      if "error" in json.fields {
        ErrorIff(json.fields["error"]);
      }
      hide Stamped, Envelope, IsError, ErrorFromJson;
    }
  }

  lemma EnvelopeIff(fields: map<string, Json>)
    ensures forall id :: Envelope(fields) == Some(id) <==> Stamped(fields, id)
  {
  }

  lemma ErrorIff(json: Json)
    ensures forall e :: ErrorFromJson(json) == Some(e) <==> IsError(json, e)
    ensures forall e :: IsError(json, e) ==> json != JNull
  {
  }

  // ---------------------------------------------------------------- there and back

  function NotNull(value: Option<Json>): Option<Json> {
    if value == Some(JNull) then None else value
  }

  /** What a message reads back as: an optional field holding null comes back empty. */
  function Normal(m: Incoming): Incoming {
    match m
    case RequestIn(r) => RequestIn(r.(params := NotNull(r.params)))
    case ResponseIn(r) =>
      var error := if r.error.Some? then Some(r.error.value.(data := NotNull(r.error.value.data))) else None;
      ResponseIn(Response(r.id, NotNull(r.result), error))
  }

  /** A response that carries neither result nor error is no message of the protocol. */
  ghost predicate Sendable(m: Incoming) {
    InRange(m) && (m.ResponseIn? ==> m.response.result.Some? || m.response.error.Some?)
  }

  lemma ErrorRoundTrip(e: ErrorObject)
    requires CodeInRange(e.code)
    ensures ErrorFromJson(ErrorToJson(e)) == Some(e.(data := NotNull(e.data)))
  {
  }

  /** Every message in range reads back as itself, exactly when it has one of the two shapes. */
  lemma MessageRoundTrip(m: Incoming)
    requires InRange(m)
    ensures FromJson(ToJson(m)) == Ok(Normal(m)) <==> Sendable(m)
  {
    match m {
      case RequestIn(request) => RequestRoundTrip(request);
      case ResponseIn(response) => ResponseRoundTrip(response);
    }
  }

  lemma RequestRoundTrip(r: Request)
    requires IdInRange(r.id)
    ensures FromJson(ToJson(RequestIn(r))) == Ok(Normal(RequestIn(r)))
  {
  }

  lemma ResponseRoundTrip(r: Response)
    requires InRange(ResponseIn(r))
    ensures FromJson(ToJson(ResponseIn(r))) == Ok(Normal(ResponseIn(r))) <==> r.result.Some? || r.error.Some?
  {
    if r.error.Some? {
      ErrorRoundTrip(r.error.value);
    }
  }

  // ---------------------------------------------------------------- callbacks

  /** The method by which the application asks the host to finish. */
  const SHUTDOWN := "host/shutdown"

  /** Callbacks are named `capability/<name>`. */
  const CAPABILITY_PREFIX := "capability/"

  const REQUEST_FAILED := -32000

  /** A plugin reaching back into the application through a granted capability. */
  datatype CallbackCall = CallbackCall(plugin: string, capability: string, grant: Json, args: seq<Json>)

  function CallToJson(call: CallbackCall): Json {
    JObject(map["plugin" := JString(call.plugin), "capability" := JString(call.capability), "grant" := call.grant,
      "args" := JArray(call.args)])
  }

  /** A callback is read only from an object with all four fields, each of its kind. */
  function CallFromJson(value: Json): (r: Option<CallbackCall>)
    ensures forall call :: r == Some(call) <==>
      && value.JObject? && "plugin" in value.fields && value.fields["plugin"] == JString(call.plugin)
      && "capability" in value.fields && value.fields["capability"] == JString(call.capability)
      && "grant" in value.fields && value.fields["grant"] == call.grant
      && "args" in value.fields && value.fields["args"] == JArray(call.args)
  {
    if !Has(value, "plugin") || !Has(value, "capability") || !Has(value, "grant") || !Has(value, "args") then None
    else
      var fields := value.fields;
      if !fields["plugin"].JString? || !fields["capability"].JString? || !fields["args"].JArray? then None
      else Some(CallbackCall(fields["plugin"].text, fields["capability"].text, fields["grant"], fields["args"].items))
  }
}

/** Newline-delimited framing over a reader that may split the bytes anywhere. */
module Frames {
  import opened Wrappers
  import opened Sequences
  import opened Messages

  /** Largest single frame accepted. */
  const MAX_FRAME_BYTES := 32 * 1024 * 1024

  const NEWLINE := 10

  /** JSON text: rendering and parsing, and what counts as UTF-8 and as blank. */
  datatype Codec = Codec(
    render: Json -> seq<int>, parse: seq<int> -> Option<Json>, utf8: seq<int> -> bool, blank: seq<int> -> bool)
  {
    /** Rendered JSON has no raw newline, is not blank, and parses as itself, newline and all. */
    ghost predicate Lawful() {
      && (forall j :: NEWLINE !in render(j))
      && (forall j :: utf8(Line(render(j))) && !blank(Line(render(j))) && parse(Line(render(j))) == Some(j))
    }
  }

  function Line(text: seq<int>): seq<int> {
    text + [NEWLINE]
  }

  // ---------------------------------------------------------------- streams

  /** How many bytes the first line takes, its newline included. */
  function LineLength(bytes: seq<int>): (n: nat)
    ensures n <= |bytes| && (n == 0 <==> bytes == [])
    ensures NEWLINE !in bytes ==> n == |bytes|
    ensures NEWLINE in bytes ==> n > 0 && bytes[n - 1] == NEWLINE && NEWLINE !in bytes[..n - 1]
  {
    if bytes == [] then 0
    else if bytes[0] == NEWLINE then 1
    else
      var n := LineLength(bytes[1..]);
      assert bytes == [bytes[0]] + bytes[1..];
      assert n > 0 ==> bytes[..n] == [bytes[0]] + bytes[1..][..n - 1];
      n + 1
  }

  lemma {:induction false} LineAcross(a: seq<int>, b: seq<int>)
    ensures NEWLINE in a ==> LineLength(a + b) == LineLength(a)
    ensures NEWLINE !in a ==> LineLength(a + b) == |a| + LineLength(b)
  {
    if a == [] {
      assert a + b == b;
    } else {
      assert (a + b)[1..] == a[1..] + b;
      assert a == [a[0]] + a[1..];
      LineAcross(a[1..], b);
    }
  }

  /** How many of the line's bytes come before its newline. */
  function ContentLength(bytes: seq<int>): nat {
    if NEWLINE in bytes then LineLength(bytes) - 1 else |bytes|
  }

  /** `line` is the first line of `all` and `rest` what follows it. */
  ghost predicate Splits(all: seq<int>, line: seq<int>, rest: seq<int>) {
    all == line + rest && |line| == LineLength(all)
  }

  lemma SplitsHere(out: seq<int>, available: seq<int>, rest: seq<int>)
    requires NEWLINE !in out && NEWLINE in available
    ensures var end := LineLength(available);
      Splits(out + (available + rest), out + available[..end], (available + rest)[end..])
  {
    var end := LineLength(available);
    LineAcross(out, available + rest);
    LineAcross(available, rest);
    hide LineLength;
    Cut(available, rest, end);
    var line, tail := available[..end], (available + rest)[end..];
    assert out + (line + tail) == (out + line) + tail;
  }

  lemma Cut(a: seq<int>, b: seq<int>, n: nat)
    requires n <= |a|
    ensures a + b == a[..n] + (a + b)[n..]
  {
  }

  lemma FlatFirst(chunks: seq<seq<int>>)
    ensures Flat(chunks) == if chunks == [] then [] else chunks[0] + Flat(chunks[1..])
  {
  }

  lemma SplitsAtEnd(out: seq<int>)
    requires NEWLINE !in out
    ensures Splits(out + [], out, [])
  {
    assert out + [] == out;
  }

  lemma NotYet(out: seq<int>, available: seq<int>, rest: seq<int>)
    requires NEWLINE !in out && NEWLINE !in available
    ensures out + (available + rest) == (out + available) + rest && NEWLINE !in out + available
    ensures ContentLength(out + (available + rest)) >= |out + available|
  {
    LineAcross(out + available, rest);
    assert out + (available + rest) == (out + available) + rest;
  }

  datatype IoError = TooLong | Broken | NotUtf8 | NotJson | Misshapen(misread: Misread)

  /** A buffered reader: the buffers still to come, none longer than its capacity, and how they end. */
  class Reader {
    var chunks: seq<seq<int>>
    const capacity: nat
    const breaks: bool

    ghost predicate Valid()
      reads this
    {
      forall i :: 0 <= i < |chunks| ==> 0 < |chunks[i]| <= capacity
    }

    ghost function Bytes(): seq<int>
      reads this
    {
      Flat(chunks)
    }

    constructor (chunks: seq<seq<int>>, capacity: nat, breaks: bool)
      requires forall i :: 0 <= i < |chunks| ==> 0 < |chunks[i]| <= capacity
      ensures Valid() && Bytes() == Flat(chunks) && this.capacity == capacity && this.breaks == breaks
    {
      this.chunks, this.capacity, this.breaks := chunks, capacity, breaks;
    }

    /** The bytes at hand; none at the end of the stream. */
    method FillBuf() returns (r: Result<seq<int>, IoError>)
      requires Valid()
      ensures r.Err? <==> chunks == [] && breaks
      ensures r.Err? ==> r.error == Broken
      ensures r.Ok? ==> r.value == (if chunks == [] then [] else chunks[0])
    {
      if chunks != [] {
        r := Ok(chunks[0]);
      } else if breaks {
        r := Err(Broken);
      } else {
        r := Ok([]);
      }
    }

    method Consume(n: nat)
      requires Valid() && chunks != [] && n <= |chunks[0]|
      modifies this
      ensures Valid() && Bytes() == old(Bytes())[n..]
      ensures |chunks| <= |old(chunks)| && (n == |old(chunks)[0]| ==> chunks == old(chunks)[1..])
    {
      assert Flat(chunks) == chunks[0] + Flat(chunks[1..]);
      if n == |chunks[0]| {
        assert (chunks[0] + Flat(chunks[1..]))[n..] == Flat(chunks[1..]);
        chunks := chunks[1..];
      } else {
        ghost var rest := chunks[1..];
        assert (chunks[0] + Flat(rest))[n..] == chunks[0][n..] + Flat(rest);
        chunks := [chunks[0][n..]] + chunks[1..];
        assert chunks[1..] == rest;
      }
    }

    /**
     * Reads one line's raw bytes. However the bytes are split, a line within the limit is read
     * whole, and nothing longer than the limit and one buffer is ever accepted.
     */
    method ReadLimited() returns (r: Result<seq<int>, IoError>)
      requires Valid()
      modifies this
      ensures Valid() && |Bytes()| <= |old(Bytes())|
      ensures match r
        case Ok(line) => Splits(old(Bytes()), line, Bytes()) && |line| <= MAX_FRAME_BYTES + capacity &&
          (NEWLINE !in old(Bytes()) ==> !breaks)
        case Err(TooLong) => ContentLength(old(Bytes())) > MAX_FRAME_BYTES
        case Err(error) => error == Broken && breaks && NEWLINE !in old(Bytes())
    {
      hide Splits, ContentLength, Flat;
      var out: seq<int> := [];
      ghost var all := Bytes();
      while true
        invariant Valid() && all == out + Bytes() && NEWLINE !in out && |out| <= MAX_FRAME_BYTES
        decreases |chunks|
      {
        FlatFirst(chunks);
        var available := FillBuf();
        if available.Err? {
          return Err(Broken);
        }
        if available.value == [] {
          SplitsAtEnd(out);
          return Ok(out);
        }
        ghost var rest := Flat(chunks[1..]);
        var end := LineLength(available.value);
        if available.value[end - 1] == NEWLINE {
          SplitsHere(out, available.value, rest);
          Consume(end);
          return Ok(out + available.value[..end]);
        }
        NotYet(out, available.value, rest);
        Consume(|available.value|);
        out := out + available.value;
        if |out| > MAX_FRAME_BYTES {
          return Err(TooLong);
        }
      }
    }
  }

  // ---------------------------------------------------------------- reading messages

  /** Decodes one line: `None` for a blank one. */
  function Decode(codec: Codec, line: seq<int>): Result<Option<Incoming>, IoError> {
    if !codec.utf8(line) then Err(NotUtf8)
    else if codec.blank(line) then Ok(None)
    else
      match codec.parse(line)
      case None => Err(NotJson)
      case Some(json) =>
        match FromJson(json)
        case Err(misread) => Err(Misshapen(misread))
        case Ok(message) => Ok(Some(message))
  }

  /** The next message of a byte stream, past any blank lines, and what is left behind it. */
  ghost function Next(codec: Codec, bytes: seq<int>): (Result<Option<Incoming>, IoError>, seq<int>)
    decreases |bytes|
  {
    if bytes == [] then (Ok(None), [])
    else
      var n := LineLength(bytes);
      match Decode(codec, bytes[..n])
      case Ok(None) => Next(codec, bytes[n..])
      case r => (r, bytes[n..])
  }

  /** Every line is within the frame limit of 32 MiB. */
  ghost predicate Fits(bytes: seq<int>)
    decreases |bytes|
  {
    bytes != [] ==> ContentLength(bytes) <= 33_554_432 && Fits(bytes[LineLength(bytes)..])
  }

  lemma NextAfterBlank(codec: Codec, all: seq<int>, line: seq<int>, rest: seq<int>)
    requires Splits(all, line, rest) && line != []
    ensures Decode(codec, line) == Ok(None) ==> Next(codec, all) == Next(codec, rest)
    ensures Decode(codec, line) != Ok(None) ==> Next(codec, all) == (Decode(codec, line), rest)
    ensures Fits(all) ==> Fits(rest)
  {
    assert all[..|line|] == line && all[|line|..] == rest;
  }

  lemma OneLine(text: seq<int>, rest: seq<int>)
    requires NEWLINE !in text
    ensures Splits(text + [10] + rest, text + [10], rest)
  {
    var one: seq<int> := [NEWLINE];
    assert one[..LineLength(one)] == one;
    hide LineLength;
    SplitsHere(text, one, rest);
    hide Splits;
    Cut(one, rest, 1);
    Regrouped(text, one, rest);
  }

  lemma Regrouped(a: seq<int>, b: seq<int>, c: seq<int>)
    ensures a + b + c == a + (b + c) && (b + c)[|b|..] == c
  {
  }

  /** How a stream is read line by line: a blank line counts for nothing, any other is a message or an error. */
  lemma NextLine(codec: Codec, text: seq<int>, rest: seq<int>)
    requires NEWLINE !in text
    ensures var (line, all) := (text + [10], text + [10] + rest);
      && (!codec.utf8(line) ==> Next(codec, all) == (Err(NotUtf8), rest))
      && (codec.utf8(line) && codec.blank(line) ==> Next(codec, all) == Next(codec, rest))
      && (codec.utf8(line) && !codec.blank(line) && codec.parse(line).None? ==>
          Next(codec, all) == (Err(NotJson), rest))
      && (codec.utf8(line) && !codec.blank(line) && codec.parse(line).Some? ==>
          var read := FromJson(codec.parse(line).value);
          Next(codec, all) == (if read.Ok? then Ok(Some(read.value)) else Err(Misshapen(read.error)), rest))
  {
    OneLine(text, rest);
    NextAfterBlank(codec, text + [10] + rest, text + [10], rest);
    hide Next, Splits, FromJson;
  }

  /**
   * Reads one message, or `None` at a clean end of stream. What comes out, and what is left, is
   * a function of the bytes alone, however they are split, unless a line is over the limit.
   */
  method Read(reader: Reader, codec: Codec) returns (r: Result<Option<Incoming>, IoError>)
    requires reader.Valid()
    modifies reader
    ensures reader.Valid()
    ensures r == Err(TooLong) ==> !Fits(old(reader.Bytes()))
    ensures r != Err(TooLong) && !reader.breaks ==> (r, reader.Bytes()) == Next(codec, old(reader.Bytes()))
    ensures |reader.Bytes()| <= |old(reader.Bytes())|
    ensures r.Ok? && r.value.Some? ==> |reader.Bytes()| < |old(reader.Bytes())|
  {
    ghost var all := reader.Bytes();
    while true
      invariant reader.Valid() && Next(codec, all) == Next(codec, reader.Bytes())
      invariant Fits(all) ==> Fits(reader.Bytes())
      invariant |reader.Bytes()| <= |all|
      decreases |reader.Bytes()|
    {
      hide Next, Fits, Decode;
      ghost var before := reader.Bytes();
      var line := reader.ReadLimited();
      if line.Err? {
        LongLineDoesNotFit(before);
        return Err(line.error);
      }
      if line.value == [] {
        NothingLeft(codec, before);
        return Ok(None);
      }
      NextAfterBlank(codec, before, line.value, reader.Bytes());
      var decoded := Decode(codec, line.value);
      if decoded != Ok(None) {
        return decoded;
      }
    }
  }

  lemma LongLineDoesNotFit(bytes: seq<int>)
    ensures ContentLength(bytes) > MAX_FRAME_BYTES ==> !Fits(bytes)
  {
  }

  lemma NothingLeft(codec: Codec, bytes: seq<int>)
    requires LineLength(bytes) == 0
    ensures bytes == [] && Next(codec, bytes) == (Ok(None), [])
  {
  }

  // ---------------------------------------------------------------- writing messages

  class Writer {
    var bytes: seq<int>

    constructor ()
      ensures bytes == []
    {
      bytes := [];
    }

    /** Appends everything, or only a part of it when the pipe breaks. */
    method WriteAll(data: seq<int>, broken: Option<nat>) returns (ok: bool)
      modifies this
      ensures ok <==> broken.None?
      ensures ok ==> bytes == old(bytes) + data
      ensures old(bytes) <= bytes <= old(bytes) + data
    {
      ok := broken.None?;
      var n := if ok || broken.value > |data| then |data| else broken.value;
      bytes := bytes + data[..n];
    }
  }

  ghost function Frame(codec: Codec, m: Incoming): seq<int> {
    Line(codec.render(ToJson(m)))
  }

  predicate Framable(codec: Codec, m: Incoming) {
    |codec.render(ToJson(m))| <= MAX_FRAME_BYTES
  }

  /** Writes one message as a single line; one over the limit is refused before a byte is sent. */
  method Write(writer: Writer, codec: Codec, m: Incoming, broken: Option<nat>) returns (ok: bool)
    modifies writer
    ensures ok <==> |codec.render(ToJson(m))| <= 33_554_432 && broken.None?
    ensures ok ==> writer.bytes == old(writer.bytes) + Frame(codec, m)
    ensures !Framable(codec, m) ==> writer.bytes == old(writer.bytes)
  {
    var line := codec.render(ToJson(m));
    if |line| > MAX_FRAME_BYTES {
      return false;
    }
    ok := writer.WriteAll(Line(line), broken);
  }

  // ---------------------------------------------------------------- there and back

  /** The bytes of a run of messages. */
  ghost function Wire(codec: Codec, ms: seq<Incoming>): seq<int> {
    if ms == [] then [] else Frame(codec, ms[0]) + Wire(codec, ms[1..])
  }

  lemma LengthOfLine(text: seq<int>, tail: seq<int>)
    requires NEWLINE !in text && tail != [] && tail[0] == NEWLINE
    ensures LineLength(text + tail) == |text| + 1 && ContentLength(text + tail) == |text|
  {
    LineAcross(text, tail);
    assert LineLength(tail) == 1;
    assert (text + tail)[|text|] == NEWLINE;
  }

  lemma LineOf(text: seq<int>, rest: seq<int>)
    requires NEWLINE !in text
    ensures Splits(Line(text) + rest, Line(text), rest) && ContentLength(Line(text) + rest) == |text|
  {
    hide LineLength, ContentLength;
    LengthOfLine(text, [NEWLINE] + rest);
    assert Line(text) + rest == text + ([NEWLINE] + rest);
  }

  /** What is written is read back: the first message, and behind it the bytes of the others. */
  lemma NextOfWire(codec: Codec, ms: seq<Incoming>)
    requires codec.Lawful() && forall m <- ms :: Sendable(m)
    ensures Next(codec, Wire(codec, ms)) ==
      if ms == [] then (Ok(None), []) else (Ok(Some(Normal(ms[0]))), Wire(codec, ms[1..]))
  {
    if ms != [] {
      var json := ToJson(ms[0]);
      assert ms[0] in ms;
      MessageRoundTrip(ms[0]);
      LineOf(codec.render(json), Wire(codec, ms[1..]));
      NextAfterBlank(codec, Wire(codec, ms), Frame(codec, ms[0]), Wire(codec, ms[1..]));
    }
  }

  lemma {:induction false} WireFits(codec: Codec, ms: seq<Incoming>)
    requires codec.Lawful() && forall m <- ms :: Framable(codec, m)
    ensures Fits(Wire(codec, ms))
  {
    if ms != [] {
      assert ms[0] in ms;
      LineOf(codec.render(ToJson(ms[0])), Wire(codec, ms[1..]));
      WireFits(codec, ms[1..]);
      var all, rest := Wire(codec, ms), Wire(codec, ms[1..]);
      assert all[LineLength(all)..] == rest;
    }
  }

  function NormalAll(ms: seq<Incoming>): seq<Incoming> {
    seq(|ms|, i requires 0 <= i < |ms| => Normal(ms[i]))
  }

  /** After `k` messages: those read are those written, and the others are still to come. */
  ghost predicate ReadUpTo(codec: Codec, ms: seq<Incoming>, k: nat, bytes: seq<int>, read: seq<Incoming>)
    requires k <= |ms|
  {
    bytes == Wire(codec, ms[k..]) && read == NormalAll(ms[..k])
  }

  lemma ReadOneMore(codec: Codec, ms: seq<Incoming>, k: nat, bytes: seq<int>, read: seq<Incoming>)
    requires codec.Lawful() && (forall m <- ms :: Sendable(m) && Framable(codec, m))
    requires k <= |ms| && ReadUpTo(codec, ms, k, bytes, read)
    ensures Fits(bytes)
    ensures k == |ms| ==> Next(codec, bytes).0 == Ok(None) && read == NormalAll(ms)
    ensures k < |ms| ==>
      Next(codec, bytes).0 == Ok(Some(Normal(ms[k]))) &&
        ReadUpTo(codec, ms, k + 1, Next(codec, bytes).1, read + [Normal(ms[k])])
  {
    hide Next, Fits, Wire, Sendable, Framable, Codec.Lawful, Normal;
    assert forall m <- ms[k..] :: m in ms;
    NextOfWire(codec, ms[k..]);
    WireFits(codec, ms[k..]);
    if k == |ms| {
      assert ms[..k] == ms;
    } else {
      assert ms[k..][0] == ms[k] && ms[k..][1..] == ms[k + 1..];
      assert NormalAll(ms[..k + 1]) == NormalAll(ms[..k]) + [Normal(ms[k])];
    }
  }

  /**
   * A run of messages written and read back through buffers of any sizes is the same run,
   * then a clean end of stream.
   */
  method ReadBack(reader: Reader, codec: Codec, ghost ms: seq<Incoming>)
    returns (read: seq<Incoming>, last: Result<Option<Incoming>, IoError>)
    requires reader.Valid() && !reader.breaks && codec.Lawful()
    requires forall m <- ms :: Sendable(m) && Framable(codec, m)
    requires reader.Bytes() == Wire(codec, ms)
    modifies reader
    ensures read == NormalAll(ms) && last == Ok(None)
  {
    hide Next, Fits, Wire, Sendable, Framable, Codec.Lawful, ReadUpTo, NormalAll;
    read := [];
    ghost var k := 0;
    ReadNothing(codec, ms);
    ReadOneMore(codec, ms, 0, reader.Bytes(), read);
    last := Read(reader, codec);
    while last != Ok(None)
      invariant reader.Valid() && k <= |ms|
      invariant last == (if k == |ms| then Ok(None) else Ok(Some(Normal(ms[k]))))
      invariant k == |ms| ==> read == NormalAll(ms)
      invariant k < |ms| ==> ReadUpTo(codec, ms, k + 1, reader.Bytes(), read + [Normal(ms[k])])
      decreases |ms| - k
    {
      read := read + [last.value.value];
      k := k + 1;
      ReadOneMore(codec, ms, k, reader.Bytes(), read);
      last := Read(reader, codec);
    }
  }

  lemma ReadNothing(codec: Codec, ms: seq<Incoming>)
    ensures ReadUpTo(codec, ms, 0, Wire(codec, ms), [])
  {
    assert ms[0..] == ms;
  }
}
