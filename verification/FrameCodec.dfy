/**
 * The `ja-rpc/v1` envelope of `codec.rs`: building, validating, encoding and decoding one frame.
 * JSON text is a parameter (a parser and a printer of `Value`), and so are the error catalog and the
 * lexical scanner of error messages.
 */
module FrameCodec {
  import opened Wrappers
  import opened TokenMarkers

  datatype Refusal =
    | EmptyFrame | InvalidUtf8 | InvalidJson | DuplicateKey | NonObject
    | InvalidEnvelope | HandshakeFailed | InvalidErrorCatalog | InvalidId

  /** The finite tables of the protocol: which messages are displayable, which classifiers are in the catalog. */
  datatype Tables = Tables(safeMessage: string -> bool, inCatalog: (int, string, bool) -> bool)

  datatype Present = Present(present: bool, value: Option<Value>)

  const Missing := Present(false, None)

  function Given(v: Value): Present { Present(true, Some(v)) }

  datatype RpcError = RpcError(code: int, message: string, data: Value)

  datatype RpcFrame = RpcFrame(
    id: Option<string>,
    name: Option<string>, // the method of a request or notification
    params: Option<Value>,
    result: Present,
    error: Option<RpcError>)

  datatype FrameKind = ClientRequest | ServerRequest | Notification | Response

  type Fields = map<string, Value>

  function Get(fields: Fields, key: string): Option<Value> {
    if key in fields then Some(fields[key]) else None
  }

  function TextAt(fields: Fields, key: string): Option<string> {
    if key in fields && fields[key].Str? then Some(fields[key].text) else None
  }

  // ---- Checks --------------------------------------------------------------------------

  predicate IsAlphanumeric(c: char) { IsDigit(c) || 'a' <= c <= 'z' || 'A' <= c <= 'Z' }

  /** `c:` or `s:`, then 1 to 96 characters of which the first is alphanumeric. */
  predicate ValidId(id: string) {
    && 3 <= |id| <= 98
    && (id[0] == 'c' || id[0] == 's') && id[1] == ':'
    && IsAlphanumeric(id[2])
    && forall i :: 3 <= i < |id| ==> IsAlphanumeric(id[i]) || id[i] == '.' || id[i] == '_' || id[i] == '-'
  }

  const MAX_METHOD_BYTES := 128

  predicate ValidName(name: string) { |name| > 0 && ByteLength(name) <= MAX_METHOD_BYTES }

  predicate ValidMessage(tables: Tables, message: string) {
    |message| > 0 && ByteLength(message) <= 512 && tables.safeMessage(message)
  }

  predicate IsUpper(c: char) { 'A' <= c <= 'Z' }

  predicate ValidJaCode(code: string) {
    && 3 <= |code| <= 64 && IsUpper(code[0])
    && forall i :: 0 < i < |code| ==> IsUpper(code[i]) || IsDigit(code[i]) || code[i] == '_'
  }

  predicate ValidCode(code: int) { -32_768 <= code <= -32_000 }

  predicate HasReadyStatus(params: Option<Value>) {
    params.Some? && params.value.Obj? && TextAt(params.value.fields, "status") == Some("ready")
  }

  /** The two frames that may carry the challenge. */
  predicate IsReadyFrame(name: Option<string>, params: Option<Value>) {
    name == Some("runtime/statusChanged") && HasReadyStatus(params)
  }

  predicate IsHandshakeFrame(name: Option<string>, params: Option<Value>) {
    name == Some("initialized") || IsReadyFrame(name, params)
  }

  predicate HoldsToken(fields: Fields) {
    READY_TOKEN in fields && fields[READY_TOKEN].Str? && ValidReadyToken(fields[READY_TOKEN].text)
  }

  /** `validate_ready_token_fields` on an object. */
  function TokenFieldsRefusal(name: string, fields: Fields): Option<Refusal> {
    if name == "initialized" then
      if |fields| == 1 && HoldsToken(fields) then None else Some(HandshakeFailed)
    else if name == "runtime/statusChanged" && TextAt(fields, "status") == Some("ready") then
      if !HoldsToken(fields) then Some(HandshakeFailed)
      else if exists k :: k in fields && k != READY_TOKEN && (MarkedKey(k) || ContainsMarker(fields[k]))
          then Some(HandshakeFailed)
      else None
    else if ContainsMarker(Obj(fields)) then Some(InvalidEnvelope)
    else None
  }

  function ErrorRefusal(tables: Tables, error: RpcError): Option<Refusal> {
    if !ValidCode(error.code) || !ValidMessage(tables, error.message) then Some(InvalidEnvelope)
    else if !error.data.Obj? then Some(InvalidEnvelope)
    else
      var jaCode, retryable := TextAt(error.data.fields, "jaCode"), Get(error.data.fields, "retryable");
      if jaCode == None || !ValidJaCode(jaCode.value) then Some(InvalidErrorCatalog)
      else if retryable == None || !retryable.value.Bool? then Some(InvalidErrorCatalog)
      else if !tables.inCatalog(error.code, jaCode.value, retryable.value.flag) then Some(InvalidErrorCatalog)
      else None
  }

  function FieldsRefusal(tables: Tables, frame: RpcFrame): Option<Refusal> {
    if frame.id.Some? && !ValidId(frame.id.value) then Some(InvalidId)
    else if frame.name.Some? && !ValidName(frame.name.value) then Some(InvalidEnvelope)
    else if frame.name.Some? && !(frame.params.Some? && frame.params.value.Obj?) then Some(InvalidEnvelope)
    else
      var tokens := if frame.name.Some? then TokenFieldsRefusal(frame.name.value, frame.params.value.fields) else None;
      if tokens.Some? then tokens
      else
        var error := if frame.error.Some? then ErrorRefusal(tables, frame.error.value) else None;
        if error.Some? then error
        else if frame.result.value.Some? && ContainsMarker(frame.result.value.value) then Some(InvalidEnvelope)
        else if frame.error.Some? && ContainsMarker(frame.error.value.data) then Some(InvalidEnvelope)
        else None
  }

  predicate StartsWith(id: string, prefix: string) { prefix <= id }

  /**
   * `validate`: the root is either a response (exactly one of result and error) or a request or notification (neither).
   */
  function Validate(tables: Tables, frame: RpcFrame): Result<FrameKind, Refusal> {
    var refusal := FieldsRefusal(tables, frame);
    if refusal.Some? then Err(refusal.value)
    else if frame.name == None && frame.id.Some? && frame.result.present != frame.error.Some? then
      if StartsWith(frame.id.value, "c:") || StartsWith(frame.id.value, "s:") then Ok(Response) else Err(InvalidId)
    else if frame.name.Some? && !frame.result.present && frame.error == None then
      if frame.id == None then Ok(Notification)
      else if StartsWith(frame.id.value, "c:") then Ok(ClientRequest)
      else if StartsWith(frame.id.value, "s:") then Ok(ServerRequest)
      else Err(InvalidId)
    else Err(InvalidEnvelope)
  }

  // ---- Construction --------------------------------------------------------------------

  function Checked(tables: Tables, frame: RpcFrame): Result<RpcFrame, Refusal> {
    var kind := Validate(tables, frame);
    if kind.Ok? then Ok(frame) else Err(kind.error)
  }

  function NewRequest(tables: Tables, expected: FrameKind, id: string, name: string, params: Value)
    : Result<RpcFrame, Refusal>
  {
    var frame := RpcFrame(Some(id), Some(name), Some(params), Missing, None);
    var kind := Validate(tables, frame);
    if kind.Err? then Err(kind.error) else if kind.value != expected then Err(InvalidId) else Ok(frame)
  }

  function NewNotification(tables: Tables, name: string, params: Value): Result<RpcFrame, Refusal> {
    Checked(tables, RpcFrame(None, Some(name), Some(params), Missing, None))
  }

  function NewResult(tables: Tables, id: string, value: Value): Result<RpcFrame, Refusal> {
    Checked(tables, RpcFrame(Some(id), None, None, Given(value), None))
  }

  function ErrorData(jaCode: string, retryable: bool): Value {
    Obj(map["jaCode" := Str(jaCode), "retryable" := Bool(retryable)])
  }

  function NewError(tables: Tables, id: string, code: int, message: string, jaCode: string, retryable: bool)
    : Result<RpcFrame, Refusal>
  {
    var error := RpcError(code, message, ErrorData(jaCode, retryable));
    Checked(tables, RpcFrame(Some(id), None, None, Missing, Some(error)))
  }

  /** The frames the public constructors hand out. */
  ghost predicate Built(tables: Tables, frame: RpcFrame) {
    || (exists kind, id, name, params :: kind != Response && NewRequest(tables, kind, id, name, params) == Ok(frame))
    || (exists name, params :: NewNotification(tables, name, params) == Ok(frame))
    || (exists id, value :: NewResult(tables, id, value) == Ok(frame))
    || (exists id, code, message, jaCode, retryable ::
          NewError(tables, id, code, message, jaCode, retryable) == Ok(frame))
  }

  // ---- Encoding ------------------------------------------------------------------------

  function Put(fields: Fields, key: string, value: Option<Value>): Fields {
    if value.Some? then fields[key := value.value] else fields
  }

  function TextValue(text: Option<string>): Option<Value> {
    if text.Some? then Some(Str(text.value)) else None
  }

  function ResultValue(result: Present): Option<Value> {
    if !result.present then None else if result.value.Some? then result.value else Some(Null)
  }

  function ErrorFields(error: RpcError): Fields {
    map["code" := Num(error.code), "message" := Str(error.message), "data" := error.data]
  }

  function ErrorValue(error: Option<RpcError>): Option<Value> {
    if error.Some? then Some(Obj(ErrorFields(error.value))) else None
  }

  /** The wire object, field by field in the order of `encode`. */
  function WireFields(frame: RpcFrame): Fields {
    var f := map["jsonrpc" := Str("2.0")];
    var f := Put(f, "id", TextValue(frame.id));
    var f := Put(f, "method", TextValue(frame.name));
    var f := Put(f, "params", frame.params);
    var f := Put(f, "result", ResultValue(frame.result));
    Put(f, "error", ErrorValue(frame.error))
  }

  /** `reject_raw_token_markers`. */
  function RawRefusal(v: Value, allow: bool): Option<Refusal> {
    if Finds(v, [], allow) then Some(if allow then HandshakeFailed else InvalidEnvelope) else None
  }

  function ToWire(tables: Tables, frame: RpcFrame): Result<Value, Refusal> {
    var kind := Validate(tables, frame);
    if kind.Err? then Err(kind.error)
    else
      var refusal := RawRefusal(Obj(WireFields(frame)), IsHandshakeFrame(frame.name, frame.params));
      if refusal.Some? then Err(refusal.value) else Ok(Obj(WireFields(frame)))
  }

  // ---- Decoding ------------------------------------------------------------------------

  predicate KnownKey(k: string) {
    k == "jsonrpc" || k == "id" || k == "method" || k == "params" || k == "result" || k == "error"
  }

  function UnknownRootRefusal(fields: Fields, ready: bool): Option<Refusal> {
    if exists k :: k in fields && !KnownKey(k) && (MarkedKey(k) || ContainsMarker(fields[k]))
    then Some(if ready then HandshakeFailed else InvalidEnvelope)
    else None
  }

  /** `parse_error`: everything but the stable classifier is dropped from the error's data. */
  function ParseError(tables: Tables, fields: Fields): Result<RpcError, Refusal> {
    if !("code" in fields && fields["code"].Num? && ValidCode(fields["code"].number)) then Err(InvalidEnvelope)
    else if !(TextAt(fields, "message").Some? && ValidMessage(tables, fields["message"].text)) then Err(InvalidEnvelope)
    else if !("data" in fields && fields["data"].Obj?) then Err(InvalidEnvelope)
    else
      var jaCode, retryable := TextAt(fields["data"].fields, "jaCode"), Get(fields["data"].fields, "retryable");
      if jaCode == None || !ValidJaCode(jaCode.value) || retryable == None || !retryable.value.Bool?
          then Err(InvalidEnvelope)
      else
        var error := RpcError(fields["code"].number, fields["message"].text,
            ErrorData(jaCode.value, retryable.value.flag));
        var refusal := ErrorRefusal(tables, error);
        if refusal.Some? then Err(refusal.value) else Ok(error)
  }

  function DecodeId(v: Option<Value>): Result<Option<string>, Refusal> {
    if v == None then Ok(None)
    else if v.value.Str? && ValidId(v.value.text) then Ok(Some(v.value.text))
    else Err(InvalidId)
  }

  function DecodeName(v: Option<Value>): Result<Option<string>, Refusal> {
    if v == None then Ok(None)
    else if v.value.Str? && ValidName(v.value.text) then Ok(Some(v.value.text))
    else Err(InvalidEnvelope)
  }

  function DecodeError(tables: Tables, v: Option<Value>): Result<Option<RpcError>, Refusal> {
    if v == None then Ok(None)
    else if !v.value.Obj? then Err(InvalidEnvelope)
    else
      var error := ParseError(tables, v.value.fields);
      if error.Ok? then Ok(Some(error.value)) else Err(error.error)
  }

  function DecodeFields(tables: Tables, fields: Fields): Result<RpcFrame, Refusal> {
    var id, name, params := DecodeId(Get(fields, "id")), DecodeName(Get(fields, "method")), Get(fields, "params");
    if Get(fields, "jsonrpc") != Some(Str("2.0")) then Err(InvalidEnvelope)
    else if id.Err? then Err(id.error)
    else if name.Err? then Err(name.error)
    else if name.value.Some? && !(params.Some? && params.value.Obj?) then Err(InvalidEnvelope)
    else
      var result := if "result" in fields then Given(fields["result"]) else Missing;
      var error := DecodeError(tables, Get(fields, "error"));
      if error.Err? then Err(error.error)
      else Checked(tables, RpcFrame(id.value, name.value, params, result, error.value))
  }

  function DecodeValue(tables: Tables, v: Value): Result<RpcFrame, Refusal> {
    if !v.Obj? then Err(NonObject)
    else
      var name, params := TextAt(v.fields, "method"), Get(v.fields, "params");
      var raw := RawRefusal(v, IsHandshakeFrame(name, params));
      var root := UnknownRootRefusal(v.fields, IsReadyFrame(name, params));
      if raw.Some? then Err(raw.value) else if root.Some? then Err(root.value) else DecodeFields(tables, v.fields)
  }

  // ---- Keys ----------------------------------------------------------------------------

  lemma RootKeysDiffer()
    ensures "jsonrpc" != "id" && "jsonrpc" != "method" && "jsonrpc" != "params" && "jsonrpc" != "result"
            && "jsonrpc" != "error"
    ensures "id" != "method" && "id" != "params" && "id" != "result" && "id" != "error"
    ensures "method" != "params" && "method" != "result" && "method" != "error"
    ensures "params" != "result" && "params" != "error" && "result" != "error"
  {
    assert "method"[0] == 'm' && "params"[0] == 'p' && "result"[0] == 'r';
  }

  lemma ErrorKeysDiffer()
    ensures "code" != "message" && "code" != "data" && "message" != "data" && "jaCode" != "retryable"
  {
    assert "code"[0] == 'c' && "data"[0] == 'd';
  }

  lemma WireLookups(frame: RpcFrame)
    ensures var w := WireFields(frame);
            && Get(w, "jsonrpc") == Some(Str("2.0"))
            && Get(w, "id") == TextValue(frame.id)
            && Get(w, "method") == TextValue(frame.name)
            && Get(w, "params") == frame.params
            && Get(w, "result") == ResultValue(frame.result)
            && Get(w, "error") == ErrorValue(frame.error)
            && (forall k :: k in w ==> KnownKey(k))
  {
    RootKeysDiffer();
  }
}
