/**
 * Which frames are accepted and what kind they are, said by their shape: by the root fields they have, the prefix of
 * their identifier, and where tokens stand in them.
 */
module FrameKinds {
  import opened Wrappers
  import opened TokenMarkers
  import opened FrameCodec
  import opened FrameRoundTrip
  import opened FrameSecrecy
  import opened FrameStream
  import opened FrameReader
  import RequestIds

  // ---- Identifiers -----------------------------------------------------------------------

  predicate FromClient(id: string) { |id| >= 2 && id[0] == 'c' && id[1] == ':' }

  predicate FromServer(id: string) { |id| >= 2 && id[0] == 's' && id[1] == ':' }

  predicate ValidSuffix(suffix: string) {
    && 1 <= |suffix| <= 96
    && IsAlphanumeric(suffix[0])
    && forall i :: 0 <= i < |suffix| ==>
                     IsAlphanumeric(suffix[i]) || suffix[i] == '.' || suffix[i] == '_' || suffix[i] == '-'
  }

  /** The check as the source makes it: split at the first colon, then look at both sides. */
  lemma IdsSplitAtColon(prefix: string, suffix: string)
    requires ':' !in prefix
    ensures ValidId(prefix + ":" + suffix) <==> (prefix == "c" || prefix == "s") && ValidSuffix(suffix)
  {
    var id := prefix + ":" + suffix;
    if |prefix| == 1 {
      assert id[1] == ':';
      assert forall i :: 0 <= i < |suffix| ==> id[i + 2] == suffix[i];
      if ValidId(id) {
        assert prefix == [id[0]];
        forall i | 0 <= i < |suffix|
          ensures IsAlphanumeric(suffix[i]) || suffix[i] == '.' || suffix[i] == '_' || suffix[i] == '-'
        {
          assert suffix[i] == id[i + 2];
        }
      }
    } else if |prefix| > 1 {
      assert id[1] == prefix[1] && prefix[1] in prefix;
    }
  }

  lemma IdsHaveAColon(id: string)
    requires ':' !in id
    ensures !ValidId(id)
  {
    if |id| > 1 {
      assert id[1] in id;
    }
  }

  lemma IdPrefixes(id: string)
    ensures StartsWith(id, "c:") <==> FromClient(id)
    ensures StartsWith(id, "s:") <==> FromServer(id)
  {
  }

  lemma {:induction false} DecimalIsShort(n: nat, k: nat)
    requires n < Power10(k) && k > 0
    ensures |RequestIds.Decimal(n)| <= k
    ensures forall i :: 0 <= i < |RequestIds.Decimal(n)| ==> IsDigit(RequestIds.Decimal(n)[i])
  {
    if n >= 10 {
      DecimalIsShort(n / 10, k - 1);
    }
  }

  function Power10(k: nat): (p: nat)
    ensures p >= 1
  {
    if k == 0 then 1 else 10 * Power10(k - 1)
  }

  lemma TwentyDigits()
    ensures Power10(20) == 100_000_000_000_000_000_000
  {
    assert Power10(5) == 100_000;
    assert Power10(10) == 10_000_000_000;
    assert Power10(15) == 1_000_000_000_000_000;
  }

  /** Every identifier this host can allocate is a valid one of its own namespace. */
  lemma AllocatedIdsAreValid(n: nat)
    requires n <= RequestIds.U64_MAX
    ensures ValidId(RequestIds.RequestId(n)) && FromClient(RequestIds.RequestId(n))
  {
    TwentyDigits();
    DecimalIsShort(n, 20);
    var id, digits := RequestIds.RequestId(n), RequestIds.Decimal(n);
    assert id[0] == 'c' && id[1] == ':' && id[2] == 'r' && id[3] == 'p' && id[4] == 'c' && id[5] == '-';
    assert forall i :: 6 <= i < |id| ==> id[i] == digits[i - 6];
  }

  // ---- Where tokens may stand --------------------------------------------------------------

  /**
   * The rule for the params of a message: the two handshake messages hold the challenge at its key and nothing else
   * that looks like one, `initialized` holds nothing else at all, and every other message is free of markers.
   */
  ghost predicate TokensInPlace(name: string, params: Fields) {
    if name == "initialized" then exists token :: ValidReadyToken(token) && params == map[READY_TOKEN := Str(token)]
    else if IsReadyFrame(Some(name), Some(Obj(params)))
        then HoldsToken(params) && !ContainsMarker(Obj(params - {READY_TOKEN}))
    else !ContainsMarker(Obj(params))
  }

  lemma TokenRule(name: string, params: Fields)
    ensures TokenFieldsRefusal(name, params) == None <==> TokensInPlace(name, params)
  {
    hide MarkedKey, ValidReadyToken;
    if name == "initialized" {
      if |params| == 1 && HoldsToken(params) {
        assert params.Keys == {READY_TOKEN} by {
          assert |params.Keys - {READY_TOKEN}| == 0;
        }
        assert params == map[READY_TOKEN := Str(params[READY_TOKEN].text)];
      }
    } else if IsReadyFrame(Some(name), Some(Obj(params))) {
      var kept := params - {READY_TOKEN};
      assert forall k :: k in kept <==> k in params && k != READY_TOKEN;
      assert forall k :: k in kept ==> kept[k] == params[k];
    }
  }

  /** A challenge is always one of the texts the audit looks for, so it can stand nowhere else. */
  lemma ChallengesAreMarked(token: string)
    requires ValidReadyToken(token)
    ensures |token| == 32 && IsTokenShaped(token) && ContainsMarker(Str(token))
  {
    HexTextsAreShort(token);
  }

  /** The limits on the texts of a frame, and the challenge as the lower-case half of what the audit looks for. */
  lemma TextLimits(tables: Tables, text: string)
    ensures ValidName(text) <==> 1 <= ByteLength(text) <= 128
    ensures ValidMessage(tables, text) <==> 1 <= ByteLength(text) <= 512 && tables.safeMessage(text)
    ensures ValidReadyToken(text) <==> IsTokenShaped(text) && forall i :: 0 <= i < |text| ==> !('A' <= text[i] <= 'F')
    ensures ValidJaCode(text) ==> 3 <= |text| <= 64 && ByteLength(text) == |text| && !IsDigit(text[0])
  {
    if ValidJaCode(text) {
      AsciiLength(text);
    }
  }

  lemma {:induction false} AsciiLength(text: string)
    requires forall i :: 0 <= i < |text| ==> text[i] as int < 0x80
    ensures ByteLength(text) == |text|
  {
    if |text| > 0 {
      AsciiLength(text[1..]);
    }
  }

  // ---- The kind of an accepted frame -----------------------------------------------------------

  /** A response names a request by its identifier and carries exactly one of result and error. */
  predicate ResponseShaped(frame: RpcFrame) {
    frame.name == None && frame.id.Some? && (frame.result.present <==> frame.error == None)
  }

  /** A request or notification has object params and neither result nor error. */
  predicate MessageShaped(frame: RpcFrame) {
    && frame.name.Some? && frame.params.Some? && frame.params.value.Obj?
    && !frame.result.present && frame.error == None
  }

  /** The kind can be read off the root: the name, the identifier and its prefix. */
  lemma KindByShape(tables: Tables, frame: RpcFrame)
    requires Validate(tables, frame).Ok?
    ensures var kind := Validate(tables, frame).value;
            && (kind == Response <==> frame.name == None)
            && (kind == Notification <==> frame.name.Some? && frame.id == None)
            && (kind == ClientRequest <==> frame.name.Some? && frame.id.Some? && FromClient(frame.id.value))
            && (kind == ServerRequest <==> frame.name.Some? && frame.id.Some? && FromServer(frame.id.value))
    ensures ResponseShaped(frame) || MessageShaped(frame)
  {
    hide ErrorRefusal, TokenFieldsRefusal, ContainsMarker, ValidName;
    if frame.id.Some? {
      IdPrefixes(frame.id.value);
    }
  }

  /** What an error of a response has to be: in range, displayable, and classified as the catalog says. */
  predicate ErrorAdmitted(tables: Tables, code: int, message: string, jaCode: string, retryable: bool) {
    -32_768 <= code <= -32_000 && ValidMessage(tables, message) && ValidJaCode(jaCode)
    && tables.inCatalog(code, jaCode, retryable)
  }

  predicate Classifies(data: Value, jaCode: string, retryable: bool) {
    data.Obj? && "jaCode" in data.fields && "retryable" in data.fields
    && data.fields["jaCode"] == Str(jaCode) && data.fields["retryable"] == Bool(retryable)
  }

  ghost predicate GoodError(tables: Tables, error: RpcError) {
    && !ContainsMarker(error.data)
    && exists jaCode, retryable ::
         Classifies(error.data, jaCode, retryable)
         && ErrorAdmitted(tables, error.code, error.message, jaCode, retryable)
  }

  lemma ErrorRule(tables: Tables, error: RpcError)
    ensures ErrorRefusal(tables, error) == None && !ContainsMarker(error.data) <==> GoodError(tables, error)
  {
    hide ValidMessage, ValidJaCode, ContainsMarker;
    if ErrorRefusal(tables, error) == None {
      var f := error.data.fields;
      assert Classifies(error.data, f["jaCode"].text, f["retryable"].flag);
    }
  }

  ghost predicate AcceptedResponse(tables: Tables, frame: RpcFrame) {
    && ResponseShaped(frame) && ValidId(frame.id.value)
    && (frame.result.value.Some? ==> !ContainsMarker(frame.result.value.value))
    && (frame.error.Some? ==> GoodError(tables, frame.error.value))
  }

  ghost predicate AcceptedMessage(frame: RpcFrame) {
    && MessageShaped(frame) && ValidName(frame.name.value)
    && (frame.id.Some? ==> ValidId(frame.id.value))
    && TokensInPlace(frame.name.value, frame.params.value.fields)
    && (frame.result.value.Some? ==> !ContainsMarker(frame.result.value.value))
  }

  /** Exactly which frames are accepted, whoever built them. */
  lemma AcceptedIff(tables: Tables, frame: RpcFrame)
    ensures Validate(tables, frame).Ok? <==> AcceptedResponse(tables, frame) || AcceptedMessage(frame)
  {
    hide ErrorRefusal, TokenFieldsRefusal, ContainsMarker, ValidName, TokensInPlace, GoodError;
    if frame.id.Some? {
      IdPrefixes(frame.id.value);
    }
    if frame.error.Some? {
      ErrorRule(tables, frame.error.value);
    }
    if MessageShaped(frame) {
      TokenRule(frame.name.value, frame.params.value.fields);
    }
  }

  /** The error of a response is one the catalog knows; other data beside the classifier does not matter here. */
  ghost predicate Catalogued(tables: Tables, error: RpcError) {
    exists jaCode, retryable ::
      Classifies(error.data, jaCode, retryable) && ValidJaCode(jaCode)
      && tables.inCatalog(error.code, jaCode, retryable)
  }

  /** The fields a frame has to get right before the place of its tokens is looked at. */
  predicate Named(frame: RpcFrame) {
    && (frame.id.Some? ==> ValidId(frame.id.value))
    && (frame.name.Some? ==> ValidName(frame.name.value) && frame.params.Some? && frame.params.value.Obj?)
  }

  ghost predicate Placed(frame: RpcFrame)
    requires Named(frame)
  {
    frame.name.Some? ==> TokensInPlace(frame.name.value, frame.params.value.fields)
  }

  /**
   * Why a frame is refused: a bad identifier, a challenge missing or out of place in a handshake message, an error
   * outside the catalog, and a bad envelope otherwise.
   */
  lemma RefusalReason(tables: Tables, frame: RpcFrame)
    requires Validate(tables, frame).Err?
    ensures var reason := Validate(tables, frame).error;
            && (reason == InvalidId <==> frame.id.Some? && !ValidId(frame.id.value))
            && (reason == HandshakeFailed <==>
                  Named(frame) && !Placed(frame) && IsHandshakeFrame(frame.name, frame.params))
            && (reason == InvalidErrorCatalog <==>
                  && Named(frame) && Placed(frame) && frame.error.Some?
                  && ValidCode(frame.error.value.code) && ValidMessage(tables, frame.error.value.message)
                  && frame.error.value.data.Obj? && !Catalogued(tables, frame.error.value))
            && (reason == InvalidId || reason == HandshakeFailed || reason == InvalidErrorCatalog
                || reason == InvalidEnvelope)
  {
    hide TokensInPlace, ContainsMarker, ValidMessage, ValidJaCode, ValidName, TokenFieldsRefusal, ErrorRefusal,
         Catalogued;
    if frame.id.Some? {
      IdPrefixes(frame.id.value);
    }
    if Named(frame) && frame.name.Some? {
      TokenRule(frame.name.value, frame.params.value.fields);
      TokenRefusalReason(frame.name.value, frame.params.value.fields);
    }
    if frame.error.Some? {
      ErrorRefusalReason(tables, frame.error.value);
    }
  }

  lemma TokenRefusalReason(name: string, params: Fields)
    ensures var refusal := TokenFieldsRefusal(name, params);
            refusal.Some? ==>
              refusal == Some(if IsHandshakeFrame(Some(name), Some(Obj(params))) then HandshakeFailed
                              else InvalidEnvelope)
  {
    hide ContainsMarker, MarkedKey, HoldsToken;
  }

  lemma ErrorRefusalReason(tables: Tables, error: RpcError)
    ensures ErrorRefusal(tables, error) == None ==> Catalogued(tables, error)
    ensures ErrorRefusal(tables, error) == Some(InvalidErrorCatalog)
            <==> ValidCode(error.code) && ValidMessage(tables, error.message) && error.data.Obj?
                 && !Catalogued(tables, error)
    ensures var refusal := ErrorRefusal(tables, error);
            refusal == None || refusal == Some(InvalidErrorCatalog) || refusal == Some(InvalidEnvelope)
  {
    hide ValidMessage, ValidJaCode;
    if ErrorRefusal(tables, error) == None {
      var f := error.data.fields;
      assert Classifies(error.data, f["jaCode"].text, f["retryable"].flag);
    }
  }

  // ---- What the constructors accept --------------------------------------------------------------

  /** A request can be built exactly in its own namespace, with a valid name and object params that keep the rule. */
  lemma NewRequestIff(tables: Tables, kind: FrameKind, id: string, name: string, params: Value)
    ensures var built := NewRequest(tables, kind, id, name, params);
            && (built.Ok? <==>
                  && ((kind == ClientRequest && FromClient(id)) || (kind == ServerRequest && FromServer(id)))
                  && ValidId(id) && ValidName(name) && params.Obj? && TokensInPlace(name, params.fields))
            && (built.Ok? ==> built.value == RpcFrame(Some(id), Some(name), Some(params), Missing, None))
  {
    hide Validate, ValidName, TokensInPlace, ValidId;
    var frame := RpcFrame(Some(id), Some(name), Some(params), Missing, None);
    AcceptedIff(tables, frame);
    if Validate(tables, frame).Ok? {
      KindByShape(tables, frame);
    }
  }

  lemma NewNotificationIff(tables: Tables, name: string, params: Value)
    ensures var built := NewNotification(tables, name, params);
            && (built.Ok? <==> ValidName(name) && params.Obj? && TokensInPlace(name, params.fields))
            && (built.Ok? ==> built.value == RpcFrame(None, Some(name), Some(params), Missing, None))
  {
    hide Validate, ValidName, TokensInPlace;
    AcceptedIff(tables, RpcFrame(None, Some(name), Some(params), Missing, None));
  }

  lemma NewResultIff(tables: Tables, id: string, value: Value)
    ensures var built := NewResult(tables, id, value);
            && (built.Ok? <==> ValidId(id) && !ContainsMarker(value))
            && (built.Ok? ==> built.value == RpcFrame(Some(id), None, None, Given(value), None))
  {
    hide Validate, ValidId, ContainsMarker;
    AcceptedIff(tables, RpcFrame(Some(id), None, None, Given(value), None));
  }

  lemma ClassifierKeysAreClean()
    ensures !MarkedKey("jaCode") && !MarkedKey("retryable")
  {
    if IsTokenShaped("jaCode") {
      TokenShapeLength("jaCode");
    }
    if IsTokenShaped("retryable") {
      TokenShapeLength("retryable");
    }
  }

  lemma ErrorDataMarker(jaCode: string, retryable: bool)
    ensures ContainsMarker(ErrorData(jaCode, retryable)) <==> IsTokenShaped(jaCode)
  {
    hide MarkedKey, IsTokenShaped;
    ErrorKeysDiffer();
    ClassifierKeysAreClean();
    var f := ErrorData(jaCode, retryable).fields;
    assert f["jaCode"] == Str(jaCode) && f["retryable"] == Bool(retryable);
    assert ContainsMarker(f["jaCode"]) <==> IsTokenShaped(jaCode);
  }

  lemma NewErrorIff(tables: Tables, id: string, code: int, message: string, jaCode: string, retryable: bool)
    ensures var built := NewError(tables, id, code, message, jaCode, retryable);
            && (built.Ok? <==> ValidId(id) && ErrorAdmitted(tables, code, message, jaCode, retryable)
                               && !IsTokenShaped(jaCode))
            && (built.Ok? ==>
                  built.value == RpcFrame(Some(id), None, None, Missing,
                      Some(RpcError(code, message, ErrorData(jaCode, retryable)))))
  {
    hide Validate, ValidId, ContainsMarker, IsTokenShaped, ErrorAdmitted;
    ErrorKeysDiffer();
    var error := RpcError(code, message, ErrorData(jaCode, retryable));
    AcceptedIff(tables, RpcFrame(Some(id), None, None, Missing, Some(error)));
    ErrorDataMarker(jaCode, retryable);
    assert Classifies(error.data, jaCode, retryable);
    assert forall j, r :: Classifies(error.data, j, r) ==> j == jaCode && r == retryable;
  }

  /** Plain params: an object without markers, of a message that is not one of the two handshake messages. */
  predicate Plain(name: string, params: Value) {
    params.Obj? && !ContainsMarker(params) && !IsHandshakeFrame(Some(name), Some(params))
  }

  /**
   * Every ordinary call of this host gets through: whatever identifier the ledger allocates, the request is built as
   * a client request, and unless its name looks like a challenge it is encoded, and the peer reads that same request.
   */
  lemma HostRequestsGetThrough(tables: Tables, n: nat, name: string, params: Value)
    requires n <= RequestIds.U64_MAX && ValidName(name) && Plain(name, params)
    ensures var built := NewRequest(tables, ClientRequest, RequestIds.RequestId(n), name, params);
            && built.Ok?
            && (RejectsTokens(tables) && !IsTokenShaped(name) ==>
                  ToWire(tables, built.value).Ok?
                  && DecodeValue(tables, ToWire(tables, built.value).value) == Ok(built.value))
  {
    hide ToWire, DecodeValue, ContainsMarker, Validate, IsTokenShaped, ValidName, RejectsTokens, ValidId;
    var id := RequestIds.RequestId(n);
    AllocatedIdsAreValid(n);
    hide RequestIds.RequestId;
    NewRequestIff(tables, ClientRequest, id, name, params);
    var frame := NewRequest(tables, ClientRequest, id, name, params).value;
    assert Built(tables, frame) by {
      assert NewRequest(tables, ClientRequest, id, name, params) == Ok(frame);
    }
    if RejectsTokens(tables) {
      BuiltFramesEncodeIff(tables, frame);
    }
  }

  /** The text occurs in the value, as a string or as a key, at any depth. */
  ghost predicate Mentions(v: Value, text: string) {
    match v
    case Obj(fields) => exists k :: k in fields && (k == text || Mentions(fields[k], text))
    case Arr(items) => exists i :: 0 <= i < |items| && Mentions(items[i], text)
    case Str(t) => t == text
    case _ => false
  }

  ghost predicate MentionsAny(v: Value, texts: set<string>) { exists text :: text in texts && Mentions(v, text) }

  lemma {:induction false} ForbiddenIff(v: Value, forbidden: set<string>)
    ensures ContainsForbidden(v, forbidden) <==> ContainsMarker(v) || MentionsAny(v, forbidden)
    decreases v
  {
    hide MarkedKey, IsTokenShaped;
    match v
    case Obj(fields) => ForbiddenInObject(fields, forbidden);
    case Arr(items) => ForbiddenInArray(items, forbidden);
    case _ =>
  }

  lemma {:induction false} ForbiddenInObject(fields: Fields, forbidden: set<string>)
    ensures ContainsForbidden(Obj(fields), forbidden)
            <==> ContainsMarker(Obj(fields)) || MentionsAny(Obj(fields), forbidden)
    decreases Obj(fields), 0
  {
    hide MarkedKey, IsTokenShaped;
    forall k | k in fields
      ensures ContainsForbidden(fields[k], forbidden)
              <==> ContainsMarker(fields[k]) || MentionsAny(fields[k], forbidden)
    {
      ForbiddenIff(fields[k], forbidden);
    }
    if k :| k in fields && (k in forbidden || MentionsAny(fields[k], forbidden)) {
      var text := if k in forbidden then k else var t :| t in forbidden && Mentions(fields[k], t); t;
      assert Mentions(Obj(fields), text);
    }
  }

  lemma {:induction false} ForbiddenInArray(items: seq<Value>, forbidden: set<string>)
    ensures ContainsForbidden(Arr(items), forbidden)
            <==> ContainsMarker(Arr(items)) || MentionsAny(Arr(items), forbidden)
    decreases Arr(items), 0
  {
    forall i | 0 <= i < |items|
      ensures ContainsForbidden(items[i], forbidden) <==> ContainsMarker(items[i]) || MentionsAny(items[i], forbidden)
    {
      ForbiddenIff(items[i], forbidden);
    }
    if i :| 0 <= i < |items| && MentionsAny(items[i], forbidden) {
      var text :| text in forbidden && Mentions(items[i], text);
      assert Mentions(Arr(items), text);
    }
  }

  /**
   * The fate of a call in order: params that look like or mention a challenge are refused first, then what makes no
   * request of this host, then a name that looks like a challenge; everything else is ready to be sent.
   */
  lemma RequestIsPreparedIff(tables: Tables, forbidden: set<string>, id: string, name: string, params: Value)
    requires RejectsTokens(tables)
    ensures var p := PrepareRequest(tables, forbidden, id, name, params);
            var secret := ContainsMarker(params) || MentionsAny(params, forbidden);
            var shaped := ValidId(id) && FromClient(id) && ValidName(name) && Plain(name, params);
            && (p.TokenInPayload? <==> secret)
            && (p.NotBuilt? <==> !secret && !shaped)
            && (p.NotEncoded? <==> !secret && shaped && IsTokenShaped(name))
            && (p.Ready? ==> DecodeValue(tables, p.wire)
                             == Ok(RpcFrame(Some(id), Some(name), Some(params), Missing, None)))
  {
    hide ToWire, DecodeValue, ContainsMarker, Validate, IsTokenShaped, ValidName, RejectsTokens, ValidId, MentionsAny,
         ContainsForbidden, IsHandshakeFrame, TokensInPlace;
    ForbiddenIff(params, forbidden);
    NewRequestIff(tables, ClientRequest, id, name, params);
    var built := NewRequest(tables, ClientRequest, id, name, params);
    if params.Obj? && !ContainsMarker(params) {
      PlainParamsRule(name, params.fields);
    }
    if built.Ok? {
      assert Built(tables, built.value);
      BuiltFramesEncodeIff(tables, built.value);
    }
  }

  // ---- What decoding accepts -----------------------------------------------------------------------

  /** The decoded frame is what its root object says, field by field; of an error's data the classifier remains. */
  lemma DecodedShape(tables: Tables, v: Value, frame: RpcFrame)
    requires DecodeValue(tables, v) == Ok(frame)
    ensures v.Obj? && "jsonrpc" in v.fields && v.fields["jsonrpc"] == Str("2.0")
    ensures if "id" in v.fields then frame.id.Some? && v.fields["id"] == Str(frame.id.value) else frame.id == None
    ensures if "method" in v.fields then frame.name.Some? && v.fields["method"] == Str(frame.name.value)
            else frame.name == None
    ensures if "params" in v.fields then frame.params == Some(v.fields["params"]) else frame.params == None
    ensures frame.result == if "result" in v.fields then Given(v.fields["result"]) else Missing
    ensures frame.error.Some? <==> "error" in v.fields
    ensures frame.error.Some? ==>
              var e, o := frame.error.value, v.fields["error"];
              && o.Obj? && "code" in o.fields && "message" in o.fields && "data" in o.fields
              && o.fields["code"] == Num(e.code) && o.fields["message"] == Str(e.message)
              && o.fields["data"].Obj? && e.data == Classifier(o.fields["data"])
    ensures !ContainsMarker(WithoutReadyToken(v))
    ensures !IsHandshakeFrame(frame.name, frame.params) ==> !ContainsMarker(v)
  {
    hide Validate, ErrorRefusal, Finds, ContainsMarker, WithoutReadyToken, IsReadyFrame;
    DecodedIsUnder(tables, v, frame);
    hide WireFields;
    RawRefusalMeaning(v, IsHandshakeFrame(frame.name, frame.params));
    if !IsHandshakeFrame(frame.name, frame.params) {
      StrippingAddsNothing(v.fields);
    }
  }

  /** A marker in any other place refuses the frame, and a handshake frame with it. */
  lemma MarkersAreRefused(tables: Tables, v: Value)
    requires v.Obj?
    ensures var handshake := IsHandshakeFrame(TextAt(v.fields, "method"), Get(v.fields, "params"));
            ContainsMarker(if handshake then WithoutReadyToken(v) else v) ==>
              DecodeValue(tables, v) == Err(if handshake then HandshakeFailed else InvalidEnvelope)
  {
    hide DecodeFields, Finds, ContainsMarker, WithoutReadyToken, IsHandshakeFrame, IsReadyFrame;
    RawRefusalMeaning(v, IsHandshakeFrame(TextAt(v.fields, "method"), Get(v.fields, "params")));
  }

  predicate TextField(fields: Fields, key: string, text: string) { key in fields && fields[key] == Str(text) }

  /** A request or notification on the wire, by its root fields. */
  ghost predicate WireMessage(fields: Fields) {
    && "method" in fields && fields["method"].Str? && ValidName(fields["method"].text)
    && "params" in fields && fields["params"].Obj?
    && TokensInPlace(fields["method"].text, fields["params"].fields)
    && ("id" in fields ==> fields["id"].Str? && ValidId(fields["id"].text))
    && "result" !in fields && "error" !in fields
  }

  ghost predicate WireError(tables: Tables, v: Value) {
    && v.Obj? && "code" in v.fields && v.fields["code"].Num?
    && "message" in v.fields && v.fields["message"].Str?
    && "data" in v.fields
    && exists jaCode, retryable ::
         Classifies(v.fields["data"], jaCode, retryable)
         && ErrorAdmitted(tables, v.fields["code"].number, v.fields["message"].text, jaCode, retryable)
  }

  /** A response on the wire, by its root fields. */
  ghost predicate WireResponse(tables: Tables, fields: Fields) {
    && "method" !in fields
    && "id" in fields && fields["id"].Str? && ValidId(fields["id"].text)
    && ("result" in fields <==> "error" !in fields)
    && ("error" in fields ==> WireError(tables, fields["error"]))
  }

  lemma WireErrorRule(tables: Tables, fields: Fields)
    ensures ParseError(tables, fields).Ok? <==> WireError(tables, Obj(fields))
  {
    hide ValidMessage, ValidJaCode;
    ErrorKeysDiffer();
    if ParseError(tables, fields).Ok? {
      var f := fields["data"].fields;
      assert Classifies(fields["data"], f["jaCode"].text, f["retryable"].flag);
    }
  }

  /** No marker but the token of a handshake message at its place. */
  predicate CleanElsewhere(fields: Fields) {
    !ContainsMarker(if IsHandshakeFrame(TextAt(fields, "method"), Get(fields, "params"))
                    then WithoutReadyToken(Obj(fields)) else Obj(fields))
  }

  /** Exactly which root objects are accepted; what other fields they have does not matter unless they hold markers. */
  lemma DecodeAcceptsIff(tables: Tables, fields: Fields)
    ensures DecodeValue(tables, Obj(fields)).Ok?
            <==> TextField(fields, "jsonrpc", "2.0") && CleanElsewhere(fields)
                 && (WireMessage(fields) || WireResponse(tables, fields))
  {
    hide Validate, Finds, ContainsMarker, DecodeFields, IsHandshakeFrame, WithoutReadyToken, IsReadyFrame, WireMessage,
         WireResponse;
    RawRefusalMeaning(Obj(fields), IsHandshakeFrame(TextAt(fields, "method"), Get(fields, "params")));
    if CleanElsewhere(fields) {
      CleanFields(fields);
      CleanRootIsKnown(fields, IsReadyFrame(TextAt(fields, "method"), Get(fields, "params")));
      FieldsAcceptedIff(tables, fields);
    }
  }

  lemma CleanFields(fields: Fields)
    requires CleanElsewhere(fields)
    ensures forall k :: k in fields && k != "params" ==> !MarkedKey(k) && !ContainsMarker(fields[k])
  {
    hide MarkedKey, IsHandshakeFrame, WithoutReadyToken;
    WithoutTokenFieldwise(fields);
    var kept := WithoutReadyToken(Obj(fields)).fields;
    assert Obj(kept) == WithoutReadyToken(Obj(fields));
    forall k | k in fields && k != "params"
      ensures !MarkedKey(k) && !ContainsMarker(fields[k])
    {
      assert k in kept && kept[k] == fields[k];
      if MarkedKey(k) || ContainsMarker(fields[k]) {
        MarkerBelow(fields, k);
        MarkerBelow(kept, k);
      }
    }
  }

  lemma CleanRootIsKnown(fields: Fields, ready: bool)
    requires forall k :: k in fields && k != "params" ==> !MarkedKey(k) && !ContainsMarker(fields[k])
    ensures UnknownRootRefusal(fields, ready) == None
  {
    hide MarkedKey, ContainsMarker;
  }

  lemma MarkerFreeField(fields: Fields, k: string)
    requires !ContainsMarker(Obj(fields)) && k in fields
    ensures !ContainsMarker(fields[k])
  {
    hide MarkedKey;
  }

  lemma FieldsAcceptedIff(tables: Tables, fields: Fields)
    requires forall k :: k in fields && k != "params" ==> !ContainsMarker(fields[k])
    ensures DecodeFields(tables, fields).Ok?
            <==> TextField(fields, "jsonrpc", "2.0") && (WireMessage(fields) || WireResponse(tables, fields))
  {
    hide Validate, ContainsMarker, ValidId, ValidName, ParseError, WireError, TokensInPlace;
    var id, name, params := DecodeId(Get(fields, "id")), DecodeName(Get(fields, "method")), Get(fields, "params");
    var error := DecodeError(tables, Get(fields, "error"));
    if "error" in fields && fields["error"].Obj? {
      WireErrorRule(tables, fields["error"].fields);
    }
    if id.Ok? && name.Ok? && error.Ok? {
      var result := if "result" in fields then Given(fields["result"]) else Missing;
      var frame := RpcFrame(id.value, name.value, params, result, error.value);
      DecodedPartsAccepted(tables, fields, frame);
    } else {
      assert "error" in fields && !fields["error"].Obj? ==> !WireError(tables, fields["error"]) by {
        NoErrorObject(tables, fields);
      }
    }
  }

  lemma NoErrorObject(tables: Tables, fields: Fields)
    ensures "error" in fields && !fields["error"].Obj? ==> !WireError(tables, fields["error"])
  {
  }

  /** With its parts decoded, the frame is accepted exactly when the root has one of the two shapes. */
  lemma DecodedPartsAccepted(tables: Tables, fields: Fields, frame: RpcFrame)
    requires forall k :: k in fields && k != "params" ==> !ContainsMarker(fields[k])
    requires DecodeId(Get(fields, "id")) == Ok(frame.id) && DecodeName(Get(fields, "method")) == Ok(frame.name)
    requires frame.params == Get(fields, "params")
    requires frame.result == if "result" in fields then Given(fields["result"]) else Missing
    requires DecodeError(tables, Get(fields, "error")) == Ok(frame.error)
    ensures Validate(tables, frame).Ok? <==> WireMessage(fields) || WireResponse(tables, fields)
  {
    hide Validate, ContainsMarker, ValidId, ValidName, ParseError, WireError, TokensInPlace;
    AcceptedIff(tables, frame);
    RootKeysDiffer();
    if "error" in fields {
      ParsedErrorIsGood(tables, fields["error"].fields, frame.error.value);
    }
  }

  lemma PlainParamsRule(name: string, params: Fields)
    requires !ContainsMarker(Obj(params))
    ensures TokensInPlace(name, params) <==> !IsHandshakeFrame(Some(name), Some(Obj(params)))
  {
    hide MarkedKey, ValidReadyToken;
    TokenKeyIsMarked();
    if READY_TOKEN in params {
      MarkerBelow(params, READY_TOKEN);
    }
  }

  lemma ParsedErrorIsGood(tables: Tables, fields: Fields, error: RpcError)
    requires ParseError(tables, fields) == Ok(error) && !ContainsMarker(Obj(fields))
    ensures GoodError(tables, error) && WireError(tables, Obj(fields))
  {
    hide ContainsMarker, ValidMessage, ValidJaCode;
    WireErrorRule(tables, fields);
    MarkerFreeField(fields, "data");
    var data := fields["data"];
    ClassifierHasNoNewMarker(data);
    assert error.data == Classifier(data);
    ErrorRule(tables, error);
  }

  /** A decoded line is one payload of at most `max` bytes behind which a single LF stands, without CR before it. */
  lemma DecodedLineShape(tables: Tables, text: Text, max: nat, line: seq<Byte>)
    requires DecodeFrame(tables, text, max, line).Ok?
    ensures 2 <= |line| <= max + 1 && line[|line| - 1] == LF && line[|line| - 2] != CR
    ensures forall i :: 0 <= i < |line| - 1 ==> line[i] != LF
    ensures text.parse(line[..|line| - 1]).Ok?
    ensures DecodeValue(tables, text.parse(line[..|line| - 1]).value)
            == Ok(DecodeFrame(tables, text, max, line).value)
  {
    hide DecodeValue;
    var payload := line[..|line| - 1];
    assert payload[|payload| - 1] == line[|line| - 2];
    forall i | 0 <= i < |line| - 1
      ensures line[i] != LF
    {
      assert line[i] == payload[i] && payload[i] in payload;
    }
  }

  /** Why a line is not even parsed: it is empty, unterminated, without payload, too long, or holds a second line. */
  lemma LineRefusals(tables: Tables, text: Text, max: nat, line: seq<Byte>)
    ensures var r := DecodeFrame(tables, text, max, line);
            && (r == Err(UnexpectedEof) <==> line == [])
            && (r == Err(PartialFrame) <==> line != [] && line[|line| - 1] != LF)
            && (line == [LF] ==> r == Err(ReadError.Refused(EmptyFrame)))
            && (r.Err? && r.error.FrameTooLarge? <==> |line| > max + 1 && |line| > 1 && line[|line| - 1] == LF)
            && (r.Err? && r.error.FrameTooLarge? ==> r == Err(FrameTooLarge(|line| - 1, max)))
            && (1 < |line| <= max + 1 && line[|line| - 1] == LF
                && (line[|line| - 2] == CR || exists i :: 0 <= i < |line| - 1 && line[i] == LF)
                ==> r == Err(ReadError.Refused(InvalidEnvelope)))
  {
    hide DecodeValue;
    if |line| > 0 {
      var payload := line[..|line| - 1];
      assert forall i :: 0 <= i < |payload| ==> payload[i] == line[i];
    }
  }
}
