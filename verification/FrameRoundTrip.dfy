/** What encoding and decoding keep: the frame, its kind, its secrecy, and whole streams of frames. */
module FrameRoundTrip {
  import opened Wrappers
  import opened TokenMarkers
  import opened FrameCodec

  // ---- What decoding an encoded frame yields ---------------------------------------------

  function Classifier(data: Value): Value {
    if data.Obj? && TextAt(data.fields, "jaCode").Some? && "retryable" in data.fields && data.fields["retryable"].Bool?
    then ErrorData(data.fields["jaCode"].text, data.fields["retryable"].flag)
    else data
  }

  /** The frame as the other side sees it: an explicit null becomes a value, error data keeps its classifier only. */
  function Canonical(frame: RpcFrame): RpcFrame {
    var result := if frame.result.present then Given(ResultValue(frame.result).value) else Missing;
    var error := if frame.error.Some?
        then Some(frame.error.value.(data := Classifier(frame.error.value.data))) else None;
    frame.(result := result, error := error)
  }

  ghost predicate WellFormed(frame: RpcFrame) {
    && (frame.result == Missing || exists v :: frame.result == Given(v))
    && (frame.error.Some? ==> exists jaCode, retryable :: frame.error.value.data == ErrorData(jaCode, retryable))
  }

  lemma ClassifierHasNoNewMarker(data: Value)
    ensures ContainsMarker(Classifier(data)) ==> ContainsMarker(data)
  {
    hide MarkedKey, IsTokenShaped;
    ErrorKeysDiffer();
    if Classifier(data) != data && ContainsMarker(Classifier(data)) {
      var kept := Classifier(data).fields;
      var k :| k in kept && (MarkedKey(k) || ContainsMarker(kept[k]));
      assert k in data.fields && data.fields[k] == kept[k];
    }
  }

  /** A checked error survives the wire: its object parses to the same code and message and to its classifier. */
  lemma ErrorParses(tables: Tables, error: RpcError)
    requires ErrorRefusal(tables, error) == None
    ensures ParseError(tables, ErrorFields(error)) == Ok(error.(data := Classifier(error.data)))
    ensures ErrorRefusal(tables, error.(data := Classifier(error.data))) == None
  {
    ErrorKeysDiffer();
  }

  lemma CanonicalIsChecked(tables: Tables, frame: RpcFrame)
    requires Validate(tables, frame).Ok?
    ensures Validate(tables, Canonical(frame)) == Validate(tables, frame)
  {
    hide ValidId, ValidName, TokenFieldsRefusal, ErrorRefusal, ContainsMarker, Classifier;
    if frame.error.Some? {
      ErrorParses(tables, frame.error.value);
      ClassifierHasNoNewMarker(frame.error.value.data);
    }
    NullHasNoMarker();
  }

  lemma NullHasNoMarker()
    ensures !ContainsMarker(Null)
  {
  }

  lemma WireHandshake(frame: RpcFrame)
    ensures IsHandshakeFrame(TextAt(WireFields(frame), "method"), Get(WireFields(frame), "params"))
            == IsHandshakeFrame(frame.name, frame.params)
  {
    WireLookups(frame);
  }

  /** Decoding the object that `encode` built gives the canonical frame, with the kind the sender had. */
  lemma WireDecodes(tables: Tables, frame: RpcFrame)
    requires ToWire(tables, frame).Ok?
    ensures DecodeValue(tables, ToWire(tables, frame).value) == Ok(Canonical(frame))
    ensures Validate(tables, Canonical(frame)) == Validate(tables, frame)
  {
    hide ValidId, ValidName, TokenFieldsRefusal, ErrorRefusal, ContainsMarker, Classifier, WireFields, ParseError,
         Finds, IsHandshakeFrame;
    hide IsReadyFrame, MarkedKey, ErrorFields;
    var w := WireFields(frame);
    WireLookups(frame);
    WireHandshake(frame);
    CanonicalIsChecked(tables, frame);
    if frame.error.Some? {
      ErrorParses(tables, frame.error.value);
    }
  }

  /** The round trip is exact for the well-formed frames and for no others. */
  lemma RoundTripIffWellFormed(tables: Tables, frame: RpcFrame)
    requires ToWire(tables, frame).Ok?
    ensures DecodeValue(tables, ToWire(tables, frame).value) == Ok(frame) <==> WellFormed(frame)
  {
    WireDecodes(tables, frame);
    ErrorKeysDiffer();
    var canonical := Canonical(frame);
    if frame.result.present {
      assert canonical.result == Given(ResultValue(frame.result).value);
    }
    if frame.error.Some? {
      assert ErrorRefusal(tables, frame.error.value) == None;
      var data := frame.error.value.data;
      assert Classifier(data) == ErrorData(data.fields["jaCode"].text, data.fields["retryable"].flag);
    }
  }

  lemma BuiltIsWellFormed(tables: Tables, frame: RpcFrame)
    requires Built(tables, frame)
    ensures WellFormed(frame)
  {
    hide Validate;
    if name, params :| NewNotification(tables, name, params) == Ok(frame) {
      assert frame.result == Missing && frame.error == None;
    } else if id, value :| NewResult(tables, id, value) == Ok(frame) {
      assert frame.result == Given(value);
    } else if id, code, message, jaCode, retryable :|
        NewError(tables, id, code, message, jaCode, retryable) == Ok(frame) {
      assert frame.error.value.data == ErrorData(jaCode, retryable);
    }
  }

  lemma DecodedIsWellFormed(tables: Tables, v: Value, frame: RpcFrame)
    requires DecodeValue(tables, v) == Ok(frame)
    ensures WellFormed(frame) && Validate(tables, frame).Ok?
  {
    hide Validate, ErrorRefusal, Finds;
    if "result" in v.fields {
      assert frame.result == Given(v.fields["result"]);
    }
  }

  // ---- A decoded frame can always be sent on ------------------------------------------------

  /** `w` says nothing that `o` does not: fewer keys, and no new marker below any of them. */
  ghost predicate Under(w: Fields, o: Fields) {
    forall k :: k in w ==> k in o && (ContainsMarker(w[k]) ==> ContainsMarker(o[k]))
  }

  lemma UnderHasNoNewMarker(w: Fields, o: Fields)
    requires Under(w, o) && ContainsMarker(Obj(w))
    ensures ContainsMarker(Obj(o))
  {
    hide MarkedKey;
    var k :| k in w && (MarkedKey(k) || ContainsMarker(w[k]));
    assert k in o && (MarkedKey(k) || ContainsMarker(o[k]));
  }

  lemma RawRefusalMeaning(v: Value, allow: bool)
    ensures RawRefusal(v, allow) == None <==> !ContainsMarker(if allow then WithoutReadyToken(v) else v)
  {
    hide Finds, ContainsMarker, WithoutReadyToken;
    ScanOfRoot(v);
  }

  /** The reparsed error object is a part of the one that was received. */
  lemma ParsedErrorIsUnder(tables: Tables, fields: Fields)
    requires ParseError(tables, fields).Ok?
    ensures Under(ErrorFields(ParseError(tables, fields).value), fields)
  {
    hide MarkedKey, IsTokenShaped, ErrorRefusal, ValidMessage, ValidJaCode;
    ErrorKeysDiffer();
    var data := fields["data"];
    assert ParseError(tables, fields).value.data == Classifier(data);
    ClassifierHasNoNewMarker(data);
  }

  lemma DecodedIsUnder(tables: Tables, v: Value, frame: RpcFrame)
    requires DecodeValue(tables, v) == Ok(frame)
    ensures Under(WireFields(frame), v.fields)
    ensures "params" in WireFields(frame) ==> WireFields(frame)["params"] == v.fields["params"]
    ensures IsHandshakeFrame(frame.name, frame.params)
            == IsHandshakeFrame(TextAt(v.fields, "method"), Get(v.fields, "params"))
  {
    hide Validate, ErrorRefusal, Finds, MarkedKey, IsTokenShaped, ValidName, ValidId, ParseError, WireFields,
         ErrorFields, IsReadyFrame;
    WireLookups(frame);
    var w := WireFields(frame);
    if frame.error.Some? {
      ParsedErrorIsUnder(tables, v.fields["error"].fields);
      if ContainsMarker(w["error"]) {
        UnderHasNoNewMarker(ErrorFields(frame.error.value), v.fields["error"].fields);
      }
    }
    forall k | k in w
      ensures k in v.fields && (ContainsMarker(w[k]) ==> ContainsMarker(v.fields[k]))
    {
      assert KnownKey(k);
      assert k != "error" ==> w[k] == v.fields[k];
    }
  }

  /** A frame that was accepted from the wire is never refused on its way out, and comes back the same. */
  lemma DecodedFramesEncode(tables: Tables, v: Value, frame: RpcFrame)
    requires DecodeValue(tables, v) == Ok(frame)
    ensures ToWire(tables, frame).Ok?
    ensures DecodeValue(tables, ToWire(tables, frame).value) == Ok(frame)
  {
    hide Validate, Finds, ContainsMarker, WireFields, DecodeFields, IsHandshakeFrame, IsReadyFrame, UnknownRootRefusal,
         RawRefusal;
    hide WithoutReadyToken, FieldWithoutToken;
    DecodedIsWellFormed(tables, v, frame);
    DecodedIsUnder(tables, v, frame);
    var w, o := WireFields(frame), v.fields;
    var allow := IsHandshakeFrame(frame.name, frame.params);
    RawRefusalMeaning(v, allow);
    RawRefusalMeaning(Obj(w), allow);
    if allow {
      StrippedIsUnder(w, o);
      if ContainsMarker(WithoutReadyToken(Obj(w))) {
        UnderHasNoNewMarker(WithoutReadyToken(Obj(w)).fields, WithoutReadyToken(v).fields);
      }
    } else if ContainsMarker(Obj(w)) {
      UnderHasNoNewMarker(w, o);
    }
    RoundTripIffWellFormed(tables, frame);
  }

  lemma StrippedIsUnder(w: Fields, o: Fields)
    requires Under(w, o) && ("params" in w ==> w["params"] == o["params"])
    ensures WithoutReadyToken(Obj(w)).Obj? && WithoutReadyToken(Obj(o)).Obj?
    ensures Under(WithoutReadyToken(Obj(w)).fields, WithoutReadyToken(Obj(o)).fields)
  {
    hide ContainsMarker;
    WithoutTokenFieldwise(w);
    WithoutTokenFieldwise(o);
  }
}
