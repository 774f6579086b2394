/**
 * Where the challenge may stand: which frames carry it, which frames can be sent, and why a request never carries it.
 */
module FrameSecrecy {
  import opened Wrappers
  import opened TokenMarkers
  import opened FrameCodec
  import opened FrameRoundTrip

  lemma {:induction false} HexTextsAreShort(s: string)
    requires forall i :: 0 <= i < |s| ==> IsHexDigit(s[i])
    ensures ByteLength(s) == |s|
  {
    if |s| > 0 {
      HexTextsAreShort(s[1..]);
    }
  }

  lemma TokenShapeLength(s: string)
    requires IsTokenShaped(s)
    ensures |s| == 32
  {
    HexTextsAreShort(s);
  }

  lemma KnownKeysAreClean(k: string)
    requires KnownKey(k)
    ensures !MarkedKey(k)
  {
    if IsTokenShaped(k) {
      TokenShapeLength(k);
    }
  }

  lemma TokenKeyIsMarked()
    ensures MarkedKey(READY_TOKEN)
  {
  }

  /**
   * On the wire a challenge or anything shaped like one appears in exactly the two handshake frames,
   * and there only at the exact key below `params`.
   */
  lemma OnlyHandshakeFramesCarryTokens(tables: Tables, frame: RpcFrame)
    requires ToWire(tables, frame).Ok?
    ensures ContainsMarker(ToWire(tables, frame).value) <==> IsHandshakeFrame(frame.name, frame.params)
    ensures !ContainsMarker(WithoutReadyToken(ToWire(tables, frame).value))
  {
    hide ContainsMarker, Finds, WireFields, WithoutReadyToken, Validate, IsHandshakeFrame, RawRefusal;
    var w := WireFields(frame);
    RawRefusalMeaning(Obj(w), IsHandshakeFrame(frame.name, frame.params));
    if IsHandshakeFrame(frame.name, frame.params) {
      HandshakeFramesAreMarked(tables, frame);
    } else {
      StrippingAddsNothing(w);
    }
  }

  lemma HandshakeFramesAreMarked(tables: Tables, frame: RpcFrame)
    requires Validate(tables, frame).Ok? && IsHandshakeFrame(frame.name, frame.params)
    ensures ContainsMarker(Obj(WireFields(frame)))
  {
    hide MarkedKey, WireFields, Validate, IsHandshakeFrame, ContainsMarker;
    TokenKeyIsMarked();
    WireLookups(frame);
    HandshakeParamsHoldToken(tables, frame);
    MarkerBelow(frame.params.value.fields, READY_TOKEN);
    MarkerBelow(WireFields(frame), "params");
  }

  lemma HandshakeParamsHoldToken(tables: Tables, frame: RpcFrame)
    requires Validate(tables, frame).Ok? && IsHandshakeFrame(frame.name, frame.params)
    ensures frame.params.Some? && frame.params.value.Obj? && READY_TOKEN in frame.params.value.fields
  {
    hide MarkedKey, ErrorRefusal, ValidReadyToken, ContainsMarker, ValidId, ValidName;
  }

  lemma MarkerBelow(fields: Fields, k: string)
    requires k in fields && (MarkedKey(k) || ContainsMarker(fields[k]))
    ensures ContainsMarker(Obj(fields))
  {
  }

  lemma StrippingAddsNothing(w: Fields)
    ensures ContainsMarker(WithoutReadyToken(Obj(w))) ==> ContainsMarker(Obj(w))
  {
    hide MarkedKey;
    WithoutTokenFieldwise(w);
    if ContainsMarker(WithoutReadyToken(Obj(w))) {
      var kept := WithoutReadyToken(Obj(w)).fields;
      var k :| k in kept && (MarkedKey(k) || ContainsMarker(kept[k]));
      if ContainsMarker(kept[k]) && kept[k] != w[k] {
        assert kept[k] == Obj(w[k].fields - {READY_TOKEN});
        var j :| j in kept[k].fields && (MarkedKey(j) || ContainsMarker(kept[k].fields[j]));
        assert j in w[k].fields && w[k].fields[j] == kept[k].fields[j];
      }
    }
  }

  // ---- What can be sent --------------------------------------------------------------------

  /** The message scanner rejects texts that could be a challenge. */
  ghost predicate RejectsTokens(tables: Tables) {
    forall m: string :: IsTokenShaped(m) ==> !tables.safeMessage(m)
  }

  /** What a constructed frame leaves on the wire once the legal token is set aside. */
  lemma EntryOfBuilt(tables: Tables, frame: RpcFrame, k: string)
    requires RejectsTokens(tables) && Validate(tables, frame).Ok? && (frame.name == None ==> frame.params == None)
    requires k in WireFields(frame)
    ensures ContainsMarker(if IsHandshakeFrame(frame.name, frame.params)
            then FieldWithoutToken(k, WireFields(frame)[k]) else WireFields(frame)[k])
            <==> k == "method" && IsTokenShaped(frame.name.value)
  {
    hide Finds, MarkedKey, IsTokenShaped, WireFields, ErrorRefusal, ErrorFields, ValidName;
    WireLookups(frame);
    RootKeysDiffer();
    var w := WireFields(frame);
    if k == "jsonrpc" {
      VersionIsClean();
    } else if k == "id" {
      IdIsClean(frame.id.value);
    } else if k == "params" {
      ParamsAreClean(frame.name.value, frame.params.value);
    } else if k == "result" {
      NullHasNoMarker();
    } else if k == "error" {
      ErrorIsClean(tables, frame.error.value);
    }
  }

  lemma VersionIsClean()
    ensures !ContainsMarker(Str("2.0"))
  {
    if IsTokenShaped("2.0") {
      TokenShapeLength("2.0");
    }
  }

  lemma IdIsClean(id: string)
    requires ValidId(id)
    ensures !ContainsMarker(Str(id))
  {
    assert !IsHexDigit(id[1]);
  }

  lemma ParamsAreClean(name: string, params: Value)
    requires params.Obj? && TokenFieldsRefusal(name, params.fields) == None
    ensures !ContainsMarker(if IsHandshakeFrame(Some(name), Some(params))
            then FieldWithoutToken("params", params) else params)
  {
    hide MarkedKey, ValidReadyToken;
    var fields := params.fields;
    if name == "initialized" {
      assert fields.Keys == {READY_TOKEN} by {
        assert |fields.Keys - {READY_TOKEN}| == 0;
      }
      assert fields - {READY_TOKEN} == map[];
    } else if IsHandshakeFrame(Some(name), Some(params)) {
      var kept := fields - {READY_TOKEN};
      forall k | k in kept
        ensures !(MarkedKey(k) || ContainsMarker(kept[k]))
      {
        assert k in fields && k != READY_TOKEN;
      }
    }
  }

  lemma ErrorIsClean(tables: Tables, error: RpcError)
    requires RejectsTokens(tables) && ErrorRefusal(tables, error) == None && !ContainsMarker(error.data)
    ensures !ContainsMarker(Obj(ErrorFields(error)))
  {
    hide ErrorFields, IsTokenShaped, MarkedKey, ValidJaCode;
    ErrorFieldsAre(error);
    var fields := ErrorFields(error);
    forall k | k in fields
      ensures !(MarkedKey(k) || ContainsMarker(fields[k]))
    {
      ErrorKeysAreClean(k);
    }
  }

  lemma ErrorFieldsAre(error: RpcError)
    ensures ErrorFields(error).Keys == {"code", "message", "data"}
    ensures ErrorFields(error)["code"] == Num(error.code) && ErrorFields(error)["message"] == Str(error.message)
    ensures ErrorFields(error)["data"] == error.data
  {
    ErrorKeysDiffer();
  }

  lemma ErrorKeysAreClean(k: string)
    requires k == "code" || k == "message" || k == "data"
    ensures !MarkedKey(k)
  {
    if IsTokenShaped(k) {
      TokenShapeLength(k);
    }
  }

  lemma BuiltIsChecked(tables: Tables, frame: RpcFrame)
    requires Built(tables, frame)
    ensures Validate(tables, frame).Ok? && (frame.name == None ==> frame.params == None)
  {
    hide Validate;
  }

  /** What is left of the wire object when the legal token is set aside. */
  function Audited(frame: RpcFrame): Fields {
    if !IsHandshakeFrame(frame.name, frame.params)
        then WireFields(frame) else WithoutReadyToken(Obj(WireFields(frame))).fields
  }

  lemma AuditOfChecked(tables: Tables, frame: RpcFrame)
    requires RejectsTokens(tables) && Validate(tables, frame).Ok? && (frame.name == None ==> frame.params == None)
    ensures ContainsMarker(Obj(Audited(frame))) <==> frame.name.Some? && IsTokenShaped(frame.name.value)
  {
    hide MarkedKey, IsTokenShaped, WireFields, Validate, WithoutReadyToken, FieldWithoutToken, IsHandshakeFrame,
         KnownKey, RejectsTokens;
    var w, kept := WireFields(frame), Audited(frame);
    WireLookups(frame);
    WithoutTokenFieldwise(w);
    forall k | k in kept
      ensures !MarkedKey(k) && (ContainsMarker(kept[k]) <==> k == "method" && IsTokenShaped(frame.name.value))
    {
      KnownKeysAreClean(k);
      EntryOfBuilt(tables, frame, k);
    }
    assert frame.name.Some? <==> "method" in kept;
  }

  /**
   * A frame from a constructor is refused by the encoder for one reason only: its method name looks like a challenge.
   */
  lemma BuiltFramesEncodeIff(tables: Tables, frame: RpcFrame)
    requires RejectsTokens(tables) && Built(tables, frame)
    ensures ToWire(tables, frame).Ok? <==> !(frame.name.Some? && IsTokenShaped(frame.name.value))
    ensures ToWire(tables, frame).Ok? ==> DecodeValue(tables, ToWire(tables, frame).value) == Ok(frame)
  {
    hide Finds, ContainsMarker, WireFields, Validate, WithoutReadyToken, IsHandshakeFrame, RawRefusal, DecodeValue,
         Built, WellFormed;
    BuiltIsChecked(tables, frame);
    AuditOfChecked(tables, frame);
    WithoutTokenFieldwise(WireFields(frame));
    RawRefusalMeaning(Obj(WireFields(frame)), IsHandshakeFrame(frame.name, frame.params));
    BuiltIsWellFormed(tables, frame);
    if ToWire(tables, frame).Ok? {
      RoundTripIffWellFormed(tables, frame);
    }
  }

  // ---- Requests ----------------------------------------------------------------------------

  /** `contains_forbidden_ready_token`: a marker, or one of the challenges of this host. */
  predicate ContainsForbidden(v: Value, forbidden: set<string>) {
    || ContainsMarker(v)
    || match v
       case Obj(fields) => exists k :: k in fields && (k in forbidden || ContainsForbidden(fields[k], forbidden))
       case Arr(items) => exists i :: 0 <= i < |items| && ContainsForbidden(items[i], forbidden)
       case Str(text) => text in forbidden
       case _ => false
  }

  datatype Prepared = TokenInPayload | NotBuilt(refusal: Refusal)
      | NotEncoded(refusal: Refusal, resetsInitialized: bool) | Ready(wire: Value)

  /** The part of `request_inner` between the admission checks and the pending registry. */
  function PrepareRequest(tables: Tables, forbidden: set<string>, id: string, name: string, params: Value): Prepared {
    if ContainsForbidden(params, forbidden) then TokenInPayload
    else
      var frame := NewRequest(tables, ClientRequest, id, name, params);
      if frame.Err? then NotBuilt(frame.error)
      else
        var wire := ToWire(tables, frame.value);
        if wire.Err? then NotEncoded(wire.error, name == "initialized") else Ready(wire.value)
  }

  /** An `initialized` request is refused before it is encoded, so its failure branch never resets the one-shot flag. */
  lemma InitializedResetIsUnreachable(tables: Tables, forbidden: set<string>, id: string, name: string, params: Value)
    ensures var p := PrepareRequest(tables, forbidden, id, name, params);
            && (p.NotEncoded? ==> !p.resetsInitialized)
            && (name == "initialized" ==> p.TokenInPayload? || p.NotBuilt?)
            && (p.Ready? ==> !ContainsMarker(p.wire))
  {
    hide MarkedKey, ToWire, ContainsMarker, Validate, IsHandshakeFrame;
    var frame := RpcFrame(Some(id), Some(name), Some(params), Missing, None);
    if NewRequest(tables, ClientRequest, id, name, params) == Ok(frame) && !ContainsMarker(params) {
      PlainRequestIsNoHandshake(tables, frame);
      if ToWire(tables, frame).Ok? {
        OnlyHandshakeFramesCarryTokens(tables, frame);
      }
    }
  }

  lemma PlainRequestIsNoHandshake(tables: Tables, frame: RpcFrame)
    requires Validate(tables, frame).Ok? && frame.params.Some? && !ContainsMarker(frame.params.value)
    ensures !IsHandshakeFrame(frame.name, frame.params) && frame.name != Some("initialized")
  {
    hide MarkedKey, Validate, ContainsMarker, IsReadyFrame;
    if IsHandshakeFrame(frame.name, frame.params) {
      TokenKeyIsMarked();
      HandshakeParamsHoldToken(tables, frame);
      MarkerBelow(frame.params.value.fields, READY_TOKEN);
    }
  }
}
