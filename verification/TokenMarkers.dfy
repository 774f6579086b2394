/**
 * JSON values and the ready-token audit of `codec.rs`: which texts look like a challenge, the scan of a raw
 * frame with its stack of path elements, and what that scan decides.
 */
module TokenMarkers {
  import opened Wrappers
  import RequestIds

  datatype Value =
    | Null
    | Bool(flag: bool)
    | Num(number: int)
    | Frac(digits: string) // any number that is not an integer
    | Str(text: string)
    | Arr(items: seq<Value>)
    | Obj(fields: map<string, Value>)

  const READY_TOKEN := "readyToken"

  // ---- Texts ---------------------------------------------------------------------------

  /** Bytes of a character in UTF-8 (section 3 of RFC 3629). */
  function CharBytes(c: char): nat {
    if c as int < 0x80 then 1 else if c as int < 0x800 then 2 else if c as int < 0x1_0000 then 3 else 4
  }

  function ByteLength(s: string): (n: nat)
    ensures n >= |s|
  {
    if |s| == 0 then 0 else CharBytes(s[0]) + ByteLength(s[1..])
  }

  predicate IsDigit(c: char) { '0' <= c <= '9' }

  predicate IsHexDigit(c: char) { IsDigit(c) || 'a' <= c <= 'f' || 'A' <= c <= 'F' }

  predicate IsTokenShaped(s: string) {
    ByteLength(s) == 32 && forall i :: 0 <= i < |s| ==> IsHexDigit(s[i])
  }

  /** The challenge itself: only the lower-case shape. */
  predicate ValidReadyToken(s: string) {
    ByteLength(s) == 32 && forall i :: 0 <= i < |s| ==> IsDigit(s[i]) || 'a' <= s[i] <= 'f'
  }

  function AsciiLower(c: char): char {
    if 'A' <= c <= 'Z' then c + 32 as char else c
  }

  predicate EqualIgnoringCase(a: string, b: string) {
    |a| == |b| && forall i :: 0 <= i < |a| ==> AsciiLower(a[i]) == AsciiLower(b[i])
  }

  predicate IsReadyTokenKey(key: string) { EqualIgnoringCase(key, READY_TOKEN) }

  predicate MarkedKey(key: string) { IsReadyTokenKey(key) || IsTokenShaped(key) }

  // ---- Markers -------------------------------------------------------------------------

  /** `contains_token_shaped_marker`. */
  predicate ContainsMarker(v: Value) {
    match v
    case Obj(fields) => exists k :: k in fields && (MarkedKey(k) || ContainsMarker(fields[k]))
    case Arr(items) => exists i :: 0 <= i < |items| && ContainsMarker(items[i])
    case Str(text) => IsTokenShaped(text)
    case _ => false
  }

  /** The one place at which a ready token may stand: the exact key directly below the root's `params`. */
  predicate LegalPath(path: seq<string>, allow: bool) {
    allow && |path| == 2 && path[0] == "params" && path[1] == READY_TOKEN
  }

  function IndexElement(i: nat): string { "[" + RequestIds.Decimal(i) + "]" }

  /** What the scan of `v`, reached over `path`, reports. */
  predicate Finds(v: Value, path: seq<string>, allow: bool)
    decreases v
  {
    match v
    case Obj(fields) =>
      exists k :: k in fields && !LegalPath(path + [k], allow) && (MarkedKey(k) || Finds(fields[k], path + [k], allow))
    case Arr(items) => exists i :: 0 <= i < |items| && Finds(items[i], path + [IndexElement(i)], allow)
    case Str(text) => IsTokenShaped(text)
    case _ => false
  }

  /** The recursive scan with its shared path stack, which every return leaves as it was found. */
  class RawScan {
    var path: seq<string>
    const allow: bool

    constructor (allow: bool)
      ensures path == [] && this.allow == allow
    {
      path, this.allow := [], allow;
    }

    method Visit(v: Value) returns (found: bool)
      modifies this
      ensures path == old(path)
      ensures found == Finds(v, path, allow)
      decreases v
    {
      match v
      case Obj(fields) =>
        found := VisitFields(v);
      case Arr(items) =>
        found := false;
        var i := 0;
        while i < |items| && !found
          invariant 0 <= i <= |items| && path == old(path)
          invariant found == exists j :: 0 <= j < i && Finds(items[j], path + [IndexElement(j)], allow)
        {
          path := path + [IndexElement(i)];
          found := Visit(items[i]);
          path := path[..|path| - 1];
          i := i + 1;
        }
      case Str(text) =>
        found := IsTokenShaped(text);
      case _ =>
        found := false;
    }

    method VisitFields(v: Value) returns (found: bool)
      requires v.Obj?
      modifies this
      ensures path == old(path)
      ensures found == Finds(v, path, allow)
      decreases v, 0
    {
      var pending := v.fields.Keys;
      found := false;
      while pending != {} && !found
        invariant path == old(path) && pending <= v.fields.Keys
        invariant found == exists k :: k in v.fields && k !in pending && !LegalPath(path + [k], allow)
                                       && (MarkedKey(k) || Finds(v.fields[k], path + [k], allow))
        decreases pending, !found
      {
        var key :| key in pending;
        pending := pending - {key};
        path := path + [key];
        var legal := LegalPath(path, allow);
        var forbidden := MarkedKey(key) && !legal;
        if !legal && !forbidden {
          forbidden := Visit(v.fields[key]);
        }
        path := path[..|path| - 1];
        found := forbidden;
      }
    }
  }

  // ---- What the scan decides -----------------------------------------------------------

  /** The frame without the token at its legal place. */
  function WithoutReadyToken(v: Value): Value {
    if v.Obj? && "params" in v.fields && v.fields["params"].Obj?
    then Obj(v.fields["params" := Obj(v.fields["params"].fields - {READY_TOKEN})])
    else v
  }

  /** Off the legal path, and everywhere when nothing is allowed, the scan finds exactly the markers. */
  lemma {:induction false} ScanFindsMarkers(v: Value, path: seq<string>, allow: bool)
    requires allow ==> |path| > 1 || (|path| == 1 && path[0] != "params")
    ensures Finds(v, path, allow) <==> ContainsMarker(v)
    decreases v
  {
    match v
    case Obj(fields) =>
      forall k | k in fields
        ensures !LegalPath(path + [k], allow)
        ensures Finds(fields[k], path + [k], allow) <==> ContainsMarker(fields[k])
      {
        assert (path + [k])[0] == if |path| == 0 then k else path[0];
        ScanFindsMarkers(fields[k], path + [k], allow);
      }
    case Arr(items) =>
      forall i | 0 <= i < |items|
        ensures Finds(items[i], path + [IndexElement(i)], allow) <==> ContainsMarker(items[i])
      {
        assert IndexElement(i)[0] == '[' && "params"[0] == 'p';
        ScanFindsMarkers(items[i], path + [IndexElement(i)], allow);
      }
    case _ =>
  }

  /** Below `params` only the exact key is skipped. */
  lemma ScanOfParams(params: Value)
    requires params.Obj?
    ensures Finds(params, ["params"], true) <==> ContainsMarker(Obj(params.fields - {READY_TOKEN}))
  {
    var fields := params.fields;
    forall k | k in fields && k != READY_TOKEN
      ensures !LegalPath(["params"] + [k], true)
      ensures Finds(fields[k], ["params"] + [k], true) <==> ContainsMarker(fields[k])
    {
      assert (["params"] + [k])[1] == k;
      ScanFindsMarkers(fields[k], ["params"] + [k], true);
    }
    assert LegalPath(["params"] + [READY_TOKEN], true);
    var kept := fields - {READY_TOKEN};
    forall k | k in fields && k != READY_TOKEN
      ensures k in kept && kept[k] == fields[k]
    {
    }
  }

  function FieldWithoutToken(key: string, child: Value): Value {
    if key == "params" && child.Obj? then Obj(child.fields - {READY_TOKEN}) else child
  }

  /** A `params` that is no object has no legal place for a token. */
  lemma ScanOffObject(v: Value, path: seq<string>)
    requires !v.Obj? && |path| == 1
    ensures Finds(v, path, true) <==> ContainsMarker(v)
  {
    if v.Arr? {
      forall i | 0 <= i < |v.items|
        ensures Finds(v.items[i], path + [IndexElement(i)], true) <==> ContainsMarker(v.items[i])
      {
        ScanFindsMarkers(v.items[i], path + [IndexElement(i)], true);
      }
    }
  }

  lemma ScanOfRootField(key: string, child: Value)
    ensures !LegalPath([] + [key], true)
    ensures Finds(child, [] + [key], true) <==> ContainsMarker(FieldWithoutToken(key, child))
  {
    assert [] + [key] == [key];
    if key != "params" {
      ScanFindsMarkers(child, [key], true);
    } else if child.Obj? {
      ScanOfParams(child);
    } else {
      ScanOffObject(child, [key]);
    }
  }

  lemma WithoutTokenFieldwise(fields: map<string, Value>)
    ensures WithoutReadyToken(Obj(fields)).Obj?
    ensures WithoutReadyToken(Obj(fields)).fields.Keys == fields.Keys
    ensures forall k :: k in fields ==> WithoutReadyToken(Obj(fields)).fields[k] == FieldWithoutToken(k, fields[k])
  {
  }

  lemma ScanOfRootObject(fields: map<string, Value>)
    ensures Finds(Obj(fields), [], true) <==> ContainsMarker(WithoutReadyToken(Obj(fields)))
  {
    hide LegalPath, MarkedKey, FieldWithoutToken, WithoutReadyToken;
    WithoutTokenFieldwise(fields);
    var kept := WithoutReadyToken(Obj(fields)).fields;
    forall k | k in fields
      ensures !LegalPath([] + [k], true)
      ensures Finds(fields[k], [] + [k], true) <==> ContainsMarker(kept[k])
    {
      ScanOfRootField(k, fields[k]);
    }
    assert WithoutReadyToken(Obj(fields)) == Obj(kept);
  }

  /** Allowing the handshake path is forgetting the token there and allowing nothing. */
  lemma ScanOfRoot(v: Value)
    ensures Finds(v, [], true) <==> ContainsMarker(WithoutReadyToken(v))
    ensures Finds(v, [], false) <==> ContainsMarker(v)
  {
    ScanFindsMarkers(v, [], false);
    match v
    case Obj(fields) => ScanOfRootObject(fields);
    case Arr(items) =>
      forall i | 0 <= i < |items|
        ensures Finds(items[i], [] + [IndexElement(i)], true) <==> ContainsMarker(items[i])
      {
        assert IndexElement(i)[0] == '[' && "params"[0] == 'p';
        ScanFindsMarkers(items[i], [] + [IndexElement(i)], true);
      }
    case _ =>
  }
}
