/**
 * Byte lengths of JavaScript strings as `TextEncoder` produces them: a string is a
 * sequence of UTF-16 code units, a surrogate pair becomes four bytes (section 3 of
 * RFC 3629) and a lone surrogate is replaced by U+FFFD, which takes three.
 */
module Utf8 {
  type CodeUnit = u: int | 0 <= u < 0x10000

  type Text = seq<CodeUnit>

  predicate IsHigh(u: CodeUnit) { 0xD800 <= u < 0xDC00 }

  predicate IsLow(u: CodeUnit) { 0xDC00 <= u < 0xE000 }

  function UnitBytes(u: CodeUnit): nat {
    if u < 0x80 then 1 else if u < 0x800 then 2 else 3
  }

  /** `textEncoder.encode(text).byteLength`. */
  function ByteLength(text: Text): nat {
    if |text| == 0 then 0
    else if |text| >= 2 && IsHigh(text[0]) && IsLow(text[1]) then 4 + ByteLength(text[2..])
    else UnitBytes(text[0]) + ByteLength(text[1..])
  }

  /** Appending `b` to `a` pairs a trailing high surrogate with a leading low one. */
  predicate JoinsPair(a: Text, b: Text) {
    |a| > 0 && |b| > 0 && IsHigh(a[|a| - 1]) && IsLow(b[0])
  }

  /** Two separately encoded halves of a pair cost six bytes, the joined pair four. */
  function JoinSaving(a: Text, b: Text): nat { if JoinsPair(a, b) then 2 else 0 }

  lemma ByteLengthOfCons(u: CodeUnit, b: Text)
    ensures ByteLength([u] + b) + JoinSaving([u], b) == UnitBytes(u) + ByteLength(b)
  {
    assert ([u] + b)[1..] == b;
    if JoinsPair([u], b) {
      assert ([u] + b)[2..] == b[1..];
    }
  }

  /** The exact law behind the incremental byte counter. */
  lemma {:induction false} ByteLengthOfConcat(a: Text, b: Text)
    ensures ByteLength(a + b) + JoinSaving(a, b) == ByteLength(a) + ByteLength(b)
  {
    hide UnitBytes;
    if |a| == 0 {
      assert a + b == b;
    } else if |a| == 1 {
      assert a == [a[0]] && a[1..] == [];
      ByteLengthOfCons(a[0], b);
    } else if IsHigh(a[0]) && IsLow(a[1]) {
      ByteLengthOfConcat(a[2..], b);
      assert (a + b)[2..] == a[2..] + b;
    } else {
      ByteLengthOfConcat(a[1..], b);
      assert (a + b)[1..] == a[1..] + b;
    }
  }

  // ---- The bytes that are counted --------------------------------------------------------

  type Scalar = c: int | 0 <= c < 0x110000

  type Byte = b: int | 0 <= b < 256

  function PairValue(high: int, low: int): (c: Scalar)
    requires 0xD800 <= high < 0xDC00 && 0xDC00 <= low < 0xE000
  {
    0x10000 + (high - 0xD800) * 0x400 + (low - 0xDC00)
  }

  /** The characters of a string: pairs joined, lone surrogates replaced. */
  function Scalars(text: Text): seq<Scalar> {
    if |text| == 0 then []
    else if |text| >= 2 && IsHigh(text[0]) && IsLow(text[1])
        then [PairValue(text[0], text[1])] + Scalars(text[2..])
    else [if IsHigh(text[0]) || IsLow(text[0]) then 0xFFFD else text[0]] + Scalars(text[1..])
  }

  /** A byte that carries six bits of a character. */
  function Tail(bits: int): Byte { 0x80 + bits % 64 }

  function EncodeOne(c: Scalar): (bytes: seq<Byte>)
    ensures |bytes| > 0
  {
    if c < 0x80 then [c]
    else if c < 0x800 then [0xC0 + c / 64, Tail(c)]
    else if c < 0x10000 then [0xE0 + c / 4096, Tail(c / 64), Tail(c)]
    else [0xF0 + c / 262144, Tail(c / 4096), Tail(c / 64), Tail(c)]
  }

  function Encode(scalars: seq<Scalar>): seq<Byte> {
    if |scalars| == 0 then [] else EncodeOne(scalars[0]) + Encode(scalars[1..])
  }

  /** How long a character is, by its first byte. */
  function LengthOf(lead: Byte): nat {
    if lead < 0xC0 then 1 else if lead < 0xE0 then 2 else if lead < 0xF0 then 3 else 4
  }

  function AppendSix(value: int, tail: int): int { value * 64 + (tail - 0x80) }

  function DecodeOne(bytes: seq<Byte>): int
    requires |bytes| > 0 && LengthOf(bytes[0]) <= |bytes|
  {
    var lead: int := bytes[0];
    match LengthOf(bytes[0])
    case 1 => lead
    case 2 => AppendSix(lead - 0xC0, bytes[1])
    case 3 => AppendSix(AppendSix(lead - 0xE0, bytes[1]), bytes[2])
    case _ => AppendSix(AppendSix(AppendSix(lead - 0xF0, bytes[1]), bytes[2]), bytes[3])
  }

  /** Reads characters as long as whole ones follow. */
  function Decode(bytes: seq<Byte>): seq<int> {
    if |bytes| == 0 || LengthOf(bytes[0]) > |bytes| then []
    else [DecodeOne(bytes)] + Decode(bytes[LengthOf(bytes[0])..])
  }

  lemma OneDecodes(c: Scalar, rest: seq<Byte>)
    ensures var bytes := EncodeOne(c) + rest;
            LengthOf(bytes[0]) == |EncodeOne(c)| && DecodeOne(bytes) == c
  {
    assert c / 4096 == c / 64 / 64 && c / 262144 == c / 64 / 64 / 64;
  }

  /** The encoding loses nothing, so its length is that of the text and of no shorter one. */
  lemma {:induction false} EncodedDecodes(scalars: seq<Scalar>)
    ensures Decode(Encode(scalars)) == scalars
  {
    if |scalars| > 0 {
      var first, rest := EncodeOne(scalars[0]), Encode(scalars[1..]);
      OneDecodes(scalars[0], rest);
      assert (first + rest)[|first|..] == rest;
      EncodedDecodes(scalars[1..]);
    }
  }

  /** The counted length is the number of bytes of the encoding. */
  lemma {:induction false} ByteLengthIsEncoded(text: Text)
    ensures |Encode(Scalars(text))| == ByteLength(text)
  {
    hide Tail;
    if |text| >= 2 && IsHigh(text[0]) && IsLow(text[1]) {
      ByteLengthIsEncoded(text[2..]);
      assert Scalars(text)[1..] == Scalars(text[2..]);
    } else if |text| > 0 {
      ByteLengthIsEncoded(text[1..]);
      assert Scalars(text)[1..] == Scalars(text[1..]);
    }
  }
}
