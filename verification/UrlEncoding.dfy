/**
 * URL-button values: percent-coding of UTF-16 strings (sections 19.2.6.4 to 19.2.6.6 of ECMA-262,
 * section 3 of RFC 3629, section 2.1 of RFC 3986) and the encoder that leaves encoded input alone.
 */
module UrlEncoding {
  import opened Options

  /** A UTF-16 code unit. */
  type Unit = u: int | 0 <= u < 0x1_0000
  type Text = seq<Unit>
  type Octet = b: int | 0 <= b < 256
  type CodePoint = c: int | 0 <= c < 0x11_0000

  const PERCENT: Unit := 0x25

  /* ---- UTF-16 ---- */

  predicate IsHigh(u: Unit) { 0xD800 <= u < 0xDC00 }

  predicate IsLow(u: Unit) { 0xDC00 <= u < 0xE000 }

  predicate IsScalar(c: CodePoint) { !(0xD800 <= c < 0xE000) }

  /** Surrogates come in pairs only. */
  ghost predicate WellFormed(s: Text) {
    forall i: nat :: i < |s| ==> PairedAt(s, i)
  }

  /** A high surrogate is followed, and a low one preceded, by its partner. */
  predicate PairedAt(s: Text, i: nat)
    requires i < |s|
  {
    && (IsHigh(s[i]) ==> i + 1 < |s| && IsLow(s[i + 1]))
    && (IsLow(s[i]) ==> i > 0 && IsHigh(s[i - 1]))
  }

  function Utf16(c: CodePoint): (s: Text)
    requires IsScalar(c)
    ensures |s| == if c < 0x1_0000 then 1 else 2
  {
    if c < 0x1_0000 then [c] else [0xD800 + (c - 0x1_0000) / 0x400, 0xDC00 + (c - 0x1_0000) % 0x400]
  }

  /** The code point at the front of a text, unless an unpaired surrogate stands there. */
  function FrontCodePoint(s: Text): (r: Option<CodePoint>)
    requires s != []
    ensures r.Some? ==> IsScalar(r.value) && Utf16(r.value) <= s
  {
    if !IsHigh(s[0]) && !IsLow(s[0]) then Some(s[0])
    else if IsHigh(s[0]) && |s| > 1 && IsLow(s[1]) then
      Some(0x1_0000 + (s[0] as int - 0xD800) * 0x400 + (s[1] as int - 0xDC00))
    else None
  }

  /* ---- UTF-8 ---- */

  function Utf8(c: CodePoint): (b: seq<Octet>)
    ensures 1 <= |b| <= 4
  {
    if c < 0x80 then [c]
    else if c < 0x800 then [0xC0 + c / 64, 0x80 + c % 64]
    else if c < 0x1_0000 then [0xE0 + c / 4096, 0x80 + c / 64 % 64, 0x80 + c % 64]
    else [0xF0 + c / 262144, 0x80 + c / 4096 % 64, 0x80 + c / 64 % 64, 0x80 + c % 64]
  }

  /** How many octets a first octet announces; none for a continuation or an invalid one. */
  function Announced(b: Octet): Option<nat> {
    if b < 0x80 then Some(1)
    else if b < 0xC0 then None
    else if b < 0xE0 then Some(2)
    else if b < 0xF0 then Some(3)
    else if b < 0xF8 then Some(4)
    else None
  }

  predicate IsContinuation(b: Octet) { 0x80 <= b < 0xC0 }

  /** The code point some octets encode: no overlong form, no surrogate, nothing above U+10FFFF. */
  function FromUtf8(b: seq<Octet>): (r: Option<CodePoint>)
    ensures r.Some? ==> IsScalar(r.value)
  {
    if b == [] || Announced(b[0]) != Some(|b|) || exists k | 1 <= k < |b| :: !IsContinuation(b[k]) then None
    else
      var b0 := b[0] as int;
      if |b| == 1 then Some(b[0])
      else if |b| == 2 then Ranged((b0 - 0xC0) * 64 + Low(b[1]), 0x80)
      else if |b| == 3 then Ranged((b0 - 0xE0) * 4096 + Low(b[1]) * 64 + Low(b[2]), 0x800)
      else Ranged((b0 - 0xF0) * 262144 + Low(b[1]) * 4096 + Low(b[2]) * 64 + Low(b[3]), 0x1_0000)
  }

  /** The six bits of a continuation octet. */
  function Low(b: Octet): int {
    b as int - 0x80
  }

  function Ranged(v: int, least: int): (r: Option<CodePoint>)
    requires least >= 0x80
    ensures r.Some? ==> IsScalar(r.value)
  {
    if least <= v < 0x11_0000 && !(0xD800 <= v < 0xE000) then Some(v) else None
  }

  lemma Split(q: int, r: int)
    requires 0 <= r < 64
    ensures (q * 64 + r) / 64 == q && (q * 64 + r) % 64 == r
  {
  }

  lemma Utf8Decodes(c: CodePoint)
    requires IsScalar(c)
    ensures FromUtf8(Utf8(c)) == Some(c)
  {
    assert c / 64 / 64 == c / 4096 && c / 4096 / 64 == c / 262144;
  }

  lemma Utf8Only(c: CodePoint, b: seq<Octet>)
    requires FromUtf8(b) == Some(c)
    ensures b == Utf8(c)
  {
    hide Utf8;
    var b0 := b[0] as int;
    if |b| == 2 {
      TwoOctets(c, b0 - 0xC0, Low(b[1]));
      assert b == [b[0], b[1]];
    } else if |b| == 3 {
      ThreeOctets(c, b0 - 0xE0, Low(b[1]), Low(b[2]));
      assert b == [b[0], b[1], b[2]];
    } else if |b| == 4 {
      FourOctets(c, b0 - 0xF0, Low(b[1]), Low(b[2]), Low(b[3]));
      assert b == [b[0], b[1], b[2], b[3]];
    } else {
      OneOctet(c);
      assert b == [b[0]];
    }
  }

  lemma OneOctet(c: CodePoint)
    requires c < 0x80
    ensures Utf8(c) == [c]
  {
  }

  lemma TwoOctets(c: CodePoint, x: int, y: int)
    requires 0 <= x < 32 && 0 <= y < 64 && c == x * 64 + y && 0x80 <= c
    ensures Utf8(c) == [0xC0 + x, 0x80 + y]
  {
    Split(x, y);
  }

  lemma ThreeOctets(c: CodePoint, x: int, y: int, z: int)
    requires 0 <= x < 16 && 0 <= y < 64 && 0 <= z < 64 && c == x * 4096 + y * 64 + z && 0x800 <= c
    ensures Utf8(c) == [0xE0 + x, 0x80 + y, 0x80 + z]
  {
    Split(x * 64 + y, z);
    Split(x, y);
    assert c / 4096 == x;
  }

  lemma FourOctets(c: CodePoint, x: int, y: int, z: int, u: int)
    requires 0 <= x < 8 && 0 <= y < 64 && 0 <= z < 64 && 0 <= u < 64
    requires c == x * 262144 + y * 4096 + z * 64 + u && 0x1_0000 <= c
    ensures Utf8(c) == [0xF0 + x, 0x80 + y, 0x80 + z, 0x80 + u]
  {
    Split(x * 4096 + y * 64 + z, u);
    Split(x * 64 + y, z);
    Split(x, y);
    assert c / 4096 == x * 64 + y && c / 262144 == x;
  }

  /** Decoding inverts encoding, and accepts nothing else. */
  lemma Utf8IsExact(c: CodePoint, b: seq<Octet>)
    requires IsScalar(c)
    ensures FromUtf8(b) == Some(c) <==> b == Utf8(c)
  {
    hide Utf8, FromUtf8;
    Utf8Decodes(c);
    if FromUtf8(b) == Some(c) {
      Utf8Only(c, b);
    }
  }

  /* ---- Percent-coding ---- */

  /** Letters, digits and the marks - _ . ! ~ * ' ( ) stand for themselves. */
  predicate Unescaped(u: Unit) {
    0x41 <= u <= 0x5A || 0x61 <= u <= 0x7A || 0x30 <= u <= 0x39
    || u in {0x2D, 0x5F, 0x2E, 0x21, 0x7E, 0x2A, 0x27, 0x28, 0x29}
  }

  /** An upper-case hexadecimal digit. */
  function HexDigit(n: int): Unit
    requires 0 <= n < 16
  {
    if n < 10 then 0x30 + n else 0x41 + (n - 10)
  }

  /** Reading accepts both cases. */
  function HexValue(u: Unit): (r: Option<int>)
    ensures r.Some? ==> 0 <= r.value < 16
  {
    if 0x30 <= u <= 0x39 then Some(u as int - 0x30)
    else if 0x41 <= u <= 0x46 then Some(u as int - 0x41 + 10)
    else if 0x61 <= u <= 0x66 then Some(u as int - 0x61 + 10)
    else None
  }

  function Triplet(b: Octet): (t: Text)
    ensures |t| == 3
  {
    [PERCENT, HexDigit(b / 16), HexDigit(b % 16)]
  }

  function Triplets(b: seq<Octet>): (t: Text)
    ensures |t| == 3 * |b|
  {
    if b == [] then [] else Triplet(b[0]) + Triplets(b[1..])
  }

  function EncodedCodePoint(c: CodePoint): (t: Text)
    ensures t != []
  {
    if c < 0x80 && Unescaped(c) then [c] else Triplets(Utf8(c))
  }

  /** `encodeURIComponent`; an unpaired surrogate makes it throw. */
  function Encode(s: Text): Option<Text>
    decreases |s|
  {
    if s == [] then Some([])
    else
      match FrontCodePoint(s)
      case None => None
      case Some(c) =>
        match Encode(s[|Utf16(c)|..])
        case None => None
        case Some(rest) => Some(EncodedCodePoint(c) + rest)
  }

  /** The octet of the escape at the front of a text. */
  function FrontOctet(t: Text): (r: Option<Octet>)
  {
    if |t| < 3 || t[0] != PERCENT then None
    else
      match (HexValue(t[1]), HexValue(t[2]))
      case (Some(h), Some(l)) => Some(16 * h + l)
      case _ => None
  }

  /** The octets of the first `n` escapes. */
  function FrontOctets(t: Text, n: nat): (r: Option<seq<Octet>>)
    ensures r.Some? ==> |r.value| == n && 3 * n <= |t|
    decreases n
  {
    if n == 0 then Some([])
    else
      match FrontOctet(t)
      case None => None
      case Some(b) =>
        match FrontOctets(t[3..], n - 1)
        case None => None
        case Some(bs) => Some([b] + bs)
  }

  datatype Piece = Piece(units: Text, length: nat)

  /** What the front of a text decodes to, and how much of the text that takes. */
  function FrontPiece(t: Text): (r: Option<Piece>)
    requires t != []
    ensures r.Some? ==> 0 < r.value.length <= |t|
  {
    if t[0] != PERCENT then Some(Piece([t[0]], 1))
    else
      match FrontOctet(t)
      case None => None
      case Some(b) =>
        match Announced(b)
        case None => None
        case Some(n) =>
          match FrontOctets(t, n)
          case None => None
          case Some(bs) =>
            match FromUtf8(bs)
            case None => None
            case Some(c) => Some(Piece(Utf16(c), 3 * n))
  }

  /** `decodeURIComponent`; a malformed escape makes it throw. */
  function Decode(t: Text): Option<Text>
    decreases |t|
  {
    if t == [] then Some([])
    else
      match FrontPiece(t)
      case None => None
      case Some(p) =>
        match Decode(t[p.length..])
        case None => None
        case Some(rest) => Some(p.units + rest)
  }

  /** `encodeUrlButtonValue`: encoded input passes, everything else is encoded. */
  function EncodeUrlButtonValue(value: Text): Option<Text> {
    if Decode(value).Some? && Encode(Decode(value).value) == Some(value) then Some(value)
    else Encode(value)
  }

  /* ---- Decoding inverts encoding ---- */

  lemma OctetReadsBack(b: Octet, rest: Text)
    ensures FrontOctet(Triplet(b) + rest) == Some(b)
  {
    assert (Triplet(b) + rest)[..3] == Triplet(b);
    assert HexValue(HexDigit(b / 16)) == Some(b / 16) && HexValue(HexDigit(b % 16)) == Some(b % 16);
  }

  lemma {:induction false} OctetsReadBack(b: seq<Octet>, rest: Text)
    ensures FrontOctets(Triplets(b) + rest, |b|) == Some(b)
  {
    hide Triplet, FrontOctet;
    if b != [] {
      var after := Triplets(b[1..]) + rest;
      assert Triplets(b) + rest == Triplet(b[0]) + after;
      OctetReadsBack(b[0], after);
      assert (Triplet(b[0]) + after)[3..] == after;
      OctetsReadBack(b[1..], rest);
      assert b == [b[0]] + b[1..];
    }
  }

  lemma Utf8Announces(c: CodePoint)
    ensures Announced(Utf8(c)[0]) == Some(|Utf8(c)|)
  {
  }

  lemma CodePointReadsBack(c: CodePoint, rest: Text)
    requires IsScalar(c)
    ensures FrontPiece(EncodedCodePoint(c) + rest) == Some(Piece(Utf16(c), |EncodedCodePoint(c)|))
  {
    hide Triplets, FromUtf8, Utf8, FrontOctets, FrontOctet, Announced, Utf16;
    if c < 0x80 && Unescaped(c) {
      assert Utf16(c) == [c] by { BmpIsItself(c); }
    } else {
      var b := Utf8(c);
      var t := Triplets(b) + rest;
      EscapeStarts(b, rest);
      OctetsReadBack(b, rest);
      Utf8Announces(c);
      Utf8IsExact(c, b);
    }
  }

  lemma BmpIsItself(c: CodePoint)
    requires c < 0x1_0000 && IsScalar(c)
    ensures Utf16(c) == [c]
  {
  }

  lemma EscapeStarts(b: seq<Octet>, rest: Text)
    requires b != []
    ensures (Triplets(b) + rest)[0] == PERCENT && FrontOctet(Triplets(b) + rest) == Some(b[0])
  {
    hide HexDigit, HexValue;
    assert Triplets(b) + rest == Triplet(b[0]) + (Triplets(b[1..]) + rest);
    OctetReadsBack(b[0], Triplets(b[1..]) + rest);
  }

  /** Whatever can be encoded decodes to itself. */
  lemma {:induction false} RoundTrip(s: Text)
    requires Encode(s).Some?
    ensures Decode(Encode(s).value) == Some(s)
    decreases |s|
  {
    hide FrontPiece, EncodedCodePoint;
    if s != [] {
      var c := FrontCodePoint(s).value;
      var n := |Utf16(c)|;
      var rest := Encode(s[n..]).value;
      CodePointReadsBack(c, rest);
      RoundTrip(s[n..]);
      assert (EncodedCodePoint(c) + rest)[|EncodedCodePoint(c)|..] == rest;
      assert s == Utf16(c) + s[n..];
    }
  }

  /* ---- What can be encoded, and what comes out ---- */

  lemma WellFormedFront(s: Text)
    requires s != []
    ensures WellFormed(s) <==> FrontCodePoint(s).Some? && WellFormed(s[|Utf16(FrontCodePoint(s).value)|..])
  {
    assert PairedAt(s, 0) ==> FrontCodePoint(s).Some?;
    if FrontCodePoint(s).Some? {
      var n := |Utf16(FrontCodePoint(s).value)|;
      var rest := s[n..];
      assert n == 1 ==> !IsHigh(s[0]) && !IsLow(s[0]);
      assert n == 2 ==> IsHigh(s[0]) && IsLow(s[1]);
      if WellFormed(s) {
        forall i: nat | i < |rest|
          ensures PairedAt(rest, i)
        {
          assert PairedAt(s, n + i);
        }
      }
      if WellFormed(rest) {
        forall i: nat | i < |s|
          ensures PairedAt(s, i)
        {
          assert i >= n ==> PairedAt(rest, i - n);
        }
      }
    }
  }

  lemma {:induction false} EncodesTheWellFormed(s: Text)
    ensures Encode(s).Some? <==> WellFormed(s)
    decreases |s|
  {
    hide WellFormed;
    if s != [] {
      WellFormedFront(s);
      if FrontCodePoint(s).Some? {
        EncodesTheWellFormed(s[|Utf16(FrontCodePoint(s).value)|..]);
      }
    } else {
      EmptyWellFormed();
    }
  }

  lemma EmptyWellFormed()
    ensures WellFormed([])
  {
  }

  predicate UpperHex(u: Unit) { 0x30 <= u <= 0x39 || 0x41 <= u <= 0x46 }

  /** Unescaped characters and escapes in upper case, nothing else. */
  predicate IsWire(t: Text)
    decreases |t|
  {
    || t == []
    || (Unescaped(t[0]) && IsWire(t[1..]))
    || (|t| >= 3 && t[0] == PERCENT && UpperHex(t[1]) && UpperHex(t[2]) && IsWire(t[3..]))
  }

  lemma {:induction false} TripletsAreWire(b: seq<Octet>, rest: Text)
    requires IsWire(rest)
    ensures IsWire(Triplets(b) + rest)
  {
    if b == [] {
      assert Triplets(b) + rest == rest;
    } else {
      var after := Triplets(b[1..]) + rest;
      TripletsAreWire(b[1..], rest);
      assert Triplets(b) + rest == Triplet(b[0]) + after;
      assert (Triplet(b[0]) + after)[3..] == after;
    }
  }

  lemma {:induction false} EncodedIsWire(s: Text)
    requires Encode(s).Some?
    ensures IsWire(Encode(s).value)
    decreases |s|
  {
    hide Utf8, Unescaped;
    if s != [] {
      var c := FrontCodePoint(s).value;
      var rest := Encode(s[|Utf16(c)|..]).value;
      EncodedIsWire(s[|Utf16(c)|..]);
      if c < 0x80 && Unescaped(c) {
        assert ([c] + rest)[1..] == rest;
      } else {
        TripletsAreWire(Utf8(c), rest);
      }
    }
  }

  lemma AsciiIsWellFormed(t: Text)
    requires forall u <- t :: u < 0x80
    ensures WellFormed(t)
  {
    forall i: nat | i < |t|
      ensures PairedAt(t, i)
    {
      assert t[i] in t;
    }
  }

  lemma {:induction false} WireIsAscii(t: Text)
    requires IsWire(t)
    ensures forall u <- t :: u < 0x80
    decreases |t|
  {
    if t != [] {
      var n := if Unescaped(t[0]) && IsWire(t[1..]) then 1 else 3;
      WireIsAscii(t[n..]);
      assert t == t[..n] + t[n..];
    }
  }

  /* ---- The encoder of button values ---- */

  /** It throws exactly on unpaired surrogates, and its result is in wire form. */
  lemma ButtonValueIsWire(value: Text)
    ensures EncodeUrlButtonValue(value).Some? <==> WellFormed(value)
    ensures EncodeUrlButtonValue(value).Some? ==> IsWire(EncodeUrlButtonValue(value).value)
  {
    hide Encode, Decode, IsWire;
    EncodesTheWellFormed(value);
    if Encode(value).Some? {
      EncodedIsWire(value);
    }
    if Decode(value).Some? && Encode(Decode(value).value) == Some(value) {
      EncodedIsWire(Decode(value).value);
      WireIsAscii(value);
      AsciiIsWellFormed(value);
    }
  }

  /** The result decodes to the value, or, when the value passed untouched, to what the value decodes to. */
  lemma ButtonValueDecodes(value: Text)
    requires WellFormed(value)
    ensures exists sent ::
      && EncodeUrlButtonValue(value) == Some(sent) && Decode(sent).Some?
      && ((Encode(value) == Some(sent) && Decode(sent).value == value)
          || (sent == value && Encode(Decode(sent).value) == Some(sent)))
  {
    hide Encode, Decode, WellFormed;
    EncodesTheWellFormed(value);
    RoundTrip(value);
  }

  /** A value that is not in wire form is encoded as it stands, even if it decodes cleanly. */
  lemma OthersAreEncoded(value: Text)
    requires WellFormed(value) && !IsWire(value)
    ensures EncodeUrlButtonValue(value) == Encode(value) != Some(value)
    ensures Encode(value).Some? && Decode(Encode(value).value) == Some(value)
  {
    hide Encode, Decode, IsWire, WellFormed;
    EncodesTheWellFormed(value);
    RoundTrip(value);
    EncodedIsWire(value);
    if Decode(value).Some? && Encode(Decode(value).value) == Some(value) {
      EncodedIsWire(Decode(value).value);
    }
  }

  /** Encoding an encoded value again changes nothing. */
  lemma ButtonValueIsIdempotent(value: Text)
    requires EncodeUrlButtonValue(value).Some?
    ensures EncodeUrlButtonValue(EncodeUrlButtonValue(value).value) == EncodeUrlButtonValue(value)
  {
    hide Encode, Decode;
    if Encode(value).Some? {
      RoundTrip(value);
    }
  }

  /** A value passes untouched exactly when it is the encoding of some text. */
  lemma PassesExactlyEncodings(value: Text)
    ensures EncodeUrlButtonValue(value) == Some(value) <==> exists s :: Encode(s) == Some(value)
  {
    hide Encode, Decode;
    if s :| Encode(s) == Some(value) {
      RoundTrip(s);
    }
  }

  /** Two values are sent alike only when they are equal or one is the encoding of the other. */
  lemma OnlyEncodingsCollide(v: Text, w: Text)
    requires EncodeUrlButtonValue(v).Some? && EncodeUrlButtonValue(v) == EncodeUrlButtonValue(w)
    ensures v == w || Encode(v) == Some(w) || Encode(w) == Some(v)
  {
    hide Encode, Decode;
    if Encode(v).Some? {
      RoundTrip(v);
    }
    if Encode(w).Some? {
      RoundTrip(w);
    }
  }

  /** So escapes in lower case are encoded twice: %c3%a7 is the letter c with cedilla, yet not in wire form. */
  lemma LowerCaseEscapesAreEncodedAgain()
    ensures var cedilla: Text := [0x25, 0x63, 0x33, 0x25, 0x61, 0x37];
            Decode(cedilla) == Some([0xE7]) && EncodeUrlButtonValue(cedilla) == Encode(cedilla) != Some(cedilla)
  {
    hide Encode, Decode;
    CedillaDecodes();
    AsciiIsWellFormed([0x25, 0x63, 0x33, 0x25, 0x61, 0x37]);
    OthersAreEncoded([0x25, 0x63, 0x33, 0x25, 0x61, 0x37]);
  }

  lemma CedillaDecodes()
    ensures Decode([0x25, 0x63, 0x33, 0x25, 0x61, 0x37]) == Some([0xE7])
  {
    hide FrontOctets, FromUtf8;
    var t: Text := [0x25, 0x63, 0x33, 0x25, 0x61, 0x37];
    assert t[3..] == [0x25, 0x61, 0x37] && t[6..] == [];
    TwoOctetsAtFront(t, 0xC3, 0xA7);
    TwoOctets(0xE7, 3, 0x27);
    Utf8IsExact(0xE7, [0xC3, 0xA7]);
    assert FrontPiece(t) == Some(Piece([0xE7], 6));
    var none: Text := [];
    assert Decode(t[6..]) == Some(none);
    assert [0xE7] + none == [0xE7];
  }

  lemma TwoOctetsAtFront(t: Text, a: Octet, b: Octet)
    requires |t| == 6 && FrontOctet(t) == Some(a) && FrontOctet(t[3..]) == Some(b)
    ensures FrontOctets(t, 2) == Some([a, b])
  {
    hide FrontOctet;
    var none: seq<Octet> := [];
    assert FrontOctets(t[3..][3..], 0) == Some(none);
    assert [b] + none == [b] && [a] + [b] == [a, b];
    assert FrontOctets(t[3..], 1) == Some([b]);
  }

  /* ---- The codings, octet by octet and character by character ---- */

  /** The table of section 3 of RFC 3629: the fewest octets that hold the scalar, its bits six at a time. */
  lemma Utf8IsTheTable(c: CodePoint, b: seq<Octet>)
    requires IsScalar(c) && b == Utf8(c)
    ensures |b| == if c <= 0x7F then 1 else if c <= 0x7FF then 2 else if c <= 0xFFFF then 3 else 4
    ensures forall k :: 1 <= k < |b| ==> 0x80 <= b[k] <= 0xBF
    ensures var x := b[0] as int;
            match |b|
            case 1 => x == c
            case 2 => 0xC2 <= x <= 0xDF && c == (x - 0xC0) * 0x40 + Low(b[1])
            case 3 => 0xE0 <= x <= 0xEF && c == (x - 0xE0) * 0x1000 + Low(b[1]) * 0x40 + Low(b[2])
            case _ =>
              0xF0 <= x <= 0xF4 && c == (x - 0xF0) * 0x4_0000 + Low(b[1]) * 0x1000 + Low(b[2]) * 0x40 + Low(b[3])
  {
    assert c / 64 / 64 == c / 4096 && c / 4096 / 64 == c / 262144;
  }

  /** A pair of surrogates and the scalar they stand for (section 2 of RFC 2781). */
  lemma SurrogatePairs(c: CodePoint)
    requires IsScalar(c)
    ensures var s := Utf16(c);
            if |s| == 1 then s[0] == c
            else |s| == 2 && 0xD800 <= s[0] <= 0xDBFF && 0xDC00 <= s[1] <= 0xDFFF
                 && c == 0x1_0000 + (s[0] as int - 0xD800) * 0x400 + (s[1] as int - 0xDC00)
  {
  }

  const KEPT := "ABCDEFGHIJKLMNOPQRSTUVWXYZ" + "abcdefghijklmnopqrstuvwxyz" + "0123456789" + "-_.!~*'()"
  const HEX := "0123456789ABCDEF"

  /** The characters that stand for themselves, spelled out. */
  lemma KeptCharacters(u: Unit)
    ensures Unescaped(u) <==> u < 0x80 && u as char in KEPT
  {
    if u < 0x80 {
      UpperCase(u as char);
      LowerCase(u as char);
      DigitsAndMarks(u as char);
    }
  }

  lemma UpperCase(c: char)
    ensures c in "ABCDEFGHIJKLMNOPQRSTUVWXYZ" <==> 'A' <= c <= 'Z'
  {
  }

  lemma LowerCase(c: char)
    ensures c in "abcdefghijklmnopqrstuvwxyz" <==> 'a' <= c <= 'z'
  {
  }

  lemma DigitsAndMarks(c: char)
    ensures c in "0123456789" <==> '0' <= c <= '9'
    ensures c in "-_.!~*'()" <==> c as int in {0x2D, 0x5F, 0x2E, 0x21, 0x7E, 0x2A, 0x27, 0x28, 0x29}
  {
  }

  /** A percent sign and two upper-case hexadecimal digits. */
  ghost predicate IsEscape(t: Text, b: Octet) {
    t == [0x25, HEX[b as int / 16] as int, HEX[b as int % 16] as int]
  }

  lemma {:induction false} TripletsAt(b: seq<Octet>, k: nat)
    requires k < |b|
    ensures IsEscape(Triplets(b)[3 * k..3 * k + 3], b[k])
  {
    var t := Triplets(b);
    if k == 0 {
      assert t[3 * k..3 * k + 3] == Triplet(b[0]);
    } else {
      hide Triplet;
      TripletsAt(b[1..], k - 1);
      assert t[3..] == Triplets(b[1..]);
      assert t[3 * k..3 * k + 3] == t[3..][3 * (k - 1)..3 * (k - 1) + 3];
    }
  }

  /** What one scalar becomes: a kept character stays, any other becomes an escape per octet of its UTF-8 form. */
  ghost predicate EncodedAs(c: CodePoint, front: Text) {
    if c < 0x80 && c as char in KEPT then front == [c]
    else |front| == 3 * |Utf8(c)| && forall k :: 0 <= k < |Utf8(c)| ==> IsEscape(front[3 * k..3 * k + 3], Utf8(c)[k])
  }

  lemma FrontIsEncoded(c: CodePoint)
    ensures EncodedAs(c, EncodedCodePoint(c))
  {
    hide Triplets, Utf8, KEPT, IsEscape, Unescaped;
    if c < 0x80 {
      KeptCharacters(c);
    }
    forall k | 0 <= k < |Utf8(c)|
      ensures IsEscape(Triplets(Utf8(c))[3 * k..3 * k + 3], Utf8(c)[k])
    {
      TripletsAt(Utf8(c), k);
    }
  }

  lemma Utf16Front(c: CodePoint, s: Text)
    requires IsScalar(c)
    ensures FrontCodePoint(Utf16(c) + s) == Some(c) && (Utf16(c) + s)[|Utf16(c)|..] == s
  {
  }

  /** Encoding goes scalar by scalar. */
  lemma EncodesScalarByScalar(c: CodePoint, s: Text)
    requires IsScalar(c)
    ensures Encode([]) == Some([])
    ensures Encode(Utf16(c) + s).Some? <==> Encode(s).Some?
    ensures Encode(s).Some? ==>
              exists front :: EncodedAs(c, front) && Encode(Utf16(c) + s) == Some(front + Encode(s).value)
  {
    hide EncodedAs, EncodedCodePoint, FrontCodePoint, Utf16;
    Utf16Front(c, s);
    FrontIsEncoded(c);
    assert Encode(s).Some? ==> Encode(Utf16(c) + s) == Some(EncodedCodePoint(c) + Encode(s).value);
  }
}
