/** The base64 coding of section 4 of RFC 4648, decoded as leniently as Node's buffers do. */
module Base64 {
  import opened Options

  type Byte = b: int | 0 <= b < 256
  type Sextet = s: int | 0 <= s < 64

  function Digit(s: Sextet): char {
    if s < 26 then ('A' as int + s) as char
    else if s < 52 then ('a' as int + (s - 26)) as char
    else if s < 62 then ('0' as int + (s - 52)) as char
    else if s == 62 then '+'
    else '/'
  }

  /** The URL-safe digits are read too. */
  function Value(c: char): Option<Sextet> {
    if 'A' <= c <= 'Z' then Some(c as int - 'A' as int)
    else if 'a' <= c <= 'z' then Some(c as int - 'a' as int + 26)
    else if '0' <= c <= '9' then Some(c as int - '0' as int + 52)
    else if c == '+' || c == '-' then Some(62)
    else if c == '/' || c == '_' then Some(63)
    else None
  }

  /** Three octets make four sextets; one or two make two or three. */
  function Sextets(b: seq<Byte>): seq<Sextet> {
    if |b| == 0 then []
    else if |b| == 1 then [b[0] / 4, b[0] % 4 * 16]
    else if |b| == 2 then [b[0] / 4, b[0] % 4 * 16 + b[1] / 16, b[1] % 16 * 4]
    else [b[0] / 4, b[0] % 4 * 16 + b[1] / 16, b[1] % 16 * 4 + b[2] / 64, b[2] % 64] + Sextets(b[3..])
  }

  /* The first, second and third octet of a group, from the sextets that hold their bits. */

  function First(a: int, b: int): int { a * 4 + b / 16 }

  function Second(a: int, b: int): int { a % 16 * 16 + b / 4 }

  function Third(a: int, b: int): int { a % 4 * 64 + b }

  function Octets(s: seq<Sextet>): seq<Byte> {
    if |s| < 2 then []
    else if |s| == 2 then [First(s[0], s[1])]
    else if |s| == 3 then [First(s[0], s[1]), Second(s[1], s[2])]
    else [First(s[0], s[1]), Second(s[1], s[2]), Third(s[2], s[3])] + Octets(s[4..])
  }

  function Digits(s: seq<Sextet>): string {
    if s == [] then "" else [Digit(s[0])] + Digits(s[1..])
  }

  function Padding(n: nat): string {
    if n % 3 == 1 then "==" else if n % 3 == 2 then "=" else ""
  }

  /** `toString("base64")`. */
  function Encode(b: seq<Byte>): string {
    Digits(Sextets(b)) + Padding(|b|)
  }

  /** The digits of a text; everything else is skipped. */
  function Read(t: string): seq<Sextet> {
    if t == "" then []
    else if Value(t[0]).Some? then [Value(t[0]).value] + Read(t[1..])
    else Read(t[1..])
  }

  /** `Buffer.from(text, "base64")`. */
  function Decode(t: string): seq<Byte> {
    Octets(Read(t))
  }

  lemma {:induction false} DigitsReadBack(s: seq<Sextet>, n: nat)
    ensures Read(Digits(s) + Padding(n)) == s
  {
    if s == [] {
      PaddingIsSkipped(n);
      assert Digits(s) + Padding(n) == Padding(n);
    } else {
      DigitsReadBack(s[1..], n);
      assert (Digits(s) + Padding(n))[1..] == Digits(s[1..]) + Padding(n);
      assert Value(Digit(s[0])) == Some(s[0]);
    }
  }

  lemma PaddingIsSkipped(n: nat)
    ensures Read(Padding(n)) == []
  {
    assert "=="[1..] == "=" && "="[1..] == "";
  }

  /** Octets survive being split into sextets and put together again. */
  lemma {:induction false} OctetsSurvive(b: seq<Byte>)
    ensures Octets(Sextets(b)) == b
  {
    if |b| > 2 {
      OctetsSurvive(b[3..]);
      var s := Sextets(b);
      assert s[4..] == Sextets(b[3..]);
      assert b == [b[0], b[1], b[2]] + b[3..];
    }
  }

  /** Decoding gives back the encoded octets. */
  lemma RoundTrip(b: seq<Byte>)
    ensures Decode(Encode(b)) == b
  {
    DigitsReadBack(Sextets(b), |b|);
    OctetsSurvive(b);
  }

  /** The alphabet of table 1 of RFC 4648: three runs of successive characters and two marks. */
  lemma DigitsAreTheAlphabet(s: Sextet)
    ensures Digit(0) == 'A' && Digit(25) == 'Z' && Digit(26) == 'a' && Digit(51) == 'z'
    ensures Digit(52) == '0' && Digit(61) == '9' && Digit(62) == '+' && Digit(63) == '/'
    ensures s !in {25, 51, 61, 62, 63} ==> Digit(s + 1) as int == Digit(s) as int + 1
  {
  }

  lemma OneMoreDigit(d: Sextet, rest: seq<Sextet>)
    ensures Digits([d] + rest) == [Digit(d)] + Digits(rest)
    ensures Digits([]) == ""
  {
    assert ([d] + rest)[1..] == rest;
  }

  lemma FourDigits(a: Sextet, b: Sextet, c: Sextet, d: Sextet, rest: seq<Sextet>)
    ensures Digits([a, b, c, d] + rest) == [Digit(a), Digit(b), Digit(c), Digit(d)] + Digits(rest)
    ensures Digits([a, b]) == [Digit(a), Digit(b)] && Digits([a, b, c]) == [Digit(a), Digit(b), Digit(c)]
  {
    hide Digit, Digits;
    OneMoreDigit(d, rest);
    OneMoreDigit(c, [d] + rest);
    OneMoreDigit(b, [c] + ([d] + rest));
    OneMoreDigit(a, [b] + ([c] + ([d] + rest)));
    assert [a, b, c, d] + rest == [a] + ([b] + ([c] + ([d] + rest)));
    OneMoreDigit(c, []);
    OneMoreDigit(b, []);
    OneMoreDigit(b, [c]);
    OneMoreDigit(a, [b]);
    OneMoreDigit(a, [b, c]);
    assert [c] + [] == [c] && [b] + [] == [b];
    assert [b] + [c] == [b, c] && [a] + [b] == [a, b] && [a] + [b, c] == [a, b, c];
  }

  /** Three octets are four digits with the same 24 bits. */
  lemma ThreeOctets(x: Byte, y: Byte, z: Byte, rest: seq<Byte>)
    ensures exists a: Sextet, b: Sextet, c: Sextet, d: Sextet ::
              && x as int * 0x1_0000 + y as int * 0x100 + z == a * 0x4_0000 + b * 0x1000 + c * 0x40 + d
              && Encode([x, y, z] + rest) == [Digit(a), Digit(b), Digit(c), Digit(d)] + Encode(rest)
  {
    hide Digit, Digits;
    var t := [x, y, z] + rest;
    assert t[3..] == rest;
    assert (|rest| + 3) % 3 == |rest| % 3;
    var a: Sextet, b: Sextet, c: Sextet, d: Sextet := x / 4, x % 4 * 16 + y / 16, y % 16 * 4 + z / 64, z % 64;
    FourDigits(a, b, c, d, Sextets(rest));
    assert Encode(t) == [Digit(a), Digit(b), Digit(c), Digit(d)] + Encode(rest);
    assert x as int * 0x1_0000 + y as int * 0x100 + z == a * 0x4_0000 + b * 0x1000 + c * 0x40 + d;
  }

  /** A single octet at the end is filled up with zero bits, and its group with equals signs. */
  lemma LastOctet(x: Byte)
    ensures Encode([]) == ""
    ensures exists a: Sextet, b: Sextet :: x as int * 0x10 == a * 0x40 + b && Encode([x]) == [Digit(a), Digit(b)] + "=="
  {
    hide Digit, Digits;
    var a: Sextet, b: Sextet := x / 4, x % 4 * 16;
    FourDigits(a, b, 0, 0, []);
    EmptyDigits();
    assert x as int * 0x10 == a * 0x40 + b;
  }

  lemma EmptyDigits()
    ensures Digits([]) == ""
  {
  }

  /** So are two. */
  lemma LastTwoOctets(x: Byte, y: Byte)
    ensures exists a: Sextet, b: Sextet, c: Sextet ::
              && (x as int * 0x100 + y) * 4 == a * 0x1000 + b * 0x40 + c
              && Encode([x, y]) == [Digit(a), Digit(b), Digit(c)] + "="
  {
    hide Digit, Digits;
    var a: Sextet, b: Sextet, c: Sextet := x / 4, x % 4 * 16 + y / 16, y % 16 * 4;
    FourDigits(a, b, c, 0, []);
    assert (x as int * 0x100 + y) * 4 == a * 0x1000 + b * 0x40 + c;
  }
}
