/** Key text: the standard base64 alphabet with padding (section 4 of RFC 4648), decoded strictly. The padding is
    required and the unused bits must be zero (section 3.5), so that every byte string has exactly one text. */
module Base64 {
  import opened Wrappers

  type Byte = x: int | 0 <= x < 256
  type Sextet = x: int | 0 <= x < 64

  function EncodeDigit(d: Sextet): char {
    if d < 26 then 'A' + d as char
    else if d < 52 then 'a' + (d - 26) as char
    else if d < 62 then '0' + (d - 52) as char
    else if d == 62 then '+'
    else '/'
  }

  function DecodeDigit(c: char): Option<Sextet> {
    if 'A' <= c <= 'Z' then Some((c - 'A') as int)
    else if 'a' <= c <= 'z' then Some((c - 'a') as int + 26)
    else if '0' <= c <= '9' then Some((c - '0') as int + 52)
    else if c == '+' then Some(62)
    else if c == '/' then Some(63)
    else None
  }

  lemma DigitRoundTrip(d: Sextet)
    ensures DecodeDigit(EncodeDigit(d)) == Some(d)
  {}

  lemma DigitIsCanonical(c: char)
    requires DecodeDigit(c).Some?
    ensures EncodeDigit(DecodeDigit(c).value) == c
  {}

  /** The four digits of three bytes. */
  function Quad(b0: Byte, b1: Byte, b2: Byte): string {
    [EncodeDigit(b0 / 4), EncodeDigit(b0 % 4 * 16 + b1 / 16), EncodeDigit(b1 % 16 * 4 + b2 / 64), EncodeDigit(b2 % 64)]
  }

  /** The three bytes of four digits. */
  function Triple(d0: Sextet, d1: Sextet, d2: Sextet, d3: Sextet): seq<Byte> {
    [d0 * 4 + d1 / 16, d1 % 16 * 16 + d2 / 4, d2 % 4 * 64 + d3]
  }

  /** The digits past the last byte are padding. */
  function Encode(bytes: seq<Byte>): string {
    if bytes == [] then ""
    else if |bytes| == 1 then Quad(bytes[0], 0, 0)[..2] + "=="
    else if |bytes| == 2 then Quad(bytes[0], bytes[1], 0)[..3] + "="
    else Quad(bytes[0], bytes[1], bytes[2]) + Encode(bytes[3..])
  }

  function DecodeQuad(q: string): (r: Option<seq<Byte>>)
    requires |q| == 4
    ensures r.Some? ==> |r.value| == 3
  {
    var d0, d1, d2, d3 := DecodeDigit(q[0]), DecodeDigit(q[1]), DecodeDigit(q[2]), DecodeDigit(q[3]);
    if d0.Some? && d1.Some? && d2.Some? && d3.Some? then Some(Triple(d0.value, d1.value, d2.value, d3.value))
    else None
  }

  /** The last four characters: padding stands for zero digits, and the bits after the last byte must be zero. */
  function DecodeLast(q: string): Option<seq<Byte>>
    requires |q| == 4
  {
    if q[3] != '=' then DecodeQuad(q)
    else
      var n := if q[2] == '=' then 1 else 2;
      var bytes := DecodeQuad(if n == 1 then q[..2] + "AA" else q[..3] + "A");
      if bytes.Some? && bytes.value[2] == 0 && (n == 2 || bytes.value[1] == 0) then Some(bytes.value[..n]) else None
  }

  function Decode(s: string): Option<seq<Byte>> {
    if s == "" then Some([])
    else if |s| < 4 then None
    else if |s| == 4 then DecodeLast(s)
    else
      var quad, rest := DecodeQuad(s[..4]), Decode(s[4..]);
      if quad.Some? && rest.Some? then Some(quad.value + rest.value) else None
  }

  lemma TripleRoundTrip(b0: Byte, b1: Byte, b2: Byte)
    ensures Triple(b0 / 4, b0 % 4 * 16 + b1 / 16, b1 % 16 * 4 + b2 / 64, b2 % 64) == [b0, b1, b2]
  {
    FirstOfTriple(b0, b1);
    SecondOfTriple(b0, b1, b2);
    ThirdOfTriple(b1, b2);
  }

  lemma FirstOfTriple(b0: Byte, b1: Byte)
    ensures b0 / 4 * 4 + (b0 % 4 * 16 + b1 / 16) / 16 == b0
  {}

  lemma SecondOfTriple(b0: Byte, b1: Byte, b2: Byte)
    ensures (b0 % 4 * 16 + b1 / 16) % 16 * 16 + (b1 % 16 * 4 + b2 / 64) / 4 == b1
  {}

  lemma ThirdOfTriple(b1: Byte, b2: Byte)
    ensures (b1 % 16 * 4 + b2 / 64) % 4 * 64 + b2 % 64 == b2
  {}

  lemma QuadRoundTrip(b0: Byte, b1: Byte, b2: Byte)
    ensures DecodeQuad(Quad(b0, b1, b2)) == Some([b0, b1, b2])
  {
    DigitRoundTrip(b0 / 4);
    DigitRoundTrip(b0 % 4 * 16 + b1 / 16);
    DigitRoundTrip(b1 % 16 * 4 + b2 / 64);
    DigitRoundTrip(b2 % 64);
    TripleRoundTrip(b0, b1, b2);
  }

  lemma QuadIsCanonical(q: string)
    requires |q| == 4 && DecodeQuad(q).Some?
    ensures var t := DecodeQuad(q).value; |t| == 3 && Quad(t[0], t[1], t[2]) == q
  {
    DigitIsCanonical(q[0]);
    DigitIsCanonical(q[1]);
    DigitIsCanonical(q[2]);
    DigitIsCanonical(q[3]);
    var d0, d1, d2, d3 := DecodeDigit(q[0]).value, DecodeDigit(q[1]).value, DecodeDigit(q[2]).value,
                          DecodeDigit(q[3]).value;
    var t := Triple(d0, d1, d2, d3);
    assert t[0] / 4 == d0 && t[0] % 4 * 16 + t[1] / 16 == d1;
    assert t[1] % 16 * 4 + t[2] / 64 == d2 && t[2] % 64 == d3;
    assert q == [q[0], q[1], q[2], q[3]];
  }

  lemma NoDigitIsPadding(b0: Byte, b1: Byte, b2: Byte)
    ensures forall i :: 0 <= i < 4 ==> Quad(b0, b1, b2)[i] != '='
    ensures b2 == 0 ==> Quad(b0, b1, b2)[3] == 'A'
    ensures b1 == b2 == 0 ==> Quad(b0, b1, b2)[2] == 'A'
  {
    DigitRoundTrip(b0 / 4);
    DigitRoundTrip(b0 % 4 * 16 + b1 / 16);
    DigitRoundTrip(b1 % 16 * 4 + b2 / 64);
    DigitRoundTrip(b2 % 64);
  }

  lemma PaddedRoundTrip(bytes: seq<Byte>)
    requires 1 <= |bytes| <= 2
    ensures |Encode(bytes)| == 4 && DecodeLast(Encode(bytes)) == Some(bytes)
  {
    var b1 := if |bytes| > 1 then bytes[1] else 0;
    var quad, q := Quad(bytes[0], b1, 0), Encode(bytes);
    QuadRoundTrip(bytes[0], b1, 0);
    NoDigitIsPadding(bytes[0], b1, 0);
    var t := [bytes[0], b1, 0];
    if |bytes| == 1 {
      assert q[..2] + "AA" == quad;
      assert t[..1] == bytes;
    } else {
      assert q[..3] + "A" == quad;
      assert t[..2] == bytes;
    }
  }

  lemma {:induction false} DecodeEncode(bytes: seq<Byte>)
    ensures Decode(Encode(bytes)) == Some(bytes)
  {
    hide Encode, Decode, Quad, DecodeQuad, DecodeLast;
    if bytes == [] {
      NothingEncoded();
    } else if |bytes| <= 2 {
      PaddedRoundTrip(bytes);
      DecodeFour(Encode(bytes));
    } else {
      QuadRoundTrip(bytes[0], bytes[1], bytes[2]);
      NoDigitIsPadding(bytes[0], bytes[1], bytes[2]);
      DecodeEncode(bytes[3..]);
      FirstThree(bytes);
      DecodeConcat(Quad(bytes[0], bytes[1], bytes[2]), Encode(bytes[3..]));
      assert bytes == [bytes[0], bytes[1], bytes[2]] + bytes[3..];
    }
  }

  lemma NothingEncoded()
    ensures Encode([]) == "" && Decode("") == Some([])
  {}

  lemma DecodeFour(s: string)
    requires |s| == 4
    ensures Decode(s) == DecodeLast(s)
  {}

  lemma FirstThree(bytes: seq<Byte>)
    requires |bytes| >= 3
    ensures Encode(bytes) == Quad(bytes[0], bytes[1], bytes[2]) + Encode(bytes[3..])
    ensures |Quad(bytes[0], bytes[1], bytes[2])| == 4
  {
    hide EncodeDigit;
  }

  lemma DecodeConcat(q: string, s: string)
    requires |q| == 4 && q[3] != '=' && DecodeQuad(q).Some? && Decode(s).Some?
    ensures Decode(q + s) == Some(DecodeQuad(q).value + Decode(s).value)
  {
    if s == "" {
      assert q + s == q && DecodeQuad(q).value + [] == DecodeQuad(q).value;
    } else {
      assert (q + s)[..4] == q && (q + s)[4..] == s;
    }
  }

  /** Only the canonical text of a byte string is accepted. */
  lemma {:induction false} EncodeDecode(s: string)
    requires Decode(s).Some?
    ensures Encode(Decode(s).value) == s
  {
    if s == "" {
    } else if |s| == 4 {
      LastIsCanonical(s);
    } else {
      var quad, rest := DecodeQuad(s[..4]).value, Decode(s[4..]).value;
      QuadIsCanonical(s[..4]);
      EncodeDecode(s[4..]);
      assert (quad + rest)[3..] == rest;
    }
  }

  lemma LastIsCanonical(q: string)
    requires |q| == 4 && DecodeLast(q).Some?
    ensures Encode(DecodeLast(q).value) == q
  {
    if q[3] != '=' {
      QuadIsCanonical(q);
      assert DecodeQuad(q).value[3..] == [];
    } else if q[2] == '=' {
      QuadIsCanonical(q[..2] + "AA");
      assert q == q[..2] + "==";
    } else {
      QuadIsCanonical(q[..3] + "A");
      var t := DecodeQuad(q[..3] + "A").value;
      assert t[2] == 0 && Encode(t[..2]) == Quad(t[0], t[1], 0)[..3] + "=";
      assert q == q[..3] + "=";
    }
  }

  /* As in the standard */

  /** Table 1 of RFC 4648, by rows of eight. */
  const ALPHABET := "ABCDEFGH" + "IJKLMNOP" + "QRSTUVWX" + "YZabcdef"
                    + "ghijklmn" + "opqrstuv" + "wxyz0123" + "456789+/"

  lemma DigitsAreStandard(d: Sextet)
    ensures |ALPHABET| == 64 && EncodeDigit(d) == ALPHABET[d]
  {
    hide EncodeDigit, Digits;
    FirstRows();
    LastRows();
    DigitsAre(0, 64, d);
  }

  function Digits(from: nat, n: nat): string
    requires from + n <= 64
    decreases n
  {
    if n == 0 then "" else [EncodeDigit(from)] + Digits(from + 1, n - 1)
  }

  lemma {:induction false} DigitsAre(from: nat, n: nat, i: nat)
    requires from + n <= 64 && i < n
    ensures |Digits(from, n)| == n && Digits(from, n)[i] == EncodeDigit(from + i)
    decreases n
  {
    hide EncodeDigit;
    if n > 1 { DigitsAre(from + 1, n - 1, if i > 0 then i - 1 else 0); }
  }

  lemma {:induction false} DigitsAreJoined(from: nat, n: nat, m: nat)
    requires from + n + m <= 64
    ensures Digits(from, n + m) == Digits(from, n) + Digits(from + n, m)
    decreases n
  {
    hide EncodeDigit;
    if n > 0 { DigitsAreJoined(from + 1, n - 1, m); }
  }

  lemma FirstRows()
    ensures Digits(0, 32) == "ABCDEFGH" + "IJKLMNOP" + "QRSTUVWX" + "YZabcdef"
  {
    hide EncodeDigit, Digits;
    Row0();
    Row1();
    Row2();
    Row3();
    DigitsAreJoined(0, 8, 8);
    DigitsAreJoined(0, 16, 8);
    DigitsAreJoined(0, 24, 8);
  }

  lemma LastRows()
    ensures Digits(0, 64) == Digits(0, 32) + "ghijklmn" + "opqrstuv" + "wxyz0123" + "456789+/"
  {
    hide EncodeDigit, Digits;
    Row4();
    Row5();
    Row6();
    Row7();
    DigitsAreJoined(0, 32, 8);
    DigitsAreJoined(0, 40, 8);
    DigitsAreJoined(0, 48, 8);
    DigitsAreJoined(0, 56, 8);
  }

  lemma Row0()
    ensures Digits(0, 8) == "ABCDEFGH"
  {}

  lemma Row1()
    ensures Digits(8, 8) == "IJKLMNOP"
  {}

  lemma Row2()
    ensures Digits(16, 8) == "QRSTUVWX"
  {}

  lemma Row3()
    ensures Digits(24, 8) == "YZabcdef"
  {}

  lemma Row4()
    ensures Digits(32, 8) == "ghijklmn"
  {}

  lemma Row5()
    ensures Digits(40, 8) == "opqrstuv"
  {}

  lemma Row6()
    ensures Digits(48, 8) == "wxyz0123"
  {}

  lemma Row7()
    ensures Digits(56, 8) == "456789+/"
  {}

  /** The number whose digits in base 64 are the characters of the text, the first one counting most. */
  function NumberOf(text: string): nat {
    if text == "" then 0
    else
      var n, c := |text| - 1, text[|text| - 1];
      64 * NumberOf(text[..n]) + DigitValue(c)
  }

  /** Where a character stands in the table. */
  function DigitValue(c: char): nat {
    if c in ALPHABET then Position(c, ALPHABET) else 0
  }

  function Position(c: char, among: string): (i: nat)
    requires c in among
    ensures i < |among| && among[i] == c && c !in among[..i]
  {
    if among[0] == c then 0
    else
      var i := Position(c, among[1..]);
      assert among[..i + 1] == [among[0]] + among[1..][..i];
      i + 1
  }

  /** The number whose digits in base 256 are the bytes. */
  function NumberOfBytes(bytes: seq<Byte>): nat {
    if bytes == [] then 0 else 256 * NumberOfBytes(bytes[..|bytes| - 1]) + bytes[|bytes| - 1]
  }

  lemma DigitPosition(d: Sextet)
    ensures DigitValue(EncodeDigit(d)) == d
  {
    DigitsAreStandard(d);
    var i := Position(ALPHABET[d], ALPHABET);
    DigitsAreStandard(i);
    DigitRoundTrip(d);
    DigitRoundTrip(i);
  }

  lemma NoDigits()
    ensures NumberOf("") == 0
  {}

  lemma NumberSnoc(text: string, c: char)
    ensures NumberOf(text + [c]) == 64 * NumberOf(text) + DigitValue(c)
  {
    assert (text + [c])[..|text|] == text;
  }

  lemma NumberOfQuad(d0: Sextet, d1: Sextet, d2: Sextet, d3: Sextet)
    ensures NumberOf([EncodeDigit(d0), EncodeDigit(d1), EncodeDigit(d2), EncodeDigit(d3)])
            == ((d0 * 64 + d1) * 64 + d2) * 64 + d3
  {
    hide EncodeDigit, DigitValue, NumberOf;
    NoDigits();
    var a, b, c, d := EncodeDigit(d0), EncodeDigit(d1), EncodeDigit(d2), EncodeDigit(d3);
    DigitPosition(d0);
    DigitPosition(d1);
    DigitPosition(d2);
    DigitPosition(d3);
    NumberSnoc("", a);
    NumberSnoc([a], b);
    NumberSnoc([a, b], c);
    NumberSnoc([a, b, c], d);
    assert "" + [a] == [a] && [a] + [b] == [a, b] && [a, b] + [c] == [a, b, c] && [a, b, c] + [d] == [a, b, c, d];
  }

  lemma NoBytes()
    ensures NumberOfBytes([]) == 0
  {}

  lemma BytesSnoc(bytes: seq<Byte>, b: Byte)
    ensures NumberOfBytes(bytes + [b]) == 256 * NumberOfBytes(bytes) + b
  {
    assert (bytes + [b])[..|bytes|] == bytes;
  }

  /** Four characters are the same number as the three bytes they stand for. */
  lemma QuadIsNumber(b0: Byte, b1: Byte, b2: Byte)
    ensures Encode([b0, b1, b2]) == Quad(b0, b1, b2)
    ensures NumberOf(Quad(b0, b1, b2)) == NumberOfBytes([b0, b1, b2])
  {
    hide EncodeDigit, DigitValue, NumberOf, NumberOfBytes;
    NoBytes();
    NumberOfQuad(b0 / 4, b0 % 4 * 16 + b1 / 16, b1 % 16 * 4 + b2 / 64, b2 % 64);
    BytesSnoc([], b0);
    BytesSnoc([b0], b1);
    BytesSnoc([b0, b1], b2);
    assert [] + [b0] == [b0] && [b0] + [b1] == [b0, b1] && [b0, b1] + [b2] == [b0, b1, b2];
    assert [b0, b1, b2][3..] == [];
  }

  /** Three bytes after the other become four characters each, and the last one or two bytes are filled up with zeros
      whose characters are replaced by padding. */
  lemma {:induction false} TextsAreJoined(bytes: seq<Byte>, more: seq<Byte>)
    requires |bytes| % 3 == 0
    ensures Encode(bytes + more) == Encode(bytes) + Encode(more)
    ensures |Encode(bytes)| == |bytes| / 3 * 4
    decreases |bytes|
  {
    hide Encode, Quad;
    if bytes == [] {
      NothingEncoded();
      assert bytes + more == more && "" + Encode(more) == Encode(more);
    } else {
      assert (bytes + more)[3..] == bytes[3..] + more;
      TextsAreJoined(bytes[3..], more);
      FirstThree(bytes);
      FirstThree(bytes + more);
    }
  }

  lemma LastIsPadded(b0: Byte, b1: Byte)
    ensures Encode([b0]) == Encode([b0, 0, 0])[..2] + "=="
    ensures Encode([b0, b1]) == Encode([b0, b1, 0])[..3] + "="
  {
    assert [b0, 0, 0][3..] == [] && [b0, b1, 0][3..] == [];
  }
}
