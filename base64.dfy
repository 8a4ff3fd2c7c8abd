/**
 * The basic Base64 alphabet of section 4 of RFC 4648, as used by
 * java.util.Base64.getEncoder() (always padded) and getDecoder() (the basic,
 * non-MIME decoder). The decoder is modelled as the JDK implements it: padding
 * is optional, but where present it must complete the final unit and end the
 * input; the unused low bits of a final unit are ignored; any character outside
 * the alphabet is an error.
 */
module Base64 {
  import opened Wrappers

  type byte = bv8

  predicate IsAlphabet(c: char) {
    ('A' <= c <= 'Z') || ('a' <= c <= 'z') || ('0' <= c <= '9') || c == '+' || c == '/'
  }

  /** The character of a six-bit value. */
  function CharOf(v: byte): (c: char)
    requires v < 64
    ensures IsAlphabet(c)
  {
    if v < 26 then ('A' as int + v as int) as char
    else if v < 52 then ('a' as int + (v as int - 26)) as char
    else if v < 62 then ('0' as int + (v as int - 52)) as char
    else if v == 62 then '+'
    else '/'
  }

  /** The six-bit value of an alphabet character. */
  function ValueOf(c: char): (v: byte)
    requires IsAlphabet(c)
    ensures v < 64
  {
    if 'A' <= c <= 'Z' then (c as int - 'A' as int) as byte
    else if 'a' <= c <= 'z' then (c as int - 'a' as int + 26) as byte
    else if '0' <= c <= '9' then (c as int - '0' as int + 52) as byte
    else if c == '+' then 62
    else 63
  }

  lemma ValueOfCharOf(v: byte)
    requires v < 64
    ensures ValueOf(CharOf(v)) == v
  {
  }

  // ---------------------------------------------------------------------------
  // Encoding
  // ---------------------------------------------------------------------------

  /** Three bytes become four characters. */
  function EncodeUnit(a: byte, b: byte, c: byte): string {
    [CharOf(a >> 2), CharOf(((a & 3) << 4) | (b >> 4)), CharOf(((b & 15) << 2) | (c >> 6)), CharOf(c & 63)]
  }

  /** `Base64.getEncoder().encodeToString(b)` */
  function Encode(b: seq<byte>): (s: string)
    ensures forall i :: 0 <= i < |s| ==> IsAlphabet(s[i]) || s[i] == '='
    decreases |b|
  {
    if |b| >= 3 then EncodeUnit(b[0], b[1], b[2]) + Encode(b[3..])
    else if |b| == 2 then [CharOf(b[0] >> 2), CharOf(((b[0] & 3) << 4) | (b[1] >> 4)), CharOf((b[1] & 15) << 2), '=']
    else if |b| == 1 then [CharOf(b[0] >> 2), CharOf((b[0] & 3) << 4), '=', '=']
    else ""
  }

  // ---------------------------------------------------------------------------
  // Decoding
  // ---------------------------------------------------------------------------

  function FirstByte(w: byte, x: byte): byte {
    (w << 2) | (x >> 4)
  }

  function SecondByte(x: byte, y: byte): byte {
    ((x & 15) << 4) | (y >> 2)
  }

  function ThirdByte(y: byte, z: byte): byte {
    ((y & 3) << 6) | z
  }

  predicate IsFullUnit(s: string) {
    |s| >= 4 && IsAlphabet(s[0]) && IsAlphabet(s[1]) && IsAlphabet(s[2]) && IsAlphabet(s[3])
  }

  /** What a decodable remainder tells about the input once a full unit of
      four alphabet characters is put in front of it. */
  lemma UnitPrefix(s: string, n: nat)
    requires IsFullUnit(s)
    requires |s[4..]| % 4 != 1
    requires forall i :: 0 <= i < |s[4..]| ==> IsAlphabet(s[4..][i]) || s[4..][i] == '='
    requires forall i :: 0 <= i < |s[4..]| && s[4..][i] == '=' ==> |s[4..]| % 4 == 0 && i >= |s[4..]| - 2
    requires 3 * |s[4..]| / 4 - 2 <= n <= 3 * |s[4..]| / 4
    ensures |s| % 4 != 1
    ensures forall i :: 0 <= i < |s| ==> IsAlphabet(s[i]) || s[i] == '='
    ensures forall i :: 0 <= i < |s| && s[i] == '=' ==> |s| % 4 == 0 && i >= |s| - 2
    ensures 3 * |s| / 4 - 2 <= n + 3 <= 3 * |s| / 4
  {
    forall i | 4 <= i < |s| ensures s[i] == s[4..][i - 4] { }
  }

  /** `Base64.getDecoder().decode(s)`; None where the JDK throws IllegalArgumentException. */
  function Decode(s: string): (r: Option<seq<byte>>)
    ensures r.Some? ==> |s| % 4 != 1
    ensures r.Some? ==> forall i :: 0 <= i < |s| ==> IsAlphabet(s[i]) || s[i] == '='
    ensures r.Some? ==> forall i :: 0 <= i < |s| && s[i] == '=' ==> |s| % 4 == 0 && i >= |s| - 2
    ensures r.Some? ==> 3 * |s| / 4 - 2 <= |r.value| <= 3 * |s| / 4
    decreases |s|
  {
    if s == [] then Some([])
    else if IsFullUnit(s) then
      match Decode(s[4..])
      case None => None
      case Some(rest) =>
        UnitPrefix(s, |rest|);
        var w, x, y, z := ValueOf(s[0]), ValueOf(s[1]), ValueOf(s[2]), ValueOf(s[3]);
        Some([FirstByte(w, x), SecondByte(x, y), ThirdByte(y, z)] + rest)
    else DecodeFinal(s)
  }

  /** The last unit: fewer than four alphabet characters before the input ends,
      before padding, or before a character outside the alphabet. */
  function DecodeFinal(s: string): (r: Option<seq<byte>>)
    requires !IsFullUnit(s)
    ensures r.Some? ==> 2 <= |s| <= 4
    ensures r.Some? ==> forall i :: 0 <= i < |s| ==> IsAlphabet(s[i]) || s[i] == '='
    ensures r.Some? ==> forall i :: 0 <= i < |s| && s[i] == '=' ==> |s| == 4 && i >= 2
    ensures r.Some? ==> |r.value| == (if |s| < 4 then |s| - 1 else if s[2] == '=' then 1 else 2)
  {
    if |s| < 2 || !IsAlphabet(s[0]) || !IsAlphabet(s[1]) then None
    else
      var w, x := ValueOf(s[0]), ValueOf(s[1]);
      if |s| == 2 then Some([FirstByte(w, x)])
      else if !IsAlphabet(s[2]) then
        if s[2..] == "==" then
          assert |s| == 4 && s[2] == '=' && s[3] == '=';
          Some([FirstByte(w, x)])
        else None
      else
        var y := ValueOf(s[2]);
        if |s| == 3 then Some([FirstByte(w, x), SecondByte(x, y)])
        else if s[3..] == "=" then
          assert |s| == 4 && s[3] == '=';
          Some([FirstByte(w, x), SecondByte(x, y)])
        else None
  }

  // ---------------------------------------------------------------------------
  // Round trip
  // ---------------------------------------------------------------------------

  lemma UnitRoundTrip(a: byte, b: byte, c: byte)
    ensures var v0, v1, v2, v3 := a >> 2, ((a & 3) << 4) | (b >> 4), ((b & 15) << 2) | (c >> 6), c & 63;
      v0 < 64 && v1 < 64 && v2 < 64 && v3 < 64 &&
      FirstByte(v0, v1) == a && SecondByte(v1, v2) == b && ThirdByte(v2, v3) == c
  {
  }

  lemma DecodeAfterUnit(a: byte, b: byte, c: byte, rest: string)
    requires Decode(rest).Some?
    ensures Decode(EncodeUnit(a, b, c) + rest) == Some([a, b, c] + Decode(rest).value)
  {
    var s := EncodeUnit(a, b, c) + rest;
    var v0, v1, v2, v3 := a >> 2, ((a & 3) << 4) | (b >> 4), ((b & 15) << 2) | (c >> 6), c & 63;
    UnitRoundTrip(a, b, c);
    ValueOfCharOf(v0); ValueOfCharOf(v1); ValueOfCharOf(v2); ValueOfCharOf(v3);
    assert s[0] == CharOf(v0) && s[1] == CharOf(v1) && s[2] == CharOf(v2) && s[3] == CharOf(v3);
    assert s[4..] == rest;
  }

  lemma DecodeThreeChars(c0: char, c1: char, c2: char)
    requires IsAlphabet(c0) && IsAlphabet(c1) && IsAlphabet(c2)
    ensures Decode([c0, c1, c2, '=']) == Some([FirstByte(ValueOf(c0), ValueOf(c1)), SecondByte(ValueOf(c1), ValueOf(c2))])
  {
    var s := [c0, c1, c2, '='];
    assert !IsFullUnit(s) && s[3..] == "=";
  }

  lemma DecodeTwoChars(c0: char, c1: char)
    requires IsAlphabet(c0) && IsAlphabet(c1)
    ensures Decode([c0, c1, '=', '=']) == Some([FirstByte(ValueOf(c0), ValueOf(c1))])
  {
    var s := [c0, c1, '=', '='];
    assert !IsFullUnit(s) && s[2..] == "==";
  }

  lemma EncodeTwoBytes(a: byte, b: byte)
    ensures Encode([a, b]) == [CharOf(a >> 2), CharOf(((a & 3) << 4) | (b >> 4)), CharOf((b & 15) << 2), '=']
  {
  }

  lemma DecodeTwoBytes(a: byte, b: byte)
    ensures Decode(Encode([a, b])) == Some([a, b])
  {
    var v0, v1, v2 := a >> 2, ((a & 3) << 4) | (b >> 4), (b & 15) << 2;
    PairRoundTrip(a, b);
    EncodeTwoBytes(a, b);
    ValueOfCharOf(v0); ValueOfCharOf(v1); ValueOfCharOf(v2);
    DecodeThreeChars(CharOf(v0), CharOf(v1), CharOf(v2));
  }

  lemma DecodeOneByte(a: byte)
    ensures Decode(Encode([a])) == Some([a])
  {
    var v0, v1 := a >> 2, (a & 3) << 4;
    UnitRoundTrip(a, 0, 0);
    ValueOfCharOf(v0); ValueOfCharOf(v1);
    assert Encode([a]) == [CharOf(v0), CharOf(v1), '=', '='];
    DecodeTwoChars(CharOf(v0), CharOf(v1));
  }

  lemma PairRoundTrip(a: byte, b: byte)
    ensures var v0, v1, v2 := a >> 2, ((a & 3) << 4) | (b >> 4), (b & 15) << 2;
      v0 < 64 && v1 < 64 && v2 < 64 && FirstByte(v0, v1) == a && SecondByte(v1, v2) == b
  {
  }

  lemma EncodeLeadingUnit(b: seq<byte>)
    requires |b| >= 3
    ensures Encode(b) == EncodeUnit(b[0], b[1], b[2]) + Encode(b[3..])
  {
  }

  lemma DecodeShortEncode(b: seq<byte>)
    requires |b| < 3
    ensures Decode(Encode(b)) == Some(b)
  {
    if |b| == 2 {
      var x, y := b[0], b[1];
      assert b == [x, y];
      DecodeTwoBytes(x, y);
    } else if |b| == 1 {
      var x := b[0];
      assert b == [x];
      DecodeOneByte(x);
    } else {
      assert b == [];
    }
  }

  /** Decoding what the encoder produced gives back the original bytes. */
  lemma {:induction false} DecodeEncode(b: seq<byte>)
    ensures Decode(Encode(b)) == Some(b)
    decreases |b|
  {
    if |b| >= 3 {
      var rest := Encode(b[3..]);
      DecodeEncode(b[3..]);
      DecodeAfterUnit(b[0], b[1], b[2], rest);
      EncodeLeadingUnit(b);
      assert b == [b[0], b[1], b[2]] + b[3..];
    } else {
      DecodeShortEncode(b);
    }
  }
}
