/**
 * UTF-8 encoding of Unicode scalar values (RFC 3629, section 3), the step
 * the form-urlencoded serializer applies to every name and value before
 * percent-encoding. A Dafny `char` is a Unicode scalar value, so every string
 * has an encoding; `Decode` is the strict inverse used to show that the
 * encoding loses nothing.
 */
module Utf8 {
  import opened Wrappers

  type Byte = b: int | 0 <= b < 256

  predicate IsScalar(n: int) { 0 <= n < 0xD800 || 0xE000 <= n < 0x11_0000 }

  predicate IsContinuation(b: Byte) { 0x80 <= b < 0xC0 }

  /** The bytes of one scalar value: 1 to 4 of them, by the size of the code point. */
  function EncodeChar(c: char): (bs: seq<Byte>)
    ensures 1 <= |bs| <= 4
    ensures |bs| == 1 <==> c as int < 0x80
    ensures |bs| == 1 ==> bs[0] == c as int
    ensures forall i :: 1 <= i < |bs| ==> IsContinuation(bs[i])
  {
    var n := c as int;
    if n < 0x80 then [n]
    else if n < 0x800 then [0xC0 + n / 64, 0x80 + n % 64]
    else if n < 0x1_0000 then [0xE0 + n / 4096, 0x80 + (n / 64) % 64, 0x80 + n % 64]
    else [0xF0 + n / 0x4_0000, 0x80 + (n / 4096) % 64, 0x80 + (n / 64) % 64, 0x80 + n % 64]
  }

  function Encode(s: string): (bs: seq<Byte>)
    ensures |bs| >= |s|
  {
    if s == [] then [] else EncodeChar(s[0]) + Encode(s[1..])
  }

  /** How many bytes a sequence starting with lead byte `b` spans; 0 when `b` cannot start one. */
  function LeadLength(b: Byte): nat
  {
    if b < 0x80 then 1
    else if 0xC2 <= b < 0xE0 then 2
    else if 0xE0 <= b < 0xF0 then 3
    else if 0xF0 <= b < 0xF5 then 4
    else 0
  }

  /** The scalar value of one complete sequence, rejecting overlong forms and surrogates. */
  function DecodeScalar(bs: seq<Byte>): Option<char>
    requires 1 <= |bs| <= 4 && LeadLength(bs[0]) == |bs|
  {
    if exists i :: 1 <= i < |bs| && !IsContinuation(bs[i]) then None
    else
      var n: int :=
        if |bs| == 1 then bs[0]
        else if |bs| == 2 then (bs[0] as int - 0xC0) * 64 + (bs[1] as int - 0x80)
        else if |bs| == 3 then (bs[0] as int - 0xE0) * 4096 + (bs[1] as int - 0x80) * 64 + (bs[2] as int - 0x80)
        else (bs[0] as int - 0xF0) * 0x4_0000 + (bs[1] as int - 0x80) * 4096 + (bs[2] as int - 0x80) * 64 + (bs[3] as int - 0x80);
      var least: int := if |bs| == 1 then 0 else if |bs| == 2 then 0x80 else if |bs| == 3 then 0x800 else 0x1_0000;
      if least <= n && IsScalar(n) then Some(n as char) else None
  }

  function Decode(bs: seq<Byte>): Option<string>
    decreases |bs|
  {
    if bs == [] then Some([])
    else
      var k := LeadLength(bs[0]);
      if k == 0 || |bs| < k then None
      else match DecodeScalar(bs[..k])
        case None => None
        case Some(c) =>
          match Decode(bs[k..])
          case None => None
          case Some(s) => Some([c] + s)
  }

  /** `n` in base 64, up to three digits above the last. */
  lemma Base64Digits(n: nat)
    ensures n == (n / 64) * 64 + n % 64
    ensures n / 64 == (n / 4096) * 64 + (n / 64) % 64
    ensures n / 4096 == (n / 0x4_0000) * 64 + (n / 4096) % 64
  {
    var q := n / 64;
    assert n / 4096 == q / 64;
    var r := n / 4096;
    assert n / 0x4_0000 == r / 64;
  }

  lemma EncodeTwoDecodes(c: char)
    requires 0x80 <= c as int < 0x800
    ensures LeadLength(EncodeChar(c)[0]) == 2
    ensures DecodeScalar(EncodeChar(c)) == Some(c)
  {
    var n := c as int;
    Base64Digits(n);
    var bs := EncodeChar(c);
    assert bs == [0xC0 + n / 64, 0x80 + n % 64];
    assert (bs[0] as int - 0xC0) * 64 + (bs[1] as int - 0x80) == n;
  }

  lemma EncodeThreeDecodes(c: char)
    requires 0x800 <= c as int < 0x1_0000
    ensures LeadLength(EncodeChar(c)[0]) == 3
    ensures DecodeScalar(EncodeChar(c)) == Some(c)
  {
    var n := c as int;
    Base64Digits(n);
    var bs := EncodeChar(c);
    assert bs == [0xE0 + n / 4096, 0x80 + (n / 64) % 64, 0x80 + n % 64];
    assert (bs[0] as int - 0xE0) * 4096 + (bs[1] as int - 0x80) * 64 + (bs[2] as int - 0x80) == n;
  }

  lemma EncodeFourDecodes(c: char)
    requires 0x1_0000 <= c as int
    ensures LeadLength(EncodeChar(c)[0]) == 4
    ensures DecodeScalar(EncodeChar(c)) == Some(c)
  {
    var n := c as int;
    Base64Digits(n);
    var bs := EncodeChar(c);
    assert bs == [0xF0 + n / 0x4_0000, 0x80 + (n / 4096) % 64, 0x80 + (n / 64) % 64, 0x80 + n % 64];
    assert (bs[0] as int - 0xF0) * 0x4_0000 + (bs[1] as int - 0x80) * 4096 + (bs[2] as int - 0x80) * 64 + (bs[3] as int - 0x80) == n;
  }

  /** Each scalar value's bytes form one complete sequence that decodes back to it. */
  lemma EncodeCharDecodes(c: char)
    ensures LeadLength(EncodeChar(c)[0]) == |EncodeChar(c)|
    ensures DecodeScalar(EncodeChar(c)) == Some(c)
  {
    var n := c as int;
    if n < 0x80 {
    } else if n < 0x800 {
      EncodeTwoDecodes(c);
    } else if n < 0x1_0000 {
      EncodeThreeDecodes(c);
    } else {
      EncodeFourDecodes(c);
    }
  }

  /** Decoding undoes encoding, so distinct strings never share an encoding. */
  lemma {:induction false} DecodeEncode(s: string)
    ensures Decode(Encode(s)) == Some(s)
  {
    if s != [] {
      var head := EncodeChar(s[0]);
      var bs := Encode(s);
      EncodeCharDecodes(s[0]);
      assert bs[..|head|] == head;
      assert bs[|head|..] == Encode(s[1..]);
      DecodeEncode(s[1..]);
      assert [s[0]] + s[1..] == s;
    }
  }

  lemma EncodeInjective(s: string, t: string)
    ensures Encode(s) == Encode(t) ==> s == t
  {
    DecodeEncode(s);
    DecodeEncode(t);
  }

  /** Text made of ASCII characters encodes byte for byte. */
  lemma {:induction false} EncodeAscii(s: string)
    requires forall i :: 0 <= i < |s| ==> s[i] as int < 0x80
    ensures |Encode(s)| == |s|
    ensures forall i :: 0 <= i < |s| ==> Encode(s)[i] == s[i] as int
  {
    if s != [] {
      EncodeAscii(s[1..]);
    }
  }
}
