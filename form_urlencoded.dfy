/**
 * The application/x-www-form-urlencoded serializer of the WHATWG URL
 * Standard (section 5.2), which `URLSearchParams.prototype.toString` runs:
 * each name and value is UTF-8 encoded, then every byte outside ASCII
 * alphanumerics and `*-._` is written as `%` and two upper-case hex digits,
 * except the space byte, written `+`; pairs become `name=value` and are joined
 * with `&` in the order given.
 *
 * `Parse` is a strict inverse of `Serialize`, written to prove that the
 * serialization keeps every name, value and their order.
 */
module FormUrlencoded {
  import opened Wrappers
  import Utf8

  type Byte = Utf8.Byte

  /** Bytes written as themselves: ASCII alphanumerics and `*`, `-`, `.`, `_`. */
  predicate Unescaped(b: Byte)
  {
    b == 0x2A || b == 0x2D || b == 0x2E || 0x30 <= b <= 0x39 || 0x41 <= b <= 0x5A || b == 0x5F || 0x61 <= b <= 0x7A
  }

  predicate IsUpperHex(c: char) { '0' <= c <= '9' || 'A' <= c <= 'F' }

  function HexDigit(d: int): (c: char)
    requires 0 <= d < 16
    ensures IsUpperHex(c)
  {
    if d < 10 then ('0' as int + d) as char else ('A' as int + d - 10) as char
  }

  function HexValue(c: char): (d: int)
    requires IsUpperHex(c)
    ensures 0 <= d < 16
  {
    if c <= '9' then c as int - '0' as int else c as int - 'A' as int + 10
  }

  /** Every character a serialized component can contain. */
  predicate ComponentChar(c: char)
  {
    (c as int < 256 && Unescaped(c as int)) || c == '+' || c == '%' || IsUpperHex(c)
  }

  function EncodeByte(b: Byte): (s: string)
    ensures 1 <= |s| <= 3
    ensures forall i :: 0 <= i < |s| ==> ComponentChar(s[i])
  {
    if Unescaped(b) then [b as char]
    else if b == 0x20 then "+"
    else ['%', HexDigit(b / 16), HexDigit(b % 16)]
  }

  function EncodeBytes(bs: seq<Byte>): (s: string)
    ensures forall i :: 0 <= i < |s| ==> ComponentChar(s[i])
  {
    if bs == [] then "" else EncodeByte(bs[0]) + EncodeBytes(bs[1..])
  }

  /** Percent-encoding after UTF-8 encoding, with space as plus. */
  function EncodeComponent(s: string): (e: string)
    ensures forall i :: 0 <= i < |e| ==> ComponentChar(e[i])
  {
    EncodeBytes(Utf8.Encode(s))
  }

  function EncodePair(p: (string, string)): (s: string)
  {
    EncodeComponent(p.0) + "=" + EncodeComponent(p.1)
  }

  /** The pairs as `name=value`, in the given order, separated by `&`. */
  function Serialize(pairs: seq<(string, string)>): (s: string)
    ensures s == "" <==> pairs == []
  {
    if pairs == [] then ""
    else if |pairs| == 1 then EncodePair(pairs[0])
    else EncodePair(pairs[0]) + "&" + Serialize(pairs[1..])
  }

  // ---- the strict inverse ----

  function Prepend<T>(x: T, r: Option<seq<T>>): Option<seq<T>>
  {
    match r
    case None => None
    case Some(xs) => Some([x] + xs)
  }

  /** Reads back the bytes of a component: `+` is a space, `%XX` a byte, an unescaped character itself. */
  function DecodeBytes(s: string): Option<seq<Byte>>
    decreases |s|
  {
    if s == [] then Some([])
    else if s[0] == '+' then Prepend(0x20, DecodeBytes(s[1..]))
    else if s[0] == '%' then
      if |s| >= 3 && IsUpperHex(s[1]) && IsUpperHex(s[2])
      then Prepend(16 * HexValue(s[1]) + HexValue(s[2]), DecodeBytes(s[3..]))
      else None
    else if s[0] as int < 256 && Unescaped(s[0] as int) then Prepend(s[0] as int, DecodeBytes(s[1..]))
    else None
  }

  function DecodeComponent(s: string): Option<string>
  {
    match DecodeBytes(s)
    case None => None
    case Some(bs) => Utf8.Decode(bs)
  }

  /** Index of the first `c` in `s`, or `|s|` when there is none. */
  function IndexOf(s: string, c: char): (i: nat)
    ensures i <= |s|
    ensures i < |s| ==> s[i] == c
    ensures forall j :: 0 <= j < i ==> s[j] != c
  {
    if s == [] then 0 else if s[0] == c then 0 else 1 + IndexOf(s[1..], c)
  }

  function ParsePair(s: string): Option<(string, string)>
  {
    var i := IndexOf(s, '=');
    if i == |s| then None
    else match (DecodeComponent(s[..i]), DecodeComponent(s[i + 1..]))
      case (Some(name), Some(value)) => Some((name, value))
      case _ => None
  }

  function Parse(s: string): Option<seq<(string, string)>>
    decreases |s|
  {
    if s == [] then Some([])
    else
      var i := IndexOf(s, '&');
      match ParsePair(s[..i])
      case None => None
      case Some(p) => if i == |s| then Some([p]) else Prepend(p, Parse(s[i + 1..]))
  }

  // ---- proofs ----

  lemma {:induction false} DecodeEncodeBytes(bs: seq<Byte>)
    ensures DecodeBytes(EncodeBytes(bs)) == Some(bs)
  {
    if bs != [] {
      var b, s := bs[0], EncodeBytes(bs);
      var head := EncodeByte(b);
      assert s[..|head|] == head && s[|head|..] == EncodeBytes(bs[1..]);
      DecodeEncodeBytes(bs[1..]);
      if !Unescaped(b) && b != 0x20 {
        assert 16 * HexValue(s[1]) + HexValue(s[2]) == b;
      }
      assert [b] + bs[1..] == bs;
    }
  }

  lemma DecodeEncodeComponent(s: string)
    ensures DecodeComponent(EncodeComponent(s)) == Some(s)
  {
    DecodeEncodeBytes(Utf8.Encode(s));
    Utf8.DecodeEncode(s);
  }

  /** A serialized component never contains the separators `&` and `=`. */
  lemma ComponentHasNoSeparator(s: string, i: int)
    requires 0 <= i < |EncodeComponent(s)|
    ensures EncodeComponent(s)[i] != '&' && EncodeComponent(s)[i] != '='
  {
  }

  lemma {:induction false} IndexOfAfter(x: string, c: char, y: string)
    requires forall j :: 0 <= j < |x| ==> x[j] != c
    ensures IndexOf(x + [c] + y, c) == |x|
    ensures IndexOf(x, c) == |x|
  {
    if x != [] {
      assert (x + [c] + y)[1..] == x[1..] + [c] + y;
      IndexOfAfter(x[1..], c, y);
    }
  }

  lemma ParseEncodePair(p: (string, string))
    ensures ParsePair(EncodePair(p)) == Some(p)
  {
    var n, v := EncodeComponent(p.0), EncodeComponent(p.1);
    var s := EncodePair(p);
    forall j | 0 <= j < |n| ensures n[j] != '=' { ComponentHasNoSeparator(p.0, j); }
    IndexOfAfter(n, '=', v);
    assert s[..|n|] == n && s[|n| + 1..] == v;
    DecodeEncodeComponent(p.0);
    DecodeEncodeComponent(p.1);
  }

  lemma PairHasNoAmpersand(p: (string, string), j: int)
    requires 0 <= j < |EncodePair(p)|
    ensures EncodePair(p)[j] != '&'
  {
    var n := EncodeComponent(p.0);
    if j < |n| {
      ComponentHasNoSeparator(p.0, j);
    } else if j > |n| {
      ComponentHasNoSeparator(p.1, j - |n| - 1);
    }
  }

  /** Parsing recovers exactly the pairs that were serialized, in their order. */
  lemma {:induction false} ParseSerialize(pairs: seq<(string, string)>)
    ensures Parse(Serialize(pairs)) == Some(pairs)
  {
    if pairs != [] {
      var head := EncodePair(pairs[0]);
      forall j | 0 <= j < |head| ensures head[j] != '&' { PairHasNoAmpersand(pairs[0], j); }
      ParseEncodePair(pairs[0]);
      if |pairs| == 1 {
        IndexOfAfter(head, '&', "");
        assert Serialize(pairs) == head && head[..|head|] == head;
        assert [pairs[0]] == pairs;
      } else {
        var tail := Serialize(pairs[1..]);
        IndexOfAfter(head, '&', tail);
        assert Serialize(pairs)[..|head|] == head;
        assert Serialize(pairs)[|head| + 1..] == tail;
        ParseSerialize(pairs[1..]);
        assert [pairs[0]] + pairs[1..] == pairs;
      }
    }
  }

  /** Different pair lists (other names, other values, or another order) serialize differently. */
  lemma SerializeInjective(ps: seq<(string, string)>, qs: seq<(string, string)>)
    ensures Serialize(ps) == Serialize(qs) ==> ps == qs
  {
    ParseSerialize(ps);
    ParseSerialize(qs);
  }

  /** Bytes that need no escaping are written as the characters they encode. */
  lemma {:induction false} EncodeBytesUnescaped(bs: seq<Byte>)
    requires forall i :: 0 <= i < |bs| ==> Unescaped(bs[i])
    ensures |EncodeBytes(bs)| == |bs|
    ensures forall i :: 0 <= i < |bs| ==> EncodeBytes(bs)[i] as int == bs[i]
  {
    if bs != [] {
      EncodeBytesUnescaped(bs[1..]);
    }
  }

  /** Text made only of ASCII alphanumerics and `*-._`, such as a market name, is left unchanged. */
  lemma EncodeUnescapedText(s: string)
    requires forall i :: 0 <= i < |s| ==> s[i] as int < 0x80 && Unescaped(s[i] as int)
    ensures EncodeComponent(s) == s
  {
    Utf8.EncodeAscii(s);
    EncodeBytesUnescaped(Utf8.Encode(s));
  }

  lemma EncodeMarketName()
    ensures EncodeComponent("BTC-LTC") == "BTC-LTC"
  {
    EncodeUnescapedText("BTC-LTC");
  }

  /** Space becomes `+`; `&` and `~` are percent-encoded with upper-case hex. */
  lemma EncodeReservedExample()
    ensures EncodeComponent("a b&~") == "a+b%26%7E"
  {
    var s := "a b&~";
    assert Utf8.Encode(s[4..]) == [0x7E];
    assert Utf8.Encode(s[3..]) == [0x26, 0x7E];
    assert Utf8.Encode(s[2..]) == [0x62, 0x26, 0x7E];
    assert Utf8.Encode(s[1..]) == [0x20, 0x62, 0x26, 0x7E];
    var bs := Utf8.Encode(s);
    assert bs == [0x61, 0x20, 0x62, 0x26, 0x7E];
    assert EncodeByte(0x7E) == "%7E";
    assert EncodeByte(0x26) == "%26";
    assert EncodeBytes(bs[4..]) == "%7E";
    assert EncodeBytes(bs[3..]) == "%26%7E";
    assert EncodeBytes(bs[2..]) == "b%26%7E";
    assert EncodeBytes(bs[1..]) == "+b%26%7E";
  }

  /** Non-ASCII text is percent-encoded byte by byte in UTF-8. */
  lemma EncodeNonAsciiExample()
    ensures EncodeComponent("\U{e9}") == "%C3%A9"
  {
    var s := "\U{e9}";
    assert Utf8.Encode(s[1..]) == [];
    assert Utf8.Encode(s) == [0xC3, 0xA9];
    var bs := Utf8.Encode(s);
    assert EncodeBytes(bs[1..]) == "%A9";
  }
}
