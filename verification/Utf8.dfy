/** UTF-8 (section 3 of RFC 3629), as `str::from_utf8` accepts it. */
module Utf8 {
  import opened Text

  type Byte = n: int | 0 <= n < 256

  /** The code point in base 64, last digit last. */
  function EncodeChar(c: char): (bytes: seq<Byte>)
    ensures 1 <= |bytes| <= 4
  {
    var n := c as int;
    var (n1, n2, n3) := (n / 64, n / 64 / 64, n / 64 / 64 / 64);
    if n < 0x80 then [n]
    else if n < 0x800 then [0xC0 + n1, 0x80 + n % 64]
    else if n < 0x10000 then [0xE0 + n2, 0x80 + n1 % 64, 0x80 + n % 64]
    else [0xF0 + n3, 0x80 + n2 % 64, 0x80 + n1 % 64, 0x80 + n % 64]
  }

  function Encode(text: string): seq<Byte> {
    if text == "" then [] else EncodeChar(text[0]) + Encode(text[1..])
  }

  predicate Continuation(b: Byte) {
    0x80 <= b < 0xC0
  }

  predicate Scalar(n: int) {
    0 <= n < 0xD800 || 0xE000 <= n < 0x110000
  }

  /** Reads `count` continuation bytes after the leading digit `high`. */
  function Continue(high: int, bytes: seq<Byte>, count: nat): (n: Option<int>)
    requires 0 <= high
    ensures n.Some? ==> count <= |bytes| && 0 <= n.value
    decreases count
  {
    if count == 0 then Some(high)
    else if bytes == [] || !Continuation(bytes[0]) then None
    else
      var digit: int := bytes[0];
      Continue(high * 64 + (digit - 0x80), bytes[1..], count - 1)
  }

  function Checked(n: Option<int>, least: nat, used: nat): (decoded: Option<(char, nat)>)
    ensures decoded.Some? ==>
      n.Some? && decoded.value.0 as int == n.value && decoded.value.1 == used && least <= n.value
  {
    if n.Some? && least <= n.value && Scalar(n.value) then Some((n.value as char, used)) else None
  }

  /** The first character and the number of bytes it takes; overlong forms and surrogates are refused. */
  function DecodeChar(bytes: seq<Byte>): (decoded: Option<(char, nat)>)
    ensures decoded.Some? ==> 1 <= decoded.value.1 <= |bytes|
  {
    if bytes == [] then None
    else
      var first: int := bytes[0];
      if first < 0x80 then Some((first as char, 1))
      else if first < 0xC0 then None
      else if first < 0xE0 then Checked(Continue(first - 0xC0, bytes[1..], 1), 0x80, 2)
      else if first < 0xF0 then Checked(Continue(first - 0xE0, bytes[1..], 2), 0x800, 3)
      else if first < 0xF8 then Checked(Continue(first - 0xF0, bytes[1..], 3), 0x10000, 4)
      else None
  }

  function Decode(bytes: seq<Byte>): Option<string> {
    if bytes == [] then Some("")
    else match DecodeChar(bytes)
      case None => None
      case Some((c, used)) =>
        match Decode(bytes[used..])
        case None => None
        case Some(rest) => Some([c] + rest)
  }

  lemma ContinueOne(high: int, digit: int, count: nat, rest: seq<Byte>)
    requires 0 <= high && 0 <= digit < 64 && count > 0
    ensures Continue(high, [0x80 + digit] + rest, count) == Continue(high * 64 + digit, rest, count - 1)
  {
    assert ([0x80 + digit] + rest)[1..] == rest;
  }

  lemma TwoBytes(c: char, rest: seq<Byte>)
    requires 0x80 <= c as int < 0x800
    ensures DecodeChar(EncodeChar(c) + rest) == Some((c, |EncodeChar(c)|))
  {
    hide Continue;
    var n := c as int;
    assert (EncodeChar(c) + rest)[1..] == [0x80 + n % 64] + rest;
    ContinueOne(n / 64, n % 64, 1, rest);
    ContinueEnd(n, rest);
  }

  lemma ThreeBytes(c: char, rest: seq<Byte>)
    requires 0x800 <= c as int < 0x10000
    ensures DecodeChar(EncodeChar(c) + rest) == Some((c, |EncodeChar(c)|))
  {
    hide Continue;
    var n := c as int;
    var (n1, n2) := (n / 64, n / 64 / 64);
    assert (EncodeChar(c) + rest)[1..] == [0x80 + n1 % 64] + ([0x80 + n % 64] + rest);
    ContinueOne(n2, n1 % 64, 2, [0x80 + n % 64] + rest);
    ContinueOne(n1, n % 64, 1, rest);
    ContinueEnd(n, rest);
  }

  lemma FourBytes(c: char, rest: seq<Byte>)
    requires 0x10000 <= c as int
    ensures DecodeChar(EncodeChar(c) + rest) == Some((c, |EncodeChar(c)|))
  {
    hide Continue;
    var n := c as int;
    var (n1, n2, n3) := (n / 64, n / 64 / 64, n / 64 / 64 / 64);
    assert (EncodeChar(c) + rest)[1..] == [0x80 + n2 % 64] + ([0x80 + n1 % 64] + ([0x80 + n % 64] + rest));
    ContinueOne(n3, n2 % 64, 3, [0x80 + n1 % 64] + ([0x80 + n % 64] + rest));
    ContinueOne(n2, n1 % 64, 2, [0x80 + n % 64] + rest);
    ContinueOne(n1, n % 64, 1, rest);
    ContinueEnd(n, rest);
  }

  lemma DecodeCharEncoded(c: char, rest: seq<Byte>)
    ensures DecodeChar(EncodeChar(c) + rest) == Some((c, |EncodeChar(c)|))
  {
    var n := c as int;
    if n < 0x80 {
      assert EncodeChar(c) == [n];
    } else {
      hide EncodeChar, DecodeChar;
      if n < 0x800 {
        TwoBytes(c, rest);
      } else if n < 0x10000 {
        ThreeBytes(c, rest);
      } else {
        FourBytes(c, rest);
      }
    }
  }

  lemma ContinueEnd(n: int, rest: seq<Byte>)
    requires 0 <= n
    ensures Continue(n, rest, 0) == Some(n)
  {
  }

  /** Decoding inverts encoding. */
  lemma {:induction false} DecodeEncoded(text: string)
    ensures Decode(Encode(text)) == Some(text)
  {
    hide EncodeChar, DecodeChar;
    if text != "" {
      DecodeCharEncoded(text[0], Encode(text[1..]));
      DecodeEncoded(text[1..]);
      assert (EncodeChar(text[0]) + Encode(text[1..]))[|EncodeChar(text[0])|..] == Encode(text[1..]);
      assert [text[0]] + text[1..] == text;
    }
  }

  lemma {:induction false} EncodeHasNoZero(text: string)
    requires '\0' !in text
    ensures 0 !in Encode(text)
  {
    if text != "" {
      assert text[0] != '\0';
      assert forall c :: c in text[1..] ==> c in text;
      EncodeHasNoZero(text[1..]);
    }
  }

  lemma {:induction false} EncodeLength(text: string)
    ensures |Encode(text)| <= 4 * |text|
  {
    if text != "" {
      EncodeLength(text[1..]);
    }
  }

  // Nothing else decodes

  lemma ContinueReads(high: int, bytes: seq<Byte>, count: nat)
    requires 0 <= high && count > 0 && Continue(high, bytes, count).Some?
    ensures bytes != [] && Continuation(bytes[0])
    ensures Continue(high, bytes, count) == Continue(high * 64 + (bytes[0] as int - 0x80), bytes[1..], count - 1)
  {
  }

  lemma Base64(high: int, digit: int)
    requires 0 <= high && 0 <= digit < 64
    ensures (high * 64 + digit) / 64 == high && (high * 64 + digit) % 64 == digit
  {
  }

  lemma TwoBytesExact(bytes: seq<Byte>)
    requires bytes != [] && 0xC0 <= bytes[0] < 0xE0 && DecodeChar(bytes).Some?
    ensures bytes[..DecodeChar(bytes).value.1] == EncodeChar(DecodeChar(bytes).value.0)
  {
    var first: int := bytes[0];
    ContinueReads(first - 0xC0, bytes[1..], 1);
    Base64(first - 0xC0, bytes[1] as int - 0x80);
  }

  lemma ThreeBytesExact(bytes: seq<Byte>)
    requires bytes != [] && 0xE0 <= bytes[0] < 0xF0 && DecodeChar(bytes).Some?
    ensures bytes[..DecodeChar(bytes).value.1] == EncodeChar(DecodeChar(bytes).value.0)
  {
    var first: int := bytes[0];
    ContinueReads(first - 0xE0, bytes[1..], 2);
    var high := (first - 0xE0) * 64 + (bytes[1] as int - 0x80);
    assert bytes[1..][1..] == bytes[2..];
    ContinueReads(high, bytes[2..], 1);
    Base64(first - 0xE0, bytes[1] as int - 0x80);
    Base64(high, bytes[2] as int - 0x80);
  }

  lemma FourBytesExact(bytes: seq<Byte>)
    requires bytes != [] && 0xF0 <= bytes[0] < 0xF8 && DecodeChar(bytes).Some?
    ensures bytes[..DecodeChar(bytes).value.1] == EncodeChar(DecodeChar(bytes).value.0)
  {
    var first: int := bytes[0];
    ContinueReads(first - 0xF0, bytes[1..], 3);
    var high := (first - 0xF0) * 64 + (bytes[1] as int - 0x80);
    assert bytes[1..][1..] == bytes[2..];
    ContinueReads(high, bytes[2..], 2);
    var higher := high * 64 + (bytes[2] as int - 0x80);
    assert bytes[2..][1..] == bytes[3..];
    ContinueReads(higher, bytes[3..], 1);
    Base64(first - 0xF0, bytes[1] as int - 0x80);
    Base64(high, bytes[2] as int - 0x80);
    Base64(higher, bytes[3] as int - 0x80);
  }

  lemma DecodeCharExact(bytes: seq<Byte>)
    requires DecodeChar(bytes).Some?
    ensures bytes[..DecodeChar(bytes).value.1] == EncodeChar(DecodeChar(bytes).value.0)
  {
    if bytes[0] >= 0x80 {
      hide EncodeChar, Continue;
      if bytes[0] < 0xE0 {
        TwoBytesExact(bytes);
      } else if bytes[0] < 0xF0 {
        ThreeBytesExact(bytes);
      } else {
        FourBytesExact(bytes);
      }
    }
  }

  /** Only the encoding of a text decodes to it: overlong forms, surrogates and stray bytes decode to nothing. */
  lemma {:induction false} DecodeIsExact(bytes: seq<Byte>)
    requires Decode(bytes).Some?
    ensures Encode(Decode(bytes).value) == bytes
  {
    hide EncodeChar, DecodeChar;
    if bytes != [] {
      DecodeCharExact(bytes);
      var (c, used) := DecodeChar(bytes).value;
      DecodeIsExact(bytes[used..]);
      var rest := Decode(bytes[used..]).value;
      assert ([c] + rest)[1..] == rest;
    }
  }
}
