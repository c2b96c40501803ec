/** The tail of a recipe's output: cut anywhere, it starts again at a whole character. */
module OutputTail {
  import opened Text
  import opened Utf8

  function SkipContinuation(bytes: seq<Byte>): seq<Byte> {
    if bytes != [] && Continuation(bytes[0]) then SkipContinuation(bytes[1..]) else bytes
  }

  /** At most `max` bytes from the end. */
  function Cut(file: seq<Byte>, max: nat): seq<Byte> {
    if |file| <= max then file else file[|file| - max..]
  }

  /** What is read before it is decoded. */
  method ReadTail(file: seq<Byte>, max: nat) returns (bytes: seq<Byte>)
    ensures bytes == SkipContinuation(Cut(file, max))
  {
    var start := if |file| <= max then 0 else |file| - max;
    bytes := file[start..];
    assert bytes == Cut(file, max);
    while bytes != [] && Continuation(bytes[0])
      invariant SkipContinuation(bytes) == SkipContinuation(Cut(file, max))
      decreases |bytes|
    {
      bytes := bytes[1..];
    }
  }

  /** Only the first byte of a character starts one. */
  lemma CharBytes(c: char)
    ensures var bytes := EncodeChar(c);
      !Continuation(bytes[0]) && forall i | 1 <= i < |bytes| :: Continuation(bytes[i])
  {
  }

  lemma {:induction false} SkipPart(part: seq<Byte>, rest: seq<Byte>)
    requires forall i | 0 <= i < |part| :: Continuation(part[i])
    requires rest != [] ==> !Continuation(rest[0])
    ensures SkipContinuation(part + rest) == rest
  {
    hide Continuation;
    if part == [] {
      assert part + rest == rest;
    } else {
      assert (part + rest)[1..] == part[1..] + rest;
      SkipPart(part[1..], rest);
    }
  }

  lemma EncodeStarts(text: string)
    ensures Encode(text) != [] ==> !Continuation(Encode(text)[0])
  {
    hide EncodeChar, Continuation;
    if text != "" {
      CharBytes(text[0]);
    }
  }

  /** The number of characters that start before byte `at`. */
  function StartsBefore(text: string, at: nat): (count: nat)
    ensures count <= |text|
    decreases |text|
  {
    if text == "" || at == 0 then 0
    else if at <= |EncodeChar(text[0])| then 1
    else 1 + StartsBefore(text[1..], at - |EncodeChar(text[0])|)
  }

  lemma EncodeStep(text: string)
    requires text != ""
    ensures Encode(text) == EncodeChar(text[0]) + Encode(text[1..])
  {
    hide EncodeChar;
  }

  lemma {:induction false} SkipFrom(text: string, at: nat)
    requires at <= |Encode(text)|
    ensures SkipContinuation(Encode(text)[at..]) == Encode(text[StartsBefore(text, at)..])
    decreases |text|
  {
    hide EncodeChar, Continuation, Encode, SkipContinuation;
    if text == "" || at == 0 {
      EncodeStarts(text);
      assert Encode(text)[at..] == [] + Encode(text) by { EmptyText(); }
      SkipPart([], Encode(text));
      assert text[0..] == text;
    } else {
      var first, rest := EncodeChar(text[0]), Encode(text[1..]);
      EncodeStep(text);
      if at <= |first| {
        CharBytes(text[0]);
        EncodeStarts(text[1..]);
        assert (first + rest)[at..] == first[at..] + rest;
        SkipPart(first[at..], rest);
      } else {
        assert (first + rest)[at..] == rest[at - |first|..];
        SkipFrom(text[1..], at - |first|);
        assert text[1..][StartsBefore(text[1..], at - |first|)..] == text[StartsBefore(text, at)..];
      }
    }
  }

  lemma EmptyText()
    ensures Encode("") == []
  {
  }

  lemma {:induction false} FitsFrom(text: string, at: nat)
    requires at <= |Encode(text)|
    ensures var k := StartsBefore(text, at);
      && |Encode(text[k..])| <= |Encode(text)| - at
      && (k > 0 ==> |Encode(text[k - 1..])| > |Encode(text)| - at)
    decreases |text|
  {
    hide EncodeChar, Encode;
    if text == "" || at == 0 {
      EmptyText();
      assert text[0..] == text;
    } else {
      EncodeStep(text);
      assert text[0..] == text;
      var first := |EncodeChar(text[0])|;
      if at > first {
        FitsFrom(text[1..], at - first);
        var k := StartsBefore(text[1..], at - first);
        assert text[1..][k..] == text[k + 1..];
        if k > 0 {
          assert text[1..][k - 1..] == text[k..];
        }
      }
    }
  }

  /** Of a text, the tail is the longest suffix that fits, however the cut falls; nothing is garbled. */
  lemma TailIsTheLongestSuffix(text: string, max: nat) returns (k: nat)
    ensures k <= |text|
    ensures Decode(SkipContinuation(Cut(Encode(text), max))) == Some(text[k..])
    ensures |Encode(text[k..])| <= max && (k > 0 ==> |Encode(text[k - 1..])| > max)
  {
    hide Encode, SkipContinuation, Decode;
    var bytes := Encode(text);
    var at := if |bytes| <= max then 0 else |bytes| - max;
    k := StartsBefore(text, at);
    SkipFrom(text, at);
    FitsFrom(text, at);
    assert Cut(bytes, max) == bytes[at..];
    DecodeEncoded(text[k..]);
  }
}
