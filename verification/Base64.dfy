/**
 Standard base64 (sections 3.5 and 4 of RFC 4648): the encoder, the library's lenient decoder, and the canonical form.
 */
module Base64 {
  import opened Bytes
  import opened Paths

  const PAD: byte := 61
  const CR: byte := 13
  const LF: byte := 10

  function Symbol(v: nat): byte
    requires v < 64
  {
    if v < 26 then 65 + v
    else if v < 52 then 71 + v
    else if v < 62 then v - 4
    else if v == 62 then 43
    else 47
  }

  /** The alphabet of table 1 of RFC 4648. */
  lemma Alphabet(v: nat)
    requires v < 64
    ensures Symbol(v) ==
            (Ascii("ABCDEFGHIJKLMNOPQRSTUVWXYZ") + Ascii("abcdefghijklmnopqrstuvwxyz") + Ascii("0123456789+/"))[v]
  {
    if v < 26 { UpperLetters(v); } else if v < 52 { LowerLetters(v - 26); }
  }

  lemma UpperLetters(v: nat)
    requires v < 26
    ensures Ascii("ABCDEFGHIJKLMNOPQRSTUVWXYZ")[v] == 65 + v
  {
  }

  lemma LowerLetters(v: nat)
    requires v < 26
    ensures Ascii("abcdefghijklmnopqrstuvwxyz")[v] == 97 + v
  {
  }

  function SymbolValue(c: byte): (r: Option<nat>)
    ensures r.Some? ==> r.value < 64
  {
    if 65 <= c <= 90 then Some(c - 65)
    else if 97 <= c <= 122 then Some(c - 71)
    else if 48 <= c <= 57 then Some(c + 4)
    else if c == 43 then Some(62)
    else if c == 47 then Some(63)
    else None
  }

  // The four six-bit values of three bytes, and the three bytes of four such values.

  function First(a: byte): (v: nat) ensures v < 64 { a / 4 }

  function Second(a: byte, b: byte): (v: nat) ensures v < 64 { a % 4 * 16 + b / 16 }

  function Third(b: byte, c: byte): (v: nat) ensures v < 64 { b % 16 * 4 + c / 64 }

  function Fourth(c: byte): (v: nat) ensures v < 64 { c % 64 }

  function ByteOne(x: nat, y: nat): byte { (x * 4 + y / 16) % 256 }

  function ByteTwo(y: nat, z: nat): byte { (y % 16 * 16 + z / 4) % 256 }

  function ByteThree(z: nat, w: nat): byte { (z % 4 * 64 + w) % 256 }

  function Encode(raw: bytes): (text: bytes)
    ensures |text| == (|raw| + 2) / 3 * 4
  {
    if raw == [] then []
    else if |raw| == 1 then [Symbol(First(raw[0])), Symbol(Second(raw[0], 0)), PAD, PAD]
    else if |raw| == 2 then [Symbol(First(raw[0])), Symbol(Second(raw[0], raw[1])), Symbol(Third(raw[1], 0)), PAD]
    else
      [Symbol(First(raw[0])), Symbol(Second(raw[0], raw[1])), Symbol(Third(raw[1], raw[2])), Symbol(Fourth(raw[2]))]
      + Encode(raw[3..])
  }

  /** The decoder skips line breaks wherever they are. */
  function Strip(text: bytes): bytes {
    if text == [] then [] else (if text[0] == CR || text[0] == LF then [] else [text[0]]) + Strip(text[1..])
  }

  /** The decoder accepts any unused trailing bits. */
  function DecodeGroups(text: bytes): Option<bytes> {
    if text == [] then Some([])
    else if |text| < 4 then None
    else
      var a, b, c, d := SymbolValue(text[0]), SymbolValue(text[1]), SymbolValue(text[2]), SymbolValue(text[3]);
      if a.None? || b.None? then None
      else if text[2] == PAD then
        if text[3] == PAD && |text| == 4 then Some([ByteOne(a.value, b.value)]) else None
      else if c.None? then None
      else if text[3] == PAD then
        if |text| == 4 then Some([ByteOne(a.value, b.value), ByteTwo(b.value, c.value)]) else None
      else if d.None? then None
      else
        var more := DecodeGroups(text[4..]);
        if more.None? then None
        else Some([ByteOne(a.value, b.value), ByteTwo(b.value, c.value), ByteThree(c.value, d.value)] + more.value)
  }

  function Decode(text: bytes): Option<bytes> {
    DecodeGroups(Strip(text))
  }

  /** The check the protocol makes: decode, and encode again to the same text. */
  predicate Canonical(text: bytes) {
    Decode(text).Some? && Encode(Decode(text).value) == text
  }

  lemma SymbolRoundTrip(v: nat)
    requires v < 64
    ensures SymbolValue(Symbol(v)) == Some(v) && Symbol(v) != PAD
  {
  }

  lemma {:induction false} StripClean(text: bytes)
    requires CR !in text && LF !in text
    ensures Strip(text) == text
  {
    if text != [] {
      StripClean(text[1..]);
      assert text == [text[0]] + text[1..];
    }
  }

  /** No line break and no space: only symbols and padding. */
  predicate Clean(text: bytes) {
    forall i :: 0 <= i < |text| ==> text[i] == PAD || SymbolValue(text[i]).Some?
  }

  lemma {:induction false} EncodedClean(raw: bytes)
    ensures Clean(Encode(raw))
  {
    hide SymbolValue, Symbol, First, Second, Third, Fourth;
    var zero: byte := 0;
    if raw != [] {
      var b: byte := if |raw| > 1 then raw[1] else zero;
      var c: byte := if |raw| > 2 then raw[2] else zero;
      SymbolRoundTrip(First(raw[0]));
      SymbolRoundTrip(Second(raw[0], b));
      SymbolRoundTrip(Third(b, c));
      SymbolRoundTrip(Fourth(c));
      if |raw| >= 3 { EncodedClean(raw[3..]); }
    }
  }

  lemma CleanHasNoBreaks(text: bytes)
    requires Clean(text)
    ensures CR !in text && LF !in text && 32 !in text
  {
  }

  lemma SecondSplits(a: byte, b: byte)
    ensures Second(a, b) / 16 == a % 4 && Second(a, b) % 16 == b / 16
  {
    var high, low := a % 4, b / 16;
    assert Second(a, b) == high * 16 + low && low < 16;
  }

  lemma ThirdSplits(b: byte, c: byte)
    ensures Third(b, c) / 4 == b % 16 && Third(b, c) % 4 == c / 64
  {
    var high, low := b % 16, c / 64;
    assert Third(b, c) == high * 4 + low && low < 4;
  }

  lemma ByteRoundTrip(a: byte, b: byte, c: byte)
    ensures ByteOne(First(a), Second(a, b)) == a
    ensures ByteTwo(Second(a, b), Third(b, c)) == b
    ensures ByteThree(Third(b, c), Fourth(c)) == c
  {
    SecondSplits(a, b);
    ThirdSplits(b, c);
    hide Second, Third;
    assert a == a / 4 * 4 + a % 4;
    assert b == b / 16 * 16 + b % 16;
    assert c == c / 64 * 64 + c % 64;
  }

  lemma {:induction false} GroupsRoundTrip(raw: bytes)
    ensures DecodeGroups(Encode(raw)) == Some(raw)
  {
    hide Encode, DecodeGroups;
    if |raw| == 0 {
      EmptyGroups();
    } else if |raw| == 1 {
      OneByte(raw[0]);
      assert raw == [raw[0]];
    } else if |raw| == 2 {
      TwoBytes(raw[0], raw[1]);
      assert raw == [raw[0], raw[1]];
    } else {
      GroupsRoundTrip(raw[3..]);
      ThreeBytes(raw[0], raw[1], raw[2], raw[3..]);
      assert raw == [raw[0], raw[1], raw[2]] + raw[3..];
    }
  }

  lemma EmptyGroups()
    ensures DecodeGroups(Encode([])) == Some([])
  {
  }

  lemma OneByte(a: byte)
    ensures DecodeGroups(Encode([a])) == Some([a])
  {
    hide SymbolValue, Symbol, First, Second, Third, Fourth, ByteOne, ByteTwo, ByteThree;
    ByteRoundTrip(a, 0, 0);
    SymbolRoundTrip(First(a));
    SymbolRoundTrip(Second(a, 0));
    PaddingIsNoSymbol();
  }

  lemma TwoBytes(a: byte, b: byte)
    ensures DecodeGroups(Encode([a, b])) == Some([a, b])
  {
    hide SymbolValue, Symbol, First, Second, Third, Fourth, ByteOne, ByteTwo, ByteThree;
    ByteRoundTrip(a, b, 0);
    SymbolRoundTrip(First(a));
    SymbolRoundTrip(Second(a, b));
    SymbolRoundTrip(Third(b, 0));
    PaddingIsNoSymbol();
  }

  lemma ThreeBytes(a: byte, b: byte, c: byte, rest: bytes)
    requires DecodeGroups(Encode(rest)) == Some(rest)
    ensures DecodeGroups(Encode([a, b, c] + rest)) == Some([a, b, c] + rest)
  {
    hide SymbolValue, Symbol, First, Second, Third, Fourth, ByteOne, ByteTwo, ByteThree;
    ByteRoundTrip(a, b, c);
    SymbolRoundTrip(First(a));
    SymbolRoundTrip(Second(a, b));
    SymbolRoundTrip(Third(b, c));
    SymbolRoundTrip(Fourth(c));
    assert ([a, b, c] + rest)[3..] == rest;
    assert Encode([a, b, c] + rest)[4..] == Encode(rest);
  }

  lemma PaddingIsNoSymbol()
    ensures SymbolValue(PAD).None?
  {
  }

  lemma DecodeEncode(raw: bytes)
    ensures Decode(Encode(raw)) == Some(raw)
  {
    EncodedClean(raw);
    CleanHasNoBreaks(Encode(raw));
    StripClean(Encode(raw));
    GroupsRoundTrip(raw);
  }

  /** Exactly the encoder's outputs are canonical, although the decoder itself accepts more. */
  lemma CanonicalExactly(text: bytes)
    ensures Canonical(text) <==> exists raw :: text == Encode(raw)
    ensures forall raw :: text == Encode(raw) ==> Decode(text) == Some(raw)
  {
    hide Encode, Decode;
    forall raw | text == Encode(raw) ensures Decode(text) == Some(raw) { DecodeEncode(raw); }
    if Canonical(text) { assert text == Encode(Decode(text).value); }
  }

  /** The decoded length, as read off the text before decoding. */
  function DecodedLength(text: bytes): Option<int> {
    if |text| == 0 || |text| % 4 != 0 then None
    else
      var n := |text| / 4 * 3;
      var length := if text[|text| - 2..] == [PAD, PAD] then n - 2 else if text[|text| - 1] == PAD then n - 1 else n;
      if length >= 0 then Some(length) else None
  }

  lemma LongerText(head: bytes, tail: bytes)
    requires |head| == 4 && DecodedLength(tail).Some?
    ensures DecodedLength(head + tail) == Some(DecodedLength(tail).value + 3)
  {
    var text := head + tail;
    assert |text| / 4 == |tail| / 4 + 1;
    assert text[|text| - 2..] == tail[|tail| - 2..] && text[|text| - 1] == tail[|tail| - 1];
  }

  /** For canonical text the length read off is the length decoded. */
  lemma {:induction false} DecodedLengthExact(raw: bytes)
    requires raw != []
    ensures DecodedLength(Encode(raw)) == Some(|raw|)
  {
    hide SymbolValue, Symbol, First, Second, Third, Fourth;
    var text := Encode(raw);
    if |raw| == 2 {
      SymbolRoundTrip(Third(raw[1], 0));
      assert text[2..][0] != PAD;
    } else if |raw| == 3 {
      assert raw[3..] == [];
      SymbolRoundTrip(Fourth(raw[2]));
      assert text[2..][1] != PAD;
    } else if |raw| > 3 {
      DecodedLengthExact(raw[3..]);
      LongerText(text[..4], Encode(raw[3..]));
      assert text == text[..4] + Encode(raw[3..]);
    }
  }
}
