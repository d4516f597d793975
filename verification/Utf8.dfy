/** `str.encode("utf-8")` and strict decoding, as section 3 of RFC 3629 defines them. */
module Utf8 {
  import opened Basics

  function EncodeChar(c: char): (b: Bytes)
    ensures 1 <= |b| <= 4
  {
    var v := c as int;
    var w := v / 64;
    var x := w / 64;
    if v < 0x80 then [v]
    else if v < 0x800 then [0xC0 + w, 0x80 + v % 64]
    else if v < 0x10000 then [0xE0 + x, 0x80 + w % 64, 0x80 + v % 64]
    else [0xF0 + x / 64, 0x80 + x % 64, 0x80 + w % 64, 0x80 + v % 64]
  }

  function Encode(s: string): Bytes {
    if s == [] then [] else EncodeChar(s[0]) + Encode(s[1..])
  }

  predicate Continuation(b: Byte) {
    0x80 <= b < 0xC0
  }

  /** Appends the six payload bits of a continuation byte. */
  function Shift(v: nat, b: Byte): (r: nat)
    requires Continuation(b)
    ensures r / 64 == v && r % 64 == b as int - 0x80
  {
    64 * v + (b as int - 0x80)
  }

  function DecodeTwo(b: Bytes): (r: Option<(char, nat)>)
    requires |b| >= 1 && 0xC2 <= b[0] < 0xE0
    ensures r.Some? ==> r.value.1 == 2 <= |b| && EncodeChar(r.value.0) == b[..2]
  {
    if |b| >= 2 && Continuation(b[1]) then Some((Shift(b[0] as int - 0xC0, b[1]) as char, 2)) else None
  }

  function DecodeThree(b: Bytes): (r: Option<(char, nat)>)
    requires |b| >= 1 && 0xE0 <= b[0] < 0xF0
    ensures r.Some? ==> r.value.1 == 3 <= |b| && EncodeChar(r.value.0) == b[..3]
  {
    if |b| >= 3 && Continuation(b[1]) && Continuation(b[2]) then
      var v := Shift(Shift(b[0] as int - 0xE0, b[1]), b[2]);
      if v < 0x800 || 0xD800 <= v < 0xE000 then None else Some((v as char, 3))
    else None
  }

  function DecodeFour(b: Bytes): (r: Option<(char, nat)>)
    requires |b| >= 1 && 0xF0 <= b[0] < 0xF8
    ensures r.Some? ==> r.value.1 == 4 <= |b| && EncodeChar(r.value.0) == b[..4]
  {
    if |b| >= 4 && Continuation(b[1]) && Continuation(b[2]) && Continuation(b[3]) then
      var v := Shift(Shift(Shift(b[0] as int - 0xF0, b[1]), b[2]), b[3]);
      if v < 0x10000 || 0x110000 <= v then None else Some((v as char, 4))
    else None
  }

  /** One scalar value off the front; overlong forms and surrogates are refused. */
  function DecodeChar(b: Bytes): (r: Option<(char, nat)>)
    ensures r.Some? ==> 1 <= r.value.1 <= |b| && EncodeChar(r.value.0) == b[..r.value.1]
  {
    if b == [] then None
    else if b[0] < 0x80 then Some((b[0] as char, 1))
    else if 0xC2 <= b[0] < 0xE0 then DecodeTwo(b)
    else if 0xE0 <= b[0] < 0xF0 then DecodeThree(b)
    else if 0xF0 <= b[0] < 0xF8 then DecodeFour(b)
    else None
  }

  function Decode(b: Bytes): Option<string>
    decreases |b|
  {
    if b == [] then Some([])
    else match DecodeChar(b)
      case None => None
      case Some(p) =>
        match Decode(b[p.1..])
        case None => None
        case Some(s) => Some([p.0] + s)
  }

  lemma DecodeEncodeShort(c: char, rest: Bytes)
    requires c as int < 0x800
    ensures DecodeChar(EncodeChar(c) + rest) == Some((c, |EncodeChar(c)|))
  {
    var v := c as int;
    assert v == 64 * (v / 64) + v % 64;
  }

  lemma DecodeEncodeLong(c: char, rest: Bytes)
    requires c as int >= 0x800
    ensures DecodeChar(EncodeChar(c) + rest) == Some((c, |EncodeChar(c)|))
  {
    var v := c as int;
    var w := v / 64;
    var x := w / 64;
    assert v == 64 * w + v % 64 && w == 64 * x + w % 64 && x == 64 * (x / 64) + x % 64;
  }

  lemma DecodeEncodeChar(c: char, rest: Bytes)
    ensures DecodeChar(EncodeChar(c) + rest) == Some((c, |EncodeChar(c)|))
  {
    hide DecodeChar, EncodeChar;
    if c as int < 0x800 { DecodeEncodeShort(c, rest); } else { DecodeEncodeLong(c, rest); }
  }

  lemma {:induction false} DecodeEncode(s: string)
    ensures Decode(Encode(s)) == Some(s)
  {
    if s != [] {
      DecodeEncodeChar(s[0], Encode(s[1..]));
      assert Encode(s)[|EncodeChar(s[0])|..] == Encode(s[1..]);
      DecodeEncode(s[1..]);
      assert s == [s[0]] + s[1..];
    }
  }

  /** Strictness: no two byte strings decode to the same text. */
  lemma {:induction false} EncodeDecode(b: Bytes)
    requires Decode(b).Some?
    ensures Encode(Decode(b).value) == b
    decreases |b|
  {
    hide DecodeChar, EncodeChar;
    if b != [] {
      var p := DecodeChar(b).value;
      EncodeDecode(b[p.1..]);
      var s := Decode(b[p.1..]).value;
      assert ([p.0] + s)[1..] == s;
      assert b == b[..p.1] + b[p.1..];
    }
  }
}
