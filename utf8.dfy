/** UTF-8 as Python's `str.encode('utf-8')` and strict `bytes.decode('utf-8')`
    use it: four byte forms, no overlong forms, no surrogates. */
module Utf8 {
  import opened Wrappers
  import opened Bytes

  predicate IsContinuation(b: Byte)
  {
    0x80 <= b < 0xC0
  }

  /** The byte form of one code point. */
  function EncodeChar(c: char): (r: seq<Byte>)
    ensures 1 <= |r| <= 4
    ensures (r[0] < 0x80) <==> (c as int < 0x80)
  {
    var v := c as int;
    if v < 0x80 then [v]
    else if v < 0x800 then [0xC0 + v / 0x40, 0x80 + v % 0x40]
    else if v < 0x1_0000 then [0xE0 + v / 0x1000, 0x80 + (v / 0x40) % 0x40, 0x80 + v % 0x40]
    else [0xF0 + v / 0x4_0000, 0x80 + (v / 0x1000) % 0x40, 0x80 + (v / 0x40) % 0x40, 0x80 + v % 0x40]
  }

  function Encode(s: string): (r: seq<Byte>)
    ensures |r| >= |s|
  {
    if |s| == 0 then [] else EncodeChar(s[0]) + Encode(s[1..])
  }

  /** The code point at the start of `b` and the length of its form, or
      `None` when `b` does not start with a well-formed one. */
  function DecodeFirst(b: seq<Byte>): (r: Option<(char, nat)>)
    requires |b| > 0
    ensures r.Some? ==> 1 <= r.value.1 <= |b|
  {
    var b0 := b[0] as int;
    if b0 < 0x80 then Some((b0 as char, 1))
    else if b0 < 0xC2 then None
    else if b0 < 0xE0 then
      if |b| >= 2 && IsContinuation(b[1]) then
        Some((((b0 - 0xC0) * 0x40 + (b[1] as int - 0x80)) as char, 2))
      else None
    else if b0 < 0xF0 then
      if |b| >= 3 && IsContinuation(b[1]) && IsContinuation(b[2]) then
        var v := (b0 - 0xE0) * 0x1000 + (b[1] as int - 0x80) * 0x40 + (b[2] as int - 0x80);
        if 0x800 <= v && !(0xD800 <= v < 0xE000) then Some((v as char, 3)) else None
      else None
    else if b0 < 0xF5 then
      if |b| >= 4 && IsContinuation(b[1]) && IsContinuation(b[2]) && IsContinuation(b[3]) then
        var v := (b0 - 0xF0) * 0x4_0000 + (b[1] as int - 0x80) * 0x1000 + (b[2] as int - 0x80) * 0x40 + (b[3] as int - 0x80);
        if 0x1_0000 <= v < 0x11_0000 then Some((v as char, 4)) else None
      else None
    else None
  }

  /** The strict decoder: any ill-formed byte sequence is an error. */
  function Decode(b: seq<Byte>): (r: Result<string, ()>)
    decreases |b|
  {
    if |b| == 0 then Ok([])
    else match DecodeFirst(b)
      case None => Err(())
      case Some((c, n)) =>
        match Decode(b[n..])
        case Err(e) => Err(e)
        case Ok(rest) => Ok([c] + rest)
  }

  /** Splitting a number into base-64 digits and putting them back. */
  lemma Digits(v: int)
    requires 0 <= v
    ensures v == (v / 0x40) * 0x40 + v % 0x40
    ensures v / 0x1000 == (v / 0x40) / 0x40
    ensures v / 0x4_0000 == (v / 0x1000) / 0x40
  {
  }

  lemma DecodeFirstOfTwo(c: char, rest: seq<Byte>)
    requires 0x80 <= c as int < 0x800
    ensures DecodeFirst(EncodeChar(c) + rest) == Some((c, 2))
  {
    var e := EncodeChar(c) + rest;
    var v := c as int;
    Digits(v);
    assert e[0] as int - 0xC0 == v / 0x40 && e[1] as int - 0x80 == v % 0x40;
  }

  lemma DecodeFirstOfThree(c: char, rest: seq<Byte>)
    requires 0x800 <= c as int < 0x1_0000
    ensures DecodeFirst(EncodeChar(c) + rest) == Some((c, 3))
  {
    var e := EncodeChar(c) + rest;
    var v := c as int;
    Digits(v);
    Digits(v / 0x40);
    assert e[0] as int - 0xE0 == v / 0x1000 && e[1] as int - 0x80 == (v / 0x40) % 0x40 && e[2] as int - 0x80 == v % 0x40;
  }

  lemma DecodeFirstOfFour(c: char, rest: seq<Byte>)
    requires 0x1_0000 <= c as int
    ensures DecodeFirst(EncodeChar(c) + rest) == Some((c, 4))
  {
    var e := EncodeChar(c) + rest;
    var v := c as int;
    Digits(v);
    Digits(v / 0x40);
    Digits(v / 0x1000);
    assert e[0] as int - 0xF0 == v / 0x4_0000 && e[1] as int - 0x80 == (v / 0x1000) % 0x40;
    assert e[2] as int - 0x80 == (v / 0x40) % 0x40 && e[3] as int - 0x80 == v % 0x40;
  }

  /** The decoder reads back the first encoded code point and its length,
      whatever follows it. */
  lemma DecodeFirstOfEncoded(c: char, rest: seq<Byte>)
    ensures DecodeFirst(EncodeChar(c) + rest) == Some((c, |EncodeChar(c)|))
  {
    var v := c as int;
    if v < 0x80 {
    } else if v < 0x800 {
      DecodeFirstOfTwo(c, rest);
    } else if v < 0x1_0000 {
      DecodeFirstOfThree(c, rest);
    } else {
      DecodeFirstOfFour(c, rest);
    }
  }

  /** Decoding gives back every encoded string. */
  lemma {:induction false} DecodeEncode(s: string)
    ensures Decode(Encode(s)) == Ok(s)
  {
    if |s| > 0 {
      var e := EncodeChar(s[0]);
      DecodeFirstOfEncoded(s[0], Encode(s[1..]));
      assert (e + Encode(s[1..]))[|e|..] == Encode(s[1..]);
      DecodeEncode(s[1..]);
      assert [s[0]] + s[1..] == s;
    }
  }

  function AsciiChars(b: seq<Byte>): (r: string)
    requires forall i :: 0 <= i < |b| ==> b[i] < 0x80
    ensures |r| == |b| && forall i :: 0 <= i < |b| ==> r[i] as int == b[i]
  {
    seq(|b|, i requires 0 <= i < |b| => b[i] as char)
  }

  /** Bytes below 0x80 decode one to one into the same code points. */
  lemma {:induction false} DecodeAscii(b: seq<Byte>)
    requires forall i :: 0 <= i < |b| ==> b[i] < 0x80
    ensures Decode(b) == Ok(AsciiChars(b))
  {
    if |b| > 0 {
      DecodeAscii(b[1..]);
      assert AsciiChars(b) == [b[0] as char] + AsciiChars(b[1..]);
    }
  }

  lemma DivMod(a: int, y: int)
    requires 0 <= a && 0 <= y < 0x40
    ensures (a * 0x40 + y) / 0x40 == a && (a * 0x40 + y) % 0x40 == y
  {
  }

  lemma EncodeOfDecodedTwo(b: seq<Byte>)
    requires |b| >= 2 && 0xC2 <= b[0] < 0xE0 && IsContinuation(b[1])
    ensures EncodeChar((((b[0] as int - 0xC0) * 0x40 + (b[1] as int - 0x80))) as char) == b[..2]
  {
    DivMod(b[0] as int - 0xC0, b[1] as int - 0x80);
    assert b[..2] == [b[0], b[1]];
  }

  lemma EncodeOfDecodedThree(b: seq<Byte>, v: int)
    requires |b| >= 3 && 0xE0 <= b[0] < 0xF0 && IsContinuation(b[1]) && IsContinuation(b[2])
    requires v == (b[0] as int - 0xE0) * 0x1000 + (b[1] as int - 0x80) * 0x40 + (b[2] as int - 0x80)
    requires 0x800 <= v && !(0xD800 <= v < 0xE000)
    ensures EncodeChar(v as char) == b[..3]
  {
    var hi := (b[0] as int - 0xE0) * 0x40 + (b[1] as int - 0x80);
    assert v == hi * 0x40 + (b[2] as int - 0x80);
    DivMod(hi, b[2] as int - 0x80);
    DivMod(b[0] as int - 0xE0, b[1] as int - 0x80);
    Digits(v);
    assert b[..3] == [b[0], b[1], b[2]];
  }

  lemma EncodeOfDecodedFour(b: seq<Byte>, v: int)
    requires |b| >= 4 && 0xF0 <= b[0] < 0xF5 && IsContinuation(b[1]) && IsContinuation(b[2]) && IsContinuation(b[3])
    requires v == (b[0] as int - 0xF0) * 0x4_0000 + (b[1] as int - 0x80) * 0x1000 + (b[2] as int - 0x80) * 0x40 + (b[3] as int - 0x80)
    requires 0x1_0000 <= v < 0x11_0000
    ensures EncodeChar(v as char) == b[..4]
  {
    var hi := (b[0] as int - 0xF0) * 0x40 + (b[1] as int - 0x80);
    var mid := hi * 0x40 + (b[2] as int - 0x80);
    assert v == mid * 0x40 + (b[3] as int - 0x80);
    DivMod(mid, b[3] as int - 0x80);
    DivMod(hi, b[2] as int - 0x80);
    DivMod(b[0] as int - 0xF0, b[1] as int - 0x80);
    Digits(v);
    Digits(v / 0x40);
    assert b[..4] == [b[0], b[1], b[2], b[3]];
  }

  /** The code point read from the front of `b` encodes back to the bytes
      it was read from. */
  lemma EncodeOfDecodedFirst(b: seq<Byte>)
    requires |b| > 0 && DecodeFirst(b).Some?
    ensures EncodeChar(DecodeFirst(b).value.0) == b[..DecodeFirst(b).value.1]
  {
    var b0 := b[0] as int;
    if b0 < 0x80 {
    } else if b0 < 0xE0 {
      EncodeOfDecodedTwo(b);
    } else if b0 < 0xF0 {
      EncodeOfDecodedThree(b, (b0 - 0xE0) * 0x1000 + (b[1] as int - 0x80) * 0x40 + (b[2] as int - 0x80));
    } else {
      EncodeOfDecodedFour(b, (b0 - 0xF0) * 0x4_0000 + (b[1] as int - 0x80) * 0x1000 + (b[2] as int - 0x80) * 0x40 + (b[3] as int - 0x80));
    }
  }

  /** A successful decode is the first code point in front of the decode
      of the bytes after its form. */
  lemma DecodeCons(b: seq<Byte>)
    requires |b| > 0 && Decode(b).Ok?
    ensures DecodeFirst(b).Some?
    ensures Decode(b[DecodeFirst(b).value.1..]).Ok?
    ensures Decode(b).value == [DecodeFirst(b).value.0] + Decode(b[DecodeFirst(b).value.1..]).value
  {
  }

  /** The encoding of a string starting with `c`. */
  lemma EncodeCons(c: char, rest: string)
    ensures Encode([c] + rest) == EncodeChar(c) + Encode(rest)
  {
    assert ([c] + rest)[0] == c && ([c] + rest)[1..] == rest;
  }

  /** A sequence is its prefix followed by its suffix. */
  lemma SplitAt(b: seq<Byte>, n: nat)
    requires n <= |b|
    ensures b == b[..n] + b[n..]
  {
  }

  /** A decoded string encodes back to the bytes it came from. */
  lemma {:induction false} DecodeUnique(b: seq<Byte>, s: string)
    requires Decode(b) == Ok(s)
    ensures Encode(s) == b
    decreases |b|
  {
    if |b| > 0 {
      DecodeCons(b);
      var first := DecodeFirst(b);
      var c, n := first.value.0, first.value.1;
      var rest := Decode(b[n..]).value;
      DecodeUnique(b[n..], rest);
      EncodeOfDecodedFirst(b);
      EncodeCons(c, rest);
      SplitAt(b, n);
    }
  }
}
