/** Base64 (section 4 of RFC 4648) as Python's `base64.b64encode` writes it
    and as `base64.b64decode` reads it without `validate`: CPython's
    non-strict `binascii.a2b_base64`, which skips bytes outside the alphabet
    and stops at the first complete padding. */
module Base64 {
  import opened Wrappers
  import opened Bytes

  type Sextet = x: int | 0 <= x < 64

  const Pad: Byte := 0x3D   // '='

  /** The alphabet: A-Z, a-z, 0-9, '+', '/' as ASCII codes. */
  function Symbol(v: Sextet): (b: Byte)
    ensures IsSymbol(b)
  {
    if v < 26 then 0x41 + v
    else if v < 52 then 0x61 + (v - 26)
    else if v < 62 then 0x30 + (v - 52)
    else if v == 62 then 0x2B
    else 0x2F
  }

  predicate IsSymbol(b: Byte)
  {
    (0x41 <= b <= 0x5A) || (0x61 <= b <= 0x7A) || (0x30 <= b <= 0x39) || b == 0x2B || b == 0x2F
  }

  function SymbolValue(b: Byte): (v: Sextet)
    requires IsSymbol(b)
    ensures Symbol(v) == b
  {
    if b <= 0x2B then 62
    else if b == 0x2F then 63
    else if b <= 0x39 then b - 0x30 + 52
    else if b <= 0x5A then b - 0x41
    else b - 0x61 + 26
  }

  lemma SymbolRoundTrip(v: Sextet)
    ensures IsSymbol(Symbol(v)) && SymbolValue(Symbol(v)) == v
  {
  }

  /** One group of up to three bytes as four symbols, padded with '='. */
  function Group(d: seq<Byte>): (r: seq<Byte>)
    requires 1 <= |d| <= 3
    ensures |r| == 4
  {
    if |d| == 1 then [Symbol(d[0] / 4), Symbol((d[0] % 4) * 16), Pad, Pad]
    else if |d| == 2 then [Symbol(d[0] / 4), Symbol((d[0] % 4) * 16 + d[1] / 16), Symbol((d[1] % 16) * 4), Pad]
    else [Symbol(d[0] / 4), Symbol((d[0] % 4) * 16 + d[1] / 16), Symbol((d[1] % 16) * 4 + d[2] / 64), Symbol(d[2] % 64)]
  }

  function Encode(data: seq<Byte>): (r: seq<Byte>)
    decreases |data|
  {
    if |data| == 0 then []
    else if |data| <= 3 then Group(data)
    else Group(data[..3]) + Encode(data[3..])
  }

  /** Four output characters for every started group of three bytes. */
  lemma {:induction false} EncodeLength(data: seq<Byte>)
    ensures |Encode(data)| == 4 * ((|data| + 2) / 3)
    decreases |data|
  {
    if |data| > 3 {
      EncodeLength(data[3..]);
      assert |Encode(data)| == 4 + |Encode(data[3..])|;
      assert (|data| + 2) / 3 == 1 + (|data[3..]| + 2) / 3;
    }
  }

  predicate InAlphabet(b: Byte)
  {
    IsSymbol(b) || b == Pad
  }

  /** A group is four alphabet bytes, padding only at its end, and none in
      a full group. */
  lemma GroupAlphabet(d: seq<Byte>)
    requires 1 <= |d| <= 3
    ensures forall i :: 0 <= i < 4 ==> InAlphabet(Group(d)[i])
    ensures forall i, j :: 0 <= i < j < 4 && Group(d)[i] == Pad ==> Group(d)[j] == Pad
    ensures |d| == 3 ==> forall i :: 0 <= i < 4 ==> Group(d)[i] != Pad
  {
  }

  /** The output uses the alphabet and '=' only. */
  lemma {:induction false} EncodeAlphabet(data: seq<Byte>)
    ensures forall i :: 0 <= i < |Encode(data)| ==> InAlphabet(Encode(data)[i])
    decreases |data|
  {
    if |data| > 3 {
      EncodeAlphabet(data[3..]);
      GroupAlphabet(data[..3]);
    } else if |data| > 0 {
      GroupAlphabet(data);
    }
  }

  /** Every '=' of the output is at its end. */
  lemma {:induction false} EncodePadsLast(data: seq<Byte>)
    ensures forall i, j :: 0 <= i < j < |Encode(data)| && Encode(data)[i] == Pad ==> Encode(data)[j] == Pad
    decreases |data|
  {
    if |data| > 3 {
      EncodePadsLast(data[3..]);
      GroupAlphabet(data[..3]);
      var g, e := Group(data[..3]), Encode(data[3..]);
      assert Encode(data) == g + e;
      forall i, j | 0 <= i < j < |g + e| && (g + e)[i] == Pad
        ensures (g + e)[j] == Pad
      {
        assert i >= 4 && (g + e)[i] == e[i - 4];
      }
    } else if |data| > 0 {
      GroupAlphabet(data);
    }
  }

  datatype DecodeError =
    | ExcessDataCharacter   // one data character left over in the last group
    | IncorrectPadding      // two or three left over, not closed by '='

  /** The bits a group position carries from the symbols before it. */
  predicate Carry(quad: int, left: int)
  {
    (quad == 0 && left == 0) || (quad == 1 && 0 <= left < 64) ||
    (quad == 2 && 0 <= left < 16) || (quad == 3 && 0 <= left < 4)
  }

  function Prepend(b: Byte, r: Result<seq<Byte>, DecodeError>): Result<seq<Byte>, DecodeError>
  {
    match r
    case Ok(bytes) => Ok([b] + bytes)
    case Err(e) => Err(e)
  }

  /** The decoder's state machine: `quad` is the position in the current
      group, `left` the carried bits, `pads` the '=' seen since the last
      data character. */
  function A2B(s: seq<Byte>, quad: int, left: int, pads: nat): Result<seq<Byte>, DecodeError>
    requires Carry(quad, left)
    decreases |s|
  {
    if |s| == 0 then
      if quad == 0 then Ok([])
      else if quad == 1 then Err(ExcessDataCharacter)
      else Err(IncorrectPadding)
    else if s[0] == Pad then
      if quad >= 2 && quad + pads + 1 >= 4 then Ok([])
      else A2B(s[1..], quad, left, if quad >= 2 then pads + 1 else pads)
    else if !IsSymbol(s[0]) then A2B(s[1..], quad, left, pads)
    else
      var v := SymbolValue(s[0]);
      if quad == 0 then A2B(s[1..], 1, v, 0)
      else if quad == 1 then Prepend(left * 4 + v / 16, A2B(s[1..], 2, v % 16, 0))
      else if quad == 2 then Prepend(left * 16 + v / 4, A2B(s[1..], 3, v % 4, 0))
      else Prepend(left * 64 + v, A2B(s[1..], 0, 0, 0))
  }

  function Decode(s: seq<Byte>): Result<seq<Byte>, DecodeError>
  {
    A2B(s, 0, 0, 0)
  }

  /** The first two symbols of a group emit its first byte and leave the
      decoder at position 2 carrying `hi`, the high half of the next byte. */
  lemma TwoSymbols(b0: Byte, hi: int, rest: seq<Byte>)
    requires 0 <= hi < 16
    ensures A2B([Symbol(b0 / 4), Symbol((b0 % 4) * 16 + hi)] + rest, 0, 0, 0)
         == Prepend(b0, A2B(rest, 2, hi, 0))
  {
    var v1 := (b0 % 4) * 16 + hi;
    var s := [Symbol(b0 / 4), Symbol(v1)] + rest;
    SymbolRoundTrip(b0 / 4);
    SymbolRoundTrip(v1);
    assert v1 / 16 == b0 % 4 && v1 % 16 == hi;
    assert (b0 / 4) * 4 + b0 % 4 == b0;
    assert s[1..] == [Symbol(v1)] + rest;
    assert s[1..][1..] == rest;
    assert A2B(s, 0, 0, 0) == A2B(s[1..], 1, b0 / 4, 0);
    assert A2B(s[1..], 1, b0 / 4, 0) == Prepend(b0, A2B(rest, 2, hi, 0));
  }

  /** At position 2, the third symbol of a group emits the middle byte. */
  lemma ThirdSymbol(b1: Byte, lo: int, rest: seq<Byte>)
    requires 0 <= lo < 4
    ensures A2B([Symbol((b1 % 16) * 4 + lo)] + rest, 2, b1 / 16, 0) == Prepend(b1, A2B(rest, 3, lo, 0))
  {
    var v2 := (b1 % 16) * 4 + lo;
    SymbolRoundTrip(v2);
    assert v2 / 4 == b1 % 16 && v2 % 4 == lo;
    assert (b1 / 16) * 16 + b1 % 16 == b1;
    assert ([Symbol(v2)] + rest)[1..] == rest;
  }

  /** At position 3, the fourth symbol of a group emits the last byte. */
  lemma FourthSymbol(b2: Byte, rest: seq<Byte>)
    ensures A2B([Symbol(b2 % 64)] + rest, 3, b2 / 64, 0) == Prepend(b2, A2B(rest, 0, 0, 0))
  {
    SymbolRoundTrip(b2 % 64);
    assert (b2 / 64) * 64 + b2 % 64 == b2;
    assert ([Symbol(b2 % 64)] + rest)[1..] == rest;
  }

  /** Decoding undoes one full group. */
  lemma DecodeGroup3(d: seq<Byte>, rest: seq<Byte>)
    requires |d| == 3
    ensures A2B(Group(d) + rest, 0, 0, 0) == Prepend(d[0], Prepend(d[1], Prepend(d[2], A2B(rest, 0, 0, 0))))
  {
    var g := Group(d);
    var s4 := [Symbol(d[2] % 64)] + rest;
    var s3 := [Symbol((d[1] % 16) * 4 + d[2] / 64)] + s4;
    assert g + rest == [g[0], g[1]] + s3;
    TwoSymbols(d[0], d[1] / 16, s3);
    ThirdSymbol(d[1], d[2] / 64, s4);
    FourthSymbol(d[2], rest);
  }

  /** Decoding undoes a final group of one byte and two pads and ignores
      whatever follows them. */
  lemma DecodeGroup1(d: seq<Byte>, rest: seq<Byte>)
    requires |d| == 1
    ensures A2B(Group(d) + rest, 0, 0, 0) == Ok(d)
  {
    var g := Group(d);
    assert (d[0] % 4) * 16 == (d[0] % 4) * 16 + 0;
    var s3 := [Pad, Pad] + rest;
    assert g + rest == [Symbol(d[0] / 4), Symbol((d[0] % 4) * 16 + 0)] + s3;
    TwoSymbols(d[0], 0, s3);
    assert s3[1..] == [Pad] + rest;
    assert A2B(s3[1..], 2, 0, 1) == Ok([]);
    assert A2B(s3, 2, 0, 0) == A2B(s3[1..], 2, 0, 1);
    assert A2B(g + rest, 0, 0, 0) == Prepend(d[0], Ok([]));
    assert [d[0]] + [] == d;
  }

  /** Decoding undoes a final group of two bytes and one pad and ignores
      whatever follows it. */
  lemma DecodeGroup2(d: seq<Byte>, rest: seq<Byte>)
    requires |d| == 2
    ensures A2B(Group(d) + rest, 0, 0, 0) == Ok(d)
  {
    var g := Group(d);
    assert (d[1] % 16) * 4 == (d[1] % 16) * 4 + 0;
    var s4 := [Pad] + rest;
    var s3 := [Symbol((d[1] % 16) * 4 + 0)] + s4;
    assert g + rest == [Symbol(d[0] / 4), Symbol((d[0] % 4) * 16 + d[1] / 16)] + s3;
    TwoSymbols(d[0], d[1] / 16, s3);
    ThirdSymbol(d[1], 0, s4);
    assert A2B(s4, 3, 0, 0) == Ok([]);
    assert A2B(g + rest, 0, 0, 0) == Prepend(d[0], Prepend(d[1], Ok([])));
    assert [d[0]] + ([d[1]] + []) == d;
  }

  /** `data` glued in front of a decoder result. */
  function Glue(data: seq<Byte>, r: Result<seq<Byte>, DecodeError>): Result<seq<Byte>, DecodeError>
  {
    match r
    case Ok(bytes) => Ok(data + bytes)
    case Err(e) => Err(e)
  }

  lemma GlueThree(d: seq<Byte>, r: Result<seq<Byte>, DecodeError>)
    requires |d| == 3
    ensures Prepend(d[0], Prepend(d[1], Prepend(d[2], r))) == Glue(d, r)
  {
    if r.Ok? {
      assert [d[0]] + ([d[1]] + ([d[2]] + r.value)) == d + r.value;
    }
  }

  lemma GlueGlue(x: seq<Byte>, y: seq<Byte>, r: Result<seq<Byte>, DecodeError>)
    ensures Glue(x, Glue(y, r)) == Glue(x + y, r)
  {
    if r.Ok? {
      assert x + (y + r.value) == (x + y) + r.value;
    }
  }

  /** Three more bytes leave the size of the last group unchanged. */
  lemma ModThree(k: nat)
    ensures (k + 3) % 3 == k % 3
  {
  }

  /** The first group of a longer encoding decodes to the first three bytes,
      in front of the decode of what follows it. */
  lemma DecodeFullGroup(data: seq<Byte>, rest: seq<Byte>)
    requires |data| >= 3
    ensures Decode(Encode(data) + rest) == Glue(data[..3], Decode(Encode(data[3..]) + rest))
  {
    var head, tail := data[..3], data[3..];
    var e := Encode(tail) + rest;
    EncodeSplit(data, rest);
    DecodeGroup3(head, e);
    GlueThree(head, Decode(e));
  }

  /** An encoding of at least three bytes starts with its first group. */
  lemma EncodeSplit(data: seq<Byte>, rest: seq<Byte>)
    requires |data| >= 3
    ensures Encode(data) + rest == Group(data[..3]) + (Encode(data[3..]) + rest)
  {
    if |data| == 3 {
      assert data[..3] == data && Encode(data[3..]) == [];
      assert Group(data) + [] == Group(data);
    }
  }

  /** Decoding an encoding followed by more input: a padded encoding ends
      the decode, one without padding is followed by the decode of the rest. */
  lemma {:induction false} DecodeEncodeThen(data: seq<Byte>, rest: seq<Byte>)
    ensures |data| % 3 != 0 ==> Decode(Encode(data) + rest) == Ok(data)
    ensures |data| % 3 == 0 ==> Decode(Encode(data) + rest) == Glue(data, Decode(rest))
    decreases |data|
  {
    if |data| == 0 {
      assert Encode(data) + rest == rest;
      var r := Decode(rest);
      if r.Ok? {
        assert data + r.value == r.value;
      }
    } else if |data| == 1 {
      DecodeGroup1(data, rest);
    } else if |data| == 2 {
      DecodeGroup2(data, rest);
    } else {
      var head, tail := data[..3], data[3..];
      DecodeFullGroup(data, rest);
      DecodeEncodeThen(tail, rest);
      assert |data| == |tail| + 3;
      ModThree(|tail|);
      assert head + tail == data;
      if |tail| % 3 == 0 {
        GlueGlue(head, tail, Decode(rest));
      }
    }
  }

  /** `b64decode(b64encode(data)) == data`. */
  lemma DecodeEncode(data: seq<Byte>)
    ensures Decode(Encode(data)) == Ok(data)
  {
    DecodeEncodeThen(data, []);
    assert Encode(data) + [] == Encode(data);
    assert data + [] == data;
  }
}
