/** The two static helpers of the `Encoding` class: text to Base64 text
    through UTF-8, and back. */
module Encoding {
  import opened Wrappers
  import opened Bytes
  import Utf8
  import Base64

  datatype EncodingError =
    | NonAsciiInput                       // `b64decode` of a str that is not ASCII
    | Base64Error(e: Base64.DecodeError)  // `binascii.Error`
    | Utf8Error                           // `UnicodeDecodeError`

  predicate IsAscii(s: string)
  {
    forall i :: 0 <= i < |s| ==> s[i] as int < 0x80
  }

  /** A str argument of `b64decode` is first encoded as ASCII. */
  function AsciiBytes(s: string): (r: Option<seq<Byte>>)
    ensures r.Some? <==> IsAscii(s)
    ensures r.Some? ==> |r.value| == |s| && forall i :: 0 <= i < |s| ==> r.value[i] == s[i] as int
  {
    if IsAscii(s) then Some(seq(|s|, i requires 0 <= i < |s| => s[i] as int)) else None
  }

  /** `encode_base64`: UTF-8, Base64, and the ASCII result back to text. */
  function EncodeBase64(data: string): (r: string)
    ensures |r| == 4 * ((|Utf8.Encode(data)| + 2) / 3)
    ensures forall i :: 0 <= i < |r| ==> r[i] as int < 0x80 && Base64.InAlphabet(r[i] as int)
  {
    var b := Base64.Encode(Utf8.Encode(data));
    Base64.EncodeAlphabet(Utf8.Encode(data));
    Base64.EncodeLength(Utf8.Encode(data));
    Utf8.DecodeAscii(b);
    Utf8.Decode(b).value
  }

  /** `decode_base64`: ASCII, lenient Base64, strict UTF-8, each failure an
      error of its own. */
  function DecodeBase64(data: string): (r: Result<string, EncodingError>)
    ensures !IsAscii(data) ==> r == Err(NonAsciiInput)
    ensures r.Ok? ==> IsAscii(data) && Base64.Decode(AsciiBytes(data).value) == Ok(Utf8.Encode(r.value))
  {
    match AsciiBytes(data)
    case None => Err(NonAsciiInput)
    case Some(b) =>
      match Base64.Decode(b)
      case Err(e) => Err(Base64Error(e))
      case Ok(bytes) =>
        match Utf8.Decode(bytes)
        case Err(_) => Err(Utf8Error)
        case Ok(s) => Utf8.DecodeUnique(bytes, s); Ok(s)
  }

  lemma AsciiBytesOf(s: string, b: seq<Byte>)
    requires |s| == |b| && forall i :: 0 <= i < |s| ==> s[i] as int == b[i] < 0x80
    ensures AsciiBytes(s) == Some(b)
  {
    assert IsAscii(s);
    assert AsciiBytes(s).value == b;
  }

  /** The text Base64 gives as bytes, back as the same bytes. */
  lemma AsciiOfEncoded(data: string)
    ensures AsciiBytes(EncodeBase64(data)) == Some(Base64.Encode(Utf8.Encode(data)))
  {
    var b := Base64.Encode(Utf8.Encode(data));
    var r := EncodeBase64(data);
    Base64.EncodeAlphabet(Utf8.Encode(data));
    Utf8.DecodeAscii(b);
    assert r == Utf8.AsciiChars(b);
    assert AsciiBytes(r).value == b;
  }

  /** `decode_base64(encode_base64(s)) == s` for every string. */
  lemma RoundTrip(data: string)
    ensures DecodeBase64(EncodeBase64(data)) == Ok(data)
  {
    AsciiOfEncoded(data);
    Base64.DecodeEncode(Utf8.Encode(data));
    Utf8.DecodeEncode(data);
  }

  /** `b64decode` without `validate` ignores a newline after the encoding. */
  lemma TrailingNewlineIgnored(data: string)
    ensures DecodeBase64(EncodeBase64(data) + "\n") == Ok(data)
  {
    var utf := Utf8.Encode(data);
    var b := Base64.Encode(utf);
    AsciiOfEncoded(data);
    var s := EncodeBase64(data) + "\n";
    assert forall i :: 0 <= i < |b| ==> s[i] as int == b[i] < 0x80;
    AsciiBytesOf(s, b + [0x0A]);
    Base64.DecodeEncodeThen(utf, [0x0A]);
    assert Base64.Decode([0x0A]) == Ok([]);
    assert utf + [] == utf;
    Utf8.DecodeEncode(data);
  }

  lemma EncodeEmpty()
    ensures EncodeBase64("") == ""
  {
    assert Utf8.Encode("") == [];
  }

  /** Valid Base64 of bytes that are not UTF-8 ("/w==" is the byte 0xFF)
      fails at the text decode. */
  lemma InvalidUtf8Rejected()
    ensures DecodeBase64("/w==") == Err(Utf8Error)
  {
    var b: seq<Byte> := [0x2F, 0x77, 0x3D, 0x3D];
    AsciiBytesOf("/w==", b);
    assert b[1..][1..][1..] == [0x3D];
    assert Base64.A2B(b[1..][1..][1..], 2, 0, 1) == Ok([]);
    assert Base64.A2B(b[1..][1..], 2, 0, 0) == Ok([]);
    assert Base64.A2B(b[1..], 1, 63, 0) == Ok([0xFF] + []);
    assert Base64.A2B(b, 0, 0, 0) == Base64.A2B(b[1..], 1, 63, 0);
    assert [0xFF] + [] == [0xFF];
    assert Utf8.DecodeFirst([0xFF]) == None;
  }

  /** A group cut short is an error, not a silent truncation. */
  lemma MissingPaddingRejected()
    ensures DecodeBase64("/w") == Err(Base64Error(Base64.IncorrectPadding))
  {
    var b: seq<Byte> := [0x2F, 0x77];
    AsciiBytesOf("/w", b);
    assert b[1..][1..] == [];
    assert Base64.A2B(b[1..], 1, 63, 0) == Base64.Prepend(0xFF, Err(Base64.IncorrectPadding));
  }
}
