/** encodeURIComponent: every character outside the unreserved set
    A-Z a-z 0-9 - _ . ! ~ * ' ( ) becomes the percent-escapes of its UTF-8
    bytes, with upper-case hexadecimal digits. */
module Uri {
  import opened Text

  /** The characters encodeURIComponent leaves as they are. */
  predicate Unreserved(c: char) {
    IsAsciiLetter(c) || IsDigit(c) || c in {'-', '_', '.', '!', '~', '*', '\'', '(', ')'}
  }

  predicate IsUpperHex(c: char) {
    IsDigit(c) || 'A' <= c <= 'F'
  }

  function HexDigit(d: nat): (c: char)
    requires d < 16
    ensures IsUpperHex(c)
  {
    if d < 10 then ('0' as int + d) as char else ('A' as int + d - 10) as char
  }

  /** The UTF-8 encoding of one Unicode scalar value (Dafny's `char`). */
  function Utf8(c: char): (bytes: seq<nat>)
    ensures 1 <= |bytes| <= 4
    ensures forall i :: 0 <= i < |bytes| ==> bytes[i] < 256
    ensures |bytes| == 1 <==> c as int < 0x80
  {
    var cp := c as int;
    if cp < 0x80 then [cp]
    else if cp < 0x800 then [0xC0 + cp / 64, 0x80 + cp % 64]
    else if cp < 0x1_0000 then [0xE0 + cp / 4096, 0x80 + (cp / 64) % 64, 0x80 + cp % 64]
    else [0xF0 + cp / 262144, 0x80 + (cp / 4096) % 64, 0x80 + (cp / 64) % 64, 0x80 + cp % 64]
  }

  /** "%XY" for each byte. */
  function PercentEscapes(bytes: seq<nat>): (r: string)
    requires forall i :: 0 <= i < |bytes| ==> bytes[i] < 256
    ensures |r| == 3 * |bytes|
  {
    if bytes == [] then []
    else ['%', HexDigit(bytes[0] / 16), HexDigit(bytes[0] % 16)] + PercentEscapes(bytes[1..])
  }

  /** The escapes consist of '%' signs and upper-case hexadecimal digits,
      and start with '%'. */
  lemma {:induction false} EscapesAlphabet(bytes: seq<nat>)
    requires forall i :: 0 <= i < |bytes| ==> bytes[i] < 256
    ensures forall i :: 0 <= i < |PercentEscapes(bytes)| ==>
      PercentEscapes(bytes)[i] == '%' || IsUpperHex(PercentEscapes(bytes)[i])
    ensures |bytes| > 0 ==> PercentEscapes(bytes)[0] == '%'
  {
    if bytes != [] {
      EscapesAlphabet(bytes[1..]);
    }
  }

  /** The encoding of one character. */
  function EncodeChar(c: char): (r: string)
    ensures Unreserved(c) ==> r == [c]
    ensures !Unreserved(c) ==> |r| >= 3 && r[0] == '%'
    ensures forall i :: 0 <= i < |r| ==> Unreserved(r[i]) || r[i] == '%'
  {
    if Unreserved(c) then [c] else EscapesAlphabet(Utf8(c)); PercentEscapes(Utf8(c))
  }

  function EncodeURIComponent(s: string): (r: string)
    ensures |r| >= |s|
    ensures forall i :: 0 <= i < |r| ==> Unreserved(r[i]) || r[i] == '%'
  {
    if s == [] then [] else EncodeChar(s[0]) + EncodeURIComponent(s[1..])
  }

  /** The encoding leaves a string unchanged exactly when every character
      is unreserved. */
  lemma {:induction false} EncodeIdentityIff(s: string)
    ensures EncodeURIComponent(s) == s <==> forall i :: 0 <= i < |s| ==> Unreserved(s[i])
  {
    if s != [] {
      EncodeIdentityIff(s[1..]);
      var head := EncodeChar(s[0]);
      var tail := EncodeURIComponent(s[1..]);
      if Unreserved(s[0]) {
        assert EncodeURIComponent(s) == [s[0]] + tail;
        if tail == s[1..] {
          assert [s[0]] + tail == s;
        }
        if EncodeURIComponent(s) == s {
          assert tail == s[1..];
        }
        assert forall i :: 1 <= i < |s| ==> s[i] == s[1..][i - 1];
      } else {
        assert |EncodeURIComponent(s)| > |s|;
      }
    }
  }

  /** The encoded term holds none of the characters that end a query
      parameter or start a fragment, so it stays one parameter value. */
  lemma {:induction false} EncodedStaysOneParameter(s: string)
    ensures '&' !in EncodeURIComponent(s) && '=' !in EncodeURIComponent(s)
    ensures '#' !in EncodeURIComponent(s) && ' ' !in EncodeURIComponent(s)
  {
    assert !Unreserved('&') && !Unreserved('=') && !Unreserved('#') && !Unreserved(' ');
  }

  function HexValue(c: char): (d: nat)
    requires IsUpperHex(c)
    ensures d < 16
  {
    if IsDigit(c) then c as int - '0' as int else c as int - 'A' as int + 10
  }

  /** The UTF-8 bytes of a whole string. */
  function Utf8String(s: string): seq<nat> {
    if s == [] then [] else Utf8(s[0]) + Utf8String(s[1..])
  }

  /** The server side of the round trip: "%XY" becomes the byte XY and any
      other character its own code. */
  function PercentDecode(r: string): seq<nat>
    decreases |r|
  {
    if r == [] then []
    else if r[0] == '%' && |r| >= 3 && IsUpperHex(r[1]) && IsUpperHex(r[2]) then
      [HexValue(r[1]) * 16 + HexValue(r[2])] + PercentDecode(r[3..])
    else [r[0] as int] + PercentDecode(r[1..])
  }

  lemma {:induction false} DecodeEscapes(bytes: seq<nat>, rest: string)
    requires forall i :: 0 <= i < |bytes| ==> bytes[i] < 256
    ensures PercentDecode(PercentEscapes(bytes) + rest) == bytes + PercentDecode(rest)
  {
    if bytes != [] {
      var b := bytes[0];
      var tail := PercentEscapes(bytes[1..]) + rest;
      EscapesCons(bytes, rest);
      DecodeEscape(b, tail);
      DecodeEscapes(bytes[1..], rest);
      assert bytes == [b] + bytes[1..];
    } else {
      assert PercentEscapes(bytes) + rest == rest;
    }
  }

  /** The escapes of a byte string, followed by more text, are the escape
      of its first byte followed by the rest. */
  lemma {:induction false} EscapesCons(bytes: seq<nat>, rest: string)
    requires bytes != [] && forall i :: 0 <= i < |bytes| ==> bytes[i] < 256
    ensures PercentEscapes(bytes) + rest ==
      ['%', HexDigit(bytes[0] / 16), HexDigit(bytes[0] % 16)] + (PercentEscapes(bytes[1..]) + rest)
  {
    var esc := ['%', HexDigit(bytes[0] / 16), HexDigit(bytes[0] % 16)];
    assert PercentEscapes(bytes) == esc + PercentEscapes(bytes[1..]);
  }

  /** One escape "%XY" decodes to its byte. */
  lemma {:induction false} DecodeEscape(b: nat, tail: string)
    requires b < 256
    ensures PercentDecode(['%', HexDigit(b / 16), HexDigit(b % 16)] + tail) == [b] + PercentDecode(tail)
  {
    var hi := HexDigit(b / 16);
    var lo := HexDigit(b % 16);
    assert HexValue(hi) == b / 16 && HexValue(lo) == b % 16;
    var r := ['%', hi, lo] + tail;
    assert r[3..] == tail;
  }

  /** Decoding the encoded term gives back the term's UTF-8 bytes. */
  lemma {:induction false} DecodeEncode(s: string)
    ensures PercentDecode(EncodeURIComponent(s)) == Utf8String(s)
  {
    if s != [] {
      var tail := EncodeURIComponent(s[1..]);
      DecodeEncode(s[1..]);
      if Unreserved(s[0]) {
        var r := [s[0]] + tail;
        assert r[1..] == tail;
        assert PercentDecode(r) == [s[0] as int] + PercentDecode(tail);
      } else {
        DecodeEscapes(Utf8(s[0]), tail);
      }
    }
  }
}
