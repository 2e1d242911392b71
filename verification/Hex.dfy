/** Hex text and bytes (src/util/hex.ts). */
module Hex {
  type Byte = b: int | 0 <= b < 256

  predicate IsHexDigit(c: char) {
    '0' <= c <= '9' || 'a' <= c <= 'f' || 'A' <= c <= 'F'
  }

  predicate IsHex(s: string) {
    forall i :: 0 <= i < |s| ==> IsHexDigit(s[i])
  }

  function DigitValue(c: char): (v: int)
    requires IsHexDigit(c)
    ensures 0 <= v < 16
  {
    if c <= '9' then c as int - '0' as int
    else if c <= 'F' then c as int - 'A' as int + 10
    else c as int - 'a' as int + 10
  }

  /** The digit `toString(16)` prints. */
  function LowerDigit(v: int): (c: char)
    requires 0 <= v < 16
    ensures IsHexDigit(c) && DigitValue(c) == v
  {
    if v < 10 then (v + '0' as int) as char else (v - 10 + 'a' as int) as char
  }

  function UpperDigit(v: int): (c: char)
    requires 0 <= v < 16
    ensures IsHexDigit(c) && DigitValue(c) == v && c == UpperChar(LowerDigit(v))
  {
    if v < 10 then (v + '0' as int) as char else (v - 10 + 'A' as int) as char
  }

  lemma UpperOfDigit(c: char)
    requires IsHexDigit(c)
    ensures UpperDigit(DigitValue(c)) == UpperChar(c)
  {
  }

  /** `toUpperCase` on one hex character. */
  function UpperChar(c: char): char {
    if 'a' <= c <= 'z' then ((c as int) - 32) as char else c
  }

  function Upper(s: string): (r: string)
    ensures |r| == |s|
    ensures forall i {:trigger r[i]} :: 0 <= i < |s| ==> r[i] == UpperChar(s[i])
  {
    if s == [] then [] else [UpperChar(s[0])] + Upper(s[1..])
  }

  /** The bytes a hex text denotes, two digits each. */
  function BytesOf(hex: string): (r: seq<Byte>)
    requires IsHex(hex) && |hex| % 2 == 0
    ensures |r| == |hex| / 2
  {
    seq(|hex| / 2, i requires 0 <= i < |hex| / 2 => 16 * DigitValue(hex[2 * i]) + DigitValue(hex[2 * i + 1]))
  }

  /** Digit `j` of the text of some bytes. */
  function DigitAt(bytes: seq<Byte>, j: int): (v: int)
    requires 0 <= j < 2 * |bytes|
    ensures 0 <= v < 16
  {
    if j % 2 == 0 then bytes[j / 2] / 16 else bytes[j / 2] % 16
  }

  /** The upper-case hex text of some bytes. */
  function TextOf(bytes: seq<Byte>): (r: string)
    ensures |r| == 2 * |bytes|
  {
    seq(2 * |bytes|, j requires 0 <= j < 2 * |bytes| => UpperDigit(DigitAt(bytes, j)))
  }

  lemma ByteAt(hex: string, i: int)
    requires IsHex(hex) && |hex| % 2 == 0 && 0 <= i < |hex| / 2
    ensures BytesOf(hex)[i] == 16 * DigitValue(hex[2 * i]) + DigitValue(hex[2 * i + 1])
  {
  }

  lemma TextDigit(bytes: seq<Byte>, j: int)
    requires 0 <= j < 2 * |bytes|
    ensures TextOf(bytes)[j] == UpperDigit(DigitAt(bytes, j))
  {
  }

  lemma TextIsHex(bytes: seq<Byte>)
    ensures IsHex(TextOf(bytes))
  {
    forall j | 0 <= j < 2 * |bytes| ensures IsHexDigit(TextOf(bytes)[j]) {
      TextDigit(bytes, j);
    }
  }

  method HexToBytes(hex: string) returns (out: array<Byte>)
    requires IsHex(hex) && |hex| % 2 == 0
    ensures fresh(out) && out[..] == BytesOf(hex)
  {
    out := new Byte[|hex| / 2](_ => 0);
    var i := 0;
    while i < out.Length
      invariant 0 <= i <= out.Length
      invariant forall k :: 0 <= k < i ==> out[k] == BytesOf(hex)[k]
    {
      ByteAt(hex, i);
      out[i] := 16 * DigitValue(hex[2 * i]) + DigitValue(hex[2 * i + 1]);
      i := i + 1;
    }
  }

  method BytesToHex(bytes: seq<Byte>) returns (r: string)
    ensures r == TextOf(bytes)
  {
    var out := "";
    var i := 0;
    while i < |bytes|
      invariant 0 <= i <= |bytes|
      invariant |out| == 2 * i
      invariant forall j :: 0 <= j < |out| ==> out[j] == LowerDigit(DigitAt(bytes, j))
    {
      out := out + [LowerDigit(bytes[i] / 16), LowerDigit(bytes[i] % 16)];
      i := i + 1;
    }
    r := Upper(out);
    forall j | 0 <= j < |r| ensures r[j] == TextOf(bytes)[j] {
      TextDigit(bytes, j);
    }
  }

  lemma DecodeOfEncode(bytes: seq<Byte>)
    ensures IsHex(TextOf(bytes)) && BytesOf(TextOf(bytes)) == bytes
  {
    hide DigitValue, LowerDigit, UpperDigit, UpperChar, TextOf, BytesOf, IsHexDigit, IsHex;
    TextIsHex(bytes);
    var text := TextOf(bytes);
    var back := BytesOf(text);
    forall i | 0 <= i < |bytes| ensures back[i] == bytes[i] {
      ByteAt(text, i);
      TextDigit(bytes, 2 * i);
      TextDigit(bytes, 2 * i + 1);
    }
  }

  lemma EncodeDigit(hex: string, j: int)
    requires IsHex(hex) && |hex| % 2 == 0 && 0 <= j < |hex|
    ensures TextOf(BytesOf(hex))[j] == Upper(hex)[j]
  {
    hide DigitValue, LowerDigit, UpperDigit, UpperChar, BytesOf, TextOf, Upper, IsHexDigit;
    var i := j / 2;
    ByteAt(hex, i);
    TextDigit(BytesOf(hex), j);
    UpperOfDigit(hex[j]);
    assert j == 2 * i || j == 2 * i + 1;
  }

  lemma EncodeOfDecode(hex: string)
    requires IsHex(hex) && |hex| % 2 == 0
    ensures TextOf(BytesOf(hex)) == Upper(hex)
  {
    hide DigitValue, LowerDigit, UpperDigit, UpperChar, BytesOf, TextOf, Upper, IsHexDigit;
    var text, upper := TextOf(BytesOf(hex)), Upper(hex);
    forall j | 0 <= j < |text| ensures text[j] == upper[j] {
      EncodeDigit(hex, j);
    }
  }
}
