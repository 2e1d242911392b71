/** Currency codes: the readable form and the 40-digit wire form (src/xrpl/currency.ts). */
module Currency {
  import opened Options
  import opened Hex

  predicate Ascii(s: string) {
    forall i :: 0 <= i < |s| ==> 0 < s[i] as int < 128
  }

  /** UTF-8 of one character, as `convertStringToHex` encodes it. */
  function Utf8(c: char): (r: seq<Byte>)
    ensures 1 <= |r| <= 4 && (|r| == 1 <==> c as int < 128)
    ensures c as int != 0 ==> 0 !in r
  {
    var n := c as int;
    if n < 0x80 then [n]
    else if n < 0x800 then [0xC0 + n / 64, 0x80 + n % 64]
    else if n < 0x10000 then [0xE0 + n / 64 / 64, 0x80 + n / 64 % 64, 0x80 + n % 64]
    else [0xF0 + n / 64 / 64 / 64, 0x80 + n / 64 / 64 % 64, 0x80 + n / 64 % 64, 0x80 + n % 64]
  }

  function Encode(s: string): (r: seq<Byte>)
    ensures |s| <= |r|
  {
    if s == [] then [] else Utf8(s[0]) + Encode(s[1..])
  }

  function Zeros(n: nat): (r: seq<Byte>)
    ensures |r| == n && forall i :: 0 <= i < n ==> r[i] == 0
  {
    seq(n, _ => 0)
  }

  /** `padEnd(40, "0")`. */
  function PadEnd40(s: string): (r: string)
    ensures |r| == if |s| < 40 then 40 else |s|
  {
    if |s| < 40 then s + seq(40 - |s|, _ => '0') else s
  }

  /** The hex text is upper case already, so the source's `toUpperCase` changes nothing. */
  function ToWire(code: string): string {
    if |code| == 3 then code else PadEnd40(TextOf(Encode(code)))
  }

  /** The characters before the first NUL byte. */
  function UpToNul(bytes: seq<Byte>): (r: string)
    ensures |r| <= |bytes|
    ensures forall i :: 0 <= i < |r| ==> r[i] as int == bytes[i] && bytes[i] != 0
    ensures |r| < |bytes| ==> bytes[|r|] == 0
  {
    if bytes == [] || bytes[0] == 0 then [] else [bytes[0] as char] + UpToNul(bytes[1..])
  }

  function Readable(code: string): string {
    if |code| == 3 then code
    else if |code| == 40 && IsHex(code) then
      var out := UpToNul(BytesOf(code));
      if out != "" then out else code
    else code
  }

  /** The characters before the first NUL are the only ones with these two properties. */
  lemma UpToNulUnique(bytes: seq<Byte>, out: string)
    requires |out| <= |bytes| && (|out| < |bytes| ==> bytes[|out|] == 0)
    requires forall i :: 0 <= i < |out| ==> out[i] as int == bytes[i] && bytes[i] != 0
    ensures out == UpToNul(bytes)
  {
    hide UpToNul;
  }

  method CurrencyToString(code: string) returns (r: string)
    ensures r == Readable(code)
  {
    hide BytesOf, DigitValue, UpToNul;
    if |code| == 3 {
      return code;
    }
    if |code| == 40 && IsHex(code) {
      var bytes := HexToBytes(code);
      var out := "";
      var i := 0;
      while i < bytes.Length
        invariant 0 <= i == |out| <= bytes.Length
        invariant bytes[..] == BytesOf(code)
        invariant forall k :: 0 <= k < i ==> out[k] as int == bytes[k] && bytes[k] != 0
      {
        if bytes[i] == 0 {
          break;
        }
        out := out + [bytes[i] as char];
        i := i + 1;
      }
      UpToNulUnique(bytes[..], out);
      return if out != "" then out else code;
    }
    return code;
  }

  // ---- Encoding facts ----

  /** The first byte tells how many follow. */
  lemma Utf8Shape(c: char)
    ensures var r := Utf8(c);
            && (|r| == 1 <==> r[0] < 0xC0) && (|r| == 2 <==> 0xC0 <= r[0] < 0xE0)
            && (|r| == 3 <==> 0xE0 <= r[0] < 0xF0) && (|r| == 4 <==> 0xF0 <= r[0])
  {
  }

  function FromUtf8(r: seq<int>): int {
    if |r| == 1 then r[0]
    else if |r| == 2 then (r[0] - 0xC0) * 64 + (r[1] - 0x80)
    else if |r| == 3 then ((r[0] - 0xE0) * 64 + (r[1] - 0x80)) * 64 + (r[2] - 0x80)
    else if |r| == 4 then (((r[0] - 0xF0) * 64 + (r[1] - 0x80)) * 64 + (r[2] - 0x80)) * 64 + (r[3] - 0x80)
    else 0
  }

  /** The bytes spell the character back, and no fewer bytes could. */
  lemma Utf8Decodes(c: char)
    ensures FromUtf8(Utf8(c)) == c as int
    ensures var n := c as int; |Utf8(c)| == if n < 0x80 then 1 else if n < 0x800 then 2 else if n < 0x10000 then 3 else 4
    ensures forall i :: 1 <= i < |Utf8(c)| ==> 0x80 <= Utf8(c)[i] < 0xC0
  {
  }

  lemma Utf8Injective(c: char, d: char)
    requires Utf8(c) == Utf8(d)
    ensures c == d
  {
    hide Utf8, FromUtf8;
    Utf8Decodes(c);
    Utf8Decodes(d);
  }

  lemma Utf8PrefixFree(c: char, d: char, r: seq<Byte>, s: seq<Byte>)
    requires Utf8(c) + r == Utf8(d) + s
    ensures c == d && r == s
  {
    hide Utf8;
    var x, y := Utf8(c) + r, Utf8(d) + s;
    assert x[0] == Utf8(c)[0] && y[0] == Utf8(d)[0];
    Utf8Shape(c);
    Utf8Shape(d);
    assert |Utf8(c)| == |Utf8(d)|;
    assert Utf8(c) == x[..|Utf8(c)|] == y[..|Utf8(d)|] == Utf8(d);
    assert r == x[|Utf8(c)|..] && s == y[|Utf8(d)|..];
    Utf8Injective(c, d);
  }

  lemma {:induction false} EncodeInjective(a: string, b: string)
    requires Encode(a) == Encode(b)
    ensures a == b
  {
    if a != [] && b != [] {
      Utf8PrefixFree(a[0], b[0], Encode(a[1..]), Encode(b[1..]));
      EncodeInjective(a[1..], b[1..]);
      assert a == [a[0]] + a[1..] && b == [b[0]] + b[1..];
    }
  }

  lemma {:induction false} EncodeAscii(s: string)
    requires Ascii(s)
    ensures |Encode(s)| == |s| && forall i :: 0 <= i < |s| ==> Encode(s)[i] == s[i] as int
  {
    if s != [] {
      EncodeAscii(s[1..]);
      assert forall i :: 0 < i < |s| ==> s[i] == s[1..][i - 1];
    }
  }

  lemma {:induction false} EncodeNulFree(s: string)
    ensures 0 in Encode(s) <==> 0 as char in s
  {
    if s != [] {
      EncodeNulFree(s[1..]);
      assert s == [s[0]] + s[1..];
      if s[0] as int == 0 {
        assert Encode(s)[0] == 0;
      }
    }
  }

  lemma {:induction false} SameLengthIsAscii(s: string)
    requires |Encode(s)| == |s| && 0 as char !in s
    ensures Ascii(s)
  {
    if s != [] {
      assert s == [s[0]] + s[1..];
      SameLengthIsAscii(s[1..]);
      assert forall i :: 0 < i < |s| ==> s[i] == s[1..][i - 1];
      assert s[0] in s;
    }
  }

  lemma {:induction false} EncodeAppendNul(s: string)
    ensures Encode(s + [0 as char]) == Encode(s) + [0]
  {
    if s == [] {
      assert s + [0 as char] == [0 as char];
      assert Encode([0 as char]) == Utf8(0 as char) + Encode([]);
    } else {
      assert (s + [0 as char])[1..] == s[1..] + [0 as char];
      EncodeAppendNul(s[1..]);
    }
  }

  /** The wire form of a code of at most 20 bytes is the hex of those bytes and zero bytes. */
  lemma WireBytes(code: string)
    requires |code| != 3 && |Encode(code)| <= 20
    ensures var bytes := Encode(code) + Zeros(20 - |Encode(code)|);
            ToWire(code) == TextOf(bytes) && IsHex(ToWire(code)) && BytesOf(ToWire(code)) == bytes
  {
    hide TextOf, BytesOf, Utf8, DigitValue, IsHex;
    var e := Encode(code);
    var bytes := e + Zeros(20 - |e|);
    DecodeOfEncode(e);
    DecodeOfEncode(bytes);
    forall j | 0 <= j < 40 ensures ToWire(code)[j] == TextOf(bytes)[j] {
      TextDigit(bytes, j);
      if j < 2 * |e| {
        assert bytes[j / 2] == e[j / 2];
        TextDigit(e, j);
      } else {
        assert bytes[j / 2] == 0;
      }
    }
  }

  lemma LongWire(code: string)
    requires |code| != 3 && |Encode(code)| > 20
    ensures |ToWire(code)| == 2 * |Encode(code)| && Readable(ToWire(code)) == ToWire(code)
  {
    hide TextOf, BytesOf, Encode, UpToNul;
  }

  lemma {:induction false} UpToNulPadded(e: seq<Byte>, n: nat)
    requires 0 !in e
    ensures |UpToNul(e + Zeros(n))| == |e|
  {
    var bytes := e + Zeros(n);
    if e != [] {
      assert e == [e[0]] + e[1..];
      assert bytes[1..] == e[1..] + Zeros(n);
      UpToNulPadded(e[1..], n);
    }
  }

  // ---- Round trips and injectivity ----

  lemma AsciiSurvives(code: string)
    requires |code| != 3 && 1 <= |code| <= 20 && Ascii(code)
    ensures Readable(ToWire(code)) == code
  {
    hide DigitAt, TextOf, BytesOf, Utf8, DigitValue, UpperDigit, Encode;
    EncodeAscii(code);
    WireBytes(code);
    var e := Encode(code);
    UpToNulPadded(e, 20 - |e|);
    assert UpToNul(e + Zeros(20 - |e|)) == code;
  }

  lemma SurvivorIsAscii(code: string)
    requires |code| != 3 && |Encode(code)| <= 20 && Readable(ToWire(code)) == code
    ensures 1 <= |code| <= 20 && Ascii(code)
  {
    hide DigitAt, TextOf, BytesOf, Utf8, DigitValue, UpperDigit, Encode;
    WireBytes(code);
    var e := Encode(code);
    var out := UpToNul(e + Zeros(20 - |e|));
    assert out == code;
    EncodeNulFree(code);
    assert 0 as char !in code;
    UpToNulPadded(e, 20 - |e|);
    SameLengthIsAscii(code);
  }

  /** A code survives the trip to the wire and back exactly when it is three characters long, or
      1 to 20 ASCII characters none of which is NUL. */
  lemma ReadableOfWire(code: string)
    ensures Readable(ToWire(code)) == code <==> |code| == 3 || (1 <= |code| <= 20 && Ascii(code))
  {
    hide DigitAt, TextOf, BytesOf, Utf8, UpToNul, Encode;
    if |code| != 3 {
      if |Encode(code)| > 20 {
        LongWire(code);
        if Ascii(code) {
          EncodeAscii(code);
        }
      } else if Readable(ToWire(code)) == code {
        SurvivorIsAscii(code);
      } else if 1 <= |code| <= 20 && Ascii(code) {
        AsciiSurvives(code);
      }
    }
  }

  ghost predicate ZeroPaddedAscii(bytes: seq<Byte>) {
    var text := UpToNul(bytes);
    text != "" && |text| != 3 && Ascii(text) && forall i :: |text| <= i < |bytes| ==> bytes[i] == 0
  }

  lemma PaddedBytes(e: seq<Byte>, text: string, bytes: seq<Byte>)
    requires |e| == |text| <= |bytes| && forall i :: 0 <= i < |text| ==> e[i] == text[i] as int == bytes[i]
    requires forall i :: |text| <= i < |bytes| ==> bytes[i] == 0
    ensures e + Zeros(|bytes| - |e|) == bytes
  {
  }

  lemma PaddedAsciiReturns(hex: string)
    requires |hex| == 40 && IsHex(hex) && ZeroPaddedAscii(BytesOf(hex))
    ensures ToWire(Readable(hex)) == Upper(hex)
  {
    hide DigitAt, TextOf, BytesOf, Utf8, DigitValue, UpperDigit, Encode, Upper;
    var bytes := BytesOf(hex);
    var text := UpToNul(bytes);
    EncodeAscii(text);
    WireBytes(text);
    EncodeOfDecode(hex);
    PaddedBytes(Encode(text), text, bytes);
  }

  lemma ReturnerIsPaddedAscii(hex: string)
    requires |hex| == 40 && IsHex(hex) && UpToNul(BytesOf(hex)) != ""
    requires |UpToNul(BytesOf(hex))| != 3 && |Encode(UpToNul(BytesOf(hex)))| <= 20
    requires ToWire(Readable(hex)) == Upper(hex)
    ensures ZeroPaddedAscii(BytesOf(hex))
  {
    hide DigitAt, TextOf, BytesOf, Utf8, DigitValue, UpperDigit, Encode, Upper;
    var bytes := BytesOf(hex);
    var text := UpToNul(bytes);
    var e := Encode(text);
    EncodeNulFree(text);
    assert 0 as char !in text;
    WireBytes(text);
    EncodeOfDecode(hex);
    DecodeOfEncode(bytes);
    assert e + Zeros(20 - |e|) == bytes;
    UpToNulPadded(e, 20 - |e|);
    SameLengthIsAscii(text);
  }

  /** A 40-digit wire code survives the trip to text and back, up to letter case, exactly when its
      text is non-empty ASCII, not three characters long, and followed by zero bytes only. */
  lemma WireOfReadable(hex: string)
    requires |hex| == 40 && IsHex(hex)
    ensures ToWire(Readable(hex)) == Upper(hex) <==> ZeroPaddedAscii(BytesOf(hex))
  {
    hide DigitAt, TextOf, BytesOf, Utf8, UpToNul, Encode, Upper;
    var text := UpToNul(BytesOf(hex));
    if ZeroPaddedAscii(BytesOf(hex)) {
      PaddedAsciiReturns(hex);
    } else if text == "" {
      assert |ToWire(hex)| >= 80;
    } else if |text| != 3 && ToWire(text) == Upper(hex) {
      if |Encode(text)| > 20 {
        LongWire(text);
        assert false;
      } else {
        ReturnerIsPaddedAscii(hex);
      }
    }
  }

  predicate EndsInNul(code: string) {
    |code| > 0 && code[|code| - 1] == 0 as char
  }

  lemma {:induction false} LastByteZero(s: string)
    requires s != "" && Encode(s)[|Encode(s)| - 1] == 0
    ensures EndsInNul(s)
  {
    hide Utf8;
    if |s| == 1 {
      assert Encode(s) == Utf8(s[0]);
    } else {
      assert Encode(s)[|Encode(s)| - 1] == Encode(s[1..])[|Encode(s[1..])| - 1];
      LastByteZero(s[1..]);
    }
  }

  /** A code without the NULs it ends in. */
  function Trimmed(code: string): (r: string)
    ensures !EndsInNul(r)
  {
    if EndsInNul(code) then Trimmed(code[..|code| - 1]) else code
  }

  /** Those NULs are the zero bytes its encoding ends in. */
  lemma {:induction false} EncodeTrimmed(code: string) returns (n: nat)
    ensures Encode(code) == Encode(Trimmed(code)) + Zeros(n)
  {
    hide Encode;
    if EndsInNul(code) {
      var front := code[..|code| - 1];
      assert code == front + [0 as char];
      EncodeAppendNul(front);
      var m := EncodeTrimmed(front);
      n := m + 1;
      assert Zeros(m) + [0] == Zeros(n);
      assert Encode(Trimmed(code)) + Zeros(m) + [0] == Encode(Trimmed(code)) + (Zeros(m) + [0]);
    } else {
      n := 0;
      assert Encode(code) + Zeros(0) == Encode(code);
    }
  }

  function Padded(bytes: seq<Byte>): (r: seq<Byte>)
    requires |bytes| <= 20
    ensures |r| == 20
  {
    bytes + Zeros(20 - |bytes|)
  }

  lemma PaddedWire(code: string)
    requires |code| != 3 && |Encode(code)| <= 20
    ensures ToWire(code) == TextOf(Padded(Encode(code)))
  {
    hide TextOf, BytesOf, IsHex, ToWire, Encode;
    WireBytes(code);
  }

  /** The twenty bytes behind a short code's wire form do not see them. */
  lemma PaddedTrimmed(code: string)
    requires |Encode(code)| <= 20
    ensures |Encode(Trimmed(code))| <= 20 && Padded(Encode(code)) == Padded(Encode(Trimmed(code)))
  {
    hide Encode, Trimmed;
    var n := EncodeTrimmed(code);
    var e := Encode(Trimmed(code));
    assert e + Zeros(n) + Zeros(20 - |e| - n) == e + Zeros(20 - |e|);
  }

  lemma SamePaddingSameText(a: string, b: string)
    requires !EndsInNul(a) && !EndsInNul(b) && |Encode(a)| <= |Encode(b)| <= 20
    ensures Padded(Encode(a)) == Padded(Encode(b)) <==> a == b
  {
    hide Utf8, Encode;
    var ea, eb := Encode(a), Encode(b);
    var pa, pb := Padded(ea), Padded(eb);
    if pa == pb {
      if |ea| < |eb| {
        assert eb[|eb| - 1] == pb[|eb| - 1] == pa[|eb| - 1] == 0;
        NonEmpty(b);
        LastByteZero(b);
      } else {
        assert ea == pa[..|ea|] == pb[..|eb|] == eb;
        EncodeInjective(a, b);
      }
    }
  }

  lemma NonEmpty(s: string)
    requires |Encode(s)| > 0
    ensures s != ""
  {
  }

  lemma LongWireBytes(code: string)
    requires |code| != 3 && |Encode(code)| > 20
    ensures |ToWire(code)| == 2 * |Encode(code)| && IsHex(ToWire(code)) && BytesOf(ToWire(code)) == Encode(code)
  {
    hide DigitAt, TextOf, BytesOf, Utf8, DigitValue, UpperDigit, Encode, IsHex;
    DecodeOfEncode(Encode(code));
  }

  lemma ShortWireLength(code: string)
    requires |code| != 3 && |Encode(code)| <= 20
    ensures |ToWire(code)| == 40
  {
    hide TextOf, BytesOf, Encode;
  }

  lemma SameWireSamePadding(a: string, b: string)
    requires |a| != 3 && |b| != 3 && |Encode(a)| <= 20 && |Encode(b)| <= 20
    ensures ToWire(a) == ToWire(b) <==> Padded(Encode(a)) == Padded(Encode(b))
  {
    hide *;
    PaddedWire(a);
    PaddedWire(b);
    DecodeOfEncode(Padded(Encode(a)));
    DecodeOfEncode(Padded(Encode(b)));
  }

  lemma ShortShared(a: string, b: string)
    requires |a| != 3 && |b| != 3 && |Encode(a)| <= 20 && |Encode(b)| <= 20
    ensures ToWire(a) == ToWire(b) <==> Trimmed(a) == Trimmed(b)
  {
    hide *;
    PaddedTrimmed(a);
    PaddedTrimmed(b);
    SameWireSamePadding(a, b);
    if |Encode(Trimmed(a))| <= |Encode(Trimmed(b))| {
      SamePaddingSameText(Trimmed(a), Trimmed(b));
    } else {
      SamePaddingSameText(Trimmed(b), Trimmed(a));
    }
  }

  lemma LongShared(a: string, b: string)
    requires |a| != 3 && |b| != 3 && |Encode(a)| > 20
    ensures ToWire(a) == ToWire(b) <==> a == b
  {
    hide DigitAt, TextOf, BytesOf, Utf8, Encode, ToWire, IsHex;
    LongWireBytes(a);
    if |Encode(b)| <= 20 {
      ShortWireLength(b);
    } else if ToWire(a) == ToWire(b) {
      LongWireBytes(b);
      EncodeInjective(a, b);
    }
  }

  lemma PlainWire(a: string)
    ensures |a| == 3 ==> ToWire(a) == a
    ensures |a| != 3 ==> |ToWire(a)| >= 40
  {
    hide TextOf, Encode;
  }

  /** Two codes share a wire form if and only if they are the same, or neither has 3 characters, both have at
      most 20 bytes, and they differ only in the NULs they end in. */
  lemma WireSharedExactlyWhen(a: string, b: string)
    ensures ToWire(a) == ToWire(b) <==>
            a == b || (|a| != 3 && |b| != 3 && |Encode(a)| <= 20 && |Encode(b)| <= 20 && Trimmed(a) == Trimmed(b))
  {
    hide ToWire, Encode, Trimmed;
    PlainWire(a);
    PlainWire(b);
    if |a| != 3 && |b| != 3 {
      if |Encode(a)| > 20 {
        LongShared(a, b);
      } else if |Encode(b)| > 20 {
        LongShared(b, a);
      } else {
        ShortShared(a, b);
      }
    }
  }

  /** So codes that do not end in NUL never share one. */
  lemma WireInjective(a: string, b: string)
    requires ToWire(a) == ToWire(b) && !EndsInNul(a) && !EndsInNul(b)
    ensures a == b
  {
    hide ToWire, Encode;
    WireSharedExactlyWhen(a, b);
  }

  /** And a short code shares one with the same code followed by NUL. */
  lemma TrailingNulCollides(code: string)
    requires |code| != 2 && |code| != 3 && |Encode(code)| < 20
    ensures ToWire(code + [0 as char]) == ToWire(code)
  {
    hide DigitAt, TextOf, BytesOf, Utf8, DigitValue, UpperDigit;
    EncodeAppendNul(code);
    WireBytes(code);
    WireBytes(code + [0 as char]);
    var e := Encode(code);
    assert e + [0] + Zeros(19 - |e|) == e + Zeros(20 - |e|);
  }

  // ---- Registration ----

  /** A 40-digit code that spells a text: its first byte is not NUL. */
  predicate SpellsText(input: string) {
    |input| == 40 && IsHex(input) && BytesOf(input)[0] != 0
  }

  /** The text it spells is `XRP`. */
  predicate SpellsXrp(input: string) {
    |input| == 40 && IsHex(input) && BytesOf(input)[..4] == [0x58, 0x52, 0x50, 0]
  }

  /** The text spelled by the bytes up to the first NUL. */
  ghost predicate Spells(bytes: seq<Byte>, text: string) {
    |text| <= |bytes| && (|text| < |bytes| ==> bytes[|text|] == 0)
    && forall k :: 0 <= k < |text| ==> text[k] as int == bytes[k] && bytes[k] != 0
  }

  ghost predicate SpelledBy(input: string, text: string) {
    |input| == 40 && IsHex(input) && Spells(BytesOf(input), text)
  }

  /** The stored code for a trimmed input. Refused are exactly the empty input, XRP in either form, and
      anything over 20 characters that is not the hex form of a text; a stored code is the input itself, or
      the text it spells. */
  method NormalizeCurrency(input: string) returns (code: Option<string>)
    ensures code == Normalized(input)
    ensures code.None? <==> input == "" || input == "XRP" || SpellsXrp(input) || (|input| > 20 && !SpellsText(input))
    ensures code.Some? && |input| <= 20 ==> code.value == input
    ensures code.Some? && |input| > 20 ==> SpelledBy(input, code.value)
  {
    var readable := CurrencyToString(input);
    NormalizedIs(input);
    if readable == "" {
      return None;
    }
    if readable == "XRP" {
      return None;
    }
    if |readable| > 20 {
      return None;
    }
    code := Some(readable);
  }

  function Normalized(input: string): Option<string> {
    var code := Readable(input);
    if code == "" || code == "XRP" || |code| > 20 then None else Some(code)
  }

  lemma SpelledText(bytes: seq<Byte>)
    requires |bytes| == 20
    ensures Spells(bytes, UpToNul(bytes)) && (UpToNul(bytes) == "" <==> bytes[0] == 0)
    ensures UpToNul(bytes) == "XRP" <==> bytes[..4] == [0x58, 0x52, 0x50, 0]
  {
    var xrp := "XRP";
    assert |xrp| == 3 && xrp[0] as int == 0x58 && xrp[1] as int == 0x52 && xrp[2] as int == 0x50;
    var text := UpToNul(bytes);
    assert |text| > 0 ==> text[0] as int == bytes[0] && bytes[0] != 0;
    if bytes[..4] == [0x58, 0x52, 0x50, 0] {
      var four := bytes[..4];
      assert bytes[0] == four[0] && bytes[1] == four[1] && bytes[2] == four[2] && bytes[3] == four[3];
      UpToNulUnique(bytes, xrp);
    }
    if text == xrp {
      assert bytes[3] == 0;
      assert bytes[..4] == [0x58, 0x52, 0x50, 0];
    }
  }

  lemma NormalizedIs(input: string)
    ensures Normalized(input).None? <==> input == "" || input == "XRP" || SpellsXrp(input) || (|input| > 20 && !SpellsText(input))
    ensures Normalized(input).Some? && |input| <= 20 ==> Normalized(input).value == input
    ensures Normalized(input).Some? && |input| > 20 ==> SpelledBy(input, Normalized(input).value)
  {
    hide BytesOf, UpToNul, Spells;
    if |input| == 40 && IsHex(input) {
      SpelledText(BytesOf(input));
    }
  }

  /** A pasted wire form registers the same code as the readable form, and what is stored is a fixed point. */
  lemma PastedHexMatches(code: string)
    requires |code| == 3 || (1 <= |code| <= 20 && Ascii(code))
    ensures Normalized(ToWire(code)) == Normalized(code)
    ensures Normalized(code).Some? ==> Normalized(Normalized(code).value) == Normalized(code)
  {
    hide ToWire;
    ReadableOfWire(code);
  }
}
