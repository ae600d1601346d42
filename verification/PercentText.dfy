/** Percent-encoded UTF-8 text (RFC 3986, section 2.1). */
module PercentText {
  import opened JsonValues

  type Byte = n: nat | n < 256

  // -- UTF-8 (RFC 3629, section 3) --------------------------------------------------------

  function Utf8(c: char): seq<Byte> {
    var n := c as int;
    if n < 0x80 then [n]
    else if n < 0x800 then [0xC0 + n / 64, 0x80 + n % 64]
    else if n < 0x10000 then [0xE0 + n / 4096, 0x80 + n / 64 % 64, 0x80 + n % 64]
    else [0xF0 + n / 262144, 0x80 + n / 4096 % 64, 0x80 + n / 64 % 64, 0x80 + n % 64]
  }

  function Utf8Text(s: string): seq<Byte> {
    if s == "" then [] else Utf8(s[0]) + Utf8Text(s[1..])
  }

  predicate Continues(b: seq<Byte>, i: nat) {
    i < |b| && 0x80 <= b[i] < 0xC0
  }

  predicate Scalar(n: int) {
    0 <= n < 0xD800 || 0xE000 <= n < 0x110000
  }

  /** The code point at the start of the bytes and the bytes it takes, or 0 bytes when they are malformed. */
  function FirstPoint(b: seq<Byte>): (int, nat)
    requires b != []
  {
    if b[0] < 0x80 then (b[0], 1)
    else if 0xC0 <= b[0] < 0xE0 && Continues(b, 1) then
      var n := (b[0] as int - 0xC0) * 64 + (b[1] as int - 0x80);
      if n >= 0x80 then (n, 2) else (0, 0)
    else if 0xE0 <= b[0] < 0xF0 && Continues(b, 1) && Continues(b, 2) then
      var n := (b[0] as int - 0xE0) * 4096 + (b[1] as int - 0x80) * 64 + (b[2] as int - 0x80);
      if n >= 0x800 && Scalar(n) then (n, 3) else (0, 0)
    else if 0xF0 <= b[0] && Continues(b, 1) && Continues(b, 2) && Continues(b, 3) then
      var n := (b[0] as int - 0xF0) * 262144 + (b[1] as int - 0x80) * 4096 + (b[2] as int - 0x80) * 64 + (b[3] as int - 0x80);
      if n >= 0x10000 && Scalar(n) then (n, 4) else (0, 0)
    else (0, 0)
  }

  /** The text of well-formed bytes. */
  function ReadUtf8(b: seq<Byte>): Option<string> {
    if b == [] then Some("")
    else
      var (n, width) := FirstPoint(b);
      if width == 0 || width > |b| || !Scalar(n) then None
      else
        var rest := ReadUtf8(b[width..]);
        if rest.None? then None else Some([n as char] + rest.value)
  }

  lemma Sixties(n: int)
    requires 0 <= n < 0x110000
    ensures n == n / 64 * 64 + n % 64
    ensures n == n / 4096 * 4096 + n / 64 % 64 * 64 + n % 64
    ensures n == n / 262144 * 262144 + n / 4096 % 64 * 4096 + n / 64 % 64 * 64 + n % 64
    ensures n / 262144 <= 4
  {
  }

  lemma FirstPointOf(c: char, rest: seq<Byte>)
    ensures FirstPoint(Utf8(c) + rest) == (c as int, |Utf8(c)|)
  {
    var n := c as int;
    var b := Utf8(c) + rest;
    Sixties(n);
    if n < 0x800 {
      assert b[0] == Utf8(c)[0];
    } else if n < 0x10000 {
      assert b[0] == Utf8(c)[0] && b[1] == Utf8(c)[1] && b[2] == Utf8(c)[2];
    } else {
      assert b[0] == Utf8(c)[0] && b[1] == Utf8(c)[1] && b[2] == Utf8(c)[2] && b[3] == Utf8(c)[3];
    }
  }

  lemma {:induction false} Utf8ReadsBack(s: string)
    ensures ReadUtf8(Utf8Text(s)) == Some(s)
  {
    if s != "" {
      var c, rest := s[0], Utf8Text(s[1..]);
      var b := Utf8(c) + rest;
      FirstPointOf(c, rest);
      assert b[|Utf8(c)|..] == rest && 0 < |Utf8(c)| <= |b|;
      Utf8ReadsBack(s[1..]);
      assert s == [c] + s[1..] && c as int as char == c;
      assert ReadUtf8(b) == Some([c] + s[1..]);
    }
  }

  // -- percent-encoding ------------------------------------------------------------------------

  /** The characters `encodeURIComponent` leaves alone. */
  predicate Kept(c: char) {
    'a' <= c <= 'z' || 'A' <= c <= 'Z' || '0' <= c <= '9'
    || c in {'-', '_', '.', '!', '~', '*', '\'', '(', ')'}
  }

  function Digit(n: nat): char
    requires n < 16
  {
    "0123456789ABCDEF"[n]
  }

  /** The value of a hexadecimal digit, 16 for any other character. */
  function DigitValue(c: char): nat {
    if '0' <= c <= '9' then c as int - '0' as int
    else if 'A' <= c <= 'F' then c as int - 'A' as int + 10
    else if 'a' <= c <= 'f' then c as int - 'a' as int + 10
    else 16
  }

  function Percents(b: seq<Byte>): string {
    if b == [] then "" else ['%', Digit(b[0] / 16), Digit(b[0] % 16)] + Percents(b[1..])
  }

  function Encode(s: string): string {
    if s == "" then "" else (if Kept(s[0]) then [s[0]] else Percents(Utf8(s[0]))) + Encode(s[1..])
  }

  /** `plus`: a `+` stands for a space, as in a form. */
  function DecodedBytes(s: string, plus: bool): seq<Byte> {
    if s == "" then []
    else if s[0] == '%' && |s| >= 3 && DigitValue(s[1]) < 16 && DigitValue(s[2]) < 16 then
      [DigitValue(s[1]) * 16 + DigitValue(s[2])] + DecodedBytes(s[3..], plus)
    else Utf8(if plus && s[0] == '+' then ' ' else s[0]) + DecodedBytes(s[1..], plus)
  }

  function Decode(s: string, plus: bool): Option<string> {
    ReadUtf8(DecodedBytes(s, plus))
  }

  lemma {:induction false} PercentRead(high: nat, low: nat, tail: string, plus: bool)
    requires high < 16 && low < 16
    ensures DecodedBytes(['%', Digit(high), Digit(low)] + tail, plus) == [high * 16 + low] + DecodedBytes(tail, plus)
  {
    hide Digit, DigitValue, Utf8;
    DigitRead(high);
    DigitRead(low);
    var text := ['%', Digit(high), Digit(low)] + tail;
    assert text[0] == '%' && text[1] == Digit(high) && text[2] == Digit(low) && text[3..] == tail;
  }

  lemma {:induction false} PercentsRead(b: seq<Byte>, rest: string, plus: bool)
    ensures DecodedBytes(Percents(b) + rest, plus) == b + DecodedBytes(rest, plus)
  {
    hide Digit, DecodedBytes;
    if b == [] {
      assert Percents(b) + rest == rest;
    } else {
      var high, low := b[0] / 16, b[0] % 16;
      var first, more := ['%', Digit(high), Digit(low)], Percents(b[1..]);
      PercentRead(high, low, more + rest, plus);
      PercentsRead(b[1..], rest, plus);
      assert Percents(b) == first + more;
      assert (first + more) + rest == first + (more + rest);
      assert high * 16 + low == b[0];
      assert [b[0]] + (b[1..] + DecodedBytes(rest, plus)) == b + DecodedBytes(rest, plus);
    }
  }

  lemma DigitRead(n: nat)
    requires n < 16
    ensures DigitValue(Digit(n)) == n
  {
  }

  lemma {:induction false} EncodedBytes(s: string, plus: bool)
    ensures DecodedBytes(Encode(s), plus) == Utf8Text(s)
  {
    if s != "" {
      var rest := Encode(s[1..]);
      EncodedBytes(s[1..], plus);
      if Kept(s[0]) {
        assert ([s[0]] + rest)[1..] == rest;
      } else {
        PercentsRead(Utf8(s[0]), rest, plus);
      }
    }
  }

  /** Decoding gives back the text that was encoded, in a path and in a form. */
  lemma DecodeEncoded(s: string, plus: bool)
    ensures Decode(Encode(s), plus) == Some(s)
  {
    EncodedBytes(s, plus);
    Utf8ReadsBack(s);
  }

  /** A character an encoded text can have. */
  predicate Plain(c: char) {
    Kept(c) || c == '%'
  }

  lemma {:induction false} PercentsArePlain(b: seq<Byte>)
    ensures forall i :: 0 <= i < |Percents(b)| ==> Plain(Percents(b)[i])
  {
    if b != [] { PercentsArePlain(b[1..]); }
  }

  lemma {:induction false} EncodedIsPlain(s: string)
    ensures forall i :: 0 <= i < |Encode(s)| ==> Plain(Encode(s)[i])
  {
    if s != "" {
      EncodedIsPlain(s[1..]);
      PercentsArePlain(Utf8(s[0]));
    }
  }

  // -- splitting -----------------------------------------------------------------------------------

  predicate Without(s: string, c: char) {
    forall i :: 0 <= i < |s| ==> s[i] != c
  }

  /** Where `c` first stands, or the end. */
  function First(s: string, c: char): (i: nat)
    ensures i <= |s| && Without(s[..i], c) && (i < |s| ==> s[i] == c)
  {
    if s == "" || s[0] == c then 0 else 1 + First(s[1..], c)
  }

  lemma {:induction false} FirstAfter(a: string, c: char, b: string)
    requires Without(a, c)
    ensures First(a + [c] + b, c) == |a|
    ensures First(a, c) == |a|
  {
    if a != "" {
      FirstAfter(a[1..], c, b);
      assert (a + [c] + b)[1..] == a[1..] + [c] + b;
    }
  }

  lemma EncodedWithout(s: string, c: char)
    requires !Plain(c)
    ensures Without(Encode(s), c)
  {
    EncodedIsPlain(s);
  }

  // -- what is encoded ---------------------------------------------------------------------------

  /** Letters, digits and the nine marks. */
  const CAPITALS := {'A', 'B', 'C', 'D', 'E', 'F', 'G', 'H', 'I', 'J', 'K', 'L', 'M', 'N', 'O', 'P', 'Q', 'R', 'S',
    'T', 'U', 'V', 'W', 'X', 'Y', 'Z'}
  const SMALL_LETTERS := {'a', 'b', 'c', 'd', 'e', 'f', 'g', 'h', 'i', 'j', 'k', 'l', 'm', 'n', 'o', 'p', 'q', 'r',
    's', 't', 'u', 'v', 'w', 'x', 'y', 'z'}
  const DECIMALS := {'0', '1', '2', '3', '4', '5', '6', '7', '8', '9'}
  const MARKS := {'-', '_', '.', '!', '~', '*', '\'', '(', ')'}
  const UNRESERVED := CAPITALS + SMALL_LETTERS + DECIMALS + MARKS

  const UPPER_HEX := "0123456789ABCDEF"

  predicate Unreserved(text: string) {
    forall i :: 0 <= i < |text| ==> text[i] in UNRESERVED
  }

  /** Unreserved characters, and percent signs with two hexadecimal digits. */
  predicate UrlText(text: string)
    decreases |text|
  {
    text == "" ||
    (text[0] in UNRESERVED && UrlText(text[1..])) ||
    (|text| >= 3 && text[0] == '%' && text[1] in UPPER_HEX && text[2] in UPPER_HEX && UrlText(text[3..]))
  }

  lemma KeptIsUnreserved(c: char)
    ensures Kept(c) <==> c in UNRESERVED
  {
    hide CAPITALS, SMALL_LETTERS, DECIMALS, MARKS;
    LettersListed(c);
    DigitsListed(c);
    MarksListed(c);
  }

  lemma LettersListed(c: char)
    ensures c in CAPITALS <==> 'A' <= c <= 'Z'
    ensures c in SMALL_LETTERS <==> 'a' <= c <= 'z'
  {
    assert c == c as int as char;
  }

  lemma DigitsListed(c: char)
    ensures c in DECIMALS <==> '0' <= c <= '9'
  {
    assert c == c as int as char;
  }

  lemma MarksListed(c: char)
    ensures c in MARKS <==> c in {'-', '_', '.', '!', '~', '*', '\'', '(', ')'}
  {
  }

  lemma DigitIsHex(n: nat)
    requires n < 16
    ensures Digit(n) in UPPER_HEX
  {
  }

  lemma {:induction false} PercentsAreUrlText(b: seq<Byte>, rest: string)
    requires UrlText(rest)
    ensures UrlText(Percents(b) + rest) && |Percents(b)| == 3 * |b|
    decreases |b|
  {
    hide UNRESERVED, UPPER_HEX, Digit;
    if b == [] {
      assert Percents(b) + rest == rest;
    } else {
      PercentsAreUrlText(b[1..], rest);
      DigitIsHex(b[0] / 16);
      DigitIsHex(b[0] % 16);
      var text := Percents(b) + rest;
      assert text[0] == '%' && text[1] == Digit(b[0] / 16) && text[2] == Digit(b[0] % 16) && text[3..] == Percents(b[1..]) + rest;
    }
  }

  lemma SomeBytes(c: char)
    ensures |Utf8(c)| > 0
  {
  }

  /** What is encoded may stand in a URL; exactly the texts that may as they are stay as they are. */
  lemma {:induction false} EncodesOnlyNeeded(s: string)
    ensures UrlText(Encode(s)) && |Encode(s)| >= |s|
    ensures |Encode(s)| == |s| <==> Unreserved(s)
    ensures Encode(s) == s <==> Unreserved(s)
    decreases |s|
  {
    hide UNRESERVED, UPPER_HEX, Kept, Utf8;
    if s != "" {
      EncodesOnlyNeeded(s[1..]);
      KeptIsUnreserved(s[0]);
      SomeBytes(s[0]);
      assert Unreserved(s) <==> s[0] in UNRESERVED && Unreserved(s[1..]);
      if Kept(s[0]) {
        assert Encode(s) == [s[0]] + Encode(s[1..]) && Encode(s)[1..] == Encode(s[1..]);
      } else {
        PercentsAreUrlText(Utf8(s[0]), Encode(s[1..]));
      }
    }
  }
}
