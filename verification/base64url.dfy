/** Unpadded base64url (section 5 of RFC 4648, as section 2 of RFC 7515 uses it), as
    infra/plugins/auth/service.py encodes and decodes it: the encoder strips the
    padding of `urlsafe_b64encode`, and the decoder restores it for
    `urlsafe_b64decode`, which skips characters outside the alphabet. */
module Base64Url {
  import opened Text

  type byte = x: int | 0 <= x < 256

  function Digit(n: int): char
    requires 0 <= n < 64
  {
    if n < 26 then 'A' + n as char
    else if n < 52 then 'a' + (n - 26) as char
    else if n < 62 then '0' + (n - 52) as char
    else if n == 62 then '-' else '_'
  }

  /** The decoder takes both alphabets: it maps '-' and '_' to '+' and '/' first. */
  function Value(c: char): (v: Option<int>)
    ensures v.Some? ==> 0 <= v.value < 64
  {
    if 'A' <= c <= 'Z' then Some(c as int - 'A' as int)
    else if 'a' <= c <= 'z' then Some(c as int - 'a' as int + 26)
    else if '0' <= c <= '9' then Some(c as int - '0' as int + 52)
    else if c == '-' || c == '+' then Some(62)
    else if c == '_' || c == '/' then Some(63)
    else None
  }

  /** The alphabet of section 5 of RFC 4648. */
  const UPPER := "ABCDEFGHIJKLMNOPQRSTUVWXYZ"
  const LOWER := "abcdefghijklmnopqrstuvwxyz"
  const FIGURES := "0123456789"
  const ALPHABET := UPPER + LOWER + FIGURES + "-_"

  lemma InOrder(n: nat)
    ensures |UPPER| == |LOWER| == 26 && |FIGURES| == 10
    ensures n < 26 ==> UPPER[n] == 'A' + n as char && LOWER[n] == 'a' + n as char
    ensures n < 10 ==> FIGURES[n] == '0' + n as char
  {
  }

  lemma DigitsAreStandard(n: int)
    requires 0 <= n < 64
    ensures |ALPHABET| == 64 && Digit(n) == ALPHABET[n]
  {
    hide UPPER, LOWER, FIGURES;
    InOrder(0);
    if n < 26 {
      InOrder(n);
    } else if n < 52 {
      InOrder(n - 26);
    } else if n < 62 {
      InOrder(n - 52);
    }
  }

  /** The decoder takes the alphabet of section 4 as well; no other character means
      anything to it. */
  lemma ValuesAreStandard(n: int, c: char)
    requires 0 <= n < 64
    ensures |ALPHABET| == 64
    ensures Value(c) == Some(n) <==> c == ALPHABET[n] || (n == 62 && c == '+') || (n == 63 && c == '/')
  {
    hide ALPHABET;
    DigitsAreStandard(n);
  }

  /** `urlsafe_b64encode`: four characters for every three bytes, padded with '='. */
  function EncodePadded(data: seq<byte>): string {
    if data == [] then ""
    else if |data| == 1 then
      [Digit(data[0] / 4), Digit(data[0] % 4 * 16), '=', '=']
    else if |data| == 2 then
      [Digit(data[0] / 4), Digit(data[0] % 4 * 16 + data[1] / 16), Digit(data[1] % 16 * 4), '=']
    else
      [Digit(data[0] / 4), Digit(data[0] % 4 * 16 + data[1] / 16),
       Digit(data[1] % 16 * 4 + data[2] / 64), Digit(data[2] % 64)] + EncodePadded(data[3..])
  }

  function StripPadding(s: string): string {
    if s != "" && s[|s| - 1] == '=' then StripPadding(s[..|s| - 1]) else s
  }

  function Encode(data: seq<byte>): string {
    StripPadding(EncodePadded(data))
  }

  function Padding(n: nat): string {
    seq(n, _ => '=')
  }

  /** The decoder's scan: `quad` digits of the current group have been read, `left` is
      what they leave over, `pads` counts the '=' since the last digit. */
  function Scan(s: string, quad: int, left: int, pads: int): Option<seq<byte>>
    requires 0 <= quad < 4 && 0 <= left
    requires (quad == 0 ==> left == 0) && (quad == 1 ==> left < 64)
    requires (quad == 2 ==> left < 16) && (quad == 3 ==> left < 4)
    decreases |s|
  {
    if s == "" then (if quad == 0 then Some([]) else None)
    else if s[0] == '=' then
      if quad >= 2 && quad + pads + 1 >= 4 then Some([])
      else Scan(s[1..], quad, left, if quad >= 2 then pads + 1 else pads)
    else
      var v := Value(s[0]);
      if v == None then Scan(s[1..], quad, left, pads)
      else match quad
        case 0 => Scan(s[1..], 1, v.value, 0)
        case 1 => Then(left * 4 + v.value / 16, Scan(s[1..], 2, v.value % 16, 0))
        case 2 => Then(left * 16 + v.value / 4, Scan(s[1..], 3, v.value % 4, 0))
        case _ => Then(left * 64 + v.value, Scan(s[1..], 0, 0, 0))
  }

  function Then(b: int, rest: Option<seq<byte>>): Option<seq<byte>>
    requires 0 <= b < 256
  {
    match rest
    case None => None
    case Some(bytes) => Some([b] + bytes)
  }

  predicate IsAscii(s: string) {
    forall i :: 0 <= i < |s| ==> s[i] < '\U{80}'
  }

  /** `_b64_decode`, with None for the exceptions the callers turn into rejections. */
  function Decode(encoded: string): Option<seq<byte>> {
    var padded := encoded + Padding((4 - |encoded| % 4) % 4);
    if !IsAscii(encoded) then None else Scan(padded, 0, 0, 0)
  }

  // ------------------------------------------------------------ round trip

  lemma DigitValue(n: int)
    requires 0 <= n < 64
    ensures Value(Digit(n)) == Some(n) && Digit(n) != '=' && Digit(n) != '.' && Digit(n) < '\U{80}'
  {
  }

  lemma ScanDigit(c: char, rest: string, quad: int, left: int)
    requires 0 <= quad < 4 && 0 <= left
    requires (quad == 0 ==> left == 0) && (quad == 1 ==> left < 64)
    requires (quad == 2 ==> left < 16) && (quad == 3 ==> left < 4)
    requires c != '=' && Value(c).Some?
    ensures var v := Value(c).value;
            Scan([c] + rest, quad, left, 0) ==
              if quad == 0 then Scan(rest, 1, v, 0)
              else if quad == 1 then Then(left * 4 + v / 16, Scan(rest, 2, v % 16, 0))
              else if quad == 2 then Then(left * 16 + v / 4, Scan(rest, 3, v % 4, 0))
              else Then(left * 64 + v, Scan(rest, 0, 0, 0))
  {
    assert ([c] + rest)[1..] == rest;
  }

  lemma ScanPad(rest: string, quad: int, left: int, pads: int)
    requires 2 <= quad < 4 && 0 <= left && (quad == 2 ==> left < 16) && (quad == 3 ==> left < 4)
    ensures Scan("=" + rest, quad, left, pads) ==
            if quad + pads + 1 >= 4 then Some([]) else Scan(rest, quad, left, pads + 1)
  {
    assert ("=" + rest)[1..] == rest;
  }

  /** The digits of a group, and what the decoder computes back from them. */
  lemma GroupArithmetic(a: byte, b: byte, c: byte)
    ensures var d0, d1, d2, d3 := a / 4, a % 4 * 16 + b / 16, b % 16 * 4 + c / 64, c % 64;
            && 0 <= d0 < 64 && 0 <= d1 < 64 && 0 <= d2 < 64 && 0 <= d3 < 64
            && d0 * 4 + d1 / 16 == a
            && d1 % 16 == b / 16 && d1 % 16 * 16 + d2 / 4 == b
            && d2 % 4 == c / 64 && d2 % 4 * 64 + d3 == c
  {
  }

  lemma Cons4(a: char, b: char, c: char, d: char, rest: string)
    ensures [a, b, c, d] + rest == [a] + ([b] + ([c] + ([d] + rest)))
  {
  }

  /** Two digits decode to a byte and what they leave over. */
  lemma TwoDigits(d0: int, d1: int, rest: string)
    requires 0 <= d0 < 64 && 0 <= d1 < 64
    ensures Scan([Digit(d0)] + ([Digit(d1)] + rest), 0, 0, 0) == Then(d0 * 4 + d1 / 16, Scan(rest, 2, d1 % 16, 0))
  {
    hide Scan, Digit, Value;
    DigitValue(d0);
    DigitValue(d1);
    ScanDigit(Digit(d0), [Digit(d1)] + rest, 0, 0);
    ScanDigit(Digit(d1), rest, 1, d0);
  }

  lemma ThirdDigit(d2: int, left: int, rest: string)
    requires 0 <= d2 < 64 && 0 <= left < 16
    ensures Scan([Digit(d2)] + rest, 2, left, 0) == Then(left * 16 + d2 / 4, Scan(rest, 3, d2 % 4, 0))
  {
    DigitValue(d2);
    hide Scan, Digit, Value;
    ScanDigit(Digit(d2), rest, 2, left);
  }

  lemma FourthDigit(d3: int, left: int, rest: string)
    requires 0 <= d3 < 64 && 0 <= left < 4
    ensures Scan([Digit(d3)] + rest, 3, left, 0) == Then(left * 64 + d3, Scan(rest, 0, 0, 0))
  {
    DigitValue(d3);
    hide Scan, Digit, Value;
    ScanDigit(Digit(d3), rest, 3, left);
  }

  /** A whole group of digits decodes to its three bytes. */
  lemma GroupDecodes(a: byte, b: byte, c: byte, rest: string)
    ensures var d1, d2 := a % 4 * 16 + b / 16, b % 16 * 4 + c / 64;
            Scan([Digit(a / 4), Digit(d1), Digit(d2), Digit(c % 64)] + rest, 0, 0, 0)
              == Then(a, Then(b, Then(c, Scan(rest, 0, 0, 0))))
  {
    hide Scan, Digit, Then;
    GroupArithmetic(a, b, c);
    var d0, d1, d2, d3 := a / 4, a % 4 * 16 + b / 16, b % 16 * 4 + c / 64, c % 64;
    Cons4(Digit(d0), Digit(d1), Digit(d2), Digit(d3), rest);
    TwoDigits(d0, d1, [Digit(d2)] + ([Digit(d3)] + rest));
    ThirdDigit(d2, d1 % 16, [Digit(d3)] + rest);
    FourthDigit(d3, d2 % 4, rest);
  }

  lemma OneByteDecodes(a: byte)
    ensures Scan([Digit(a / 4), Digit(a % 4 * 16), '=', '='], 0, 0, 0) == Some([a])
  {
    hide Scan, Digit;
    GroupArithmetic(a, 0, 0);
    var d0, d1 := a / 4, a % 4 * 16;
    assert [Digit(d0), Digit(d1), '=', '='] == [Digit(d0)] + ([Digit(d1)] + "==");
    TwoDigits(d0, d1, "==");
    assert "==" == "=" + "=";
    ScanPad("=", 2, d1 % 16, 0);
    assert "=" == "=" + "";
    ScanPad("", 2, d1 % 16, 1);
    assert [a] + [] == [a];
  }

  lemma TwoBytesDecode(a: byte, b: byte)
    ensures Scan([Digit(a / 4), Digit(a % 4 * 16 + b / 16), Digit(b % 16 * 4), '='], 0, 0, 0) == Some([a, b])
  {
    hide Scan, Digit;
    GroupArithmetic(a, b, 0);
    var d0, d1, d2 := a / 4, a % 4 * 16 + b / 16, b % 16 * 4;
    assert [Digit(d0), Digit(d1), Digit(d2), '='] == [Digit(d0)] + ([Digit(d1)] + ([Digit(d2)] + "="));
    TwoDigits(d0, d1, [Digit(d2)] + "=");
    ThirdDigit(d2, d1 % 16, "=");
    assert "=" == "=" + "";
    ScanPad("", 3, d2 % 4, 0);
    assert [a] + ([b] + []) == [a, b];
  }

  lemma {:induction false} PaddedDecodes(data: seq<byte>)
    ensures Scan(EncodePadded(data), 0, 0, 0) == Some(data)
    decreases |data|
  {
    hide Scan, Digit;
    if data == [] {
      ScanNothing();
    } else if |data| == 1 {
      OneByteDecodes(data[0]);
      assert data == [data[0]];
    } else if |data| == 2 {
      TwoBytesDecode(data[0], data[1]);
      assert data == [data[0], data[1]];
    } else {
      GroupDecodes(data[0], data[1], data[2], EncodePadded(data[3..]));
      PaddedDecodes(data[3..]);
      assert data == [data[0]] + ([data[1]] + ([data[2]] + data[3..]));
    }
  }

  lemma ScanNothing()
    ensures Scan("", 0, 0, 0) == Some([])
  {
  }

  /** The digits without the padding. */
  function Digits(data: seq<byte>): string {
    if data == [] then ""
    else if |data| == 1 then [Digit(data[0] / 4), Digit(data[0] % 4 * 16)]
    else if |data| == 2 then [Digit(data[0] / 4), Digit(data[0] % 4 * 16 + data[1] / 16), Digit(data[1] % 16 * 4)]
    else
      [Digit(data[0] / 4), Digit(data[0] % 4 * 16 + data[1] / 16),
       Digit(data[1] % 16 * 4 + data[2] / 64), Digit(data[2] % 64)] + Digits(data[3..])
  }

  /** Characters the encoder produces: never '=', never '.', always ASCII. */
  predicate UrlSafe(s: string) {
    forall i :: 0 <= i < |s| ==> s[i] != '=' && s[i] != '.' && s[i] < '\U{80}'
  }

  lemma GroupIsSafe(d0: int, d1: int, d2: int, d3: int)
    requires 0 <= d0 < 64 && 0 <= d1 < 64 && 0 <= d2 < 64 && 0 <= d3 < 64
    ensures UrlSafe([Digit(d0), Digit(d1)]) && UrlSafe([Digit(d0), Digit(d1), Digit(d2)])
    ensures UrlSafe([Digit(d0), Digit(d1), Digit(d2), Digit(d3)])
  {
    DigitValue(d0);
    DigitValue(d1);
    DigitValue(d2);
    DigitValue(d3);
    hide Digit;
  }

  lemma {:induction false} PaddedIsDigits(data: seq<byte>)
    ensures EncodePadded(data) == Digits(data) + Padding((4 - |Digits(data)| % 4) % 4)
    decreases |data|
  {
    hide Digit;
    if |data| > 2 {
      PaddedIsDigits(data[3..]);
      var n := |Digits(data[3..])|;
      assert (4 + n) % 4 == n % 4;
    }
  }

  lemma {:induction false} DigitsAreSafe(data: seq<byte>)
    ensures UrlSafe(Digits(data))
    decreases |data|
  {
    hide Digit, UrlSafe;
    if data == [] {
      NoneSafe();
    } else {
      var b: byte, c: byte := if |data| > 1 then data[1] else 0, if |data| > 2 then data[2] else 0;
      GroupArithmetic(data[0], b, c);
      GroupIsSafe(data[0] / 4, data[0] % 4 * 16 + b / 16, b % 16 * 4 + c / 64, c % 64);
      if |data| > 2 {
        DigitsAreSafe(data[3..]);
        SafeAppend([Digit(data[0] / 4), Digit(data[0] % 4 * 16 + b / 16), Digit(b % 16 * 4 + c / 64), Digit(c % 64)],
                   Digits(data[3..]));
      }
    }
  }

  lemma NoneSafe()
    ensures UrlSafe("")
  {
  }

  lemma SafeAppend(a: string, b: string)
    requires UrlSafe(a) && UrlSafe(b)
    ensures UrlSafe(a + b)
  {
  }

  lemma {:induction false} StripsPadding(s: string, n: nat)
    requires UrlSafe(s)
    ensures StripPadding(s + Padding(n)) == s
  {
    if n == 0 {
      assert s + Padding(0) == s;
    } else {
      assert (s + Padding(n))[..|s| + n - 1] == s + Padding(n - 1);
      StripsPadding(s, n - 1);
    }
  }

  /** Decoding undoes encoding on every byte string, and encoded text is safe to put
      between the dots of a token. */
  lemma DecodeEncode(data: seq<byte>)
    ensures Decode(Encode(data)) == Some(data)
    ensures UrlSafe(Encode(data)) && IsAscii(Encode(data))
  {
    hide Scan, Digits, EncodePadded, StripPadding, Padding, Encode;
    PaddedIsDigits(data);
    DigitsAreSafe(data);
    EncodeIsDigits(data);
    PaddedDecodes(data);
  }

  lemma EncodeIsDigits(data: seq<byte>)
    ensures Encode(data) == Digits(data)
  {
    hide Digits, EncodePadded, StripPadding, Padding;
    PaddedIsDigits(data);
    DigitsAreSafe(data);
    StripsPadding(Digits(data), (4 - |Digits(data)| % 4) % 4);
  }

  /** The test vectors of section 10 of RFC 4648 without their padding, and two bytes
      whose digits differ from those of section 4. */
  lemma KnownTexts()
    ensures Encode([]) == "" && Encode([102]) == "Zg" && Encode([102, 111]) == "Zm8"
    ensures Encode([102, 111, 111]) == "Zm9v" && Encode([102, 111, 111, 98, 97, 114]) == "Zm9vYmFy"
    ensures Encode([251, 255]) == "-_8"
  {
    hide Encode, Digits;
    EncodeIsDigits([]);
    EncodeIsDigits([102]);
    EncodeIsDigits([102, 111]);
    EncodeIsDigits([102, 111, 111]);
    EncodeIsDigits([251, 255]);
    EncodeIsDigits([102, 111, 111, 98, 97, 114]);
    ShortTexts();
    WholeGroup(102, 111, 111, []);
    WholeGroup(98, 97, 114, []);
    WholeGroup(102, 111, 111, [98, 97, 114]);
    assert [102, 111, 111] + [98, 97, 114] == [102, 111, 111, 98, 97, 114];
    assert [98, 97, 114] + [] == [98, 97, 114];
    assert [102, 111, 111] + [] == [102, 111, 111];
  }

  lemma ShortTexts()
    ensures Digits([]) == "" && Digits([102]) == "Zg" && Digits([102, 111]) == "Zm8" && Digits([251, 255]) == "-_8"
  {
  }

  lemma WholeGroup(a: byte, b: byte, c: byte, rest: seq<byte>)
    ensures Digits([a, b, c] + rest) ==
            [Digit(a / 4), Digit(a % 4 * 16 + b / 16), Digit(b % 16 * 4 + c / 64), Digit(c % 64)] + Digits(rest)
  {
    hide Digit;
    assert ([a, b, c] + rest)[3..] == rest;
  }
}
