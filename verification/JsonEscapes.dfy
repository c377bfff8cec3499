/** The escapes of JSON strings as literal texts (section 7 of RFC 8259), as they are written and as they are read. */
module JsonEscapes {
  import opened Bytes
  import opened JsonText

  /** The bytes of an ASCII text. */
  function Text(s: string): bytes
    requires forall i :: 0 <= i < |s| ==> s[i] as int < 0x80
  {
    seq(|s|, i requires 0 <= i < |s| => s[i] as int)
  }

  const DIGITS := "0123456789abcdef"

  /** What is written for each byte: a short escape, four digits for any other control character, or the byte itself. */
  lemma WriteTable(b: byte)
    ensures b == '"' as int ==> EscapeByte(b) == Text("\\\"")
    ensures b == '\\' as int ==> EscapeByte(b) == Text("\\\\")
    ensures b == 8 ==> EscapeByte(b) == Text("\\b")
    ensures b == 9 ==> EscapeByte(b) == Text("\\t")
    ensures b == 10 ==> EscapeByte(b) == Text("\\n")
    ensures b == 12 ==> EscapeByte(b) == Text("\\f")
    ensures b == 13 ==> EscapeByte(b) == Text("\\r")
    ensures b < 0x20 && b !in {8, 9, 10, 12, 13} ==>
              EscapeByte(b) == Text("\\u00") + [DIGITS[b / 16] as int, DIGITS[b % 16] as int]
    ensures b >= 0x20 && b != '"' as int && b != '\\' as int ==> EscapeByte(b) == [b]
  {
    if b < 0x20 {
      DigitWritten(b / 16);
      DigitWritten(b % 16);
    }
  }

  lemma DigitWritten(n: nat)
    requires n < 16
    ensures HexDigit(n) == DIGITS[n] as int
  {
    assert DIGITS[0] == '0' && DIGITS[9] == '9' && DIGITS[10] == 'a' && DIGITS[15] == 'f';
  }

  /** What the short escapes are read as, after their backslash; any letter but these and `u` is an error. */
  lemma ReadTable(b: byte, rest: bytes)
    ensures b == '"' as int ==> ReadEscape([b] + rest) == Ok((Text("\""), rest))
    ensures b == '\\' as int ==> ReadEscape([b] + rest) == Ok((Text("\\"), rest))
    ensures b == '/' as int ==> ReadEscape([b] + rest) == Ok((Text("/"), rest))
    ensures b == 'b' as int ==> ReadEscape([b] + rest) == Ok(([8], rest))
    ensures b == 't' as int ==> ReadEscape([b] + rest) == Ok(([9], rest))
    ensures b == 'n' as int ==> ReadEscape([b] + rest) == Ok(([10], rest))
    ensures b == 'f' as int ==> ReadEscape([b] + rest) == Ok(([12], rest))
    ensures b == 'r' as int ==> ReadEscape([b] + rest) == Ok(([13], rest))
    ensures b !in Text("\"\\/bfnrtu") ==> ReadEscape([b] + rest) == Err(Parse)
  {
    assert ([b] + rest)[1..] == rest;
    assert Text("\"") == [34] && Text("\\") == [92] && Text("/") == [47];
    var all := Text("\"\\/bfnrtu");
    assert all[0] == 34 && all[1] == 92 && all[2] == 47 && all[3] == 98 && all[4] == 102 && all[5] == 110 && all[6] == 114
           && all[7] == 116 && all[8] == 117;
  }

  /** The value of a hexadecimal digit of either case. */
  predicate Digit(b: byte, n: nat) {
    n < 16 && (b == DIGITS[n] as int || (n >= 10 && b == "ABCDEF"[n - 10] as int))
  }

  lemma DigitRead(b: byte, n: nat)
    requires Digit(b, n)
    ensures HexValue(b) == Some(n)
  {
    DigitWritten(n);
  }

  /** Four digits. */
  ghost predicate Digits(s: bytes, n: nat) {
    |s| == 4 && exists a: nat, b: nat, c: nat, d: nat :: Digit(s[0], a) && Digit(s[1], b) && Digit(s[2], c) && Digit(s[3], d)
                                     && n == a * 4096 + b * 256 + c * 16 + d
  }

  lemma DigitsRead(s: bytes, n: nat, rest: bytes)
    requires Digits(s, n)
    ensures Hex4(s + rest) == Some(n) && n < 0x1_0000
  {
    hide Digit;
    var a: nat, b: nat, c: nat, d: nat :| Digit(s[0], a) && Digit(s[1], b) && Digit(s[2], c) && Digit(s[3], d)
      && n == a * 4096 + b * 256 + c * 16 + d;
    DigitRead(s[0], a);
    DigitRead(s[1], b);
    DigitRead(s[2], c);
    DigitRead(s[3], d);
  }

  /** What a first byte and the following bytes, of six bits each, stand for. */
  function Places(first: int, following: seq<int>): int {
    if following == [] then first else Places(first, following[..|following| - 1]) * 64 + (following[|following| - 1] - 0x80)
  }

  /** The one to four bytes of a character (section 3 of RFC 3629). */
  predicate Encodes(t: bytes, code: int) {
    && (forall i :: 1 <= i < |t| ==> 0x80 <= t[i] < 0xC0)
    && ((|t| == 1 && code == t[0] < 0x80)
        || (|t| == 2 && 0x80 <= code < 0x800 && code == Places(t[0] as int - 0xC0, t[1..]))
        || (|t| == 3 && 0x800 <= code < 0x1_0000 && code == Places(t[0] as int - 0xE0, t[1..]))
        || (|t| == 4 && 0x1_0000 <= code < 0x11_0000 && code == Places(t[0] as int - 0xF0, t[1..])))
  }

  lemma PlacesOne(first: int, a: int)
    ensures Places(first, [a]) == first * 64 + (a - 0x80)
  {
    assert [a][..0] == [];
    assert Places(first, []) == first;
  }

  lemma PlacesTwo(first: int, a: int, b: int)
    ensures Places(first, [a, b]) == first * 4096 + (a - 0x80) * 64 + (b - 0x80)
  {
    PlacesOne(first, a);
    assert [a, b][..1] == [a];
  }

  lemma PlacesThree(first: int, a: int, b: int, c: int)
    ensures Places(first, [a, b, c]) == first * 262144 + (a - 0x80) * 4096 + (b - 0x80) * 64 + (c - 0x80)
  {
    PlacesTwo(first, a, b);
    assert [a, b, c][..2] == [a, b];
  }

  lemma Utf8Encodes(code: nat)
    requires Utf8Of(code).Some?
    ensures Encodes(Utf8Of(code).value, code)
  {
    hide Places;
    var t := Utf8Of(code).value;
    if 0x80 <= code < 0x800 {
      PlacesOne(t[0] as int - 0xC0, t[1]);
      assert t[1..] == [t[1]];
    } else if 0x800 <= code < 0x1_0000 {
      PlacesTwo(t[0] as int - 0xE0, t[1], t[2]);
      assert t[1..] == [t[1], t[2]];
      assert code / 64 / 64 == code / 4096;
    } else if code >= 0x1_0000 {
      PlacesThree(t[0] as int - 0xF0, t[1], t[2], t[3]);
      assert t[1..] == [t[1], t[2], t[3]];
      assert code / 64 / 64 == code / 4096 && code / 4096 / 64 == code / 262144;
    }
  }

  /** A `u` and four digits is that character, unless it is NUL or half of a pair. */
  lemma ReadUnicode(digits: bytes, n: nat, rest: bytes)
    requires Digits(digits, n) && !(0xD800 <= n <= 0xDBFF)
    ensures n == 0 || 0xDC00 <= n <= 0xDFFF ==> ReadEscape(Text("u") + digits + rest) == Err(Parse)
    ensures 0 < n < 0xD800 || n > 0xDFFF ==>
              exists t :: Encodes(t, n) && ReadEscape(Text("u") + digits + rest) == Ok((t, rest))
  {
    hide Digits, Encodes;
    var s := Text("u") + digits + rest;
    DigitsRead(digits, n, rest);
    assert s[0] == LETTER_U && s[1..] == digits + rest;
    assert |digits| == 4 by { DigitsFour(digits, n); }
    assert s[5..] == rest;
    if Utf8Of(n).Some? {
      Utf8Encodes(n);
    }
  }

  lemma DigitsFour(digits: bytes, n: nat)
    requires Digits(digits, n)
    ensures |digits| == 4
  {}

  lemma PairParts(high: bytes, low: bytes, rest: bytes)
    requires |high| == 4 && |low| == 4
    ensures var s := Text("u") + high + Text("\\u") + low + rest;
            && |s| >= 11 && s[0] == LETTER_U && s[1..] == high + (Text("\\u") + low + rest)
            && s[5] == BACKSLASH && s[6] == LETTER_U && s[7..] == low + rest && s[11..] == rest
  {}

  /** Two halves of a pair are one character, and nothing else can follow a first half. */
  lemma ReadPair(high: bytes, h: nat, low: bytes, l: nat, rest: bytes)
    requires Digits(high, h) && 0xD800 <= h <= 0xDBFF && Digits(low, l)
    ensures 0xDC00 <= l <= 0xDFFF ==>
              exists t :: Encodes(t, 0x1_0000 + (h - 0xD800) * 0x400 + (l - 0xDC00))
                          && ReadEscape(Text("u") + high + Text("\\u") + low + rest) == Ok((t, rest))
    ensures !(0xDC00 <= l <= 0xDFFF) ==> ReadEscape(Text("u") + high + Text("\\u") + low + rest) == Err(Parse)
  {
    hide Digits, Encodes, Text, Hex4, Utf8Of;
    DigitsFour(high, h);
    DigitsFour(low, l);
    var s := Text("u") + high + Text("\\u") + low + rest;
    PairParts(high, low, rest);
    DigitsRead(high, h, Text("\\u") + low + rest);
    DigitsRead(low, l, rest);
    if 0xDC00 <= l <= 0xDFFF {
      var code := 0x1_0000 + (h - 0xD800) * 0x400 + (l - 0xDC00);
      PairCode(code);
      assert ReadEscape(s) == Ok((Utf8Of(code).value, rest));
    }
  }

  lemma PairCode(code: nat)
    requires 0x1_0000 <= code < 0x11_0000
    ensures Utf8Of(code).Some? && Encodes(Utf8Of(code).value, code)
  {
    hide Encodes;
    Utf8Encodes(code);
  }

  lemma LoneHalf(high: bytes, h: nat, rest: bytes)
    requires Digits(high, h) && 0xD800 <= h <= 0xDBFF && (rest == [] || rest[0] != '\\' as int)
    ensures ReadEscape(Text("u") + high + rest) == Err(Parse)
  {
    hide Digits, Hex4, Utf8Of;
    DigitsFour(high, h);
    DigitsRead(high, h, rest);
    var t := Text("u") + high + rest;
    assert t[0] == LETTER_U && t[1..] == high + rest;
    assert |t| > 5 ==> t[5] == rest[0];
  }
}
