/** Strings and numbers of canonical JSON (`append_string`, `json_string`, `parse_number`; section 7 of RFC 8259). */
module JsonText {
  import opened Bytes
  import opened Seqs
  import Utf8

  const QUOTE: byte := 34
  const BACKSLASH: byte := 92
  const LETTER_U: byte := 117

  // ----- writing a string

  function HexDigit(n: nat): byte
    requires n < 16
  {
    if n < 10 then 48 + n else 87 + n
  }

  /** How one byte of a string is written. */
  function EscapeByte(b: byte): (e: bytes)
    ensures e != []
  {
    if b == QUOTE || b == BACKSLASH then [BACKSLASH, b]
    else if b == 8 then [BACKSLASH, 98]
    else if b == 12 then [BACKSLASH, 102]
    else if b == 10 then [BACKSLASH, 110]
    else if b == 13 then [BACKSLASH, 114]
    else if b == 9 then [BACKSLASH, 116]
    else if b < 0x20 then [BACKSLASH, LETTER_U, 48, 48, HexDigit(b / 16), HexDigit(b % 16)]
    else [b]
  }

  function Escape(s: bytes): bytes { if s == [] then [] else EscapeByte(s[0]) + Escape(s[1..]) }

  function Quoted(s: bytes): bytes { [QUOTE] + (Escape(s) + [QUOTE]) }

  // ----- reading a string

  function HexValue(b: byte): Option<nat> {
    if 48 <= b <= 57 then Some(b - 48)
    else if 97 <= b <= 102 then Some(b - 87)
    else if 65 <= b <= 70 then Some(b - 55) else None
  }

  /** Four hexadecimal digits. */
  function Hex4(s: bytes): (n: Option<nat>)
    ensures n.Some? ==> n.value < 0x10000
  {
    if |s| < 4 then None else
    var (a, b, c, d) := (HexValue(s[0]), HexValue(s[1]), HexValue(s[2]), HexValue(s[3]));
    if a.None? || b.None? || c.None? || d.None? then None
    else Some(((a.value * 16 + b.value) * 16 + c.value) * 16 + d.value)
  }

  /** The UTF-8 bytes of a code point; 0 and surrogates have none. */
  function Utf8Of(code: nat): Option<bytes> {
    if code == 0 || code > 0x10FFFF || 0xD800 <= code <= 0xDFFF then None
    else if code < 0x80 then Some([code])
    else if code < 0x800 then Some([0xC0 + code / 64, 0x80 + code % 64])
    else if code < 0x10000 then Some([0xE0 + code / 4096, 0x80 + code / 64 % 64, 0x80 + code % 64])
    else Some([0xF0 + code / 262144, 0x80 + code / 4096 % 64, 0x80 + code / 64 % 64, 0x80 + code % 64])
  }

  /** The character of an escape that follows a backslash, and what follows it. */
  function ReadEscape(s: bytes): (r: Result<(bytes, bytes)>)
    ensures r.Ok? ==> |r.value.1| < |s|
    ensures r.Err? ==> r.error == Parse
  {
    if s == [] then Err(Parse)
    else if s[0] == QUOTE || s[0] == BACKSLASH || s[0] == 47 then Ok(([s[0]], s[1..]))
    else if s[0] == 98 then Ok(([8], s[1..]))
    else if s[0] == 102 then Ok(([12], s[1..]))
    else if s[0] == 110 then Ok(([10], s[1..]))
    else if s[0] == 114 then Ok(([13], s[1..]))
    else if s[0] == 116 then Ok(([9], s[1..]))
    else if s[0] != LETTER_U then Err(Parse) else
    var high := Hex4(s[1..]);
    if high.None? then Err(Parse) else
    if !(0xD800 <= high.value <= 0xDBFF) then
      var text := Utf8Of(high.value);
      if text.None? then Err(Parse) else Ok((text.value, s[5..]))
    else
      if |s| < 11 || s[5] != BACKSLASH || s[6] != LETTER_U then Err(Parse) else
      var low := Hex4(s[7..]);
      if low.None? || !(0xDC00 <= low.value <= 0xDFFF) then Err(Parse) else
      var text := Utf8Of(0x10000 + (high.value - 0xD800) * 1024 + (low.value - 0xDC00));
      if text.None? then Err(Parse) else Ok((text.value, s[11..]))
  }

  predicate Raw(b: byte) { b >= 0x20 && b != QUOTE && b != BACKSLASH }

  /** How many bytes may be taken as they are. */
  function RunLength(s: bytes): (n: nat)
    ensures n <= |s|
  {
    if s == [] || !Raw(s[0]) then 0 else 1 + RunLength(s[1..])
  }

  /** The text of a string after its opening quote, and what follows its closing quote. */
  function ReadString(s: bytes): (r: Result<(bytes, bytes)>)
    ensures r.Ok? ==> |r.value.1| < |s|
    ensures r.Err? ==> r.error == Parse
    decreases |s|
  {
    if s == [] || (s[0] < 0x20) then Err(Parse)
    else if s[0] == QUOTE then Ok(([], s[1..]))
    else if s[0] == BACKSLASH then
      var e := ReadEscape(s[1..]);
      if e.Err? then Err(Parse) else Then(e.value.0, ReadString(e.value.1))
    else
      var n := RunLength(s);
      if !Utf8.Valid(s[..n]) then Err(Parse) else Then(s[..n], ReadString(s[n..]))
  }

  function Then(text: bytes, r: Result<(bytes, bytes)>): Result<(bytes, bytes)> {
    if r.Ok? then Ok((text + r.value.0, r.value.1)) else r
  }

  // ----- reading a written string

  lemma {:induction false} RunEnds(s: bytes, rest: bytes)
    requires (forall i :: 0 <= i < |s| ==> Raw(s[i])) && (rest == [] || !Raw(rest[0]))
    ensures RunLength(s + rest) == |s|
    decreases |s|
  {
    if s == [] {
      assert s + rest == rest;
    } else {
      assert (s + rest)[1..] == s[1..] + rest;
      RunEnds(s[1..], rest);
    }
  }

  lemma {:induction false} EscapeRaw(s: bytes, n: nat)
    requires n <= |s| && forall i :: 0 <= i < n ==> Raw(s[i])
    ensures Escape(s) == s[..n] + Escape(s[n..])
    decreases n
  {
    if n == 0 {
      assert s[0..] == s && s[..0] + Escape(s) == Escape(s);
    } else {
      EscapeRaw(s[1..], n - 1);
      assert s[..n] == [s[0]] + s[1..][..n - 1] && s[1..][n - 1..] == s[n..];
      Assoc([s[0]], s[1..][..n - 1], Escape(s[n..]));
    }
  }

  lemma {:induction false} RunIsRaw(s: bytes)
    ensures forall i :: 0 <= i < RunLength(s) ==> Raw(s[i])
    ensures RunLength(s) < |s| ==> !Raw(s[RunLength(s)])
  {
    if s != [] && Raw(s[0]) {
      RunIsRaw(s[1..]);
    }
  }

  /** An escaped byte reads back as itself. */
  lemma EscapeRead(b: byte, rest: bytes)
    requires !Raw(b) && b != 0
    ensures EscapeByte(b)[0] == BACKSLASH
    ensures ReadEscape(EscapeByte(b)[1..] + rest) == Ok(([b], rest))
  {
    var s := EscapeByte(b)[1..] + rest;
    if |EscapeByte(b)| == 6 {
      assert s[1..] == [48, 48, HexDigit(b / 16), HexDigit(b % 16)] + rest;
      assert HexValue(HexDigit(b / 16)) == Some(b / 16) && HexValue(HexDigit(b % 16)) == Some(b % 16);
      assert Hex4(s[1..]) == Some(b);
      assert s[5..] == rest;
    } else {
      assert s[1..] == rest;
    }
  }

  /** Well-formed text without NUL that is written as a string reads back as itself. */
  lemma {:induction false} StringRead(s: bytes, rest: bytes)
    requires Utf8.Valid(s) && 0 !in s
    ensures ReadString(Escape(s) + ([QUOTE] + rest)) == Ok((s, rest))
    decreases |s|
  {
    hide Utf8.Valid, ReadEscape, EscapeByte;
    var tail := [QUOTE] + rest;
    if s == [] {
      assert [] + tail == tail;
      assert tail[1..] == rest;
    } else if Raw(s[0]) {
      var n := RunLength(s);
      RunIsRaw(s);
      assert n > 0;
      RunBoundary(s, n);
      Utf8.ValidTo(s, n);
      Utf8.ValidFrom(s, n);
      StringRead(s[n..], rest);
      RunRead(s, n, tail);
      Rejoin(s, n);
    } else {
      HeadAscii(s);
      StringRead(s[1..], rest);
      EscapedHead(s, tail);
      assert [s[0]] + s[1..] == s;
    }
  }

  lemma RunBoundary(s: bytes, n: nat)
    requires n <= |s| && (n < |s| ==> !Raw(s[n]))
    ensures Utf8.Boundary(s, n)
  {}

  lemma HeadAscii(s: bytes)
    requires Utf8.Valid(s) && s != [] && !Raw(s[0])
    ensures Utf8.Valid(s[1..])
  {}

  /** A run of bytes taken as they are. */
  lemma RunRead(s: bytes, n: nat, tail: bytes)
    requires 0 < n <= |s| && (forall i :: 0 <= i < n ==> Raw(s[i])) && (n < |s| ==> !Raw(s[n]))
    requires tail != [] && tail[0] == QUOTE && Utf8.Valid(s[..n])
    ensures ReadString(Escape(s) + tail) == Then(s[..n], ReadString(Escape(s[n..]) + tail))
  {
    hide Utf8.Valid, Escape;
    var after := Escape(s[n..]) + tail;
    EscapeRaw(s, n);
    Assoc(s[..n], Escape(s[n..]), tail);
    NotRaw(s[n..], tail);
    RunEnds(s[..n], after);
    Peel(s[..n], after);
    assert (s[..n] + after)[0] == s[0];
  }

  /** What follows a run starts with a backslash or the closing quote. */
  lemma NotRaw(s: bytes, tail: bytes)
    requires (s == [] || !Raw(s[0])) && tail != [] && tail[0] == QUOTE
    ensures Escape(s) + tail != [] && !Raw((Escape(s) + tail)[0])
  {
    if s == [] {
      assert Escape(s) + tail == tail;
    } else {
      assert (Escape(s) + tail)[0] == EscapeByte(s[0])[0];
    }
  }

  lemma EscapedHead(s: bytes, tail: bytes)
    requires s != [] && !Raw(s[0]) && s[0] != 0
    ensures ReadString(Escape(s) + tail) == Then([s[0]], ReadString(Escape(s[1..]) + tail))
  {
    hide ReadEscape, EscapeByte;
    var e, after := EscapeByte(s[0]), Escape(s[1..]) + tail;
    EscapeRead(s[0], after);
    Assoc(e, Escape(s[1..]), tail);
    assert (e + after)[1..] == e[1..] + after && (e + after)[0] == BACKSLASH;
  }

  // ----- what is read is text

  predicate TextOk(s: bytes) { Utf8.Valid(s) && 0 !in s }

  lemma Utf8OfOk(code: nat)
    requires Utf8Of(code).Some?
    ensures TextOk(Utf8Of(code).value)
  {
    var s := Utf8Of(code).value;
    assert Utf8.CharLength(s) == |s|;
    assert s[|s|..] == [];
  }

  lemma {:induction false} ReadStringOk(s: bytes)
    requires ReadString(s).Ok?
    ensures TextOk(ReadString(s).value.0)
    decreases |s|
  {
    hide Utf8.Valid, ReadEscape;
    if s[0] == QUOTE {
      NoText();
    } else if s[0] == BACKSLASH {
      var e := ReadEscape(s[1..]).value;
      EscapeOk(s[1..]);
      ReadStringOk(e.1);
      Utf8.ValidConcat(e.0, ReadString(e.1).value.0);
    } else {
      var n := RunLength(s);
      RunIsRaw(s);
      ReadStringOk(s[n..]);
      Utf8.ValidConcat(s[..n], ReadString(s[n..]).value.0);
    }
  }

  lemma NoText()
    ensures TextOk([])
  {}

  lemma EscapeOk(s: bytes)
    requires ReadEscape(s).Ok?
    ensures TextOk(ReadEscape(s).value.0)
  {
    hide Utf8Of, Hex4;
    if s[0] == LETTER_U {
      var high := Hex4(s[1..]).value;
      if 0xD800 <= high <= 0xDBFF {
        Utf8OfOk(0x10000 + (high - 0xD800) * 1024 + (Hex4(s[7..]).value - 0xDC00));
      } else {
        Utf8OfOk(high);
      }
    } else {
      var t := ReadEscape(s).value.0;
      assert Utf8.CharLength(t) == 1 && t[1..] == [];
    }
  }

  lemma {:induction false} EscapeNoNul(s: bytes)
    requires 0 !in s
    ensures 0 !in Escape(s)
  {
    if s != [] {
      EscapeNoNul(s[1..]);
    }
  }

  // ----- numbers

  predicate Digit(b: byte) { 48 <= b <= 57 }

  function Digits(s: bytes): (n: nat)
    ensures n <= |s|
    ensures n < |s| ==> !Digit(s[n])
  {
    if s == [] || !Digit(s[0]) then 0 else 1 + Digits(s[1..])
  }

  function Sign(s: bytes): (n: nat)
    ensures n <= |s|
  {
    if s != [] && (s[0] == 43 || s[0] == 45) then 1 else 0
  }

  /** The end of the digits and the fraction after `from`, if there is any digit. */
  function Mantissa(s: bytes, from: nat): (n: Option<nat>)
    requires from <= |s|
    ensures n.Some? ==> from <= n.value <= |s|
  {
    var whole := Digits(s[from..]);
    var at := from + whole;
    if at < |s| && s[at] == 46 then
      var part := Digits(s[at + 1..]);
      if whole + part == 0 then None else Some(at + 1 + part)
    else if whole == 0 then None else Some(at)
  }

  /** The end of an exponent at `from`, or `from` when there is none. */
  function Exponent(s: bytes, from: nat): (n: nat)
    requires from <= |s|
    ensures from <= n <= |s|
  {
    if from == |s| || (s[from] != 101 && s[from] != 69) then from else
    var at := from + 1 + Sign(s[from + 1..]);
    var part := Digits(s[at..]);
    if part == 0 then from else at + part
  }

  /** The length of the number that `s` starts with, as `parse_number` scans it. */
  function NumberLength(s: bytes): Option<nat> {
    var m := Mantissa(s, Sign(s));
    if m.None? then None else Some(Exponent(s, m.value))
  }

  /** What may follow a value in a document. */
  predicate Delimited(rest: bytes) { rest == [] || rest[0] == 44 || rest[0] == 93 || rest[0] == 125 }

  /** Starts like a JSON number and is one to its end. */
  predicate NumberText(t: bytes) { t != [] && (t[0] == 45 || Digit(t[0])) && NumberLength(t) == Some(|t|) }

  /** No plus sign, and no zero before another digit (`parse_number_strict`). */
  predicate Strict(t: bytes) {
    t == [] || !(
      t[0] == 43 || (t[0] == 48 && |t| > 1 && Digit(t[1])) || (t[0] == 45 && |t| > 2 && t[1] == 48 && Digit(t[2])))
  }

  lemma {:induction false} DigitsBefore(s: bytes, rest: bytes)
    requires rest == [] || !Digit(rest[0])
    ensures Digits(s + rest) == Digits(s)
    decreases |s|
  {
    if s == [] {
      assert s + rest == rest;
    } else {
      assert (s + rest)[1..] == s[1..] + rest;
      if Digit(s[0]) { DigitsBefore(s[1..], rest); }
    }
  }

  lemma DigitsAt(s: bytes, rest: bytes, i: nat)
    requires Delimited(rest) && i <= |s|
    ensures Digits((s + rest)[i..]) == Digits(s[i..])
  {
    assert (s + rest)[i..] == s[i..] + rest;
    DigitsBefore(s[i..], rest);
  }

  lemma MantissaBefore(s: bytes, rest: bytes, from: nat)
    requires Delimited(rest) && from <= |s|
    ensures Mantissa(s + rest, from) == Mantissa(s, from)
  {
    hide Digits;
    DigitsAt(s, rest, from);
    var at := from + Digits(s[from..]);
    if at < |s| {
      DigitsAt(s, rest, at + 1);
    }
  }

  lemma ExponentBefore(s: bytes, rest: bytes, from: nat)
    requires Delimited(rest) && from <= |s|
    ensures Exponent(s + rest, from) == Exponent(s, from)
  {
    hide Digits, Sign;
    if from < |s| {
      assert (s + rest)[from + 1..] == s[from + 1..] + rest;
      SignBefore(s[from + 1..], rest);
      DigitsAt(s, rest, from + 1 + Sign(s[from + 1..]));
    }
  }

  lemma SignBefore(s: bytes, rest: bytes)
    requires Delimited(rest)
    ensures Sign(s + rest) == Sign(s)
  {
    if s == [] { assert s + rest == rest; }
  }

  /** A number is scanned to the same end whatever may follow it. */
  lemma NumberBefore(t: bytes, rest: bytes)
    requires Delimited(rest)
    ensures NumberLength(t + rest) == NumberLength(t)
  {
    hide Mantissa, Exponent;
    SignBefore(t, rest);
    MantissaBefore(t, rest, Sign(t));
    if Mantissa(t, Sign(t)).Some? {
      ExponentBefore(t, rest, Mantissa(t, Sign(t)).value);
    }
  }
}
