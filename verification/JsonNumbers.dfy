/**
 The texts that `parse_number` of `codec.rs` takes for numbers and the white space it steps over, and the numbers that
 `json_value` of `data.rs` refuses or keeps as text.
 */
module JsonNumbers {
  import opened Bytes
  import opened Seqs
  import opened JsonText
  import opened Json
  import D = JsonData
  import Scan

  // ----- numbers

  predicate AllDigits(s: bytes) { forall i :: 0 <= i < |s| ==> '0' as int <= s[i] <= '9' as int }

  predicate SignText(s: bytes) { s == [] || s == ['+' as int] || s == ['-' as int] }

  /** Nothing, or a point and digits. */
  predicate FractionText(s: bytes) { s == [] || (s[0] == '.' as int && AllDigits(s[1..])) }

  /** Nothing, or an `e`, a sign and at least one digit. */
  ghost predicate ExponentText(s: bytes) {
    s == [] || ((s[0] == 'e' as int || s[0] == 'E' as int)
                && exists sign, digits :: SignText(sign) && AllDigits(digits) && digits != [] && s[1..] == sign + digits)
  }

  /** What the scanner takes for a number: a plus sign, leading zeros and a missing whole part among it. */
  ghost predicate NumberParts(t: bytes, sign: bytes, whole: bytes, fraction: bytes, exponent: bytes) {
    && t == sign + (whole + (fraction + exponent))
    && SignText(sign) && AllDigits(whole) && FractionText(fraction) && ExponentText(exponent) && (whole != [] || |fraction| > 1)
  }

  ghost predicate NumberForm(t: bytes) { exists sign, whole, fraction, exponent :: NumberParts(t, sign, whole, fraction, exponent) }

  predicate White(s: bytes) { forall i :: 0 <= i < |s| ==> WhiteByte(s[i]) }

  /** Space, tab, line feed, form feed, carriage return. */
  predicate WhiteByte(b: byte) { b == ' ' as int || b == 9 || b == 10 || b == 12 || b == 13 }

  /** What can follow a number. */
  predicate After(rest: bytes) {
    rest == [] || WhiteByte(rest[0]) || rest[0] == ',' as int || rest[0] == ']' as int || rest[0] == '}' as int
  }

  lemma {:induction false} DigitsAre(d: bytes, rest: bytes)
    requires AllDigits(d) && (rest == [] || !Digit(rest[0]))
    ensures Digits(d + rest) == |d|
    decreases |d|
  {
    if d == [] {
      assert d + rest == rest;
    } else {
      assert (d + rest)[1..] == d[1..] + rest && (d + rest)[0] == d[0];
      DigitsAre(d[1..], rest);
    }
  }

  lemma {:induction false} DigitsRun(s: bytes)
    ensures AllDigits(s[..Digits(s)])
  {
    if s != [] && Digit(s[0]) {
      DigitsRun(s[1..]);
      assert s[..Digits(s)] == [s[0]] + s[1..][..Digits(s[1..])];
    }
  }

  /** What does not go on with a number. */
  predicate Ends(rest: bytes) { rest == [] || (!Digit(rest[0]) && rest[0] != 46 && rest[0] != 101 && rest[0] != 69) }

  lemma SignIs(sign: bytes, rest: bytes)
    requires SignText(sign) && rest != [] && rest[0] != 43 && rest[0] != 45
    ensures Sign(sign + rest) == |sign| && (sign + rest)[|sign|..] == rest
  {
    Peel(sign, rest);
    assert sign == [] ==> sign + rest == rest;
  }

  lemma WholeIs(s: bytes, from: nat, whole: bytes, tail: bytes)
    requires from <= |s| && s[from..] == whole + tail && AllDigits(whole) && (tail == [] || !Digit(tail[0]))
    ensures Digits(s[from..]) == |whole| && from + |whole| <= |s| && s[from + |whole|..] == tail
  {
    DigitsAre(whole, tail);
    assert s[from + |whole|..] == s[from..][|whole|..];
    Peel(whole, tail);
  }

  lemma TailStarts(fraction: bytes, more: bytes)
    requires FractionText(fraction) && (more == [] || (!Digit(more[0]) && more[0] != 46))
    ensures var tail := fraction + more;
            && (tail == [] || !Digit(tail[0])) && (fraction != [] ==> tail != [] && tail[0] == 46 && tail[1..] == fraction[1..] + more)
            && (fraction == [] ==> tail == more)
  {}

  lemma MantissaIs(s: bytes, from: nat, whole: bytes, fraction: bytes, more: bytes)
    requires AllDigits(whole) && FractionText(fraction) && (whole != [] || |fraction| > 1)
    requires more == [] || (!Digit(more[0]) && more[0] != 46)
    requires from <= |s| && s[from..] == whole + (fraction + more)
    ensures Mantissa(s, from) == Some(from + |whole| + |fraction|)
  {
    hide Digits;
    var tail := fraction + more;
    TailStarts(fraction, more);
    WholeIs(s, from, whole, tail);
    var at := from + |whole|;
    assert at < |s| ==> s[at] == s[at..][0];
    if fraction != [] {
      assert s[at + 1..] == s[at..][1..];
      DigitsAre(fraction[1..], more);
    }
  }

  lemma ExponentIs(s: bytes, from: nat, exponent: bytes, rest: bytes)
    requires from <= |s| && s[from..] == exponent + rest && ExponentText(exponent) && Ends(rest)
    ensures Exponent(s, from) == from + |exponent|
  {
    hide Digits, Sign, AllDigits, SignText;
    assert from < |s| ==> s[from] == s[from..][0];
    if exponent == [] {
      assert s[from..] == rest;
    } else {
      var sign, digits :| SignText(sign) && AllDigits(digits) && digits != [] && exponent[1..] == sign + digits;
      var tail := s[from + 1..];
      assert tail == s[from..][1..] == exponent[1..] + rest;
      Assoc(sign, digits, rest);
      ExponentDigits(tail, sign, digits, rest);
      assert s[from + 1 + |sign|..] == tail[|sign|..];
    }
  }

  lemma ExponentDigits(tail: bytes, sign: bytes, digits: bytes, rest: bytes)
    requires tail == sign + (digits + rest) && SignText(sign) && AllDigits(digits) && digits != [] && Ends(rest)
    ensures |sign| <= |tail| && Sign(tail) == |sign| && Digits(tail[|sign|..]) == |digits|
  {
    assert (digits + rest)[0] == digits[0];
    SignIs(sign, digits + rest);
    DigitsAre(digits, rest);
  }

  lemma AfterEnds(rest: bytes)
    requires After(rest)
    ensures Ends(rest)
  {}

  lemma PartsComplete(t: bytes, sign: bytes, whole: bytes, fraction: bytes, exponent: bytes, rest: bytes)
    requires NumberParts(t, sign, whole, fraction, exponent) && Ends(rest)
    ensures NumberLength(t + rest) == Some(|t|) && t != []
  {
    hide Mantissa, Exponent;
    hide Sign, Mantissa, Exponent, ExponentText, AllDigits, SignText, FractionText;
    var more := exponent + rest;
    MoreStarts(exponent, rest);
    BodyStarts(whole, fraction, more);
    Layout(sign, whole, fraction, exponent, rest);
    SignIs(sign, whole + (fraction + more));
    MantissaIs(t + rest, |sign|, whole, fraction, more);
    ExponentIs(t + rest, |sign| + |whole| + |fraction|, exponent, rest);
  }

  lemma MoreStarts(exponent: bytes, rest: bytes)
    requires ExponentText(exponent) && Ends(rest)
    ensures var more := exponent + rest; more == [] || (!Digit(more[0]) && more[0] != 46)
  {
    assert exponent == [] ==> exponent + rest == rest;
  }

  lemma Layout(sign: bytes, whole: bytes, fraction: bytes, exponent: bytes, rest: bytes)
    ensures var (t, more) := (sign + (whole + (fraction + exponent)), exponent + rest);
            && t + rest == sign + (whole + (fraction + more))
            && (t + rest)[|sign| + |whole| + |fraction|..] == more
  {}

  lemma BodyStarts(whole: bytes, fraction: bytes, more: bytes)
    requires AllDigits(whole) && FractionText(fraction) && (whole != [] || |fraction| > 1)
    ensures var body := whole + (fraction + more); body != [] && body[0] != 43 && body[0] != 45
  {
    assert whole == [] ==> whole + (fraction + more) == fraction + more;
  }

  /** A number is scanned to its end. */
  lemma NumberComplete(t: bytes, rest: bytes)
    requires NumberForm(t) && After(rest)
    ensures NumberLength(t + rest) == Some(|t|) && t != []
  {
    hide NumberParts, NumberLength;
    var sign, whole, fraction, exponent :| NumberParts(t, sign, whole, fraction, exponent);
    AfterEnds(rest);
    PartsComplete(t, sign, whole, fraction, exponent, rest);
  }

  /** What is scanned as a number is one. */
  lemma NumberSound(s: bytes)
    requires NumberLength(s).Some?
    ensures NumberLength(s).value <= |s| && NumberForm(s[..NumberLength(s).value])
  {
    hide Sign, Mantissa, Exponent, ExponentText, FractionText, AllDigits, SignText;
    var at := Sign(s);
    SignSound(s);
    var m := Mantissa(s, at).value;
    var middle := MantissaSound(s, at);
    ExponentSound(s, m);
    var n := Exponent(s, m);
    assert s[..n] == s[..at] + (s[at..middle] + (s[middle..m] + s[m..n]));
    assert NumberParts(s[..n], s[..at], s[at..middle], s[middle..m], s[m..n]);
  }

  lemma SignSound(s: bytes)
    ensures SignText(s[..Sign(s)])
  {}

  lemma MantissaSound(s: bytes, from: nat) returns (middle: nat)
    requires from <= |s| && Mantissa(s, from).Some?
    ensures from <= middle <= Mantissa(s, from).value <= |s|
    ensures AllDigits(s[from..middle]) && FractionText(s[middle..Mantissa(s, from).value])
    ensures from < middle || middle + 1 < Mantissa(s, from).value
  {
    hide Digits, AllDigits;
    var m := Mantissa(s, from).value;
    middle := from + Digits(s[from..]);
    DigitsRun(s[from..]);
    assert s[from..][..middle - from] == s[from..middle];
    if m > middle {
      DigitsRun(s[middle + 1..]);
      assert s[middle..m][1..] == s[middle + 1..m];
      assert s[middle + 1..][..m - (middle + 1)] == s[middle + 1..m];
    }
  }

  lemma ExponentSound(s: bytes, from: nat)
    requires from <= |s|
    ensures ExponentText(s[from..Exponent(s, from)])
  {
    hide Digits, Sign, SignText, AllDigits;
    var n := Exponent(s, from);
    if n > from {
      var sign := Sign(s[from + 1..]);
      var at := from + 1 + sign;
      DigitsRun(s[at..]);
      var exponent := s[from..n];
      assert s[at..][..n - at] == s[at..n];
      assert exponent[1..] == s[from + 1..at] + s[at..n];
      SignSound(s[from + 1..]);
      assert s[from + 1..][..sign] == s[from + 1..at];
    }
  }

  // ----- white space

  lemma {:induction false} SkipWhite(w: bytes, s: bytes)
    requires White(w)
    ensures Skip(w + s) == Skip(s)
    decreases |w|
  {
    if w == [] {
      assert w + s == s;
    } else {
      assert (w + s)[0] == w[0] && (w + s)[1..] == w[1..] + s;
      SkipWhite(w[1..], s);
    }
  }

  lemma {:induction false} SkipSplit(s: bytes) returns (w: bytes)
    ensures White(w) && s == w + Skip(s) && (Skip(s) == [] || !WhiteByte(Skip(s)[0]))
  {
    if s != [] && Space(s[0]) {
      var more := SkipSplit(s[1..]);
      w := [s[0]] + more;
      assert s == [s[0]] + s[1..];
      Assoc([s[0]], more, Skip(s));
    } else {
      w := [];
      assert s == [] + s;
    }
  }

  lemma WhiteBoth(a: bytes, b: bytes)
    requires White(a) && White(b)
    ensures White(a + b)
  {}

  // ----- numbers of `json_value`

  /** What `json_value` refuses of them: a plus sign in front, or a zero in front of more digits. */
  lemma StrictMeans(t: bytes, sign: bytes, whole: bytes, fraction: bytes, exponent: bytes)
    requires NumberParts(t, sign, whole, fraction, exponent)
    ensures Strict(t) <==> sign != ['+' as int] && !(|whole| > 1 && whole[0] == '0' as int)
  {
    hide ExponentText;
    var more := fraction + exponent;
    assert t == sign + (whole + more);
    assert fraction + exponent == if fraction == [] then exponent else more;
    NoDigit(fraction, exponent);
    if sign != [] {
      assert t[0] == sign[0] && t[1..] == whole + more;
      assert |t| > 2 ==> t[2] == t[1..][1];
    } else {
      assert t == whole + more;
    }
  }

  lemma NoDigit(fraction: bytes, exponent: bytes)
    requires FractionText(fraction) && ExponentText(exponent)
    ensures fraction + exponent != [] ==> !Digit((fraction + exponent)[0])
  {
    assert fraction == [] ==> fraction + exponent == exponent;
  }

  /** The number that decimal digits write. */
  function Decimal(d: bytes): int { if d == [] then 0 else Decimal(d[..|d| - 1]) * 10 + (d[|d| - 1] - '0' as int) }

  /** Digits are kept as text exactly when their number is above 2^53; the sign does not count. */
  lemma LargeMeans(t: bytes, sign: bytes, digits: bytes)
    requires t == sign + digits && (sign == [] || sign == ['-' as int]) && AllDigits(digits) && digits != []
    ensures D.LargeInteger(t) <==> Decimal(digits) > 9_007_199_254_740_992
  {
    hide Decimal, Scan.Less, Tens;
    NoPoint(t, sign, digits);
    var zeros := D.Zeros(digits);
    var rest := digits[zeros..];
    ZerosAre(digits);
    Significant(rest);
  }

  lemma NoPoint(t: bytes, sign: bytes, digits: bytes)
    requires t == sign + digits && (sign == [] || sign == ['-' as int]) && AllDigits(digits) && digits != []
    ensures 46 !in t && 101 !in t && 69 !in t && (if t != [] && t[0] == 45 then t[1..] else t) == digits
  {}

  lemma Significant(d: bytes)
    requires AllDigits(d) && (d != [] ==> d[0] != 48)
    ensures (|d| > 16 || (|d| == 16 && Scan.Less(D.EXACT, d))) <==> Decimal(d) > 9_007_199_254_740_992
  {
    hide Decimal, Scan.Less, Tens;
    if |d| > 16 {
      Longer(d);
    } else if |d| == 16 {
      ExactDecimal();
      if Scan.Less(D.EXACT, d) { LessDecimal(D.EXACT, d); }
      if Scan.Less(d, D.EXACT) { LessDecimal(d, D.EXACT); }
      Scan.LessTotal(D.EXACT, d);
    } else {
      Shorter(d);
      Power(|d|, 15);
      TensAre();
    }
  }

  /** A fraction or an exponent is never kept as text. */
  lemma OnlyIntegersLarge(t: bytes, sign: bytes, whole: bytes, fraction: bytes, exponent: bytes)
    requires NumberParts(t, sign, whole, fraction, exponent) && (fraction != [] || exponent != [])
    ensures !D.LargeInteger(t)
  {
    if fraction != [] {
      assert t[|sign| + |whole|] == 46;
    } else {
      assert t[|sign| + |whole|] == exponent[0];
    }
  }

  function Tens(n: nat): nat { if n == 0 then 1 else 10 * Tens(n - 1) }

  lemma {:induction false} Power(n: nat, m: nat)
    requires n <= m
    ensures Tens(n) <= Tens(m)
    decreases m
  {
    if n < m { Power(n, m - 1); }
  }

  lemma {:induction false} Shorter(d: bytes)
    requires AllDigits(d)
    ensures 0 <= Decimal(d) < Tens(|d|)
    decreases |d|
  {
    if d != [] { Shorter(d[..|d| - 1]); }
  }

  /** The first digit counts for as many tens as digits follow it. */
  lemma {:induction false} FirstDigit(d: bytes)
    requires AllDigits(d) && d != []
    ensures Decimal(d) == (d[0] - '0' as int) * Tens(|d| - 1) + Decimal(d[1..])
    decreases |d|
  {
    if |d| == 1 {
      assert d[..0] == [] && d[1..] == [];
    } else {
      var short := d[..|d| - 1];
      FirstDigit(short);
      assert short[1..] == d[1..][..|d| - 2] && d[1..][|d| - 2] == d[|d| - 1];
      Ten(d[0] - '0' as int, Tens(|d| - 2));
    }
  }

  lemma Ten(a: int, t: int)
    ensures a * t * 10 == a * (10 * t)
  {}

  lemma {:induction false} ZerosAre(d: bytes)
    requires AllDigits(d)
    ensures var n := D.Zeros(d);
            Decimal(d) == Decimal(d[n..]) && AllDigits(d[n..]) && (n < |d| ==> d[n] != 48)
    decreases |d|
  {
    if d != [] && d[0] == 48 {
      FirstDigit(d);
      ZerosAre(d[1..]);
      assert d[1..][D.Zeros(d[1..])..] == d[D.Zeros(d)..];
    } else {
      assert d[0..] == d;
    }
  }

  lemma Longer(d: bytes)
    requires AllDigits(d) && |d| > 16 && d[0] != 48
    ensures Decimal(d) > 9_007_199_254_740_992
  {
    hide Decimal;
    FirstDigit(d);
    Shorter(d[1..]);
    Power(16, |d| - 1);
    TensAre();
    AtLeast(d[0] - '0' as int, Tens(|d| - 1));
  }

  lemma TensAre()
    ensures Tens(15) == 1_000_000_000_000_000 && Tens(16) == 10_000_000_000_000_000
  {
    assert Tens(2) == 100;
    assert Tens(4) == 10_000;
    assert Tens(6) == 1_000_000;
    assert Tens(8) == 100_000_000;
    assert Tens(10) == 10_000_000_000;
    assert Tens(12) == 1_000_000_000_000;
    assert Tens(14) == 100_000_000_000_000;
  }

  lemma AtLeast(a: int, t: int)
    requires a >= 1 && t >= 0
    ensures a * t >= t
  {}

  /** Digits of the same number of places compare as the numbers they write. */
  lemma {:induction false} LessDecimal(a: bytes, b: bytes)
    requires AllDigits(a) && AllDigits(b) && |a| == |b| && Scan.Less(a, b)
    ensures Decimal(a) < Decimal(b)
    decreases |a|
  {
    hide Decimal;
    FirstDigit(a);
    FirstDigit(b);
    if a[0] == b[0] {
      LessDecimal(a[1..], b[1..]);
    } else {
      Shorter(a[1..]);
      Shorter(b[1..]);
      Step(a[0] - '0' as int, b[0] - '0' as int, Tens(|a| - 1));
    }
  }

  lemma Step(a: int, b: int, t: int)
    requires a < b && t >= 0
    ensures a * t + t <= b * t
  {
    assert b * t == (b - 1) * t + t && a * t <= (b - 1) * t;
  }

  lemma ExactHalf()
    ensures Decimal(D.EXACT[..8]) == 90_071_992
  {
    hide Decimal;
    Nothing(D.EXACT);
    Places(D.EXACT, 1, 9);
    Places(D.EXACT, 2, 90);
    Places(D.EXACT, 3, 900);
    Places(D.EXACT, 4, 9007);
    Places(D.EXACT, 5, 90071);
    Places(D.EXACT, 6, 900719);
    Places(D.EXACT, 7, 9007199);
    Places(D.EXACT, 8, 90071992);
  }

  lemma ExactDecimal()
    ensures Decimal(D.EXACT) == 9_007_199_254_740_992
  {
    hide Decimal;
    ExactHalf();
    Places(D.EXACT, 9, 900719925);
    Places(D.EXACT, 10, 9007199254);
    Places(D.EXACT, 11, 90071992547);
    Places(D.EXACT, 12, 900719925474);
    Places(D.EXACT, 13, 9007199254740);
    Places(D.EXACT, 14, 90071992547409);
    Places(D.EXACT, 15, 900719925474099);
    Places(D.EXACT, 16, 9007199254740992);
    assert D.EXACT[..16] == D.EXACT;
  }

  lemma Nothing(d: bytes)
    ensures Decimal(d[..0]) == 0
  {}

  /** One place more. */
  lemma Places(d: bytes, n: nat, value: int)
    requires 1 <= n <= |d| && Decimal(d[..n - 1]) * 10 + (d[n - 1] as int - 48) == value
    ensures Decimal(d[..n]) == value
  {
    assert d[..n][..n - 1] == d[..n - 1];
  }

  // ----- keys of `json_value`

  /** A key that comes again keeps its place and takes the later value (`SetLast`: another goes last). */
  lemma {:induction false} SetAgain(entries: seq<Entry>, e: Entry, i: nat)
    requires DistinctKeys(entries) && i < |entries| && entries[i].key == e.key
    ensures D.SetEntry(entries, e) == entries[i := e]
    decreases i
  {
    if i == 0 {
      assert entries[0 := e] == [e] + entries[1..];
    } else {
      SetAgain(entries[1..], e, i - 1);
      assert entries[i := e] == [entries[0]] + entries[1..][i - 1 := e];
    }
  }
}
