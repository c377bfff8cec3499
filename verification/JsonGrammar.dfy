/**
 The texts that are JSON strings: a grammar of its own, and the proof that the scanner of `codec.rs` reads exactly
 its texts, each as the string it spells (section 7 of RFC 8259).
 */
module JsonGrammar {
  import opened Bytes
  import opened Seqs
  import opened JsonText
  import E = JsonEscapes
  import Utf8

  // ----- strings

  /** A backslash and one letter. */
  predicate ShortEscape(x: bytes, t: bytes) {
    || (x == E.Text("\\\"") && t == E.Text("\"")) || (x == E.Text("\\\\") && t == E.Text("\\")) || (x == E.Text("\\/") && t == E.Text("/"))
    || (x == E.Text("\\b") && t == [8]) || (x == E.Text("\\t") && t == [9]) || (x == E.Text("\\n") && t == [10])
    || (x == E.Text("\\f") && t == [12]) || (x == E.Text("\\r") && t == [13])
  }

  /** Four digits of a character that is neither NUL nor half of a pair. */
  ghost predicate LongEscape(x: bytes, t: bytes, digits: bytes, n: nat) {
    && E.Digits(digits, n) && x == E.Text("\\u") + digits && E.Encodes(t, n)
    && n != 0 && !(0xD800 <= n <= 0xDFFF)
  }

  /** The two halves of a pair. */
  ghost predicate PairEscape(x: bytes, t: bytes, high: bytes, h: nat, low: bytes, l: nat) {
    && E.Digits(high, h) && E.Digits(low, l) && 0xD800 <= h <= 0xDBFF && 0xDC00 <= l <= 0xDFFF
    && x == E.Text("\\u") + high + E.Text("\\u") + low && E.Encodes(t, 0x1_0000 + (h - 0xD800) * 0x400 + (l - 0xDC00))
  }

  ghost predicate EscapeSpells(x: bytes, t: bytes) {
    || ShortEscape(x, t)
    || (exists digits, n: nat :: LongEscape(x, t, digits, n))
    || (exists high, h: nat, low, l: nat :: PairEscape(x, t, high, h, low, l))
  }

  /** Characters that stand for themselves: well formed, and no quote, backslash or control character. */
  predicate PlainPiece(x: bytes) { x != [] && Utf8.Valid(x) && forall i :: 0 <= i < |x| ==> x[i] >= 0x20 && x[i] != 34 && x[i] != 92 }

  ghost predicate Piece(x: bytes, t: bytes) { (x == t && PlainPiece(x)) || EscapeSpells(x, t) }

  /** What stands between the quotes of a string: pieces, one after the other. */
  ghost predicate BodySpells(b: bytes, s: bytes)
    decreases |b|
  {
    if b == [] then s == [] else
    exists n: nat, t :: 0 < n <= |b| && Piece(b[..n], t) && t <= s && BodySpells(b[n..], s[|t|..])
  }

  // ----- one escape

  lemma EncodesOnly(t: bytes, code: nat)
    requires E.Encodes(t, code) && !(0xD800 <= code <= 0xDFFF) && code != 0
    ensures Utf8Of(code) == Some(t)
  {
    hide E.Places;
    if |t| == 1 {
      assert t == [t[0]];
    } else if |t| == 2 {
      assert t[1..] == [t[1]] && t == [t[0], t[1]];
      E.PlacesOne(t[0] as int - 0xC0, t[1]);
    } else if |t| == 3 {
      assert t[1..] == [t[1], t[2]] && t == [t[0], t[1], t[2]];
      E.PlacesTwo(t[0] as int - 0xE0, t[1], t[2]);
      TwoDigits(code, t[0] as int - 0xE0, t[1] as int - 0x80, t[2] as int - 0x80);
    } else if |t| == 4 {
      assert t[1..] == [t[1], t[2], t[3]];
      E.PlacesThree(t[0] as int - 0xF0, t[1], t[2], t[3]);
      ThreeDigits(code, t[0] as int - 0xF0, t[1] as int - 0x80, t[2] as int - 0x80, t[3] as int - 0x80);
      assert t == [t[0], t[1], t[2], t[3]];
    }
  }

  lemma TwoDigits(code: nat, a: int, b: int, c: int)
    requires code == a * 4096 + b * 64 + c && 0 <= b < 64 && 0 <= c < 64
    ensures a == code / 4096 && b == code / 64 % 64 && c == code % 64
  {
    assert code / 64 == a * 64 + b;
  }

  lemma ThreeDigits(code: nat, a: int, b: int, c: int, d: int)
    requires code == a * 262144 + b * 4096 + c * 64 + d && 0 <= b < 64 && 0 <= c < 64 && 0 <= d < 64
    ensures a == code / 262144 && b == code / 4096 % 64 && c == code / 64 % 64 && d == code % 64
  {
    assert code / 64 == a * 4096 + b * 64 + c;
    assert code / 4096 == a * 64 + b;
  }

  lemma HexDigitOf(b: byte)
    requires HexValue(b).Some?
    ensures E.Digit(b, HexValue(b).value)
  {
    E.DigitWritten(HexValue(b).value);
  }

  lemma Hex4Digits(s: bytes)
    requires Hex4(s).Some?
    ensures |s| >= 4 && E.Digits(s[..4], Hex4(s).value)
  {
    hide E.Digit, HexValue;
    HexDigitOf(s[0]);
    HexDigitOf(s[1]);
    HexDigitOf(s[2]);
    HexDigitOf(s[3]);
    var t := s[..4];
    assert E.Digit(t[0], HexValue(s[0]).value) && E.Digit(t[1], HexValue(s[1]).value)
           && E.Digit(t[2], HexValue(s[2]).value) && E.Digit(t[3], HexValue(s[3]).value);
  }

  /** An escape of the grammar is read as it spells. */
  lemma EscapeComplete(x: bytes, t: bytes, rest: bytes)
    requires EscapeSpells(x, t)
    ensures x != [] && x[0] == BACKSLASH && ReadEscape(x[1..] + rest) == Ok((t, rest)) && t != []
  {
    if ShortEscape(x, t) {
      ShortComplete(x, t, rest);
    } else if digits, n: nat :| LongEscape(x, t, digits, n) {
      LongComplete(x, t, digits, n, rest);
    } else {
      var high, h: nat, low, l: nat :| PairEscape(x, t, high, h, low, l);
      PairComplete(x, t, high, h, low, l, rest);
    }
  }

  lemma ShortComplete(x: bytes, t: bytes, rest: bytes)
    requires ShortEscape(x, t)
    ensures x != [] && x[0] == BACKSLASH && ReadEscape(x[1..] + rest) == Ok((t, rest)) && t != []
  {
    assert x[1..] == [x[1]];
    E.ReadTable(x[1], rest);
  }

  lemma LongComplete(x: bytes, t: bytes, digits: bytes, n: nat, rest: bytes)
    requires LongEscape(x, t, digits, n)
    ensures x != [] && x[0] == BACKSLASH && ReadEscape(x[1..] + rest) == Ok((t, rest)) && t != []
  {
    hide E.Digits, E.Encodes, ReadEscape, Utf8Of;
    LongTail(x, digits, rest);
    E.ReadUnicode(digits, n, rest);
    var u :| E.Encodes(u, n) && ReadEscape(E.Text("u") + digits + rest) == Ok((u, rest));
    EncodesOnly(t, n);
    EncodesOnly(u, n);
    EncodesSome(t, n);
  }

  lemma LongTail(x: bytes, digits: bytes, rest: bytes)
    requires x == E.Text("\\u") + digits
    ensures x != [] && x[0] == BACKSLASH && x[1..] + rest == E.Text("u") + digits + rest
  {
    assert E.Text("\\u") == [92, 117] && E.Text("u") == [117];
    assert x[1..] == [117] + digits;
  }

  lemma EncodesSome(t: bytes, n: nat)
    requires E.Encodes(t, n)
    ensures t != []
  {
    hide E.Places;
  }

  lemma PairComplete(x: bytes, t: bytes, high: bytes, h: nat, low: bytes, l: nat, rest: bytes)
    requires PairEscape(x, t, high, h, low, l)
    ensures x != [] && x[0] == BACKSLASH && ReadEscape(x[1..] + rest) == Ok((t, rest)) && t != []
  {
    hide E.Digits, E.Encodes, ReadEscape, Utf8Of, E.Text;
    var code := 0x1_0000 + (h - 0xD800) * 0x400 + (l - 0xDC00);
    PairTail(x, high, low, rest);
    E.ReadPair(high, h, low, l, rest);
    var u :| E.Encodes(u, code) && ReadEscape(E.Text("u") + high + E.Text("\\u") + low + rest) == Ok((u, rest));
    EncodesOnly(t, code);
    EncodesOnly(u, code);
    EncodesSome(t, code);
  }

  lemma PairTail(x: bytes, high: bytes, low: bytes, rest: bytes)
    requires x == E.Text("\\u") + high + E.Text("\\u") + low
    ensures x != [] && x[0] == BACKSLASH && x[1..] + rest == E.Text("u") + high + E.Text("\\u") + low + rest
  {
    assert E.Text("\\u") == [92, 117] && E.Text("u") == [117];
    assert x[1..] == [117] + high + [92, 117] + low;
  }

  /** Whatever is read as an escape spells what it is read as. */
  lemma EscapeSound(s: bytes) returns (x: bytes)
    requires ReadEscape(s).Ok?
    ensures s == x + ReadEscape(s).value.1 && EscapeSpells([BACKSLASH] + x, ReadEscape(s).value.0)
  {
    hide EscapeSpells;
    if s[0] != LETTER_U {
      x := s[..1];
      ShortSound([BACKSLASH] + x, ReadEscape(s).value.0, s[0]);
      ShortSpells([BACKSLASH] + x, ReadEscape(s).value.0);
    } else {
      var high := Hex4(s[1..]);
      if !(0xD800 <= high.value <= 0xDBFF) {
        x := LongSound(s);
      } else {
        x := PairSound(s);
      }
    }
  }

  lemma LongSound(s: bytes) returns (x: bytes)
    requires ReadEscape(s).Ok? && s[0] == LETTER_U && Hex4(s[1..]).Some? && !(0xD800 <= Hex4(s[1..]).value <= 0xDBFF)
    ensures s == x + ReadEscape(s).value.1 && EscapeSpells([BACKSLASH] + x, ReadEscape(s).value.0)
  {
    hide Hex4, Utf8Of, EscapeSpells;
    Hex4Digits(s[1..]);
    var (digits, n) := (s[1..][..4], Hex4(s[1..]).value);
    E.DigitsFour(digits, n);
    assert E.Text("\\u") == [92, 117];
    x := s[..5];
    E.Utf8Encodes(n);
    Utf8OfNot(n);
    assert [BACKSLASH] + x == [92, 117] + digits;
    LongSpells([BACKSLASH] + x, ReadEscape(s).value.0, digits, n);
  }

  lemma PairSound(s: bytes) returns (x: bytes)
    requires ReadEscape(s).Ok? && s[0] == LETTER_U && Hex4(s[1..]).Some? && 0xD800 <= Hex4(s[1..]).value <= 0xDBFF
    ensures s == x + ReadEscape(s).value.1 && EscapeSpells([BACKSLASH] + x, ReadEscape(s).value.0)
  {
    hide Hex4, Utf8Of, EscapeSpells, E.Digits, E.Encodes;
    Hex4Digits(s[1..]);
    Hex4Digits(s[7..]);
    var (high, h) := (s[1..][..4], Hex4(s[1..]).value);
    var (low, l) := (s[7..][..4], Hex4(s[7..]).value);
    E.DigitsFour(high, h);
    E.DigitsFour(low, l);
    x := s[..11];
    E.Utf8Encodes(0x1_0000 + (h - 0xD800) * 0x400 + (l - 0xDC00));
    assert E.Text("\\u") == [92, 117];
    assert [BACKSLASH] + x == [92, 117] + high + [92, 117] + low;
    PairSpells([BACKSLASH] + x, ReadEscape(s).value.0, high, h, low, l);
  }

  lemma Utf8OfNot(n: nat)
    requires Utf8Of(n).Some?
    ensures n != 0 && !(0xD800 <= n <= 0xDFFF)
  {}

  lemma ShortSound(x: bytes, t: bytes, b: byte)
    requires x == [92, b] && b != 117 && ReadEscape([b]).Ok? && t == ReadEscape([b]).value.0
    ensures ShortEscape(x, t)
  {}

  lemma ShortSpells(x: bytes, t: bytes)
    requires ShortEscape(x, t)
    ensures EscapeSpells(x, t)
  {}

  lemma LongSpells(x: bytes, t: bytes, digits: bytes, n: nat)
    requires LongEscape(x, t, digits, n)
    ensures EscapeSpells(x, t)
  {
    hide ShortEscape, E.Text;
  }

  lemma PairSpells(x: bytes, t: bytes, high: bytes, h: nat, low: bytes, l: nat)
    requires PairEscape(x, t, high, h, low, l)
    ensures EscapeSpells(x, t)
  {
    hide ShortEscape, E.Text;
  }

  // ----- whole strings

  lemma PieceThen(x: bytes, t: bytes, b: bytes, s: bytes)
    requires x != [] && Piece(x, t) && BodySpells(b, s)
    ensures BodySpells(x + b, t + s)
  {
    hide Piece;
    var (whole, text) := (x + b, t + s);
    assert whole[..|x|] == x && whole[|x|..] == b && text[|t|..] == s && t <= text;
  }

  /** Whatever is read as a string, from its opening quote on, spells what it is read as. */
  lemma {:induction false} StringSound(s: bytes) returns (b: bytes)
    requires ReadString(s).Ok?
    ensures s == b + ([34] + ReadString(s).value.1) && BodySpells(b, ReadString(s).value.0)
    decreases |s|
  {
    hide ReadEscape, Utf8.Valid, BodySpells, EscapeSpells, Piece;
    var (text, rest) := ReadString(s).value;
    if s[0] == QUOTE {
      b := [];
      NothingSpells();
      assert s == [] + ([34] + rest);
    } else if s[0] == BACKSLASH {
      var (t, after) := ReadEscape(s[1..]).value;
      var x := EscapeSound(s[1..]);
      var more := StringSound(after);
      b := [BACKSLASH] + x + more;
      EscapePiece([BACKSLASH] + x, t);
      PieceThen([BACKSLASH] + x, t, more, ReadString(after).value.0);
      Joined(s, x, more, [34] + rest);
    } else {
      var n := RunLength(s);
      RunIsRaw(s);
      var more := StringSound(s[n..]);
      b := s[..n] + more;
      PlainRun(s[..n]);
      PieceThen(s[..n], s[..n], more, ReadString(s[n..]).value.0);
      Rejoin(s, n);
      Assoc(s[..n], more, [34] + rest);
    }
  }

  lemma Joined(s: bytes, x: bytes, more: bytes, tail: bytes)
    requires s != [] && s[0] == BACKSLASH && s[1..] == x + (more + tail)
    ensures s == [BACKSLASH] + x + more + tail
  {
    assert s == [BACKSLASH] + s[1..];
    assert [BACKSLASH] + x + more + tail == [BACKSLASH] + (x + (more + tail));
  }

  lemma PlainRun(x: bytes)
    requires x != [] && Utf8.Valid(x) && forall i :: 0 <= i < |x| ==> Raw(x[i])
    ensures Piece(x, x)
  {
    hide Utf8.Valid, EscapeSpells;
  }

  lemma EscapePiece(x: bytes, t: bytes)
    requires EscapeSpells(x, t)
    ensures Piece(x, t)
  {
    hide EscapeSpells, Utf8.Valid;
  }

  lemma NothingSpells()
    ensures BodySpells([], [])
  {}

  lemma FirstPiece(b: bytes, s: bytes) returns (n: nat, t: bytes)
    requires BodySpells(b, s) && b != []
    ensures 0 < n <= |b| && Piece(b[..n], t) && |t| <= |s| && s[..|t|] == t && BodySpells(b[n..], s[|t|..])
  {
    hide Piece;
    n, t :| 0 < n <= |b| && Piece(b[..n], t) && t <= s && BodySpells(b[n..], s[|t|..]);
  }

  /** The first run of plain characters stands for itself, however it is cut into pieces. */
  lemma {:induction false} RunSpells(b: bytes, s: bytes)
    requires BodySpells(b, s)
    ensures RunStands(b, s, RunLength(b))
    decreases |b|
  {
    hide Utf8.Valid, EscapeSpells, Piece, BodySpells, RunStands, PlainPiece;
    if b == [] || !Raw(b[0]) {
      NoRun(b, s);
    } else {
      var n, t := FirstPiece(b, s);
      PlainOnly(b[..n], t);
      RunSpells(b[n..], s[n..]);
      assert forall i :: 0 <= i < n ==> Raw(b[i]) by { AllRaw(b, n); }
      RunSplits(b, n);
      RunJoins(b, s, n, RunLength(b[n..]));
    }
  }

  /** The first `m` bytes are well formed, stand for themselves, and what follows spells the rest. */
  ghost predicate RunStands(b: bytes, s: bytes, m: nat) {
    m <= |b| && m <= |s| && Utf8.Valid(b[..m]) && b[..m] == s[..m] && BodySpells(b[m..], s[m..])
  }

  lemma NoRun(b: bytes, s: bytes)
    requires BodySpells(b, s)
    ensures RunStands(b, s, 0)
  {
    hide Utf8.Valid, BodySpells;
    assert b[..0] == [] && s[..0] == [] && b[0..] == b && s[0..] == s;
    ValidNothing();
  }

  lemma AllRaw(b: bytes, n: nat)
    requires n <= |b| && PlainPiece(b[..n])
    ensures forall i :: 0 <= i < n ==> Raw(b[i])
  {
    hide Utf8.Valid;
    forall i | 0 <= i < n ensures Raw(b[i]) {
      assert b[..n][i] == b[i];
    }
  }

  lemma RunJoins(b: bytes, s: bytes, n: nat, k: nat)
    requires n <= |b| && n <= |s| && b[..n] == s[..n] && PlainPiece(b[..n]) && RunStands(b[n..], s[n..], k)
    ensures RunStands(b, s, n + k)
  {
    hide Utf8.Valid, BodySpells;
    Utf8.ValidConcat(b[..n], b[n..][..k]);
    assert b[..n + k] == b[..n] + b[n..][..k];
    assert s[..n + k] == s[..n] + s[n..][..k];
    assert b[n..][k..] == b[n + k..] && s[n..][k..] == s[n + k..];
  }

  lemma ValidNothing()
    ensures Utf8.Valid([])
  {}

  /** A piece that does not start with a backslash is plain. */
  lemma PlainOnly(x: bytes, t: bytes)
    requires x != [] && Raw(x[0]) && Piece(x, t)
    ensures x == t && PlainPiece(x)
  {
    hide EscapeSpells, Utf8.Valid;
    if EscapeSpells(x, t) {
      EscapeComplete(x, t, []);
    }
  }

  lemma {:induction false} RunSplits(b: bytes, n: nat)
    requires n <= |b| && forall i :: 0 <= i < n ==> Raw(b[i])
    ensures RunLength(b) == n + RunLength(b[n..])
    decreases n
  {
    if n > 0 {
      RunSplits(b[1..], n - 1);
      assert b[1..][n - 1..] == b[n..];
    } else {
      assert b[0..] == b;
    }
  }

  /** Every spelling of a string is read as what it spells. */
  lemma {:induction false} StringComplete(b: bytes, s: bytes, rest: bytes)
    requires BodySpells(b, s)
    ensures ReadString(b + ([34] + rest)) == Ok((s, rest))
    decreases |b|
  {
    hide ReadEscape, ReadString, Utf8.Valid, EscapeSpells, BodySpells, Piece, RunStands;
    var tail: bytes := [34] + rest;
    if b == [] {
      EmptyBody(b, s, rest);
    } else if Raw(b[0]) {
      var m := RunLength(b);
      RunSpells(b, s);
      RunParts(b, s, m);
      StringComplete(b[m..], s[m..], rest);
      RunReads(b, m, tail);
    } else {
      var n, t := FirstPiece(b, s);
      EscapeOnly(b[..n], t);
      StringComplete(b[n..], s[|t|..], rest);
      EscapeReads(b, n, t, tail);
      Rejoin(s, |t|);
    }
  }

  lemma EmptyBody(b: bytes, s: bytes, rest: bytes)
    requires b == [] && BodySpells(b, s)
    ensures ReadString(b + ([34] + rest)) == Ok((s, rest))
  {
    var tail: bytes := [34] + rest;
    assert b + tail == tail && tail[1..] == rest;
  }

  lemma RunParts(b: bytes, s: bytes, m: nat)
    requires RunStands(b, s, m)
    ensures m <= |b| && m <= |s| && Utf8.Valid(b[..m]) && s == b[..m] + s[m..] && BodySpells(b[m..], s[m..])
  {
    hide Utf8.Valid, BodySpells;
    Rejoin(s, m);
  }

  lemma EscapeReads(b: bytes, n: nat, t: bytes, tail: bytes)
    requires 0 < n <= |b| && EscapeSpells(b[..n], t)
    ensures ReadString(b + tail) == Then(t, ReadString(b[n..] + tail))
  {
    hide ReadEscape, Utf8.Valid, EscapeSpells;
    EscapeComplete(b[..n], t, b[n..] + tail);
    var s := b + tail;
    assert s[0] == b[0] == b[..n][0];
    assert s[1..] == b[..n][1..] + (b[n..] + tail);
  }

  lemma EscapeOnly(x: bytes, t: bytes)
    requires x != [] && !Raw(x[0]) && Piece(x, t)
    ensures EscapeSpells(x, t)
  {
    hide EscapeSpells, Utf8.Valid;
  }

  lemma RunReads(b: bytes, m: nat, tail: bytes)
    requires 0 < m <= |b| && m == RunLength(b) && Utf8.Valid(b[..m]) && tail != [] && tail[0] == 34
    ensures ReadString(b + tail) == Then(b[..m], ReadString(b[m..] + tail))
  {
    hide Utf8.Valid, ReadString;
    var s, after := b + tail, b[m..] + tail;
    RunIsRaw(b);
    Rejoin(b, m);
    Assoc(b[..m], b[m..], tail);
    assert after[0] == if m < |b| then b[m] else tail[0];
    RunEnds(b[..m], after);
    Peel(b[..m], after);
    OneRun(s, m);
  }

  lemma OneRun(s: bytes, m: nat)
    requires 0 < m <= |s| && m == RunLength(s) && Utf8.Valid(s[..m])
    ensures ReadString(s) == Then(s[..m], ReadString(s[m..]))
  {
    hide Utf8.Valid;
  }
}
