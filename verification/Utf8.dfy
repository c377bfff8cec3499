/** Well-formed UTF-8, as section 4 of RFC 3629 defines it. */
module Utf8 {
  import opened Bytes

  predicate Continuation(b: byte) { 0x80 <= b < 0xC0 }

  /** The length of the well-formed character that `s` starts with, or 0 if there is none. */
  function CharLength(s: bytes): (n: nat)
    ensures n <= 4 && n <= |s|
  {
    if |s| == 0 then 0
    else if s[0] < 0x80 then 1
    else if |s| < 2 || !Continuation(s[1]) then 0
    else if 0xC2 <= s[0] < 0xE0 then 2
    else if |s| < 3 || !Continuation(s[2]) then 0
    else if 0xE0 <= s[0] < 0xF0 then
      if (s[0] == 0xE0 && s[1] < 0xA0) || (s[0] == 0xED && s[1] >= 0xA0) then 0 else 3
    else if |s| < 4 || !Continuation(s[3]) then 0
    else if 0xF0 <= s[0] < 0xF5 then
      if (s[0] == 0xF0 && s[1] < 0x90) || (s[0] == 0xF4 && s[1] >= 0x90) then 0 else 4
    else 0
  }

  predicate Valid(s: bytes) {
    s == [] || (CharLength(s) > 0 && Valid(s[CharLength(s)..]))
  }

  /** Not inside a character of well-formed text. */
  predicate Boundary(s: bytes, n: nat) { n <= |s| && (n == 0 || n == |s| || !Continuation(s[n])) }

  lemma {:induction false} ValidFrom(s: bytes, n: nat)
    requires Valid(s) && Boundary(s, n)
    ensures Valid(s[n..])
    decreases |s|
  {
    if n == 0 {
      assert s[0..] == s;
    } else {
      var c := CharLength(s);
      if n >= c {
        assert s[c..][n - c..] == s[n..];
        ValidFrom(s[c..], n - c);
      }
    }
  }

  /** After the first character of well-formed text comes a boundary. */
  lemma FirstChar(s: bytes)
    requires Valid(s) && s != []
    ensures 1 <= CharLength(s) <= 4 && Boundary(s, CharLength(s))
    ensures s[0] < 0x80 ==> CharLength(s) == 1
  {
    var c := CharLength(s);
    if c < |s| {
      assert s[c..][0] == s[c];
    }
  }

  /** After an ASCII byte comes a boundary. */
  lemma {:induction false} BeforeBoundary(s: bytes, n: nat)
    requires Valid(s) && 0 < n < |s| && s[n - 1] < 0x80
    ensures Boundary(s, n)
    decreases |s|
  {
    var c := CharLength(s);
    if n == c {
      FirstChar(s);
    } else if n > c {
      assert s[c..][n - c] == s[n] && s[c..][n - c - 1] == s[n - 1];
      BeforeBoundary(s[c..], n - c);
    }
  }

  /** Up to a boundary well-formed text is well formed. */
  lemma {:induction false} ValidTo(s: bytes, n: nat)
    requires Valid(s) && Boundary(s, n)
    ensures Valid(s[..n])
    decreases |s|
  {
    if n > 0 {
      var c := CharLength(s);
      if n >= c {
        assert CharLength(s[..n]) == c;
        assert s[..n][c..] == s[c..][..n - c];
        assert n < |s| ==> s[c..][n - c] == s[n];
        ValidTo(s[c..], n - c);
      }
    }
  }

  /** Well-formed texts one after the other are well formed. */
  lemma {:induction false} ValidConcat(a: bytes, b: bytes)
    requires Valid(a) && Valid(b)
    ensures Valid(a + b)
    decreases |a|
  {
    if a == [] {
      assert a + b == b;
    } else {
      var c := CharLength(a);
      assert CharLength(a + b) == c;
      assert (a + b)[c..] == a[c..] + b;
      ValidConcat(a[c..], b);
    }
  }

  predicate Ascii(s: bytes) { forall i :: 0 <= i < |s| ==> s[i] < 0x80 }

  lemma {:induction false} AsciiValid(s: bytes)
    requires Ascii(s)
    ensures Valid(s)
    decreases |s|
  {
    if s != [] {
      AsciiValid(s[1..]);
    }
  }
}
