/** Facts about concatenation and slicing that the codecs' proofs are built from. */
module Seqs {
  import opened Bytes

  lemma Assoc<T>(a: seq<T>, b: seq<T>, c: seq<T>)
    ensures a + (b + c) == (a + b) + c
  {}

  /** Reading the first part of a concatenation back, and skipping it. */
  lemma Peel<T>(a: seq<T>, b: seq<T>)
    ensures (a + b)[..|a|] == a && (a + b)[|a|..] == b
  {}

  lemma Rejoin<T>(s: seq<T>, n: nat)
    requires n <= |s|
    ensures s == s[..n] + s[n..]
  {}

  /** Slices of a suffix are slices of the whole. */
  lemma Shift<T>(s: seq<T>, cursor: nat, n: nat)
    requires cursor + n <= |s|
    ensures s[cursor..][..n] == s[cursor..cursor + n]
    ensures s[cursor..][n..] == s[cursor + n..]
  {}

  lemma Nest3<T>(a: seq<T>, b: seq<T>, c: seq<T>, rest: seq<T>)
    ensures (a + (b + c)) + rest == a + (b + (c + rest))
  {
    Assoc(a, b + c, rest);
    Assoc(b, c, rest);
  }

  lemma Nest4<T>(a: seq<T>, b: seq<T>, c: seq<T>, d: seq<T>, rest: seq<T>)
    ensures (a + (b + (c + d))) + rest == a + (b + (c + (d + rest)))
  {
    Assoc(a, b + (c + d), rest);
    Nest3(b, c, d, rest);
  }

  /** Appending parts one at a time appends their concatenation. */
  lemma Append3<T>(s: seq<T>, a: seq<T>, b: seq<T>, c: seq<T>)
    ensures s + a + b + c == s + (a + (b + c))
  {
    Assoc(s + a, b, c);
    Assoc(s, a, b + c);
  }

  lemma Append4<T>(s: seq<T>, a: seq<T>, b: seq<T>, c: seq<T>, d: seq<T>)
    ensures s + a + b + c + d == s + (a + (b + (c + d)))
  {
    Append3(s + a, b, c, d);
    Assoc(s, a, b + (c + d));
  }

  lemma Nest5<T>(a: seq<T>, b: seq<T>, c: seq<T>, d: seq<T>, e: seq<T>, rest: seq<T>)
    ensures (a + (b + (c + (d + e)))) + rest == a + (b + (c + (d + (e + rest))))
  {
    Assoc(a, b + (c + (d + e)), rest);
    Nest4(b, c, d, e, rest);
  }

  lemma Slices3<T>(a: seq<T>, b: seq<T>, c: seq<T>)
    ensures var s := a + (b + c);
            s[..|a|] == a && s[|a|..|a| + |b|] == b && s[|a| + |b|..] == c
  {
    var s := a + (b + c);
    Peel(a, b + c);
    Peel(b, c);
    Shift(s, |a|, |b|);
  }

  lemma Slices4<T>(a: seq<T>, b: seq<T>, c: seq<T>, d: seq<T>)
    ensures var s := a + (b + (c + d));
            s[..|a|] == a && s[|a|..|a| + |b|] == b
            && s[|a| + |b|..|a| + |b| + |c|] == c && s[|a| + |b| + |c|..] == d
  {
    var s := a + (b + (c + d));
    Slices3(a, b, c + d);
    Peel(c, d);
    Shift(s, |a| + |b|, |c|);
  }

  /** What a loop has collected, followed by what the rest of its work gives. */
  ghost function Joined<T>(before: seq<T>, r: Result<seq<T>>): Result<seq<T>> {
    if r.Ok? then Ok(before + r.value) else r
  }

  lemma JoinedNothing<T>(r: Result<seq<T>>)
    ensures Joined([], r) == r
  {
    if r.Ok? { assert [] + r.value == r.value; }
  }

  lemma JoinedMore<T>(before: seq<T>, x: T, r: Result<seq<T>>)
    ensures r.Ok? ==> Joined(before, Ok([x] + r.value)) == Joined(before + [x], r)
  {
    if r.Ok? { Assoc(before, [x], r.value); }
  }
}
