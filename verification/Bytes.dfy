/** Byte strings and the fixed-width big-endian integers of the on-disk formats. */
module Bytes {
  type byte = x: int | 0 <= x < 256
  type bytes = seq<byte>

  datatype Option<+T> = None | Some(value: T)

  datatype Result<+T> = Ok(value: T) | Err(error: Error)

  /** The errors of the runtime that the modelled operations can return. */
  datatype Error =
    | Io
    | Key
    | Limit
    | Oom
    | Corruption
    | InvalidState
    | UnsupportedOperation
    | UnsupportedValue
    | NotFound
    | CompactedHistory
    | Conflict
    | Capability
    | Parse
    | InvalidParameters
    | Format
    | Schema
    | Type

  const U64 := 0x1_0000_0000_0000_0000

  function Pow256(width: nat): (p: nat)
    ensures p > 0
  {
    if width == 0 then 1 else 256 * Pow256(width - 1)
  }

  lemma Widths()
    ensures Pow256(4) == 0x1_0000_0000 && Pow256(8) == U64
  {
    assert Pow256(4) == 256 * (256 * (256 * (256 * Pow256(0))));
    assert Pow256(8) == 256 * (256 * (256 * (256 * Pow256(4))));
  }

  /** The low `width` bytes of `n`, most significant first (an `as` cast followed by `to_be_bytes`). */
  function ToBE(n: nat, width: nat): (s: bytes)
    ensures |s| == width
  {
    if width == 0 then [] else ToBE(n / 256, width - 1) + [n % 256]
  }

  function FromBE(s: bytes): nat {
    if s == [] then 0 else 256 * FromBE(s[..|s| - 1]) + s[|s| - 1]
  }

  /** The first bytes count most: what comes before the last `|b|` bytes is multiplied by 256 for each of them. */
  lemma {:induction false} BigEndian(a: bytes, b: bytes)
    ensures FromBE(a + b) == FromBE(a) * Pow256(|b|) + FromBE(b)
    decreases |b|
  {
    hide Pow256;
    if b == [] {
      assert a + b == a;
      PowerZero(FromBE(a));
    } else {
      var n := |b| - 1;
      PowerStep(n);
      assert (a + b)[..|a| + n] == a + b[..n];
      BigEndian(a, b[..n]);
      FactorOut(FromBE(a), Pow256(n));
    }
  }

  lemma PowerZero(x: nat)
    ensures x * Pow256(0) == x
  {}

  lemma PowerStep(n: nat)
    ensures Pow256(n + 1) == 256 * Pow256(n)
  {}

  lemma FactorOut(x: nat, p: nat)
    ensures 256 * (x * p) == x * (256 * p)
  {}

  lemma {:induction false} FromToBE(n: nat, width: nat)
    requires n < Pow256(width)
    ensures FromBE(ToBE(n, width)) == n
  {
    if width > 0 {
      FromToBE(n / 256, width - 1);
      var s := ToBE(n, width);
      assert s[..|s| - 1] == ToBE(n / 256, width - 1);
    }
  }

  lemma {:induction false} ToFromBE(s: bytes)
    ensures FromBE(s) < Pow256(|s|)
    ensures ToBE(FromBE(s), |s|) == s
  {
    if s != [] {
      ToFromBE(s[..|s| - 1]);
      assert s == s[..|s| - 1] + [s[|s| - 1]];
    }
  }
}
