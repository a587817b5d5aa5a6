/** Byte strings, little-endian integers and the hash that every other module is parameterised by.

    SHA-256 is a parameter of type `Sha`: any total function from byte strings to 32-byte digests.
    Since no such function is injective, results that need collision-freeness ask for it only on the
    finite set of strings that were actually hashed (`NoCollision`). */
module Bytes {
  datatype Option<+T> = None | Some(value: T)

  type byte = b: int | 0 <= b < 256
  type Bytes = seq<byte>

  const DIGEST_LEN: nat := 32

  function Zeros(n: nat): (z: Bytes)
    ensures |z| == n
  {
    seq(n, _ => 0)
  }

  type Digest = d: Bytes | |d| == DIGEST_LEN witness Zeros(32)
  const ZERO32: Digest := Zeros(32)
  const ZERO16: Bytes := Zeros(16)

  type Sha = Bytes -> Digest

  /** No two different strings of `s` have the same hash. */
  ghost predicate NoCollision(sha: Sha, s: set<Bytes>) {
    forall x, y :: x in s && y in s && sha(x) == sha(y) ==> x == y
  }

  /** No string of `s` hashes to the all-zero digest. */
  ghost predicate NeverZero(sha: Sha, s: set<Bytes>) {
    forall x :: x in s ==> sha(x) != ZERO32
  }

  function Pow256(k: nat): (p: nat)
    ensures p >= 1
  {
    if k == 0 then 1 else 256 * Pow256(k - 1)
  }

  /** `int.to_bytes(k, "little")`, the layout of every fixed-width field. */
  function Le(n: nat, k: nat): (s: Bytes)
    ensures |s| == k
  {
    if k == 0 then [] else [n % 256] + Le(n / 256, k - 1)
  }

  function UnLe(s: Bytes): nat {
    if s == [] then 0 else s[0] + 256 * UnLe(s[1..])
  }

  lemma {:induction false} UnLeLe(n: nat, k: nat)
    requires n < Pow256(k)
    ensures UnLe(Le(n, k)) == n
  {
    if k > 0 {
      UnLeLe(n / 256, k - 1);
      assert Le(n, k)[1..] == Le(n / 256, k - 1);
    }
  }

  lemma {:induction false} LeUnLe(s: Bytes)
    ensures UnLe(s) < Pow256(|s|)
    ensures Le(UnLe(s), |s|) == s
  {
    if s != [] {
      LeUnLe(s[1..]);
      assert UnLe(s) % 256 == s[0] && UnLe(s) / 256 == UnLe(s[1..]);
      assert s == [s[0]] + s[1..];
    }
  }

  lemma PowerWidths()
    ensures Pow256(1) == 0x100
    ensures Pow256(2) == 0x1_0000
    ensures Pow256(4) == 0x1_0000_0000
    ensures Pow256(8) == 0x1_0000_0000_0000_0000
  {
    assert Pow256(3) == 256 * Pow256(2);
    assert Pow256(5) == 256 * Pow256(4);
    assert Pow256(6) == 256 * Pow256(5);
    assert Pow256(7) == 256 * Pow256(6);
  }

  lemma Snoc<T>(s: seq<T>)
    requires |s| > 0
    ensures s == s[..|s| - 1] + [s[|s| - 1]]
  {
  }

  lemma Assoc<T>(a: seq<T>, b: seq<T>, c: seq<T>)
    ensures a + b + c == a + (b + c)
  {
  }

  lemma TakeMore<T>(s: seq<T>, o: nat, l: nat)
    requires o + l <= |s|
    ensures s[..o] + s[o..o + l] == s[..o + l]
  {
  }

  lemma SliceOfSlice<T>(s: seq<T>, a: nat, b: nat, o: nat, n: nat)
    requires a <= b <= |s| && o + n <= b - a
    ensures s[a..b][o..o + n] == s[a + o..a + o + n]
  {
    var x, y := s[a..b][o..o + n], s[a + o..a + o + n];
    assert |x| == |y| == n;
    forall i | 0 <= i < n ensures x[i] == y[i] {
    }
  }

  ghost predicate Increasing(a: seq<nat>) {
    forall i, j :: 0 <= i < j < |a| ==> a[i] < a[j]
  }

  /** The bytes of a field at a fixed offset: `buf[off : off + len]`. */
  function At(buf: Bytes, off: nat, len: nat): (s: Bytes)
    requires off + len <= |buf|
    ensures |s| == len
  {
    buf[off..off + len]
  }

  function U16(buf: Bytes, off: nat): (n: nat)
    requires off + 2 <= |buf|
    ensures n < 0x1_0000
  {
    LeUnLe(At(buf, off, 2));
    PowerWidths();
    UnLe(At(buf, off, 2))
  }

  function U32(buf: Bytes, off: nat): (n: nat)
    requires off + 4 <= |buf|
    ensures n < 0x1_0000_0000
  {
    LeUnLe(At(buf, off, 4));
    PowerWidths();
    UnLe(At(buf, off, 4))
  }

  function U64(buf: Bytes, off: nat): (n: nat)
    requires off + 8 <= |buf|
    ensures n < 0x1_0000_0000_0000_0000
  {
    LeUnLe(At(buf, off, 8));
    PowerWidths();
    UnLe(At(buf, off, 8))
  }

  lemma Writes16(buf: Bytes, off: nat)
    requires off + 2 <= |buf|
    ensures Le(U16(buf, off), 2) == At(buf, off, 2)
  {
    LeUnLe(At(buf, off, 2));
  }

  lemma Writes32(buf: Bytes, off: nat)
    requires off + 4 <= |buf|
    ensures Le(U32(buf, off), 4) == At(buf, off, 4)
  {
    LeUnLe(At(buf, off, 4));
  }

  lemma Writes64(buf: Bytes, off: nat)
    requires off + 8 <= |buf|
    ensures Le(U64(buf, off), 8) == At(buf, off, 8)
  {
    LeUnLe(At(buf, off, 8));
  }

  /** Two's complement, the `q` format of `wall_clock_ns`. */
  function I64(buf: Bytes, off: nat): (n: int)
    requires off + 8 <= |buf|
    ensures -0x8000_0000_0000_0000 <= n < 0x8000_0000_0000_0000
  {
    var u := U64(buf, off);
    if u < 0x8000_0000_0000_0000 then u else u - 0x1_0000_0000_0000_0000
  }

  function LeSigned(n: int): (s: Bytes)
    requires -0x8000_0000_0000_0000 <= n < 0x8000_0000_0000_0000
    ensures |s| == 8
  {
    if n >= 0 then Le(n, 8) else Le(n + 0x1_0000_0000_0000_0000, 8)
  }
}
