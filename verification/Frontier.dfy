/** The incremental root: one perfect-subtree root ("peak") per set bit of the leaf count. */
module Frontier {
  import opened Bytes
  import opened Merkle

  datatype Peak = Peak(height: nat, hash: Digest)

  /** Heights strictly decreasing, left to right. */
  datatype Peaks = Peaks(count: nat, peaks: seq<Peak>)

  const EMPTY := Peaks(0, [])

  /** `peaks` are the roots of perfect subtrees that cut `nodes` into blocks of decreasing size. */
  ghost predicate Covers(sha: Sha, peaks: seq<Peak>, nodes: seq<Bytes>) {
    if peaks == [] then nodes == []
    else
      var last, rest := peaks[|peaks| - 1], peaks[..|peaks| - 1];
      var size := Pow2(last.height);
      && size <= |nodes|
      && last.hash == Mth(sha, nodes[|nodes| - size..])
      && (rest != [] ==> rest[|rest| - 1].height > last.height)
      && Covers(sha, rest, nodes[..|nodes| - size])
  }

  /** The frontier of a list of record hashes. */
  ghost predicate Holds(sha: Sha, f: Peaks, hashes: seq<Bytes>) {
    f.count == |hashes| && Covers(sha, f.peaks, LeafHashes(sha, hashes))
  }

  // ---------- append ----------

  /** Merge equal heights from the right, then push. */
  function Push(sha: Sha, peaks: seq<Peak>, height: nat, h: Digest): seq<Peak> {
    if peaks != [] && peaks[|peaks| - 1].height == height
    then Push(sha, peaks[..|peaks| - 1], height + 1, NodeHash(sha, peaks[|peaks| - 1].hash, h))
    else peaks + [Peak(height, h)]
  }

  function Append(sha: Sha, f: Peaks, recordHash: Bytes): Peaks {
    Peaks(f.count + 1, Push(sha, f.peaks, 0, LeafHash(sha, recordHash)))
  }

  lemma PerfectJoin(sha: Sha, l: seq<Bytes>, r: seq<Bytes>, height: nat)
    requires |l| == Pow2(height) && 1 <= |r| <= |l|
    ensures Mth(sha, l + r) == NodeHash(sha, Mth(sha, l), Mth(sha, r))
  {
    Pow2IsPow2(height);
    SplitUnique(|l + r|, |l|);
    assert (l + r)[..|l|] == l && (l + r)[|l|..] == r;
    MthSplits(sha, l + r, |l|);
  }

  lemma {:induction false} PushCovers(sha: Sha, peaks: seq<Peak>, nodes: seq<Bytes>, height: nat, h: Digest,
                                      tail: seq<Bytes>)
    requires Covers(sha, peaks, nodes)
    requires |tail| == Pow2(height) && h == Mth(sha, tail)
    requires peaks != [] ==> peaks[|peaks| - 1].height >= height
    ensures Covers(sha, Push(sha, peaks, height, h), nodes + tail)
    decreases |peaks|
  {
    hide *;
    if peaks != [] && peaks[|peaks| - 1].height == height {
      var joined := NodeHash(sha, peaks[|peaks| - 1].hash, h);
      CoversLast(sha, peaks, nodes);
      var m := |nodes| - Pow2(height);
      PushMerges(sha, peaks, height, h);
      PerfectJoin(sha, nodes[m..], tail, height);
      Pow2Next(height);
      PushCovers(sha, peaks[..|peaks| - 1], nodes[..m], height + 1, joined, nodes[m..] + tail);
      Regroup(nodes, m, tail);
    } else {
      PushAppends(sha, peaks, height, h);
      PushOne(sha, peaks, nodes, height, h, tail);
    }
  }

  lemma CoversLast(sha: Sha, peaks: seq<Peak>, nodes: seq<Bytes>)
    requires Covers(sha, peaks, nodes) && peaks != []
    ensures var last, rest := peaks[|peaks| - 1], peaks[..|peaks| - 1];
      && Pow2(last.height) <= |nodes|
      && last.hash == Mth(sha, nodes[|nodes| - Pow2(last.height)..])
      && (rest != [] ==> rest[|rest| - 1].height > last.height)
      && Covers(sha, rest, nodes[..|nodes| - Pow2(last.height)])
  {
  }

  lemma PushMerges(sha: Sha, peaks: seq<Peak>, height: nat, h: Digest)
    requires peaks != [] && peaks[|peaks| - 1].height == height
    ensures Push(sha, peaks, height, h) ==
      Push(sha, peaks[..|peaks| - 1], height + 1, NodeHash(sha, peaks[|peaks| - 1].hash, h))
  {
  }

  lemma PushAppends(sha: Sha, peaks: seq<Peak>, height: nat, h: Digest)
    requires peaks == [] || peaks[|peaks| - 1].height != height
    ensures Push(sha, peaks, height, h) == peaks + [Peak(height, h)]
  {
  }

  lemma Pow2Next(h: nat)
    ensures Pow2(h + 1) == 2 * Pow2(h)
  {
  }

  lemma Regroup<T>(s: seq<T>, m: nat, tail: seq<T>)
    requires m <= |s|
    ensures s[..m] + (s[m..] + tail) == s + tail
  {
  }

  lemma PushOne(sha: Sha, peaks: seq<Peak>, nodes: seq<Bytes>, height: nat, h: Digest, tail: seq<Bytes>)
    requires Covers(sha, peaks, nodes)
    requires |tail| == Pow2(height) && h == Mth(sha, tail)
    requires peaks != [] ==> peaks[|peaks| - 1].height > height
    ensures Covers(sha, peaks + [Peak(height, h)], nodes + tail)
  {
    hide Split, SplitFrom, IsPow2, Mth, NodeHash;
    var out, all := peaks + [Peak(height, h)], nodes + tail;
    assert out[..|out| - 1] == peaks;
    assert all[|all| - |tail|..] == tail && all[..|all| - |tail|] == nodes;
  }

  /** Appending keeps the frontier the frontier of everything appended so far. */
  lemma AppendHolds(sha: Sha, f: Peaks, hashes: seq<Bytes>, recordHash: Bytes)
    requires Holds(sha, f, hashes)
    ensures Holds(sha, Append(sha, f, recordHash), hashes + [recordHash])
  {
    PushCovers(sha, f.peaks, LeafHashes(sha, hashes), 0, LeafHash(sha, recordHash), [LeafHash(sha, recordHash)]);
    assert LeafHashes(sha, hashes + [recordHash]) == LeafHashes(sha, hashes) + [LeafHash(sha, recordHash)];
  }

  // ---------- root ----------

  function FoldPeaks(sha: Sha, peaks: seq<Peak>, acc: Digest): Digest {
    if peaks == [] then acc
    else FoldPeaks(sha, peaks[..|peaks| - 1], NodeHash(sha, peaks[|peaks| - 1].hash, acc))
  }

  function PeaksRoot(sha: Sha, f: Peaks): Digest {
    if f.peaks == [] then sha([])
    else FoldPeaks(sha, f.peaks[..|f.peaks| - 1], f.peaks[|f.peaks| - 1].hash)
  }

  lemma NoPeaks(sha: Sha, nodes: seq<Bytes>, acc: Digest)
    requires Covers(sha, [], nodes)
    ensures nodes == [] && FoldPeaks(sha, [], acc) == acc
  {
  }

  /** What the last peak covers, and what folding it leaves to do. */
  lemma LastPeak(sha: Sha, peaks: seq<Peak>, nodes: seq<Bytes>, acc: Digest)
    requires peaks != [] && Covers(sha, peaks, nodes)
    ensures var last, rest := peaks[|peaks| - 1], peaks[..|peaks| - 1];
      && 1 <= Pow2(last.height) <= |nodes| && last.hash == Mth(sha, nodes[|nodes| - Pow2(last.height)..])
      && (rest != [] ==> rest[|rest| - 1].height > last.height)
      && Covers(sha, rest, nodes[..|nodes| - Pow2(last.height)])
      && FoldPeaks(sha, peaks, acc) == FoldPeaks(sha, rest, NodeHash(sha, last.hash, acc))
  {
    hide Mth, NodeHash;
  }

  lemma DoublePow(h: nat)
    ensures Pow2(h + 1) == 2 * Pow2(h)
  {
  }

  lemma {:induction false} FoldIsMth(sha: Sha, peaks: seq<Peak>, nodes: seq<Bytes>, acc: Digest, tail: seq<Bytes>)
    requires Covers(sha, peaks, nodes)
    requires |tail| >= 1 && acc == Mth(sha, tail)
    requires peaks != [] ==> |tail| <= Pow2(peaks[|peaks| - 1].height)
    ensures FoldPeaks(sha, peaks, acc) == Mth(sha, nodes + tail)
    decreases |peaks|
  {
    hide *;
    if peaks == [] {
      NoPeaks(sha, nodes, acc);
      assert nodes + tail == tail;
    } else {
      var last, rest := peaks[|peaks| - 1], peaks[..|peaks| - 1];
      LastPeak(sha, peaks, nodes, acc);
      var m := |nodes| - Pow2(last.height);
      PerfectJoin(sha, nodes[m..], tail, last.height);
      if rest != [] {
        Pow2Monotone(last.height + 1, rest[|rest| - 1].height);
      }
      DoublePow(last.height);
      FoldIsMth(sha, rest, nodes[..m], NodeHash(sha, last.hash, acc), nodes[m..] + tail);
      assert nodes[..m] + (nodes[m..] + tail) == nodes + tail;
    }
  }

  lemma {:induction false} Pow2Monotone(a: nat, b: nat)
    requires a <= b
    ensures Pow2(a) <= Pow2(b)
  {
    if a < b {
      Pow2Monotone(a, b - 1);
    }
  }

  /** The folded peaks are the tree hash of every record hash appended, and only those. */
  lemma RootOfFrontier(sha: Sha, f: Peaks, hashes: seq<Bytes>)
    requires Holds(sha, f, hashes)
    ensures PeaksRoot(sha, f) == Root(sha, hashes)
  {
    hide FoldPeaks, Mth, LeafHashes, Pow2;
    var nodes := LeafHashes(sha, hashes);
    if f.peaks != [] {
      hide Covers;
      var last, rest := f.peaks[|f.peaks| - 1], f.peaks[..|f.peaks| - 1];
      LastPeak(sha, f.peaks, nodes, last.hash);
      var m := |nodes| - Pow2(last.height);
      if rest != [] {
        Pow2Monotone(last.height, rest[|rest| - 1].height);
      }
      FoldIsMth(sha, rest, nodes[..m], last.hash, nodes[m..]);
      assert nodes[..m] + nodes[m..] == nodes;
    }
  }

  /** The code's object: peaks updated in place. */
  class MerkleFrontier {
    const sha: Sha
    var count: nat
    var peaks: seq<Peak>

    function Value(): Peaks reads this { Peaks(count, peaks) }

    constructor (sha: Sha)
      ensures Value() == EMPTY && this.sha == sha
    {
      this.sha := sha;
      count, peaks := 0, [];
    }

    /** One built from stored bytes. */
    constructor Stored(sha: Sha, f: Peaks)
      ensures Value() == f && this.sha == sha
    {
      this.sha := sha;
      count, peaks := f.count, f.peaks;
    }

    method AppendHash(recordHash: Bytes) returns (ok: bool)
      modifies this
      ensures ok <==> |recordHash| == DIGEST_LEN
      ensures Value() == if ok then Append(sha, old(Value()), recordHash) else old(Value())
      ensures ok ==> forall hashes :: Holds(sha, old(Value()), hashes) ==> Holds(sha, Value(), hashes + [recordHash])
    {
      if |recordHash| != DIGEST_LEN {
        return false;
      }
      var h, height := LeafHash(sha, recordHash), 0;
      while peaks != [] && peaks[|peaks| - 1].height == height
        invariant Push(sha, peaks, height, h) == Push(sha, old(peaks), 0, LeafHash(sha, recordHash))
        invariant count == old(count)
        decreases |peaks|
      {
        h := NodeHash(sha, peaks[|peaks| - 1].hash, h);
        peaks := peaks[..|peaks| - 1];
        height := height + 1;
      }
      peaks := peaks + [Peak(height, h)];
      count := count + 1;
      ok := true;
      forall hashes | Holds(sha, old(Value()), hashes) ensures Holds(sha, Value(), hashes + [recordHash]) {
        AppendHolds(sha, old(Value()), hashes, recordHash);
      }
    }

    method ComputeRoot() returns (root: Digest)
      ensures root == PeaksRoot(sha, Value())
      ensures forall hashes :: Holds(sha, Value(), hashes) ==> root == Root(sha, hashes)
    {
      if peaks == [] {
        root := sha([]);
      } else {
        root := peaks[|peaks| - 1].hash;
        var i := |peaks| - 1;
        while i > 0
          invariant 0 <= i < |peaks|
          invariant FoldPeaks(sha, peaks[..i], root) == PeaksRoot(sha, Value())
        {
          assert peaks[..i][..i - 1] == peaks[..i - 1];
          root := NodeHash(sha, peaks[i - 1].hash, root);
          i := i - 1;
        }
      }
      forall hashes | Holds(sha, Value(), hashes) ensures root == Root(sha, hashes) {
        RootOfFrontier(sha, Value(), hashes);
      }
    }
  }

  // ---------- serialised form ----------

  function Flat(ds: seq<Digest>): (s: Bytes)
    ensures |s| == DIGEST_LEN * |ds|
  {
    if ds == [] then [] else ds[0] + Flat(ds[1..])
  }

  function UnFlat(s: Bytes): (ds: seq<Digest>)
    requires |s| % DIGEST_LEN == 0
    ensures DIGEST_LEN * |ds| == |s|
  {
    if s == [] then [] else [s[..DIGEST_LEN]] + UnFlat(s[DIGEST_LEN..])
  }

  lemma {:induction false} UnFlatFlat(ds: seq<Digest>)
    ensures UnFlat(Flat(ds)) == ds
  {
    if ds != [] {
      UnFlatFlat(ds[1..]);
      var s := Flat(ds);
      assert s[..DIGEST_LEN] == ds[0] && s[DIGEST_LEN..] == Flat(ds[1..]);
    }
  }

  lemma {:induction false} FlatUnFlat(s: Bytes)
    requires |s| % DIGEST_LEN == 0
    ensures Flat(UnFlat(s)) == s
  {
    if s != [] {
      FlatUnFlat(s[DIGEST_LEN..]);
      assert UnFlat(s)[1..] == UnFlat(s[DIGEST_LEN..]);
      assert s == s[..DIGEST_LEN] + s[DIGEST_LEN..];
    }
  }

  function Hashes(peaks: seq<Peak>): (ds: seq<Digest>)
    ensures |ds| == |peaks|
  {
    seq(|peaks|, i requires 0 <= i < |peaks| => peaks[i].hash)
  }

  function Heights(peaks: seq<Peak>): (hs: seq<nat>)
    ensures |hs| == |peaks|
  {
    seq(|peaks|, i requires 0 <= i < |peaks| => peaks[i].height)
  }

  /** The positions below `b` of the set bits of `n`, highest first: `n >> c & 1`. */
  function SetBits(n: nat, b: nat): seq<nat> {
    if b == 0 then []
    else (if (n / Pow2(b - 1)) % 2 == 1 then [b - 1] else []) + SetBits(n, b - 1)
  }

  function Zip(hs: seq<nat>, ds: seq<Digest>): (peaks: seq<Peak>)
    requires |hs| == |ds|
    ensures |peaks| == |hs|
  {
    seq(|hs|, i requires 0 <= i < |hs| => Peak(hs[i], ds[i]))
  }

  function ToBytes(f: Peaks): Bytes {
    Le(f.count, 8) + Flat(Hashes(f.peaks))
  }

  function FromBytes(data: Bytes): Option<Peaks> {
    if |data| < 8 then None
    else
      var count := U64(data, 0);
      var heights := SetBits(count, 64);
      if |data| != 8 + DIGEST_LEN * |heights| then None
      else
        var ds := UnFlat(data[8..]);
        Some(Peaks(count, Zip(heights, ds)))
  }

  lemma {:induction false} FlatAt(ds: seq<Digest>, i: nat)
    requires i < |ds|
    ensures Flat(ds)[DIGEST_LEN * i..DIGEST_LEN * (i + 1)] == ds[i]
  {
    if i > 0 {
      FlatAt(ds[1..], i - 1);
      var s, t := Flat(ds), Flat(ds[1..]);
      SliceOfSlice(s, DIGEST_LEN, |s|, DIGEST_LEN * (i - 1), DIGEST_LEN);
      assert s[DIGEST_LEN..|s|] == t;
    }
  }

  /** The stored form: the count in eight bytes, least significant first, then each root as the peaks stand. */
  lemma StoredLayout(f: Peaks, i: nat)
    requires f.count < Pow256(8) && i < |f.peaks|
    ensures |ToBytes(f)| == 8 + DIGEST_LEN * |f.peaks| && UnLe(ToBytes(f)[..8]) == f.count
    ensures ToBytes(f)[8 + DIGEST_LEN * i..8 + DIGEST_LEN * (i + 1)] == f.peaks[i].hash
  {
    UnLeLe(f.count, 8);
    assert ToBytes(f)[..8] == Le(f.count, 8);
    FlatAt(Hashes(f.peaks), i);
    var s := ToBytes(f);
    assert s[8..|s|] == Flat(Hashes(f.peaks));
    SliceOfSlice(s, 8, |s|, DIGEST_LEN * i, DIGEST_LEN);
  }

  function Sum(hs: seq<nat>): nat {
    if hs == [] then 0 else Pow2(hs[0]) + Sum(hs[1..])
  }

  ghost predicate Descending(hs: seq<nat>, b: nat) {
    (forall i :: 0 <= i < |hs| ==> hs[i] < b) && forall i, j :: 0 <= i < j < |hs| ==> hs[i] > hs[j]
  }

  lemma {:induction false} DescendingSum(hs: seq<nat>, b: nat)
    requires Descending(hs, b)
    ensures Sum(hs) < Pow2(b)
  {
    if hs != [] {
      DescendingSum(hs[1..], hs[0]);
      Pow2Monotone(hs[0] + 1, b);
    }
  }

  lemma HighBit(n: nat, p: nat)
    requires p > 0 && n < 2 * p
    ensures (n / p) % 2 == (if n >= p then 1 else 0)
  {
    if n >= p {
      assert n / p == 1;
    } else {
      assert n / p == 0;
    }
  }

  lemma LowerBits(n: nat, p: nat, q: nat)
    requires p > 0
    ensures ((n + 2 * p * q) / p) % 2 == (n / p) % 2
  {
    var d, m := n / p, n % p;
    assert n == d * p + m;
    Regrouped(p, q, d, m);
    DivUnique(n + 2 * p * q, p, d + 2 * q, m);
    EvenMore(d, q);
  }

  lemma Regrouped(p: nat, q: nat, d: nat, m: nat)
    ensures d * p + m + 2 * p * q == (d + 2 * q) * p + m
  {
  }

  lemma EvenMore(d: nat, q: nat)
    ensures (d + 2 * q) % 2 == d % 2
  {
  }

  lemma DivUnique(x: nat, p: nat, q: nat, r: nat)
    requires p > 0 && x == q * p + r && r < p
    ensures x / p == q
  {
    var q', r' := x / p, x % p;
    assert x == q' * p + r';
    assert (q - q') * p == r' - r;
    if q > q' {
      AtLeastOnce(q - q', p);
    } else if q < q' {
      assert (q' - q) * p == r - r';
      AtLeastOnce(q' - q, p);
    }
  }

  lemma AtLeastOnce(k: nat, p: nat)
    requires k >= 1
    ensures k * p >= p
  {
  }

  lemma {:induction false} Pow2Times(a: nat, b: nat) returns (q: nat)
    requires a < b
    ensures Pow2(b) == 2 * Pow2(a) * q
  {
    if a + 1 == b {
      q := 1;
    } else {
      var q' := Pow2Times(a, b - 1);
      q := 2 * q';
      assert Pow2(b) == 2 * (2 * Pow2(a) * q') == 2 * Pow2(a) * (2 * q');
    }
  }

  lemma {:induction false} LowBitsIgnoreHigh(n: nat, b: nat, c: nat)
    requires b <= c
    ensures SetBits(n + Pow2(c), b) == SetBits(n, b)
  {
    if b > 0 {
      LowBitsIgnoreHigh(n, b - 1, c);
      var q := Pow2Times(b - 1, c);
      LowerBits(n, Pow2(b - 1), q);
    }
  }

  /** A descending list of heights is the bit list of its sum. */
  lemma {:induction false} HeightsAreBits(hs: seq<nat>, b: nat)
    requires Descending(hs, b)
    ensures SetBits(Sum(hs), b) == hs
    decreases b
  {
    hide *;
    if b == 0 {
      NoHeights(hs);
    } else {
      TopOrBelow(hs, b);
      HeightsAreBits(if hs != [] && hs[0] == b - 1 then hs[1..] else hs, b - 1);
      OneBitMore(hs, b);
    }
  }

  lemma NoHeights(hs: seq<nat>)
    requires Descending(hs, 0)
    ensures SetBits(Sum(hs), 0) == hs
  {
  }

  lemma OneBitMore(hs: seq<nat>, b: nat)
    requires b > 0 && Descending(hs, b)
    requires var rest := if hs != [] && hs[0] == b - 1 then hs[1..] else hs; SetBits(Sum(rest), b - 1) == rest
    ensures SetBits(Sum(hs), b) == hs
  {
    hide *;
    if hs != [] && hs[0] == b - 1 {
      TopBitSet(hs, b);
    } else {
      TopOrBelow(hs, b);
      DescendingSum(hs, b - 1);
      TopBitClear(Sum(hs), b);
    }
  }

  lemma TopOrBelow(hs: seq<nat>, b: nat)
    requires b > 0 && Descending(hs, b)
    ensures if hs != [] && hs[0] == b - 1 then Descending(hs[1..], b - 1) else Descending(hs, b - 1)
  {
  }

  lemma TopBitClear(n: nat, b: nat)
    requires b > 0 && n < Pow2(b - 1)
    ensures SetBits(n, b) == SetBits(n, b - 1)
  {
    HighBit(n, Pow2(b - 1));
  }

  lemma TopBitSet(hs: seq<nat>, b: nat)
    requires b > 0 && hs != [] && hs[0] == b - 1 && Descending(hs, b)
    requires SetBits(Sum(hs[1..]), b - 1) == hs[1..]
    ensures SetBits(Sum(hs), b) == hs
  {
    hide *;
    SumFirst(hs);
    TailDescends(hs, b);
    DescendingSum(hs[1..], b - 1);
    TopBitAdded(Sum(hs[1..]), b);
    FirstAndRest(hs);
  }

  lemma TopBitAdded(low: nat, b: nat)
    requires b > 0 && low < Pow2(b - 1)
    ensures SetBits(Pow2(b - 1) + low, b) == [b - 1] + SetBits(low, b - 1)
  {
    hide *;
    LowBitsIgnoreHigh(low, b - 1, b - 1);
    SetBitsTop(low + Pow2(b - 1), b);
  }

  lemma FirstAndRest(hs: seq<nat>)
    requires hs != []
    ensures hs == [hs[0]] + hs[1..]
  {
  }

  lemma SumFirst(hs: seq<nat>)
    requires hs != []
    ensures Sum(hs) == Pow2(hs[0]) + Sum(hs[1..])
  {
  }

  lemma TailDescends(hs: seq<nat>, b: nat)
    requires hs != [] && Descending(hs, b)
    ensures Descending(hs[1..], hs[0])
  {
  }

  lemma SetBitsTop(n: nat, b: nat)
    requires b > 0 && Pow2(b - 1) <= n < 2 * Pow2(b - 1)
    ensures SetBits(n, b) == [b - 1] + SetBits(n, b - 1)
  {
    HighBit(n, Pow2(b - 1));
  }

  lemma {:induction false} SumSnoc(hs: seq<nat>, h: nat)
    ensures Sum(hs + [h]) == Sum(hs) + Pow2(h)
  {
    if hs == [] {
      assert hs + [h] == [h];
    } else {
      assert (hs + [h])[1..] == hs[1..] + [h];
      SumSnoc(hs[1..], h);
    }
  }

  lemma {:induction false} CoversHeights(sha: Sha, peaks: seq<Peak>, nodes: seq<Bytes>)
    requires Covers(sha, peaks, nodes)
    ensures Sum(Heights(peaks)) == |nodes|
    ensures forall i, j :: 0 <= i < j < |peaks| ==> peaks[i].height > peaks[j].height
    ensures forall i :: 0 <= i < |peaks| ==> Pow2(peaks[i].height) <= |nodes|
    decreases |peaks|
  {
    if peaks != [] {
      var last, rest := peaks[|peaks| - 1], peaks[..|peaks| - 1];
      CoversHeights(sha, rest, nodes[..|nodes| - Pow2(last.height)]);
      assert Heights(peaks) == Heights(rest) + [last.height];
      SumSnoc(Heights(rest), last.height);
      forall i, j | 0 <= i < j < |peaks| ensures peaks[i].height > peaks[j].height {
        assert peaks[i] == rest[i];
        if j < |rest| {
          assert rest[j] == peaks[j];
        }
      }
    }
  }

  /** What is stored is read back: the peak heights follow from the count's bits alone. */
  lemma FrontierRoundTrips(sha: Sha, f: Peaks, hashes: seq<Bytes>)
    requires Holds(sha, f, hashes) && f.count < Pow256(8)
    ensures FromBytes(ToBytes(f)) == Some(f)
  {
    CoversBits(sha, f.peaks, LeafHashes(sha, hashes));
    var data := ToBytes(f);
    assert At(data, 0, 8) == Le(f.count, 8) && data[8..] == Flat(Hashes(f.peaks));
    UnLeLe(f.count, 8);
    UnFlatFlat(Hashes(f.peaks));
    hide *;
    assert U64(data, 0) == f.count by {
      U64Reads(data, f.count);
    }
    FromBytesOf(data, f.count);
    var ds, hs := Hashes(f.peaks), Heights(f.peaks);
    PeaksOf(f.peaks);
  }

  lemma U64Reads(data: Bytes, n: nat)
    requires |data| >= 8 && UnLe(At(data, 0, 8)) == n
    ensures U64(data, 0) == n
  {
  }

  lemma FromBytesOf(data: Bytes, count: nat)
    requires |data| >= 8 && U64(data, 0) == count
    ensures FromBytes(data) ==
      if |data| != 8 + DIGEST_LEN * |SetBits(count, 64)| then None
      else Some(Peaks(count, Zip(SetBits(count, 64), UnFlat(data[8..]))))
  {
  }

  lemma PeaksOf(peaks: seq<Peak>)
    ensures Zip(Heights(peaks), Hashes(peaks)) == peaks
  {
  }

  lemma CoversBits(sha: Sha, peaks: seq<Peak>, nodes: seq<Bytes>)
    requires Covers(sha, peaks, nodes) && |nodes| < Pow256(8)
    ensures SetBits(|nodes|, 64) == Heights(peaks)
  {
    CoversHeights(sha, peaks, nodes);
    Powers64();
    hide SetBits, Covers, Pow2, Sum;
    forall i | 0 <= i < |peaks| ensures peaks[i].height < 64 {
      if peaks[i].height >= 64 {
        Pow2Monotone(64, peaks[i].height);
      }
    }
    HeightsAreBits(Heights(peaks), 64);
  }

  lemma Powers64()
    ensures Pow2(64) == Pow256(8)
  {
    PowersOf256(8);
  }

  lemma {:induction false} PowersOf256(k: nat)
    ensures Pow2(8 * k) == Pow256(k)
  {
    if k > 0 {
      PowersOf256(k - 1);
      var e := 8 * (k - 1);
      assert Pow2(e + 4) == 16 * Pow2(e) by {
        assert Pow2(e + 2) == 4 * Pow2(e);
      }
      assert Pow2(e + 8) == 16 * Pow2(e + 4) by {
        assert Pow2(e + 6) == 4 * Pow2(e + 4);
      }
    }
  }

  /** Anything accepted is something `to_bytes` could have written. */
  lemma AcceptedFrontierIsExact(data: Bytes)
    requires FromBytes(data).Some?
    ensures ToBytes(FromBytes(data).value) == data
  {
    var f := FromBytes(data).value;
    LeUnLe(At(data, 0, 8));
    FlatUnFlat(data[8..]);
    assert Hashes(f.peaks) == UnFlat(data[8..]);
    assert data == data[..8] + data[8..];
  }
}
