/** Prefix-consistency proofs: RFC 6962 SUBPROOF and the RFC 9162 check. */
module Consistency {
  /* `Ops(m, n)` names, bottom-up, what each path node does to the two roots being rebuilt. The
     prover's recursion follows it from the top, the verifier's bit loop from the bottom; that both
     follow the same list is the heart of the module. */

  import opened Bytes
  import opened Merkle

  /** A path node joins both trees from the left, or only the second tree from the right. */
  datatype Op = Both | SecondOnly

  function Ops(m: nat, n: nat): (ops: seq<Op>)
    requires 1 <= m <= n
    ensures ops == [] <==> m == n
    decreases n
  {
    if m == n then []
    else
      var k := Split(n);
      if m <= k then Ops(m, k) + [SecondOnly] else Ops(m - k, n - k) + [Both]
  }

  /** The prover. `b`: the subtree of the first `m` leaves is the verifier's own first root. */
  function SubProof(sha: Sha, m: nat, nodes: seq<Bytes>, b: bool): seq<Bytes>
    requires 1 <= m <= |nodes|
    decreases |nodes|
  {
    if m == |nodes| then (if b then [] else [Mth(sha, nodes)])
    else
      var k := Split(|nodes|);
      if m <= k then SubProof(sha, m, nodes[..k], b) + [Mth(sha, nodes[k..])]
      else SubProof(sha, m - k, nodes[k..], false) + [Mth(sha, nodes[..k])]
  }

  /** The two roots rebuilt from a common start by the path nodes in order. */
  function Roots(sha: Sha, start: Bytes, ops: seq<Op>, path: seq<Bytes>): (Bytes, Bytes)
    requires |ops| == |path|
  {
    if ops == [] then (start, start)
    else
      var (fr, sr) := Roots(sha, start, ops[..|ops| - 1], path[..|path| - 1]);
      var c := path[|path| - 1];
      if ops[|ops| - 1] == Both then (NodeHash(sha, c, fr), NodeHash(sha, c, sr))
      else (fr, NodeHash(sha, sr, c))
  }

  /** The path as the verifier sees it: the first root itself stands in for a complete first tree. */
  function FullPath(first: nat, firstRoot: Bytes, proof: seq<Bytes>): seq<Bytes> {
    if IsPow2(first) then [firstRoot] + proof else proof
  }

  /** What an accepted proof is, without the bit loop. */
  predicate Accepts(sha: Sha, first: int, second: int, firstRoot: Bytes, secondRoot: Bytes, proof: seq<Bytes>) {
    && 1 <= first <= second
    && if first == second then proof == [] && firstRoot == secondRoot
       else
         var path := FullPath(first, firstRoot, proof);
         && |path| == |Ops(first, second)| + 1
         && Roots(sha, path[0], Ops(first, second), path[1..]) == (firstRoot, secondRoot)
  }

  // ---------- the prover is accepted ----------

  lemma RootsSnoc(sha: Sha, start: Bytes, ops: seq<Op>, path: seq<Bytes>, op: Op, c: Bytes)
    requires |ops| == |path|
    ensures var (fr, sr) := Roots(sha, start, ops, path);
      Roots(sha, start, ops + [op], path + [c]) ==
        if op == Both then (NodeHash(sha, c, fr), NodeHash(sha, c, sr)) else (fr, NodeHash(sha, sr, c))
  {
    assert (ops + [op])[..|ops|] == ops && (path + [c])[..|path|] == path;
  }

  lemma OpsLeft(m: nat, n: nat, k: nat)
    requires 1 <= m < n && k == Split(n) && m <= k
    ensures Ops(m, n) == Ops(m, k) + [SecondOnly]
  {
  }

  lemma OpsRight(m: nat, n: nat, k: nat)
    requires 1 <= m < n && k == Split(n) && k < m
    ensures Ops(m, n) == Ops(m - k, n - k) + [Both]
    ensures m >= 2 && Split(m) == k
  {
    SplitUnique(m, k);
  }

  /** The path of an incomplete first tree, starting from the hash of a common subtree, rebuilds both roots. */
  predicate Rebuilds(sha: Sha, m: nat, nodes: seq<Bytes>, p: seq<Bytes>)
    requires 1 <= m <= |nodes|
  {
    && |p| == |Ops(m, |nodes|)| + 1
    && Roots(sha, p[0], Ops(m, |nodes|), p[1..]) == (Mth(sha, nodes[..m]), Mth(sha, nodes))
  }

  lemma RebuildLeft(sha: Sha, m: nat, nodes: seq<Bytes>, k: nat, q: seq<Bytes>)
    requires 1 <= m < |nodes| && k == Split(|nodes|) && m <= k && Rebuilds(sha, m, nodes[..k], q)
    ensures Rebuilds(sha, m, nodes, q + [Mth(sha, nodes[k..])])
  {
    hide Split, SplitFrom, IsPow2, Ops, Roots, Mth, NodeHash;
    var c := Mth(sha, nodes[k..]);
    MthSplits(sha, nodes, k);
    OpsLeft(m, |nodes|, k);
    RootsSnoc(sha, q[0], Ops(m, k), q[1..], SecondOnly, c);
    assert (q + [c])[1..] == q[1..] + [c] && (q + [c])[0] == q[0];
    assert nodes[..k][..m] == nodes[..m];
  }

  lemma RebuildRight(sha: Sha, m: nat, nodes: seq<Bytes>, k: nat, q: seq<Bytes>)
    requires 1 <= m < |nodes| && k == Split(|nodes|) && k < m && Rebuilds(sha, m - k, nodes[k..], q)
    ensures Rebuilds(sha, m, nodes, q + [Mth(sha, nodes[..k])])
  {
    hide Split, SplitFrom, IsPow2, Ops, Roots, Mth, NodeHash;
    var c := Mth(sha, nodes[..k]);
    MthSplits(sha, nodes, k);
    OpsRight(m, |nodes|, k);
    MthSplits(sha, nodes[..m], k);
    RootsSnoc(sha, q[0], Ops(m - k, |nodes| - k), q[1..], Both, c);
    assert (q + [c])[1..] == q[1..] + [c] && (q + [c])[0] == q[0];
    assert nodes[k..][..m - k] == nodes[..m][k..] && nodes[..m][..k] == nodes[..k];
  }

  lemma {:induction false} SubProofRebuilds(sha: Sha, m: nat, nodes: seq<Bytes>)
    requires 1 <= m <= |nodes|
    ensures Rebuilds(sha, m, nodes, SubProof(sha, m, nodes, false))
    decreases |nodes|
  {
    if m == |nodes| {
      assert nodes[..m] == nodes;
    } else {
      var k := Split(|nodes|);
      if m <= k {
        SubProofRebuilds(sha, m, nodes[..k]);
        RebuildLeft(sha, m, nodes, k, SubProof(sha, m, nodes[..k], false));
      } else {
        SubProofRebuilds(sha, m - k, nodes[k..]);
        RebuildRight(sha, m, nodes, k, SubProof(sha, m - k, nodes[k..], false));
      }
    }
  }

  /** With a complete first tree the path carries no start node: the first root is the start. */
  lemma {:induction false} CompleteSubProofRebuilds(sha: Sha, m: nat, nodes: seq<Bytes>)
    requires 1 <= m < |nodes| && IsPow2(m)
    ensures var p := SubProof(sha, m, nodes, true);
      && |p| == |Ops(m, |nodes|)|
      && Roots(sha, Mth(sha, nodes[..m]), Ops(m, |nodes|), p) == (Mth(sha, nodes[..m]), Mth(sha, nodes))
    decreases |nodes|
  {
    var k := Split(|nodes|);
    if k < m {
      PowersDouble(k, m);
    }
    var q, c := SubProof(sha, m, nodes[..k], true), Mth(sha, nodes[k..]);
    OpsLeft(m, |nodes|, k);
    assert nodes[..k][..m] == nodes[..m];
    if m < k {
      CompleteSubProofRebuilds(sha, m, nodes[..k]);
    }
    RootsSnoc(sha, Mth(sha, nodes[..m]), Ops(m, k), q, SecondOnly, c);
  }

  lemma {:induction false} IncompleteIgnoresFlag(sha: Sha, m: nat, nodes: seq<Bytes>)
    requires 1 <= m < |nodes| && !IsPow2(m)
    ensures SubProof(sha, m, nodes, true) == SubProof(sha, m, nodes, false)
    decreases |nodes|
  {
    var k := Split(|nodes|);
    if m < k {
      IncompleteIgnoresFlag(sha, m, nodes[..k]);
    }
  }

  /** The published path for every 0 < m <= n is accepted against the two real roots. */
  lemma ProofIsAccepted(sha: Sha, leaves: seq<Bytes>, m: nat)
    requires 1 <= m <= |leaves|
    ensures Accepts(sha, m, |leaves|, Root(sha, leaves[..m]), Root(sha, leaves),
                    SubProof(sha, m, LeafHashes(sha, leaves), true))
  {
    var nodes := LeafHashes(sha, leaves);
    HashedParts(sha, leaves, m);
    if m == |leaves| {
      assert leaves[..m] == leaves;
    } else if IsPow2(m) {
      CompleteSubProofRebuilds(sha, m, nodes);
      var proof := SubProof(sha, m, nodes, true);
      assert ([Root(sha, leaves[..m])] + proof)[1..] == proof;
    } else {
      IncompleteIgnoresFlag(sha, m, nodes);
      SubProofRebuilds(sha, m, nodes);
    }
  }

  /** At most ceil(log2 n) operations, hence at most ceil(log2 n) + 1 path nodes. */
  lemma {:induction false} OpsAreFew(m: nat, n: nat)
    requires 1 <= m <= n
    ensures |Ops(m, n)| > 0 ==> Pow2(|Ops(m, n)| - 1) < n
    decreases n
  {
    if m < n {
      var k := Split(n);
      if m <= k {
        OpsAreFew(m, k);
        PowerBound(|Ops(m, k)|, k);
      } else {
        OpsAreFew(m - k, n - k);
        PowerBound(|Ops(m - k, n - k)|, k);
      }
    }
  }

  lemma PathIsShort(sha: Sha, nodes: seq<Bytes>, m: nat)
    requires 1 <= m <= |nodes|
    ensures var len := |SubProof(sha, m, nodes, true)|; len >= 2 ==> Pow2(len - 2) < |nodes|
  {
    hide *;
    OpsAreFew(m, |nodes|);
    PathLength(sha, nodes, m);
    if |Ops(m, |nodes|)| > 1 {
      Pow2Grows(|Ops(m, |nodes|)| - 1);
    }
  }

  lemma Pow2Grows(h: nat)
    requires h > 0
    ensures Pow2(h - 1) <= Pow2(h)
  {
  }

  lemma PathLength(sha: Sha, nodes: seq<Bytes>, m: nat)
    requires 1 <= m <= |nodes|
    ensures var len, ops := |SubProof(sha, m, nodes, true)|, |Ops(m, |nodes|)|;
      (len == ops || len == ops + 1) && (m == |nodes| ==> len == ops == 0)
  {
    if m < |nodes| {
      if IsPow2(m) {
        CompleteSubProofRebuilds(sha, m, nodes);
      } else {
        IncompleteIgnoresFlag(sha, m, nodes);
        SubProofRebuilds(sha, m, nodes);
      }
    }
  }

  // ---------- an accepted proof means a prefix ----------

  /** Every string hashed while the two roots are rebuilt. */
  function RootsPre(sha: Sha, start: Bytes, ops: seq<Op>, path: seq<Bytes>): set<Bytes>
    requires |ops| == |path|
  {
    if ops == [] then {}
    else
      var o, p := ops[..|ops| - 1], path[..|path| - 1];
      var (fr, sr) := Roots(sha, start, o, p);
      var c := path[|path| - 1];
      RootsPre(sha, start, o, p) +
      (if ops[|ops| - 1] == Both then {NodePre(c, fr), NodePre(c, sr)} else {NodePre(sr, c)})
  }

  lemma RootsPreSnoc(sha: Sha, start: Bytes, ops: seq<Op>, path: seq<Bytes>, op: Op, c: Bytes)
    requires |ops| == |path|
    ensures var (fr, sr) := Roots(sha, start, ops, path);
      RootsPre(sha, start, ops + [op], path + [c]) == RootsPre(sha, start, ops, path) +
        if op == Both then {NodePre(c, fr), NodePre(c, sr)} else {NodePre(sr, c)}
  {
    assert (ops + [op])[..|ops|] == ops && (path + [c])[..|path|] == path;
  }

  /** After at least one operation the second root is a hash, whatever the path nodes look like. */
  lemma SecondRootIsDigest(sha: Sha, start: Bytes, ops: seq<Op>, path: seq<Bytes>)
    requires |ops| == |path| && ops != []
    ensures |Roots(sha, start, ops, path).1| == DIGEST_LEN
  {
  }

  /** A join that hits the root of `ds`, one of its sides being 32 bytes long, is the join of the two parts. */
  lemma JoinIsTheSplit(sha: Sha, ds: seq<Bytes>, l: Bytes, r: Bytes, s: set<Bytes>)
    requires NodeHash(sha, l, r) == Root(sha, ds)
    requires |l| == DIGEST_LEN || |r| == DIGEST_LEN
    requires NoCollision(sha, s) && TreePre(sha, ds) <= s && NodePre(l, r) in s
    ensures |ds| >= 2 && l == Root(sha, ds[..Split(|ds|)]) && r == Root(sha, ds[Split(|ds|)..])
  {
    var p := RootPre(sha, ds);
    assert p == NodePre(l, r) && p[0] == 1;
    assert |ds| >= 2;
    var k := Split(|ds|);
    NodePreInjective(l, r, Root(sha, ds[..k]), Root(sha, ds[k..]));
  }

  lemma TreePreParts(sha: Sha, ds: seq<Bytes>)
    requires |ds| >= 2
    ensures var k := Split(|ds|);
      TreePre(sha, ds[..k]) <= TreePre(sha, ds) && TreePre(sha, ds[k..]) <= TreePre(sha, ds)
  {
  }

  ghost predicate Rebuilt(sha: Sha, a: seq<Bytes>, b: seq<Bytes>, start: Bytes, path: seq<Bytes>, s: set<Bytes>) {
    && 1 <= |a| <= |b| && |path| == |Ops(|a|, |b|)|
    && Roots(sha, start, Ops(|a|, |b|), path) == (Root(sha, a), Root(sha, b))
    && TreePre(sha, a) <= s && TreePre(sha, b) <= s && RootsPre(sha, start, Ops(|a|, |b|), path) <= s
  }

  /** The last operation taken off, when it joined the second tree only. */
  lemma PeelSecondOnly(sha: Sha, a: seq<Bytes>, b: seq<Bytes>, start: Bytes, path: seq<Bytes>, s: set<Bytes>, k: nat)
    requires Rebuilt(sha, a, b, start, path, s) && NoCollision(sha, s)
    requires |a| < |b| && k == Split(|b|) && |a| <= k
    ensures Rebuilt(sha, a, b[..k], start, path[..|path| - 1], s)
  {
    hide Split, SplitFrom, IsPow2, Ops, Roots, RootsPre, TreePre, Root, NoCollision, NodeHash, NodePre;
    var q, c := path[..|path| - 1], path[|path| - 1];
    var ops := Ops(|a|, k);
    Snoc(path);
    TreePreParts(sha, b);
    OpsLeft(|a|, |b|, k);
    RootsSnoc(sha, start, ops, q, SecondOnly, c);
    RootsPreSnoc(sha, start, ops, q, SecondOnly, c);
    if |a| < k {
      SecondRootIsDigest(sha, start, ops, q);
    } else {
      EmptyRoots(sha, start, ops, q);
    }
    JoinIsTheSplit(sha, b, Roots(sha, start, ops, q).1, c, s);
  }

  /** The last operation taken off, when it joined both trees: their left parts agree. */
  lemma PeelBoth(sha: Sha, a: seq<Bytes>, b: seq<Bytes>, start: Bytes, path: seq<Bytes>, s: set<Bytes>, k: nat)
    requires Rebuilt(sha, a, b, start, path, s) && NoCollision(sha, s)
    requires |a| < |b| && k == Split(|b|) && k < |a|
    ensures Rebuilt(sha, a[k..], b[k..], start, path[..|path| - 1], s)
    ensures a[..k] == b[..k]
  {
    hide Split, SplitFrom, IsPow2, Ops, Roots, RootsPre, TreePre, Root, NoCollision, NodeHash, NodePre;
    var q, c := path[..|path| - 1], path[|path| - 1];
    var ops := Ops(|a| - k, |b| - k);
    Snoc(path);
    TreePreParts(sha, a);
    TreePreParts(sha, b);
    OpsRight(|a|, |b|, k);
    RootsSnoc(sha, start, ops, q, Both, c);
    RootsPreSnoc(sha, start, ops, q, Both, c);
    var (fr, sr) := Roots(sha, start, ops, q);
    SecondRootIsDigest(sha, start, ops, q);
    JoinIsTheSplit(sha, b, c, sr, s);
    JoinIsTheSplit(sha, a, c, fr, s);
    NoCollisionSubset(sha, TreePre(sha, a[..k]) + TreePre(sha, b[..k]), s);
    EqualRootsEqualLeaves(sha, a[..k], b[..k]);
  }

  lemma RebuiltSameSize(sha: Sha, a: seq<Bytes>, b: seq<Bytes>, start: Bytes, path: seq<Bytes>, s: set<Bytes>)
    requires Rebuilt(sha, a, b, start, path, s) && NoCollision(sha, s) && |a| == |b|
    ensures a == b[..|a|]
  {
    NoCollisionSubset(sha, TreePre(sha, a) + TreePre(sha, b), s);
    EqualRootsEqualLeaves(sha, a, b);
  }

  lemma {:induction false} RebuiltMeansPrefix(sha: Sha, a: seq<Bytes>, b: seq<Bytes>, start: Bytes,
                                              path: seq<Bytes>, s: set<Bytes>)
    requires Rebuilt(sha, a, b, start, path, s) && NoCollision(sha, s)
    ensures |a| <= |b| && a == b[..|a|]
    decreases |b|
  {
    RebuiltSizes(sha, a, b, start, path, s);
    hide *;
    var m, n := |a|, |b|;
    if m == n {
      RebuiltSameSize(sha, a, b, start, path, s);
    } else {
      var k := Split(n);
      if m <= k {
        PeelSecondOnly(sha, a, b, start, path, s, k);
        RebuiltMeansPrefix(sha, a, b[..k], start, path[..|path| - 1], s);
      } else {
        PeelBoth(sha, a, b, start, path, s, k);
        RebuiltMeansPrefix(sha, a[k..], b[k..], start, path[..|path| - 1], s);
        PrefixGlue(a, b, k);
      }
    }
  }

  lemma RebuiltSizes(sha: Sha, a: seq<Bytes>, b: seq<Bytes>, start: Bytes, path: seq<Bytes>, s: set<Bytes>)
    requires Rebuilt(sha, a, b, start, path, s)
    ensures 1 <= |a| <= |b| && (|a| < |b| ==> |path| > 0)
  {
  }

  lemma PrefixGlue(a: seq<Bytes>, b: seq<Bytes>, k: nat)
    requires k <= |a| <= |b| && a[..k] == b[..k] && a[k..] == b[k..][..|a| - k]
    ensures a == b[..|a|]
  {
    assert a == a[..k] + a[k..] && b[..|a|] == b[..k] + b[k..][..|a| - k];
  }

  lemma EmptyRoots(sha: Sha, start: Bytes, ops: seq<Op>, path: seq<Bytes>)
    requires |ops| == |path| && ops == []
    ensures Roots(sha, start, ops, path) == (start, start)
  {
  }

  lemma NoCollisionSubset(sha: Sha, t: set<Bytes>, s: set<Bytes>)
    requires NoCollision(sha, s) && t <= s
    ensures NoCollision(sha, t)
  {
  }

  /** The strings hashed in one verification, for the hypothesis of the theorem below. */
  function CheckPre(sha: Sha, first: nat, second: nat, firstRoot: Bytes, proof: seq<Bytes>): set<Bytes>
    requires 1 <= first <= second
  {
    var path := FullPath(first, firstRoot, proof);
    if |path| == |Ops(first, second)| + 1 then RootsPre(sha, path[0], Ops(first, second), path[1..]) else {}
  }

  /** Accepted against the roots of two leaf lists: the first list is a prefix of the second. */
  lemma AcceptedMeansPrefix(sha: Sha, a: seq<Bytes>, b: seq<Bytes>, proof: seq<Bytes>)
    requires Accepts(sha, |a|, |b|, Root(sha, a), Root(sha, b), proof)
    requires NoCollision(sha, TreePre(sha, a) + TreePre(sha, b) + CheckPre(sha, |a|, |b|, Root(sha, a), proof))
    ensures a <= b
  {
    var s := TreePre(sha, a) + TreePre(sha, b) + CheckPre(sha, |a|, |b|, Root(sha, a), proof);
    if |a| == |b| {
      NoCollisionSubset(sha, TreePre(sha, a) + TreePre(sha, b), s);
      EqualRootsEqualLeaves(sha, a, b);
    } else {
      var path := FullPath(|a|, Root(sha, a), proof);
      RebuiltMeansPrefix(sha, a, b, path[0], path[1..], s);
    }
  }

  // ---------- the bit loop ----------

  /** `a & b`. */
  function BitAnd(a: nat, b: nat): nat {
    if a == 0 || b == 0 then 0 else (a % 2) * (b % 2) + 2 * BitAnd(a / 2, b / 2)
  }

  lemma {:induction false} BitAndSelf(n: nat)
    ensures BitAnd(n, n) == n
  {
    if n > 0 {
      BitAndSelf(n / 2);
    }
  }

  /** `n & (n - 1) == 0` is the power-of-two test. */
  lemma {:induction false} PowerTest(n: nat)
    requires n >= 1
    ensures BitAnd(n, n - 1) == 0 <==> IsPow2(n)
  {
    if n > 1 {
      if n % 2 == 0 {
        PowerTest(n / 2);
        assert (n - 1) / 2 == n / 2 - 1;
      } else {
        BitAndSelf(n / 2);
        assert (n - 1) / 2 == n / 2;
      }
    }
  }

  /** The operations seen from node indices: `fn` and `sn` are the last nodes of the two trees,
      and nothing below them is shared any more. */
  function IndexOps(fn: nat, sn: nat): (ops: seq<Op>)
    requires fn <= sn
    ensures ops == [] <==> sn == 0
    decreases sn
  {
    if sn == 0 then []
    else
      var k := Split(sn + 1);
      if fn < k then IndexOps(fn, k - 1) + [SecondOnly] else IndexOps(fn - k, sn - k) + [Both]
  }

  /** What the lowest layer contributes; nothing when both last nodes are promoted together. */
  function LowOp(fn: nat, sn: nat): seq<Op> {
    if fn % 2 == 1 then [Both] else if fn == sn then [] else [SecondOnly]
  }

  lemma IndexOpsLeft(fn: nat, sn: nat, k: nat)
    requires fn <= sn && sn >= 1 && k == Split(sn + 1) && fn < k
    ensures IndexOps(fn, sn) == IndexOps(fn, k - 1) + [SecondOnly]
  {
  }

  lemma IndexOpsRight(fn: nat, sn: nat, k: nat)
    requires fn <= sn && sn >= 1 && k == Split(sn + 1) && k <= fn
    ensures IndexOps(fn, sn) == IndexOps(fn - k, sn - k) + [Both]
  {
  }

  /** One turn of the loop takes one layer off the bottom. */
  lemma {:induction false} OneLayer(fn: nat, sn: nat)
    requires fn <= sn && sn >= 1
    ensures IndexOps(fn, sn) == LowOp(fn, sn) + IndexOps(fn / 2, sn / 2)
    decreases sn, 1
  {
    if sn == 1 {
      assert Split(2) == 1;
    } else {
      var k := Split(sn + 1);
      SplitHalves(sn + 1);
      assert (sn + 2) / 2 == sn / 2 + 1;
      if fn < k {
        OneLayerLeft(fn, sn, k, k / 2);
      } else {
        OneLayerRight(fn, sn, k, k / 2);
      }
    }
  }

  lemma {:induction false} OneLayerLeft(fn: nat, sn: nat, k: nat, h: nat)
    requires 2 <= sn && fn <= sn && k == Split(sn + 1) && fn < k
    requires k == 2 * h && h == Split(sn / 2 + 1) && sn / 2 >= 1
    ensures IndexOps(fn, sn) == LowOp(fn, sn) + IndexOps(fn / 2, sn / 2)
    decreases sn, 0
  {
    hide *;
    OneLayer(fn, k - 1);
    assert (k - 1) / 2 == h - 1 && fn / 2 < h;
    IndexOpsLeft(fn, sn, k);
    IndexOpsLeft(fn / 2, sn / 2, h);
    LowOpLeft(fn, sn, k);
    Assoc(LowOp(fn, sn), IndexOps(fn / 2, h - 1), [SecondOnly]);
  }

  lemma LowOpLeft(fn: nat, sn: nat, k: nat)
    requires fn < k <= sn && k % 2 == 0
    ensures LowOp(fn, k - 1) == LowOp(fn, sn)
  {
  }

  lemma LowOpRight(fn: nat, sn: nat, k: nat)
    requires k <= fn <= sn && k % 2 == 0
    ensures LowOp(fn - k, sn - k) == LowOp(fn, sn)
  {
    assert (fn - k) % 2 == fn % 2;
  }

  lemma {:induction false} OneLayerRight(fn: nat, sn: nat, k: nat, h: nat)
    requires 2 <= sn && fn <= sn && k == Split(sn + 1) && k <= fn
    requires k == 2 * h && h == Split(sn / 2 + 1) && sn / 2 >= 1
    ensures IndexOps(fn, sn) == LowOp(fn, sn) + IndexOps(fn / 2, sn / 2)
    decreases sn, 0
  {
    hide *;
    assert (fn - k) / 2 == fn / 2 - h && (sn - k) / 2 == sn / 2 - h;
    IndexOpsRight(fn, sn, k);
    IndexOpsRight(fn / 2, sn / 2, h);
    LowOpRight(fn, sn, k);
    if sn - k >= 1 {
      OneLayer(fn - k, sn - k);
    } else {
      NothingLow(fn, sn);
    }
    Assoc(LowOp(fn, sn), IndexOps(fn / 2 - h, sn / 2 - h), [Both]);
  }

  lemma NothingLow(fn: nat, sn: nat)
    requires fn == sn && sn % 2 == 0
    ensures LowOp(fn, sn) == []
  {
  }

  /** Shared bottom layers do not matter: the stripping loop at the start. */
  lemma {:induction false} StripLayer(m: nat, n: nat)
    requires 1 <= m < n && m % 2 == 0
    ensures Ops(m, n) == Ops(m / 2, (n + 1) / 2)
    decreases n
  {
    hide *;
    var k := Split(n);
    SplitHalves(n);
    var h, g, l := k / 2, m / 2, (n + 1) / 2;
    assert k == 2 * h && m == 2 * g;
    if m <= k {
      if m < k {
        StripLayer(m, k);
        assert (k + 1) / 2 == h;
      } else {
        SameSize(m, k);
        SameSize(g, h);
      }
      OpsLeft(m, n, k);
      OpsLeft(g, l, h);
    } else {
      StripLayer(m - k, n - k);
      assert (m - k) / 2 == g - h && (n - k + 1) / 2 == l - h;
      OpsRight(m, n, k);
      OpsRight(g, l, h);
    }
  }

  lemma SameSize(m: nat, n: nat)
    requires 1 <= m == n
    ensures Ops(m, n) == []
  {
  }

  lemma OneAndTwo()
    ensures Ops(1, 2) == IndexOps(0, 1)
  {
    assert Ops(1, 2) == [SecondOnly] && IndexOps(0, 1) == [SecondOnly];
  }

  /** The split of a size over an odd part is even, unless the sizes are one and two. */
  lemma EvenSplit(m: nat, n: nat, k: nat)
    requires 1 <= m < n && m % 2 == 1 && k == Split(n)
    ensures 1 <= k < n && IsPow2(k)
    ensures if k == 1 then n == 2 && m == 1 else k % 2 == 0 && m != k
  {
  }

  /** Once the first tree's last node is a lone leaf, the two descriptions agree. */
  lemma {:induction false} OddIsIndexed(m: nat, n: nat)
    requires 1 <= m < n && m % 2 == 1
    ensures Ops(m, n) == IndexOps(m - 1, n - 1)
    decreases n
  {
    hide *;
    var k := Split(n);
    EvenSplit(m, n, k);
    if k == 1 {
      OneAndTwo();
    } else if m < k {
      OddIsIndexed(m, k);
      OpsLeft(m, n, k);
      IndexOpsLeft(m - 1, n - 1, k);
    } else {
      OddIsIndexed(m - k, n - k);
      OpsRight(m, n, k);
      IndexOpsRight(m - 1, n - 1, k);
    }
  }

  /** The stripping loop: `while fn & 1`. */
  method StripShared(first: nat, second: nat) returns (fn: nat, sn: nat)
    requires 1 <= first < second
    ensures fn <= sn && fn % 2 == 0 && IndexOps(fn, sn) == Ops(first, second)
  {
    hide *;
    fn, sn := first - 1, second - 1;
    while fn % 2 == 1
      invariant fn < sn && Ops(fn + 1, sn + 1) == Ops(first, second)
      decreases fn
    {
      StripLayer(fn + 1, sn + 1);
      assert (fn + 1) / 2 == fn / 2 + 1 && (sn + 1 + 1) / 2 == sn / 2 + 1;
      fn, sn := fn / 2, sn / 2;
    }
    OddIsIndexed(fn + 1, sn + 1);
  }

  /** The inner loop: both last nodes are promoted until they have a left sibling. */
  method SkipPromoted(fn0: nat, sn0: nat) returns (fn: nat, sn: nat)
    requires 0 < fn0 == sn0
    ensures 0 < fn == sn && fn % 2 == 1 && IndexOps(fn, sn) == IndexOps(fn0, sn0)
  {
    fn, sn := fn0, sn0;
    while fn > 0 && fn % 2 == 0
      invariant 0 < fn == sn && IndexOps(fn, sn) == IndexOps(fn0, sn0)
      decreases fn
    {
      OneLayer(fn, sn);
      fn, sn := fn / 2, sn / 2;
    }
  }

  lemma RootsPrefix(sha: Sha, start: Bytes, ops: seq<Op>, path: seq<Bytes>, i: nat)
    requires |ops| >= i + 1 && |path| >= i + 1
    ensures var (fr, sr) := Roots(sha, start, ops[..i], path[..i]);
      Roots(sha, start, ops[..i + 1], path[..i + 1]) ==
        if ops[i] == Both then (NodeHash(sha, path[i], fr), NodeHash(sha, path[i], sr))
        else (fr, NodeHash(sha, sr, path[i]))
  {
    assert ops[..i + 1] == ops[..i] + [ops[i]] && path[..i + 1] == path[..i] + [path[i]];
    RootsSnoc(sha, start, ops[..i], path[..i], ops[i], path[i]);
  }

  /** The main loop, from the stripped indices: the answer is false unless the indices run out
      exactly with the path. */
  method RunPath(sha: Sha, path: seq<Bytes>, fn0: nat, sn0: nat, ghost ops: seq<Op>)
      returns (fr: Bytes, sr: Bytes, done: bool)
    requires path != [] && fn0 <= sn0 && ops == IndexOps(fn0, sn0)
    ensures done <==> |path| == |ops| + 1
    ensures done ==> (fr, sr) == Roots(sha, path[0], ops, path[1..])
  {
    hide *;
    ghost var rest := path[1..];
    var fn, sn := fn0, sn0;
    fr, sr := path[0], path[0];
    EmptyRoots(sha, path[0], ops[..0], rest[..0]);
    var i := 1;
    while i < |path|
      invariant 1 <= i <= |path| && i - 1 <= |ops| && fn <= sn
      invariant ops[i - 1..] == IndexOps(fn, sn)
      invariant (fr, sr) == Roots(sha, path[0], ops[..i - 1], rest[..i - 1])
    {
      if sn == 0 {
        return fr, sr, false;
      }
      var c := path[i];
      fr, sr, fn, sn := Turn(sha, c, fr, sr, fn, sn, ops[i - 1..]);
      assert rest[i - 1] == c && ops[i - 1..][0] == ops[i - 1] && ops[i - 1..][1..] == ops[i..];
      RootsPrefix(sha, path[0], ops, rest, i - 1);
      i := i + 1;
    }
    assert rest[..i - 1] == rest;
    if sn == 0 {
      assert ops[..i - 1] == ops;
    }
    done := sn == 0;
  }

  /** One path node. */
  method Turn(sha: Sha, c: Bytes, fr0: Bytes, sr0: Bytes, fn0: nat, sn0: nat, ghost ops: seq<Op>)
      returns (fr: Bytes, sr: Bytes, fn: nat, sn: nat)
    requires fn0 <= sn0 && sn0 > 0 && ops == IndexOps(fn0, sn0)
    ensures fn <= sn && ops != [] && ops[1..] == IndexOps(fn, sn)
    ensures (fr, sr) == if ops[0] == Both then (NodeHash(sha, c, fr0), NodeHash(sha, c, sr0))
                        else (fr0, NodeHash(sha, sr0, c))
  {
    hide IndexOps;
    fr, sr, fn, sn := fr0, sr0, fn0, sn0;
    if fn % 2 == 1 || fn == sn {
      fr, sr := NodeHash(sha, c, fr), NodeHash(sha, c, sr);
      if fn % 2 == 0 {
        fn, sn := SkipPromoted(fn, sn);
      }
    } else {
      sr := NodeHash(sha, sr, c);
    }
    OneLayer(fn, sn);
    assert ops == LowOp(fn, sn) + IndexOps(fn / 2, sn / 2) && |LowOp(fn, sn)| == 1;
    fn, sn := fn / 2, sn / 2;
  }

  method VerifyConsistency(sha: Sha, first: int, second: int, firstRoot: Bytes, secondRoot: Bytes, proof: seq<Bytes>)
      returns (ok: bool)
    ensures ok <==> Accepts(sha, first, second, firstRoot, secondRoot, proof)
  {
    if first < 1 || second < first {
      return false;
    }
    if first == second {
      return proof == [] && firstRoot == secondRoot;
    }
    var path := proof;
    PowerTest(first);
    if BitAnd(first, first - 1) == 0 {
      path := [firstRoot] + path;
    }
    if path == [] {
      return false;
    }
    var fn, sn := StripShared(first, second);
    var fr, sr, done := RunPath(sha, path, fn, sn, Ops(first, second));
    ok := fr == firstRoot && sr == secondRoot && done;
  }
}
