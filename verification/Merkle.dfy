/** The RFC 6962 tree of PALA-1: root, and inclusion proofs. */
module Merkle {
  /* The code builds the tree bottom-up, pairing a layer at a time and promoting an unpaired last
     node; the RFC defines it top-down, splitting at the largest power of two below the size. `Mth`
     and `RecPath` are the top-down definitions; the methods are the code's loops. */

  import opened Bytes

  // ---------- hashing ----------

  function LeafPre(d: Bytes): Bytes { [0] + d }

  function NodePre(l: Bytes, r: Bytes): Bytes { [1] + l + r }

  function LeafHash(sha: Sha, d: Bytes): Digest { sha(LeafPre(d)) }

  function NodeHash(sha: Sha, l: Bytes, r: Bytes): Digest { sha(NodePre(l, r)) }

  function LeafHashes(sha: Sha, ds: seq<Bytes>): (nodes: seq<Digest>)
    ensures |nodes| == |ds|
    ensures forall i :: 0 <= i < |ds| ==> nodes[i] == LeafHash(sha, ds[i])
  {
    seq(|ds|, i requires 0 <= i < |ds| => LeafHash(sha, ds[i]))
  }

  // ---------- the split point ----------

  function Pow2(h: nat): (p: nat)
    ensures p >= 1
  {
    if h == 0 then 1 else 2 * Pow2(h - 1)
  }

  predicate IsPow2(n: nat) {
    n == 1 || (n > 1 && n % 2 == 0 && IsPow2(n / 2))
  }

  lemma {:induction false} PowersDouble(a: nat, b: nat)
    requires IsPow2(a) && IsPow2(b) && a < b
    ensures 2 * a <= b
  {
    if a > 1 {
      PowersDouble(a / 2, b / 2);
    }
  }

  /** The largest power of two below `n`, by doubling from `k`. */
  function SplitFrom(k: nat, n: nat): (r: nat)
    requires IsPow2(k) && k < n
    ensures IsPow2(r) && r < n <= 2 * r
    decreases n - k
  {
    if k * 2 < n then SplitFrom(k * 2, n) else k
  }

  function Split(n: nat): (k: nat)
    requires n >= 2
    ensures IsPow2(k) && 1 <= k < n <= 2 * k
  {
    SplitFrom(1, n)
  }

  lemma SplitUnique(n: nat, k: nat)
    requires n >= 2 && IsPow2(k) && k < n <= 2 * k
    ensures k == Split(n)
  {
    if k < Split(n) {
      PowersDouble(k, Split(n));
    } else if Split(n) < k {
      PowersDouble(Split(n), k);
    }
  }

  /** Halving the size (rounding up) halves the split point: why pairing respects the split. */
  lemma SplitHalves(n: nat)
    requires n > 2
    ensures Split(n) % 2 == 0 && Split(n) / 2 == Split((n + 1) / 2)
  {
    SplitUnique((n + 1) / 2, Split(n) / 2);
  }

  method LargestPowerBelow(n: nat) returns (k: nat)
    requires n >= 1
    ensures n >= 2 ==> k == Split(n)
    ensures n == 1 ==> k == 1
  {
    k := 1;
    while k * 2 < n
      invariant IsPow2(k) && (k == 1 || k < n)
      decreases n - k
    {
      k := k * 2;
    }
    if n >= 2 {
      SplitUnique(n, k);
    }
  }

  // ---------- the root ----------

  /** RFC 6962 tree hash over already leaf-hashed nodes. */
  function Mth(sha: Sha, nodes: seq<Bytes>): Bytes
    requires |nodes| >= 1
    decreases |nodes|
  {
    if |nodes| == 1 then nodes[0]
    else
      var k := Split(|nodes|);
      NodeHash(sha, Mth(sha, nodes[..k]), Mth(sha, nodes[k..]))
  }

  lemma MthSplits(sha: Sha, nodes: seq<Bytes>, k: nat)
    requires |nodes| >= 2 && k == Split(|nodes|)
    ensures Mth(sha, nodes) == NodeHash(sha, Mth(sha, nodes[..k]), Mth(sha, nodes[k..]))
  {
  }

  lemma {:induction false} MthIsDigest(sha: Sha, nodes: seq<Digest>)
    requires |nodes| >= 1
    ensures |Mth(sha, nodes)| == DIGEST_LEN
  {
  }

  /** The tree hash of a list of leaves; that of no leaves is the hash of the empty string. */
  function Root(sha: Sha, ds: seq<Bytes>): (r: Digest) {
    if ds == [] then sha([])
    else MthIsDigest(sha, LeafHashes(sha, ds)); Mth(sha, LeafHashes(sha, ds))
  }

  /** Three leaves: which byte goes before what, on which side, and who is paired with whom. */
  lemma RootOfThree(sha: Sha, a: Bytes, b: Bytes, c: Bytes)
    ensures Root(sha, [a, b, c]) == sha([1] + sha([1] + sha([0] + a) + sha([0] + b)) + sha([0] + c))
  {
    var nodes := LeafHashes(sha, [a, b, c]);
    assert IsPow2(2) && Split(3) == 2 && Split(2) == 1;
    assert nodes[..2] == [nodes[0], nodes[1]] && nodes[2..] == [nodes[2]];
    assert nodes[..2][..1] == [nodes[0]] && nodes[..2][1..] == [nodes[1]];
    assert Mth(sha, nodes[..2]) == NodeHash(sha, nodes[0], nodes[1]);
    assert Mth(sha, nodes[2..]) == nodes[2];
    MthSplits(sha, nodes, 2);
    assert nodes[0] == sha([0] + a) && nodes[1] == sha([0] + b) && nodes[2] == sha([0] + c);
  }

  /** One pairing pass: neighbours are joined, an unpaired last node is promoted. */
  function NextLayer(sha: Sha, layer: seq<Bytes>): (nxt: seq<Bytes>)
    ensures |nxt| == (|layer| + 1) / 2
  {
    seq((|layer| + 1) / 2, j requires 0 <= j < (|layer| + 1) / 2 =>
      if 2 * j + 1 < |layer| then NodeHash(sha, layer[2 * j], layer[2 * j + 1]) else layer[2 * j])
  }

  lemma NextLayerPrefix(sha: Sha, layer: seq<Bytes>, h: nat)
    requires 2 * h <= |layer|
    ensures NextLayer(sha, layer)[..h] == NextLayer(sha, layer[..2 * h])
  {
  }

  lemma NextLayerSuffix(sha: Sha, layer: seq<Bytes>, h: nat)
    requires 2 * h <= |layer|
    ensures NextLayer(sha, layer)[h..] == NextLayer(sha, layer[2 * h..])
  {
    var a, b := NextLayer(sha, layer)[h..], NextLayer(sha, layer[2 * h..]);
    assert |a| == |b|;
    forall j | 0 <= j < |b| ensures a[j] == b[j] {
      assert a[j] == NextLayer(sha, layer)[h + j];
    }
  }

  /** Pairing splits where the tree splits. */
  lemma NextLayerSplits(sha: Sha, layer: seq<Bytes>)
    requires |layer| > 2
    ensures var k, h := Split(|layer|), Split((|layer| + 1) / 2);
      && k == 2 * h
      && NextLayer(sha, layer)[..h] == NextLayer(sha, layer[..k])
      && NextLayer(sha, layer)[h..] == NextLayer(sha, layer[k..])
  {
    SplitHalves(|layer|);
    var h := Split((|layer| + 1) / 2);
    NextLayerPrefix(sha, layer, h);
    NextLayerSuffix(sha, layer, h);
  }

  /** A pairing pass keeps the recursive tree hash: the iterative root is the recursive one. */
  lemma {:induction false} PairingKeepsMth(sha: Sha, layer: seq<Bytes>)
    requires |layer| >= 2
    ensures Mth(sha, NextLayer(sha, layer)) == Mth(sha, layer)
    decreases |layer|
  {
    var n := |layer|;
    if n > 2 {
      var k := Split(n);
      NextLayerSplits(sha, layer);
      PairingKeepsMth(sha, layer[..k]);
      if n - k > 1 {
        PairingKeepsMth(sha, layer[k..]);
      }
    } else {
      assert layer[..1][0] == layer[0] && layer[1..][0] == layer[1];
    }
  }

  method PairUp(sha: Sha, layer: seq<Bytes>) returns (nxt: seq<Bytes>)
    requires |layer| >= 1
    ensures nxt == NextLayer(sha, layer)
  {
    nxt := [];
    var i := 0;
    while i + 1 < |layer|
      invariant 0 <= i <= |layer| && i % 2 == 0 && |nxt| == i / 2
      invariant nxt == NextLayer(sha, layer)[..i / 2]
    {
      nxt := nxt + [NodeHash(sha, layer[i], layer[i + 1])];
      i := i + 2;
    }
    if |layer| % 2 == 1 {
      nxt := nxt + [layer[|layer| - 1]];  // promote, do not duplicate
    }
  }

  method MerkleRoot(sha: Sha, leaves: seq<Bytes>) returns (root: Bytes)
    ensures root == Root(sha, leaves)
  {
    if leaves == [] {
      return sha([]);
    }
    var layer: seq<Bytes> := LeafHashes(sha, leaves);
    while |layer| > 1
      invariant |layer| >= 1
      invariant Mth(sha, layer) == Root(sha, leaves)
      decreases |layer|
    {
      PairingKeepsMth(sha, layer);
      layer := PairUp(sha, layer);
    }
    return layer[0];
  }

  // ---------- equal roots mean equal leaves ----------

  /** Every string hashed while the root of `ds` is computed. */
  function TreePre(sha: Sha, ds: seq<Bytes>): set<Bytes>
    decreases |ds|
  {
    if |ds| == 0 then {[]}
    else if |ds| == 1 then {LeafPre(ds[0])}
    else
      var k := Split(|ds|);
      TreePre(sha, ds[..k]) + TreePre(sha, ds[k..]) + {NodePre(Root(sha, ds[..k]), Root(sha, ds[k..]))}
  }

  /** The root of two or more leaves joins the roots of the two parts. */
  lemma RootSplits(sha: Sha, ds: seq<Bytes>)
    requires |ds| >= 2
    ensures var k := Split(|ds|);
      Root(sha, ds) == NodeHash(sha, Root(sha, ds[..k]), Root(sha, ds[k..]))
  {
    var k := Split(|ds|);
    assert LeafHashes(sha, ds)[..k] == LeafHashes(sha, ds[..k]);
    assert LeafHashes(sha, ds)[k..] == LeafHashes(sha, ds[k..]);
  }

  /** The string whose hash is the root. */
  function RootPre(sha: Sha, ds: seq<Bytes>): (p: Bytes)
    ensures p in TreePre(sha, ds)
    ensures sha(p) == Root(sha, ds)
  {
    if |ds| == 0 then []
    else if |ds| == 1 then LeafPre(ds[0])
    else
      var k := Split(|ds|);
      RootSplits(sha, ds);
      NodePre(Root(sha, ds[..k]), Root(sha, ds[k..]))
  }

  lemma NodePreInjective(l: Bytes, r: Bytes, l': Bytes, r': Bytes)
    requires NodePre(l, r) == NodePre(l', r')
    requires |l| == |l'| || |r| == |r'|
    ensures l == l' && r == r'
  {
    var p := NodePre(l, r);
    assert |p| == 1 + |l| + |r| == 1 + |l'| + |r'|;
    assert l == p[1..1 + |l|] && r == p[1 + |l|..];
    assert l' == p[1..1 + |l'|] && r' == p[1 + |l'|..];
  }

  /** The root pins the leaf list, its length included. */
  lemma {:induction false} EqualRootsEqualLeaves(sha: Sha, a: seq<Bytes>, b: seq<Bytes>)
    requires Root(sha, a) == Root(sha, b)
    requires NoCollision(sha, TreePre(sha, a) + TreePre(sha, b))
    ensures a == b
    decreases |a|
  {
    hide *;
    SameRootPre(sha, a, b);
    SamePreimage(sha, a, b);
    if |a| >= 2 {
      var k, m := Split(|a|), Split(|b|);
      PartsCollide(sha, a, b);
      EqualRootsEqualLeaves(sha, a[..k], b[..m]);
      EqualRootsEqualLeaves(sha, a[k..], b[m..]);
      assert a == a[..k] + a[k..] && b == b[..m] + b[m..];
    }
  }

  lemma SameRootPre(sha: Sha, a: seq<Bytes>, b: seq<Bytes>)
    requires Root(sha, a) == Root(sha, b) && NoCollision(sha, TreePre(sha, a) + TreePre(sha, b))
    ensures RootPre(sha, a) == RootPre(sha, b)
  {
    var p, q := RootPre(sha, a), RootPre(sha, b);
    hide RootPre, TreePre, Root;
    assert p in TreePre(sha, a) + TreePre(sha, b) && q in TreePre(sha, a) + TreePre(sha, b);
  }

  /** Equal root preimages: the same kind of tree, with the same parts. */
  lemma SamePreimage(sha: Sha, a: seq<Bytes>, b: seq<Bytes>)
    requires RootPre(sha, a) == RootPre(sha, b)
    ensures (|a| >= 2 <==> |b| >= 2) && (|a| < 2 ==> a == b)
    ensures |a| >= 2 ==> (
      var k, m := Split(|a|), Split(|b|);
      Root(sha, a[..k]) == Root(sha, b[..m]) && Root(sha, a[k..]) == Root(sha, b[m..]))
  {
    hide TreePre, Root, Split;
    var p, q := RootPre(sha, a), RootPre(sha, b);
    PreimageKind(sha, a);
    PreimageKind(sha, b);
    if |a| >= 2 {
      var k, m := Split(|a|), Split(|b|);
      NodePreInjective(Root(sha, a[..k]), Root(sha, a[k..]), Root(sha, b[..m]), Root(sha, b[m..]));
    } else if |a| == 1 {
      assert p[1..] == a[0] && q[1..] == b[0];
    }
  }

  lemma PreimageKind(sha: Sha, ds: seq<Bytes>)
    ensures var p := RootPre(sha, ds);
      if |ds| == 0 then p == [] else p != [] && p[0] == (if |ds| == 1 then 0 else 1)
  {
    hide TreePre, Root, Split;
  }

  lemma PartsCollide(sha: Sha, a: seq<Bytes>, b: seq<Bytes>)
    requires |a| >= 2 && |b| >= 2 && NoCollision(sha, TreePre(sha, a) + TreePre(sha, b))
    ensures var k, m := Split(|a|), Split(|b|);
      && 0 < k < |a| && 0 < m < |b|
      && NoCollision(sha, TreePre(sha, a[..k]) + TreePre(sha, b[..m]))
      && NoCollision(sha, TreePre(sha, a[k..]) + TreePre(sha, b[m..]))
  {
    hide *;
    var k, m := Split(|a|), Split(|b|);
    TreeParts(sha, a);
    TreeParts(sha, b);
    var all := TreePre(sha, a) + TreePre(sha, b);
    FewerStrings(sha, TreePre(sha, a[..k]) + TreePre(sha, b[..m]), all);
    FewerStrings(sha, TreePre(sha, a[k..]) + TreePre(sha, b[m..]), all);
  }

  lemma TreeParts(sha: Sha, ds: seq<Bytes>)
    requires |ds| >= 2
    ensures var k := Split(|ds|);
      TreePre(sha, ds[..k]) <= TreePre(sha, ds) && TreePre(sha, ds[k..]) <= TreePre(sha, ds)
  {
    hide Root, Split;
  }

  lemma FewerStrings(sha: Sha, s: set<Bytes>, all: set<Bytes>)
    requires NoCollision(sha, all) && s <= all
    ensures NoCollision(sha, s)
  {
  }

  // ---------- inclusion proofs ----------

  datatype Side = L | R
  datatype Step = Step(side: Side, sib: Bytes)

  function Join(sha: Sha, h: Bytes, s: Step): Digest {
    if s.side == L then NodeHash(sha, s.sib, h) else NodeHash(sha, h, s.sib)
  }

  /** What the verifier's loop computes from a leaf hash and a path. */
  function Fold(sha: Sha, h: Bytes, path: seq<Step>): Bytes {
    if path == [] then h else Join(sha, Fold(sha, h, path[..|path| - 1]), path[|path| - 1])
  }

  /** The sibling that one layer contributes; none when the node is promoted. */
  function LayerStep(layer: seq<Bytes>, idx: nat): (s: seq<Step>)
    requires idx < |layer|
    ensures |s| <= 1
  {
    if idx % 2 == 1 then [Step(L, layer[idx - 1])]
    else if idx + 1 < |layer| then [Step(R, layer[idx + 1])]
    else []
  }

  /** The path of leaf `i`, top-down: the path inside its part, then the other part's hash. */
  function RecPath(sha: Sha, nodes: seq<Bytes>, i: nat): seq<Step>
    requires i < |nodes|
    decreases |nodes|
  {
    if |nodes| == 1 then []
    else
      var k := Split(|nodes|);
      if i < k then RecPath(sha, nodes[..k], i) + [Step(R, Mth(sha, nodes[k..]))]
      else RecPath(sha, nodes[k..], i - k) + [Step(L, Mth(sha, nodes[..k]))]
  }

  lemma PathLeft(sha: Sha, nodes: seq<Bytes>, i: nat, k: nat)
    requires |nodes| >= 2 && k == Split(|nodes|) && i < k
    ensures RecPath(sha, nodes, i) == RecPath(sha, nodes[..k], i) + [Step(R, Mth(sha, nodes[k..]))]
  {
  }

  lemma PathRight(sha: Sha, nodes: seq<Bytes>, i: nat, k: nat)
    requires |nodes| >= 2 && k == Split(|nodes|) && k <= i < |nodes|
    ensures RecPath(sha, nodes, i) == RecPath(sha, nodes[k..], i - k) + [Step(L, Mth(sha, nodes[..k]))]
  {
  }

  lemma LayerStepOfPrefix(layer: seq<Bytes>, k: nat, i: nat)
    requires k % 2 == 0 && i < k <= |layer|
    ensures LayerStep(layer[..k], i) == LayerStep(layer, i)
  {
  }

  lemma LayerStepOfSuffix(layer: seq<Bytes>, k: nat, i: nat)
    requires k % 2 == 0 && k <= i < |layer|
    ensures LayerStep(layer[k..], i - k) == LayerStep(layer, i)
  {
    var parity := (i - k) % 2;
    assert parity == i % 2;
  }

  lemma {:induction false} PairingKeepsMthAny(sha: Sha, layer: seq<Bytes>)
    requires |layer| >= 1
    ensures Mth(sha, NextLayer(sha, layer)) == Mth(sha, layer)
  {
    if |layer| >= 2 {
      PairingKeepsMth(sha, layer);
    }
  }

  /** A path equation of the left part, extended to the whole layer. */
  lemma ExtendLeft(sha: Sha, layer: seq<Bytes>, nxt: seq<Bytes>, i: nat, j: nat)
    requires |layer| > 2 && nxt == NextLayer(sha, layer) && i < Split(|layer|) && j < Split(|nxt|)
    requires var k, h := Split(|layer|), Split(|nxt|);
      RecPath(sha, layer[..k], i) == LayerStep(layer[..k], i) + RecPath(sha, nxt[..h], j)
    ensures RecPath(sha, layer, i) == LayerStep(layer, i) + RecPath(sha, nxt, j)
  {
    hide *;
    var k, h := Split(|layer|), Split(|nxt|);
    NextLayerSplits(sha, layer);
    PairingKeepsMthAny(sha, layer[k..]);
    PathLeft(sha, layer, i, k);
    PathLeft(sha, nxt, j, h);
    var own, inner, rest := LayerStep(layer, i), RecPath(sha, nxt[..h], j), [Step(R, Mth(sha, layer[k..]))];
    Assoc(own, inner, rest);
    assert RecPath(sha, nxt, j) == inner + rest;
    LayerStepOfPrefix(layer, k, i);
  }

  lemma ExtendRight(sha: Sha, layer: seq<Bytes>, nxt: seq<Bytes>, i: nat, j: nat)
    requires |layer| > 2 && nxt == NextLayer(sha, layer) && Split(|layer|) <= i < |layer| && Split(|nxt|) <= j < |nxt|
    requires var k, h := Split(|layer|), Split(|nxt|);
      RecPath(sha, layer[k..], i - k) == LayerStep(layer[k..], i - k) + RecPath(sha, nxt[h..], j - h)
    ensures RecPath(sha, layer, i) == LayerStep(layer, i) + RecPath(sha, nxt, j)
  {
    hide *;
    var k, h := Split(|layer|), Split(|nxt|);
    NextLayerSplits(sha, layer);
    PairingKeepsMthAny(sha, layer[..k]);
    PathRight(sha, layer, i, k);
    PathRight(sha, nxt, j, h);
    var own, inner, rest := LayerStep(layer, i), RecPath(sha, nxt[h..], j - h), [Step(L, Mth(sha, layer[..k]))];
    Assoc(own, inner, rest);
    assert RecPath(sha, nxt, j) == inner + rest;
    LayerStepOfSuffix(layer, k, i);
  }

  lemma PairingKeepsShortPath(sha: Sha, layer: seq<Bytes>, i: nat)
    requires 1 <= |layer| <= 2 && i < |layer|
    ensures |NextLayer(sha, layer)| == 1
    ensures RecPath(sha, layer, i) == LayerStep(layer, i) + RecPath(sha, NextLayer(sha, layer), 0)
  {
    if |layer| == 2 {
      if i == 0 {
        PathLeft(sha, layer, i, 1);
      } else {
        PathRight(sha, layer, i, 1);
      }
    }
  }

  /** A pairing pass takes exactly its own sibling off the front of the path. */
  lemma {:induction false} PairingKeepsPath(sha: Sha, layer: seq<Bytes>, nxt: seq<Bytes>, i: nat, j: nat)
    requires |layer| >= 1 && i < |layer| && nxt == NextLayer(sha, layer) && j == i / 2
    ensures j < |nxt|
    ensures RecPath(sha, layer, i) == LayerStep(layer, i) + RecPath(sha, nxt, j)
    decreases |layer|
  {
    if |layer| <= 2 {
      PairingKeepsShortPath(sha, layer, i);
    } else {
      hide *;
      NextLayerSplits(sha, layer);
      var k, h := Split(|layer|), Split(|nxt|);
      if i < k {
        PairingKeepsPath(sha, layer[..k], nxt[..h], i, j);
        ExtendLeft(sha, layer, nxt, i, j);
      } else {
        PairingKeepsPath(sha, layer[k..], nxt[h..], i - k, j - h);
        ExtendRight(sha, layer, nxt, i, j);
      }
    }
  }

  method MerkleProof(sha: Sha, leaves: seq<Bytes>, index: nat) returns (proof: seq<Step>)
    requires index < |leaves|
    ensures proof == RecPath(sha, LeafHashes(sha, leaves), index)
  {
    var layer: seq<Bytes> := LeafHashes(sha, leaves);
    ghost var whole := RecPath(sha, layer, index);
    var idx: nat := index;
    proof := [];
    while |layer| > 1
      invariant idx < |layer|
      invariant whole == proof + RecPath(sha, layer, idx)
      decreases |layer|
    {
      PairingKeepsPath(sha, layer, NextLayer(sha, layer), idx, idx / 2);
      var found, nxt := LayerPass(sha, layer, idx);
      proof, layer, idx := proof + found, nxt, idx / 2;
    }
  }

  /** The body of the proof loop: pair the layer up and note the sibling of `idx` on the way. */
  method LayerPass(sha: Sha, layer: seq<Bytes>, idx: nat) returns (found: seq<Step>, nxt: seq<Bytes>)
    requires idx < |layer|
    ensures found == LayerStep(layer, idx)
    ensures nxt == NextLayer(sha, layer)
  {
    found, nxt := [], [];
    var i := 0;
    while i + 1 < |layer|
      invariant 0 <= i <= |layer| && i % 2 == 0 && |nxt| == i / 2
      invariant nxt == NextLayer(sha, layer)[..i / 2]
      invariant found == if idx < i then LayerStep(layer, idx) else []
    {
      if i == idx {
        found := found + [Step(R, layer[i + 1])];
      } else if i + 1 == idx {
        found := found + [Step(L, layer[i])];
      }
      nxt := nxt + [NodeHash(sha, layer[i], layer[i + 1])];
      i := i + 2;
    }
    if |layer| % 2 == 1 {
      nxt := nxt + [layer[|layer| - 1]];
    }
  }

  method VerifyProof(sha: Sha, leaf: Bytes, proof: seq<Step>, root: Bytes) returns (ok: bool)
    ensures ok == (Fold(sha, LeafHash(sha, leaf), proof) == root)
  {
    var h: Bytes := LeafHash(sha, leaf);
    for i := 0 to |proof|
      invariant h == Fold(sha, LeafHash(sha, leaf), proof[..i])
    {
      var s := proof[i];
      assert proof[..i + 1][..i] == proof[..i];
      h := if s.side == L then NodeHash(sha, s.sib, h) else NodeHash(sha, h, s.sib);
    }
    assert proof[..|proof|] == proof;
    ok := h == root;
  }

  /** The proof built for any index folds to the root. */
  lemma {:induction false} RecPathFolds(sha: Sha, nodes: seq<Bytes>, i: nat)
    requires i < |nodes|
    ensures Fold(sha, nodes[i], RecPath(sha, nodes, i)) == Mth(sha, nodes)
    decreases |nodes|
  {
    if |nodes| >= 2 {
      var k := Split(|nodes|);
      var path := RecPath(sha, nodes, i);
      if i < k {
        RecPathFolds(sha, nodes[..k], i);
        assert path[..|path| - 1] == RecPath(sha, nodes[..k], i);
      } else {
        RecPathFolds(sha, nodes[k..], i - k);
        assert path[..|path| - 1] == RecPath(sha, nodes[k..], i - k);
      }
    }
  }

  /** At most ceil(log2 n) steps: one step fewer still cannot reach `n` leaves. */
  lemma {:induction false} ProofIsShort(sha: Sha, nodes: seq<Bytes>, i: nat)
    requires i < |nodes|
    ensures var len := |RecPath(sha, nodes, i)|; len > 0 ==> Pow2(len - 1) < |nodes|
    decreases |nodes|
  {
    hide *;
    if |nodes| >= 2 {
      var k := Split(|nodes|);
      if i < k {
        ProofIsShort(sha, nodes[..k], i);
        PowerBound(|RecPath(sha, nodes[..k], i)|, k);
        PathLeft(sha, nodes, i, k);
      } else {
        ProofIsShort(sha, nodes[k..], i - k);
        PowerBound(|RecPath(sha, nodes[k..], i - k)|, k);
        PathRight(sha, nodes, i, k);
      }
    } else {
      NoPath(sha, nodes, i);
    }
  }

  lemma NoPath(sha: Sha, nodes: seq<Bytes>, i: nat)
    requires i < |nodes| == 1
    ensures RecPath(sha, nodes, i) == []
  {
  }

  /** A power of two below twice the power of two `k` is at most `k`. */
  lemma PowerBound(len: nat, k: nat)
    requires IsPow2(k) && (len > 0 ==> Pow2(len - 1) < k)
    ensures Pow2(len) <= k
  {
    if len > 0 {
      Pow2IsPow2(len - 1);
      PowersDouble(Pow2(len - 1), k);
    }
  }

  lemma Pow2IsPow2(h: nat)
    ensures IsPow2(Pow2(h))
  {
  }

  /** Every string hashed while a proof is checked. */
  function PathPre(sha: Sha, leaf: Bytes, path: seq<Step>): set<Bytes> {
    if path == [] then {LeafPre(leaf)}
    else
      var last, rest := path[|path| - 1], path[..|path| - 1];
      var h := Fold(sha, LeafHash(sha, leaf), rest);
      PathPre(sha, leaf, rest) + {if last.side == L then NodePre(last.sib, h) else NodePre(h, last.sib)}
  }

  lemma FoldIsDigest(sha: Sha, leaf: Bytes, path: seq<Step>)
    ensures |Fold(sha, LeafHash(sha, leaf), path)| == DIGEST_LEN
  {
  }

  /** The last step of an accepted path joins the two parts of the tree. */
  lemma LastStepIsTheSplit(sha: Sha, ds: seq<Bytes>, h: Digest, last: Step, s: set<Bytes>)
    requires |ds| >= 1
    requires Join(sha, h, last) == Root(sha, ds)
    requires NoCollision(sha, s) && TreePre(sha, ds) <= s
    requires (if last.side == L then NodePre(last.sib, h) else NodePre(h, last.sib)) in s
    ensures |ds| >= 2
    ensures var k := Split(|ds|);
      if last.side == L then last.sib == Root(sha, ds[..k]) && h == Root(sha, ds[k..])
      else h == Root(sha, ds[..k]) && last.sib == Root(sha, ds[k..])
  {
    var p := RootPre(sha, ds);
    var q := if last.side == L then NodePre(last.sib, h) else NodePre(h, last.sib);
    assert p == q && q[0] == 1;
    assert |ds| >= 2;
    var k := Split(|ds|);
    if last.side == L {
      NodePreInjective(last.sib, h, Root(sha, ds[..k]), Root(sha, ds[k..]));
    } else {
      NodePreInjective(h, last.sib, Root(sha, ds[..k]), Root(sha, ds[k..]));
    }
  }

  lemma HashedParts(sha: Sha, ds: seq<Bytes>, k: nat)
    requires k <= |ds|
    ensures LeafHashes(sha, ds)[..k] == LeafHashes(sha, ds[..k])
    ensures LeafHashes(sha, ds)[k..] == LeafHashes(sha, ds[k..])
  {
  }

  lemma RootIsMth(sha: Sha, ds: seq<Bytes>)
    requires ds != []
    ensures Root(sha, ds) == Mth(sha, LeafHashes(sha, ds))
  {
    hide Mth, LeafHashes;
  }

  lemma OneLeaf(sha: Sha, ds: seq<Bytes>, leaf: Bytes, s: set<Bytes>)
    requires |ds| >= 1 && Fold(sha, LeafHash(sha, leaf), []) == Root(sha, ds)
    requires NoCollision(sha, s) && TreePre(sha, ds) + PathPre(sha, leaf, []) <= s
    ensures ds == [leaf] && RecPath(sha, LeafHashes(sha, ds), 0) == []
  {
    var p := RootPre(sha, ds);
    PreimageKind(sha, ds);
    LeafIsHashed(sha, leaf);
    hide TreePre, RecPath, Root, PathPre, Split;
    assert p == LeafPre(leaf) && p[0] == 0;
    assert |ds| == 1 && p[1..] == ds[0] && p[1..] == leaf;
    NoPath(sha, LeafHashes(sha, ds), 0);
  }

  lemma LeafIsHashed(sha: Sha, leaf: Bytes)
    ensures LeafPre(leaf) in PathPre(sha, leaf, []) && Fold(sha, LeafHash(sha, leaf), []) == sha(LeafPre(leaf))
  {
  }

  /** The last step of a path, and the path before it. */
  lemma PathParts(sha: Sha, ds: seq<Bytes>, leaf: Bytes, path: seq<Step>, s: set<Bytes>)
    requires path != [] && TreePre(sha, ds) + PathPre(sha, leaf, path) <= s
    requires Fold(sha, LeafHash(sha, leaf), path) == Root(sha, ds)
    ensures var last, rest := path[|path| - 1], path[..|path| - 1];
      var h := Fold(sha, LeafHash(sha, leaf), rest);
      && |h| == DIGEST_LEN && Join(sha, h, last) == Root(sha, ds) && TreePre(sha, ds) <= s
      && PathPre(sha, leaf, rest) <= s && (if last.side == L then NodePre(last.sib, h) else NodePre(h, last.sib)) in s
      && rest + [last] == path
  {
    hide TreePre, Root, Join, NodePre, LeafHash;
    Snoc(path);
    FoldIsDigest(sha, leaf, path[..|path| - 1]);
    var last, rest := path[|path| - 1], path[..|path| - 1];
    var h := Fold(sha, LeafHash(sha, leaf), rest);
    assert (if last.side == L then NodePre(last.sib, h) else NodePre(h, last.sib)) in PathPre(sha, leaf, path);
    assert PathPre(sha, leaf, rest) <= PathPre(sha, leaf, path);
  }

  /** An accepted proof is the proof of a real leaf: there is an index whose leaf and whose whole
      path they are. Sibling lengths are not assumed; equal preimages force them. */
  lemma {:induction false} AcceptedIsCanonical(sha: Sha, ds: seq<Bytes>, leaf: Bytes, path: seq<Step>, s: set<Bytes>)
      returns (i: nat)
    requires |ds| >= 1
    requires Fold(sha, LeafHash(sha, leaf), path) == Root(sha, ds)
    requires NoCollision(sha, s) && TreePre(sha, ds) + PathPre(sha, leaf, path) <= s
    ensures i < |ds| && ds[i] == leaf && path == RecPath(sha, LeafHashes(sha, ds), i)
    decreases |path|
  {
    hide *;
    if path == [] {
      OneLeaf(sha, ds, leaf, s);
      i := 0;
    } else {
      PathParts(sha, ds, leaf, path, s);
      var last, rest := path[|path| - 1], path[..|path| - 1];
      Snoc(path);
      FoldIsDigest(sha, leaf, rest);
      LastStepIsTheSplit(sha, ds, Fold(sha, LeafHash(sha, leaf), rest), last, s);
      var k := Split(|ds|);
      var nodes := LeafHashes(sha, ds);
      HashedParts(sha, ds, k);
      TreeParts(sha, ds);
      RootIsMth(sha, ds[..k]);
      RootIsMth(sha, ds[k..]);
      assert last == Step(last.side, last.sib);
      if last.side == L {
        var j := AcceptedIsCanonical(sha, ds[k..], leaf, rest, s);
        i := k + j;
        PathRight(sha, nodes, i, k);
      } else {
        i := AcceptedIsCanonical(sha, ds[..k], leaf, rest, s);
        PathLeft(sha, nodes, i, k);
      }
    }
  }

  /** Nothing is proved to be in an empty tree: its root is the hash of a string no path hashes. */
  lemma NothingInEmpty(sha: Sha, leaf: Bytes, path: seq<Step>)
    requires NoCollision(sha, TreePre(sha, []) + PathPre(sha, leaf, path))
    ensures Fold(sha, LeafHash(sha, leaf), path) != Root(sha, [])
  {
    assert [] in TreePre(sha, []);
    if path == [] {
      assert LeafPre(leaf) in PathPre(sha, leaf, path) && LeafPre(leaf) != [];
    } else {
      var last, rest := path[|path| - 1], path[..|path| - 1];
      var h := Fold(sha, LeafHash(sha, leaf), rest);
      var p := if last.side == L then NodePre(last.sib, h) else NodePre(h, last.sib);
      assert p in PathPre(sha, leaf, path) && p != [] && sha(p) == Fold(sha, LeafHash(sha, leaf), path);
    }
  }

  lemma AcceptsMembers(sha: Sha, ds: seq<Bytes>, leaf: Bytes, path: seq<Step>)
    requires |ds| >= 1
    requires NoCollision(sha, TreePre(sha, ds) + PathPre(sha, leaf, path))
    ensures Fold(sha, LeafHash(sha, leaf), path) == Root(sha, ds) <==>
      exists i :: 0 <= i < |ds| && ds[i] == leaf && path == RecPath(sha, LeafHashes(sha, ds), i)
  {
    if Fold(sha, LeafHash(sha, leaf), path) == Root(sha, ds) {
      var i := AcceptedIsCanonical(sha, ds, leaf, path, TreePre(sha, ds) + PathPre(sha, leaf, path));
    }
    forall i | 0 <= i < |ds| && ds[i] == leaf && path == RecPath(sha, LeafHashes(sha, ds), i)
      ensures Fold(sha, LeafHash(sha, leaf), path) == Root(sha, ds)
    {
      RecPathFolds(sha, LeafHashes(sha, ds), i);
    }
  }

  /** The verifier accepts exactly the proofs that `merkle_proof` builds, for the leaves in the list; in
      an empty tree, none. */
  lemma AcceptsExactlyMembers(sha: Sha, ds: seq<Bytes>, leaf: Bytes, path: seq<Step>)
    requires NoCollision(sha, TreePre(sha, ds) + PathPre(sha, leaf, path))
    ensures Fold(sha, LeafHash(sha, leaf), path) == Root(sha, ds) <==>
      exists i :: 0 <= i < |ds| && ds[i] == leaf && path == RecPath(sha, LeafHashes(sha, ds), i)
  {
    if ds == [] {
      NothingInEmpty(sha, leaf, path);
    } else {
      AcceptsMembers(sha, ds, leaf, path);
    }
    hide NoCollision, TreePre, PathPre, Fold, Root, RecPath, LeafHash;
  }
}
