/** The reader's checks on segment continuations, and why the writer's own segments pass them. */
module ReaderSegments {
  import opened Bytes
  import opened Codec
  import opened Profile
  import opened Frontier
  import opened Reader
  import opened Writer
  import opened WriterInv
  import opened WriterCut
  import opened WriterResume
  import Merkle

  datatype ContinuationView = ContinuationView(seqNo: nat, index: nat, predecessor: Bytes, retentionS: nat,
                                               priorRoot: Bytes)

  /** A tag's first value when it has exactly this width; an absent tag has none. */
  function Tag(ts: seq<Tlv>, tag: nat, width: nat): Option<Bytes> {
    var v := FirstVal(ts, tag, 0, ANY);
    if v.Some? && |v.value| == width then v else None
  }

  /** `decode_continuation`. */
  function DecodeContinuation(d: Decoded): Option<ContinuationView> {
    if d.kind != Some(KIND_SEGMENT_CONTINUATION) || d.bodyTlvs.None? then None
    else
      var ts := d.bodyTlvs.value;
      var head, index, retention, root :=
        Tag(ts, SEG_PREDECESSOR_HEAD, 32), Tag(ts, SEG_INDEX, 4), Tag(ts, SEG_RETENTION_S, 8), Tag(ts, SEG_PRIOR_ROOT,
            32);
      if head.None? || index.None? || retention.None? || root.None? then None
      else Some(ContinuationView(d.seqNo, U32(index.value, 0), head.value, U64(retention.value, 0), root.value))
  }

  datatype Advisory =
    | Malformed(at: nat) | PredecessorMismatch(at: nat) | IndexNotIncreasing(at: nat) | IndexGap(at: nat)
    | PriorRootMismatch(at: nat)

  function ViewAt(sha: Sha, rs: seq<Rec>, i: nat): Option<ContinuationView>
    requires RecsOk(rs) && i < |rs|
  {
    DecodeContinuation(DecodeRecord(sha, rs[i]))
  }

  predicate OwnPredecessor(sha: Sha, rs: seq<Rec>, i: nat)
    requires RecsOk(rs) && i < |rs|
  {
    var d, v := DecodeRecord(sha, rs[i]), ViewAt(sha, rs, i);
    v.Some? && (d.header.Some? ==> v.value.predecessor == d.header.value.prevHash)
  }

  predicate FullChain(rs: seq<Rec>)
    requires RecsOk(rs)
  {
    rs != [] && U64(rs[0].hb, 12) == 0 && U16(rs[0].hb, 8) == RT_GENESIS
  }

  predicate Follows(a: ContinuationView, b: ContinuationView, full: bool) {
    if full then b.index == a.index + 1 else b.index > a.index
  }

  predicate RootDeclared(sha: Sha, rs: seq<Rec>, v: ContinuationView) {
    v.seqNo < |rs| ==> Merkle.Root(sha, RecHashes(sha, rs[..v.seqNo])) == v.priorRoot
  }

  predicate InOrder(sha: Sha, rs: seq<Rec>, i: nat, j: nat)
    requires RecsOk(rs) && i < |rs| && j < |rs|
  {
    var a, b := ViewAt(sha, rs, i), ViewAt(sha, rs, j);
    a.Some? && b.Some? && Follows(a.value, b.value, FullChain(rs))
  }

  /** What a clean report means. */
  ghost predicate Sound(sha: Sha, rs: seq<Rec>, at: seq<nat>)
    requires RecsOk(rs) && forall k :: 0 <= k < |at| ==> at[k] < |rs|
  {
    && (forall k :: 0 <= k < |at| ==> OwnPredecessor(sha, rs, at[k]))
    && (forall k :: 0 < k < |at| ==> InOrder(sha, rs, at[k - 1], at[k]))
    && (FullChain(rs) ==>
          forall k :: 0 <= k < |at| ==>
            ViewAt(sha, rs, at[k]).Some? && RootDeclared(sha, rs, ViewAt(sha, rs, at[k]).value))
  }

  // ---------- what the report holds ----------

  /** The first loop, over the first `n` entries: `bad` lists, in order, those that are no well-formed
      continuation or name another predecessor than their header, and there is one item for each. */
  ghost predicate OwnItems(sha: Sha, rs: seq<Rec>, at: seq<nat>, n: nat, bad: seq<nat>, items: seq<Advisory>)
    requires RecsOk(rs) && n <= |at| && forall k :: 0 <= k < |at| ==> at[k] < |rs|
  {
    && Increasing(bad) && (forall k: nat :: k in bad <==> k < n && !OwnPredecessor(sha, rs, at[k]))
    && |items| == |bad|
    && forall j :: 0 <= j < |bad| ==> bad[j] < n && items[j] == OwnItem(sha, rs, at[bad[j]])
  }

  function OwnItem(sha: Sha, rs: seq<Rec>, i: nat): Advisory
    requires RecsOk(rs) && i < |rs|
  {
    if ViewAt(sha, rs, i).None? then Malformed(U64(rs[i].hb, 12)) else PredecessorMismatch(U64(rs[i].hb, 12))
  }

  /** `views` are the well-formed ones among the first `n` entries, in order. */
  ghost predicate WellFormed(sha: Sha, rs: seq<Rec>, at: seq<nat>, n: nat, good: seq<nat>,
                             views: seq<ContinuationView>)
    requires RecsOk(rs) && n <= |at| && forall k :: 0 <= k < |at| ==> at[k] < |rs|
  {
    && Increasing(good) && (forall k: nat :: k in good <==> k < n && ViewAt(sha, rs, at[k]).Some?)
    && |views| == |good|
    && forall j :: 0 <= j < |good| ==> good[j] < n && ViewAt(sha, rs, at[good[j]]) == Some(views[j])
  }

  /** The second loop, up to the `n`-th view: `bad` lists those whose index does not follow the one before. */
  ghost predicate IndexItems(views: seq<ContinuationView>, full: bool, n: nat, bad: seq<nat>, items: seq<Advisory>)
    requires n <= |views|
  {
    && Increasing(bad) && (forall k: nat :: k in bad <==> 0 < k < n && !Follows(views[k - 1], views[k], full))
    && |items| == |bad|
    && forall j :: 0 <= j < |bad| ==> 0 < bad[j] < n && items[j] == IndexItem(views[bad[j] - 1], views[bad[j]])
  }

  function IndexItem(a: ContinuationView, b: ContinuationView): Advisory {
    if b.index <= a.index then IndexNotIncreasing(b.seqNo) else IndexGap(b.seqNo)
  }

  /** View `i` is compared before view `j`. */
  predicate Sooner(views: seq<ContinuationView>, i: nat, j: nat) {
    i < |views| && j < |views| &&
    (views[i].seqNo < views[j].seqNo || (views[i].seqNo == views[j].seqNo && i < j))
  }

  ghost predicate InTurn(views: seq<ContinuationView>, order: seq<nat>) {
    && (forall k :: 0 <= k < |order| ==> order[k] < |views|)
    && forall j, k :: 0 <= j < k < |order| ==> Sooner(views, order[j], order[k])
  }

  /** The third loop: `bad` lists, by seq, the views among `seen` whose root is not the recomputed one. */
  ghost predicate RootItems(sha: Sha, rs: seq<Rec>, views: seq<ContinuationView>, seen: seq<nat>, bad: seq<nat>,
                            items: seq<Advisory>) {
    && InTurn(views, bad)
    && (forall k: nat :: k in bad <==> k in seen && k < |views| && !RootDeclared(sha, rs, views[k]))
    && |items| == |bad|
    && forall j :: 0 <= j < |bad| ==> items[j] == PriorRootMismatch(views[bad[j]].seqNo)
  }

  /** The whole report: what the three loops say, one after the other. */
  ghost predicate Reports(sha: Sha, rs: seq<Rec>, at: seq<nat>, items: seq<Advisory>)
    requires RecsOk(rs) && forall k :: 0 <= k < |at| ==> at[k] < |rs|
  {
    exists views, own, indices, roots :: ReportParts(sha, rs, at, views, own, indices, roots, items)
  }

  ghost predicate ReportParts(sha: Sha, rs: seq<Rec>, at: seq<nat>, views: seq<ContinuationView>, own: seq<Advisory>,
                              indices: seq<Advisory>, roots: seq<Advisory>, items: seq<Advisory>)
    requires RecsOk(rs) && forall k :: 0 <= k < |at| ==> at[k] < |rs|
  {
    && items == own + indices + roots
    && (exists bad: seq<nat> :: OwnItems(sha, rs, at, |at|, bad, own))
    && (exists good: seq<nat> :: WellFormed(sha, rs, at, |at|, good, views))
    && (exists bad: seq<nat> :: IndexItems(views, FullChain(rs), |views|, bad, indices))
    && if FullChain(rs) then exists bad: seq<nat> :: RootItems(sha, rs, views, Everyone(|views|), bad, roots)
       else roots == []
  }

  function Everyone(n: nat): (all: seq<nat>)
    ensures |all| == n && forall k: nat :: k in all <==> k < n
  {
    if n == 0 then [] else Everyone(n - 1) + [n - 1]
  }

  // ---------- the check ----------

  /** The positions in file order. */
  function InFileOrder(at: seq<nat>): (s: seq<nat>)
    ensures |s| == |at| && multiset(s) == multiset(at)
    ensures forall i, j :: 0 <= i <= j < |s| ==> s[i] <= s[j]
    ensures Increasing(at) ==> s == at
  {
    if at == [] then []
    else
      var front, x := InFileOrder(at[..|at| - 1]), at[|at| - 1];
      Snoc(at);
      PlacedInOrder(front, x);
      Placed(front, x)
  }

  function Placed(s: seq<nat>, x: nat): (t: seq<nat>)
    ensures |t| == |s| + 1
  {
    var p := Spot(s, x);
    s[..p] + [x] + s[p..]
  }

  lemma PlacedInOrder(s: seq<nat>, x: nat)
    requires forall i, j :: 0 <= i <= j < |s| ==> s[i] <= s[j]
    ensures var t := Placed(s, x);
      && multiset(t) == multiset(s) + multiset{x}
      && (forall i, j :: 0 <= i <= j < |t| ==> t[i] <= t[j])
      && ((forall i :: 0 <= i < |s| ==> s[i] <= x) ==> t == s + [x])
  {
    hide *;
    var p, t := Spot(s, x), Placed(s, x);
    PlacedIs(s, x);
    SplitMultiset(s, p, x);
    PlacesInOrder(s, p, x, t);
    if forall i :: 0 <= i < |s| ==> s[i] <= x {
      assert p == |s|;
      assert s[..p] + [x] + s[p..] == s + [x];
    }
  }

  lemma PlacedIs(s: seq<nat>, x: nat)
    ensures var p := Spot(s, x);
      && Placed(s, x) == s[..p] + [x] + s[p..] && |Placed(s, x)| == |s| + 1
      && (forall i :: 0 <= i < p ==> Placed(s, x)[i] == s[i]) && Placed(s, x)[p] == x
      && (forall i :: p < i <= |s| ==> Placed(s, x)[i] == s[i - 1])
  {
    hide Spot;
  }

  lemma SplitMultiset(s: seq<nat>, p: nat, x: nat)
    requires p <= |s|
    ensures multiset(s[..p] + [x] + s[p..]) == multiset(s) + multiset{x}
  {
    assert s == s[..p] + s[p..];
  }

  lemma PlacesInOrder(s: seq<nat>, p: nat, x: nat, t: seq<nat>)
    requires p <= |s| && |t| == |s| + 1 && t[p] == x
    requires forall i, j :: 0 <= i <= j < |s| ==> s[i] <= s[j]
    requires (p > 0 ==> s[p - 1] <= x) && (p < |s| ==> s[p] > x)
    requires (forall i :: 0 <= i < p ==> t[i] == s[i]) && (forall i :: p < i < |t| ==> t[i] == s[i - 1])
    ensures forall i, j :: 0 <= i <= j < |t| ==> t[i] <= t[j]
  {
    forall i, j | 0 <= i <= j < |t| ensures t[i] <= t[j] {
      var a := if i < p then s[i] else if i == p then x else s[i - 1];
      var b := if j < p then s[j] else if j == p then x else s[j - 1];
      assert t[i] == a && t[j] == b;
      assert i < p ==> s[i] <= s[p - 1];
      assert j > p ==> s[p] <= s[j - 1];
    }
  }

  function Spot(s: seq<nat>, x: nat): (p: nat)
    ensures p <= |s| && (p > 0 ==> s[p - 1] <= x) && (p < |s| ==> s[p] > x)
  {
    if s == [] || s[|s| - 1] <= x then |s| else Spot(s[..|s| - 1], x)
  }

  lemma SameMembers(a: seq<nat>, b: seq<nat>, n: nat)
    requires multiset(a) == multiset(b) && forall k :: 0 <= k < |a| ==> a[k] < n
    ensures forall k :: 0 <= k < |b| ==> b[k] < n
  {
    forall k | 0 <= k < |b| ensures b[k] < n {
      assert b[k] in multiset(b);
      assert b[k] in a;
    }
  }

  /** First loop: well-formed, and about its own predecessor. */
  method CollectViews(sha: Sha, rs: seq<Rec>, at: seq<nat>)
      returns (items: seq<Advisory>, views: seq<ContinuationView>, ghost bad: seq<nat>, ghost good: seq<nat>)
    requires RecsOk(rs) && forall k :: 0 <= k < |at| ==> at[k] < |rs|
    ensures OwnItems(sha, rs, at, |at|, bad, items) && WellFormed(sha, rs, at, |at|, good, views)
  {
    hide *;
    items, views, bad, good := [], [], [], [];
    NothingCollected(sha, rs, at);
    for i := 0 to |at|
      invariant OwnItems(sha, rs, at, i, bad, items) && WellFormed(sha, rs, at, i, good, views)
    {
      AllOk(rs, at[i]);
      var d := DecodeFully(sha, rs[at[i]]);
      var view := DecodeContinuation(d);
      ViewFacts(sha, rs, at[i], d, view);
      OwnNext(sha, rs, at, i, bad, items);
      ViewNext(sha, rs, at, i, good, views);
      if view.None? {
        items := items + [Malformed(d.seqNo)];
        bad := bad + [i];
      } else {
        if d.header.Some? && view.value.predecessor != d.header.value.prevHash {
          items := items + [PredecessorMismatch(d.seqNo)];
          bad := bad + [i];
        }
        views := views + [view.value];
        good := good + [i];
      }
    }
  }

  lemma NothingCollected(sha: Sha, rs: seq<Rec>, at: seq<nat>)
    requires RecsOk(rs) && forall k :: 0 <= k < |at| ==> at[k] < |rs|
    ensures OwnItems(sha, rs, at, 0, [], []) && WellFormed(sha, rs, at, 0, [], [])
  {
  }

  lemma ViewFacts(sha: Sha, rs: seq<Rec>, i: nat, d: Decoded, view: Option<ContinuationView>)
    requires RecsOk(rs) && i < |rs| && d == DecodeRecord(sha, rs[i]) && view == DecodeContinuation(d)
    ensures ViewAt(sha, rs, i) == view && |rs[i].hb| >= 20 && d.seqNo == U64(rs[i].hb, 12)
    ensures OwnPredecessor(sha, rs, i) <==>
      view.Some? && !(d.header.Some? && view.value.predecessor != d.header.value.prevHash)
    ensures OwnItem(sha, rs, i) == if view.None? then Malformed(d.seqNo) else PredecessorMismatch(d.seqNo)
  {
    SeqOfRecord(sha, rs[i]);
    hide DecodeRecord, DecodeContinuation;
  }

  lemma SeqOfRecord(sha: Sha, r: Rec)
    requires RecOk(r)
    ensures |r.hb| >= 20 && DecodeRecord(sha, r).seqNo == U64(r.hb, 12)
  {
    hide UnLe, ParseTlvs, FirstVal;
  }

  lemma AddsLast(bad: seq<nat>, n: nat)
    requires Increasing(bad) && forall k: nat :: k in bad ==> k < n
    ensures Increasing(bad + [n]) && forall k: nat :: k in bad + [n] <==> k in bad || k == n
  {
    assert forall i :: 0 <= i < |bad| ==> bad[i] in bad;
  }

  lemma OwnNext(sha: Sha, rs: seq<Rec>, at: seq<nat>, i: nat, bad: seq<nat>, items: seq<Advisory>)
    requires RecsOk(rs) && i < |at| && forall k :: 0 <= k < |at| ==> at[k] < |rs|
    requires OwnItems(sha, rs, at, i, bad, items)
    ensures if OwnPredecessor(sha, rs, at[i]) then OwnItems(sha, rs, at, i + 1, bad, items)
      else OwnItems(sha, rs, at, i + 1, bad + [i], items + [OwnItem(sha, rs, at[i])])
  {
    hide OwnPredecessor, OwnItem, RecsOk, Increasing;
    AddsLast(bad, i);
  }

  lemma ViewNext(sha: Sha, rs: seq<Rec>, at: seq<nat>, i: nat, good: seq<nat>, views: seq<ContinuationView>)
    requires RecsOk(rs) && i < |at| && forall k :: 0 <= k < |at| ==> at[k] < |rs|
    requires WellFormed(sha, rs, at, i, good, views)
    ensures var v := ViewAt(sha, rs, at[i]);
      if v.None? then WellFormed(sha, rs, at, i + 1, good, views)
      else WellFormed(sha, rs, at, i + 1, good + [i], views + [v.value])
  {
    hide ViewAt, RecsOk, Increasing;
    AddsLast(good, i);
  }

  /** Second loop: each index against the one before it. */
  method CompareIndices(views: seq<ContinuationView>, full: bool) returns (items: seq<Advisory>, ghost bad: seq<nat>)
    ensures IndexItems(views, full, |views|, bad, items)
  {
    items, bad := [], [];
    if views == [] {
      return;
    }
    for i := 1 to |views|
      invariant IndexItems(views, full, i, bad, items)
    {
      hide IndexItems, IndexItem, Follows;
      var a, b := views[i - 1], views[i];
      IndexNext(views, full, i, bad, items);
      PairIs(a, b, full);
      if b.index <= a.index {
        items := items + [IndexNotIncreasing(b.seqNo)];
        bad := bad + [i];
      } else if full && b.index != a.index + 1 {
        items := items + [IndexGap(b.seqNo)];
        bad := bad + [i];
      }
    }
  }

  lemma PairIs(a: ContinuationView, b: ContinuationView, full: bool)
    ensures Follows(a, b, full) <==> !(b.index <= a.index) && !(full && b.index != a.index + 1)
    ensures IndexItem(a, b) == if b.index <= a.index then IndexNotIncreasing(b.seqNo) else IndexGap(b.seqNo)
  {
  }

  lemma IndexNext(views: seq<ContinuationView>, full: bool, i: nat, bad: seq<nat>, items: seq<Advisory>)
    requires 0 < i < |views| && IndexItems(views, full, i, bad, items)
    ensures if Follows(views[i - 1], views[i], full) then IndexItems(views, full, i + 1, bad, items)
      else IndexItems(views, full, i + 1, bad + [i], items + [IndexItem(views[i - 1], views[i])])
  {
    hide Follows, IndexItem, Increasing;
    AddsLast(bad, i);
  }

  /** `sorted(views, key=seq)`, as an order of the views. */
  method OrderBySeq(views: seq<ContinuationView>) returns (order: seq<nat>)
    ensures InTurn(views, order) && |order| == |views| && forall k: nat :: k in order <==> k < |views|
  {
    order := [];
    for i := 0 to |views|
      invariant InTurn(views, order) && |order| == i && forall k: nat :: k in order <==> k < i
    {
      hide InTurn;
      order := InsertBySeq(views, order, i);
    }
  }

  method InsertBySeq(views: seq<ContinuationView>, order: seq<nat>, x: nat) returns (out: seq<nat>)
    requires x < |views| && InTurn(views, order) && forall k: nat :: k in order ==> k < x
    ensures InTurn(views, out) && |out| == |order| + 1 && forall k: nat :: k in out <==> k in order || k == x
  {
    var p := |order|;
    while p > 0 && views[order[p - 1]].seqNo > views[x].seqNo
      invariant 0 <= p <= |order|
      invariant forall j :: p <= j < |order| ==> Sooner(views, x, order[j])
    {
      p := p - 1;
    }
    assert p > 0 ==> order[p - 1] in order;
    out := order[..p] + [x] + order[p..];
    InsertKeeps(views, order, p, x);
  }

  lemma SoonerTrans(views: seq<ContinuationView>, i: nat, j: nat, k: nat)
    requires Sooner(views, i, j) && Sooner(views, j, k)
    ensures Sooner(views, i, k)
  {
  }

  lemma InsertKeeps(views: seq<ContinuationView>, order: seq<nat>, p: nat, x: nat)
    requires x < |views| && InTurn(views, order) && p <= |order|
    requires p > 0 ==> Sooner(views, order[p - 1], x)
    requires forall j :: p <= j < |order| ==> Sooner(views, x, order[j])
    ensures var out := order[..p] + [x] + order[p..];
      && InTurn(views, out) && |out| == |order| + 1 && forall k: nat :: k in out <==> k in order || k == x
  {
    var out := order[..p] + [x] + order[p..];
    hide Sooner;
    forall j | 0 <= j < p ensures Sooner(views, order[j], x) {
      if j < p - 1 {
        SoonerTrans(views, order[j], order[p - 1], x);
      }
    }
    InsertPlaces(views, order, p, x, out);
    InsertMembers(order, p, x);
  }

  lemma InsertPlaces(views: seq<ContinuationView>, order: seq<nat>, p: nat, x: nat, out: seq<nat>)
    requires x < |views| && InTurn(views, order) && p <= |order|
    requires forall j :: 0 <= j < p ==> Sooner(views, order[j], x)
    requires forall j :: p <= j < |order| ==> Sooner(views, x, order[j])
    requires |out| == |order| + 1 && out[p] == x
    requires (forall i :: 0 <= i < p ==> out[i] == order[i]) && (forall i :: p < i < |out| ==> out[i] == order[i - 1])
    ensures InTurn(views, out)
  {
    hide Sooner;
  }

  lemma InsertMembers<T>(order: seq<T>, k: nat, x: T)
    requires k <= |order|
    ensures forall v :: v in order[..k] + [x] + order[k..] <==> v in order || v == x
  {
    assert order == order[..k] + order[k..];
  }

  /** The declared roots of the records that stand right after the first `i`. */
  method CompareHere(sha: Sha, rs: seq<Rec>, views: seq<ContinuationView>, order: seq<nat>, from: nat, i: nat,
                     frontier: MerkleFrontier, before: seq<Advisory>, ghost badBefore: seq<nat>)
      returns (items: seq<Advisory>, k: nat, ghost bad: seq<nat>)
    requires i < |rs| && frontier.sha == sha && frontier.Value() == AppendAll(sha, EMPTY, RecHashes(sha, rs[..i]))
    requires from <= |order| && InTurn(views, order)
    requires RootItems(sha, rs, views, order[..from], badBefore, before)
    ensures from <= k <= |order| && RootItems(sha, rs, views, order[..k], bad, items)
    ensures k < |order| ==> views[order[k]].seqNo != i
  {
    hide AppendAll, RecHashes, RootDeclared, RootItems;
    items, k, bad := before, from, badBefore;
    while k < |order| && views[order[k]].seqNo == i
      invariant from <= k <= |order| && RootItems(sha, rs, views, order[..k], bad, items)
      decreases |order| - k
    {
      var v := views[order[k]];
      var root := frontier.ComputeRoot();
      RootHere(sha, rs, v, root, frontier.Value());
      RootNext(sha, rs, views, order, k, bad, items);
      if root != v.priorRoot {
        items := items + [PriorRootMismatch(v.seqNo)];
        bad := bad + [order[k]];
      }
      k := k + 1;
    }
  }

  lemma RootNext(sha: Sha, rs: seq<Rec>, views: seq<ContinuationView>, order: seq<nat>, k: nat, bad: seq<nat>,
                 items: seq<Advisory>)
    requires k < |order| && InTurn(views, order) && RootItems(sha, rs, views, order[..k], bad, items)
    ensures order[k] < |views|
    ensures if RootDeclared(sha, rs, views[order[k]]) then RootItems(sha, rs, views, order[..k + 1], bad, items)
      else RootItems(sha, rs, views, order[..k + 1], bad + [order[k]],
                     items + [PriorRootMismatch(views[order[k]].seqNo)])
  {
    hide RootDeclared, Sooner;
    var x := order[k];
    assert order[..k + 1] == order[..k] + [x];
    forall j | 0 <= j < |bad| ensures Sooner(views, bad[j], x) {
      assert bad[j] in bad;
      assert bad[j] in order[..k];
      var m :| 0 <= m < k && order[m] == bad[j];
    }
    assert forall m: nat :: m in order[..k + 1] <==> m in order[..k] || m == x;
  }

  /** Third loop: one frontier walk, stopping once every declared root has been compared. */
  method CompareRoots(sha: Sha, rs: seq<Rec>, views: seq<ContinuationView>)
      returns (items: seq<Advisory>, ghost bad: seq<nat>)
    ensures RootItems(sha, rs, views, Everyone(|views|), bad, items)
  {
    hide AppendAll, RecHashes, RootDeclared, RootItems, Append, InTurn;
    items, bad := [], [];
    var frontier := new MerkleFrontier(sha);
    var order := OrderBySeq(views);
    NothingCompared(sha, rs, views);
    OrderIn(views, order);
    var k, i := 0, 0;
    while i < |rs|
      invariant 0 <= i <= |rs| && frontier.sha == sha && fresh(frontier)
      invariant frontier.Value() == AppendAll(sha, EMPTY, RecHashes(sha, rs[..i]))
      invariant 0 <= k <= |order| && RootItems(sha, rs, views, order[..k], bad, items)
      invariant forall j :: k <= j < |order| ==> views[order[j]].seqNo >= i
      decreases |rs| - i
    {
      items, k, bad := CompareHere(sha, rs, views, order, k, i, frontier, items, bad);
      if k == |order| {
        break;
      }
      LaterStill(views, order, k, i);
      HashSnoc(sha, rs, i);
      var ok := frontier.AppendHash(sha(rs[i].hb));
      i := i + 1;
    }
    RestUncompared(sha, rs, views, order, k, bad, items);
  }

  lemma OrderIn(views: seq<ContinuationView>, order: seq<nat>)
    requires InTurn(views, order)
    ensures forall j :: 0 <= j < |order| ==> order[j] < |views|
  {
  }

  lemma NothingCompared(sha: Sha, rs: seq<Rec>, views: seq<ContinuationView>)
    ensures RootItems(sha, rs, views, [], [], []) && AppendAll(sha, EMPTY, RecHashes(sha, rs[..0])) == EMPTY
  {
    hide RootDeclared;
  }

  lemma RootHere(sha: Sha, rs: seq<Rec>, v: ContinuationView, root: Digest, f: Peaks)
    requires v.seqNo < |rs| && f == AppendAll(sha, EMPTY, RecHashes(sha, rs[..v.seqNo])) && root == PeaksRoot(sha, f)
    ensures RootDeclared(sha, rs, v) <==> root == v.priorRoot
  {
    AppendAllHolds(sha, RecHashes(sha, rs[..v.seqNo]));
    RootOfFrontier(sha, f, RecHashes(sha, rs[..v.seqNo]));
  }

  lemma LaterStill(views: seq<ContinuationView>, order: seq<nat>, k: nat, i: nat)
    requires k < |order| && InTurn(views, order) && views[order[k]].seqNo != i
    requires forall j :: 0 <= j < |order| ==> order[j] < |views|
    requires forall j :: k <= j < |order| ==> views[order[j]].seqNo >= i
    ensures forall j :: k <= j < |order| ==> views[order[j]].seqNo >= i + 1
  {
    assert forall j :: k < j < |order| ==> Sooner(views, order[k], order[j]);
  }

  lemma HashSnoc(sha: Sha, rs: seq<Rec>, i: nat)
    requires i < |rs|
    ensures AppendAll(sha, EMPTY, RecHashes(sha, rs[..i + 1])) ==
      Append(sha, AppendAll(sha, EMPTY, RecHashes(sha, rs[..i])), sha(rs[i].hb))
  {
    var hs := RecHashes(sha, rs[..i + 1]);
    assert hs[..|hs| - 1] == RecHashes(sha, rs[..i]);
  }

  /** A view whose seq no record has is compared with nothing. */
  lemma RestUncompared(sha: Sha, rs: seq<Rec>, views: seq<ContinuationView>, order: seq<nat>, k: nat, bad: seq<nat>,
                       items: seq<Advisory>)
    requires k <= |order| && (forall m: nat :: m in order <==> m < |views|)
    requires forall j :: 0 <= j < |order| ==> order[j] < |views|
    requires forall j :: k <= j < |order| ==> views[order[j]].seqNo >= |rs|
    requires RootItems(sha, rs, views, order[..k], bad, items)
    ensures RootItems(sha, rs, views, Everyone(|views|), bad, items)
  {
    assert forall j :: 0 <= j < k ==> order[j] in order[..k];
    forall m: nat | m < |views| && m !in order[..k] ensures RootDeclared(sha, rs, views[m]) {
      assert m in order;
      var j :| 0 <= j < |order| && order[j] == m;
    }
    hide RootDeclared, Sooner;
  }

  /** `_check_continuations`: what it reports, on any list of records; and a clean report means exactly
      that the declarations are sound. */
  method CheckContinuations(sha: Sha, rs: seq<Rec>, records: seq<nat>) returns (items: seq<Advisory>)
    requires RecsOk(rs) && forall k :: 0 <= k < |records| ==> records[k] < |rs|
    ensures forall k :: 0 <= k < |InFileOrder(records)| ==> InFileOrder(records)[k] < |rs|
    ensures Reports(sha, rs, InFileOrder(records), items)
    ensures items == [] <==> Sound(sha, rs, InFileOrder(records))
  {
    hide *;
    items := [];
    var at := InFileOrder(records);
    SameMembers(records, at, |rs|);
    if records == [] {
      NothingReported(sha, rs, at);
      CleanIsSound(sha, rs, at, items);
      return;
    }
    var full := FullChain(rs);
    var own, views, bad, good := CollectViews(sha, rs, at);
    var indices, badIndices := CompareIndices(views, full);
    items := own + indices;
    var roots: seq<Advisory> := [];
    ghost var badRoots: seq<nat> := [];
    NoViews(sha, rs, views);
    if full && views != [] {
      roots, badRoots := CompareRoots(sha, rs, views);
      items := items + roots;
    }
    assert items == own + indices + roots;
    ReportMade(sha, rs, at, views, bad, own, good, badIndices, indices, badRoots, roots);
    CleanIsSound(sha, rs, at, items);
  }

  lemma NoViews(sha: Sha, rs: seq<Rec>, views: seq<ContinuationView>)
    ensures views == [] ==> RootItems(sha, rs, views, Everyone(0), [], [])
  {
    hide RootDeclared;
  }

  lemma ReportMade(sha: Sha, rs: seq<Rec>, at: seq<nat>, views: seq<ContinuationView>, bad: seq<nat>,
                   own: seq<Advisory>, good: seq<nat>, badIndices: seq<nat>, indices: seq<Advisory>,
                   badRoots: seq<nat>, roots: seq<Advisory>)
    requires RecsOk(rs) && forall k :: 0 <= k < |at| ==> at[k] < |rs|
    requires OwnItems(sha, rs, at, |at|, bad, own) && WellFormed(sha, rs, at, |at|, good, views)
    requires IndexItems(views, FullChain(rs), |views|, badIndices, indices)
    requires
      if FullChain(rs) then RootItems(sha, rs, views, Everyone(|views|), badRoots, roots) else roots == []
    ensures Reports(sha, rs, at, own + indices + roots)
  {
    hide OwnItems, WellFormed, IndexItems, RootItems, FullChain;
    assert ReportParts(sha, rs, at, views, own, indices, roots, own + indices + roots);
  }

  lemma NothingReported(sha: Sha, rs: seq<Rec>, at: seq<nat>)
    requires RecsOk(rs) && at == []
    ensures Reports(sha, rs, at, [])
  {
    hide FullChain, RootDeclared;
    NothingCollected(sha, rs, at);
    NoViews(sha, rs, []);
    assert IndexItems([], FullChain(rs), 0, [], []);
    ReportMade(sha, rs, at, [], [], [], [], [], [], [], []);
  }

  /** Nothing is reported exactly when everything declared is sound. */
  lemma CleanIsSound(sha: Sha, rs: seq<Rec>, at: seq<nat>, items: seq<Advisory>)
    requires RecsOk(rs) && (forall k :: 0 <= k < |at| ==> at[k] < |rs|) && Reports(sha, rs, at, items)
    ensures items == [] <==> Sound(sha, rs, at)
  {
    hide *;
    var views, own, bad, good, indices, badIndices, roots, badRoots := ReportSplit(sha, rs, at, items);
    OwnClean(sha, rs, at, bad, own, good, views);
    IndexClean(views, FullChain(rs), badIndices, indices);
    if own == [] {
      ViewsSound(sha, rs, at, good, views);
      if FullChain(rs) {
        RootsClean(sha, rs, views, badRoots, roots);
      }
    } else {
      NotSound(sha, rs, at);
    }
  }

  lemma ReportSplit(sha: Sha, rs: seq<Rec>, at: seq<nat>, items: seq<Advisory>)
      returns (views: seq<ContinuationView>, own: seq<Advisory>, bad: seq<nat>, good: seq<nat>,
               indices: seq<Advisory>, badIndices: seq<nat>, roots: seq<Advisory>, badRoots: seq<nat>)
    requires RecsOk(rs) && (forall k :: 0 <= k < |at| ==> at[k] < |rs|) && Reports(sha, rs, at, items)
    ensures OwnItems(sha, rs, at, |at|, bad, own) && WellFormed(sha, rs, at, |at|, good, views)
    ensures IndexItems(views, FullChain(rs), |views|, badIndices, indices)
    ensures
      if FullChain(rs) then RootItems(sha, rs, views, Everyone(|views|), badRoots, roots) else roots == []
    ensures items == [] <==> own == [] && indices == [] && roots == []
  {
    hide OwnItems, WellFormed, IndexItems, RootItems, FullChain;
    views, own, indices, roots :| ReportParts(sha, rs, at, views, own, indices, roots, items);
    bad :| OwnItems(sha, rs, at, |at|, bad, own);
    good :| WellFormed(sha, rs, at, |at|, good, views);
    badIndices :| IndexItems(views, FullChain(rs), |views|, badIndices, indices);
    badRoots := [];
    if FullChain(rs) {
      badRoots :| RootItems(sha, rs, views, Everyone(|views|), badRoots, roots);
    }
  }

  lemma NoneIn<T>(bad: seq<T>)
    ensures bad == [] <==> forall x :: x !in bad
  {
    if bad != [] {
      assert bad[0] in bad;
    }
  }

  lemma OwnClean(sha: Sha, rs: seq<Rec>, at: seq<nat>, bad: seq<nat>, own: seq<Advisory>, good: seq<nat>,
                 views: seq<ContinuationView>)
    requires RecsOk(rs) && forall k :: 0 <= k < |at| ==> at[k] < |rs|
    requires OwnItems(sha, rs, at, |at|, bad, own) && WellFormed(sha, rs, at, |at|, good, views)
    ensures own == [] <==> forall k :: 0 <= k < |at| ==> OwnPredecessor(sha, rs, at[k])
    ensures own == [] ==> |views| == |at| && forall k :: 0 <= k < |at| ==> ViewAt(sha, rs, at[k]) == Some(views[k])
  {
    NoneIn(bad);
    forall k | 0 <= k < |at| && OwnPredecessor(sha, rs, at[k]) ensures ViewAt(sha, rs, at[k]).Some? {
    }
    hide OwnPredecessor, OwnItem, ViewAt;
    if own == [] {
      forall k: nat | k < |at| ensures k in good {
        assert k !in bad;
      }
      IsEveryone(good, |at|);
    }
  }

  /** An increasing list of everything below `n` is the identity. */
  lemma {:induction false} IsEveryone(a: seq<nat>, n: nat)
    requires Increasing(a) && forall k: nat :: k in a <==> k < n
    ensures |a| == n && forall k :: 0 <= k < n ==> a[k] == k
    decreases n
  {
    if n == 0 {
      NoneIn(a);
    } else {
      assert n - 1 in a;
      var m := |a| - 1;
      assert a[m] in a;
      assert a[m] == n - 1;
      forall k: nat ensures k in a[..m] <==> k < n - 1 {
        if k < n - 1 {
          assert k in a;
        }
        if k in a[..m] {
          assert k in a;
        }
      }
      IsEveryone(a[..m], n - 1);
    }
  }

  lemma IndexClean(views: seq<ContinuationView>, full: bool, bad: seq<nat>, items: seq<Advisory>)
    requires IndexItems(views, full, |views|, bad, items)
    ensures items == [] <==> forall k :: 0 < k < |views| ==> Follows(views[k - 1], views[k], full)
  {
    hide Follows, IndexItem;
    NoneIn(bad);
  }

  lemma RootsClean(sha: Sha, rs: seq<Rec>, views: seq<ContinuationView>, bad: seq<nat>, items: seq<Advisory>)
    requires RootItems(sha, rs, views, Everyone(|views|), bad, items)
    ensures items == [] <==> forall k :: 0 <= k < |views| ==> RootDeclared(sha, rs, views[k])
  {
    hide RootDeclared, Sooner;
    NoneIn(bad);
  }

  lemma ViewsSound(sha: Sha, rs: seq<Rec>, at: seq<nat>, good: seq<nat>, views: seq<ContinuationView>)
    requires RecsOk(rs) && (forall k :: 0 <= k < |at| ==> at[k] < |rs|) && |views| == |at|
    requires forall k :: 0 <= k < |at| ==> OwnPredecessor(sha, rs, at[k]) && ViewAt(sha, rs, at[k]) == Some(views[k])
    ensures Sound(sha, rs, at) <==> (
      && (forall k :: 0 < k < |views| ==> Follows(views[k - 1], views[k], FullChain(rs)))
      && (FullChain(rs) ==> forall k :: 0 <= k < |views| ==> RootDeclared(sha, rs, views[k])))
  {
    hide ViewAt, OwnPredecessor, FullChain, Follows, RootDeclared;
  }

  lemma NotSound(sha: Sha, rs: seq<Rec>, at: seq<nat>)
    requires RecsOk(rs) && forall k :: 0 <= k < |at| ==> at[k] < |rs|
    requires !forall k :: 0 <= k < |at| ==> OwnPredecessor(sha, rs, at[k])
    ensures !Sound(sha, rs, at)
  {
    hide ViewAt, OwnPredecessor, FullChain, Follows, RootDeclared;
  }

  // ---------- the writer's own segments ----------

  lemma FirstValSkips(x: Tlv, ts: seq<Tlv>, tag: nat)
    ensures FirstVal([x] + ts, tag, 0, ANY) ==
      if x.tag == tag && |x.val| <= ANY then Some(x.val) else FirstVal(ts, tag, 0, ANY)
  {
    assert ([x] + ts)[1..] == ts;
  }

  lemma SegTags(head: Digest, index: nat, retention: nat, root: Digest)
    ensures var ts :=
      [Tlv(SEG_PREDECESSOR_HEAD, head)] + ([Tlv(SEG_INDEX, Le(index, 4))] + ([Tlv(SEG_RETENTION_S, Le(retention, 8))]
                      + ([Tlv(SEG_PRIOR_ROOT, root)] + [])));
      && FirstVal(ts, SEG_PREDECESSOR_HEAD, 0, ANY) == Some(head)
      && FirstVal(ts, SEG_INDEX, 0, ANY) == Some(Le(index, 4))
      && FirstVal(ts, SEG_RETENTION_S, 0, ANY) == Some(Le(retention, 8))
      && FirstVal(ts, SEG_PRIOR_ROOT, 0, ANY) == Some(root)
  {
    var a, b := Tlv(SEG_PREDECESSOR_HEAD, head), Tlv(SEG_INDEX, Le(index, 4));
    var c, d := Tlv(SEG_RETENTION_S, Le(retention, 8)), Tlv(SEG_PRIOR_ROOT, root);
    hide FirstVal, Le;
    forall tag | tag in {SEG_PREDECESSOR_HEAD, SEG_INDEX, SEG_RETENTION_S, SEG_PRIOR_ROOT}
      ensures FirstVal([a] + ([b] + ([c] + ([d] + []))), tag, 0, ANY) ==
        Some(if tag == SEG_PREDECESSOR_HEAD then a.val else if tag == SEG_INDEX then b.val
             else if tag == SEG_RETENTION_S then c.val else d.val)
    {
      FirstValSkips(a, [b] + ([c] + ([d] + [])), tag);
      FirstValSkips(b, [c] + ([d] + []), tag);
      FirstValSkips(c, [d] + [], tag);
      FirstValSkips(d, [], tag);
    }
  }

  lemma ContinuationShape(text: Bytes, head: Digest, index: nat, retention: nat, root: Digest)
    ensures var segs :=
      [Tlv(SEG_PREDECESSOR_HEAD, head)] + ([Tlv(SEG_INDEX, Le(index, 4))] + ([Tlv(SEG_RETENTION_S, Le(retention, 8))]
                        + ([Tlv(SEG_PRIOR_ROOT, root)] + [])));
      ContinuationTlvs(text, head, index, retention, root) ==
        [Tlv(EVT_KIND, Le(KIND_SEGMENT_CONTINUATION, 2))] +
          (if text == [] then segs else [Tlv(EVT_DETAIL, text)] + segs)
  {
  }

  /** A continuation's tags read back as declared. */
  lemma ContinuationReads(text: Bytes, head: Digest, index: nat, retention: nat, root: Digest)
    requires index < 0x1_0000_0000
    ensures var ts := ContinuationTlvs(text, head, index, retention, root);
      && FirstNum(ts, EVT_KIND) == Some(KIND_SEGMENT_CONTINUATION)
      && Tag(ts, SEG_PREDECESSOR_HEAD, 32) == Some(head) && Tag(ts, SEG_INDEX, 4) == Some(Le(index, 4))
      && Tag(ts, SEG_RETENTION_S, 8) == Some(Le(retention, 8)) && Tag(ts, SEG_PRIOR_ROOT, 32) == Some(root)
      && U32(Le(index, 4), 0) == index
  {
    IndexReads(index);
    SegTags(head, index, retention, root);
    ContinuationShape(text, head, index, retention, root);
    FirstIsKind(text, head, index, retention, root);
    hide FirstNum, Le, U32, U16, FirstVal, ContinuationTlvs;
    var segs := [Tlv(SEG_PREDECESSOR_HEAD, head)] +
      ([Tlv(SEG_INDEX, Le(index, 4))] + ([Tlv(SEG_RETENTION_S, Le(retention, 8))]
                + ([Tlv(SEG_PRIOR_ROOT, root)] + [])));
    var rest := if text == [] then segs else [Tlv(EVT_DETAIL, text)] + segs;
    forall tag | tag in {SEG_PREDECESSOR_HEAD, SEG_INDEX, SEG_RETENTION_S, SEG_PRIOR_ROOT}
      ensures FirstVal(ContinuationTlvs(text, head, index, retention, root), tag, 0, ANY) == FirstVal(segs, tag, 0, ANY)
    {
      FirstValSkips(Tlv(EVT_KIND, Le(KIND_SEGMENT_CONTINUATION, 2)), rest, tag);
      FirstValSkips(Tlv(EVT_DETAIL, text), segs, tag);
    }
  }

  lemma FirstIsKind(text: Bytes, head: Digest, index: nat, retention: nat, root: Digest)
    ensures FirstNum(ContinuationTlvs(text, head, index, retention, root), EVT_KIND) == Some(KIND_SEGMENT_CONTINUATION)
  {
    IndexReads(0);
    var k := Tlv(EVT_KIND, Le(KIND_SEGMENT_CONTINUATION, 2));
    assert ContinuationTlvs(text, head, index, retention, root)[0] == k;
    hide ContinuationTlvs, Le, U16;
  }

  /** The record that opens segment `idx` decodes to exactly what the chain says of it. */
  lemma OpeningView(sha: Sha, hist: seq<Rec>, s: nat, idx: nat) returns (retention: nat)
    requires HistOk(sha, hist) && OpensSegment(sha, hist, s, idx)
    ensures RecsOk(hist) && s < |hist|
    ensures ViewAt(sha, hist, s) ==
      Some(ContinuationView(s, idx, PrevHash(sha, hist, s), retention, RootTo(sha, hist, s)))
    ensures OwnPredecessor(sha, hist, s) && DecodeRecord(sha, hist[s]).kind == Some(KIND_SEGMENT_CONTINUATION)
  {
    HistRecsOk(sha, hist, 0);
    var text, r :| Declares(sha, hist, s, idx, text, r);
    RecFacts(sha, hist, s);
    var head, root := PrevHash(sha, hist, s), RootTo(sha, hist, s);
    ContinuationParses(text, head, idx, r, root);
    ContinuationReads(text, head, idx, r, root);
    retention := U64(Le(r, 8), 0);
    DeclaredDecodes(sha, hist, s, idx, text, r, head, root);
  }

  lemma DeclaredDecodes(sha: Sha, hist: seq<Rec>, s: nat, idx: nat, text: Bytes, r: nat, head: Digest, root: Digest)
    requires RecsOk(hist) && s < |hist| && Decode(hist[s].hb).Some?
    requires var h := Decode(hist[s].hb).value;
      h.recordType == RT_EVENT && h.keyId == 0 && h.seqNo == s && h.prevHash == head
    requires var ts := ContinuationTlvs(text, head, idx, r, root);
      && hist[s].body == EncodeTlvs(ts) && EncodeTlvs(ts) != [] && ParseTlvs(EncodeTlvs(ts)) == Some(ts)
      && FirstNum(ts, EVT_KIND) == Some(KIND_SEGMENT_CONTINUATION)
      && Tag(ts, SEG_PREDECESSOR_HEAD, 32) == Some(head) && Tag(ts, SEG_INDEX, 4) == Some(Le(idx, 4))
      && Tag(ts, SEG_RETENTION_S, 8) == Some(Le(r, 8)) && Tag(ts, SEG_PRIOR_ROOT, 32) == Some(root)
      && U32(Le(idx, 4), 0) == idx
    ensures ViewAt(sha, hist, s) == Some(ContinuationView(s, idx, head, U64(Le(r, 8), 0), root))
    ensures OwnPredecessor(sha, hist, s) && DecodeRecord(sha, hist[s]).kind == Some(KIND_SEGMENT_CONTINUATION)
  {
    hide Tag, FirstVal, FirstNum, ContinuationTlvs, EncodeTlvs, ParseTlvs, Decode, U32, U64, Le;
  }

  /** Positions that open a segment. */
  function Opening(entries: seq<Entry>, k: nat): int
    requires k < |entries|
  {
    StartOf(entries, k + 1)
  }

  lemma LiveOpens(sha: Sha, t: Story)
    requires StoryOk(sha, t) && t.entries != []
    ensures 0 < Start(t.entries) < |t.hist| && OpensSegment(sha, t.hist, Start(t.entries), |t.entries|)
  {
    LastEntry(sha, t);
    hide HistOk, EntriesOk, OpensSegment;
  }

  lemma OpeningOpens(sha: Sha, t: Story, k: nat)
    requires StoryOk(sha, t) && k < |t.entries|
    ensures 0 < Opening(t.entries, k) < |t.hist| && OpensSegment(sha, t.hist, Opening(t.entries, k), k + 1)
  {
    hide *;
    OpeningIs(t.entries, k);
    StartIs(t.entries);
    if k + 1 < |t.entries| {
      EntryFacts(sha, t, k + 1);
    } else {
      LiveOpens(sha, t);
    }
  }

  lemma OpeningIs(entries: seq<Entry>, k: nat)
    requires k < |entries|
    ensures Opening(entries, k) == StartOf(entries, k + 1)
  {
  }

  lemma {:induction false} OpeningsIncrease(sha: Sha, t: Story, i: nat, j: nat)
    requires StoryOk(sha, t) && i < j < |t.entries|
    ensures Opening(t.entries, i) < Opening(t.entries, j)
    decreases j
  {
    hide *;
    OpeningIs(t.entries, i);
    OpeningIs(t.entries, j);
    EntryFacts(sha, t, j);
    if i < j - 1 {
      OpeningsIncrease(sha, t, i, j - 1);
      OpeningIs(t.entries, j - 1);
    }
  }

  /** `at` lists, in file order, exactly the records of kind SEGMENT_CONTINUATION. */
  ghost predicate ListsContinuations(sha: Sha, rs: seq<Rec>, at: seq<nat>)
    requires RecsOk(rs)
  {
    && (forall i, j :: 0 <= i < j < |at| ==> at[i] < at[j])
    && (forall i :: i in at <==> 0 <= i < |rs| && DecodeRecord(sha, rs[i]).kind == Some(KIND_SEGMENT_CONTINUATION))
  }

  ghost predicate IsOpening(entries: seq<Entry>, i: nat) {
    exists k :: 0 <= k < |entries| && Opening(entries, k) == i
  }

  lemma BothEmpty(a: seq<nat>, b: seq<nat>)
    requires forall x :: x in a <==> x in b
    ensures a == [] <==> b == []
  {
    if a != [] {
      assert a[0] in b;
    }
    if b != [] {
      assert b[0] in a;
    }
  }

  /** Two increasing lists with the same members are the same list. */
  lemma {:induction false} SameIncreasing(a: seq<nat>, b: seq<nat>)
    requires forall i, j :: 0 <= i < j < |a| ==> a[i] < a[j]
    requires forall i, j :: 0 <= i < j < |b| ==> b[i] < b[j]
    requires forall x :: x in a <==> x in b
    ensures a == b
    decreases |a|
  {
    BothEmpty(a, b);
    if a != [] {
      var m, n := |a| - 1, |b| - 1;
      assert a[m] in b && b[n] in a;
      assert a[m] == b[n];
      forall x ensures x in a[..m] <==> x in b[..n] {
        if x in a[..m] {
          assert x in b;
        }
        if x in b[..n] {
          assert x in a;
        }
      }
      SameIncreasing(a[..m], b[..n]);
      Snoc(a);
      Snoc(b);
    }
  }

  /** Record `i` opens segment `idx`, as the reader sees it. */
  ghost predicate SoundAt(sha: Sha, rs: seq<Rec>, i: nat, idx: nat)
    requires RecsOk(rs)
  {
    && i < |rs| && OwnPredecessor(sha, rs, i)
    && ViewAt(sha, rs, i).Some? && ViewAt(sha, rs, i).value.index == idx
    && RootDeclared(sha, rs, ViewAt(sha, rs, i).value)
  }

  lemma OpeningSound(sha: Sha, t: Story, k: nat, s: nat)
    requires StoryOk(sha, t) && RecsOk(t.hist) && k < |t.entries| && s == Opening(t.entries, k)
    ensures SoundAt(sha, t.hist, s, k + 1)
  {
    StoryParts(sha, t);
    OpeningOpens(sha, t, k);
    hide *;
    var retention := OpeningView(sha, t.hist, s, k + 1);
    RootIs(sha, t.hist, s);
    SoundAtMade(sha, t.hist, s, k + 1);
  }

  lemma SoundAtMade(sha: Sha, rs: seq<Rec>, i: nat, idx: nat)
    requires RecsOk(rs) && i < |rs| && OwnPredecessor(sha, rs, i)
    requires ViewAt(sha, rs, i).Some? && ViewAt(sha, rs, i).value.index == idx
    requires RootDeclared(sha, rs, ViewAt(sha, rs, i).value)
    ensures SoundAt(sha, rs, i, idx)
  {
  }

  /** On the writer's own chain, when only the writer wrote continuations, the reader has nothing to
      report: every predecessor, index and prior root is the one it recomputes. */
  lemma OwnSegmentsAreSound(sha: Sha, t: Story, at: seq<nat>)
    requires StoryOk(sha, t) && RecsOk(t.hist) && ListsContinuations(sha, t.hist, at)
    requires forall i :: i in at ==> IsOpening(t.entries, i)
    ensures |at| == |t.entries| && forall k :: 0 <= k < |at| ==> at[k] < |t.hist|
    ensures Sound(sha, t.hist, at)
  {
    hide *;
    AtOpenings(sha, t, at);
    forall k | 0 <= k < |at| ensures SoundAt(sha, t.hist, at[k], k + 1) {
      OpeningSound(sha, t, k, at[k]);
    }
    SoundMade(sha, t.hist, at);
  }

  lemma SoundMade(sha: Sha, rs: seq<Rec>, at: seq<nat>)
    requires RecsOk(rs) && forall k :: 0 <= k < |at| ==> SoundAt(sha, rs, at[k], k + 1)
    ensures forall k :: 0 <= k < |at| ==> at[k] < |rs|
    ensures Sound(sha, rs, at)
  {
    hide OwnPredecessor, ViewAt, RootDeclared, FullChain, RecsOk;
  }

  lemma RootIs(sha: Sha, hist: seq<Rec>, s: nat)
    requires s <= |hist|
    ensures forall v: ContinuationView :: v.seqNo == s && v.priorRoot == RootTo(sha, hist, s) ==>
      RootDeclared(sha, hist, v)
  {
    hide RecHashes;
  }

  lemma AtOpenings(sha: Sha, t: Story, at: seq<nat>)
    requires StoryOk(sha, t) && RecsOk(t.hist) && ListsContinuations(sha, t.hist, at)
    requires forall i :: i in at ==> IsOpening(t.entries, i)
    ensures |at| == |t.entries| && forall k :: 0 <= k < |at| ==> at[k] == Opening(t.entries, k)
  {
    hide *;
    var b: seq<nat> := OpeningList(sha, t);
    forall x | x in at ensures x in b {
      var k := OpeningAt(t.entries, x);
      assert b[k] == x;
    }
    forall k | 0 <= k < |b| ensures b[k] in at {
      StoryParts(sha, t);
      OpeningOpens(sha, t, k);
      var retention := OpeningView(sha, t.hist, b[k], k + 1);
      ListedContinuation(sha, t.hist, at, b[k]);
    }
    ListsIncrease(sha, t.hist, at);
    SameIncreasing(at, b);
  }

  lemma OpeningAt(entries: seq<Entry>, x: nat) returns (k: nat)
    requires IsOpening(entries, x)
    ensures k < |entries| && Opening(entries, k) == x
  {
    k :| 0 <= k < |entries| && Opening(entries, k) == x;
  }

  lemma ListedContinuation(sha: Sha, rs: seq<Rec>, at: seq<nat>, i: nat)
    requires RecsOk(rs) && ListsContinuations(sha, rs, at) && i < |rs|
    requires DecodeRecord(sha, rs[i]).kind == Some(KIND_SEGMENT_CONTINUATION)
    ensures i in at
  {
    hide DecodeRecord;
  }

  lemma ListsIncrease(sha: Sha, rs: seq<Rec>, at: seq<nat>)
    requires RecsOk(rs) && ListsContinuations(sha, rs, at)
    ensures forall i, j :: 0 <= i < j < |at| ==> at[i] < at[j]
  {
    hide DecodeRecord;
  }

  lemma OpeningList(sha: Sha, t: Story) returns (b: seq<nat>)
    requires StoryOk(sha, t)
    ensures |b| == |t.entries| && forall k :: 0 <= k < |b| ==> b[k] == Opening(t.entries, k)
    ensures forall i, j :: 0 <= i < j < |b| ==> b[i] < b[j]
  {
    hide StoryOk, Opening;
    forall k | 0 <= k < |t.entries| ensures Opening(t.entries, k) >= 0 {
      OpeningOpens(sha, t, k);
    }
    b := seq(|t.entries|, k requires 0 <= k < |t.entries| => Opening(t.entries, k));
    forall i, j | 0 <= i < j < |b| ensures b[i] < b[j] {
      OpeningsIncrease(sha, t, i, j);
    }
  }
}
