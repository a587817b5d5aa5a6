/** What every run of the writer keeps. */
module WriterInv {
  /* The history it has written, how the closed and live segments cut it, and how disk, manifest and
     writer state agree with that cut. */

  import opened Bytes
  import opened Codec
  import opened Frontier
  import opened Writer
  import Merkle

  // ---------- the history ----------

  function PrevHash(sha: Sha, hist: seq<Rec>, i: nat): Digest
    requires i <= |hist|
  {
    if i == 0 then ZERO32 else RecHash(sha, hist[i - 1])
  }

  /** The derived root over the first `n` records, and the frontier that yields it. */
  function RootTo(sha: Sha, hist: seq<Rec>, n: nat): Digest
    requires n <= |hist|
  {
    Merkle.Root(sha, RecHashes(sha, hist[..n]))
  }

  function FrontierTo(sha: Sha, hist: seq<Rec>, n: nat): Peaks
    requires n <= |hist|
  {
    AppendAll(sha, EMPTY, RecHashes(sha, hist[..n]))
  }

  /** Record `i` is well-formed, numbered `i`, linked to its predecessor, and meets the format's MUSTs. */
  ghost predicate RecAt(sha: Sha, r: Rec, i: nat, prev: Digest) {
    && RecOk(r) && Decode(r.hb).Some?
    && var h := Decode(r.hb).value;
      && h.seqNo == i && h.prevHash == prev
      && (h.recordType == RT_GENESIS <==> i == 0)
      && h.keyId == 0 && h.bodyDigest == BodyDigest(sha, r.body)
      && (h.timeTrust == TIME_UNKNOWN ==> h.wallClockNs == 0)
  }

  ghost predicate HistOk(sha: Sha, hist: seq<Rec>) {
    forall i :: 0 <= i < |hist| ==> RecAt(sha, hist[i], i, PrevHash(sha, hist, i))
  }

  // ---------- the cut ----------

  /** The record at `s` opens segment `idx`: it declares its predecessor, ordinal and prior root. */
  ghost predicate Declares(sha: Sha, hist: seq<Rec>, s: int, idx: nat, text: Bytes, retention: nat) {
    && 0 <= s < |hist|
    && |text| <= DETAIL_CLIP && retention < 0x1_0000_0000_0000_0000 && idx < 0x1_0000_0000
    && hist[s].body == EncodeTlvs(ContinuationTlvs(text, PrevHash(sha, hist, s), idx, retention, RootTo(sha, hist, s)))
    && Decode(hist[s].hb).Some? && Decode(hist[s].hb).value.recordType == RT_EVENT
  }

  ghost predicate OpensSegment(sha: Sha, hist: seq<Rec>, s: int, idx: nat) {
    exists text: Bytes, retention: nat :: Declares(sha, hist, s, idx, text, retention)
  }

  function StartOf(entries: seq<Entry>, i: nat): int
    requires i <= |entries|
  {
    if i == 0 then 0 else entries[i - 1].lastSeq + 1
  }

  function Start(entries: seq<Entry>): int { StartOf(entries, |entries|) }

  /** The position of a name among a chain's segments: the base is 0. */
  function Index(name: Name): int { if name.Seg? then name.n else 0 }

  predicate Later(name: Name, before: Name) {
    name.Seg? && name.stem == Base && Index(name) > Index(before)
  }

  /** Entry `i` describes exactly its slice of the history. */
  ghost predicate EntryAt(sha: Sha, hist: seq<Rec>, entries: seq<Entry>, i: nat)
    requires i < |entries|
  {
    var e, s := entries[i], StartOf(entries, i);
    && 0 <= s <= e.lastSeq < |hist|
    && e == EntryFor(sha, hist, e.file, s, e.lastSeq)
    && (i == 0 ==> e.file == Base)
    && (i > 0 ==> Later(e.file, entries[i - 1].file) && OpensSegment(sha, hist, s, i))
  }

  function EntryFor(sha: Sha, hist: seq<Rec>, file: Name, s: nat, last: nat): Entry
    requires s <= last < |hist|
  {
    Entry(file, s, last, last + 1 - s, RecHash(sha, hist[last]), PrevHash(sha, hist, s),
          Some(ToBytes(FrontierTo(sha, hist, last + 1))), Some(RootTo(sha, hist, last + 1)))
  }

  ghost predicate EntriesOk(sha: Sha, hist: seq<Rec>, entries: seq<Entry>) {
    forall i :: 0 <= i < |entries| ==> EntryAt(sha, hist, entries, i)
  }

  ghost predicate LiveAt(sha: Sha, hist: seq<Rec>, entries: seq<Entry>, live: Name) {
    var s := Start(entries);
    && 0 <= s <= |hist|
    && (entries == [] ==> live == Base)
    && (entries != [] ==>
        s < |hist| && Later(live, entries[|entries| - 1].file) && OpensSegment(sha, hist, s, |entries|))
  }

  ghost predicate Layout(sha: Sha, hist: seq<Rec>, entries: seq<Entry>, live: Name) {
    HistOk(sha, hist) && EntriesOk(sha, hist, entries) && LiveAt(sha, hist, entries, live)
  }

  // ---------- the disk ----------

  ghost predicate Listed(entries: seq<Entry>, name: Name) {
    exists i :: 0 <= i < |entries| && entries[i].file == name
  }

  /** Every segment file still on disk holds exactly its slice of the history; the live one may
      carry torn bytes after it. */
  ghost predicate FilesOk(hist: seq<Rec>, d: Disk, entries: seq<Entry>, live: Name, tail: Bytes) {
    && 0 <= Start(entries) <= |hist|
    && (live in d.files || hist == [])
    && ContentOf(d, live) == Container(hist[Start(entries)..]) + tail
    && ClosedHold(hist, d, entries)
    && NoStranger(d, entries, live)
  }

  ghost predicate ClosedHold(hist: seq<Rec>, d: Disk, entries: seq<Entry>) {
    forall i :: 0 <= i < |entries| && entries[i].file in d.files ==> SegmentHolds(hist, d, entries, i)
  }

  ghost predicate NoStranger(d: Disk, entries: seq<Entry>, live: Name) {
    forall n :: Seg(Base, n) in d.files && Seg(Base, n) != live ==> Listed(entries, Seg(Base, n))
  }

  ghost predicate SegmentHolds(hist: seq<Rec>, d: Disk, entries: seq<Entry>, i: nat)
    requires i < |entries|
  {
    && 0 <= StartOf(entries, i) <= entries[i].lastSeq < |hist|
    && ContentOf(d, entries[i].file) == Container(hist[StartOf(entries, i)..entries[i].lastSeq + 1])
  }

  /** The manifest lists exactly the closed segments. */
  predicate Settled(d: Disk, entries: seq<Entry>) {
    if entries == [] then Base !in d.manifests else Base in d.manifests && d.manifests[Base] == entries
  }

  /** A cut has recorded the live segment as closed, and nothing more. */
  predicate HalfCut(sha: Sha, hist: seq<Rec>, d: Disk, entries: seq<Entry>, live: Name) {
    && 0 <= Start(entries) < |hist|
    && Base in d.manifests
    && d.manifests[Base] == entries + [EntryFor(sha, hist, live, Start(entries), |hist| - 1)]
  }

  // ---------- the writer ----------

  ghost predicate FrontOk(sha: Sha, hist: seq<Rec>, entries: seq<Entry>, live: Name, w: WState) {
    if w.deferred.None? then w.frontier == Some(FrontierTo(sha, hist, |hist|)) && w.pending == []
    else
      && w.frontier.None? && entries == [] && w.deferred.value.0 == live && 1 <= w.deferred.value.1 <= |hist|
      && w.pending == RecHashes(sha, hist[w.deferred.value.1..])
  }

  /** A writer without a policy lists nothing; the chain it writes has never been cut. */
  predicate PolicyFits(rotation: Option<Policy>, entries: seq<Entry>) {
    if rotation.Some? then PolicyOk(rotation.value) else entries == []
  }

  ghost predicate WriterOk(sha: Sha, hist: seq<Rec>, entries: seq<Entry>, live: Name, w: WState) {
    && 0 <= Start(entries) <= |hist|
    && IdentityOk(w.id) && w.seqNo == |hist| && w.head == PrevHash(sha, hist, |hist|)
    && (w.started <==> hist != []) && (w.bootPending ==> w.started)
    && w.path == live && w.base == Base && PolicyFits(w.rotation, entries)
    && w.segFirstSeq == Start(entries) && w.segRecords == |hist| - Start(entries)
    && w.segPrevHead == PrevHash(sha, hist, Start(entries))
    && w.segBytes == |Container(hist[Start(entries)..])|
    && w.segOrdinal == Some(|entries|) && w.entries == entries
    && FrontOk(sha, hist, entries, live, w)
  }

  // ---------- frontiers ----------

  lemma {:induction false} AppendAllHolds(sha: Sha, hs: seq<Digest>)
    ensures Holds(sha, AppendAll(sha, EMPTY, hs), hs)
    decreases |hs|
  {
    if hs != [] {
      AppendAllHolds(sha, hs[..|hs| - 1]);
      AppendHolds(sha, AppendAll(sha, EMPTY, hs[..|hs| - 1]), hs[..|hs| - 1], hs[|hs| - 1]);
      Snoc(hs);
    } else {
      assert Merkle.LeafHashes(sha, hs) == [];
    }
  }

  lemma {:induction false} AppendAllSplits(sha: Sha, f: Peaks, a: seq<Digest>, b: seq<Digest>)
    ensures AppendAll(sha, f, a + b) == AppendAll(sha, AppendAll(sha, f, a), b)
    decreases |b|
  {
    if b == [] {
      assert a + b == a;
    } else {
      AppendAllSplits(sha, f, a, b[..|b| - 1]);
      assert (a + b)[..|a + b| - 1] == a + b[..|b| - 1];
    }
  }

  lemma FrontierRoot(sha: Sha, hist: seq<Rec>, n: nat)
    requires n <= |hist|
    ensures PeaksRoot(sha, FrontierTo(sha, hist, n)) == RootTo(sha, hist, n)
    ensures FrontierTo(sha, hist, n).count == n
  {
    AppendAllHolds(sha, RecHashes(sha, hist[..n]));
    RootOfFrontier(sha, FrontierTo(sha, hist, n), RecHashes(sha, hist[..n]));
  }

  lemma FrontierStored(sha: Sha, hist: seq<Rec>, n: nat)
    requires n <= |hist| && n < 0x1_0000_0000_0000_0000
    ensures FromBytes(ToBytes(FrontierTo(sha, hist, n))) == Some(FrontierTo(sha, hist, n))
  {
    AppendAllHolds(sha, RecHashes(sha, hist[..n]));
    PowerWidths();
    FrontierRoundTrips(sha, FrontierTo(sha, hist, n), RecHashes(sha, hist[..n]));
  }

  lemma FrontierSnoc(sha: Sha, hist: seq<Rec>, r: Rec)
    ensures FrontierTo(sha, hist + [r], |hist| + 1) == Append(sha, FrontierTo(sha, hist, |hist|), RecHash(sha, r))
  {
    var hs := RecHashes(sha, hist + [r]);
    assert (hist + [r])[..|hist| + 1] == hist + [r] && hist[..|hist|] == hist;
    assert hs[..|hs| - 1] == RecHashes(sha, hist) && hs[|hs| - 1] == RecHash(sha, r);
  }

  lemma FrontierJoins(sha: Sha, hist: seq<Rec>, c: nat)
    requires c <= |hist|
    ensures AppendAll(sha, EMPTY, RecHashes(sha, hist[..c]) + RecHashes(sha, hist[c..])) ==
      FrontierTo(sha, hist, |hist|)
    ensures AppendAll(sha, FrontierTo(sha, hist, c), RecHashes(sha, hist[c..])) == FrontierTo(sha, hist, |hist|)
  {
    assert RecHashes(sha, hist[..|hist|]) == RecHashes(sha, hist[..c]) + RecHashes(sha, hist[c..]);
    AppendAllSplits(sha, EMPTY, RecHashes(sha, hist[..c]), RecHashes(sha, hist[c..]));
  }

  // ---------- the history only grows ----------

  lemma PrefixStable(sha: Sha, hist: seq<Rec>, r: Rec, n: nat)
    requires n <= |hist|
    ensures PrevHash(sha, hist + [r], n) == PrevHash(sha, hist, n)
    ensures RootTo(sha, hist + [r], n) == RootTo(sha, hist, n)
    ensures FrontierTo(sha, hist + [r], n) == FrontierTo(sha, hist, n)
  {
    assert (hist + [r])[..n] == hist[..n];
  }

  lemma HistGrows(sha: Sha, hist: seq<Rec>, r: Rec)
    requires HistOk(sha, hist) && RecAt(sha, r, |hist|, PrevHash(sha, hist, |hist|))
    ensures HistOk(sha, hist + [r])
  {
    hide RecAt, RootTo, FrontierTo, PrevHash;
    var all := hist + [r];
    forall i | 0 <= i < |all| ensures RecAt(sha, all[i], i, PrevHash(sha, all, i)) {
      PrefixStable(sha, hist, r, i);
      assert i < |hist| ==> all[i] == hist[i];
    }
  }

  lemma OpensGrows(sha: Sha, hist: seq<Rec>, r: Rec, s: int, idx: nat)
    requires OpensSegment(sha, hist, s, idx)
    ensures OpensSegment(sha, hist + [r], s, idx)
  {
    var text, retention :| Declares(sha, hist, s, idx, text, retention);
    PrefixStable(sha, hist, r, s);
    assert Declares(sha, hist + [r], s, idx, text, retention);
  }

  lemma EntryForGrows(sha: Sha, hist: seq<Rec>, r: Rec, file: Name, s: nat, last: nat)
    requires s <= last < |hist|
    ensures EntryFor(sha, hist + [r], file, s, last) == EntryFor(sha, hist, file, s, last)
  {
    PrefixStable(sha, hist, r, s);
    PrefixStable(sha, hist, r, last + 1);
  }

  lemma EntriesGrow(sha: Sha, hist: seq<Rec>, r: Rec, entries: seq<Entry>)
    requires EntriesOk(sha, hist, entries)
    ensures EntriesOk(sha, hist + [r], entries)
  {
    forall i | 0 <= i < |entries| ensures EntryAt(sha, hist + [r], entries, i) {
      assert EntryAt(sha, hist, entries, i);
      EntryForGrows(sha, hist, r, entries[i].file, StartOf(entries, i), entries[i].lastSeq);
      if i > 0 {
        OpensGrows(sha, hist, r, StartOf(entries, i), i);
      }
    }
  }

  lemma LayoutGrows(sha: Sha, hist: seq<Rec>, r: Rec, entries: seq<Entry>, live: Name)
    requires Layout(sha, hist, entries, live) && RecAt(sha, r, |hist|, PrevHash(sha, hist, |hist|))
    ensures Layout(sha, hist + [r], entries, live)
  {
    HistGrows(sha, hist, r);
    EntriesGrow(sha, hist, r, entries);
    if entries != [] {
      OpensGrows(sha, hist, r, Start(entries), |entries|);
    }
  }

  /** Closing the live segment extends the list by one good entry. */
  lemma LayoutCloses(sha: Sha, hist: seq<Rec>, entries: seq<Entry>, live: Name)
    requires Layout(sha, hist, entries, live) && Start(entries) < |hist|
    ensures EntriesOk(sha, hist, entries + [EntryFor(sha, hist, live, Start(entries), |hist| - 1)])
  {
    hide HistOk, OpensSegment, RootTo, FrontierTo, PrevHash, ToBytes;
    var e := EntryFor(sha, hist, live, Start(entries), |hist| - 1);
    var all := entries + [e];
    forall i | 0 <= i < |all| ensures EntryAt(sha, hist, all, i) {
      assert StartOf(all, i) == StartOf(entries, i);
      if i < |entries| {
        EntryKept(sha, hist, entries, e, i);
      }
    }
  }

  lemma EntryKept(sha: Sha, hist: seq<Rec>, entries: seq<Entry>, e: Entry, i: nat)
    requires i < |entries| && EntriesOk(sha, hist, entries)
    ensures EntryAt(sha, hist, entries + [e], i)
  {
    hide OpensSegment, EntryFor;
    assert EntryAt(sha, hist, entries, i);
    assert StartOf(entries + [e], i) == StartOf(entries, i);
  }

  /** File indexes of the list strictly increase. */
  lemma NamesIncrease(sha: Sha, hist: seq<Rec>, entries: seq<Entry>, i: nat, j: nat)
    requires EntriesOk(sha, hist, entries) && i < j < |entries|
    ensures Index(entries[i].file) < Index(entries[j].file) && Later(entries[j].file, entries[i].file)
    decreases j
  {
    assert EntryAt(sha, hist, entries, j);
    if i < j - 1 {
      NamesIncrease(sha, hist, entries, i, j - 1);
    }
  }

  lemma LiveIsLast(sha: Sha, hist: seq<Rec>, entries: seq<Entry>, live: Name, i: nat)
    requires EntriesOk(sha, hist, entries) && LiveAt(sha, hist, entries, live) && i < |entries|
    ensures Index(entries[i].file) < Index(live) && entries[i].file != live
  {
    if i < |entries| - 1 {
      NamesIncrease(sha, hist, entries, i, |entries| - 1);
    }
  }

  // ---------- a record is written ----------

  lemma StampIsRec(sha: Sha, w: WState, x: Draft, c: Clock, hist: seq<Rec>)
    requires CanStamp(w, x, c) && w.seqNo == |hist| && w.head == PrevHash(sha, hist, |hist|)
    requires x.recordType == RT_GENESIS <==> hist == []
    ensures var r := Stamp(sha, w, x, c);
      && RecAt(sha, r, |hist|, w.head) && r.body == x.body
      && Decode(r.hb) == Some(HeaderFor(sha, w, x, c))
  {
    var h := HeaderFor(sha, w, x, c);
    DecodeEncoded(h);
    EncodedPrefixFields(h);
    EncodedSuffixFields(h);
  }

  lemma SourceIsHistory(hist: seq<Rec>, d: Disk, live: Name)
    requires RecsOk(hist) && ContentOf(d, live) == Container(hist)
    ensures Walk(ContentOf(d, live)) == (hist, [])
  {
    WalkContainer(hist, []);
    assert Container(hist) + [] == Container(hist);
  }

  lemma HistRecsOk(sha: Sha, hist: seq<Rec>, s: nat)
    requires HistOk(sha, hist) && s <= |hist|
    ensures RecsOk(hist) && RecsOk(hist[s..])
  {
    forall i | 0 <= i < |hist| ensures RecOk(hist[i]) {
      assert RecAt(sha, hist[i], i, PrevHash(sha, hist, i));
    }
    forall i | 0 <= i < |hist| - s ensures RecOk(hist[s..][i]) {
      assert hist[s..][i] == hist[s + i];
    }
  }

  /** A deferred frontier, built late, is the eager one. */
  lemma MaterializedIsEager(sha: Sha, hist: seq<Rec>, entries: seq<Entry>, live: Name, w: WState, d: Disk)
    requires HistOk(sha, hist) && WriterOk(sha, hist, entries, live, w)
    requires w.deferred.Some? ==> live in d.files && HoldsFrom(d, live, hist, w.deferred.value.1)
    ensures SourceOk(w, d)
    ensures Materialize(sha, w, d) ==
      w.(frontier := Some(FrontierTo(sha, hist, |hist|)), deferred := None, pending := [])
  {
    if w.deferred.Some? {
      FrontierJoins(sha, hist, w.deferred.value.1);
    }
  }

  /** The file's first `c` records are the history's. */
  ghost predicate HoldsFrom(d: Disk, live: Name, hist: seq<Rec>, c: nat) {
    && c <= |hist| && live in d.files
    && var rs := Walk(d.files[live]).0; c <= |rs| && rs[..c] == hist[..c]
  }

  lemma LiveHolds(sha: Sha, hist: seq<Rec>, d: Disk, live: Name, c: nat)
    requires HistOk(sha, hist) && live in d.files && c <= |hist|
    requires ContentOf(d, live) == Container(hist)
    ensures HoldsFrom(d, live, hist, c)
  {
    HistRecsOk(sha, hist, 0);
    SourceIsHistory(hist, d, live);
  }

  lemma SuffixGrows(hist: seq<Rec>, r: Rec, s: nat)
    requires s <= |hist|
    ensures (hist + [r])[s..] == hist[s..] + [r]
    ensures Container((hist + [r])[s..]) == Container(hist[s..]) + RecBytes(r)
  {
    assert (hist + [r])[s..] == hist[s..] + [r];
    ContainerAppend(hist[s..], [r]);
    ContainerOne(r);
  }

  lemma CommitFrontier(sha: Sha, hist: seq<Rec>, entries: seq<Entry>, live: Name, w: WState, d: Disk,
                       recordType: nat, spanId: Bytes, r: Rec)
    requires HistOk(sha, hist) && FrontOk(sha, hist, entries, live, w)
    requires w.deferred.Some? ==> HoldsFrom(d, live, hist, w.deferred.value.1)
    ensures SourceOk(w, d)
    ensures FrontOk(sha, hist + [r], entries, live, Commit(sha, w, d, recordType, spanId, r))
  {
    hide HistOk, AppendAll, FrontierTo, Walk;
    if w.deferred.Some? {
      CommitDeferred(sha, hist, live, d, w.deferred.value.1, r);
    } else {
      FrontierSnoc(sha, hist, r);
    }
  }

  /** The pending hash of one more record, and what a build at this point would give. */
  lemma CommitDeferred(sha: Sha, hist: seq<Rec>, live: Name, d: Disk, c: nat, r: Rec)
    requires HoldsFrom(d, live, hist, c)
    ensures var all := hist + [r];
      && RecHashes(sha, all[c..]) == RecHashes(sha, hist[c..]) + [RecHash(sha, r)]
      && AppendAll(sha, EMPTY, RecHashes(sha, Walk(d.files[live]).0[..c]) + RecHashes(sha, all[c..]))
         == FrontierTo(sha, all, |all|)
  {
    var all := hist + [r];
    assert all[c..] == hist[c..] + [r] && all[..c] == hist[..c];
    assert RecHashes(sha, all[c..]) == RecHashes(sha, hist[c..]) + [RecHash(sha, r)];
    hide *;
    WalkedPrefix(d, live, hist, c);
    FrontierJoins(sha, all, c);
  }

  lemma WalkedPrefix(d: Disk, live: Name, hist: seq<Rec>, c: nat)
    requires HoldsFrom(d, live, hist, c)
    ensures live in d.files && c <= |hist| && c <= |Walk(d.files[live]).0| && Walk(d.files[live]).0[..c] == hist[..c]
  {
  }

  lemma RecSize(r: Rec)
    ensures |RecBytes(r)| == |r.hb| + |r.body|
  {
  }

  lemma CommitSource(hist: seq<Rec>, live: Name, w: WState, d: Disk)
    requires w.deferred.Some? ==> w.deferred.value.0 == live && HoldsFrom(d, live, hist, w.deferred.value.1)
    ensures SourceOk(w, d) && SourceOk(w.(started := true), d)
  {
    hide Walk;
  }

  /** What a commit does to the fields that are no part of the frontier. */
  lemma CommitFields(sha: Sha, w: WState, d: Disk, recordType: nat, spanId: Bytes, r: Rec)
    requires SourceOk(w, d)
    ensures var w' := Commit(sha, w, d, recordType, spanId, r);
      && w'.id == w.id && w'.seqNo == w.seqNo + 1 && w'.head == RecHash(sha, r) && w'.started == w.started
      && w'.bootPending == w.bootPending && w'.path == w.path && w'.base == w.base && w'.rotation == w.rotation
      && w'.segFirstSeq == w.segFirstSeq && w'.segRecords == w.segRecords + 1 && w'.segPrevHead == w.segPrevHead
      && w'.segBytes == w.segBytes + |r.hb| + |r.body| && w'.segOrdinal == w.segOrdinal && w'.entries == w.entries
  {
    hide *;
    CommitOnly(sha, w, d, recordType, spanId, r);
  }

  lemma CommitOnly(sha: Sha, w: WState, d: Disk, recordType: nat, spanId: Bytes, r: Rec)
    requires SourceOk(w, d)
    ensures var w' := Commit(sha, w, d, recordType, spanId, r);
      w' == w.(head := RecHash(sha, r), seqNo := w.seqNo + 1, segRecords := w.segRecords + 1,
               segBytes := w.segBytes + |r.hb| + |r.body|, openSpans := w'.openSpans,
               frontier := w'.frontier, deferred := w'.deferred, pending := w'.pending)
  {
    hide AppendAll, RecHashes, Walk, NextSpans, Append;
  }

  /** One more record on the live segment. */
  lemma CommitKeeps(sha: Sha, hist: seq<Rec>, entries: seq<Entry>, live: Name, w: WState, d: Disk,
                    recordType: nat, spanId: Bytes, r: Rec)
    requires HistOk(sha, hist) && WriterOk(sha, hist, entries, live, w)
    requires !w.bootPending
    requires w.deferred.Some? ==> HoldsFrom(d, live, hist, w.deferred.value.1)
    ensures SourceOk(w, d)
    ensures WriterOk(sha, hist + [r], entries, live, Commit(sha, w.(started := true), d, recordType, spanId, r))
  {
    hide FrontierTo, RootTo, Container, RecBytes, PolicyOk, HistOk, AppendAll, Commit;
    var w' := w.(started := true);
    CommitSource(hist, live, w, d);
    CommitFields(sha, w', d, recordType, spanId, r);
    var all := hist + [r];
    RecSize(r);
    CommitFrontier(sha, hist, entries, live, w', d, recordType, spanId, r);
    SuffixGrows(hist, r, Start(entries));
    PrefixStable(sha, hist, r, Start(entries));
    assert PrevHash(sha, all, |all|) == RecHash(sha, r);
  }
}
