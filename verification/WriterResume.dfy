/** Resuming: what every crash leaves can be resumed on the live file, to one explicit state; and
    which files refuse a resume.

    The state resumed to is written out, so that no crash, torn write or half-finished cut can make a
    difference to the writer that comes up after it. */
module WriterResume {
  import opened Bytes
  import opened Codec
  import opened Frontier
  import opened Profile
  import opened Writer
  import opened WriterInv
  import opened WriterCut

  // ---------- distinct hashes ----------

  function HeaderSetOf(hist: seq<Rec>): set<Bytes> {
    set i | 0 <= i < |hist| :: hist[i].hb
  }

  ghost predicate Distinct(sha: Sha, hist: seq<Rec>) {
    forall i, j :: 0 <= i < j < |hist| ==> RecHash(sha, hist[i]) != RecHash(sha, hist[j])
  }

  /** Numbered headers differ, so without a collision among them their hashes differ. */
  lemma NumbersKeepApart(sha: Sha, hist: seq<Rec>)
    requires HistOk(sha, hist) && NoCollision(sha, HeaderSetOf(hist))
    ensures Distinct(sha, hist)
  {
    hide HistOk, NoCollision, HeaderSetOf, RecHash;
    forall i, j | 0 <= i < j < |hist| ensures RecHash(sha, hist[i]) != RecHash(sha, hist[j]) {
      PairApart(sha, hist, i, j);
    }
  }

  lemma PairApart(sha: Sha, hist: seq<Rec>, i: nat, j: nat)
    requires HistOk(sha, hist) && NoCollision(sha, HeaderSetOf(hist)) && i < j < |hist|
    ensures RecHash(sha, hist[i]) != RecHash(sha, hist[j])
  {
    NumberOf(sha, hist, i);
    NumberOf(sha, hist, j);
    hide HistOk, Decode;
    assert hist[i].hb in HeaderSetOf(hist) && hist[j].hb in HeaderSetOf(hist);
  }

  lemma NumberOf(sha: Sha, hist: seq<Rec>, i: nat)
    requires HistOk(sha, hist) && i < |hist|
    ensures Decode(hist[i].hb).Some? && Decode(hist[i].hb).value.seqNo == i
  {
    assert RecAt(sha, hist[i], i, PrevHash(sha, hist, i));
    hide Decode;
  }

  lemma ApartFrom(sha: Sha, hist: seq<Rec>, s: nat)
    requires Distinct(sha, hist) && 0 < s < |hist|
    ensures PrevHash(sha, hist, s) != PrevHash(sha, hist, |hist|)
  {
  }

  // ---------- what a scan of a segment sees ----------

  /** The slice of the history a file holds, followed by `tail`. */
  ghost predicate Holding(hist: seq<Rec>, data: Bytes, s: nat, e: nat, tail: Bytes) {
    s < e <= |hist| && data == Container(hist[s..e]) + tail && (tail == [] || FirstRec(tail).None?)
  }

  lemma SliceEnds(hist: seq<Rec>, s: nat, e: nat)
    requires s < e <= |hist|
    ensures |hist[s..e]| == e - s && hist[s..e][0] == hist[s] && hist[s..e][e - s - 1] == hist[e - 1]
  {
  }

  lemma HoldingParts(hist: seq<Rec>, data: Bytes, s: nat, e: nat, tail: Bytes)
    requires Holding(hist, data, s, e, tail)
    ensures s < e <= |hist| && data == Container(hist[s..e]) + tail && (tail == [] || FirstRec(tail).None?)
    ensures |data| - |tail| == |Container(hist[s..e])|
  {
  }

  lemma ScanSees(sha: Sha, hist: seq<Rec>, data: Bytes, s: nat, e: nat, tail: Bytes)
    requires HistOk(sha, hist) && Holding(hist, data, s, e, tail)
    ensures s < e <= |hist| && Walk(data) == (hist[s..e], tail)
    ensures |data| - |tail| == |Container(hist[s..e])|
  {
    hide *;
    HoldingParts(hist, data, s, e, tail);
    SliceOk(sha, hist, s, e);
    WalkContainer(hist[s..e], tail);
  }

  lemma SliceOk(sha: Sha, hist: seq<Rec>, s: nat, e: nat)
    requires HistOk(sha, hist) && s <= e <= |hist|
    ensures RecsOk(hist[s..e])
  {
    forall i | 0 <= i < e - s ensures RecOk(hist[s..e][i]) {
      assert RecAt(sha, hist[s + i], s + i, PrevHash(sha, hist, s + i));
    }
  }

  lemma RecFacts(sha: Sha, hist: seq<Rec>, i: nat)
    requires HistOk(sha, hist) && i < |hist|
    ensures Decode(hist[i].hb).Some? && Decode(hist[i].hb).value.seqNo == i
    ensures Decode(hist[i].hb).value.prevHash == PrevHash(sha, hist, i) && Decode(hist[i].hb).value.keyId == 0
    ensures RecOk(hist[i]) && U64(hist[i].hb, 12) == i && At(hist[i].hb, 36, 32) == PrevHash(sha, hist, i)
  {
    assert RecAt(sha, hist[i], i, PrevHash(sha, hist, i));
  }

  lemma StartsWith(hist: seq<Rec>, data: Bytes, s: nat, e: nat, tail: Bytes)
    requires Holding(hist, data, s, e, tail) && RecOk(hist[s])
    ensures |data| >= FIXED_LEN && At(data, 0, 4) == MAGIC && At(data, 36, 32) == At(hist[s].hb, 36, 32)
    ensures data != []
  {
    ContainerFirst(hist[s], hist[s..e][1..]);
    assert hist[s..e] == [hist[s]] + hist[s..e][1..];
    var rest := hist[s].body + Container(hist[s..e][1..]) + tail;
    assert data == hist[s].hb + rest;
    assert data[0..4] == hist[s].hb[0..4] && data[36..68] == hist[s].hb[36..68];
  }

  // ---------- the continuation's tags ----------

  lemma DeclaredTags(text: Bytes, head: Digest, index: nat, retention: nat, root: Digest)
    ensures var ts := ContinuationTlvs(text, head, index, retention, root);
      && LastVal(ts, EVT_KIND) == Some(Le(KIND_SEGMENT_CONTINUATION, 2))
      && LastVal(ts, SEG_INDEX) == Some(Le(index, 4))
  {
    var a := [] + [Tlv(EVT_KIND, Le(KIND_SEGMENT_CONTINUATION, 2))];
    var b := if text == [] then a else a + [Tlv(EVT_DETAIL, text)];
    var c := b + [Tlv(SEG_PREDECESSOR_HEAD, head)];
    var d := c + [Tlv(SEG_INDEX, Le(index, 4))];
    var e := d + [Tlv(SEG_RETENTION_S, Le(retention, 8))];
    var f := e + [Tlv(SEG_PRIOR_ROOT, root)];
    assert ContinuationTlvs(text, head, index, retention, root) == f;
    forall tag | tag == EVT_KIND || tag == SEG_INDEX
      ensures LastVal(f, tag) == LastVal(d, tag)
    {
      LastValSnoc(d, Tlv(SEG_RETENTION_S, Le(retention, 8)), tag);
      LastValSnoc(e, Tlv(SEG_PRIOR_ROOT, root), tag);
    }
    LastValSnoc(c, Tlv(SEG_INDEX, Le(index, 4)), SEG_INDEX);
    LastValSnoc(c, Tlv(SEG_INDEX, Le(index, 4)), EVT_KIND);
    LastValSnoc(b, Tlv(SEG_PREDECESSOR_HEAD, head), EVT_KIND);
    LastValSnoc(a, Tlv(EVT_DETAIL, text), EVT_KIND);
    LastValSnoc([], Tlv(EVT_KIND, Le(KIND_SEGMENT_CONTINUATION, 2)), EVT_KIND);
  }

  lemma ContinuationParses(text: Bytes, head: Digest, index: nat, retention: nat, root: Digest)
    requires |text| <= DETAIL_CLIP
    ensures var ts := ContinuationTlvs(text, head, index, retention, root);
      ParseTlvs(EncodeTlvs(ts)) == Some(ts) && EncodeTlvs(ts) != []
  {
    var ts := ContinuationTlvs(text, head, index, retention, root);
    ParseEncoded(ts);
  }

  /** A continuation says which segment it opens. */
  lemma OpensDeclares(sha: Sha, hist: seq<Rec>, s: nat, idx: nat)
    requires HistOk(sha, hist) && OpensSegment(sha, hist, s, idx)
    ensures s < |hist| && Decode(hist[s].hb).Some?
    ensures DeclaredIndex(Decode(hist[s].hb).value, hist[s].body) == Some(idx)
  {
    hide HistOk, PrevHash, RootTo, Decode, ContinuationTlvs, EncodeTlvs, ParseTlvs, LastVal, U16, U32, Le;
    var text, retention :| Declares(sha, hist, s, idx, text, retention);
    RecFacts(sha, hist, s);
    var head, root := PrevHash(sha, hist, s), RootTo(sha, hist, s);
    ContinuationParses(text, head, idx, retention, root);
    DeclaredTags(text, head, idx, retention, root);
    IndexReads(idx);
  }

  lemma IndexReads(idx: nat)
    requires idx < 0x1_0000_0000
    ensures U32(Le(idx, 4), 0) == idx
    ensures U16(Le(KIND_SEGMENT_CONTINUATION, 2), 0) == KIND_SEGMENT_CONTINUATION
  {
    PowerWidths();
    UnLeLe(idx, 4);
    UnLeLe(KIND_SEGMENT_CONTINUATION, 2);
    assert At(Le(idx, 4), 0, 4) == Le(idx, 4);
    assert At(Le(KIND_SEGMENT_CONTINUATION, 2), 0, 2) == Le(KIND_SEGMENT_CONTINUATION, 2);
  }

  // ---------- the resumed state ----------

  /** The one state a resume of this story's live file leads to. */
  function Resumed(sha: Sha, t: Story, tail: Bytes, rotation: Option<Policy>, id: Identity, now: real): WState
    requires 0 <= Start(t.entries) < |t.hist|
  {
    var s := Start(t.entries);
    var size := |Container(t.hist[s..])|;
    WState(id, |t.hist|, PrevHash(sha, t.hist, |t.hist|), true, true, |tail|, size, {},
           if t.entries == [] then None else Some(FrontierTo(sha, t.hist, |t.hist|)),
           if t.entries == [] then Some((t.live, |t.hist|)) else None, [],
           t.live, Base, rotation, |t.hist| - s, s, PrevHash(sha, t.hist, s), size, now, 0, false,
           Some(|t.entries|), t.entries)
  }

  lemma ResumedIsGood(sha: Sha, t: Story, tail: Bytes, rotation: Option<Policy>, id: Identity, now: real)
    requires StoryOk(sha, t) && 0 <= Start(t.entries) < |t.hist| && PolicyFits(rotation, t.entries) && IdentityOk(id)
    ensures WriterOk(sha, t.hist, t.entries, t.live, Resumed(sha, t, tail, rotation, id, now))
  {
    assert RecHashes(sha, t.hist[|t.hist|..]) == [];
  }

  /** What an entry says, spelled out. */
  lemma EntryFacts(sha: Sha, t: Story, i: nat)
    requires StoryOk(sha, t) && i < |t.entries|
    ensures var e, s := t.entries[i], StartOf(t.entries, i);
      && 0 <= s <= e.lastSeq < |t.hist| && e.lastSeq + 1 == StartOf(t.entries, i + 1)
      && e.head == PrevHash(sha, t.hist, e.lastSeq + 1)
      && e.frontier == Some(ToBytes(FrontierTo(sha, t.hist, e.lastSeq + 1)))
      && (i == 0 ==> e.file == Base)
      && (i > 0 ==> e.file.Seg? && e.file.stem == Base && s > 0 && OpensSegment(sha, t.hist, s, i))
  {
    hide *;
    EntryAtIndex(sha, t, i);
    EntryParts(sha, t.hist, t.entries, i);
    StartsAfter(t.entries, i);
    if i > 0 {
      EntryAtIndex(sha, t, i - 1);
      EntryParts(sha, t.hist, t.entries, i - 1);
      StartsAfter(t.entries, i - 1);
    }
  }

  lemma EntryAtIndex(sha: Sha, t: Story, i: nat)
    requires StoryOk(sha, t) && i < |t.entries|
    ensures EntryAt(sha, t.hist, t.entries, i)
  {
    hide EntryAt, HistOk, LiveAt;
  }

  lemma StartsAfter(entries: seq<Entry>, i: nat)
    requires i < |entries|
    ensures StartOf(entries, i + 1) == entries[i].lastSeq + 1
  {
  }

  lemma EntryParts(sha: Sha, hist: seq<Rec>, entries: seq<Entry>, i: nat)
    requires i < |entries| && EntryAt(sha, hist, entries, i)
    ensures var e, s := entries[i], StartOf(entries, i);
      && 0 <= s <= e.lastSeq < |hist| && e.head == PrevHash(sha, hist, e.lastSeq + 1)
      && e.frontier == Some(ToBytes(FrontierTo(sha, hist, e.lastSeq + 1)))
      && (i == 0 ==> e.file == Base)
      && (i > 0 ==> e.file.Seg? && e.file.stem == Base && OpensSegment(sha, hist, s, i))
  {
    hide OpensSegment, ToBytes, FrontierTo, RootTo;
  }

  /** Files of a clean story: `i`-th closed one, or the live one. */
  lemma ClosedHolding(sha: Sha, t: Story, d: Disk, tail: Bytes, i: nat)
    requires StoryOk(sha, t) && DiskHolds(t, d, tail) && i < |t.entries| && t.entries[i].file in d.files
    ensures var s, e := StartOf(t.entries, i), t.entries[i].lastSeq + 1;
      0 <= s < e <= |t.hist| && Holding(t.hist, d.files[t.entries[i].file], s, e, [])
  {
    hide *;
    EntryFacts(sha, t, i);
    DiskParts(t, d, tail);
    SegmentParts(t.hist, d, t.entries, i);
    var s, e := StartOf(t.entries, i), t.entries[i].lastSeq + 1;
    NothingAfter(Container(t.hist[s..e]));
    HoldingMade(t.hist, d.files[t.entries[i].file], s, e, []);
  }

  lemma SegmentParts(hist: seq<Rec>, d: Disk, entries: seq<Entry>, i: nat)
    requires ClosedHold(hist, d, entries) && i < |entries| && entries[i].file in d.files
    ensures 0 <= StartOf(entries, i) <= entries[i].lastSeq < |hist|
    ensures d.files[entries[i].file] == Container(hist[StartOf(entries, i)..entries[i].lastSeq + 1])
  {
    assert SegmentHolds(hist, d, entries, i);
  }

  lemma HoldingMade(hist: seq<Rec>, data: Bytes, s: nat, e: nat, tail: Bytes)
    requires s < e <= |hist| && data == Container(hist[s..e]) + tail && (tail == [] || FirstRec(tail).None?)
    ensures Holding(hist, data, s, e, tail)
  {
  }

  lemma LiveHolding(sha: Sha, t: Story, d: Disk, tail: Bytes)
    requires Crashed(sha, t, d, tail) && t.hist != []
    ensures 0 <= Start(t.entries) < |t.hist| && t.live in d.files
    ensures Holding(t.hist, d.files[t.live], Start(t.entries), |t.hist|, tail)
  {
    hide *;
    CrashedParts(sha, t, d, tail);
    StoryParts(sha, t);
    LiveStarts(sha, t);
    DiskParts(t, d, tail);
    ContentIs(d, t.live);
    var s := Start(t.entries);
    assert t.hist[s..|t.hist|] == t.hist[s..];
    HoldingMade(t.hist, d.files[t.live], s, |t.hist|, tail);
  }

  lemma CrashedParts(sha: Sha, t: Story, d: Disk, tail: Bytes)
    requires Crashed(sha, t, d, tail)
    ensures StoryOk(sha, t) && DiskHolds(t, d, tail) && (tail == [] || FirstRec(tail).None?)
  {
    hide StoryOk, DiskHolds, FirstRec, Settled, HalfCut;
  }

  lemma LiveStarts(sha: Sha, t: Story)
    requires StoryOk(sha, t) && t.hist != []
    ensures 0 <= Start(t.entries) < |t.hist|
  {
    hide HistOk, EntriesOk, OpensSegment;
  }

  /** No file on disk follows the last record: nothing has been written after it anywhere. */
  lemma NothingFollows(sha: Sha, t: Story, d: Disk, tail: Bytes)
    requires Crashed(sha, t, d, tail) && t.hist != [] && Distinct(sha, t.hist)
    ensures !HasSuccessor(d, Base, PrevHash(sha, t.hist, |t.hist|))
  {
    var head := PrevHash(sha, t.hist, |t.hist|);
    forall x | x in d.files && Follows(d, Base, head, x) ensures false {
      var s := FollowerStart(sha, t, d, tail, x);
      ApartFrom(sha, t.hist, s);
    }
  }

  /** The first record of a segment file on disk is a record of the history that is not the first. */
  lemma FollowerStart(sha: Sha, t: Story, d: Disk, tail: Bytes, x: Name) returns (s: nat)
    requires Crashed(sha, t, d, tail) && t.hist != []
    requires x in d.files && x.Seg? && x.stem == Base
    ensures 0 < s < |t.hist| && |d.files[x]| >= FIXED_LEN && At(d.files[x], 36, 32) == PrevHash(sha, t.hist, s)
  {
    hide *;
    SettledOrHalf(sha, t, d, tail);
    StoryParts(sha, t);
    DiskParts(t, d, tail);
    var e: nat, over: Bytes;
    if x == t.live {
      LiveHolding(sha, t, d, tail);
      LiveSegStart(sha, t);
      s, e, over := Start(t.entries), |t.hist|, tail;
    } else {
      var i := ListedAt(d, t.entries, t.live, x);
      ClosedHolding(sha, t, d, tail, i);
      EntryFacts(sha, t, i);
      s, e, over := StartOf(t.entries, i), t.entries[i].lastSeq + 1, [];
    }
    HoldingParts(t.hist, d.files[x], s, e, over);
    RecFacts(sha, t.hist, s);
    StartsWith(t.hist, d.files[x], s, e, over);
  }

  lemma ListedAt(d: Disk, entries: seq<Entry>, live: Name, x: Name) returns (i: nat)
    requires NoStranger(d, entries, live) && x in d.files && x.Seg? && x.stem == Base && x != live
    ensures i < |entries| && entries[i].file == x
  {
    assert Listed(entries, Seg(Base, x.n));
    i :| 0 <= i < |entries| && entries[i].file == x;
  }

  lemma LiveSegStart(sha: Sha, t: Story)
    requires StoryOk(sha, t)
    ensures t.live.Seg? ==> t.entries != [] && Start(t.entries) > 0
    ensures t.entries != [] ==> t.live.Seg? && t.live.stem == Base && Start(t.entries) > 0
  {
    StoryParts(sha, t);
    if t.entries != [] {
      EntryFacts(sha, t, |t.entries| - 1);
    }
  }

  // ---------- the live file resumes ----------

  lemma SettledOrHalf(sha: Sha, t: Story, d: Disk, tail: Bytes)
    requires Crashed(sha, t, d, tail)
    ensures Settled(d, t.entries) || (tail == [] && HalfCut(sha, t.hist, d, t.entries, t.live))
    ensures StoryOk(sha, t) && DiskHolds(t, d, tail)
  {
  }

  lemma LastEntry(sha: Sha, t: Story)
    requires StoryOk(sha, t) && t.entries != []
    ensures var e := t.entries[|t.entries| - 1];
      && Start(t.entries) > 0 && Start(t.entries) <= |t.hist| && e.head == PrevHash(sha, t.hist, Start(t.entries))
      && e.frontier == Some(ToBytes(FrontierTo(sha, t.hist, Start(t.entries)))) && e.file != t.live
      && t.live.Seg? && t.live.stem == Base
  {
    hide *;
    EntryFacts(sha, t, |t.entries| - 1);
    StartIs(t.entries);
    LiveIsLastOf(sha, t, |t.entries| - 1);
    LiveSegStart(sha, t);
  }

  lemma StartIs(entries: seq<Entry>)
    ensures Start(entries) == StartOf(entries, |entries|)
  {
  }

  lemma ClosedBySnoc(entries: seq<Entry>, e: Entry, prev: Bytes)
    ensures ClosedBy(entries + [e], prev) == if e.head == prev then Some(|entries|) else ClosedBy(entries, prev)
  {
    assert (entries + [e])[..|entries|] == entries;
  }

  lemma StoredFrontier(d: Disk, name: Name, first: Header, entries: seq<Entry>, i: nat, raw: Bytes, f: Peaks)
    requires first.seqNo != 0 && name.Seg? && name.stem in d.manifests && d.manifests[name.stem] == entries
    requires ClosedBy(entries, first.prevHash) == Some(i) && i < |entries| && entries[i].frontier == Some(raw)
    requires FromBytes(raw) == Some(f) && f.count == first.seqNo
    ensures StartingFrontier(d, name, first) == Some(f)
  {
  }

  /** The manifest on disk: the closed segments, and perhaps the live one already. */
  lemma ManifestIs(sha: Sha, t: Story, d: Disk, tail: Bytes)
    requires Crashed(sha, t, d, tail) && t.hist != []
    ensures 0 <= Start(t.entries) < |t.hist|
    ensures Settled(d, t.entries) ==> ListedOn(d) == t.entries && (t.entries != [] ==> Base in d.manifests)
    ensures !Settled(d, t.entries) ==> (
      && tail == [] && Base in d.manifests
      && ListedOn(d) == t.entries + [EntryFor(sha, t.hist, t.live, Start(t.entries), |t.hist| - 1)])
  {
    hide *;
    LiveHolding(sha, t, d, tail);
    SettledOrHalf(sha, t, d, tail);
    if Settled(d, t.entries) {
      SettledLists(d, t.entries);
    } else {
      HalfLists(sha, t, d);
    }
  }

  lemma SettledLists(d: Disk, entries: seq<Entry>)
    requires Settled(d, entries)
    ensures ListedOn(d) == entries && (entries != [] ==> Base in d.manifests)
  {
  }

  lemma HalfLists(sha: Sha, t: Story, d: Disk)
    requires HalfCut(sha, t.hist, d, t.entries, t.live)
    ensures 0 <= Start(t.entries) < |t.hist| && Base in d.manifests
    ensures ListedOn(d) == t.entries + [EntryFor(sha, t.hist, t.live, Start(t.entries), |t.hist| - 1)]
  {
  }

  /** The recorded frontier is found, settled or half cut. */
  lemma FrontierFound(sha: Sha, t: Story, d: Disk, tail: Bytes, first: Header)
    requires Crashed(sha, t, d, tail) && t.hist != [] && Distinct(sha, t.hist) && t.entries != []
    requires 0 <= Start(t.entries) < |t.hist|
    requires first.seqNo == Start(t.entries) && first.prevHash == PrevHash(sha, t.hist, Start(t.entries))
    ensures StartingFrontier(d, t.live, first) == Some(FrontierTo(sha, t.hist, Start(t.entries)))
  {
    hide *;
    SettledOrHalf(sha, t, d, tail);
    ManifestIs(sha, t, d, tail);
    ListedIs(d);
    LastEntry(sha, t);
    var s, n := Start(t.entries), |t.entries|;
    StoryParts(sha, t);
    RecFacts(sha, t.hist, s);
    FrontierStored(sha, t.hist, s);
    FrontierRoot(sha, t.hist, s);
    ApartFrom(sha, t.hist, s);
    Snoc(t.entries);
    ClosedBySnoc(t.entries[..n - 1], t.entries[n - 1], first.prevHash);
    if !Settled(d, t.entries) {
      var e := EntryFor(sha, t.hist, t.live, s, |t.hist| - 1);
      ClosingHead(sha, t);
      ClosedBySnoc(t.entries, e, first.prevHash);
    }
    StoredFrontier(d, t.live, first, ListedOn(d), n - 1, ToBytes(FrontierTo(sha, t.hist, s)),
                   FrontierTo(sha, t.hist, s));
  }

  lemma ClosingHead(sha: Sha, t: Story)
    requires 0 <= Start(t.entries) < |t.hist|
    ensures var e := EntryFor(sha, t.hist, t.live, Start(t.entries), |t.hist| - 1);
      e.head == PrevHash(sha, t.hist, |t.hist|) && e.file == t.live
  {
  }

  lemma BaseFound(sha: Sha, t: Story, d: Disk, tail: Bytes, first: Header)
    requires Crashed(sha, t, d, tail) && t.hist != []
    requires 0 <= Start(t.entries) < |t.hist| && first.prevHash == PrevHash(sha, t.hist, Start(t.entries))
    ensures ResumeBase(d, t.live, first) == Base
  {
    hide *;
    SettledOrHalf(sha, t, d, tail);
    ManifestIs(sha, t, d, tail);
    ZeroStart(sha, t);
    if t.entries == [] {
      BaseIsBase(d, first);
    } else {
      LastEntry(sha, t);
      if Settled(d, t.entries) {
        BaseByLast(d, t.live, first, ListedOn(d), t.entries[|t.entries| - 1]);
      } else {
        var e := EntryFor(sha, t.hist, t.live, Start(t.entries), |t.hist| - 1);
        ClosingHead(sha, t);
        BaseByLast(d, t.live, first, ListedOn(d), e);
      }
    }
  }

  lemma BaseIsBase(d: Disk, first: Header)
    ensures ResumeBase(d, Base, first) == Base
  {
  }

  lemma BaseByLast(d: Disk, name: Name, first: Header, listed: seq<Entry>, last: Entry)
    requires name.Seg? && name.stem == Base && Base in d.manifests && listed == ListedOn(d)
    requires listed != [] && listed[|listed| - 1] == last && (last.head == first.prevHash || last.file == name)
    ensures ResumeBase(d, name, first) == Base
  {
  }

  function ListedOn(d: Disk): seq<Entry> { if Base in d.manifests then d.manifests[Base] else [] }

  /** Half a cut is undone; anything else is left alone. */
  lemma FoldFound(sha: Sha, t: Story, d: Disk, tail: Bytes)
    requires Crashed(sha, t, d, tail) && t.hist != [] && Distinct(sha, t.hist)
    ensures var fold := FoldBackCut(d, Base, t.live, PrevHash(sha, t.hist, |t.hist|), ListedOn(d));
      if Settled(d, t.entries) then fold == NotCut && ListedOn(d) == t.entries else fold == Undone(t.entries)
  {
    hide *;
    SettledOrHalf(sha, t, d, tail);
    ManifestIs(sha, t, d, tail);
    NothingFollows(sha, t, d, tail);
    if Settled(d, t.entries) {
      if t.entries != [] {
        LastEntry(sha, t);
      }
      NoFold(d, t.live, PrevHash(sha, t.hist, |t.hist|), t.entries);
    } else {
      ClosingHead(sha, t);
      FoldLast(d, t.live, PrevHash(sha, t.hist, |t.hist|), t.entries,
               EntryFor(sha, t.hist, t.live, Start(t.entries), |t.hist| - 1));
    }
  }

  lemma NoFold(d: Disk, name: Name, head: Digest, entries: seq<Entry>)
    requires entries != [] ==> entries[|entries| - 1].file != name
    ensures FoldBackCut(d, Base, name, head, entries) == NotCut
  {
  }

  lemma FoldLast(d: Disk, name: Name, head: Digest, entries: seq<Entry>, e: Entry)
    requires e.file == name && e.head == head && !HasSuccessor(d, Base, head)
    ensures FoldBackCut(d, Base, name, head, entries + [e]) == Undone(entries)
  {
    assert (entries + [e])[..|entries|] == entries;
  }

  lemma OrdinalFound(sha: Sha, t: Story, d: Disk, first: Header)
    requires StoryOk(sha, t) && 0 <= Start(t.entries) < |t.hist|
    requires Decode(t.hist[Start(t.entries)].hb) == Some(first) && first.seqNo == Start(t.entries)
    ensures SegmentOrdinal(d, t.live, first, t.hist[Start(t.entries)].body) == Some(|t.entries|)
  {
    StoryParts(sha, t);
    if t.entries != [] {
      LastEntry(sha, t);
      OpensDeclares(sha, t.hist, Start(t.entries), |t.entries|);
    }
  }

  /** What the resume does to the disk. */
  function ResumeOps(t: Story, d: Disk, tail: Bytes): seq<DiskOp>
    requires 0 <= Start(t.entries) <= |t.hist|
  {
    (if tail != [] then [Truncate(t.live, |Container(t.hist[Start(t.entries)..])|)] else []) +
    (if Settled(d, t.entries) then []
     else if t.entries != [] then [PutManifest(Base, t.entries)] else [DropManifest(Base)])
  }

  lemma LiveScan(sha: Sha, t: Story, d: Disk, tail: Bytes)
    requires Crashed(sha, t, d, tail) && t.hist != []
    ensures 0 <= Start(t.entries) < |t.hist| && t.live in d.files && d.files[t.live] != []
    ensures var seg := t.hist[Start(t.entries)..];
      && Walk(d.files[t.live]) == (seg, tail) && |seg| == |t.hist| - Start(t.entries)
      && seg[0] == t.hist[Start(t.entries)] && seg[|seg| - 1] == t.hist[|t.hist| - 1]
      && |d.files[t.live]| - |tail| == |Container(seg)|
  {
    hide *;
    LiveHolding(sha, t, d, tail);
    SettledOrHalf(sha, t, d, tail);
    StoryParts(sha, t);
    var s := Start(t.entries);
    assert t.hist[s..|t.hist|] == t.hist[s..];
    SliceEnds(t.hist, s, |t.hist|);
    ScanSees(sha, t.hist, d.files[t.live], s, |t.hist|, tail);
    RecFacts(sha, t.hist, s);
    StartsWith(t.hist, d.files[t.live], s, |t.hist|, tail);
  }

  /** A resume under a policy, its parts named. */
  lemma OpenParts(sha: Sha, d: Disk, name: Name, data: Bytes, seg: seq<Rec>, tail: Bytes, end: nat,
                  rotation: Option<Policy>, id: Identity,
                  now: real, first: Header, base: Name, listed: seq<Entry>, fold: FoldBack)
    requires name in d.files && d.files[name] == data && data != [] && Walk(data) == (seg, tail)
    requires end == |data| - |tail|
    requires seg != [] && Decode(seg[0].hb) == Some(first) && RecOk(seg[|seg| - 1])
    requires base == BaseFor(d, name, first, rotation) && listed == ListedFor(d, base, rotation)
    requires fold == FoldBackCut(d, base, name, RecHash(sha, seg[|seg| - 1]), listed)
    ensures OpenExisting(sha, d, name, rotation, id, true, now) ==
      if (tail != [] && HasMagic(tail[1..])) || fold.Finished? then None
      else Some((Adopted(sha, d, name, first, seg, |tail|, end, base,
                         if fold.Undone? then fold.kept else listed, rotation, id, now),
                 AdoptOps(name, tail != [], end, base, fold)))
  {
    hide Walk, FoldBackCut, BaseFor, ListedFor, Adopted, AdoptOps, Decode, HasMagic, Container, U64;
    WalkIsExact(data);
  }

  lemma OpenIs(sha: Sha, d: Disk, name: Name, data: Bytes, seg: seq<Rec>, tail: Bytes, end: nat,
               rotation: Option<Policy>, id: Identity,
               now: real, first: Header, base: Name, listed: seq<Entry>, fold: FoldBack)
    requires name in d.files && d.files[name] == data && data != [] && Walk(data) == (seg, tail)
    requires end == |data| - |tail|
    requires seg != [] && Decode(seg[0].hb) == Some(first) && RecOk(seg[|seg| - 1])
    requires base == BaseFor(d, name, first, rotation) && listed == ListedFor(d, base, rotation)
    requires fold == FoldBackCut(d, base, name, RecHash(sha, seg[|seg| - 1]), listed)
    ensures var f0 := if first.seqNo == 0 then None else StartingFrontier(d, name, first);
      OpenExisting(sha, d, name, rotation, id, true, now) ==
        if (tail != [] && HasMagic(tail[1..])) || fold.Finished? then None
        else Some((
          WState(id, U64(seg[|seg| - 1].hb, 12) + 1, RecHash(sha, seg[|seg| - 1]), true, true, |tail|, end, {},
                 if f0.None? then None else Some(AppendAll(sha, f0.value, RecHashes(sha, seg))),
                 if first.seqNo == 0 then Some((name, |seg|)) else None, [], name, base, rotation,
                 |seg|, first.seqNo, first.prevHash, end, now, 0, false,
                 SegmentOrdinal(d, name, first, seg[0].body),
                 if fold.Undone? then fold.kept else listed),
          (if tail != [] then [Truncate(name, end)] else []) +
          (if fold.Undone? then (if fold.kept != [] then [PutManifest(base, fold.kept)] else [DropManifest(base)])
           else [])))
  {
    OpenParts(sha, d, name, data, seg, tail, end, rotation, id, now, first, base, listed, fold);
    hide OpenExisting, FoldBackCut, BaseFor, ListedFor, StartingFrontier, SegmentOrdinal, AppendAll, RecHashes,
      HasMagic, Decode, U64, Walk;
  }

  /** With or without a policy, the live file's manifest is the chain's. */
  lemma ChainFound(sha: Sha, t: Story, d: Disk, tail: Bytes, first: Header, rotation: Option<Policy>)
    requires Crashed(sha, t, d, tail) && t.hist != []
    requires 0 <= Start(t.entries) < |t.hist| && first.prevHash == PrevHash(sha, t.hist, Start(t.entries))
    requires rotation.None? ==> Base !in d.manifests
    ensures BaseFor(d, t.live, first, rotation) == Base && ListedFor(d, Base, rotation) == ListedOn(d)
  {
    hide *;
    BaseFound(sha, t, d, tail, first);
    if rotation.None? {
      SettledOrHalf(sha, t, d, tail);
      ManifestIs(sha, t, d, tail);
      ZeroStart(sha, t);
    }
    PolicyUsed(d, t.live, first, rotation);
    ListedIs(d);
  }

  lemma PolicyUsed(d: Disk, name: Name, first: Header, rotation: Option<Policy>)
    ensures BaseFor(d, name, first, rotation) == if rotation.Some? then ResumeBase(d, name, first) else name
    ensures forall base ::
      ListedFor(d, base, rotation) == if rotation.Some? && base in d.manifests then d.manifests[base] else []
  {
    hide ResumeBase;
  }

  /** The frontier a resume of the live file starts from and grows along its records. */
  lemma FrontierResumed(sha: Sha, t: Story, d: Disk, tail: Bytes, first: Header)
    requires Crashed(sha, t, d, tail) && t.hist != [] && Distinct(sha, t.hist) && 0 <= Start(t.entries) < |t.hist|
    requires first.seqNo == Start(t.entries) && first.prevHash == PrevHash(sha, t.hist, Start(t.entries))
    ensures var f0 := if first.seqNo == 0 then None else StartingFrontier(d, t.live, first);
      (if f0.None? then None else Some(AppendAll(sha, f0.value, RecHashes(sha, t.hist[Start(t.entries)..])))) ==
        (if t.entries == [] then None else Some(FrontierTo(sha, t.hist, |t.hist|)))
  {
    hide *;
    CrashedParts(sha, t, d, tail);
    ZeroStart(sha, t);
    if t.entries != [] {
      FrontierFound(sha, t, d, tail, first);
      FrontierJoins(sha, t.hist, Start(t.entries));
    }
  }

  /** The live file of any crashed disk resumes, unless its torn bytes hold the record magic again;
      the state adopted does not depend on how far the cut had got. */
  lemma LiveResumes(sha: Sha, t: Story, d: Disk, tail: Bytes, rotation: Option<Policy>, id: Identity, now: real)
    requires Crashed(sha, t, d, tail) && t.hist != [] && Distinct(sha, t.hist)
    requires rotation.None? ==> Base !in d.manifests
    ensures 0 <= Start(t.entries) < |t.hist|
    ensures OpenExisting(sha, d, t.live, rotation, id, true, now) ==
      if tail != [] && HasMagic(tail[1..]) then None
      else Some((Resumed(sha, t, tail, rotation, id, now), ResumeOps(t, d, tail)))
  {
    hide *;
    LiveScan(sha, t, d, tail);
    SettledOrHalf(sha, t, d, tail);
    StoryParts(sha, t);
    var s := Start(t.entries);
    var seg := t.hist[s..];
    RecFacts(sha, t.hist, s);
    RecFacts(sha, t.hist, |t.hist| - 1);
    HeadIs(sha, t.hist);
    var first := Decode(seg[0].hb).value;
    var fold := FoldBackCut(d, Base, t.live, PrevHash(sha, t.hist, |t.hist|), ListedOn(d));
    BaseFound(sha, t, d, tail, first);
    FoldFound(sha, t, d, tail);
    ListedIs(d);
    ChainFound(sha, t, d, tail, first, rotation);
    OpenIs(sha, d, t.live, d.files[t.live], seg, tail, |Container(seg)|, rotation, id, now, first, Base, ListedOn(d),
           fold);
    OrdinalFound(sha, t, d, first);
    ZeroStart(sha, t);
    FrontierResumed(sha, t, d, tail, first);
    ResumedIs(sha, t, tail, rotation, id, now);
    OpsAre(t, d, tail);
  }

  lemma HeadIs(sha: Sha, hist: seq<Rec>)
    requires hist != []
    ensures RecHash(sha, hist[|hist| - 1]) == PrevHash(sha, hist, |hist|)
  {
  }

  lemma ListedIs(d: Disk)
    ensures ListedOn(d) == if Base in d.manifests then d.manifests[Base] else []
  {
  }

  lemma ZeroStart(sha: Sha, t: Story)
    requires StoryOk(sha, t)
    ensures t.entries == [] <==> Start(t.entries) == 0
    ensures t.entries == [] ==> t.live == Base
  {
    StoryParts(sha, t);
    if t.entries != [] {
      LastEntry(sha, t);
    }
  }

  lemma ResumedIs(sha: Sha, t: Story, tail: Bytes, rotation: Option<Policy>, id: Identity, now: real)
    requires 0 <= Start(t.entries) < |t.hist|
    ensures var s, size := Start(t.entries), |Container(t.hist[Start(t.entries)..])|;
      Resumed(sha, t, tail, rotation, id, now) ==
        WState(id, |t.hist|, PrevHash(sha, t.hist, |t.hist|), true, true, |tail|, size, {},
           if t.entries == [] then None else Some(FrontierTo(sha, t.hist, |t.hist|)),
           if t.entries == [] then Some((t.live, |t.hist|)) else None, [],
           t.live, Base, rotation, |t.hist| - s, s, PrevHash(sha, t.hist, s), size, now, 0, false,
           Some(|t.entries|), t.entries)
  {
  }

  lemma OpsAre(t: Story, d: Disk, tail: Bytes)
    requires 0 <= Start(t.entries) <= |t.hist|
    ensures ResumeOps(t, d, tail) ==
      (if tail != [] then [Truncate(t.live, |Container(t.hist[Start(t.entries)..])|)] else []) +
      (if Settled(d, t.entries) then []
       else if t.entries != [] then [PutManifest(Base, t.entries)] else [DropManifest(Base)])
  {
  }

  // ---------- what the resume leaves ----------

  lemma TruncateFrame(d: Disk, live: Name, content: Bytes, tail: Bytes, entries: seq<Entry>)
    requires live in d.files && d.files[live] == content + tail
    ensures var d' := Apply(d, Truncate(live, |content|));
      && live in d'.files && d'.files[live] == content && d'.files.Keys == d.files.Keys && d'.manifests == d.manifests
      && (NoStranger(d, entries, live) ==> NoStranger(d', entries, live))
  {
    assert (content + tail)[..|content|] == content;
  }

  lemma TruncateKeeps(sha: Sha, t: Story, d: Disk, tail: Bytes)
    requires StoryOk(sha, t) && DiskHolds(t, d, tail) && t.live in d.files
    requires 0 <= Start(t.entries) <= |t.hist|
    ensures var d' := Apply(d, Truncate(t.live, |Container(t.hist[Start(t.entries)..])|));
      DiskHolds(t, d', []) && d'.manifests == d.manifests
  {
    hide StoryOk, DiskHolds, ClosedHold, NoStranger, Container;
    DiskParts(t, d, tail);
    var content := Container(t.hist[Start(t.entries)..]);
    var d' := Apply(d, Truncate(t.live, |content|));
    TruncateFrame(d, t.live, content, tail, t.entries);
    ClosedKept(sha, t, d, d');
    NothingAfter(content);
    DiskMade(t, d', []);
  }

  lemma ManifestRestored(t: Story, d: Disk)
    ensures Settled(Apply(d, PutManifest(Base, t.entries)), t.entries) <== t.entries != []
    ensures Settled(Apply(d, DropManifest(Base)), t.entries) <== t.entries == []
    ensures Apply(d, PutManifest(Base, t.entries)).files == d.files && Apply(d, DropManifest(Base)).files == d.files
  {
  }

  lemma SettledByManifests(d: Disk, d': Disk, entries: seq<Entry>)
    requires Settled(d, entries) && d'.manifests == d.manifests
    ensures Settled(d', entries)
  {
  }

  /** At most one operation: a torn tail and half a cut never meet. */
  lemma ResumeOp(sha: Sha, t: Story, d: Disk, tail: Bytes)
    requires Crashed(sha, t, d, tail) && t.hist != []
    ensures 0 <= Start(t.entries) < |t.hist|
    ensures ResumeOps(t, d, tail) ==
      if tail != [] then [Truncate(t.live, |Container(t.hist[Start(t.entries)..])|)]
      else if Settled(d, t.entries) then []
      else if t.entries != [] then [PutManifest(Base, t.entries)] else [DropManifest(Base)]
  {
    hide *;
    LiveHolding(sha, t, d, tail);
    SettledOrHalf(sha, t, d, tail);
    OpsAre(t, d, tail);
    if tail != [] {
      SettledNotHalf(sha, t, d, tail);
    }
  }

  lemma SettledNotHalf(sha: Sha, t: Story, d: Disk, tail: Bytes)
    requires Crashed(sha, t, d, tail) && tail != []
    ensures Settled(d, t.entries)
  {
  }

  /** After an accepted resume everything agrees again, on the same history. */
  lemma ResumeKeeps(sha: Sha, t: Story, d: Disk, tail: Bytes, rotation: Option<Policy>, id: Identity, now: real)
    requires Crashed(sha, t, d, tail) && t.hist != [] && PolicyFits(rotation, t.entries) && IdentityOk(id)
    ensures 0 <= Start(t.entries) < |t.hist|
    ensures Good(sha, t, Resumed(sha, t, tail, rotation, id, now), ApplyAll(d, ResumeOps(t, d, tail)))
  {
    hide *;
    LiveHolding(sha, t, d, tail);
    ResumeOp(sha, t, d, tail);
    SettledOrHalf(sha, t, d, tail);
    StoryParts(sha, t);
    ResumedIsGood(sha, t, tail, rotation, id, now);
    var w, d' := Resumed(sha, t, tail, rotation, id, now), ApplyAll(d, ResumeOps(t, d, tail));
    ApplyNone(d);
    if ResumeOps(t, d, tail) != [] {
      ApplyOne(d, ResumeOps(t, d, tail)[0]);
    }
    if tail != [] {
      SettledNotHalf(sha, t, d, tail);
      TruncateKeeps(sha, t, d, tail);
      SettledByManifests(d, d', t.entries);
    } else if !Settled(d, t.entries) {
      ManifestRestored(t, d);
      ManifestsAside(t, d, d', []);
    }
    GoodMade(sha, t, w, d');
  }

  /** A crash inside a resume leaves what the resume found, or what it wanted. */
  lemma ResumeCrash(sha: Sha, t: Story, d: Disk, tail: Bytes, k: nat, n: nat)
    requires Crashed(sha, t, d, tail) && t.hist != [] && k <= |ResumeOps(t, d, tail)|
    ensures Crashed(sha, t, CrashDisk(d, ResumeOps(t, d, tail), k, n), if k == 0 then tail else [])
  {
    hide *;
    ResumeOp(sha, t, d, tail);
    SettledOrHalf(sha, t, d, tail);
    StoryParts(sha, t);
    var ops := ResumeOps(t, d, tail);
    CrashNone(d, n);
    if k == 0 && ops != [] {
      assert [ops[0]] + [] == ops;
      CrashAtOnce(d, ops[0], [], n);
      NothingTorn(d, ops[0], n);
    } else if k == 1 {
      assert [ops[0]] + [] == ops;
      CrashFirst(d, ops[0], [], 1, n);
      CrashNone(Apply(d, ops[0]), n);
      ResumedDisk(sha, t, d, tail);
    }
  }

  lemma NothingTorn(d: Disk, op: DiskOp, n: nat)
    requires !op.AppendTo? && !op.WriteTemp?
    ensures ApplyAll(d, Torn(op, n)) == d
  {
  }

  lemma ResumedDisk(sha: Sha, t: Story, d: Disk, tail: Bytes)
    requires Crashed(sha, t, d, tail) && t.hist != [] && ResumeOps(t, d, tail) != []
    ensures Crashed(sha, t, Apply(d, ResumeOps(t, d, tail)[0]), [])
  {
    hide *;
    ResumeOp(sha, t, d, tail);
    var any := Some(Policy(Some(1), None, None, None, []));
    var someone := Identity(ZERO16, 0, 0);
    SomePolicy(any, t.entries, someone);
    ResumeKeeps(sha, t, d, tail, any, someone, 0.0);
    ApplyOne(d, ResumeOps(t, d, tail)[0]);
    GoodParts(sha, t, Resumed(sha, t, tail, any, someone, 0.0), ApplyAll(d, ResumeOps(t, d, tail)));
    CrashedMade(sha, t, Apply(d, ResumeOps(t, d, tail)[0]));
  }

  lemma SomePolicy(p: Option<Policy>, entries: seq<Entry>, id: Identity)
    requires p == Some(Policy(Some(1), None, None, None, [])) && id == Identity(ZERO16, 0, 0)
    ensures PolicyFits(p, entries) && IdentityOk(id)
  {
  }

  // ---------- which files accept a resume ----------

  predicate IsSegment(name: Name) {
    name == Base || (name.Seg? && name.stem == Base)
  }

  /** The only manifest is the chain's own. */
  predicate OneManifest(d: Disk) {
    d.manifests.Keys <= {Base}
  }

  lemma ClosedSpan(sha: Sha, t: Story, d: Disk, tail: Bytes, i: nat)
    requires Crashed(sha, t, d, tail) && t.hist != [] && i < |t.entries|
    ensures 0 <= StartOf(t.entries, i) < t.entries[i].lastSeq + 1 < |t.hist|
    ensures t.entries[i].head == PrevHash(sha, t.hist, t.entries[i].lastSeq + 1)
    ensures t.entries[i].lastSeq + 1 == StartOf(t.entries, i + 1)
  {
    hide *;
    SettledOrHalf(sha, t, d, tail);
    EntryFacts(sha, t, i);
    StartsBefore(sha, t, i + 1);
    LastStart(sha, t);
  }

  lemma ClosedScan(sha: Sha, t: Story, d: Disk, tail: Bytes, i: nat, data: Bytes, s: nat, e: nat)
    requires Crashed(sha, t, d, tail) && t.hist != [] && i < |t.entries|
    requires t.entries[i].file in d.files && data == d.files[t.entries[i].file]
    requires s == StartOf(t.entries, i) && e == t.entries[i].lastSeq + 1
    ensures s < e <= |t.hist| && Walk(data) == (t.hist[s..e], []) && data != []
  {
    hide *;
    SettledOrHalf(sha, t, d, tail);
    StoryParts(sha, t);
    ClosedHolding(sha, t, d, tail, i);
    HoldingParts(t.hist, data, s, e, []);
    ScanSees(sha, t.hist, data, s, e, []);
    RecFacts(sha, t.hist, s);
    StartsWith(t.hist, data, s, e, []);
  }

  lemma LastStart(sha: Sha, t: Story)
    requires StoryOk(sha, t) && t.entries != []
    ensures Start(t.entries) < |t.hist|
  {
  }

  lemma {:induction false} StartsBefore(sha: Sha, t: Story, i: nat)
    requires StoryOk(sha, t) && i <= |t.entries|
    ensures StartOf(t.entries, i) <= Start(t.entries)
    decreases |t.entries| - i
  {
    hide *;
    StartIs(t.entries);
    if i < |t.entries| {
      EntryFacts(sha, t, i);
      StartsBefore(sha, t, i + 1);
    }
  }

  /** The closed segment just before the live one: the live file is its successor. */
  lemma LiveFollows(sha: Sha, t: Story, d: Disk, tail: Bytes)
    requires Crashed(sha, t, d, tail) && t.hist != [] && t.entries != []
    ensures 0 <= Start(t.entries) < |t.hist| && HasSuccessor(d, Base, PrevHash(sha, t.hist, Start(t.entries)))
  {
    hide *;
    LiveHolding(sha, t, d, tail);
    SettledOrHalf(sha, t, d, tail);
    LiveSegStart(sha, t);
    StoryParts(sha, t);
    var s := Start(t.entries);
    RecFacts(sha, t.hist, s);
    StartsWith(t.hist, d.files[t.live], s, |t.hist|, tail);
    IsFollower(d, PrevHash(sha, t.hist, s), t.live);
  }

  lemma IsFollower(d: Disk, head: Bytes, x: Name)
    requires x in d.files && x.Seg? && x.stem == Base && |d.files[x]| >= FIXED_LEN
    requires At(d.files[x], 0, 4) == MAGIC && At(d.files[x], 36, 32) == head
    ensures HasSuccessor(d, Base, head)
  {
    assert Follows(d, Base, head, x);
  }

  lemma FoldFinished(d: Disk, name: Name, head: Digest, entries: seq<Entry>)
    requires entries != [] && entries[|entries| - 1].file == name && entries[|entries| - 1].head == head
    requires HasSuccessor(d, Base, head)
    ensures FoldBackCut(d, Base, name, head, entries) == Finished
  {
  }

  lemma NotCutWithout(d: Disk, base: Name, name: Name, head: Digest, entries: seq<Entry>)
    requires entries != [] ==> entries[|entries| - 1].file != name
    ensures FoldBackCut(d, base, name, head, entries) == NotCut
  {
  }

  lemma OwnBase(d: Disk, name: Name, first: Header)
    requires OneManifest(d) && name.Seg? && name.stem == Base
    requires Base in d.manifests ==> d.manifests[Base] != [] ==>
      (var last := d.manifests[Base][|d.manifests[Base]| - 1]; last.head != first.prevHash && last.file != name)
    ensures ResumeBase(d, name, first) == name && name !in d.manifests
  {
  }

  /** The last manifest entry: the last closed segment, or the live one when half cut. */
  lemma LastListed(sha: Sha, t: Story, d: Disk, tail: Bytes)
    requires Crashed(sha, t, d, tail) && t.hist != [] && t.entries != []
    ensures 0 <= Start(t.entries) < |t.hist| && Base in d.manifests && ListedOn(d) != []
    ensures var last := ListedOn(d)[|ListedOn(d)| - 1];
      if Settled(d, t.entries)
      then last == t.entries[|t.entries| - 1] && last.head == PrevHash(sha, t.hist, Start(t.entries))
      else last.file == t.live && last.head == PrevHash(sha, t.hist, |t.hist|)
  {
    hide *;
    ManifestIs(sha, t, d, tail);
    SettledOrHalf(sha, t, d, tail);
    LastEntry(sha, t);
    ClosingHead(sha, t);
  }

  lemma PrevApart(sha: Sha, hist: seq<Rec>, a: nat, b: nat)
    requires Distinct(sha, hist) && a < b <= |hist| && a > 0
    ensures PrevHash(sha, hist, a) != PrevHash(sha, hist, b)
  {
  }

  lemma OtherName(sha: Sha, t: Story, i: nat)
    requires StoryOk(sha, t) && i < |t.entries| - 1
    ensures t.entries[i].file != t.entries[|t.entries| - 1].file
  {
    hide *;
    StoryParts(sha, t);
    NamesIncrease(sha, t.hist, t.entries, i, |t.entries| - 1);
    IndexesApart(t.entries[i].file, t.entries[|t.entries| - 1].file);
  }

  lemma IndexesApart(a: Name, b: Name)
    requires Index(a) < Index(b)
    ensures a != b
  {
  }

  /** An older closed segment is nobody's concern to the manifest check: it has no entry at the end. */
  /** What a resume of this file makes of the manifest it finds. */
  ghost function FoldOf(d: Disk, name: Name, first: Header, head: Digest): FoldBack {
    var base := ResumeBase(d, name, first);
    FoldBackCut(d, base, name, head, if base in d.manifests then d.manifests[base] else [])
  }

  lemma FoldOfIs(d: Disk, name: Name, first: Header, head: Digest)
    ensures var base := ResumeBase(d, name, first);
      FoldOf(d, name, first, head) ==
        FoldBackCut(d, base, name, head, if base in d.manifests then d.manifests[base] else [])
  {
    hide ResumeBase, FoldBackCut;
  }

  lemma OldFold(sha: Sha, t: Story, d: Disk, tail: Bytes, i: nat, first: Header, head: Digest)
    requires i < |t.entries| && 0 <= StartOf(t.entries, i) <= |t.hist|
    requires first.prevHash == PrevHash(sha, t.hist, StartOf(t.entries, i))
    requires !(Settled(d, t.entries) && i == |t.entries| - 1)
    requires Crashed(sha, t, d, tail) && t.hist != [] && Distinct(sha, t.hist) && OneManifest(d)
    ensures FoldOf(d, t.entries[i].file, first, head) == NotCut
  {
    hide *;
    FoldOfIs(d, t.entries[i].file, first, head);
    SettledOrHalf(sha, t, d, tail);
    LastListed(sha, t, d, tail);
    ListedIs(d);
    EntryFacts(sha, t, i);
    LiveIsLastOf(sha, t, i);
    var name := t.entries[i].file;
    if Settled(d, t.entries) {
      OtherName(sha, t, i);
    }
    if i == 0 {
      BaseIsBase(d, first);
      NotCutWithout(d, Base, name, head, ListedOn(d));
    } else {
      StartsBefore(sha, t, i);
      StartsBefore(sha, t, i + 1);
      PrevApart(sha, t.hist, StartOf(t.entries, i), if Settled(d, t.entries) then Start(t.entries) else |t.hist|);
      OwnBase(d, name, first);
      NotCutWithout(d, name, name, head, []);
    }
  }

  lemma LastFold(sha: Sha, t: Story, d: Disk, tail: Bytes, first: Header, head: Digest)
    requires Crashed(sha, t, d, tail) && t.hist != [] && t.entries != [] && Settled(d, t.entries)
    requires 0 <= Start(t.entries) <= |t.hist| && head == PrevHash(sha, t.hist, Start(t.entries))
    ensures var name := t.entries[|t.entries| - 1].file;
      && ResumeBase(d, name, first) == Base && Base in d.manifests
      && FoldBackCut(d, Base, name, head, d.manifests[Base]) == Finished
  {
    hide *;
    LastListed(sha, t, d, tail);
    ListedIs(d);
    LiveFollows(sha, t, d, tail);
    SettledOrHalf(sha, t, d, tail);
    var last := t.entries[|t.entries| - 1];
    EntryFacts(sha, t, |t.entries| - 1);
    if last.file == Base {
      BaseIsBase(d, first);
    } else {
      BaseByLast(d, last.file, first, ListedOn(d), last);
    }
    FoldFinished(d, last.file, head, ListedOn(d));
  }

  /** A closed segment still on disk refuses a resume exactly when it is the last one of a finished
      cut. Any older one is accepted, and writing there would fork the chain. */
  lemma ClosedVerdict(sha: Sha, t: Story, d: Disk, tail: Bytes, i: nat, rotation: Policy, id: Identity, now: real)
    requires Crashed(sha, t, d, tail) && t.hist != [] && Distinct(sha, t.hist) && OneManifest(d)
    requires i < |t.entries| && t.entries[i].file in d.files
    ensures OpenExisting(sha, d, t.entries[i].file, Some(rotation), id, true, now).None? <==>
      Settled(d, t.entries) && i == |t.entries| - 1
  {
    hide *;
    ClosedSpan(sha, t, d, tail, i);
    SettledOrHalf(sha, t, d, tail);
    StoryParts(sha, t);
    var name, s, e := t.entries[i].file, StartOf(t.entries, i), t.entries[i].lastSeq + 1;
    ClosedScan(sha, t, d, tail, i, d.files[name], s, e);
    SliceEnds(t.hist, s, e);
    var seg := t.hist[s..e];
    RecFacts(sha, t.hist, s);
    RecFacts(sha, t.hist, e - 1);
    var first := Decode(seg[0].hb).value;
    var head := RecHash(sha, seg[|seg| - 1]);
    PrevIs(sha, t.hist, e);
    StartIs(t.entries);
    if Settled(d, t.entries) && i == |t.entries| - 1 {
      LastFold(sha, t, d, tail, first, head);
    } else {
      OldFold(sha, t, d, tail, i, first, head);
      FoldOfIs(d, name, first, head);
    }
    var base := ResumeBase(d, name, first);
    var listed := if base in d.manifests then d.manifests[base] else [];
    PolicyUsed(d, name, first, Some(rotation));
    OpenIs(sha, d, name, d.files[name], seg, [], |d.files[name]|, Some(rotation), id, now, first, base, listed,
           FoldBackCut(d, base, name, head, listed));
  }

  lemma PrevIs(sha: Sha, hist: seq<Rec>, e: nat)
    requires 0 < e <= |hist|
    ensures PrevHash(sha, hist, e) == RecHash(sha, hist[e - 1])
  {
  }

  // ---------- a refusal that shortens the file ----------

  /** A file that grows keeps answering for what follows its head. */
  lemma SuccessorStays(d: Disk, name: Name, junk: Bytes, base: Name, head: Bytes)
    requires HasSuccessor(d, base, head)
    ensures HasSuccessor(Apply(d, AppendTo(name, junk)), base, head)
  {
    var x :| x in d.files && Follows(d, base, head, x);
    var d' := Apply(d, AppendTo(name, junk));
    assert x in d'.files && d.files[x] <= d'.files[x];
    assert At(d'.files[x], 0, 4) == At(d.files[x], 0, 4) && At(d'.files[x], 36, 32) == At(d.files[x], 36, 32);
    assert Follows(d', base, head, x);
  }

  lemma FinishedNeeds(d: Disk, base: Name, name: Name, head: Digest, entries: seq<Entry>)
    requires FoldBackCut(d, base, name, head, entries) == Finished
    ensures entries != [] && entries[|entries| - 1].file == name && entries[|entries| - 1].head == head
    ensures HasSuccessor(d, base, head)
  {
    hide HasSuccessor;
  }

  lemma FinishedStays(d: Disk, name: Name, junk: Bytes, head: Digest, entries: seq<Entry>)
    requires FoldBackCut(d, Base, name, head, entries) == Finished
    ensures FoldBackCut(Apply(d, AppendTo(name, junk)), Base, name, head, entries) == Finished
  {
    hide *;
    FinishedNeeds(d, Base, name, head, entries);
    SuccessorStays(d, name, junk, Base, head);
    FoldFinished(Apply(d, AppendTo(name, junk)), name, head, entries);
  }

  lemma JunkAppended(d: Disk, name: Name, junk: Bytes, first: Header)
    requires name in d.files
    ensures var d' := Apply(d, AppendTo(name, junk));
      && d'.manifests == d.manifests && ResumeBase(d', name, first) == ResumeBase(d, name, first)
      && name in d'.files && d'.files[name] == d.files[name] + junk && ContentOf(d', name) == d.files[name] + junk
  {
  }

  lemma ResumableBytes(data: Bytes, rs: seq<Rec>, tail: Bytes)
    requires Walk(data) == (rs, tail) && rs != [] && Decode(rs[0].hb).Some?
    ensures Unresumable(data, true) <==> tail != [] && HasMagic(tail[1..])
  {
    hide Walk, Decode, HasMagic;
  }

  lemma TailDropped(d: Disk, name: Name, content: Bytes, tail: Bytes)
    requires name in d.files && d.files[name] == content + tail && Walk(d.files[name]).1 == tail && tail != []
    ensures ContentOf(WithoutTail(d, name), name) == content
  {
    hide Walk;
    TruncateFrame(d, name, content, tail, []);
  }

  /** The last closed segment of a finished cut, with bytes after its records at which no record starts:
      the resume is refused, and the bytes are gone all the same. */
  lemma ClosedLosesTail(sha: Sha, t: Story, d: Disk, tail: Bytes, junk: Bytes, rotation: Policy, id: Identity,
                        now: real,
                        name: Name, d': Disk)
    requires Crashed(sha, t, d, tail) && t.hist != [] && t.entries != [] && Settled(d, t.entries)
    requires name == t.entries[|t.entries| - 1].file && name in d.files && d' == Apply(d, AppendTo(name, junk))
    requires junk != [] && FirstRec(junk).None? && !HasMagic(junk[1..])
    ensures OpenExisting(sha, d', name, Some(rotation), id, true, now).None?
    ensures ContentOf(d', name) == d.files[name] + junk && !Unresumable(ContentOf(d', name), true)
    ensures ContentOf(WithoutTail(d', name), name) == d.files[name]
  {
    hide *;
    var i := |t.entries| - 1;
    ClosedSpan(sha, t, d, tail, i);
    SettledOrHalf(sha, t, d, tail);
    StoryParts(sha, t);
    StartIs(t.entries);
    var s, e := StartOf(t.entries, i), t.entries[i].lastSeq + 1;
    ClosedHolding(sha, t, d, tail, i);
    HoldingParts(t.hist, d.files[name], s, e, []);
    NothingAfter(Container(t.hist[s..e]));
    SliceOk(sha, t.hist, s, e);
    SliceEnds(t.hist, s, e);
    var seg := t.hist[s..e];
    WalkContainer(seg, junk);
    RecFacts(sha, t.hist, s);
    RecFacts(sha, t.hist, e - 1);
    PrevIs(sha, t.hist, e);
    var first := Decode(seg[0].hb).value;
    JunkAppended(d, name, junk, first);
    ResumableBytes(d'.files[name], seg, junk);
    TailDropped(d', name, d.files[name], junk);
    var head := RecHash(sha, seg[|seg| - 1]);
    LastFold(sha, t, d, tail, first, head);
    FinishedStays(d, name, junk, head, d.manifests[Base]);
    PolicyUsed(d', name, first, Some(rotation));
    OpenIs(sha, d', name, d'.files[name], seg, junk, |d.files[name]|, Some(rotation), id, now, first, Base,
           d.manifests[Base],
           FoldBackCut(d', Base, name, head, d.manifests[Base]));
  }

  ghost predicate Accepts(sha: Sha, d: Disk, name: Name, rotation: Option<Policy>, id: Identity, now: real) {
    OpenExisting(sha, d, name, rotation, id, true, now).Some?
  }

  /** Closed segments that would accept a resume: on disk, and not the last of a finished cut. */
  ghost predicate StrayOnDisk(t: Story, d: Disk, i: nat)
    requires i < |t.entries|
  {
    t.entries[i].file in d.files && !(Settled(d, t.entries) && i == |t.entries| - 1)
  }

  lemma OtherSegments(sha: Sha, t: Story, d: Disk, tail: Bytes, x: Name) returns (i: nat)
    requires Crashed(sha, t, d, tail) && x in d.files && IsSegment(x) && x != t.live
    ensures i < |t.entries| && t.entries[i].file == x
  {
    SettledOrHalf(sha, t, d, tail);
    DiskParts(t, d, tail);
    if x == Base {
      i := 0;
      ZeroStart(sha, t);
      EntryFacts(sha, t, 0);
    } else {
      i := ListedAt(d, t.entries, t.live, x);
    }
  }

  /** Exactly one segment file accepts the resume iff the torn bytes hold no further magic and no
      stray closed segment is left on disk. */
  lemma OneFileAccepts(sha: Sha, t: Story, d: Disk, tail: Bytes, rotation: Policy, id: Identity, now: real)
    requires Crashed(sha, t, d, tail) && t.hist != [] && Distinct(sha, t.hist) && OneManifest(d)
    ensures t.live in d.files && IsSegment(t.live)
    ensures (forall x :: x in d.files && IsSegment(x) ==>
               (Accepts(sha, d, x, Some(rotation), id, now) <==> x == t.live)) <==>
      !(tail != [] && HasMagic(tail[1..])) && (forall i :: 0 <= i < |t.entries| ==> !StrayOnDisk(t, d, i))
  {
    hide *;
    LiveHolding(sha, t, d, tail);
    SettledOrHalf(sha, t, d, tail);
    LiveName(sha, t);
    LiveIsSegment(t);
    LiveResumes(sha, t, d, tail, Some(rotation), id, now);
    AcceptsIs(sha, d, t.live, Some(rotation), id, now);
    forall x | x in d.files && IsSegment(x) && x != t.live
      ensures exists i: nat ::
        && i < |t.entries| && t.entries[i].file == x
        && (Accepts(sha, d, x, Some(rotation), id, now) <==> StrayOnDisk(t, d, i))
    {
      var i := OtherSegments(sha, t, d, tail, x);
      StrayAccepts(sha, t, d, tail, i, rotation, id, now);
    }
    forall i | 0 <= i < |t.entries| && StrayOnDisk(t, d, i)
      ensures t.entries[i].file in d.files && IsSegment(t.entries[i].file) && t.entries[i].file != t.live
      ensures Accepts(sha, d, t.entries[i].file, Some(rotation), id, now)
    {
      StrayIs(t, d, i);
      StrayAccepts(sha, t, d, tail, i, rotation, id, now);
      EntryFacts(sha, t, i);
      SegmentIs(t.entries[i].file);
      LiveIsLastOf(sha, t, i);
    }
  }

  lemma StrayIs(t: Story, d: Disk, i: nat)
    requires i < |t.entries| && StrayOnDisk(t, d, i)
    ensures t.entries[i].file in d.files
  {
  }

  lemma SegmentIs(x: Name)
    ensures IsSegment(x) <==> x == Base || (x.Seg? && x.stem == Base)
  {
  }

  lemma LiveIsSegment(t: Story)
    requires t.live == Base || (t.live.Seg? && t.live.stem == Base)
    ensures IsSegment(t.live)
  {
  }

  lemma AcceptsIs(sha: Sha, d: Disk, name: Name, rotation: Option<Policy>, id: Identity, now: real)
    ensures Accepts(sha, d, name, rotation, id, now) <==> OpenExisting(sha, d, name, rotation, id, true, now).Some?
  {
    hide OpenExisting;
  }

  lemma StrayAccepts(sha: Sha, t: Story, d: Disk, tail: Bytes, i: nat, rotation: Policy, id: Identity, now: real)
    requires Crashed(sha, t, d, tail) && t.hist != [] && Distinct(sha, t.hist) && OneManifest(d)
    requires i < |t.entries| && t.entries[i].file in d.files
    ensures Accepts(sha, d, t.entries[i].file, Some(rotation), id, now) <==> StrayOnDisk(t, d, i)
  {
    ClosedVerdict(sha, t, d, tail, i, rotation, id, now);
    hide Crashed, OpenExisting, Settled;
  }

  // ---------- any byte string ----------

  lemma AcceptedIs(sha: Sha, d: Disk, name: Name, rotation: Option<Policy>, id: Identity, recover: bool, now: real,
                   w: WState, ops: seq<DiskOp>) returns (base: Name, fold: FoldBack)
    requires OpenExisting(sha, d, name, rotation, id, recover, now) == Some((w, ops))
    ensures var (rs, tail) := Walk(ContentOf(d, name));
      && rs != [] && name in d.files && d.files[name] == Container(rs) + tail && RecOk(rs[|rs| - 1])
      && w.seqNo == U64(rs[|rs| - 1].hb, 12) + 1 && w.head == RecHash(sha, rs[|rs| - 1]) && w.segRecords == |rs|
      && w.recoveredBytes == |tail| && w.recoveredOffset == w.segBytes == |Container(rs)| && w.path == name
      && Decode(rs[0].hb).Some?
      && w.segFirstSeq == Decode(rs[0].hb).value.seqNo && w.segPrevHead == Decode(rs[0].hb).value.prevHash
      && w.started && w.bootPending && w.openSpans == {} && w.id == id && w.rotation == rotation
      && w.segStartedS == now && !w.rotationDue && ops == AdoptOps(name, tail != [], |Container(rs)|, base, fold)
  {
    hide Walk, FoldBackCut, BaseFor, ListedFor, Decode, HasMagic, Container, U64, AdoptOps, StartingFrontier,
      SegmentOrdinal;
    var data := ContentOf(d, name);
    WalkIsExact(data);
    var rs := Walk(data).0;
    base := BaseFor(d, name, Decode(rs[0].hb).value, rotation);
    fold := FoldBackCut(d, base, name, sha(rs[|rs| - 1].hb), ListedFor(d, base, rotation));
  }

  lemma UndoAside(d: Disk, name: Name, base: Name, fold: FoldBack)
    ensures ContentOf(ApplyAll(d, AdoptOps(name, false, 0, base, fold)), name) == ContentOf(d, name)
  {
    var ops := AdoptOps(name, false, 0, base, fold);
    if ops != [] {
      assert ops == [ops[0]];
      ApplyOne(d, ops[0]);
    }
    hide ApplyAll;
  }

  lemma OpsSplit(d: Disk, name: Name, end: nat, base: Name, fold: FoldBack)
    ensures ApplyAll(d, AdoptOps(name, true, end, base, fold)) ==
      ApplyAll(Apply(d, Truncate(name, end)), AdoptOps(name, false, 0, base, fold))
    ensures AdoptOps(name, false, end, base, fold) == AdoptOps(name, false, 0, base, fold)
  {
    hide ApplyAll, Apply;
    ApplyFirst(d, Truncate(name, end), AdoptOps(name, false, 0, base, fold));
    assert AdoptOps(name, true, end, base, fold) == [Truncate(name, end)] + AdoptOps(name, false, 0, base, fold);
  }

  lemma OpsTruncate(d: Disk, name: Name, content: Bytes, tail: Bytes, base: Name, fold: FoldBack)
    requires name in d.files && d.files[name] == content + tail
    ensures ContentOf(ApplyAll(d, AdoptOps(name, tail != [], |content|, base, fold)), name) == content
  {
    hide *;
    OpsSplit(d, name, |content|, base, fold);
    TruncateFrame(d, name, content, tail, []);
    ContentIs(d, name);
    var d1 := Apply(d, Truncate(name, |content|));
    if tail == [] {
      NothingAfter(content);
      UndoAside(d, name, base, fold);
    } else {
      ContentIs(d1, name);
      UndoAside(d1, name, base, fold);
    }
  }

  lemma ContentIs(d: Disk, name: Name)
    requires name in d.files
    ensures ContentOf(d, name) == d.files[name]
  {
  }

  /** On every byte string: a resume that is not refused keeps exactly the complete records from the
      start, drops what follows them, and continues the last one's number and hash; and it starts on what
      the file's first record and its length say, with the boot record still to come. */
  lemma AcceptedKeepsRecords(sha: Sha, d: Disk, name: Name, rotation: Option<Policy>, id: Identity, recover: bool,
                             now: real,
                             w: WState, ops: seq<DiskOp>)
    requires OpenExisting(sha, d, name, rotation, id, recover, now) == Some((w, ops))
    ensures var rs := Walk(ContentOf(d, name)).0;
      && rs != [] && RecOk(rs[|rs| - 1])
      && ContentOf(ApplyAll(d, ops), name) == Container(rs)
      && w.seqNo == U64(rs[|rs| - 1].hb, 12) + 1 && w.head == RecHash(sha, rs[|rs| - 1]) && w.segRecords == |rs|
    ensures var (rs, tail) := Walk(ContentOf(d, name));
      && w.recoveredBytes == |tail| && w.recoveredOffset == w.segBytes == |Container(rs)| && w.path == name
      && Decode(rs[0].hb).Some?
      && w.segFirstSeq == Decode(rs[0].hb).value.seqNo && w.segPrevHead == Decode(rs[0].hb).value.prevHash
      && w.started && w.bootPending && w.openSpans == {} && w.id == id && w.rotation == rotation
      && w.segStartedS == now && !w.rotationDue
  {
    hide *;
    var base, fold := AcceptedIs(sha, d, name, rotation, id, recover, now, w, ops);
    var (rs, tail) := Walk(ContentOf(d, name));
    OpsTruncate(d, name, Container(rs), tail, base, fold);
  }

  /** Without leave to recover, a resume is the one with it on a file that ends with a record, and a
      refusal on any other. */
  lemma RecoverOnly(sha: Sha, d: Disk, name: Name, rotation: Option<Policy>, id: Identity, now: real)
    ensures OpenExisting(sha, d, name, rotation, id, false, now) ==
      if Walk(ContentOf(d, name)).1 == [] then OpenExisting(sha, d, name, rotation, id, true, now) else None
  {
    hide Walk, FoldBackCut, BaseFor, ListedFor, Decode, HasMagic, Adopted, AdoptOps;
    WalkIsExact(ContentOf(d, name));
  }

  /** A container of records cut at any byte: an accepted resume keeps the records that end by the cut. */
  lemma CutThenResumed(sha: Sha, d: Disk, name: Name, rs: seq<Rec>, n: nat, rotation: Option<Policy>, id: Identity,
                       recover: bool,
                       now: real, w: WState, ops: seq<DiskOp>) returns (k: nat)
    requires RecsOk(rs) && n <= |Container(rs)| && ContentOf(d, name) == Container(rs)[..n]
    requires OpenExisting(sha, d, name, rotation, id, recover, now) == Some((w, ops))
    ensures 0 < k <= |rs| && |Container(rs[..k])| <= n && (k < |rs| ==> n < |Container(rs[..k + 1])|)
    ensures ContentOf(ApplyAll(d, ops), name) == Container(rs[..k])
    ensures RecOk(rs[k - 1]) && w.seqNo == U64(rs[k - 1].hb, 12) + 1 && w.head == RecHash(sha, rs[k - 1])
    ensures w.segRecords == k
  {
    AcceptedKeepsRecords(sha, d, name, rotation, id, recover, now, w, ops);
    k := CutContainer(rs, n);
    hide OpenExisting, Walk, Container, ApplyAll, U64;
  }
}
