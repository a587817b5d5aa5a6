/** One emit, from disk to disk: what it keeps, and what a crash inside it leaves.

    An emit may commit a record, cut the segment and open its successor. Wherever the list of its disk
    operations stops, the disk it leaves is given here by name. */
module WriterCut {
  import opened Bytes
  import opened Codec
  import opened Frontier
  import opened Writer
  import opened WriterInv

  /** The history, the closed segments, and the live file: what disk and writer agree on. */
  datatype Story = Story(hist: seq<Rec>, entries: seq<Entry>, live: Name)

  ghost predicate StoryOk(sha: Sha, t: Story) {
    Layout(sha, t.hist, t.entries, t.live)
  }

  ghost predicate DiskHolds(t: Story, d: Disk, tail: Bytes) {
    FilesOk(t.hist, d, t.entries, t.live, tail)
  }

  /** Between operations: everything agrees and nothing is torn. */
  ghost predicate Good(sha: Sha, t: Story, w: WState, d: Disk) {
    && StoryOk(sha, t) && DiskHolds(t, d, []) && Settled(d, t.entries)
    && WriterOk(sha, t.hist, t.entries, t.live, w)
  }

  function Wrote(t: Story, r: Rec): Story { t.(hist := t.hist + [r]) }

  /** The live segment closed, and `r` opening its successor `p`. */
  function Advanced(sha: Sha, t: Story, r: Rec, p: Name): Story
    requires 0 <= Start(t.entries) < |t.hist|
  {
    Story(t.hist + [r], t.entries + [EntryFor(sha, t.hist, t.live, Start(t.entries), |t.hist| - 1)], p)
  }

  // ---------- files ----------

  lemma SegmentGrows(hist: seq<Rec>, r: Rec, d: Disk, entries: seq<Entry>, i: nat)
    requires i < |entries| && SegmentHolds(hist, d, entries, i)
    ensures SegmentHolds(hist + [r], d, entries, i)
  {
    var a, b := StartOf(entries, i), entries[i].lastSeq + 1;
    assert (hist + [r])[a..b] == hist[a..b];
  }

  lemma SegmentSame(hist: seq<Rec>, d: Disk, d': Disk, entries: seq<Entry>, i: nat)
    requires i < |entries| && SegmentHolds(hist, d, entries, i)
    requires ContentOf(d, entries[i].file) == ContentOf(d', entries[i].file)
    ensures SegmentHolds(hist, d', entries, i)
  {
  }

  /** Names of closed segments are never the live name nor a temporary one. */
  lemma ClosedNames(sha: Sha, t: Story, i: nat)
    requires StoryOk(sha, t) && i < |t.entries|
    ensures t.entries[i].file != t.live && !t.entries[i].file.Tmp? && !t.live.Tmp?
  {
    LiveIsLast(sha, t.hist, t.entries, t.live, i);
    assert EntryAt(sha, t.hist, t.entries, i);
  }

  lemma LiveName(sha: Sha, t: Story)
    requires StoryOk(sha, t)
    ensures t.live == Base || (t.live.Seg? && t.live.stem == Base)
  {
  }

  /** Closed segments are kept when their own files do not change and the history grows or stays. */
  lemma ClosedKept(sha: Sha, t: Story, d: Disk, d': Disk)
    requires StoryOk(sha, t) && ClosedHold(t.hist, d, t.entries)
    requires forall x :: x != t.live && !x.Tmp? ==>
      (x in d'.files <==> x in d.files) && ContentOf(d', x) == ContentOf(d, x)
    ensures ClosedHold(t.hist, d', t.entries)
  {
    hide StoryOk, SegmentHolds;
    forall i | 0 <= i < |t.entries| && t.entries[i].file in d'.files ensures SegmentHolds(t.hist, d', t.entries, i) {
      ClosedNames(sha, t, i);
      SegmentSame(t.hist, d, d', t.entries, i);
    }
  }

  lemma ClosedGrow(hist: seq<Rec>, r: Rec, d: Disk, entries: seq<Entry>)
    requires ClosedHold(hist, d, entries)
    ensures ClosedHold(hist + [r], d, entries)
  {
    hide SegmentHolds;
    forall i | 0 <= i < |entries| && entries[i].file in d.files ensures SegmentHolds(hist + [r], d, entries, i) {
      SegmentGrows(hist, r, d, entries, i);
    }
  }

  /** Bytes appended to the live file change nothing else. */
  lemma AppendFrame(sha: Sha, t: Story, d: Disk, data: Bytes)
    requires StoryOk(sha, t) && ClosedHold(t.hist, d, t.entries) && NoStranger(d, t.entries, t.live)
    ensures var d' := Apply(d, AppendTo(t.live, data));
      && t.live in d'.files && ContentOf(d', t.live) == ContentOf(d, t.live) + data
      && ClosedHold(t.hist, d', t.entries) && NoStranger(d', t.entries, t.live)
  {
    hide StoryOk, ClosedHold;
    ClosedKept(sha, t, d, Apply(d, AppendTo(t.live, data)));
  }

  /** A whole record appended to the live file. */
  lemma AppendWhole(sha: Sha, t: Story, d: Disk, r: Rec)
    requires StoryOk(sha, t) && DiskHolds(t, d, [])
    ensures DiskHolds(Wrote(t, r), Apply(d, AppendTo(t.live, RecBytes(r))), [])
  {
    hide StoryOk, ClosedHold, NoStranger, Container, RecBytes;
    var d' := Apply(d, AppendTo(t.live, RecBytes(r)));
    SuffixGrows(t.hist, r, Start(t.entries));
    AppendFrame(sha, t, d, RecBytes(r));
    ClosedGrow(t.hist, r, d', t.entries);
    NothingAfter(Container(t.hist[Start(t.entries)..]));
    NothingAfter(Container((t.hist + [r])[Start(t.entries)..]));
  }

  lemma NothingAfter(s: Bytes)
    ensures s + [] == s
  {
  }

  /** Some bytes appended to the live file are a tail after its records. */
  lemma AppendTorn(sha: Sha, t: Story, d: Disk, data: Bytes)
    requires StoryOk(sha, t) && DiskHolds(t, d, [])
    ensures DiskHolds(t, Apply(d, AppendTo(t.live, data)), data)
  {
    hide StoryOk, ClosedHold, NoStranger, Container;
    AppendFrame(sha, t, d, data);
    NothingAfter(Container(t.hist[Start(t.entries)..]));
  }

  lemma ManifestsAside(t: Story, d: Disk, d': Disk, tail: Bytes)
    requires DiskHolds(t, d, tail) && d'.files == d.files
    ensures DiskHolds(t, d', tail)
  {
    hide SegmentHolds, Container;
    forall i | 0 <= i < |t.entries| && t.entries[i].file in d'.files ensures SegmentHolds(t.hist, d', t.entries, i) {
      SegmentSame(t.hist, d, d', t.entries, i);
    }
  }

  lemma TempFrame(d: Disk, p: Name, data: Bytes, live: Name, entries: seq<Entry>)
    requires !live.Tmp?
    ensures var d' := Apply(d, WriteTemp(Tmp(p), data));
      && ContentOf(d', live) == ContentOf(d, live) && (live in d'.files <==> live in d.files)
      && (NoStranger(d, entries, live) ==> NoStranger(d', entries, live))
  {
  }

  /** A temporary file does not matter. */
  lemma TempAside(sha: Sha, t: Story, d: Disk, p: Name, data: Bytes)
    requires StoryOk(sha, t) && DiskHolds(t, d, [])
    ensures DiskHolds(t, Apply(d, WriteTemp(Tmp(p), data)), [])
  {
    hide StoryOk, ClosedHold, Container, DiskHolds, NoStranger;
    var d' := Apply(d, WriteTemp(Tmp(p), data));
    LiveName(sha, t);
    DiskParts(t, d, []);
    ClosedKept(sha, t, d, d');
    TempFrame(d, p, data, t.live, t.entries);
    DiskMade(t, d', []);
  }

  /** The successor appears under its own name, complete. */
  lemma RenameAdvances(sha: Sha, t: Story, d: Disk, p: Name, r: Rec)
    requires StoryOk(sha, t) && DiskHolds(t, d, []) && Start(t.entries) < |t.hist|
    requires Later(p, t.live) && p !in d.files && Tmp(p) in d.files && d.files[Tmp(p)] == RecBytes(r)
    ensures DiskHolds(Advanced(sha, t, r, p), Apply(d, Rename(Tmp(p), p)), [])
  {
    hide *;
    DiskParts(t, d, []);
    RenamedContent(d, p);
    RenameLive(t, sha, p, r);
    RenameClosed(sha, t, d, p, r);
    RenameNames(sha, t, d, p, r);
    NothingAfter(RecBytes(r));
    AdvancedParts(sha, t, r, p);
    DiskMade(Advanced(sha, t, r, p), Apply(d, Rename(Tmp(p), p)), []);
  }

  lemma RenamedContent(d: Disk, p: Name)
    requires Tmp(p) in d.files
    ensures var d' := Apply(d, Rename(Tmp(p), p)); p in d'.files && ContentOf(d', p) == d.files[Tmp(p)]
  {
  }

  lemma AdvancedParts(sha: Sha, t: Story, r: Rec, p: Name)
    requires 0 <= Start(t.entries) < |t.hist|
    ensures var t' := Advanced(sha, t, r, p); t'.live == p && t'.hist == t.hist + [r] && |t'.entries| == |t.entries| + 1
  {
  }

  lemma DiskParts(t: Story, d: Disk, tail: Bytes)
    requires DiskHolds(t, d, tail)
    ensures 0 <= Start(t.entries) <= |t.hist| && (t.live in d.files || t.hist == [])
    ensures ContentOf(d, t.live) == Container(t.hist[Start(t.entries)..]) + tail
    ensures ClosedHold(t.hist, d, t.entries) && NoStranger(d, t.entries, t.live)
  {
  }

  lemma DiskMade(t: Story, d: Disk, tail: Bytes)
    requires 0 <= Start(t.entries) <= |t.hist| && (t.live in d.files || t.hist == [])
    requires ContentOf(d, t.live) == Container(t.hist[Start(t.entries)..]) + tail
    requires ClosedHold(t.hist, d, t.entries) && NoStranger(d, t.entries, t.live)
    ensures DiskHolds(t, d, tail)
  {
  }

  lemma RenameLive(t: Story, sha: Sha, p: Name, r: Rec)
    requires 0 <= Start(t.entries) < |t.hist|
    ensures var t' := Advanced(sha, t, r, p);
      Start(t'.entries) == |t.hist| && Container(t'.hist[Start(t'.entries)..]) == RecBytes(r)
  {
    var t' := Advanced(sha, t, r, p);
    assert t'.hist[Start(t'.entries)..] == [r];
    ContainerOne(r);
  }

  lemma RenameNames(sha: Sha, t: Story, d: Disk, p: Name, r: Rec)
    requires NoStranger(d, t.entries, t.live) && 0 <= Start(t.entries) < |t.hist|
    ensures NoStranger(Apply(d, Rename(Tmp(p), p)), Advanced(sha, t, r, p).entries, p)
  {
    var d', all := Apply(d, Rename(Tmp(p), p)), Advanced(sha, t, r, p).entries;
    forall n | Seg(Base, n) in d'.files && Seg(Base, n) != p ensures Listed(all, Seg(Base, n)) {
      if Seg(Base, n) == t.live {
        assert all[|t.entries|].file == t.live;
      } else {
        var i :| 0 <= i < |t.entries| && t.entries[i].file == Seg(Base, n);
        assert all[i].file == Seg(Base, n);
      }
    }
  }

  lemma RenameClosed(sha: Sha, t: Story, d: Disk, p: Name, r: Rec)
    requires StoryOk(sha, t) && DiskHolds(t, d, []) && Start(t.entries) < |t.hist|
    requires Later(p, t.live) && p !in d.files
    ensures ClosedHold(Advanced(sha, t, r, p).hist, Apply(d, Rename(Tmp(p), p)), Advanced(sha, t, r, p).entries)
  {
    hide StoryOk, SegmentHolds, EntryFor, Container;
    var d', t' := Apply(d, Rename(Tmp(p), p)), Advanced(sha, t, r, p);
    forall i | 0 <= i < |t'.entries| && t'.entries[i].file in d'.files
      ensures SegmentHolds(t'.hist, d', t'.entries, i)
    {
      if i < |t.entries| {
        ClosedNames(sha, t, i);
        LiveIsLastOf(sha, t, i);
        ClosedSegmentKept(sha, t, d, d', r, p, i);
      } else {
        LiveBecomesClosed(sha, t, d, p, r);
      }
    }
  }

  lemma LiveIsLastOf(sha: Sha, t: Story, i: nat)
    requires StoryOk(sha, t) && i < |t.entries|
    ensures Index(t.entries[i].file) < Index(t.live) && t.entries[i].file != t.live
  {
    LiveIsLast(sha, t.hist, t.entries, t.live, i);
  }

  lemma LiveBecomesClosed(sha: Sha, t: Story, d: Disk, p: Name, r: Rec)
    requires StoryOk(sha, t) && DiskHolds(t, d, []) && Start(t.entries) < |t.hist|
    requires Later(p, t.live)
    ensures var d', t' := Apply(d, Rename(Tmp(p), p)), Advanced(sha, t, r, p);
      SegmentHolds(t'.hist, d', t'.entries, |t.entries|)
  {
    hide *;
    DiskParts(t, d, []);
    var d', s := Apply(d, Rename(Tmp(p), p)), Start(t.entries);
    LiveName(sha, t);
    LiveUntouched(d, t.live, p);
    NothingAfter(Container(t.hist[s..]));
    assert (t.hist + [r])[s..|t.hist|] == t.hist[s..];
    LastHolds(sha, t, d', r, p);
  }

  lemma LiveUntouched(d: Disk, live: Name, p: Name)
    requires Later(p, live) && !live.Tmp?
    ensures ContentOf(Apply(d, Rename(Tmp(p), p)), live) == ContentOf(d, live)
  {
  }

  lemma LastHolds(sha: Sha, t: Story, d': Disk, r: Rec, p: Name)
    requires 0 <= Start(t.entries) < |t.hist|
    requires ContentOf(d', t.live) == Container((t.hist + [r])[Start(t.entries)..|t.hist|])
    ensures SegmentHolds(Advanced(sha, t, r, p).hist, d', Advanced(sha, t, r, p).entries, |t.entries|)
  {
    hide Container, EntryFor;
    var e := EntryFor(sha, t.hist, t.live, Start(t.entries), |t.hist| - 1);
    EntryForFields(sha, t.hist, t.live, Start(t.entries), |t.hist| - 1);
    assert StartOf(t.entries + [e], |t.entries|) == Start(t.entries);
  }

  lemma EntryForFields(sha: Sha, hist: seq<Rec>, file: Name, s: nat, last: nat)
    requires s <= last < |hist|
    ensures var e := EntryFor(sha, hist, file, s, last); e.file == file && e.firstSeq == s && e.lastSeq == last
  {
  }

  lemma ClosedSegmentKept(sha: Sha, t: Story, d: Disk, d': Disk, r: Rec, p: Name, i: nat)
    requires DiskHolds(t, d, []) && Start(t.entries) < |t.hist| && i < |t.entries|
    requires t.entries[i].file in d'.files && t.entries[i].file != p && !t.entries[i].file.Tmp?
    requires d' == Apply(d, Rename(Tmp(p), p))
    ensures SegmentHolds(Advanced(sha, t, r, p).hist, d', Advanced(sha, t, r, p).entries, i)
  {
    DiskParts(t, d, []);
    assert SegmentHolds(t.hist, d, t.entries, i);
    hide *;
    RenameFrame(d, p, t.entries[i].file);
    SegmentSame(t.hist, d, d', t.entries, i);
    SegmentGrows(t.hist, r, d', t.entries, i);
    AdvancedIs(sha, t, r, p);
    SegmentListed(t.hist + [r], d', t.entries, EntryFor(sha, t.hist, t.live, Start(t.entries), |t.hist| - 1), i);
  }

  lemma RenameFrame(d: Disk, p: Name, x: Name)
    requires x != p && !x.Tmp?
    ensures ContentOf(Apply(d, Rename(Tmp(p), p)), x) == ContentOf(d, x)
  {
  }

  lemma SegmentListed(hist: seq<Rec>, d: Disk, entries: seq<Entry>, e: Entry, i: nat)
    requires i < |entries| && SegmentHolds(hist, d, entries, i)
    ensures SegmentHolds(hist, d, entries + [e], i)
  {
    assert StartOf(entries + [e], i) == StartOf(entries, i);
  }

  // ---------- the writer across the cut ----------

  lemma UsedInMember(base: Name, entries: seq<Entry>, i: nat)
    requires i < |entries| && entries[i].file.Seg? && entries[i].file.stem == base
    ensures entries[i].file.n in UsedIn(base, entries)
  {
    if i < |entries| - 1 {
      UsedInMember(base, entries[..|entries| - 1], i);
    }
  }

  /** The next name has never been used: its index is past every index in use, and it is free. */
  lemma NextNameIsLater(sha: Sha, hist: seq<Rec>, entries: seq<Entry>, live: Name, w: WState, d: Disk)
    requires WriterOk(sha, hist, entries, live, w) && LiveAt(sha, hist, entries, live)
    ensures var p := Seg(Base, NextIndex(w, d)); Later(p, live) && p !in d.files
  {
    var u := Used(w);
    if live.Seg? {
      assert UsedBy(w.base, w.path) == [live.n];
      var a := [w.segIndex] + [w.segOrdinal.value];
      assert u == a + [live.n] + UsedIn(w.base, w.entries);
      assert u[2] == live.n;
    }
  }

  lemma ClosingEntry(sha: Sha, t: Story, w: WState)
    requires WriterOk(sha, t.hist, t.entries, t.live, w) && w.deferred.None? && Start(t.entries) < |t.hist|
    ensures ClosedEntry(sha, w) == EntryFor(sha, t.hist, t.live, Start(t.entries), |t.hist| - 1)
  {
    FrontierRoot(sha, t.hist, |t.hist|);
  }

  lemma WriterFacts(sha: Sha, t: Story, w: WState)
    requires WriterOk(sha, t.hist, t.entries, t.live, w)
    ensures IdentityOk(w.id) && w.seqNo == |t.hist| && w.head == PrevHash(sha, t.hist, |t.hist|)
    ensures w.path == t.live && w.base == Base && (w.rotation.Some? ==> PolicyOk(w.rotation.value))
    ensures w.segOrdinal == Some(|t.entries|) && w.entries == t.entries && (w.started <==> t.hist != [])
    ensures w.deferred.None? ==> w.frontier == Some(FrontierTo(sha, t.hist, |t.hist|)) && w.pending == []
  {
  }

  function RetentionOf(p: Policy): nat { if p.retentionS.Some? then p.retentionS.value else 0 }

  lemma DraftIs(sha: Sha, w: WState, root: Digest)
    requires w.rotation.Some? && w.segOrdinal.Some? && w.frontier.Some? && PeaksRoot(sha, w.frontier.value) == root
    ensures var x := ContinuationDraft(sha, w);
      && x.Some? && x.value.recordType == RT_EVENT
      && x.value.body == EncodeTlvs(ContinuationTlvs(
           w.rotation.value.describe, w.head, w.segOrdinal.value + 1, RetentionOf(w.rotation.value), root))
  {
  }

  lemma CutRecordIs(sha: Sha, w: WState, c: Clock)
    requires IdentityOk(w.id) && ClockOk(c) && Room(w) && ContinuationDraft(sha, w).Some?
    ensures CanStamp(w, ContinuationDraft(sha, w).value, c)
    ensures CutRecord(sha, w, c) == Some(Stamp(sha, w, ContinuationDraft(sha, w).value, c))
  {
    ContinuationFits(sha, w);
  }

  lemma RetentionFits(p: Policy)
    requires PolicyOk(p)
    ensures RetentionOf(p) < 0x1_0000_0000_0000_0000 && |p.describe| <= DETAIL_CLIP
  {
  }

  lemma RoomForIndex(w: WState)
    requires Room(w) && w.segOrdinal.Some?
    ensures w.segOrdinal.value + 1 < 0x1_0000_0000
  {
  }

  lemma EventType(sha: Sha, w: WState, x: Draft, c: Clock)
    requires x.recordType == RT_EVENT
    ensures HeaderFor(sha, w, x, c).recordType == RT_EVENT && RT_EVENT != RT_GENESIS
  {
  }

  /** The staged continuation declares the predecessor, the ordinal and the root over everything before it. */
  lemma CutRecordDeclares(sha: Sha, t: Story, w: WState, c: Clock)
    requires WriterOk(sha, t.hist, t.entries, t.live, w) && w.deferred.None? && w.rotation.Some?
    requires ClockOk(c) && Room(w) && t.hist != []
    ensures IdentityOk(w.id) && CutRecord(sha, w, c).Some?
    ensures var r := CutRecord(sha, w, c).value;
      && RecAt(sha, r, |t.hist|, PrevHash(sha, t.hist, |t.hist|))
      && OpensSegment(sha, t.hist + [r], |t.hist|, |t.entries| + 1)
  {
    hide *;
    WriterFacts(sha, t, w);
    FrontierRoot(sha, t.hist, |t.hist|);
    DraftIs(sha, w, RootTo(sha, t.hist, |t.hist|));
    CutRecordIs(sha, w, c);
    var x := ContinuationDraft(sha, w).value;
    EventType(sha, w, x, c);
    StampIsRec(sha, w, x, c, t.hist);
    RetentionFits(w.rotation.value);
    RoomForIndex(w);
    CutDeclares(sha, t.hist, CutRecord(sha, w, c).value, |t.entries| + 1, w.rotation.value.describe,
                RetentionOf(w.rotation.value));
  }

  lemma CutDeclares(sha: Sha, hist: seq<Rec>, r: Rec, idx: nat, text: Bytes, retention: nat)
    requires |text| <= DETAIL_CLIP && retention < 0x1_0000_0000_0000_0000 && idx < 0x1_0000_0000
    requires r.body ==
      EncodeTlvs(ContinuationTlvs(text, PrevHash(sha, hist, |hist|), idx, retention, RootTo(sha, hist, |hist|)))
    requires Decode(r.hb).Some? && Decode(r.hb).value.recordType == RT_EVENT
    ensures OpensSegment(sha, hist + [r], |hist|, idx)
  {
    PrefixStable(sha, hist, r, |hist|);
    assert Declares(sha, hist + [r], |hist|, idx, text, retention);
  }

  lemma StoryParts(sha: Sha, t: Story)
    requires StoryOk(sha, t)
    ensures Layout(sha, t.hist, t.entries, t.live)
    ensures HistOk(sha, t.hist) && EntriesOk(sha, t.hist, t.entries) && LiveAt(sha, t.hist, t.entries, t.live)
    ensures 0 <= Start(t.entries) <= |t.hist|
  {
  }

  lemma StoryAdvances(sha: Sha, t: Story, r: Rec, p: Name)
    requires StoryOk(sha, t) && 0 <= Start(t.entries) < |t.hist| && Later(p, t.live)
    requires RecAt(sha, r, |t.hist|, PrevHash(sha, t.hist, |t.hist|))
    requires OpensSegment(sha, t.hist + [r], |t.hist|, |t.entries| + 1)
    ensures StoryOk(sha, Advanced(sha, t, r, p))
  {
    hide *;
    StoryParts(sha, t);
    LayoutCloses(sha, t.hist, t.entries, t.live);
    var e := EntryFor(sha, t.hist, t.live, Start(t.entries), |t.hist| - 1);
    EntriesGrow(sha, t.hist, r, t.entries + [e]);
    HistGrows(sha, t.hist, r);
    EntryForFields(sha, t.hist, t.live, Start(t.entries), |t.hist| - 1);
    LiveMade(sha, t.hist + [r], t.entries, e, |t.hist|, p);
    AdvancedIs(sha, t, r, p);
    StoryMade(sha, Advanced(sha, t, r, p));
  }

  lemma AdvancedIs(sha: Sha, t: Story, r: Rec, p: Name)
    requires 0 <= Start(t.entries) < |t.hist|
    ensures Advanced(sha, t, r, p) ==
      Story(t.hist + [r], t.entries + [EntryFor(sha, t.hist, t.live, Start(t.entries), |t.hist| - 1)], p)
  {
  }

  lemma LiveMade(sha: Sha, hist: seq<Rec>, entries: seq<Entry>, e: Entry, s: nat, p: Name)
    requires e.lastSeq == s - 1 && s < |hist| && Later(p, e.file) && OpensSegment(sha, hist, s, |entries| + 1)
    ensures LiveAt(sha, hist, entries + [e], p) && Start(entries + [e]) == s
  {
  }

  lemma StoryMade(sha: Sha, t: Story)
    requires HistOk(sha, t.hist) && EntriesOk(sha, t.hist, t.entries) && LiveAt(sha, t.hist, t.entries, t.live)
    ensures StoryOk(sha, t)
  {
  }

  lemma WriterAdvances(sha: Sha, t: Story, w: WState, c: Clock, p: Name)
    requires WriterOk(sha, t.hist, t.entries, t.live, w) && w.deferred.None? && !w.bootPending && w.rotation.Some?
    requires ClockOk(c) && Room(w) && Start(t.entries) < |t.hist|
    ensures CutRecord(sha, w, c).Some?
    ensures var t' := Advanced(sha, t, CutRecord(sha, w, c).value, p);
      WriterOk(sha, t'.hist, t'.entries, p, AfterCut(sha, w, p, c))
  {
    CutRecordDeclares(sha, t, w, c);
    ClosingEntry(sha, t, w);
    MovedKeeps(sha, t, w, c, CutRecord(sha, w, c).value, p);
  }

  lemma AfterCutIs(sha: Sha, w: WState, c: Clock, r: Rec, p: Name)
    requires IdentityOk(w.id) && ClockOk(c) && Room(w) && w.deferred.None? && CutRecord(sha, w, c) == Some(r)
    requires w.frontier.Some? && w.rotation.Some? && w.segOrdinal.Some?
    ensures AfterCut(sha, w, p, c) == w.(
      path := p, segPrevHead := w.head, segFirstSeq := w.seqNo, segRecords := 1, segBytes := |r.hb| + |r.body|,
      segStartedS := c.monotonicS, segOrdinal := Some(w.segOrdinal.value + 1),
      entries := w.entries + [ClosedEntry(sha, w)],
      head := RecHash(sha, r), seqNo := w.seqNo + 1, frontier := Some(Append(sha, w.frontier.value, RecHash(sha, r))))
  {
    hide CutRecord, ClosedEntry, Append;
  }

  lemma MovedKeeps(sha: Sha, t: Story, w: WState, c: Clock, r: Rec, p: Name)
    requires WriterOk(sha, t.hist, t.entries, t.live, w) && w.deferred.None? && !w.bootPending && w.rotation.Some?
    requires IdentityOk(w.id) && ClockOk(c) && Room(w) && 0 <= Start(t.entries) < |t.hist|
    requires CutRecord(sha, w, c) == Some(r)
    requires ClosedEntry(sha, w) == EntryFor(sha, t.hist, t.live, Start(t.entries), |t.hist| - 1)
    ensures var t' := Advanced(sha, t, r, p);
      WriterOk(sha, t'.hist, t'.entries, p, AfterCut(sha, w, p, c))
  {
    hide CutRecord, EntryFor, ClosedEntry, FrontierTo, Container, RecBytes, PolicyOk, AfterCut, Append, Room;
    var t' := Advanced(sha, t, r, p);
    AfterCutIs(sha, w, c, r, p);
    RenameLive(t, sha, p, r);
    RecSize(r);
    FrontierSnoc(sha, t.hist, r);
    PrefixStable(sha, t.hist, r, |t.hist|);
    assert PrevHash(sha, t'.hist, |t'.hist|) == RecHash(sha, r);
  }

  // ---------- the operations of one emit ----------

  lemma ApplyFirst(d: Disk, op: DiskOp, ops: seq<DiskOp>)
    ensures ApplyAll(d, [op] + ops) == ApplyAll(Apply(d, op), ops)
    decreases |ops|
  {
    if ops == [] {
      assert ([op] + ops)[..0] == [];
    } else {
      var all := [op] + ops;
      assert all[..|all| - 1] == [op] + ops[..|ops| - 1];
      ApplyFirst(d, op, ops[..|ops| - 1]);
    }
  }

  lemma ApplyOne(d: Disk, op: DiskOp)
    ensures ApplyAll(d, [op]) == Apply(d, op)
  {
    assert [op][..0] == [];
  }

  lemma ApplyNone(d: Disk)
    ensures ApplyAll(d, []) == d
  {
  }

  lemma CrashFirst(d: Disk, op: DiskOp, ops: seq<DiskOp>, k: nat, n: nat)
    requires 1 <= k <= |ops| + 1
    ensures CrashDisk(d, [op] + ops, k, n) == CrashDisk(Apply(d, op), ops, k - 1, n)
  {
    var all := [op] + ops;
    assert all[..k] == [op] + ops[..k - 1];
    var torn := if k < |all| then Torn(all[k], n) else [];
    assert all[..k] + torn == [op] + (ops[..k - 1] + torn);
    ApplyFirst(d, op, ops[..k - 1] + torn);
  }

  lemma CrashAtOnce(d: Disk, op: DiskOp, ops: seq<DiskOp>, n: nat)
    ensures CrashDisk(d, [op] + ops, 0, n) == ApplyAll(d, Torn(op, n))
  {
    assert ([op] + ops)[..0] + Torn(op, n) == Torn(op, n);
  }

  /** The disk at each point of a cut that starts from `d`. */
  lemma CutDisks(sha: Sha, t: Story, w: WState, d: Disk, p: Name, c: Clock)
    requires WriterOk(sha, t.hist, t.entries, t.live, w) && w.rotation.Some?
    requires ClockOk(c) && Room(w) && CutRecord(sha, w, c).Some?
    ensures var bytes := RecBytes(CutRecord(sha, w, c).value);
      CutOps(sha, w, p, c) ==
        [PutManifest(Base, t.entries + [ClosedEntry(sha, w)])] +
        ([WriteTemp(Tmp(p), bytes)] + ([Rename(Tmp(p), p)] + []))
  {
  }

  /** After a whole cut: everything agrees on the advanced story. */
  lemma CutIsGood(sha: Sha, t: Story, w: WState, d: Disk, p: Name, c: Clock)
    requires Good(sha, t, w, d) && w.deferred.None? && !w.bootPending && w.rotation.Some?
    requires ClockOk(c) && Room(w) && Start(t.entries) < |t.hist|
    requires Later(p, t.live) && p !in d.files
    ensures CutRecord(sha, w, c).Some?
    ensures Good(sha, Advanced(sha, t, CutRecord(sha, w, c).value, p), AfterCut(sha, w, p, c),
                 ApplyAll(d, CutOps(sha, w, p, c)))
  {
    CutRecordDeclares(sha, t, w, c);
    ClosingEntry(sha, t, w);
    var r := CutRecord(sha, w, c).value;
    var all := Advanced(sha, t, r, p).entries;
    CutDisks(sha, t, w, d, p, c);
    StoryAdvances(sha, t, r, p);
    WriterAdvances(sha, t, w, c, p);
    hide *;
    var d1 := Apply(d, PutManifest(Base, all));
    var d2 := Apply(d1, WriteTemp(Tmp(p), RecBytes(r)));
    var d3 := Apply(d2, Rename(Tmp(p), p));
    ApplyFirst(d, PutManifest(Base, all), [WriteTemp(Tmp(p), RecBytes(r))] + ([Rename(Tmp(p), p)] + []));
    ApplyFirst(d1, WriteTemp(Tmp(p), RecBytes(r)), [Rename(Tmp(p), p)] + []);
    ApplyFirst(d2, Rename(Tmp(p), p), []);
    ApplyNone(d3);
    GoodParts(sha, t, w, d);
    CutFiles(sha, t, d, p, r, all);
    GoodMade(sha, Advanced(sha, t, r, p), AfterCut(sha, w, p, c), d3);
  }

  lemma GoodParts(sha: Sha, t: Story, w: WState, d: Disk)
    requires Good(sha, t, w, d)
    ensures StoryOk(sha, t) && DiskHolds(t, d, []) && Settled(d, t.entries)
    ensures WriterOk(sha, t.hist, t.entries, t.live, w)
  {
  }

  lemma GoodMade(sha: Sha, t: Story, w: WState, d: Disk)
    requires StoryOk(sha, t) && DiskHolds(t, d, []) && Settled(d, t.entries)
    requires WriterOk(sha, t.hist, t.entries, t.live, w)
    ensures Good(sha, t, w, d)
  {
  }

  lemma HalfMade(sha: Sha, t: Story, d: Disk, r: Rec, p: Name)
    requires 0 <= Start(t.entries) < |t.hist| && Base in d.manifests
    requires d.manifests[Base] == Advanced(sha, t, r, p).entries
    ensures HalfCut(sha, t.hist, d, t.entries, t.live) && Settled(d, Advanced(sha, t, r, p).entries)
  {
  }

  lemma ManifestPut(d: Disk, all: seq<Entry>)
    ensures var d1 := Apply(d, PutManifest(Base, all));
      d1.files == d.files && Base in d1.manifests && d1.manifests[Base] == all
  {
  }

  lemma TempWritten(d: Disk, p: Name, data: Bytes)
    requires p.Seg?
    ensures var d2 := Apply(d, WriteTemp(Tmp(p), data));
      && d2.manifests == d.manifests && Tmp(p) in d2.files && d2.files[Tmp(p)] == data
      && (p in d2.files <==> p in d.files)
  {
  }

  lemma Renamed(d: Disk, p: Name)
    ensures Apply(d, Rename(Tmp(p), p)).manifests == d.manifests
  {
  }

  lemma LaterIsSeg(p: Name, q: Name)
    requires Later(p, q)
    ensures p.Seg?
  {
  }

  /** The three disks of a cut. */
  lemma CutFiles(sha: Sha, t: Story, d: Disk, p: Name, r: Rec, all: seq<Entry>)
    requires StoryOk(sha, t) && DiskHolds(t, d, []) && 0 <= Start(t.entries) < |t.hist|
    requires Later(p, t.live) && p !in d.files
    requires all == Advanced(sha, t, r, p).entries
    ensures var d1 := Apply(d, PutManifest(Base, all));
      var d2 := Apply(d1, WriteTemp(Tmp(p), RecBytes(r)));
      var d3 := Apply(d2, Rename(Tmp(p), p));
      && DiskHolds(t, d1, []) && HalfCut(sha, t.hist, d1, t.entries, t.live)
      && DiskHolds(t, d2, []) && HalfCut(sha, t.hist, d2, t.entries, t.live)
      && DiskHolds(Advanced(sha, t, r, p), d3, []) && Settled(d3, all)
  {
    hide *;
    var d1 := Apply(d, PutManifest(Base, all));
    var d2 := Apply(d1, WriteTemp(Tmp(p), RecBytes(r)));
    var d3 := Apply(d2, Rename(Tmp(p), p));
    LaterIsSeg(p, t.live);
    ManifestPut(d, all);
    TempWritten(d1, p, RecBytes(r));
    Renamed(d2, p);
    ManifestsAside(t, d, d1, []);
    TempAside(sha, t, d1, p, RecBytes(r));
    RenameAdvances(sha, t, d2, p, r);
    HalfMade(sha, t, d1, r, p);
    HalfMade(sha, t, d2, r, p);
    HalfMade(sha, t, d3, r, p);
  }

  /** The live file's records, with bytes after them at which no record starts; the manifest is
      settled, or half a cut ahead. Everything a crash can leave. */
  ghost predicate Crashed(sha: Sha, t: Story, d: Disk, tail: Bytes) {
    && StoryOk(sha, t) && DiskHolds(t, d, tail)
    && (tail == [] || FirstRec(tail).None?)
    && (Settled(d, t.entries) || (tail == [] && HalfCut(sha, t.hist, d, t.entries, t.live)))
  }

  lemma CrashedMade(sha: Sha, t: Story, d: Disk)
    requires StoryOk(sha, t) && DiskHolds(t, d, [])
    requires Settled(d, t.entries) || HalfCut(sha, t.hist, d, t.entries, t.live)
    ensures Crashed(sha, t, d, [])
  {
  }

  /** A crash anywhere in a cut leaves the story before it, half cut or not, or the one after it. */
  lemma CutCrash(sha: Sha, t: Story, w: WState, d: Disk, p: Name, c: Clock, k: nat, n: nat)
    requires Good(sha, t, w, d) && w.deferred.None? && !w.bootPending && w.rotation.Some?
    requires IdentityOk(w.id) && ClockOk(c) && Room(w) && 0 <= Start(t.entries) < |t.hist|
    requires Later(p, t.live) && p !in d.files && k <= |CutOps(sha, w, p, c)|
    ensures CutRecord(sha, w, c).Some?
    ensures var d' := CrashDisk(d, CutOps(sha, w, p, c), k, n);
      if k < 3 then Crashed(sha, t, d', []) && (k == 0 ==> d' == d)
      else Crashed(sha, Advanced(sha, t, CutRecord(sha, w, c).value, p), d', [])
           && Settled(d', Advanced(sha, t, CutRecord(sha, w, c).value, p).entries)
  {
    hide *;
    GoodParts(sha, t, w, d);
    CutRecordDeclares(sha, t, w, c);
    ClosingEntry(sha, t, w);
    var r := CutRecord(sha, w, c).value;
    AdvancedIs(sha, t, r, p);
    var all := Advanced(sha, t, r, p).entries;
    CutDisks(sha, t, w, d, p, c);
    StoryAdvances(sha, t, r, p);
    CutFiles(sha, t, d, p, r, all);
    var put, write, rename := PutManifest(Base, all), WriteTemp(Tmp(p), RecBytes(r)), Rename(Tmp(p), p);
    var d1 := Apply(d, put);
    if k == 0 {
      CrashAtOnce(d, put, [write] + ([rename] + []), n);
      TornPut(d, all, n);
      CrashedMade(sha, t, d);
    } else {
      CrashFirst(d, put, [write] + ([rename] + []), k, n);
      LaterIsSeg(p, t.live);
      ManifestPut(d, all);
      CutCrashAfterManifest(sha, t, d1, p, r, all, k - 1, n);
    }
  }

  lemma TornPut(d: Disk, all: seq<Entry>, n: nat)
    ensures ApplyAll(d, Torn(PutManifest(Base, all), n)) == d
  {
  }

  lemma TornRename(d: Disk, p: Name, n: nat)
    ensures ApplyAll(d, Torn(Rename(Tmp(p), p), n)) == d
  {
  }

  lemma TornTemp(d: Disk, p: Name, data: Bytes, n: nat)
    ensures exists part :: ApplyAll(d, Torn(WriteTemp(Tmp(p), data), n)) == Apply(d, WriteTemp(Tmp(p), part))
  {
    var part := if n <= |data| then data[..n] else data;
    assert Torn(WriteTemp(Tmp(p), data), n) == [WriteTemp(Tmp(p), part)] + [];
    ApplyFirst(d, WriteTemp(Tmp(p), part), []);
  }

  lemma CrashNone(d: Disk, n: nat)
    ensures CrashDisk(d, [], 0, n) == d
  {
  }

  lemma CutCrashAfterManifest(sha: Sha, t: Story, d1: Disk, p: Name, r: Rec, all: seq<Entry>, k: nat, n: nat)
    requires StoryOk(sha, t) && DiskHolds(t, d1, []) && 0 <= Start(t.entries) < |t.hist|
    requires Later(p, t.live) && p !in d1.files && k <= 2
    requires all == Advanced(sha, t, r, p).entries && Base in d1.manifests && d1.manifests[Base] == all
    requires StoryOk(sha, Advanced(sha, t, r, p))
    ensures var d' := CrashDisk(d1, [WriteTemp(Tmp(p), RecBytes(r))] + ([Rename(Tmp(p), p)] + []), k, n);
      if k < 2 then Crashed(sha, t, d', []) else Crashed(sha, Advanced(sha, t, r, p), d', []) && Settled(d', all)
  {
    hide *;
    var write, rename := WriteTemp(Tmp(p), RecBytes(r)), Rename(Tmp(p), p);
    LaterIsSeg(p, t.live);
    if k == 0 {
      CrashAtOnce(d1, write, [rename] + [], n);
      TornTemp(d1, p, RecBytes(r), n);
      var part :| ApplyAll(d1, Torn(write, n)) == Apply(d1, WriteTemp(Tmp(p), part));
      TempWritten(d1, p, part);
      TempAside(sha, t, d1, p, part);
      HalfMade(sha, t, Apply(d1, WriteTemp(Tmp(p), part)), r, p);
      CrashedMade(sha, t, Apply(d1, WriteTemp(Tmp(p), part)));
    } else {
      var d2 := Apply(d1, write);
      CrashFirst(d1, write, [rename] + [], k, n);
      TempAside(sha, t, d1, p, RecBytes(r));
      TempWritten(d1, p, RecBytes(r));
      if k == 1 {
        CrashAtOnce(d2, rename, [], n);
        TornRename(d2, p, n);
        HalfMade(sha, t, d2, r, p);
        CrashedMade(sha, t, d2);
      } else {
        CrashFirst(d2, rename, [], 1, n);
        RenameAdvances(sha, t, d2, p, r);
        Renamed(d2, p);
        HalfMade(sha, t, Apply(d2, rename), r, p);
        CrashNone(Apply(d2, rename), n);
        CrashedMade(sha, Advanced(sha, t, r, p), Apply(d2, rename));
      }
    }
  }

  // ---------- one emit ----------

  /** What a caller must bring: fields that fit, with room for this record and a continuation. */
  predicate EmitFits(w: WState, x: Draft, c1: Clock, c2: Clock) {
    CanStamp(w, x, c1) && ClockOk(c2) && Room(w.(seqNo := w.seqNo + 1))
  }

  lemma GoodSource(sha: Sha, t: Story, w: WState, d: Disk)
    requires Good(sha, t, w, d)
    ensures SourceOk(w, d)
    ensures w.deferred.Some? ==> HoldsFrom(d, t.live, t.hist, w.deferred.value.1)
  {
    if w.deferred.Some? {
      NothingAfter(Container(t.hist));
      assert t.hist[0..] == t.hist;
      if t.hist != [] {
        LiveHolds(sha, t.hist, d, t.live, w.deferred.value.1);
      }
    }
  }

  lemma AcceptedType(sha: Sha, t: Story, w: WState, x: Draft)
    requires WriterOk(sha, t.hist, t.entries, t.live, w) && !Refuses(w, x.recordType)
    ensures x.recordType == RT_GENESIS <==> t.hist == []
  {
  }

  /** A record on disk and committed: the story has it, and nothing else changed. */
  lemma WriteKeeps(sha: Sha, t: Story, w: WState, d: Disk, x: Draft, c: Clock)
    requires Good(sha, t, w, d) && !Refuses(w, x.recordType) && CanStamp(w, x, c)
    ensures var r := Stamp(sha, Started(w), x, c);
      var d1 := Apply(d, AppendTo(t.live, RecBytes(r)));
      && SourceOk(Started(w), d1) && SourceOk(w, d)
      && Good(sha, Wrote(t, r), Commit(sha, Started(w), d1, x.recordType, x.spanId, r), d1)
      && 0 <= Start(t.entries) <= |t.hist| && RecOk(r)
  {
    hide *;
    GoodParts(sha, t, w, d);
    WriterFacts(sha, t, w);
    AcceptedType(sha, t, w, x);
    StartedIs(w, x, c);
    StampIsRec(sha, Started(w), x, c, t.hist);
    var r := Stamp(sha, Started(w), x, c);
    var d1 := Apply(d, AppendTo(t.live, RecBytes(r)));
    StoryParts(sha, t);
    GoodSource(sha, t, w, d);
    AppendWhole(sha, t, d, r);
    if w.deferred.Some? {
      SourceGrows(sha, t, d, d1, RecBytes(r), w.deferred.value.1);
    }
    CommitStarted(sha, t, w, d1, x.recordType, x.spanId, r);
    SettledStays(sha, t, d, t.live, RecBytes(r));
    StoryGrows(sha, t, r);
    WroteStory(t, r);
    GoodMade(sha, Wrote(t, r), Commit(sha, Started(w), d1, x.recordType, x.spanId, r), d1);
    DiskParts(t, d, []);
  }

  lemma StartedIs(w: WState, x: Draft, c: Clock)
    ensures Started(w).seqNo == w.seqNo && Started(w).head == w.head
    ensures CanStamp(Started(w), x, c) <==> CanStamp(w, x, c)
  {
  }

  lemma WroteStory(t: Story, r: Rec)
    ensures Wrote(t, r) == Story(t.hist + [r], t.entries, t.live)
  {
  }

  lemma StoryGrows(sha: Sha, t: Story, r: Rec)
    requires StoryOk(sha, t) && RecAt(sha, r, |t.hist|, PrevHash(sha, t.hist, |t.hist|))
    ensures StoryOk(sha, Wrote(t, r)) && RecOk(r)
  {
    LayoutGrows(sha, t.hist, r, t.entries, t.live);
    hide Layout;
  }

  lemma SourceGrows(sha: Sha, t: Story, d: Disk, d1: Disk, data: Bytes, c: nat)
    requires HoldsFrom(d, t.live, t.hist, c) && d1 == Apply(d, AppendTo(t.live, data))
    ensures HoldsFrom(d1, t.live, t.hist, c)
  {
    WalkGrows(d.files[t.live], data);
  }

  lemma CommitStarted(sha: Sha, t: Story, w: WState, d1: Disk, recordType: nat, spanId: Bytes, r: Rec)
    requires StoryOk(sha, t) && WriterOk(sha, t.hist, t.entries, t.live, w)
    requires w.deferred.Some? ==> HoldsFrom(d1, t.live, t.hist, w.deferred.value.1)
    ensures SourceOk(Started(w), d1)
    ensures WriterOk(sha, t.hist + [r], t.entries, t.live, Commit(sha, Started(w), d1, recordType, spanId, r))
  {
    CommitKeeps(sha, t.hist, t.entries, t.live, w.(bootPending := false), d1, recordType, spanId, r);
  }

  /** The writer just before its policy is asked, and just before it cuts. */
  function Before(sha: Sha, w: WState, d: Disk, x: Draft, c1: Clock): (WState, Disk, Rec)
    requires CanStamp(w, x, c1) && SourceOk(w, d)
  {
    var r := Stamp(sha, Started(w), x, c1);
    var d1 := Apply(d, AppendTo(w.path, RecBytes(r)));
    SourceSurvivesAppend(Started(w), d, RecBytes(r));
    (Commit(sha, Started(w), d1, x.recordType, x.spanId, r), d1, r)
  }

  predicate Cuts(w1: WState, now: real) {
    Due(w1, now) && w1.openSpans == {}
  }

  function Ready(sha: Sha, w1: WState, d1: Disk): WState
    requires SourceOk(w1, d1)
  {
    Materialize(sha, w1.(rotationDue := false, segIndex := NextIndex(w1, d1)), d1)
  }

  lemma CommitKeepsRoom(sha: Sha, w: WState, d: Disk, recordType: nat, spanId: Bytes, r: Rec)
    requires SourceOk(w, d)
    ensures var w1 := Commit(sha, w, d, recordType, spanId, r);
      && w1.id == w.id && w1.seqNo == w.seqNo + 1 && w1.bootPending == w.bootPending
      && (Room(w1) <==> Room(w.(seqNo := w.seqNo + 1)))
  {
  }

  lemma CommitKeepsSource(sha: Sha, w: WState, d: Disk, recordType: nat, spanId: Bytes, r: Rec)
    requires SourceOk(w, d)
    ensures SourceOk(Commit(sha, w, d, recordType, spanId, r), d)
  {
  }

  /** The policy step on an agreed state: the same story, or a whole cut past it. */
  lemma RotateKeeps(sha: Sha, t: Story, w1: WState, d1: Disk, c1: Clock, c2: Clock)
    requires Good(sha, t, w1, d1) && !w1.bootPending && t.hist != [] && Start(t.entries) < |t.hist|
    requires IdentityOk(w1.id) && ClockOk(c2) && Room(w1) && SourceOk(w1, d1)
    ensures 0 <= Start(t.entries) && Room(Ready(sha, w1, d1)) && IdentityOk(Ready(sha, w1, d1).id)
    ensures var (w2, ops) := MaybeRotate(sha, w1, d1, c1, c2);
      if Cuts(w1, c1.monotonicS) then
        var p, rdy := Seg(Base, NextIndex(w1, d1)), Ready(sha, w1, d1);
        && CutRecord(sha, rdy, c2).Some?
        && ops == CutOps(sha, rdy, p, c2)
        && Good(sha, Advanced(sha, t, CutRecord(sha, rdy, c2).value, p), w2, ApplyAll(d1, ops))
      else ops == [] && Good(sha, t, w2, d1)
  {
    hide *;
    GoodSource(sha, t, w1, d1);
    GoodParts(sha, t, w1, d1);
    StoryParts(sha, t);
    WriterFacts(sha, t, w1);
    ReadyIsGood(sha, t, w1, d1);
    GoodParts(sha, t, Ready(sha, w1, d1), d1);
    RotateIs(sha, w1, d1, c1, c2);
    if Cuts(w1, c1.monotonicS) {
      var p, rdy := Seg(Base, NextIndex(w1, d1)), Ready(sha, w1, d1);
      NextNameIsLater(sha, t.hist, t.entries, t.live, w1, d1);
      CutIsGood(sha, t, rdy, d1, p, c2);
    } else if Due(w1, c1.monotonicS) {
      DueIsGood(sha, t, w1, d1);
    }
  }

  /** The policy step, by cases. */
  lemma RotateIs(sha: Sha, w1: WState, d1: Disk, c1: Clock, c2: Clock)
    requires IdentityOk(w1.id) && ClockOk(c2) && Room(w1) && SourceOk(w1, d1)
    ensures Room(Ready(sha, w1, d1)) && IdentityOk(Ready(sha, w1, d1).id) && Ready(sha, w1, d1).deferred.None?
    ensures Cuts(w1, c1.monotonicS) ==> w1.rotation.Some?
    ensures MaybeRotate(sha, w1, d1, c1, c2) ==
      if Cuts(w1, c1.monotonicS) then
        var p, rdy := Seg(w1.base, NextIndex(w1, d1)), Ready(sha, w1, d1);
        (AfterCut(sha, rdy, p, c2), CutOps(sha, rdy, p, c2))
      else if Due(w1, c1.monotonicS) then (w1.(rotationDue := true), []) else (w1, [])
  {
    ReadyRoom(sha, w1, d1);
    hide AfterCut, CutOps, NextIndex, AppendAll, RecHashes, Walk;
  }

  lemma DueIsGood(sha: Sha, t: Story, w1: WState, d1: Disk)
    requires Good(sha, t, w1, d1)
    ensures Good(sha, t, w1.(rotationDue := true), d1)
  {
  }

  lemma IndexIsGood(sha: Sha, t: Story, w1: WState, n: nat)
    requires WriterOk(sha, t.hist, t.entries, t.live, w1)
    ensures WriterOk(sha, t.hist, t.entries, t.live, w1.(rotationDue := false, segIndex := n))
  {
  }

  lemma EagerIsGood(sha: Sha, t: Story, w: WState)
    requires WriterOk(sha, t.hist, t.entries, t.live, w)
    ensures var e := w.(frontier := Some(FrontierTo(sha, t.hist, |t.hist|)), deferred := None, pending := []);
      WriterOk(sha, t.hist, t.entries, t.live, e) && (Room(e) <==> Room(w))
  {
    hide FrontierTo, Container, PrevHash;
  }

  lemma ReadyIs(sha: Sha, w1: WState, d1: Disk)
    requires SourceOk(w1, d1)
    ensures var w' := w1.(rotationDue := false, segIndex := NextIndex(w1, d1));
      && SourceOk(w', d1) && Ready(sha, w1, d1) == Materialize(sha, w', d1) && (Room(w') <==> Room(w1))
  {
  }

  lemma ReadyIsGood(sha: Sha, t: Story, w1: WState, d1: Disk)
    requires Good(sha, t, w1, d1)
    ensures SourceOk(w1, d1)
    ensures var rdy := Ready(sha, w1, d1);
      && Good(sha, t, rdy, d1) && rdy.deferred.None? && rdy.bootPending == w1.bootPending
      && (Room(rdy) <==> Room(w1)) && rdy.id == w1.id && rdy.base == w1.base && rdy.rotation == w1.rotation
  {
    GoodSource(sha, t, w1, d1);
    GoodHolds(sha, t, w1, d1);
    hide *;
    GoodParts(sha, t, w1, d1);
    StoryParts(sha, t);
    var w' := w1.(rotationDue := false, segIndex := NextIndex(w1, d1));
    ReadyIs(sha, w1, d1);
    IndexIsGood(sha, t, w1, NextIndex(w1, d1));
    MaterializedIsEager(sha, t.hist, t.entries, t.live, w', d1);
    EagerIsGood(sha, t, w');
    GoodMade(sha, t, Ready(sha, w1, d1), d1);
  }

  lemma GoodHolds(sha: Sha, t: Story, w: WState, d: Disk)
    requires Good(sha, t, w, d)
    ensures w.deferred.Some? ==> t.live in d.files && HoldsFrom(d, t.live, t.hist, w.deferred.value.1)
  {
    GoodSource(sha, t, w, d);
  }

  lemma CutsNeedPolicy(w1: WState, now: real)
    requires Cuts(w1, now)
    ensures w1.rotation.Some? && w1.openSpans == {} && Due(w1, now)
  {
  }

  lemma ReadyRoom(sha: Sha, w1: WState, d1: Disk)
    requires SourceOk(w1, d1)
    ensures Ready(sha, w1, d1).id == w1.id && (Room(Ready(sha, w1, d1)) <==> Room(w1))
  {
  }

  /** The story once the policy has been asked: cut, or not. */
  function Rotated(sha: Sha, t1: Story, w1: WState, d1: Disk, c1: Clock, c2: Clock): Story
    requires IdentityOk(w1.id) && ClockOk(c2) && Room(w1) && SourceOk(w1, d1) && 0 <= Start(t1.entries) < |t1.hist|
  {
    ReadyRoom(sha, w1, d1);
    if !Cuts(w1, c1.monotonicS) then t1
    else
      var cont := CutRecord(sha, Ready(sha, w1, d1), c2);
      if cont.None? then t1 else Advanced(sha, t1, cont.value, Seg(Base, NextIndex(w1, d1)))
  }

  /** The story after an accepted emit that stopped after `k` whole operations and `n` bytes of the
      next. The whole emit is `k == WHOLE`: the record, the manifest, the staged successor, its rename. */
  function EmitStory(sha: Sha, t: Story, w1: WState, d1: Disk, r: Rec, c1: Clock, c2: Clock, k: nat, n: nat): Story
    requires IdentityOk(w1.id) && ClockOk(c2) && Room(w1) && SourceOk(w1, d1) && 0 <= Start(t.entries) <= |t.hist|
  {
    if k == 0 && n < |RecBytes(r)| then t
    else if k < WHOLE then Wrote(t, r)
    else
      WroteParts(t, r);
      Rotated(sha, Wrote(t, r), w1, d1, c1, c2)
  }

  const WHOLE: nat := 4

  function EmitTail(r: Rec, k: nat, n: nat): Bytes {
    if k == 0 && n < |RecBytes(r)| then RecBytes(r)[..n] else []
  }

  lemma EmitIs(sha: Sha, w: WState, d: Disk, x: Draft, c1: Clock, c2: Clock)
    requires EmitFits(w, x, c1, c2) && SourceOk(w, d) && !Refuses(w, x.recordType)
    ensures CanEmit(w, d, x, c1, c2)
    ensures var (w1, d1, r) := Before(sha, w, d, x, c1);
      && IdentityOk(w1.id) && Room(w1) && !w1.bootPending
      && SourceOk(Started(w), d1) && w1 == Commit(sha, Started(w), d1, x.recordType, x.spanId, r)
      && r == Stamp(sha, Started(w), x, c1) && d1 == Apply(d, AppendTo(w.path, RecBytes(r)))
      && (SourceOk(w1, d1) ==>
            var (w2, ops) := MaybeRotate(sha, w1, d1, c1, c2);
            Emit(sha, w, d, x, c1, c2) == (w2, [AppendTo(w.path, RecBytes(r))] + ops))
  {
    hide Commit, MaybeRotate, Encode, Stamp;
    var r := Stamp(sha, Started(w), x, c1);
    SourceSurvivesAppend(Started(w), d, RecBytes(r));
    CommitKeepsRoom(sha, Started(w), Apply(d, AppendTo(w.path, RecBytes(r))), x.recordType, x.spanId, r);
  }

  lemma WroteParts(t: Story, r: Rec)
    requires 0 <= Start(t.entries) <= |t.hist|
    ensures var t1 := Wrote(t, r);
      && t1.live == t.live && t1.entries == t.entries && t1.hist == t.hist + [r] && t1.hist != []
      && Start(t1.entries) < |t1.hist|
  {
  }

  /** Everything the lemmas below need about one accepted record. */
  lemma EmitStep(sha: Sha, t: Story, w: WState, d: Disk, x: Draft, c1: Clock, c2: Clock)
    requires Good(sha, t, w, d) && EmitFits(w, x, c1, c2) && !Refuses(w, x.recordType)
    ensures SourceOk(w, d) && CanEmit(w, d, x, c1, c2) && w.path == t.live
    ensures var (w1, d1, r) := Before(sha, w, d, x, c1);
      && IdentityOk(w1.id) && Room(w1) && !w1.bootPending && SourceOk(w1, d1) && RecOk(r)
      && Good(sha, Wrote(t, r), w1, d1) && Wrote(t, r).hist != [] && Start(t.entries) < |Wrote(t, r).hist|
      && 0 <= Start(t.entries) <= |t.hist|
      && r == Stamp(sha, Started(w), x, c1) && d1 == Apply(d, AppendTo(t.live, RecBytes(r)))
      && Emit(sha, w, d, x, c1, c2) == (MaybeRotate(sha, w1, d1, c1, c2).0,
           [AppendTo(t.live, RecBytes(r))] + MaybeRotate(sha, w1, d1, c1, c2).1)
  {
    GoodStamp(w, x, c1, c2);
    hide *;
    GoodSource(sha, t, w, d);
    GoodParts(sha, t, w, d);
    WriterFacts(sha, t, w);
    StoryParts(sha, t);
    WriteKeeps(sha, t, w, d, x, c1);
    EmitIs(sha, w, d, x, c1, c2);
    var (w1, d1, r) := Before(sha, w, d, x, c1);
    WroteParts(t, r);
    GoodSource(sha, Wrote(t, r), w1, d1);
  }

  lemma GoodStamp(w: WState, x: Draft, c1: Clock, c2: Clock)
    requires EmitFits(w, x, c1, c2)
    ensures CanStamp(w, x, c1) && ClockOk(c2)
  {
  }

  /** An accepted emit leaves writer and disk in agreement on the story with its record, cut or not. */
  lemma EmitKeeps(sha: Sha, t: Story, w: WState, d: Disk, x: Draft, c1: Clock, c2: Clock, w': WState, ops: seq<DiskOp>,
                  w1: WState, d1: Disk, r: Rec)
    requires Good(sha, t, w, d) && EmitFits(w, x, c1, c2) && !Refuses(w, x.recordType)
    requires CanEmit(w, d, x, c1, c2) && (w', ops) == Emit(sha, w, d, x, c1, c2)
    requires CanStamp(w, x, c1) && SourceOk(w, d) && (w1, d1, r) == Before(sha, w, d, x, c1)
    ensures IdentityOk(w1.id) && ClockOk(c2) && Room(w1) && SourceOk(w1, d1) && 0 <= Start(t.entries) <= |t.hist|
    ensures Good(sha, EmitStory(sha, t, w1, d1, r, c1, c2, WHOLE, 0), w', ApplyAll(d, ops))
  {
    hide *;
    GoodStamp(w, x, c1, c2);
    EmitStep(sha, t, w, d, x, c1, c2);
    RotateEmitted(sha, t, w1, d, d1, r, c1, c2);
    WroteParts(t, r);
    RotatedIsGood(sha, Wrote(t, r), w1, d1, c1, c2);
    StoryIs(sha, t, w1, d1, r, c1, c2, WHOLE, 0);
  }

  lemma StoryIs(sha: Sha, t: Story, w1: WState, d1: Disk, r: Rec, c1: Clock, c2: Clock, k: nat, n: nat)
    requires IdentityOk(w1.id) && ClockOk(c2) && Room(w1) && SourceOk(w1, d1) && 0 <= Start(t.entries) <= |t.hist|
    ensures 0 <= Start(Wrote(t, r).entries) < |Wrote(t, r).hist|
    ensures WHOLE == 4
    ensures EmitStory(sha, t, w1, d1, r, c1, c2, k, n) ==
      if k == 0 && n < |RecBytes(r)| then t
      else if k < WHOLE then Wrote(t, r) else Rotated(sha, Wrote(t, r), w1, d1, c1, c2)
  {
    hide Rotated;
  }

  lemma RotatedIs(sha: Sha, t1: Story, w1: WState, d1: Disk, c1: Clock, c2: Clock)
    requires IdentityOk(w1.id) && ClockOk(c2) && Room(w1) && SourceOk(w1, d1) && 0 <= Start(t1.entries) < |t1.hist|
    ensures IdentityOk(Ready(sha, w1, d1).id) && Room(Ready(sha, w1, d1))
    ensures !Cuts(w1, c1.monotonicS) ==> Rotated(sha, t1, w1, d1, c1, c2) == t1
    ensures var cont := CutRecord(sha, Ready(sha, w1, d1), c2);
      Cuts(w1, c1.monotonicS) && cont.Some? ==>
        Rotated(sha, t1, w1, d1, c1, c2) == Advanced(sha, t1, cont.value, Seg(Base, NextIndex(w1, d1)))
  {
    hide CutRecord, Advanced, Cuts, NextIndex, Ready;
    ReadyRoom(sha, w1, d1);
  }

  lemma RotatedIsGood(sha: Sha, t1: Story, w1: WState, d1: Disk, c1: Clock, c2: Clock)
    requires 0 <= Start(t1.entries) < |t1.hist|
    requires Good(sha, t1, w1, d1) && !w1.bootPending && t1.hist != []
    requires IdentityOk(w1.id) && ClockOk(c2) && Room(w1) && SourceOk(w1, d1)
    ensures var (w2, ops) := MaybeRotate(sha, w1, d1, c1, c2);
      Good(sha, Rotated(sha, t1, w1, d1, c1, c2), w2, ApplyAll(d1, ops))
  {
    hide *;
    RotateKeeps(sha, t1, w1, d1, c1, c2);
    RotatedIs(sha, t1, w1, d1, c1, c2);
    ApplyNone(d1);
  }

  lemma RotateEmitted(sha: Sha, t: Story, w1: WState, d: Disk, d1: Disk, r: Rec, c1: Clock, c2: Clock)
    requires d1 == Apply(d, AppendTo(t.live, RecBytes(r)))
    requires IdentityOk(w1.id) && ClockOk(c2) && Room(w1) && SourceOk(w1, d1)
    ensures var ops := MaybeRotate(sha, w1, d1, c1, c2).1;
      ApplyAll(d, [AppendTo(t.live, RecBytes(r))] + ops) == ApplyAll(d1, ops)
  {
    hide *;
    ApplyFirst(d, AppendTo(t.live, RecBytes(r)), MaybeRotate(sha, w1, d1, c1, c2).1);
  }

  /** A crash anywhere inside an accepted emit: the record is wholly there, or torn, or the cut it
      triggered is undone-to-be or complete. */
  lemma EmitCrash(sha: Sha, t: Story, w: WState, d: Disk, x: Draft, c1: Clock, c2: Clock, ops: seq<DiskOp>,
                  w1: WState, d1: Disk, r: Rec, k: nat, n: nat)
    requires Good(sha, t, w, d) && EmitFits(w, x, c1, c2) && !Refuses(w, x.recordType)
    requires CanEmit(w, d, x, c1, c2) && ops == Emit(sha, w, d, x, c1, c2).1 && k <= |ops|
    requires CanStamp(w, x, c1) && SourceOk(w, d) && (w1, d1, r) == Before(sha, w, d, x, c1)
    ensures IdentityOk(w1.id) && ClockOk(c2) && Room(w1) && SourceOk(w1, d1) && 0 <= Start(t.entries) <= |t.hist|
    ensures Crashed(sha, EmitStory(sha, t, w1, d1, r, c1, c2, k, n), CrashDisk(d, ops, k, n), EmitTail(r, k, n))
  {
    hide *;
    GoodStamp(w, x, c1, c2);
    EmitStep(sha, t, w, d, x, c1, c2);
    StoryIs(sha, t, w1, d1, r, c1, c2, k, n);
    var more := MaybeRotate(sha, w1, d1, c1, c2).1;
    var op := AppendTo(t.live, RecBytes(r));
    TailIs(r, k, n);
    if k == 0 {
      CrashAtOnce(d, op, more, n);
      TornEmit(sha, t, w, w1, d, d1, r, n);
    } else {
      CrashFirst(d, op, more, k, n);
      WroteParts(t, r);
      RotateCrash(sha, Wrote(t, r), w1, d1, c1, c2, more, k - 1, n);
    }
  }

  lemma TailIs(r: Rec, k: nat, n: nat)
    ensures EmitTail(r, k, n) == if k == 0 && n < |RecBytes(r)| then RecBytes(r)[..n] else []
  {
  }

  lemma RotateCrash(sha: Sha, t1: Story, w1: WState, d1: Disk, c1: Clock, c2: Clock, ops: seq<DiskOp>, k: nat, n: nat)
    requires 0 <= Start(t1.entries) < |t1.hist| && t1.hist != []
    requires Good(sha, t1, w1, d1) && !w1.bootPending
    requires IdentityOk(w1.id) && ClockOk(c2) && Room(w1) && SourceOk(w1, d1)
    requires ops == MaybeRotate(sha, w1, d1, c1, c2).1 && k <= |ops|
    ensures Crashed(sha, if k < 3 then t1 else Rotated(sha, t1, w1, d1, c1, c2), CrashDisk(d1, ops, k, n), [])
  {
    hide *;
    RotateKeeps(sha, t1, w1, d1, c1, c2);
    RotatedIs(sha, t1, w1, d1, c1, c2);
    GoodParts(sha, t1, w1, d1);
    StoryParts(sha, t1);
    if Cuts(w1, c1.monotonicS) {
      var p, rdy := Seg(Base, NextIndex(w1, d1)), Ready(sha, w1, d1);
      CutsNeedPolicy(w1, c1.monotonicS);
      ReadyIsGood(sha, t1, w1, d1);
      NextNameIsLater(sha, t1.hist, t1.entries, t1.live, w1, d1);
      CutCrash(sha, t1, rdy, d1, p, c2, k, n);
    } else {
      CrashNone(d1, n);
      CrashedMade(sha, t1, d1);
    }
  }

  /** A torn append. */
  lemma TornEmit(sha: Sha, t: Story, w: WState, w1: WState, d: Disk, d1: Disk, r: Rec, n: nat)
    requires Good(sha, t, w, d) && RecOk(r) && Good(sha, Wrote(t, r), w1, d1)
    requires d1 == Apply(d, AppendTo(t.live, RecBytes(r)))
    ensures var (t', tail) := if n < |RecBytes(r)| then (t, RecBytes(r)[..n]) else (Wrote(t, r), []);
      Crashed(sha, t', ApplyAll(d, Torn(AppendTo(t.live, RecBytes(r)), n)), tail)
  {
    hide *;
    var data := RecBytes(r);
    var part := if n <= |data| then data[..n] else data;
    TornAppend(d, t.live, data, n);
    if n < |data| {
      GoodParts(sha, t, w, d);
      TornRecord(r, n);
      AppendTorn(sha, t, d, part);
      SettledStays(sha, t, d, t.live, part);
      TornCrashed(sha, t, Apply(d, AppendTo(t.live, part)), part);
    } else {
      assert n == |data| ==> data[..n] == data;
      GoodParts(sha, Wrote(t, r), w1, d1);
      CrashedMade(sha, Wrote(t, r), d1);
    }
  }

  lemma TornAppend(d: Disk, name: Name, data: Bytes, n: nat)
    ensures ApplyAll(d, Torn(AppendTo(name, data), n)) ==
      Apply(d, AppendTo(name, if n <= |data| then data[..n] else data))
  {
    ApplyOne(d, AppendTo(name, if n <= |data| then data[..n] else data));
    hide ApplyAll, Apply;
  }

  lemma TornCrashed(sha: Sha, t: Story, d: Disk, tail: Bytes)
    requires StoryOk(sha, t) && DiskHolds(t, d, tail) && Settled(d, t.entries)
    requires FirstRec(tail).None?
    ensures Crashed(sha, t, d, tail)
  {
    hide StoryOk, DiskHolds, Settled, FirstRec;
  }

  lemma SettledStays(sha: Sha, t: Story, d: Disk, live: Name, part: Bytes)
    requires Settled(d, t.entries)
    ensures Settled(Apply(d, AppendTo(live, part)), t.entries)
  {
  }
}
