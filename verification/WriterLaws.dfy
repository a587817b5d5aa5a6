/** What the run invariant gives: the chain verifies, the root is right, cuts are atomic, sever no span
    and always progress. */
module WriterLaws {
  import opened Bytes
  import opened Codec
  import opened Frontier
  import opened Writer
  import opened WriterInv
  import opened WriterCut
  import opened WriterResume
  import opened WriterRuns
  import Chain
  import Merkle

  // ---------- the verifier accepts what the writer wrote ----------

  function HeaderBytes(hist: seq<Rec>): (hs: seq<Bytes>)
    ensures |hs| == |hist|
    ensures forall i :: 0 <= i < |hist| ==> hs[i] == hist[i].hb
  {
    seq(|hist|, i requires 0 <= i < |hist| => hist[i].hb)
  }

  function BodySet(hist: seq<Rec>): set<Bytes> {
    set i | 0 <= i < |hist| :: hist[i].body
  }

  /** Every record's time_trust is one the format defines. */
  ghost predicate TimesDefined(hist: seq<Rec>) {
    forall i :: 0 <= i < |hist| ==> TimeDefined(hist[i])
  }

  predicate TimeDefined(r: Rec) {
    Decode(r.hb).Some? && Decode(r.hb).value.timeTrust <= TIME_NTP_SYNCED
  }

  lemma RecordIsSound(sha: Sha, r: Rec, i: nat, prev: Digest, known: set<nat>)
    requires RecAt(sha, r, i, prev) && TimeDefined(r) && (r.body != [] ==> sha(r.body) != ZERO32)
    requires i == 0 ==> prev == ZERO32
    ensures Chain.GoodHeader(r.hb, i, known)
    ensures Chain.Readable(r.hb) && Chain.PrevOf(r.hb) == prev && Chain.SeqOf(r.hb) == i
  {
    hide U16, U32, U64, I64, ParseTlvs;
    AreaIsRest(r.hb);
  }

  lemma AreaIsRest(hb: Bytes)
    requires Chain.Readable(hb) && U16(hb, 6) == |hb|
    ensures Chain.TlvArea(hb) == hb[FIXED_LEN..]
  {
  }

  lemma RecordStands(sha: Sha, known: set<nat>, hist: seq<Rec>, i: nat)
    requires HistOk(sha, hist) && TimesDefined(hist) && NeverZero(sha, BodySet(hist)) && i < |hist|
    ensures Chain.GoodHeader(hist[i].hb, i, known) && Chain.Readable(hist[i].hb)
    ensures Chain.PrevOf(hist[i].hb) == PrevHash(sha, hist, i) && Chain.SeqOf(hist[i].hb) == i
  {
    hide RecAt, TimeDefined, Chain.GoodHeader, Chain.PrevOf, Chain.SeqOf, Chain.Readable;
    assert hist[i].body in BodySet(hist);
    RecordIsSound(sha, hist[i], i, PrevHash(sha, hist, i), known);
  }

  lemma HistoryIsGoodChain(sha: Sha, known: set<nat>, hist: seq<Rec>)
    requires HistOk(sha, hist) && TimesDefined(hist) && NeverZero(sha, BodySet(hist))
    ensures Chain.GoodChain(sha, known, HeaderBytes(hist))
    ensures Chain.HeadOf(sha, HeaderBytes(hist)) == PrevHash(sha, hist, |hist|)
  {
    hide HistOk, TimesDefined, NeverZero, BodySet, Chain.GoodHeader, Chain.PrevOf, Chain.SeqOf, Chain.Readable;
    var hs := HeaderBytes(hist);
    forall i | 0 <= i < |hs| ensures Chain.GoodHeader(hs[i], i, known) && Chain.Readable(hs[i]) {
      RecordStands(sha, known, hist, i);
    }
    forall i | 0 < i < |hs| ensures Chain.Linked(sha, hs[i - 1], hs[i]) {
      RecordStands(sha, known, hist, i - 1);
      RecordStands(sha, known, hist, i);
    }
  }

  /** The header-only verifier, on everything the writer made durable: no break, no gap, no violation,
      every record counted, and the head is the writer's. */
  lemma HistoryVerifies(sha: Sha, known: set<nat>, hist: seq<Rec>, expected: Option<Bytes>)
    requires HistOk(sha, hist) && TimesDefined(hist) && NeverZero(sha, BodySet(hist))
    ensures var v := Chain.Finish(Chain.Run(sha, known, HeaderBytes(hist)), expected);
      && v.chainOk && v.breaks == [] && v.gaps == [] && v.violations == []
      && v.count == |hist| && v.head == PrevHash(sha, hist, |hist|)
  {
    HistoryIsGoodChain(sha, known, hist);
    Chain.VerdictIsGoodChain(sha, known, HeaderBytes(hist), expected);
    Chain.CleanIsGood(sha, known, HeaderBytes(hist));
  }

  // ---------- the segments on disk, put back together ----------

  function SegmentRecs(d: Disk, name: Name): seq<Rec> { Walk(ContentOf(d, name)).0 }

  /** The records of the first `n` listed segments, in list order, as a reader walks them. */
  function Assembled(d: Disk, entries: seq<Entry>, n: nat): seq<Rec>
    requires n <= |entries|
  {
    if n == 0 then [] else Assembled(d, entries, n - 1) + SegmentRecs(d, entries[n - 1].file)
  }

  lemma {:induction false} ListedAssemble(sha: Sha, t: Story, d: Disk, tail: Bytes, n: nat)
    requires Crashed(sha, t, d, tail) && t.hist != [] && n <= |t.entries|
    requires forall i :: 0 <= i < n ==> t.entries[i].file in d.files
    ensures 0 <= StartOf(t.entries, n) <= |t.hist| && Assembled(d, t.entries, n) == t.hist[..StartOf(t.entries, n)]
  {
    hide *;
    if n == 0 {
      AssembledNone(t, d);
    } else {
      ListedAssemble(sha, t, d, tail, n - 1);
      ClosedSpan(sha, t, d, tail, n - 1);
      var s, e := StartOf(t.entries, n - 1), t.entries[n - 1].lastSeq + 1;
      AssembledStep(d, t.entries, n);
      ClosedScan(sha, t, d, tail, n - 1, d.files[t.entries[n - 1].file], s, e);
      ScanIs(d, t.entries[n - 1].file);
      assert t.hist[..s] + t.hist[s..e] == t.hist[..e];
    }
  }

  lemma AssembledNone(t: Story, d: Disk)
    ensures StartOf(t.entries, 0) == 0 && Assembled(d, t.entries, 0) == t.hist[..0]
  {
  }

  lemma ScanIs(d: Disk, name: Name)
    requires name in d.files
    ensures SegmentRecs(d, name) == Walk(d.files[name]).0
  {
  }

  lemma AssembledStep(d: Disk, entries: seq<Entry>, n: nat)
    requires 0 < n <= |entries|
    ensures Assembled(d, entries, n) == Assembled(d, entries, n - 1) + SegmentRecs(d, entries[n - 1].file)
  {
  }

  /** With no segment deleted, the listed segments and then the live one are the whole history. */
  lemma SegmentsAreHistory(sha: Sha, t: Story, d: Disk, tail: Bytes)
    requires Crashed(sha, t, d, tail) && t.hist != []
    requires forall i :: 0 <= i < |t.entries| ==> t.entries[i].file in d.files
    ensures Assembled(d, t.entries, |t.entries|) + SegmentRecs(d, t.live) == t.hist
  {
    hide *;
    ListedAssemble(sha, t, d, tail, |t.entries|);
    LiveScan(sha, t, d, tail);
    StartIs(t.entries);
    ScanIs(d, t.live);
    var s := Start(t.entries);
    assert t.hist[..s] + t.hist[s..] == t.hist;
  }

  // ---------- the derived root ----------

  /** Eager, deferred or pending: the root stated is the Merkle root over every record from seq 0. */
  lemma ChainRootIsExact(sha: Sha, t: Story, w: WState, d: Disk)
    requires Good(sha, t, w, d)
    ensures SourceOk(w, d) && ChainRoot(sha, w, d) == Some(RootTo(sha, t.hist, |t.hist|))
  {
    hide *;
    GoodParts(sha, t, w, d);
    StoryParts(sha, t);
    GoodHolds(sha, t, w, d);
    WriterFacts(sha, t, w);
    MaterializedIsEager(sha, t.hist, t.entries, t.live, w, d);
    FrontierRoot(sha, t.hist, |t.hist|);
    RootStated(sha, w, d);
  }

  lemma RootStated(sha: Sha, w: WState, d: Disk)
    requires SourceOk(w, d)
    ensures ChainRoot(sha, w, d) ==
      (var f := Materialize(sha, w, d).frontier;
       if f.None? || f.value.count != w.seqNo then None else Some(PeaksRoot(sha, f.value)))
  {
    hide Materialize, PeaksRoot;
  }

  /** A writer that does not know which records came before its segment. */
  predicate Rootless(w: WState) { w.frontier.None? && w.deferred.None? }

  /** It states no root, and no record it writes and no cut it makes changes that. */
  lemma RootlessStays(sha: Sha, w: WState, d: Disk, x: Draft, c1: Clock, c2: Clock)
    requires Rootless(w)
    ensures SourceOk(w, d) && ChainRoot(sha, w, d).None?
    ensures CanEmit(w, d, x, c1, c2) ==> Rootless(Emit(sha, w, d, x, c1, c2).0)
  {
    hide Stamp, RecBytes, Walk, NextIndex, Due, ClosedEntry, PeaksRoot, DraftFits, AppendAll, Append;
  }

  lemma DroppedManifest(d: Disk, live: Name, first: Header)
    requires OneManifest(d) && live.Seg? && live.stem == Base && first.seqNo != 0
    ensures var d' := Apply(d, DropManifest(Base));
      && d'.files == d.files && ResumeBase(d', live, first) == live && live !in d'.manifests
      && StartingFrontier(d', live, first) == None
  {
  }

  /** Resumed on a later segment after the manifest was lost, a writer knows no root and says so. */
  lemma LostManifestRefuses(sha: Sha, t: Story, d: Disk, tail: Bytes, rotation: Policy, id: Identity, now: real,
                            w: WState, ops: seq<DiskOp>)
    requires Crashed(sha, t, d, tail) && t.hist != [] && OneManifest(d) && t.entries != []
    requires OpenExisting(sha, Apply(d, DropManifest(Base)), t.live, Some(rotation), id, true, now) == Some((w, ops))
    ensures Rootless(w) && w.seqNo == |t.hist| && w.head == PrevHash(sha, t.hist, |t.hist|)
  {
    hide *;
    LiveScan(sha, t, d, tail);
    SettledOrHalf(sha, t, d, tail);
    StoryParts(sha, t);
    LiveSegStart(sha, t);
    var s, d' := Start(t.entries), Apply(d, DropManifest(Base));
    var seg := t.hist[s..];
    RecFacts(sha, t.hist, s);
    RecFacts(sha, t.hist, |t.hist| - 1);
    HeadIs(sha, t.hist);
    var first := Decode(seg[0].hb).value;
    DroppedManifest(d, t.live, first);
    PolicyUsed(d', t.live, first, Some(rotation));
    NotCutWithout(d', t.live, t.live, PrevHash(sha, t.hist, |t.hist|), []);
    OpenIs(sha, d', t.live, d.files[t.live], seg, tail, |Container(seg)|, Some(rotation), id, now, first, t.live, [],
           FoldBackCut(d', t.live, t.live, PrevHash(sha, t.hist, |t.hist|), []));
    RootlessIs(w);
  }

  lemma RootlessIs(w: WState)
    ensures Rootless(w) <==> w.frontier.None? && w.deferred.None?
  {
  }

  // ---------- cuts are atomic ----------

  /** The three stories an emit that stopped may leave: without the record, with it, with the cut done. */
  ghost predicate StoryLeft(sha: Sha, s: Sys, x: Draft, c1: Clock, c2: Clock, s': Sys) {
    && s.writer.Some? && CanStamp(s.writer.value, x, c1) && SourceOk(s.writer.value, s.disk)
    && var r := Before(sha, s.writer.value, s.disk, x, c1).2;
    && (s'.story == s.story || s'.story == Wrote(s.story, r) || s'.story == Step(sha, s, Write(x, c1, c2)).story)
    && (s'.tail != [] ==> s'.story == s.story)
  }

  /** A resume of the newest segment adopts the story, unless the torn bytes hold further magic. */
  ghost predicate Adopts(sha: Sha, s: Sys, rotation: Option<Policy>, id: Identity, now: real) {
    && 0 <= Start(s.story.entries) < |s.story.hist|
    && OpenExisting(sha, s.disk, s.story.live, rotation, id, true, now) ==
         if s.tail != [] && HasMagic(s.tail[1..]) then None
         else Some((Resumed(sha, s.story, s.tail, rotation, id, now), ResumeOps(s.story, s.disk, s.tail)))
  }

  /** Wherever an emit stopped, a resume of the newest segment adopts one of three states: without the
      record, with it and the cut undone, or with it and the cut done. The state is the one a resume
      finds when the emit stopped cleanly at that point. */
  lemma CutIsAtomic(sha: Sha, s: Sys, x: Draft, c1: Clock, c2: Clock, k: nat, n: nat, rotation: Policy, id: Identity,
                    now: real,
                    s': Sys)
    requires Inv(sha, s) && CanWrite(s, x, c1, c2) && CanEmit(s.writer.value, s.disk, x, c1, c2)
    requires k <= |Emit(sha, s.writer.value, s.disk, x, c1, c2).1|
    requires s' == Step(sha, s, CrashInWrite(x, c1, c2, k, n)) && s'.story.hist != [] && Distinct(sha, s'.story.hist)
    ensures StoryLeft(sha, s, x, c1, c2, s') && Adopts(sha, s', Some(rotation), id, now)
  {
    hide *;
    WriteCrashKeeps(sha, s, x, c1, c2, k, n);
    InvParts(sha, s');
    CanWriteParts(s, x, c1, c2);
    CrashStory(sha, s, x, c1, c2, k, n);
    LeftMade(sha, s, x, c1, c2, s');
    LiveResumes(sha, s'.story, s'.disk, s'.tail, Some(rotation), id, now);
    AdoptsMade(sha, s', Some(rotation), id, now);
  }

  lemma LeftMade(sha: Sha, s: Sys, x: Draft, c1: Clock, c2: Clock, s': Sys)
    requires s.writer.Some? && CanStamp(s.writer.value, x, c1) && SourceOk(s.writer.value, s.disk)
    requires var r := Before(sha, s.writer.value, s.disk, x, c1).2;
      s'.story == s.story || s'.story == Wrote(s.story, r) || s'.story == Step(sha, s, Write(x, c1, c2)).story
    requires s'.tail != [] ==> s'.story == s.story
    ensures StoryLeft(sha, s, x, c1, c2, s')
  {
    hide Before, Step, CanStamp, SourceOk;
  }

  lemma AdoptsMade(sha: Sha, s: Sys, rotation: Option<Policy>, id: Identity, now: real)
    requires 0 <= Start(s.story.entries) < |s.story.hist|
    requires OpenExisting(sha, s.disk, s.story.live, rotation, id, true, now) ==
      if s.tail != [] && HasMagic(s.tail[1..]) then None
      else Some((Resumed(sha, s.story, s.tail, rotation, id, now), ResumeOps(s.story, s.disk, s.tail)))
    ensures Adopts(sha, s, rotation, id, now)
  {
    hide OpenExisting, Resumed, ResumeOps, HasMagic, Start;
  }

  /** The three stories a crash can leave. */
  lemma CrashStory(sha: Sha, s: Sys, x: Draft, c1: Clock, c2: Clock, k: nat, n: nat)
    requires Inv(sha, s) && CanWrite(s, x, c1, c2) && CanEmit(s.writer.value, s.disk, x, c1, c2)
    requires k <= |Emit(sha, s.writer.value, s.disk, x, c1, c2).1|
    ensures CanStamp(s.writer.value, x, c1)
    ensures var s' := Step(sha, s, CrashInWrite(x, c1, c2, k, n));
      var r := Before(sha, s.writer.value, s.disk, x, c1).2;
      && s'.writer.None?
      && (s'.story == s.story || s'.story == Wrote(s.story, r)
          || (k >= WHOLE && s'.story == Step(sha, s, Write(x, c1, c2)).story))
      && (s'.tail != [] ==> s'.story == s.story)
      && (k > 0 ==> s'.story != s.story)
  {
    hide *;
    InvParts(sha, s);
    CanWriteParts(s, x, c1, c2);
    var w, d := s.writer.value, s.disk;
    GoodStamp(w, x, c1, c2);
    BeforeFits(sha, w, d, x, c1, c2);
    var (w', ops) := Emit(sha, w, d, x, c1, c2);
    var (w1, d1, r) := Before(sha, w, d, x, c1);
    GoodParts(sha, s.story, w, d);
    StoryParts(sha, s.story);
    WriteIs(sha, s, x, c1, c2, w', ops);
    ToldIs(sha, s, x, c1, c2, k, n, w1, d1, r);
    ToldIs(sha, s, x, c1, c2, WHOLE, 0, w1, d1, r);
    StoryIs(sha, s.story, w1, d1, r, c1, c2, k, n);
    StoryIs(sha, s.story, w1, d1, r, c1, c2, WHOLE, 0);
    TailIs(r, k, n);
    RotatedGrows(sha, Wrote(s.story, r), w1, d1, c1, c2);
    WroteParts(s.story, r);
  }

  lemma RotatedGrows(sha: Sha, t1: Story, w1: WState, d1: Disk, c1: Clock, c2: Clock)
    requires IdentityOk(w1.id) && ClockOk(c2) && Room(w1) && SourceOk(w1, d1) && 0 <= Start(t1.entries) < |t1.hist|
    ensures |Rotated(sha, t1, w1, d1, c1, c2).hist| >= |t1.hist|
  {
    hide CutRecord, Ready, EntryFor, NextIndex, Cuts;
  }

  // ---------- what one write adds ----------

  predicate Made(r: Rec, id: Identity, recordType: nat, spanId: Bytes) {
    && Decode(r.hb).Some? && Decode(r.hb).value.recordType == recordType && Decode(r.hb).value.spanId == spanId
    && Decode(r.hb).value.timeTrust == id.timeTrust
  }

  lemma StampMade(sha: Sha, w: WState, x: Draft, c: Clock)
    requires CanStamp(w, x, c)
    ensures Made(Stamp(sha, w, x, c), w.id, x.recordType, x.spanId)
  {
    DecodeEncoded(HeaderFor(sha, w, x, c));
    hide Encode, Decode, ParseTlvs, EncodeTlvs;
  }

  lemma DraftMade(sha: Sha, w: WState)
    requires ContinuationDraft(sha, w).Some?
    ensures ContinuationDraft(sha, w).value.recordType == RT_EVENT && ContinuationDraft(sha, w).value.spanId == ZERO16
  {
    hide EncodeTlvs, PeaksRoot;
  }

  lemma NoDraftNoRecord(sha: Sha, w: WState, c: Clock)
    requires IdentityOk(w.id) && ClockOk(c) && Room(w) && CutRecord(sha, w, c).Some?
    ensures ContinuationDraft(sha, w).Some?
  {
  }

  lemma ContinuationMade(sha: Sha, w: WState, c: Clock)
    requires IdentityOk(w.id) && ClockOk(c) && Room(w) && CutRecord(sha, w, c).Some?
    ensures Made(CutRecord(sha, w, c).value, w.id, RT_EVENT, ZERO16)
  {
    hide *;
    NoDraftNoRecord(sha, w, c);
    CutRecordIs(sha, w, c);
    DraftMade(sha, w);
    StampMade(sha, w, ContinuationDraft(sha, w).value, c);
  }

  /** The records a write makes durable, and what they carry. */
  ghost predicate Adds(s: Sys, x: Draft, r: Rec, t': Story)
    requires s.writer.Some?
  {
    var id := s.writer.value.id;
    && Made(r, id, x.recordType, x.spanId)
    && (|| t' == s.story || t' == Wrote(s.story, r)
        || (|t'.hist| == |s.story.hist| + 2 && t'.hist == s.story.hist + [r, t'.hist[|s.story.hist| + 1]]
            && Made(t'.hist[|s.story.hist| + 1], id, RT_EVENT, ZERO16)
            && Start(t'.entries) == |s.story.hist| + 1 && |t'.entries| == |s.story.entries| + 1
            && s.story.entries <= t'.entries))
  }

  lemma RotatedAdds(sha: Sha, t: Story, w1: WState, d1: Disk, r: Rec, c1: Clock, c2: Clock)
    requires IdentityOk(w1.id) && ClockOk(c2) && Room(w1) && SourceOk(w1, d1) && 0 <= Start(t.entries) <= |t.hist|
    ensures 0 <= Start(Wrote(t, r).entries) < |Wrote(t, r).hist|
    ensures var t' := Rotated(sha, Wrote(t, r), w1, d1, c1, c2);
      || t' == Wrote(t, r)
      || (Cuts(w1, c1.monotonicS) && |t'.hist| == |t.hist| + 2 && t'.hist == t.hist + [r, t'.hist[|t.hist| + 1]]
          && Made(t'.hist[|t.hist| + 1], w1.id, RT_EVENT, ZERO16)
          && Start(t'.entries) == |t.hist| + 1 && |t'.entries| == |t.entries| + 1 && t.entries <= t'.entries)
  {
    hide *;
    WroteParts(t, r);
    var t1 := Wrote(t, r);
    ReadyRoom(sha, w1, d1);
    var cont := CutRecord(sha, Ready(sha, w1, d1), c2);
    RotatedCases(sha, t1, w1, d1, c1, c2);
    if Cuts(w1, c1.monotonicS) && cont.Some? {
      ContinuationMade(sha, Ready(sha, w1, d1), c2);
      RenameLive(t1, sha, Seg(Base, NextIndex(w1, d1)), cont.value);
      AdvancedParts(sha, t1, cont.value, Seg(Base, NextIndex(w1, d1)));
      AdvancedIs(sha, t1, cont.value, Seg(Base, NextIndex(w1, d1)));
      assert t.hist + [r] + [cont.value] == t.hist + [r, cont.value];
    }
  }

  lemma RotatedCases(sha: Sha, t1: Story, w1: WState, d1: Disk, c1: Clock, c2: Clock)
    requires IdentityOk(w1.id) && ClockOk(c2) && Room(w1) && SourceOk(w1, d1) && 0 <= Start(t1.entries) < |t1.hist|
    ensures IdentityOk(Ready(sha, w1, d1).id) && Room(Ready(sha, w1, d1))
    ensures var cont := CutRecord(sha, Ready(sha, w1, d1), c2);
      Rotated(sha, t1, w1, d1, c1, c2) ==
        if Cuts(w1, c1.monotonicS) && cont.Some?
        then Advanced(sha, t1, cont.value, Seg(Base, NextIndex(w1, d1))) else t1
  {
    hide CutRecord, Advanced, Cuts, NextIndex, Ready;
    ReadyRoom(sha, w1, d1);
  }

  lemma StampSame(sha: Sha, w: WState, x: Draft, c: Clock)
    requires CanStamp(w, x, c)
    ensures CanStamp(Started(w), x, c) && Started(w).id == w.id
  {
  }

  lemma BeforeId(sha: Sha, w: WState, d: Disk, x: Draft, c1: Clock)
    requires CanStamp(w, x, c1) && SourceOk(w, d)
    ensures var (w1, d1, r) := Before(sha, w, d, x, c1);
      && w1.id == w.id && w1.openSpans == NextSpans(w.openSpans, x.recordType, x.spanId) && w1.rotation == w.rotation
      && w1.segRecords == w.segRecords + 1 && w1.rotationDue == w.rotationDue && w1.base == w.base
      && CanStamp(Started(w), x, c1) && r == Stamp(sha, Started(w), x, c1)
  {
    hide Encode, Stamp, AppendAll, Append, Walk;
    var r := Stamp(sha, Started(w), x, c1);
    SourceSurvivesAppend(Started(w), d, RecBytes(r));
  }

  /** A write, whole or crashed: the story it leaves, and whether it cut. */
  lemma WriteAdds(sha: Sha, s: Sys, x: Draft, c1: Clock, c2: Clock, k: nat, n: nat) returns (r: Rec, w1: WState)
    requires Inv(sha, s) && CanWrite(s, x, c1, c2)
    ensures CanStamp(Started(s.writer.value), x, c1) && r == Stamp(sha, Started(s.writer.value), x, c1)
    ensures Adds(s, x, r, Told(sha, s, x, c1, c2, k, n).0)
    ensures w1.openSpans == NextSpans(s.writer.value.openSpans, x.recordType, x.spanId)
    ensures |Told(sha, s, x, c1, c2, k, n).0.entries| > |s.story.entries| ==> Cuts(w1, c1.monotonicS)
    ensures k > 0 ==> Told(sha, s, x, c1, c2, k, n).0 != s.story
  {
    hide *;
    InvParts(sha, s);
    CanWriteParts(s, x, c1, c2);
    var w, d := s.writer.value, s.disk;
    GoodStamp(w, x, c1, c2);
    BeforeFits(sha, w, d, x, c1, c2);
    BeforeId(sha, w, d, x, c1);
    var (w0, d1, r0) := Before(sha, w, d, x, c1);
    w1, r := w0, r0;
    GoodParts(sha, s.story, w, d);
    StoryParts(sha, s.story);
    ToldIs(sha, s, x, c1, c2, k, n, w1, d1, r);
    StoryIs(sha, s.story, w1, d1, r, c1, c2, k, n);
    StampMade(sha, Started(w), x, c1);
    StampSame(sha, w, x, c1);
    RotatedAdds(sha, s.story, w1, d1, r, c1, c2);
    WroteParts(s.story, r);
    AddsMade(s, x, r, Told(sha, s, x, c1, c2, k, n).0);
  }

  lemma AddsMade(s: Sys, x: Draft, r: Rec, t': Story)
    requires s.writer.Some?
    requires Made(r, s.writer.value.id, x.recordType, x.spanId)
    requires || t' == s.story || t' == Wrote(s.story, r)
        || (|t'.hist| == |s.story.hist| + 2 && t'.hist == s.story.hist + [r, t'.hist[|s.story.hist| + 1]]
            && Made(t'.hist[|s.story.hist| + 1], s.writer.value.id, RT_EVENT, ZERO16)
            && Start(t'.entries) == |s.story.hist| + 1 && |t'.entries| == |s.story.entries| + 1
            && s.story.entries <= t'.entries)
    ensures Adds(s, x, r, t')
  {
  }

  /** What a whole write leaves in the writer. */
  lemma WriteWriter(sha: Sha, s: Sys, x: Draft, c1: Clock, c2: Clock)
    requires CanWrite(s, x, c1, c2)
    ensures var s' := Step(sha, s, Write(x, c1, c2));
      && s'.writer.Some? && s'.since == s.since && s'.story == Told(sha, s, x, c1, c2, WHOLE, 0).0
      && s'.writer.value.openSpans == NextSpans(s.writer.value.openSpans, x.recordType, x.spanId)
      && s'.writer.value.id == s.writer.value.id && s'.writer.value.rotation == s.writer.value.rotation
  {
    BeforeFits(sha, s.writer.value, s.disk, x, c1, c2);
    var (w, ops) := Emit(sha, s.writer.value, s.disk, x, c1, c2);
    WriteIs(sha, s, x, c1, c2, w, ops);
    EmitWriter(sha, s.writer.value, s.disk, x, c1, c2);
  }

  lemma EmitWriter(sha: Sha, w: WState, d: Disk, x: Draft, c1: Clock, c2: Clock)
    requires CanEmit(w, d, x, c1, c2) && !Refuses(w, x.recordType) && EmitFits(w, x, c1, c2)
    ensures var w' := Emit(sha, w, d, x, c1, c2).0;
      && w'.openSpans == NextSpans(w.openSpans, x.recordType, x.spanId) && w'.id == w.id && w'.rotation == w.rotation
  {
    hide *;
    EmitParts(w, d, x, c1, c2);
    BeforeFits(sha, w, d, x, c1, c2);
    EmitIs(sha, w, d, x, c1, c2);
    BeforeId(sha, w, d, x, c1);
    var (w1, d1, r) := Before(sha, w, d, x, c1);
    RotateWriter(sha, w1, d1, c1, c2);
  }

  lemma EmitParts(w: WState, d: Disk, x: Draft, c1: Clock, c2: Clock)
    requires CanEmit(w, d, x, c1, c2)
    ensures CanStamp(w, x, c1) && ClockOk(c2) && SourceOk(w, d)
  {
  }

  lemma RotateWriter(sha: Sha, w1: WState, d1: Disk, c1: Clock, c2: Clock)
    requires IdentityOk(w1.id) && ClockOk(c2) && Room(w1) && SourceOk(w1, d1)
    ensures var w2 := MaybeRotate(sha, w1, d1, c1, c2).0;
      w2.openSpans == w1.openSpans && w2.id == w1.id && w2.rotation == w1.rotation
  {
    hide *;
    RotateCases(sha, w1, d1, c1, c2);
    ReadyCarries(sha, w1, d1);
    CutCarries(sha, Ready(sha, w1, d1), Seg(w1.base, NextIndex(w1, d1)), c2);
  }

  /** The policy step's writer, by cases. */
  lemma RotateCases(sha: Sha, w1: WState, d1: Disk, c1: Clock, c2: Clock)
    requires IdentityOk(w1.id) && ClockOk(c2) && Room(w1) && SourceOk(w1, d1)
    ensures IdentityOk(Ready(sha, w1, d1).id) && Room(Ready(sha, w1, d1)) && Ready(sha, w1, d1).deferred.None?
    ensures MaybeRotate(sha, w1, d1, c1, c2).0 ==
      if !Due(w1, c1.monotonicS) then w1
      else if w1.openSpans != {} then w1.(rotationDue := true)
      else AfterCut(sha, Ready(sha, w1, d1), Seg(w1.base, NextIndex(w1, d1)), c2)
  {
    ReadyRoom(sha, w1, d1);
    hide AfterCut, CutOps, NextIndex, AppendAll, RecHashes, Walk, Due;
  }

  lemma ReadyCarries(sha: Sha, w1: WState, d1: Disk)
    requires SourceOk(w1, d1)
    ensures var w := Ready(sha, w1, d1);
      && w.openSpans == w1.openSpans && w.id == w1.id && w.rotation == w1.rotation && w.bootPending == w1.bootPending
      && !w.rotationDue && w.deferred.None?
  {
    hide AppendAll, RecHashes, Walk, NextIndex;
  }

  lemma CutCarries(sha: Sha, w: WState, p: Name, c: Clock)
    requires IdentityOk(w.id) && ClockOk(c) && Room(w) && w.deferred.None?
    ensures var w' := AfterCut(sha, w, p, c);
      && w'.openSpans == w.openSpans && w'.id == w.id && w'.rotation == w.rotation && w'.bootPending == w.bootPending
      && w'.rotationDue == w.rotationDue
  {
    hide CutRecord, ClosedEntry, Append;
  }

  // ---------- no span is severed ----------

  function TypeIs(r: Rec): nat { if Decode(r.hb).Some? then Decode(r.hb).value.recordType else 0 }
  function SpanIs(r: Rec): Bytes { if Decode(r.hb).Some? then Decode(r.hb).value.spanId else [] }

  /** The spans started and not ended in a stretch of records. */
  function OpenSpans(rs: seq<Rec>): set<Bytes> {
    if rs == [] then {} else NextSpans(OpenSpans(rs[..|rs| - 1]), TypeIs(rs[|rs| - 1]), SpanIs(rs[|rs| - 1]))
  }

  ghost predicate Ended(rs: seq<Rec>, i: nat, id: Bytes) {
    exists j :: i < j < |rs| && TypeIs(rs[j]) == RT_SPAN_END && SpanIs(rs[j]) == id
  }

  /** A started span that is not open any more was ended after its last start. */
  lemma {:induction false} ClosedWasEnded(rs: seq<Rec>, i: nat)
    requires i < |rs| && TypeIs(rs[i]) == RT_SPAN_START && SpanIs(rs[i]) !in OpenSpans(rs)
    ensures Ended(rs, i, SpanIs(rs[i]))
    decreases |rs|
  {
    hide TypeIs, SpanIs;
    var n, id := |rs| - 1, SpanIs(rs[i]);
    if i < n {
      if TypeIs(rs[n]) == RT_SPAN_END && SpanIs(rs[n]) == id {
      } else {
        ClosedWasEnded(rs[..n], i);
        var j :| i < j < n && TypeIs(rs[..n][j]) == RT_SPAN_END && SpanIs(rs[..n][j]) == id;
        assert rs[j] == rs[..n][j];
      }
    }
  }

  lemma SpansSnoc(hist: seq<Rec>, r: Rec, since: nat)
    requires since <= |hist|
    ensures OpenSpans((hist + [r])[since..]) == NextSpans(OpenSpans(hist[since..]), TypeIs(r), SpanIs(r))
  {
    var rs := (hist + [r])[since..];
    assert rs == hist[since..] + [r];
    assert rs[..|rs| - 1] == hist[since..];
  }

  /** The writer's open spans are the ones its own records leave open. */
  ghost predicate SpanInv(s: Sys) {
    s.writer.Some? ==> s.since <= |s.story.hist| && s.writer.value.openSpans == OpenSpans(s.story.hist[s.since..])
  }

  lemma MadeIs(r: Rec, id: Identity, recordType: nat, spanId: Bytes)
    requires Made(r, id, recordType, spanId)
    ensures TypeIs(r) == recordType && SpanIs(r) == spanId
  {
  }

  lemma EventOpensNothing(open: set<Bytes>, spanId: Bytes)
    ensures NextSpans(open, RT_EVENT, spanId) == open
  {
  }

  lemma AddsParts(s: Sys, x: Draft, r: Rec, t': Story)
    requires s.writer.Some? && Adds(s, x, r, t')
    ensures Made(r, s.writer.value.id, x.recordType, x.spanId)
    ensures s.story.entries <= t'.entries
    ensures |t'.entries| > |s.story.entries| ==> Start(t'.entries) == |s.story.hist| + 1
    ensures t' != s.story ==> (
      || (t'.hist == s.story.hist + [r] && t'.entries == s.story.entries)
      || (|t'.hist| == |s.story.hist| + 2 && t'.hist == s.story.hist + [r] + [t'.hist[|s.story.hist| + 1]]
          && |t'.entries| == |s.story.entries| + 1
          && Made(t'.hist[|s.story.hist| + 1], s.writer.value.id, RT_EVENT, ZERO16)))
  {
    hide Made, Start;
    if |t'.hist| == |s.story.hist| + 2 && t'.hist == s.story.hist + [r, t'.hist[|s.story.hist| + 1]] {
      assert s.story.hist + [r] + [t'.hist[|s.story.hist| + 1]] == s.story.hist + [r, t'.hist[|s.story.hist| + 1]];
    }
  }

  lemma SpansAfter(s: Sys, x: Draft, r: Rec, t': Story)
    requires s.writer.Some? && SpanInv(s) && Adds(s, x, r, t') && t' != s.story
    ensures s.since <= |s.story.hist| < |t'.hist|
    ensures OpenSpans(t'.hist[s.since..]) == NextSpans(s.writer.value.openSpans, x.recordType, x.spanId)
    ensures OpenSpans(t'.hist[s.since..|s.story.hist| + 1]) == OpenSpans(t'.hist[s.since..])
    ensures s.story.hist + [r] <= t'.hist
  {
    AddsParts(s, x, r, t');
    hide Adds, Made, OpenSpans, NextSpans;
    SpansSnoc(s.story.hist, r, s.since);
    MadeIs(r, s.writer.value.id, x.recordType, x.spanId);
    if t'.hist == s.story.hist + [r] {
      assert t'.hist[s.since..|s.story.hist| + 1] == t'.hist[s.since..];
    } else {
      var cont := t'.hist[|s.story.hist| + 1];
      SpansSnoc(s.story.hist + [r], cont, s.since);
      MadeIs(cont, s.writer.value.id, RT_EVENT, ZERO16);
      EventOpensNothing(OpenSpans((s.story.hist + [r])[s.since..]), ZERO16);
      assert t'.hist[s.since..|s.story.hist| + 1] == (s.story.hist + [r])[s.since..];
    }
  }

  lemma ResumedSpans(sha: Sha, t: Story, tail: Bytes, rotation: Option<Policy>, id: Identity, now: real)
    requires 0 <= Start(t.entries) < |t.hist|
    ensures Resumed(sha, t, tail, rotation, id, now).openSpans == {}
    ensures Resumed(sha, t, tail, rotation, id, now).id == id
  {
  }

  lemma SpanStep(sha: Sha, s: Sys, e: Event)
    requires Inv(sha, s) && Distinct(sha, s.story.hist) && SpanInv(s)
    ensures SpanInv(Step(sha, s, e))
  {
    hide Inv, Distinct, CanWrite, CanResume, Newest, Emit, Told, OpenExisting, CrashDisk, ApplyAll, NothingYet,
      OpenSpans, NextSpans, Adds, Resumed;
    match e {
      case Begin(id, rotation, now) => BeginSpans(sha, s, id, rotation, now);
      case Write(x, c1, c2) =>
        if CanWrite(s, x, c1, c2) {
          CanWriteParts(s, x, c1, c2);
          WriteWriter(sha, s, x, c1, c2);
          var r, w1 := WriteAdds(sha, s, x, c1, c2, WHOLE, 0);
          SpansAfter(s, x, r, Told(sha, s, x, c1, c2, WHOLE, 0).0);
        }
      case Resume(name, rotation, id, now) =>
        if CanResume(sha, s, name, rotation, id, now) {
          ResumeFacts(sha, s, name, rotation, id, now);
          ResumedSpans(sha, s.story, s.tail, rotation, id, now);
          NoneOpen(s.story.hist);
        }
      case _ =>
    }
  }

  lemma NoneOpen(hist: seq<Rec>)
    ensures OpenSpans(hist[|hist|..]) == {}
  {
  }

  lemma BeginSpans(sha: Sha, s: Sys, id: Identity, rotation: Option<Policy>, now: real)
    requires Inv(sha, s) && SpanInv(s)
    ensures SpanInv(Step(sha, s, Begin(id, rotation, now)))
  {
    hide *;
    InvParts(sha, s);
    if s.writer.None? && NothingYet(s.disk) {
      NothingMeansNothing(sha, s.story, s.disk, s.tail);
    }
    BegunSpans(sha, s, id, rotation, now);
  }

  lemma BegunSpans(sha: Sha, s: Sys, id: Identity, rotation: Option<Policy>, now: real)
    requires SpanInv(s) && (s.writer.None? && NothingYet(s.disk) ==> s.story.hist == [])
    ensures SpanInv(Step(sha, s, Begin(id, rotation, now)))
  {
    hide NothingYet, PolicyOk, IdentityOk;
  }

  lemma {:induction false} RunSpans(sha: Sha, events: seq<Event>)
    requires NoCollision(sha, HeaderSetOf(Run(sha, events).story.hist))
    ensures SpanInv(Run(sha, events))
    decreases |events|
  {
    hide Inv, Step, NoCollision, SpanInv;
    if events == [] {
      hide *;
      NothingSpans(sha);
    } else {
      var s, e := Run(sha, events[..|events| - 1]), events[|events| - 1];
      HistoryGrows(sha, s, e);
      FewerHeaders(sha, s.story.hist, Run(sha, events).story.hist);
      RunSpans(sha, events[..|events| - 1]);
      RunKeeps(sha, events[..|events| - 1]);
      InvHistory(sha, s);
      NumbersKeepApart(sha, s.story.hist);
      SpanStep(sha, s, e);
    }
  }

  lemma NothingSpans(sha: Sha)
    ensures SpanInv(Run(sha, []))
  {
  }

  /** Only a write cuts, whole or crashed after the successor had its name. */
  lemma CutsAreWrites(sha: Sha, s: Sys, e: Event) returns (x: Draft, c1: Clock, c2: Clock, k: nat, n: nat)
    requires |Step(sha, s, e).story.entries| > |s.story.entries|
    ensures CanWrite(s, x, c1, c2) && Step(sha, s, e).story == Told(sha, s, x, c1, c2, k, n).0
  {
    hide CanWrite, CanResume, Newest, Emit, Told, OpenExisting, CrashDisk, ApplyAll, NothingYet, Create;
    match e {
      case Write(y, a1, a2) => x, c1, c2, k, n := y, a1, a2, WHOLE, 0;
      case CrashInWrite(y, a1, a2, i, j) => x, c1, c2, k, n := y, a1, a2, i, j;
      case _ =>
    }
  }

  /** In any run: when an event cuts, every span its writer opened before the cut ended before it. */
  lemma CutsSeverNothing(sha: Sha, events: seq<Event>, e: Event, s: Sys, s': Sys)
    requires s == Run(sha, events) && s' == Step(sha, s, e) && NoCollision(sha, HeaderSetOf(s.story.hist))
    requires |s'.story.entries| > |s.story.entries|
    ensures var cut := Start(s'.story.entries);
      && 0 <= s.since < cut < |s'.story.hist|
      && (forall i :: s.since <= i < cut && TypeIs(s'.story.hist[i]) == RT_SPAN_START ==>
            Ended(s'.story.hist[..cut], i, SpanIs(s'.story.hist[i])))
  {
    hide *;
    RunKeeps(sha, events);
    RunSpans(sha, events);
    var x, c1, c2, k, n := CutsAreWrites(sha, s, e);
    CanWriteParts(s, x, c1, c2);
    var r, w1 := WriteAdds(sha, s, x, c1, c2, k, n);
    SpansAfter(s, x, r, s'.story);
    AddsCut(s, x, r, s'.story);
    CutsClosed(w1, c1.monotonicS);
    var cut, rs := |s.story.hist| + 1, s'.story.hist[s.since..|s.story.hist| + 1];
    forall i | s.since <= i < cut && TypeIs(s'.story.hist[i]) == RT_SPAN_START
      ensures Ended(s'.story.hist[..cut], i, SpanIs(s'.story.hist[i]))
    {
      assert rs[i - s.since] == s'.story.hist[i];
      ClosedWasEnded(rs, i - s.since);
      EndedShift(s'.story.hist, s.since, cut, i, SpanIs(s'.story.hist[i]));
    }
  }

  lemma CutsClosed(w1: WState, now: real)
    requires Cuts(w1, now)
    ensures w1.openSpans == {}
  {
  }

  lemma AddsCut(s: Sys, x: Draft, r: Rec, t': Story)
    requires s.writer.Some? && Adds(s, x, r, t') && |t'.entries| > |s.story.entries|
    ensures Start(t'.entries) == |s.story.hist| + 1 && |t'.hist| == |s.story.hist| + 2
  {
  }

  lemma NotWritten(sha: Sha, s: Sys, x: Draft, c1: Clock, c2: Clock)
    ensures !CanWrite(s, x, c1, c2) ==> Step(sha, s, Write(x, c1, c2)) == s
  {
    hide CanWrite;
  }

  lemma EndedShift(hist: seq<Rec>, since: nat, cut: nat, i: nat, id: Bytes)
    requires since <= i < cut <= |hist| && Ended(hist[since..cut], i - since, id)
    ensures Ended(hist[..cut], i, id)
  {
    var rs := hist[since..cut];
    var j :| i - since < j < |rs| && TypeIs(rs[j]) == RT_SPAN_END && SpanIs(rs[j]) == id;
    assert hist[..cut][j + since] == rs[j];
  }

  // ---------- cuts progress ----------

  lemma WriteDue(sha: Sha, s: Sys, x: Draft, c1: Clock, c2: Clock) returns (w1: WState, r: Rec)
    requires Inv(sha, s) && CanWrite(s, x, c1, c2)
    ensures 0 <= Start(s.story.entries) <= |s.story.hist|
    ensures w1.segRecords == |s.story.hist| + 1 - Start(s.story.entries)
    ensures w1.segBytes == |Container((s.story.hist + [r])[Start(s.story.entries)..])|
    ensures s.story.hist + [r] <= Step(sha, s, Write(x, c1, c2)).story.hist
    ensures w1.rotation == s.writer.value.rotation && w1.rotationDue == s.writer.value.rotationDue
    ensures w1.openSpans == NextSpans(s.writer.value.openSpans, x.recordType, x.spanId)
    ensures CanStamp(s.writer.value, x, c1) && SourceOk(s.writer.value, s.disk)
    ensures w1 == Before(sha, s.writer.value, s.disk, x, c1).0
    ensures var s' := Step(sha, s, Write(x, c1, c2));
      && s'.writer.Some? && s'.writer.value.rotation == s.writer.value.rotation
      && s'.writer.value.openSpans == w1.openSpans
      && (Due(w1, c1.monotonicS) && w1.openSpans != {} ==> s'.writer.value.rotationDue)
      && if Due(w1, c1.monotonicS) && w1.openSpans == {}
         then Closes(sha, s.story, s'.story)
         else s'.story.entries == s.story.entries && |s'.story.hist| == |s.story.hist| + 1
  {
    hide *;
    InvParts(sha, s);
    CanWriteParts(s, x, c1, c2);
    var w, d, t := s.writer.value, s.disk, s.story;
    GoodStamp(w, x, c1, c2);
    BeforeFits(sha, w, d, x, c1, c2);
    EmitStep(sha, t, w, d, x, c1, c2);
    BeforeId(sha, w, d, x, c1);
    var (w0, d1, r0) := Before(sha, w, d, x, c1);
    w1, r := w0, r0;
    WroteParts(t, r);
    GoodCounts(sha, Wrote(t, r), w1, d1);
    RotateKeeps(sha, Wrote(t, r), w1, d1, c1, c2);
    RotatedIs(sha, Wrote(t, r), w1, d1, c1, c2);
    ToldIs(sha, s, x, c1, c2, WHOLE, 0, w1, d1, r);
    StoryIs(sha, t, w1, d1, r, c1, c2, WHOLE, 0);
    WriteWriter(sha, s, x, c1, c2);
    CutsIs(w1, c1.monotonicS);
    StaysDue(sha, w, d, w1, d1, r, x, c1, c2);
    WriteIs(sha, s, x, c1, c2, Emit(sha, w, d, x, c1, c2).0, Emit(sha, w, d, x, c1, c2).1);
    if Cuts(w1, c1.monotonicS) {
      ClosesMade(sha, t, r, CutRecord(sha, Ready(sha, w1, d1), c2).value, Seg(Base, NextIndex(w1, d1)));
    }
  }

  /** Whether the record of a crashed write is wholly on disk. */
  predicate Durable(sha: Sha, w: WState, x: Draft, c1: Clock, k: nat, n: nat)
    requires CanStamp(Started(w), x, c1)
  {
    k > 0 || |RecBytes(Stamp(sha, Started(w), x, c1))| <= n
  }

  /** A write that crashed: nothing more on disk, the record without its cut, or the record and the cut. */
  lemma CrashDue(sha: Sha, s: Sys, x: Draft, c1: Clock, c2: Clock, k: nat, n: nat) returns (w1: WState, r: Rec)
    requires Inv(sha, s) && CanWrite(s, x, c1, c2) && CanEmit(s.writer.value, s.disk, x, c1, c2)
    requires k <= |Emit(sha, s.writer.value, s.disk, x, c1, c2).1|
    ensures 0 <= Start(s.story.entries) <= |s.story.hist| && CanStamp(Started(s.writer.value), x, c1)
    ensures w1.segRecords == |s.story.hist| + 1 - Start(s.story.entries) == s.writer.value.segRecords + 1
    ensures r == Stamp(sha, Started(s.writer.value), x, c1)
    ensures w1.segBytes == |Container((s.story.hist + [r])[Start(s.story.entries)..])| ==
      s.writer.value.segBytes + |RecBytes(r)|
    ensures w1.rotation == s.writer.value.rotation && w1.rotationDue == s.writer.value.rotationDue
    ensures var s' := Step(sha, s, CrashInWrite(x, c1, c2, k, n));
      && s'.writer.None?
      && (Durable(sha, s.writer.value, x, c1, k, n) ==> s.story.hist + [r] <= s'.story.hist)
      && if !Durable(sha, s.writer.value, x, c1, k, n) then s'.story == s.story
         else if k < WHOLE then s'.story.entries == s.story.entries && |s'.story.hist| == |s.story.hist| + 1
         else Closes(sha, s.story, s'.story) && Due(w1, c1.monotonicS)
  {
    hide *;
    InvParts(sha, s);
    CanWriteParts(s, x, c1, c2);
    var w, d, t := s.writer.value, s.disk, s.story;
    GoodStamp(w, x, c1, c2);
    StampSame(sha, w, x, c1);
    BeforeFits(sha, w, d, x, c1, c2);
    EmitStep(sha, t, w, d, x, c1, c2);
    BeforeId(sha, w, d, x, c1);
    var (w0, d1, r0) := Before(sha, w, d, x, c1);
    w1, r := w0, r0;
    GoodCounts(sha, t, w, d);
    WroteParts(t, r);
    GoodCounts(sha, Wrote(t, r), w1, d1);
    SuffixGrows(t.hist, r, Start(t.entries));
    RotateKeeps(sha, Wrote(t, r), w1, d1, c1, c2);
    RotatedIs(sha, Wrote(t, r), w1, d1, c1, c2);
    ToldIs(sha, s, x, c1, c2, k, n, w1, d1, r);
    StoryIs(sha, t, w1, d1, r, c1, c2, k, n);
    WriteIs(sha, s, x, c1, c2, Emit(sha, w, d, x, c1, c2).0, Emit(sha, w, d, x, c1, c2).1);
    DurableIs(sha, w, x, c1, k, n);
    if k >= WHOLE {
      CutsIs(w1, c1.monotonicS);
      ClosesMade(sha, t, r, CutRecord(sha, Ready(sha, w1, d1), c2).value, Seg(Base, NextIndex(w1, d1)));
    }
  }

  lemma DurableIs(sha: Sha, w: WState, x: Draft, c1: Clock, k: nat, n: nat)
    requires CanStamp(Started(w), x, c1)
    ensures Durable(sha, w, x, c1, k, n) <==> k > 0 || |RecBytes(Stamp(sha, Started(w), x, c1))| <= n
  {
    hide Stamp, RecBytes;
  }

  lemma CutsIs(w1: WState, now: real)
    ensures Cuts(w1, now) <==> Due(w1, now) && w1.openSpans == {}
  {
    hide Due;
  }

  lemma StaysDue(sha: Sha, w: WState, d: Disk, w1: WState, d1: Disk, r: Rec, x: Draft, c1: Clock, c2: Clock)
    requires IdentityOk(w1.id) && ClockOk(c2) && Room(w1) && SourceOk(w1, d1) && CanEmit(w, d, x, c1, c2)
    requires Emit(sha, w, d, x, c1, c2).0 == MaybeRotate(sha, w1, d1, c1, c2).0
    ensures Due(w1, c1.monotonicS) && w1.openSpans != {} ==> Emit(sha, w, d, x, c1, c2).0.rotationDue
  {
    hide Due, Emit;
  }

  lemma GoodCounts(sha: Sha, t: Story, w: WState, d: Disk)
    requires Good(sha, t, w, d)
    ensures 0 <= Start(t.entries) <= |t.hist| && w.segRecords == |t.hist| - Start(t.entries)
    ensures w.segBytes == |Container(t.hist[Start(t.entries)..])|
  {
    GoodParts(sha, t, w, d);
    hide Good, StoryOk, FrontOk, Container;
  }

  /** One more record, then the live segment is closed with everything in it, and a successor opened. */
  ghost predicate Closes(sha: Sha, t: Story, t': Story) {
    && 0 <= Start(t.entries) <= |t.hist| && |t'.hist| == |t.hist| + 2 && t.hist <= t'.hist
    && t'.entries == t.entries + [EntryFor(sha, t'.hist[..|t.hist| + 1], t.live, Start(t.entries), |t.hist|)]
  }

  lemma ClosesMade(sha: Sha, t: Story, r: Rec, cont: Rec, p: Name)
    requires 0 <= Start(t.entries) <= |t.hist|
    ensures Start(Wrote(t, r).entries) < |Wrote(t, r).hist|
    ensures Closes(sha, t, Advanced(sha, Wrote(t, r), cont, p))
    ensures t.hist + [r] <= Advanced(sha, Wrote(t, r), cont, p).hist
  {
    hide EntryFor;
    assert (t.hist + [r] + [cont])[..|t.hist| + 1] == t.hist + [r];
  }

  // ---------- defined times, over whole runs ----------

  predicate TimeGiven(e: Event) {
    && (e.Begin? ==> e.id.timeTrust <= TIME_NTP_SYNCED)
    && (e.Resume? ==> e.id.timeTrust <= TIME_NTP_SYNCED)
  }

  ghost predicate TimeInv(s: Sys) {
    TimesDefined(s.story.hist) && (s.writer.Some? ==> s.writer.value.id.timeTrust <= TIME_NTP_SYNCED)
  }

  lemma TimesAfter(s: Sys, x: Draft, r: Rec, t': Story)
    requires s.writer.Some? && TimeInv(s) && Adds(s, x, r, t')
    ensures TimesDefined(t'.hist)
  {
    AddsParts(s, x, r, t');
    hide Adds, Decode;
    var id := s.writer.value.id;
    MadeTime(r, id, x.recordType, x.spanId);
    if t' != s.story && |t'.hist| == |s.story.hist| + 2 {
      MadeTime(t'.hist[|s.story.hist| + 1], id, RT_EVENT, ZERO16);
    }
  }

  lemma MadeTime(r: Rec, id: Identity, recordType: nat, spanId: Bytes)
    requires Made(r, id, recordType, spanId) && id.timeTrust <= TIME_NTP_SYNCED
    ensures TimeDefined(r)
  {
  }

  lemma TimeStep(sha: Sha, s: Sys, e: Event)
    requires Inv(sha, s) && Distinct(sha, s.story.hist) && TimeInv(s) && TimeGiven(e)
    ensures TimeInv(Step(sha, s, e))
  {
    hide Inv, Distinct, CanWrite, CanResume, Newest, Emit, Told, OpenExisting, CrashDisk, ApplyAll, NothingYet, Adds,
      Resumed, TimesDefined;
    match e {
      case Write(x, c1, c2) =>
        if CanWrite(s, x, c1, c2) {
          CanWriteParts(s, x, c1, c2);
          WriteWriter(sha, s, x, c1, c2);
          var r, w1 := WriteAdds(sha, s, x, c1, c2, WHOLE, 0);
          TimesAfter(s, x, r, Told(sha, s, x, c1, c2, WHOLE, 0).0);
        }
      case CrashInWrite(x, c1, c2, k, n) =>
        if CanWrite(s, x, c1, c2) {
          CanWriteParts(s, x, c1, c2);
          var r, w1 := WriteAdds(sha, s, x, c1, c2, k, n);
          TimesAfter(s, x, r, Told(sha, s, x, c1, c2, k, n).0);
        }
      case Resume(name, rotation, id, now) =>
        if CanResume(sha, s, name, rotation, id, now) {
          ResumeFacts(sha, s, name, rotation, id, now);
          ResumedSpans(sha, s.story, s.tail, rotation, id, now);
        }
      case _ =>
    }
  }

  lemma {:induction false} RunTimes(sha: Sha, events: seq<Event>)
    requires NoCollision(sha, HeaderSetOf(Run(sha, events).story.hist))
    requires forall i :: 0 <= i < |events| ==> TimeGiven(events[i])
    ensures TimeInv(Run(sha, events))
    decreases |events|
  {
    hide Inv, Step, NoCollision, TimeInv, TimeGiven;
    if events == [] {
      NothingTimes(sha);
    } else {
      var s, e := Run(sha, events[..|events| - 1]), events[|events| - 1];
      HistoryGrows(sha, s, e);
      FewerHeaders(sha, s.story.hist, Run(sha, events).story.hist);
      RunTimes(sha, events[..|events| - 1]);
      RunKeeps(sha, events[..|events| - 1]);
      InvHistory(sha, s);
      NumbersKeepApart(sha, s.story.hist);
      TimeStep(sha, s, e);
    }
  }

  lemma NothingTimes(sha: Sha)
    ensures TimeInv(Run(sha, []))
  {
  }

  // ---------- the laws, over whole runs ----------

  /** Whatever a run did, the chain it left verifies, and its count and head are the writer's; with
      no segment deleted, the segments on disk are exactly the records verified. */
  lemma RunVerifies(sha: Sha, events: seq<Event>, known: set<nat>, expected: Option<Bytes>, s: Sys)
    requires s == Run(sha, events) && NoCollision(sha, HeaderSetOf(s.story.hist))
    requires NeverZero(sha, BodySet(s.story.hist))
    requires forall i :: 0 <= i < |events| ==> TimeGiven(events[i])
    ensures var v := Chain.Finish(Chain.Run(sha, known, HeaderBytes(s.story.hist)), expected);
      && v.chainOk && v.breaks == [] && v.gaps == [] && v.violations == [] && v.count == |s.story.hist|
      && (s.writer.Some? ==> v.count == s.writer.value.seqNo && v.head == s.writer.value.head)
    ensures s.story.hist != [] && (forall i :: 0 <= i < |s.story.entries| ==> s.story.entries[i].file in s.disk.files)
      ==> Assembled(s.disk, s.story.entries, |s.story.entries|) + SegmentRecs(s.disk, s.story.live) == s.story.hist
  {
    hide *;
    RunKeeps(sha, events);
    RunTimes(sha, events);
    TimeParts(s);
    InvHistory(sha, s);
    InvParts(sha, s);
    HistoryVerifies(sha, known, s.story.hist, expected);
    if s.writer.Some? {
      GoodParts(sha, s.story, s.writer.value, s.disk);
      WriterFacts(sha, s.story, s.writer.value);
      CrashedMade(sha, s.story, s.disk);
    }
    if s.story.hist != [] && (forall i :: 0 <= i < |s.story.entries| ==> s.story.entries[i].file in s.disk.files) {
      SegmentsAreHistory(sha, s.story, s.disk, if s.writer.Some? then [] else s.tail);
    }
  }

  lemma TimeParts(s: Sys)
    requires TimeInv(s)
    ensures TimesDefined(s.story.hist)
  {
  }

  /** Whatever a run did, the root its writer states is the one over every record since seq 0: also
      after resumes, cuts and the deletion of every earlier segment. */
  lemma RunRootIsExact(sha: Sha, events: seq<Event>, s: Sys)
    requires s == Run(sha, events) && NoCollision(sha, HeaderSetOf(s.story.hist)) && s.writer.Some?
    ensures SourceOk(s.writer.value, s.disk)
    ensures ChainRoot(sha, s.writer.value, s.disk) == Some(Merkle.Root(sha, RecHashes(sha, s.story.hist)))
  {
    hide *;
    RunKeeps(sha, events);
    InvParts(sha, s);
    ChainRootIsExact(sha, s.story, s.writer.value, s.disk);
    RootOfAll(sha, s.story.hist);
  }

  lemma RootOfAll(sha: Sha, hist: seq<Rec>)
    ensures RootTo(sha, hist, |hist|) == Merkle.Root(sha, RecHashes(sha, hist))
  {
    assert hist[..|hist|] == hist;
  }

  // ---------- an old segment accepts a resume ----------

  const ONE_EACH: Policy := Policy(Some(1), None, None, None, [])
  const TWO_EACH: Policy := Policy(Some(2), None, None, None, [])
  const NOBODY: Identity := Identity(ZERO16, 1, 0)
  const MIDNIGHT: Clock := Clock(0, 0, 0.0)

  function Blank(recordType: nat): Draft { Draft(recordType, [], [], ZERO16, ZERO16) }

  /** Two records under a policy of one record a segment: three files. */
  const TWO_CUTS: seq<Event> :=
    [] + [Begin(NOBODY, Some(ONE_EACH), 0.0)] + [Write(Blank(RT_GENESIS), MIDNIGHT, MIDNIGHT)]
    + [Write(Blank(RT_EVENT), MIDNIGHT, MIDNIGHT)]

  predicate Example(p: Policy) { p == ONE_EACH || p == TWO_EACH }

  lemma BlankFits(w: WState, recordType: nat, p: Policy)
    requires Example(p) && (recordType == RT_GENESIS || recordType == RT_EVENT || recordType == RT_BOOT)
    requires w.id == NOBODY && w.rotation == Some(p) && w.seqNo < 10 && w.segOrdinal.Some? && w.segOrdinal.value < 10
    ensures EmitFits(w, Blank(recordType), MIDNIGHT, MIDNIGHT)
  {
    assert EncodeTlvs([]) == [];
  }

  /** A writer of the example, ready for its next record. */
  ghost predicate Idle(sha: Sha, s: Sys, p: Policy) {
    && Inv(sha, s) && Example(p) && s.writer.Some? && s.writer.value.rotation == Some(p) && s.writer.value.id == NOBODY
    && !s.writer.value.bootPending && !s.writer.value.rotationDue && s.writer.value.openSpans == {}
    && |s.story.hist| < 10 && |s.story.entries| < 10 && (Base in s.disk.files || s.story.hist == [])
  }

  lemma IdleParts(sha: Sha, s: Sys, p: Policy)
    requires Idle(sha, s, p)
    ensures Inv(sha, s) && Example(p) && s.writer.Some? && Good(sha, s.story, s.writer.value, s.disk)
    ensures var w := s.writer.value;
      && w.rotation == Some(p) && w.id == NOBODY && !w.bootPending && !w.rotationDue && w.openSpans == {}
      && w.seqNo == |s.story.hist| < 10 && w.segOrdinal == Some(|s.story.entries|) && |s.story.entries| < 10
      && (w.started <==> s.story.hist != []) && w.path == s.story.live
    ensures Base in s.disk.files || s.story.hist == []
  {
    InvParts(sha, s);
    GoodParts(sha, s.story, s.writer.value, s.disk);
    WriterFacts(sha, s.story, s.writer.value);
    hide Inv, Good, WriterOk, StoryOk;
  }

  lemma CanWriteMade(s: Sys, x: Draft, c1: Clock, c2: Clock)
    requires s.writer.Some? && EmitFits(s.writer.value, x, c1, c2) && SourceOk(s.writer.value, s.disk)
    requires !Refuses(s.writer.value, x.recordType)
    ensures CanWrite(s, x, c1, c2)
  {
  }

  lemma BlankWrites(sha: Sha, s: Sys, recordType: nat, p: Policy)
    requires Idle(sha, s, p) && (recordType == RT_GENESIS || recordType == RT_EVENT)
    requires recordType == RT_GENESIS <==> s.story.hist == []
    ensures CanWrite(s, Blank(recordType), MIDNIGHT, MIDNIGHT)
  {
    IdleParts(sha, s, p);
    hide Idle, Inv, Good, EmitFits, SourceOk, CanWrite;
    GoodSource(sha, s.story, s.writer.value, s.disk);
    BlankFits(s.writer.value, recordType, p);
    CanWriteMade(s, Blank(recordType), MIDNIGHT, MIDNIGHT);
  }

  lemma RotateFlags(sha: Sha, w1: WState, d1: Disk, c1: Clock, c2: Clock)
    requires IdentityOk(w1.id) && ClockOk(c2) && Room(w1) && SourceOk(w1, d1)
    ensures MaybeRotate(sha, w1, d1, c1, c2).0.bootPending == w1.bootPending
    ensures Cuts(w1, c1.monotonicS) ==> !MaybeRotate(sha, w1, d1, c1, c2).0.rotationDue
  {
    hide *;
    RotateCases(sha, w1, d1, c1, c2);
    ReadyCarries(sha, w1, d1);
    CutCarries(sha, Ready(sha, w1, d1), Seg(w1.base, NextIndex(w1, d1)), c2);
    CutsIs(w1, c1.monotonicS);
  }

  lemma EmitFlags(sha: Sha, w: WState, d: Disk, x: Draft, c1: Clock, c2: Clock)
    requires EmitFits(w, x, c1, c2) && SourceOk(w, d) && !Refuses(w, x.recordType) && CanEmit(w, d, x, c1, c2)
    requires CanStamp(w, x, c1)
    ensures var w' := Emit(sha, w, d, x, c1, c2).0;
      !w'.bootPending && (Cuts(Before(sha, w, d, x, c1).0, c1.monotonicS) ==> !w'.rotationDue)
  {
    hide *;
    EmitIs(sha, w, d, x, c1, c2);
    EmitParts(w, d, x, c1, c2);
    BeforeFits(sha, w, d, x, c1, c2);
    var (w1, d1, r) := Before(sha, w, d, x, c1);
    RotateFlags(sha, w1, d1, c1, c2);
  }

  predicate KeepsBase(ops: seq<DiskOp>) {
    forall i :: 0 <= i < |ops| ==> !ops[i].Remove? && (ops[i].Rename? ==> ops[i].from.Tmp?)
  }

  lemma {:induction false} BaseStays(d: Disk, ops: seq<DiskOp>)
    requires KeepsBase(ops) && Base in d.files
    ensures Base in ApplyAll(d, ops).files
    decreases |ops|
  {
    if ops != [] {
      BaseStays(d, ops[..|ops| - 1]);
    }
  }

  lemma EmitKeepsBase(sha: Sha, w: WState, d: Disk, x: Draft, c1: Clock, c2: Clock)
    requires CanEmit(w, d, x, c1, c2) && !Refuses(w, x.recordType)
    ensures var ops := Emit(sha, w, d, x, c1, c2).1;
      KeepsBase(ops) && ops != [] && ops[0].AppendTo? && ops[0].name == w.path
  {
    hide Encode, CutRecord, ClosedEntry, PeaksRoot, AppendAll, Walk, AfterCut;
  }

  lemma FilesStay(sha: Sha, w: WState, d: Disk, x: Draft, c1: Clock, c2: Clock, ops: seq<DiskOp>)
    requires CanEmit(w, d, x, c1, c2) && !Refuses(w, x.recordType) && ops == Emit(sha, w, d, x, c1, c2).1
    requires Base in d.files || w.path == Base
    ensures Base in ApplyAll(d, ops).files
  {
    EmitKeepsBase(sha, w, d, x, c1, c2);
    hide Emit, CanEmit, Refuses, ApplyAll;
    assert ops == [ops[0]] + ops[1..];
    ApplyFirst(d, ops[0], ops[1..]);
    BaseStays(Apply(d, ops[0]), ops[1..]);
  }

  lemma CloseSize(sha: Sha, t: Story, t': Story)
    requires Closes(sha, t, t')
    ensures |t'.entries| == |t.entries| + 1 && |t'.hist| == |t.hist| + 2
  {
  }

  lemma IdleMade(sha: Sha, s: Sys, p: Policy)
    requires Inv(sha, s) && Example(p) && s.writer.Some? && s.writer.value.rotation == Some(p)
    requires s.writer.value.id == NOBODY
    requires !s.writer.value.bootPending && !s.writer.value.rotationDue && s.writer.value.openSpans == {}
    requires |s.story.hist| < 10 && |s.story.entries| < 10 && (Base in s.disk.files || s.story.hist == [])
    ensures Idle(sha, s, p)
  {
  }

  lemma NoSpans(open: set<Bytes>, recordType: nat, spanId: Bytes)
    requires recordType == RT_GENESIS || recordType == RT_EVENT
    ensures NextSpans(open, recordType, spanId) == open
  {
  }

  lemma OneIsDue(w1: WState)
    requires w1.rotation == Some(ONE_EACH) && !w1.rotationDue && w1.segRecords >= 1 && w1.openSpans == {}
    ensures Due(w1, 0.0) && Cuts(w1, 0.0)
  {
  }

  lemma LivesFirst(sha: Sha, s: Sys)
    requires Inv(sha, s) && s.writer.Some? && s.story.hist == []
    ensures s.story.live == Base
  {
    InvHistory(sha, s);
    EmptyStory(sha, s.story);
  }

  /** In the example every record closes a segment. */
  lemma BlankCuts(sha: Sha, s: Sys, recordType: nat, s': Sys)
    requires Idle(sha, s, ONE_EACH) && |s.story.hist| < 8 && |s.story.entries| < 9
    requires recordType == RT_GENESIS || recordType == RT_EVENT
    requires recordType == RT_GENESIS <==> s.story.hist == []
    requires s' == Step(sha, s, Write(Blank(recordType), MIDNIGHT, MIDNIGHT))
    ensures Idle(sha, s', ONE_EACH) && Base in s'.disk.files
    ensures |s'.story.entries| == |s.story.entries| + 1 && |s'.story.hist| == |s.story.hist| + 2
  {
    hide *;
    var x := Blank(recordType);
    BlankWrites(sha, s, recordType, ONE_EACH);
    IdleParts(sha, s, ONE_EACH);
    var w, d := s.writer.value, s.disk;
    BlankFields(recordType);
    WriteKeepsInv(sha, s, x, MIDNIGHT, MIDNIGHT);
    CanWriteParts(s, x, MIDNIGHT, MIDNIGHT);
    GoodStamp(w, x, MIDNIGHT, MIDNIGHT);
    BeforeFits(sha, w, d, x, MIDNIGHT, MIDNIGHT);
    BeforeId(sha, w, d, x, MIDNIGHT);
    var w1, r := WriteDue(sha, s, x, MIDNIGHT, MIDNIGHT);
    NoSpans(w.openSpans, recordType, ZERO16);
    OneIsDue(w1);
    OneIsDue(Before(sha, w, d, x, MIDNIGHT).0);
    CloseSize(sha, s.story, s'.story);
    EmitFlags(sha, w, d, x, MIDNIGHT, MIDNIGHT);
    var (w', ops) := Emit(sha, w, d, x, MIDNIGHT, MIDNIGHT);
    WriteIs(sha, s, x, MIDNIGHT, MIDNIGHT, w', ops);
    WriteWriter(sha, s, x, MIDNIGHT, MIDNIGHT);
    if s.story.hist == [] {
      LivesFirst(sha, s);
    }
    FilesStay(sha, w, d, x, MIDNIGHT, MIDNIGHT, ops);
    IdleMade(sha, s', ONE_EACH);
  }

  lemma BlankFields(recordType: nat)
    ensures Blank(recordType).recordType == recordType && Blank(recordType).spanId == ZERO16
    ensures MIDNIGHT.monotonicS == 0.0
  {
  }

  lemma BeginsIdle(sha: Sha, p: Policy)
    requires p == ONE_EACH || p == TWO_EACH
    ensures Idle(sha, Step(sha, NOTHING, Begin(NOBODY, Some(p), 0.0)), p)
    ensures Step(sha, NOTHING, Begin(NOBODY, Some(p), 0.0)).story == NOTHING.story
  {
    NothingIsFine(sha);
    BeginKeeps(sha, NOTHING, NOBODY, Some(p), 0.0);
    hide Inv;
  }

  lemma RunSnoc(sha: Sha, events: seq<Event>, e: Event)
    ensures Run(sha, events + [e]) == Step(sha, Run(sha, events), e)
  {
    hide Step;
    assert (events + [e])[..|events|] == events;
  }

  lemma RunNothing(sha: Sha)
    ensures Run(sha, []) == NOTHING && NOTHING.story == Story([], [], Base)
  {
  }

  lemma TwoCutsAre()
    ensures TWO_CUTS == [] + [Begin(NOBODY, Some(ONE_EACH), 0.0)] + [Write(Blank(RT_GENESIS), MIDNIGHT, MIDNIGHT)]
      + [Write(Blank(RT_EVENT), MIDNIGHT, MIDNIGHT)]
    ensures RT_GENESIS != RT_EVENT
  {
  }

  lemma TwoCuts(sha: Sha)
    ensures var s := Run(sha, TWO_CUTS);
      Idle(sha, s, ONE_EACH) && |s.story.entries| == 2 && s.story.hist != [] && Base in s.disk.files
  {
    hide *;
    var e0, e1 := Begin(NOBODY, Some(ONE_EACH), 0.0), Write(Blank(RT_GENESIS), MIDNIGHT, MIDNIGHT);
    var e2 := Write(Blank(RT_EVENT), MIDNIGHT, MIDNIGHT);
    TwoCutsAre();
    RunNothing(sha);
    RunSnoc(sha, [], e0);
    RunSnoc(sha, [] + [e0], e1);
    RunSnoc(sha, [] + [e0] + [e1], e2);
    BeginsIdle(sha, ONE_EACH);
    var s0, s1 := Run(sha, [] + [e0]), Run(sha, [] + [e0] + [e1]);
    BlankCuts(sha, s0, RT_GENESIS, s1);
    BlankCuts(sha, s1, RT_EVENT, Run(sha, TWO_CUTS));
  }

  /** After two cuts, with nothing deleted, two files accept a resume: the newest segment, and the
      first one, whose head has long been followed. */
  lemma OldSegmentAccepts(sha: Sha, rotation: Policy, id: Identity, now: real, s: Sys)
    requires s == Step(sha, Run(sha, TWO_CUTS), Close) && NoCollision(sha, HeaderSetOf(s.story.hist))
    ensures s.story.live != Base && Accepts(sha, s.disk, Base, Some(rotation), id, now)
    ensures Accepts(sha, s.disk, s.story.live, Some(rotation), id, now)
  {
    hide *;
    var s0 := Run(sha, TWO_CUTS);
    TwoCuts(sha);
    IdleParts(sha, s0, ONE_EACH);
    CloseIs(sha, s0);
    CloseKeeps(sha, s0);
    InvParts(sha, s);
    InvHistory(sha, s);
    NumbersKeepApart(sha, s.story.hist);
    EntryFacts(sha, s.story, 0);
    LiveIsLastOf(sha, s.story, 0);
    ClosedVerdict(sha, s.story, s.disk, [], 0, rotation, id, now);
    AcceptsIs(sha, s.disk, Base, Some(rotation), id, now);
    AcceptsIs(sha, s.disk, s.story.live, Some(rotation), id, now);
    LiveResumes(sha, s.story, s.disk, [], Some(rotation), id, now);
  }

  // ---------- a refusal that shortens the file ----------

  const ONE_BYTE: Bytes := [0]

  lemma OneByteIsNoRecord()
    ensures ONE_BYTE != [] && FirstRec(ONE_BYTE).None? && !HasMagic(ONE_BYTE[1..])
  {
    assert ONE_BYTE[1..] == [];
    forall i ensures !MagicAt(ONE_BYTE[1..], i) {
    }
  }

  /** One record under a policy of one record a segment: the first segment is closed. */
  const ONE_CUT: seq<Event> :=
    [] + [Begin(NOBODY, Some(ONE_EACH), 0.0)] + [Write(Blank(RT_GENESIS), MIDNIGHT, MIDNIGHT)]

  lemma OneCutIs()
    ensures ONE_CUT == [] + [Begin(NOBODY, Some(ONE_EACH), 0.0)] + [Write(Blank(RT_GENESIS), MIDNIGHT, MIDNIGHT)]
  {
  }

  lemma OneCut(sha: Sha)
    ensures var s := Run(sha, ONE_CUT);
      Idle(sha, s, ONE_EACH) && |s.story.entries| == 1 && s.story.hist != [] && Base in s.disk.files
  {
    hide *;
    var e0, e1 := Begin(NOBODY, Some(ONE_EACH), 0.0), Write(Blank(RT_GENESIS), MIDNIGHT, MIDNIGHT);
    OneCutIs();
    RunNothing(sha);
    RunSnoc(sha, [], e0);
    RunSnoc(sha, [] + [e0], e1);
    BeginsIdle(sha, ONE_EACH);
    BlankCuts(sha, Run(sha, [] + [e0]), RT_GENESIS, Run(sha, ONE_CUT));
  }

  /** One cut, and one stray byte at the end of the closed segment: its resume is refused because the
      chain continues elsewhere, and has dropped the byte. */
  lemma RefusalShortens(sha: Sha, rotation: Policy, id: Identity, now: real, s: Sys, d: Disk)
    requires s == Step(sha, Run(sha, ONE_CUT), Close) && d == Apply(s.disk, AppendTo(Base, ONE_BYTE))
    ensures Base in s.disk.files
    ensures OpenExisting(sha, d, Base, Some(rotation), id, true, now).None? && !Unresumable(ContentOf(d, Base), true)
    ensures ContentOf(d, Base) == s.disk.files[Base] + ONE_BYTE
    ensures ContentOf(WithoutTail(d, Base), Base) == s.disk.files[Base]
  {
    hide *;
    var s0 := Run(sha, ONE_CUT);
    OneCut(sha);
    IdleParts(sha, s0, ONE_EACH);
    CloseIs(sha, s0);
    CloseKeeps(sha, s0);
    InvParts(sha, s);
    InvHistory(sha, s);
    GoodParts(sha, s0.story, s0.writer.value, s0.disk);
    EntryFacts(sha, s.story, 0);
    OneByteIsNoRecord();
    ClosedLosesTail(sha, s.story, s.disk, [], ONE_BYTE, rotation, id, now, Base, d);
  }

  // ---------- a record that does not cut ----------

  lemma TwoIsDue(w1: WState)
    requires w1.rotation == Some(TWO_EACH) && !w1.rotationDue && w1.openSpans == {}
    ensures Due(w1, 0.0) <==> w1.segRecords >= 2
    ensures Cuts(w1, 0.0) <==> w1.segRecords >= 2
  {
  }

  lemma StaysQuiet(sha: Sha, w: WState, d: Disk, x: Draft, c1: Clock, c2: Clock)
    requires EmitFits(w, x, c1, c2) && SourceOk(w, d) && !Refuses(w, x.recordType) && CanEmit(w, d, x, c1, c2)
    requires CanStamp(w, x, c1) && !Due(Before(sha, w, d, x, c1).0, c1.monotonicS)
    ensures Emit(sha, w, d, x, c1, c2).0.rotationDue == w.rotationDue
    ensures Emit(sha, w, d, x, c1, c2).1 == [AppendTo(w.path, RecBytes(Before(sha, w, d, x, c1).2))]
  {
    hide *;
    EmitIs(sha, w, d, x, c1, c2);
    EmitParts(w, d, x, c1, c2);
    BeforeFits(sha, w, d, x, c1, c2);
    BeforeId(sha, w, d, x, c1);
    var (w1, d1, r) := Before(sha, w, d, x, c1);
    NotDue(sha, w1, d1, c1, c2);
  }

  lemma NotDue(sha: Sha, w1: WState, d1: Disk, c1: Clock, c2: Clock)
    requires IdentityOk(w1.id) && ClockOk(c2) && Room(w1) && SourceOk(w1, d1) && !Due(w1, c1.monotonicS)
    ensures MaybeRotate(sha, w1, d1, c1, c2) == (w1, [])
  {
  }

  /** The genesis record of the example: no cut yet. */
  lemma BlankStays(sha: Sha, s: Sys, s': Sys)
    requires Idle(sha, s, TWO_EACH) && s.story == Story([], [], Base)
    requires s' == Step(sha, s, Write(Blank(RT_GENESIS), MIDNIGHT, MIDNIGHT))
    ensures Idle(sha, s', TWO_EACH) && s'.story.entries == [] && |s'.story.hist| == 1
  {
    hide *;
    var x := Blank(RT_GENESIS);
    BlankWrites(sha, s, RT_GENESIS, TWO_EACH);
    IdleParts(sha, s, TWO_EACH);
    var w, d := s.writer.value, s.disk;
    BlankFields(RT_GENESIS);
    WriteKeepsInv(sha, s, x, MIDNIGHT, MIDNIGHT);
    CanWriteParts(s, x, MIDNIGHT, MIDNIGHT);
    GoodStamp(w, x, MIDNIGHT, MIDNIGHT);
    BeforeFits(sha, w, d, x, MIDNIGHT, MIDNIGHT);
    BeforeId(sha, w, d, x, MIDNIGHT);
    var w1, r := WriteDue(sha, s, x, MIDNIGHT, MIDNIGHT);
    NoSpans(w.openSpans, RT_GENESIS, ZERO16);
    StartOfNone();
    InvGoodCounts(sha, s);
    TwoIsDue(w1);
    TwoIsDue(Before(sha, w, d, x, MIDNIGHT).0);
    EmitFlags(sha, w, d, x, MIDNIGHT, MIDNIGHT);
    StaysQuiet(sha, w, d, x, MIDNIGHT, MIDNIGHT);
    var (w', ops) := Emit(sha, w, d, x, MIDNIGHT, MIDNIGHT);
    WriteIs(sha, s, x, MIDNIGHT, MIDNIGHT, w', ops);
    WriteWriter(sha, s, x, MIDNIGHT, MIDNIGHT);
    LivesFirst(sha, s);
    FilesStay(sha, w, d, x, MIDNIGHT, MIDNIGHT, ops);
    IdleMade(sha, s', TWO_EACH);
  }

  lemma StartOfNone()
    ensures Start([]) == 0
  {
  }

  lemma InvGoodCounts(sha: Sha, s: Sys)
    requires Inv(sha, s) && s.writer.Some?
    ensures 0 <= Start(s.story.entries) <= |s.story.hist|
    ensures s.writer.value.segRecords == |s.story.hist| - Start(s.story.entries)
  {
    InvParts(sha, s);
    GoodCounts(sha, s.story, s.writer.value, s.disk);
    hide Inv, Good;
  }

  // ---------- a torn first record ----------

  /** A chain whose very first record was cut off after `n` bytes. */
  function TornFirst(n: nat): seq<Event> {
    [] + [Begin(NOBODY, Some(ONE_EACH), 0.0)] + [CrashInWrite(Blank(RT_GENESIS), MIDNIGHT, MIDNIGHT, 0, n)]
  }

  lemma NothingToName(sha: Sha, t: Story, d: Disk, tail: Bytes)
    requires Crashed(sha, t, d, tail) && t.hist == []
    ensures t == Story([], [], Base) && ContentOf(d, Base) == tail
  {
    hide *;
    SettledOrHalf(sha, t, d, tail);
    EmptyStory(sha, t);
    DiskParts(t, d, tail);
    TailOnly(t, tail);
  }

  lemma TailOnly(t: Story, tail: Bytes)
    requires t == Story([], [], Base)
    ensures Start(t.entries) == 0 && Container(t.hist[0..]) + tail == tail
  {
    assert t.hist[0..] == [];
    assert [] + tail == tail;
  }

  lemma CreateIs(d: Disk, path: Name, id: Identity, rotation: Option<Policy>, now: real)
    ensures Create(d, path, id, rotation, now).Some? <==> ContentOf(d, path) == []
  {
  }

  lemma TornIs(sha: Sha, n: nat)
    ensures TornFirst(n) ==
      [] + [Begin(NOBODY, Some(ONE_EACH), 0.0)] + [CrashInWrite(Blank(RT_GENESIS), MIDNIGHT, MIDNIGHT, 0, n)]
  {
  }

  lemma RecordLength(r: Rec)
    requires RecOk(r)
    ensures |RecBytes(r)| >= FIXED_LEN > 0
  {
  }

  lemma TornCrash(sha: Sha, s: Sys, n: nat, s': Sys)
    requires Idle(sha, s, ONE_EACH) && s.story == Story([], [], Base) && 0 < n < FIXED_LEN
    requires s' == Step(sha, s, CrashInWrite(Blank(RT_GENESIS), MIDNIGHT, MIDNIGHT, 0, n))
    ensures s'.writer.None? && s'.story == s.story && s'.tail != [] && Inv(sha, s')
  {
    hide *;
    var x, c := Blank(RT_GENESIS), MIDNIGHT;
    BlankWrites(sha, s, RT_GENESIS, ONE_EACH);
    IdleParts(sha, s, ONE_EACH);
    var w, d := s.writer.value, s.disk;
    CanWriteParts(s, x, c, c);
    GoodStamp(w, x, c, c);
    BeforeFits(sha, w, d, x, c, c);
    EmitStep(sha, s.story, w, d, x, c, c);
    var (w1, d1, r) := Before(sha, w, d, x, c);
    RecordLength(r);
    StartOfNone();
    ToldIs(sha, s, x, c, c, 0, n, w1, d1, r);
    StoryIs(sha, s.story, w1, d1, r, c, c, 0, n);
    TailIs(r, 0, n);
    WriteIs(sha, s, x, c, c, Emit(sha, w, d, x, c, c).0, Emit(sha, w, d, x, c, c).1);
    WriteCrashKeeps(sha, s, x, c, c, 0, n);
  }

  /** After a crash inside the very first record, no new writer and no resume accepts what is on disk. */
  lemma TornGenesisIsStuck(sha: Sha, n: nat, s: Sys, name: Name, rotation: Option<Policy>, id: Identity, now: real)
    requires 0 < n < FIXED_LEN && s == Run(sha, TornFirst(n)) && IsSegment(name)
    ensures s.writer.None? && Base in s.disk.files
    ensures Create(s.disk, Base, id, rotation, now).None? && !Accepts(sha, s.disk, name, rotation, id, now)
  {
    hide *;
    var e0, e1 := Begin(NOBODY, Some(ONE_EACH), 0.0), CrashInWrite(Blank(RT_GENESIS), MIDNIGHT, MIDNIGHT, 0, n);
    TornIs(sha, n);
    RunNothing(sha);
    RunSnoc(sha, [], e0);
    RunSnoc(sha, [] + [e0], e1);
    BeginsIdle(sha, ONE_EACH);
    TornCrash(sha, Run(sha, [] + [e0]), n, s);
    InvParts(sha, s);
    NothingToName(sha, s.story, s.disk, s.tail);
    NothingResumes(sha, s.story, s.disk, s.tail, name, rotation, id, now);
    CreateIs(s.disk, Base, id, rotation, now);
    OnDisk(s.disk, Base);
  }

  lemma OnDisk(d: Disk, name: Name)
    requires ContentOf(d, name) != []
    ensures name in d.files
  {
  }

  /** A record whose body holds the record magic. */
  const MAGIC_INSIDE: Draft := Draft(RT_EVENT, [], MAGIC + [0], ZERO16, ZERO16)

  /** A second record torn right after the magic in its body. */
  const TORN_AT_MAGIC: seq<Event> :=
    [] + [Begin(NOBODY, Some(TWO_EACH), 0.0)] + [Write(Blank(RT_GENESIS), MIDNIGHT, MIDNIGHT)]
    + [CrashInWrite(MAGIC_INSIDE, MIDNIGHT, MIDNIGHT, 0, FIXED_LEN + 4)]

  lemma TornAtMagicIs()
    ensures TORN_AT_MAGIC == [] + [Begin(NOBODY, Some(TWO_EACH), 0.0)] + [Write(Blank(RT_GENESIS), MIDNIGHT, MIDNIGHT)]
      + [CrashInWrite(MAGIC_INSIDE, MIDNIGHT, MIDNIGHT, 0, FIXED_LEN + 4)]
  {
  }

  lemma MagicFits(w: WState)
    requires w.id == NOBODY && w.rotation == Some(TWO_EACH) && w.seqNo < 10 && w.segOrdinal.Some?
    requires w.segOrdinal.value < 10
    requires w.started && !w.bootPending
    ensures EmitFits(w, MAGIC_INSIDE, MIDNIGHT, MIDNIGHT) && !Refuses(w, RT_EVENT)
    ensures MAGIC_INSIDE.recordType == RT_EVENT
  {
    assert EncodeTlvs([]) == [];
  }

  /** Its header takes 156 bytes, so the tear is right after the magic. */
  lemma MagicIsTorn(sha: Sha, w: WState)
    requires CanStamp(w, MAGIC_INSIDE, MIDNIGHT)
    ensures var data := RecBytes(Stamp(sha, w, MAGIC_INSIDE, MIDNIGHT));
      FIXED_LEN + 4 < |data| && data[..FIXED_LEN + 4] != [] && HasMagic(data[..FIXED_LEN + 4][1..])
  {
    hide *;
    var r := Stamp(sha, w, MAGIC_INSIDE, MIDNIGHT);
    BareHeader(sha, w);
    MagicInBody(r.hb, r.body, RecBytes(r));
  }

  lemma BareHeader(sha: Sha, w: WState)
    requires CanStamp(w, MAGIC_INSIDE, MIDNIGHT)
    ensures var r := Stamp(sha, w, MAGIC_INSIDE, MIDNIGHT);
      |r.hb| == FIXED_LEN && r.body == MAGIC + [0] && RecBytes(r) == r.hb + r.body
  {
    EncodedChunk(HeaderFor(sha, w, MAGIC_INSIDE, MIDNIGHT), 0);
    assert EncodeTlvs([]) == [];
    hide Encode, EncodeTlvs, Chunks, BodyDigest;
  }

  lemma MagicInBody(hb: Bytes, body: Bytes, data: Bytes)
    requires |hb| == FIXED_LEN && body == MAGIC + [0] && data == hb + body
    ensures FIXED_LEN + 4 < |data| && data[..FIXED_LEN + 4] != [] && HasMagic(data[..FIXED_LEN + 4][1..])
  {
    assert |MAGIC| == 4;
    var torn := data[..FIXED_LEN + 4][1..];
    assert torn[FIXED_LEN - 1..FIXED_LEN + 3] == data[FIXED_LEN..FIXED_LEN + 4];
    assert data[FIXED_LEN..FIXED_LEN + 4] == body[..4] == MAGIC;
    assert MagicAt(torn, FIXED_LEN - 1);
  }

  /** A run that ends in that refusal: the torn bytes look like damage, and nothing accepts the file. */
  lemma TornMagicIsStuck(sha: Sha, s: Sys, rotation: Option<Policy>, id: Identity, now: real)
    requires s == Run(sha, TORN_AT_MAGIC) && PolicyAllowed(s.disk, rotation)
    requires NoCollision(sha, HeaderSetOf(s.story.hist))
    ensures s.writer.None? && |s.story.hist| == 1 && s.tail != [] && HasMagic(s.tail[1..])
    ensures Create(s.disk, s.story.live, id, rotation, now).None?
    ensures !Accepts(sha, s.disk, s.story.live, rotation, id, now)
  {
    hide *;
    var e0, e1 := Begin(NOBODY, Some(TWO_EACH), 0.0), Write(Blank(RT_GENESIS), MIDNIGHT, MIDNIGHT);
    var e2, x, c := CrashInWrite(MAGIC_INSIDE, MIDNIGHT, MIDNIGHT, 0, FIXED_LEN + 4), MAGIC_INSIDE, MIDNIGHT;
    TornAtMagicIs();
    RunNothing(sha);
    RunSnoc(sha, [], e0);
    RunSnoc(sha, [] + [e0], e1);
    RunSnoc(sha, [] + [e0] + [e1], e2);
    BeginsIdle(sha, TWO_EACH);
    var s1 := Run(sha, [] + [e0] + [e1]);
    BlankStays(sha, Run(sha, [] + [e0]), s1);
    IdleParts(sha, s1, TWO_EACH);
    var w, d := s1.writer.value, s1.disk;
    GoodSource(sha, s1.story, w, d);
    MagicFits(w);
    CanWriteMade(s1, x, c, c);
    GoodStamp(w, x, c, c);
    BeforeFits(sha, w, d, x, c, c);
    EmitStep(sha, s1.story, w, d, x, c, c);
    var (w1, d1, r) := Before(sha, w, d, x, c);
    StampSame(sha, w, x, c);
    MagicIsTorn(sha, Started(w));
    StartOfNone();
    ToldIs(sha, s1, x, c, c, 0, FIXED_LEN + 4, w1, d1, r);
    StoryIs(sha, s1.story, w1, d1, r, c, c, 0, FIXED_LEN + 4);
    TailIs(r, 0, FIXED_LEN + 4);
    WriteIs(sha, s1, x, c, c, Emit(sha, w, d, x, c, c).0, Emit(sha, w, d, x, c, c).1);
    GoesOnIff(sha, TORN_AT_MAGIC, s, rotation, id, now);
  }

  /** When a chain can go on. In every state a run can reach with no writer alive, the live file can be
      begun or resumed iff the crash tore no bytes, or tore bytes after a record and they do not hold the
      record magic again. */
  lemma GoesOnIff(sha: Sha, events: seq<Event>, s: Sys, rotation: Option<Policy>, id: Identity, now: real)
    requires s == Run(sha, events) && s.writer.None? && NoCollision(sha, HeaderSetOf(s.story.hist))
    requires PolicyAllowed(s.disk, rotation)
    ensures (|| Create(s.disk, s.story.live, id, rotation, now).Some?
             || Accepts(sha, s.disk, s.story.live, rotation, id, now))
      <==> (s.tail == [] || (s.story.hist != [] && !HasMagic(s.tail[1..])))
  {
    hide *;
    RunKeeps(sha, events);
    InvParts(sha, s);
    var t, d, live := s.story, s.disk, s.story.live;
    CreateIs(d, live, id, rotation, now);
    if t.hist == [] {
      NothingToName(sha, t, d, s.tail);
      BaseIsSegment();
      NothingResumes(sha, t, d, s.tail, live, rotation, id, now);
    } else {
      InvHistory(sha, s);
      NumbersKeepApart(sha, t.hist);
      AllowedFits(sha, t, d, s.tail, rotation);
      LiveScan(sha, t, d, s.tail);
      ContentIs(d, live);
      LiveResumes(sha, t, d, s.tail, rotation, id, now);
      AcceptsIs(sha, d, live, rotation, id, now);
    }
  }

  lemma BaseIsSegment()
    ensures IsSegment(Base)
  {
  }
}
