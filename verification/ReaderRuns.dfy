/** What the reader finds in the segments any run of the writer leaves. */
module ReaderRuns {
  import opened Bytes
  import opened Codec
  import opened Profile
  import opened Writer
  import opened WriterInv
  import opened WriterCut
  import opened WriterResume
  import opened WriterRuns
  import opened WriterLaws
  import Reader
  import ReaderSegments

  // ---------- who writes continuations ----------

  /** A record the reader takes for a continuation. */
  predicate IsContinuation(r: Rec) {
    && Decode(r.hb).Some? && Decode(r.hb).value.keyId == 0
    && SaysContinuation(Decode(r.hb).value.recordType, r.body)
  }

  predicate SaysContinuation(recordType: nat, body: Bytes) {
    && Reader.KindBearing(recordType) && body != [] && ParseTlvs(body).Some?
    && Reader.FirstNum(ParseTlvs(body).value, EVT_KIND) == Some(KIND_SEGMENT_CONTINUATION)
  }

  /** No caller hands the writer a record of that kind. */
  predicate OwnOnly(e: Event) {
    e.Write? || e.CrashInWrite? ==> !SaysContinuation(e.x.recordType, e.x.body)
  }

  lemma DecodesAsContinuation(sha: Sha, r: Rec)
    requires RecOk(r)
    ensures Reader.DecodeRecord(sha, r).kind == Some(KIND_SEGMENT_CONTINUATION) <==> IsContinuation(r)
  {
    hide ParseTlvs, Reader.FirstNum, Reader.FirstVal, U16, U64;
  }

  lemma StampSays(sha: Sha, w: WState, x: Draft, c: Clock)
    requires CanStamp(w, x, c)
    ensures IsContinuation(Stamp(sha, w, x, c)) <==> SaysContinuation(x.recordType, x.body)
  {
    DecodeEncoded(HeaderFor(sha, w, x, c));
    hide Encode, Decode, SaysContinuation;
  }

  // ---------- only openings are continuations ----------

  ghost predicate OnlyOpenings(t: Story) {
    forall i :: 0 <= i < |t.hist| && IsContinuation(t.hist[i]) ==> ReaderSegments.IsOpening(t.entries, i)
  }

  lemma OpeningStays(a: seq<Entry>, b: seq<Entry>, i: nat)
    requires a <= b && ReaderSegments.IsOpening(a, i)
    ensures ReaderSegments.IsOpening(b, i)
  {
    var k :| 0 <= k < |a| && ReaderSegments.Opening(a, k) == i;
    assert ReaderSegments.Opening(b, k) == i;
  }

  lemma LastOpening(entries: seq<Entry>)
    requires entries != [] && Start(entries) >= 0
    ensures ReaderSegments.IsOpening(entries, Start(entries))
  {
    assert ReaderSegments.Opening(entries, |entries| - 1) == Start(entries);
  }

  lemma OpeningsAfter(s: Sys, x: Draft, r: Rec, t': Story)
    requires s.writer.Some? && OnlyOpenings(s.story) && Adds(s, x, r, t') && !IsContinuation(r)
    ensures OnlyOpenings(t')
  {
    AddsParts(s, x, r, t');
    hide Adds, Made, IsContinuation, Start, ReaderSegments.IsOpening;
    var n := |s.story.hist|;
    if t' != s.story {
      forall i | 0 <= i < |t'.hist| && IsContinuation(t'.hist[i]) ensures ReaderSegments.IsOpening(t'.entries, i) {
        if i < n {
          assert t'.hist[i] == s.story.hist[i];
          OpeningStays(s.story.entries, t'.entries, i);
        } else {
          assert t'.hist[n] == r;
          LastOpening(t'.entries);
        }
      }
    }
  }

  lemma WriteOpens(sha: Sha, s: Sys, x: Draft, c1: Clock, c2: Clock, k: nat, n: nat)
    requires Inv(sha, s) && CanWrite(s, x, c1, c2) && OnlyOpenings(s.story) && !SaysContinuation(x.recordType, x.body)
    ensures OnlyOpenings(Told(sha, s, x, c1, c2, k, n).0)
  {
    hide *;
    CanWriteParts(s, x, c1, c2);
    var r, w1 := WriteAdds(sha, s, x, c1, c2, k, n);
    StampSays(sha, Started(s.writer.value), x, c1);
    OpeningsAfter(s, x, r, Told(sha, s, x, c1, c2, k, n).0);
  }

  lemma OpeningsStep(sha: Sha, s: Sys, e: Event)
    requires Inv(sha, s) && OnlyOpenings(s.story) && OwnOnly(e)
    ensures OnlyOpenings(Step(sha, s, e).story)
  {
    hide Inv, CanWrite, CanResume, Newest, Emit, Told, OpenExisting, CrashDisk, ApplyAll, NothingYet, OnlyOpenings,
      SaysContinuation;
    match e {
      case Write(x, c1, c2) => if CanWrite(s, x, c1, c2) { WriteOpens(sha, s, x, c1, c2, WHOLE, 0); }
      case CrashInWrite(x, c1, c2, k, n) => if CanWrite(s, x, c1, c2) { WriteOpens(sha, s, x, c1, c2, k, n); }
      case _ =>
    }
  }

  lemma {:induction false} RunOpenings(sha: Sha, events: seq<Event>)
    requires NoCollision(sha, HeaderSetOf(Run(sha, events).story.hist))
    requires forall i :: 0 <= i < |events| ==> OwnOnly(events[i])
    ensures OnlyOpenings(Run(sha, events).story)
    decreases |events|
  {
    hide Inv, Step, NoCollision, OnlyOpenings, OwnOnly;
    if events == [] {
      NothingOpens(sha);
    } else {
      var s, e := Run(sha, events[..|events| - 1]), events[|events| - 1];
      HistoryGrows(sha, s, e);
      FewerHeaders(sha, s.story.hist, Run(sha, events).story.hist);
      RunOpenings(sha, events[..|events| - 1]);
      RunKeeps(sha, events[..|events| - 1]);
      OpeningsStep(sha, s, e);
    }
  }

  lemma NothingOpens(sha: Sha)
    ensures OnlyOpenings(Run(sha, []).story)
  {
  }

  // ---------- the segments on disk ----------

  lemma ListedOpens(sha: Sha, t: Story, at: seq<nat>)
    requires RecsOk(t.hist) && OnlyOpenings(t) && ReaderSegments.ListsContinuations(sha, t.hist, at)
    ensures forall i :: i in at ==> ReaderSegments.IsOpening(t.entries, i)
  {
    hide IsContinuation, ReaderSegments.IsOpening, Reader.DecodeRecord;
    forall i | i in at ensures ReaderSegments.IsOpening(t.entries, i) {
      assert RecOk(t.hist[i]);
      DecodesAsContinuation(sha, t.hist[i]);
    }
  }

  /** Whatever a run did, when its callers left continuations to the writer and no segment was deleted:
      on the segments as they lie on disk, put back together, the reader's check has nothing to report,
      and there is one continuation for every cut. */
  lemma RunSegmentsAreSound(sha: Sha, events: seq<Event>, s: Sys, rs: seq<Rec>)
    requires s == Run(sha, events) && s.story.hist != [] && NoCollision(sha, HeaderSetOf(s.story.hist))
    requires forall i :: 0 <= i < |events| ==> OwnOnly(events[i])
    requires forall i :: 0 <= i < |s.story.entries| ==> s.story.entries[i].file in s.disk.files
    requires rs == Assembled(s.disk, s.story.entries, |s.story.entries|) + SegmentRecs(s.disk, s.story.live)
    ensures RecsOk(rs) && ReaderSegments.FullChain(rs)
    ensures forall at: seq<nat> :: ReaderSegments.ListsContinuations(sha, rs, at) ==> (
      && |at| == |s.story.entries| && (forall k :: 0 <= k < |at| ==> at[k] < |rs|)
      && ReaderSegments.Sound(sha, rs, at))
  {
    hide *;
    RunKeeps(sha, events);
    RunOpenings(sha, events);
    InvHistory(sha, s);
    InvParts(sha, s);
    HistRecsOk(sha, s.story.hist, 0);
    if s.writer.Some? {
      GoodParts(sha, s.story, s.writer.value, s.disk);
      CrashedMade(sha, s.story, s.disk);
    }
    SegmentsAreHistory(sha, s.story, s.disk, if s.writer.Some? then [] else s.tail);
    FromZero(sha, s.story.hist);
    forall at: seq<nat> | ReaderSegments.ListsContinuations(sha, rs, at)
      ensures |at| == |s.story.entries| && (forall k :: 0 <= k < |at| ==> at[k] < |rs|)
      ensures ReaderSegments.Sound(sha, rs, at)
    {
      ListedOpens(sha, s.story, at);
      ReaderSegments.OwnSegmentsAreSound(sha, s.story, at);
    }
  }

  // ---------- after earlier segments were deleted ----------

  /** The records of the listed segments from the `j`-th up to the `n`-th, as a reader walks them. */
  function AssembledFrom(d: Disk, entries: seq<Entry>, j: nat, n: nat): seq<Rec>
    requires j <= n <= |entries|
  {
    if n == j then [] else AssembledFrom(d, entries, j, n - 1) + SegmentRecs(d, entries[n - 1].file)
  }

  lemma {:induction false} ListedFrom(sha: Sha, t: Story, d: Disk, tail: Bytes, j: nat, n: nat)
    requires Crashed(sha, t, d, tail) && t.hist != [] && j <= n <= |t.entries|
    requires forall i :: j <= i < n ==> t.entries[i].file in d.files
    ensures 0 <= StartOf(t.entries, j) <= StartOf(t.entries, n) <= |t.hist|
    ensures AssembledFrom(d, t.entries, j, n) == t.hist[StartOf(t.entries, j)..StartOf(t.entries, n)]
    decreases n
  {
    hide *;
    FromIs(d, t.entries, j, n);
    if n == j {
      StartBounds(sha, t, d, tail, j);
    } else {
      ListedFrom(sha, t, d, tail, j, n - 1);
      ClosedSpan(sha, t, d, tail, n - 1);
      var a, s, e := StartOf(t.entries, j), StartOf(t.entries, n - 1), t.entries[n - 1].lastSeq + 1;
      ClosedScan(sha, t, d, tail, n - 1, d.files[t.entries[n - 1].file], s, e);
      ScanIs(d, t.entries[n - 1].file);
      assert t.hist[a..s] + t.hist[s..e] == t.hist[a..e];
    }
  }

  lemma FromIs(d: Disk, entries: seq<Entry>, j: nat, n: nat)
    requires j <= n <= |entries|
    ensures AssembledFrom(d, entries, j, n) ==
      if n == j then [] else AssembledFrom(d, entries, j, n - 1) + SegmentRecs(d, entries[n - 1].file)
  {
  }

  lemma StartBounds(sha: Sha, t: Story, d: Disk, tail: Bytes, j: nat)
    requires Crashed(sha, t, d, tail) && t.hist != [] && j <= |t.entries|
    ensures 0 <= StartOf(t.entries, j) < |t.hist| && (j > 0 ==> StartOf(t.entries, j) > 0)
  {
    hide *;
    LiveHolding(sha, t, d, tail);
    SettledOrHalf(sha, t, d, tail);
    StartsBefore(sha, t, j);
    if j > 0 {
      ClosedSpan(sha, t, d, tail, j - 1);
    } else {
      FirstStart(t.entries);
    }
  }

  lemma FirstStart(entries: seq<Entry>)
    ensures StartOf(entries, 0) == 0
  {
  }

  /** A continuation that says of the whole history, deleted or not, what is true of it. */
  ghost predicate Attests(sha: Sha, hist: seq<Rec>, v: Option<ReaderSegments.ContinuationView>) {
    && v.Some? && v.value.seqNo <= |hist|
    && v.value.predecessor == PrevHash(sha, hist, v.value.seqNo)
    && v.value.priorRoot == RootTo(sha, hist, v.value.seqNo)
  }

  /** What record `i` of the surviving ones declares, if it is a continuation. */
  lemma SurvivorView(sha: Sha, t: Story, a: nat, rs: seq<Rec>, i: nat) returns (m: nat)
    requires StoryOk(sha, t) && OnlyOpenings(t) && RecsOk(t.hist) && RecsOk(rs)
    requires a <= |t.hist| && rs == t.hist[a..] && i < |rs|
    requires Reader.DecodeRecord(sha, rs[i]).kind == Some(KIND_SEGMENT_CONTINUATION)
    ensures m < |t.entries| && ReaderSegments.Opening(t.entries, m) == a + i
    ensures Attests(sha, t.hist, ReaderSegments.ViewAt(sha, rs, i)) && ReaderSegments.OwnPredecessor(sha, rs, i)
    ensures ReaderSegments.ViewAt(sha, rs, i).value.index == m + 1
  {
    hide *;
    StoryParts(sha, t);
    AllOk(rs, i);
    SameRecord(sha, t.hist, a, rs, i);
    DecodesAsContinuation(sha, rs[i]);
    OnlyAt(t, a + i);
    m := ReaderSegments.OpeningAt(t.entries, a + i);
    ReaderSegments.OpeningOpens(sha, t, m);
    var retention := ReaderSegments.OpeningView(sha, t.hist, a + i, m + 1);
    AttestsMade(sha, t.hist, a + i, m + 1, retention);
  }

  lemma AttestsMade(sha: Sha, hist: seq<Rec>, o: nat, idx: nat, retention: nat)
    requires o <= |hist|
    ensures var v := ReaderSegments.ContinuationView(o, idx, PrevHash(sha, hist, o), retention, RootTo(sha, hist, o));
      Attests(sha, hist, Some(v))
  {
  }

  lemma OnlyAt(t: Story, i: nat)
    requires OnlyOpenings(t) && i < |t.hist| && IsContinuation(t.hist[i])
    ensures ReaderSegments.IsOpening(t.entries, i)
  {
    hide IsContinuation, ReaderSegments.IsOpening;
  }

  lemma SameRecord(sha: Sha, hist: seq<Rec>, a: nat, rs: seq<Rec>, i: nat)
    requires RecsOk(hist) && RecsOk(rs) && a <= |hist| && rs == hist[a..] && i < |rs|
    ensures rs[i] == hist[a + i] && ReaderSegments.ViewAt(sha, rs, i) == ReaderSegments.ViewAt(sha, hist, a + i)
    ensures ReaderSegments.OwnPredecessor(sha, rs, i) <==> ReaderSegments.OwnPredecessor(sha, hist, a + i)
  {
    hide Reader.DecodeRecord, ReaderSegments.DecodeContinuation;
  }

  /** One continuation after another, in the surviving segments. */
  lemma SurvivorsInOrder(sha: Sha, t: Story, a: nat, rs: seq<Rec>, i: nat, k: nat)
    requires StoryOk(sha, t) && OnlyOpenings(t) && RecsOk(t.hist) && RecsOk(rs)
    requires a <= |t.hist| && rs == t.hist[a..] && i < k < |rs| && !ReaderSegments.FullChain(rs)
    requires Reader.DecodeRecord(sha, rs[i]).kind == Some(KIND_SEGMENT_CONTINUATION)
    requires Reader.DecodeRecord(sha, rs[k]).kind == Some(KIND_SEGMENT_CONTINUATION)
    ensures ReaderSegments.InOrder(sha, rs, i, k)
  {
    hide *;
    var m := SurvivorView(sha, t, a, rs, i);
    var n := SurvivorView(sha, t, a, rs, k);
    AttestsSome(sha, t.hist, ReaderSegments.ViewAt(sha, rs, i));
    AttestsSome(sha, t.hist, ReaderSegments.ViewAt(sha, rs, k));
    if n < m {
      ReaderSegments.OpeningsIncrease(sha, t, n, m);
    }
    OrderMade(sha, rs, i, k);
  }

  lemma AttestsSome(sha: Sha, hist: seq<Rec>, v: Option<ReaderSegments.ContinuationView>)
    requires Attests(sha, hist, v)
    ensures v.Some?
  {
  }

  lemma OrderMade(sha: Sha, rs: seq<Rec>, i: nat, k: nat)
    requires RecsOk(rs) && i < |rs| && k < |rs| && !ReaderSegments.FullChain(rs)
    requires ReaderSegments.ViewAt(sha, rs, i).Some? && ReaderSegments.ViewAt(sha, rs, k).Some?
    requires ReaderSegments.ViewAt(sha, rs, i).value.index < ReaderSegments.ViewAt(sha, rs, k).value.index
    ensures ReaderSegments.InOrder(sha, rs, i, k)
  {
    hide ReaderSegments.ViewAt, ReaderSegments.FullChain;
  }

  lemma FromZero(sha: Sha, hist: seq<Rec>)
    requires HistOk(sha, hist) && hist != []
    ensures RecsOk(hist) && ReaderSegments.FullChain(hist)
  {
    HistRecsOk(sha, hist, 0);
    assert hist[0..] == hist;
    RecFacts(sha, hist, 0);
    GenesisType(sha, hist);
  }

  lemma GenesisType(sha: Sha, hist: seq<Rec>)
    requires HistOk(sha, hist) && hist != []
    ensures RecOk(hist[0]) && Decode(hist[0].hb).Some? && U16(hist[0].hb, 8) == RT_GENESIS
  {
    assert RecAt(sha, hist[0], 0, PrevHash(sha, hist, 0));
    hide UnLe, ParseTlvs;
  }

  lemma NotFromZero(sha: Sha, hist: seq<Rec>, a: nat, rs: seq<Rec>)
    requires HistOk(sha, hist) && RecsOk(rs) && 0 < a < |hist| && rs == hist[a..]
    ensures !ReaderSegments.FullChain(rs)
  {
    RecFacts(sha, hist, a);
    assert rs[0] == hist[a];
  }

  lemma ListedKind(sha: Sha, rs: seq<Rec>, at: seq<nat>, k: nat)
    requires RecsOk(rs) && ReaderSegments.ListsContinuations(sha, rs, at) && k < |at|
    ensures at[k] < |rs| && Reader.DecodeRecord(sha, rs[at[k]]).kind == Some(KIND_SEGMENT_CONTINUATION)
    ensures k > 0 ==> at[k - 1] < at[k]
  {
    hide Reader.DecodeRecord;
    assert at[k] in at;
  }

  lemma PartSound(sha: Sha, rs: seq<Rec>, at: seq<nat>)
    requires RecsOk(rs) && !ReaderSegments.FullChain(rs) && forall k :: 0 <= k < |at| ==> at[k] < |rs|
    requires forall k :: 0 <= k < |at| ==> ReaderSegments.OwnPredecessor(sha, rs, at[k])
    requires forall k :: 0 < k < |at| ==> ReaderSegments.InOrder(sha, rs, at[k - 1], at[k])
    ensures ReaderSegments.Sound(sha, rs, at)
  {
    hide ReaderSegments.OwnPredecessor, ReaderSegments.InOrder, ReaderSegments.FullChain;
  }

  lemma SurvivorsSound(sha: Sha, t: Story, a: nat, rs: seq<Rec>, at: seq<nat>)
    requires StoryOk(sha, t) && OnlyOpenings(t) && RecsOk(t.hist) && RecsOk(rs)
    requires 0 < a < |t.hist| && rs == t.hist[a..] && ReaderSegments.ListsContinuations(sha, rs, at)
    ensures forall k :: 0 <= k < |at| ==> at[k] < |rs|
    ensures ReaderSegments.Sound(sha, rs, at)
  {
    hide *;
    StoryParts(sha, t);
    NotFromZero(sha, t.hist, a, rs);
    forall k | 0 <= k < |at| ensures at[k] < |rs| && ReaderSegments.OwnPredecessor(sha, rs, at[k]) {
      ListedKind(sha, rs, at, k);
      var m := SurvivorView(sha, t, a, rs, at[k]);
    }
    forall k | 0 < k < |at| ensures ReaderSegments.InOrder(sha, rs, at[k - 1], at[k]) {
      ListedKind(sha, rs, at, k - 1);
      ListedKind(sha, rs, at, k);
      SurvivorsInOrder(sha, t, a, rs, at[k - 1], at[k]);
    }
    PartSound(sha, rs, at);
  }

  /** What a reader walks of the segments from the `j`-th on is the end of the history. */
  lemma SurvivorsAre(sha: Sha, s: Sys, j: nat, rs: seq<Rec>)
    requires Inv(sha, s) && s.story.hist != [] && j <= |s.story.entries|
    requires forall i :: j <= i < |s.story.entries| ==> s.story.entries[i].file in s.disk.files
    requires rs == AssembledFrom(s.disk, s.story.entries, j, |s.story.entries|) + SegmentRecs(s.disk, s.story.live)
    ensures 0 <= StartOf(s.story.entries, j) < |s.story.hist| && rs == s.story.hist[StartOf(s.story.entries, j)..]
    ensures RecsOk(rs) && (StartOf(s.story.entries, j) == 0 <==> j == 0)
    ensures StoryOk(sha, s.story) && HistOk(sha, s.story.hist) && RecsOk(s.story.hist)
  {
    hide *;
    InvHistory(sha, s);
    InvParts(sha, s);
    var t, d, tail := s.story, s.disk, if s.writer.Some? then [] else s.tail;
    if s.writer.Some? {
      GoodParts(sha, t, s.writer.value, d);
      CrashedMade(sha, t, d);
    }
    ListedFrom(sha, t, d, tail, j, |t.entries|);
    StartBounds(sha, t, d, tail, j);
    FirstStart(t.entries);
    LiveScan(sha, t, d, tail);
    StartIs(t.entries);
    ScanIs(d, t.live);
    var a, e := StartOf(t.entries, j), Start(t.entries);
    assert t.hist[a..e] + t.hist[e..] == t.hist[a..];
    HistRecsOk(sha, t.hist, a);
    HistRecsOk(sha, t.hist, 0);
    assert t.hist[0..] == t.hist;
  }

  /** The same with earlier segments gone: on the segments from the `j`-th on there is nothing to report,
      and every continuation still names its predecessor's head and the root over all records before it,
      the deleted ones included. */
  lemma SurvivorsAreSound(sha: Sha, events: seq<Event>, s: Sys, j: nat, rs: seq<Rec>)
    requires s == Run(sha, events) && s.story.hist != [] && NoCollision(sha, HeaderSetOf(s.story.hist))
    requires forall i :: 0 <= i < |events| ==> OwnOnly(events[i])
    requires j <= |s.story.entries|
    requires forall i :: j <= i < |s.story.entries| ==> s.story.entries[i].file in s.disk.files
    requires rs == AssembledFrom(s.disk, s.story.entries, j, |s.story.entries|) + SegmentRecs(s.disk, s.story.live)
    ensures 0 <= StartOf(s.story.entries, j) < |s.story.hist| && rs == s.story.hist[StartOf(s.story.entries, j)..]
    ensures RecsOk(rs) && (ReaderSegments.FullChain(rs) <==> j == 0)
    ensures forall at: seq<nat> :: ReaderSegments.ListsContinuations(sha, rs, at) ==> (
      (forall k :: 0 <= k < |at| ==> at[k] < |rs|) && ReaderSegments.Sound(sha, rs, at))
    ensures forall i :: 0 <= i < |rs| && Reader.DecodeRecord(sha, rs[i]).kind == Some(KIND_SEGMENT_CONTINUATION) ==>
      Attests(sha, s.story.hist, ReaderSegments.ViewAt(sha, rs, i))
  {
    hide *;
    RunKeeps(sha, events);
    RunOpenings(sha, events);
    SurvivorsAre(sha, s, j, rs);
    var t, a := s.story, StartOf(s.story.entries, j);
    SurvivorsFull(sha, t.hist, a, rs);
    forall at: seq<nat> | ReaderSegments.ListsContinuations(sha, rs, at)
      ensures (forall k :: 0 <= k < |at| ==> at[k] < |rs|) && ReaderSegments.Sound(sha, rs, at)
    {
      if a == 0 {
        assert rs == t.hist;
        ListedOpens(sha, t, at);
        ReaderSegments.OwnSegmentsAreSound(sha, t, at);
      } else {
        SurvivorsSound(sha, t, a, rs, at);
      }
    }
    forall i | 0 <= i < |rs| ensures RecOk(rs[i]) {
      AllOk(rs, i);
    }
    forall i | 0 <= i < |rs| && Reader.DecodeRecord(sha, rs[i]).kind == Some(KIND_SEGMENT_CONTINUATION)
      ensures Attests(sha, t.hist, ReaderSegments.ViewAt(sha, rs, i))
    {
      var m := SurvivorView(sha, t, a, rs, i);
    }
  }

  lemma SurvivorsFull(sha: Sha, hist: seq<Rec>, a: nat, rs: seq<Rec>)
    requires HistOk(sha, hist) && RecsOk(rs) && a < |hist| && rs == hist[a..]
    ensures ReaderSegments.FullChain(rs) <==> a == 0
  {
    hide *;
    if a == 0 {
      assert rs == hist;
      FromZero(sha, hist);
    } else {
      NotFromZero(sha, hist, a, rs);
    }
  }
}
