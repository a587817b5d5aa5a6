/** What the records of a run carry: header field by header field, and in each continuation. */
module WriterRecords {
  import opened Bytes
  import opened Codec
  import opened Profile
  import opened Frontier
  import opened Writer
  import opened WriterInv
  import opened WriterCut
  import opened WriterResume
  import opened WriterRuns
  import opened WriterLaws
  import opened WriterPolicy
  import Merkle
  import Reader
  import ReaderSegments

  /** Record `i` of the history is what `x` asks for, stamped with this identity and these clocks, numbered `i`
      and linked to the record before it. */
  ghost predicate Carries(sha: Sha, hist: seq<Rec>, i: nat, id: Identity, x: Draft, c: Clock) {
    && i < |hist| && Decode(hist[i].hb).Some? && hist[i].body == x.body
    && var h := Decode(hist[i].hb).value;
    && h.recordType == x.recordType && h.seqNo == i && h.bootId == id.bootId
    && h.prevHash == (if i == 0 then ZERO32 else sha(hist[i - 1].hb))
    && h.tier == id.tier && h.timeTrust == id.timeTrust && h.spanId == x.spanId && h.parentSpanId == x.parentSpanId
    && h.monotonicNs == c.monotonicNs && h.wallClockNs == (if id.timeTrust == TIME_UNKNOWN then 0 else c.wallNs)
    && h.keyId == 0 && h.bodyLen == |x.body| && h.bodyDigest == (if |x.body| == 0 then ZERO32 else sha(x.body))
    && h.tlvs == x.tlvs
  }

  lemma StampCarries(sha: Sha, hist: seq<Rec>, w: WState, x: Draft, c: Clock, hist': seq<Rec>)
    requires CanStamp(w, x, c) && w.seqNo == |hist| && w.head == PrevHash(sha, hist, |hist|)
    requires hist + [Stamp(sha, w, x, c)] <= hist'
    ensures Carries(sha, hist', |hist|, w.id, x, c)
  {
    DecodeEncoded(HeaderFor(sha, w, x, c));
    assert hist'[|hist|] == Stamp(sha, w, x, c);
    assert hist != [] ==> hist'[|hist| - 1] == hist[|hist| - 1];
    hide Encode, Decode;
  }

  /** What every write leaves in the history, over any run. */
  lemma WrittenCarries(sha: Sha, events: seq<Event>)
    requires events != [] && WroteAt(sha, events, |events| - 1)
    requires NoCollision(sha, HeaderSetOf(Run(sha, events).story.hist))
    ensures var (before, e) := (events[..|events| - 1], events[|events| - 1]);
      && e.Write?
      && Carries(sha, Run(sha, events).story.hist, |Run(sha, before).story.hist|, Watched(sha, before).id, e.x, e.c1)
  {
    hide *;
    var before, e := events[..|events| - 1], events[|events| - 1];
    var s, s' := Run(sha, before), Run(sha, events);
    RunBefore(sha, events);
    WroteIs(sha, events);
    CanWriteParts(s, e.x, e.c1, e.c2);
    InvParts(sha, s);
    GoodParts(sha, s.story, s.writer.value, s.disk);
    WriterFacts(sha, s.story, s.writer.value);
    RunStep(sha, events);
    WriteWriter(sha, s, e.x, e.c1, e.c2);
    WholeIsMore();
    RunSpans(sha, before);
    var r, w1 := WriteAdds(sha, s, e.x, e.c1, e.c2, WHOLE, 0);
    SpansAfter(s, e.x, r, s'.story);
    StartedSame(sha, s.story, s.writer.value);
    WatchParts(sha, before);
    StampCarries(sha, s.story.hist, Started(s.writer.value), e.x, e.c1, s'.story.hist);
  }

  lemma StartedSame(sha: Sha, t: Story, w: WState)
    requires WriterOk(sha, t.hist, t.entries, t.live, w)
    ensures Started(w).seqNo == |t.hist| && Started(w).head == PrevHash(sha, t.hist, |t.hist|) && Started(w).id == w.id
  {
    hide FrontOk, Container;
  }

  lemma RunBefore(sha: Sha, events: seq<Event>)
    requires events != [] && NoCollision(sha, HeaderSetOf(Run(sha, events).story.hist))
    ensures Inv(sha, Run(sha, events[..|events| - 1])) && WatchInv(sha, events[..|events| - 1])
    ensures NoCollision(sha, HeaderSetOf(Run(sha, events[..|events| - 1]).story.hist))
  {
    hide *;
    var before := events[..|events| - 1];
    HistoryFrom(sha, events, |events| - 1);
    FewerHeaders(sha, Run(sha, before).story.hist, Run(sha, events).story.hist);
    RunKeeps(sha, before);
    RunWatched(sha, before);
  }

  // ---------- the continuation of a cut ----------

  /** The record that opens a segment, and the writer that stamped it. */
  lemma CutAdds(sha: Sha, s: Sys, x: Draft, c1: Clock, c2: Clock) returns (t: Story, w: WState)
    requires Inv(sha, s) && CanWrite(s, x, c1, c2)
    requires |Step(sha, s, Write(x, c1, c2)).story.entries| > |s.story.entries|
    ensures t.entries == s.story.entries && |t.hist| == |s.story.hist| + 1 && t.hist != []
    ensures WriterOk(sha, t.hist, t.entries, t.live, w) && w.deferred.None? && Room(w) && ClockOk(c2)
    ensures w.rotation.Some? && w.rotation == s.writer.value.rotation && w.id == s.writer.value.id
    ensures IdentityOk(w.id) && CutRecord(sha, w, c2).Some?
    ensures var t' := Step(sha, s, Write(x, c1, c2)).story;
      t'.hist == t.hist + [CutRecord(sha, w, c2).value] && |t'.entries| == |t.entries| + 1
  {
    hide *;
    InvParts(sha, s);
    CanWriteParts(s, x, c1, c2);
    var w0, d := s.writer.value, s.disk;
    GoodStamp(w0, x, c1, c2);
    BeforeFits(sha, w0, d, x, c1, c2);
    EmitStep(sha, s.story, w0, d, x, c1, c2);
    BeforeId(sha, w0, d, x, c1);
    var (w1, d1, r) := Before(sha, w0, d, x, c1);
    t := Wrote(s.story, r);
    WroteParts(s.story, r);
    RotateKeeps(sha, t, w1, d1, c1, c2);
    RotatedIs(sha, t, w1, d1, c1, c2);
    ToldIs(sha, s, x, c1, c2, WHOLE, 0, w1, d1, r);
    StoryIs(sha, s.story, w1, d1, r, c1, c2, WHOLE, 0);
    WriteWriter(sha, s, x, c1, c2);
    ReadyIsGood(sha, t, w1, d1);
    w := Ready(sha, w1, d1);
    GoodParts(sha, t, w, d1);
    CutsNeedPolicy(w1, c1.monotonicS);
    CutRecordDeclares(sha, t, w, c2);
    AdvancedIs(sha, t, CutRecord(sha, w, c2).value, Seg(Base, NextIndex(w1, d1)));
  }

  /** What the policy of the writer puts into a continuation. */
  function DeclaredRetention(p: Policy): nat { if p.retentionS.None? then 0 else p.retentionS.value }
  function DeclaredText(p: Policy): Option<Bytes> { if |p.describe| == 0 then None else Some(p.describe) }

  /** Record `n` is an event of the engine that declares, as segment `idx`, the head and the root of everything
      before it and the retention and thresholds of the policy. */
  ghost predicate Continues(sha: Sha, hist: seq<Rec>, n: nat, idx: nat, id: Identity, p: Policy, c: Clock) {
    && 0 < n < |hist| && RecsOk(hist)
    && (exists x: Draft ::
          && Carries(sha, hist, n, id, x, c) && x.recordType == RT_EVENT && x.spanId == ZERO16 == x.parentSpanId
          && x.tlvs == [Tlv(TLV_ORIGIN_ROLE, ROLE_NATIVE)])
    && ReaderSegments.ViewAt(sha, hist, n) ==
         Some(ReaderSegments.ContinuationView(n, idx, sha(hist[n - 1].hb), DeclaredRetention(p),
                                              Merkle.Root(sha, RecHashes(sha, hist[..n]))))
    && Reader.DecodeRecord(sha, hist[n]).detail == DeclaredText(p)
  }

  lemma DraftMeans(sha: Sha, w: WState, root: Digest)
    requires w.rotation.Some? && w.segOrdinal.Some? && w.frontier.Some? && PeaksRoot(sha, w.frontier.value) == root
    ensures var x := ContinuationDraft(sha, w);
      && x.Some? && x.value.recordType == RT_EVENT && x.value.spanId == ZERO16 == x.value.parentSpanId
      && x.value.tlvs == [Tlv(TLV_ORIGIN_ROLE, ROLE_NATIVE)]
      && x.value.body == EncodeTlvs(ContinuationTlvs(w.rotation.value.describe, w.head, w.segOrdinal.value + 1,
                                                     DeclaredRetention(w.rotation.value), root))
  {
    hide PeaksRoot, EncodeTlvs, ContinuationTlvs;
  }

  lemma RetentionReads(r: nat)
    requires r < 0x1_0000_0000_0000_0000
    ensures U64(Le(r, 8), 0) == r
  {
    PowerWidths();
    UnLeLe(r, 8);
    assert At(Le(r, 8), 0, 8) == Le(r, 8);
  }

  /** The detail is the first EVT_DETAIL there is. */
  lemma DetailReads(text: Bytes, head: Digest, index: nat, retention: nat, root: Digest)
    requires |text| <= DETAIL_CLIP
    ensures Reader.FirstVal(ContinuationTlvs(text, head, index, retention, root), EVT_DETAIL, 0, Reader.ANY) ==
      if |text| == 0 then None else Some(text)
  {
    var ts := ContinuationTlvs(text, head, index, retention, root);
    Reader.FirstValIs(ts, EVT_DETAIL, 0, Reader.ANY);
    var v := if |text| == 0 then None else Some(text);
    if |text| != 0 {
      assert Reader.Fitting(ts[1], EVT_DETAIL, 0, Reader.ANY) && !Reader.Fitting(ts[0], EVT_DETAIL, 0, Reader.ANY);
    }
    assert Reader.IsFirst(ts, EVT_DETAIL, 0, Reader.ANY, v);
    Reader.FirstIsOne(ts, EVT_DETAIL, 0, Reader.ANY, v,
                      Reader.FirstVal(ts, EVT_DETAIL, 0, Reader.ANY));
  }

  lemma DetailDecodes(sha: Sha, r: Rec, ts: seq<Tlv>)
    requires RecOk(r) && Decode(r.hb).Some? && Decode(r.hb).value.recordType == RT_EVENT
    requires Decode(r.hb).value.keyId == 0 && r.body != [] && ParseTlvs(r.body) == Some(ts)
    ensures Reader.DecodeRecord(sha, r).detail == Reader.FirstVal(ts, EVT_DETAIL, 0, Reader.ANY)
  {
    hide Reader.FirstVal, Decode, ParseTlvs, Reader.FirstNum;
  }

  lemma PolicyParts(p: Policy)
    requires PolicyOk(p)
    ensures DeclaredRetention(p) < 0x1_0000_0000_0000_0000 && |p.describe| <= DETAIL_CLIP
  {
  }

  /** The record the cut's writer stamps, read back. */
  lemma ContinuationSays(sha: Sha, t: Story, w: WState, c: Clock, hist: seq<Rec>)
    requires WriterOk(sha, t.hist, t.entries, t.live, w) && w.deferred.None? && w.rotation.Some?
    requires ClockOk(c) && Room(w) && t.hist != [] && HistOk(sha, hist)
    requires IdentityOk(w.id) && CutRecord(sha, w, c).Some? && hist == t.hist + [CutRecord(sha, w, c).value]
    ensures Continues(sha, hist, |t.hist|, |t.entries| + 1, w.id, w.rotation.value, c)
  {
    hide *;
    var n, p, idx := |t.hist|, w.rotation.value, |t.entries| + 1;
    WriterFacts(sha, t, w);
    FrontierRoot(sha, t.hist, n);
    var root := RootTo(sha, t.hist, n);
    DraftMeans(sha, w, root);
    CutRecordIs(sha, w, c);
    var x := ContinuationDraft(sha, w).value;
    StampCarries(sha, t.hist, w, x, c, hist);
    HistRecsOk(sha, hist, 0);
    assert hist[0..] == hist;
    PolicyParts(p);
    PolicyOf(w);
    RoomForIndex(w);
    HeadAt(sha, t.hist, hist);
    ContinuationReadsBack(sha, hist, n, idx, p, x, w.id, c, w.head, root);
    ContinuesMade(sha, hist, n, idx, w.id, p, c, x);
  }

  lemma PolicyOf(w: WState)
    requires Room(w) && w.rotation.Some?
    ensures PolicyOk(w.rotation.value)
  {
  }

  lemma HeadAt(sha: Sha, hist: seq<Rec>, hist': seq<Rec>)
    requires hist != [] && hist <= hist'
    ensures PrevHash(sha, hist, |hist|) == sha(hist'[|hist| - 1].hb)
    ensures RootTo(sha, hist, |hist|) == Merkle.Root(sha, RecHashes(sha, hist'[..|hist|]))
  {
    assert hist[..|hist|] == hist == hist'[..|hist|];
    hide RecHashes;
  }

  lemma ContinuationReadsBack(sha: Sha, hist: seq<Rec>, n: nat, idx: nat, p: Policy, x: Draft, id: Identity, c: Clock,
                              head: Digest, root: Digest)
    requires RecsOk(hist) && 0 < n < |hist| && idx < 0x1_0000_0000 && |p.describe| <= DETAIL_CLIP
    requires DeclaredRetention(p) < 0x1_0000_0000_0000_0000
    requires Carries(sha, hist, n, id, x, c) && x.recordType == RT_EVENT && head == sha(hist[n - 1].hb)
    requires x.body == EncodeTlvs(ContinuationTlvs(p.describe, head, idx, DeclaredRetention(p), root))
    ensures ReaderSegments.ViewAt(sha, hist, n) ==
      Some(ReaderSegments.ContinuationView(n, idx, head, DeclaredRetention(p), root))
    ensures Reader.DecodeRecord(sha, hist[n]).detail == DeclaredText(p)
  {
    hide *;
    var text, r := p.describe, DeclaredRetention(p);
    var ts := ContinuationTlvs(text, head, idx, r, root);
    CarriesParts(sha, hist, n, id, x, c);
    AllOk(hist, n);
    ContinuationParses(text, head, idx, r, root);
    ReaderSegments.ContinuationReads(text, head, idx, r, root);
    ReaderSegments.DeclaredDecodes(sha, hist, n, idx, text, r, head, root);
    RetentionReads(r);
    DetailReads(text, head, idx, r, root);
    DetailDecodes(sha, hist[n], ts);
    TextIs(p);
  }

  lemma TextIs(p: Policy)
    ensures DeclaredText(p) == if |p.describe| == 0 then None else Some(p.describe)
  {
  }

  lemma CarriesParts(sha: Sha, hist: seq<Rec>, i: nat, id: Identity, x: Draft, c: Clock)
    requires Carries(sha, hist, i, id, x, c)
    ensures i < |hist| && Decode(hist[i].hb).Some? && hist[i].body == x.body
    ensures var h := Decode(hist[i].hb).value;
      && h.recordType == x.recordType && h.seqNo == i && h.keyId == 0
      && (i > 0 ==> h.prevHash == sha(hist[i - 1].hb))
  {
    hide Decode;
  }

  lemma ContinuesMade(sha: Sha, hist: seq<Rec>, n: nat, idx: nat, id: Identity, p: Policy, c: Clock, x: Draft)
    requires 0 < n < |hist| && RecsOk(hist)
    requires Carries(sha, hist, n, id, x, c) && x.recordType == RT_EVENT && x.spanId == ZERO16 == x.parentSpanId
    requires x.tlvs == [Tlv(TLV_ORIGIN_ROLE, ROLE_NATIVE)]
    requires ReaderSegments.ViewAt(sha, hist, n) ==
      Some(ReaderSegments.ContinuationView(n, idx, sha(hist[n - 1].hb), DeclaredRetention(p),
                                           Merkle.Root(sha, RecHashes(sha, hist[..n]))))
    requires Reader.DecodeRecord(sha, hist[n]).detail == DeclaredText(p)
    ensures Continues(sha, hist, n, idx, id, p, c)
  {
    hide Carries, RecsOk, ReaderSegments.ViewAt, Reader.DecodeRecord, RecHashes, Merkle.Root;
  }

  /** Whenever a write closes the live segment, the record after it opens the next one and declares all of that,
      over any run. */
  lemma CutContinues(sha: Sha, events: seq<Event>)
    requires events != [] && WroteAt(sha, events, |events| - 1) && Closed(sha, events)
    requires NoCollision(sha, HeaderSetOf(Run(sha, events).story.hist))
    ensures var (before, e) := (events[..|events| - 1], events[|events| - 1]);
      var (t, t', a) := (Run(sha, before).story, Run(sha, events).story, Watched(sha, before));
      && e.Write? && a.policy.Some? && |t'.hist| == |t.hist| + 2
      && Continues(sha, t'.hist, |t.hist| + 1, |t'.entries|, a.id, a.policy.value, e.c2)
  {
    hide *;
    var before, e := events[..|events| - 1], events[|events| - 1];
    var s := Run(sha, before);
    RunBefore(sha, events);
    WroteIs(sha, events);
    RunStep(sha, events);
    ClosedIs(sha, events);
    CanWriteParts(s, e.x, e.c1, e.c2);
    WatchParts(sha, before);
    var t, w := CutAdds(sha, s, e.x, e.c1, e.c2);
    RunKeeps(sha, events);
    InvHistory(sha, Run(sha, events));
    ContinuationSays(sha, t, w, e.c2, Run(sha, events).story.hist);
  }
}
