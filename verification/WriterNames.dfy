/** How the segments of a run are named, and which records a writer refuses. */
module WriterNames {
  import opened Bytes
  import opened Codec
  import opened Frontier
  import opened Writer
  import opened WriterInv
  import opened WriterCut
  import opened WriterResume
  import opened WriterRuns
  import opened WriterLaws

  // ---------- names ----------

  /** The name of segment `i` of a chain. */
  function SegmentName(i: nat): Name { if i == 0 then Base else Seg(Base, i) }

  /** Every segment has the name of its place. */
  ghost predicate Named(t: Story) {
    && t.live == SegmentName(|t.entries|)
    && forall i :: 0 <= i < |t.entries| ==> t.entries[i].file == SegmentName(i)
  }

  ghost predicate NameInv(s: Sys) {
    Named(s.story) && (s.writer.Some? ==> s.writer.value.segIndex <= |s.story.entries|)
  }

  lemma {:induction false} UsedInPlace(entries: seq<Entry>, m: nat)
    requires |entries| <= m && forall i :: 0 <= i < |entries| ==> entries[i].file == SegmentName(i)
    ensures forall k :: 0 <= k < |UsedIn(Base, entries)| ==> UsedIn(Base, entries)[k] <= m
    decreases |entries|
  {
    if entries != [] {
      UsedInPlace(entries[..|entries| - 1], m);
    }
  }

  lemma UsedInOrder(w: WState, t: Story)
    requires Named(t) && w.base == Base && w.path == t.live && w.entries == t.entries
    requires w.segOrdinal == Some(|t.entries|) && w.segIndex <= |t.entries|
    ensures Max(Used(w)) == |t.entries|
  {
    var m := |t.entries|;
    UsedInPlace(t.entries, m);
    var a, b, c := [w.segIndex] + [m], UsedBy(w.base, w.path), UsedIn(w.base, w.entries);
    assert Used(w) == a + b + c;
    assert Used(w)[1] == m;
    hide UsedIn, Max;
    forall k | 0 <= k < |Used(w)| ensures Used(w)[k] <= m {
    }
    assert Max(Used(w)) in Used(w);
  }

  /** The next segment's name is that of its place. */
  lemma NextInOrder(sha: Sha, t: Story, w: WState, d: Disk)
    requires Good(sha, t, w, d) && Named(t) && w.segIndex <= |t.entries|
    ensures NextIndex(w, d) == |t.entries| + 1
  {
    GoodParts(sha, t, w, d);
    WriterFacts(sha, t, w);
    DiskParts(t, d, []);
    UsedInOrder(w, t);
    NotTaken(t, d);
    hide Good, Used, Max;
  }

  lemma NotTaken(t: Story, d: Disk)
    requires Named(t) && NoStranger(d, t.entries, t.live)
    ensures Seg(Base, |t.entries| + 1) !in d.files
  {
    assert !Listed(t.entries, Seg(Base, |t.entries| + 1));
  }

  lemma AdvancedNamed(sha: Sha, t: Story, r: Rec)
    requires Named(t) && 0 <= Start(t.entries) < |t.hist|
    ensures Named(Advanced(sha, t, r, Seg(Base, |t.entries| + 1)))
  {
    hide Start;
  }

  lemma BeforeIndex(sha: Sha, w: WState, d: Disk, x: Draft, c1: Clock)
    requires CanStamp(w, x, c1) && SourceOk(w, d)
    ensures Before(sha, w, d, x, c1).0.segIndex == w.segIndex
  {
    hide Encode, Stamp, AppendAll, Append, Walk;
    var r := Stamp(sha, Started(w), x, c1);
    SourceSurvivesAppend(Started(w), d, RecBytes(r));
  }

  lemma CutIndex(sha: Sha, w: WState, p: Name, c: Clock)
    requires IdentityOk(w.id) && ClockOk(c) && Room(w) && w.deferred.None?
    ensures AfterCut(sha, w, p, c).segIndex == w.segIndex
  {
    hide CutRecord, ClosedEntry, Append;
  }

  lemma ReadyIndex(sha: Sha, w1: WState, d1: Disk)
    requires SourceOk(w1, d1)
    ensures Ready(sha, w1, d1).segIndex == NextIndex(w1, d1)
  {
    hide NextIndex, AppendAll, RecHashes, Walk;
  }

  /** The policy step: a cut takes the next name, and the writer remembers it. */
  lemma RotatedNamed(sha: Sha, t: Story, w1: WState, d1: Disk, c1: Clock, c2: Clock)
    requires Good(sha, t, w1, d1) && Named(t) && w1.segIndex <= |t.entries|
    requires IdentityOk(w1.id) && ClockOk(c2) && Room(w1) && SourceOk(w1, d1) && 0 <= Start(t.entries) < |t.hist|
    requires !w1.bootPending && t.hist != []
    ensures Named(Rotated(sha, t, w1, d1, c1, c2))
    ensures MaybeRotate(sha, w1, d1, c1, c2).0.segIndex <= |Rotated(sha, t, w1, d1, c1, c2).entries|
  {
    hide *;
    NextInOrder(sha, t, w1, d1);
    RotatedCases(sha, t, w1, d1, c1, c2);
    RotateCases(sha, w1, d1, c1, c2);
    RotateKeeps(sha, t, w1, d1, c1, c2);
    ReadyIndex(sha, w1, d1);
    CutIndex(sha, Ready(sha, w1, d1), Seg(w1.base, NextIndex(w1, d1)), c2);
    CutsIs(w1, c1.monotonicS);
    var cont := CutRecord(sha, Ready(sha, w1, d1), c2);
    if Cuts(w1, c1.monotonicS) {
      AdvancedNamed(sha, t, cont.value);
      AdvancedIs(sha, t, cont.value, Seg(Base, |t.entries| + 1));
    }
  }

  lemma WroteNamed(t: Story, r: Rec)
    ensures Named(Wrote(t, r)) <==> Named(t)
    ensures Wrote(t, r).entries == t.entries
  {
  }

  /** A write, whole or crashed. */
  lemma ToldNamed(sha: Sha, s: Sys, x: Draft, c1: Clock, c2: Clock, k: nat, n: nat)
    requires Inv(sha, s) && NameInv(s) && CanWrite(s, x, c1, c2)
    ensures Named(Told(sha, s, x, c1, c2, k, n).0)
    ensures k == WHOLE ==> NameInv(Step(sha, s, Write(x, c1, c2)))
  {
    hide *;
    InvParts(sha, s);
    CanWriteParts(s, x, c1, c2);
    NameParts(s);
    var w, d, t := s.writer.value, s.disk, s.story;
    GoodStamp(w, x, c1, c2);
    BeforeFits(sha, w, d, x, c1, c2);
    EmitStep(sha, t, w, d, x, c1, c2);
    BeforeIndex(sha, w, d, x, c1);
    var (w1, d1, r) := Before(sha, w, d, x, c1);
    WroteNamed(t, r);
    WroteParts(t, r);
    RotatedNamed(sha, Wrote(t, r), w1, d1, c1, c2);
    ToldIs(sha, s, x, c1, c2, k, n, w1, d1, r);
    StoryIs(sha, t, w1, d1, r, c1, c2, k, n);
    WriteIs(sha, s, x, c1, c2, Emit(sha, w, d, x, c1, c2).0, Emit(sha, w, d, x, c1, c2).1);
    if k == WHOLE {
      ToldIs(sha, s, x, c1, c2, WHOLE, 0, w1, d1, r);
      StoryIs(sha, t, w1, d1, r, c1, c2, WHOLE, 0);
      NameMade(Step(sha, s, Write(x, c1, c2)));
    }
  }

  lemma NameParts(s: Sys)
    requires NameInv(s)
    ensures Named(s.story) && (s.writer.Some? ==> s.writer.value.segIndex <= |s.story.entries|)
  {
  }

  lemma NameMade(s: Sys)
    requires Named(s.story) && (s.writer.Some? ==> s.writer.value.segIndex <= |s.story.entries|)
    ensures NameInv(s)
  {
  }

  lemma ResumedIndex(sha: Sha, t: Story, tail: Bytes, rotation: Option<Policy>, id: Identity, now: real)
    requires 0 <= Start(t.entries) < |t.hist|
    ensures Resumed(sha, t, tail, rotation, id, now).segIndex == 0
    ensures Resumed(sha, t, tail, rotation, id, now).bootPending
  {
    hide FrontierTo, Container;
  }

  lemma NamesStep(sha: Sha, s: Sys, e: Event)
    requires Inv(sha, s) && Distinct(sha, s.story.hist) && NameInv(s)
    ensures NameInv(Step(sha, s, e))
  {
    hide Inv, Distinct, CanWrite, CanResume, Newest, Emit, Told, OpenExisting, CrashDisk, ApplyAll, NothingYet, Resumed,
      Named;
    match e {
      case Write(x, c1, c2) => if CanWrite(s, x, c1, c2) { ToldNamed(sha, s, x, c1, c2, WHOLE, 0); }
      case CrashInWrite(x, c1, c2, k, n) => if CanWrite(s, x, c1, c2) { ToldNamed(sha, s, x, c1, c2, k, n); }
      case Resume(name, rotation, id, now) =>
        if CanResume(sha, s, name, rotation, id, now) {
          ResumeFacts(sha, s, name, rotation, id, now);
          ResumedIndex(sha, s.story, s.tail, rotation, id, now);
        }
      case _ =>
    }
  }

  lemma NothingNamed(sha: Sha)
    ensures NameInv(Run(sha, []))
  {
  }

  /** In every run the segments are numbered without a gap: the first is the base name, segment `i` is
      `base.i`, and the live one has the next number, whatever was deleted, crashed or resumed. */
  lemma {:induction false} SegmentsAreNumbered(sha: Sha, events: seq<Event>)
    requires NoCollision(sha, HeaderSetOf(Run(sha, events).story.hist))
    ensures Named(Run(sha, events).story)
    ensures NameInv(Run(sha, events))
    decreases |events|
  {
    hide *;
    if events == [] {
      NothingNamed(sha);
      NameParts(Run(sha, []));
    } else {
      var before, e := events[..|events| - 1], events[|events| - 1];
      var s := Run(sha, before);
      RunLast(sha, events);
      HistoryGrows(sha, s, e);
      FewerHeaders(sha, s.story.hist, Run(sha, events).story.hist);
      SegmentsAreNumbered(sha, before);
      RunKeeps(sha, before);
      InvHistory(sha, s);
      NumbersKeepApart(sha, s.story.hist);
      NamesStep(sha, s, e);
      NameParts(Run(sha, events));
    }
  }

  lemma RunLast(sha: Sha, events: seq<Event>)
    requires events != []
    ensures Run(sha, events) == Step(sha, Run(sha, events[..|events| - 1]), events[|events| - 1])
  {
    hide Step;
  }

  // ---------- what is refused ----------

  /** The current writer adopted the chain and has not written since. */
  ghost predicate JustAdopted(s: Sys) { s.story.hist != [] && s.since == |s.story.hist| }

  ghost predicate BootInv(s: Sys) {
    s.writer.Some? ==> s.since <= |s.story.hist| && (s.writer.value.bootPending <==> JustAdopted(s))
  }

  lemma WriteBoots(sha: Sha, s: Sys, x: Draft, c1: Clock, c2: Clock)
    requires Inv(sha, s) && SpanInv(s) && CanWrite(s, x, c1, c2)
    ensures BootInv(Step(sha, s, Write(x, c1, c2)))
  {
    hide *;
    CanWriteParts(s, x, c1, c2);
    var w, d := s.writer.value, s.disk;
    GoodStamp(w, x, c1, c2);
    BeforeFits(sha, w, d, x, c1, c2);
    EmitFlags(sha, w, d, x, c1, c2);
    WriteIs(sha, s, x, c1, c2, Emit(sha, w, d, x, c1, c2).0, Emit(sha, w, d, x, c1, c2).1);
    WriteWriter(sha, s, x, c1, c2);
    var r, w1 := WriteAdds(sha, s, x, c1, c2, WHOLE, 0);
    WholeMore();
    SpansAfter(s, x, r, Told(sha, s, x, c1, c2, WHOLE, 0).0);
    BootMade(Step(sha, s, Write(x, c1, c2)));
  }

  lemma WholeMore()
    ensures WHOLE > 0
  {
  }

  lemma BootMade(s: Sys)
    requires s.writer.Some? && s.since < |s.story.hist| && !s.writer.value.bootPending
    ensures BootInv(s)
  {
  }

  lemma BootStep(sha: Sha, s: Sys, e: Event)
    requires Inv(sha, s) && Distinct(sha, s.story.hist) && SpanInv(s) && BootInv(s)
    ensures BootInv(Step(sha, s, e))
  {
    hide Inv, Distinct, CanWrite, CanResume, Newest, Emit, Told, OpenExisting, CrashDisk, ApplyAll, Resumed, SpanInv;
    match e {
      case Begin(id, rotation, now) => BeginBoots(sha, s, id, rotation, now);
      case Write(x, c1, c2) => if CanWrite(s, x, c1, c2) { WriteBoots(sha, s, x, c1, c2); }
      case Resume(name, rotation, id, now) =>
        if CanResume(sha, s, name, rotation, id, now) {
          ResumeFacts(sha, s, name, rotation, id, now);
          ResumedIndex(sha, s.story, s.tail, rotation, id, now);
        }
      case _ =>
    }
  }

  lemma BeginBoots(sha: Sha, s: Sys, id: Identity, rotation: Option<Policy>, now: real)
    requires Inv(sha, s) && BootInv(s)
    ensures BootInv(Step(sha, s, Begin(id, rotation, now)))
  {
    hide *;
    InvParts(sha, s);
    if s.writer.None? && NothingYet(s.disk) {
      NothingMeansNothing(sha, s.story, s.disk, s.tail);
    }
    BegunBoots(sha, s, id, rotation, now);
  }

  lemma BegunBoots(sha: Sha, s: Sys, id: Identity, rotation: Option<Policy>, now: real)
    requires BootInv(s) && (s.writer.None? && NothingYet(s.disk) ==> s.story.hist == [])
    ensures BootInv(Step(sha, s, Begin(id, rotation, now)))
  {
    hide NothingYet, PolicyOk, IdentityOk;
  }

  lemma {:induction false} RunBoots(sha: Sha, events: seq<Event>)
    requires NoCollision(sha, HeaderSetOf(Run(sha, events).story.hist))
    ensures BootInv(Run(sha, events))
    decreases |events|
  {
    hide *;
    if events == [] {
      NothingBoots(sha);
    } else {
      var before, e := events[..|events| - 1], events[|events| - 1];
      var s := Run(sha, before);
      RunLast(sha, events);
      HistoryGrows(sha, s, e);
      FewerHeaders(sha, s.story.hist, Run(sha, events).story.hist);
      RunBoots(sha, before);
      RunKeeps(sha, before);
      RunSpans(sha, before);
      InvHistory(sha, s);
      NumbersKeepApart(sha, s.story.hist);
      BootStep(sha, s, e);
    }
  }

  lemma NothingBoots(sha: Sha)
    ensures BootInv(Run(sha, []))
  {
  }

  /** In every run: a record is refused exactly when it is not GENESIS on an empty chain, is GENESIS on any
      other, or is not BOOT and the first of a writer that adopted the chain. */
  lemma RefusedExactly(sha: Sha, events: seq<Event>, recordType: nat)
    requires NoCollision(sha, HeaderSetOf(Run(sha, events).story.hist)) && Run(sha, events).writer.Some?
    ensures var s := Run(sha, events);
      Refuses(s.writer.value, recordType) <==>
        if s.story.hist == [] then recordType != RT_GENESIS
        else recordType == RT_GENESIS || (s.since == |s.story.hist| && recordType != RT_BOOT)
  {
    hide *;
    var s := Run(sha, events);
    RunKeeps(sha, events);
    RunBoots(sha, events);
    InvParts(sha, s);
    GoodParts(sha, s.story, s.writer.value, s.disk);
    WriterFacts(sha, s.story, s.writer.value);
    RefusesIs(s, recordType);
  }

  lemma RefusesIs(s: Sys, recordType: nat)
    requires BootInv(s) && s.writer.Some? && (s.writer.value.started <==> s.story.hist != [])
    ensures Refuses(s.writer.value, recordType) <==>
      if s.story.hist == [] then recordType != RT_GENESIS
      else recordType == RT_GENESIS || (s.since == |s.story.hist| && recordType != RT_BOOT)
  {
  }
}
