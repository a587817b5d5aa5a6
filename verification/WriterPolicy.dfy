/** When the rotation policy cuts, over whole runs. */
module WriterPolicy {
  /* Said of the events and of the records they leave: the policy a writer was given, when its live segment
     was begun, adopted or cut to, what that segment holds, and which spans are open. */

  import opened Bytes
  import opened Codec
  import opened Frontier
  import opened Writer
  import opened WriterInv
  import opened WriterCut
  import opened WriterResume
  import opened WriterRuns
  import opened WriterLaws

  // ---------- spans ----------

  /** A span started among these records and not ended after its last start. */
  ghost predicate StillOpen(rs: seq<Rec>, id: Bytes) {
    exists i :: 0 <= i < |rs| && TypeIs(rs[i]) == RT_SPAN_START && SpanIs(rs[i]) == id && !Ended(rs, i, id)
  }

  ghost predicate NoSpanOpen(rs: seq<Rec>) { forall id :: !StillOpen(rs, id) }

  lemma EndedSnoc(rs: seq<Rec>, r: Rec, i: nat, id: Bytes)
    requires i < |rs|
    ensures Ended(rs + [r], i, id) <==> Ended(rs, i, id) || (TypeIs(r) == RT_SPAN_END && SpanIs(r) == id)
  {
    var all := rs + [r];
    hide TypeIs, SpanIs;
    if Ended(rs, i, id) {
      var j :| i < j < |rs| && TypeIs(rs[j]) == RT_SPAN_END && SpanIs(rs[j]) == id;
      assert all[j] == rs[j];
    }
    if Ended(all, i, id) {
      var j :| i < j < |all| && TypeIs(all[j]) == RT_SPAN_END && SpanIs(all[j]) == id;
      assert j < |rs| ==> all[j] == rs[j];
    }
    assert all[|rs|] == r;
  }

  lemma OpenSnoc(rs: seq<Rec>, r: Rec, id: Bytes)
    ensures StillOpen(rs + [r], id) <==>
      if TypeIs(r) == RT_SPAN_START && SpanIs(r) == id then true
      else if TypeIs(r) == RT_SPAN_END && SpanIs(r) == id then false
      else StillOpen(rs, id)
  {
    var all := rs + [r];
    hide TypeIs, SpanIs, Ended;
    assert all[|rs|] == r;
    NotEnded(all, |rs|, id);
    if StillOpen(rs, id) {
      var i :| 0 <= i < |rs| && TypeIs(rs[i]) == RT_SPAN_START && SpanIs(rs[i]) == id && !Ended(rs, i, id);
      EndedSnoc(rs, r, i, id);
      assert all[i] == rs[i];
    }
    if StillOpen(all, id) {
      var i :| 0 <= i < |all| && TypeIs(all[i]) == RT_SPAN_START && SpanIs(all[i]) == id && !Ended(all, i, id);
      if i < |rs| {
        EndedSnoc(rs, r, i, id);
        assert all[i] == rs[i];
      }
    }
  }

  lemma NotEnded(rs: seq<Rec>, i: nat, id: Bytes)
    requires |rs| == i + 1
    ensures !Ended(rs, i, id)
  {
  }

  /** The writer's set of open spans is the set of spans still open. */
  lemma {:induction false} OpenSpansMean(rs: seq<Rec>, id: Bytes)
    ensures id in OpenSpans(rs) <==> StillOpen(rs, id)
    decreases |rs|
  {
    if rs != [] {
      var front, r := rs[..|rs| - 1], rs[|rs| - 1];
      OpenSpansMean(front, id);
      OpenSnoc(front, r, id);
      assert front + [r] == rs;
      hide StillOpen, TypeIs, SpanIs;
    }
  }

  // ---------- what the events say ----------

  /** Of the current writer: the identity and policy it was given, how many events it took to begin, adopt or
      cut to its live segment, and the monotonic reading then. */
  datatype Watch = Watch(id: Identity, policy: Option<Policy>, since: nat, began: real)

  ghost function Watched(sha: Sha, events: seq<Event>): Watch {
    if events == [] then Watch(NOBODY, None, 0, 0.0)
    else
      var before, e := events[..|events| - 1], events[|events| - 1];
      var s, s', a := Run(sha, before), Run(sha, events), Watched(sha, before);
      match e
      case Begin(id, rotation, now) =>
        if s.writer.None? && s'.writer.Some? then Watch(id, rotation, |events|, now) else a
      case Resume(_, rotation, id, now) =>
        if s.writer.None? && s'.writer.Some? then Watch(id, rotation, |events|, now) else a
      case Write(_, _, c2) =>
        if |s'.story.entries| > |s.story.entries| then a.(since := |events|, began := c2.monotonicS) else a
      case _ => a
  }

  /** The records of the live segment, with the one event `j` wrote. */
  ghost function LiveWith(sha: Sha, events: seq<Event>, j: nat): seq<Rec>
    requires j < |events|
  {
    LiveOf(Run(sha, events[..j]).story, Run(sha, events[..j + 1]).story)
  }

  function LiveOf(t: Story, t': Story): seq<Rec> {
    if 0 <= Start(t.entries) <= |t.hist| < |t'.hist| then t'.hist[Start(t.entries)..|t.hist| + 1] else []
  }

  /** One of the policy's thresholds is reached by these records and this age. */
  predicate Reached(p: Policy, live: seq<Rec>, age: real) {
    || (p.maxRecords.Some? && |live| >= p.maxRecords.value)
    || (p.maxBytes.Some? && |Container(live)| >= p.maxBytes.value)
    || (p.maxAgeS.Some? && age >= p.maxAgeS.value)
  }

  ghost predicate WroteAt(sha: Sha, events: seq<Event>, j: int) {
    && 0 <= j < |events| && events[j].Write?
    && CanWrite(Run(sha, events[..j]), events[j].x, events[j].c1, events[j].c2)
  }

  /** Event `j` wrote a record with which the live segment is at a threshold. */
  ghost predicate ReachedAt(sha: Sha, events: seq<Event>, j: int) {
    WroteAt(sha, events, j) &&
    var a := Watched(sha, events[..j]);
    a.policy.Some? && Reached(a.policy.value, LiveWith(sha, events, j), events[j].c1.monotonicS - a.began)
  }

  /** A threshold was reached on the live segment, and the cut has not been made yet. */
  ghost predicate PutOff(sha: Sha, events: seq<Event>) {
    exists j :: Watched(sha, events).since <= j < |events| && ReachedAt(sha, events, j)
  }

  /** The records the current writer wrote up to its latest own one. */
  ghost function OwnRecords(sha: Sha, events: seq<Event>): seq<Rec>
    requires events != []
  {
    var s, s' := Run(sha, events[..|events| - 1]), Run(sha, events);
    if s.since <= |s.story.hist| < |s'.story.hist| then s'.story.hist[s.since..|s.story.hist| + 1] else []
  }

  /** The last event closed the live segment. */
  ghost predicate Closed(sha: Sha, events: seq<Event>)
    requires events != []
  {
    |Run(sha, events).story.entries| > |Run(sha, events[..|events| - 1]).story.entries|
  }

  // ---------- the writer's fields ----------

  /** The writer's identity, age, policy and due mark are what the events say. */
  ghost predicate WatchInv(sha: Sha, events: seq<Event>) {
    var s, a := Run(sha, events), Watched(sha, events);
    && a.since <= |events| && (PutOff(sha, events) ==> a.policy.Some?)
    && (s.writer.Some? ==>
          && s.writer.value.id == a.id && s.writer.value.rotation == a.policy && s.writer.value.segStartedS == a.began
          && (s.writer.value.rotationDue <==> PutOff(sha, events)))
  }

  lemma WatchedLast(sha: Sha, events: seq<Event>)
    requires events != []
    ensures var (before, e) := (events[..|events| - 1], events[|events| - 1]);
      var (s, s', a) := (Run(sha, before), Run(sha, events), Watched(sha, before));
      Watched(sha, events) ==
        if (e.Begin? || e.Resume?) && s.writer.None? && s'.writer.Some? then Watch(e.id, e.rotation, |events|, e.now)
        else if e.Write? && |s'.story.entries| > |s.story.entries|
        then a.(since := |events|, began := e.c2.monotonicS) else a
  {
    hide Run;
  }

  lemma ReachedStays(sha: Sha, events: seq<Event>, j: int)
    requires events != [] && j < |events| - 1
    ensures ReachedAt(sha, events, j) <==> ReachedAt(sha, events[..|events| - 1], j)
  {
    hide Run, Watched, Reached, CanWrite;
    if 0 <= j {
      var before := events[..|events| - 1];
      assert before[..j] == events[..j] && before[..j + 1] == events[..j + 1] && before[j] == events[j];
    }
  }

  lemma PutOffStep(sha: Sha, events: seq<Event>)
    requires events != [] && Watched(sha, events).since == Watched(sha, events[..|events| - 1]).since < |events|
    ensures PutOff(sha, events) <==> PutOff(sha, events[..|events| - 1]) || ReachedAt(sha, events, |events| - 1)
  {
    hide Watched, ReachedAt;
    var before := events[..|events| - 1];
    forall j | j < |before| ensures ReachedAt(sha, events, j) <==> ReachedAt(sha, before, j) {
      ReachedStays(sha, events, j);
    }
  }

  lemma NothingPutOff(sha: Sha, events: seq<Event>)
    requires Watched(sha, events).since == |events|
    ensures !PutOff(sha, events)
  {
    hide Watched, ReachedAt;
  }

  lemma WatchParts(sha: Sha, events: seq<Event>)
    requires WatchInv(sha, events)
    ensures var (s, a) := (Run(sha, events), Watched(sha, events));
      && a.since <= |events| && (PutOff(sha, events) ==> a.policy.Some?)
      && (s.writer.Some? ==>
            && s.writer.value.id == a.id && s.writer.value.rotation == a.policy && s.writer.value.segStartedS == a.began
            && (s.writer.value.rotationDue <==> PutOff(sha, events)))
  {
    hide Run, Watched, PutOff;
  }

  lemma WatchMade(sha: Sha, events: seq<Event>)
    requires var (s, a) := (Run(sha, events), Watched(sha, events));
      && a.since <= |events| && (PutOff(sha, events) ==> a.policy.Some?)
      && (s.writer.Some? ==>
            && s.writer.value.id == a.id && s.writer.value.rotation == a.policy && s.writer.value.segStartedS == a.began
            && (s.writer.value.rotationDue <==> PutOff(sha, events)))
    ensures WatchInv(sha, events)
  {
    hide Run, Watched, PutOff;
  }

  // ---------- a writer begun or adopted ----------

  lemma BeginLeaves(sha: Sha, s: Sys, e: Event)
    requires e.Begin? && s.writer.None? && Step(sha, s, e).writer.Some?
    ensures var w := Step(sha, s, e).writer.value;
      w.id == e.id && w.rotation == e.rotation && w.segStartedS == e.now && !w.rotationDue
  {
    hide NothingYet, PolicyAllowed, IdentityOk;
  }

  lemma ResumeLeaves(sha: Sha, s: Sys, e: Event)
    requires Inv(sha, s) && Distinct(sha, s.story.hist)
    requires e.Resume? && s.writer.None? && Step(sha, s, e).writer.Some?
    ensures var w := Step(sha, s, e).writer.value;
      w.id == e.id && w.rotation == e.rotation && w.segStartedS == e.now && !w.rotationDue
  {
    hide Inv, Distinct, CanResume, OpenExisting, ApplyAll;
    assert CanResume(sha, s, e.name, e.rotation, e.id, e.now);
    ResumeFacts(sha, s, e.name, e.rotation, e.id, e.now);
    ResumedMarks(sha, s.story, s.tail, e.rotation, e.id, e.now);
    hide Resumed;
  }

  lemma ResumedMarks(sha: Sha, t: Story, tail: Bytes, rotation: Option<Policy>, id: Identity, now: real)
    requires 0 <= Start(t.entries) < |t.hist|
    ensures var w := Resumed(sha, t, tail, rotation, id, now);
      w.id == id && w.rotation == rotation && w.segStartedS == now && !w.rotationDue
  {
    hide FrontierTo, Container;
  }

  /** Every other event leaves the writer as it was, or ends it. */
  lemma OtherEvents(sha: Sha, s: Sys, e: Event)
    requires e.Write? ==> !CanWrite(s, e.x, e.c1, e.c2)
    ensures var s' := Step(sha, s, e);
      && (s'.writer.None? || s'.writer == s.writer || ((e.Begin? || e.Resume?) && s.writer.None?))
      && (e.Write? ==> s' == s)
  {
    hide CanWrite, CanResume, Newest, Emit, Told, OpenExisting, CrashDisk, ApplyAll, NothingYet, Create, CanEmit;
    match e {
      case CrashInWrite(x, c1, c2, k, n) => CrashEnds(sha, s, x, c1, c2, k, n);
      case Resume(name, rotation, id, now) =>
        if CanResume(sha, s, name, rotation, id, now) { CanResumeParts(sha, s, name, rotation, id, now); }
      case _ =>
    }
  }

  lemma CrashEnds(sha: Sha, s: Sys, x: Draft, c1: Clock, c2: Clock, k: nat, n: nat)
    ensures var s' := Step(sha, s, CrashInWrite(x, c1, c2, k, n)); s'.writer.None? || s' == s
  {
    hide CanWrite, Emit, Told, CrashDisk, CanEmit;
  }

  // ---------- a write ----------

  lemma CutMarks(sha: Sha, w: WState, p: Name, c: Clock)
    requires IdentityOk(w.id) && ClockOk(c) && Room(w) && w.deferred.None?
    ensures var w' := AfterCut(sha, w, p, c);
      && w'.segStartedS == c.monotonicS && w'.rotationDue == w.rotationDue && w'.rotation == w.rotation
  {
    hide CutRecord, ClosedEntry, Append;
  }

  lemma BeforeMarks(sha: Sha, w: WState, d: Disk, x: Draft, c1: Clock)
    requires CanStamp(w, x, c1) && SourceOk(w, d)
    ensures var w1 := Before(sha, w, d, x, c1).0;
      w1.segStartedS == w.segStartedS && w1.rotationDue == w.rotationDue && w1.rotation == w.rotation
  {
    hide Encode, Stamp, AppendAll, Append, Walk;
    var r := Stamp(sha, Started(w), x, c1);
    SourceSurvivesAppend(Started(w), d, RecBytes(r));
  }

  /** The policy step's marks, by cases. */
  lemma RotateMarks(sha: Sha, w1: WState, d1: Disk, c1: Clock, c2: Clock)
    requires IdentityOk(w1.id) && ClockOk(c2) && Room(w1) && SourceOk(w1, d1)
    ensures var w2 := MaybeRotate(sha, w1, d1, c1, c2).0;
      && w2.rotation == w1.rotation
      && if !Due(w1, c1.monotonicS) then w2.segStartedS == w1.segStartedS && w2.rotationDue == w1.rotationDue
         else if w1.openSpans != {} then w2.segStartedS == w1.segStartedS && w2.rotationDue
         else w2.segStartedS == c2.monotonicS && !w2.rotationDue
  {
    hide *;
    RotateCases(sha, w1, d1, c1, c2);
    ReadyCarries(sha, w1, d1);
    CutMarks(sha, Ready(sha, w1, d1), Seg(w1.base, NextIndex(w1, d1)), c2);
  }

  lemma WriteMarks(sha: Sha, s: Sys, x: Draft, c1: Clock, c2: Clock, w1: WState)
    requires CanWrite(s, x, c1, c2) && CanStamp(s.writer.value, x, c1) && SourceOk(s.writer.value, s.disk)
    requires w1 == Before(sha, s.writer.value, s.disk, x, c1).0
    ensures var (s', w) := (Step(sha, s, Write(x, c1, c2)), s.writer.value);
      && s'.writer.Some? && w1.segStartedS == w.segStartedS && w1.rotationDue == w.rotationDue
      && var w2 := s'.writer.value;
      && w2.rotation == w.rotation
      && if !Due(w1, c1.monotonicS) then w2.segStartedS == w.segStartedS && w2.rotationDue == w.rotationDue
         else if w1.openSpans != {} then w2.segStartedS == w.segStartedS && w2.rotationDue
         else w2.segStartedS == c2.monotonicS && !w2.rotationDue
  {
    hide *;
    CanWriteParts(s, x, c1, c2);
    var w, d := s.writer.value, s.disk;
    BeforeFits(sha, w, d, x, c1, c2);
    EmitIs(sha, w, d, x, c1, c2);
    EmitParts(w, d, x, c1, c2);
    BeforeMarks(sha, w, d, x, c1);
    var (w0, d1, r) := Before(sha, w, d, x, c1);
    RotateMarks(sha, w0, d1, c1, c2);
    var (w2, ops) := Emit(sha, w, d, x, c1, c2);
    WriteIs(sha, s, x, c1, c2, w2, ops);
  }

  /** `Due` is: put off before, or a threshold reached now. */
  lemma DueMeans(w1: WState, now: real, live: seq<Rec>)
    requires w1.segRecords == |live| && w1.segBytes == |Container(live)|
    ensures Due(w1, now) <==>
      w1.rotation.Some? && (w1.rotationDue || Reached(w1.rotation.value, live, now - w1.segStartedS))
  {
    hide Container;
  }

  lemma LiveIs(sha: Sha, events: seq<Event>, r: Rec)
    requires events != []
    requires var (t, t') := (Run(sha, events[..|events| - 1]).story, Run(sha, events).story);
      0 <= Start(t.entries) <= |t.hist| && t.hist + [r] <= t'.hist
    ensures var t := Run(sha, events[..|events| - 1]).story;
      LiveWith(sha, events, |events| - 1) == (t.hist + [r])[Start(t.entries)..]
  {
    hide Run, Start, LiveOf;
    assert events[..|events| - 1 + 1] == events;
    LiveOfIs(Run(sha, events[..|events| - 1]).story, Run(sha, events).story, r);
  }

  lemma LiveOfIs(t: Story, t': Story, r: Rec)
    requires 0 <= Start(t.entries) <= |t.hist| && t.hist + [r] <= t'.hist
    ensures LiveOf(t, t') == (t.hist + [r])[Start(t.entries)..]
  {
    hide Start;
    SliceSame(t.hist + [r], t'.hist, Start(t.entries));
  }

  lemma SliceSame(a: seq<Rec>, b: seq<Rec>, s: int)
    requires a <= b && 0 <= s <= |a|
    ensures b[s..|a|] == a[s..]
  {
  }

  lemma CloseCounts(sha: Sha, t: Story, t': Story)
    requires Closes(sha, t, t')
    ensures |t'.entries| == |t.entries| + 1
  {
  }

  /** A write closes the live segment exactly when no span is open after it and a threshold is reached, by it
      or put off before it; and the marks go on saying so. */
  lemma WriteWatched(sha: Sha, events: seq<Event>)
    requires events != [] && WroteAt(sha, events, |events| - 1)
    requires Inv(sha, Run(sha, events[..|events| - 1])) && WatchInv(sha, events[..|events| - 1])
    requires SpanInv(Run(sha, events[..|events| - 1]))
    ensures WatchInv(sha, events)
    ensures Closed(sha, events) <==> (
      && NoSpanOpen(OwnRecords(sha, events))
      && (PutOff(sha, events[..|events| - 1]) || ReachedAt(sha, events, |events| - 1)))
  {
    hide *;
    var before, e := events[..|events| - 1], events[|events| - 1];
    var s, s' := Run(sha, before), Run(sha, events);
    WroteIs(sha, events);
    CanWriteParts(s, e.x, e.c1, e.c2);
    RunStep(sha, events);
    WatchParts(sha, before);
    WriteWriter(sha, s, e.x, e.c1, e.c2);
    var w1, r := WriteDue(sha, s, e.x, e.c1, e.c2);
    WriteMarks(sha, s, e.x, e.c1, e.c2, w1);
    LiveIs(sha, events, r);
    DueMeans(w1, e.c1.monotonicS, LiveWith(sha, events, |events| - 1));
    ReachedIs(sha, events);
    OwnOpen(sha, events, r, w1);
    WatchedLast(sha, events);
    ClosedIs(sha, events);
    if Due(w1, e.c1.monotonicS) && w1.openSpans == {} {
      CloseCounts(sha, s.story, s'.story);
      NothingPutOff(sha, events);
    } else {
      PutOffStep(sha, events);
    }
    WatchMade(sha, events);
  }

  lemma WroteIs(sha: Sha, events: seq<Event>)
    requires events != [] && WroteAt(sha, events, |events| - 1)
    ensures var e := events[|events| - 1]; e.Write? && CanWrite(Run(sha, events[..|events| - 1]), e.x, e.c1, e.c2)
  {
    hide Run, CanWrite;
  }

  lemma RunStep(sha: Sha, events: seq<Event>)
    requires events != []
    ensures Run(sha, events) == Step(sha, Run(sha, events[..|events| - 1]), events[|events| - 1])
  {
    hide Step;
  }

  lemma ClosedIs(sha: Sha, events: seq<Event>)
    requires events != []
    ensures Closed(sha, events) <==>
      |Run(sha, events).story.entries| > |Run(sha, events[..|events| - 1]).story.entries|
  {
    hide Run;
  }

  lemma ReachedIs(sha: Sha, events: seq<Event>)
    requires events != [] && WroteAt(sha, events, |events| - 1) && events[|events| - 1].Write?
    ensures var a := Watched(sha, events[..|events| - 1]);
      ReachedAt(sha, events, |events| - 1) <==>
        a.policy.Some? && Reached(a.policy.value, LiveWith(sha, events, |events| - 1),
                                  events[|events| - 1].c1.monotonicS - a.began)
  {
    hide Run, Watched, Reached, LiveWith, WroteAt;
  }

  lemma OwnOpen(sha: Sha, events: seq<Event>, r: Rec, w1: WState)
    requires events != [] && WroteAt(sha, events, |events| - 1) && events[|events| - 1].Write?
    requires Inv(sha, Run(sha, events[..|events| - 1])) && SpanInv(Run(sha, events[..|events| - 1]))
    requires var (s, x) := (Run(sha, events[..|events| - 1]), events[|events| - 1].x);
      s.writer.Some? && w1.openSpans == NextSpans(s.writer.value.openSpans, x.recordType, x.spanId)
    ensures w1.openSpans == {} <==> NoSpanOpen(OwnRecords(sha, events))
  {
    hide *;
    var s, e := Run(sha, events[..|events| - 1]), events[|events| - 1];
    WroteIs(sha, events);
    RunStep(sha, events);
    CanWriteParts(s, e.x, e.c1, e.c2);
    var q, w0 := WriteAdds(sha, s, e.x, e.c1, e.c2, WHOLE, 0);
    WriteWriter(sha, s, e.x, e.c1, e.c2);
    WholeIsMore();
    SpansAfter(s, e.x, q, Run(sha, events).story);
    OwnIs(sha, events);
    NoneOpenIs(OwnRecords(sha, events));
  }

  lemma WholeIsMore()
    ensures WHOLE > 0
  {
  }

  lemma OwnIs(sha: Sha, events: seq<Event>)
    requires events != []
    requires var (s, s') := (Run(sha, events[..|events| - 1]), Run(sha, events));
      s.since <= |s.story.hist| < |s'.story.hist|
    ensures var (s, s') := (Run(sha, events[..|events| - 1]), Run(sha, events));
      OwnRecords(sha, events) == s'.story.hist[s.since..|s.story.hist| + 1]
  {
    hide Run;
  }

  lemma NoneOpenIs(rs: seq<Rec>)
    ensures NoSpanOpen(rs) <==> OpenSpans(rs) == {}
  {
    hide StillOpen, OpenSpans;
    forall id ensures id in OpenSpans(rs) <==> StillOpen(rs, id) {
      OpenSpansMean(rs, id);
    }
    if OpenSpans(rs) != {} {
      var id :| id in OpenSpans(rs);
      assert StillOpen(rs, id);
    }
  }

  // ---------- whole runs ----------

  lemma OtherWatched(sha: Sha, events: seq<Event>)
    requires events != [] && !WroteAt(sha, events, |events| - 1)
    requires Inv(sha, Run(sha, events[..|events| - 1])) && WatchInv(sha, events[..|events| - 1])
    requires Distinct(sha, Run(sha, events[..|events| - 1]).story.hist)
    ensures WatchInv(sha, events)
  {
    hide *;
    var before, e := events[..|events| - 1], events[|events| - 1];
    var s, s' := Run(sha, before), Run(sha, events);
    RunStep(sha, events);
    WatchParts(sha, before);
    WatchedLast(sha, events);
    NotWrote(sha, events);
    OtherEvents(sha, s, e);
    if (e.Begin? || e.Resume?) && s.writer.None? && s'.writer.Some? {
      NothingPutOff(sha, events);
      if e.Begin? {
        BeginLeaves(sha, s, e);
      } else {
        ResumeLeaves(sha, s, e);
      }
    } else {
      PutOffStep(sha, events);
    }
    WatchMade(sha, events);
  }

  lemma NotWrote(sha: Sha, events: seq<Event>)
    requires events != [] && !WroteAt(sha, events, |events| - 1)
    ensures var e := events[|events| - 1];
      e.Write? ==> !CanWrite(Run(sha, events[..|events| - 1]), e.x, e.c1, e.c2)
    ensures !ReachedAt(sha, events, |events| - 1)
  {
    hide Run, CanWrite, Reached, LiveWith, Watched;
  }

  lemma {:induction false} RunWatched(sha: Sha, events: seq<Event>)
    requires NoCollision(sha, HeaderSetOf(Run(sha, events).story.hist))
    ensures WatchInv(sha, events)
    decreases |events|
  {
    hide *;
    if events == [] {
      NothingWatched(sha);
    } else {
      var before, s := events[..|events| - 1], Run(sha, events[..|events| - 1]);
      RunStep(sha, events);
      HistoryGrows(sha, s, events[|events| - 1]);
      FewerHeaders(sha, s.story.hist, Run(sha, events).story.hist);
      RunWatched(sha, before);
      RunKeeps(sha, before);
      RunSpans(sha, before);
      InvHistory(sha, s);
      NumbersKeepApart(sha, s.story.hist);
      if WroteAt(sha, events, |events| - 1) {
        WriteWatched(sha, events);
      } else {
        OtherWatched(sha, events);
      }
    }
  }

  lemma NothingWatched(sha: Sha)
    ensures WatchInv(sha, [])
  {
  }

  /** Over every run: a write closes the live segment exactly when no span its writer opened is open after it
      and one of its policy's thresholds is reached, by this write or by an earlier one whose cut was put off.
      Age is counted from the reading at which the segment was begun, adopted or cut to. */
  lemma CutsWhenReached(sha: Sha, events: seq<Event>)
    requires events != [] && WroteAt(sha, events, |events| - 1)
    requires NoCollision(sha, HeaderSetOf(Run(sha, events).story.hist))
    ensures Closed(sha, events) <==> (
      && NoSpanOpen(OwnRecords(sha, events))
      && exists j :: Watched(sha, events[..|events| - 1]).since <= j < |events| && ReachedAt(sha, events, j))
  {
    hide *;
    var before, s := events[..|events| - 1], Run(sha, events[..|events| - 1]);
    RunStep(sha, events);
    HistoryGrows(sha, s, events[|events| - 1]);
    FewerHeaders(sha, s.story.hist, Run(sha, events).story.hist);
    RunWatched(sha, before);
    RunKeeps(sha, before);
    RunSpans(sha, before);
    WriteWatched(sha, events);
    WatchParts(sha, before);
    PutOffOrNow(sha, events);
  }

  lemma PutOffOrNow(sha: Sha, events: seq<Event>)
    requires events != [] && Watched(sha, events[..|events| - 1]).since < |events|
    ensures PutOff(sha, events[..|events| - 1]) || ReachedAt(sha, events, |events| - 1) <==>
      exists j :: Watched(sha, events[..|events| - 1]).since <= j < |events| && ReachedAt(sha, events, j)
  {
    hide Watched, ReachedAt;
    var before := events[..|events| - 1];
    forall j | j < |before| ensures ReachedAt(sha, events, j) <==> ReachedAt(sha, before, j) {
      ReachedStays(sha, events, j);
    }
  }

  // ---------- one threshold, promptly ----------

  lemma {:induction false} HistoryFrom(sha: Sha, events: seq<Event>, i: nat)
    requires i <= |events|
    ensures Run(sha, events[..i]).story.hist <= Run(sha, events).story.hist
    decreases |events|
  {
    hide *;
    if i == |events| {
      assert events[..i] == events;
    } else {
      var before := events[..|events| - 1];
      HistoryFrom(sha, before, i);
      assert before[..i] == events[..i];
      RunStep(sha, events);
      HistoryGrows(sha, Run(sha, before), events[|events| - 1]);
    }
  }

  lemma {:induction false} SinceGrows(sha: Sha, events: seq<Event>, i: nat)
    requires i <= |events|
    ensures Watched(sha, events[..i]).since <= Watched(sha, events).since <= |events|
    decreases |events|
  {
    hide *;
    if events == [] {
      assert events[..i] == [];
      NothingSince(sha);
    } else {
      var before := events[..|events| - 1];
      WatchedLast(sha, events);
      SinceGrows(sha, before, if i == |events| then |before| else i);
      assert before[..|before|] == before;
      if i == |events| {
        assert events[..i] == events;
      } else {
        assert before[..i] == events[..i];
      }
    }
  }

  lemma NothingSince(sha: Sha)
    ensures Watched(sha, []).since == 0
  {
  }

  lemma ReachedFrom(sha: Sha, events: seq<Event>, n: nat, j: int)
    requires j < n <= |events|
    ensures ReachedAt(sha, events[..n], j) <==> ReachedAt(sha, events, j)
  {
    hide Run, Watched, Reached, CanWrite;
    if 0 <= j {
      assert events[..n][..j] == events[..j] && events[..n][..j + 1] == events[..j + 1] && events[..n][j] == events[j];
    }
  }

  lemma ReachedWrote(sha: Sha, events: seq<Event>, j: int)
    requires ReachedAt(sha, events, j)
    ensures WroteAt(sha, events, j) && 0 <= j < |events|
  {
    hide Run, Watched, Reached, CanWrite;
  }

  /** With no span open after any write to the live segment, nothing is ever put off: a write that reaches a
      threshold closes the segment at once. */
  lemma NothingWaits(sha: Sha, events: seq<Event>, j: int)
    requires NoCollision(sha, HeaderSetOf(Run(sha, events).story.hist)) && ReachedAt(sha, events, j)
    requires 0 <= j < |events| && NoSpanOpen(OwnRecords(sha, events[..j + 1]))
    ensures Watched(sha, events).since >= j + 1
  {
    hide *;
    var part := events[..j + 1];
    HistoryFrom(sha, events, j + 1);
    FewerHeaders(sha, Run(sha, part).story.hist, Run(sha, events).story.hist);
    ReachedFrom(sha, events, j + 1, j);
    ReachedWrote(sha, part, j);
    SinceGrows(sha, part[..j], j);
    CutsWhenReached(sha, part);
    assert Watched(sha, part[..|part| - 1]).since <= j < |part| && ReachedAt(sha, part, j);
    ClosedIs(sha, part);
    WatchedLast(sha, part);
    WroteIs(sha, part);
    SinceGrows(sha, events, j + 1);
  }

  /** Every write to the live segment so far left no span open. */
  ghost predicate NoneOpenSince(sha: Sha, events: seq<Event>)
    requires events != []
  {
    forall j :: Watched(sha, events[..|events| - 1]).since <= j < |events| && WroteAt(sha, events, j) ==>
      NoSpanOpen(OwnRecords(sha, events[..j + 1]))
  }

  /** So the segment is closed by the first write that reaches a threshold. */
  lemma PromptCuts(sha: Sha, events: seq<Event>)
    requires events != [] && WroteAt(sha, events, |events| - 1) && NoneOpenSince(sha, events)
    requires NoCollision(sha, HeaderSetOf(Run(sha, events).story.hist))
    ensures Closed(sha, events) <==> ReachedAt(sha, events, |events| - 1)
  {
    hide *;
    var n, before := |events| - 1, events[..|events| - 1];
    HistoryFrom(sha, events, n);
    FewerHeaders(sha, Run(sha, before).story.hist, Run(sha, events).story.hist);
    CutsWhenReached(sha, events);
    SinceGrows(sha, before, n);
    assert events[..n + 1] == events;
    NoneOpenIn(sha, events, n);
    forall j | Watched(sha, before).since <= j < n && ReachedAt(sha, events, j) ensures false {
      ReachedWrote(sha, events, j);
      NoneOpenIn(sha, events, j);
      ReachedFrom(sha, events, n, j);
      assert before[..j + 1] == events[..j + 1];
      NothingWaits(sha, before, j);
    }
  }

  lemma NoneOpenIn(sha: Sha, events: seq<Event>, j: int)
    requires events != [] && NoneOpenSince(sha, events) && WroteAt(sha, events, j)
    requires Watched(sha, events[..|events| - 1]).since <= j < |events|
    ensures NoSpanOpen(OwnRecords(sha, events[..j + 1]))
  {
    hide Watched, WroteAt, NoSpanOpen;
  }

  /** Under `max_age_s = a` alone, with no span open: a write closes the live segment exactly when its monotonic
      reading is at least `a` past the one at which the segment was begun, adopted or cut to. */
  lemma AgeAloneCuts(sha: Sha, events: seq<Event>, p: Policy, a: real)
    requires events != [] && WroteAt(sha, events, |events| - 1) && NoneOpenSince(sha, events)
    requires NoCollision(sha, HeaderSetOf(Run(sha, events).story.hist))
    requires Watched(sha, events[..|events| - 1]).policy == Some(p)
    requires p.maxAgeS == Some(a) && p.maxRecords.None? && p.maxBytes.None?
    ensures events[|events| - 1].Write?
    ensures Closed(sha, events) <==>
      events[|events| - 1].c1.monotonicS - Watched(sha, events[..|events| - 1]).began >= a
  {
    hide *;
    PromptCuts(sha, events);
    WroteIs(sha, events);
    ReachedIs(sha, events);
    AgeAlone(p, a, LiveWith(sha, events, |events| - 1),
             events[|events| - 1].c1.monotonicS - Watched(sha, events[..|events| - 1]).began);
  }

  lemma AgeAlone(p: Policy, a: real, live: seq<Rec>, age: real)
    requires p.maxAgeS == Some(a) && p.maxRecords.None? && p.maxBytes.None?
    ensures Reached(p, live, age) <==> age >= a
  {
  }

  /** A cut put off while a span was open is made by the first write that leaves none open. */
  lemma PutOffIsMade(sha: Sha, events: seq<Event>, j: int)
    requires events != [] && WroteAt(sha, events, |events| - 1) && NoSpanOpen(OwnRecords(sha, events))
    requires NoCollision(sha, HeaderSetOf(Run(sha, events).story.hist))
    requires Watched(sha, events[..|events| - 1]).since <= j < |events| && ReachedAt(sha, events, j)
    ensures Closed(sha, events) && Watched(sha, events).since == |events|
    ensures events[|events| - 1].Write? && Watched(sha, events).began == events[|events| - 1].c2.monotonicS
  {
    hide *;
    CutsWhenReached(sha, events);
    ClosedIs(sha, events);
    WatchedLast(sha, events);
    WroteIs(sha, events);
  }
}
