/** How large the segments of a run are, under one threshold. */
module WriterSizes {
  import opened Bytes
  import opened Codec
  import opened Frontier
  import opened Writer
  import opened WriterInv
  import opened WriterCut
  import opened WriterResume
  import opened WriterRuns
  import opened WriterLaws

  // ---------- one threshold ----------

  datatype Threshold = ByCount(n: nat) | BySize(b: nat)

  predicate Only(p: Policy, th: Threshold) {
    && p.maxAgeS.None?
    && match th
       case ByCount(n) => p.maxRecords == Some(n) && p.maxBytes.None?
       case BySize(b) => p.maxBytes == Some(b) && p.maxRecords.None?
  }

  predicate Positive(th: Threshold) {
    match th
    case ByCount(n) => n >= 1
    case BySize(b) => b >= 1
  }

  /** A segment of so many records and bytes is at the threshold. */
  predicate Reaches(th: Threshold, records: int, bytes: nat) {
    match th
    case ByCount(n) => records >= n
    case BySize(b) => bytes >= b
  }

  function Quota(n: nat, i: nat): nat { if i == 0 || n >= 2 then n else 2 }

  lemma DueByThreshold(w1: WState, now: real, th: Threshold)
    requires w1.rotation.Some? && Only(w1.rotation.value, th) && !w1.rotationDue
    ensures Due(w1, now) <==> Reaches(th, w1.segRecords, w1.segBytes)
  {
  }

  // ---------- crashes that leave a full segment ----------

  /** A crash that put a record on disk with which the live segment is at the threshold, and no successor. */
  ghost predicate Uncut(sha: Sha, th: Threshold, s: Sys, e: Event) {
    && e.CrashInWrite? && CanWrite(s, e.x, e.c1, e.c2) && CanEmit(s.writer.value, s.disk, e.x, e.c1, e.c2)
    && e.k <= |Emit(sha, s.writer.value, s.disk, e.x, e.c1, e.c2).1|
    && Durable(sha, s.writer.value, e.x, e.c1, e.k, e.n) && e.k < WHOLE
    && Reaches(th, s.writer.value.segRecords + 1,
               s.writer.value.segBytes + |RecBytes(Stamp(sha, Started(s.writer.value), e.x, e.c1))|)
  }

  /** How often that happened to segment `i`, while it was the live one. */
  ghost function Uncuts(sha: Sha, th: Threshold, events: seq<Event>, i: nat): nat {
    if events == [] then 0
    else
      var before := events[..|events| - 1];
      var s := Run(sha, before);
      Uncuts(sha, th, before, i) + (if Uncut(sha, th, s, events[|events| - 1]) && |s.story.entries| == i then 1 else 0)
  }

  /** Event `j` left segment `i` uncut at its threshold. */
  ghost predicate UncutAt(sha: Sha, th: Threshold, events: seq<Event>, i: nat, j: int)
    requires 0 <= j < |events|
  {
    var s := Run(sha, events[..j]); Uncut(sha, th, s, events[j]) && |s.story.entries| == i
  }

  // ---------- what a closed segment and the live one hold ----------

  predicate InHistory(hist: seq<Rec>, e: Entry) { e.firstSeq <= e.lastSeq < |hist| }

  /** The bytes of a closed segment, and those it had before its last record. */
  function BytesOf(hist: seq<Rec>, e: Entry): nat
    requires InHistory(hist, e)
  {
    |Container(hist[e.firstSeq..e.lastSeq + 1])|
  }

  function BytesBefore(hist: seq<Rec>, e: Entry): nat
    requires InHistory(hist, e)
  {
    |Container(hist[e.firstSeq..e.lastSeq])|
  }

  /** Before its last record it was below the threshold, or held only the continuation that opened it. */
  ghost predicate CutInTime(b: nat, hist: seq<Rec>, e: Entry, i: nat)
    requires InHistory(hist, e)
  {
    BytesBefore(hist, e) < b || (i > 0 && e.lastSeq == e.firstSeq + 1)
  }

  /** Closed segment `i`, in which `u` cuts were left undone. */
  ghost predicate ClosedAs(th: Threshold, hist: seq<Rec>, e: Entry, i: nat, u: nat) {
    && InHistory(hist, e)
    && match th
       case ByCount(n) => e.records == Quota(n, i) + u
       case BySize(b) => BytesOf(hist, e) >= b && (CutInTime(b, hist, e, i) <==> u == 0)
  }

  /** The live segment, from `s` on: below the threshold, or left at it by a crash. */
  ghost predicate LiveAs(th: Threshold, hist: seq<Rec>, s: int, i: nat, u: nat) {
    && 0 <= s <= |hist| && (i > 0 ==> s < |hist|)
    && match th
       case ByCount(n) => (if u == 0 then |hist| - s < Quota(n, i) else |hist| - s == Quota(n, i) - 1 + u)
       case BySize(b) =>
         if u == 0 then |Container(hist[s..])| < b || (i > 0 && |hist| == s + 1)
         else |Container(hist[s..])| >= b && (i > 0 ==> |hist| >= s + 2)
  }

  ghost predicate Sized(th: Threshold, t: Story, us: seq<nat>) {
    && |us| == |t.entries| + 1
    && (forall i :: 0 <= i < |t.entries| ==> ClosedAs(th, t.hist, t.entries[i], i, us[i]))
    && LiveAs(th, t.hist, Start(t.entries), |t.entries|, us[|t.entries|])
  }

  lemma ClosedStays(th: Threshold, hist: seq<Rec>, hist': seq<Rec>, e: Entry, i: nat, u: nat)
    requires ClosedAs(th, hist, e, i, u) && hist <= hist'
    ensures ClosedAs(th, hist', e, i, u)
  {
    assert hist'[e.firstSeq..e.lastSeq + 1] == hist[e.firstSeq..e.lastSeq + 1];
    assert hist'[e.firstSeq..e.lastSeq] == hist[e.firstSeq..e.lastSeq];
  }

  lemma AllStay(th: Threshold, t: Story, t': Story, us: seq<nat>)
    requires Sized(th, t, us) && t.hist <= t'.hist
    ensures forall i :: 0 <= i < |t.entries| ==> ClosedAs(th, t'.hist, t.entries[i], i, us[i])
  {
    hide ClosedAs, LiveAs;
    forall i | 0 <= i < |t.entries| ensures ClosedAs(th, t'.hist, t.entries[i], i, us[i]) {
      ClosedStays(th, t.hist, t'.hist, t.entries[i], i, us[i]);
    }
  }

  lemma LiveCloses(sha: Sha, th: Threshold, hist: seq<Rec>, r: Rec, live: Name, s: nat, i: nat, u: nat)
    requires Positive(th) && LiveAs(th, hist, s, i, u)
    requires Reaches(th, |hist| + 1 - s, |Container((hist + [r])[s..])|)
    ensures ClosedAs(th, hist + [r], EntryFor(sha, hist + [r], live, s, |hist|), i, u)
  {
    assert (hist + [r])[s..|hist|] == hist[s..];
    assert (hist + [r])[s..|hist| + 1] == (hist + [r])[s..];
    hide *;
    LiveBounds(th, hist, s, i, u);
    ClosingSpan(sha, hist + [r], live, s, |hist|);
    var e := EntryFor(sha, hist + [r], live, s, |hist|);
    match th {
      case ByCount(n) => CountCloses(n, hist, r, s, i, u, e);
      case BySize(b) => BytesClose(b, hist, r, s, i, u, e);
    }
  }

  lemma LiveBounds(th: Threshold, hist: seq<Rec>, s: int, i: nat, u: nat)
    requires LiveAs(th, hist, s, i, u)
    ensures 0 <= s <= |hist|
  {
    hide Container;
  }

  lemma ClosingSpan(sha: Sha, hist: seq<Rec>, file: Name, s: nat, last: nat)
    requires s <= last < |hist|
    ensures var e := EntryFor(sha, hist, file, s, last);
      e.firstSeq == s && e.lastSeq == last && e.records == last + 1 - s
  {
  }

  lemma CountCloses(n: nat, hist: seq<Rec>, r: Rec, s: nat, i: nat, u: nat, e: Entry)
    requires n >= 1 && LiveAs(ByCount(n), hist, s, i, u) && |hist| + 1 - s >= n && s <= |hist|
    requires e.firstSeq == s && e.lastSeq == |hist| && e.records == |hist| + 1 - s
    ensures ClosedAs(ByCount(n), hist + [r], e, i, u)
  {
  }

  lemma BytesClose(b: nat, hist: seq<Rec>, r: Rec, s: nat, i: nat, u: nat, e: Entry)
    requires LiveAs(BySize(b), hist, s, i, u) && |Container((hist + [r])[s..])| >= b && s <= |hist|
    requires e.firstSeq == s && e.lastSeq == |hist|
    requires (hist + [r])[s..|hist|] == hist[s..] && (hist + [r])[s..|hist| + 1] == (hist + [r])[s..]
    ensures ClosedAs(BySize(b), hist + [r], e, i, u)
  {
    hide Container;
  }

  lemma SizedParts(th: Threshold, t: Story, us: seq<nat>)
    requires Sized(th, t, us)
    ensures |us| == |t.entries| + 1
    ensures forall i :: 0 <= i < |t.entries| ==> ClosedAs(th, t.hist, t.entries[i], i, us[i])
    ensures LiveAs(th, t.hist, Start(t.entries), |t.entries|, us[|t.entries|])
  {
    hide ClosedAs, LiveAs, Start;
  }

  lemma SizedMade(th: Threshold, t: Story, us: seq<nat>)
    requires |us| == |t.entries| + 1
    requires forall i :: 0 <= i < |t.entries| ==> ClosedAs(th, t.hist, t.entries[i], i, us[i])
    requires LiveAs(th, t.hist, Start(t.entries), |t.entries|, us[|t.entries|])
    ensures Sized(th, t, us)
  {
    hide ClosedAs, LiveAs, Start;
  }

  lemma FreshLive(th: Threshold, hist: seq<Rec>, i: nat)
    requires Positive(th) && i > 0 && |hist| >= 1
    ensures LiveAs(th, hist, |hist| - 1, i, 0)
  {
    hide Container;
  }

  lemma ClosesParts(sha: Sha, t: Story, t': Story)
    requires Closes(sha, t, t')
    ensures 0 <= Start(t.entries) <= |t.hist| && |t'.hist| == |t.hist| + 2 && t.hist <= t'.hist
    ensures t'.entries == t.entries + [EntryFor(sha, t'.hist[..|t.hist| + 1], t.live, Start(t.entries), |t.hist|)]
    ensures Start(t'.entries) == |t.hist| + 1
  {
    hide ToBytes, FrontierTo, RootTo, PrevHash, RecHash;
  }

  lemma SizedCloses(sha: Sha, th: Threshold, t: Story, t': Story, us: seq<nat>, r: Rec)
    requires Sized(th, t, us) && Closes(sha, t, t') && Positive(th) && t.hist + [r] <= t'.hist
    requires 0 <= Start(t.entries) <= |t.hist|
    requires Reaches(th, |t.hist| + 1 - Start(t.entries), |Container((t.hist + [r])[Start(t.entries)..])|)
    ensures Sized(th, t', us + [0])
  {
    hide *;
    SizedParts(th, t, us);
    ClosesParts(sha, t, t');
    AllStay(th, t, t', us);
    var m, s := |t.entries|, Start(t.entries);
    assert t'.hist[..|t.hist| + 1] == t.hist + [r];
    LiveCloses(sha, th, t.hist, r, t.live, s, m, us[m]);
    ClosedStays(th, t.hist + [r], t'.hist, t'.entries[m], m, us[m]);
    FreshLive(th, t'.hist, m + 1);
    forall i | 0 <= i < |t'.entries| ensures ClosedAs(th, t'.hist, t'.entries[i], i, (us + [0])[i]) {
      if i < m {
        assert t'.entries[i] == t.entries[i] && (us + [0])[i] == us[i];
      }
    }
    SizedMade(th, t', us + [0]);
  }

  lemma LiveGrows(th: Threshold, hist: seq<Rec>, r: Rec, s: nat, i: nat, u: nat)
    requires Positive(th) && LiveAs(th, hist, s, i, u)
    ensures LiveAs(th, hist + [r], s, i,
                   if Reaches(th, |hist| + 1 - s, |Container((hist + [r])[s..])|) then u + 1 else u)
  {
    SuffixGrows(hist, r, s);
    hide Container, RecBytes;
  }

  lemma SizedGrows(th: Threshold, t: Story, t': Story, us: seq<nat>, r: Rec)
    requires Sized(th, t, us) && Positive(th) && t'.entries == t.entries && t'.hist == t.hist + [r]
    requires 0 <= Start(t.entries) <= |t.hist|
    ensures |us| == |t.entries| + 1
    ensures Sized(th, t',
                  if Reaches(th, |t.hist| + 1 - Start(t.entries), |Container((t.hist + [r])[Start(t.entries)..])|)
                          then us[|t.entries| := us[|t.entries|] + 1] else us)
  {
    hide *;
    SizedParts(th, t, us);
    var m := |t.entries|;
    LiveGrows(th, t.hist, r, Start(t.entries), m, us[m]);
    AllStay(th, t, t', us);
    SizedMade(th, t', if Reaches(th, |t.hist| + 1 - Start(t.entries), |Container((t.hist + [r])[Start(t.entries)..])|)
                      then us[|t.entries| := us[|t.entries|] + 1] else us);
  }

  // ---------- one event ----------

  ghost predicate Counted(th: Threshold, s: Sys, us: seq<nat>) {
    && Sized(th, s.story, us)
    && (s.writer.Some? ==> s.writer.value.rotation.Some? && Only(s.writer.value.rotation.value, th))
  }

  ghost predicate Prompt(s: Sys) { s.writer.Some? ==> !s.writer.value.rotationDue }

  /** The counts after one more event. */
  ghost function Counts(sha: Sha, th: Threshold, s: Sys, e: Event, us: seq<nat>): seq<nat>
    requires |us| == |s.story.entries| + 1
  {
    if Uncut(sha, th, s, e) then us[|s.story.entries| := us[|s.story.entries|] + 1]
    else if |Step(sha, s, e).story.entries| > |s.story.entries| then us + [0]
    else us
  }

  lemma OneMore(t: Story, t': Story, r: Rec)
    requires t.hist + [r] <= t'.hist && |t'.hist| == |t.hist| + 1
    ensures t'.hist == t.hist + [r]
  {
  }

  lemma WriteCounted(sha: Sha, th: Threshold, s: Sys, x: Draft, c1: Clock, c2: Clock, us: seq<nat>)
    requires Inv(sha, s) && Positive(th) && Counted(th, s, us) && |us| == |s.story.entries| + 1
    requires Prompt(s) && Prompt(Step(sha, s, Write(x, c1, c2)))
    ensures Counted(th, Step(sha, s, Write(x, c1, c2)), Counts(sha, th, s, Write(x, c1, c2), us))
  {
    hide *;
    var e, s' := Write(x, c1, c2), Step(sha, s, Write(x, c1, c2));
    NotWritten(sha, s, x, c1, c2);
    WriteCounts(sha, th, s, x, c1, c2, us);
    CountedIs(th, s, us);
    CountedIs(th, s', Counts(sha, th, s, e, us));
    if CanWrite(s, x, c1, c2) {
      CanWriteParts(s, x, c1, c2);
      var w1, r := WriteDue(sha, s, x, c1, c2);
      PromptIs(s);
      PromptIs(s');
      DueByThreshold(w1, c1.monotonicS, th);
      if Reaches(th, w1.segRecords, w1.segBytes) {
        SizedCloses(sha, th, s.story, s'.story, us, r);
        CloseSize(sha, s.story, s'.story);
      } else {
        OneMore(s.story, s'.story, r);
        SizedGrows(th, s.story, s'.story, us, r);
      }
    }
  }

  lemma WriteCounts(sha: Sha, th: Threshold, s: Sys, x: Draft, c1: Clock, c2: Clock, us: seq<nat>)
    requires |us| == |s.story.entries| + 1
    ensures Counts(sha, th, s, Write(x, c1, c2), us) ==
      if |Step(sha, s, Write(x, c1, c2)).story.entries| > |s.story.entries| then us + [0] else us
  {
    hide Step;
  }

  lemma UncutIs(sha: Sha, th: Threshold, s: Sys, x: Draft, c1: Clock, c2: Clock, k: nat, m: nat)
    requires CanWrite(s, x, c1, c2) && CanEmit(s.writer.value, s.disk, x, c1, c2)
    requires CanStamp(Started(s.writer.value), x, c1)
    ensures Uncut(sha, th, s, CrashInWrite(x, c1, c2, k, m)) <==> (
      && k <= |Emit(sha, s.writer.value, s.disk, x, c1, c2).1| && Durable(sha, s.writer.value, x, c1, k, m) && k < WHOLE
      && Reaches(th, s.writer.value.segRecords + 1,
                 s.writer.value.segBytes + |RecBytes(Stamp(sha, Started(s.writer.value), x, c1))|))
  {
    hide CanWrite, CanEmit, Emit, Durable, Reaches, Stamp, RecBytes;
  }

  lemma NotUncut(sha: Sha, th: Threshold, s: Sys, x: Draft, c1: Clock, c2: Clock, k: nat, m: nat)
    requires !CanWrite(s, x, c1, c2)
    ensures !Uncut(sha, th, s, CrashInWrite(x, c1, c2, k, m))
  {
    hide CanWrite, CanEmit, Emit, Durable, Reaches, Stamp, RecBytes;
  }

  lemma CountedIs(th: Threshold, s: Sys, us: seq<nat>)
    ensures Counted(th, s, us) <==> (
      && Sized(th, s.story, us)
      && (s.writer.Some? ==> s.writer.value.rotation.Some? && Only(s.writer.value.rotation.value, th)))
  {
    hide Sized, Only;
  }

  lemma CrashCounted(sha: Sha, th: Threshold, s: Sys, x: Draft, c1: Clock, c2: Clock, k: nat, m: nat, us: seq<nat>)
    requires Inv(sha, s) && Positive(th) && Counted(th, s, us) && |us| == |s.story.entries| + 1 && Prompt(s)
    ensures Counted(th, Step(sha, s, CrashInWrite(x, c1, c2, k, m)),
                    Counts(sha, th, s, CrashInWrite(x, c1, c2, k, m), us))
  {
    hide *;
    var e := CrashInWrite(x, c1, c2, k, m);
    NotCrashed(sha, s, x, c1, c2, k, m);
    CountsIs(sha, th, s, e, us);
    if CanWrite(s, x, c1, c2) {
      CrashSized(sha, th, s, x, c1, c2, k, m, us);
    } else {
      NotUncut(sha, th, s, x, c1, c2, k, m);
    }
  }

  lemma CrashSized(sha: Sha, th: Threshold, s: Sys, x: Draft, c1: Clock, c2: Clock, k: nat, m: nat, us: seq<nat>)
    requires Inv(sha, s) && Positive(th) && Counted(th, s, us) && |us| == |s.story.entries| + 1 && Prompt(s)
    requires CanWrite(s, x, c1, c2)
    ensures Counted(th, Step(sha, s, CrashInWrite(x, c1, c2, k, m)),
                    Counts(sha, th, s, CrashInWrite(x, c1, c2, k, m), us))
  {
    hide *;
    var e := CrashInWrite(x, c1, c2, k, m);
    var s' := Step(sha, s, e);
    CanWriteParts(s, x, c1, c2);
    GoodStamp(s.writer.value, x, c1, c2);
    StampSame(sha, s.writer.value, x, c1);
    BeforeFits(sha, s.writer.value, s.disk, x, c1, c2);
    NotCrashed(sha, s, x, c1, c2, k, m);
    CountsIs(sha, th, s, e, us);
    UncutIs(sha, th, s, x, c1, c2, k, m);
    CountedIs(th, s, us);
    CountedIs(th, s', Counts(sha, th, s, e, us));
    if k <= |Emit(sha, s.writer.value, s.disk, x, c1, c2).1| {
      var w1, r := CrashDue(sha, s, x, c1, c2, k, m);
      PromptIs(s);
      if Durable(sha, s.writer.value, x, c1, k, m) {
        if k >= WHOLE {
          DueByThreshold(w1, c1.monotonicS, th);
          SizedCloses(sha, th, s.story, s'.story, us, r);
          CloseSize(sha, s.story, s'.story);
        } else {
          OneMore(s.story, s'.story, r);
          SizedGrows(th, s.story, s'.story, us, r);
        }
      }
    }
  }

  lemma PromptIs(s: Sys)
    ensures Prompt(s) <==> (s.writer.Some? ==> !s.writer.value.rotationDue)
  {
  }

  lemma NotCrashed(sha: Sha, s: Sys, x: Draft, c1: Clock, c2: Clock, k: nat, n: nat)
    ensures !CanWrite(s, x, c1, c2) ==> Step(sha, s, CrashInWrite(x, c1, c2, k, n)) == s
    ensures (CanWrite(s, x, c1, c2) && CanEmit(s.writer.value, s.disk, x, c1, c2)
             && k > |Emit(sha, s.writer.value, s.disk, x, c1, c2).1|) ==>
               Step(sha, s, CrashInWrite(x, c1, c2, k, n)) == s
  {
    hide CanWrite, Emit, CanEmit, Told, CrashDisk;
  }

  /** The only threshold any writer of the run is given is this one. */
  predicate Given(e: Event, th: Threshold) {
    && (e.Begin? ==> e.rotation.Some? && Only(e.rotation.value, th))
    && (e.Resume? ==> e.rotation.Some? && Only(e.rotation.value, th))
  }

  /** What the other events leave of writer and story. */
  lemma QuietStep(sha: Sha, th: Threshold, s: Sys, e: Event)
    requires Inv(sha, s) && Distinct(sha, s.story.hist) && !e.Write? && !e.CrashInWrite? && Given(e, th)
    ensures var s' := Step(sha, s, e);
      && s'.story == s.story
      && (s'.writer.Some? ==>
            || (s.writer.Some? && s'.writer.value == s.writer.value)
            || (s'.writer.value.rotation.Some? && Only(s'.writer.value.rotation.value, th)))
  {
    hide Inv, Distinct, CanResume, Newest, OpenExisting, CrashDisk, ApplyAll, NothingYet, Resumed, Only, PolicyOk;
    match e {
      case Resume(name, rotation, id, now) =>
        if CanResume(sha, s, name, rotation, id, now) {
          ResumeFacts(sha, s, name, rotation, id, now);
          ResumedPolicy(sha, s.story, s.tail, rotation, id, now);
        }
      case _ =>
    }
  }

  lemma ResumedPolicy(sha: Sha, t: Story, tail: Bytes, rotation: Option<Policy>, id: Identity, now: real)
    requires 0 <= Start(t.entries) < |t.hist|
    ensures Resumed(sha, t, tail, rotation, id, now).rotation == rotation
  {
  }

  lemma CountedStep(sha: Sha, th: Threshold, s: Sys, e: Event, us: seq<nat>)
    requires Inv(sha, s) && Distinct(sha, s.story.hist) && Positive(th) && Given(e, th)
    requires Counted(th, s, us) && |us| == |s.story.entries| + 1 && Prompt(s) && Prompt(Step(sha, s, e))
    ensures Counted(th, Step(sha, s, e), Counts(sha, th, s, e, us))
  {
    hide Inv, Distinct, Step, Sized, Emit, CanEmit, CanWrite, Durable, Only, Reaches, Stamp;
    match e {
      case Write(x, c1, c2) => WriteCounted(sha, th, s, x, c1, c2, us);
      case CrashInWrite(x, c1, c2, k, m) => CrashCounted(sha, th, s, x, c1, c2, k, m, us);
      case _ => QuietStep(sha, th, s, e);
    }
  }

  // ---------- whole runs ----------

  /** A run whose writers all have the one threshold, and never meet it with a span open. */
  ghost predicate CountedRun(sha: Sha, events: seq<Event>, th: Threshold) {
    && (forall i :: 0 <= i < |events| ==> Given(events[i], th))
    && (forall i :: 0 <= i <= |events| ==> Prompt(Run(sha, events[..i])))
  }

  lemma CountedPrefix(sha: Sha, events: seq<Event>, th: Threshold)
    requires CountedRun(sha, events, th) && events != []
    ensures CountedRun(sha, events[..|events| - 1], th) && Given(events[|events| - 1], th)
    ensures Prompt(Run(sha, events)) && Prompt(Run(sha, events[..|events| - 1]))
  {
    hide Run, Prompt, Given;
    var before := events[..|events| - 1];
    assert events[..|events|] == events;
    forall i | 0 <= i <= |before| ensures Prompt(Run(sha, before[..i])) {
      assert before[..i] == events[..i];
    }
    forall i | 0 <= i < |before| ensures Given(before[i], th) {
      assert before[i] == events[i];
    }
  }

  lemma UncutsStep(sha: Sha, th: Threshold, events: seq<Event>, i: nat)
    requires events != []
    ensures var before := events[..|events| - 1];
      Uncuts(sha, th, events, i) == Uncuts(sha, th, before, i) +
        (if Uncut(sha, th, Run(sha, before), events[|events| - 1])
         && |Run(sha, before).story.entries| == i then 1 else 0)
  {
    hide Run, Uncut;
  }

  lemma UncutStays(sha: Sha, th: Threshold, s: Sys, e: Event)
    requires Inv(sha, s) && Uncut(sha, th, s, e)
    ensures Step(sha, s, e).story.entries == s.story.entries
  {
    hide Inv, CanWrite, Emit, CanEmit, Durable, Step, Reaches, Stamp;
    var w1, r := CrashDue(sha, s, e.x, e.c1, e.c2, e.k, e.n);
  }

  lemma {:induction false} CountsAdd(sha: Sha, th: Threshold, events: seq<Event>) returns (us: seq<nat>)
    requires CountedRun(sha, events, th) && Positive(th) && NoCollision(sha, HeaderSetOf(Run(sha, events).story.hist))
    ensures Counted(th, Run(sha, events), us) && |us| == |Run(sha, events).story.entries| + 1
    ensures forall i: nat :: Uncuts(sha, th, events, i) == if i < |us| then us[i] else 0
    decreases |events|
  {
    hide *;
    if events == [] {
      us := [0];
      NothingCounted(sha, th, us);
    } else {
      var before := events[..|events| - 1];
      var s, e := Run(sha, before), events[|events| - 1];
      CountedPrefix(sha, events, th);
      RunLast(sha, events);
      HistoryGrows(sha, s, e);
      FewerHeaders(sha, s.story.hist, Run(sha, events).story.hist);
      var was := CountsAdd(sha, th, before);
      RunKeeps(sha, before);
      InvHistory(sha, s);
      NumbersKeepApart(sha, s.story.hist);
      CountedStep(sha, th, s, e, was);
      us := Counts(sha, th, s, e, was);
      CountedSize(th, Run(sha, events), us);
      if Uncut(sha, th, s, e) {
        UncutStays(sha, th, s, e);
      }
      CountsIs(sha, th, s, e, was);
      forall i: nat ensures Uncuts(sha, th, events, i) == if i < |us| then us[i] else 0 {
        UncutsStep(sha, th, events, i);
      }
    }
  }

  lemma CountedSize(th: Threshold, s: Sys, us: seq<nat>)
    requires Counted(th, s, us)
    ensures |us| == |s.story.entries| + 1
  {
  }

  lemma CountsIs(sha: Sha, th: Threshold, s: Sys, e: Event, us: seq<nat>)
    requires |us| == |s.story.entries| + 1
    ensures Counts(sha, th, s, e, us) ==
      if Uncut(sha, th, s, e) then us[|s.story.entries| := us[|s.story.entries|] + 1]
      else if |Step(sha, s, e).story.entries| > |s.story.entries| then us + [0]
      else us
  {
    hide Uncut, Step;
  }

  lemma RunLast(sha: Sha, events: seq<Event>)
    requires events != []
    ensures Run(sha, events) == Step(sha, Run(sha, events[..|events| - 1]), events[|events| - 1])
  {
    hide Step;
  }

  lemma NothingCounted(sha: Sha, th: Threshold, us: seq<nat>)
    requires Positive(th) && us == [0]
    ensures Counted(th, Run(sha, []), us) && Run(sha, []).story.entries == []
    ensures forall i: nat :: Uncuts(sha, th, [], i) == 0
  {
    hide Uncut, Step;
  }

  lemma {:induction false} NoneUncut(sha: Sha, th: Threshold, events: seq<Event>, i: nat)
    ensures Uncuts(sha, th, events, i) == 0 <==> forall j :: 0 <= j < |events| ==> !UncutAt(sha, th, events, i, j)
    decreases |events|
  {
    hide *;
    if events == [] {
      NoUncuts(sha, th, i);
    } else {
      var before := events[..|events| - 1];
      NoneUncut(sha, th, before, i);
      UncutsStep(sha, th, events, i);
      UncutAtIs(sha, th, events, i, |before|);
      assert events[..|before|] == before;
      forall j | 0 <= j < |before| ensures UncutAt(sha, th, events, i, j) <==> UncutAt(sha, th, before, i, j) {
        assert events[..j] == before[..j] && events[j] == before[j];
        UncutAtIs(sha, th, events, i, j);
        UncutAtIs(sha, th, before, i, j);
      }
    }
  }

  lemma UncutAtIs(sha: Sha, th: Threshold, events: seq<Event>, i: nat, j: int)
    requires 0 <= j < |events|
    ensures UncutAt(sha, th, events, i, j) <==>
      Uncut(sha, th, Run(sha, events[..j]), events[j]) && |Run(sha, events[..j]).story.entries| == i
  {
    hide Run, Uncut;
  }

  lemma NoUncuts(sha: Sha, th: Threshold, i: nat)
    ensures Uncuts(sha, th, [], i) == 0
  {
  }

  lemma CountedParts(th: Threshold, s: Sys, us: seq<nat>)
    requires Counted(th, s, us)
    ensures |us| == |s.story.entries| + 1
    ensures forall i :: 0 <= i < |s.story.entries| ==> ClosedAs(th, s.story.hist, s.story.entries[i], i, us[i])
    ensures LiveAs(th, s.story.hist, Start(s.story.entries), |s.story.entries|, us[|s.story.entries|])
  {
    hide Start, LiveAs, ClosedAs;
  }

  // ---------- the laws ----------

  lemma ByCountIs(n: nat, hist: seq<Rec>, e: Entry, i: nat, u: nat)
    requires ClosedAs(ByCount(n), hist, e, i, u)
    ensures e.records == Quota(n, i) + u
  {
  }

  /** Over every run under `max_records = n` alone, with no span open at the threshold: closed segment
      `i` holds its quota and one record for every crash that left it at the threshold without its cut.
      So it holds its quota exactly iff there was no such crash. */
  lemma SegmentsAreExact(sha: Sha, n: nat, events: seq<Event>, s: Sys)
    requires s == Run(sha, events) && CountedRun(sha, events, ByCount(n)) && n >= 1
    requires NoCollision(sha, HeaderSetOf(s.story.hist))
    ensures forall i :: 0 <= i < |s.story.entries| ==>
      s.story.entries[i].records == Quota(n, i) + Uncuts(sha, ByCount(n), events, i)
    ensures forall i :: 0 <= i < |s.story.entries| ==> (
      s.story.entries[i].records == Quota(n, i) <==>
        forall j :: 0 <= j < |events| ==> !UncutAt(sha, ByCount(n), events, i, j))
    ensures LiveAs(ByCount(n), s.story.hist, Start(s.story.entries), |s.story.entries|,
                   Uncuts(sha, ByCount(n), events, |s.story.entries|))
  {
    hide *;
    PositiveIs(ByCount(n));
    var us := CountsAdd(sha, ByCount(n), events);
    CountedParts(ByCount(n), s, us);
    forall i | 0 <= i < |s.story.entries|
      ensures s.story.entries[i].records == Quota(n, i) + Uncuts(sha, ByCount(n), events, i)
      ensures s.story.entries[i].records == Quota(n, i) <==>
        forall j :: 0 <= j < |events| ==> !UncutAt(sha, ByCount(n), events, i, j)
    {
      ByCountIs(n, s.story.hist, s.story.entries[i], i, us[i]);
      NoneUncut(sha, ByCount(n), events, i);
    }
  }

  lemma PositiveIs(th: Threshold)
    ensures Positive(th) <==> if th.ByCount? then th.n >= 1 else th.b >= 1
  {
  }

  lemma BySizeIs(b: nat, hist: seq<Rec>, e: Entry, i: nat, u: nat)
    requires ClosedAs(BySize(b), hist, e, i, u)
    ensures InHistory(hist, e) && BytesOf(hist, e) >= b && (CutInTime(b, hist, e, i) <==> u == 0)
  {
    hide BytesOf, CutInTime;
  }

  /** Over every run under `max_bytes = b` alone, with no span open at the threshold: a closed segment
      has at least `b` bytes. Before its last record it had fewer, or only its continuation, iff no
      crash left it at the threshold without its cut. */
  lemma SegmentsAreFull(sha: Sha, b: nat, events: seq<Event>, s: Sys)
    requires s == Run(sha, events) && CountedRun(sha, events, BySize(b)) && b >= 1
    requires NoCollision(sha, HeaderSetOf(s.story.hist))
    ensures forall i :: 0 <= i < |s.story.entries| ==>
      InHistory(s.story.hist, s.story.entries[i]) && BytesOf(s.story.hist, s.story.entries[i]) >= b
    ensures forall i :: 0 <= i < |s.story.entries| ==> (
      CutInTime(b, s.story.hist, s.story.entries[i], i) <==>
        forall j :: 0 <= j < |events| ==> !UncutAt(sha, BySize(b), events, i, j))
  {
    hide *;
    PositiveIs(BySize(b));
    var us := CountsAdd(sha, BySize(b), events);
    CountedParts(BySize(b), s, us);
    forall i | 0 <= i < |s.story.entries|
      ensures InHistory(s.story.hist, s.story.entries[i]) && BytesOf(s.story.hist, s.story.entries[i]) >= b
      ensures CutInTime(b, s.story.hist, s.story.entries[i], i) <==>
        forall j :: 0 <= j < |events| ==> !UncutAt(sha, BySize(b), events, i, j)
    {
      BySizeIs(b, s.story.hist, s.story.entries[i], i, us[i]);
      NoneUncut(sha, BySize(b), events, i);
    }
  }

  /** Without a crash in a write, also across closes, resumes and deletions: the first closed segment
      holds exactly `n` records and every later one exactly `max(n, 2)`. */
  lemma UncrashedIsExact(sha: Sha, n: nat, events: seq<Event>, s: Sys)
    requires s == Run(sha, events) && CountedRun(sha, events, ByCount(n)) && n >= 1
    requires NoCollision(sha, HeaderSetOf(s.story.hist))
    requires forall j :: 0 <= j < |events| ==> !events[j].CrashInWrite?
    ensures forall i :: 0 <= i < |s.story.entries| ==> s.story.entries[i].records == Quota(n, i)
  {
    hide *;
    SegmentsAreExact(sha, n, events, s);
    forall i, j | 0 <= i < |s.story.entries| && 0 <= j < |events| ensures !UncutAt(sha, ByCount(n), events, i, j) {
      UncutAtIs(sha, ByCount(n), events, i, j);
      UncutIsCrash(sha, ByCount(n), Run(sha, events[..j]), events[j]);
    }
  }

  lemma UncutIsCrash(sha: Sha, th: Threshold, s: Sys, e: Event)
    ensures Uncut(sha, th, s, e) ==> e.CrashInWrite?
  {
  }

  // ---------- a cut left undone makes a longer segment ----------

  /** Two records a segment; the second write crashes after its record and before the rename; the chain is
      resumed and takes the record that says so. */
  function UndoneCut(k: nat): seq<Event> {
    [] + [Begin(NOBODY, Some(TWO_EACH), 0.0)] + [Write(Blank(RT_GENESIS), MIDNIGHT, MIDNIGHT)]
    + [CrashInWrite(Blank(RT_EVENT), MIDNIGHT, MIDNIGHT, k, 0)] + [Resume(Base, Some(TWO_EACH), NOBODY, 0.0)]
    + [Write(Blank(RT_BOOT), MIDNIGHT, MIDNIGHT)]
  }

  lemma CutLength(sha: Sha, w1: WState, d1: Disk, c1: Clock, c2: Clock)
    requires IdentityOk(w1.id) && ClockOk(c2) && Room(w1) && SourceOk(w1, d1) && Cuts(w1, c1.monotonicS)
    ensures |MaybeRotate(sha, w1, d1, c1, c2).1| == 3
  {
    CutsNeedPolicy(w1, c1.monotonicS);
    hide CutRecord, ClosedEntry, AfterCut, AppendAll, Append, NextIndex, Walk;
  }

  lemma EmitLength(sha: Sha, w: WState, d: Disk, x: Draft, c1: Clock, c2: Clock)
    requires EmitFits(w, x, c1, c2) && SourceOk(w, d) && !Refuses(w, x.recordType) && CanEmit(w, d, x, c1, c2)
    requires CanStamp(w, x, c1) && Cuts(Before(sha, w, d, x, c1).0, c1.monotonicS)
    ensures |Emit(sha, w, d, x, c1, c2).1| == WHOLE == 4
  {
    EmitIs(sha, w, d, x, c1, c2);
    EmitParts(w, d, x, c1, c2);
    BeforeFits(sha, w, d, x, c1, c2);
    var (w1, d1, r) := Before(sha, w, d, x, c1);
    CutLength(sha, w1, d1, c1, c2);
    hide Emit, Before, MaybeRotate, EmitFits, CanEmit, Cuts, SourceOk, Refuses, Room;
  }

  lemma CrashTail(sha: Sha, s: Sys, x: Draft, c1: Clock, c2: Clock, k: nat)
    requires Inv(sha, s) && CanWrite(s, x, c1, c2) && CanEmit(s.writer.value, s.disk, x, c1, c2) && k > 0
    requires k <= |Emit(sha, s.writer.value, s.disk, x, c1, c2).1|
    ensures Step(sha, s, CrashInWrite(x, c1, c2, k, 0)).tail == []
  {
    hide *;
    CrashStory(sha, s, x, c1, c2, k, 0);
  }

  /** The crash of the example: the record is there, its cut is not. */
  lemma BlankLeftUncut(sha: Sha, s: Sys, k: nat, s': Sys)
    requires Idle(sha, s, TWO_EACH) && s.story.entries == [] && |s.story.hist| == 1 && 1 <= k <= 3
    requires s' == Step(sha, s, CrashInWrite(Blank(RT_EVENT), MIDNIGHT, MIDNIGHT, k, 0))
    ensures Inv(sha, s') && s'.writer.None? && s'.tail == [] && s'.story.entries == [] && |s'.story.hist| == 2
  {
    hide *;
    var x := Blank(RT_EVENT);
    TwoCutsAre();
    BlankWrites(sha, s, RT_EVENT, TWO_EACH);
    IdleParts(sha, s, TWO_EACH);
    var w, d := s.writer.value, s.disk;
    BlankFields(RT_EVENT);
    CanWriteParts(s, x, MIDNIGHT, MIDNIGHT);
    GoodStamp(w, x, MIDNIGHT, MIDNIGHT);
    BeforeFits(sha, w, d, x, MIDNIGHT, MIDNIGHT);
    BeforeId(sha, w, d, x, MIDNIGHT);
    NoSpans(w.openSpans, RT_EVENT, ZERO16);
    StartOfNone();
    InvGoodCounts(sha, s);
    TwoIsDue(Before(sha, w, d, x, MIDNIGHT).0);
    EmitLength(sha, w, d, x, MIDNIGHT, MIDNIGHT);
    WriteCrashKeeps(sha, s, x, MIDNIGHT, MIDNIGHT, k, 0);
    var w1, r := CrashDue(sha, s, x, MIDNIGHT, MIDNIGHT, k, 0);
    DurableIs(sha, w, x, MIDNIGHT, k, 0);
    CrashTail(sha, s, x, MIDNIGHT, MIDNIGHT, k);
  }

  lemma ExamplePolicy(d: Disk, tail: Bytes)
    ensures PolicyAllowed(d, Some(TWO_EACH)) && IdentityOk(NOBODY) && Example(TWO_EACH)
  {
  }

  lemma CanResumeMade(sha: Sha, s: Sys, name: Name, rotation: Option<Policy>, id: Identity, now: real)
    requires s.writer.None? && IdentityOk(id) && PolicyAllowed(s.disk, rotation) && Newest(s.disk, name)
    requires OpenExisting(sha, s.disk, name, rotation, id, true, now).Some?
    ensures CanResume(sha, s, name, rotation, id, now)
  {
    hide OpenExisting, Newest, PolicyAllowed;
  }

  /** The resume of the example: the two records, in a segment that is already full. */
  lemma FullSegmentResumes(sha: Sha, s: Sys, s': Sys)
    requires Inv(sha, s) && s.writer.None? && s.tail == [] && s.story.entries == [] && |s.story.hist| == 2
    requires Distinct(sha, s.story.hist)
    requires s' == Step(sha, s, Resume(Base, Some(TWO_EACH), NOBODY, 0.0))
    ensures Inv(sha, s') && s'.story == s.story && s'.writer.Some?
    ensures var w := s'.writer.value;
      && w.rotation == Some(TWO_EACH) && w.id == NOBODY && w.seqNo == 2 && w.segOrdinal == Some(0)
      && w.openSpans == {} && !w.rotationDue && w.started && w.bootPending
  {
    hide *;
    InvParts(sha, s);
    InvHistory(sha, s);
    ZeroStart(sha, s.story);
    ExamplePolicy(s.disk, s.tail);
    LiveResumes(sha, s.story, s.disk, s.tail, Some(TWO_EACH), NOBODY, 0.0);
    NewestIsLive(sha, s.story, s.disk, s.tail, Base);
    CanResumeMade(sha, s, Base, Some(TWO_EACH), NOBODY, 0.0);
    ResumeKeepsInv(sha, s, Base, Some(TWO_EACH), NOBODY, 0.0);
    ResumeIs(sha, s, Base, Some(TWO_EACH), NOBODY, 0.0, Resumed(sha, s.story, s.tail, Some(TWO_EACH), NOBODY, 0.0),
             ResumeOps(s.story, s.disk, s.tail));
    ResumedFields(sha, s.story, s.tail, Some(TWO_EACH), NOBODY, 0.0);
  }

  lemma ResumedFields(sha: Sha, t: Story, tail: Bytes, rotation: Option<Policy>, id: Identity, now: real)
    requires 0 <= Start(t.entries) < |t.hist|
    ensures var w := Resumed(sha, t, tail, rotation, id, now);
      && w.rotation == rotation && w.id == id && w.seqNo == |t.hist| && w.segOrdinal == Some(|t.entries|)
      && w.openSpans == {} && !w.rotationDue && w.started && w.bootPending
  {
  }

  lemma BootAllowed(w: WState)
    requires w.started && w.bootPending
    ensures !Refuses(w, RT_BOOT)
  {
  }

  /** Its next record closes it, one record too long. */
  lemma BootCloses(sha: Sha, s: Sys, s': Sys)
    requires Inv(sha, s) && s.writer.Some? && s.story.entries == [] && |s.story.hist| == 2
    requires var w := s.writer.value;
      && w.rotation == Some(TWO_EACH) && w.id == NOBODY && w.seqNo == 2 && w.segOrdinal == Some(0)
      && w.openSpans == {} && !w.rotationDue && w.started && w.bootPending
    requires s' == Step(sha, s, Write(Blank(RT_BOOT), MIDNIGHT, MIDNIGHT))
    ensures |s'.story.entries| == 1 && s'.story.entries[0].records == 3
  {
    hide *;
    var x, w := Blank(RT_BOOT), s.writer.value;
    InvParts(sha, s);
    ExamplePolicy(s.disk, s.tail);
    GoodSource(sha, s.story, w, s.disk);
    BlankFits(w, RT_BOOT, TWO_EACH);
    BlankFields(RT_BOOT);
    BootAllowed(w);
    CanWriteMade(s, x, MIDNIGHT, MIDNIGHT);
    var w1, r := WriteDue(sha, s, x, MIDNIGHT, MIDNIGHT);
    BootOpensNothing(w.openSpans, ZERO16);
    StartOfNone();
    TwoIsDue(w1);
    FirstClosed(sha, s.story, s'.story);
  }

  lemma BootOpensNothing(open: set<Bytes>, spanId: Bytes)
    ensures NextSpans(open, RT_BOOT, spanId) == open
  {
  }

  lemma FirstClosed(sha: Sha, t: Story, t': Story)
    requires Closes(sha, t, t') && t.entries == []
    ensures |t'.entries| == 1 && t'.entries[0].records == |t.hist| + 1
  {
  }

  /** Under `max_records = 2`, wherever the second write stopped between its record and the rename, the
      first closed segment holds three records. */
  lemma UndoneCutGrows(sha: Sha, k: nat, s: Sys)
    requires 1 <= k <= 3 && s == Run(sha, UndoneCut(k)) && NoCollision(sha, HeaderSetOf(s.story.hist))
    ensures |s.story.entries| == 1 && s.story.entries[0].records == 3
  {
    hide *;
    var e0, e1 := Begin(NOBODY, Some(TWO_EACH), 0.0), Write(Blank(RT_GENESIS), MIDNIGHT, MIDNIGHT);
    var e2, e3 := CrashInWrite(Blank(RT_EVENT), MIDNIGHT, MIDNIGHT, k, 0), Resume(Base, Some(TWO_EACH), NOBODY, 0.0);
    var e4 := Write(Blank(RT_BOOT), MIDNIGHT, MIDNIGHT);
    UndoneCutIs(k);
    RunNothing(sha);
    RunSnoc(sha, [], e0);
    RunSnoc(sha, [] + [e0], e1);
    RunSnoc(sha, [] + [e0] + [e1], e2);
    RunSnoc(sha, [] + [e0] + [e1] + [e2], e3);
    RunSnoc(sha, [] + [e0] + [e1] + [e2] + [e3], e4);
    BeginsIdle(sha, TWO_EACH);
    var s0, s1, s2 := Run(sha, [] + [e0]), Run(sha, [] + [e0] + [e1]), Run(sha, [] + [e0] + [e1] + [e2]);
    var s3 := Run(sha, [] + [e0] + [e1] + [e2] + [e3]);
    BlankStays(sha, s0, s1);
    BlankLeftUncut(sha, s1, k, s2);
    HistoryGrows(sha, s2, e3);
    HistoryGrows(sha, s3, e4);
    FewerHeaders(sha, s2.story.hist, s.story.hist);
    InvHistory(sha, s2);
    NumbersKeepApart(sha, s2.story.hist);
    FullSegmentResumes(sha, s2, s3);
    BootCloses(sha, s3, s);
  }

  lemma UndoneCutIs(k: nat)
    ensures UndoneCut(k) == [] + [Begin(NOBODY, Some(TWO_EACH), 0.0)] + [Write(Blank(RT_GENESIS), MIDNIGHT, MIDNIGHT)]
      + [CrashInWrite(Blank(RT_EVENT), MIDNIGHT, MIDNIGHT, k, 0)] + [Resume(Base, Some(TWO_EACH), NOBODY, 0.0)]
      + [Write(Blank(RT_BOOT), MIDNIGHT, MIDNIGHT)]
  {
  }
}
