/** Whole runs of a chain, with or without a rotation policy: begin, write, crash anywhere, close, resume on the
    newest segment, crash inside the resume, delete old segments. */
module WriterRuns {
  import opened Bytes
  import opened Codec
  import opened Frontier
  import opened Writer
  import opened WriterInv
  import opened WriterCut
  import opened WriterResume

  /** `story`, `tail` and `since` are not state of the system: they record which records are durable,
      how they are cut into segments, the torn bytes after them, and where the current writer's own
      records begin. `Inv` says what they mean on disk. */
  datatype Sys = Sys(disk: Disk, writer: Option<WState>, story: Story, tail: Bytes, since: nat)

  const NOTHING: Sys := Sys(Disk(map[], map[]), None, Story([], [], Base), [], 0)

  datatype Event =
    | Begin(id: Identity, rotation: Option<Policy>, now: real)
    | Write(x: Draft, c1: Clock, c2: Clock)
    | CrashInWrite(x: Draft, c1: Clock, c2: Clock, k: nat, n: nat)
    | Close
    | Resume(name: Name, rotation: Option<Policy>, id: Identity, now: real)
    | CrashInResume(name: Name, rotation: Option<Policy>, id: Identity, now: real, k: nat, n: nat)
    | Delete(name: Name)

  /** The segment with the largest index on disk. */
  ghost predicate Newest(d: Disk, name: Name) {
    && IsSegment(name) && name in d.files
    && forall n: nat :: Seg(Base, n) in d.files ==> n <= Index(name)
  }

  ghost predicate NothingYet(d: Disk) {
    && ContentOf(d, Base) == [] && Base !in d.manifests
    && forall n: nat :: Seg(Base, n) !in d.files
  }

  /** A writer is given a valid policy, or none while the chain has no segments manifest. */
  predicate PolicyAllowed(d: Disk, rotation: Option<Policy>) {
    if rotation.Some? then PolicyOk(rotation.value) else Base !in d.manifests
  }

  predicate CanWrite(s: Sys, x: Draft, c1: Clock, c2: Clock) {
    && s.writer.Some? && EmitFits(s.writer.value, x, c1, c2) && SourceOk(s.writer.value, s.disk)
    && !Refuses(s.writer.value, x.recordType)
  }

  /** The durable story after `k` whole operations and `n` bytes of the next. */
  function Told(sha: Sha, s: Sys, x: Draft, c1: Clock, c2: Clock, k: nat, n: nat): (Story, Bytes)
    requires CanWrite(s, x, c1, c2)
  {
    BeforeFits(sha, s.writer.value, s.disk, x, c1, c2);
    var (w1, d1, r) := Before(sha, s.writer.value, s.disk, x, c1);
    if 0 <= Start(s.story.entries) <= |s.story.hist|
    then (EmitStory(sha, s.story, w1, d1, r, c1, c2, k, n), EmitTail(r, k, n))
    else (s.story, [])
  }

  lemma BeforeFits(sha: Sha, w: WState, d: Disk, x: Draft, c1: Clock, c2: Clock)
    requires EmitFits(w, x, c1, c2) && SourceOk(w, d)
    ensures CanEmit(w, d, x, c1, c2)
    ensures var (w1, d1, r) := Before(sha, w, d, x, c1); IdentityOk(w1.id) && Room(w1) && SourceOk(w1, d1)
  {
    hide Encode, Stamp;
    var r := Stamp(sha, Started(w), x, c1);
    SourceSurvivesAppend(Started(w), d, RecBytes(r));
    CommitKeepsRoom(sha, Started(w), Apply(d, AppendTo(w.path, RecBytes(r))), x.recordType, x.spanId, r);
    CommitKeepsSource(sha, Started(w), Apply(d, AppendTo(w.path, RecBytes(r))), x.recordType, x.spanId, r);
  }

  ghost predicate CanResume(sha: Sha, s: Sys, name: Name, rotation: Option<Policy>, id: Identity, now: real) {
    && s.writer.None? && IdentityOk(id) && PolicyAllowed(s.disk, rotation) && Newest(s.disk, name)
    && Accepts(sha, s.disk, name, rotation, id, now)
  }

  /** One event. What is refused, or not possible, changes nothing. */
  ghost function Step(sha: Sha, s: Sys, e: Event): Sys {
    match e
    case Begin(id, rotation, now) =>
      if s.writer.Some? || !IdentityOk(id) || !PolicyAllowed(s.disk, rotation) || !NothingYet(s.disk) then s
      else s.(writer := Create(s.disk, Base, id, rotation, now), since := 0)
    case Write(x, c1, c2) =>
      if !CanWrite(s, x, c1, c2) then s
      else
        BeforeFits(sha, s.writer.value, s.disk, x, c1, c2);
        var (w, ops) := Emit(sha, s.writer.value, s.disk, x, c1, c2);
        Sys(ApplyAll(s.disk, ops), Some(w), Told(sha, s, x, c1, c2, WHOLE, 0).0, [], s.since)
    case CrashInWrite(x, c1, c2, k, n) =>
      if !CanWrite(s, x, c1, c2) then s
      else
        BeforeFits(sha, s.writer.value, s.disk, x, c1, c2);
        var ops := Emit(sha, s.writer.value, s.disk, x, c1, c2).1;
        if k > |ops| then s
        else
          var (story, tail) := Told(sha, s, x, c1, c2, k, n);
          Sys(CrashDisk(s.disk, ops, k, n), None, story, tail, s.since)
    case Close => if s.writer.None? then s else s.(writer := None, tail := [])
    case Resume(name, rotation, id, now) =>
      if !CanResume(sha, s, name, rotation, id, now) then s
      else
        var (w, ops) := OpenExisting(sha, s.disk, name, rotation, id, true, now).value;
        Sys(ApplyAll(s.disk, ops), Some(w), s.story, [], |s.story.hist|)
    case CrashInResume(name, rotation, id, now, k, n) =>
      if !CanResume(sha, s, name, rotation, id, now) then s
      else
        var ops := OpenExisting(sha, s.disk, name, rotation, id, true, now).value.1;
        if k > |ops| then s else s.(disk := CrashDisk(s.disk, ops, k, n), tail := if k == 0 then s.tail else [])
    case Delete(name) =>
      if !IsSegment(name) || Newest(s.disk, name) || name !in s.disk.files then s
      else s.(disk := Apply(s.disk, Remove(name)))
  }

  ghost function Run(sha: Sha, events: seq<Event>): Sys {
    if events == [] then NOTHING else Step(sha, Run(sha, events[..|events| - 1]), events[|events| - 1])
  }

  /** What every run keeps. */
  ghost predicate Inv(sha: Sha, s: Sys) {
    && OneManifest(s.disk)
    && if s.writer.Some? then Good(sha, s.story, s.writer.value, s.disk) else Crashed(sha, s.story, s.disk, s.tail)
  }

  // ---------- the newest segment is the live one ----------

  lemma NewestIsLive(sha: Sha, t: Story, d: Disk, tail: Bytes, x: Name)
    requires Crashed(sha, t, d, tail) && t.hist != []
    ensures Newest(d, x) <==> x == t.live
  {
    hide *;
    LiveHolding(sha, t, d, tail);
    SettledOrHalf(sha, t, d, tail);
    LiveName(sha, t);
    LiveIsSegment(t);
    forall n: nat | Seg(Base, n) in d.files ensures n <= Index(t.live) {
      if Seg(Base, n) != t.live {
        SegmentIs(Seg(Base, n));
        var i := OtherSegments(sha, t, d, tail, Seg(Base, n));
        LiveIsLastOf(sha, t, i);
      }
      IndexIs(Seg(Base, n));
    }
    NewestMade(d, t.live);
    if Newest(d, x) && x != t.live {
      NewestParts(d, x);
      var i := OtherSegments(sha, t, d, tail, x);
      LiveIsLastOf(sha, t, i);
      LiveSegStart(sha, t);
      NoLarger(d, x, t.live);
    }
  }

  lemma NoLarger(d: Disk, x: Name, y: Name)
    requires Newest(d, x) && y in d.files && y.Seg? && y.stem == Base
    ensures Index(y) <= Index(x)
  {
    assert y == Seg(Base, y.n);
  }

  lemma IndexIs(x: Name)
    ensures x.Seg? ==> Index(x) == x.n
  {
  }

  lemma NewestMade(d: Disk, x: Name)
    requires IsSegment(x) && x in d.files && forall n: nat :: Seg(Base, n) in d.files ==> n <= Index(x)
    ensures Newest(d, x)
  {
  }

  lemma NewestParts(d: Disk, x: Name)
    requires Newest(d, x)
    ensures IsSegment(x) && x in d.files && forall n: nat :: Seg(Base, n) in d.files ==> n <= Index(x)
  {
  }

  // ---------- each event ----------

  lemma EmptyStory(sha: Sha, t: Story)
    requires StoryOk(sha, t) && t.hist == []
    ensures t == Story([], [], Base)
  {
    StoryParts(sha, t);
    LiveNeeds(sha, t);
  }

  lemma LiveNeeds(sha: Sha, t: Story)
    requires StoryOk(sha, t) && t.hist == []
    ensures t.entries == [] && t.live == Base
  {
  }

  lemma SomethingShows(sha: Sha, t: Story, d: Disk, tail: Bytes)
    requires Crashed(sha, t, d, tail) && t.hist != []
    ensures !NothingYet(d)
  {
    hide Crashed, Walk, HistOk, StoryOk;
    LiveScan(sha, t, d, tail);
    SettledOrHalf(sha, t, d, tail);
    LiveName(sha, t);
    if t.live.Seg? {
      assert Seg(Base, t.live.n) in d.files;
    }
  }

  lemma NothingMeansNothing(sha: Sha, t: Story, d: Disk, tail: Bytes)
    requires Crashed(sha, t, d, tail) && NothingYet(d)
    ensures t == Story([], [], Base) && tail == [] && DiskHolds(t, d, []) && Settled(d, []) && StoryOk(sha, t)
  {
    if t.hist != [] {
      SomethingShows(sha, t, d, tail);
    } else {
      SettledOrHalf(sha, t, d, tail);
      DiskParts(t, d, tail);
      EmptyStory(sha, t);
    }
  }

  lemma CreatedIsGood(sha: Sha, d: Disk, id: Identity, rotation: Option<Policy>, now: real)
    requires IdentityOk(id) && PolicyAllowed(d, rotation) && NothingYet(d)
    ensures Create(d, Base, id, rotation, now).Some?
    ensures WriterOk(sha, [], [], Base, Create(d, Base, id, rotation, now).value)
  {
    hide PolicyOk, IdentityOk;
    assert RecHashes(sha, []) == [];
  }

  lemma BeginKeeps(sha: Sha, s: Sys, id: Identity, rotation: Option<Policy>, now: real)
    requires Inv(sha, s)
    ensures Inv(sha, Step(sha, s, Begin(id, rotation, now)))
  {
    if s.writer.None? && IdentityOk(id) && PolicyAllowed(s.disk, rotation) && NothingYet(s.disk) {
      NothingMeansNothing(sha, s.story, s.disk, s.tail);
      CreatedIsGood(sha, s.disk, id, rotation, now);
      GoodMade(sha, s.story, Create(s.disk, Base, id, rotation, now).value, s.disk);
      hide Good, Create;
    }
  }

  lemma ManifestsOf(d: Disk, op: DiskOp)
    requires OneManifest(d) && (op.PutManifest? ==> op.base == Base)
    ensures OneManifest(Apply(d, op))
  {
  }

  predicate OnlyBase(ops: seq<DiskOp>) {
    forall i :: 0 <= i < |ops| && ops[i].PutManifest? ==> ops[i].base == Base
  }

  lemma {:induction false} OneManifestKept(d: Disk, ops: seq<DiskOp>)
    requires OneManifest(d) && OnlyBase(ops)
    ensures OneManifest(ApplyAll(d, ops))
    decreases |ops|
  {
    if ops != [] {
      OneManifestKept(d, ops[..|ops| - 1]);
      ManifestsOf(ApplyAll(d, ops[..|ops| - 1]), ops[|ops| - 1]);
    }
  }

  lemma CrashOnlyBase(ops: seq<DiskOp>, k: nat, n: nat)
    requires OnlyBase(ops) && k <= |ops|
    ensures OnlyBase(ops[..k] + (if k < |ops| then Torn(ops[k], n) else []))
  {
  }

  lemma EmitOnlyBase(sha: Sha, w: WState, d: Disk, x: Draft, c1: Clock, c2: Clock)
    requires CanEmit(w, d, x, c1, c2) && w.base == Base
    ensures OnlyBase(Emit(sha, w, d, x, c1, c2).1)
  {
    hide Encode, CutRecord, ClosedEntry, PeaksRoot, AppendAll, Walk, AfterCut;
  }

  lemma BaseOf(sha: Sha, t: Story, w: WState, d: Disk)
    requires Good(sha, t, w, d)
    ensures w.base == Base
  {
    GoodParts(sha, t, w, d);
    WriterFacts(sha, t, w);
  }

  lemma ToldIs(sha: Sha, s: Sys, x: Draft, c1: Clock, c2: Clock, k: nat, n: nat, w1: WState, d1: Disk, r: Rec)
    requires CanWrite(s, x, c1, c2) && 0 <= Start(s.story.entries) <= |s.story.hist|
    requires IdentityOk(w1.id) && ClockOk(c2) && Room(w1) && SourceOk(w1, d1)
    requires CanStamp(s.writer.value, x, c1)
    requires (w1, d1, r) == Before(sha, s.writer.value, s.disk, x, c1)
    ensures Told(sha, s, x, c1, c2, k, n) == (EmitStory(sha, s.story, w1, d1, r, c1, c2, k, n), EmitTail(r, k, n))
  {
    hide Before, EmitStory, EmitTail, CanWrite;
  }

  lemma WriteIs(sha: Sha, s: Sys, x: Draft, c1: Clock, c2: Clock, w: WState, ops: seq<DiskOp>)
    requires CanWrite(s, x, c1, c2) && CanEmit(s.writer.value, s.disk, x, c1, c2)
    requires (w, ops) == Emit(sha, s.writer.value, s.disk, x, c1, c2)
    ensures Step(sha, s, Write(x, c1, c2)) ==
      Sys(ApplyAll(s.disk, ops), Some(w), Told(sha, s, x, c1, c2, WHOLE, 0).0, [], s.since)
    ensures forall k: nat, n: nat :: k <= |ops| ==> (
      Step(sha, s, CrashInWrite(x, c1, c2, k, n)) ==
        Sys(CrashDisk(s.disk, ops, k, n), None, Told(sha, s, x, c1, c2, k, n).0, Told(sha, s, x, c1, c2, k, n).1,
            s.since))
  {
    hide Emit, Told, CanWrite, CrashDisk, ApplyAll, CanEmit;
  }

  lemma CanWriteParts(s: Sys, x: Draft, c1: Clock, c2: Clock)
    requires CanWrite(s, x, c1, c2)
    ensures s.writer.Some? && EmitFits(s.writer.value, x, c1, c2) && SourceOk(s.writer.value, s.disk)
    ensures !Refuses(s.writer.value, x.recordType)
  {
  }

  lemma InvParts(sha: Sha, s: Sys)
    requires Inv(sha, s)
    ensures OneManifest(s.disk)
    ensures s.writer.Some? ==> Good(sha, s.story, s.writer.value, s.disk)
    ensures s.writer.None? ==> Crashed(sha, s.story, s.disk, s.tail)
  {
  }

  lemma InvMade(sha: Sha, s: Sys)
    requires OneManifest(s.disk)
    requires
      if s.writer.Some? then Good(sha, s.story, s.writer.value, s.disk)
      else Crashed(sha, s.story, s.disk, s.tail)
    ensures Inv(sha, s)
  {
  }

  lemma WriteKeepsInv(sha: Sha, s: Sys, x: Draft, c1: Clock, c2: Clock)
    requires Inv(sha, s) && CanWrite(s, x, c1, c2)
    ensures Inv(sha, Step(sha, s, Write(x, c1, c2)))
  {
    hide *;
    InvParts(sha, s);
    CanWriteParts(s, x, c1, c2);
    var w, d := s.writer.value, s.disk;
    BeforeFits(sha, w, d, x, c1, c2);
    GoodStamp(w, x, c1, c2);
    var (w', ops) := Emit(sha, w, d, x, c1, c2);
    var (w1, d1, r) := Before(sha, w, d, x, c1);
    EmitKeeps(sha, s.story, w, d, x, c1, c2, w', ops, w1, d1, r);
    ToldIs(sha, s, x, c1, c2, WHOLE, 0, w1, d1, r);
    WriteIs(sha, s, x, c1, c2, w', ops);
    BaseOf(sha, s.story, w, d);
    EmitOnlyBase(sha, w, d, x, c1, c2);
    OneManifestKept(d, ops);
    InvMade(sha, Step(sha, s, Write(x, c1, c2)));
  }

  lemma WriteCrashKeeps(sha: Sha, s: Sys, x: Draft, c1: Clock, c2: Clock, k: nat, n: nat)
    requires Inv(sha, s) && CanWrite(s, x, c1, c2)
    ensures Inv(sha, Step(sha, s, CrashInWrite(x, c1, c2, k, n)))
  {
    hide *;
    InvParts(sha, s);
    CanWriteParts(s, x, c1, c2);
    var w, d := s.writer.value, s.disk;
    BeforeFits(sha, w, d, x, c1, c2);
    GoodStamp(w, x, c1, c2);
    var (w', ops) := Emit(sha, w, d, x, c1, c2);
    var (w1, d1, r) := Before(sha, w, d, x, c1);
    if k <= |ops| {
      EmitCrash(sha, s.story, w, d, x, c1, c2, ops, w1, d1, r, k, n);
      ToldIs(sha, s, x, c1, c2, k, n, w1, d1, r);
      WriteIs(sha, s, x, c1, c2, w', ops);
      BaseOf(sha, s.story, w, d);
      EmitOnlyBase(sha, w, d, x, c1, c2);
      CrashOnlyBase(ops, k, n);
      OneManifestKept(d, ops[..k] + (if k < |ops| then Torn(ops[k], n) else []));
      CrashIs(d, ops, k, n);
      InvMade(sha, Step(sha, s, CrashInWrite(x, c1, c2, k, n)));
    } else {
      NoSuchCrash(sha, s, x, c1, c2, k, n);
    }
  }

  lemma CrashIs(d: Disk, ops: seq<DiskOp>, k: nat, n: nat)
    requires k <= |ops|
    ensures CrashDisk(d, ops, k, n) == ApplyAll(d, ops[..k] + (if k < |ops| then Torn(ops[k], n) else []))
  {
  }

  lemma NoSuchCrash(sha: Sha, s: Sys, x: Draft, c1: Clock, c2: Clock, k: nat, n: nat)
    requires CanWrite(s, x, c1, c2) && CanEmit(s.writer.value, s.disk, x, c1, c2)
    requires k > |Emit(sha, s.writer.value, s.disk, x, c1, c2).1|
    ensures Step(sha, s, CrashInWrite(x, c1, c2, k, n)) == s
  {
    hide Emit, Told, CanWrite, CanEmit;
  }

  lemma CloseIs(sha: Sha, s: Sys)
    requires s.writer.Some?
    ensures Step(sha, s, Close) == s.(writer := None, tail := [])
  {
  }

  lemma CloseKeeps(sha: Sha, s: Sys)
    requires Inv(sha, s)
    ensures Inv(sha, Step(sha, s, Close))
  {
    hide *;
    InvParts(sha, s);
    if s.writer.Some? {
      GoodParts(sha, s.story, s.writer.value, s.disk);
      CrashedMade(sha, s.story, s.disk);
      CloseIs(sha, s);
      InvMade(sha, Step(sha, s, Close));
    } else {
      CloseNothing(sha, s);
    }
  }

  lemma CloseNothing(sha: Sha, s: Sys)
    requires s.writer.None?
    ensures Step(sha, s, Close) == s
  {
  }

  /** Nothing durable, nothing to resume: a torn first record leaves a file that neither starts nor resumes. */
  lemma NothingResumes(sha: Sha, t: Story, d: Disk, tail: Bytes, name: Name, rotation: Option<Policy>, id: Identity,
                       now: real)
    requires Crashed(sha, t, d, tail) && t.hist == [] && IsSegment(name)
    ensures !Accepts(sha, d, name, rotation, id, now)
  {
    SettledOrHalf(sha, t, d, tail);
    EmptyStory(sha, t);
    DiskParts(t, d, tail);
    assert Container(t.hist) + tail == tail;
    if name != Base {
      NoSegments(d, name);
    }
  }

  lemma NoSegments(d: Disk, name: Name)
    requires NoStranger(d, [], Base) && name.Seg? && name.stem == Base
    ensures name !in d.files
  {
    assert name == Seg(Base, name.n);
  }

  lemma ResumeIs(sha: Sha, s: Sys, name: Name, rotation: Option<Policy>, id: Identity, now: real, w: WState,
                 ops: seq<DiskOp>)
    requires CanResume(sha, s, name, rotation, id, now)
    requires OpenExisting(sha, s.disk, name, rotation, id, true, now) == Some((w, ops))
    ensures Step(sha, s, Resume(name, rotation, id, now)) ==
      Sys(ApplyAll(s.disk, ops), Some(w), s.story, [], |s.story.hist|)
    ensures forall k: nat, n: nat :: k <= |ops| ==> (
      Step(sha, s, CrashInResume(name, rotation, id, now, k, n)) ==
        s.(disk := CrashDisk(s.disk, ops, k, n), tail := if k == 0 then s.tail else []))
    ensures forall k: nat, n: nat :: k > |ops| ==> Step(sha, s, CrashInResume(name, rotation, id, now, k, n)) == s
  {
    hide OpenExisting, CrashDisk, ApplyAll, CanResume;
  }

  lemma CanResumeParts(sha: Sha, s: Sys, name: Name, rotation: Option<Policy>, id: Identity, now: real)
    requires CanResume(sha, s, name, rotation, id, now)
    ensures s.writer.None? && IdentityOk(id) && PolicyAllowed(s.disk, rotation) && Newest(s.disk, name)
    ensures Accepts(sha, s.disk, name, rotation, id, now)
    ensures OpenExisting(sha, s.disk, name, rotation, id, true, now).Some?
  {
    hide OpenExisting;
  }

  lemma AllowedFits(sha: Sha, t: Story, d: Disk, tail: Bytes, rotation: Option<Policy>)
    requires Crashed(sha, t, d, tail) && PolicyAllowed(d, rotation)
    ensures PolicyFits(rotation, t.entries) && (rotation.None? ==> Base !in d.manifests)
  {
    SettledOrHalf(sha, t, d, tail);
    hide Crashed, PolicyOk, EntryFor, DiskHolds, StoryOk;
  }

  /** An accepted resume is of the live file, and leads to the one explicit state. */
  lemma ResumeFacts(sha: Sha, s: Sys, name: Name, rotation: Option<Policy>, id: Identity, now: real)
    requires Inv(sha, s) && CanResume(sha, s, name, rotation, id, now) && Distinct(sha, s.story.hist)
    ensures s.story.hist != [] && 0 <= Start(s.story.entries) < |s.story.hist| && name == s.story.live
    ensures PolicyFits(rotation, s.story.entries)
    ensures OpenExisting(sha, s.disk, name, rotation, id, true, now) ==
      Some((Resumed(sha, s.story, s.tail, rotation, id, now), ResumeOps(s.story, s.disk, s.tail)))
  {
    hide *;
    InvParts(sha, s);
    CanResumeParts(sha, s, name, rotation, id, now);
    NewestParts(s.disk, name);
    if s.story.hist == [] {
      NothingResumes(sha, s.story, s.disk, s.tail, name, rotation, id, now);
    }
    NewestIsLive(sha, s.story, s.disk, s.tail, name);
    AllowedFits(sha, s.story, s.disk, s.tail, rotation);
    LiveResumes(sha, s.story, s.disk, s.tail, rotation, id, now);
  }

  lemma ResumeKeepsInv(sha: Sha, s: Sys, name: Name, rotation: Option<Policy>, id: Identity, now: real)
    requires Inv(sha, s) && CanResume(sha, s, name, rotation, id, now) && Distinct(sha, s.story.hist)
    ensures Inv(sha, Step(sha, s, Resume(name, rotation, id, now)))
    ensures forall k: nat, n: nat :: Inv(sha, Step(sha, s, CrashInResume(name, rotation, id, now, k, n)))
  {
    hide *;
    InvParts(sha, s);
    CanResumeParts(sha, s, name, rotation, id, now);
    ResumeFacts(sha, s, name, rotation, id, now);
    var t, d, tail := s.story, s.disk, s.tail;
    var w, ops := Resumed(sha, t, tail, rotation, id, now), ResumeOps(t, d, tail);
    ResumeKeeps(sha, t, d, tail, rotation, id, now);
    ResumeIs(sha, s, name, rotation, id, now, w, ops);
    ResumeOnlyBase(t, d, tail);
    OneManifestKept(d, ops);
    InvMade(sha, Step(sha, s, Resume(name, rotation, id, now)));
    forall k: nat, n: nat ensures Inv(sha, Step(sha, s, CrashInResume(name, rotation, id, now, k, n))) {
      if k <= |ops| {
        ResumeCrash(sha, t, d, tail, k, n);
        CrashOnlyBase(ops, k, n);
        OneManifestKept(d, ops[..k] + (if k < |ops| then Torn(ops[k], n) else []));
        CrashIs(d, ops, k, n);
        InvMade(sha, Step(sha, s, CrashInResume(name, rotation, id, now, k, n)));
      }
    }
  }

  lemma ResumeOnlyBase(t: Story, d: Disk, tail: Bytes)
    requires 0 <= Start(t.entries) <= |t.hist|
    ensures OnlyBase(ResumeOps(t, d, tail))
  {
  }

  lemma RemoveFrame(d: Disk, x: Name, y: Name)
    requires x != y
    ensures var d' := Apply(d, Remove(x)); (y in d'.files <==> y in d.files) && ContentOf(d', y) == ContentOf(d, y)
    ensures Apply(d, Remove(x)).manifests == d.manifests && Apply(d, Remove(x)).files.Keys <= d.files.Keys
  {
  }

  lemma RemoveClosed(hist: seq<Rec>, d: Disk, entries: seq<Entry>, live: Name, x: Name)
    requires ClosedHold(hist, d, entries) && NoStranger(d, entries, live)
    ensures ClosedHold(hist, Apply(d, Remove(x)), entries) && NoStranger(Apply(d, Remove(x)), entries, live)
  {
    hide SegmentHolds, Listed;
    var d' := Apply(d, Remove(x));
    forall i | 0 <= i < |entries| && entries[i].file in d'.files ensures SegmentHolds(hist, d', entries, i) {
      SegmentSame(hist, d, d', entries, i);
    }
  }

  /** Deleting a file other than the live one loses nothing the invariant speaks of. */
  lemma RemoveKeeps(t: Story, d: Disk, tail: Bytes, x: Name)
    requires DiskHolds(t, d, tail) && x != t.live
    ensures DiskHolds(t, Apply(d, Remove(x)), tail)
  {
    hide *;
    DiskParts(t, d, tail);
    RemoveFrame(d, x, t.live);
    RemoveClosed(t.hist, d, t.entries, t.live, x);
    DiskMade(t, Apply(d, Remove(x)), tail);
  }

  lemma NotLive(sha: Sha, t: Story, d: Disk, tail: Bytes, x: Name)
    requires Crashed(sha, t, d, tail) && IsSegment(x) && x in d.files && !Newest(d, x)
    ensures x != t.live
  {
    if t.hist != [] {
      NewestIsLive(sha, t, d, tail, x);
    } else {
      SettledOrHalf(sha, t, d, tail);
      EmptyStory(sha, t);
      DiskParts(t, d, tail);
      forall n: nat | Seg(Base, n) in d.files ensures false {
        NoSegments(d, Seg(Base, n));
      }
    }
  }

  lemma CrashedStays(sha: Sha, t: Story, d: Disk, d': Disk, tail: Bytes)
    requires Crashed(sha, t, d, tail) && DiskHolds(t, d', tail) && d'.manifests == d.manifests
    ensures Crashed(sha, t, d', tail)
    ensures Settled(d, t.entries) ==> Settled(d', t.entries)
  {
    hide StoryOk, DiskHolds, FirstRec, EntryFor, Start;
  }

  lemma DeleteKeeps(sha: Sha, s: Sys, x: Name)
    requires Inv(sha, s) && IsSegment(x) && x in s.disk.files && !Newest(s.disk, x)
    ensures Inv(sha, s.(disk := Apply(s.disk, Remove(x))))
  {
    hide *;
    InvParts(sha, s);
    var t, d, d' := s.story, s.disk, Apply(s.disk, Remove(x));
    var tail := if s.writer.Some? then [] else s.tail;
    if s.writer.Some? {
      GoodParts(sha, t, s.writer.value, d);
      CrashedMade(sha, t, d);
    }
    NotLive(sha, t, d, tail, x);
    SettledOrHalf(sha, t, d, tail);
    RemoveKeeps(t, d, tail, x);
    RemoveFrame(d, x, Tmp(x));
    CrashedStays(sha, t, d, d', tail);
    if s.writer.Some? {
      GoodMade(sha, t, s.writer.value, d');
    }
    ManifestsOf(d, Remove(x));
    InvMade(sha, s.(disk := d'));
  }

  lemma StepKeeps(sha: Sha, s: Sys, e: Event)
    requires Inv(sha, s) && Distinct(sha, s.story.hist)
    ensures Inv(sha, Step(sha, s, e))
  {
    hide Inv, Distinct, CanWrite, CanResume, Newest, Emit, Told, OpenExisting, CrashDisk, ApplyAll, NothingYet, Create;
    match e {
      case Begin(id, rotation, now) => BeginKeeps(sha, s, id, rotation, now);
      case Write(x, c1, c2) => if CanWrite(s, x, c1, c2) { WriteKeepsInv(sha, s, x, c1, c2); }
      case CrashInWrite(x, c1, c2, k, n) => if CanWrite(s, x, c1, c2) { WriteCrashKeeps(sha, s, x, c1, c2, k, n); }
      case Close => CloseKeeps(sha, s);
      case Resume(name, rotation, id, now) =>
        if CanResume(sha, s, name, rotation, id, now) { ResumeKeepsInv(sha, s, name, rotation, id, now); }
      case CrashInResume(name, rotation, id, now, k, n) =>
        if CanResume(sha, s, name, rotation, id, now) { ResumeKeepsInv(sha, s, name, rotation, id, now); }
      case Delete(name) =>
        if IsSegment(name) && !Newest(s.disk, name) && name in s.disk.files { DeleteKeeps(sha, s, name); }
    }
  }

  // ---------- over whole runs ----------

  lemma ToldGrows(sha: Sha, s: Sys, x: Draft, c1: Clock, c2: Clock, k: nat, n: nat)
    requires CanWrite(s, x, c1, c2)
    ensures s.story.hist <= Told(sha, s, x, c1, c2, k, n).0.hist
  {
    hide Before, CutRecord, Ready, EntryFor, EmitTail, NextIndex;
  }

  /** A durable record stays: no event takes anything from the history. */
  lemma HistoryGrows(sha: Sha, s: Sys, e: Event)
    ensures s.story.hist <= Step(sha, s, e).story.hist
  {
    hide CanWrite, CanResume, Newest, Emit, Told, OpenExisting, CrashDisk, ApplyAll, NothingYet, Create;
    match e {
      case Write(x, c1, c2) => if CanWrite(s, x, c1, c2) { ToldGrows(sha, s, x, c1, c2, WHOLE, 0); }
      case CrashInWrite(x, c1, c2, k, n) => if CanWrite(s, x, c1, c2) { ToldGrows(sha, s, x, c1, c2, k, n); }
      case _ =>
    }
  }

  lemma FewerHeaders(sha: Sha, a: seq<Rec>, b: seq<Rec>)
    requires a <= b && NoCollision(sha, HeaderSetOf(b))
    ensures NoCollision(sha, HeaderSetOf(a))
  {
    forall x | x in HeaderSetOf(a) ensures x in HeaderSetOf(b) {
      var i :| 0 <= i < |a| && x == a[i].hb;
      assert b[i].hb == x;
    }
  }

  lemma InvHistory(sha: Sha, s: Sys)
    requires Inv(sha, s)
    ensures StoryOk(sha, s.story) && HistOk(sha, s.story.hist)
  {
    if s.writer.Some? {
      GoodParts(sha, s.story, s.writer.value, s.disk);
    } else {
      SettledOrHalf(sha, s.story, s.disk, s.tail);
    }
    StoryParts(sha, s.story);
  }

  lemma NothingIsFine(sha: Sha)
    ensures Inv(sha, NOTHING)
  {
    assert Container([]) + [] == [];
  }

  /** The main invariant: whatever happened, disk, manifest, history and writer agree. */
  lemma {:induction false} RunKeeps(sha: Sha, events: seq<Event>)
    requires NoCollision(sha, HeaderSetOf(Run(sha, events).story.hist))
    ensures Inv(sha, Run(sha, events))
    decreases |events|
  {
    hide Inv, Step, NoCollision;
    if events == [] {
      NothingIsFine(sha);
    } else {
      var s, e := Run(sha, events[..|events| - 1]), events[|events| - 1];
      HistoryGrows(sha, s, e);
      FewerHeaders(sha, s.story.hist, Run(sha, events).story.hist);
      RunKeeps(sha, events[..|events| - 1]);
      InvHistory(sha, s);
      NumbersKeepApart(sha, s.story.hist);
      StepKeeps(sha, s, e);
    }
  }
}
