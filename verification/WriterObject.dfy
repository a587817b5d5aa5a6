/** The writer as the object it is: fields updated in place, files changed through a file system.

    Every method's contract equates the new state with the function of `Writer` it computes, and the
    operations it put to the file system, in order, with that function's operations. What a crash
    between two of them leaves is then the subject of `WriterCut` and `WriterRuns`. */
module WriterObject {
  import opened Bytes
  import opened Codec
  import opened Frontier
  import opened Profile
  import opened Writer
  import WriterCut

  /** The disk, and every operation ever put to it. */
  class FileSystem {
    var disk: Disk
    ghost var log: seq<DiskOp>

    constructor (disk: Disk)
      ensures this.disk == disk && log == []
    {
      this.disk, log := disk, [];
    }

    method Do(op: DiskOp)
      modifies this
      ensures disk == Apply(old(disk), op) && log == old(log) + [op]
    {
      disk := Apply(disk, op);
      log := log + [op];
    }

    function Read(name: Name): Bytes reads this { ContentOf(disk, name) }
  }

  lemma ApplySnoc(d: Disk, ops: seq<DiskOp>, op: DiskOp)
    ensures ApplyAll(d, ops + [op]) == Apply(ApplyAll(d, ops), op)
  {
    assert (ops + [op])[..|ops|] == ops;
  }

  lemma ApplyNone(d: Disk)
    ensures ApplyAll(d, []) == d
  {
  }

  lemma {:induction false} ApplyTwo(d: Disk, a: seq<DiskOp>, b: seq<DiskOp>)
    ensures ApplyAll(d, a + b) == ApplyAll(ApplyAll(d, a), b)
    decreases |b|
  {
    hide *;
    if b == [] {
      ApplyNone(ApplyAll(d, a));
      assert a + b == a;
    } else {
      var (front, last) := (b[..|b| - 1], b[|b| - 1]);
      assert b == front + [last];
      assert a + b == (a + front) + [last];
      ApplyTwo(d, a, front);
      ApplySnoc(d, a + front, last);
      ApplySnoc(ApplyAll(d, a), front, last);
    }
  }

  // ---------- reading a file record by record ----------

  /** Where record `i` of a walked file lies. */
  lemma {:induction false} WalkedAt(data: Bytes, i: nat)
    requires i < |Walk(data).0|
    ensures var (rs, off) := (Walk(data).0, |Container(Walk(data).0[..i])|);
      && off + |RecBytes(rs[i])| <= |data| && FirstRec(data[off..]) == Some(rs[i])
      && |Container(rs[..i + 1])| == off + |RecBytes(rs[i])|
  {
    var (rs, rest) := Walk(data);
    WalkIsExact(data);
    assert rs == rs[..i] + ([rs[i]] + rs[i + 1..]) && rs[..i + 1] == rs[..i] + [rs[i]];
    hide *;
    ContainerAppend(rs[..i], [rs[i]] + rs[i + 1..]);
    ContainerAppend(rs[..i], [rs[i]]);
    ContainerOne(rs[i]);
    ContainerFirst(rs[i], rs[i + 1..]);
    RecordOk(data, i);
    FirstRecOf(rs[i], Container(rs[i + 1..]) + rest);
    Regrouped(Container(rs[..i]), RecBytes(rs[i]), Container(rs[i + 1..]), rest);
    var off := |Container(rs[..i])|;
    assert data[off..] == RecBytes(rs[i]) + (Container(rs[i + 1..]) + rest);
  }

  lemma RecordOk(data: Bytes, i: nat)
    requires i < |Walk(data).0|
    ensures RecOk(Walk(data).0[i])
  {
  }

  lemma Regrouped(a: Bytes, b: Bytes, c: Bytes, d: Bytes)
    ensures a + (b + c) + d == a + (b + (c + d))
  {
  }

  lemma AppendAllSnoc(sha: Sha, f: Peaks, rs: seq<Rec>, i: nat)
    requires i < |rs|
    ensures AppendAll(sha, f, RecHashes(sha, rs[..i + 1])) ==
      Append(sha, AppendAll(sha, f, RecHashes(sha, rs[..i])), RecHash(sha, rs[i]))
  {
    var hs := RecHashes(sha, rs[..i + 1]);
    assert hs[..|hs| - 1] == RecHashes(sha, rs[..i]);
  }

  /** Append the hashes of the first `count` records of a file to an empty frontier. */
  method ScanFrontier(sha: Sha, data: Bytes, count: nat) returns (f: MerkleFrontier)
    requires count <= |Walk(data).0|
    ensures fresh(f) && f.sha == sha && f.Value() == AppendAll(sha, EMPTY, RecHashes(sha, Walk(data).0[..count]))
  {
    ghost var rs := Walk(data).0;
    f := new MerkleFrontier(sha);
    var off := 0;
    for i := 0 to count
      invariant f.sha == sha && fresh(f)
      invariant off == |Container(rs[..i])| <= |data|
      invariant f.Value() == AppendAll(sha, EMPTY, RecHashes(sha, rs[..i]))
    {
      hide *;
      WalkedAt(data, i);
      RecInPlace(data, off);
      AppendAllSnoc(sha, EMPTY, rs, i);
      RecIs(rs[i], data, off);
      var hlen, blen := U16(data, off + 6), U32(data, off + 120);
      var ok := f.AppendHash(sha(At(data, off, hlen)));
      off := off + hlen + blen;
    }
  }

  lemma RecIs(r: Rec, data: Bytes, off: nat)
    requires off <= |data| && FirstRec(data[off..]) == Some(r)
    ensures off + FIXED_LEN <= |data| && FIXED_LEN == 156
    ensures var hlen, blen := U16(data, off + 6), U32(data, off + 120);
      && off + hlen + blen <= |data| && r == Rec(At(data, off, hlen), At(data, off + hlen, blen))
      && |RecBytes(r)| == hlen + blen
  {
    RecInPlace(data, off);
  }

  // ---------- the writer ----------

  class PalaWriter {
    const sha: Sha
    const fs: FileSystem
    const id: Identity
    var seqNo: nat
    var head: Digest
    var started: bool
    var bootPending: bool
    const recoveredBytes: nat
    const recoveredOffset: nat
    var openSpans: set<Bytes>
    var frontier: MerkleFrontier?
    var deferred: Option<(Name, nat)>
    var pending: seq<Digest>
    var path: Name
    const base: Name
    const rotation: Option<Policy>
    var segRecords: nat
    var segFirstSeq: nat
    var segPrevHead: Bytes
    var segBytes: nat
    var segStartedS: real
    var segIndex: nat
    var rotationDue: bool
    var segOrdinal: Option<nat>
    var entries: seq<Entry>

    ghost predicate Valid() reads this {
      frontier != null ==> frontier.sha == sha
    }

    /** The fields, as one value. */
    ghost function State(): WState
      reads this, frontier
    {
      WState(id, seqNo, head, started, bootPending, recoveredBytes, recoveredOffset, openSpans,
             if frontier == null then None else Some(frontier.Value()), deferred, pending, path, base, rotation,
             segRecords, segFirstSeq, segPrevHead, segBytes, segStartedS, segIndex, rotationDue, segOrdinal, entries)
    }

    lemma StateIs()
      ensures Valid() <==> (frontier != null ==> frontier.sha == sha)
      ensures State() == WState(
        id, seqNo, head, started, bootPending, recoveredBytes, recoveredOffset, openSpans,
        if frontier == null then None else Some(frontier.Value()), deferred, pending, path, base, rotation,
        segRecords, segFirstSeq, segPrevHead, segBytes, segStartedS, segIndex, rotationDue, segOrdinal, entries)
    {
    }

    lemma StateParts()
      ensures State().deferred == deferred && State().id == id && State().rotation == rotation
      ensures State().entries == entries
    {
    }

    constructor (sha: Sha, fs: FileSystem, w: WState)
      ensures Valid() && State() == w && this.sha == sha && this.fs == fs
      ensures frontier != null ==> fresh(frontier)
    {
      this.sha, this.fs, this.id := sha, fs, w.id;
      seqNo, head, started, bootPending := w.seqNo, w.head, w.started, w.bootPending;
      recoveredBytes, recoveredOffset, openSpans := w.recoveredBytes, w.recoveredOffset, w.openSpans;
      deferred, pending, path, base, rotation := w.deferred, w.pending, w.path, w.base, w.rotation;
      segRecords, segFirstSeq, segPrevHead, segBytes := w.segRecords, w.segFirstSeq, w.segPrevHead, w.segBytes;
      segStartedS, segIndex, rotationDue, segOrdinal := w.segStartedS, w.segIndex, w.rotationDue, w.segOrdinal;
      entries := w.entries;
      if w.frontier.Some? {
        frontier := new MerkleFrontier.Stored(sha, w.frontier.value);
      } else {
        frontier := null;
      }
    }

    /** Build a deferred frontier: rescan the resumed file, then replay the pending hashes. */
    method MaterializeFrontier()
      requires Valid() && deferred.Some? && SourceOk(State(), fs.disk)
      modifies this`frontier, this`deferred, this`pending
      ensures Valid() && fresh(frontier) && deferred.None?
      ensures State() == Materialize(sha, old(State()), fs.disk)
    {
      hide AppendAll, Append, Walk, RecHashes, Materialize, SourceOk;
      ghost var w := State();
      SourceParts(w, fs.disk);
      var (source, count) := deferred.value;
      ghost var rs := Walk(fs.disk.files[source]).0;
      var f := ScanFrontier(sha, fs.Read(source), count);
      ghost var scanned := RecHashes(sha, rs[..count]);
      assert scanned + pending[..0] == scanned;
      for i := 0 to |pending|
        invariant f.Value() == AppendAll(sha, EMPTY, scanned + pending[..i])
        modifies f
      {
        AppendOne(sha, scanned, pending, i);
        var ok := f.AppendHash(pending[i]);
      }
      assert pending[..|pending|] == pending;
      frontier, deferred, pending := f, None, [];
      MaterializeIs(sha, w, fs.disk);
    }

    /** The record's hash joins the frontier, or waits for one to be built. */
    method RememberHash(rh: Digest)
      requires Valid() && SourceOk(State(), fs.disk)
      modifies this`frontier, this`deferred, this`pending, frontier
      ensures Valid() && (frontier == old(frontier) || fresh(frontier))
      ensures State() == Remembered(sha, old(State()), fs.disk, rh)
    {
      hide AppendAll, Append, Walk, RecHashes, Materialize;
      if frontier != null {
        var ok := frontier.AppendHash(rh);
      } else if deferred.Some? {
        pending := pending + [rh];
        if |pending| >= PENDING_LIMIT {
          MaterializeFrontier();
        }
      }
    }

    method AdvanceCounts(rh: Digest, recordType: nat, spanId: Bytes, size: nat)
      modifies this`head, this`seqNo, this`openSpans, this`segRecords, this`segBytes
      ensures head == rh && seqNo == old(seqNo) + 1
      ensures openSpans == NextSpans(old(openSpans), recordType, spanId)
      ensures segRecords == old(segRecords) + 1 && segBytes == old(segBytes) + size
    {
      head := rh;
      seqNo := seqNo + 1;
      if recordType == RT_SPAN_START {
        openSpans := openSpans + {spanId};
      } else if recordType == RT_SPAN_END {
        openSpans := openSpans - {spanId};
      }
      segRecords := segRecords + 1;
      segBytes := segBytes + size;
    }

    /** Advance past a record that is now on disk. */
    method CommitLocked(recordType: nat, spanId: Bytes, r: Rec)
      requires Valid() && SourceOk(State(), fs.disk)
      modifies this`head, this`seqNo, this`openSpans, this`segRecords, this`segBytes
      modifies this`frontier, this`deferred, this`pending, frontier
      ensures Valid() && (frontier == old(frontier) || fresh(frontier))
      ensures State() == Commit(sha, old(State()), fs.disk, recordType, spanId, r)
    {
      hide *;
      ghost var w := State();
      StateIs();
      CommitIs(sha, w, fs.disk, recordType, spanId, r);
      RememberedKeeps(sha, w, fs.disk, sha(r.hb));
      RememberHash(sha(r.hb));
      ghost var w1 := State();
      StateIs();
      AdvanceCounts(sha(r.hb), recordType, spanId, |r.hb| + |r.body|);
      StateIs();
    }

    /** The successor's first record, staged; None when the ordinal or every frontier is unknown. */
    method ContinuationLocked(c: Clock) returns (r: Option<Rec>)
      requires Valid() && deferred.None? && IdentityOk(id) && ClockOk(c) && Room(State())
      ensures r == CutRecord(sha, State(), c)
    {
      if segOrdinal.None? || frontier == null {
        return None;
      }
      var retention, text := 0, [];
      if rotation.Some? {
        if rotation.value.retentionS.Some? {
          retention := rotation.value.retentionS.value;
        }
        text := rotation.value.describe;
      }
      var tlvs := [Tlv(EVT_KIND, Le(KIND_SEGMENT_CONTINUATION, 2))];
      if text != [] {
        tlvs := tlvs + [Tlv(EVT_DETAIL, text)];
      }
      var root := frontier.ComputeRoot();
      tlvs := tlvs + [Tlv(SEG_PREDECESSOR_HEAD, head), Tlv(SEG_INDEX, Le(segOrdinal.value + 1, 4)),
                      Tlv(SEG_RETENTION_S, Le(retention, 8)), Tlv(SEG_PRIOR_ROOT, root)];
      assert tlvs == ContinuationTlvs(text, head, segOrdinal.value + 1, retention, root);
      var draft := Draft(RT_EVENT, [Tlv(TLV_ORIGIN_ROLE, ROLE_NATIVE)], EncodeTlvs(tlvs), ZERO16, ZERO16);
      assert Some(draft) == ContinuationDraft(sha, State());
      ContinuationFits(sha, State());
      r := EncodeLocked(draft, c);
    }

    /** The next record's bytes, written nowhere yet. */
    method EncodeLocked(x: Draft, c: Clock) returns (r: Option<Rec>)
      requires CanStamp(State(), x, c)
      ensures r == Some(Stamp(sha, State(), x, c))
    {
      var wall := if id.timeTrust != TIME_UNKNOWN then c.wallNs else 0;
      var digest := if x.body == [] then ZERO32 else sha(x.body);
      var header := Header(x.recordType, seqNo, id.bootId, head, id.tier, id.timeTrust, x.spanId, x.parentSpanId,
                           c.monotonicNs, wall, 0, |x.body|, digest, x.tlvs);
      r := Some(Rec(Encode(header), x.body));
    }

    /** What the manifest will say of the segment being closed. */
    method CloseEntry() returns (closed: Entry)
      requires Valid()
      ensures closed == ClosedEntry(sha, State())
    {
      closed := Entry(path, segFirstSeq, seqNo - 1, segRecords, head, segPrevHead, None, None);
      if frontier != null {
        var root := frontier.ComputeRoot();
        closed := closed.(frontier := Some(ToBytes(frontier.Value())), root := Some(root));
      }
    }

    /** The manifest first, then the successor staged under a temporary name, then renamed into place. */
    method PublishCut(p: Name, closed: Entry, continuation: Option<Rec>, c: Clock)
      requires IdentityOk(id) && ClockOk(c) && Room(State())
      requires closed == ClosedEntry(sha, State()) && continuation == CutRecord(sha, State(), c)
      modifies this`entries, fs
      ensures entries == if rotation.Some? then old(entries) + [closed] else old(entries)
      ensures fs.log == old(fs.log) + CutOps(sha, old(State()), p, c)
      ensures fs.disk == ApplyAll(old(fs.disk), CutOps(sha, old(State()), p, c))
    {
      hide CutRecord, ClosedEntry, ApplyAll, Room;
      ghost var w := State();
      StateParts();
      var bytes := if continuation.None? then [] else RecBytes(continuation.value);
      ghost var d, log := fs.disk, fs.log;
      if rotation.Some? {
        entries := entries + [closed];
        fs.Do(PutManifest(base, entries));
      }
      fs.Do(WriteTemp(Tmp(p), bytes));
      fs.Do(Rename(Tmp(p), p));
      CutOpsAre(sha, w, p, c, closed, bytes, d, log);
    }

    /** The writer moves to its new file. */
    method MoveTo(p: Name, c: Clock)
      modifies this`path, this`segPrevHead, this`segFirstSeq, this`segRecords, this`segBytes, this`segStartedS,
        this`segOrdinal
      ensures path == p && segPrevHead == head && segFirstSeq == seqNo && segRecords == 0 && segBytes == 0
      ensures segStartedS == c.monotonicS && segOrdinal == Successor(old(segOrdinal))
    {
      path, segPrevHead, segFirstSeq, segRecords, segBytes := p, head, seqNo, 0, 0;
      segStartedS := c.monotonicS;
      if segOrdinal.Some? {
        segOrdinal := Some(segOrdinal.value + 1);
      }
    }

    /** What is recorded and staged goes to the file system, then the writer moves. */
    method PublishAndMove(p: Name, closed: Entry, continuation: Option<Rec>, c: Clock)
      requires Valid() && IdentityOk(id) && ClockOk(c) && Room(State())
      requires closed == ClosedEntry(sha, State()) && continuation == CutRecord(sha, State(), c)
      modifies this`entries, fs
      modifies this`path, this`segPrevHead, this`segFirstSeq, this`segRecords, this`segBytes, this`segStartedS,
        this`segOrdinal
      ensures CutMoved(sha, old(State()), p, c, old(fs.disk), old(fs.log), State(), continuation, fs.disk, fs.log)
    {
      hide *;
      ghost var w, d, log := State(), fs.disk, fs.log;
      StateIs();
      PublishCut(p, closed, continuation, c);
      MoveTo(p, c);
      StateIs();
      MovePublished(sha, w, p, c, closed);
      CutMovedIs(sha, w, p, c, d, log);
    }

    /** The cut of a writer whose frontier is built. */
    method CutAndMove(p: Name, c: Clock) returns (continuation: Option<Rec>)
      requires Valid() && IdentityOk(id) && ClockOk(c) && Room(State()) && deferred.None?
      modifies this`entries, fs
      modifies this`path, this`segPrevHead, this`segFirstSeq, this`segRecords, this`segBytes, this`segStartedS,
        this`segOrdinal
      ensures CutMoved(sha, old(State()), p, c, old(fs.disk), old(fs.log), State(), continuation, fs.disk, fs.log)
    {
      hide *;
      var closed := CloseEntry();
      continuation := ContinuationLocked(c);
      PublishAndMove(p, closed, continuation, c);
    }

    /** The cut: closed segment recorded, successor complete under its own name, then the writer moves. */
    method RotateCore(p: Name, c: Clock)
      requires Valid() && IdentityOk(id) && ClockOk(c) && Room(State()) && SourceOk(State(), fs.disk)
      modifies this, fs, frontier
      ensures Valid() && (frontier == old(frontier) || fresh(frontier))
      ensures CutDone(sha, Materialize(sha, old(State()), old(fs.disk)), p, c, old(fs.disk), old(fs.log), State(),
                      fs.disk, fs.log)
    {
      hide *;
      ghost var w0 := State();
      MaterializedRoom(sha, w0, fs.disk);
      StateParts();
      if deferred.Some? {
        MaterializeFrontier();
      }
      ghost var w, d, log := State(), fs.disk, fs.log;
      StateIs();
      var continuation := CutAndMove(p, c);
      CutMovedParts(sha, w, p, c, d, log, State(), continuation, fs.disk, fs.log);
      StateIs();
      AfterCutIs(sha, w, p, c);
      CutDoneIs(sha, w, p, c, d, log);
      if continuation.Some? {
        CommitAnywhere(sha, State(), fs.disk, RT_EVENT, ZERO16, continuation.value);
        CommitLocked(RT_EVENT, ZERO16, continuation.value);
      }
    }

    /** Every index this chain has used: the writer's own count, the segment it is on, the listed files. */
    method UsedIndices() returns (used: seq<nat>)
      ensures used == Used(State())
    {
      hide *;
      UsedIs(State());
      StateIs();
      used := [segIndex];
      if segOrdinal.Some? {
        used := used + [segOrdinal.value];
      }
      if path.Seg? && path.stem == base {
        used := used + [path.n];
      }
      ghost var front := used;
      UsedInNone(base, entries);
      assert front + UsedIn(base, entries[..0]) == front;
      for i := 0 to |entries|
        invariant used == front + UsedIn(base, entries[..i])
      {
        var name := entries[i].file;
        UsedInSnoc(base, entries, i);
        UsedByIs(base, name);
        if name.Seg? && name.stem == base {
          used := used + [name.n];
        }
      }
      assert entries[..|entries|] == entries;
    }

    /** A name no segment of this chain has had. */
    method NextSegmentPath() returns (p: Name)
      modifies this`segIndex
      ensures segIndex == NextIndex(old(State()), fs.disk) && p == Seg(base, segIndex)
    {
      hide Max, Used, FreeIndex, State;
      StateIs();
      var used := UsedIndices();
      var n := Max(used) + 1;
      while Seg(base, n) in fs.disk.files
        invariant 0 <= n && FreeIndex(fs.disk, base, n) == NextIndex(old(State()), fs.disk)
        modifies {}
        decreases |Taken(fs.disk, base, n)|
      {
        MoreTaken(fs.disk, base, n);
        n := n + 1;
      }
      FreeHere(fs.disk, base, n);
      segIndex := n;
      p := Seg(base, n);
    }

    /** After a record: nothing, a cut put off to the span boundary, or a cut. */
    method MaybeRotateLocked(c1: Clock, c2: Clock)
      requires Valid() && IdentityOk(id) && ClockOk(c2) && Room(State()) && SourceOk(State(), fs.disk)
      modifies this, fs, frontier
      ensures Valid() && (frontier == old(frontier) || fresh(frontier))
      ensures Rotation(sha, old(State()), old(fs.disk), c1, c2, old(fs.log), State(), fs.disk, fs.log)
    {
      hide *;
      ghost var w := State();
      StateIs();
      var due := IsDue(c1.monotonicS);
      if !due {
        NotRotated(sha, w, fs.disk, c1, c2, fs.log);
        return;
      }
      if openSpans != {} {
        rotationDue := true;
        StateIs();
        RotationPutOff(sha, w, fs.disk, c1, c2, fs.log);
        return;
      }
      rotationDue := false;
      StateIs();
      NextIndexAside(w, fs.disk, false);
      var p := NextSegmentPath();
      StateIs();
      ReadyToCut(sha, w, fs.disk, segIndex);
      RotateCore(p, c2);
      RotationDone(sha, w, old(fs.disk), c1, c2, old(fs.log), State(), fs.disk, fs.log);
    }

    method IsDue(now: real) returns (due: bool)
      ensures due == Due(State(), now)
    {
      if rotation.None? {
        return false;
      }
      var pol := rotation.value;
      due := rotationDue;
      if !due && pol.maxRecords.Some? {
        due := segRecords >= pol.maxRecords.value;
      }
      if !due && pol.maxBytes.Some? {
        due := segBytes >= pol.maxBytes.value;
      }
      if !due && pol.maxAgeS.Some? {
        due := now - segStartedS >= pol.maxAgeS.value;
      }
    }

    /** The one place a record is written; None is a refusal, and changes nothing. */
    method Emit(x: Draft, c1: Clock, c2: Clock) returns (written: Option<(nat, Digest)>)
      requires Valid() && CanEmit(State(), fs.disk, x, c1, c2) && (bootPending ==> started)
      modifies this, fs, frontier
      ensures Valid() && (frontier == old(frontier) || fresh(frontier))
      ensures Emission(sha, old(State()), old(fs.disk), x, c1, c2, old(fs.log), State(), fs.disk, fs.log)
      ensures written.None? <==> Refuses(old(State()), x.recordType)
      ensures written.Some? ==> (
        && CanStamp(old(State()), x, c1)
        && written.value == (old(seqNo), sha(Stamp(sha, Started(old(State())), x, c1).hb)))
    {
      hide *;
      ghost var w, d, log := State(), fs.disk, fs.log;
      StateIs();
      RefusesIs(w, x.recordType);
      EmitNeeds(sha, w, d, x, c1, c2);
      if !started {
        if x.recordType != RT_GENESIS {
          EmissionRefused(sha, w, d, x, c1, c2, log);
          return None;
        }
        started := true;
      } else if x.recordType == RT_GENESIS {
        EmissionRefused(sha, w, d, x, c1, c2, log);
        return None;
      }
      if bootPending {
        if x.recordType != RT_BOOT {
          EmissionRefused(sha, w, d, x, c1, c2, log);
          return None;
        }
        bootPending := false;
      }
      StateIs();
      StartedIs(w);
      assert State() == Started(w);
      var seqNumber := seqNo;
      var r := EncodeLocked(x, c1);
      fs.Do(AppendTo(path, RecBytes(r.value)));
      CommitLocked(x.recordType, x.spanId, r.value);
      StateIs();
      MaybeRotateLocked(c1, c2);
      EmissionMade(sha, w, d, x, c1, c2, log, r.value, State(), fs.disk, fs.log);
      written := Some((seqNumber, sha(r.value.hb)));
    }

    /** The derived root over every record from seq 0; None when it cannot be known. */
    method ComputeChainRoot() returns (root: Option<Digest>)
      requires Valid() && SourceOk(State(), fs.disk)
      modifies this`frontier, this`deferred, this`pending
      ensures Valid() && (frontier == old(frontier) || fresh(frontier))
      ensures State() == Materialize(sha, old(State()), fs.disk)
      ensures root == ChainRoot(sha, old(State()), fs.disk)
    {
      hide AppendAll, Append, Walk, RecHashes, Materialize, PeaksRoot, SourceOk;
      MaterializedRoom(sha, State(), fs.disk);
      if deferred.Some? {
        MaterializeFrontier();
      }
      if frontier == null || frontier.count != seqNo {
        return None;
      }
      var value := frontier.ComputeRoot();
      root := Some(value);
    }
  }

  // ---------- resuming ----------

  lemma FirstEntry(entries: seq<Entry>, prev: Bytes, i: nat)
    requires i < |entries| && entries[i].head == prev && (forall j :: 0 <= j < i ==> entries[j].head != prev)
    ensures FirstClosedBy(entries, prev) == Some(i)
  {
    if i > 0 {
      FirstEntry(entries[1..], prev, i - 1);
    }
  }

  lemma NoEntry(entries: seq<Entry>, prev: Bytes)
    requires forall j :: 0 <= j < |entries| ==> entries[j].head != prev
    ensures FirstClosedBy(entries, prev).None? && ClosedBy(entries, prev).None?
  {
    if entries != [] {
      NoEntry(entries[1..], prev);
      NoEntry(entries[..|entries| - 1], prev);
    }
  }

  /** `_starting_frontier`: the last listed entry whose closed head this file follows decides. */
  method FindStartingFrontier(d: Disk, name: Name, first: Header) returns (f: Option<Peaks>)
    ensures f == StartingFrontier(d, name, first)
  {
    if first.seqNo == 0 {
      return Some(EMPTY);
    }
    if !name.Seg? || name.stem !in d.manifests {
      return None;
    }
    var entries := d.manifests[name.stem];
    var i := |entries|;
    assert entries[..i] == entries;
    while i > 0
      invariant 0 <= i <= |entries|
      invariant ClosedBy(entries, first.prevHash) == ClosedBy(entries[..i], first.prevHash)
    {
      i := i - 1;
      assert entries[..i + 1][..i] == entries[..i];
      if entries[i].head == first.prevHash {
        if entries[i].frontier.None? {
          return None;
        }
        f := FromBytes(entries[i].frontier.value);
        if f.Some? && f.value.count != first.seqNo {
          f := None;
        }
        return;
      }
    }
    return None;
  }

  /** `_segment_ordinal`: the start, then what the first record declares, then the manifest. */
  method FindOrdinal(d: Disk, name: Name, first: Header, firstBody: Bytes) returns (n: Option<nat>)
    ensures n == SegmentOrdinal(d, name, first, firstBody)
  {
    if first.seqNo == 0 {
      return Some(0);
    }
    if first.recordType == RT_EVENT && first.keyId == 0 && firstBody != [] {
      var ts := DecodeTlvs(firstBody);
      var tlvs := if ts.Some? then ts.value else [];
      var kind, index := LastVal(tlvs, EVT_KIND), LastVal(tlvs, SEG_INDEX);
      if kind.Some? && |kind.value| >= 2 && U16(kind.value, 0) == KIND_SEGMENT_CONTINUATION
         && index.Some? && |index.value| == 4 {
        return Some(U32(index.value, 0));
      }
    }
    if name.Seg? && name.stem in d.manifests {
      var entries := d.manifests[name.stem];
      for i := 0 to |entries|
        invariant forall j :: 0 <= j < i ==> entries[j].head != first.prevHash
      {
        if entries[i].head == first.prevHash {
          FirstEntry(entries, first.prevHash, i);
          return Some(i + 1);
        }
      }
      NoEntry(entries, first.prevHash);
    }
    return None;
  }

  /** `_successor_of_head`: some segment of the chain on disk starts with a record that follows `head`. */
  method FindSuccessor(d: Disk, base: Name, head: Bytes) returns (found: bool)
    ensures found <==> HasSuccessor(d, base, head)
  {
    var names := d.files.Keys;
    while names != {}
      invariant names <= d.files.Keys
      invariant forall x :: x in d.files && x !in names ==> !Follows(d, base, head, x)
      decreases names
    {
      var x :| x in names;
      if Follows(d, base, head, x) {
        return true;
      }
      names := names - {x};
    }
    return false;
  }

  /** `MAGIC in s`. */
  method ContainsMagic(s: Bytes) returns (found: bool)
    ensures found <==> HasMagic(s)
  {
    var i := 0;
    while i + 4 <= |s|
      invariant forall j :: 0 <= j < i ==> !MagicAt(s, j)
      decreases |s| - i
    {
      if At(s, i, 4) == MAGIC {
        assert MagicAt(s, i);
        return true;
      }
      i := i + 1;
    }
    return false;
  }

  /** The complete record at an offset, by the frozen fields alone. */
  method RecordAt(data: Bytes, off: nat) returns (r: Option<Rec>)
    requires off <= |data|
    ensures r == FirstRec(data[off..])
  {
    RecInPlace(data, off);
    if |data| - off < FIXED_LEN || At(data, off, 4) != MAGIC {
      return None;
    }
    var hlen, blen := U16(data, off + 6), U32(data, off + 120);
    if hlen < FIXED_LEN || off + hlen + blen > |data| {
      return None;
    }
    r := Some(Rec(At(data, off, hlen), At(data, off + hlen, blen)));
  }

  datatype Scanned = Scanned(first: Rec, last: Rec, count: nat, end: int)

  /** The frontier of a later segment starts from the one its predecessor's entry recorded. */
  method SeedFrontier(sha: Sha, d: Disk, name: Name, first: Header) returns (frontier: MerkleFrontier?)
    ensures frontier == null <==> Start0(d, name, first).None?
    ensures frontier != null ==> (
      fresh(frontier) && frontier.sha == sha && frontier.Value() == Start0(d, name, first).value)
  {
    frontier := null;
    if first.seqNo != 0 {
      var f := FindStartingFrontier(d, name, first);
      if f.Some? {
        frontier := new MerkleFrontier.Stored(sha, f.value);
      }
    }
  }

  /** The frontier after `k` scanned records, when there is one. */
  ghost predicate Grown(sha: Sha, frontier: MerkleFrontier?, f0: Option<Peaks>, rs: seq<Rec>, k: nat)
    requires k <= |rs|
    reads frontier
  {
    && (frontier == null <==> f0.None?)
    && (frontier != null ==>
        frontier.sha == sha && frontier.Value() == AppendAll(sha, f0.value, RecHashes(sha, rs[..k])))
  }

  method GrowFrontier(sha: Sha, frontier: MerkleFrontier?, ghost f0: Option<Peaks>, ghost rs: seq<Rec>, ghost k: nat,
                      hb: Bytes)
    requires k < |rs| && hb == rs[k].hb && Grown(sha, frontier, f0, rs, k)
    modifies frontier
    ensures Grown(sha, frontier, f0, rs, k + 1)
  {
    hide AppendAll, Append, RecHashes;
    if frontier != null {
      AppendAllSnoc(sha, f0.value, rs, k);
      var ok := frontier.AppendHash(sha(hb));
    }
  }

  lemma SeedGrown(sha: Sha, frontier: MerkleFrontier?, f0: Option<Peaks>, rs: seq<Rec>)
    requires frontier == null <==> f0.None?
    requires frontier != null ==> frontier.sha == sha && frontier.Value() == f0.value
    ensures Grown(sha, frontier, f0, rs, 0)
  {
    if f0.Some? {
      NoneAppended(sha, f0.value, rs);
    }
  }

  /** The scan of a resume: complete records from the start, the frontier grown along the way. */
  method ScanSegment(sha: Sha, d: Disk, name: Name, data: Bytes) returns (r: Option<Scanned>, frontier: MerkleFrontier?)
    requires data == ContentOf(d, name)
    ensures r.Some? <==> Walk(data).0 != [] && Decode(Walk(data).0[0].hb).Some?
    ensures r.Some? ==> r.value == ScanOf(data)
    ensures r.Some? ==>
      Grown(sha, frontier, Start0(d, name, Decode(Walk(data).0[0].hb).value), Walk(data).0, |Walk(data).0|)
    ensures frontier != null ==> fresh(frontier)
  {
    hide *;
    ghost var rs := Walk(data).0;
    r, frontier := None, null;
    EmptyContainer(rs);
    var off := 0;
    ghost var k := 0;
    ghost var f0: Option<Peaks> := None;
    while off < |data|
      invariant 0 <= k <= |rs| && off == |Container(rs[..k])| <= |data|
      invariant r.None? <==> k == 0
      invariant r.Some? ==> r.value == Scanned(rs[0], rs[k - 1], k, off) && Decode(rs[0].hb).Some?
      invariant r.Some? ==> f0 == Start0(d, name, Decode(rs[0].hb).value) && Grown(sha, frontier, f0, rs, k)
      invariant frontier != null ==> fresh(frontier)
      decreases |data| - off
    {
      StopOrGo(data, k, off);
      var rec := RecordAt(data, off);
      if rec.None? {
        break;
      }
      WalkedAt(data, k);
      SomeSize(rec.value);
      var end := off + |RecBytes(rec.value)|;
      if r.None? {
        var first := Decode(rec.value.hb);
        if first.None? {
          return None, null;
        }
        r := Some(Scanned(rec.value, rec.value, 1, end));
        f0 := Start0(d, name, first.value);
        frontier := SeedFrontier(sha, d, name, first.value);
        SeedGrown(sha, frontier, f0, rs);
      } else {
        r := Some(Scanned(r.value.first, rec.value, r.value.count + 1, end));
      }
      GrowFrontier(sha, frontier, f0, rs, k, rec.value.hb);
      k := k + 1;
      off := end;
    }
    StopOrGo(data, k, off);
    ScanIs(data);
  }

  /** What a scan reports, said of the walk. */
  ghost function ScanOf(data: Bytes): Scanned
    requires Walk(data).0 != []
  {
    var (rs, tail) := Walk(data);
    Scanned(rs[0], rs[|rs| - 1], |rs|, |data| - |tail|)
  }

  lemma ScanIs(data: Bytes)
    ensures var (rs, tail) := Walk(data); rs != [] ==>
      ScanOf(data) == Scanned(rs[0], rs[|rs| - 1], |rs|, |data| - |tail|)
  {
  }

  lemma EmptyContainer(rs: seq<Rec>)
    ensures |Container(rs[..0])| == 0
  {
  }

  lemma SomeSize(r: Rec)
    requires RecOk(r)
    ensures |RecBytes(r)| > 0
  {
  }

  ghost function Start0(d: Disk, name: Name, first: Header): Option<Peaks> {
    if first.seqNo == 0 then None else StartingFrontier(d, name, first)
  }

  // Truncating a file below its first record's fixed header changes no answer of the resume.

  lemma TruncateAside(d: Disk, name: Name, end: nat, d': Disk)
    requires name in d.files && FIXED_LEN <= end <= |d.files[name]| && d' == Apply(d, Truncate(name, end))
    ensures d'.manifests == d.manifests
    ensures forall base, head :: HasSuccessor(d', base, head) <==> HasSuccessor(d, base, head)
  {
    forall base, head ensures HasSuccessor(d', base, head) <==> HasSuccessor(d, base, head) {
      forall x | x in d.files ensures x in d'.files && (Follows(d', base, head, x) <==> Follows(d, base, head, x)) {
        if x == name {
          assert At(d'.files[x], 0, 4) == At(d.files[x], 0, 4) && At(d'.files[x], 36, 32) == At(d.files[x], 36, 32);
        }
      }
      assert d'.files.Keys == d.files.Keys;
      SuccessorSame(d, d', base, head);
    }
  }

  lemma SuccessorSame(d: Disk, d': Disk, base: Name, head: Bytes)
    requires d'.files.Keys == d.files.Keys
    requires forall x :: x in d.files ==> (Follows(d', base, head, x) <==> Follows(d, base, head, x))
    ensures HasSuccessor(d', base, head) <==> HasSuccessor(d, base, head)
  {
    if HasSuccessor(d', base, head) {
      var x :| x in d'.files && Follows(d', base, head, x);
      assert x in d.files && Follows(d, base, head, x);
    }
    if HasSuccessor(d, base, head) {
      var x :| x in d.files && Follows(d, base, head, x);
      assert x in d'.files && Follows(d', base, head, x);
    }
  }

  lemma SameManifests(d: Disk, d': Disk, name: Name, first: Header, body: Bytes, rotation: Option<Policy>, base: Name)
    requires d'.manifests == d.manifests
    ensures BaseFor(d', name, first, rotation) == BaseFor(d, name, first, rotation)
    ensures ListedFor(d', base, rotation) == ListedFor(d, base, rotation)
    ensures SegmentOrdinal(d', name, first, body) == SegmentOrdinal(d, name, first, body)
  {
    hide DeclaredIndex;
  }

  /** `_fold_back_unfinished_cut`, up to the decision. */
  method DecideFold(d: Disk, base: Name, name: Name, head: Digest, listed: seq<Entry>) returns (fold: FoldBack)
    ensures fold == FoldBackCut(d, base, name, head, listed)
  {
    fold := NotCut;
    if listed != [] {
      var last := listed[|listed| - 1];
      if last.file == name && last.head == head {
        var found := FindSuccessor(d, base, last.head);
        fold := if found then Finished else Undone(listed[..|listed| - 1]);
      }
    }
  }

  lemma FoldSame(d: Disk, d': Disk, base: Name, name: Name, head: Digest, listed: seq<Entry>)
    requires forall b, h :: HasSuccessor(d', b, h) <==> HasSuccessor(d, b, h)
    ensures FoldBackCut(d', base, name, head, listed) == FoldBackCut(d, base, name, head, listed)
  {
    hide HasSuccessor;
  }

  /** A scan that found a record leaves room for its fixed header before the torn bytes. */
  lemma ScanEnd(data: Bytes)
    requires Walk(data).0 != []
    ensures FIXED_LEN <= |data| - |Walk(data).1| <= |data| && data != []
    ensures RecOk(Walk(data).0[0]) && RecOk(Walk(data).0[|Walk(data).0| - 1])
    ensures |Walk(data).0[|Walk(data).0| - 1].hb| >= 20
    ensures Walk(data).1 == data[|data| - |Walk(data).1|..]
  {
    var (rs, tail) := Walk(data);
    WalkIsExact(data);
    assert rs == [rs[0]] + rs[1..];
    ContainerFirst(rs[0], rs[1..]);
  }

  /** Refused before anything is touched. */
  lemma Unscanned(sha: Sha, d: Disk, name: Name, rotation: Option<Policy>, id: Identity, recover: bool, now: real,
                  data: Bytes)
    requires data == ContentOf(d, name)
    requires var (rs, tail) := Walk(data);
      data == [] || rs == [] || Decode(rs[0].hb).None? || (tail != [] && (HasMagic(tail[1..]) || !recover))
    ensures Writer.OpenExisting(sha, d, name, rotation, id, recover, now).None?
  {
    hide Walk, Decode, HasMagic;
  }

  /** Accepted or not, once the scan is through. */
  lemma ScannedIs(sha: Sha, d: Disk, name: Name, rotation: Option<Policy>, id: Identity, recover: bool, now: real,
                  data: Bytes,
                  rs: seq<Rec>, tail: Bytes, end: nat, first: Header, base: Name, listed: seq<Entry>, fold: FoldBack)
    requires data == ContentOf(d, name) && data != [] && Walk(data) == (rs, tail) && end == |data| - |tail|
    requires rs != [] && Decode(rs[0].hb) == Some(first) && RecOk(rs[|rs| - 1])
    requires tail != [] ==> !HasMagic(tail[1..]) && recover
    requires base == BaseFor(d, name, first, rotation) && listed == ListedFor(d, base, rotation)
    requires fold == FoldBackCut(d, base, name, sha(rs[|rs| - 1].hb), listed)
    ensures Writer.OpenExisting(sha, d, name, rotation, id, recover, now) ==
      if fold.Finished? then None
      else Some((Adopted(sha, d, name, first, rs, |tail|, end, base,
                         if fold.Undone? then fold.kept else listed, rotation, id, now),
                 AdoptOps(name, tail != [], end, base, fold)))
  {
    hide Walk, FoldBackCut, BaseFor, ListedFor, Adopted, AdoptOps, Decode, HasMagic, Container, U64;
    WalkIsExact(data);
  }

  lemma AdoptedIs(sha: Sha, d: Disk, name: Name, first: Header, rs: seq<Rec>, torn: nat, end: nat, base: Name,
                  entries: seq<Entry>, rotation: Option<Policy>, id: Identity, now: real, f: Option<Peaks>,
                  ordinal: Option<nat>)
    requires rs != [] && RecOk(rs[|rs| - 1]) && ordinal == SegmentOrdinal(d, name, first, rs[0].body)
    requires f ==
      if Start0(d, name, first).None? then None
      else Some(AppendAll(sha, Start0(d, name, first).value, RecHashes(sha, rs)))
    ensures Adopted(sha, d, name, first, rs, torn, end, base, entries, rotation, id, now) ==
      WState(id, U64(rs[|rs| - 1].hb, 12) + 1, sha(rs[|rs| - 1].hb), true, true, torn, end, {}, f,
             if first.seqNo == 0 then Some((name, |rs|)) else None, [], name, base, rotation,
             |rs|, first.seqNo, first.prevHash, end, now, 0, false, ordinal, entries)
  {
    hide StartingFrontier, SegmentOrdinal, AppendAll, RecHashes, U64;
  }

  lemma GrownIs(sha: Sha, frontier: MerkleFrontier?, f0: Option<Peaks>, rs: seq<Rec>)
    requires Grown(sha, frontier, f0, rs, |rs|)
    ensures frontier == null <==> f0.None?
    ensures frontier != null ==> frontier.Value() == AppendAll(sha, f0.value, RecHashes(sha, rs))
  {
    assert rs[..|rs|] == rs;
  }

  /** The disk operations of an accepted resume. */
  lemma AdoptedOps(d: Disk, log: seq<DiskOp>, name: Name, torn: bool, end: nat, base: Name, fold: FoldBack)
    ensures var cut := Truncate(name, end);
      var undo := if fold.Undone? && fold.kept != [] then PutManifest(base, fold.kept) else DropManifest(base);
      var d1, log1 := if torn then Apply(d, cut) else d, if torn then log + [cut] else log;
      var d2, log2 := if fold.Undone? then Apply(d1, undo) else d1, if fold.Undone? then log1 + [undo] else log1;
      ApplyAll(d, AdoptOps(name, torn, end, base, fold)) == d2 && log + AdoptOps(name, torn, end, base, fold) == log2
  {
    hide Apply;
    var cut := Truncate(name, end);
    var undo := if fold.Undone? && fold.kept != [] then PutManifest(base, fold.kept) else DropManifest(base);
    var first, second := if torn then [cut] else [], if fold.Undone? then [undo] else [];
    assert AdoptOps(name, torn, end, base, fold) == first + second;
    ApplyTwo(d, first, second);
    WriterCut.ApplyOne(d, cut);
    WriterCut.ApplyOne(ApplyAll(d, first), undo);
  }

  /** Whether the bytes after the last record may be dropped. */
  method TornTailIsSafe(tail: Bytes, recover: bool) returns (ok: bool)
    ensures ok <==> (tail == [] || (!HasMagic(tail[1..]) && recover))
  {
    ok := true;
    if tail != [] {
      var magic := ContainsMagic(tail[1..]);
      ok := !magic && recover;
    }
  }

  /** A fresh writer: null on a file that already holds bytes. */
  method BeginChain(sha: Sha, fs: FileSystem, path: Name, id: Identity, rotation: Option<Policy>, now: real)
      returns (w: PalaWriter?)
    ensures w == null <==> Create(fs.disk, path, id, rotation, now).None?
    ensures w != null ==>
      fresh(w) && w.Valid() && w.sha == sha && w.fs == fs && Some(w.State()) == Create(fs.disk, path, id, rotation, now)
  {
    if fs.Read(path) != [] {
      return null;
    }
    var listed := ListedFor(fs.disk, path, rotation);
    w := new PalaWriter(sha, fs,
                        WState(id, 0, ZERO32, false, false, 0, 0, {}, Some(EMPTY), None, [], path, path, rotation,
                                        0, 0, ZERO32, 0, now, 0, false, Some(0), listed));
  }

  /** `open_existing`: null is a refusal. */
  method OpenExisting(sha: Sha, fs: FileSystem, name: Name, rotation: Option<Policy>, id: Identity, recover: bool,
                      now: real)
      returns (w: PalaWriter?)
    modifies fs
    ensures w == null <==> Writer.OpenExisting(sha, old(fs.disk), name, rotation, id, recover, now).None?
    ensures w != null ==> (
      && fresh(w) && w.Valid() && w.sha == sha && w.fs == fs
      && var (state, ops) := Writer.OpenExisting(sha, old(fs.disk), name, rotation, id, recover, now).value;
        w.State() == state && fs.disk == ApplyAll(old(fs.disk), ops) && fs.log == old(fs.log) + ops)
    ensures w == null ==> (
      var data := ContentOf(old(fs.disk), name);
      if data == [] || Unresumable(data, recover) then fs.disk == old(fs.disk) && fs.log == old(fs.log)
      else fs.disk == WithoutTail(old(fs.disk), name))
  {
    hide *;
    ghost var d, log := fs.disk, fs.log;
    var data := fs.Read(name);
    ReadIs(fs, name);
    StopsAtBytes(data, recover);
    var scan, frontier := ScanSegment(sha, fs.disk, name, data);
    if scan.None? {
      Unscanned(sha, d, name, rotation, id, recover, now, data);
      return null;
    }
    ScanIs(data);
    ScanEnd(data);
    var tail := data[scan.value.end..];
    var safe := TornTailIsSafe(tail, recover);
    if !safe {
      Unscanned(sha, d, name, rotation, id, recover, now, data);
      return null;
    }
    w := AdoptScanned(sha, fs, name, rotation, id, recover, now, data, scan.value, frontier);
  }

  /** What is left once the file's own bytes allow a resume: the torn tail, the manifest, the writer. */
  method AdoptScanned(sha: Sha, fs: FileSystem, name: Name, rotation: Option<Policy>, id: Identity, ghost recover: bool,
                      now: real, data: Bytes, scan: Scanned, frontier: MerkleFrontier?)
      returns (w: PalaWriter?)
    requires data == ContentOf(fs.disk, name) && data != [] && !Unresumable(data, recover)
    requires Walk(data).0 != [] && Decode(Walk(data).0[0].hb).Some? && scan == ScanOf(data)
    requires Grown(sha, frontier, Start0(fs.disk, name, Decode(Walk(data).0[0].hb).value), Walk(data).0, |Walk(data).0|)
    modifies fs
    ensures w == null <==> Writer.OpenExisting(sha, old(fs.disk), name, rotation, id, recover, now).None?
    ensures w != null ==> (
      && fresh(w) && w.Valid() && w.sha == sha && w.fs == fs
      && var (state, ops) := Writer.OpenExisting(sha, old(fs.disk), name, rotation, id, recover, now).value;
        w.State() == state && fs.disk == ApplyAll(old(fs.disk), ops) && fs.log == old(fs.log) + ops)
    ensures w == null ==> fs.disk == WithoutTail(old(fs.disk), name)
  {
    hide *;
    ghost var d, log := fs.disk, fs.log;
    ghost var rs, rest := Walk(data).0, Walk(data).1;
    StopsAtBytes(data, recover);
    ScanIs(data);
    ScanEnd(data);
    var tail := data[scan.end..];
    var first, end := Decode(scan.first.hb).value, scan.end;
    FileThere(d, name);
    WithoutTailIs(d, name, end);
    if tail != [] {
      fs.Do(Truncate(name, end));
      TruncateAside(d, name, end, fs.disk);
    }
    var ordinal := FindOrdinal(fs.disk, name, first, scan.first.body);
    var base := BaseFor(fs.disk, name, first, rotation);
    var listed := ListedFor(fs.disk, base, rotation);
    SameManifests(d, fs.disk, name, first, scan.first.body, rotation, base);
    var head := sha(scan.last.hb);
    var fold := DecideFold(fs.disk, base, name, head, listed);
    FoldSame(d, fs.disk, base, name, head, listed);
    ScannedIs(sha, d, name, rotation, id, recover, now, data, rs, tail, end, first, base, listed, fold);
    if fold.Finished? {
      return null;
    }
    AdoptedOps(d, log, name, tail != [], end, base, fold);
    if fold.Undone? {
      fs.Do(if fold.kept != [] then PutManifest(base, fold.kept) else DropManifest(base));
    }
    var entries := if fold.Undone? then fold.kept else listed;
    GrownIs(sha, frontier, Start0(d, name, first), rs);
    var f := if frontier == null then None else Some(frontier.Value());
    AdoptedIs(sha, d, name, first, rs, |tail|, end, base, entries, rotation, id, now, f, ordinal);
    var deferred := if first.seqNo == 0 then Some((name, scan.count)) else None;
    w := new PalaWriter(sha, fs, WState(
      id, U64(scan.last.hb, 12) + 1, head, true, true, |tail|, end, {}, f, deferred, [], name, base, rotation,
      scan.count, first.seqNo, first.prevHash, end, now, 0, false, ordinal, entries));
  }

  lemma ReadIs(fs: FileSystem, name: Name)
    ensures fs.Read(name) == ContentOf(fs.disk, name)
  {
  }

  lemma FileThere(d: Disk, name: Name)
    requires ContentOf(d, name) != []
    ensures name in d.files && d.files[name] == ContentOf(d, name)
  {
  }

  /** Whether the resume stops at the file's own bytes. */
  lemma StopsAtBytes(data: Bytes, recover: bool)
    ensures var (rs, tail) := Walk(data);
      Unresumable(data, recover) <==>
        rs == [] || Decode(rs[0].hb).None? || (tail != [] && (HasMagic(tail[1..]) || !recover))
  {
    hide Walk, Decode, HasMagic;
  }

  lemma WithoutTailIs(d: Disk, name: Name, end: nat)
    requires var data := ContentOf(d, name); end + |Walk(data).1| == |data|
    ensures WithoutTail(d, name) == if Walk(ContentOf(d, name)).1 == [] then d else Apply(d, Truncate(name, end))
  {
    hide Walk, Apply;
  }

  lemma NoneAppended(sha: Sha, f: Peaks, rs: seq<Rec>)
    ensures AppendAll(sha, f, RecHashes(sha, rs[..0])) == f
  {
  }

  /** After `k` records the scan either has all of them, or another record starts here. */
  lemma StopOrGo(data: Bytes, k: nat, off: nat)
    requires k <= |Walk(data).0| && off == |Container(Walk(data).0[..k])| <= |data|
    ensures k < |Walk(data).0| <==> off < |data| && FirstRec(data[off..]).Some?
    ensures k == |Walk(data).0| ==> off == |data| - |Walk(data).1|
  {
    var (rs, rest) := Walk(data);
    WalkIsExact(data);
    hide *;
    if k < |rs| {
      WalkedAt(data, k);
      SomeBytes(data[off..]);
    } else {
      assert rs[..k] == rs;
      assert data[off..] == rest;
      NoRecIn(rest);
    }
  }

  lemma SomeBytes(s: Bytes)
    requires FirstRec(s).Some?
    ensures s != []
  {
  }

  lemma NoRecIn(s: Bytes)
    requires s == [] || FirstRec(s).None?
    ensures FirstRec(s).None?
  {
  }

  /** What the hash of one more record does to frontier, deferral and pending list. */
  function Remembered(sha: Sha, w: WState, d: Disk, rh: Digest): WState
    requires SourceOk(w, d)
  {
    if w.frontier.Some? then w.(frontier := Some(Append(sha, w.frontier.value, rh)))
    else if w.deferred.Some? then
      var w' := w.(pending := w.pending + [rh]);
      if |w'.pending| >= PENDING_LIMIT then Materialize(sha, w', d) else w'
    else w
  }

  lemma CommitIs(sha: Sha, w: WState, d: Disk, recordType: nat, spanId: Bytes, r: Rec)
    requires SourceOk(w, d)
    ensures Commit(sha, w, d, recordType, spanId, r) == Remembered(sha, w, d, sha(r.hb)).(
      head := sha(r.hb), seqNo := w.seqNo + 1, openSpans := NextSpans(w.openSpans, recordType, spanId),
      segRecords := w.segRecords + 1, segBytes := w.segBytes + |r.hb| + |r.body|)
  {
  }

  lemma RememberedKeeps(sha: Sha, w: WState, d: Disk, rh: Digest)
    requires SourceOk(w, d)
    ensures var w' := Remembered(sha, w, d, rh);
      && w'.seqNo == w.seqNo && w'.openSpans == w.openSpans && w'.segRecords == w.segRecords
      && w'.segBytes == w.segBytes
  {
  }

  lemma CommitAnywhere(sha: Sha, w: WState, d: Disk, recordType: nat, spanId: Bytes, r: Rec)
    requires w.deferred.None?
    ensures SourceOk(w, d) && SourceOk(w, Disk(map[], map[]))
    ensures Commit(sha, w, d, recordType, spanId, r) == Commit(sha, w, Disk(map[], map[]), recordType, spanId, r)
  {
  }

  lemma AfterCutIs(sha: Sha, w: WState, p: Name, c: Clock)
    requires IdentityOk(w.id) && ClockOk(c) && Room(w) && w.deferred.None?
    ensures Moved(sha, w, p, c).deferred.None? && SourceOk(Moved(sha, w, p, c), Disk(map[], map[]))
    ensures AfterCut(sha, w, p, c) ==
      if CutRecord(sha, w, c).None? then Moved(sha, w, p, c)
      else Commit(sha, Moved(sha, w, p, c), Disk(map[], map[]), RT_EVENT, ZERO16, CutRecord(sha, w, c).value)
  {
    hide CutRecord, ClosedEntry;
  }

  /** State, disk and log after a cut of `w`. */
  ghost predicate CutDone(sha: Sha, w: WState, p: Name, c: Clock, d: Disk, log: seq<DiskOp>, w': WState, d': Disk,
                          log': seq<DiskOp>) {
    && IdentityOk(w.id) && ClockOk(c) && Room(w) && w.deferred.None? && w' == AfterCut(sha, w, p, c)
    && log' == log + CutOps(sha, w, p, c) && d' == ApplyAll(d, CutOps(sha, w, p, c))
  }

  /** State, disk and log once a cut is published and the writer has moved, its continuation not yet
      committed. */
  ghost predicate CutMoved(sha: Sha, w: WState, p: Name, c: Clock, d: Disk, log: seq<DiskOp>, w': WState,
                           r: Option<Rec>, d': Disk, log': seq<DiskOp>) {
    && IdentityOk(w.id) && ClockOk(c) && Room(w) && w' == Moved(sha, w, p, c) && r == CutRecord(sha, w, c)
    && log' == log + CutOps(sha, w, p, c) && d' == ApplyAll(d, CutOps(sha, w, p, c))
  }

  lemma CutMovedIs(sha: Sha, w: WState, p: Name, c: Clock, d: Disk, log: seq<DiskOp>)
    requires IdentityOk(w.id) && ClockOk(c) && Room(w)
    ensures CutMoved(sha, w, p, c, d, log, Moved(sha, w, p, c), CutRecord(sha, w, c),
                     ApplyAll(d, CutOps(sha, w, p, c)), log + CutOps(sha, w, p, c))
  {
    hide CutRecord, CutOps, ApplyAll, Moved, Room;
  }

  lemma CutMovedParts(sha: Sha, w: WState, p: Name, c: Clock, d: Disk, log: seq<DiskOp>, w': WState, r: Option<Rec>,
                      d': Disk, log': seq<DiskOp>)
    requires CutMoved(sha, w, p, c, d, log, w', r, d', log')
    ensures IdentityOk(w.id) && ClockOk(c) && Room(w) && w' == Moved(sha, w, p, c) && r == CutRecord(sha, w, c)
    ensures log' == log + CutOps(sha, w, p, c) && d' == ApplyAll(d, CutOps(sha, w, p, c))
  {
    hide CutRecord, CutOps, ApplyAll, Moved, Room;
  }

  lemma CutDoneIs(sha: Sha, w: WState, p: Name, c: Clock, d: Disk, log: seq<DiskOp>)
    requires IdentityOk(w.id) && ClockOk(c) && Room(w) && w.deferred.None?
    ensures CutDone(sha, w, p, c, d, log, AfterCut(sha, w, p, c), ApplyAll(d, CutOps(sha, w, p, c)),
                    log + CutOps(sha, w, p, c))
  {
    hide AfterCut, CutOps, ApplyAll;
  }

  /** State, disk and log after the policy was asked. */
  ghost predicate Rotation(sha: Sha, w: WState, d: Disk, c1: Clock, c2: Clock, log: seq<DiskOp>, w': WState, d': Disk,
                           log': seq<DiskOp>) {
    && IdentityOk(w.id) && ClockOk(c2) && Room(w) && SourceOk(w, d)
    && var (after, ops) := MaybeRotate(sha, w, d, c1, c2); w' == after && d' == ApplyAll(d, ops) && log' == log + ops
  }

  lemma NotRotated(sha: Sha, w: WState, d: Disk, c1: Clock, c2: Clock, log: seq<DiskOp>)
    requires IdentityOk(w.id) && ClockOk(c2) && Room(w) && SourceOk(w, d) && !Due(w, c1.monotonicS)
    ensures Rotation(sha, w, d, c1, c2, log, w, d, log)
  {
    hide Due, Room;
    assert log + [] == log;
  }

  lemma RotationPutOff(sha: Sha, w: WState, d: Disk, c1: Clock, c2: Clock, log: seq<DiskOp>)
    requires IdentityOk(w.id) && ClockOk(c2) && Room(w) && SourceOk(w, d) && Due(w, c1.monotonicS) && w.openSpans != {}
    ensures Rotation(sha, w, d, c1, c2, log, w.(rotationDue := true), d, log)
  {
    hide Due, Room;
    assert log + [] == log;
  }

  lemma NextIndexAside(w: WState, d: Disk, due: bool)
    ensures NextIndex(w.(rotationDue := due), d) == NextIndex(w, d)
  {
    hide Max, FreeIndex;
  }

  lemma ReadyToCut(sha: Sha, w: WState, d: Disk, n: nat)
    requires IdentityOk(w.id) && Room(w) && SourceOk(w, d)
    ensures var w' := w.(rotationDue := false, segIndex := n); IdentityOk(w'.id) && Room(w') && SourceOk(w', d)
  {
  }

  lemma RotationDone(sha: Sha, w: WState, d: Disk, c1: Clock, c2: Clock, log: seq<DiskOp>, w': WState, d': Disk,
                     log': seq<DiskOp>)
    requires IdentityOk(w.id) && ClockOk(c2) && Room(w) && SourceOk(w, d) && Due(w, c1.monotonicS) && w.openSpans == {}
    requires SourceOk(w.(rotationDue := false, segIndex := NextIndex(w, d)), d)
    requires CutDone(sha, Materialize(sha, w.(rotationDue := false, segIndex := NextIndex(w, d)), d),
                     Seg(w.base, NextIndex(w, d)), c2,
                     d, log, w', d', log')
    ensures Rotation(sha, w, d, c1, c2, log, w', d', log')
  {
    hide Due, Room, AfterCut, CutOps, NextIndex, Materialize, ApplyAll;
  }

  /** State, disk and log after one emit. */
  ghost predicate Emission(sha: Sha, w: WState, d: Disk, x: Draft, c1: Clock, c2: Clock, log: seq<DiskOp>,
                           w': WState, d': Disk, log': seq<DiskOp>) {
    && CanEmit(w, d, x, c1, c2)
    && var (after, ops) := Writer.Emit(sha, w, d, x, c1, c2); w' == after && d' == ApplyAll(d, ops) && log' == log + ops
  }

  lemma RefusesIs(w: WState, recordType: nat)
    ensures Refuses(w, recordType) <==>
      || (!w.started && recordType != RT_GENESIS)
      || (w.started && recordType == RT_GENESIS)
      || (w.bootPending && recordType != RT_BOOT)
  {
  }

  lemma EmissionRefused(sha: Sha, w: WState, d: Disk, x: Draft, c1: Clock, c2: Clock, log: seq<DiskOp>)
    requires CanEmit(w, d, x, c1, c2) && Refuses(w, x.recordType)
    ensures Emission(sha, w, d, x, c1, c2, log, w, d, log)
  {
    hide CanEmit, Refuses;
    assert log + [] == log;
  }

  lemma StartedIs(w: WState)
    ensures Started(w) == w.(started := true, bootPending := false)
  {
  }

  /** What the record's own steps need, and what they leave for the policy's. */
  lemma EmitNeeds(sha: Sha, w: WState, d: Disk, x: Draft, c1: Clock, c2: Clock)
    requires CanEmit(w, d, x, c1, c2)
    ensures CanStamp(Started(w), x, c1) && CanStamp(w, x, c1) && IdentityOk(w.id) && ClockOk(c2)
    ensures var r := Stamp(sha, Started(w), x, c1);
      var d1 := Apply(d, AppendTo(w.path, RecBytes(r)));
      && SourceOk(Started(w), d1)
      && var w1 := Commit(sha, Started(w), d1, x.recordType, x.spanId, r);
        Room(w1) && SourceOk(w1, d1) && w1.id == w.id
  {
    hide Encode, Stamp;
    var r := Stamp(sha, Started(w), x, c1);
    SourceSurvivesAppend(Started(w), d, RecBytes(r));
    WriterCut.CommitKeepsRoom(sha, Started(w), Apply(d, AppendTo(w.path, RecBytes(r))), x.recordType, x.spanId, r);
    WriterCut.CommitKeepsSource(sha, Started(w), Apply(d, AppendTo(w.path, RecBytes(r))), x.recordType, x.spanId, r);
  }

  lemma EmissionMade(sha: Sha, w: WState, d: Disk, x: Draft, c1: Clock, c2: Clock, log: seq<DiskOp>, r: Rec,
                     w': WState, d': Disk, log': seq<DiskOp>)
    requires CanEmit(w, d, x, c1, c2) && !Refuses(w, x.recordType) && CanStamp(Started(w), x, c1)
    requires r == Stamp(sha, Started(w), x, c1) && SourceOk(Started(w), Apply(d, AppendTo(w.path, RecBytes(r))))
    requires var op := AppendTo(w.path, RecBytes(r));
      var d1 := Apply(d, op);
      Rotation(sha, Commit(sha, Started(w), d1, x.recordType, x.spanId, r), d1, c1, c2, log + [op], w', d', log')
    ensures Emission(sha, w, d, x, c1, c2, log, w', d', log')
  {
    hide Encode, Stamp, Commit, MaybeRotate, Room, Refuses, ApplyAll;
    var op := AppendTo(w.path, RecBytes(r));
    var d1 := Apply(d, op);
    var ops := MaybeRotate(sha, Commit(sha, Started(w), d1, x.recordType, x.spanId, r), d1, c1, c2).1;
    ApplyTwo(d, [op], ops);
    WriterCut.ApplyOne(d, op);
    assert log + [op] + ops == log + ([op] + ops);
  }

  function Successor(o: Option<nat>): Option<nat> {
    match o
    case None => None
    case Some(n) => Some(n + 1)
  }

  lemma MovePublished(sha: Sha, w: WState, p: Name, c: Clock, closed: Entry)
    requires closed == ClosedEntry(sha, w)
    ensures Moved(sha, w, p, c) == w.(entries := if w.rotation.Some? then w.entries + [closed] else w.entries).(
      path := p, segPrevHead := w.head, segFirstSeq := w.seqNo, segRecords := 0, segBytes := 0,
      segStartedS := c.monotonicS,
      segOrdinal := Successor(w.segOrdinal))
  {
    hide ClosedEntry;
  }

  lemma CutOpsAre(sha: Sha, w: WState, p: Name, c: Clock, closed: Entry, bytes: Bytes, d: Disk, log: seq<DiskOp>)
    requires IdentityOk(w.id) && ClockOk(c) && Room(w)
    requires closed == ClosedEntry(sha, w) && bytes == CutBytes(CutRecord(sha, w, c))
    ensures var put := PutManifest(w.base, w.entries + [closed]);
      var d0 := if w.rotation.Some? then Apply(d, put) else d;
      var log0 := if w.rotation.Some? then log + [put] else log;
      && ApplyAll(d, CutOps(sha, w, p, c)) == Apply(Apply(d0, WriteTemp(Tmp(p), bytes)), Rename(Tmp(p), p))
      && log + CutOps(sha, w, p, c) == log0 + [WriteTemp(Tmp(p), bytes)] + [Rename(Tmp(p), p)]
  {
    hide CutRecord, ClosedEntry, Room, Apply;
    var put := PutManifest(w.base, w.entries + [closed]);
    var first := if w.rotation.Some? then [put] else [];
    if w.rotation.Some? {
      assert [put][..0] == [];
    }
    ThreeOps(d, first, WriteTemp(Tmp(p), bytes), Rename(Tmp(p), p));
  }

  lemma SourceParts(w: WState, d: Disk)
    requires SourceOk(w, d) && w.deferred.Some?
    ensures w.deferred.value.0 in d.files && ContentOf(d, w.deferred.value.0) == d.files[w.deferred.value.0]
    ensures w.deferred.value.1 <= |Walk(d.files[w.deferred.value.0]).0|
  {
  }

  lemma MaterializeIs(sha: Sha, w: WState, d: Disk)
    requires SourceOk(w, d) && w.deferred.Some?
    ensures w.deferred.value.0 in d.files && w.deferred.value.1 <= |Walk(d.files[w.deferred.value.0]).0|
    ensures Materialize(sha, w, d) == w.(
      frontier := Some(AppendAll(sha, EMPTY,
        RecHashes(sha, Walk(d.files[w.deferred.value.0]).0[..w.deferred.value.1]) + w.pending)),
      deferred := None, pending := [])
  {
  }

  lemma MaterializedRoom(sha: Sha, w: WState, d: Disk)
    requires SourceOk(w, d)
    ensures var m := Materialize(sha, w, d);
      (Room(m) <==> Room(w)) && m.id == w.id && m.deferred.None? && SourceOk(m, d) && (w.deferred.None? ==> m == w)
  {
  }

  lemma AppendOne(sha: Sha, scanned: seq<Digest>, pending: seq<Digest>, i: nat)
    requires i < |pending|
    ensures AppendAll(sha, EMPTY, scanned + pending[..i + 1]) ==
      Append(sha, AppendAll(sha, EMPTY, scanned + pending[..i]), pending[i])
  {
    var hs := scanned + pending[..i + 1];
    assert hs[..|hs| - 1] == scanned + pending[..i];
  }

  lemma ThreeOps(d: Disk, ops: seq<DiskOp>, a: DiskOp, b: DiskOp)
    ensures ApplyAll(d, ops + [a, b]) == Apply(Apply(ApplyAll(d, ops), a), b)
  {
    assert ops + [a, b] == ops + [a] + [b];
    ApplySnoc(d, ops, a);
    ApplySnoc(d, ops + [a], b);
  }

  lemma UsedIs(w: WState)
    ensures Used(w) ==
      [w.segIndex] + (if w.segOrdinal.Some? then [w.segOrdinal.value] else []) +
      (if w.path.Seg? && w.path.stem == w.base then [w.path.n] else []) + UsedIn(w.base, w.entries)
  {
  }

  lemma UsedByIs(base: Name, name: Name)
    ensures UsedBy(base, name) == if name.Seg? && name.stem == base then [name.n] else []
  {
  }

  lemma UsedInNone(base: Name, entries: seq<Entry>)
    ensures UsedIn(base, entries[..0]) == []
  {
  }

  lemma UsedInSnoc(base: Name, entries: seq<Entry>, i: nat)
    requires i < |entries|
    ensures UsedIn(base, entries[..i + 1]) == UsedIn(base, entries[..i]) + UsedBy(base, entries[i].file)
  {
    assert entries[..i + 1][..i] == entries[..i];
  }

  lemma FreeHere(d: Disk, base: Name, n: nat)
    requires Seg(base, n) !in d.files
    ensures FreeIndex(d, base, n) == n
  {
  }

  lemma MoreTaken(d: Disk, base: Name, n: nat)
    requires Seg(base, n) in d.files
    ensures FreeIndex(d, base, n) == FreeIndex(d, base, n + 1)
    ensures |Taken(d, base, n + 1)| < |Taken(d, base, n)|
  {
    assert Seg(base, n) in Taken(d, base, n) && Seg(base, n) !in Taken(d, base, n + 1);
    assert Taken(d, base, n + 1) <= Taken(d, base, n) - {Seg(base, n)};
    FewerTaken(Taken(d, base, n + 1), Taken(d, base, n), Seg(base, n));
  }
}
