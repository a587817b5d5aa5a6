/** The PALA-1 writer as functions on its state and the disk. */
module Writer {
  /* A disk operation is one atomic step except that an append or a temporary write may be torn at any
     byte. `WriterObject` holds the object whose methods compute these functions in place. */

  import opened Bytes
  import opened Codec
  import opened Frontier
  import opened Profile
  import Merkle

  // ---------- limits ----------

  const PENDING_LIMIT: nat := 4096
  const DETAIL_CLIP: nat := 200

  // ---------- the disk ----------

  /** `base`, `stem.NNNNN`, `name.tmp`. */
  datatype Name = Base | Seg(stem: Name, n: nat) | Tmp(of: Name)

  datatype Entry = Entry(
    file: Name, firstSeq: nat, lastSeq: int, records: nat, head: Digest, prevHead: Bytes,
    frontier: Option<Bytes>, root: Option<Digest>)

  /** Files by name, and the segments manifest beside each base name. */
  datatype Disk = Disk(files: map<Name, Bytes>, manifests: map<Name, seq<Entry>>)

  datatype DiskOp =
    | AppendTo(name: Name, data: Bytes)
    | WriteTemp(name: Name, data: Bytes)
    | Rename(from: Name, to: Name)
    | Truncate(name: Name, len: nat)
    | PutManifest(base: Name, entries: seq<Entry>)
    | DropManifest(base: Name)
    | Remove(name: Name)

  function ContentOf(d: Disk, name: Name): Bytes {
    if name in d.files then d.files[name] else []
  }

  function Apply(d: Disk, op: DiskOp): Disk {
    match op
    case AppendTo(name, data) => d.(files := d.files[name := ContentOf(d, name) + data])
    case WriteTemp(name, data) => d.(files := d.files[name := data])
    case Rename(from, to) => d.(files := (d.files - {from})[to := ContentOf(d, from)])
    case Truncate(name, len) =>
      var s := ContentOf(d, name);
      d.(files := d.files[name := if len <= |s| then s[..len] else s + Zeros(len - |s|)])
    case PutManifest(base, entries) => d.(manifests := d.manifests[base := entries])
    case DropManifest(base) => d.(manifests := d.manifests - {base})
    case Remove(name) => d.(files := d.files - {name})
  }

  function ApplyAll(d: Disk, ops: seq<DiskOp>): Disk {
    if ops == [] then d else Apply(ApplyAll(d, ops[..|ops| - 1]), ops[|ops| - 1])
  }

  /** The part of an operation that a crash may leave: a prefix of the bytes, or nothing. */
  function Torn(op: DiskOp, n: nat): seq<DiskOp> {
    match op
    case AppendTo(name, data) => [AppendTo(name, if n <= |data| then data[..n] else data)]
    case WriteTemp(name, data) => [WriteTemp(name, if n <= |data| then data[..n] else data)]
    case _ => []
  }

  /** The disk after a crash: the first `k` operations done, the next one torn after `n` bytes. */
  function CrashDisk(d: Disk, ops: seq<DiskOp>, k: nat, n: nat): Disk
    requires k <= |ops|
  {
    ApplyAll(d, ops[..k] + (if k < |ops| then Torn(ops[k], n) else []))
  }

  // ---------- the writer ----------

  datatype Policy = Policy(
    maxRecords: Option<nat>, maxBytes: Option<nat>, maxAgeS: Option<real>, retentionS: Option<nat>,
    describe: Bytes)  // the thresholds as text, the continuation's EVT_DETAIL

  predicate PolicyOk(p: Policy) {
    && (p.maxRecords.Some? || p.maxBytes.Some? || p.maxAgeS.Some?)
    && (p.maxRecords.Some? ==> p.maxRecords.value > 0)
    && (p.maxBytes.Some? ==> p.maxBytes.value > 0)
    && (p.maxAgeS.Some? ==> p.maxAgeS.value > 0.0)
    && (p.retentionS.Some? ==> p.retentionS.value < 0x1_0000_0000_0000_0000)
    && |p.describe| <= DETAIL_CLIP
  }

  datatype Clock = Clock(wallNs: int, monotonicNs: nat, monotonicS: real)

  predicate ClockOk(c: Clock) {
    && -0x8000_0000_0000_0000 <= c.wallNs < 0x8000_0000_0000_0000
    && c.monotonicNs < 0x1_0000_0000_0000_0000
  }

  datatype Identity = Identity(bootId: Bytes, timeTrust: nat, tier: nat)

  predicate IdentityOk(i: Identity) {
    |i.bootId| == 16 && i.timeTrust < 256 && i.tier < 256
  }

  datatype WState = WState(
    id: Identity, seqNo: nat, head: Digest, started: bool, bootPending: bool,
    recoveredBytes: nat, recoveredOffset: nat, openSpans: set<Bytes>,
    frontier: Option<Peaks>, deferred: Option<(Name, nat)>, pending: seq<Digest>,
    path: Name, base: Name, rotation: Option<Policy>,
    segRecords: nat, segFirstSeq: nat, segPrevHead: Bytes, segBytes: nat, segStartedS: real,
    segIndex: nat, rotationDue: bool, segOrdinal: Option<nat>, entries: seq<Entry>)

  /** What a caller hands to the one place a record is written. */
  datatype Draft = Draft(recordType: nat, tlvs: seq<Tlv>, body: Bytes, spanId: Bytes, parentSpanId: Bytes)

  predicate DraftFits(d: Draft) {
    && d.recordType < 0x1_0000 && TlvsFit(d.tlvs) && FIXED_LEN + |EncodeTlvs(d.tlvs)| < 0x1_0000
    && |d.body| < 0x1_0000_0000 && |d.spanId| == 16 && |d.parentSpanId| == 16
  }

  function BodyDigest(sha: Sha, body: Bytes): Digest {
    if body == [] then ZERO32 else sha(body)
  }

  function HeaderFor(sha: Sha, w: WState, d: Draft, c: Clock): Header {
    Header(d.recordType, w.seqNo, w.id.bootId, w.head, w.id.tier, w.id.timeTrust, d.spanId, d.parentSpanId,
           c.monotonicNs, if w.id.timeTrust != TIME_UNKNOWN then c.wallNs else 0, 0, |d.body|,
           BodyDigest(sha, d.body), d.tlvs)
  }

  predicate CanStamp(w: WState, d: Draft, c: Clock) {
    IdentityOk(w.id) && DraftFits(d) && ClockOk(c) && w.seqNo < 0x1_0000_0000_0000_0000
  }

  /** The next record: its header bytes and body. */
  function Stamp(sha: Sha, w: WState, d: Draft, c: Clock): Rec
    requires CanStamp(w, d, c)
  {
    Rec(Encode(HeaderFor(sha, w, d, c)), d.body)
  }

  function RecHash(sha: Sha, r: Rec): Digest { sha(r.hb) }

  function RecHashes(sha: Sha, rs: seq<Rec>): (ds: seq<Digest>)
    ensures |ds| == |rs|
    ensures forall i :: 0 <= i < |rs| ==> ds[i] == RecHash(sha, rs[i])
  {
    seq(|rs|, i requires 0 <= i < |rs| => RecHash(sha, rs[i]))
  }

  function AppendAll(sha: Sha, f: Peaks, hs: seq<Digest>): Peaks {
    if hs == [] then f else Append(sha, AppendAll(sha, f, hs[..|hs| - 1]), hs[|hs| - 1])
  }

  /** A deferred frontier's source still holds the records it was deferred for. */
  predicate SourceOk(w: WState, d: Disk) {
    w.deferred.Some? ==>
      && w.deferred.value.0 in d.files
      && w.deferred.value.1 <= |Walk(d.files[w.deferred.value.0]).0|
  }

  /** Build a deferred frontier: rescan the resumed file, then replay the hashes written since. */
  function Materialize(sha: Sha, w: WState, d: Disk): WState
    requires SourceOk(w, d)
  {
    if w.deferred.None? then w
    else
      var (source, count) := w.deferred.value;
      var scanned := RecHashes(sha, Walk(d.files[source]).0[..count]);
      w.(frontier := Some(AppendAll(sha, EMPTY, scanned + w.pending)), deferred := None, pending := [])
  }

  function NextSpans(open: set<Bytes>, recordType: nat, spanId: Bytes): set<Bytes> {
    if recordType == RT_SPAN_START then open + {spanId}
    else if recordType == RT_SPAN_END then open - {spanId}
    else open
  }

  /** Advance past a record that is now on disk. */
  function Commit(sha: Sha, w: WState, d: Disk, recordType: nat, spanId: Bytes, r: Rec): WState
    requires SourceOk(w, d)
  {
    var rh := sha(r.hb);
    var w1 := w.(head := rh, seqNo := w.seqNo + 1, openSpans := NextSpans(w.openSpans, recordType, spanId),
                 segRecords := w.segRecords + 1, segBytes := w.segBytes + |r.hb| + |r.body|);
    if w.frontier.Some? then w1.(frontier := Some(Append(sha, w.frontier.value, rh)))
    else if w.deferred.Some? then
      var w2 := w1.(pending := w.pending + [rh]);
      if |w2.pending| >= PENDING_LIMIT then Materialize(sha, w2, d) else w2
    else w1
  }

  // ---------- the cut ----------

  function ContinuationTlvs(text: Bytes, head: Digest, index: nat, retention: nat, root: Digest): seq<Tlv> {
    [Tlv(EVT_KIND, Le(KIND_SEGMENT_CONTINUATION, 2))] +
    (if text == [] then [] else [Tlv(EVT_DETAIL, text)]) +
    [Tlv(SEG_PREDECESSOR_HEAD, head), Tlv(SEG_INDEX, Le(index, 4)),
     Tlv(SEG_RETENTION_S, Le(retention, 8)), Tlv(SEG_PRIOR_ROOT, root)]
  }

  /** None when the ordinal, or any frontier, is unknown. */
  function ContinuationDraft(sha: Sha, w: WState): Option<Draft> {
    if w.segOrdinal.None? || w.frontier.None? then None
    else
      var declared := w.rotation.Some? && w.rotation.value.retentionS.Some?;
      var retention := if declared then w.rotation.value.retentionS.value else 0;
      var text := if w.rotation.Some? then w.rotation.value.describe else [];
      var root := PeaksRoot(sha, w.frontier.value);
      var body := EncodeTlvs(ContinuationTlvs(text, w.head, w.segOrdinal.value + 1, retention, root));
      Some(Draft(RT_EVENT, [Tlv(TLV_ORIGIN_ROLE, ROLE_NATIVE)], body, ZERO16, ZERO16))
  }

  /** The manifest entry of the segment being closed; `w`'s frontier is materialised. */
  function ClosedEntry(sha: Sha, w: WState): Entry {
    Entry(w.path, w.segFirstSeq, w.seqNo - 1, w.segRecords, w.head, w.segPrevHead,
          if w.frontier.Some? then Some(ToBytes(w.frontier.value)) else None,
          if w.frontier.Some? then Some(PeaksRoot(sha, w.frontier.value)) else None)
  }

  predicate Room(w: WState) {
    && w.seqNo < 0x1_0000_0000_0000_0000
    && (w.segOrdinal.Some? ==> w.segOrdinal.value + 1 < 0x1_0000_0000)
    && (w.rotation.Some? ==> PolicyOk(w.rotation.value))
  }

  lemma ContinuationFits(sha: Sha, w: WState)
    requires Room(w) && ContinuationDraft(sha, w).Some?
    ensures DraftFits(ContinuationDraft(sha, w).value)
    ensures |ContinuationDraft(sha, w).value.body| < 0x1_0000
  {
    var d := ContinuationDraft(sha, w).value;
    var role := Tlv(TLV_ORIGIN_ROLE, ROLE_NATIVE);
    assert d.tlvs[1..] == [];
    assert EncodeTlvs(d.tlvs) == EncodeTlv(role) + [];
    var declared := w.rotation.Some? && w.rotation.value.retentionS.Some?;
    var retention := if declared then w.rotation.value.retentionS.value else 0;
    var text := if w.rotation.Some? then w.rotation.value.describe else [];
    ContinuationLength(text, w.head, w.segOrdinal.value + 1, retention, PeaksRoot(sha, w.frontier.value));
  }

  lemma EncodeAppend(a: seq<Tlv>, b: seq<Tlv>)
    ensures EncodeTlvs(a + b) == EncodeTlvs(a) + EncodeTlvs(b)
  {
    if a == [] {
      assert a + b == b;
    } else {
      assert (a + b)[1..] == a[1..] + b;
      EncodeAppend(a[1..], b);
      Assoc(EncodeTlv(a[0]), EncodeTlvs(a[1..]), EncodeTlvs(b));
    }
  }

  lemma EncodeOne(x: Tlv)
    ensures |EncodeTlvs([x])| == 4 + |x.val|
  {
    assert [x][1..] == [];
  }

  lemma ContinuationLength(text: Bytes, head: Digest, index: nat, retention: nat, root: Digest)
    requires |text| <= DETAIL_CLIP
    ensures |EncodeTlvs(ContinuationTlvs(text, head, index, retention, root))| <= 400
  {
    var a := [Tlv(EVT_KIND, Le(KIND_SEGMENT_CONTINUATION, 2))];
    var b := if text == [] then [] else [Tlv(EVT_DETAIL, text)];
    var c, d, e, f := Tlv(SEG_PREDECESSOR_HEAD, head), Tlv(SEG_INDEX, Le(index, 4)),
      Tlv(SEG_RETENTION_S, Le(retention, 8)), Tlv(SEG_PRIOR_ROOT, root);
    var tail := [c, d, e, f];
    assert tail == [c] + ([d] + ([e] + [f]));
    EncodeAppend(a + b, tail);
    EncodeAppend(a, b);
    EncodeAppend([c], [d] + ([e] + [f]));
    EncodeAppend([d], [e] + [f]);
    EncodeAppend([e], [f]);
    EncodeOne(a[0]);
    if text != [] {
      EncodeOne(b[0]);
    }
    EncodeOne(c);
    EncodeOne(d);
    EncodeOne(e);
    EncodeOne(f);
  }

  // ---------- the next name ----------

  /** The index a name carries as a segment of `base`, if it is one. */
  function UsedBy(base: Name, name: Name): seq<nat> {
    if name.Seg? && name.stem == base then [name.n] else []
  }

  function UsedIn(base: Name, entries: seq<Entry>): seq<nat> {
    if entries == [] then [] else UsedIn(base, entries[..|entries| - 1]) + UsedBy(base, entries[|entries| - 1].file)
  }

  function Used(w: WState): seq<nat> {
    [w.segIndex] + (if w.segOrdinal.Some? then [w.segOrdinal.value] else []) +
    UsedBy(w.base, w.path) + UsedIn(w.base, w.entries)
  }

  function Max(xs: seq<nat>): (m: nat)
    ensures forall i :: 0 <= i < |xs| ==> xs[i] <= m
    ensures xs != [] ==> m in xs
  {
    if xs == [] then 0
    else
      var m, last := Max(xs[..|xs| - 1]), xs[|xs| - 1];
      assert forall i :: 0 <= i < |xs| - 1 ==> xs[..|xs| - 1][i] == xs[i];
      if |xs| == 1 || m < last then last else m
  }

  function Taken(d: Disk, base: Name, n: nat): set<Name> {
    set x | x in d.files && x.Seg? && x.stem == base && x.n >= n
  }

  /** The first index from `n` on that no file on disk has. */
  function FreeIndex(d: Disk, base: Name, n: nat): (m: nat)
    ensures m >= n && Seg(base, m) !in d.files
    decreases |Taken(d, base, n)|
  {
    if Seg(base, n) !in d.files then n
    else
      assert Seg(base, n) in Taken(d, base, n) && Seg(base, n) !in Taken(d, base, n + 1);
      assert Taken(d, base, n + 1) <= Taken(d, base, n) - {Seg(base, n)};
      FewerTaken(Taken(d, base, n + 1), Taken(d, base, n), Seg(base, n));
      FreeIndex(d, base, n + 1)
  }

  lemma FewerTaken(a: set<Name>, b: set<Name>, x: Name)
    requires a <= b - {x} && x in b
    ensures |a| < |b|
  {
    SubsetSize(a, b - {x});
  }

  lemma SubsetSize(a: set<Name>, b: set<Name>)
    requires a <= b
    ensures |a| <= |b|
  {
    if a != {} {
      var x :| x in a;
      SubsetSize(a - {x}, b - {x});
    }
  }

  function NextIndex(w: WState, d: Disk): nat {
    FreeIndex(d, w.base, Max(Used(w)) + 1)
  }

  // ---------- cutting ----------

  /** The writer and its staged continuation just before anything on disk changes. */
  function CutRecord(sha: Sha, w: WState, c: Clock): Option<Rec>
    requires IdentityOk(w.id) && ClockOk(c) && Room(w)
  {
    var d := ContinuationDraft(sha, w);
    if d.None? then None
    else
      ContinuationFits(sha, w);
      Some(Stamp(sha, w, d.value, c))
  }

  function CutBytes(r: Option<Rec>): Bytes {
    if r.None? then [] else RecBytes(r.value)
  }

  /** Manifest first, then the successor appears complete under its own name. */
  function CutOps(sha: Sha, w: WState, p: Name, c: Clock): seq<DiskOp>
    requires IdentityOk(w.id) && ClockOk(c) && Room(w)
  {
    (if w.rotation.Some? then [PutManifest(w.base, w.entries + [ClosedEntry(sha, w)])] else []) +
    [WriteTemp(Tmp(p), CutBytes(CutRecord(sha, w, c))), Rename(Tmp(p), p)]
  }

  function Moved(sha: Sha, w: WState, p: Name, c: Clock): WState {
    w.(path := p, segPrevHead := w.head, segFirstSeq := w.seqNo, segRecords := 0, segBytes := 0,
       segStartedS := c.monotonicS, segOrdinal := if w.segOrdinal.None? then None else Some(w.segOrdinal.value + 1),
       entries := if w.rotation.Some? then w.entries + [ClosedEntry(sha, w)] else w.entries)
  }

  /** The writer after the cut. `w`'s frontier is materialised, so no disk is read. */
  function AfterCut(sha: Sha, w: WState, p: Name, c: Clock): WState
    requires IdentityOk(w.id) && ClockOk(c) && Room(w) && w.deferred.None?
  {
    var r, m := CutRecord(sha, w, c), Moved(sha, w, p, c);
    if r.None? then m else Commit(sha, m, Disk(map[], map[]), RT_EVENT, ZERO16, r.value)
  }

  /** Whether a threshold is reached, on the state after a record. */
  function Due(w: WState, now: real): bool {
    w.rotation.Some? && (
      || w.rotationDue
      || (w.rotation.value.maxRecords.Some? && w.segRecords >= w.rotation.value.maxRecords.value)
      || (w.rotation.value.maxBytes.Some? && w.segBytes >= w.rotation.value.maxBytes.value)
      || (w.rotation.value.maxAgeS.Some? && now - w.segStartedS >= w.rotation.value.maxAgeS.value))
  }

  /** The policy's answer after a record: nothing, a cut deferred to the span boundary, or a cut. */
  function MaybeRotate(sha: Sha, w: WState, d: Disk, c1: Clock, c2: Clock): (WState, seq<DiskOp>)
    requires IdentityOk(w.id) && ClockOk(c2) && Room(w) && SourceOk(w, d)
  {
    if !Due(w, c1.monotonicS) then (w, [])
    else if w.openSpans != {} then (w.(rotationDue := true), [])
    else
      var n := NextIndex(w, d);
      var w1 := Materialize(sha, w.(rotationDue := false, segIndex := n), d);
      var p := Seg(w.base, n);
      (AfterCut(sha, w1, p, c2), CutOps(sha, w1, p, c2))
  }

  // ---------- emitting ----------

  predicate Refuses(w: WState, recordType: nat) {
    || (!w.started && recordType != RT_GENESIS)
    || (w.started && recordType == RT_GENESIS)
    || (w.bootPending && recordType != RT_BOOT)
  }

  predicate CanEmit(w: WState, d: Disk, x: Draft, c1: Clock, c2: Clock) {
    && CanStamp(w, x, c1) && ClockOk(c2) && Room(w.(seqNo := w.seqNo + 1)) && SourceOk(w, d)
  }

  function Started(w: WState): WState { w.(started := true, bootPending := false) }

  lemma SourceSurvivesAppend(w: WState, d: Disk, data: Bytes)
    requires SourceOk(w, d)
    ensures SourceOk(w, Apply(d, AppendTo(w.path, data)))
  {
    if w.deferred.Some? && w.deferred.value.0 == w.path {
      WalkGrows(d.files[w.path], data);
    }
  }

  /** Appended bytes never disturb the complete records before them. */
  lemma {:induction false} WalkGrows(data: Bytes, more: Bytes)
    ensures Walk(data).0 <= Walk(data + more).0
    decreases |data|
  {
    var r := FirstRec(data);
    if data != [] && r.Some? {
      var n := |r.value.hb| + |r.value.body|;
      WalkStep(data, r.value, data[n..]);
      WalkGrows(data[n..], more);
      FirstRecOf(r.value, data[n..] + more);
      Assoc(RecBytes(r.value), data[n..], more);
      WalkStep(data + more, r.value, data[n..] + more);
    }
  }

  /** A committed record leaves what the policy step needs. */
  lemma CommitReady(sha: Sha, w: WState, d: Disk, recordType: nat, spanId: Bytes, r: Rec)
    requires SourceOk(w, d)
    ensures var w1 := Commit(sha, w, d, recordType, spanId, r);
      && w1.id == w.id && SourceOk(w1, d) && (Room(w1) <==> Room(w.(seqNo := w.seqNo + 1)))
  {
    hide AppendAll, Append, RecHashes, Walk, NextSpans, PolicyOk;
  }

  /** One record: written, committed, and then the policy is asked. */
  function Emit(sha: Sha, w: WState, d: Disk, x: Draft, c1: Clock, c2: Clock): (WState, seq<DiskOp>)
    requires CanEmit(w, d, x, c1, c2)
  {
    if Refuses(w, x.recordType) then (w, [])
    else
      var w0 := Started(w);
      var r := Stamp(sha, w0, x, c1);
      var d1 := Apply(d, AppendTo(w.path, RecBytes(r)));
      SourceSurvivesAppend(w0, d, RecBytes(r));
      var w1 := Commit(sha, w0, d1, x.recordType, x.spanId, r);
      CommitReady(sha, w0, d1, x.recordType, x.spanId, r);
      var (w2, ops) := MaybeRotate(sha, w1, d1, c1, c2);
      (w2, [AppendTo(w.path, RecBytes(r))] + ops)
  }

  /** The root the writer states, or None when it refuses to state one. */
  function ChainRoot(sha: Sha, w: WState, d: Disk): Option<Digest>
    requires SourceOk(w, d)
  {
    var f := Materialize(sha, w, d).frontier;
    if f.None? || f.value.count != w.seqNo then None else Some(PeaksRoot(sha, f.value))
  }

  // ---------- starting and resuming ----------

  /** A fresh writer; None on a file that already holds bytes. */
  function Create(d: Disk, path: Name, id: Identity, rotation: Option<Policy>, now: real): Option<WState> {
    if ContentOf(d, path) != [] then None
    else
      var entries := if rotation.Some? && path in d.manifests then d.manifests[path] else [];
      Some(WState(id, 0, ZERO32, false, false, 0, 0, {}, Some(EMPTY), None, [], path, path, rotation,
                  0, 0, ZERO32, 0, now, 0, false, Some(0), entries))
  }

  /** The last entry whose closed head is `prev`. */
  function ClosedBy(entries: seq<Entry>, prev: Bytes): Option<nat> {
    if entries == [] then None
    else if entries[|entries| - 1].head == prev then Some(|entries| - 1)
    else ClosedBy(entries[..|entries| - 1], prev)
  }

  /** The first entry whose closed head is `prev`. */
  function FirstClosedBy(entries: seq<Entry>, prev: Bytes): (r: Option<nat>)
    ensures r.Some? ==> r.value < |entries|
  {
    if entries == [] then None
    else if entries[0].head == prev then Some(0)
    else
      var r := FirstClosedBy(entries[1..], prev);
      if r.None? then None else Some(r.value + 1)
  }

  /** The frontier recorded for a later segment's predecessor, if it covers exactly what came before. */
  function StartingFrontier(d: Disk, name: Name, first: Header): Option<Peaks> {
    if first.seqNo == 0 then Some(EMPTY)
    else if !name.Seg? || name.stem !in d.manifests then None
    else
      var entries := d.manifests[name.stem];
      ClosedByIndex(entries, first.prevHash);
      var i := ClosedBy(entries, first.prevHash);
      if i.None? || entries[i.value].frontier.None? then None
      else
        var f := FromBytes(entries[i.value].frontier.value);
        if f.None? || f.value.count != first.seqNo then None else f
  }

  lemma ClosedByIndex(entries: seq<Entry>, prev: Bytes)
    ensures ClosedBy(entries, prev).Some? ==>
      ClosedBy(entries, prev).value < |entries| && entries[ClosedBy(entries, prev).value].head == prev
  {
  }

  /** The SEG_INDEX a first record declares. */
  function DeclaredIndex(first: Header, body: Bytes): Option<nat> {
    if first.recordType != RT_EVENT || first.keyId != 0 || body == [] then None
    else
      var ts := ParseTlvs(body);
      if ts.None? then None
      else
        var kind, index := LastVal(ts.value, EVT_KIND), LastVal(ts.value, SEG_INDEX);
        if kind.Some? && |kind.value| >= 2 && U16(kind.value, 0) == KIND_SEGMENT_CONTINUATION
           && index.Some? && |index.value| == 4
        then Some(U32(index.value, 0)) else None
  }

  function SegmentOrdinal(d: Disk, name: Name, first: Header, firstBody: Bytes): Option<nat> {
    if first.seqNo == 0 then Some(0)
    else if DeclaredIndex(first, firstBody).Some? then DeclaredIndex(first, firstBody)
    else if !name.Seg? || name.stem !in d.manifests then None
    else
      var i := FirstClosedBy(d.manifests[name.stem], first.prevHash);
      if i.None? then None else Some(i.value + 1)
  }

  /** Where the manifest of a resumed file is looked for. */
  function ResumeBase(d: Disk, name: Name, first: Header): Name {
    if name.Seg? && name.stem in d.manifests && d.manifests[name.stem] != []
       && var last := d.manifests[name.stem][|d.manifests[name.stem]| - 1];
          (last.head == first.prevHash || last.file == name)
    then name.stem else name
  }

  /** Some segment of `base` on disk starts with a record that follows `head`. */
  ghost predicate HasSuccessor(d: Disk, base: Name, head: Bytes) {
    exists x :: x in d.files && Follows(d, base, head, x)
  }

  predicate Follows(d: Disk, base: Name, head: Bytes, x: Name)
    requires x in d.files
  {
    && x.Seg? && x.stem == base && |d.files[x]| >= FIXED_LEN
    && At(d.files[x], 0, 4) == MAGIC && At(d.files[x], 36, 32) == head
  }

  ghost predicate HasMagic(s: Bytes) {
    exists i :: MagicAt(s, i)
  }

  predicate MagicAt(s: Bytes, i: int) {
    0 <= i && i + 4 <= |s| && s[i..i + 4] == MAGIC
  }

  /** Damage that is not a torn tail, or no chain at all. */
  ghost predicate Unresumable(data: Bytes, recover: bool) {
    var (rs, tail) := Walk(data);
    || rs == [] || Decode(rs[0].hb).None?
    || (tail != [] && (HasMagic(tail[1..]) || !recover))
  }

  /** A cut that recorded its closed segment but produced no successor is undone. */
  datatype FoldBack = NotCut | Undone(kept: seq<Entry>) | Finished

  ghost function FoldBackCut(d: Disk, base: Name, name: Name, head: Digest, entries: seq<Entry>): FoldBack {
    if entries == [] then NotCut
    else
      var last := entries[|entries| - 1];
      if last.file != name || last.head != head then NotCut
      else if HasSuccessor(d, base, last.head) then Finished
      else Undone(entries[..|entries| - 1])
  }

  /** The file a resumed writer takes its manifest from, and what that manifest lists. */
  function BaseFor(d: Disk, name: Name, first: Header, rotation: Option<Policy>): Name {
    if rotation.Some? then ResumeBase(d, name, first) else name
  }

  function ListedFor(d: Disk, base: Name, rotation: Option<Policy>): seq<Entry> {
    if rotation.Some? && base in d.manifests then d.manifests[base] else []
  }

  /** The state adopted from a scan that found the records `rs`, ending at `end`. */
  ghost function Adopted(sha: Sha, d: Disk, name: Name, first: Header, rs: seq<Rec>, torn: nat, end: nat, base: Name,
                         entries: seq<Entry>, rotation: Option<Policy>, id: Identity, now: real): WState
    requires rs != [] && RecOk(rs[|rs| - 1])
  {
    var last := rs[|rs| - 1];
    var f0 := if first.seqNo == 0 then None else StartingFrontier(d, name, first);
    WState(id, U64(last.hb, 12) + 1, sha(last.hb), true, true, torn, end, {},
           if f0.None? then None else Some(AppendAll(sha, f0.value, RecHashes(sha, rs))),
           if first.seqNo == 0 then Some((name, |rs|)) else None, [], name, base, rotation,
           |rs|, first.seqNo, first.prevHash, end, now, 0, false,
           SegmentOrdinal(d, name, first, rs[0].body), entries)
  }

  /** What a resume does to the disk: drop the torn bytes, undo an unfinished cut. */
  function AdoptOps(name: Name, torn: bool, end: nat, base: Name, fold: FoldBack): seq<DiskOp> {
    (if torn then [Truncate(name, end)] else []) +
    (if fold.Undone? then (if fold.kept != [] then [PutManifest(base, fold.kept)] else [DropManifest(base)]) else [])
  }

  /** Resume: None is a refusal. Otherwise the adopted state and what it does to the disk. */
  ghost function OpenExisting(sha: Sha, d: Disk, name: Name, rotation: Option<Policy>, id: Identity, recover: bool,
                              now: real)
      : Option<(WState, seq<DiskOp>)>
  {
    var data := ContentOf(d, name);
    if data == [] || Unresumable(data, recover) then None
    else
      var (rs, tail) := Walk(data);
      WalkIsExact(data);
      var first, end := Decode(rs[0].hb).value, |data| - |tail|;
      var base := BaseFor(d, name, first, rotation);
      var listed := ListedFor(d, base, rotation);
      var fold := FoldBackCut(d, base, name, sha(rs[|rs| - 1].hb), listed);
      if fold.Finished? then None
      else Some((Adopted(sha, d, name, first, rs, |tail|, end, base,
                         if fold.Undone? then fold.kept else listed, rotation, id, now),
                 AdoptOps(name, tail != [], end, base, fold)))
  }

  /** The disk once the torn bytes of a file are dropped. A resume does this before it looks at the
      manifest, so a refusal that comes after has done it too. */
  ghost function WithoutTail(d: Disk, name: Name): Disk {
    var data := ContentOf(d, name);
    WalkIsExact(data);
    if Walk(data).1 == [] then d else Apply(d, Truncate(name, |data| - |Walk(data).1|))
  }
}
