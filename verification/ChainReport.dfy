/** What every list in the chain verifier's result holds. */
module ChainReport {
  /* Stated of the headers and their positions alone: which of them are broken links, gaps, not understood,
     and which MUSTs each of them violates. */

  import opened Bytes
  import opened Codec
  import opened Chain

  // ---------- one position ----------

  /** A header the verifier can walk past. */
  predicate Parses(hb: Bytes) { |hb| >= FIXED_LEN && At(hb, 0, 4) == MAGIC }

  /** The verifier stops before header `n`: the first it cannot walk past, if there is one. */
  ghost predicate StopsBefore(hs: seq<Bytes>, n: nat) {
    && n <= |hs| && (forall i :: 0 <= i < n ==> Parses(hs[i]))
    && (n < |hs| ==> !Parses(hs[n]))
  }

  ghost predicate BrokenLink(sha: Sha, hs: seq<Bytes>, i: nat) {
    0 < i < |hs| && Parses(hs[i]) && At(hs[i], 36, 32) != sha(hs[i - 1])
  }

  ghost predicate SeqGap(hs: seq<Bytes>, i: nat) {
    0 < i < |hs| && Parses(hs[i - 1]) && Parses(hs[i]) && U64(hs[i], 12) != U64(hs[i - 1], 12) + 1
  }

  predicate Understood(hb: Bytes, known: set<nat>)
    requires Parses(hb)
  {
    U16(hb, 4) == FORMAT_VERSION && U16(hb, 8) in known
  }

  ghost predicate Foreign(hs: seq<Bytes>, known: set<nat>, i: nat) {
    i < |hs| && Parses(hs[i]) && !Understood(hs[i], known)
  }

  /** The bytes between the fixed header and the end the header states, or its own end. */
  function Items(hb: Bytes): Bytes
    requires Parses(hb)
  {
    var end := if U16(hb, 6) < |hb| then U16(hb, 6) else |hb|;
    if end < FIXED_LEN then [] else hb[FIXED_LEN..end]
  }

  /** The MUST of that name is broken at position `i`. */
  ghost predicate Violates(known: set<nat>, hs: seq<Bytes>, i: nat, f: Fault) {
    i < |hs| && Parses(hs[i]) &&
    var hb := hs[i];
    match f
    case HeaderLenMismatch => U16(hb, 6) != |hb|
    case NotGenesisFirst => i == 0 && U16(hb, 8) != RT_GENESIS
    case GenesisPrevNotZero => i == 0 && U16(hb, 8) == RT_GENESIS && At(hb, 36, 32) != ZERO32
    case UnknownTimeWithClock => Understood(hb, known) && hb[11] == TIME_UNKNOWN && I64(hb, 108) != 0
    case UndefinedTimeTrust => Understood(hb, known) && hb[11] > TIME_NTP_SYNCED
    case EmptyBodyWithDigest => Understood(hb, known) && U32(hb, 120) == 0 && At(hb, 124, 32) != ZERO32
    case BodyWithZeroDigest => Understood(hb, known) && U32(hb, 120) != 0 && At(hb, 124, 32) == ZERO32
    case EncryptedBodyTooShort =>
      Understood(hb, known) && U32(hb, 116) != 0 && 0 < U32(hb, 120) < NONCE_LEN + GCM_TAG_LEN
    case GenesisNotFirst => Understood(hb, known) && U16(hb, 8) == RT_GENESIS && i > 0
    case MalformedTlv => Understood(hb, known) && ParseTlvs(Items(hb)).None?
  }

  /** The order in which one header's faults are listed. */
  function Rank(f: Fault): nat {
    match f
    case HeaderLenMismatch => 0
    case NotGenesisFirst => 1
    case GenesisPrevNotZero => 1
    case UnknownTimeWithClock => 2
    case UndefinedTimeTrust => 3
    case EmptyBodyWithDigest => 4
    case BodyWithZeroDigest => 5
    case EncryptedBodyTooShort => 6
    case GenesisNotFirst => 7
    case MalformedTlv => 8
  }

  /** What a violation is reported under: the position for a wrong length, 0 for a chain without GENESIS,
      and otherwise the header's own seq. */
  function ReportedAt(hs: seq<Bytes>, i: nat, f: Fault): nat
    requires i < |hs| && Parses(hs[i])
  {
    if f == HeaderLenMismatch then i else if f == NotGenesisFirst then 0 else U64(hs[i], 12)
  }

  // ---------- the lists ----------

  /** `seqs` are, in order, the seqs of the headers at the positions `s`. */
  ghost predicate SeqsAt(hs: seq<Bytes>, s: set<nat>, seqs: seq<nat>) {
    exists at: seq<nat> :: Increasing(at) && Members(at, s) && Shown(hs, at, seqs)
  }

  ghost predicate Members(at: seq<nat>, s: set<nat>) {
    forall i: nat :: i in at <==> i in s
  }

  ghost predicate Shown(hs: seq<Bytes>, at: seq<nat>, seqs: seq<nat>) {
    && |seqs| == |at|
    && forall k :: 0 <= k < |at| ==> at[k] < |hs| && Parses(hs[at[k]]) && seqs[k] == U64(hs[at[k]], 12)
  }

  ghost function BrokenLinks(sha: Sha, hs: seq<Bytes>, n: nat): set<nat> {
    set i: nat | i < n && BrokenLink(sha, hs, i)
  }

  ghost function SeqGaps(hs: seq<Bytes>, n: nat): set<nat> { set i: nat | i < n && SeqGap(hs, i) }

  ghost function Foreigns(hs: seq<Bytes>, known: set<nat>, n: nat): set<nat> {
    set i: nat | i < n && Foreign(hs, known, i)
  }

  /** `fs` are, in order, the faults at position `i`. */
  ghost predicate FaultsAt(known: set<nat>, hs: seq<Bytes>, i: nat, fs: seq<Fault>) {
    && (forall j, k :: 0 <= j < k < |fs| ==> Rank(fs[j]) < Rank(fs[k]))
    && forall f :: f in fs <==> Violates(known, hs, i, f)
  }

  /** The faults of one header, as they are reported. */
  function Notes(hs: seq<Bytes>, i: nat, fs: seq<Fault>): seq<Violation>
    requires i < |hs| && Parses(hs[i])
  {
    seq(|fs|, k requires 0 <= k < |fs| => Violation(ReportedAt(hs, i, fs[k]), fs[k]))
  }

  /** `vs` reports, header by header, exactly the faults of the first `n`. */
  ghost predicate Faults(known: set<nat>, hs: seq<Bytes>, n: nat, vs: seq<Violation>)
    requires n <= |hs|
    decreases n
  {
    if n == 0 then vs == []
    else
      Parses(hs[n - 1]) && exists fs: seq<Fault> ::
        && FaultsAt(known, hs, n - 1, fs) && |fs| <= |vs|
        && Faults(known, hs, n - 1, vs[..|vs| - |fs|]) && vs[|vs| - |fs|..] == Notes(hs, n - 1, fs)
  }

  /** The anchor's place among the headers walked: the last of them, one before it, or none. */
  ghost predicate AnchorPlace(sha: Sha, hs: seq<Bytes>, n: nat, expected: Option<Bytes>, r: VerifyResult)
    requires n <= |hs|
  {
    var head := if n == 0 then ZERO32 else sha(hs[n - 1]);
    && r.head == head
    && (r.completeToAnchor == if expected.None? then None else Some(expected.value == head))
    && (forall k: nat :: r.anchorLag == Some(k) <==>
          && expected.Some? && expected.value != head && k < n
          && sha(hs[n - 1 - k]) == expected.value && forall i :: 0 <= i < n - 1 - k ==> sha(hs[i]) != expected.value)
  }

  /** The whole result, on any list of headers. */
  ghost predicate Reports(sha: Sha, known: set<nat>, hs: seq<Bytes>, expected: Option<Bytes>, r: VerifyResult) {
    StopsBefore(hs, r.count) &&
    var n, walked := r.count, hs[..r.count];
    && (exists links: seq<nat> :: SeqsAt(walked, BrokenLinks(sha, walked, n), links)
                                  && r.breaks == links + (if n < |hs| then [n] else []))
    && SeqsAt(walked, SeqGaps(walked, n), r.gaps) && SeqsAt(walked, Foreigns(walked, known, n), r.uninterpretable)
    && Faults(known, walked, n, r.violations) && AnchorPlace(sha, walked, n, expected, r)
    && (r.chainOk <==> r.breaks == [] && r.gaps == [] && r.violations == [])
  }

  // ---------- one header more ----------

  lemma SeqsNone(hs: seq<Bytes>)
    ensures SeqsAt(hs, {}, [])
  {
    var at: seq<nat> := [];
    assert Increasing(at) && Members(at, {}) && Shown(hs, at, []);
  }

  lemma SeqsStay(hs: seq<Bytes>, hb: Bytes, s: set<nat>, seqs: seq<nat>)
    requires SeqsAt(hs, s, seqs)
    ensures SeqsAt(hs + [hb], s, seqs)
  {
    var at: seq<nat> :| Increasing(at) && Members(at, s) && Shown(hs, at, seqs);
    forall k | 0 <= k < |at| ensures (hs + [hb])[at[k]] == hs[at[k]] {
    }
    assert Shown(hs + [hb], at, seqs);
  }

  lemma SeqsTake(hs: seq<Bytes>, hb: Bytes, s: set<nat>, seqs: seq<nat>)
    requires SeqsAt(hs, s, seqs) && Parses(hb)
    ensures SeqsAt(hs + [hb], s + {|hs|}, seqs + [U64(hb, 12)])
  {
    hide Increasing, U64;
    var at: seq<nat> :| Increasing(at) && Members(at, s) && Shown(hs, at, seqs);
    var more := at + [|hs|];
    forall k | 0 <= k < |at| ensures (hs + [hb])[at[k]] == hs[at[k]] && at[k] < |hs| {
    }
    AddsLast(at, |hs|);
    assert Members(more, s + {|hs|});
    assert Shown(hs + [hb], more, seqs + [U64(hb, 12)]);
  }

  lemma AddsLast(at: seq<nat>, n: nat)
    requires Increasing(at) && forall k :: 0 <= k < |at| ==> at[k] < n
    ensures Increasing(at + [n])
  {
  }

  lemma LinksSnoc(sha: Sha, hs: seq<Bytes>, hb: Bytes)
    requires Parses(hb)
    ensures var n := |hs|;
      BrokenLinks(sha, hs + [hb], n + 1) ==
        BrokenLinks(sha, hs, n) + (if n > 0 && At(hb, 36, 32) != sha(hs[n - 1]) then {n} else {})
  {
    var all, n := hs + [hb], |hs|;
    forall i: nat | i < n ensures BrokenLink(sha, all, i) <==> BrokenLink(sha, hs, i) {
      assert all[i] == hs[i] && (i > 0 ==> all[i - 1] == hs[i - 1]);
    }
    assert BrokenLink(sha, all, n) <==> n > 0 && At(hb, 36, 32) != sha(hs[n - 1]);
    hide BrokenLink;
  }

  lemma GapsSnoc(hs: seq<Bytes>, hb: Bytes)
    requires Parses(hb) && forall i :: 0 <= i < |hs| ==> Parses(hs[i])
    ensures |hs| > 0 ==> Parses(hs[|hs| - 1])
    ensures var n := |hs|;
      SeqGaps(hs + [hb], n + 1) ==
        SeqGaps(hs, n) + (if n > 0 && U64(hb, 12) != U64(hs[n - 1], 12) + 1 then {n} else {})
  {
    var all, n := hs + [hb], |hs|;
    forall i: nat | i < n ensures SeqGap(all, i) <==> SeqGap(hs, i) {
      assert all[i] == hs[i] && (i > 0 ==> all[i - 1] == hs[i - 1]);
    }
    assert SeqGap(all, n) <==> n > 0 && U64(hb, 12) != U64(hs[n - 1], 12) + 1 by {
      hide U64;
    }
    hide SeqGap, U64;
  }

  lemma ForeignsSnoc(hs: seq<Bytes>, known: set<nat>, hb: Bytes)
    requires Parses(hb)
    ensures var n := |hs|;
      Foreigns(hs + [hb], known, n + 1) == Foreigns(hs, known, n) + (if Understood(hb, known) then {} else {n})
  {
    var all, n := hs + [hb], |hs|;
    forall i: nat | i < n ensures Foreign(all, known, i) <==> Foreign(hs, known, i) {
      assert all[i] == hs[i];
    }
    assert Foreign(all, known, n) <==> !Understood(hb, known);
    hide Foreign, Understood;
  }

  // ---------- the faults of one header ----------

  /** Faults in order, with ranks from `lo` up to below `hi`. */
  ghost predicate Ranked(fs: seq<Fault>, lo: nat, hi: nat) {
    && (forall k :: 0 <= k < |fs| ==> lo <= Rank(fs[k]) < hi)
    && (forall j, k :: 0 <= j < k < |fs| ==> Rank(fs[j]) < Rank(fs[k]))
  }

  lemma RankedJoin(a: seq<Fault>, b: seq<Fault>, lo: nat, mid: nat, hi: nat)
    requires Ranked(a, lo, mid) && Ranked(b, mid, hi) && lo <= mid <= hi
    ensures Ranked(a + b, lo, hi)
  {
  }

  function Flag(bad: bool, f: Fault): (fs: seq<Fault>)
    ensures forall g :: g in fs <==> bad && g == f
    ensures Ranked(fs, Rank(f), Rank(f) + 1)
  {
    if bad then [f] else []
  }

  lemma NotesJoin(hs: seq<Bytes>, i: nat, a: seq<Fault>, b: seq<Fault>)
    requires i < |hs| && Parses(hs[i])
    ensures Notes(hs, i, a + b) == Notes(hs, i, a) + Notes(hs, i, b)
  {
  }

  lemma NotesFlag(hs: seq<Bytes>, i: nat, bad: bool, f: Fault)
    requires i < |hs| && Parses(hs[i])
    ensures Notes(hs, i, Flag(bad, f)) == if bad then [Violation(ReportedAt(hs, i, f), f)] else []
    ensures f != HeaderLenMismatch && f != NotGenesisFirst ==> Notes(hs, i, Flag(bad, f)) == Note(bad, hs[i], f)
  {
    hide U64;
  }

  /** The faults of one header, in the order they are looked for. */
  function Found(known: set<nat>, hb: Bytes, i: nat): seq<Fault>
    requires Parses(hb)
  {
    Flag(U16(hb, 6) != |hb|, HeaderLenMismatch) + (FoundFirst(hb, i) + FoundInside(known, hb, i))
  }

  function FoundFirst(hb: Bytes, i: nat): seq<Fault>
    requires Parses(hb)
  {
    if i > 0 then [] else if U16(hb, 8) != RT_GENESIS then [NotGenesisFirst]
    else Flag(At(hb, 36, 32) != ZERO32, GenesisPrevNotZero)
  }

  function FoundInside(known: set<nat>, hb: Bytes, i: nat): seq<Fault>
    requires Parses(hb)
  {
    if !Understood(hb, known) then []
    else
      Flags(hb[11] == TIME_UNKNOWN && I64(hb, 108) != 0, hb[11] > TIME_NTP_SYNCED,
            U32(hb, 120) == 0 && At(hb, 124, 32) != ZERO32, U32(hb, 120) != 0 && At(hb, 124, 32) == ZERO32,
            U32(hb, 116) != 0 && 0 < U32(hb, 120) < NONCE_LEN + GCM_TAG_LEN,
            U16(hb, 8) == RT_GENESIS && i != 0, ParseTlvs(Items(hb)).None?)
  }

  function Flags(clock: bool, trust: bool, empty: bool, zero: bool, short: bool, late: bool, tlv: bool): seq<Fault> {
    Flag(clock, UnknownTimeWithClock) +
    (Flag(trust, UndefinedTimeTrust) +
     (Flag(empty, EmptyBodyWithDigest) +
      (Flag(zero, BodyWithZeroDigest) +
       (Flag(short, EncryptedBodyTooShort) + (Flag(late, GenesisNotFirst) + Flag(tlv, MalformedTlv))))))
  }

  predicate Raised(f: Fault, clock: bool, trust: bool, empty: bool, zero: bool, short: bool, late: bool, tlv: bool) {
    match f
    case UnknownTimeWithClock => clock
    case UndefinedTimeTrust => trust
    case EmptyBodyWithDigest => empty
    case BodyWithZeroDigest => zero
    case EncryptedBodyTooShort => short
    case GenesisNotFirst => late
    case MalformedTlv => tlv
    case _ => false
  }

  lemma FlagsRanked(clock: bool, trust: bool, empty: bool, zero: bool, short: bool, late: bool, tlv: bool)
    ensures Ranked(Flags(clock, trust, empty, zero, short, late, tlv), 2, 9)
  {
    hide *;
    FlagsIs(clock, trust, empty, zero, short, late, tlv);
    var a, b, c := Flag(clock, UnknownTimeWithClock), Flag(trust, UndefinedTimeTrust), Flag(empty, EmptyBodyWithDigest);
    var d, e := Flag(zero, BodyWithZeroDigest), Flag(short, EncryptedBodyTooShort);
    var f, g := Flag(late, GenesisNotFirst), Flag(tlv, MalformedTlv);
    Ranks();
    RankedJoin(f, g, 7, 8, 9);
    RankedJoin(e, f + g, 6, 7, 9);
    RankedJoin(d, e + (f + g), 5, 6, 9);
    RankedJoin(c, d + (e + (f + g)), 4, 5, 9);
    RankedJoin(b, c + (d + (e + (f + g))), 3, 4, 9);
    RankedJoin(a, b + (c + (d + (e + (f + g)))), 2, 3, 9);
  }

  lemma Ranks()
    ensures Rank(UnknownTimeWithClock) == 2 && Rank(UndefinedTimeTrust) == 3 && Rank(EmptyBodyWithDigest) == 4
    ensures Rank(BodyWithZeroDigest) == 5 && Rank(EncryptedBodyTooShort) == 6 && Rank(GenesisNotFirst) == 7
    ensures Rank(MalformedTlv) == 8 && Rank(HeaderLenMismatch) == 0
  {
  }

  lemma FlagsMember(x: Fault, clock: bool, trust: bool, empty: bool, zero: bool, short: bool, late: bool, tlv: bool)
    ensures x in Flags(clock, trust, empty, zero, short, late, tlv) <==>
      Inner(x) && Raised(x, clock, trust, empty, zero, short, late, tlv)
  {
    hide *;
    FlagsIs(clock, trust, empty, zero, short, late, tlv);
    RaisedIs(x, clock, trust, empty, zero, short, late, tlv);
    var a, b, c := Flag(clock, UnknownTimeWithClock), Flag(trust, UndefinedTimeTrust), Flag(empty, EmptyBodyWithDigest);
    var d, e := Flag(zero, BodyWithZeroDigest), Flag(short, EncryptedBodyTooShort);
    var f, g := Flag(late, GenesisNotFirst), Flag(tlv, MalformedTlv);
    InJoin(x, f, g);
    InJoin(x, e, f + g);
    InJoin(x, d, e + (f + g));
    InJoin(x, c, d + (e + (f + g)));
    InJoin(x, b, c + (d + (e + (f + g))));
    InJoin(x, a, b + (c + (d + (e + (f + g)))));
  }

  lemma InJoin<T>(x: T, a: seq<T>, b: seq<T>)
    ensures x in a + b <==> x in a || x in b
  {
  }

  lemma RaisedIs(x: Fault, clock: bool, trust: bool, empty: bool, zero: bool, short: bool, late: bool, tlv: bool)
    ensures Inner(x) && Raised(x, clock, trust, empty, zero, short, late, tlv) <==> (
      || (clock && x == UnknownTimeWithClock) || (trust && x == UndefinedTimeTrust)
      || (empty && x == EmptyBodyWithDigest) || (zero && x == BodyWithZeroDigest)
      || (short && x == EncryptedBodyTooShort) || (late && x == GenesisNotFirst) || (tlv && x == MalformedTlv))
  {
  }

  lemma NotesFlags(hs: seq<Bytes>, i: nat, clock: bool, trust: bool, empty: bool, zero: bool, short: bool, late: bool,
                   tlv: bool)
    requires i < |hs| && Parses(hs[i])
    ensures var hb := hs[i];
      Notes(hs, i, Flags(clock, trust, empty, zero, short, late, tlv)) ==
        Note(clock, hb, UnknownTimeWithClock) + Note(trust, hb, UndefinedTimeTrust) +
        Note(empty, hb, EmptyBodyWithDigest) + Note(zero, hb, BodyWithZeroDigest) +
        Note(short, hb, EncryptedBodyTooShort) + Note(late, hb, GenesisNotFirst) + Note(tlv, hb, MalformedTlv)
  {
    hide *;
    var a, b, c := Flag(clock, UnknownTimeWithClock), Flag(trust, UndefinedTimeTrust), Flag(empty, EmptyBodyWithDigest);
    var d, e := Flag(zero, BodyWithZeroDigest), Flag(short, EncryptedBodyTooShort);
    var f, g := Flag(late, GenesisNotFirst), Flag(tlv, MalformedTlv);
    FlagsIs(clock, trust, empty, zero, short, late, tlv);
    NotesJoin(hs, i, f, g);
    NotesJoin(hs, i, e, f + g);
    NotesJoin(hs, i, d, e + (f + g));
    NotesJoin(hs, i, c, d + (e + (f + g)));
    NotesJoin(hs, i, b, c + (d + (e + (f + g))));
    NotesJoin(hs, i, a, b + (c + (d + (e + (f + g)))));
    NotesFlag(hs, i, clock, UnknownTimeWithClock);
    NotesFlag(hs, i, trust, UndefinedTimeTrust);
    NotesFlag(hs, i, empty, EmptyBodyWithDigest);
    NotesFlag(hs, i, zero, BodyWithZeroDigest);
    NotesFlag(hs, i, short, EncryptedBodyTooShort);
    NotesFlag(hs, i, late, GenesisNotFirst);
    NotesFlag(hs, i, tlv, MalformedTlv);
    Regroup(Notes(hs, i, a), Notes(hs, i, b), Notes(hs, i, c), Notes(hs, i, d), Notes(hs, i, e), Notes(hs, i, f),
            Notes(hs, i, g));
  }

  lemma FlagsIs(clock: bool, trust: bool, empty: bool, zero: bool, short: bool, late: bool, tlv: bool)
    ensures Flags(clock, trust, empty, zero, short, late, tlv) ==
      Flag(clock, UnknownTimeWithClock) +
      (Flag(trust, UndefinedTimeTrust) +
       (Flag(empty, EmptyBodyWithDigest) +
        (Flag(zero, BodyWithZeroDigest) +
         (Flag(short, EncryptedBodyTooShort) + (Flag(late, GenesisNotFirst) + Flag(tlv, MalformedTlv))))))
  {
    hide Flag;
  }

  lemma Regroup<T>(a: seq<T>, b: seq<T>, c: seq<T>, d: seq<T>, e: seq<T>, f: seq<T>, g: seq<T>)
    ensures a + (b + (c + (d + (e + (f + g))))) == a + b + c + d + e + f + g
  {
    Assoc(a + b + c + d + e, f, g);
    Assoc(a + b + c + d, e, f + g);
    Assoc(a + b + c, d, e + (f + g));
    Assoc(a + b, c, d + (e + (f + g)));
    Assoc(a, b, c + (d + (e + (f + g))));
  }

  lemma FirstRanked(hb: Bytes, i: nat)
    requires Parses(hb)
    ensures Ranked(FoundFirst(hb, i), 1, 2)
    ensures forall f :: f in FoundFirst(hb, i) <==> (
      || (f == NotGenesisFirst && i == 0 && U16(hb, 8) != RT_GENESIS)
      || (f == GenesisPrevNotZero && i == 0 && U16(hb, 8) == RT_GENESIS && At(hb, 36, 32) != ZERO32))
  {
    hide U16;
  }

  predicate Inner(f: Fault) { f != HeaderLenMismatch && f != NotGenesisFirst && f != GenesisPrevNotZero }

  lemma InsideRanked(known: set<nat>, hs: seq<Bytes>, i: nat)
    requires i < |hs| && Parses(hs[i])
    ensures Ranked(FoundInside(known, hs[i], i), 2, 9)
    ensures forall f :: f in FoundInside(known, hs[i], i) <==>
      Violates(known, hs, i, f) && Inner(f)
  {
    hide *;
    var hb := hs[i];
    NothingRanked();
    InsideIs(known, hb, i);
    if Understood(hb, known) {
      FlagsRanked(hb[11] == TIME_UNKNOWN && I64(hb, 108) != 0, hb[11] > TIME_NTP_SYNCED,
                  U32(hb, 120) == 0 && At(hb, 124, 32) != ZERO32, U32(hb, 120) != 0 && At(hb, 124, 32) == ZERO32,
                  U32(hb, 116) != 0 && 0 < U32(hb, 120) < NONCE_LEN + GCM_TAG_LEN,
                  U16(hb, 8) == RT_GENESIS && i != 0, ParseTlvs(Items(hb)).None?);
    }
    forall f ensures f in FoundInside(known, hb, i) <==> Violates(known, hs, i, f) && Inner(f) {
      InsideViolates(known, hs, i, f);
      if Understood(hb, known) {
        FlagsMember(f, hb[11] == TIME_UNKNOWN && I64(hb, 108) != 0, hb[11] > TIME_NTP_SYNCED,
                    U32(hb, 120) == 0 && At(hb, 124, 32) != ZERO32, U32(hb, 120) != 0 && At(hb, 124, 32) == ZERO32,
                    U32(hb, 116) != 0 && 0 < U32(hb, 120) < NONCE_LEN + GCM_TAG_LEN,
                    U16(hb, 8) == RT_GENESIS && i != 0, ParseTlvs(Items(hb)).None?);
      }
    }
  }

  lemma InsideIs(known: set<nat>, hb: Bytes, i: nat)
    requires Parses(hb)
    ensures |hb| >= 156
    ensures FoundInside(known, hb, i) ==
      if !Understood(hb, known) then []
      else
        Flags(hb[11] == TIME_UNKNOWN && I64(hb, 108) != 0, hb[11] > TIME_NTP_SYNCED,
                  U32(hb, 120) == 0 && At(hb, 124, 32) != ZERO32, U32(hb, 120) != 0 && At(hb, 124, 32) == ZERO32,
                  U32(hb, 116) != 0 && 0 < U32(hb, 120) < NONCE_LEN + GCM_TAG_LEN,
                  U16(hb, 8) == RT_GENESIS && i != 0, ParseTlvs(Items(hb)).None?)
  {
  }

  lemma InsideViolates(known: set<nat>, hs: seq<Bytes>, i: nat, f: Fault)
    requires i < |hs| && Parses(hs[i])
    ensures Violates(known, hs, i, f) && Inner(f) <==> (
      var hb := hs[i];
      && Understood(hb, known) && Inner(f)
      && Raised(f, hb[11] == TIME_UNKNOWN && I64(hb, 108) != 0, hb[11] > TIME_NTP_SYNCED,
                U32(hb, 120) == 0 && At(hb, 124, 32) != ZERO32, U32(hb, 120) != 0 && At(hb, 124, 32) == ZERO32,
                U32(hb, 116) != 0 && 0 < U32(hb, 120) < NONCE_LEN + GCM_TAG_LEN,
                U16(hb, 8) == RT_GENESIS && i != 0, ParseTlvs(Items(hb)).None?))
  {
    hide U16, U32, I64, Items, ParseTlvs, At;
  }

  lemma NothingRanked()
    ensures Ranked([], 2, 9)
  {
  }

  /** They are exactly the faults there are. */
  lemma FoundIsAll(known: set<nat>, hs: seq<Bytes>, i: nat)
    requires i < |hs| && Parses(hs[i])
    ensures FaultsAt(known, hs, i, Found(known, hs[i], i))
  {
    hide FoundFirst, FoundInside, Flag, U16, At, ParseTlvs, Items, U32, I64;
    var hb := hs[i];
    FirstRanked(hb, i);
    InsideRanked(known, hs, i);
    var len := Flag(U16(hb, 6) != |hb|, HeaderLenMismatch);
    assert Rank(HeaderLenMismatch) == 0;
    RankedJoin(FoundFirst(hb, i), FoundInside(known, hb, i), 1, 2, 9);
    RankedJoin(len, FoundFirst(hb, i) + FoundInside(known, hb, i), 0, 1, 9);
  }

  lemma SameItems(hb: Bytes)
    requires Parses(hb)
    ensures TlvArea(hb) == Items(hb)
  {
  }

  lemma NotesFirst(hs: seq<Bytes>, i: nat)
    requires i < |hs| && Parses(hs[i])
    ensures Notes(hs, i, FoundFirst(hs[i], i)) == if i == 0 then FirstChecks(hs[i]) else []
  {
    hide U16;
  }

  lemma NotesInside(known: set<nat>, hs: seq<Bytes>, i: nat)
    requires i < |hs| && Parses(hs[i])
    ensures Notes(hs, i, FoundInside(known, hs[i], i)) == TypeChecks(hs[i], i, known)
  {
    hide U16, U32, I64, U64, Items, ParseTlvs, Flags, At, TlvArea, Notes, Note;
    var hb := hs[i];
    SameItems(hb);
    NoNotes(hs, i);
    if Understood(hb, known) {
      NotesFlags(hs, i, hb[11] == TIME_UNKNOWN && I64(hb, 108) != 0, hb[11] > TIME_NTP_SYNCED,
                 U32(hb, 120) == 0 && At(hb, 124, 32) != ZERO32, U32(hb, 120) != 0 && At(hb, 124, 32) == ZERO32,
                 U32(hb, 116) != 0 && 0 < U32(hb, 120) < NONCE_LEN + GCM_TAG_LEN,
                 U16(hb, 8) == RT_GENESIS && i != 0, ParseTlvs(Items(hb)).None?);
    }
  }

  lemma NoNotes(hs: seq<Bytes>, i: nat)
    requires i < |hs| && Parses(hs[i])
    ensures Notes(hs, i, []) == []
  {
  }

  /** What the pass adds for one header. */
  lemma NotesFound(known: set<nat>, hs: seq<Bytes>, i: nat)
    requires i < |hs| && Parses(hs[i])
    ensures Notes(hs, i, Found(known, hs[i], i)) ==
      (if U16(hs[i], 6) != |hs[i]| then [Violation(i, HeaderLenMismatch)] else [])
      + (if i == 0 then FirstChecks(hs[i]) else []) + TypeChecks(hs[i], i, known)
  {
    hide FoundFirst, FoundInside, Flag, U16, U64, TypeChecks, FirstChecks, Notes;
    var hb := hs[i];
    var len := Flag(U16(hb, 6) != |hb|, HeaderLenMismatch);
    NotesFlag(hs, i, U16(hb, 6) != |hb|, HeaderLenMismatch);
    NotesFirst(hs, i);
    NotesInside(known, hs, i);
    NotesJoin(hs, i, FoundFirst(hb, i), FoundInside(known, hb, i));
    NotesJoin(hs, i, len, FoundFirst(hb, i) + FoundInside(known, hb, i));
  }

  lemma {:induction false} FaultsStay(known: set<nat>, hs: seq<Bytes>, hb: Bytes, n: nat, vs: seq<Violation>)
    requires n <= |hs| && Faults(known, hs, n, vs)
    ensures Faults(known, hs + [hb], n, vs)
    decreases n
  {
    if n > 0 {
      hide Violates, Parses, FaultsAt, Notes;
      var all := hs + [hb];
      assert all[n - 1] == hs[n - 1];
      var fs: seq<Fault> :| FaultsAt(known, hs, n - 1, fs) && |fs| <= |vs|
        && Faults(known, hs, n - 1, vs[..|vs| - |fs|]) && vs[|vs| - |fs|..] == Notes(hs, n - 1, fs);
      FaultsStay(known, hs, hb, n - 1, vs[..|vs| - |fs|]);
      SameFaults(known, hs, hb, n - 1, fs);
    }
  }

  lemma SameFaults(known: set<nat>, hs: seq<Bytes>, hb: Bytes, i: nat, fs: seq<Fault>)
    requires i < |hs| && Parses(hs[i]) && FaultsAt(known, hs, i, fs)
    ensures (hs + [hb])[i] == hs[i]
    ensures FaultsAt(known, hs + [hb], i, fs) && Notes(hs + [hb], i, fs) == Notes(hs, i, fs)
  {
    var all := hs + [hb];
    assert all[i] == hs[i];
    forall f ensures Violates(known, all, i, f) <==> Violates(known, hs, i, f) {
    }
    hide Violates;
  }

  lemma FaultsSnoc(known: set<nat>, hs: seq<Bytes>, hb: Bytes, vs: seq<Violation>)
    requires Parses(hb) && Faults(known, hs, |hs|, vs)
    ensures (hs + [hb])[|hs|] == hb
    ensures Faults(known, hs + [hb], |hs| + 1, vs + Notes(hs + [hb], |hs|, Found(known, hb, |hs|)))
  {
    hide *;
    var all, n := hs + [hb], |hs|;
    FoundIsAll(known, all, n);
    FaultsStay(known, hs, hb, n, vs);
    FaultsMade(known, all, n, vs, Found(known, hb, n));
  }

  lemma FaultsMade(known: set<nat>, hs: seq<Bytes>, n: nat, vs: seq<Violation>, fs: seq<Fault>)
    requires n < |hs| && Parses(hs[n]) && Faults(known, hs, n, vs) && FaultsAt(known, hs, n, fs)
    ensures Faults(known, hs, n + 1, vs + Notes(hs, n, fs))
  {
    var more := vs + Notes(hs, n, fs);
    NotesLength(hs, n, fs);
    hide FaultsAt, Notes, Parses;
    assert more[..|more| - |fs|] == vs && more[|more| - |fs|..] == Notes(hs, n, fs);
  }

  lemma NotesLength(hs: seq<Bytes>, i: nat, fs: seq<Fault>)
    requires i < |hs| && Parses(hs[i])
    ensures |Notes(hs, i, fs)| == |fs|
  {
  }

  // ---------- the pass ----------

  /** What the pass holds after the headers `hs`, as long as it has not stopped. */
  ghost predicate Holds(sha: Sha, known: set<nat>, hs: seq<Bytes>, a: Acc) {
    && !a.halted && (forall i :: 0 <= i < |hs| ==> Parses(hs[i]))
    && SeqsAt(hs, BrokenLinks(sha, hs, |hs|), a.breaks) && SeqsAt(hs, SeqGaps(hs, |hs|), a.gaps)
    && SeqsAt(hs, Foreigns(hs, known, |hs|), a.uninterpretable) && Faults(known, hs, |hs|, a.violations)
  }

  lemma HoldsNothing(sha: Sha, known: set<nat>)
    ensures Holds(sha, known, [], Run(sha, known, []))
  {
    SeqsNone([]);
    assert BrokenLinks(sha, [], 0) == {} && SeqGaps([], 0) == {} && Foreigns([], known, 0) == {};
    hide SeqsAt;
  }

  lemma StepParts(sha: Sha, known: set<nat>, hs: seq<Bytes>, hb: Bytes, a: Acc)
    requires !a.halted && Tracks(sha, hs, a) && Parses(hb)
    ensures |hs| > 0 ==> Parses(hs[|hs| - 1])
    ensures var (b, n) := (StepHeader(sha, known, a, hb), |hs|);
      && !b.halted
      && b.breaks == a.breaks + (if n > 0 && At(hb, 36, 32) != sha(hs[n - 1]) then [U64(hb, 12)] else [])
      && b.gaps == a.gaps + (if n > 0 && U64(hb, 12) != U64(hs[n - 1], 12) + 1 then [U64(hb, 12)] else [])
      && b.uninterpretable == a.uninterpretable + (if Understood(hb, known) then [] else [U64(hb, 12)])
      && b.violations == a.violations
                         + ((if U16(hb, 6) != |hb| then [Violation(n, HeaderLenMismatch)] else [])
                            + (if n == 0 then FirstChecks(hb) else []) + TypeChecks(hb, n, known))
  {
    hide TypeChecks, FirstChecks, U16, U64;
  }

  lemma HoldsSnoc(sha: Sha, known: set<nat>, hs: seq<Bytes>, hb: Bytes, a: Acc)
    requires Holds(sha, known, hs, a) && Tracks(sha, hs, a) && Parses(hb)
    ensures Holds(sha, known, hs + [hb], StepHeader(sha, known, a, hb))
  {
    hide *;
    var all, n := hs + [hb], |hs|;
    HoldsParts(sha, known, hs, a);
    StepParts(sha, known, hs, hb, a);
    LinksSnoc(sha, hs, hb);
    GapsSnoc(hs, hb);
    ForeignsSnoc(hs, known, hb);
    FaultsSnoc(known, hs, hb, a.violations);
    NotesFound(known, all, n);
    SeqsGrow(hs, hb, BrokenLinks(sha, hs, n), a.breaks);
    SeqsGrow(hs, hb, SeqGaps(hs, n), a.gaps);
    SeqsGrow(hs, hb, Foreigns(hs, known, n), a.uninterpretable);
    HoldsMade(sha, known, all, StepHeader(sha, known, a, hb));
  }

  lemma HoldsParts(sha: Sha, known: set<nat>, hs: seq<Bytes>, a: Acc)
    requires Holds(sha, known, hs, a)
    ensures !a.halted && forall i :: 0 <= i < |hs| ==> Parses(hs[i])
    ensures SeqsAt(hs, BrokenLinks(sha, hs, |hs|), a.breaks) && SeqsAt(hs, SeqGaps(hs, |hs|), a.gaps)
    ensures SeqsAt(hs, Foreigns(hs, known, |hs|), a.uninterpretable) && Faults(known, hs, |hs|, a.violations)
  {
    hide SeqsAt, Faults, Parses, BrokenLinks, SeqGaps, Foreigns;
  }

  lemma HoldsMade(sha: Sha, known: set<nat>, hs: seq<Bytes>, a: Acc)
    requires !a.halted && forall i :: 0 <= i < |hs| ==> Parses(hs[i])
    requires SeqsAt(hs, BrokenLinks(sha, hs, |hs|), a.breaks) && SeqsAt(hs, SeqGaps(hs, |hs|), a.gaps)
    requires SeqsAt(hs, Foreigns(hs, known, |hs|), a.uninterpretable) && Faults(known, hs, |hs|, a.violations)
    ensures Holds(sha, known, hs, a)
  {
    hide SeqsAt, Faults, Parses, BrokenLinks, SeqGaps, Foreigns;
  }

  lemma SeqsGrow(hs: seq<Bytes>, hb: Bytes, s: set<nat>, seqs: seq<nat>)
    requires SeqsAt(hs, s, seqs) && Parses(hb)
    ensures SeqsAt(hs + [hb], s + {}, seqs + []) && SeqsAt(hs + [hb], s + {|hs|}, seqs + [U64(hb, 12)])
  {
    SeqsStay(hs, hb, s, seqs);
    SeqsTake(hs, hb, s, seqs);
    assert s + {} == s && seqs + [] == seqs;
    hide SeqsAt, U64;
  }

  lemma {:induction false} RunHolds(sha: Sha, known: set<nat>, hs: seq<Bytes>)
    requires forall i :: 0 <= i < |hs| ==> Parses(hs[i])
    ensures Holds(sha, known, hs, Run(sha, known, hs))
    decreases |hs|
  {
    hide *;
    if hs == [] {
      HoldsNothing(sha, known);
    } else {
      var n := |hs| - 1;
      RunHolds(sha, known, hs[..n]);
      CleanIsGood(sha, known, hs[..n]);
      HoldsSnoc(sha, known, hs[..n], hs[n], Run(sha, known, hs[..n]));
      RunSnoc(sha, known, hs, n);
      assert hs[..n + 1] == hs && hs[..n] + [hs[n]] == hs;
    }
  }

  lemma FirstStop(hs: seq<Bytes>) returns (n: nat)
    ensures StopsBefore(hs, n)
  {
    hide Parses;
    n := 0;
    while n < |hs| && Parses(hs[n])
      invariant n <= |hs| && forall i :: 0 <= i < n ==> Parses(hs[i])
    {
      n := n + 1;
    }
  }

  /** The pass over everything is the pass over the headers walked, and one break where it stopped. */
  lemma RunStops(sha: Sha, known: set<nat>, hs: seq<Bytes>, n: nat, a: Acc)
    requires StopsBefore(hs, n) && a == Run(sha, known, hs[..n]) && !a.halted && |a.seen| == n
    ensures Run(sha, known, hs) == if n == |hs| then a else a.(breaks := a.breaks + [n], halted := true)
  {
    assert hs[..|hs|] == hs;
    if n < |hs| {
      RunSnoc(sha, known, hs, n);
      UnreadableStep(sha, known, a, hs[n]);
      HaltedStays(sha, known, hs, n + 1);
    }
  }

  lemma Walked(hs: seq<Bytes>, n: nat)
    requires StopsBefore(hs, n)
    ensures n <= |hs| && forall i :: 0 <= i < n ==> Parses(hs[..n][i])
  {
    hide Parses;
  }

  lemma PlaceFound(sha: Sha, hs: seq<Bytes>, a: Acc, expected: Option<Bytes>)
    requires Tracks(sha, hs, a) && !a.halted
    ensures AnchorPlace(sha, hs, |hs|, expected, Finish(a, expected)) && Finish(a, expected).count == |hs|
  {
    hide Readable, SeqOf;
    if expected.Some? {
      var at := IndexOf(a.seen, expected.value);
      forall i | 0 <= i < |hs| ensures a.seen[i] == sha(hs[i]) {
      }
      assert at.None? ==> forall i :: 0 <= i < |hs| ==> a.seen[i] != expected.value;
      assert at.Some? ==> forall i :: 0 <= i < at.value ==> a.seen[..at.value][i] == a.seen[i];
    }
  }

  /** Over every list of headers: what each list of the result holds, in order, and where the anchor is. */
  lemma ReportIsExact(sha: Sha, known: set<nat>, hs: seq<Bytes>, expected: Option<Bytes>)
    ensures Reports(sha, known, hs, expected, Finish(Run(sha, known, hs), expected))
  {
    hide *;
    var n := FirstStop(hs);
    Walked(hs, n);
    var walked, a := hs[..n], Run(sha, known, hs[..n]);
    RunHolds(sha, known, walked);
    CleanIsGood(sha, known, walked);
    HoldsParts(sha, known, walked, a);
    PlaceFound(sha, walked, a, expected);
    TracksLength(sha, walked, a);
    RunStops(sha, known, hs, n, a);
    ReportMade(sha, known, hs, n, a, expected);
  }

  lemma TracksLength(sha: Sha, hs: seq<Bytes>, a: Acc)
    requires Tracks(sha, hs, a) && !a.halted
    ensures |a.seen| == |hs|
  {
  }

  lemma ReportMade(sha: Sha, known: set<nat>, hs: seq<Bytes>, n: nat, a: Acc, expected: Option<Bytes>)
    requires StopsBefore(hs, n) && n <= |hs| && |a.seen| == n
    requires var walked := hs[..n];
      && SeqsAt(walked, BrokenLinks(sha, walked, n), a.breaks) && SeqsAt(walked, SeqGaps(walked, n), a.gaps)
      && SeqsAt(walked, Foreigns(walked, known, n), a.uninterpretable) && Faults(known, walked, n, a.violations)
      && AnchorPlace(sha, walked, n, expected, Finish(a, expected))
    ensures Reports(sha, known, hs, expected,
                    Finish(if n == |hs| then a else a.(breaks := a.breaks + [n], halted := true), expected))
  {
    hide SeqsAt, BrokenLinks, SeqGaps, Foreigns, Faults, StopsBefore, IndexOf;
    assert a.breaks + [] == a.breaks;
  }
}
