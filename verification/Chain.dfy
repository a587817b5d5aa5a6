/** Header-only chain verification and the anchor diagnosis. */
module Chain {
  /* `Run` is the verifier's pass, one header at a time with everything it collects; `GoodChain` says,
     without any pass, which header lists come out clean. */

  import opened Bytes
  import opened Codec

  datatype Fault =
    | HeaderLenMismatch | NotGenesisFirst | GenesisPrevNotZero
    | UnknownTimeWithClock | UndefinedTimeTrust | EmptyBodyWithDigest | BodyWithZeroDigest
    | EncryptedBodyTooShort | GenesisNotFirst | MalformedTlv

  datatype Violation = Violation(seqNo: nat, fault: Fault)

  datatype VerifyResult = VerifyResult(
    chainOk: bool, count: nat, head: Digest, breaks: seq<nat>, gaps: seq<nat>,
    violations: seq<Violation>, uninterpretable: seq<nat>,
    completeToAnchor: Option<bool>, anchorLag: Option<nat>)

  // ---------- one header ----------

  predicate Readable(hb: Bytes) {
    |hb| >= FIXED_LEN && At(hb, 0, 4) == MAGIC
  }

  function SeqOf(hb: Bytes): nat requires Readable(hb) { U64(hb, 12) }
  function TypeOf(hb: Bytes): nat requires Readable(hb) { U16(hb, 8) }
  function PrevOf(hb: Bytes): Bytes requires Readable(hb) { At(hb, 36, 32) }

  predicate Interpretable(hb: Bytes, known: set<nat>)
    requires Readable(hb)
  {
    U16(hb, 4) == FORMAT_VERSION && TypeOf(hb) in known
  }

  function Note(bad: bool, hb: Bytes, fault: Fault): seq<Violation>
    requires Readable(hb)
  {
    if bad then [Violation(SeqOf(hb), fault)] else []
  }

  /** The MUSTs checked on a record the verifier understands. */
  function SemanticChecks(hb: Bytes, index: nat): seq<Violation>
    requires Readable(hb)
  {
    var timeTrust, wall, keyId, bodyLen := hb[11] as nat, I64(hb, 108), U32(hb, 116), U32(hb, 120);
    var digest := At(hb, 124, 32);
    Note(timeTrust == TIME_UNKNOWN && wall != 0, hb, UnknownTimeWithClock) +
    Note(timeTrust > TIME_NTP_SYNCED, hb, UndefinedTimeTrust) +
    Note(bodyLen == 0 && digest != ZERO32, hb, EmptyBodyWithDigest) +
    Note(bodyLen != 0 && digest == ZERO32, hb, BodyWithZeroDigest) +
    Note(keyId != 0 && 0 < bodyLen < NONCE_LEN + GCM_TAG_LEN, hb, EncryptedBodyTooShort) +
    Note(TypeOf(hb) == RT_GENESIS && index != 0, hb, GenesisNotFirst)
  }

  /** `hb[156:header_len]`, clamped as a slice is. */
  function TlvArea(hb: Bytes): Bytes
    requires Readable(hb)
  {
    var hlen := U16(hb, 6);
    if hlen <= FIXED_LEN then [] else if hlen >= |hb| then hb[FIXED_LEN..] else hb[FIXED_LEN..hlen]
  }

  // ---------- the pass ----------

  datatype Acc = Acc(
    prev: Digest, breaks: seq<nat>, gaps: seq<nat>, violations: seq<Violation>,
    uninterpretable: seq<nat>, seen: seq<Digest>, expectedSeq: Option<nat>, halted: bool)

  const START := Acc(ZERO32, [], [], [], [], [], None, false)

  function FirstChecks(hb: Bytes): seq<Violation>
    requires Readable(hb)
  {
    if TypeOf(hb) != RT_GENESIS then [Violation(0, NotGenesisFirst)]
    else Note(PrevOf(hb) != ZERO32, hb, GenesisPrevNotZero)
  }

  function TypeChecks(hb: Bytes, index: nat, known: set<nat>): seq<Violation>
    requires Readable(hb)
  {
    if !Interpretable(hb, known) then []
    else SemanticChecks(hb, index) + Note(ParseTlvs(TlvArea(hb)).None?, hb, MalformedTlv)
  }

  function StepHeader(sha: Sha, known: set<nat>, a: Acc, hb: Bytes): Acc {
    var index := |a.seen|;
    if a.halted then a
    else if !Readable(hb) then a.(breaks := a.breaks + [index], halted := true)
    else
      var sq := SeqOf(hb);
      var lenFault := if U16(hb, 6) != |hb| then [Violation(index, HeaderLenMismatch)] else [];
      Acc(sha(hb),
          if index > 0 && PrevOf(hb) != a.prev then a.breaks + [sq] else a.breaks,
          if a.expectedSeq.Some? && sq != a.expectedSeq.value then a.gaps + [sq] else a.gaps,
          a.violations + lenFault + (if index == 0 then FirstChecks(hb) else []) + TypeChecks(hb, index, known),
          if Interpretable(hb, known) then a.uninterpretable else a.uninterpretable + [sq],
          a.seen + [sha(hb)], Some(sq + 1), false)
  }

  function Run(sha: Sha, known: set<nat>, hs: seq<Bytes>): Acc {
    if hs == [] then START
    else StepHeader(sha, known, Run(sha, known, hs[..|hs| - 1]), hs[|hs| - 1])
  }

  /** Position of the first occurrence. */
  function IndexOf(seen: seq<Digest>, x: Bytes): (i: Option<nat>)
    ensures i.Some? ==> i.value < |seen| && seen[i.value] == x && x !in seen[..i.value]
    ensures i.None? ==> x !in seen
  {
    if seen == [] then None
    else if seen[0] == x then Some(0)
    else
      var j := IndexOf(seen[1..], x);
      assert seen == [seen[0]] + seen[1..];
      if j.None? then None else Some(j.value + 1)
  }

  function Finish(a: Acc, expected: Option<Bytes>): VerifyResult {
    var complete := if expected.None? then None else Some(expected.value == a.prev);
    var at := if expected.Some? && expected.value != a.prev then IndexOf(a.seen, expected.value) else None;
    VerifyResult(a.breaks == [] && a.gaps == [] && a.violations == [], |a.seen|, a.prev,
                 a.breaks, a.gaps, a.violations, a.uninterpretable, complete,
                 if at.None? then None else Some(|a.seen| - at.value - 1))
  }

  method FindFirst(seen: seq<Digest>, x: Bytes) returns (i: Option<nat>)
    ensures i == IndexOf(seen, x)
  {
    for j := 0 to |seen|
      invariant x !in seen[..j]
    {
      if seen[j] == x {
        return Some(j);
      }
    }
    return None;
  }

  /** The loop body for a readable header. */
  method TakeHeader(sha: Sha, known: set<nat>, a: Acc, hb: Bytes) returns (b: Acc)
    requires !a.halted && Readable(hb)
    ensures b == StepHeader(sha, known, a, hb)
  {
    hide TypeChecks, FirstChecks, Interpretable, U16, U64;
    var count := |a.seen|;
    var breaks, gaps, violations, uninterpretable := a.breaks, a.gaps, a.violations, a.uninterpretable;
    if U16(hb, 6) != |hb| {
      violations := violations + [Violation(count, HeaderLenMismatch)];
    }
    var sq := U64(hb, 12);
    if count == 0 {
      violations := violations + FirstChecks(hb);
    } else if At(hb, 36, 32) != a.prev {
      breaks := breaks + [sq];
    }
    if a.expectedSeq.Some? && sq != a.expectedSeq.value {
      gaps := gaps + [sq];
    }
    if !Interpretable(hb, known) {
      uninterpretable := uninterpretable + [sq];
    }
    violations := violations + TypeChecks(hb, count, known);
    b := Acc(sha(hb), breaks, gaps, violations, uninterpretable, a.seen + [sha(hb)], Some(sq + 1), false);
  }

  method VerifyChain(sha: Sha, headers: seq<Bytes>, known: set<nat>, expectedHead: Option<Bytes>)
      returns (r: VerifyResult)
    ensures r == Finish(Run(sha, known, headers), expectedHead)
  {
    var a := START;
    var index := 0;
    while index < |headers| && !a.halted
      invariant index <= |headers|
      invariant a == Run(sha, known, headers[..index])
      decreases |headers| - index
    {
      hide *;
      var hb := headers[index];
      RunSnoc(sha, known, headers, index);
      if |hb| < FIXED_LEN || At(hb, 0, 4) != MAGIC {
        UnreadableStep(sha, known, a, hb);
        a := a.(breaks := a.breaks + [|a.seen|], halted := true);
      } else {
        IsReadable(hb);
        a := TakeHeader(sha, known, a, hb);
      }
      index := index + 1;
    }
    HaltedStays(sha, known, headers, index);
    r := Conclude(a, expectedHead);
  }

  /** After the loop: the verdict, and the anchor comparison when a head is expected. */
  method Conclude(a: Acc, expectedHead: Option<Bytes>) returns (r: VerifyResult)
    ensures r == Finish(a, expectedHead)
  {
    var complete: Option<bool>, lag: Option<nat> := None, None;
    if expectedHead.Some? {
      complete := Some(expectedHead.value == a.prev);
      if expectedHead.value != a.prev {
        var at := FindFirst(a.seen, expectedHead.value);
        if at.Some? {
          lag := Some(|a.seen| - at.value - 1);
        }
      }
    }
    r := VerifyResult(a.breaks == [] && a.gaps == [] && a.violations == [], |a.seen|, a.prev,
                      a.breaks, a.gaps, a.violations, a.uninterpretable, complete, lag);
  }

  lemma IsReadable(hb: Bytes)
    requires |hb| >= FIXED_LEN && At(hb, 0, 4) == MAGIC
    ensures Readable(hb)
  {
  }

  lemma UnreadableStep(sha: Sha, known: set<nat>, a: Acc, hb: Bytes)
    requires !a.halted && (|hb| < FIXED_LEN || At(hb, 0, 4) != MAGIC)
    ensures StepHeader(sha, known, a, hb) == a.(breaks := a.breaks + [|a.seen|], halted := true)
  {
  }

  lemma RunSnoc(sha: Sha, known: set<nat>, hs: seq<Bytes>, n: nat)
    requires n < |hs|
    ensures Run(sha, known, hs[..n + 1]) == StepHeader(sha, known, Run(sha, known, hs[..n]), hs[n])
  {
    assert hs[..n + 1][..n] == hs[..n];
  }

  lemma {:induction false} HaltedStays(sha: Sha, known: set<nat>, hs: seq<Bytes>, n: nat)
    requires n <= |hs| && (n == |hs| || Run(sha, known, hs[..n]).halted)
    ensures Run(sha, known, hs) == Run(sha, known, hs[..n])
    decreases |hs|
  {
    assert hs[..|hs|] == hs;
    if n < |hs| {
      var m := |hs| - 1;
      assert hs[..m][..n] == hs[..n] && hs[..m][..m] == hs[..m];
      HaltedStays(sha, known, hs[..m], n);
    }
  }

  // ---------- which header lists come out clean ----------

  /** An understood record meets every MUST, at its position. */
  predicate SoundRecord(hb: Bytes, index: nat)
    requires Readable(hb)
  {
    && (hb[11] == TIME_UNKNOWN ==> I64(hb, 108) == 0)
    && hb[11] <= TIME_NTP_SYNCED
    && (U32(hb, 120) == 0 <==> At(hb, 124, 32) == ZERO32)
    && (U32(hb, 116) == 0 || U32(hb, 120) == 0 || NONCE_LEN + GCM_TAG_LEN <= U32(hb, 120))
    && (TypeOf(hb) == RT_GENESIS ==> index == 0)
    && ParseTlvs(TlvArea(hb)).Some?
  }

  predicate GoodHeader(hb: Bytes, index: nat, known: set<nat>) {
    && Readable(hb) && U16(hb, 6) == |hb|
    && (Interpretable(hb, known) ==> SoundRecord(hb, index))
    && (index == 0 ==> TypeOf(hb) == RT_GENESIS && PrevOf(hb) == ZERO32)
  }

  predicate Linked(sha: Sha, a: Bytes, b: Bytes)
    requires Readable(a) && Readable(b)
  {
    PrevOf(b) == sha(a) && SeqOf(b) == SeqOf(a) + 1
  }

  ghost predicate GoodChain(sha: Sha, known: set<nat>, hs: seq<Bytes>) {
    && (forall i :: 0 <= i < |hs| ==> GoodHeader(hs[i], i, known))
    && (forall i :: 0 < i < |hs| ==> Linked(sha, hs[i - 1], hs[i]))
  }

  function HeadOf(sha: Sha, hs: seq<Bytes>): Digest {
    if hs == [] then ZERO32 else sha(hs[|hs| - 1])
  }

  function HeaderHashes(sha: Sha, hs: seq<Bytes>): (ds: seq<Digest>)
    ensures |ds| == |hs|
  {
    seq(|hs|, i requires 0 <= i < |hs| => sha(hs[i]))
  }

  predicate Clean(a: Acc) {
    a.breaks == [] && a.gaps == [] && a.violations == []
  }

  lemma CleanStep(sha: Sha, known: set<nat>, a: Acc, hb: Bytes)
    requires !a.halted
    ensures var b := StepHeader(sha, known, a, hb);
      Clean(b) <==>
        && Clean(a) && GoodHeader(hb, |a.seen|, known)
        && (|a.seen| > 0 ==> PrevOf(hb) == a.prev)
        && (a.expectedSeq.Some? ==> SeqOf(hb) == a.expectedSeq.value)
  {
    var b := StepHeader(sha, known, a, hb);
    if Readable(hb) {
      var index := |a.seen|;
      CleanChecks(hb, index, known);
      assert b.breaks == [] <==> a.breaks == [] && (index > 0 ==> PrevOf(hb) == a.prev);
      assert b.gaps == [] <==> a.gaps == [] && (a.expectedSeq.Some? ==> SeqOf(hb) == a.expectedSeq.value);
      assert |b.violations| == 0 <==>
        |a.violations| == 0 && U16(hb, 6) == |hb|
        && (index == 0 ==> |FirstChecks(hb)| == 0) && |TypeChecks(hb, index, known)| == 0;
    }
  }

  lemma CleanChecks(hb: Bytes, index: nat, known: set<nat>)
    requires Readable(hb)
    ensures |TypeChecks(hb, index, known)| == 0 <==> (Interpretable(hb, known) ==> SoundRecord(hb, index))
  {
  }

  /** What the pass holds after each header. */
  ghost predicate Tracks(sha: Sha, hs: seq<Bytes>, a: Acc) {
    if a.halted then a.breaks != []
    else
      && a.seen == HeaderHashes(sha, hs) && a.prev == HeadOf(sha, hs)
      && (forall i :: 0 <= i < |hs| ==> Readable(hs[i]))
      && a.expectedSeq == if hs == [] then None else Some(SeqOf(hs[|hs| - 1]) + 1)
  }

  lemma StepTracks(sha: Sha, known: set<nat>, hs: seq<Bytes>, hb: Bytes, a: Acc)
    requires Tracks(sha, hs, a)
    ensures Tracks(sha, hs + [hb], StepHeader(sha, known, a, hb))
  {
    hide TypeChecks, FirstChecks, Interpretable, SeqOf, PrevOf;
    if !a.halted && Readable(hb) {
      assert HeaderHashes(sha, hs + [hb]) == HeaderHashes(sha, hs) + [sha(hb)];
    }
  }

  lemma CleanStart(sha: Sha, known: set<nat>)
    ensures Tracks(sha, [], START) && Clean(START) && Run(sha, known, []) == START && GoodChain(sha, known, [])
  {
  }

  lemma CleanSnoc(sha: Sha, known: set<nat>, hs: seq<Bytes>, hb: Bytes, a: Acc)
    requires Tracks(sha, hs, a) && !a.halted && (Clean(a) <==> GoodChain(sha, known, hs))
    ensures Clean(StepHeader(sha, known, a, hb)) <==> GoodChain(sha, known, hs + [hb])
  {
    CleanStep(sha, known, a, hb);
    GoodSnoc(sha, known, hs + [hb]);
    assert (hs + [hb])[..|hs|] == hs;
    hide StepHeader, GoodHeader, GoodChain, Clean;
  }

  lemma HaltedIsBad(sha: Sha, known: set<nat>, hs: seq<Bytes>, hb: Bytes, a: Acc)
    requires Tracks(sha, hs, a) && a.halted && !GoodChain(sha, known, hs)
    ensures !Clean(a) && StepHeader(sha, known, a, hb) == a && !GoodChain(sha, known, hs + [hb])
  {
    GoodSnoc(sha, known, hs + [hb]);
    assert (hs + [hb])[..|hs|] == hs;
    hide GoodHeader, GoodChain;
  }

  /** The pass is clean exactly on the good chains, and then it has hashed every header. */
  lemma {:induction false} CleanIsGood(sha: Sha, known: set<nat>, hs: seq<Bytes>)
    ensures Clean(Run(sha, known, hs)) <==> GoodChain(sha, known, hs)
    ensures Tracks(sha, hs, Run(sha, known, hs))
    decreases |hs|
  {
    hide *;
    if hs == [] {
      CleanStart(sha, known);
    } else {
      var n := |hs| - 1;
      var before, a := hs[..n], Run(sha, known, hs[..n]);
      CleanIsGood(sha, known, before);
      assert hs[..n + 1] == hs && hs == before + [hs[n]];
      RunSnoc(sha, known, hs, n);
      StepTracks(sha, known, before, hs[n], a);
      if a.halted {
        HaltedNotClean(sha, before, a);
        HaltedIsBad(sha, known, before, hs[n], a);
      } else {
        CleanSnoc(sha, known, before, hs[n], a);
      }
    }
  }

  lemma HaltedNotClean(sha: Sha, hs: seq<Bytes>, a: Acc)
    requires Tracks(sha, hs, a) && a.halted
    ensures !Clean(a)
  {
  }

  lemma GoodSnoc(sha: Sha, known: set<nat>, hs: seq<Bytes>)
    requires hs != []
    ensures var n := |hs| - 1;
      GoodChain(sha, known, hs) <==>
        && GoodChain(sha, known, hs[..n]) && GoodHeader(hs[n], n, known)
        && (n > 0 ==> Readable(hs[n - 1]) && Linked(sha, hs[n - 1], hs[n]))
  {
    var n := |hs| - 1;
    var before := hs[..n];
    forall i | 0 <= i < n ensures before[i] == hs[i] {
    }
    if GoodChain(sha, known, hs) {
      assert GoodHeader(hs[n], n, known);
      forall i | 0 <= i < n ensures GoodHeader(before[i], i, known) {
        assert GoodHeader(hs[i], i, known);
      }
      forall i | 0 < i < n ensures Linked(sha, before[i - 1], before[i]) {
        assert Linked(sha, hs[i - 1], hs[i]);
      }
    }
    if GoodChain(sha, known, before) && GoodHeader(hs[n], n, known)
       && (n > 0 ==> Readable(hs[n - 1]) && Linked(sha, hs[n - 1], hs[n])) {
      forall i | 0 <= i < |hs| ensures GoodHeader(hs[i], i, known) {
        if i < n {
          assert GoodHeader(before[i], i, known);
        }
      }
      forall i | 0 < i < |hs| ensures Linked(sha, hs[i - 1], hs[i]) {
        if i < n {
          assert Linked(sha, before[i - 1], before[i]);
        }
      }
    }
  }

  lemma {:induction false} GoodPrefix(sha: Sha, known: set<nat>, hs: seq<Bytes>, n: nat)
    requires GoodChain(sha, known, hs) && n <= |hs|
    ensures GoodChain(sha, known, hs[..n])
    decreases |hs|
  {
    if n < |hs| {
      GoodSnoc(sha, known, hs);
      GoodPrefix(sha, known, hs[..|hs| - 1], n);
      assert hs[..|hs| - 1][..n] == hs[..n];
    } else {
      assert hs[..n] == hs;
    }
  }

  /** The verdict, from outside: clean, everything counted, and the head is the last header's hash. */
  lemma VerdictIsGoodChain(sha: Sha, known: set<nat>, hs: seq<Bytes>, expected: Option<Bytes>)
    ensures var r := Finish(Run(sha, known, hs), expected);
      && (r.chainOk <==> GoodChain(sha, known, hs))
      && (r.chainOk ==> r.count == |hs| && r.head == HeadOf(sha, hs))
  {
    CleanIsGood(sha, known, hs);
  }

  // ---------- the head pins the history ----------

  function HeaderSet(hs: seq<Bytes>): set<Bytes> {
    set i | 0 <= i < |hs| :: hs[i]
  }

  /** The hash behaves on these headers: no collision, none hashes to zero. */
  ghost predicate Trusted(sha: Sha, s: set<Bytes>) {
    NoCollision(sha, s) && NeverZero(sha, s)
  }

  lemma GoodLast(sha: Sha, known: set<nat>, hs: seq<Bytes>)
    requires GoodChain(sha, known, hs) && hs != []
    ensures var n := |hs| - 1;
      && GoodChain(sha, known, hs[..n]) && Readable(hs[n])
      && PrevOf(hs[n]) == HeadOf(sha, hs[..n])
      && hs == hs[..n] + [hs[n]] && hs[n] in HeaderSet(hs) && HeaderSet(hs[..n]) <= HeaderSet(hs)
  {
    GoodSnoc(sha, known, hs);
    Snoc(hs);
    var n := |hs| - 1;
    if n > 0 {
      assert hs[..n][n - 1] == hs[n - 1];
    }
    forall x | x in HeaderSet(hs[..n]) ensures x in HeaderSet(hs) {
      var i :| 0 <= i < n && x == hs[..n][i];
      assert hs[i] == x;
    }
  }

  /** Two clean chains with the same head are the same chain. */
  lemma {:induction false} HeadPinsHistory(sha: Sha, known: set<nat>, a: seq<Bytes>, b: seq<Bytes>, s: set<Bytes>)
    requires GoodChain(sha, known, a) && GoodChain(sha, known, b)
    requires HeadOf(sha, a) == HeadOf(sha, b)
    requires Trusted(sha, s) && HeaderSet(a) <= s && HeaderSet(b) <= s
    ensures a == b
    decreases |a| + |b|
  {
    if a != [] && b != [] {
      GoodLast(sha, known, a);
      GoodLast(sha, known, b);
      HeadPinsHistory(sha, known, a[..|a| - 1], b[..|b| - 1], s);
    } else if a != [] {
      GoodLast(sha, known, a);
    } else if b != [] {
      GoodLast(sha, known, b);
    }
  }

  lemma PrefixHeaders(hs: seq<Bytes>, n: nat)
    requires n <= |hs|
    ensures HeaderSet(hs[..n]) <= HeaderSet(hs)
  {
    forall x | x in HeaderSet(hs[..n]) ensures x in HeaderSet(hs) {
      var i :| 0 <= i < n && x == hs[..n][i];
      assert hs[i] == x;
    }
  }

  /** A clean header list, a clean anchored history, and a hash that behaves on both. */
  ghost predicate Comparable(sha: Sha, known: set<nat>, hs: seq<Bytes>, history: seq<Bytes>) {
    && GoodChain(sha, known, hs) && GoodChain(sha, known, history)
    && Trusted(sha, HeaderSet(hs) + HeaderSet(history))
  }

  /** An anchored head found at position `j` puts the whole anchored history before it. */
  lemma AnchorInside(sha: Sha, known: set<nat>, hs: seq<Bytes>, history: seq<Bytes>, j: nat)
    requires Comparable(sha, known, hs, history)
    requires j < |hs| && sha(hs[j]) == HeadOf(sha, history)
    ensures hs[..j + 1] == history
  {
    GoodPrefix(sha, known, hs, j + 1);
    PrefixHeaders(hs, j + 1);
    assert HeadOf(sha, hs[..j + 1]) == sha(hs[j]);
    HeadPinsHistory(sha, known, hs[..j + 1], history, HeaderSet(hs) + HeaderSet(history));
  }

  /** What the verifier reports against the head of `history`. */
  function Diagnose(sha: Sha, known: set<nat>, hs: seq<Bytes>, history: seq<Bytes>): VerifyResult {
    Finish(Run(sha, known, hs), Some(HeadOf(sha, history)))
  }

  /** The verdict read off a pass that tracked a clean list. */
  lemma FinishTracked(sha: Sha, hs: seq<Bytes>, a: Acc, e: Digest)
    requires Tracks(sha, hs, a) && Clean(a)
    ensures var r, seen := Finish(a, Some(e)), HeaderHashes(sha, hs);
      && r.chainOk && r.completeToAnchor == Some(e == HeadOf(sha, hs))
      && r.anchorLag == if e != HeadOf(sha, hs) && IndexOf(seen, e).Some?
                        then Some(|hs| - IndexOf(seen, e).value - 1) else None
  {
    hide HeaderHashes, HeadOf, Readable;
  }

  lemma DiagnoseClean(sha: Sha, known: set<nat>, hs: seq<Bytes>, history: seq<Bytes>)
    requires GoodChain(sha, known, hs)
    ensures var r, e, seen := Diagnose(sha, known, hs, history), HeadOf(sha, history), HeaderHashes(sha, hs);
      && r.chainOk && r.completeToAnchor == Some(e == HeadOf(sha, hs))
      && r.anchorLag == if e != HeadOf(sha, hs) && IndexOf(seen, e).Some?
                        then Some(|hs| - IndexOf(seen, e).value - 1) else None
  {
    hide *;
    CleanIsGood(sha, known, hs);
    FinishTracked(sha, hs, Run(sha, known, hs), HeadOf(sha, history));
    DiagnoseIs(sha, known, hs, history);
  }

  lemma DiagnoseIs(sha: Sha, known: set<nat>, hs: seq<Bytes>, history: seq<Bytes>)
    ensures Diagnose(sha, known, hs, history) == Finish(Run(sha, known, hs), Some(HeadOf(sha, history)))
  {
  }

  lemma CompleteIsSame(sha: Sha, known: set<nat>, hs: seq<Bytes>, history: seq<Bytes>)
    requires Comparable(sha, known, hs, history)
    ensures HeadOf(sha, hs) == HeadOf(sha, history) <==> hs == history
  {
    if HeadOf(sha, hs) == HeadOf(sha, history) {
      HeadPinsHistory(sha, known, hs, history, HeaderSet(hs) + HeaderSet(history));
    }
  }

  lemma LagIsPrefix(sha: Sha, known: set<nat>, hs: seq<Bytes>, history: seq<Bytes>, k: nat)
    requires Comparable(sha, known, hs, history)
    requires Diagnose(sha, known, hs, history).anchorLag == Some(k)
    ensures 1 <= k < |hs| && history != [] && hs[..|hs| - k] == history
  {
    hide *;
    ComparableParts(sha, known, hs, history);
    DiagnoseClean(sha, known, hs, history);
    LagIndex(sha, hs, HeadOf(sha, history), k);
    AnchorInside(sha, known, hs, history, |hs| - k - 1);
  }

  lemma ComparableParts(sha: Sha, known: set<nat>, hs: seq<Bytes>, history: seq<Bytes>)
    requires Comparable(sha, known, hs, history)
    ensures GoodChain(sha, known, hs) && GoodChain(sha, known, history)
  {
  }

  lemma LagIndex(sha: Sha, hs: seq<Bytes>, e: Digest, k: nat)
    requires e != HeadOf(sha, hs) && IndexOf(HeaderHashes(sha, hs), e).Some?
    requires k == |hs| - IndexOf(HeaderHashes(sha, hs), e).value - 1
    ensures 1 <= k < |hs| && sha(hs[|hs| - k - 1]) == e
  {
    var j := IndexOf(HeaderHashes(sha, hs), e).value;
    assert HeaderHashes(sha, hs)[j] == sha(hs[j]);
  }

  lemma PrefixIsLag(sha: Sha, known: set<nat>, hs: seq<Bytes>, history: seq<Bytes>, k: nat)
    requires Comparable(sha, known, hs, history)
    requires 1 <= k < |hs| && history != [] && hs[..|hs| - k] == history
    ensures Diagnose(sha, known, hs, history).anchorLag == Some(k)
  {
    hide *;
    ComparableParts(sha, known, hs, history);
    DiagnoseClean(sha, known, hs, history);
    HeadOfPrefix(sha, hs, |hs| - k);
    CompleteIsSame(sha, known, hs, history);
    var i := FirstHash(sha, hs, HeadOf(sha, history), |hs| - k - 1);
    AnchorInside(sha, known, hs, history, i);
  }

  lemma HeadOfPrefix(sha: Sha, hs: seq<Bytes>, n: nat)
    requires 1 <= n <= |hs|
    ensures HeadOf(sha, hs[..n]) == sha(hs[n - 1])
  {
  }

  lemma FirstHash(sha: Sha, hs: seq<Bytes>, e: Bytes, j: nat) returns (i: nat)
    requires j < |hs| && sha(hs[j]) == e
    ensures IndexOf(HeaderHashes(sha, hs), e) == Some(i) && i < |hs| && sha(hs[i]) == e
  {
    assert HeaderHashes(sha, hs)[j] == e;
    i := IndexOf(HeaderHashes(sha, hs), e).value;
  }

  /** The anchor decides, for a clean chain: complete means this is the anchored history; lag `k`
      means dropping exactly the last `k` records gives it; neither means it is not inside. */
  lemma AnchorDiagnosis(sha: Sha, known: set<nat>, hs: seq<Bytes>, history: seq<Bytes>)
    requires Comparable(sha, known, hs, history)
    ensures var r := Diagnose(sha, known, hs, history);
      && r.chainOk
      && (r.completeToAnchor == Some(true) <==> hs == history)
      && (forall k: nat :: r.anchorLag == Some(k) <==>
            1 <= k < |hs| && history != [] && hs[..|hs| - k] == history)
  {
    DiagnoseClean(sha, known, hs, history);
    hide *;
    CompleteIsSame(sha, known, hs, history);
    var r := Diagnose(sha, known, hs, history);
    forall k: nat ensures r.anchorLag == Some(k) <==> 1 <= k < |hs| && history != [] && hs[..|hs| - k] == history {
      if r.anchorLag == Some(k) {
        LagIsPrefix(sha, known, hs, history, k);
      }
      if 1 <= k < |hs| && history != [] && hs[..|hs| - k] == history {
        PrefixIsLag(sha, known, hs, history, k);
      }
    }
  }

  /** A truncated history is never complete and never given a lag. */
  lemma TruncationIsSeen(sha: Sha, known: set<nat>, history: seq<Bytes>, n: nat)
    requires GoodChain(sha, known, history) && n < |history|
    requires Trusted(sha, HeaderSet(history))
    ensures var r := Diagnose(sha, known, history[..n], history);
      r.chainOk && r.completeToAnchor == Some(false) && r.anchorLag == None
  {
    var hs := history[..n];
    GoodPrefix(sha, known, history, n);
    PrefixHeaders(history, n);
    assert HeaderSet(hs) + HeaderSet(history) == HeaderSet(history);
    DiagnoseClean(sha, known, hs, history);
    AnchorDiagnosis(sha, known, hs, history);
  }
}
