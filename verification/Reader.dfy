/** The reader's walk over a container, and its reads in place. */
module Reader {
  /* `DecodeRecord` is the full decode, on values. Every in-place method is proved to give its answer,
     on every container, malformed ones included. */

  import opened Bytes
  import opened Codec
  import opened Profile

  predicate KindBearing(recordType: nat) { recordType == RT_EVENT || recordType == RT_SAFETY }

  // ---------- the full decode ----------

  datatype Decoded = Decoded(
    seqNo: nat, recordType: nat, header: Option<Header>, bodyTlvs: Option<seq<Tlv>>, kind: Option<nat>,
    detail: Option<Bytes>, operatorId: Option<Bytes>, disposition: Option<nat>,
    source: Option<nat>, outcome: Option<nat>,
    recordHash: Digest)

  /** The first value of a tag whose length is in bounds. */
  function FirstVal(ts: seq<Tlv>, tag: nat, lo: nat, hi: nat): (v: Option<Bytes>)
    ensures v.Some? ==> lo <= |v.value| <= hi
  {
    if ts == [] then None
    else if ts[0].tag == tag && lo <= |ts[0].val| <= hi then Some(ts[0].val)
    else FirstVal(ts[1..], tag, lo, hi)
  }

  const ANY: nat := 0xFFFF

  predicate Fitting(x: Tlv, tag: nat, lo: nat, hi: nat) { x.tag == tag && lo <= |x.val| <= hi }

  /** `v` is the value of the first fitting item, None when there is none. */
  ghost predicate IsFirst(ts: seq<Tlv>, tag: nat, lo: nat, hi: nat, v: Option<Bytes>) {
    match v
    case None => forall i :: 0 <= i < |ts| ==> !Fitting(ts[i], tag, lo, hi)
    case Some(x) => exists i :: 0 <= i < |ts| && Fitting(ts[i], tag, lo, hi) && ts[i].val == x
                                && forall j :: 0 <= j < i ==> !Fitting(ts[j], tag, lo, hi)
  }

  lemma {:induction false} FirstValIs(ts: seq<Tlv>, tag: nat, lo: nat, hi: nat)
    ensures IsFirst(ts, tag, lo, hi, FirstVal(ts, tag, lo, hi))
  {
    if ts != [] && !Fitting(ts[0], tag, lo, hi) {
      FirstValIs(ts[1..], tag, lo, hi);
      var v := FirstVal(ts[1..], tag, lo, hi);
      if v.Some? {
        var i :| 0 <= i < |ts[1..]| && Fitting(ts[1..][i], tag, lo, hi) && ts[1..][i].val == v.value
          && forall j :: 0 <= j < i ==> !Fitting(ts[1..][j], tag, lo, hi);
        forall j | 0 <= j < i + 1 ensures !Fitting(ts[j], tag, lo, hi) {
          assert j > 0 ==> ts[j] == ts[1..][j - 1];
        }
        assert ts[i + 1] == ts[1..][i];
      } else {
        forall j | 0 <= j < |ts| ensures !Fitting(ts[j], tag, lo, hi) {
          assert j > 0 ==> ts[j] == ts[1..][j - 1];
        }
      }
    }
  }

  /** There is only one such value. */
  lemma FirstIsOne(ts: seq<Tlv>, tag: nat, lo: nat, hi: nat, v: Option<Bytes>, w: Option<Bytes>)
    requires IsFirst(ts, tag, lo, hi, v) && IsFirst(ts, tag, lo, hi, w)
    ensures v == w
  {
    if v.Some? && w.Some? {
      var i :| 0 <= i < |ts| && Fitting(ts[i], tag, lo, hi) && ts[i].val == v.value
        && forall j :: 0 <= j < i ==> !Fitting(ts[j], tag, lo, hi);
      var k :| 0 <= k < |ts| && Fitting(ts[k], tag, lo, hi) && ts[k].val == w.value
        && forall j :: 0 <= j < k ==> !Fitting(ts[j], tag, lo, hi);
      assert i == k;
    }
  }

  function FirstNum(ts: seq<Tlv>, tag: nat): Option<nat> {
    var v := FirstVal(ts, tag, 2, ANY);
    if v.None? then None else Some(U16(v.value, 0))
  }

  function BodyTlvs(h: Header, body: Bytes): Option<seq<Tlv>> {
    if h.keyId == 0 && body != [] then ParseTlvs(body) else None
  }

  function SourceFor(kind: Option<nat>, source: Option<nat>): Option<nat> {
    if (kind == Some(KIND_TOOL_CALL) || kind == Some(KIND_TOOL_RESULT)) && source.None?
    then Some(SOURCE_PARSED_FROM_WIRE) else source
  }

  function OutcomeFor(kind: Option<nat>, outcome: Option<nat>): Option<nat> {
    if kind == Some(KIND_TOOL_RESULT) then outcome else None
  }

  function DecodeRecord(sha: Sha, r: Rec): Decoded
    requires RecOk(r)
  {
    var h := Decode(r.hb);
    if h.None? then
      Decoded(U64(r.hb, 12), U16(r.hb, 8), None, None, None, None, None, None, None, None, sha(r.hb))
    else
      var ts := BodyTlvs(h.value, r.body);
      if ts.None? || !KindBearing(h.value.recordType) then
        Decoded(h.value.seqNo, h.value.recordType, h, ts, None, None, None, None, None, None, sha(r.hb))
      else
        var kind := FirstNum(ts.value, EVT_KIND);
        Decoded(h.value.seqNo, h.value.recordType, h, ts, kind, FirstVal(ts.value, EVT_DETAIL, 0, ANY),
                FirstVal(ts.value, EVT_OPERATOR_ID, 16, 16), FirstNum(ts.value, EVT_DISPOSITION),
                SourceFor(kind, FirstNum(ts.value, EVT_SOURCE)),
                OutcomeFor(kind, FirstNum(ts.value, EVT_OUTCOME)), sha(r.hb))
  }

  lemma FirstValSnoc(ts: seq<Tlv>, x: Tlv, tag: nat, lo: nat, hi: nat)
    ensures FirstVal(ts + [x], tag, lo, hi) ==
      if FirstVal(ts, tag, lo, hi).Some? then FirstVal(ts, tag, lo, hi)
      else if x.tag == tag && lo <= |x.val| <= hi then Some(x.val) else None
  {
    if ts != [] {
      assert (ts + [x])[1..] == ts[1..] + [x];
      FirstValSnoc(ts[1..], x, tag, lo, hi);
    } else {
      assert (ts + [x])[1..] == [];
    }
  }

  /** What the loops keep after `i` items: every field is the first fitting value so far. */
  ghost predicate Gathered(ts: seq<Tlv>, kind: Option<nat>, detail: Option<Bytes>, operatorId: Option<Bytes>,
                           disposition: Option<nat>, source: Option<nat>, outcome: Option<nat>) {
    && kind == FirstNum(ts, EVT_KIND) && detail == FirstVal(ts, EVT_DETAIL, 0, ANY)
    && operatorId == FirstVal(ts, EVT_OPERATOR_ID, 16, 16) && disposition == FirstNum(ts, EVT_DISPOSITION)
    && source == FirstNum(ts, EVT_SOURCE) && outcome == FirstNum(ts, EVT_OUTCOME)
  }

  lemma NumSnoc(ts: seq<Tlv>, x: Tlv, tag: nat)
    ensures FirstNum(ts + [x], tag) ==
      if FirstNum(ts, tag).Some? then FirstNum(ts, tag)
      else if x.tag == tag && 2 <= |x.val| <= ANY then Some(U16(x.val, 0)) else None
  {
    hide FirstVal;
    FirstValSnoc(ts, x, tag, 2, ANY);
  }

  /** `decode_record`, its loop over the body's items. */
  method GatherFields(ts: seq<Tlv>) returns (kind: Option<nat>, detail: Option<Bytes>, operatorId: Option<Bytes>,
                                             disposition: Option<nat>, source: Option<nat>, outcome: Option<nat>)
    requires TlvsFit(ts)
    ensures Gathered(ts, kind, detail, operatorId, disposition, source, outcome)
  {
    kind, detail, operatorId, disposition, source, outcome := None, None, None, None, None, None;
    for i := 0 to |ts|
      invariant Gathered(ts[..i], kind, detail, operatorId, disposition, source, outcome)
    {
      hide FirstVal, FirstNum;
      var x := ts[i];
      assert TlvFits(x);
      FirstValSnoc(ts[..i], x, EVT_DETAIL, 0, ANY);
      FirstValSnoc(ts[..i], x, EVT_OPERATOR_ID, 16, 16);
      NumSnoc(ts[..i], x, EVT_KIND);
      NumSnoc(ts[..i], x, EVT_DISPOSITION);
      NumSnoc(ts[..i], x, EVT_SOURCE);
      NumSnoc(ts[..i], x, EVT_OUTCOME);
      assert ts[..i] + [x] == ts[..i + 1];
      if kind.None? && x.tag == EVT_KIND && |x.val| >= 2 {
        kind := Some(U16(x.val, 0));
      } else if detail.None? && x.tag == EVT_DETAIL {
        detail := Some(x.val);
      } else if operatorId.None? && x.tag == EVT_OPERATOR_ID && |x.val| == 16 {
        operatorId := Some(x.val);
      } else if disposition.None? && x.tag == EVT_DISPOSITION && |x.val| >= 2 {
        disposition := Some(U16(x.val, 0));
      } else if source.None? && x.tag == EVT_SOURCE && |x.val| >= 2 {
        source := Some(U16(x.val, 0));
      } else if outcome.None? && x.tag == EVT_OUTCOME && |x.val| >= 2 {
        outcome := Some(U16(x.val, 0));
      }
    }
    assert ts[..|ts|] == ts;
  }

  /** `decode_record`. */
  method DecodeFully(sha: Sha, r: Rec) returns (d: Decoded)
    requires RecOk(r)
    ensures d == DecodeRecord(sha, r)
  {
    hide FirstVal, FirstNum, U16, U64, ParseTlvs;
    var rhash := sha(r.hb);
    var header := Decode(r.hb);
    if header.None? {
      return Decoded(U64(r.hb, 12), U16(r.hb, 8), None, None, None, None, None, None, None, None, rhash);
    }
    var h := header.value;
    var bodyTlvs: Option<seq<Tlv>> := None;
    var kind, detail, operatorId, disposition, source, outcome :=
      Option<nat>.None, Option<Bytes>.None, Option<Bytes>.None, Option<nat>.None, Option<nat>.None, Option<nat>.None;
    if h.keyId == 0 && r.body != [] {
      bodyTlvs := DecodeTlvs(r.body);
      if bodyTlvs.Some? && KindBearing(h.recordType) {
        EncodeParsed(r.body);
        kind, detail, operatorId, disposition, source, outcome := GatherFields(bodyTlvs.value);
        if (kind == Some(KIND_TOOL_CALL) || kind == Some(KIND_TOOL_RESULT)) && source.None? {
          source := Some(SOURCE_PARSED_FROM_WIRE);
        }
        if kind != Some(KIND_TOOL_RESULT) {
          outcome := None;
        }
      }
    }
    d := Decoded(h.seqNo, h.recordType, header, bodyTlvs, kind, detail, operatorId, disposition, source, outcome,
                 rhash);
  }

  // ---------- TLVs read in place ----------

  /** An item of a larger buffer: its type, where its value starts, how long it is. */
  datatype Span = Span(tag: nat, off: nat, len: nat)

  predicate SpanIn(data: Bytes, s: Span) { s.off + s.len <= |data| && s.len < 0x1_0000 }

  predicate SpansIn(data: Bytes, ss: seq<Span>) {
    forall i :: 0 <= i < |ss| ==> SpanIn(data, ss[i])
  }

  function SpanTlv(data: Bytes, s: Span): Tlv
    requires SpanIn(data, s)
  {
    Tlv(s.tag, At(data, s.off, s.len))
  }

  function Values(data: Bytes, ss: seq<Span>): (ts: seq<Tlv>)
    requires SpansIn(data, ss)
    ensures |ts| == |ss| && forall i :: 0 <= i < |ss| ==> ts[i] == SpanTlv(data, ss[i])
  {
    seq(|ss|, i requires 0 <= i < |ss| => SpanTlv(data, ss[i]))
  }

  lemma ValuesSnoc(data: Bytes, ss: seq<Span>, s: Span)
    requires SpansIn(data, ss) && SpanIn(data, s)
    ensures SpansIn(data, ss + [s]) && Values(data, ss + [s]) == Values(data, ss) + [SpanTlv(data, s)]
  {
  }

  /** One item of an area `[pos, end)` of a larger buffer. */
  lemma AreaStep(data: Bytes, pos: nat, end: nat)
    requires pos < end <= |data|
    ensures pos + 4 > end || pos + 4 + U16(data, pos + 2) > end ==> ParseTlvs(data[pos..end]).None?
    ensures pos + 4 <= end && pos + 4 + U16(data, pos + 2) <= end ==>
      var ln := U16(data, pos + 2);
      ParseTlvs(data[pos..end]) ==
        Prepend([Tlv(U16(data, pos), At(data, pos + 4, ln))], ParseTlvs(data[pos + 4 + ln..end]))
  {
    hide *;
    var buf := data[..end];
    assert buf[pos..] == data[pos..end];
    ParseStep(buf, pos);
    FirstInPlace(buf, pos);
    if pos + 4 <= end {
      SameWord(data, end, pos);
      SameWord(data, end, pos + 2);
      var ln := U16(data, pos + 2);
      if pos + 4 + ln <= end {
        SameBytes(data, end, pos + 4, ln);
        assert buf[pos + 4 + ln..] == data[pos + 4 + ln..end];
      }
    }
  }

  lemma SameBytes(data: Bytes, end: nat, off: nat, len: nat)
    requires off + len <= end <= |data|
    ensures At(data[..end], off, len) == At(data, off, len)
  {
  }

  lemma SameWord(data: Bytes, end: nat, off: nat)
    requires off + 2 <= end <= |data|
    ensures U16(data[..end], off) == U16(data, off)
  {
    SameBytes(data, end, off, 2);
    hide UnLe, At;
  }

  /** An area that parses ends, or holds a whole item. */
  lemma AreaFits(data: Bytes, pos: nat, end: nat)
    requires pos <= end <= |data| && ParseTlvs(data[pos..end]).Some?
    ensures pos == end || (pos + 4 <= end && pos + 4 + U16(data, pos + 2) <= end)
  {
    if pos < end {
      AreaStep(data, pos, end);
    }
  }

  /** `body_tlv_spans`: None exactly when the area does not parse, else its items in order. */
  method TlvSpans(data: Bytes, start: nat, end: nat) returns (out: Option<seq<Span>>)
    requires start <= end <= |data|
    ensures out.None? <==> ParseTlvs(data[start..end]).None?
    ensures out.Some? ==> SpansIn(data, out.value) && ParseTlvs(data[start..end]) == Some(Values(data, out.value))
  {
    hide *;
    var spans: seq<Span> := [];
    var pos := start;
    NoValues(data);
    EmptyFront(ParseTlvs(data[start..end]));
    while pos < end
      invariant start <= pos <= end && SpansIn(data, spans)
      invariant ParseTlvs(data[start..end]) == Prepend(Values(data, spans), ParseTlvs(data[pos..end]))
    {
      AreaStep(data, pos, end);
      PrependSome(Values(data, spans), ParseTlvs(data[pos..end]));
      if pos + 4 > end {
        return None;
      }
      var t, ln := U16(data, pos), U16(data, pos + 2);
      pos := pos + 4;
      if pos + ln > end {
        return None;
      }
      SpanFits(data, t, pos, ln);
      ValuesSnoc(data, spans, Span(t, pos, ln));
      AssocOption(Values(data, spans), [SpanTlv(data, Span(t, pos, ln))], ParseTlvs(data[pos + ln..end]));
      spans := spans + [Span(t, pos, ln)];
      pos := pos + ln;
    }
    assert data[pos..end] == [];
    ParseNothing();
    PrependSome(Values(data, spans), ParseTlvs([]));
    assert Values(data, spans) + [] == Values(data, spans);
    out := Some(spans);
  }

  lemma NoValues(data: Bytes)
    ensures SpansIn(data, []) && Values(data, []) == []
  {
  }

  lemma SpanFits(data: Bytes, t: nat, off: nat, len: nat)
    requires off + len <= |data| && len < 0x1_0000
    ensures var s := Span(t, off, len); SpanIn(data, s) && SpanTlv(data, s) == Tlv(t, At(data, off, len))
  {
  }

  /** The bounds walk over a header's items: only whether they parse. */
  method TlvsParse(data: Bytes, start: nat, end: nat) returns (ok: bool)
    requires start <= end <= |data|
    ensures ok <==> ParseTlvs(data[start..end]).Some?
  {
    var pos := start;
    while pos < end
      invariant start <= pos <= end
      invariant ParseTlvs(data[start..end]).Some? <==> ParseTlvs(data[pos..end]).Some?
    {
      hide ParseTlvs, U16;
      AreaStep(data, pos, end);
      if pos + 4 > end {
        return false;
      }
      var ln := U16(data, pos + 2);
      pos := pos + 4 + ln;
      if pos > end {
        return false;
      }
    }
    assert data[pos..end] == [];
    ok := true;
  }

  ghost predicate HasTag(ts: seq<Tlv>, tag: nat) {
    exists i :: 0 <= i < |ts| && ts[i].tag == tag
  }

  /** `has_tlv_at`: meaningful for an area that parses. */
  method HasTlv(data: Bytes, start: nat, end: nat, tag: nat) returns (found: bool)
    requires start <= end <= |data| && ParseTlvs(data[start..end]).Some?
    ensures found <==> HasTag(ParseTlvs(data[start..end]).value, tag)
  {
    hide *;
    var pos := start;
    ghost var front: seq<Tlv> := [];
    EmptyFront(ParseTlvs(data[start..end]));
    NoTags(tag);
    while pos + 4 <= end
      invariant start <= pos <= end && !HasTag(front, tag)
      invariant ParseTlvs(data[start..end]) == Prepend(front, ParseTlvs(data[pos..end]))
      decreases end - pos
    {
      PrependSome(front, ParseTlvs(data[pos..end]));
      AreaStep(data, pos, end);
      AreaFits(data, pos, end);
      var t, ln := U16(data, pos), U16(data, pos + 2);
      ghost var x := Tlv(t, At(data, pos + 4, ln));
      ghost var more := ParseTlvs(data[pos + 4 + ln..end]);
      AssocOption(front, [x], more);
      PrependSome([x], more);
      PrependSome(front + [x], more);
      if t == tag {
        TagFound(front, x, more.value, tag);
        return true;
      }
      NotTag(front, x, tag);
      front := front + [x];
      pos := pos + 4 + ln;
    }
    PrependSome(front, ParseTlvs(data[pos..end]));
    AreaFits(data, pos, end);
    assert data[pos..end] == [];
    ParseNothing();
    assert front + [] == front;
    found := false;
  }

  lemma ParseNothing()
    ensures ParseTlvs([]) == Some([])
  {
  }

  lemma NoTags(tag: nat)
    ensures !HasTag([], tag)
  {
  }

  lemma PrependSome(front: seq<Tlv>, r: Option<seq<Tlv>>)
    ensures Prepend(front, r) == if r.None? then None else Some(front + r.value)
  {
  }

  lemma TagFound(front: seq<Tlv>, x: Tlv, more: seq<Tlv>, tag: nat)
    requires x.tag == tag
    ensures HasTag(front + [x] + more, tag)
  {
    assert (front + [x] + more)[|front|] == x;
  }

  lemma NotTag(front: seq<Tlv>, x: Tlv, tag: nat)
    requires !HasTag(front, tag) && x.tag != tag
    ensures !HasTag(front + [x], tag)
  {
  }

  // ---------- a record inside its container ----------

  /** Where a record lies: offset, header length, body length. */
  predicate InFile(data: Bytes, off: nat, hlen: nat, blen: nat, r: Rec) {
    && off + hlen + blen <= |data| && hlen >= FIXED_LEN && RecOk(r)
    && At(data, off, hlen) == r.hb && At(data, off + hlen, blen) == r.body
  }

  datatype HeaderFields = HeaderFields(recordType: nat, timeTrust: nat, seqNo: nat, bootId: Bytes, spanId: Bytes,
                                       parentSpanId: Bytes)

  function FieldsOf(h: Header): HeaderFields {
    HeaderFields(h.recordType, h.timeTrust, h.seqNo, h.bootId, h.spanId, h.parentSpanId)
  }

  lemma FieldInPlace(data: Bytes, off: nat, hlen: nat, o: nat, n: nat)
    requires off + hlen <= |data| && o + n <= hlen
    ensures At(At(data, off, hlen), o, n) == At(data, off + o, n)
  {
    SliceOfSlice(data, off, off + hlen, o, n);
  }

  /** `fields_at`: accepts exactly the headers the decoder accepts, with the same fields. */
  method FieldsAt(data: Bytes, off: nat, hlen: nat, ghost r: Rec) returns (f: Option<HeaderFields>)
    requires off + hlen <= |data| && hlen >= FIXED_LEN && At(data, off, hlen) == r.hb
    ensures f.None? <==> Decode(r.hb).None?
    ensures f.Some? ==> f.value == FieldsOf(Decode(r.hb).value)
  {
    hide ParseTlvs, UnLe;
    FieldInPlace(data, off, hlen, 0, 4);
    FieldInPlace(data, off, hlen, 4, 2);
    FieldInPlace(data, off, hlen, 6, 2);
    FieldInPlace(data, off, hlen, 8, 2);
    FieldInPlace(data, off, hlen, 12, 8);
    FieldInPlace(data, off, hlen, 20, 16);
    FieldInPlace(data, off, hlen, 68, 16);
    FieldInPlace(data, off, hlen, 84, 16);
    assert data[off + FIXED_LEN..off + hlen] == r.hb[FIXED_LEN..];
    if At(data, off, 4) != MAGIC || U16(data, off + 6) != hlen || U16(data, off + 4) != FORMAT_VERSION {
      return None;
    }
    var ok := TlvsParse(data, off + FIXED_LEN, off + hlen);
    if !ok {
      return None;
    }
    f := Some(HeaderFields(U16(data, off + 8), data[off + 11], U64(data, off + 12), At(data, off + 20, 16),
                           At(data, off + 68, 16), At(data, off + 84, 16)));
  }

  /** `header_tlv_spans_at`, relative to the record's start. */
  method HeaderSpans(data: Bytes, off: nat, hlen: nat, ghost r: Rec) returns (out: Option<seq<Span>>)
    requires off + hlen <= |data| && hlen >= FIXED_LEN && At(data, off, hlen) == r.hb
    ensures out.None? <==> Decode(r.hb).None?
    ensures out.Some? ==> SpansIn(r.hb, out.value) && Decode(r.hb).value.tlvs == Values(r.hb, out.value)
  {
    hide ParseTlvs, UnLe;
    var f := FieldsAt(data, off, hlen, r);
    if f.None? {
      return None;
    }
    assert data[off + FIXED_LEN..off + hlen] == r.hb[FIXED_LEN..];
    var hb := At(data, off, hlen);
    assert hb[FIXED_LEN..hlen] == r.hb[FIXED_LEN..];
    out := TlvSpans(hb, FIXED_LEN, hlen);
  }

  // ---------- a record's fields in place ----------

  datatype RecordFields = RecordFields(kind: Option<nat>, source: Option<nat>, outcome: Option<nat>,
                                       detail: Option<Bytes>)

  const NO_FIELDS := RecordFields(None, None, None, None)

  /** The loop over the body's spans: `decode_record`'s rules, tag by tag. */
  method GatherInPlace(data: Bytes, spans: seq<Span>, wantDetail: bool)
      returns (kind: Option<nat>, source: Option<nat>, outcome: Option<nat>, detail: Option<Bytes>)
    requires SpansIn(data, spans)
    ensures var ts := Values(data, spans);
      && kind == FirstNum(ts, EVT_KIND) && source == FirstNum(ts, EVT_SOURCE) && outcome == FirstNum(ts, EVT_OUTCOME)
      && detail == if wantDetail then FirstVal(ts, EVT_DETAIL, 0, ANY) else None
  {
    kind, source, outcome, detail := None, None, None, None;
    ghost var ts := Values(data, spans);
    for i := 0 to |spans|
      invariant kind == FirstNum(ts[..i], EVT_KIND) && source == FirstNum(ts[..i], EVT_SOURCE)
      invariant outcome == FirstNum(ts[..i], EVT_OUTCOME)
      invariant detail == if wantDetail then FirstVal(ts[..i], EVT_DETAIL, 0, ANY) else None
    {
      hide FirstVal, FirstNum;
      var s := spans[i];
      assert SpanIn(data, s);
      FirstValSnoc(ts[..i], ts[i], EVT_DETAIL, 0, ANY);
      NumSnoc(ts[..i], ts[i], EVT_KIND);
      NumSnoc(ts[..i], ts[i], EVT_SOURCE);
      NumSnoc(ts[..i], ts[i], EVT_OUTCOME);
      assert ts[..i] + [ts[i]] == ts[..i + 1];
      NumInPlace(data, s);
      if kind.None? && s.tag == EVT_KIND && s.len >= 2 {
        kind := Some(U16(data, s.off));
      } else if wantDetail && detail.None? && s.tag == EVT_DETAIL {
        detail := Some(At(data, s.off, s.len));
      } else if source.None? && s.tag == EVT_SOURCE && s.len >= 2 {
        source := Some(U16(data, s.off));
      } else if outcome.None? && s.tag == EVT_OUTCOME && s.len >= 2 {
        outcome := Some(U16(data, s.off));
      }
    }
    assert ts[..|spans|] == ts;
  }

  lemma NumInPlace(data: Bytes, s: Span)
    requires SpanIn(data, s)
    ensures s.len >= 2 ==> U16(At(data, s.off, s.len), 0) == U16(data, s.off)
  {
    if s.len >= 2 {
      assert At(At(data, s.off, s.len), 0, 2) == At(data, s.off, 2);
    }
  }

  /** `_fields_in_place`: the fields the full decode gives, and its body items or None. */
  method FieldsInPlace(sha: Sha, data: Bytes, off: nat, hlen: nat, blen: nat, wantDetail: bool, ghost r: Rec)
      returns (fields: RecordFields, spans: Option<seq<Span>>)
    requires InFile(data, off, hlen, blen, r)
    ensures var d := DecodeRecord(sha, r);
      && fields == RecordFields(d.kind, d.source, d.outcome, if wantDetail then d.detail else None)
      && (spans.None? <==> d.bodyTlvs.None?)
      && (spans.Some? ==> SpansIn(data, spans.value) && d.bodyTlvs == Some(Values(data, spans.value)))
  {
    hide ParseTlvs, UnLe, FirstVal, FirstNum, Decode, Values;
    var hf := FieldsAt(data, off, hlen, r);
    KeyInPlace(data, off, hlen, r.hb);
    if hf.None? || U32(data, off + 116) != 0 || blen == 0 {
      return NO_FIELDS, None;
    }
    assert data[off + hlen..off + hlen + blen] == r.body;
    spans := TlvSpans(data, off + hlen, off + hlen + blen);
    if spans.None? || !KindBearing(hf.value.recordType) {
      return NO_FIELDS, spans;
    }
    var kind, source, outcome, detail := GatherInPlace(data, spans.value, wantDetail);
    if (kind == Some(KIND_TOOL_CALL) || kind == Some(KIND_TOOL_RESULT)) && source.None? {
      source := Some(SOURCE_PARSED_FROM_WIRE);
    }
    if kind != Some(KIND_TOOL_RESULT) {
      outcome := None;
    }
    fields := RecordFields(kind, source, outcome, detail);
  }

  lemma KeyInPlace(data: Bytes, off: nat, hlen: nat, hb: Bytes)
    requires off + hlen <= |data| && hlen >= FIXED_LEN && At(data, off, hlen) == hb
    ensures off + 120 <= |data| && U32(data, off + 116) == U32(hb, 116)
    ensures Decode(hb).Some? ==> Decode(hb).value.keyId == U32(hb, 116) && Decode(hb).value.recordType == U16(hb, 8)
    ensures U16(data, off + 8) == U16(hb, 8) && U64(data, off + 12) == U64(hb, 12)
    ensures Decode(hb).Some? ==>
      Decode(hb).value.seqNo == U64(hb, 12) && Decode(hb).value.bootId == At(data, off + 20, 16)
  {
    hide UnLe, ParseTlvs;
    FieldInPlace(data, off, hlen, 116, 4);
    FieldInPlace(data, off, hlen, 8, 2);
    FieldInPlace(data, off, hlen, 12, 8);
    FieldInPlace(data, off, hlen, 20, 16);
  }

  // ---------- the kind probe ----------

  /** A cleartext event or safety body whose first item is a fitting EVT_KIND. */
  predicate OpensWithKind(r: Rec)
    requires RecOk(r)
  {
    && KindBearing(U16(r.hb, 8)) && U32(r.hb, 116) == 0 && |r.body| >= 6
    && U16(r.body, 0) == EVT_KIND && U16(r.body, 2) >= 2 && 4 + U16(r.body, 2) <= |r.body|
  }

  /** What the probe of a cold reader answers. */
  function Probe(sha: Sha, r: Rec): Option<nat>
    requires RecOk(r)
  {
    if OpensWithKind(r) then Some(U16(r.body, 4)) else DecodeRecord(sha, r).kind
  }

  /** A body too short for one EVT_KIND item has no kind. */
  lemma {:induction false} ShortHasNoKind(body: Bytes, ts: seq<Tlv>)
    requires |body| < 6 && ParseTlvs(body) == Some(ts)
    ensures FirstNum(ts, EVT_KIND).None?
    decreases |body|
  {
    if body != [] {
      var x := FirstTlv(body).value;
      ShortHasNoKind(body[4 + |x.val|..], ts[1..]);
      hide ParseTlvs, U16;
    }
  }

  lemma OpeningKind(r: Rec, ts: seq<Tlv>)
    requires RecOk(r) && OpensWithKind(r) && ParseTlvs(r.body) == Some(ts)
    ensures FirstNum(ts, EVT_KIND) == Some(U16(r.body, 4))
  {
    hide UnLe;
    var x := FirstTlv(r.body).value;
    assert At(x.val, 0, 2) == At(r.body, 4, 2);
  }

  /** The probe answers what the full decode answers, except exactly on a body that opens with its
      kind and then does not parse, or whose header does not decode. */
  lemma ProbeIsKind(sha: Sha, r: Rec)
    requires RecOk(r)
    ensures Probe(sha, r) == DecodeRecord(sha, r).kind <==>
      !(OpensWithKind(r) && (Decode(r.hb).None? || ParseTlvs(r.body).None?))
  {
    hide UnLe, ParseTlvs;
    if OpensWithKind(r) {
      var h := Decode(r.hb);
      if h.Some? && ParseTlvs(r.body).Some? {
        OpeningKind(r, ParseTlvs(r.body).value);
      }
    }
  }

  /** `_kind_probe` on a cold reader. */
  method KindProbe(sha: Sha, data: Bytes, off: nat, hlen: nat, blen: nat, r: Rec) returns (kind: Option<nat>)
    requires InFile(data, off, hlen, blen, r)
    ensures kind == Probe(sha, r)
  {
    hide UnLe, ParseTlvs, Decode, FirstVal;
    KeyInPlace(data, off, hlen, r.hb);
    ProbeNone(sha, r);
    if !KindBearing(U16(data, off + 8)) {
      return None;
    }
    var start, end := off + hlen, off + hlen + blen;
    if U32(data, off + 116) != 0 || end - start < 6 {
      return None;
    }
    FieldInPlace(data, start, blen, 0, 2);
    FieldInPlace(data, start, blen, 2, 2);
    FieldInPlace(data, start, blen, 4, 2);
    var t, ln := U16(data, start), U16(data, start + 2);
    if t == EVT_KIND && ln >= 2 && start + 4 + ln <= end {
      return Some(U16(data, start + 4));
    }
    var d := DecodeFully(sha, r);
    kind := d.kind;
  }

  /** Where the probe answers None without decoding, so does the decode. */
  lemma ProbeNone(sha: Sha, r: Rec)
    requires RecOk(r)
    ensures !KindBearing(U16(r.hb, 8)) || U32(r.hb, 116) != 0 || |r.body| < 6 ==> Probe(sha, r).None?
  {
    hide UnLe;
    if |r.body| < 6 && ParseTlvs(r.body).Some? {
      ShortHasNoKind(r.body, ParseTlvs(r.body).value);
    }
    hide ParseTlvs, FirstVal;
  }
}
