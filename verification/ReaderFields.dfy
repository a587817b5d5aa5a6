/** What a decoded record says: every field in terms of the header and the items of the body. */
module ReaderFields {
  import opened Bytes
  import opened Codec
  import opened Profile
  import opened Reader
  import ReaderSegments

  /** The two bytes a numeric item starts with. */
  ghost predicate FirstNumIs(ts: seq<Tlv>, tag: nat, n: Option<nat>) {
    exists v :: IsFirst(ts, tag, 2, ANY, v) && (v.None? <==> n.None?)
                && (v.Some? && |v.value| >= 2 ==> n == Some(v.value[0] as nat + 256 * (v.value[1] as nat)))
  }

  /** The items of a body that is there, in the clear and well-formed. */
  ghost predicate ItemsOf(h: Header, body: Bytes, ts: Option<seq<Tlv>>) {
    ts == if h.keyId == 0 && |body| > 0 then ParseTlvs(body) else None
  }

  /** An outcome is shown of a tool result only. */
  ghost predicate OutcomeShown(ts: seq<Tlv>, kind: Option<nat>, outcome: Option<nat>) {
    if kind == Some(KIND_TOOL_RESULT) then FirstNumIs(ts, EVT_OUTCOME, outcome) else outcome.None?
  }

  /** A tool call or result without a source was parsed from the wire, which is source 0. */
  ghost predicate SourceShown(ts: seq<Tlv>, kind: Option<nat>, source: Option<nat>) {
    if (kind == Some(KIND_TOOL_CALL) || kind == Some(KIND_TOOL_RESULT)) && FirstNumIs(ts, EVT_SOURCE, None)
    then source == Some(0) else FirstNumIs(ts, EVT_SOURCE, source)
  }

  ghost predicate NoFields(d: Decoded) {
    d.kind.None? && d.detail.None? && d.operatorId.None? && d.disposition.None? && d.source.None? && d.outcome.None?
  }

  /** What `d` shows is what the record `r` holds. */
  ghost predicate Shows(sha: Sha, r: Rec, d: Decoded)
    requires RecOk(r)
  {
    && d.recordHash == sha(r.hb) && d.seqNo == U64(r.hb, 12) && d.recordType == U16(r.hb, 8)
    && d.header == Decode(r.hb)
    && (d.header.None? ==> d.bodyTlvs.None?)
    && (d.header.Some? ==> ItemsOf(d.header.value, r.body, d.bodyTlvs))
    && if d.bodyTlvs.Some? && (d.recordType == RT_EVENT || d.recordType == RT_SAFETY) then
         var ts := d.bodyTlvs.value;
         && FirstNumIs(ts, EVT_KIND, d.kind) && IsFirst(ts, EVT_DETAIL, 0, ANY, d.detail)
         && IsFirst(ts, EVT_OPERATOR_ID, 16, 16, d.operatorId) && FirstNumIs(ts, EVT_DISPOSITION, d.disposition)
         && SourceShown(ts, d.kind, d.source) && OutcomeShown(ts, d.kind, d.outcome)
       else NoFields(d)
  }

  lemma NumIs(ts: seq<Tlv>, tag: nat)
    ensures FirstNumIs(ts, tag, FirstNum(ts, tag))
  {
    var v := FirstVal(ts, tag, 2, ANY);
    FirstValIs(ts, tag, 2, ANY);
    if v.Some? {
      TwoBytes(v.value);
    }
    hide FirstVal, IsFirst, U16;
    assert IsFirst(ts, tag, 2, ANY, v);
  }

  lemma TwoBytes(v: Bytes)
    requires |v| >= 2
    ensures U16(v, 0) == v[0] as nat + 256 * (v[1] as nat)
  {
    var s := At(v, 0, 2);
    assert s == [v[0], v[1]] && s[1..] == [v[1]] && s[1..][1..] == [];
    assert UnLe(s[1..]) == v[1];
  }

  /** None is the number of a tag exactly when it has none. */
  lemma NumIsOne(ts: seq<Tlv>, tag: nat)
    ensures FirstNumIs(ts, tag, None) <==> FirstNum(ts, tag).None?
  {
    NumIs(ts, tag);
    if FirstNumIs(ts, tag, None) {
      var v :| IsFirst(ts, tag, 2, ANY, v) && v.None?;
      FirstValIs(ts, tag, 2, ANY);
      FirstIsOne(ts, tag, 2, ANY, v, FirstVal(ts, tag, 2, ANY));
    }
  }

  lemma DecodePlaces(r: Rec)
    requires RecOk(r)
    ensures Decode(r.hb).Some? ==>
      Decode(r.hb).value.seqNo == U64(r.hb, 12) && Decode(r.hb).value.recordType == U16(r.hb, 8)
  {
    hide ParseTlvs, UnLe;
  }

  /** Every field of the full decode, on every record. */
  lemma DecodedShows(sha: Sha, r: Rec)
    requires RecOk(r)
    ensures Shows(sha, r, DecodeRecord(sha, r))
  {
    DecodePlaces(r);
    hide Decode, ParseTlvs, FirstVal, FirstNum, IsFirst, FirstNumIs, U16, U64, SourceFor, OutcomeFor, SourceShown,
      OutcomeShown;
    var d := DecodeRecord(sha, r);
    if d.bodyTlvs.Some? {
      FieldsShow(d.bodyTlvs.value);
    }
  }

  lemma FieldsShow(ts: seq<Tlv>)
    ensures FirstNumIs(ts, EVT_KIND, FirstNum(ts, EVT_KIND))
    ensures FirstNumIs(ts, EVT_DISPOSITION, FirstNum(ts, EVT_DISPOSITION))
    ensures IsFirst(ts, EVT_DETAIL, 0, ANY, FirstVal(ts, EVT_DETAIL, 0, ANY))
    ensures IsFirst(ts, EVT_OPERATOR_ID, 16, 16, FirstVal(ts, EVT_OPERATOR_ID, 16, 16))
    ensures forall kind :: SourceShown(ts, kind, SourceFor(kind, FirstNum(ts, EVT_SOURCE)))
    ensures forall kind :: OutcomeShown(ts, kind, OutcomeFor(kind, FirstNum(ts, EVT_OUTCOME)))
  {
    hide FirstVal, FirstNum, IsFirst, FirstNumIs;
    NumIs(ts, EVT_KIND);
    NumIs(ts, EVT_DISPOSITION);
    NumIs(ts, EVT_SOURCE);
    NumIs(ts, EVT_OUTCOME);
    NumIsOne(ts, EVT_SOURCE);
    FirstValIs(ts, EVT_DETAIL, 0, ANY);
    FirstValIs(ts, EVT_OPERATOR_ID, 16, 16);
  }

  // ---------- a continuation ----------

  /** The first item of a tag has exactly this width and value. */
  ghost predicate Carries(ts: seq<Tlv>, tag: nat, width: nat, v: Bytes) {
    IsFirst(ts, tag, 0, ANY, Some(v)) && |v| == width
  }

  /** The items declare what the view holds, at the widths of the profile. */
  ghost predicate Declares(ts: seq<Tlv>, v: ReaderSegments.ContinuationView) {
    && Carries(ts, SEG_PREDECESSOR_HEAD, 32, v.predecessor) && Carries(ts, SEG_PRIOR_ROOT, 32, v.priorRoot)
    && (exists x :: Carries(ts, SEG_INDEX, 4, x) && v.index == UnLe(x))
    && exists x :: Carries(ts, SEG_RETENTION_S, 8, x) && v.retentionS == UnLe(x)
  }

  /** A view is the one its items declare, and there is none exactly when they declare none. */
  lemma ContinuationDeclares(d: Decoded, v: ReaderSegments.ContinuationView)
    ensures ReaderSegments.DecodeContinuation(d) == Some(v) <==>
      && d.kind == Some(KIND_SEGMENT_CONTINUATION) && d.bodyTlvs.Some? && v.seqNo == d.seqNo
      && Declares(d.bodyTlvs.value, v)
  {
    if d.bodyTlvs.Some? {
      var ts := d.bodyTlvs.value;
      TagIs(ts, SEG_PREDECESSOR_HEAD, 32);
      TagIs(ts, SEG_INDEX, 4);
      TagIs(ts, SEG_RETENTION_S, 8);
      TagIs(ts, SEG_PRIOR_ROOT, 32);
      WholeNumbers();
      hide IsFirst, Carries, ReaderSegments.Tag, U32, U64, UnLe, At;
    }
  }

  lemma TagIs(ts: seq<Tlv>, tag: nat, width: nat)
    ensures forall v :: ReaderSegments.Tag(ts, tag, width) == Some(v) <==> Carries(ts, tag, width, v)
  {
    var v := FirstVal(ts, tag, 0, ANY);
    FirstValIs(ts, tag, 0, ANY);
    forall w ensures ReaderSegments.Tag(ts, tag, width) == Some(w) <==> Carries(ts, tag, width, w) {
      if Carries(ts, tag, width, w) {
        FirstIsOne(ts, tag, 0, ANY, v, Some(w));
      }
    }
  }

  lemma WholeNumbers()
    ensures forall x: Bytes :: |x| == 4 ==> U32(x, 0) == UnLe(x)
    ensures forall x: Bytes :: |x| == 8 ==> U64(x, 0) == UnLe(x)
  {
    forall x: Bytes | |x| == 4 ensures U32(x, 0) == UnLe(x) {
      assert At(x, 0, 4) == x;
    }
    forall x: Bytes | |x| == 8 ensures U64(x, 0) == UnLe(x) {
      assert At(x, 0, 8) == x;
    }
  }
}
