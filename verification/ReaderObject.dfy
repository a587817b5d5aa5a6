/** The reader as the object it is: arrays, caches, questions. */
module ReaderObject {
  /* One walk fills three arrays; caches are filled on demand; the questions are answered from bytes
     in place. */

  import opened Bytes
  import opened Codec
  import opened Profile
  import opened Reader

  // ---------- the walk ----------

  ghost predicate Indexes(data: Bytes, off: seq<nat>, hlen: seq<nat>, blen: seq<nat>, rs: seq<Rec>) {
    && |off| == |hlen| == |blen| == |rs|
    && forall i :: 0 <= i < |rs| ==> InFile(data, off[i], hlen[i], blen[i], rs[i])
  }

  /** `_HeaderSeq`: record headers as positions in the container, sliced on access. */
  class HeaderSeq {
    const data: Bytes
    var off: seq<nat>
    var hlen: seq<nat>
    var blen: seq<nat>

    constructor (data: Bytes)
      ensures this.data == data && off == [] && hlen == [] && blen == []
    {
      this.data := data;
      off, hlen, blen := [], [], [];
    }

    method AppendSpan(o: nat, h: nat, b: nat)
      modifies this
      ensures off == old(off) + [o] && hlen == old(hlen) + [h] && blen == old(blen) + [b]
    {
      off, hlen, blen := off + [o], hlen + [h], blen + [b];
    }

    ghost predicate Over(rs: seq<Rec>) reads this { Indexes(data, off, hlen, blen, rs) }

    method HeaderAt(i: nat, ghost rs: seq<Rec>) returns (hb: Bytes)
      requires Over(rs) && i < |rs|
      ensures hb == rs[i].hb
    {
      assert InFile(data, off[i], hlen[i], blen[i], rs[i]);
      hb := At(data, off[i], hlen[i]);
    }

    method SeqAt(i: nat, ghost rs: seq<Rec>) returns (n: nat)
      requires Over(rs) && i < |rs|
      ensures n == SeqIn(rs[i])
    {
      assert InFile(data, off[i], hlen[i], blen[i], rs[i]);
      KeyInPlace(data, off[i], hlen[i], rs[i].hb);
      n := U64(data, off[i] + 12);
    }
  }

  /** The seq a header carries at its fixed offset, decodable or not. */
  function SeqIn(r: Rec): nat
    requires RecOk(r)
  {
    U64(r.hb, 12)
  }

  /** What the walk knows at offset `at`: the records before it are indexed, the rest is still ahead. */
  ghost predicate Walked(data: Bytes, h: HeaderSeq, rs: seq<Rec>, at: nat)
    reads h
  {
    && at <= |data| && RecsOk(rs) && h.data == data && h.Over(rs)
    && Walk(data) == (rs + Walk(data[at..]).0, Walk(data[at..]).1)
  }

  lemma WalkFrom(data: Bytes, at: nat, r: Rec, rs: seq<Rec>)
    requires at < |data| && FirstRec(data[at..]) == Some(r)
    requires Walk(data) == (rs + Walk(data[at..]).0, Walk(data[at..]).1)
    ensures var next := at + |r.hb| + |r.body|;
      next <= |data| && Walk(data) == (rs + [r] + Walk(data[next..]).0, Walk(data[next..]).1)
  {
    var next := at + |r.hb| + |r.body|;
    assert data[at..][|r.hb| + |r.body|..] == data[next..];
    WalkStep(data[at..], r, data[next..]);
    Assoc(rs, [r], Walk(data[next..]).0);
  }

  lemma WalkStops(data: Bytes, at: nat, rs: seq<Rec>)
    requires at <= |data| && (at == |data| || FirstRec(data[at..]).None?)
    requires Walk(data) == (rs + Walk(data[at..]).0, Walk(data[at..]).1)
    ensures Walk(data) == (rs, data[at..])
  {
    assert rs + [] == rs;
  }

  lemma IndexesSnoc(data: Bytes, off: seq<nat>, hlen: seq<nat>, blen: seq<nat>, rs: seq<Rec>, o: nat, h: nat, b: nat,
                    r: Rec)
    requires Indexes(data, off, hlen, blen, rs) && InFile(data, o, h, b, r)
    ensures Indexes(data, off + [o], hlen + [h], blen + [b], rs + [r])
  {
  }

  /** The lengths of the record at an offset; None is a cut header, a wrong magic, a short header
      length or a cut record. */
  method LengthsAt(data: Bytes, off: nat) returns (s: Option<(nat, nat)>)
    requires off <= |data|
    ensures s.None? <==> FirstRec(data[off..]).None?
    ensures s.Some? ==>
      FirstRec(data[off..]).Some? && InFile(data, off, s.value.0, s.value.1, FirstRec(data[off..]).value)
  {
    RecInPlace(data, off);
    if off + FIXED_LEN > |data| || At(data, off, 4) != MAGIC {
      return None;
    }
    var hlen := U16(data, off + 6);
    if hlen < FIXED_LEN {
      return None;
    }
    var blen := U32(data, off + 120);
    if off + hlen + blen > |data| {
      return None;
    }
    s := Some((hlen, blen));
  }

  lemma WalkedStart(data: Bytes, h: HeaderSeq)
    requires h.data == data && h.off == [] && h.hlen == [] && h.blen == []
    ensures Walked(data, h, [], 0)
  {
    assert data[0..] == data;
    assert [] + Walk(data).0 == Walk(data).0;
  }

  /** One more record indexed. */
  method IndexOne(data: Bytes, h: HeaderSeq, ghost rs: seq<Rec>, off: nat, lengths: (nat, nat), ghost r: Rec)
    requires Walked(data, h, rs, off) && off < |data| && FirstRec(data[off..]) == Some(r)
    requires InFile(data, off, lengths.0, lengths.1, r)
    modifies h
    ensures Walked(data, h, rs + [r], off + lengths.0 + lengths.1)
  {
    hide Walk, FirstRec, U16, U32;
    WalkFrom(data, off, r, rs);
    IndexesSnoc(data, h.off, h.hlen, h.blen, rs, off, lengths.0, lengths.1, r);
    h.AppendSpan(off, lengths.0, lengths.1);
  }

  lemma WalkedDone(data: Bytes, h: HeaderSeq, rs: seq<Rec>, at: nat)
    requires Walked(data, h, rs, at) && (at == |data| || FirstRec(data[at..]).None?)
    ensures Walk(data) == (rs, data[at..]) && h.Over(Walk(data).0) && h.data == data && at <= |data|
  {
    WalkStops(data, at, rs);
  }

  lemma InFileParts(data: Bytes, off: nat, hlen: nat, blen: nat, r: Rec)
    requires InFile(data, off, hlen, blen, r)
    ensures off + hlen + blen <= |data| && hlen > 0
  {
  }

  /** `_walk`: the same records as the writer's resume scan, and where and whether it stopped early. */
  method WalkContainerInPlace(data: Bytes) returns (h: HeaderSeq, truncatedAt: Option<nat>)
    ensures fresh(h) && h.data == data && h.Over(Walk(data).0)
    ensures truncatedAt.None? <==> Walk(data).1 == []
    ensures truncatedAt.Some? ==> truncatedAt.value <= |data| && data[truncatedAt.value..] == Walk(data).1
  {
    hide *;
    h := new HeaderSeq(data);
    truncatedAt := None;
    var off := 0;
    ghost var rs: seq<Rec> := [];
    WalkedStart(data, h);
    while off < |data|
      invariant 0 <= off <= |data|
      invariant fresh(h) && Walked(data, h, rs, off)
      decreases |data| - off
    {
      var lengths := LengthsAt(data, off);
      if lengths.None? {
        WalkedDone(data, h, rs, off);
        truncatedAt := Some(off);
        return;
      }
      ghost var r := FirstRec(data[off..]).value;
      InFileParts(data, off, lengths.value.0, lengths.value.1, r);
      IndexOne(data, h, rs, off, lengths.value, r);
      rs := rs + [r];
      off := off + lengths.value.0 + lengths.value.1;
    }
    WalkedDone(data, h, rs, off);
  }

  // ---------- references ----------

  /** The seq map: each seq's last position. */
  ghost predicate PosOf(rs: seq<Rec>, pos: map<nat, nat>)
    requires RecsOk(rs)
  {
    && (forall i :: 0 <= i < |rs| ==> SeqIn(rs[i]) in pos && pos[SeqIn(rs[i])] >= i)
    && (forall q :: q in pos ==> pos[q] < |rs| && SeqIn(rs[pos[q]]) == q)
  }

  datatype Code = ReferenceUnresolved | ReferenceHashMismatch | AckTargetNotACandidate | ToolTargetNotACall

  datatype Item = Item(code: Code, atSeq: nat, bootId: Option<Bytes>, who: Option<nat>, refSeq: nat)

  function ReferenceVerdict(kind: Option<nat>, targetKind: Option<nat>): Option<Code> {
    if kind == Some(KIND_OVERSIGHT_ACK) && targetKind != Some(KIND_INCIDENT_CANDIDATE) then Some(AckTargetNotACandidate)
    else if (kind == Some(KIND_TOOL_RESULT) || kind == Some(KIND_GUARD_TOOL_LOOP_LIMIT))
      && targetKind != Some(KIND_TOOL_CALL)
    then Some(ToolTargetNotACall)
    else None
  }

  /** The reference a body binds: the last EVT_REF_SEQ of eight bytes and the last EVT_REF_HASH. */
  function BoundReference(ts: seq<Tlv>): Option<(nat, Bytes)> {
    var rawSeq, rawHash := LastVal(ts, EVT_REF_SEQ), LastVal(ts, EVT_REF_HASH);
    if rawSeq.None? || |rawSeq.value| != 8 || rawHash.None? then None else Some((U64(rawSeq.value, 0), rawHash.value))
  }

  /** `_check_reference`, on decoded records. */
  function CheckReference(sha: Sha, rs: seq<Rec>, pos: map<nat, nat>, i: nat): seq<Item>
    requires RecsOk(rs) && i < |rs| && (forall q :: q in pos ==> pos[q] < |rs|)
  {
    var d := DecodeRecord(sha, rs[i]);
    var bound := BoundReference(if d.bodyTlvs.Some? then d.bodyTlvs.value else []);
    if bound.None? then []
    else
      var (refSeq, refHash) := bound.value;
      var boot := if d.header.Some? then Some(d.header.value.bootId) else None;
      if refSeq !in pos then [Item(ReferenceUnresolved, d.seqNo, boot, d.kind, refSeq)]
      else
        var target := DecodeRecord(sha, rs[pos[refSeq]]);
        if target.recordHash != refHash then [Item(ReferenceHashMismatch, d.seqNo, boot, d.kind, refSeq)]
        else
          var v := ReferenceVerdict(d.kind, target.kind);
          if v.None? then [] else [Item(v.value, d.seqNo, boot, d.kind, refSeq)]
  }

  /** The items bind a reference: the last EVT_REF_SEQ has eight bytes, and there is an EVT_REF_HASH. */
  ghost predicate Binds(ts: seq<Tlv>, refSeq: nat, refHash: Bytes) {
    && IsLast(ts, EVT_REF_HASH, Some(refHash))
    && exists raw :: IsLast(ts, EVT_REF_SEQ, Some(raw)) && |raw| == 8 && refSeq == UnLe(raw)
  }

  /** Record `t` is the last with this seq. */
  ghost predicate LastWithSeq(rs: seq<Rec>, q: nat, t: nat)
    requires RecsOk(rs)
  {
    t < |rs| && U64(rs[t].hb, 12) == q && forall k :: t < k < |rs| ==> U64(rs[k].hb, 12) != q
  }

  ghost predicate HasSeq(rs: seq<Rec>, q: nat)
    requires RecsOk(rs)
  {
    exists t :: 0 <= t < |rs| && U64(rs[t].hb, 12) == q
  }

  /** The target is there, is the record that was bound, and is of kind `target`. */
  ghost predicate Resolves(sha: Sha, rs: seq<Rec>, refSeq: nat, refHash: Bytes, target: Option<nat>)
    requires RecsOk(rs)
  {
    exists t: nat ::
      LastWithSeq(rs, refSeq, t) && sha(rs[t].hb) == refHash && DecodeRecord(sha, rs[t]).kind == target
  }

  /** When a code is reported of a record of kind `kind` with this reference. */
  ghost predicate Applies(sha: Sha, rs: seq<Rec>, kind: Option<nat>, refSeq: nat, refHash: Bytes, code: Code)
    requires RecsOk(rs)
  {
    match code
    case ReferenceUnresolved => !HasSeq(rs, refSeq)
    case ReferenceHashMismatch => exists t: nat :: LastWithSeq(rs, refSeq, t) && sha(rs[t].hb) != refHash
    case AckTargetNotACandidate =>
      kind == Some(KIND_OVERSIGHT_ACK)
      && exists target :: Resolves(sha, rs, refSeq, refHash, target) && target != Some(KIND_INCIDENT_CANDIDATE)
    case ToolTargetNotACall =>
      (kind == Some(KIND_TOOL_RESULT) || kind == Some(KIND_GUARD_TOOL_LOOP_LIMIT))
      && exists target :: Resolves(sha, rs, refSeq, refHash, target) && target != Some(KIND_TOOL_CALL)
  }

  lemma BoundIs(ts: seq<Tlv>)
    ensures BoundReference(ts).Some? ==> Binds(ts, BoundReference(ts).value.0, BoundReference(ts).value.1)
    ensures forall q: nat, h :: Binds(ts, q, h) ==> BoundReference(ts) == Some((q, h))
  {
    LastValIs(ts, EVT_REF_SEQ);
    LastValIs(ts, EVT_REF_HASH);
    WholeWord();
    hide IsLast, LastVal, UnLe, U64;
    forall q: nat, h | Binds(ts, q, h) ensures BoundReference(ts) == Some((q, h)) {
      var raw :| IsLast(ts, EVT_REF_SEQ, Some(raw)) && |raw| == 8 && q == UnLe(raw);
      LastIsOne(ts, EVT_REF_SEQ, Some(raw), LastVal(ts, EVT_REF_SEQ));
      LastIsOne(ts, EVT_REF_HASH, Some(h), LastVal(ts, EVT_REF_HASH));
    }
  }

  lemma WholeWord()
    ensures forall raw: Bytes :: |raw| == 8 ==> U64(raw, 0) == UnLe(raw)
  {
    forall raw: Bytes | |raw| == 8 ensures U64(raw, 0) == UnLe(raw) {
      assert At(raw, 0, 8) == raw;
    }
  }

  /** What the reference check reports of a record: nothing when it binds no reference, else at most one
      item, of exactly the code that applies. */
  lemma ReferenceSays(sha: Sha, rs: seq<Rec>, pos: map<nat, nat>, i: nat)
    requires RecsOk(rs) && i < |rs| && PosOf(rs, pos)
    ensures RecOk(rs[i])
    ensures var (items, d) := (CheckReference(sha, rs, pos, i), DecodeRecord(sha, rs[i]));
      && |items| <= 1
      && (items != [] ==> d.bodyTlvs.Some? && exists q: nat, h :: Binds(d.bodyTlvs.value, q, h))
      && (d.bodyTlvs.Some? ==> forall q: nat, h :: Binds(d.bodyTlvs.value, q, h) ==> (
            && (forall code ::
                  items != [] && items[0].code == code <==> Applies(sha, rs, d.kind, q, h, code))
            && (items != [] ==>
                  && items[0].atSeq == U64(rs[i].hb, 12) && items[0].who == d.kind && items[0].refSeq == q
                  && d.header.Some? && items[0].bootId == Some(d.header.value.bootId))))
  {
    AllOk(rs, i);
    DecodedParts(sha, rs[i]);
    var d := DecodeRecord(sha, rs[i]);
    NoTlvsNoReference();
    if d.bodyTlvs.Some? {
      var ts := d.bodyTlvs.value;
      BoundIs(ts);
      if BoundReference(ts).Some? {
        VerdictApplies(sha, rs, pos, d.kind, BoundReference(ts).value.0, BoundReference(ts).value.1);
      }
    }
    hide DecodeRecord, Decode, BoundReference, Binds, Applies, PosOf, U64, ReferenceVerdict;
  }

  /** Of a bound reference, by its target. */
  lemma VerdictApplies(sha: Sha, rs: seq<Rec>, pos: map<nat, nat>, kind: Option<nat>, q: nat, h: Bytes)
    requires RecsOk(rs) && PosOf(rs, pos)
    ensures q in pos ==> pos[q] < |rs| && RecOk(rs[pos[q]])
    ensures forall code :: Applies(sha, rs, kind, q, h, code) <==> (
      if q !in pos then code == ReferenceUnresolved
      else if DecodeRecord(sha, rs[pos[q]]).recordHash != h then code == ReferenceHashMismatch
      else ReferenceVerdict(kind, DecodeRecord(sha, rs[pos[q]]).kind) == Some(code))
  {
    hide DecodeRecord;
    LastIsPos(rs, pos, q);
    if q in pos {
      AllOk(rs, pos[q]);
      DecodedParts(sha, rs[pos[q]]);
      var t := pos[q];
      forall target ensures Resolves(sha, rs, q, h, target) <==>
          sha(rs[t].hb) == h && DecodeRecord(sha, rs[t]).kind == target
      {
      }
      hide U64, PosOf, LastWithSeq, HasSeq;
      forall code ensures Applies(sha, rs, kind, q, h, code) <==>
        if DecodeRecord(sha, rs[t]).recordHash != h then code == ReferenceHashMismatch
        else ReferenceVerdict(kind, DecodeRecord(sha, rs[t]).kind) == Some(code)
      {
        CodeApplies(sha, rs, kind, q, h, code, t);
      }
    }
  }

  lemma CodeApplies(sha: Sha, rs: seq<Rec>, kind: Option<nat>, q: nat, h: Bytes, code: Code, t: nat)
    requires RecsOk(rs) && t < |rs| && HasSeq(rs, q) && forall k: nat :: LastWithSeq(rs, q, k) <==> k == t
    requires forall target ::
      Resolves(sha, rs, q, h, target) <==> sha(rs[t].hb) == h && DecodeRecord(sha, rs[t]).kind == target
    ensures Applies(sha, rs, kind, q, h, code) <==>
      if sha(rs[t].hb) != h then code == ReferenceHashMismatch
      else ReferenceVerdict(kind, DecodeRecord(sha, rs[t]).kind) == Some(code)
  {
    hide DecodeRecord, HasSeq, LastWithSeq, Resolves;
    var target := DecodeRecord(sha, rs[t]).kind;
    assert Resolves(sha, rs, q, h, target) <==> sha(rs[t].hb) == h;
    assert LastWithSeq(rs, q, t);
  }

  lemma LastIsPos(rs: seq<Rec>, pos: map<nat, nat>, q: nat)
    requires RecsOk(rs) && PosOf(rs, pos)
    ensures q in pos <==> HasSeq(rs, q)
    ensures q in pos ==> pos[q] < |rs| && forall k: nat :: LastWithSeq(rs, q, k) <==> k == pos[q]
    ensures q !in pos ==> forall k: nat :: !LastWithSeq(rs, q, k)
  {
    hide U64;
    if q in pos {
      assert SeqIn(rs[pos[q]]) == U64(rs[pos[q]].hb, 12);
      forall k | pos[q] < k < |rs| ensures U64(rs[k].hb, 12) != q {
        assert SeqIn(rs[k]) == U64(rs[k].hb, 12);
      }
    } else {
      forall k | 0 <= k < |rs| ensures U64(rs[k].hb, 12) != q {
        assert SeqIn(rs[k]) == U64(rs[k].hb, 12);
      }
    }
  }

  /** The last values of the two reference tags, from spans. */
  method LastSpans(data: Bytes, spans: seq<Span>) returns (rawSeq: Option<Bytes>, rawHash: Option<Bytes>)
    requires SpansIn(data, spans)
    ensures rawSeq == LastVal(Values(data, spans), EVT_REF_SEQ) && rawHash == LastVal(Values(data, spans), EVT_REF_HASH)
  {
    rawSeq, rawHash := None, None;
    ghost var ts := Values(data, spans);
    for i := 0 to |spans|
      invariant rawSeq == LastVal(ts[..i], EVT_REF_SEQ) && rawHash == LastVal(ts[..i], EVT_REF_HASH)
    {
      hide LastVal;
      var s := spans[i];
      assert SpanIn(data, s);
      LastValSnoc(ts[..i], ts[i], EVT_REF_SEQ);
      LastValSnoc(ts[..i], ts[i], EVT_REF_HASH);
      assert ts[..i] + [ts[i]] == ts[..i + 1];
      if s.tag == EVT_REF_SEQ {
        rawSeq := Some(At(data, s.off, s.len));
      } else if s.tag == EVT_REF_HASH {
        rawHash := Some(At(data, s.off, s.len));
      }
    }
    assert ts[..|spans|] == ts;
  }

  lemma NoTlvsNoReference()
    ensures BoundReference([]).None?
  {
  }

  lemma DecodedParts(sha: Sha, r: Rec)
    requires RecOk(r)
    ensures DecodeRecord(sha, r).seqNo == SeqIn(r) && DecodeRecord(sha, r).recordHash == sha(r.hb)
    ensures DecodeRecord(sha, r).bodyTlvs.Some? ==> DecodeRecord(sha, r).header.Some?
    ensures DecodeRecord(sha, r).header == Decode(r.hb)
  {
    hide UnLe, ParseTlvs, FirstVal;
  }

  // ---------- the origin ----------

  /** The first value of a header tag. */
  function OriginTlv(h: Header, tag: nat): Option<Bytes> { FirstVal(h.tlvs, tag, 0, ANY) }

  datatype OriginView = OriginView(role: Option<Bytes>, model: Option<Bytes>, config: Option<Bytes>, sinceSeq: nat,
                                   detail: Option<Bytes>)

  function OriginOf(d: Decoded): OriginView
    requires d.header.Some?
  {
    var h := d.header.value;
    OriginView(OriginTlv(h, TLV_ORIGIN_ROLE), OriginTlv(h, TLV_ORIGIN_MODEL_DIGEST),
               OriginTlv(h, TLV_ORIGIN_CONFIG_DIGEST),
               d.seqNo, d.detail)
  }

  datatype OriginState = Never | Declared(at: nat) | Unloaded

  /** The state one record leaves: set by a load, an unload, or an event that carries a model digest. */
  function SetBy(sha: Sha, rs: seq<Rec>, i: nat, st: OriginState): OriginState
    requires RecsOk(rs) && i < |rs|
  {
    var d := DecodeRecord(sha, rs[i]);
    if d.header.None? || d.recordType != RT_EVENT then st
    else if d.kind == Some(KIND_MODEL_UNLOAD) then Unloaded
    else if d.kind == Some(KIND_MODEL_LOAD) || OriginTlv(d.header.value, TLV_ORIGIN_MODEL_DIGEST).Some? then Declared(i)
    else st
  }

  /** The linear walk: skip what does not decode, stop at the first larger seq. */
  function LinearWalk(sha: Sha, rs: seq<Rec>, q: nat, i: nat, st: OriginState): OriginState
    requires RecsOk(rs) && i <= |rs|
    decreases |rs| - i
  {
    if i == |rs| then st
    else if Decode(rs[i].hb).None? then LinearWalk(sha, rs, q, i + 1, st)
    else if SeqIn(rs[i]) > q then st
    else LinearWalk(sha, rs, q, i + 1, SetBy(sha, rs, i, st))
  }

  function Answer(sha: Sha, rs: seq<Rec>, st: OriginState): (Option<OriginView>, bool)
    requires RecsOk(rs)
  {
    match st
    case Never => (None, false)
    case Unloaded => (None, true)
    case Declared(i) =>
      if i < |rs| && DecodeRecord(sha, rs[i]).header.Some?
      then (Some(OriginOf(DecodeRecord(sha, rs[i]))), false) else (None, false)
  }

  // ---------- what an answer says ----------

  /** The first item of a header tag, at any length. */
  ghost predicate HeaderItem(h: Header, tag: nat, v: Option<Bytes>) { IsFirst(h.tlvs, tag, 0, ANY, v) }

  /** The first EVT_DETAIL of an event's body, when the body is there, in the clear and well-formed. */
  ghost predicate DetailIs(h: Header, body: Bytes, detail: Option<Bytes>) {
    if h.keyId == 0 && |body| > 0 && ParseTlvs(body).Some? && (h.recordType == RT_EVENT || h.recordType == RT_SAFETY)
    then IsFirst(ParseTlvs(body).value, EVT_DETAIL, 0, ANY, detail) else detail.None?
  }

  /** The origin `v` is what the header and body of `r` hold. */
  ghost predicate OriginShown(r: Rec, v: OriginView)
    requires RecOk(r)
  {
    Decode(r.hb).Some? &&
    var h := Decode(r.hb).value;
    && HeaderItem(h, TLV_ORIGIN_ROLE, v.role) && HeaderItem(h, TLV_ORIGIN_MODEL_DIGEST, v.model)
    && HeaderItem(h, TLV_ORIGIN_CONFIG_DIGEST, v.config)
    && v.sinceSeq == h.seqNo && DetailIs(h, r.body, v.detail)
  }

  lemma OriginIsShown(sha: Sha, r: Rec)
    requires RecOk(r) && Decode(r.hb).Some?
    ensures DecodeRecord(sha, r).header.Some? && OriginShown(r, OriginOf(DecodeRecord(sha, r)))
  {
    var h := Decode(r.hb).value;
    FirstValIs(h.tlvs, TLV_ORIGIN_ROLE, 0, ANY);
    FirstValIs(h.tlvs, TLV_ORIGIN_MODEL_DIGEST, 0, ANY);
    FirstValIs(h.tlvs, TLV_ORIGIN_CONFIG_DIGEST, 0, ANY);
    if BodyTlvs(h, r.body).Some? {
      FirstValIs(BodyTlvs(h, r.body).value, EVT_DETAIL, 0, ANY);
    }
    DecodedParts(sha, r);
    SeqDecoded(r);
    hide Decode, ParseTlvs, FirstVal, IsFirst, FirstNum, SourceFor, OutcomeFor, U64, SeqIn;
  }

  lemma SeqDecoded(r: Rec)
    requires RecOk(r) && Decode(r.hb).Some?
    ensures Decode(r.hb).value.seqNo == SeqIn(r)
  {
    hide ParseTlvs, UnLe;
  }

  /** An event that ends the origin in force. */
  ghost predicate Ends(sha: Sha, r: Rec)
    requires RecOk(r)
  {
    && Decode(r.hb).Some? && Decode(r.hb).value.recordType == RT_EVENT
    && DecodeRecord(sha, r).kind == Some(KIND_MODEL_UNLOAD)
  }

  /** An event that puts an origin in force: a load, or any other that carries a model digest. */
  ghost predicate Begins(sha: Sha, r: Rec)
    requires RecOk(r)
  {
    && Decode(r.hb).Some? && Decode(r.hb).value.recordType == RT_EVENT && !Ends(sha, r)
    && (DecodeRecord(sha, r).kind == Some(KIND_MODEL_LOAD)
        || HasTag(Decode(r.hb).value.tlvs, TLV_ORIGIN_MODEL_DIGEST))
  }

  /** Record `j` is the last to begin or end an origin before the first decodable one past `q`; -1 if
      none does. */
  ghost predicate InForce(sha: Sha, rs: seq<Rec>, q: nat, j: int)
    requires RecsOk(rs)
  {
    && -1 <= j < |rs|
    && (forall i :: 0 <= i <= j && Decode(rs[i].hb).Some? ==> U64(rs[i].hb, 12) <= q)
    && (j >= 0 ==> Begins(sha, rs[j]) || Ends(sha, rs[j]))
    && forall i :: j < i < |rs| && (Begins(sha, rs[i]) || Ends(sha, rs[i])) ==>
         exists k :: 0 <= k <= i && Decode(rs[k].hb).Some? && U64(rs[k].hb, 12) > q
  }

  /** The answer at `q`, said of the record in force. */
  ghost predicate Answered(sha: Sha, rs: seq<Rec>, j: int, origin: Option<OriginView>, unloaded: bool)
    requires RecsOk(rs)
  {
    if j < 0 || j >= |rs| then origin.None? && !unloaded
    else if Ends(sha, rs[j]) then origin.None? && unloaded
    else origin.Some? && !unloaded && OriginShown(rs[j], origin.value)
  }

  lemma SetsIs(sha: Sha, rs: seq<Rec>, i: nat)
    requires RecsOk(rs) && i < |rs|
    ensures RecOk(rs[i]) && (Sets(sha, rs, i) <==> Begins(sha, rs[i]) || Ends(sha, rs[i]))
    ensures SetBy(sha, rs, i, Never) ==
      if Ends(sha, rs[i]) then Unloaded else if Begins(sha, rs[i]) then Declared(i) else Never
  {
    AllOk(rs, i);
    if Decode(rs[i].hb).Some? && Decode(rs[i].hb).value.recordType == RT_EVENT {
      RecordSeen(sha, rs, i, false, DecodeRecord(sha, rs[i]).kind,
                 HasTag(Decode(rs[i].hb).value.tlvs, TLV_ORIGIN_MODEL_DIGEST));
    } else {
      NothingSeen(sha, rs, i, false);
    }
    hide SetBy, Decode, DecodeRecord, HasTag, SeenSets, KindSeen;
  }

  lemma ForceMade(sha: Sha, rs: seq<Rec>, q: nat, c: nat, j: int)
    requires RecsOk(rs) && c <= |rs| && StopsAt(rs, q, c) && LastSetter(sha, rs, c, j)
    requires forall i :: 0 <= i < |rs| ==> (Sets(sha, rs, i) <==> Begins(sha, rs[i]) || Ends(sha, rs[i]))
    ensures InForce(sha, rs, q, j)
  {
    hide Sets, Begins, Ends, Decode, U64;
    forall i | j < i < |rs| && (Begins(sha, rs[i]) || Ends(sha, rs[i]))
      ensures exists k :: 0 <= k <= i && Decode(rs[k].hb).Some? && U64(rs[k].hb, 12) > q
    {
      assert i >= c;
      assert Decode(rs[c].hb).Some? && U64(rs[c].hb, 12) > q;
    }
  }

  lemma AnsweredMade(sha: Sha, rs: seq<Rec>, j: int, st: OriginState)
    requires RecsOk(rs) && -1 <= j < |rs|
    requires st == if j < 0 then Never else if Ends(sha, rs[j]) then Unloaded else Declared(j)
    requires j >= 0 ==> Begins(sha, rs[j]) || Ends(sha, rs[j])
    ensures var (origin, unloaded) := Answer(sha, rs, st); Answered(sha, rs, j, origin, unloaded)
  {
    if j >= 0 {
      AllOk(rs, j);
      OriginIsShown(sha, rs[j]);
    }
    hide DecodeRecord, Decode, OriginOf, OriginShown, HasTag;
  }

  /** The linear walk's answer, in terms of the record in force. */
  lemma WalkSays(sha: Sha, rs: seq<Rec>, q: nat) returns (j: int)
    requires RecsOk(rs)
    ensures InForce(sha, rs, q, j)
    ensures var (origin, unloaded) := Answer(sha, rs, LinearWalk(sha, rs, q, 0, Never));
      Answered(sha, rs, j, origin, unloaded)
  {
    hide *;
    StopFrom(rs, q, 0);
    var c := StopOf(rs, q, 0);
    StopBound(rs, q, c);
    WalkAnswers(sha, rs, q, c);
    LastRealIs(sha, rs, c);
    j := LastReal(sha, rs, c);
    LastSetterBound(sha, rs, c, j);
    forall i | 0 <= i < |rs|
      ensures RecOk(rs[i]) && (Sets(sha, rs, i) <==> Begins(sha, rs[i]) || Ends(sha, rs[i]))
    {
      SetsIs(sha, rs, i);
    }
    ForceMade(sha, rs, q, c, j);
    if j >= 0 {
      LastSets(sha, rs, c, j);
      SetsIs(sha, rs, j);
    }
    AnsweredMade(sha, rs, j, LinearWalk(sha, rs, q, 0, Never));
  }

  /** Where the walk stops. */
  ghost predicate StopsAt(rs: seq<Rec>, q: nat, c: nat)
    requires RecsOk(rs)
  {
    && c <= |rs|
    && (forall i :: 0 <= i < c && Decode(rs[i].hb).Some? ==> SeqIn(rs[i]) <= q)
    && (c < |rs| ==> Decode(rs[c].hb).Some? && SeqIn(rs[c]) > q)
  }

  ghost predicate Sets(sha: Sha, rs: seq<Rec>, i: nat)
    requires RecsOk(rs) && i < |rs|
  {
    SetBy(sha, rs, i, Never) != Never
  }

  /** `j` is the last record before `c` that sets the state; -1 if none does. */
  ghost predicate LastSetter(sha: Sha, rs: seq<Rec>, c: nat, j: int)
    requires RecsOk(rs) && c <= |rs|
  {
    && -1 <= j < c
    && (j >= 0 ==> Sets(sha, rs, j))
    && (forall i :: j < i < c ==> !Sets(sha, rs, i))
  }

  lemma SetByIs(sha: Sha, rs: seq<Rec>, i: nat, st: OriginState)
    requires RecsOk(rs) && i < |rs|
    ensures SetBy(sha, rs, i, st) == if Sets(sha, rs, i) then SetBy(sha, rs, i, Never) else st
  {
    hide DecodeRecord, OriginTlv;
  }

  /** The walk's state is the one its last setter before the stop leaves. */
  lemma {:induction false} WalkIsLastSetter(sha: Sha, rs: seq<Rec>, q: nat, c: nat, j: int, i: nat, st: OriginState)
    requires RecsOk(rs) && StopsAt(rs, q, c) && LastSetter(sha, rs, c, j) && i <= c
    ensures LinearWalk(sha, rs, q, i, st) == if j >= i then SetBy(sha, rs, j, Never) else st
    decreases c - i
  {
    hide SetBy, Sets, Decode, SeqIn;
    if i < c {
      SetByIs(sha, rs, i, st);
      UndecodedSetsNothing(sha, rs, i);
      if Decode(rs[i].hb).None? {
        WalkIsLastSetter(sha, rs, q, c, j, i + 1, st);
      } else {
        WalkIsLastSetter(sha, rs, q, c, j, i + 1, SetBy(sha, rs, i, st));
      }
    }
  }

  lemma UndecodedSetsNothing(sha: Sha, rs: seq<Rec>, i: nat)
    requires RecsOk(rs) && i < |rs|
    ensures Decode(rs[i].hb).None? ==> !Sets(sha, rs, i)
  {
  }

  /** An event whose body opens with a model load or unload and then does not parse. A load is read
      right all the same when the header carries the model digest. */
  ghost predicate Misread(r: Rec)
    requires RecOk(r)
  {
    && Decode(r.hb).Some? && Decode(r.hb).value.recordType == RT_EVENT
    && OpensWithKind(r) && ParseTlvs(r.body).None?
    && (|| U16(r.body, 4) == KIND_MODEL_UNLOAD
        || (U16(r.body, 4) == KIND_MODEL_LOAD && !HasTag(Decode(r.hb).value.tlvs, TLV_ORIGIN_MODEL_DIGEST)))
  }

  ghost predicate NoneMisread(rs: seq<Rec>)
    requires RecsOk(rs)
  {
    forall i :: 0 <= i < |rs| ==> !Misread(rs[i])
  }

  // ---------- the origin index ----------

  datatype OriginIndex = OriginIndex(positions: seq<nat>, reach: seq<nat>, setters: seq<nat>, unloads: seq<bool>)

  /** The kind the index is built from: the probe's on a cold reader, the decoded one on a warm one. */
  function KindSeen(sha: Sha, r: Rec, cold: bool): Option<nat>
    requires RecOk(r)
  {
    if cold then Probe(sha, r) else DecodeRecord(sha, r).kind
  }

  ghost predicate SeenSets(sha: Sha, r: Rec, cold: bool)
    requires RecOk(r)
  {
    var h, kind := Decode(r.hb), KindSeen(sha, r, cold);
    h.Some? && h.value.recordType == RT_EVENT &&
    (kind == Some(KIND_MODEL_UNLOAD) || kind == Some(KIND_MODEL_LOAD) || HasTag(h.value.tlvs, TLV_ORIGIN_MODEL_DIGEST))
  }

  predicate Sorted(a: seq<nat>) {
    forall i, j :: 0 <= i <= j < |a| ==> a[i] <= a[j]
  }

  /** The decodable records among the first `n`, with the running maximum of their seqs. */
  ghost predicate Reaches(rs: seq<Rec>, positions: seq<nat>, reach: seq<nat>, n: nat)
    requires RecsOk(rs) && n <= |rs|
  {
    && |reach| == |positions| && Increasing(positions) && Sorted(reach)
    && (forall i :: 0 <= i < n ==> (i in positions <==> Decode(rs[i].hb).Some?))
    && (forall k :: 0 <= k < |positions| ==> positions[k] < n)
    && (forall k, a :: 0 <= a <= k < |positions| ==> SeqIn(rs[positions[a]]) <= reach[k])
    && (forall k :: 0 <= k < |positions| ==> Attained(rs, positions, k, reach[k]))
  }

  /** `top` is the seq of one of the first `k + 1` listed records. */
  ghost predicate Attained(rs: seq<Rec>, positions: seq<nat>, k: nat, top: nat)
    requires RecsOk(rs)
  {
    exists a :: 0 <= a <= k && a < |positions| && positions[a] < |rs| && top == SeqIn(rs[positions[a]])
  }

  ghost predicate SetsListed(sha: Sha, rs: seq<Rec>, cold: bool, setters: seq<nat>, unloads: seq<bool>, n: nat)
    requires RecsOk(rs) && n <= |rs|
  {
    && |unloads| == |setters| && Increasing(setters)
    && (forall i :: 0 <= i < n ==> (i in setters <==> SeenSets(sha, rs[i], cold)))
    && (forall k :: 0 <= k < |setters| ==>
          setters[k] < n && (unloads[k] <==> KindSeen(sha, rs[setters[k]], cold) == Some(KIND_MODEL_UNLOAD)))
  }

  ghost predicate IndexFor(sha: Sha, rs: seq<Rec>, cold: bool, x: OriginIndex)
    requires RecsOk(rs)
  {
    Reaches(rs, x.positions, x.reach, |rs|) && SetsListed(sha, rs, cold, x.setters, x.unloads, |rs|)
  }

  lemma ReachesSkip(rs: seq<Rec>, positions: seq<nat>, reach: seq<nat>, n: nat)
    requires RecsOk(rs) && n < |rs| && Reaches(rs, positions, reach, n) && Decode(rs[n].hb).None?
    ensures Reaches(rs, positions, reach, n + 1)
  {
    hide Decode, SeqIn;
    assert n !in positions;
  }

  lemma ReachesTake(rs: seq<Rec>, positions: seq<nat>, reach: seq<nat>, n: nat, top: nat)
    requires RecsOk(rs) && n < |rs| && Reaches(rs, positions, reach, n) && Decode(rs[n].hb).Some?
    requires top == if positions == [] || SeqIn(rs[n]) > reach[|reach| - 1] then SeqIn(rs[n]) else reach[|reach| - 1]
    ensures Reaches(rs, positions + [n], reach + [top], n + 1)
  {
    hide Decode, SeqIn;
    var ps, rc := positions + [n], reach + [top];
    forall i | 0 <= i < n + 1 ensures i in ps <==> Decode(rs[i].hb).Some? {
      if i == n {
        assert ps[|positions|] == n;
      }
    }
    forall k | 0 <= k < |ps| ensures Attained(rs, ps, k, rc[k]) {
      TopIsSome(rs, positions, reach, n, top, k);
    }
  }

  lemma TopIsSome(rs: seq<Rec>, positions: seq<nat>, reach: seq<nat>, n: nat, top: nat, k: nat)
    requires RecsOk(rs) && n < |rs| && Reaches(rs, positions, reach, n) && k <= |positions|
    requires top == if positions == [] || SeqIn(rs[n]) > reach[|reach| - 1] then SeqIn(rs[n]) else reach[|reach| - 1]
    ensures Attained(rs, positions + [n], k, (reach + [top])[k])
  {
    hide Decode, SeqIn;
    var ps := positions + [n];
    if k < |positions| || (positions != [] && SeqIn(rs[n]) <= reach[|reach| - 1]) {
      var m := if k < |positions| then k else |positions| - 1;
      assert Attained(rs, positions, m, reach[m]);
      var a :| 0 <= a <= m && a < |positions| && positions[a] < |rs| && reach[m] == SeqIn(rs[positions[a]]);
      assert ps[a] == positions[a];
    } else {
      assert ps[k] == n;
    }
  }

  lemma SetsSkip(sha: Sha, rs: seq<Rec>, cold: bool, setters: seq<nat>, unloads: seq<bool>, n: nat)
    requires RecsOk(rs) && n < |rs| && SetsListed(sha, rs, cold, setters, unloads, n) && !SeenSets(sha, rs[n], cold)
    ensures SetsListed(sha, rs, cold, setters, unloads, n + 1)
  {
    hide SeenSets, KindSeen;
  }

  lemma SetsTake(sha: Sha, rs: seq<Rec>, cold: bool, setters: seq<nat>, unloads: seq<bool>, n: nat, u: bool)
    requires RecsOk(rs) && n < |rs| && SetsListed(sha, rs, cold, setters, unloads, n) && SeenSets(sha, rs[n], cold)
    requires u <==> KindSeen(sha, rs[n], cold) == Some(KIND_MODEL_UNLOAD)
    ensures SetsListed(sha, rs, cold, setters + [n], unloads + [u], n + 1)
  {
    hide SeenSets, KindSeen;
    var ss := setters + [n];
    forall i | 0 <= i < n + 1 ensures i in ss <==> SeenSets(sha, rs[i], cold) {
      if i == n {
        assert ss[|setters|] == n;
      }
    }
  }

  /** `bisect_right`: where the values above `x` begin. */
  method BisectRight(a: seq<nat>, x: nat) returns (k: nat)
    requires Sorted(a)
    ensures k <= |a| && (forall i :: 0 <= i < k ==> a[i] <= x) && (forall i :: k <= i < |a| ==> a[i] > x)
  {
    var lo, hi := 0, |a|;
    while lo < hi
      invariant 0 <= lo <= hi <= |a|
      invariant (forall i :: 0 <= i < lo ==> a[i] <= x) && (forall i :: hi <= i < |a| ==> a[i] > x)
    {
      var mid := (lo + hi) / 2;
      if x < a[mid] {
        hi := mid;
      } else {
        lo := mid + 1;
      }
    }
    k := lo;
  }

  /** `bisect_left`: where the values from `x` on begin. */
  method BisectLeft(a: seq<nat>, x: nat) returns (k: nat)
    requires Increasing(a)
    ensures k <= |a| && (forall i :: 0 <= i < k ==> a[i] < x) && (forall i :: k <= i < |a| ==> a[i] >= x)
  {
    var lo, hi := 0, |a|;
    while lo < hi
      invariant 0 <= lo <= hi <= |a|
      invariant (forall i :: 0 <= i < lo ==> a[i] < x) && (forall i :: hi <= i < |a| ==> a[i] >= x)
    {
      var mid := (lo + hi) / 2;
      if a[mid] < x {
        lo := mid + 1;
      } else {
        hi := mid;
      }
    }
    k := lo;
  }

  lemma OrderedIndex(a: seq<nat>, i: nat, j: nat)
    requires Increasing(a) && i < |a| && j < |a| && a[i] < a[j]
    ensures i < j
  {
  }

  /** Between the last value below `c` and `c` there is none. */
  lemma NoneBetween(a: seq<nat>, c: nat, j: int)
    requires Increasing(a) && -1 <= j < |a|
    requires (forall i :: 0 <= i <= j ==> a[i] < c) && (forall i :: j < i < |a| ==> a[i] >= c)
    ensures forall i: nat :: (if j < 0 then -1 else a[j]) < i < c ==> i !in a
  {
    var last := if j < 0 then -1 else a[j];
    forall m | 0 <= m < |a| ensures !(last < a[m] < c) {
      assert m < j ==> a[m] < a[j];
    }
  }

  /** The first place the running maximum passes `q` is where the walk stops. */
  lemma ReachStops(rs: seq<Rec>, positions: seq<nat>, reach: seq<nat>, q: nat, k: nat)
    requires RecsOk(rs) && Reaches(rs, positions, reach, |rs|) && k <= |reach|
    requires (forall i :: 0 <= i < k ==> reach[i] <= q) && (forall i :: k <= i < |reach| ==> reach[i] > q)
    ensures StopsAt(rs, q, if k < |positions| then positions[k] else |rs|)
  {
    hide Decode, SeqIn;
    var c := if k < |positions| then positions[k] else |rs|;
    forall i | 0 <= i < c && Decode(rs[i].hb).Some? ensures SeqIn(rs[i]) <= q {
      var a :| 0 <= a < |positions| && positions[a] == i;
      if k < |positions| {
        OrderedIndex(positions, a, k);
      }
      assert reach[a] <= q;
    }
    if k < |positions| {
      assert Attained(rs, positions, k, reach[k]);
      var a :| 0 <= a <= k && a < |positions| && positions[a] < |rs| && reach[k] == SeqIn(rs[positions[a]]);
      assert SeqIn(rs[positions[a]]) <= reach[a];
      assert c in positions;
    }
  }

  lemma {:induction false} TagIsFound(ts: seq<Tlv>, tag: nat)
    requires TlvsFit(ts)
    ensures HasTag(ts, tag) <==> FirstVal(ts, tag, 0, ANY).Some?
  {
    if ts != [] {
      TagIsFound(ts[1..], tag);
      assert TlvFits(ts[0]);
      if HasTag(ts, tag) && ts[0].tag != tag {
        var i :| 0 <= i < |ts| && ts[i].tag == tag;
        assert ts[1..][i - 1].tag == tag;
      }
      if HasTag(ts[1..], tag) {
        var i :| 0 <= i < |ts[1..]| && ts[1..][i].tag == tag;
        assert ts[i + 1].tag == tag;
      }
    }
  }

  lemma HeaderTlvsFit(hb: Bytes)
    requires Decode(hb).Some?
    ensures TlvsFit(Decode(hb).value.tlvs)
  {
    DecodedFits(hb);
  }

  /** The index sees record `i` as the walk does: whether it sets the state, and whether to unloaded. */
  ghost predicate SeenRight(sha: Sha, rs: seq<Rec>, i: nat, cold: bool)
    requires RecsOk(rs) && i < |rs|
  {
    && (SeenSets(sha, rs[i], cold) <==> Sets(sha, rs, i))
    && (Sets(sha, rs, i) ==>
        (KindSeen(sha, rs[i], cold) == Some(KIND_MODEL_UNLOAD) <==> SetBy(sha, rs, i, Never) == Unloaded))
  }

  /** What the walk and the index make of one record, by its kind and its header's digest. */
  lemma RecordSeen(sha: Sha, rs: seq<Rec>, i: nat, cold: bool, kind: Option<nat>, digest: bool)
    requires RecsOk(rs) && i < |rs| && Decode(rs[i].hb).Some? && Decode(rs[i].hb).value.recordType == RT_EVENT
    requires kind == DecodeRecord(sha, rs[i]).kind
    requires digest == HasTag(Decode(rs[i].hb).value.tlvs, TLV_ORIGIN_MODEL_DIGEST)
    ensures SetBy(sha, rs, i, Never) ==
      if kind == Some(KIND_MODEL_UNLOAD) then Unloaded
      else if kind == Some(KIND_MODEL_LOAD) || digest then Declared(i) else Never
    ensures var seen := KindSeen(sha, rs[i], cold);
      SeenSets(sha, rs[i], cold) <==> seen == Some(KIND_MODEL_UNLOAD) || seen == Some(KIND_MODEL_LOAD) || digest
  {
    DecodedParts(sha, rs[i]);
    HeaderTlvsFit(rs[i].hb);
    TagIsFound(Decode(rs[i].hb).value.tlvs, TLV_ORIGIN_MODEL_DIGEST);
    TypeDecoded(sha, rs[i]);
    hide DecodeRecord, Decode, FirstVal, HasTag, KindSeen, Probe;
  }

  lemma NothingSeen(sha: Sha, rs: seq<Rec>, i: nat, cold: bool)
    requires RecsOk(rs) && i < |rs| && (Decode(rs[i].hb).None? || Decode(rs[i].hb).value.recordType != RT_EVENT)
    ensures !SeenSets(sha, rs[i], cold) && !Sets(sha, rs, i)
  {
    DecodedParts(sha, rs[i]);
    if Decode(rs[i].hb).Some? {
      TypeDecoded(sha, rs[i]);
    }
    hide DecodeRecord, Decode, HasTag, KindSeen;
  }

  lemma UnparsedHasNoKind(sha: Sha, r: Rec)
    requires RecOk(r) && OpensWithKind(r) && Decode(r.hb).Some? && ParseTlvs(r.body).None?
    ensures DecodeRecord(sha, r).kind.None? && Probe(sha, r) == Some(U16(r.body, 4))
  {
    hide ParseTlvs, UnLe, U16;
  }

  /** A warm reader sees every record right; a cold one exactly those that are not misread. */
  lemma SeenIsSet(sha: Sha, rs: seq<Rec>, i: nat, cold: bool)
    requires RecsOk(rs) && i < |rs|
    ensures SeenRight(sha, rs, i, cold) <==> !(cold && Misread(rs[i]))
  {
    var r, h := rs[i], Decode(rs[i].hb);
    if h.None? || h.value.recordType != RT_EVENT {
      NothingSeen(sha, rs, i, cold);
      hide SeenSets, Sets, SetBy, Decode, KindSeen;
    } else {
      RecordSeen(sha, rs, i, cold, DecodeRecord(sha, r).kind, HasTag(h.value.tlvs, TLV_ORIGIN_MODEL_DIGEST));
      ProbeIsKind(sha, r);
      if OpensWithKind(r) && ParseTlvs(r.body).None? {
        UnparsedHasNoKind(sha, r);
      }
      hide SeenSets, SetBy, Decode, OpensWithKind, Probe, DecodeRecord, HasTag, ParseTlvs, U16;
    }
  }

  /** The index lists exactly the records that set the state, each with its own flag. */
  ghost predicate ListsSetters(sha: Sha, rs: seq<Rec>, x: OriginIndex)
    requires RecsOk(rs)
  {
    && |x.unloads| == |x.setters|
    && (forall i :: 0 <= i < |rs| ==> (i in x.setters <==> Sets(sha, rs, i)))
    && (forall k :: 0 <= k < |x.setters| ==>
          x.setters[k] < |rs| && (x.unloads[k] <==> SetBy(sha, rs, x.setters[k], Never) == Unloaded))
  }

  lemma SeenParts(sha: Sha, rs: seq<Rec>, i: nat, cold: bool)
    requires RecsOk(rs) && i < |rs|
    ensures SeenRight(sha, rs, i, cold) <==> (
      && (SeenSets(sha, rs[i], cold) <==> Sets(sha, rs, i))
      && (Sets(sha, rs, i) ==>
          (KindSeen(sha, rs[i], cold) == Some(KIND_MODEL_UNLOAD) <==> SetBy(sha, rs, i, Never) == Unloaded)))
  {
    hide SeenSets, Sets, SetBy, KindSeen;
  }

  lemma FlagIs(sha: Sha, rs: seq<Rec>, cold: bool, x: OriginIndex, k: nat)
    requires RecsOk(rs) && IndexFor(sha, rs, cold, x) && k < |x.setters|
    ensures |x.unloads| == |x.setters| && x.setters[k] < |rs| && SeenSets(sha, rs[x.setters[k]], cold)
    ensures x.unloads[k] <==> KindSeen(sha, rs[x.setters[k]], cold) == Some(KIND_MODEL_UNLOAD)
  {
    hide SeenSets, KindSeen, Reaches;
    assert x.setters[k] in x.setters;
  }

  lemma ListedIs(sha: Sha, rs: seq<Rec>, cold: bool, x: OriginIndex, i: nat)
    requires RecsOk(rs) && IndexFor(sha, rs, cold, x) && i < |rs|
    ensures i in x.setters <==> SeenSets(sha, rs[i], cold)
    ensures |x.unloads| == |x.setters|
  {
    hide SeenSets, KindSeen, Reaches;
  }

  /** The index is right about the setters iff every record is seen right: on a warm reader always, on
      a cold one iff no record is misread. */
  lemma IndexIsExact(sha: Sha, rs: seq<Rec>, cold: bool, x: OriginIndex)
    requires RecsOk(rs) && IndexFor(sha, rs, cold, x)
    ensures ListsSetters(sha, rs, x) <==> !cold || NoneMisread(rs)
  {
    hide *;
    if !cold || NoneMisread(rs) {
      forall i | 0 <= i < |rs| ensures i in x.setters <==> Sets(sha, rs, i) {
        ListedIs(sha, rs, cold, x, i);
        SeenFine(sha, rs, i, cold);
        SeenParts(sha, rs, i, cold);
      }
      forall k | 0 <= k < |x.setters|
        ensures x.setters[k] < |rs| && |x.unloads| == |x.setters|
        ensures x.unloads[k] <==> SetBy(sha, rs, x.setters[k], Never) == Unloaded
      {
        FlagIs(sha, rs, cold, x, k);
        SeenFine(sha, rs, x.setters[k], cold);
        SeenParts(sha, rs, x.setters[k], cold);
      }
      IndexLengths(sha, rs, cold, x);
      ListsMade(sha, rs, x);
    }
    if ListsSetters(sha, rs, x) {
      forall i | 0 <= i < |rs| ensures SeenRight(sha, rs, i, cold) {
        RightWhenListed(sha, rs, cold, x, i);
      }
      AllRight(sha, rs, cold);
    }
  }

  lemma IndexLengths(sha: Sha, rs: seq<Rec>, cold: bool, x: OriginIndex)
    requires RecsOk(rs) && IndexFor(sha, rs, cold, x)
    ensures |x.unloads| == |x.setters|
  {
    hide SeenSets, KindSeen, Reaches;
  }

  lemma SeenFine(sha: Sha, rs: seq<Rec>, i: nat, cold: bool)
    requires RecsOk(rs) && i < |rs| && (!cold || NoneMisread(rs))
    ensures SeenRight(sha, rs, i, cold)
  {
    SeenIsSet(sha, rs, i, cold);
    hide Misread, SeenRight;
  }

  lemma AllRight(sha: Sha, rs: seq<Rec>, cold: bool)
    requires RecsOk(rs) && forall i :: 0 <= i < |rs| ==> SeenRight(sha, rs, i, cold)
    ensures !cold || NoneMisread(rs)
  {
    forall i | 0 <= i < |rs| ensures !(cold && Misread(rs[i])) {
      SeenIsSet(sha, rs, i, cold);
    }
    hide Misread, SeenRight;
  }

  lemma ListsMade(sha: Sha, rs: seq<Rec>, x: OriginIndex)
    requires RecsOk(rs) && |x.unloads| == |x.setters|
    requires forall i :: 0 <= i < |rs| ==> (i in x.setters <==> Sets(sha, rs, i))
    requires forall k :: 0 <= k < |x.setters| ==>
      x.setters[k] < |rs| && (x.unloads[k] <==> SetBy(sha, rs, x.setters[k], Never) == Unloaded)
    ensures ListsSetters(sha, rs, x)
  {
    hide Sets, SetBy;
  }

  lemma ListsParts(sha: Sha, rs: seq<Rec>, x: OriginIndex, i: nat)
    requires RecsOk(rs) && ListsSetters(sha, rs, x) && i < |rs|
    ensures |x.unloads| == |x.setters| && (i in x.setters <==> Sets(sha, rs, i))
    ensures forall k :: 0 <= k < |x.setters| && x.setters[k] == i ==>
      (x.unloads[k] <==> SetBy(sha, rs, i, Never) == Unloaded)
  {
    hide Sets, SetBy;
  }

  lemma RightWhenListed(sha: Sha, rs: seq<Rec>, cold: bool, x: OriginIndex, i: nat)
    requires RecsOk(rs) && IndexFor(sha, rs, cold, x) && ListsSetters(sha, rs, x) && i < |rs|
    ensures SeenRight(sha, rs, i, cold)
  {
    hide *;
    ListedIs(sha, rs, cold, x, i);
    ListsParts(sha, rs, x, i);
    SeenParts(sha, rs, i, cold);
    if i in x.setters {
      var k :| 0 <= k < |x.setters| && x.setters[k] == i;
      FlagIs(sha, rs, cold, x, k);
    }
  }

  lemma TypeDecoded(sha: Sha, r: Rec)
    requires RecOk(r) && Decode(r.hb).Some?
    ensures DecodeRecord(sha, r).recordType == Decode(r.hb).value.recordType
  {
    hide ParseTlvs, FirstVal;
  }

  /** The last of an increasing list's values below `c`; -1 if there is none. */
  function LastBelow(a: seq<nat>, c: nat): int {
    if a == [] then -1 else if a[|a| - 1] < c then |a| - 1 else LastBelow(a[..|a| - 1], c)
  }

  /** Where the linear walk stops: at the first decodable record with a larger seq. */
  function StopOf(rs: seq<Rec>, q: nat, i: nat): nat
    requires RecsOk(rs) && i <= |rs|
    decreases |rs| - i
  {
    if i == |rs| then |rs| else if Decode(rs[i].hb).Some? && SeqIn(rs[i]) > q then i else StopOf(rs, q, i + 1)
  }

  /** The last record before `c` that sets the state; -1 if there is none. */
  ghost function LastReal(sha: Sha, rs: seq<Rec>, c: nat): (m: int)
    requires RecsOk(rs) && c <= |rs|
    ensures -1 <= m < c
  {
    if c == 0 then -1 else if Sets(sha, rs, c - 1) then c - 1 else LastReal(sha, rs, c - 1)
  }

  /** The setter the index finds for a seq, and the state it takes from it. */
  function Found(rs: seq<Rec>, x: OriginIndex, q: nat): int
    requires RecsOk(rs)
  {
    LastBelow(x.setters, StopOf(rs, q, 0))
  }

  function StateFound(rs: seq<Rec>, x: OriginIndex, q: nat): OriginState
    requires RecsOk(rs) && |x.unloads| == |x.setters|
  {
    var j := Found(rs, x, q);
    if !(0 <= j < |x.setters|) then Never else if x.unloads[j] then Unloaded else Declared(x.setters[j])
  }

  lemma {:induction false} LastBelowIs(a: seq<nat>, c: nat)
    requires Increasing(a)
    ensures var j := LastBelow(a, c);
      -1 <= j < |a| && (forall i :: 0 <= i <= j ==> a[i] < c) && (forall i :: j < i < |a| ==> a[i] >= c)
  {
    if a != [] {
      LastBelowIs(a[..|a| - 1], c);
    }
  }

  lemma LastBelowUnique(a: seq<nat>, c: nat, j: int)
    requires Increasing(a) && -1 <= j < |a|
    requires (forall i :: 0 <= i <= j ==> a[i] < c) && (forall i :: j < i < |a| ==> a[i] >= c)
    ensures j == LastBelow(a, c)
  {
    LastBelowIs(a, c);
    var m := LastBelow(a, c);
    if m >= 0 {
      assert a[m] < c;
    }
    if j >= 0 {
      assert a[j] < c;
    }
  }

  lemma {:induction false} StopIs(rs: seq<Rec>, q: nat, c: nat, i: nat)
    requires RecsOk(rs) && StopsAt(rs, q, c) && i <= c
    ensures StopOf(rs, q, i) == c
    decreases c - i
  {
    hide Decode, SeqIn;
    if i < c {
      StopIs(rs, q, c, i + 1);
    }
  }

  lemma {:induction false} LastRealIs(sha: Sha, rs: seq<Rec>, c: nat)
    requires RecsOk(rs) && c <= |rs|
    ensures LastSetter(sha, rs, c, LastReal(sha, rs, c))
  {
    hide Sets;
    if c > 0 && !Sets(sha, rs, c - 1) {
      LastRealIs(sha, rs, c - 1);
    }
  }

  /** The walk's answer: what the last record before its stop that sets the state leaves. */
  lemma WalkAnswers(sha: Sha, rs: seq<Rec>, q: nat, c: nat)
    requires RecsOk(rs) && StopsAt(rs, q, c)
    ensures var m := LastReal(sha, rs, c);
      LinearWalk(sha, rs, q, 0, Never) == if 0 <= m < |rs| then SetBy(sha, rs, m, Never) else Never
  {
    hide *;
    StopBound(rs, q, c);
    LastRealIs(sha, rs, c);
    LastSetterBound(sha, rs, c, LastReal(sha, rs, c));
    WalkIsLastSetter(sha, rs, q, c, LastReal(sha, rs, c), 0, Never);
  }

  lemma StopBound(rs: seq<Rec>, q: nat, c: nat)
    requires RecsOk(rs) && StopsAt(rs, q, c)
    ensures c <= |rs|
  {
    hide Decode, SeqIn;
  }

  lemma LastSetterBound(sha: Sha, rs: seq<Rec>, c: nat, j: int)
    requires RecsOk(rs) && c <= |rs| && LastSetter(sha, rs, c, j)
    ensures -1 <= j < c
  {
    hide Sets;
  }

  /** The two binary searches find that setter. */
  lemma IndexAnswers(sha: Sha, rs: seq<Rec>, cold: bool, x: OriginIndex, q: nat, k: nat, j: int)
    requires RecsOk(rs) && IndexFor(sha, rs, cold, x)
    requires k <= |x.reach| && (forall i :: 0 <= i < k ==> x.reach[i] <= q)
    requires (forall i :: k <= i < |x.reach| ==> x.reach[i] > q)
    requires -1 <= j < |x.setters|
    requires var c := if k < |x.positions| then x.positions[k] else |rs|;
      (forall i :: 0 <= i <= j ==> x.setters[i] < c) && (forall i :: j < i < |x.setters| ==> x.setters[i] >= c)
    ensures |x.unloads| == |x.setters| && j == Found(rs, x, q)
    ensures StateFound(rs, x, q) == if j < 0 then Never else if x.unloads[j] then Unloaded else Declared(x.setters[j])
  {
    hide SeenSets, KindSeen, Decode, SeqIn, Attained;
    var c := if k < |x.positions| then x.positions[k] else |rs|;
    ReachStops(rs, x.positions, x.reach, q, k);
    StopIs(rs, q, c, 0);
    LastBelowUnique(x.setters, c, j);
  }

  // ---------- when the answer is right ----------

  /** The record the answer was taken from is misread, and the answer is right all the same: an unload
      without a digest where the chain was unloaded already, or a load where the record in force shows
      the same origin. */
  ghost predicate RightByChance(sha: Sha, rs: seq<Rec>, i: nat)
    requires RecsOk(rs) && i < |rs|
  {
    var m := LastReal(sha, rs, i);
    && !Sets(sha, rs, i) && m >= 0
    && (Probe(sha, rs[i]) == Some(KIND_MODEL_UNLOAD) ==> SetBy(sha, rs, m, Never) == Unloaded)
    && (Probe(sha, rs[i]) != Some(KIND_MODEL_UNLOAD) ==>
          SetBy(sha, rs, m, Never) == Declared(m) && Answer(sha, rs, Declared(m)) == Answer(sha, rs, Declared(i)))
  }

  /** The answer of an index built cold or warm is the linear walk's. */
  ghost predicate AnswersRight(sha: Sha, rs: seq<Rec>, cold: bool, x: OriginIndex, q: nat)
    requires RecsOk(rs)
  {
    var j := Found(rs, x, q);
    0 <= j < |x.setters| && x.setters[j] < |rs| && cold && Misread(rs[x.setters[j]]) ==>
      RightByChance(sha, rs, x.setters[j])
  }

  lemma LastRealSkips(sha: Sha, rs: seq<Rec>, i: nat, c: nat)
    requires RecsOk(rs) && i <= c <= |rs| && forall k :: i <= k < c ==> !Sets(sha, rs, k)
    ensures LastReal(sha, rs, c) == LastReal(sha, rs, i)
    decreases c
  {
    hide Sets;
    if i < c {
      LastRealSkips(sha, rs, i, c - 1);
    }
  }

  /** What a misread record is taken for, and what it is. */
  lemma MisreadIs(sha: Sha, rs: seq<Rec>, i: nat)
    requires RecsOk(rs) && i < |rs| && Misread(rs[i])
    ensures SeenSets(sha, rs[i], true) && Decode(rs[i].hb).Some?
    ensures var digest := HasTag(Decode(rs[i].hb).value.tlvs, TLV_ORIGIN_MODEL_DIGEST);
      && (Sets(sha, rs, i) <==> digest)
      && SetBy(sha, rs, i, Never) == (if digest then Declared(i) else Never)
      && (Probe(sha, rs[i]) != Some(KIND_MODEL_UNLOAD) ==> Probe(sha, rs[i]) == Some(KIND_MODEL_LOAD) && !digest)
  {
    UnparsedHasNoKind(sha, rs[i]);
    RecordSeen(sha, rs, i, true, DecodeRecord(sha, rs[i]).kind,
               HasTag(Decode(rs[i].hb).value.tlvs, TLV_ORIGIN_MODEL_DIGEST));
    hide SeenSets, SetBy, Decode, OpensWithKind, DecodeRecord, HasTag, ParseTlvs, U16, Probe;
  }

  /** Every record that sets the state is listed, also by a cold index. */
  lemma SetterIsSeen(sha: Sha, rs: seq<Rec>, i: nat, cold: bool)
    requires RecsOk(rs) && i < |rs| && Sets(sha, rs, i)
    ensures SeenSets(sha, rs[i], cold)
  {
    hide *;
    SeenIsSet(sha, rs, i, cold);
    SeenParts(sha, rs, i, cold);
    AllOk(rs, i);
    if cold && Misread(rs[i]) {
      MisreadIs(sha, rs, i);
    }
  }

  /** Past the setter the index finds, no record before the stop sets the state. */
  lemma NothingAfterFound(sha: Sha, rs: seq<Rec>, cold: bool, x: OriginIndex, c: nat, j: int)
    requires RecsOk(rs) && IndexFor(sha, rs, cold, x) && c <= |rs| && -1 <= j < |x.setters|
    requires (forall i :: 0 <= i <= j ==> x.setters[i] < c) && (forall i :: j < i < |x.setters| ==> x.setters[i] >= c)
    ensures forall i: nat :: (if j < 0 then -1 else x.setters[j]) < i < c ==> !Sets(sha, rs, i)
  {
    hide *;
    IndexIncreases(sha, rs, cold, x);
    NoneBetween(x.setters, c, j);
    forall i: nat | (if j < 0 then -1 else x.setters[j]) < i < c ensures !Sets(sha, rs, i) {
      ListedIs(sha, rs, cold, x, i);
      if Sets(sha, rs, i) {
        SetterIsSeen(sha, rs, i, cold);
      }
    }
  }

  lemma IndexIncreases(sha: Sha, rs: seq<Rec>, cold: bool, x: OriginIndex)
    requires RecsOk(rs) && IndexFor(sha, rs, cold, x)
    ensures Increasing(x.setters) && |x.unloads| == |x.setters|
    ensures Reaches(rs, x.positions, x.reach, |rs|)
  {
    hide SeenSets, KindSeen, Reaches;
  }

  lemma FoundParts(rs: seq<Rec>, x: OriginIndex, q: nat, c: nat)
    requires RecsOk(rs) && Increasing(x.setters) && |x.unloads| == |x.setters| && StopOf(rs, q, 0) == c
    ensures var j := Found(rs, x, q);
      && -1 <= j < |x.setters|
      && (forall i :: 0 <= i <= j ==> x.setters[i] < c) && (forall i :: j < i < |x.setters| ==> x.setters[i] >= c)
      && StateFound(rs, x, q) == if j < 0 then Never else if x.unloads[j] then Unloaded else Declared(x.setters[j])
  {
    LastBelowIs(x.setters, c);
    hide StopOf, LastBelow;
  }

  lemma {:induction false} StopFrom(rs: seq<Rec>, q: nat, i: nat)
    requires RecsOk(rs) && i <= |rs| && forall k :: 0 <= k < i && Decode(rs[k].hb).Some? ==> SeqIn(rs[k]) <= q
    ensures StopsAt(rs, q, StopOf(rs, q, i))
    decreases |rs| - i
  {
    hide Decode, SeqIn;
    if i < |rs| && !(Decode(rs[i].hb).Some? && SeqIn(rs[i]) > q) {
      StopFrom(rs, q, i + 1);
    }
  }

  /** The answer taken from a misread record, against the walk's. */
  lemma MisreadAnswer(sha: Sha, rs: seq<Rec>, x: OriginIndex, q: nat, c: nat, j: nat)
    requires RecsOk(rs) && IndexFor(sha, rs, true, x) && StopsAt(rs, q, c) && c <= |rs| && j < |x.setters|
    requires x.setters[j] < c
    requires forall k :: x.setters[j] < k < c ==> !Sets(sha, rs, k)
    requires Misread(rs[x.setters[j]])
    ensures |x.unloads| == |x.setters|
    ensures Answer(sha, rs, if x.unloads[j] then Unloaded else Declared(x.setters[j]))
        == Answer(sha, rs, LinearWalk(sha, rs, q, 0, Never))
      <==> RightByChance(sha, rs, x.setters[j])
  {
    hide *;
    var i := x.setters[j];
    FlagIs(sha, rs, true, x, j);
    AllOk(rs, i);
    ColdKind(sha, rs[i]);
    MisreadIs(sha, rs, i);
    WalkAnswers(sha, rs, q, c);
    LastRealSkips(sha, rs, i + 1, c);
    LastRealStep(sha, rs, i);
    LastRealIs(sha, rs, i);
    LastSetterBound(sha, rs, i, LastReal(sha, rs, i));
    var m := LastReal(sha, rs, i);
    if m >= 0 {
      LastSets(sha, rs, i, m);
      SetterState(sha, rs, m);
      SetterHasHeader(sha, rs, m);
    }
    AnswersApart(sha, rs, i);
    ChanceIs(sha, rs, i);
    AnswersApart(sha, rs, if m >= 0 then m else i);
  }

  lemma ColdKind(sha: Sha, r: Rec)
    requires RecOk(r)
    ensures KindSeen(sha, r, true) == Probe(sha, r)
  {
  }

  lemma LastRealStep(sha: Sha, rs: seq<Rec>, i: nat)
    requires RecsOk(rs) && i < |rs|
    ensures LastReal(sha, rs, i + 1) == if Sets(sha, rs, i) then i else LastReal(sha, rs, i)
  {
    hide Sets;
  }

  lemma LastSets(sha: Sha, rs: seq<Rec>, c: nat, j: nat)
    requires RecsOk(rs) && c <= |rs| && LastSetter(sha, rs, c, j)
    ensures j < |rs| && Sets(sha, rs, j)
  {
    hide Sets;
  }

  lemma SetterHasHeader(sha: Sha, rs: seq<Rec>, i: nat)
    requires RecsOk(rs) && i < |rs| && Sets(sha, rs, i)
    ensures Decode(rs[i].hb).Some?
  {
    UndecodedSetsNothing(sha, rs, i);
    hide Sets, Decode;
  }

  lemma AnswersApart(sha: Sha, rs: seq<Rec>, i: nat)
    requires RecsOk(rs) && i < |rs|
    ensures Decode(rs[i].hb).Some? ==> Answer(sha, rs, Declared(i)).0.Some? && !Answer(sha, rs, Declared(i)).1
    ensures Answer(sha, rs, Unloaded) == (None, true) && Answer(sha, rs, Never) == (None, false)
  {
    DecodedParts(sha, rs[i]);
    hide DecodeRecord, Decode, OriginOf;
  }

  lemma ChanceIs(sha: Sha, rs: seq<Rec>, i: nat)
    requires RecsOk(rs) && i < |rs|
    ensures RightByChance(sha, rs, i) <==> (
      var m := LastReal(sha, rs, i);
      && !Sets(sha, rs, i) && m >= 0
      && (Probe(sha, rs[i]) == Some(KIND_MODEL_UNLOAD) ==> SetBy(sha, rs, m, Never) == Unloaded)
      && (Probe(sha, rs[i]) != Some(KIND_MODEL_UNLOAD) ==>
            SetBy(sha, rs, m, Never) == Declared(m) && Answer(sha, rs, Declared(m)) == Answer(sha, rs, Declared(i))))
  {
    hide Sets, SetBy, Probe, Answer, LastReal;
  }

  /** The answer taken from a record that is seen right, or from none. */
  lemma PlainAnswer(sha: Sha, rs: seq<Rec>, cold: bool, x: OriginIndex, q: nat, c: nat, j: int)
    requires RecsOk(rs) && IndexFor(sha, rs, cold, x) && StopsAt(rs, q, c) && c <= |rs| && -1 <= j < |x.setters|
    requires (j >= 0 ==> x.setters[j] < c)
    requires forall k: nat :: (if j < 0 then -1 else x.setters[j]) < k < c ==> !Sets(sha, rs, k)
    requires j >= 0 ==> !(cold && Misread(rs[x.setters[j]]))
    ensures |x.unloads| == |x.setters|
    ensures LinearWalk(sha, rs, q, 0, Never) ==
      if j < 0 then Never else if x.unloads[j] then Unloaded else Declared(x.setters[j])
  {
    hide *;
    IndexIncreases(sha, rs, cold, x);
    WalkAnswers(sha, rs, q, c);
    if j < 0 {
      LastRealSkips(sha, rs, 0, c);
      NoneReal(sha, rs);
    } else {
      var i := x.setters[j];
      FlagIs(sha, rs, cold, x, j);
      SeenIsSet(sha, rs, i, cold);
      SeenParts(sha, rs, i, cold);
      SetterState(sha, rs, i);
      LastRealSkips(sha, rs, i + 1, c);
      LastRealStep(sha, rs, i);
    }
  }

  lemma NoneReal(sha: Sha, rs: seq<Rec>)
    requires RecsOk(rs)
    ensures LastReal(sha, rs, 0) == -1
  {
  }

  /** Per query, cold or warm: the indexed answer is the linear walk's iff the record it is taken from is
      not misread, or is right by chance. */
  lemma AnswerIsRight(sha: Sha, rs: seq<Rec>, cold: bool, x: OriginIndex, q: nat)
    requires RecsOk(rs) && IndexFor(sha, rs, cold, x)
    ensures |x.unloads| == |x.setters|
    ensures Answer(sha, rs, StateFound(rs, x, q)) == Answer(sha, rs, LinearWalk(sha, rs, q, 0, Never))
      <==> AnswersRight(sha, rs, cold, x, q)
  {
    hide *;
    IndexIncreases(sha, rs, cold, x);
    StopFrom(rs, q, 0);
    var c := StopOf(rs, q, 0);
    StopBound(rs, q, c);
    FoundParts(rs, x, q, c);
    var j := Found(rs, x, q);
    NothingAfterFound(sha, rs, cold, x, c, j);
    RightIs(sha, rs, cold, x, q);
    if j >= 0 {
      AllOk(rs, x.setters[j]);
    }
    if j >= 0 && cold && Misread(rs[x.setters[j]]) {
      MisreadAnswer(sha, rs, x, q, c, j);
    } else {
      PlainAnswer(sha, rs, cold, x, q, c, j);
    }
  }

  lemma RightIs(sha: Sha, rs: seq<Rec>, cold: bool, x: OriginIndex, q: nat)
    requires RecsOk(rs)
    ensures var j := Found(rs, x, q);
      AnswersRight(sha, rs, cold, x, q) <==>
        (0 <= j < |x.setters| && x.setters[j] < |rs| && cold && Misread(rs[x.setters[j]]) ==>
         RightByChance(sha, rs, x.setters[j]))
  {
    hide Found, Misread, RightByChance;
  }

  lemma SetterState(sha: Sha, rs: seq<Rec>, i: nat)
    requires RecsOk(rs) && i < |rs| && Sets(sha, rs, i)
    ensures SetBy(sha, rs, i, Never) == Unloaded || SetBy(sha, rs, i, Never) == Declared(i)
  {
    hide DecodeRecord, OriginTlv;
  }

  // ---------- the reader ----------

  class AuditReader {
    const sha: Sha
    const data: Bytes
    const headers: HeaderSeq
    const truncatedAt: Option<nat>
    var decoded: Option<seq<Decoded>>
    var sparse: map<nat, Decoded>
    var originIndex: Option<OriginIndex>

    ghost function Recs(): (rs: seq<Rec>)
      ensures RecsOk(rs)
    {
      Walk(data).0
    }

    /** The arrays index the walk, and every cache holds what its computation gives. */
    ghost predicate Valid() reads this, headers {
      && headers.data == data && headers.Over(Recs())
      && (decoded.Some? ==>
            && |decoded.value| == |Recs()|
            && forall i :: 0 <= i < |Recs()| ==> decoded.value[i] == DecodeRecord(sha, Recs()[i]))
      && (forall i :: i in sparse ==> i < |Recs()| && sparse[i] == DecodeRecord(sha, Recs()[i]))
      && (originIndex.Some? ==>
            IndexFor(sha, Recs(), true, originIndex.value) || IndexFor(sha, Recs(), false, originIndex.value))
    }

    constructor (sha: Sha, data: Bytes)
      ensures Valid() && this.sha == sha && this.data == data && decoded.None? && sparse == map[] && originIndex.None?
      ensures truncatedAt.None? <==> Walk(data).1 == []
    {
      var h, t := WalkContainerInPlace(data);
      this.sha, this.data, headers, truncatedAt := sha, data, h, t;
      decoded, sparse, originIndex := None, map[], None;
    }

    /** `_record_at`: decoded at most once. */
    method RecordAt(i: nat) returns (d: Decoded)
      requires Valid() && i < |Recs()|
      modifies this`sparse
      ensures Valid() && d == DecodeRecord(sha, Recs()[i])
    {
      hide DecodeRecord, Walk, IndexFor;
      if decoded.Some? {
        return decoded.value[i];
      }
      if i in sparse {
        return sparse[i];
      }
      ghost var r := Recs()[i];
      assert InFile(data, headers.off[i], headers.hlen[i], headers.blen[i], r);
      var rec := Rec(At(data, headers.off[i], headers.hlen[i]),
                     At(data, headers.off[i] + headers.hlen[i], headers.blen[i]));
      d := DecodeFully(sha, rec);
      sparse := sparse[i := d];
    }

    /** `_decoded_records`: the whole chain, once. */
    method DecodeAll() returns (all: seq<Decoded>)
      requires Valid()
      modifies this`decoded, this`sparse
      ensures Valid() && decoded == Some(all)
    {
      hide DecodeRecord, Walk, IndexFor;
      if decoded.Some? {
        return decoded.value;
      }
      all := [];
      for i := 0 to |headers.off|
        invariant Valid() && decoded.None? && |all| == i
        invariant forall k :: 0 <= k < i ==> all[k] == DecodeRecord(sha, Recs()[k])
      {
        var d := RecordAt(i);
        all := all + [d];
      }
      decoded := Some(all);
    }

    /** `_kind_probe`: from the cache when warm, else from the first item of the body. */
    method KindAt(i: nat) returns (kind: Option<nat>)
      requires Valid() && i < |Recs()|
      modifies this`sparse
      ensures Valid() && kind == KindSeen(sha, Recs()[i], decoded.None?)
    {
      hide DecodeRecord, Walk, IndexFor, Probe, UnLe, ParseTlvs;
      if decoded.Some? {
        return decoded.value[i].kind;
      }
      ghost var r := Recs()[i];
      var o, h, b := headers.off[i], headers.hlen[i], headers.blen[i];
      assert InFile(data, o, h, b, r);
      kind := KindProbe(sha, data, o, h, b, Rec(At(data, o, h), At(data, o + h, b)));
    }

    /** `record_fields_at`: every field equals the same field of the decoded record, whatever is cached. */
    method RecordFieldsAt(i: nat) returns (f: RecordFields)
      requires Valid() && i < |Recs()|
      ensures var d := DecodeRecord(sha, Recs()[i]); f == RecordFields(d.kind, d.source, d.outcome, d.detail)
    {
      hide DecodeRecord, Walk, IndexFor;
      if decoded.Some? || i in sparse {
        var d := if decoded.Some? then decoded.value[i] else sparse[i];
        return RecordFields(d.kind, d.source, d.outcome, d.detail);
      }
      ghost var r := Recs()[i];
      assert InFile(data, headers.off[i], headers.hlen[i], headers.blen[i], r);
      var spans: Option<seq<Span>>;
      f, spans := FieldsInPlace(sha, data, headers.off[i], headers.hlen[i], headers.blen[i], true, r);
    }

    /** The seq map of the referential pass: the last position of each seq. */
    method Positions() returns (pos: map<nat, nat>)
      requires Valid()
      ensures PosOf(Recs(), pos)
    {
      hide DecodeRecord, Walk, IndexFor, SeqIn;
      pos := map[];
      ghost var rs := Recs();
      for i := 0 to |headers.off|
        invariant forall k :: 0 <= k < i ==> SeqIn(rs[k]) in pos && pos[SeqIn(rs[k])] >= k
        invariant forall q :: q in pos ==> pos[q] < i && SeqIn(rs[pos[q]]) == q
      {
        var q := headers.SeqAt(i, rs);
        pos := pos[q := i];
      }
    }

    /** `_check_reference_in_place`: exactly the items of the decoded check. */
    method CheckReferenceInPlace(i: nat, pos: map<nat, nat>) returns (items: seq<Item>)
      requires Valid() && i < |Recs()| && PosOf(Recs(), pos)
      ensures items == CheckReference(sha, Recs(), pos, i)
    {
      hide DecodeRecord, Walk, IndexFor, LastVal, Decode, Values, UnLe;
      ghost var rs := Recs();
      var o, h, b := headers.off[i], headers.hlen[i], headers.blen[i];
      assert InFile(data, o, h, b, rs[i]);
      DecodedParts(sha, rs[i]);
      NoTlvsNoReference();
      var fields, spans := FieldsInPlace(sha, data, o, h, b, false, rs[i]);
      if spans.None? {
        return [];
      }
      var rawSeq, rawHash := LastSpans(data, spans.value);
      if rawSeq.None? || |rawSeq.value| != 8 || rawHash.None? {
        return [];
      }
      var refSeq := U64(rawSeq.value, 0);
      KeyInPlace(data, o, h, rs[i].hb);
      var seqNo := headers.SeqAt(i, rs);
      var boot := Some(At(data, o + 20, 16));
      if refSeq !in pos {
        return [Item(ReferenceUnresolved, seqNo, boot, fields.kind, refSeq)];
      }
      var t := pos[refSeq];
      DecodedParts(sha, rs[t]);
      var targetHb := headers.HeaderAt(t, rs);
      if sha(targetHb) != rawHash.value {
        return [Item(ReferenceHashMismatch, seqNo, boot, fields.kind, refSeq)];
      }
      assert InFile(data, headers.off[t], headers.hlen[t], headers.blen[t], rs[t]);
      var targetFields, targetSpans :=
        FieldsInPlace(sha, data, headers.off[t], headers.hlen[t], headers.blen[t], false, rs[t]);
      var v := ReferenceVerdict(fields.kind, targetFields.kind);
      items := if v.None? then [] else [Item(v.value, seqNo, boot, fields.kind, refSeq)];
    }

    /** `_build_origin_index`: one pass over the headers. */
    method BuildOriginIndex() returns (x: OriginIndex)
      requires Valid()
      modifies this`sparse
      ensures Valid() && decoded == old(decoded) && IndexFor(sha, Recs(), decoded.None?, x)
    {
      hide DecodeRecord, Walk, SeqIn, Decode, KindSeen, SeenSets, Reaches, SetsListed, IndexFor;
      ghost var rs, cold := Recs(), decoded.None?;
      NothingIndexed(sha, rs, cold);
      var positions: seq<nat>, reach: seq<nat>, setters: seq<nat>, unloads: seq<bool> := [], [], [], [];
      var top: nat := 0;
      for i := 0 to |headers.off|
        invariant Valid()
        invariant Reaches(rs, positions, reach, i) && SetsListed(sha, rs, cold, setters, unloads, i)
        invariant |positions| == |reach| && (positions != [] ==> top == reach[|reach| - 1])
      {
        assert InFile(data, headers.off[i], headers.hlen[i], headers.blen[i], rs[i]);
        var fields := FieldsAt(data, headers.off[i], headers.hlen[i], rs[i]);
        if fields.None? {
          ReachesSkip(rs, positions, reach, i);
          UndecodedUnseen(sha, rs[i], cold);
          SetsSkip(sha, rs, cold, setters, unloads, i);
          continue;
        }
        FieldsSeq(rs[i]);
        top := if positions != [] && top >= fields.value.seqNo then top else fields.value.seqNo;
        ReachesTake(rs, positions, reach, i, top);
        positions, reach := positions + [i], reach + [top];
        setters, unloads := NoteSetter(i, fields.value, setters, unloads, cold);
      }
      x := OriginIndex(positions, reach, setters, unloads);
      IndexMade(sha, rs, cold, x);
    }

    /** Whether record `i` sets the origin state, and how. */
    method NoteSetter(i: nat, fields: HeaderFields, setters: seq<nat>, unloads: seq<bool>, ghost cold: bool)
        returns (setters': seq<nat>, unloads': seq<bool>)
      requires Valid() && i < |Recs()| && cold == decoded.None? && Decode(Recs()[i].hb).Some?
      requires fields == FieldsOf(Decode(Recs()[i].hb).value)
      requires SetsListed(sha, Recs(), cold, setters, unloads, i)
      modifies this`sparse
      ensures Valid() && SetsListed(sha, Recs(), cold, setters', unloads', i + 1)
    {
      hide DecodeRecord, Walk, SeqIn, KindSeen, SetsListed, IndexFor, ParseTlvs, UnLe, HasTag;
      ghost var rs := Recs();
      setters', unloads' := setters, unloads;
      if fields.recordType != RT_EVENT {
        SetsSkip(sha, rs, cold, setters, unloads, i);
        return;
      }
      var kind := KindAt(i);
      var o, h := headers.off[i], headers.hlen[i];
      assert InFile(data, o, h, headers.blen[i], rs[i]);
      TlvArea(data, o, h, rs[i]);
      var digest := HasTlv(data, o + FIXED_LEN, o + h, TLV_ORIGIN_MODEL_DIGEST);
      if kind == Some(KIND_MODEL_UNLOAD) {
        SetsTake(sha, rs, cold, setters, unloads, i, true);
        setters', unloads' := setters + [i], unloads + [true];
      } else if kind == Some(KIND_MODEL_LOAD) || digest {
        SetsTake(sha, rs, cold, setters, unloads, i, false);
        setters', unloads' := setters + [i], unloads + [false];
      } else {
        SetsSkip(sha, rs, cold, setters, unloads, i);
      }
    }

    /** Whether the cached index was built from decoded kinds. */
    ghost predicate BuiltWarm()
      requires Valid()
      reads this, headers
    {
      originIndex.Some? && IndexFor(sha, Recs(), false, originIndex.value)
    }

    /** `_origin_state_at`: the answer is the linear walk's exactly when the index is warm, or the record
        it is taken from is not misread, or is right by chance. */
    method OriginStateAt(q: nat) returns (origin: Option<OriginView>, unloaded: bool)
      requires Valid()
      modifies this`sparse, this`originIndex
      ensures Valid() && originIndex.Some? && (old(originIndex).Some? ==> originIndex == old(originIndex))
      ensures old(originIndex).None? && decoded.Some? ==> BuiltWarm()
      ensures (origin, unloaded) == Answer(sha, Recs(), LinearWalk(sha, Recs(), q, 0, Never))
        <==> AnswersRight(sha, Recs(), !BuiltWarm(), originIndex.value, q)
      ensures NoneMisread(Recs()) || BuiltWarm() ==>
        && (origin, unloaded) == Answer(sha, Recs(), LinearWalk(sha, Recs(), q, 0, Never))
        && exists j :: InForce(sha, Recs(), q, j) && Answered(sha, Recs(), j, origin, unloaded)
      ensures origin.Some? ==> exists i :: 0 <= i < |Recs()| && OriginShown(Recs()[i], origin.value)
    {
      hide DecodeRecord, Walk, SeqIn, Decode, KindSeen, SeenSets, LinearWalk, NoneMisread, AnswersRight, Misread,
        IndexFor, Answer;
      hide LastBelow, StopOf, OriginOf, InForce, Answered, OriginShown;
      ghost var rs := Recs();
      if originIndex.None? {
        var built := BuildOriginIndex();
        originIndex := Some(built);
      }
      var x := originIndex.value;
      ghost var cold := !IndexFor(sha, rs, false, x);
      assert IndexFor(sha, rs, cold, x);
      AnswerIsRight(sha, rs, cold, x, q);
      TrustedIsRight(sha, rs, cold, x, q);
      IndexSorted(sha, rs, cold, x);
      var k := BisectRight(x.reach, q);
      var cutoff := if k < |x.positions| then x.positions[k] else |headers.off|;
      var n := BisectLeft(x.setters, cutoff);
      var j := (n as int) - 1;
      IndexAnswers(sha, rs, cold, x, q, k, j);
      AnswerIs(sha, rs, StateFound(rs, x, q));
      ghost var inForce := WalkSays(sha, rs, q);
      if j < 0 {
        return None, false;
      }
      if x.unloads[j] {
        return None, true;
      }
      SetterDecodes(sha, rs, cold, x, j);
      var d := RecordAt(x.setters[j]);
      OriginIsShown(sha, rs[x.setters[j]]);
      DecodedParts(sha, rs[x.setters[j]]);
      return Some(OriginOf(d)), false;
    }
  }

  lemma AnswerIs(sha: Sha, rs: seq<Rec>, st: OriginState)
    requires RecsOk(rs)
    ensures st.Never? ==> Answer(sha, rs, st) == (None, false)
    ensures st.Unloaded? ==> Answer(sha, rs, st) == (None, true)
    ensures st.Declared? && st.at < |rs| && DecodeRecord(sha, rs[st.at]).header.Some? ==>
      Answer(sha, rs, st) == (Some(OriginOf(DecodeRecord(sha, rs[st.at]))), false)
  {
    hide DecodeRecord, OriginOf;
  }

  lemma TrustedIsRight(sha: Sha, rs: seq<Rec>, cold: bool, x: OriginIndex, q: nat)
    requires RecsOk(rs)
    ensures !cold || NoneMisread(rs) ==> AnswersRight(sha, rs, cold, x, q)
  {
    hide Misread, Found, RightByChance;
  }

  lemma IndexSorted(sha: Sha, rs: seq<Rec>, cold: bool, x: OriginIndex)
    requires RecsOk(rs) && IndexFor(sha, rs, cold, x)
    ensures Sorted(x.reach) && |x.reach| == |x.positions| && Increasing(x.setters) && |x.unloads| == |x.setters|
  {
    hide SeenSets, KindSeen, Attained;
  }

  lemma NothingIndexed(sha: Sha, rs: seq<Rec>, cold: bool)
    requires RecsOk(rs)
    ensures Reaches(rs, [], [], 0) && SetsListed(sha, rs, cold, [], [], 0)
  {
  }

  lemma IndexMade(sha: Sha, rs: seq<Rec>, cold: bool, x: OriginIndex)
    requires RecsOk(rs) && Reaches(rs, x.positions, x.reach, |rs|)
    requires SetsListed(sha, rs, cold, x.setters, x.unloads, |rs|)
    ensures IndexFor(sha, rs, cold, x)
  {
  }

  lemma UndecodedUnseen(sha: Sha, r: Rec, cold: bool)
    requires RecOk(r) && Decode(r.hb).None?
    ensures !SeenSets(sha, r, cold)
  {
  }

  lemma FieldsSeq(r: Rec)
    requires RecOk(r) && Decode(r.hb).Some?
    ensures FieldsOf(Decode(r.hb).value).seqNo == SeqIn(r)
  {
    hide ParseTlvs, UnLe;
  }

  lemma TlvArea(data: Bytes, off: nat, hlen: nat, r: Rec)
    requires off + hlen <= |data| && hlen >= FIXED_LEN && At(data, off, hlen) == r.hb && Decode(r.hb).Some?
    ensures ParseTlvs(data[off + FIXED_LEN..off + hlen]) == Some(Decode(r.hb).value.tlvs)
  {
    hide ParseTlvs, UnLe;
    SliceOfSlice(data, off, off + hlen, FIXED_LEN, hlen - FIXED_LEN);
    assert r.hb[FIXED_LEN..FIXED_LEN + (hlen - FIXED_LEN)] == r.hb[FIXED_LEN..];
  }

  lemma SetterDecodes(sha: Sha, rs: seq<Rec>, cold: bool, x: OriginIndex, j: nat)
    requires RecsOk(rs) && IndexFor(sha, rs, cold, x) && j < |x.setters|
    ensures x.setters[j] < |rs| && Decode(rs[x.setters[j]].hb).Some?
  {
    hide Decode, KindSeen, HasTag;
    assert x.setters[j] in x.setters;
  }

  // ---------- where the index misreads ----------

  /** An event whose body opens with MODEL_LOAD and then has one byte too many. */
  function Damaged(): Rec {
    var h := Header(RT_EVENT, 0, ZERO16, ZERO32, 0, 1, ZERO16, ZERO16, 0, 0, 0, 7, ZERO32, []);
    DamagedFits(h);
    Rec(Encode(h), [1, 0, 2, 0, 1, 0, 0])
  }

  lemma DamagedFits(h: Header)
    requires h == Header(RT_EVENT, 0, ZERO16, ZERO32, 0, 1, ZERO16, ZERO16, 0, 0, 0, 7, ZERO32, [])
    ensures Fits(h)
  {
    assert EncodeTlvs([]) == [];
  }

  lemma DamagedHeader()
    ensures RecOk(Damaged()) && Decode(Damaged().hb).Some?
    ensures var h := Decode(Damaged().hb).value;
      h.recordType == RT_EVENT && h.keyId == 0 && h.seqNo == 0 && h.tlvs == []
    ensures U16(Damaged().hb, 8) == RT_EVENT && U32(Damaged().hb, 116) == 0
  {
    var h := Header(RT_EVENT, 0, ZERO16, ZERO32, 0, 1, ZERO16, ZERO16, 0, 0, 0, 7, ZERO32, []);
    DamagedFits(h);
    DecodeEncoded(h);
    EncodedPrefixFields(h);
    EncodedSuffixFields(h);
    hide Encode, Decode, UnLe, ParseTlvs;
  }

  lemma DamagedBody()
    ensures var b := Damaged().body;
      |b| == 7 && U16(b, 0) == EVT_KIND && U16(b, 2) == 2 && U16(b, 4) == KIND_MODEL_LOAD && ParseTlvs(b).None?
  {
    hide Encode;
    var b := Damaged().body;
    Pair(b, 0);
    Pair(b, 2);
    Pair(b, 4);
    assert b[0..] == b;
    ParseStep(b, 0);
    FirstInPlace(b, 0);
    ParseStep(b, 6);
    FirstInPlace(b, 6);
    hide ParseTlvs;
  }

  lemma Pair(b: Bytes, off: nat)
    requires off + 2 <= |b|
    ensures U16(b, off) == (b[off] as int) + 256 * (b[off + 1] as int)
  {
    var s := At(b, off, 2);
    assert s[0] == b[off] && s[1..] == [b[off + 1]] && s[1..][1..] == [];
    assert UnLe(s[1..]) == b[off + 1] as int;
  }

  /** The condition is needed: here the cold index reports a model load the linear walk never sees. */
  lemma IndexMisreads(sha: Sha)
    ensures var r := Damaged();
      RecOk(r) && RecsOk([r]) && !NoneMisread([r]) && SeenSets(sha, r, true) && !Sets(sha, [r], 0)
      && LinearWalk(sha, [r], 0, 0, Never) == Never
    ensures forall x :: IndexFor(sha, [Damaged()], true, x) ==> 0 in x.setters
  {
    DamagedHeader();
    DamagedBody();
    var r := Damaged();
    hide Damaged, ParseTlvs, UnLe, Encode, FirstVal, U16, U32;
    assert OpensWithKind([r][0]);
    DecodedParts(sha, r);
    var d := DecodeRecord(sha, r);
    assert d.kind.None? && d.recordType == RT_EVENT && d.bodyTlvs.None?;
    assert FirstVal([], TLV_ORIGIN_MODEL_DIGEST, 0, ANY) == None by {
      TagIsFound([], TLV_ORIGIN_MODEL_DIGEST);
    }
    assert Probe(sha, r) == Some(KIND_MODEL_LOAD);
    hide DecodeRecord, Decode, Probe, OpensWithKind;
    assert SetBy(sha, [r], 0, Never) == Never;
    forall x | IndexFor(sha, [r], true, x) ensures 0 in x.setters {
      assert SeenSets(sha, [r][0], true);
    }
  }
}
