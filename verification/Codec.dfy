/** The PALA-1 wire format: TLV lists, the 156-byte header, and the record container. */
module Codec {
  import opened Bytes

  const MAGIC: Bytes := [0x50, 0x41, 0x4C, 0x41]
  const FORMAT_VERSION: nat := 1
  const FIXED_LEN: nat := 156

  const RT_GENESIS: nat := 0x0001
  const RT_BOOT: nat := 0x0002
  const RT_SPAN_START: nat := 0x0010
  const RT_SPAN_END: nat := 0x0011
  const RT_EVENT: nat := 0x0012
  const RT_SAFETY: nat := 0x0040

  const TIME_UNKNOWN: nat := 0
  const TIME_NTP_SYNCED: nat := 3
  const NONCE_LEN: nat := 12
  const GCM_TAG_LEN: nat := 16

  // ---------- TLVs ----------

  datatype Tlv = Tlv(tag: nat, val: Bytes)

  predicate TlvFits(x: Tlv) {
    x.tag < 0x1_0000 && |x.val| < 0x1_0000
  }

  predicate TlvsFit(ts: seq<Tlv>) {
    forall i :: 0 <= i < |ts| ==> TlvFits(ts[i])
  }

  function EncodeTlv(x: Tlv): (s: Bytes)
    ensures |s| == 4 + |x.val|
  {
    Le(x.tag, 2) + Le(|x.val|, 2) + x.val
  }

  function EncodeTlvs(ts: seq<Tlv>): Bytes {
    if ts == [] then [] else EncodeTlv(ts[0]) + EncodeTlvs(ts[1..])
  }

  /** The first item and its length, or None when it is truncated or overruns the buffer. */
  function FirstTlv(buf: Bytes): (r: Option<Tlv>)
    ensures r.Some? ==> TlvFits(r.value) && 4 + |r.value.val| <= |buf|
  {
    if |buf| < 4 || 4 + U16(buf, 2) > |buf| then None
    else Some(Tlv(U16(buf, 0), At(buf, 4, U16(buf, 2))))
  }

  function ParseTlvs(buf: Bytes): (r: Option<seq<Tlv>>) {
    if buf == [] then Some([])
    else
      var x := FirstTlv(buf);
      if x.None? then None
      else
        var rest := ParseTlvs(buf[4 + |x.value.val|..]);
        if rest.None? then None else Some([x.value] + rest.value)
  }

  function Prepend<T>(front: seq<T>, r: Option<seq<T>>): Option<seq<T>> {
    if r.None? then None else Some(front + r.value)
  }

  lemma ParseStep(buf: Bytes, off: nat)
    requires off < |buf|
    ensures FirstTlv(buf[off..]).None? ==> ParseTlvs(buf[off..]).None?
    ensures FirstTlv(buf[off..]).Some? ==>
      var x := FirstTlv(buf[off..]).value;
      ParseTlvs(buf[off..]) == Prepend([x], ParseTlvs(buf[off + 4 + |x.val|..]))
  {
    var x := FirstTlv(buf[off..]);
    if x.Some? {
      assert buf[off..][4 + |x.value.val|..] == buf[off + 4 + |x.value.val|..];
    }
  }

  method DecodeTlvs(buf: Bytes) returns (r: Option<seq<Tlv>>)
    ensures r == ParseTlvs(buf)
  {
    var out: seq<Tlv> := [];
    var off := 0;
    assert buf[0..] == buf;
    EmptyFront(ParseTlvs(buf));
    while off < |buf|
      invariant 0 <= off <= |buf|
      invariant ParseTlvs(buf) == Prepend(out, ParseTlvs(buf[off..]))
      decreases |buf| - off
    {
      ParseStep(buf, off);
      FirstInPlace(buf, off);
      if off + 4 > |buf| {
        return None;
      }
      var t, ln := U16(buf, off), U16(buf, off + 2);
      off := off + 4;
      if off + ln > |buf| {
        return None;
      }
      AssocOption(out, [Tlv(t, At(buf, off, ln))], ParseTlvs(buf[off + ln..]));
      out := out + [Tlv(t, At(buf, off, ln))];
      off := off + ln;
    }
    assert buf[off..] == [];
    assert out + [] == out;
    return Some(out);
  }

  /** The first item read in place, at an offset into a larger buffer. */
  lemma FirstInPlace(buf: Bytes, off: nat)
    requires off <= |buf|
    ensures FirstTlv(buf[off..]) ==
      if off + 4 > |buf| || off + 4 + U16(buf, off + 2) > |buf| then None
      else Some(Tlv(U16(buf, off), At(buf, off + 4, U16(buf, off + 2))))
  {
    if off + 4 <= |buf| {
      assert buf[off..][0..2] == buf[off..off + 2] && buf[off..][2..4] == buf[off + 2..off + 4];
      var ln := U16(buf, off + 2);
      if off + 4 + ln <= |buf| {
        assert buf[off..][4..4 + ln] == buf[off + 4..off + 4 + ln];
      }
    }
  }

  lemma EmptyFront<T>(r: Option<seq<T>>)
    ensures Prepend([], r) == r
  {
    if r.Some? {
      assert [] + r.value == r.value;
    }
  }

  lemma AssocOption<T>(a: seq<T>, b: seq<T>, r: Option<seq<T>>)
    ensures Prepend(a, Prepend(b, r)) == Prepend(a + b, r)
  {
    if r.Some? {
      Assoc(a, b, r.value);
    }
  }

  lemma FirstOfEncoded(x: Tlv, rest: Bytes)
    requires TlvFits(x)
    ensures FirstTlv(EncodeTlv(x) + rest) == Some(x)
    ensures (EncodeTlv(x) + rest)[4 + |x.val|..] == rest
  {
    PowerWidths();
    UnLeLe(x.tag, 2);
    UnLeLe(|x.val|, 2);
    var s := EncodeTlv(x) + rest;
    assert s[0..2] == Le(x.tag, 2) && s[2..4] == Le(|x.val|, 2) && s[4..4 + |x.val|] == x.val;
  }

  lemma {:induction false} ParseEncoded(ts: seq<Tlv>)
    requires TlvsFit(ts)
    ensures ParseTlvs(EncodeTlvs(ts)) == Some(ts)
  {
    if ts != [] {
      FirstOfEncoded(ts[0], EncodeTlvs(ts[1..]));
      ParseEncoded(ts[1..]);
      assert ts == [ts[0]] + ts[1..];
    }
  }

  lemma EncodedFirst(buf: Bytes)
    requires FirstTlv(buf).Some?
    ensures EncodeTlv(FirstTlv(buf).value) == buf[..4 + |FirstTlv(buf).value.val|]
  {
    LeUnLe(At(buf, 0, 2));
    LeUnLe(At(buf, 2, 2));
  }

  lemma {:induction false} EncodeParsed(buf: Bytes)
    requires ParseTlvs(buf).Some?
    ensures TlvsFit(ParseTlvs(buf).value)
    ensures EncodeTlvs(ParseTlvs(buf).value) == buf
  {
    if buf != [] {
      var x := FirstTlv(buf).value;
      EncodedFirst(buf);
      EncodeParsed(buf[4 + |x.val|..]);
      assert ParseTlvs(buf).value[1..] == ParseTlvs(buf[4 + |x.val|..]).value;
      assert buf == buf[..4 + |x.val|] + buf[4 + |x.val|..];
    }
  }

  /** `dict(tlvs).get(tag)`: the last value of a tag. */
  function LastVal(ts: seq<Tlv>, tag: nat): Option<Bytes> {
    if ts == [] then None
    else if ts[|ts| - 1].tag == tag then Some(ts[|ts| - 1].val)
    else LastVal(ts[..|ts| - 1], tag)
  }

  /** `v` is the value of the last item of a tag, None when there is none. */
  ghost predicate IsLast(ts: seq<Tlv>, tag: nat, v: Option<Bytes>) {
    match v
    case None => forall i :: 0 <= i < |ts| ==> ts[i].tag != tag
    case Some(x) => exists i :: 0 <= i < |ts| && ts[i].tag == tag && ts[i].val == x
                                && forall j :: i < j < |ts| ==> ts[j].tag != tag
  }

  lemma {:induction false} LastValIs(ts: seq<Tlv>, tag: nat)
    ensures IsLast(ts, tag, LastVal(ts, tag))
    decreases |ts|
  {
    if ts != [] && ts[|ts| - 1].tag != tag {
      var front := ts[..|ts| - 1];
      LastValIs(front, tag);
      if LastVal(front, tag).Some? {
        var i :| 0 <= i < |front| && front[i].tag == tag && front[i].val == LastVal(front, tag).value
          && forall j :: i < j < |front| ==> front[j].tag != tag;
        forall j | i < j < |ts| ensures ts[j].tag != tag {
          assert j < |front| ==> ts[j] == front[j];
        }
        assert ts[i] == front[i];
      } else {
        forall j | 0 <= j < |ts| ensures ts[j].tag != tag {
          assert j < |front| ==> ts[j] == front[j];
        }
      }
    }
  }

  lemma LastIsOne(ts: seq<Tlv>, tag: nat, v: Option<Bytes>, w: Option<Bytes>)
    requires IsLast(ts, tag, v) && IsLast(ts, tag, w)
    ensures v == w
  {
    if v.Some? && w.Some? {
      var i :| 0 <= i < |ts| && ts[i].tag == tag && ts[i].val == v.value
        && forall j :: i < j < |ts| ==> ts[j].tag != tag;
      var k :| 0 <= k < |ts| && ts[k].tag == tag && ts[k].val == w.value
        && forall j :: k < j < |ts| ==> ts[j].tag != tag;
      assert i == k;
    }
  }

  lemma LastValSnoc(ts: seq<Tlv>, x: Tlv, tag: nat)
    ensures LastVal(ts + [x], tag) == if x.tag == tag then Some(x.val) else LastVal(ts, tag)
  {
    assert (ts + [x])[..|ts|] == ts;
  }

  // ---------- the header ----------

  datatype Header = Header(
    recordType: nat, seqNo: nat, bootId: Bytes, prevHash: Bytes, tier: nat, timeTrust: nat,
    spanId: Bytes, parentSpanId: Bytes, monotonicNs: nat, wallClockNs: int, keyId: nat,
    bodyLen: nat, bodyDigest: Bytes, tlvs: seq<Tlv>)

  function HeaderLen(h: Header): nat { FIXED_LEN + |EncodeTlvs(h.tlvs)| }

  /** Every value fits its field: what `struct.pack` demands, and exact lengths for byte fields. */
  predicate Fits(h: Header) {
    && h.recordType < 0x1_0000 && h.seqNo < 0x1_0000_0000_0000_0000
    && |h.bootId| == 16 && |h.prevHash| == 32 && h.tier < 256 && h.timeTrust < 256
    && |h.spanId| == 16 && |h.parentSpanId| == 16
    && h.monotonicNs < 0x1_0000_0000_0000_0000
    && -0x8000_0000_0000_0000 <= h.wallClockNs < 0x8000_0000_0000_0000
    && h.keyId < 0x1_0000_0000 && h.bodyLen < 0x1_0000_0000 && |h.bodyDigest| == 32
    && TlvsFit(h.tlvs) && HeaderLen(h) < 0x1_0000
  }

  /** The 16 fixed fields, packed little-endian in order. */
  function Chunks(h: Header): (cs: seq<Bytes>)
    requires Fits(h)
    ensures |cs| == 16
  {
    [MAGIC, Le(FORMAT_VERSION, 2), Le(HeaderLen(h), 2), Le(h.recordType, 2), [h.tier], [h.timeTrust],
     Le(h.seqNo, 8), h.bootId, h.prevHash, h.spanId, h.parentSpanId, Le(h.monotonicNs, 8),
     LeSigned(h.wallClockNs), Le(h.keyId, 4), Le(h.bodyLen, 4), h.bodyDigest]
  }

  function Concat(cs: seq<Bytes>): Bytes {
    if cs == [] then [] else Concat(cs[..|cs| - 1]) + cs[|cs| - 1]
  }

  function Encode(h: Header): Bytes
    requires Fits(h)
  {
    Concat(Chunks(h)) + EncodeTlvs(h.tlvs)
  }

  /** Where chunk `i` starts. */
  function Offset(cs: seq<Bytes>, i: nat): nat
    requires i <= |cs|
  {
    if i == 0 then 0 else Offset(cs, i - 1) + |cs[i - 1]|
  }

  lemma {:induction false} OffsetOfPrefix(cs: seq<Bytes>, i: nat, n: nat)
    requires i <= n <= |cs|
    ensures Offset(cs[..n], i) == Offset(cs, i)
  {
    if i > 0 {
      OffsetOfPrefix(cs, i - 1, n);
    }
  }

  lemma {:induction false} ConcatAt(cs: seq<Bytes>, i: nat)
    requires i < |cs|
    ensures Offset(cs, i) + |cs[i]| <= |Concat(cs)| == Offset(cs, |cs|)
    ensures At(Concat(cs), Offset(cs, i), |cs[i]|) == cs[i]
    decreases |cs|
  {
    var n := |cs| - 1;
    OffsetOfPrefix(cs, n, n);
    if i < n {
      ConcatAt(cs[..n], i);
      OffsetOfPrefix(cs, i, n);
    } else {
      ConcatLength(cs[..n]);
    }
  }

  lemma {:induction false} ConcatLength(cs: seq<Bytes>)
    ensures |Concat(cs)| == Offset(cs, |cs|)
    decreases |cs|
  {
    if cs != [] {
      var n := |cs| - 1;
      ConcatLength(cs[..n]);
      OffsetOfPrefix(cs, n, n);
    }
  }

  ghost predicate IsSlice(cs: seq<Bytes>, buf: Bytes, i: nat) {
    && i < |cs| && Offset(cs, i) + |cs[i]| <= |buf|
    && cs[i] == At(buf, Offset(cs, i), |cs[i]|)
  }

  ghost predicate AreSlices(cs: seq<Bytes>, buf: Bytes) {
    Offset(cs, |cs|) <= |buf| && forall i :: 0 <= i < |cs| ==> IsSlice(cs, buf, i)
  }

  lemma SlicesOfPrefix(cs: seq<Bytes>, buf: Bytes)
    requires cs != [] && AreSlices(cs, buf)
    ensures AreSlices(cs[..|cs| - 1], buf)
    ensures Offset(cs[..|cs| - 1], |cs| - 1) == Offset(cs, |cs| - 1)
  {
    var n := |cs| - 1;
    OffsetOfPrefix(cs, n, n);
    forall i | 0 <= i < n ensures IsSlice(cs[..n], buf, i) {
      assert IsSlice(cs, buf, i);
      OffsetOfPrefix(cs, i, n);
    }
  }

  /** Chunks that are consecutive slices of a buffer give the buffer back. */
  lemma {:induction false} ConcatSlices(cs: seq<Bytes>, buf: Bytes)
    requires AreSlices(cs, buf)
    ensures Offset(cs, |cs|) <= |buf| && Concat(cs) == buf[..Offset(cs, |cs|)]
    decreases |cs|
  {
    if cs != [] {
      assert IsSlice(cs, buf, |cs| - 1);
      SlicesOfPrefix(cs, buf);
      ConcatSlices(cs[..|cs| - 1], buf);
      Snoc(cs);
      ConcatLast(cs[..|cs| - 1], cs[|cs| - 1], buf, Offset(cs, |cs| - 1));
    }
  }

  lemma ConcatLast(front: seq<Bytes>, last: Bytes, buf: Bytes, o: nat)
    requires o + |last| <= |buf| && last == At(buf, o, |last|) && Concat(front) == buf[..o]
    ensures Concat(front + [last]) == buf[..o + |last|]
  {
    hide *;
    ConcatSnoc(front, last);
    ExtendPrefix(buf, o, Concat(front), last);
  }

  lemma ConcatSnoc(front: seq<Bytes>, last: Bytes)
    ensures Concat(front + [last]) == Concat(front) + last
  {
    assert (front + [last])[..|front|] == front;
  }

  lemma ExtendPrefix(buf: Bytes, o: nat, front: Bytes, last: Bytes)
    requires o + |last| <= |buf| && last == At(buf, o, |last|) && front == buf[..o]
    ensures front + last == buf[..o + |last|]
  {
    TakeMore(buf, o, |last|);
  }

  /** The field offsets of section 2.1 of PALA-1. */
  const OFFSETS: seq<nat> := [0, 4, 6, 8, 10, 11, 12, 20, 36, 68, 84, 100, 108, 116, 120, 124, 156]

  ghost predicate Widths(cs: seq<Bytes>) {
    && |cs| == 16
    && |cs[0]| == 4 && |cs[1]| == 2 && |cs[2]| == 2 && |cs[3]| == 2 && |cs[4]| == 1 && |cs[5]| == 1
    && |cs[6]| == 8 && |cs[7]| == 16 && |cs[8]| == 32 && |cs[9]| == 16 && |cs[10]| == 16 && |cs[11]| == 8
    && |cs[12]| == 8 && |cs[13]| == 4 && |cs[14]| == 4 && |cs[15]| == 32
  }

  lemma FieldOffsets(cs: seq<Bytes>)
    requires Widths(cs)
    ensures forall i :: 0 <= i <= 16 ==> Offset(cs, i) == OFFSETS[i]
  {
    assert Offset(cs, 1) == 4;
    assert Offset(cs, 2) == 6;
    assert Offset(cs, 3) == 8;
    assert Offset(cs, 4) == 10;
    assert Offset(cs, 5) == 11;
    assert Offset(cs, 6) == 12;
    assert Offset(cs, 7) == 20;
    assert Offset(cs, 8) == 36;
    assert Offset(cs, 9) == 68;
    assert Offset(cs, 10) == 84;
    assert Offset(cs, 11) == 100;
    assert Offset(cs, 12) == 108;
    assert Offset(cs, 13) == 116;
    assert Offset(cs, 14) == 120;
    assert Offset(cs, 15) == 124;
    assert Offset(cs, 16) == 156;
  }

  /** Chunk `i` of an encoded header, read in place. */
  lemma EncodedChunk(h: Header, i: nat)
    requires Fits(h) && i < 16
    ensures |Encode(h)| == HeaderLen(h)
    ensures OFFSETS[i] + |Chunks(h)[i]| <= FIXED_LEN
    ensures At(Encode(h), OFFSETS[i], |Chunks(h)[i]|) == Chunks(h)[i]
  {
    hide *;
    var cs := Chunks(h);
    ChunksFit(h);
    EncodeIs(h);
    FieldOffsets(cs);
    ConcatLength(cs);
    ConcatAt(cs, i);
    OffsetsOrdered(i);
    PrefixAt(Concat(cs), EncodeTlvs(h.tlvs), OFFSETS[i], |cs[i]|);
  }

  lemma ChunksFit(h: Header)
    requires Fits(h)
    ensures Widths(Chunks(h)) && HeaderLen(h) == FIXED_LEN + |EncodeTlvs(h.tlvs)|
  {
    hide EncodeTlvs, Le, LeSigned;
  }

  lemma EncodeIs(h: Header)
    requires Fits(h)
    ensures Encode(h) == Concat(Chunks(h)) + EncodeTlvs(h.tlvs)
  {
    hide EncodeTlvs, Chunks, Concat;
  }

  lemma OffsetsOrdered(i: nat)
    requires i < 16
    ensures |OFFSETS| == 17 && OFFSETS[16] == FIXED_LEN && OFFSETS[i] <= OFFSETS[i + 1] <= OFFSETS[16]
  {
  }

  lemma PrefixAt(a: Bytes, b: Bytes, o: nat, l: nat)
    requires o + l <= |a|
    ensures At(a + b, o, l) == At(a, o, l)
  {
  }

  lemma SignedReads(hb: Bytes, off: nat, n: int)
    requires off + 8 <= |hb| && -0x8000_0000_0000_0000 <= n < 0x8000_0000_0000_0000
    requires At(hb, off, 8) == LeSigned(n)
    ensures I64(hb, off) == n
  {
    PowerWidths();
    UnLeLe(if n >= 0 then n else n + 0x1_0000_0000_0000_0000, 8);
  }

  /** Every fixed field of an encoded header reads back, at its own offset. */
  lemma EncodedPrefixFields(h: Header)
    requires Fits(h)
    ensures var hb := Encode(h);
      && |hb| == HeaderLen(h) >= FIXED_LEN
      && At(hb, 0, 4) == MAGIC && U16(hb, 4) == FORMAT_VERSION && U16(hb, 6) == |hb|
      && U16(hb, 8) == h.recordType && hb[10] == h.tier && hb[11] == h.timeTrust
      && U64(hb, 12) == h.seqNo
  {
    PowerWidths();
    var hb, cs := Encode(h), Chunks(h);
    EncodedChunk(h, 0);
    EncodedChunk(h, 1);
    EncodedChunk(h, 2);
    EncodedChunk(h, 3);
    EncodedChunk(h, 4);
    EncodedChunk(h, 5);
    EncodedChunk(h, 6);
    assert hb[10] == At(hb, 10, 1)[0] && hb[11] == At(hb, 11, 1)[0];
    UnLeLe(FORMAT_VERSION, 2);
    UnLeLe(HeaderLen(h), 2);
    UnLeLe(h.recordType, 2);
    UnLeLe(h.seqNo, 8);
  }

  lemma EncodedIds(h: Header)
    requires Fits(h)
    ensures var hb := Encode(h);
      && |hb| >= FIXED_LEN
      && At(hb, 20, 16) == h.bootId && At(hb, 36, 32) == h.prevHash
      && At(hb, 68, 16) == h.spanId && At(hb, 84, 16) == h.parentSpanId
  {
    EncodedChunk(h, 7);
    EncodedChunk(h, 8);
    EncodedChunk(h, 9);
    EncodedChunk(h, 10);
  }

  lemma EncodedSuffixFields(h: Header)
    requires Fits(h)
    ensures var hb := Encode(h);
      && |hb| >= FIXED_LEN
      && U64(hb, 100) == h.monotonicNs && I64(hb, 108) == h.wallClockNs
      && U32(hb, 116) == h.keyId && U32(hb, 120) == h.bodyLen
      && At(hb, 124, 32) == h.bodyDigest && hb[FIXED_LEN..] == EncodeTlvs(h.tlvs)
  {
    PowerWidths();
    EncodedChunk(h, 11);
    EncodedChunk(h, 12);
    EncodedChunk(h, 13);
    EncodedChunk(h, 14);
    EncodedChunk(h, 15);
    UnLeLe(h.monotonicNs, 8);
    UnLeLe(h.keyId, 4);
    UnLeLe(h.bodyLen, 4);
    var hb := Encode(h);
    SignedReads(hb, 108, h.wallClockNs);
    FieldOffsets(Chunks(h));
    ConcatLength(Chunks(h));
    assert hb[FIXED_LEN..] == EncodeTlvs(h.tlvs);
  }

  /** `Header.decode`: None for a short, foreign, mis-sized, unknown-version or malformed header. */
  function Decode(hb: Bytes): (r: Option<Header>) {
    if |hb| < FIXED_LEN || At(hb, 0, 4) != MAGIC || U16(hb, 6) != |hb| || U16(hb, 4) != FORMAT_VERSION then None
    else
      var ts := ParseTlvs(hb[FIXED_LEN..]);
      if ts.None? then None
      else Some(Header(U16(hb, 8), U64(hb, 12), At(hb, 20, 16), At(hb, 36, 32), hb[10], hb[11],
                       At(hb, 68, 16), At(hb, 84, 16), U64(hb, 100), I64(hb, 108), U32(hb, 116),
                       U32(hb, 120), At(hb, 124, 32), ts.value))
  }

  lemma DecodeEncoded(h: Header)
    requires Fits(h)
    ensures Decode(Encode(h)) == Some(h)
  {
    EncodedPrefixFields(h);
    EncodedIds(h);
    EncodedSuffixFields(h);
    ParseEncoded(h.tlvs);
  }

  lemma SignedEncodes(hb: Bytes, off: nat)
    requires off + 8 <= |hb|
    ensures LeSigned(I64(hb, off)) == At(hb, off, 8)
  {
    LeUnLe(At(hb, off, 8));
  }

  lemma DecodedFits(hb: Bytes)
    requires Decode(hb).Some?
    ensures Fits(Decode(hb).value) && HeaderLen(Decode(hb).value) == |hb|
  {
    EncodeParsed(hb[FIXED_LEN..]);
  }

  lemma DecodedChunks(hb: Bytes)
    requires Decode(hb).Some?
    ensures Fits(Decode(hb).value)
    ensures |hb| >= FIXED_LEN && FixedSlices(Chunks(Decode(hb).value), hb)
  {
    hide Le, UnLe, U16, U32, U64, I64, LeSigned, EncodeTlvs, ParseTlvs;
    DecodedFits(hb);
    Writes16(hb, 4);
    Writes16(hb, 6);
    Writes16(hb, 8);
    Writes64(hb, 12);
    Writes64(hb, 100);
    SignedEncodes(hb, 108);
    Writes32(hb, 116);
    Writes32(hb, 120);
    assert At(hb, 10, 1) == [hb[10]] && At(hb, 11, 1) == [hb[11]];
  }

  /** A header that decodes re-encodes to exactly its bytes: the encoding is canonical. */
  lemma EncodeDecoded(hb: Bytes)
    requires Decode(hb).Some?
    ensures Fits(Decode(hb).value) && Encode(Decode(hb).value) == hb
  {
    var h := Decode(hb).value;
    EncodeParsed(hb[FIXED_LEN..]);
    DecodedFixed(hb);
    assert hb == hb[..FIXED_LEN] + hb[FIXED_LEN..];
  }

  lemma DecodedFixed(hb: Bytes)
    requires Decode(hb).Some?
    ensures Fits(Decode(hb).value) && Concat(Chunks(Decode(hb).value)) == hb[..FIXED_LEN]
  {
    DecodedChunks(hb);
    hide *;
    var cs := Chunks(Decode(hb).value);
    SlicesAtOffsets(cs, hb);
    ConcatSlices(cs, hb);
  }

  /** The 16 chunks are the 16 fields of the buffer. */
  ghost predicate FixedSlices(cs: seq<Bytes>, hb: Bytes)
    requires |hb| >= FIXED_LEN
  {
    && |cs| == 16
    && cs[0] == At(hb, 0, 4)
    && cs[1] == At(hb, 4, 2)
    && cs[2] == At(hb, 6, 2)
    && cs[3] == At(hb, 8, 2)
    && cs[4] == At(hb, 10, 1)
    && cs[5] == At(hb, 11, 1)
    && cs[6] == At(hb, 12, 8)
    && cs[7] == At(hb, 20, 16)
    && cs[8] == At(hb, 36, 32)
    && cs[9] == At(hb, 68, 16)
    && cs[10] == At(hb, 84, 16)
    && cs[11] == At(hb, 100, 8)
    && cs[12] == At(hb, 108, 8)
    && cs[13] == At(hb, 116, 4)
    && cs[14] == At(hb, 120, 4)
    && cs[15] == At(hb, 124, 32)
  }

  lemma SliceAt(cs: seq<Bytes>, hb: Bytes, i: nat, off: nat, len: nat)
    requires i < |cs| && Offset(cs, i) == off && off + len <= |hb| && cs[i] == At(hb, off, len)
    ensures IsSlice(cs, hb, i)
  {
  }

  lemma SlicesAtOffsets(cs: seq<Bytes>, hb: Bytes)
    requires |hb| >= FIXED_LEN && FixedSlices(cs, hb)
    ensures Offset(cs, |cs|) == FIXED_LEN && AreSlices(cs, hb)
  {
    FieldOffsets(cs);
    hide Offset, At, IsSlice;
    SliceAt(cs, hb, 0, 0, 4);
    SliceAt(cs, hb, 1, 4, 2);
    SliceAt(cs, hb, 2, 6, 2);
    SliceAt(cs, hb, 3, 8, 2);
    SliceAt(cs, hb, 4, 10, 1);
    SliceAt(cs, hb, 5, 11, 1);
    SliceAt(cs, hb, 6, 12, 8);
    SliceAt(cs, hb, 7, 20, 16);
    SliceAt(cs, hb, 8, 36, 32);
    SliceAt(cs, hb, 9, 68, 16);
    SliceAt(cs, hb, 10, 84, 16);
    SliceAt(cs, hb, 11, 100, 8);
    SliceAt(cs, hb, 12, 108, 8);
    SliceAt(cs, hb, 13, 116, 4);
    SliceAt(cs, hb, 14, 120, 4);
    SliceAt(cs, hb, 15, 124, 32);
  }

  // ---------- records and containers ----------

  datatype Rec = Rec(hb: Bytes, body: Bytes)

  /** A header whose two length fields are right for it and its body. */
  predicate RecOk(r: Rec) {
    && |r.hb| >= FIXED_LEN && At(r.hb, 0, 4) == MAGIC
    && U16(r.hb, 6) == |r.hb| && U32(r.hb, 120) == |r.body|
  }

  predicate RecsOk(rs: seq<Rec>) {
    forall i :: 0 <= i < |rs| ==> RecOk(rs[i])
  }

  function RecBytes(r: Rec): Bytes { r.hb + r.body }

  /** Records back to back. */
  function Container(rs: seq<Rec>): Bytes {
    if rs == [] then [] else RecBytes(rs[0]) + Container(rs[1..])
  }

  /** The complete record at the start of `data`, found by the frozen fields alone. */
  function FirstRec(data: Bytes): (r: Option<Rec>)
    ensures r.Some? ==> RecOk(r.value) && |r.value.hb| + |r.value.body| <= |data|
    ensures r.Some? ==> RecBytes(r.value) == data[..|r.value.hb| + |r.value.body|]
  {
    if |data| < FIXED_LEN || At(data, 0, 4) != MAGIC then None
    else
      var hlen, blen := U16(data, 6), U32(data, 120);
      if hlen < FIXED_LEN || hlen + blen > |data| then None
      else
        var r := Rec(data[..hlen], data[hlen..hlen + blen]);
        assert At(r.hb, 0, 4) == At(data, 0, 4) && At(r.hb, 6, 2) == At(data, 6, 2)
          && At(r.hb, 120, 4) == At(data, 120, 4);
        Some(r)
  }

  /** The record read in place, at an offset into a larger buffer. */
  lemma RecInPlace(data: Bytes, off: nat)
    requires off <= |data|
    ensures FirstRec(data[off..]) ==
      if off + FIXED_LEN > |data| || At(data, off, 4) != MAGIC || U16(data, off + 6) < FIXED_LEN
         || off + U16(data, off + 6) + U32(data, off + 120) > |data| then None
      else
        var hlen, blen := U16(data, off + 6), U32(data, off + 120);
        Some(Rec(At(data, off, hlen), At(data, off + hlen, blen)))
  {
    hide UnLe;
    if off + FIXED_LEN <= |data| {
      AtInPlace(data, off, 0, 4);
      AtInPlace(data, off, 6, 2);
      AtInPlace(data, off, 120, 4);
      var hlen, blen := U16(data, off + 6), U32(data, off + 120);
      if hlen >= FIXED_LEN && off + hlen + blen <= |data| {
        AtInPlace(data, off, 0, hlen);
        AtInPlace(data, off, hlen, blen);
      }
    }
  }

  /** A field of the buffer from `off` on, read at its own offset. */
  lemma AtInPlace(data: Bytes, off: nat, o: nat, n: nat)
    requires off + o + n <= |data|
    ensures At(data[off..], o, n) == At(data, off + o, n)
    ensures o == 0 ==> data[off..][..n] == At(data, off, n)
  {
    SliceOfSlice(data, off, |data|, o, n);
    assert data[off..|data|] == data[off..];
    assert data[off..][..n] == data[off..][0..n];
  }

  /** All complete records from the start, and what is left where no complete record starts. */
  function Walk(data: Bytes): (w: (seq<Rec>, Bytes))
    ensures RecsOk(w.0)
  {
    var r := FirstRec(data);
    if data == [] || r.None? then ([], data)
    else
      var (rs, rest) := Walk(data[|r.value.hb| + |r.value.body|..]);
      ([r.value] + rs, rest)
  }

  lemma WalkStep(data: Bytes, r: Rec, more: Bytes)
    requires FirstRec(data) == Some(r) && more == data[|r.hb| + |r.body|..]
    ensures Walk(data) == ([r] + Walk(more).0, Walk(more).1)
    ensures data == RecBytes(r) + more
  {
  }

  lemma ContainerFirst(r: Rec, rs: seq<Rec>)
    ensures Container([r] + rs) == RecBytes(r) + Container(rs)
  {
    assert ([r] + rs)[1..] == rs;
  }

  lemma {:induction false} WalkIsExact(data: Bytes)
    ensures var (rs, rest) := Walk(data); data == Container(rs) + rest
    ensures var (rs, rest) := Walk(data); rest == [] || FirstRec(rest).None?
  {
    var r := FirstRec(data);
    if data != [] && r.Some? {
      var more := data[|r.value.hb| + |r.value.body|..];
      WalkStep(data, r.value, more);
      hide *;
      WalkIsExact(more);
      var (rs, rest) := Walk(more);
      ContainerFirst(r.value, rs);
      Assoc(RecBytes(r.value), Container(rs), rest);
    }
  }

  lemma FirstRecOf(r: Rec, rest: Bytes)
    requires RecOk(r)
    ensures FirstRec(RecBytes(r) + rest) == Some(r)
    ensures (RecBytes(r) + rest)[|r.hb| + |r.body|..] == rest
  {
    var data := RecBytes(r) + rest;
    assert At(data, 0, 4) == At(r.hb, 0, 4) && At(data, 6, 2) == At(r.hb, 6, 2) && At(data, 120, 4) == At(r.hb, 120, 4);
    assert data[..|r.hb|] == r.hb && data[|r.hb|..|r.hb| + |r.body|] == r.body;
  }

  /** A container followed by bytes at which no record starts is walked to exactly its records. */
  lemma {:induction false} WalkContainer(rs: seq<Rec>, tail: Bytes)
    requires RecsOk(rs) && (tail == [] || FirstRec(tail).None?)
    ensures Walk(Container(rs) + tail) == (rs, tail)
    decreases |rs|
  {
    if rs == [] {
      assert Container(rs) + tail == tail;
    } else {
      assert RecsOk(rs[1..]);
      hide *;
      WalkContainer(rs[1..], tail);
      assert rs == [rs[0]] + rs[1..];
      ContainerFirst(rs[0], rs[1..]);
      Assoc(RecBytes(rs[0]), Container(rs[1..]), tail);
      AllOk(rs, 0);
      FirstRecOf(rs[0], Container(rs[1..]) + tail);
      WalkStep(Container(rs) + tail, rs[0], Container(rs[1..]) + tail);
    }
  }

  lemma AllOk(rs: seq<Rec>, i: nat)
    requires RecsOk(rs) && i < |rs|
    ensures RecOk(rs[i])
  {
  }

  lemma {:induction false} ContainerAppend(a: seq<Rec>, b: seq<Rec>)
    ensures Container(a + b) == Container(a) + Container(b)
  {
    if a == [] {
      assert a + b == b;
    } else {
      ContainerAppend(a[1..], b);
      assert (a + b)[1..] == a[1..] + b;
      Assoc(RecBytes(a[0]), Container(a[1..]), Container(b));
    }
  }

  lemma ContainerOne(r: Rec)
    ensures Container([r]) == RecBytes(r)
  {
    assert [r][1..] == [];
  }

  /** A proper prefix of a record is not a record, nor does one start there. */
  lemma TornRecord(r: Rec, n: nat)
    requires RecOk(r) && n < |RecBytes(r)|
    ensures FirstRec(RecBytes(r)[..n]).None?
  {
    var data := RecBytes(r)[..n];
    if n >= FIXED_LEN {
      SameField(RecBytes(r), r.hb, n, 6, 2);
      SameField(RecBytes(r), r.hb, n, 120, 4);
    }
    hide UnLe;
  }

  lemma SameField(full: Bytes, front: Bytes, n: nat, o: nat, l: nat)
    requires n <= |full| && front <= full && o + l <= n && o + l <= |front|
    ensures At(full[..n], o, l) == At(front, o, l)
  {
    assert front == full[..|front|];
    SliceOfSlice(full, 0, n, o, l);
    SliceOfSlice(full, 0, |front|, o, l);
  }

  /** `k` records end by byte `n`, the next one does not, and the rest of the cut is `rest`. */
  ghost predicate CutAt(rs: seq<Rec>, n: nat, k: nat, rest: Bytes) {
    && k <= |rs| && n <= |Container(rs)| && |Container(rs[..k])| <= n
    && (k < |rs| ==> n < |Container(rs[..k + 1])|)
    && rest == Container(rs)[|Container(rs[..k])|..n]
  }

  /** Cutting a well-formed container at any byte leaves exactly the records that end by the cut,
      and a remainder that is empty iff the cut is between two records. */
  lemma {:induction false} CutContainer(rs: seq<Rec>, n: nat) returns (k: nat)
    requires RecsOk(rs) && n <= |Container(rs)|
    ensures CutAt(rs, n, k, Walk(Container(rs)[..n]).1)
    ensures Walk(Container(rs)[..n]).0 == rs[..k]
    decreases |rs|
  {
    hide *;
    if rs == [] {
      k := 0;
      CutNothing(rs, n);
    } else if n < |RecBytes(rs[0])| {
      k := 0;
      CutInFirst(rs, n);
    } else {
      var size := |RecBytes(rs[0])|;
      RestOk(rs);
      AllOk(rs, 0);
      WalkAfterFirst(rs, n, size);
      k := CutContainer(rs[1..], n - size);
      CutAfterFirst(rs, n, size, k, Walk(Container(rs[1..])[..n - size]).1);
      assert [rs[0]] + rs[1..][..k] == rs[..k + 1];
      k := k + 1;
    }
  }

  lemma CutNothing(rs: seq<Rec>, n: nat)
    requires rs == [] && n <= |Container(rs)|
    ensures CutAt(rs, n, 0, Walk(Container(rs)[..n]).1) && Walk(Container(rs)[..n]).0 == rs[..0]
  {
    assert Container(rs)[..n] == [];
  }

  lemma RestOk(rs: seq<Rec>)
    requires RecsOk(rs) && rs != []
    ensures RecsOk(rs[1..])
  {
  }

  lemma WalkAfterFirst(rs: seq<Rec>, n: nat, size: nat)
    requires rs != [] && RecOk(rs[0]) && size == |RecBytes(rs[0])| <= n <= |Container(rs)|
    ensures n - size <= |Container(rs[1..])|
    ensures Walk(Container(rs)[..n]) ==
      ([rs[0]] + Walk(Container(rs[1..])[..n - size]).0, Walk(Container(rs[1..])[..n - size]).1)
  {
    var more := Container(rs[1..])[..n - size];
    assert Container(rs)[..n] == RecBytes(rs[0]) + more;
    FirstRecOf(rs[0], more);
    WalkStep(Container(rs)[..n], rs[0], more);
  }

  lemma CutInFirst(rs: seq<Rec>, n: nat)
    requires RecsOk(rs) && rs != [] && n < |RecBytes(rs[0])|
    ensures n <= |Container(rs)| && Walk(Container(rs)[..n]) == ([], Container(rs)[..n])
    ensures CutAt(rs, n, 0, Container(rs)[..n])
  {
    TornRecord(rs[0], n);
    assert Container(rs)[..n] == RecBytes(rs[0])[..n];
    assert rs[..0] == [] && rs[..1] == [rs[0]];
    ContainerOne(rs[0]);
    assert Container(rs)[0..n] == Container(rs)[..n];
  }

  lemma PrefixContainer(rs: seq<Rec>, k: nat)
    requires k < |rs|
    ensures Container(rs[..k + 1]) == RecBytes(rs[0]) + Container(rs[1..][..k])
  {
    assert rs[..k + 1] == [rs[0]] + rs[1..][..k];
    ContainerFirst(rs[0], rs[1..][..k]);
  }

  lemma CutAfterFirst(rs: seq<Rec>, n: nat, size: nat, j: nat, rest: Bytes)
    requires rs != [] && size == |RecBytes(rs[0])| <= n && CutAt(rs[1..], n - size, j, rest)
    ensures CutAt(rs, n, j + 1, rest)
  {
    PrefixContainer(rs, j);
    if j + 1 < |rs| {
      PrefixContainer(rs, j + 1);
    }
    var o, m := |Container(rs[1..][..j])|, n - size;
    ContainerFirst(rs[0], rs[1..]);
    assert rs == [rs[0]] + rs[1..];
    SliceAfter(RecBytes(rs[0]), Container(rs[1..]), o, m);
  }

  lemma SliceAfter(a: Bytes, b: Bytes, o: nat, m: nat)
    requires o <= m <= |b|
    ensures (a + b)[|a| + o..|a| + m] == b[o..m]
  {
  }
}
