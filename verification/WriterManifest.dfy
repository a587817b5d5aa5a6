/** What a resume takes from the manifest and from the first record of the file it resumes. */
module WriterManifest {
  import opened Bytes
  import opened Codec
  import opened Profile
  import opened Frontier
  import opened Writer

  /** Entry `i` is the last whose closed head is `prev`. */
  ghost predicate LastCloses(entries: seq<Entry>, prev: Bytes, i: nat) {
    && i < |entries| && entries[i].head == prev && forall j :: i < j < |entries| ==> entries[j].head != prev
  }

  /** Entry `i` is the first whose closed head is `prev`. */
  ghost predicate FirstCloses(entries: seq<Entry>, prev: Bytes, i: nat) {
    && i < |entries| && entries[i].head == prev && forall j :: 0 <= j < i ==> entries[j].head != prev
  }

  lemma {:induction false} LastIs(entries: seq<Entry>, prev: Bytes)
    ensures match ClosedBy(entries, prev)
      case Some(i) => LastCloses(entries, prev, i)
      case None => forall j :: 0 <= j < |entries| ==> entries[j].head != prev
    decreases |entries|
  {
    if entries != [] && entries[|entries| - 1].head != prev {
      var front := entries[..|entries| - 1];
      LastIs(front, prev);
      assert forall j :: 0 <= j < |front| ==> front[j] == entries[j];
    }
  }

  lemma {:induction false} FirstIs(entries: seq<Entry>, prev: Bytes)
    ensures match FirstClosedBy(entries, prev)
      case Some(i) => FirstCloses(entries, prev, i)
      case None => forall j :: 0 <= j < |entries| ==> entries[j].head != prev
  {
    if entries != [] && entries[0].head != prev {
      var rest := entries[1..];
      FirstIs(rest, prev);
      assert forall j :: 0 <= j < |rest| ==> rest[j] == entries[j + 1];
      forall j | 0 < j < |entries| ensures entries[j] == rest[j - 1] {
      }
    }
  }

  /** The manifest stores this frontier for the segment before the one that follows `prev` from record `n`. */
  ghost predicate Stored(d: Disk, name: Name, prev: Bytes, n: nat, f: Peaks) {
    && name.Seg? && name.stem in d.manifests && f.count == n
    && exists i: nat ::
         && LastCloses(d.manifests[name.stem], prev, i) && d.manifests[name.stem][i].frontier.Some?
         && FromBytes(d.manifests[name.stem][i].frontier.value) == Some(f)
  }

  /** The frontier a resume starts from, exactly: empty at record 0, else the stored one that covers what came
      before, as the last entry this file follows has it. */
  lemma StartingMeans(d: Disk, name: Name, first: Header, f: Peaks)
    ensures StartingFrontier(d, name, first) == Some(f) <==>
      if first.seqNo == 0 then f == EMPTY else Stored(d, name, first.prevHash, first.seqNo, f)
  {
    if first.seqNo != 0 && name.Seg? && name.stem in d.manifests {
      var entries := d.manifests[name.stem];
      LastIs(entries, first.prevHash);
      ClosedByIndex(entries, first.prevHash);
      if Stored(d, name, first.prevHash, first.seqNo, f) {
        var i: nat :| LastCloses(entries, first.prevHash, i) && entries[i].frontier.Some?
          && FromBytes(entries[i].frontier.value) == Some(f);
        assert ClosedBy(entries, first.prevHash) == Some(i);
      }
    }
  }

  /** The first record of a file declares that it opens segment `k`: a continuation in the clear, whose last
      SEG_INDEX is four bytes. */
  ghost predicate DeclaresIndex(first: Header, body: Bytes, k: nat) {
    && first.recordType == RT_EVENT && first.keyId == 0 && ParseTlvs(body).Some?
    && exists kind, index ::
         && IsLast(ParseTlvs(body).value, EVT_KIND, Some(kind)) && |kind| >= 2
         && U16(kind, 0) == KIND_SEGMENT_CONTINUATION
         && IsLast(ParseTlvs(body).value, SEG_INDEX, Some(index)) && |index| == 4 && k == UnLe(index)
  }

  lemma DeclaredMeans(first: Header, body: Bytes, k: nat)
    ensures DeclaredIndex(first, body) == Some(k) <==> DeclaresIndex(first, body, k)
  {
    hide U16, UnLe;
    if ParseTlvs(body).Some? {
      var ts := ParseTlvs(body).value;
      LastValIs(ts, EVT_KIND);
      LastValIs(ts, SEG_INDEX);
      forall index: Bytes | |index| == 4 ensures U32(index, 0) == UnLe(index) {
        assert At(index, 0, 4) == index;
      }
      if DeclaresIndex(first, body, k) {
        var kind, index :|
          && IsLast(ts, EVT_KIND, Some(kind)) && |kind| >= 2 && U16(kind, 0) == KIND_SEGMENT_CONTINUATION
          && IsLast(ts, SEG_INDEX, Some(index)) && |index| == 4 && k == UnLe(index);
        LastIsOne(ts, EVT_KIND, Some(kind), LastVal(ts, EVT_KIND));
        LastIsOne(ts, SEG_INDEX, Some(index), LastVal(ts, SEG_INDEX));
        NothingEmpty(body, ts);
      }
    }
  }

  lemma NothingEmpty(body: Bytes, ts: seq<Tlv>)
    requires ParseTlvs(body) == Some(ts) && exists kind :: IsLast(ts, EVT_KIND, Some(kind))
    ensures body != []
  {
  }

  /** The ordinal a resume adopts, exactly: 0 at record 0, else the declared index, else one past the first
      entry this file follows. */
  lemma OrdinalMeans(d: Disk, name: Name, first: Header, body: Bytes, k: nat)
    ensures SegmentOrdinal(d, name, first, body) == Some(k) <==>
      if first.seqNo == 0 then k == 0
      else if exists n: nat :: DeclaresIndex(first, body, n) then DeclaresIndex(first, body, k)
      else k > 0 && name.Seg? && name.stem in d.manifests
           && FirstCloses(d.manifests[name.stem], first.prevHash, k - 1)
  {
    hide DeclaresIndex, DeclaredIndex;
    forall n: nat ensures DeclaredIndex(first, body) == Some(n) <==> DeclaresIndex(first, body, n) {
      DeclaredMeans(first, body, n);
    }
    assert DeclaredIndex(first, body).Some? <==> exists n: nat :: DeclaresIndex(first, body, n) by {
      if DeclaredIndex(first, body).Some? {
        assert DeclaresIndex(first, body, DeclaredIndex(first, body).value);
      }
    }
    if first.seqNo != 0 && DeclaredIndex(first, body).None? && name.Seg? && name.stem in d.manifests {
      FirstIs(d.manifests[name.stem], first.prevHash);
    }
  }
}
