/** When the anchor of the SQL log moves, over whole runs of several processes. */
module LogRuns {
  /* Said of the events alone and of the table and anchor they leave: what a process wrote last, when an
     append anchors, and what a close does. */

  import opened Bytes
  import opened Log

  /** Event `j` is an append by process `p`, which is open then. */
  predicate Appends(sha: Sha, s: Sys, events: seq<Event>, p: nat, j: int) {
    0 <= j < |events| && events[j].Record? && events[j].p == p && p < |Run(sha, s, events[..j]).procs|
  }

  /** The `anchor_every` of each process, in the order they were opened. */
  function Opened(events: seq<Event>): seq<nat> {
    if events == [] then []
    else
      var e := events[|events| - 1];
      Opened(events[..|events| - 1]) + (if e.Open? && e.every >= 1 then [e.every] else [])
  }

  /** How many appends of `p` there were since the last one that moved the anchor to its own row. */
  function Unanchored(sha: Sha, s: Sys, events: seq<Event>, p: nat): nat {
    if events == [] then 0
    else
      var before, t := events[..|events| - 1], Run(sha, s, events);
      if !Appends(sha, s, events, p, |before|) then Unanchored(sha, s, before, p)
      else if t.anchored == |t.rows| then 0
      else Unanchored(sha, s, before, p) + 1
  }

  /** An anchor is due with the next append of `p`. */
  predicate DueNow(sha: Sha, s: Sys, before: seq<Event>, p: nat) {
    p < |Opened(before)| && Unanchored(sha, s, before, p) + 1 >= Opened(before)[p]
  }

  /** How often an anchor of `p` was due and could not be stored. */
  function Missed(sha: Sha, s: Sys, events: seq<Event>, p: nat): nat {
    if events == [] then 0
    else
      var before, e := events[..|events| - 1], events[|events| - 1];
      Missed(sha, s, before, p)
      + (if Appends(sha, s, events, p, |before|) && !e.stored && DueNow(sha, s, before, p) then 1 else 0)
  }

  /** `h` is the hash of the row that the last append of `p` inserted, None if it appended nothing. */
  ghost predicate WroteLast(sha: Sha, s: Sys, events: seq<Event>, p: nat, h: Option<Bytes>) {
    match h
    case None => forall j :: 0 <= j < |events| ==> !Appends(sha, s, events, p, j)
    case Some(x) => exists j :: WroteAt(sha, s, events, p, j, x)
  }

  ghost predicate WroteAt(sha: Sha, s: Sys, events: seq<Event>, p: nat, j: int, h: Bytes) {
    && Appends(sha, s, events, p, j) && (forall i :: j < i < |events| ==> !Appends(sha, s, events, p, i))
    && var rows := Run(sha, s, events[..j + 1]).rows;
      |rows| == |Run(sha, s, events[..j]).rows| + 1 && h == rows[|rows| - 1].hash
  }

  /** What a process holds is what the events say of it. */
  ghost predicate Remembers(sha: Sha, s: Sys, events: seq<Event>, p: nat, q: Proc) {
    && p < |Opened(events)| && q.every == Opened(events)[p] && q.since == Unanchored(sha, s, events, p)
    && q.failures == Missed(sha, s, events, p) && (q.warned <==> Missed(sha, s, events, p) > 0)
    && WroteLast(sha, s, events, p, q.lastWritten)
  }

  // ---------- one event more ----------

  lemma RunLast(sha: Sha, s: Sys, events: seq<Event>)
    requires events != []
    ensures var before, e := events[..|events| - 1], events[|events| - 1];
      Run(sha, s, events) == Step(sha, Run(sha, s, before), e) && events == before + [e]
  {
  }

  /** What an append does to the table and the anchor, and to no other process. */
  lemma RecordDoes(sha: Sha, t: Sys, p: nat, fields: Fields, stored: bool)
    requires Inv(sha, t) && p < |t.procs|
    ensures var (t', q) := (Step(sha, t, Record(p, fields, stored)), t.procs[p]);
      && |t'.rows| == |t.rows| + 1 && t'.rows[..|t.rows|] == t.rows && t'.rows[|t.rows|].fields == fields
      && |t'.procs| == |t.procs| && (forall k :: 0 <= k < |t.procs| && k != p ==> t'.procs[k] == t.procs[k])
      && t'.procs[p].lastWritten == Some(t'.rows[|t.rows|].hash) && t'.procs[p].every == q.every
      && (if q.since + 1 >= q.every && stored
          then t'.anchored == |t'.rows| && t'.anchor == Some(t'.rows[|t.rows|].hash) && t'.procs[p].since == 0
          else t'.anchored == t.anchored < |t'.rows| && t'.anchor == t.anchor && t'.procs[p].since == q.since + 1)
      && (if q.since + 1 >= q.every && !stored
          then t'.procs[p].failures == q.failures + 1 && t'.procs[p].warned
          else t'.procs[p].failures == q.failures && t'.procs[p].warned == q.warned)
  {
    hide RowHash, HeadOf, GoodRows;
  }

  lemma CloseDoes(sha: Sha, t: Sys, p: nat, stored: bool)
    ensures var t' := Step(sha, t, Close(p, stored));
      && t'.rows == t.rows && t'.procs == t.procs
      && (if p < |t.procs| && t.procs[p].lastWritten == Some(HeadOf(t.rows)) && stored
          then t'.anchor == Some(HeadOf(t.rows)) && t'.anchored == |t.rows|
          else t'.anchor == t.anchor && t'.anchored == t.anchored)
  {
  }

  /** An earlier append is one whatever follows. */
  lemma AppendsStay(sha: Sha, s: Sys, events: seq<Event>, p: nat, j: int)
    requires events != [] && j < |events| - 1
    ensures Appends(sha, s, events, p, j) <==> Appends(sha, s, events[..|events| - 1], p, j)
  {
    var before := events[..|events| - 1];
    assert 0 <= j ==> before[..j] == events[..j];
  }

  lemma WroteStays(sha: Sha, s: Sys, events: seq<Event>, p: nat, h: Option<Bytes>)
    requires events != [] && WroteLast(sha, s, events[..|events| - 1], p, h)
    requires !Appends(sha, s, events, p, |events| - 1)
    ensures WroteLast(sha, s, events, p, h)
  {
    hide Appends, Run, WroteAt;
    var before := events[..|events| - 1];
    forall j | 0 <= j < |before| ensures Appends(sha, s, events, p, j) <==> Appends(sha, s, before, p, j) {
      AppendsStay(sha, s, events, p, j);
    }
    if h.Some? {
      var j :| WroteAt(sha, s, before, p, j, h.value);
      WroteAtStays(sha, s, events, p, j, h.value);
    }
  }

  lemma WroteAtStays(sha: Sha, s: Sys, events: seq<Event>, p: nat, j: int, h: Bytes)
    requires events != [] && WroteAt(sha, s, events[..|events| - 1], p, j, h)
    requires forall i :: 0 <= i < |events| - 1 ==>
      (Appends(sha, s, events, p, i) <==> Appends(sha, s, events[..|events| - 1], p, i))
    requires !Appends(sha, s, events, p, |events| - 1)
    ensures WroteAt(sha, s, events, p, j, h)
  {
    var before := events[..|events| - 1];
    AppendIndex(sha, s, before, p, j);
    assert before[..j] == events[..j] && before[..j + 1] == events[..j + 1];
    hide Appends, Run;
  }

  lemma AppendIndex(sha: Sha, s: Sys, events: seq<Event>, p: nat, j: int)
    requires Appends(sha, s, events, p, j)
    ensures 0 <= j < |events|
  {
  }

  lemma UnanchoredIs(sha: Sha, s: Sys, events: seq<Event>, p: nat)
    requires events != []
    ensures var (before, e, t) := (events[..|events| - 1], events[|events| - 1], Run(sha, s, events));
      && Unanchored(sha, s, events, p) ==
        (if !Appends(sha, s, events, p, |before|) then Unanchored(sha, s, before, p)
         else if t.anchored == |t.rows| then 0
         else Unanchored(sha, s, before, p) + 1)
      && Missed(sha, s, events, p) == Missed(sha, s, before, p)
         + (if Appends(sha, s, events, p, |before|) && !e.stored && DueNow(sha, s, before, p) then 1 else 0)
      && Opened(events) == Opened(before) + (if e.Open? && e.every >= 1 then [e.every] else [])
  {
    hide Appends, Run, DueNow;
  }

  /** Another event leaves what a process remembers. */
  lemma StillRemembers(sha: Sha, s: Sys, events: seq<Event>, p: nat, q: Proc)
    requires events != [] && Remembers(sha, s, events[..|events| - 1], p, q)
    requires !Appends(sha, s, events, p, |events| - 1)
    ensures Remembers(sha, s, events, p, q)
  {
    UnanchoredIs(sha, s, events, p);
    WroteStays(sha, s, events, p, q.lastWritten);
    hide Appends, WroteLast, Unanchored, Missed, Opened, DueNow;
  }

  /** Its own append changes it as the events say. */
  lemma AppendRemembers(sha: Sha, s: Sys, events: seq<Event>, p: nat, q: Proc)
    requires events != [] && Inv(sha, Run(sha, s, events[..|events| - 1])) && Appends(sha, s, events, p, |events| - 1)
    requires Remembers(sha, s, events[..|events| - 1], p, q) && Run(sha, s, events[..|events| - 1]).procs[p] == q
    ensures p < |Run(sha, s, events).procs| && Remembers(sha, s, events, p, Run(sha, s, events).procs[p])
  {
    hide *;
    var before, e := events[..|events| - 1], events[|events| - 1];
    var t, t' := Run(sha, s, before), Run(sha, s, events);
    LastAppends(sha, s, events, p);
    RunLast(sha, s, events);
    RecordDoes(sha, t, p, e.fields, e.stored);
    UnanchoredIs(sha, s, events, p);
    WroteNow(sha, s, events, p);
    RemembersParts(sha, s, before, p, q);
    DueIs(sha, s, before, p, q);
    RemembersMade(sha, s, events, p, t'.procs[p]);
  }

  lemma WroteNow(sha: Sha, s: Sys, events: seq<Event>, p: nat)
    requires events != [] && Appends(sha, s, events, p, |events| - 1)
    requires var (t, t') := (Run(sha, s, events[..|events| - 1]), Run(sha, s, events)); |t'.rows| == |t.rows| + 1
    ensures var (t, t') := (Run(sha, s, events[..|events| - 1]), Run(sha, s, events));
      WroteLast(sha, s, events, p, Some(t'.rows[|t.rows|].hash))
  {
    hide Run, Appends;
    var n := |events| - 1;
    assert events[..n + 1] == events;
    assert WroteAt(sha, s, events, p, n, Run(sha, s, events).rows[|Run(sha, s, events[..n]).rows|].hash);
  }

  lemma RemembersParts(sha: Sha, s: Sys, events: seq<Event>, p: nat, q: Proc)
    requires Remembers(sha, s, events, p, q)
    ensures p < |Opened(events)| && q.every == Opened(events)[p] && q.since == Unanchored(sha, s, events, p)
    ensures q.failures == Missed(sha, s, events, p) && (q.warned <==> Missed(sha, s, events, p) > 0)
  {
    hide Opened, Unanchored, Missed, WroteLast;
  }

  lemma RemembersMade(sha: Sha, s: Sys, events: seq<Event>, p: nat, q: Proc)
    requires p < |Opened(events)| && q.every == Opened(events)[p] && q.since == Unanchored(sha, s, events, p)
    requires q.failures == Missed(sha, s, events, p) && (q.warned <==> Missed(sha, s, events, p) > 0)
    requires WroteLast(sha, s, events, p, q.lastWritten)
    ensures Remembers(sha, s, events, p, q)
  {
    hide Opened, Unanchored, Missed, WroteLast;
  }

  lemma OpenRemembers(sha: Sha, s: Sys, events: seq<Event>, p: nat)
    requires events != [] && p == |Run(sha, s, events[..|events| - 1]).procs| == |Opened(events[..|events| - 1])|
    requires events[|events| - 1].Open? && events[|events| - 1].every >= 1
    requires NeverAppended(sha, s, events[..|events| - 1], p)
    ensures Remembers(sha, s, events, p, Proc(events[|events| - 1].every, 0, None, 0, false))
  {
    var before := events[..|events| - 1];
    UnanchoredIs(sha, s, events, p);
    NeverParts(sha, s, before, p);
    forall j | 0 <= j < |events| ensures !Appends(sha, s, events, p, j) {
      if j < |before| {
        AppendsStay(sha, s, events, p, j);
      }
    }
    hide Appends, Unanchored, Missed, Opened;
  }

  /** Process `p` is not open yet, and so has done nothing. */
  ghost predicate NeverAppended(sha: Sha, s: Sys, events: seq<Event>, p: nat) {
    && (forall j :: 0 <= j < |events| ==> !Appends(sha, s, events, p, j))
    && Unanchored(sha, s, events, p) == 0 && Missed(sha, s, events, p) == 0
  }

  lemma NeverParts(sha: Sha, s: Sys, events: seq<Event>, p: nat)
    requires NeverAppended(sha, s, events, p)
    ensures forall j :: 0 <= j < |events| ==> !Appends(sha, s, events, p, j)
    ensures Unanchored(sha, s, events, p) == 0 && Missed(sha, s, events, p) == 0
  {
  }

  /** Processes are only ever added. */
  lemma ProcsGrow(sha: Sha, t: Sys, e: Event)
    ensures var t' := Step(sha, t, e);
      if e.Open? && e.every >= 1
      then t'.procs == t.procs + [Proc(e.every, 0, None, 0, false)] else |t'.procs| == |t.procs|
  {
    hide NextRow, Recorded, HeadOf;
  }

  lemma {:induction false} NotOpenYet(sha: Sha, s: Sys, events: seq<Event>, p: nat)
    requires p >= |Run(sha, s, events).procs|
    ensures NeverAppended(sha, s, events, p)
    decreases |events|
  {
    hide Run, Step, Appends, Unanchored, Missed;
    if events != [] {
      var before := events[..|events| - 1];
      RunLast(sha, s, events);
      ProcsGrow(sha, Run(sha, s, before), events[|events| - 1]);
      NotOpenYet(sha, s, before, p);
      NeverParts(sha, s, before, p);
      UnanchoredIs(sha, s, events, p);
      LastAppends(sha, s, events, p);
      forall j | 0 <= j < |events| ensures !Appends(sha, s, events, p, j) {
        if j < |before| {
          AppendsStay(sha, s, events, p, j);
        }
      }
    } else {
      NothingDone(sha, s, p);
    }
  }

  lemma NothingDone(sha: Sha, s: Sys, p: nat)
    ensures Unanchored(sha, s, [], p) == 0 && Missed(sha, s, [], p) == 0 && Run(sha, s, []) == s && Opened([]) == []
  {
  }

  lemma LastAppends(sha: Sha, s: Sys, events: seq<Event>, p: nat)
    requires events != []
    ensures var (before, e) := (events[..|events| - 1], events[|events| - 1]);
      Appends(sha, s, events, p, |before|) <==> e.Record? && e.p == p && p < |Run(sha, s, before).procs|
  {
    hide Run;
    assert events[..|events| - 1] == events[..|events[..|events| - 1]|];
  }

  /** Over any run from a log no process has open: what every process holds is what the events say of it. */
  lemma {:induction false} ProcessesRemember(sha: Sha, s: Sys, events: seq<Event>)
    requires Inv(sha, s) && s.procs == []
    ensures var t := Run(sha, s, events);
      |t.procs| == |Opened(events)| && forall p :: 0 <= p < |t.procs| ==> Remembers(sha, s, events, p, t.procs[p])
    decreases |events|
  {
    hide *;
    if events == [] {
      NothingDone(sha, s, 0);
    } else {
      var before, e := events[..|events| - 1], events[|events| - 1];
      var t, t' := Run(sha, s, before), Run(sha, s, events);
      ProcessesRemember(sha, s, before);
      RunKeeps(sha, s, before);
      RunLast(sha, s, events);
      ProcsGrow(sha, t, e);
      UnanchoredIs(sha, s, events, 0);
      forall p | 0 <= p < |t'.procs| ensures Remembers(sha, s, events, p, t'.procs[p]) {
        LastAppends(sha, s, events, p);
        if p >= |t.procs| {
          NotOpenYet(sha, s, before, p);
          OpenRemembers(sha, s, events, p);
        } else if Appends(sha, s, events, p, |before|) {
          AppendRemembers(sha, s, events, p, t.procs[p]);
        } else {
          OthersStand(sha, t, e, p);
          StillRemembers(sha, s, events, p, t.procs[p]);
        }
      }
    }
  }

  // ---------- when the anchor moves ----------

  /** An append inserts its row at the end, and the anchor moves to it exactly when it is due and the
      keychain took it. */
  lemma AnchorsOnSchedule(sha: Sha, s: Sys, events: seq<Event>, p: nat)
    requires Inv(sha, s) && s.procs == [] && Appends(sha, s, events, p, |events| - 1)
    ensures var (before, e) := (events[..|events| - 1], events[|events| - 1]);
      var (t, t') := (Run(sha, s, before), Run(sha, s, events));
      && |t'.rows| == |t.rows| + 1 && t.rows <= t'.rows && t'.rows[|t.rows|].fields == e.fields
      && if e.stored && DueNow(sha, s, before, p)
         then t'.anchor == Some(t'.rows[|t.rows|].hash) && t'.anchored == |t'.rows|
         else t'.anchor == t.anchor && t'.anchored == t.anchored
  {
    hide *;
    AppendIndex(sha, s, events, p, |events| - 1);
    var before, e := events[..|events| - 1], events[|events| - 1];
    LastAppends(sha, s, events, p);
    ProcessesRemember(sha, s, before);
    RunKeeps(sha, s, before);
    RunLast(sha, s, events);
    RecordDoes(sha, Run(sha, s, before), p, e.fields, e.stored);
    DueIs(sha, s, before, p, Run(sha, s, before).procs[p]);
  }

  lemma DueIs(sha: Sha, s: Sys, before: seq<Event>, p: nat, q: Proc)
    requires Remembers(sha, s, before, p, q)
    ensures DueNow(sha, s, before, p) <==> q.since + 1 >= q.every
  {
    hide WroteLast, Unanchored, Missed, Opened;
  }

  lemma {:induction false} RowsGrow(sha: Sha, s: Sys, events: seq<Event>, i: nat)
    requires Inv(sha, s) && i <= |events|
    ensures Run(sha, s, events[..i]).rows <= Run(sha, s, events).rows
    decreases |events|
  {
    hide *;
    if i == |events| {
      assert events[..i] == events;
    } else {
      var before := events[..|events| - 1];
      RowsGrow(sha, s, before, i);
      assert before[..i] == events[..i];
      RunKeeps(sha, s, before);
      RunLast(sha, s, events);
      StepKeeps(sha, Run(sha, s, before), events[|events| - 1]);
    }
  }

  /** Event `j` appended the row that is now the last. */
  ghost predicate AppendedHead(sha: Sha, s: Sys, events: seq<Event>, p: nat, j: int) {
    Appends(sha, s, events, p, j) && |Run(sha, s, events[..j + 1]).rows| == |Run(sha, s, events).rows|
  }

  ghost predicate OwnsHead(sha: Sha, s: Sys, events: seq<Event>, p: nat) {
    exists j :: AppendedHead(sha, s, events, p, j)
  }

  /** An append makes the table longer by one row. */
  lemma AppendGrows(sha: Sha, s: Sys, events: seq<Event>, p: nat, j: int)
    requires Inv(sha, s) && Appends(sha, s, events, p, j)
    ensures 0 <= j < |events| && |Run(sha, s, events[..j + 1]).rows| == |Run(sha, s, events[..j]).rows| + 1
  {
    hide Run, Inv, Step;
    RunKeeps(sha, s, events[..j]);
    var e := events[j];
    assert events[..j + 1][..j] == events[..j];
    RunLast(sha, s, events[..j + 1]);
    RecordDoes(sha, Run(sha, s, events[..j]), p, e.fields, e.stored);
  }

  /** Nothing was appended after the row that is last. */
  lemma HeadIsNewest(sha: Sha, s: Sys, events: seq<Event>, p: nat, j: int, i: int)
    requires Inv(sha, s) && AppendedHead(sha, s, events, p, j) && Appends(sha, s, events, p, i)
    ensures i <= j
  {
    hide *;
    HeadParts(sha, s, events, p, j);
    AppendGrows(sha, s, events, p, j);
    AppendGrows(sha, s, events, p, i);
    if i > j {
      RowsGrow(sha, s, events[..i], j + 1);
      assert events[..i][..j + 1] == events[..j + 1];
      RowsGrow(sha, s, events, i + 1);
    }
  }

  lemma HeadParts(sha: Sha, s: Sys, events: seq<Event>, p: nat, j: int)
    requires AppendedHead(sha, s, events, p, j)
    ensures Appends(sha, s, events, p, j) && 0 <= j < |events|
    ensures |Run(sha, s, events[..j + 1]).rows| == |Run(sha, s, events).rows|
  {
    hide Run;
  }

  lemma WroteParts(sha: Sha, s: Sys, events: seq<Event>, p: nat, j: int, h: Bytes)
    requires WroteAt(sha, s, events, p, j, h)
    ensures Appends(sha, s, events, p, j) && 0 <= j < |events|
    ensures var rows := Run(sha, s, events[..j + 1]).rows; rows != [] && h == rows[|rows| - 1].hash
    ensures forall i :: j < i < |events| ==> !Appends(sha, s, events, p, i)
  {
    hide Run;
  }

  /** Rows of one consistent list differ in their hashes. */
  lemma HashesApart(sha: Sha, rows: seq<Row>, i: nat, j: nat)
    requires GoodRows(sha, rows) && Trusted(sha, Preimages(rows)) && i < |rows| && j < |rows|
    requires rows[i].hash == rows[j].hash
    ensures i == j
  {
    hide *;
    GoodPrefix(sha, rows, i + 1);
    GoodPrefix(sha, rows, j + 1);
    HeadOfPrefix(rows, i + 1);
    HeadOfPrefix(rows, j + 1);
    HeadPinsRows(sha, rows[..i + 1], rows[..j + 1], Preimages(rows));
    assert |rows[..i + 1]| == |rows[..j + 1]|;
  }

  lemma HeadIsLast(rows: seq<Row>)
    requires rows != []
    ensures HeadOf(rows) == rows[|rows| - 1].hash
  {
  }

  /** What a process wrote last is the head exactly when it appended the last row. */
  lemma WroteHead(sha: Sha, s: Sys, events: seq<Event>, p: nat, h: Option<Bytes>)
    requires Inv(sha, s) && WroteLast(sha, s, events, p, h)
    requires var rows := Run(sha, s, events).rows; GoodRows(sha, rows) && Trusted(sha, Preimages(rows))
    ensures h == Some(HeadOf(Run(sha, s, events).rows)) <==> OwnsHead(sha, s, events, p)
  {
    hide Run, Inv, Appends, WroteAt, AppendedHead, GoodRows, Trusted, Preimages, HeadOf;
    var rows := Run(sha, s, events).rows;
    if h.Some? {
      var j :| WroteAt(sha, s, events, p, j, h.value);
      WroteParts(sha, s, events, p, j, h.value);
      RowsGrow(sha, s, events, j + 1);
      HeadIsLast(rows);
      var n := |Run(sha, s, events[..j + 1]).rows|;
      assert rows[n - 1].hash == h.value;
      if h.value == HeadOf(rows) {
        HashesApart(sha, rows, n - 1, |rows| - 1);
        AppendedMade(sha, s, events, p, j);
      }
      if OwnsHead(sha, s, events, p) {
        var k :| AppendedHead(sha, s, events, p, k);
        HeadParts(sha, s, events, p, k);
        HeadIsNewest(sha, s, events, p, k, j);
      }
    } else if OwnsHead(sha, s, events, p) {
      var k :| AppendedHead(sha, s, events, p, k);
      HeadParts(sha, s, events, p, k);
    }
  }

  lemma AppendedMade(sha: Sha, s: Sys, events: seq<Event>, p: nat, j: int)
    requires Appends(sha, s, events, p, j) && 0 <= j < |events|
    requires |Run(sha, s, events[..j + 1]).rows| == |Run(sha, s, events).rows|
    ensures AppendedHead(sha, s, events, p, j)
  {
    hide Run;
  }

  /** A close moves the anchor to the last row exactly when its process appended that row and the keychain
      took it; otherwise it leaves the anchor as it was. It never touches the table. */
  lemma ClosesOwnHead(sha: Sha, s: Sys, events: seq<Event>, p: nat, stored: bool)
    requires Inv(sha, s) && s.procs == [] && Trusted(sha, Preimages(Run(sha, s, events).rows))
    ensures var (t, t') := (Run(sha, s, events), Run(sha, s, events + [Close(p, stored)]));
      && t'.rows == t.rows
      && if stored && OwnsHead(sha, s, events, p)
         then t.rows != [] && t'.anchor == Some(t.rows[|t.rows| - 1].hash) && t'.anchored == |t.rows|
         else t'.anchor == t.anchor && t'.anchored == t.anchored
  {
    hide *;
    var all, t := events + [Close(p, stored)], Run(sha, s, events);
    assert all[..|all| - 1] == events;
    RunLast(sha, s, all);
    CloseDoes(sha, t, p, stored);
    RunKeeps(sha, s, events);
    InvRows(sha, t);
    ProcessesRemember(sha, s, events);
    if p < |t.procs| {
      RemembersLast(sha, s, events, p, t.procs[p]);
      WroteHead(sha, s, events, p, t.procs[p].lastWritten);
    } else {
      NotOpenYet(sha, s, events, p);
      NeverParts(sha, s, events, p);
    }
    if OwnsHead(sha, s, events, p) {
      OwnsParts(sha, s, events, p);
      HeadIsLast(t.rows);
    }
  }

  lemma OwnsParts(sha: Sha, s: Sys, events: seq<Event>, p: nat)
    requires Inv(sha, s) && OwnsHead(sha, s, events, p)
    ensures Run(sha, s, events).rows != []
    ensures exists j :: 0 <= j < |events| && Appends(sha, s, events, p, j)
  {
    hide Run, Inv, Appends, AppendedHead;
    var j :| AppendedHead(sha, s, events, p, j);
    HeadParts(sha, s, events, p, j);
    AppendGrows(sha, s, events, p, j);
  }

  lemma InvRows(sha: Sha, t: Sys)
    requires Inv(sha, t)
    ensures GoodRows(sha, t.rows)
  {
    hide GoodRows;
  }

  lemma RemembersLast(sha: Sha, s: Sys, events: seq<Event>, p: nat, q: Proc)
    requires Remembers(sha, s, events, p, q)
    ensures WroteLast(sha, s, events, p, q.lastWritten)
  {
    hide WroteLast, Unanchored, Missed, Opened;
  }

  /** After an append and a close of the same process that the keychain took, `verify` accepts with the
      anchor on the last row and no lag. */
  lemma ClosedLogVerifies(sha: Sha, s: Sys, events: seq<Event>, p: nat, r: VerifyResult)
    requires Inv(sha, s) && s.procs == [] && Trusted(sha, Preimages(Run(sha, s, events).rows))
    requires Appends(sha, s, events, p, |events| - 1)
    requires var t := Run(sha, s, events + [Close(p, true)]); Verdict(sha, t.rows, t.anchor, r)
    ensures r.ok && r.anchored && r.firstBad.None? && r.lag.None? && r.checked == |Run(sha, s, events).rows|
  {
    hide *;
    AppendIndex(sha, s, events, p, |events| - 1);
    assert events[..|events| - 1 + 1] == events;
    AppendedMade(sha, s, events, p, |events| - 1);
    OwnsMade(sha, s, events, p, |events| - 1);
    ClosesOwnHead(sha, s, events, p, true);
    RunKeeps(sha, s, events);
    InvRows(sha, Run(sha, s, events));
    HeadIsLast(Run(sha, s, events).rows);
    AcceptedAtHead(sha, Run(sha, s, events).rows, r);
  }

  lemma OwnsMade(sha: Sha, s: Sys, events: seq<Event>, p: nat, j: int)
    requires AppendedHead(sha, s, events, p, j)
    ensures OwnsHead(sha, s, events, p)
  {
    hide AppendedHead;
  }

  lemma AcceptedAtHead(sha: Sha, rows: seq<Row>, r: VerifyResult)
    requires GoodRows(sha, rows) && Verdict(sha, rows, Some(HeadOf(rows)), r)
    ensures r.ok && r.anchored && r.firstBad.None? && r.lag.None? && r.checked == |rows|
  {
    hide GoodRows, LastWith, HeadOf;
  }
}
