/** Drift within a boot, and the catalog of clock steps that accounts for it. */
module TimeHealth {
  import opened Bytes

  const THRESHOLD: int := 128_000_000

  datatype Row = Row(bootId: Bytes, seqNo: nat, mono: int, wall: int)

  datatype Claim = Claim(seqNo: nat, mono: int, wall: int)

  datatype Kind = Step | Regression | Slew

  datatype TimeStep = TimeStep(bootId: Bytes, seqNo: nat, kind: Kind, delta: int)

  datatype DriftPoint = DriftPoint(seqNo: nat, offset: int)

  datatype Boot = Boot(bootId: Bytes, rows: seq<Row>)

  // ---------- boots ----------

  function AllRows(boots: seq<Boot>): seq<Row> {
    if boots == [] then [] else AllRows(boots[..|boots| - 1]) + boots[|boots| - 1].rows
  }

  predicate OneBoot(b: Boot) {
    b.rows != [] && forall i :: 0 <= i < |b.rows| ==> b.rows[i].bootId == b.bootId
  }

  /** Maximal runs of one boot id, in file order. */
  ghost predicate Runs(boots: seq<Boot>) {
    && (forall i :: 0 <= i < |boots| ==> OneBoot(boots[i]))
    && (forall i :: 0 < i < |boots| ==> boots[i - 1].bootId != boots[i].bootId)
  }

  lemma RunsSnoc(boots: seq<Boot>, b: Boot)
    requires Runs(boots) && OneBoot(b) && (boots != [] ==> boots[|boots| - 1].bootId != b.bootId)
    ensures Runs(boots + [b]) && AllRows(boots + [b]) == AllRows(boots) + b.rows
  {
    hide OneBoot, AllRows;
    RowsSnoc(boots, b);
    var all := boots + [b];
    forall i | 0 <= i < |all| ensures OneBoot(all[i]) {
      assert i < |boots| ==> all[i] == boots[i];
    }
    forall i | 0 < i < |all| ensures all[i - 1].bootId != all[i].bootId {
      assert all[i - 1] == boots[i - 1];
      assert i < |boots| ==> all[i] == boots[i];
    }
  }

  lemma RowsSnoc(boots: seq<Boot>, b: Boot)
    ensures AllRows(boots + [b]) == AllRows(boots) + b.rows
  {
    assert (boots + [b])[..|boots|] == boots;
  }

  lemma BootStarts(r: Row)
    ensures OneBoot(Boot(r.bootId, [r])) && Runs([]) && AllRows([]) == []
  {
  }

  lemma BootGrows(b: Boot, r: Row)
    requires OneBoot(b) && r.bootId == b.bootId
    ensures OneBoot(Boot(b.bootId, b.rows + [r]))
  {
  }

  lemma LastRow(boots: seq<Boot>)
    requires Runs(boots) && boots != []
    ensures AllRows(boots) != [] && AllRows(boots)[|AllRows(boots)| - 1].bootId == boots[|boots| - 1].bootId
  {
    assert OneBoot(boots[|boots| - 1]);
  }

  lemma RunsPrefix(boots: seq<Boot>)
    requires Runs(boots) && boots != []
    ensures Runs(boots[..|boots| - 1])
  {
  }

  lemma EarlierRow(a: seq<Row>, b: seq<Row>, c: seq<Row>, d: seq<Row>)
    requires a + b == c + d && |b| < |d|
    ensures a != [] && a[|a| - 1] == d[|d| - |b| - 1]
  {
    assert (a + b)[|a| - 1] == (c + d)[|a| - 1];
  }

  /** No run reaches into the one before it: the last run is the longest suffix with one boot id. */
  lemma LastRunIsLongest(a: seq<Boot>, b: seq<Boot>)
    requires Runs(a) && Runs(b) && a != [] && b != [] && AllRows(a) == AllRows(b)
    ensures |a[|a| - 1].rows| >= |b[|b| - 1].rows|
  {
    var x, y := a[|a| - 1], b[|b| - 1];
    LastRow(a);
    LastRow(b);
    var front, all := AllRows(a[..|a| - 1]), AllRows(a);
    assert all == front + x.rows && all == AllRows(b[..|b| - 1]) + y.rows;
    if |x.rows| < |y.rows| {
      RunsPrefix(a);
      EarlierRow(front, x.rows, AllRows(b[..|b| - 1]), y.rows);
      assert a[..|a| - 1] != [];
      LastRow(a[..|a| - 1]);
    }
  }

  lemma SameSplit(a: seq<Row>, b: seq<Row>, c: seq<Row>, d: seq<Row>)
    requires a + b == c + d && |b| == |d|
    ensures a == c && b == d
  {
    assert a == (a + b)[..|a|] && c == (c + d)[..|c|];
    assert b == (a + b)[|a|..] && d == (c + d)[|c|..];
  }

  /** The split into boots is forced: there is one way to cut rows into maximal runs. */
  lemma {:induction false} RunsAreUnique(a: seq<Boot>, b: seq<Boot>)
    requires Runs(a) && Runs(b) && AllRows(a) == AllRows(b)
    ensures a == b
  {
    if a == [] {
      if b != [] { LastRow(b); }
    } else if b == [] {
      LastRow(a);
    } else {
      LastRow(a);
      LastRow(b);
      LastRunIsLongest(a, b);
      LastRunIsLongest(b, a);
      var fa, fb, x, y := a[..|a| - 1], b[..|b| - 1], a[|a| - 1], b[|b| - 1];
      SameSplit(AllRows(fa), x.rows, AllRows(fb), y.rows);
      RunsPrefix(a);
      RunsPrefix(b);
      RunsAreUnique(fa, fb);
      assert a == fa + [x] && b == fb + [y];
    }
  }

  /** `_boots`. */
  method Boots(rows: seq<Row>) returns (boots: seq<Boot>)
    ensures Runs(boots) && AllRows(boots) == rows
  {
    boots := [];
    if rows == [] {
      return;
    }
    hide Runs, OneBoot, AllRows;
    BootStarts(rows[0]);
    var current, run := rows[0].bootId, [rows[0]];
    assert rows[..1] == [] + [rows[0]];
    for i := 1 to |rows|
      invariant Runs(boots) && OneBoot(Boot(current, run))
      invariant boots != [] ==> boots[|boots| - 1].bootId != current
      invariant AllRows(boots) + run == rows[..i]
    {
      assert rows[..i + 1] == rows[..i] + [rows[i]];
      if rows[i].bootId != current {
        RunsSnoc(boots, Boot(current, run));
        BootStarts(rows[i]);
        boots := boots + [Boot(current, run)];
        current, run := rows[i].bootId, [rows[i]];
      } else {
        Assoc(AllRows(boots), run, [rows[i]]);
        BootGrows(Boot(current, run), rows[i]);
        run := run + [rows[i]];
      }
    }
    RunsSnoc(boots, Boot(current, run));
    boots := boots + [Boot(current, run)];
    assert rows[..|rows|] == rows;
  }

  /** The rows of a boot that make a wall claim. */
  function Claims(rows: seq<Row>): seq<Claim> {
    if rows == [] then []
    else
      var r := rows[|rows| - 1];
      Claims(rows[..|rows| - 1]) + (if r.wall != 0 then [Claim(r.seqNo, r.mono, r.wall)] else [])
  }

  method ClaimsOf(rows: seq<Row>) returns (claims: seq<Claim>)
    ensures claims == Claims(rows)
  {
    claims := [];
    for i := 0 to |rows|
      invariant claims == Claims(rows[..i])
    {
      assert rows[..i + 1][..i] == rows[..i];
      if rows[i].wall != 0 {
        claims := claims + [Claim(rows[i].seqNo, rows[i].mono, rows[i].wall)];
      }
    }
    assert rows[..|rows|] == rows;
  }

  /** `claims` are, in order, the rows whose wall clock is set. */
  ghost predicate ClaimsAt(rows: seq<Row>, at: seq<nat>, claims: seq<Claim>) {
    && Increasing(at) && (forall i: nat :: i in at <==> i < |rows| && rows[i].wall != 0)
    && |claims| == |at|
    && forall k :: 0 <= k < |at| ==>
         at[k] < |rows| && claims[k] == Claim(rows[at[k]].seqNo, rows[at[k]].mono, rows[at[k]].wall)
  }

  lemma {:induction false} ClaimsAreRows(rows: seq<Row>) returns (at: seq<nat>)
    ensures ClaimsAt(rows, at, Claims(rows))
    decreases |rows|
  {
    at := [];
    if rows != [] {
      var n, front := |rows| - 1, rows[..|rows| - 1];
      at := ClaimsAreRows(front);
      assert forall k :: 0 <= k < |at| ==> at[k] in at && rows[at[k]] == front[at[k]];
      if rows[n].wall != 0 {
        at := at + [n];
      }
      forall i: nat ensures i in at <==> i < |rows| && rows[i].wall != 0 {
        assert i < n ==> rows[i] == front[i];
      }
    }
  }

  // ---------- drift ----------

  /** How far the wall clock has wandered from the monotonic clock since the boot's first claim. */
  function Drift(claims: seq<Claim>, i: nat): int
    requires i < |claims|
  {
    (claims[i].wall - claims[0].wall) - (claims[i].mono - claims[0].mono)
  }

  /** The wall clock's jump against the monotonic clock between two claims. */
  function Jump(claims: seq<Claim>, i: nat): int
    requires 0 < i < |claims|
  {
    (claims[i].wall - claims[i - 1].wall) - (claims[i].mono - claims[i - 1].mono)
  }

  /** `drift_series`, its points: they start at zero and move by each claim's jump. */
  method DriftPoints(claims: seq<Claim>) returns (points: seq<DriftPoint>)
    ensures |points| == |claims|
    ensures forall i :: 0 <= i < |claims| ==> points[i] == DriftPoint(claims[i].seqNo, Drift(claims, i))
    ensures claims != [] ==> points[0].offset == 0
    ensures forall i :: 0 < i < |claims| ==> points[i].offset - points[i - 1].offset == Jump(claims, i)
  {
    points := [];
    if claims == [] {
      return;
    }
    var mono0, wall0 := claims[0].mono, claims[0].wall;
    for i := 0 to |claims|
      invariant |points| == i
      invariant forall k :: 0 <= k < i ==> points[k] == DriftPoint(claims[k].seqNo, Drift(claims, k))
    {
      points := points + [DriftPoint(claims[i].seqNo, (claims[i].wall - wall0) - (claims[i].mono - mono0))];
    }
  }

  // ---------- the step catalog ----------

  function Abs(x: int): nat { if x < 0 then -x else x }

  datatype Walk = Walk(slew: int, events: seq<TimeStep>)

  function StepOn(boot: Bytes, claims: seq<Claim>, i: nat, w: Walk): Walk
    requires 0 < i < |claims|
  {
    var jump := Jump(claims, i);
    if claims[i].wall < claims[i - 1].wall then
      Walk(0, w.events + [TimeStep(boot, claims[i].seqNo, Regression, claims[i].wall - claims[i - 1].wall)])
    else if Abs(jump) >= THRESHOLD then Walk(0, w.events + [TimeStep(boot, claims[i].seqNo, Step, jump)])
    else if jump != 0 then
      if Abs(w.slew + jump) >= THRESHOLD then Walk(0, w.events + [TimeStep(boot, claims[i].seqNo, Slew, w.slew + jump)])
      else w.(slew := w.slew + jump)
    else w
  }

  /** The walk over the claims up to the `i`-th. */
  function WalkTo(boot: Bytes, claims: seq<Claim>, i: nat): Walk
    requires i < |claims|
  {
    if i == 0 then Walk(0, []) else StepOn(boot, claims, i, WalkTo(boot, claims, i - 1))
  }

  function Catalog(boot: Bytes, claims: seq<Claim>): seq<TimeStep> {
    if |claims| < 2 then [] else WalkTo(boot, claims, |claims| - 1).events
  }

  method CatalogOf(boot: Bytes, claims: seq<Claim>) returns (out: seq<TimeStep>)
    ensures out == Catalog(boot, claims)
  {
    out := [];
    if |claims| < 2 {
      return;
    }
    var slewSum := 0;
    var prevMono, prevWall := claims[0].mono, claims[0].wall;
    for i := 1 to |claims|
      invariant prevMono == claims[i - 1].mono && prevWall == claims[i - 1].wall
      invariant Walk(slewSum, out) == WalkTo(boot, claims, i - 1)
    {
      var c := claims[i];
      var jump := (c.wall - prevWall) - (c.mono - prevMono);
      if c.wall < prevWall {
        out := out + [TimeStep(boot, c.seqNo, Regression, c.wall - prevWall)];
        slewSum := 0;
      } else if Abs(jump) >= THRESHOLD {
        out := out + [TimeStep(boot, c.seqNo, Step, jump)];
        slewSum := 0;
      } else if jump != 0 {
        slewSum := slewSum + jump;
        if Abs(slewSum) >= THRESHOLD {
          out := out + [TimeStep(boot, c.seqNo, Slew, slewSum)];
          slewSum := 0;
        }
      }
      prevMono, prevWall := c.mono, c.wall;
    }
  }

  /** `step_catalog`: the boots' catalogs one after the other. */
  function CatalogAll(boots: seq<Boot>): seq<TimeStep> {
    if boots == [] then []
    else
      var b := boots[|boots| - 1];
      CatalogAll(boots[..|boots| - 1]) + Catalog(b.bootId, Claims(b.rows))
  }

  method StepCatalog(rows: seq<Row>) returns (out: seq<TimeStep>)
    ensures exists boots :: Runs(boots) && AllRows(boots) == rows && out == CatalogAll(boots)
  {
    out := [];
    var all := Boots(rows);
    for i := 0 to |all|
      invariant out == CatalogAll(all[..i])
    {
      assert all[..i + 1][..i] == all[..i];
      var claims := ClaimsOf(all[i].rows);
      var more := CatalogOf(all[i].bootId, claims);
      out := out + more;
    }
    assert all[..|all|] == all;
  }

  /** Boot by boot: nothing is carried over, dropped or moved. */
  lemma {:induction false} CatalogsJoin(a: seq<Boot>, b: seq<Boot>)
    ensures CatalogAll(a + b) == CatalogAll(a) + CatalogAll(b)
    ensures |b| == 1 ==> CatalogAll(b) == Catalog(b[0].bootId, Claims(b[0].rows))
    decreases |b|
  {
    if b == [] {
      assert a + b == a;
    } else {
      var front, last := b[..|b| - 1], b[|b| - 1];
      CatalogsJoin(a, front);
      assert (a + b)[..|a + b| - 1] == a + front && (a + b)[|a + b| - 1] == last;
      Assoc(CatalogAll(a), CatalogAll(front), Catalog(last.bootId, Claims(last.rows)));
    }
  }

  // ---------- where the events fall ----------

  /** The claim of the event before the `k`-th, the first claim when there is none. */
  function LastReset(at: seq<nat>, k: nat): nat
    requires k <= |at|
  {
    if k == 0 then 0 else at[k - 1]
  }

  /** Whether an event falls on claim `i` when the last one fell on claim `r`: the wall clock moved backwards,
      or jumped by 128 ms, or has drifted that far since. */
  predicate Falls(claims: seq<Claim>, r: nat, i: nat)
    requires r < i < |claims|
  {
    || claims[i].wall < claims[i - 1].wall
    || Abs(Drift(claims, i) - Drift(claims, i - 1)) >= THRESHOLD
    || Abs(Drift(claims, i) - Drift(claims, r)) >= THRESHOLD
  }

  /** The event that falls there. */
  function EventAt(boot: Bytes, claims: seq<Claim>, r: nat, i: nat): TimeStep
    requires r < i < |claims|
  {
    if claims[i].wall < claims[i - 1].wall then
      TimeStep(boot, claims[i].seqNo, Regression, claims[i].wall - claims[i - 1].wall)
    else if Abs(Drift(claims, i) - Drift(claims, i - 1)) >= THRESHOLD then
      TimeStep(boot, claims[i].seqNo, Step, Drift(claims, i) - Drift(claims, i - 1))
    else TimeStep(boot, claims[i].seqNo, Slew, Drift(claims, i) - Drift(claims, r))
  }

  /** `events` are those that fall on the claims `at`. */
  ghost predicate EventsOn(boot: Bytes, claims: seq<Claim>, n: nat, at: seq<nat>, events: seq<TimeStep>)
    requires n < |claims|
  {
    && Increasing(at) && |events| == |at|
    && forall k :: 0 <= k < |at| ==>
         && LastReset(at, k) < at[k] <= n && Falls(claims, LastReset(at, k), at[k])
         && events[k] == EventAt(boot, claims, LastReset(at, k), at[k])
  }

  /** No event falls between the `k`-th and the one before it. */
  ghost predicate QuietBefore(claims: seq<Claim>, n: nat, at: seq<nat>, k: nat)
    requires n < |claims| && k <= |at|
  {
    forall i: nat :: LastReset(at, k) < i <= n && (k < |at| ==> i < at[k]) ==> !Falls(claims, LastReset(at, k), i)
  }

  /** Up to claim `n` events fall exactly on the claims `at`, and `events` are those. */
  ghost predicate FallAt(boot: Bytes, claims: seq<Claim>, n: nat, at: seq<nat>, events: seq<TimeStep>)
    requires n < |claims|
  {
    EventsOn(boot, claims, n, at, events) && forall k :: 0 <= k <= |at| ==> QuietBefore(claims, n, at, k)
  }

  lemma FallsSkip(boot: Bytes, claims: seq<Claim>, n: nat, at: seq<nat>, events: seq<TimeStep>)
    requires n + 1 < |claims| && FallAt(boot, claims, n, at, events)
    requires LastReset(at, |at|) <= n && !Falls(claims, LastReset(at, |at|), n + 1)
    ensures FallAt(boot, claims, n + 1, at, events)
  {
    hide Falls, EventAt;
    var m := n + 1;
    forall k | 0 <= k <= |at| ensures QuietBefore(claims, m, at, k) {
      assert QuietBefore(claims, n, at, k);
    }
  }

  lemma FallsTake(boot: Bytes, claims: seq<Claim>, n: nat, at: seq<nat>, events: seq<TimeStep>)
    requires n + 1 < |claims| && FallAt(boot, claims, n, at, events)
    requires LastReset(at, |at|) <= n && Falls(claims, LastReset(at, |at|), n + 1)
    ensures FallAt(boot, claims, n + 1, at + [n + 1], events + [EventAt(boot, claims, LastReset(at, |at|), n + 1)])
  {
    hide Falls, EventAt;
    var m, more := n + 1, at + [n + 1];
    forall k | 0 <= k <= |at| ensures LastReset(more, k) == LastReset(at, k) {
    }
    EventsTake(boot, claims, n, at, events);
    hide EventsOn, LastReset;
    forall k | 0 <= k <= |more| ensures QuietBefore(claims, m, more, k) {
      QuietTake(claims, n, at, k);
    }
  }

  lemma QuietTake(claims: seq<Claim>, n: nat, at: seq<nat>, k: nat)
    requires n + 1 < |claims| && k <= |at| + 1
    requires k <= |at| ==> QuietBefore(claims, n, at, k)
    requires forall j :: 0 <= j < |at| ==> at[j] <= n
    ensures QuietBefore(claims, n + 1, at + [n + 1], k)
  {
    hide Falls;
    var more := at + [n + 1];
    if k <= |at| {
      assert LastReset(more, k) == LastReset(at, k);
      assert k < |at| ==> more[k] == at[k];
    }
  }

  lemma EventsTake(boot: Bytes, claims: seq<Claim>, n: nat, at: seq<nat>, events: seq<TimeStep>)
    requires n + 1 < |claims| && EventsOn(boot, claims, n, at, events)
    requires LastReset(at, |at|) <= n && Falls(claims, LastReset(at, |at|), n + 1)
    requires forall k :: 0 <= k <= |at| ==> LastReset(at + [n + 1], k) == LastReset(at, k)
    ensures EventsOn(boot, claims, n + 1, at + [n + 1], events + [EventAt(boot, claims, LastReset(at, |at|), n + 1)])
    ensures forall j :: 0 <= j < |at| ==> at[j] <= n
  {
    hide Falls, EventAt, LastReset;
  }

  /** One claim more: what is absorbed is the drift since the last event. */
  lemma StepFalls(boot: Bytes, claims: seq<Claim>, i: nat, w: Walk, r: nat)
    requires r < i < |claims| && w.slew == Drift(claims, i - 1) - Drift(claims, r) && Abs(w.slew) < THRESHOLD
    ensures var w' := StepOn(boot, claims, i, w);
      && Abs(w'.slew) < THRESHOLD
      && if Falls(claims, r, i) then w'.slew == 0 && w'.events == w.events + [EventAt(boot, claims, r, i)]
         else w'.slew == Drift(claims, i) - Drift(claims, r) && w'.events == w.events
  {
    assert Jump(claims, i) == Drift(claims, i) - Drift(claims, i - 1);
    hide Drift, Jump;
  }

  lemma {:induction false} WalkFalls(boot: Bytes, claims: seq<Claim>, n: nat) returns (at: seq<nat>)
    requires n < |claims|
    ensures var w := WalkTo(boot, claims, n);
      && FallAt(boot, claims, n, at, w.events) && LastReset(at, |at|) <= n
      && w.slew == Drift(claims, n) - Drift(claims, LastReset(at, |at|)) && Abs(w.slew) < THRESHOLD
  {
    hide StepOn, Falls, EventAt, Drift, FallAt;
    if n == 0 {
      at := [];
      NothingFalls(boot, claims);
    } else {
      at := WalkFalls(boot, claims, n - 1);
      var w, r := WalkTo(boot, claims, n - 1), LastReset(at, |at|);
      StepFalls(boot, claims, n, w, r);
      if Falls(claims, r, n) {
        FallsTake(boot, claims, n - 1, at, w.events);
        at := at + [n];
      } else {
        FallsSkip(boot, claims, n - 1, at, w.events);
      }
    }
  }

  lemma NothingFalls(boot: Bytes, claims: seq<Claim>)
    requires claims != []
    ensures FallAt(boot, claims, 0, [], [])
  {
  }

  /** The catalog of a boot, exactly: which claims have an event, of which kind and size, in order. */
  lemma CatalogIsExact(boot: Bytes, claims: seq<Claim>) returns (at: seq<nat>)
    requires claims != []
    ensures FallAt(boot, claims, |claims| - 1, at, Catalog(boot, claims))
  {
    hide FallAt, WalkTo;
    at := WalkFalls(boot, claims, |claims| - 1);
    if |claims| == 1 {
      NothingFalls(boot, claims);
      at := [];
    }
  }

  // ---------- the catalog accounts for the drift ----------

  /** The reported steps and slews. */
  function Reported(events: seq<TimeStep>): int {
    if events == [] then 0
    else
      Reported(events[..|events| - 1]) +
      (if events[|events| - 1].kind == Regression then 0 else events[|events| - 1].delta)
  }

  /** The steps and regressions, each of which drops what had been absorbed so far. */
  function Resets(events: seq<TimeStep>): nat {
    if events == [] then 0
    else Resets(events[..|events| - 1]) + (if events[|events| - 1].kind == Slew then 0 else 1)
  }

  /** The jumps at the records where the wall clock moved backwards. */
  function Backward(claims: seq<Claim>, i: nat): int
    requires i < |claims|
  {
    if i == 0 then 0
    else Backward(claims, i - 1) + (if claims[i].wall < claims[i - 1].wall then Jump(claims, i) else 0)
  }

  lemma EventsSnoc(events: seq<TimeStep>, e: TimeStep)
    ensures Reported(events + [e]) == Reported(events) + (if e.kind == Regression then 0 else e.delta)
    ensures Resets(events + [e]) == Resets(events) + (if e.kind == Slew then 0 else 1)
  {
    assert (events + [e])[..|events|] == events;
  }

  /** What one more claim does to the figures. */
  lemma StepFacts(boot: Bytes, claims: seq<Claim>, i: nat, w: Walk, w': Walk)
    requires 0 < i < |claims| && w' == StepOn(boot, claims, i, w) && Abs(w.slew) < THRESHOLD
    ensures var jump := Jump(claims, i);
      || (claims[i].wall < claims[i - 1].wall && w'.slew == 0
          && Reported(w'.events) == Reported(w.events) && Resets(w'.events) == Resets(w.events) + 1)
      || (claims[i].wall >= claims[i - 1].wall && w'.slew == 0
          && Reported(w'.events) == Reported(w.events) + jump && Resets(w'.events) == Resets(w.events) + 1)
      || (claims[i].wall >= claims[i - 1].wall && w'.slew == 0
          && Reported(w'.events) == Reported(w.events) + w.slew + jump && Resets(w'.events) == Resets(w.events))
      || (claims[i].wall >= claims[i - 1].wall && w'.slew == w.slew + jump && Abs(w'.slew) < THRESHOLD
          && w'.events == w.events)
  {
    var jump := Jump(claims, i);
    EventsSnoc(w.events, TimeStep(boot, claims[i].seqNo, Regression, claims[i].wall - claims[i - 1].wall));
    EventsSnoc(w.events, TimeStep(boot, claims[i].seqNo, Step, jump));
    EventsSnoc(w.events, TimeStep(boot, claims[i].seqNo, Slew, w.slew + jump));
    hide Reported, Resets, Jump;
  }

  /** What is left over after the reported events is what was being absorbed, and what each reset dropped. */
  lemma {:induction false} DriftIsAccounted(boot: Bytes, claims: seq<Claim>, i: nat)
    requires i < |claims|
    ensures var w := WalkTo(boot, claims, i);
      && Abs(w.slew) < THRESHOLD
      && Abs(Drift(claims, i) - Reported(w.events) - Backward(claims, i) - w.slew) <= (THRESHOLD - 1) * Resets(w.events)
  {
    if i > 0 {
      DriftIsAccounted(boot, claims, i - 1);
      StepFacts(boot, claims, i, WalkTo(boot, claims, i - 1), WalkTo(boot, claims, i));
      assert Drift(claims, i) == Drift(claims, i - 1) + Jump(claims, i);
      hide StepOn, Reported, Resets, Jump, Drift;
    }
  }

  /** The drift differs from the reported steps and slews and the jumps at regressions by less than
      128 ms for each step and regression, and once more. */
  lemma CatalogBoundsDrift(boot: Bytes, claims: seq<Claim>, i: nat)
    requires i < |claims|
    ensures var events := WalkTo(boot, claims, i).events;
      Abs(Drift(claims, i) - Reported(events) - Backward(claims, i)) < THRESHOLD * (1 + Resets(events))
  {
    DriftIsAccounted(boot, claims, i);
    hide WalkTo, Reported, Backward, Resets, Drift;
  }

  lemma {:induction false} EventsOnlyGrow(boot: Bytes, claims: seq<Claim>, i: nat, j: nat)
    requires i <= j < |claims|
    ensures WalkTo(boot, claims, i).events <= WalkTo(boot, claims, j).events
    decreases j
  {
    if i < j {
      EventsOnlyGrow(boot, claims, i, j - 1);
    }
  }

  lemma {:induction false} NoneBackward(boot: Bytes, claims: seq<Claim>, i: nat)
    requires i < |claims| && WalkTo(boot, claims, i).events == []
    ensures Backward(claims, i) == 0
  {
    if i > 0 {
      EventsOnlyGrow(boot, claims, i - 1, i);
      NoneBackward(boot, claims, i - 1);
    }
  }

  /** A boot with no catalogued event has every drift point strictly within 128 ms. */
  lemma QuietBootStaysWithin(boot: Bytes, claims: seq<Claim>, i: nat)
    requires Catalog(boot, claims) == [] && i < |claims|
    ensures Abs(Drift(claims, i)) < THRESHOLD
  {
    if |claims| >= 2 {
      EventsOnlyGrow(boot, claims, i, |claims| - 1);
      NoneBackward(boot, claims, i);
      DriftIsAccounted(boot, claims, i);
      hide WalkTo, Drift, Backward;
    }
  }

  /** What an event says of the claims. */
  ghost predicate Meant(claims: seq<Claim>, i: nat, e: TimeStep)
    requires i < |claims|
  {
    if e.kind == Regression
    then exists k :: 0 < k <= i && claims[k].wall < claims[k - 1].wall && e.seqNo == claims[k].seqNo
                     && e.delta == claims[k].wall - claims[k - 1].wall
    else Abs(e.delta) >= THRESHOLD
  }

  lemma MeantLater(claims: seq<Claim>, i: nat, e: TimeStep)
    requires i + 1 < |claims| && Meant(claims, i, e)
    ensures Meant(claims, i + 1, e)
  {
  }

  /** Every event means what it says: a regression is a place where the wall clock moved backwards, with
      its size; anything else is at least 128 ms. */
  lemma {:induction false} EventsMeanWhatTheySay(boot: Bytes, claims: seq<Claim>, i: nat, e: TimeStep)
    requires i < |claims| && e in WalkTo(boot, claims, i).events
    ensures Meant(claims, i, e)
  {
    hide Meant, StepOn;
    if i > 0 {
      var before := WalkTo(boot, claims, i - 1);
      NewEvent(boot, claims, i, before);
      if e in before.events {
        EventsMeanWhatTheySay(boot, claims, i - 1, e);
        MeantLater(claims, i - 1, e);
      }
    }
  }

  /** And every place where the wall clock moved backwards is catalogued. */
  lemma {:induction false} RegressionsAreListed(boot: Bytes, claims: seq<Claim>, k: nat, i: nat)
    requires 0 < k <= i < |claims| && claims[k].wall < claims[k - 1].wall
    ensures var e := TimeStep(boot, claims[k].seqNo, Regression, claims[k].wall - claims[k - 1].wall);
      e in WalkTo(boot, claims, i).events
  {
    NewEvent(boot, claims, k, WalkTo(boot, claims, k - 1));
    EventsOnlyGrow(boot, claims, k, i);
    var e := TimeStep(boot, claims[k].seqNo, Regression, claims[k].wall - claims[k - 1].wall);
    hide StepOn, Meant;
    var a, b := WalkTo(boot, claims, k).events, WalkTo(boot, claims, i).events;
    assert a[|a| - 1] == e;
    assert b[|a| - 1] == e;
  }

  /** The one event a claim may add. */
  lemma NewEvent(boot: Bytes, claims: seq<Claim>, i: nat, w: Walk)
    requires 0 < i < |claims|
    ensures var w' := StepOn(boot, claims, i, w);
      && (w'.events == w.events
          || (|w'.events| == |w.events| + 1 && w'.events == w.events + [w'.events[|w.events|]]
              && Meant(claims, i, w'.events[|w.events|])))
      && (claims[i].wall < claims[i - 1].wall ==>
            w'.events == w.events + [TimeStep(boot, claims[i].seqNo, Regression, claims[i].wall - claims[i - 1].wall)])
  {
  }
}
