/** The SQL audit log: a hash chain with an anchor kept outside it. */
module Log {
  /* Several processes extend the chain. Text is its UTF-8 bytes; a hash is its 64 hexadecimal digits,
     as stored in the table. */

  import opened Bytes

  // ---------- canonical form ----------

  /** `int.to_bytes(k, "big")`. */
  function Be(n: nat, k: nat): (s: Bytes)
    ensures |s| == k
  {
    if k == 0 then [] else Be(n / 256, k - 1) + [n % 256]
  }

  function UnBe(s: Bytes): nat {
    if s == [] then 0 else 256 * UnBe(s[..|s| - 1]) + s[|s| - 1]
  }

  lemma {:induction false} UnBeBe(n: nat, k: nat)
    requires n < Pow256(k)
    ensures UnBe(Be(n, k)) == n
  {
    if k > 0 {
      UnBeBe(n / 256, k - 1);
      assert Be(n, k)[..k - 1] == Be(n / 256, k - 1);
    }
  }

  type Text = Option<Bytes>

  predicate TextFits(f: Text) { f.Some? ==> |f.value| < 0x1_0000_0000_0000_0000 }

  predicate TextsFit(fs: seq<Text>) {
    forall i :: 0 <= i < |fs| ==> TextFits(fs[i])
  }

  function CanonicalOne(f: Text): Bytes
    requires TextFits(f)
  {
    if f.None? then [0] else [1] + Be(|f.value|, 8) + f.value
  }

  function Canonical(fs: seq<Text>): Bytes
    requires TextsFit(fs)
  {
    if fs == [] then [] else CanonicalOne(fs[0]) + Canonical(fs[1..])
  }

  lemma CanonicalFrom(fs: seq<Text>, i: nat)
    requires TextsFit(fs) && i <= |fs|
    ensures TextsFit(fs[i..])
    ensures i == |fs| ==> Canonical(fs[i..]) == []
    ensures i < |fs| ==> (
      && TextFits(fs[i]) && TextsFit(fs[i + 1..])
      && Canonical(fs[i..]) == CanonicalOne(fs[i]) + Canonical(fs[i + 1..]))
  {
    assert i < |fs| ==> fs[i..][1..] == fs[i + 1..];
    hide CanonicalOne;
  }

  method CanonicalBytes(fs: seq<Text>) returns (out: Bytes)
    requires TextsFit(fs)
    ensures out == Canonical(fs)
  {
    hide Canonical, TextsFit, Be;
    out := [];
    CanonicalFrom(fs, 0);
    assert fs[0..] == fs;
    for i := 0 to |fs|
      invariant TextsFit(fs[i..])
      invariant out + Canonical(fs[i..]) == Canonical(fs)
    {
      CanonicalFrom(fs, i);
      Assoc(out, CanonicalOne(fs[i]), Canonical(fs[i + 1..]));
      if fs[i].None? {
        out := out + [0];
      } else {
        var raw := fs[i].value;
        Assoc(out + [1], Be(|raw|, 8), raw);
        Assoc(out, [1], Be(|raw|, 8) + raw);
        Assoc([1], Be(|raw|, 8), raw);
        out := out + [1];
        out := out + Be(|raw|, 8);
        out := out + raw;
      }
    }
    CanonicalFrom(fs, |fs|);
    assert out + [] == out;
  }

  /** The first field of a canonical form and what follows it. */
  function FirstText(s: Bytes): Option<(Text, Bytes)> {
    if s == [] then None
    else if s[0] == 0 then Some((None, s[1..]))
    else if s[0] != 1 || |s| < 9 then None
    else
      var n := UnBe(s[1..9]);
      if 9 + n > |s| then None else Some((Some(s[9..9 + n]), s[9 + n..]))
  }

  /** Reads a canonical form back. */
  function ParseTexts(s: Bytes): Option<seq<Text>>
    decreases |s|
  {
    if s == [] then Some([])
    else
      var first := FirstText(s);
      if first.None? || |first.value.1| >= |s| then None
      else
        var rest := ParseTexts(first.value.1);
        if rest.None? then None else Some([first.value.0] + rest.value)
  }

  lemma FirstOfCanonical(f: Text, rest: Bytes)
    requires TextFits(f)
    ensures FirstText(CanonicalOne(f) + rest) == Some((f, rest))
    ensures CanonicalOne(f) + rest != []
  {
    var s := CanonicalOne(f) + rest;
    if f.Some? {
      PowerWidths();
      UnBeBe(|f.value|, 8);
      var n := |f.value|;
      assert s[1..9] == Be(n, 8) && s[9..9 + n] == f.value && s[9 + n..] == rest;
    } else {
      assert s[1..] == rest;
    }
  }

  /** The canonical form is uniquely decodable: any list of optional texts reads back. */
  lemma {:induction false} ParseCanonical(fs: seq<Text>)
    requires TextsFit(fs)
    ensures ParseTexts(Canonical(fs)) == Some(fs)
  {
    if fs != [] {
      FirstOfCanonical(fs[0], Canonical(fs[1..]));
      ParseCanonical(fs[1..]);
      assert fs == [fs[0]] + fs[1..];
    }
  }

  // ---------- rows ----------

  function HexDigit(n: nat): byte
    requires n < 16
  {
    if n < 10 then 48 + n else 87 + n
  }

  function Hex(s: Bytes): (h: Bytes)
    ensures |h| == 2 * |s|
  {
    if s == [] then [] else [HexDigit(s[0] / 16), HexDigit(s[0] % 16)] + Hex(s[1..])
  }

  lemma {:induction false} HexInjective(a: Bytes, b: Bytes)
    requires Hex(a) == Hex(b)
    ensures a == b
  {
    if a != [] && b != [] {
      assert Hex(a)[0] == Hex(b)[0] && Hex(a)[1] == Hex(b)[1];
      assert Hex(a)[2..] == Hex(a[1..]) && Hex(b)[2..] == Hex(b[1..]);
      HexInjective(a[1..], b[1..]);
      assert a == [a[0]] + a[1..] && b == [b[0]] + b[1..];
    }
  }

  /** `"0" * 64`: the zero digest in hexadecimal. */
  const GENESIS: Bytes := Hex(ZERO32)

  /** timestamp, operation, tool_name, outcome, engine_id, model_locality, data_class, error_message. */
  type Fields = fs: seq<Text> | |fs| == 8 && TextsFit(fs) witness [None, None, None, None, None, None, None, None]

  datatype Row = Row(fields: Fields, prev: Bytes, hash: Bytes)

  function Preimage(prev: Bytes, fields: Fields): Bytes { prev + Canonical(fields) }

  function RowHash(sha: Sha, prev: Bytes, fields: Fields): (h: Bytes)
    ensures |h| == 64
  {
    Hex(sha(Preimage(prev, fields)))
  }

  /** `00` for an absent text, `01` and an eight-byte length, most significant first, before one that is there;
      digests in lower-case digits. */
  lemma StoredForms()
    ensures Canonical([None, Some([120, 121])]) == [0, 1, 0, 0, 0, 0, 0, 0, 0, 2, 120, 121]
    ensures Hex([171, 9]) == [97, 98, 48, 57]
  {
    hide *;
    EightBytes(2);
    CanonicalPair(None, [120, 121]);
    HexPair(171, 9);
  }

  lemma CanonicalPair(none: Text, t: Bytes)
    requires none.None? && |t| == 2
    ensures TextsFit([none, Some(t)]) && Canonical([none, Some(t)]) == [0] + ([1] + Be(2, 8) + t)
  {
    var fs, rest, last: seq<Text> := [none, Some(t)], [Some(t)], [];
    assert fs[1..] == rest && rest[1..] == last;
    assert Canonical(rest) == CanonicalOne(Some(t)) + [] == CanonicalOne(Some(t));
    hide Be;
  }

  lemma HexPair(a: byte, b: byte)
    ensures Hex([a, b]) == [HexDigit(a / 16), HexDigit(a % 16), HexDigit(b / 16), HexDigit(b % 16)]
    ensures HexDigit(10) == 97 && HexDigit(11) == 98 && HexDigit(0) == 48 && HexDigit(9) == 57
  {
    var s, rest, last: Bytes := [a, b], [b], [];
    assert s[1..] == rest && rest[1..] == last;
    assert Hex(rest) == [HexDigit(b / 16), HexDigit(b % 16)] + [];
  }

  lemma EightBytes(n: nat)
    requires n < 256
    ensures Be(n, 8) == [0, 0, 0, 0, 0, 0, 0, n]
  {
    assert Be(0, 1) == [0] && Be(0, 2) == [0, 0] && Be(0, 3) == [0, 0, 0] && Be(0, 4) == [0, 0, 0, 0];
    assert Be(0, 5) == [0, 0, 0, 0, 0] && Be(0, 6) == [0, 0, 0, 0, 0, 0];
    assert Be(0, 7) == [0, 0, 0, 0, 0, 0, 0];
  }

  /** A row's hash covers its predecessor's hash, then its own fields. */
  lemma FirstRowHash(sha: Sha)
    ensures RowHash(sha, GENESIS, [None, None, None, None, None, None, None, None]) ==
      Hex(sha(GENESIS + [0, 0, 0, 0, 0, 0, 0, 0]))
  {
    NoTexts(8);
    var fs: seq<Text> := seq(8, _ => None);
    assert fs == [None, None, None, None, None, None, None, None];
    assert Zeros(8) == [0, 0, 0, 0, 0, 0, 0, 0];
  }

  lemma {:induction false} NoTexts(n: nat)
    ensures TextsFit(seq(n, _ => None)) && Canonical(seq(n, _ => None)) == Zeros(n)
  {
    if n > 0 {
      NoTexts(n - 1);
      var fs: seq<Text> := seq(n, _ => None);
      assert fs[1..] == seq(n - 1, _ => None);
      assert Zeros(n) == [0] + Zeros(n - 1);
    }
  }

  function HeadOf(rows: seq<Row>): Bytes {
    if rows == [] then GENESIS else rows[|rows| - 1].hash
  }

  predicate RowOk(sha: Sha, rows: seq<Row>, i: nat)
    requires i < |rows|
  {
    rows[i].prev == HeadOf(rows[..i]) && rows[i].hash == RowHash(sha, rows[i].prev, rows[i].fields)
  }

  ghost predicate GoodRows(sha: Sha, rows: seq<Row>) {
    forall i :: 0 <= i < |rows| ==> RowOk(sha, rows, i)
  }

  /** The row `record` inserts. */
  function NextRow(sha: Sha, rows: seq<Row>, fields: Fields): Row {
    Row(fields, HeadOf(rows), RowHash(sha, HeadOf(rows), fields))
  }

  lemma RowStays(sha: Sha, rows: seq<Row>, more: seq<Row>, i: nat)
    requires i < |rows|
    ensures RowOk(sha, rows + more, i) <==> RowOk(sha, rows, i)
  {
    assert (rows + more)[..i] == rows[..i];
  }

  lemma GoodGrows(sha: Sha, rows: seq<Row>, fields: Fields)
    requires GoodRows(sha, rows)
    ensures GoodRows(sha, rows + [NextRow(sha, rows, fields)])
  {
    hide RowHash;
    var all := rows + [NextRow(sha, rows, fields)];
    forall i | 0 <= i < |all| ensures RowOk(sha, all, i) {
      if i < |rows| {
        RowStays(sha, rows, [NextRow(sha, rows, fields)], i);
      } else {
        assert all[..i] == rows;
      }
    }
  }

  // ---------- the hash pins the rows ----------

  function Preimages(rows: seq<Row>): set<Bytes> {
    set i | 0 <= i < |rows| :: Preimage(rows[i].prev, rows[i].fields)
  }

  ghost predicate Trusted(sha: Sha, s: set<Bytes>) {
    NoCollision(sha, s) && NeverZero(sha, s)
  }

  lemma HashLength(sha: Sha, rows: seq<Row>)
    requires GoodRows(sha, rows)
    ensures |HeadOf(rows)| == 64
  {
    if rows != [] {
      assert RowOk(sha, rows, |rows| - 1);
    }
  }

  lemma PreimageSplits(p: Bytes, f: Fields, q: Bytes, g: Fields)
    requires |p| == |q| && Preimage(p, f) == Preimage(q, g)
    ensures p == q && f == g
  {
    assert Preimage(p, f)[..|p|] == p && Preimage(q, g)[..|q|] == q;
    assert Preimage(p, f)[|p|..] == Canonical(f) && Preimage(q, g)[|q|..] == Canonical(g);
    ParseCanonical(f);
    ParseCanonical(g);
  }

  lemma GoodLast(sha: Sha, rows: seq<Row>)
    requires GoodRows(sha, rows) && rows != []
    ensures var n := |rows| - 1;
      && GoodRows(sha, rows[..n]) && rows == rows[..n] + [rows[n]]
      && rows[n].prev == HeadOf(rows[..n]) && |rows[n].prev| == 64
      && rows[n].hash == RowHash(sha, rows[n].prev, rows[n].fields)
      && Preimage(rows[n].prev, rows[n].fields) in Preimages(rows) && Preimages(rows[..n]) <= Preimages(rows)
  {
    hide RowHash, Preimage;
    var n := |rows| - 1;
    Snoc(rows);
    assert RowOk(sha, rows, n);
    forall i | 0 <= i < n ensures RowOk(sha, rows[..n], i) {
      assert RowOk(sha, rows, i);
      RowStays(sha, rows[..n], [rows[n]], i);
    }
    HashLength(sha, rows[..n]);
    forall x | x in Preimages(rows[..n]) ensures x in Preimages(rows) {
      var i :| 0 <= i < n && x == Preimage(rows[..n][i].prev, rows[..n][i].fields);
      assert rows[i] == rows[..n][i];
    }
  }

  lemma NotGenesis(sha: Sha, rows: seq<Row>, s: set<Bytes>)
    requires GoodRows(sha, rows) && rows != [] && Trusted(sha, s) && Preimages(rows) <= s
    ensures HeadOf(rows) != GENESIS
  {
    GoodLast(sha, rows);
    var r := rows[|rows| - 1];
    if r.hash == GENESIS {
      HexInjective(sha(Preimage(r.prev, r.fields)), ZERO32);
    }
  }

  /** Two consistent row lists with the same head hold the same rows in the same order. */
  lemma {:induction false} HeadPinsRows(sha: Sha, a: seq<Row>, b: seq<Row>, s: set<Bytes>)
    requires GoodRows(sha, a) && GoodRows(sha, b) && HeadOf(a) == HeadOf(b)
    requires Trusted(sha, s) && Preimages(a) <= s && Preimages(b) <= s
    ensures a == b
    decreases |a|
  {
    hide GoodRows, RowHash, Preimage, Preimages;
    if a != [] && b != [] {
      GoodLast(sha, a);
      GoodLast(sha, b);
      SameHash(sha, a[|a| - 1], b[|b| - 1], s);
      HeadPinsRows(sha, a[..|a| - 1], b[..|b| - 1], s);
    } else if a != [] {
      NotGenesis(sha, a, s);
    } else if b != [] {
      NotGenesis(sha, b, s);
    }
  }

  lemma SameHash(sha: Sha, x: Row, y: Row, s: set<Bytes>)
    requires x.hash == RowHash(sha, x.prev, x.fields) && y.hash == RowHash(sha, y.prev, y.fields) && x.hash == y.hash
    requires |x.prev| == |y.prev| && NoCollision(sha, s)
    requires Preimage(x.prev, x.fields) in s && Preimage(y.prev, y.fields) in s
    ensures x == y
  {
    hide Preimage, Hex;
    HexInjective(sha(Preimage(x.prev, x.fields)), sha(Preimage(y.prev, y.fields)));
    PreimageSplits(x.prev, x.fields, y.prev, y.fields);
  }

  lemma GoodPrefix(sha: Sha, rows: seq<Row>, n: nat)
    requires GoodRows(sha, rows) && n <= |rows|
    ensures GoodRows(sha, rows[..n]) && Preimages(rows[..n]) <= Preimages(rows)
  {
    hide RowHash, Preimage;
    assert rows == rows[..n] + rows[n..];
    forall i | 0 <= i < n ensures RowOk(sha, rows[..n], i) {
      assert RowOk(sha, rows, i);
      RowStays(sha, rows[..n], rows[n..], i);
    }
    forall x | x in Preimages(rows[..n]) ensures x in Preimages(rows) {
      var i :| 0 <= i < n && x == Preimage(rows[..n][i].prev, rows[..n][i].fields);
      assert rows[i] == rows[..n][i];
    }
  }

  // ---------- verification ----------

  datatype VerifyResult = VerifyResult(ok: bool, checked: nat, anchored: bool, firstBad: Option<nat>, lag: Option<nat>)

  /** The last row with this hash. */
  function LastWith(rows: seq<Row>, h: Bytes): (i: Option<nat>)
    ensures i.Some? ==> i.value < |rows| && rows[i.value].hash == h
    ensures i.None? ==> forall j :: 0 <= j < |rows| ==> rows[j].hash != h
  {
    if rows == [] then None
    else if rows[|rows| - 1].hash == h then Some(|rows| - 1)
    else
      var i := LastWith(rows[..|rows| - 1], h);
      assert i.None? ==> forall j :: 0 <= j < |rows| - 1 ==> rows[..|rows| - 1][j] == rows[j];
      i
  }

  /** What the walk and the anchor decide, without a walk. */
  ghost predicate Verdict(sha: Sha, rows: seq<Row>, anchor: Option<Bytes>, r: VerifyResult) {
    && r.checked == |rows|
    && (r.firstBad.None? <==> GoodRows(sha, rows))
    && (r.firstBad.Some? ==>
          && r.firstBad.value < |rows| && !RowOk(sha, rows, r.firstBad.value) && !r.ok && !r.anchored && r.lag.None?
          && forall i :: 0 <= i < r.firstBad.value ==> RowOk(sha, rows, i))
    && (r.firstBad.None? ==>
          && r.ok == (anchor.None? || anchor.value == HeadOf(rows)) && r.anchored == anchor.Some?
          && r.lag == if anchor.None? || anchor.value == HeadOf(rows) || LastWith(rows, anchor.value).None? then None
                      else Some(|rows| - LastWith(rows, anchor.value).value - 1))
  }

  /** `positions[anchor]`: the dictionary keeps the last position of a hash. */
  method FindPosition(rows: seq<Row>, h: Bytes) returns (i: Option<nat>)
    ensures i == LastWith(rows, h)
  {
    i := None;
    for k := 0 to |rows|
      invariant i == LastWith(rows[..k], h)
    {
      assert rows[..k + 1][..k] == rows[..k];
      if rows[k].hash == h {
        i := Some(k);
      }
    }
    assert rows[..|rows|] == rows;
  }

  lemma BadRow(sha: Sha, rows: seq<Row>, anchor: Option<Bytes>, i: nat)
    requires i < |rows| && !RowOk(sha, rows, i) && forall k :: 0 <= k < i ==> RowOk(sha, rows, k)
    ensures Verdict(sha, rows, anchor, VerifyResult(false, |rows|, false, Some(i), None))
  {
    hide RowOk, LastWith, HeadOf;
  }

  lemma AllGood(sha: Sha, rows: seq<Row>, anchor: Option<Bytes>, at: Option<nat>)
    requires GoodRows(sha, rows) && (anchor.Some? ==> at == LastWith(rows, anchor.value))
    ensures var same := anchor.None? || anchor.value == HeadOf(rows);
      var lag := if same || at.None? then None else Some(|rows| - at.value - 1);
      Verdict(sha, rows, anchor, VerifyResult(same, |rows|, anchor.Some?, None, lag))
  {
    hide GoodRows, HeadOf;
  }

  lemma RowIs(sha: Sha, rows: seq<Row>, i: nat, expected: Bytes)
    requires i < |rows| && expected == HeadOf(rows[..i])
    ensures RowOk(sha, rows, i) <==>
      rows[i].prev == expected && rows[i].hash == RowHash(sha, rows[i].prev, rows[i].fields)
    ensures HeadOf(rows[..i + 1]) == rows[i].hash
  {
    hide RowHash;
  }

  lemma NoRows(rows: seq<Row>)
    ensures HeadOf(rows[..0]) == GENESIS
  {
  }

  lemma AllRows(sha: Sha, rows: seq<Row>)
    requires forall k :: 0 <= k < |rows| ==> RowOk(sha, rows, k)
    ensures GoodRows(sha, rows)
  {
  }

  method Verify(sha: Sha, rows: seq<Row>, anchor: Option<Bytes>) returns (r: VerifyResult)
    ensures Verdict(sha, rows, anchor, r)
  {
    hide *;
    var expected := GENESIS;
    NoRows(rows);
    for i := 0 to |rows|
      invariant expected == HeadOf(rows[..i])
      invariant forall k :: 0 <= k < i ==> RowOk(sha, rows, k)
    {
      RowIs(sha, rows, i, expected);
      if rows[i].prev != expected {
        BadRow(sha, rows, anchor, i);
        return VerifyResult(false, |rows|, false, Some(i), None);
      }
      var recomputed := RowHash(sha, rows[i].prev, rows[i].fields);
      if recomputed != rows[i].hash {
        BadRow(sha, rows, anchor, i);
        return VerifyResult(false, |rows|, false, Some(i), None);
      }
      expected := rows[i].hash;
    }
    assert rows[..|rows|] == rows;
    AllRows(sha, rows);
    if anchor.None? {
      AllGood(sha, rows, anchor, None);
      return VerifyResult(true, |rows|, false, None, None);
    }
    var at := FindPosition(rows, anchor.value);
    AllGood(sha, rows, anchor, at);
    if anchor.value != expected {
      if at.Some? {
        return VerifyResult(false, |rows|, true, None, Some(|rows| - at.value - 1));
      }
      return VerifyResult(false, |rows|, true, None, None);
    }
    return VerifyResult(true, |rows|, true, None, None);
  }

  lemma HeadOfPrefix(rows: seq<Row>, n: nat)
    requires 1 <= n <= |rows|
    ensures HeadOf(rows[..n]) == rows[n - 1].hash
  {
  }

  /** A hash behaves on both lists. */
  ghost predicate Comparable(sha: Sha, rows: seq<Row>, history: seq<Row>) {
    GoodRows(sha, rows) && GoodRows(sha, history) && Trusted(sha, Preimages(rows) + Preimages(history))
  }

  lemma SamePrefix(sha: Sha, rows: seq<Row>, history: seq<Row>, n: nat)
    requires Comparable(sha, rows, history) && n <= |rows| && HeadOf(rows[..n]) == HeadOf(history)
    ensures rows[..n] == history
  {
    GoodPrefix(sha, rows, n);
    HeadPinsRows(sha, rows[..n], history, Preimages(rows) + Preimages(history));
  }

  /** Against the anchor of a history: accepted and anchored exactly when these are its rows; a lag of
      `k` exactly when dropping the last `k` rows gives it. */
  lemma AnchorDecides(sha: Sha, rows: seq<Row>, history: seq<Row>, r: VerifyResult)
    requires Comparable(sha, rows, history) && history != []
    requires Verdict(sha, rows, Some(HeadOf(history)), r)
    ensures r.firstBad.None? && r.anchored
    ensures r.ok <==> rows == history
    ensures forall k: nat :: r.lag == Some(k) <==> 1 <= k < |rows| && rows[..|rows| - k] == history
  {
    hide GoodRows, Trusted, RowHash, Preimages;
    var e := HeadOf(history);
    assert rows[..|rows|] == rows;
    if e == HeadOf(rows) {
      SamePrefix(sha, rows, history, |rows|);
    }
    forall k: nat ensures r.lag == Some(k) <==> 1 <= k < |rows| && rows[..|rows| - k] == history {
      if r.lag == Some(k) {
        LagIsPrefix(sha, rows, history, k);
      }
      if 1 <= k < |rows| && rows[..|rows| - k] == history {
        PrefixIsLag(sha, rows, history, k);
      }
    }
  }

  lemma LagIsPrefix(sha: Sha, rows: seq<Row>, history: seq<Row>, k: nat)
    requires Comparable(sha, rows, history) && HeadOf(history) != HeadOf(rows)
    requires LastWith(rows, HeadOf(history)).Some? && k == |rows| - LastWith(rows, HeadOf(history)).value - 1
    ensures 1 <= k < |rows| && rows[..|rows| - k] == history
  {
    hide GoodRows, Trusted, RowHash, Preimages;
    var i := LastWith(rows, HeadOf(history)).value;
    HeadOfPrefix(rows, i + 1);
    SamePrefix(sha, rows, history, i + 1);
  }

  lemma HeadMoved(sha: Sha, rows: seq<Row>, history: seq<Row>)
    requires Comparable(sha, rows, history) && rows != history
    ensures HeadOf(history) != HeadOf(rows)
  {
    hide *;
    assert rows[..|rows|] == rows;
    if HeadOf(history) == HeadOf(rows) {
      SamePrefix(sha, rows, history, |rows|);
    }
  }

  lemma PrefixIsLag(sha: Sha, rows: seq<Row>, history: seq<Row>, k: nat)
    requires Comparable(sha, rows, history) && history != [] && 1 <= k < |rows| && rows[..|rows| - k] == history
    ensures HeadOf(history) != HeadOf(rows) && LastWith(rows, HeadOf(history)) == Some(|rows| - k - 1)
  {
    hide *;
    HeadOfPrefix(rows, |rows| - k);
    HeadMoved(sha, rows, history);
    assert rows[|rows| - k - 1].hash == HeadOf(history);
    var i := LastWith(rows, HeadOf(history)).value;
    HeadOfPrefix(rows, i + 1);
    SamePrefix(sha, rows, history, i + 1);
    assert |rows[..i + 1]| == |rows[..|rows| - k]|;
  }

  // ---------- several processes, one log ----------

  /** One process's open log. */
  datatype Proc = Proc(every: nat, since: nat, lastWritten: Option<Bytes>, failures: nat, warned: bool)

  /** The shared table and anchor; `anchored` counts the rows up to the anchored one. */
  datatype Sys = Sys(rows: seq<Row>, anchor: Option<Bytes>, anchored: nat, procs: seq<Proc>)

  datatype Event =
    | Open(every: nat)
    | Record(p: nat, fields: Fields, stored: bool)
    | Close(p: nat, stored: bool)

  function Recorded(p: Proc, hash: Bytes, stored: bool): Proc {
    var q := p.(lastWritten := Some(hash), since := p.since + 1);
    if q.since < q.every then q
    else if stored then q.(since := 0)
    else q.(failures := q.failures + 1, warned := true)
  }

  /** Whether this record's hash reaches the anchor. */
  predicate Anchors(p: Proc, stored: bool) { p.since + 1 >= p.every && stored }

  /** Each append, with its anchor write, is one step under the file lock. */
  function Step(sha: Sha, s: Sys, e: Event): Sys {
    match e
    case Open(every) => if every < 1 then s else s.(procs := s.procs + [Proc(every, 0, None, 0, false)])
    case Record(p, fields, stored) =>
      if p >= |s.procs| then s
      else
        var r := NextRow(sha, s.rows, fields);
        var s1 := s.(rows := s.rows + [r], procs := s.procs[p := Recorded(s.procs[p], r.hash, stored)]);
        if Anchors(s.procs[p], stored) then s1.(anchor := Some(r.hash), anchored := |s1.rows|) else s1
    case Close(p, stored) =>
      if p < |s.procs| && s.procs[p].lastWritten == Some(HeadOf(s.rows)) && stored
      then s.(anchor := s.procs[p].lastWritten, anchored := |s.rows|) else s
  }

  function Run(sha: Sha, s: Sys, events: seq<Event>): Sys {
    if events == [] then s else Step(sha, Run(sha, s, events[..|events| - 1]), events[|events| - 1])
  }

  function SumSince(procs: seq<Proc>): nat {
    if procs == [] then 0 else SumSince(procs[..|procs| - 1]) + procs[|procs| - 1].since
  }

  /** What every interleaving keeps: the rows are one chain, the anchor names one of them, and what is
      past it was appended by processes that have not anchored since. */
  ghost predicate Inv(sha: Sha, s: Sys) {
    && GoodRows(sha, s.rows) && s.anchored <= |s.rows|
    && s.anchor == (if s.anchored == 0 then None else Some(HeadOf(s.rows[..s.anchored])))
    && |s.rows| - s.anchored <= SumSince(s.procs)
    && (forall i :: 0 <= i < |s.procs| ==> s.procs[i].every >= 1 && (s.procs[i].lastWritten.Some? ==> s.rows != []))
  }

  lemma {:induction false} SumUpdate(procs: seq<Proc>, p: nat, q: Proc)
    requires p < |procs|
    ensures SumSince(procs[p := q]) == SumSince(procs) - procs[p].since + q.since
    decreases |procs|
  {
    var n := |procs| - 1;
    if p < n {
      SumUpdate(procs[..n], p, q);
      assert procs[p := q][..n] == procs[..n][p := q];
    } else {
      assert procs[p := q][..n] == procs[..n];
    }
  }

  lemma PrefixKept(rows: seq<Row>, r: Row, n: nat)
    requires n <= |rows|
    ensures (rows + [r])[..n] == rows[..n]
  {
  }

  lemma OpenKeeps(sha: Sha, s: Sys, every: nat)
    requires Inv(sha, s)
    ensures Inv(sha, Step(sha, s, Open(every)))
  {
    hide GoodRows, HeadOf;
    var all := s.procs + [Proc(every, 0, None, 0, false)];
    assert all[..|all| - 1] == s.procs;
  }

  lemma RecordKeeps(sha: Sha, s: Sys, p: nat, fields: Fields, stored: bool, r: Row)
    requires Inv(sha, s) && p < |s.procs| && r == NextRow(sha, s.rows, fields)
    ensures Inv(sha, Step(sha, s, Record(p, fields, stored)))
  {
    GoodGrows(sha, s.rows, fields);
    SumUpdate(s.procs, p, Recorded(s.procs[p], r.hash, stored));
    PrefixKept(s.rows, r, s.anchored);
    HeadIs(s.rows, r);
    hide GoodRows, HeadOf, NextRow, SumSince;
  }

  lemma HeadIs(rows: seq<Row>, r: Row)
    ensures HeadOf((rows + [r])[..|rows| + 1]) == r.hash
  {
  }

  lemma CloseKeeps(sha: Sha, s: Sys, p: nat, stored: bool)
    requires Inv(sha, s)
    ensures Inv(sha, Step(sha, s, Close(p, stored)))
  {
    hide GoodRows, HeadOf, SumSince;
    assert s.rows[..|s.rows|] == s.rows;
  }

  lemma StepKeeps(sha: Sha, s: Sys, e: Event)
    requires Inv(sha, s)
    ensures Inv(sha, Step(sha, s, e))
    ensures s.rows <= Step(sha, s, e).rows && s.anchored <= Step(sha, s, e).anchored
  {
    InvLag(sha, s);
    hide Inv, NextRow, HeadOf;
    match e {
      case Open(every) => OpenKeeps(sha, s, every);
      case Record(p, fields, stored) =>
        if p < |s.procs| {
          RecordKeeps(sha, s, p, fields, stored, NextRow(sha, s.rows, fields));
        }
      case Close(p, stored) => CloseKeeps(sha, s, p, stored);
    }
  }

  /** Over any interleaving of opens, appends, closes and failed anchor writes, the rows stay one linear
      chain that only grows, and the anchor never moves to an earlier row. */
  lemma {:induction false} RunKeeps(sha: Sha, s: Sys, events: seq<Event>)
    requires Inv(sha, s)
    ensures Inv(sha, Run(sha, s, events))
    ensures s.rows <= Run(sha, s, events).rows && s.anchored <= Run(sha, s, events).anchored
    decreases |events|
  {
    hide Inv, Step;
    if events != [] {
      RunKeeps(sha, s, events[..|events| - 1]);
      StepKeeps(sha, Run(sha, s, events[..|events| - 1]), events[|events| - 1]);
    }
  }

  function SumAllowed(procs: seq<Proc>): nat {
    if procs == [] then 0
    else SumAllowed(procs[..|procs| - 1]) + (if procs[|procs| - 1].every >= 1 then procs[|procs| - 1].every - 1 else 0)
  }

  ghost predicate WithinEvery(procs: seq<Proc>) {
    forall i :: 0 <= i < |procs| ==> procs[i].since < procs[i].every
  }

  predicate Stored(e: Event) { e.Record? ==> e.stored }

  lemma {:induction false} SinceAllowed(procs: seq<Proc>)
    requires WithinEvery(procs)
    ensures SumSince(procs) <= SumAllowed(procs)
  {
    if procs != [] {
      SinceAllowed(procs[..|procs| - 1]);
    }
  }

  /** While anchor writes of appends succeed, the rows past the anchor number at most the sum of
      `anchor_every - 1` over the processes. */
  lemma {:induction false} LagIsBounded(sha: Sha, s: Sys, events: seq<Event>)
    requires Inv(sha, s) && WithinEvery(s.procs)
    requires forall i :: 0 <= i < |events| ==> Stored(events[i])
    ensures var t := Run(sha, s, events);
      WithinEvery(t.procs) && |t.rows| - t.anchored <= SumAllowed(t.procs)
    decreases |events|
  {
    hide Inv, RowHash;
    RunKeeps(sha, s, events);
    if events != [] {
      LagIsBounded(sha, s, events[..|events| - 1]);
    }
    InvLag(sha, Run(sha, s, events));
    SinceAllowed(Run(sha, s, events).procs);
  }

  lemma InvLag(sha: Sha, s: Sys)
    requires Inv(sha, s)
    ensures s.anchored <= |s.rows| && |s.rows| - s.anchored <= SumSince(s.procs)
  {
    hide GoodRows;
  }

  /** What `verify` reports after any such run: the tail past the anchor, counted exactly. */
  lemma VerifyAfterRun(sha: Sha, s: Sys, r: VerifyResult)
    requires Inv(sha, s) && Trusted(sha, Preimages(s.rows)) && Verdict(sha, s.rows, s.anchor, r)
    ensures r.firstBad.None? && (r.ok <==> s.anchored == 0 || s.anchored == |s.rows|)
    ensures (r.anchored <==> s.anchored > 0)
    ensures 0 < s.anchored < |s.rows| ==> r.lag == Some(|s.rows| - s.anchored)
  {
    hide GoodRows, Trusted, RowHash, Preimages;
    if s.anchored > 0 {
      var history := s.rows[..s.anchored];
      GoodPrefix(sha, s.rows, s.anchored);
      assert Preimages(s.rows) + Preimages(history) == Preimages(s.rows);
      AnchorDecides(sha, s.rows, history, r);
      assert s.rows[..|s.rows|] == s.rows;
    }
  }

  /** A step of one process leaves every other process as it was. */
  lemma OthersStand(sha: Sha, s: Sys, e: Event, p: nat)
    requires p < |s.procs| && (e.Record? ==> e.p != p)
    ensures p < |Step(sha, s, e).procs| && Step(sha, s, e).procs[p] == s.procs[p]
  {
    hide NextRow, Recorded, HeadOf;
  }

  // ---------- the object ----------

  /** What the processes share: the table and the keychain entry of this log. */
  class Store {
    var rows: seq<Row>
    var anchor: Option<Bytes>

    constructor ()
      ensures rows == [] && anchor.None?
    {
      rows, anchor := [], None;
    }
  }

  /** A system in which process `p` is this object, on this table and anchor. */
  ghost predicate Stands(s: Sys, p: nat, rows: seq<Row>, anchor: Option<Bytes>, proc: Proc) {
    p < |s.procs| && s.rows == rows && s.anchor == anchor && s.procs[p] == proc
  }

  class AuditLog {
    const sha: Sha
    const store: Store
    const anchorEvery: nat
    var sinceAnchor: nat
    var lastWritten: Option<Bytes>
    var anchorFailures: nat
    var anchorWarned: bool

    function State(): Proc reads this { Proc(anchorEvery, sinceAnchor, lastWritten, anchorFailures, anchorWarned) }

    constructor (sha: Sha, store: Store, anchorEvery: nat)
      requires anchorEvery >= 1
      ensures this.sha == sha && this.store == store && State() == Proc(anchorEvery, 0, None, 0, false)
    {
      this.sha, this.store, this.anchorEvery := sha, store, anchorEvery;
      sinceAnchor, lastWritten, anchorFailures, anchorWarned := 0, None, 0, false;
    }

    method Record(fields: Fields, stored: bool)
      modifies this, store
      ensures var r := NextRow(sha, old(store.rows), fields);
        && store.rows == old(store.rows) + [r]
        && State() == Recorded(old(State()), r.hash, stored)
        && store.anchor == if Anchors(old(State()), stored) then Some(r.hash) else old(store.anchor)
      ensures forall s: Sys, p: nat :: Stands(s, p, old(store.rows), old(store.anchor), old(State())) ==>
        Stands(Step(sha, s, Event.Record(p, fields, stored)), p, store.rows, store.anchor, State())
    {
      var prev := if store.rows == [] then GENESIS else store.rows[|store.rows| - 1].hash;
      var rh := RowHash(sha, prev, fields);
      store.rows := store.rows + [Row(fields, prev, rh)];
      lastWritten := Some(rh);
      sinceAnchor := sinceAnchor + 1;
      if sinceAnchor >= anchorEvery {
        if stored {
          store.anchor := Some(rh);
          sinceAnchor := 0;
        } else {
          anchorFailures := anchorFailures + 1;
          if !anchorWarned {
            anchorWarned := true;
          }
        }
      }
    }

    /** Anchors only what this process wrote, and only while it is still the head. */
    method CloseLog(stored: bool)
      modifies store
      ensures store.rows == old(store.rows)
      ensures store.anchor ==
        if lastWritten == Some(HeadOf(store.rows)) && stored then lastWritten else old(store.anchor)
      ensures forall s: Sys, p: nat :: Stands(s, p, old(store.rows), old(store.anchor), State()) ==>
        Stands(Step(sha, s, Event.Close(p, stored)), p, store.rows, store.anchor, State())
    {
      if lastWritten.Some? {
        var head := if store.rows == [] then GENESIS else store.rows[|store.rows| - 1].hash;
        if head == lastWritten.value && stored {
          store.anchor := lastWritten;
        }
      }
    }

    method VerifyLog() returns (r: VerifyResult)
      ensures Verdict(sha, store.rows, store.anchor, r)
    {
      r := Verify(sha, store.rows, store.anchor);
    }
  }
}
