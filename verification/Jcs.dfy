/** Canonical JSON (RFC 8785) and the capsule identity computed from it. */
module Jcs {
  /* A string is its code points. An object is its members in insertion order, as a dictionary keeps
     them; `Equal` is equality of JSON values, which ignores that order. */

  import opened Bytes

  type Char = c: int | 0 <= c < 0x11_0000
  type Text = seq<Char>

  predicate Scalar(c: Char) { !(0xD800 <= c < 0xE000) }

  predicate Scalars(s: Text) { forall i :: 0 <= i < |s| ==> Scalar(s[i]) }

  datatype Json =
    | Null
    | Bool(b: bool)
    | Int(n: int)
    | Float
    | Str(s: Text)
    | Arr(xs: seq<Json>)
    | Obj(ms: seq<Member>)

  datatype Member = Member(key: Text, value: Json)

  const SAFE_INT: int := 0x1F_FFFF_FFFF_FFFF
  const QUOTE: Char := 34
  const BACKSLASH: Char := 92
  const COMMA: Char := 44
  const COLON: Char := 58
  const OPEN: Char := 91
  const CLOSE: Char := 93
  const OPEN_OBJ: Char := 123
  const CLOSE_OBJ: Char := 125
  const MINUS: Char := 45

  // ---------- strings ----------

  function HexChar(n: nat): Char
    requires n < 16
  {
    if n < 10 then 48 + n else 87 + n
  }

  /** Section 3.2.2.2: the short escapes, then `\u00XX` for the other control characters. */
  function Escape(c: Char): Text {
    if c == QUOTE then [BACKSLASH, QUOTE]
    else if c == BACKSLASH then [BACKSLASH, BACKSLASH]
    else if c == 8 then [BACKSLASH, 98]
    else if c == 9 then [BACKSLASH, 116]
    else if c == 10 then [BACKSLASH, 110]
    else if c == 12 then [BACKSLASH, 102]
    else if c == 13 then [BACKSLASH, 114]
    else if c < 0x20 then [BACKSLASH, 117, 48, 48, HexChar(c / 16), HexChar(c % 16)]
    else [c]
  }

  function EscapeAll(s: Text): Text {
    if s == [] then [] else EscapeAll(s[..|s| - 1]) + Escape(s[|s| - 1])
  }

  function QuotedText(s: Text): Text { [QUOTE] + EscapeAll(s) + [QUOTE] }

  /** `_jcs_string`. */
  method JcsString(s: Text) returns (out: Text)
    ensures out == QuotedText(s)
  {
    out := [QUOTE];
    for i := 0 to |s|
      invariant out == [QUOTE] + EscapeAll(s[..i])
    {
      var ch := s[i];
      assert s[..i + 1][..i] == s[..i];
      Assoc([QUOTE], EscapeAll(s[..i]), Escape(ch));
      if ch == QUOTE {
        out := out + [BACKSLASH, QUOTE];
      } else if ch == BACKSLASH {
        out := out + [BACKSLASH, BACKSLASH];
      } else if ch == 8 {
        out := out + [BACKSLASH, 98];
      } else if ch == 9 {
        out := out + [BACKSLASH, 116];
      } else if ch == 10 {
        out := out + [BACKSLASH, 110];
      } else if ch == 12 {
        out := out + [BACKSLASH, 102];
      } else if ch == 13 {
        out := out + [BACKSLASH, 114];
      } else if ch < 0x20 {
        out := out + [BACKSLASH, 117, 48, 48, HexChar(ch / 16), HexChar(ch % 16)];
      } else {
        out := out + [ch];
      }
    }
    assert s[..|s|] == s;
    out := out + [QUOTE];
  }

  function HexValue(c: Char): Option<nat> {
    if 48 <= c < 58 then Some(c - 48) else if 97 <= c < 103 then Some(c - 87) else None
  }

  /** One character of a quoted string, and what follows it; None at its end or on a bad escape. */
  function Unescape(s: Text): Option<(Char, Text)> {
    if s == [] || s[0] == QUOTE then None
    else if s[0] != BACKSLASH then Some((s[0], s[1..]))
    else if |s| < 2 then None
    else if s[1] == QUOTE then Some((QUOTE, s[2..]))
    else if s[1] == BACKSLASH then Some((BACKSLASH, s[2..]))
    else if s[1] == 98 then Some((8, s[2..]))
    else if s[1] == 116 then Some((9, s[2..]))
    else if s[1] == 110 then Some((10, s[2..]))
    else if s[1] == 102 then Some((12, s[2..]))
    else if s[1] == 114 then Some((13, s[2..]))
    else if s[1] != 117 || |s| < 6 || s[2] != 48 || s[3] != 48 then None
    else
      var hi, lo := HexValue(s[4]), HexValue(s[5]);
      if hi.None? || lo.None? then None else Some((16 * hi.value + lo.value, s[6..]))
  }

  lemma UnescapeEscape(c: Char, rest: Text)
    ensures Unescape(Escape(c) + rest) == Some((c, rest))
    ensures |Escape(c)| >= 1
  {
    var s := Escape(c) + rest;
    if |Escape(c)| == 6 {
      assert s[4] == HexChar(c / 16) && s[5] == HexChar(c % 16) && s[6..] == rest;
    } else if |Escape(c)| == 2 {
      assert s[2..] == rest;
    } else {
      assert s[1..] == rest;
    }
  }

  /** The body of a quoted string up to its closing quote, and what follows the quote. */
  function ParseBody(s: Text): Option<(Text, Text)>
    decreases |s|
  {
    if s == [] then None
    else if s[0] == QUOTE then Some(([], s[1..]))
    else
      var c := Unescape(s);
      if c.None? || |c.value.1| >= |s| then None
      else
        var rest := ParseBody(c.value.1);
        if rest.None? then None else Some(([c.value.0] + rest.value.0, rest.value.1))
  }

  lemma EscapeFirst(s: Text)
    requires s != []
    ensures EscapeAll(s) == Escape(s[0]) + EscapeAll(s[1..])
    decreases |s|
  {
    var n := |s| - 1;
    if n == 0 {
      assert s[..0] == [] && s[1..] == [];
      assert [] + Escape(s[0]) == Escape(s[0]) + [];
    } else {
      EscapeFirst(s[..n]);
      assert s[..n][1..] == s[1..][..n - 1] && s[1..][n - 1] == s[n];
      Assoc(Escape(s[0]), EscapeAll(s[..n][1..]), Escape(s[n]));
    }
  }

  lemma BodyEnds(rest: Text)
    ensures ParseBody(EscapeAll([]) + [QUOTE] + rest) == Some(([], rest))
  {
    assert (EscapeAll([]) + [QUOTE] + rest)[1..] == rest;
  }

  /** A quoted string's body reads back, whatever follows. */
  lemma {:induction false} ParseEscaped(s: Text, rest: Text)
    ensures ParseBody(EscapeAll(s) + [QUOTE] + rest) == Some((s, rest))
    decreases |s|
  {
    hide *;
    if s == [] {
      BodyEnds(rest);
    } else {
      var all, more := EscapeAll(s) + [QUOTE] + rest, EscapeAll(s[1..]) + [QUOTE] + rest;
      EscapeFirst(s);
      assert all == Escape(s[0]) + more;
      UnescapeEscape(s[0], more);
      ParseEscaped(s[1..], rest);
      BodyStep(all, s[0], more, s[1..], rest);
      assert s == [s[0]] + s[1..];
    }
  }

  lemma BodyStep(all: Text, c: Char, more: Text, t: Text, rest: Text)
    requires Unescape(all) == Some((c, more)) && |more| < |all| && ParseBody(more) == Some((t, rest))
    ensures ParseBody(all) == Some(([c] + t, rest))
  {
  }

  // ---------- integers ----------

  function Digits(n: nat): (s: Text)
    ensures |s| >= 1 && forall i :: 0 <= i < |s| ==> IsDigit(s[i])
  {
    if n < 10 then [48 + n] else Digits(n / 10) + [48 + n % 10]
  }

  predicate IsDigit(c: Char) { 48 <= c < 58 }

  function IntText(n: int): Text {
    if n < 0 then [MINUS] + Digits(-n) else Digits(n)
  }

  /** The longest run of digits, its value on top of `acc`, and what follows. */
  function ParseDigits(s: Text, acc: nat): (nat, Text) {
    if s == [] || !IsDigit(s[0]) then (acc, s) else ParseDigits(s[1..], 10 * acc + (s[0] - 48))
  }

  /** Where no digit follows. */
  predicate Ends(rest: Text) { rest == [] || !IsDigit(rest[0]) }

  lemma {:induction false} DigitsJoin(a: Text, rest: Text, acc: nat)
    requires forall i :: 0 <= i < |a| ==> IsDigit(a[i])
    ensures ParseDigits(a + rest, acc) == ParseDigits(rest, ParseDigits(a, acc).0)
    ensures ParseDigits(a, acc).1 == []
    decreases |a|
  {
    if a == [] {
      assert a + rest == rest;
    } else {
      assert (a + rest)[1..] == a[1..] + rest;
      DigitsJoin(a[1..], rest, 10 * acc + (a[0] - 48));
    }
  }

  lemma {:induction false} DigitsRead(n: nat)
    ensures ParseDigits(Digits(n), 0) == (n, [])
    decreases n
  {
    if n < 10 {
      assert Digits(n)[1..] == [];
    } else {
      DigitsRead(n / 10);
      var last: Text := [48 + n % 10];
      DigitsJoin(Digits(n / 10), last, 0);
      assert last[1..] == [];
    }
  }

  lemma NatReads(n: nat, rest: Text)
    requires Ends(rest)
    ensures ParseDigits(Digits(n) + rest, 0) == (n, rest)
  {
    DigitsRead(n);
    DigitsJoin(Digits(n), rest, 0);
  }

  // ---------- printing values whose members are already in order ----------

  const NULL_TEXT: Text := [110, 117, 108, 108]
  const TRUE_TEXT: Text := [116, 114, 117, 101]
  const FALSE_TEXT: Text := [102, 97, 108, 115, 101]

  function Print(v: Json): Text
    decreases v
  {
    match v
    case Null => NULL_TEXT
    case Bool(b) => if b then TRUE_TEXT else FALSE_TEXT
    case Int(n) => IntText(n)
    case Float => []
    case Str(s) => QuotedText(s)
    case Arr(xs) => [OPEN] + PrintItems(xs) + [CLOSE]
    case Obj(ms) => [OPEN_OBJ] + PrintMembers(ms) + [CLOSE_OBJ]
  }

  function PrintItems(xs: seq<Json>): Text
    decreases xs
  {
    if xs == [] then []
    else if |xs| == 1 then Print(xs[0])
    else Print(xs[0]) + [COMMA] + PrintItems(xs[1..])
  }

  function PrintMember(m: Member): Text
    decreases m, 0
  {
    QuotedText(m.key) + [COLON] + Print(m.value)
  }

  function PrintMembers(ms: seq<Member>): Text
    decreases ms
  {
    if ms == [] then []
    else if |ms| == 1 then PrintMember(ms[0])
    else PrintMember(ms[0]) + [COMMA] + PrintMembers(ms[1..])
  }

  /** No float anywhere: what the profile allows to be printed, up to the size of integers. */
  predicate NoFloat(v: Json)
    decreases v
  {
    match v
    case Float => false
    case Arr(xs) => forall i :: 0 <= i < |xs| ==> NoFloat(xs[i])
    case Obj(ms) => forall i :: 0 <= i < |ms| ==> NoFloat(ms[i].value)
    case _ => true
  }

  // ---------- reading it back ----------

  predicate StartsWith(s: Text, t: Text) { |t| <= |s| && s[..|t|] == t }

  function ParseValue(s: Text): Option<(Json, Text)>
    decreases |s|, 1
  {
    if s == [] then None
    else if StartsWith(s, NULL_TEXT) then Some((Null, s[4..]))
    else if StartsWith(s, TRUE_TEXT) then Some((Bool(true), s[4..]))
    else if StartsWith(s, FALSE_TEXT) then Some((Bool(false), s[5..]))
    else if s[0] == QUOTE then
      var t := ParseBody(s[1..]);
      if t.None? then None else Some((Str(t.value.0), t.value.1))
    else if s[0] == MINUS then
      var (n, rest) := ParseDigits(s[1..], 0);
      Some((Int(-(n as int)), rest))
    else if IsDigit(s[0]) then
      var (n, rest) := ParseDigits(s, 0);
      Some((Int(n), rest))
    else if s[0] == OPEN then
      if |s| > 1 && s[1] == CLOSE then Some((Arr([]), s[2..]))
      else
        var xs := ParseItems(s[1..]);
        if xs.None? then None else Some((Arr(xs.value.0), xs.value.1))
    else if s[0] == OPEN_OBJ then
      if |s| > 1 && s[1] == CLOSE_OBJ then Some((Obj([]), s[2..]))
      else
        var ms := ParseMembers(s[1..]);
        if ms.None? then None else Some((Obj(ms.value.0), ms.value.1))
    else None
  }

  /** Items up to the closing bracket, and what follows it. */
  function ParseItems(s: Text): Option<(seq<Json>, Text)>
    decreases |s|, 2
  {
    var v := ParseValue(s);
    if v.None? || v.value.1 == [] || |v.value.1| > |s| then None
    else if v.value.1[0] == CLOSE then Some(([v.value.0], v.value.1[1..]))
    else if v.value.1[0] != COMMA then None
    else
      var more := ParseItems(v.value.1[1..]);
      if more.None? then None else Some(([v.value.0] + more.value.0, more.value.1))
  }

  /** One member: a quoted key, a colon, a value. */
  function ParseMember(s: Text): Option<(Member, Text)>
    decreases |s|, 2
  {
    if s == [] || s[0] != QUOTE then None
    else
      var k := ParseBody(s[1..]);
      if k.None? || k.value.1 == [] || |k.value.1| > |s| || k.value.1[0] != COLON then None
      else
        var v := ParseValue(k.value.1[1..]);
        if v.None? then None else Some((Member(k.value.0, v.value.0), v.value.1))
  }

  function ParseMembers(s: Text): Option<(seq<Member>, Text)>
    decreases |s|, 3
  {
    var m := ParseMember(s);
    if m.None? || m.value.1 == [] || |m.value.1| > |s| then None
    else if m.value.1[0] == CLOSE_OBJ then Some(([m.value.0], m.value.1[1..]))
    else if m.value.1[0] != COMMA then None
    else
      var more := ParseMembers(m.value.1[1..]);
      if more.None? then None else Some(([m.value.0] + more.value.0, more.value.1))
  }

  lemma PrintStarts(v: Json)
    requires NoFloat(v)
    ensures var t := Print(v);
      && t != [] && t[0] != CLOSE && t[0] != CLOSE_OBJ
      && (t[0] == QUOTE <==> v.Str?)
  {
    if v.Int? && v.n >= 0 {
      assert IsDigit(Digits(v.n)[0]);
    }
  }

  lemma QuotedReads(s: Text, rest: Text)
    ensures var q := QuotedText(s) + rest; q[0] == QUOTE && ParseBody(q[1..]) == Some((s, rest))
  {
    ParseEscaped(s, rest);
    var q := QuotedText(s) + rest;
    assert q[1..] == EscapeAll(s) + [QUOTE] + rest;
  }

  lemma WordReads(v: Json, rest: Text)
    requires v.Null? || v.Bool?
    ensures ParseValue(Print(v) + rest) == Some((v, rest))
  {
    var s := Print(v) + rest;
    assert s[..|Print(v)|] == Print(v) && s[|Print(v)|..] == rest;
    if v == Bool(false) {
      assert s[0] == 102;
      assert !StartsWith(s, NULL_TEXT) && !StartsWith(s, TRUE_TEXT) by {
        assert s[..4][0] == s[0];
      }
    } else if v == Bool(true) {
      assert !StartsWith(s, NULL_TEXT) by {
        assert s[..4][0] == s[0] == 116;
      }
    }
  }

  lemma NoWord(s: Text)
    requires s != [] && s[0] != 110 && s[0] != 116 && s[0] != 102
    ensures !StartsWith(s, NULL_TEXT) && !StartsWith(s, TRUE_TEXT) && !StartsWith(s, FALSE_TEXT)
  {
    if |s| >= 4 {
      assert s[..4][0] == s[0];
    }
    if |s| >= 5 {
      assert s[..5][0] == s[0];
    }
  }

  lemma IntReads(n: int, rest: Text)
    requires Ends(rest)
    ensures ParseValue(IntText(n) + rest) == Some((Int(n), rest))
  {
    hide *;
    var s := IntText(n) + rest;
    IntStarts(n, rest);
    NoWord(s);
    if n < 0 {
      NatReads(-n, rest);
    } else {
      NatReads(n, rest);
    }
    NumberStep(s);
  }

  lemma IntStarts(n: int, rest: Text)
    ensures var s := IntText(n) + rest;
      && s != [] && (s[0] == MINUS || IsDigit(s[0])) && s[0] != QUOTE && s[0] != 110 && s[0] != 116 && s[0] != 102
      && (if n < 0 then s[0] == MINUS && s[1..] == Digits(-n) + rest else s[0] != MINUS && s == Digits(n) + rest)
  {
    var s := IntText(n) + rest;
    if n < 0 {
      assert s[1..] == Digits(-n) + rest;
    } else {
      assert IsDigit(Digits(n)[0]) && s[0] == Digits(n)[0];
    }
    hide Digits;
  }

  /** A text that starts like a number is read as one. */
  lemma NumberStep(s: Text)
    requires s != [] && (s[0] == MINUS || IsDigit(s[0])) && s[0] != QUOTE
    requires !StartsWith(s, NULL_TEXT) && !StartsWith(s, TRUE_TEXT) && !StartsWith(s, FALSE_TEXT)
    ensures ParseValue(s) ==
      if s[0] == MINUS
      then (var (n, rest) := ParseDigits(s[1..], 0); Some((Int(-(n as int)), rest)))
      else (var (n, rest) := ParseDigits(s, 0); Some((Int(n), rest)))
  {
    hide StartsWith, ParseDigits, ParseItems, ParseMembers, ParseBody;
  }

  /** A printed value reads back, whatever follows it, as long as no digit does. */
  lemma {:induction false} ParsePrinted(v: Json, rest: Text)
    requires NoFloat(v) && Ends(rest)
    ensures ParseValue(Print(v) + rest) == Some((v, rest))
    decreases v, 0
  {
    var s := Print(v) + rest;
    match v {
      case Null => WordReads(v, rest);
      case Bool(b) => WordReads(v, rest);
      case Int(n) => IntReads(n, rest);
      case Str(t) =>
        QuotedReads(t, rest);
        NoWord(s);
        hide ParseBody, EscapeAll;
      case Arr(xs) =>
        NoWord(s);
        if xs == [] {
          EmptyReads(OPEN, CLOSE, rest);
        } else {
          ItemsRead(xs, rest);
          PrintStarts(xs[0]);
          ArrayOpens(xs, rest);
        }
      case Obj(ms) =>
        NoWord(s);
        if ms == [] {
          EmptyReads(OPEN_OBJ, CLOSE_OBJ, rest);
        } else {
          MembersRead(ms, rest);
          ObjectOpens(ms, rest);
        }
    }
  }

  lemma EmptyReads(o: Char, c: Char, rest: Text)
    ensures var s := [o] + [] + [c] + rest; s == [o, c] + rest && s[2..] == rest && s[1] == c
  {
  }

  lemma ArrayOpens(xs: seq<Json>, rest: Text)
    requires xs != [] && Print(xs[0]) != [] && Print(xs[0])[0] != CLOSE
    requires ParseItems(PrintItems(xs) + [CLOSE] + rest) == Some((xs, rest))
    ensures ParseValue(Print(Arr(xs)) + rest) == Some((Arr(xs), rest))
  {
    var s := Print(Arr(xs)) + rest;
    assert s == [OPEN] + (PrintItems(xs) + [CLOSE] + rest);
    assert s[1..] == PrintItems(xs) + [CLOSE] + rest;
    assert PrintItems(xs)[0] == Print(xs[0])[0];
    NoWord(s);
    hide PrintItems, ParseItems, StartsWith;
  }

  lemma MembersQuote(ms: seq<Member>)
    requires ms != []
    ensures PrintMembers(ms) != [] && PrintMembers(ms)[0] == QUOTE
  {
    hide Print, EscapeAll;
    assert PrintMember(ms[0])[0] == QUOTE;
  }

  lemma ObjectStep(s: Text, ms: seq<Member>, rest: Text)
    requires |s| > 1 && s[0] == OPEN_OBJ && s[1] != CLOSE_OBJ && ParseMembers(s[1..]) == Some((ms, rest))
    ensures ParseValue(s) == Some((Obj(ms), rest))
  {
    NoWord(s);
    hide StartsWith, ParseMembers;
  }

  lemma ObjectText(ms: seq<Member>, rest: Text)
    ensures Print(Obj(ms)) + rest == [OPEN_OBJ] + (PrintMembers(ms) + [CLOSE_OBJ] + rest)
  {
    hide PrintMembers;
  }

  lemma ObjectOpens(ms: seq<Member>, rest: Text)
    requires ms != [] && ParseMembers(PrintMembers(ms) + [CLOSE_OBJ] + rest) == Some((ms, rest))
    ensures ParseValue(Print(Obj(ms)) + rest) == Some((Obj(ms), rest))
  {
    hide Print, PrintMembers, ParseMembers, ParseValue;
    var inner := PrintMembers(ms) + [CLOSE_OBJ] + rest;
    ObjectText(ms, rest);
    MembersQuote(ms);
    var s := [OPEN_OBJ] + inner;
    assert s[1..] == inner && s[1] == PrintMembers(ms)[0];
    ObjectStep(s, ms, rest);
  }

  lemma ItemsStep(s: Text, v: Json, after: Text)
    requires ParseValue(s) == Some((v, after)) && after != [] && |after| <= |s|
    ensures after[0] == CLOSE ==> ParseItems(s) == Some(([v], after[1..]))
    ensures after[0] == COMMA ==>
      ParseItems(s) ==
        (var more := ParseItems(after[1..]); if more.None? then None else Some(([v] + more.value.0, more.value.1)))
  {
  }

  lemma ItemsPrinted(xs: seq<Json>, rest: Text)
    requires xs != []
    ensures PrintItems(xs) + [CLOSE] + rest ==
      if |xs| == 1 then Print(xs[0]) + ([CLOSE] + rest)
      else Print(xs[0]) + ([COMMA] + (PrintItems(xs[1..]) + [CLOSE] + rest))
    ensures ([CLOSE] + rest)[1..] == rest
  {
    PrintedItems(xs);
    hide *;
    assert ([CLOSE] + rest)[1..] == rest;
    var p := Print(xs[0]);
    if |xs| == 1 {
      Assoc(p, [CLOSE], rest);
    } else {
      var q := PrintItems(xs[1..]);
      Assoc(p, [COMMA], q);
      Assoc(p, [COMMA] + q, [CLOSE]);
      Assoc(p, [COMMA] + q + [CLOSE], rest);
      Assoc([COMMA], q, [CLOSE]);
      Assoc([COMMA], q + [CLOSE], rest);
    }
  }

  lemma PrintedItems(xs: seq<Json>)
    requires xs != []
    ensures PrintItems(xs) == if |xs| == 1 then Print(xs[0]) else Print(xs[0]) + [COMMA] + PrintItems(xs[1..])
  {
    hide Print;
  }

  lemma {:induction false} ItemsRead(xs: seq<Json>, rest: Text)
    requires xs != [] && (forall i :: 0 <= i < |xs| ==> NoFloat(xs[i]))
    ensures ParseItems(PrintItems(xs) + [CLOSE] + rest) == Some((xs, rest))
    decreases xs, 0
  {
    hide ParseItems, ParseValue, Print, PrintItems, NoFloat;
    ItemsPrinted(xs, rest);
    var s := PrintItems(xs) + [CLOSE] + rest;
    if |xs| == 1 {
      ParsePrinted(xs[0], [CLOSE] + rest);
      ItemsStep(s, xs[0], [CLOSE] + rest);
      assert xs == [xs[0]];
    } else {
      var more := PrintItems(xs[1..]) + [CLOSE] + rest;
      ParsePrinted(xs[0], [COMMA] + more);
      ItemsStep(s, xs[0], [COMMA] + more);
      assert ([COMMA] + more)[1..] == more;
      ItemsRead(xs[1..], rest);
      assert xs == [xs[0]] + xs[1..];
    }
  }

  lemma {:induction false} MemberReads(m: Member, rest: Text)
    requires NoFloat(m.value) && Ends(rest)
    ensures ParseMember(PrintMember(m) + rest) == Some((m, rest))
    decreases m, 1
  {
    hide ParseBody, ParseValue, Print, EscapeAll;
    var s := PrintMember(m) + rest;
    var after := [COLON] + (Print(m.value) + rest);
    assert s == QuotedText(m.key) + after;
    QuotedReads(m.key, after);
    assert after[1..] == Print(m.value) + rest;
    ParsePrinted(m.value, rest);
    assert |after| <= |s|;
  }

  lemma MembersStep(s: Text, m: Member, after: Text)
    requires ParseMember(s) == Some((m, after)) && after != [] && |after| <= |s|
    ensures after[0] == CLOSE_OBJ ==> ParseMembers(s) == Some(([m], after[1..]))
    ensures after[0] == COMMA ==>
      ParseMembers(s) ==
        (var more := ParseMembers(after[1..]); if more.None? then None else Some(([m] + more.value.0, more.value.1)))
  {
  }

  lemma {:induction false} MembersRead(ms: seq<Member>, rest: Text)
    requires ms != [] && (forall i :: 0 <= i < |ms| ==> NoFloat(ms[i].value))
    ensures ParseMembers(PrintMembers(ms) + [CLOSE_OBJ] + rest) == Some((ms, rest))
    decreases ms, 0
  {
    hide ParseMembers, ParseMember, PrintMember;
    var s := PrintMembers(ms) + [CLOSE_OBJ] + rest;
    if |ms| == 1 {
      assert s == PrintMember(ms[0]) + ([CLOSE_OBJ] + rest);
      MemberReads(ms[0], [CLOSE_OBJ] + rest);
      MembersStep(s, ms[0], [CLOSE_OBJ] + rest);
      assert ([CLOSE_OBJ] + rest)[1..] == rest;
      assert ms == [ms[0]];
    } else {
      var more := PrintMembers(ms[1..]) + [CLOSE_OBJ] + rest;
      assert s == PrintMember(ms[0]) + ([COMMA] + more);
      MemberReads(ms[0], [COMMA] + more);
      MembersStep(s, ms[0], [COMMA] + more);
      assert ([COMMA] + more)[1..] == more;
      MembersRead(ms[1..], rest);
      assert ms == [ms[0]] + ms[1..];
    }
  }

  // ---------- the order of member names ----------

  /** Section 3.2.3: the UTF-16 code units a name is sorted by. */
  function Units(c: Char): seq<nat> {
    if c < 0x1_0000 then [c] else [0xD800 + (c - 0x1_0000) / 0x400, 0xDC00 + (c - 0x1_0000) % 0x400]
  }

  function Utf16(s: Text): seq<nat> {
    if s == [] then [] else Units(s[0]) + Utf16(s[1..])
  }

  predicate Less(a: seq<nat>, b: seq<nat>) {
    b != [] && (a == [] || a[0] < b[0] || (a[0] == b[0] && Less(a[1..], b[1..])))
  }

  lemma {:induction false} LessIsTotal(a: seq<nat>, b: seq<nat>)
    ensures Less(a, b) || Less(b, a) || a == b
    ensures !(Less(a, b) && Less(b, a)) && !Less(a, a)
    decreases |a|
  {
    if a != [] {
      LessIsTotal(a[1..], a[1..]);
      if b != [] {
        LessIsTotal(a[1..], b[1..]);
        if a[0] == b[0] && a[1..] == b[1..] {
          assert a == [a[0]] + a[1..] && b == [b[0]] + b[1..];
        }
      }
    }
  }

  lemma {:induction false} LessIsTransitive(a: seq<nat>, b: seq<nat>, c: seq<nat>)
    requires Less(a, b) && Less(b, c)
    ensures Less(a, c)
    decreases |b|
  {
    if a != [] && a[0] == b[0] == c[0] {
      LessIsTransitive(a[1..], b[1..], c[1..]);
    }
  }

  lemma UnitsApart(a: Char, b: Char, u: seq<nat>, v: seq<nat>)
    requires Scalar(a) && Scalar(b) && Units(a) + u == Units(b) + v
    ensures a == b && u == v
  {
    var x, y := Units(a) + u, Units(b) + v;
    assert x[0] == Units(a)[0] && y[0] == Units(b)[0];
    if a >= 0x1_0000 && b >= 0x1_0000 {
      assert x[1] == Units(a)[1] && y[1] == Units(b)[1];
      assert a - 0x1_0000 == 0x400 * ((a - 0x1_0000) / 0x400) + (a - 0x1_0000) % 0x400;
      assert b - 0x1_0000 == 0x400 * ((b - 0x1_0000) / 0x400) + (b - 0x1_0000) % 0x400;
    }
    assert x[|Units(a)|..] == u && y[|Units(b)|..] == v;
  }

  /** Names of Unicode scalar values are told apart by their UTF-16 code units. */
  lemma {:induction false} Utf16Injective(a: Text, b: Text)
    requires Scalars(a) && Scalars(b) && Utf16(a) == Utf16(b)
    ensures a == b
    decreases |a|
  {
    if a != [] && b != [] {
      UnitsApart(a[0], b[0], Utf16(a[1..]), Utf16(b[1..]));
      Utf16Injective(a[1..], b[1..]);
      assert a == [a[0]] + a[1..] && b == [b[0]] + b[1..];
    }
  }

  predicate Before(m: Member, n: Member) { Less(Utf16(m.key), Utf16(n.key)) }

  /** Into an ordered list, after the members that do not come later. */
  function Insert(ms: seq<Member>, m: Member): seq<Member> {
    if ms == [] || !Before(m, ms[|ms| - 1]) then ms + [m]
    else Insert(ms[..|ms| - 1], m) + [ms[|ms| - 1]]
  }

  /** `sorted(items, key=utf16)`, stable. */
  function Sort(ms: seq<Member>): seq<Member> {
    if ms == [] then [] else Insert(Sort(ms[..|ms| - 1]), ms[|ms| - 1])
  }

  predicate Ordered(ms: seq<Member>) {
    forall i, j :: 0 <= i < j < |ms| ==> !Before(ms[j], ms[i])
  }

  predicate StrictlyOrdered(ms: seq<Member>) {
    forall i, j :: 0 <= i < j < |ms| ==> Before(ms[i], ms[j])
  }

  lemma {:induction false} InsertPermutes(ms: seq<Member>, m: Member)
    ensures multiset(Insert(ms, m)) == multiset(ms) + multiset{m}
    decreases |ms|
  {
    if ms != [] && Before(m, ms[|ms| - 1]) {
      InsertPermutes(ms[..|ms| - 1], m);
      Snoc(ms);
    }
  }

  lemma {:induction false} SortPermutes(ms: seq<Member>)
    ensures multiset(Sort(ms)) == multiset(ms) && |Sort(ms)| == |ms|
    decreases |ms|
  {
    if ms != [] {
      SortPermutes(ms[..|ms| - 1]);
      InsertPermutes(Sort(ms[..|ms| - 1]), ms[|ms| - 1]);
      Snoc(ms);
      assert |multiset(Sort(ms))| == |multiset(ms)|;
    }
  }

  lemma NotBeforeTransitive(a: Member, b: Member, c: Member)
    requires !Before(b, a) && !Before(c, b)
    ensures !Before(c, a)
  {
    var x, y, z := Utf16(a.key), Utf16(b.key), Utf16(c.key);
    LessIsTotal(x, y);
    LessIsTotal(y, z);
    LessIsTotal(x, z);
    if Less(x, y) && Less(y, z) {
      LessIsTransitive(x, y, z);
    }
  }

  lemma {:induction false} InsertKeepsOrder(ms: seq<Member>, m: Member)
    requires Ordered(ms)
    ensures Ordered(Insert(ms, m))
    decreases |ms|
  {
    hide Before;
    var n := |ms| - 1;
    if ms == [] {
    } else if !Before(m, ms[n]) {
      forall i | 0 <= i < |ms| ensures !Before(m, ms[i]) {
        if i < n {
          NotBeforeTransitive(ms[i], ms[n], m);
        }
      }
    } else {
      InsertKeepsOrder(ms[..n], m);
      var front := Insert(ms[..n], m);
      forall i | 0 <= i < |front| ensures !Before(ms[n], front[i]) {
        InsertPermutes(ms[..n], m);
        assert front[i] in multiset(front);
        if front[i] == m {
          NotBoth(m, ms[n]);
        } else {
          assert front[i] in ms[..n];
        }
      }
    }
  }

  lemma NotBoth(m: Member, n: Member)
    requires Before(m, n)
    ensures !Before(n, m)
  {
    LessIsTotal(Utf16(m.key), Utf16(n.key));
  }

  lemma {:induction false} SortOrders(ms: seq<Member>)
    ensures Ordered(Sort(ms))
    decreases |ms|
  {
    if ms != [] {
      SortOrders(ms[..|ms| - 1]);
      InsertKeepsOrder(Sort(ms[..|ms| - 1]), ms[|ms| - 1]);
    }
  }

  predicate DistinctKeys(ms: seq<Member>) {
    forall i, j :: 0 <= i < j < |ms| ==> ms[i].key != ms[j].key
  }

  predicate ScalarKeys(ms: seq<Member>) {
    forall i :: 0 <= i < |ms| ==> Scalars(ms[i].key)
  }

  lemma {:induction false} DistinctByCount(ms: seq<Member>, ns: seq<Member>)
    requires multiset(ms) == multiset(ns) && DistinctKeys(ms)
    ensures DistinctKeys(ns)
  {
    forall i, j | 0 <= i < j < |ns| ensures ns[i].key != ns[j].key {
      if ns[i].key == ns[j].key {
        assert ns[i] in multiset(ns) && ns[j] in multiset(ns);
        var a :| 0 <= a < |ms| && ms[a] == ns[i];
        var b :| 0 <= b < |ms| && ms[b] == ns[j];
        assert a == b;
        TwiceCounts(ns, i, j);
        OnceCounts(ms, a);
      }
    }
  }

  lemma TwiceCounts(ns: seq<Member>, i: nat, j: nat)
    requires i < j < |ns| && ns[i] == ns[j]
    ensures multiset(ns)[ns[i]] >= 2
  {
    assert ns == ns[..j] + ns[j..];
    assert ns[..j][i] == ns[i] && ns[j..][0] == ns[j];
    assert ns[i] in multiset(ns[..j]) && ns[j] in multiset(ns[j..]);
  }

  lemma OnceCounts(ms: seq<Member>, a: nat)
    requires DistinctKeys(ms) && a < |ms|
    ensures multiset(ms)[ms[a]] == 1
  {
    assert ms == ms[..a] + [ms[a]] + ms[a + 1..];
    assert ms[a] !in multiset(ms[..a]) && ms[a] !in multiset(ms[a + 1..]);
  }

  /** With distinct names of scalar values the sorted order is strict. */
  lemma SortIsStrict(ms: seq<Member>)
    requires DistinctKeys(ms) && ScalarKeys(ms)
    ensures StrictlyOrdered(Sort(ms)) && ScalarKeys(Sort(ms))
  {
    SortOrders(ms);
    SortPermutes(ms);
    DistinctByCount(ms, Sort(ms));
    var out := Sort(ms);
    forall i | 0 <= i < |out| ensures Scalars(out[i].key) {
      assert out[i] in multiset(ms);
    }
    forall i, j | 0 <= i < j < |out| ensures Before(out[i], out[j]) {
      LessIsTotal(Utf16(out[i].key), Utf16(out[j].key));
      if Utf16(out[i].key) == Utf16(out[j].key) {
        Utf16Injective(out[i].key, out[j].key);
      }
    }
  }

  lemma SortedInside(ms: seq<Member>, i: nat)
    requires i < |Sort(ms)|
    ensures Sort(ms)[i] in ms && Sort(ms)[i].value < Obj(ms)
  {
    SortPermutes(ms);
    assert Sort(ms)[i] in multiset(ms);
    var j :| 0 <= j < |ms| && ms[j] == Sort(ms)[i];
  }

  // ---------- canonical form ----------

  function Join(parts: seq<Text>): Text {
    if parts == [] then []
    else if |parts| == 1 then parts[0]
    else parts[0] + [COMMA] + Join(parts[1..])
  }

  /** None where the printer raises: a float, or an integer outside the safe range. */
  function Jcs(v: Json): Option<Text>
    decreases v
  {
    match v
    case Null => Some(NULL_TEXT)
    case Bool(b) => Some(if b then TRUE_TEXT else FALSE_TEXT)
    case Int(n) => if -SAFE_INT <= n <= SAFE_INT then Some(IntText(n)) else None
    case Float => None
    case Str(s) => Some(QuotedText(s))
    case Arr(xs) =>
      var parts := All(seq(|xs|, i requires 0 <= i < |xs| => Jcs(xs[i])));
      if parts.None? then None else Some([OPEN] + Join(parts.value) + [CLOSE])
    case Obj(ms) =>
      var items := Sort(ms);
      var parts := All(seq(|items|, i requires 0 <= i < |items| =>
        (SortedInside(ms, i); var x := Jcs(items[i].value);
         if x.None? then None else Some(QuotedText(items[i].key) + [COLON] + x.value))));
      if parts.None? then None else Some([OPEN_OBJ] + Join(parts.value) + [CLOSE_OBJ])
  }

  /** All values, if all are there. */
  function All(parts: seq<Option<Text>>): (r: Option<seq<Text>>)
    ensures r.Some? <==> forall i :: 0 <= i < |parts| ==> parts[i].Some?
    ensures r.Some? ==> |r.value| == |parts| && forall i :: 0 <= i < |parts| ==> parts[i] == Some(r.value[i])
  {
    if parts == [] then Some([])
    else
      var rest := All(parts[..|parts| - 1]);
      if rest.None? || parts[|parts| - 1].None? then None else Some(rest.value + [parts[|parts| - 1].value])
  }

  /** The value with every object's members in canonical order. */
  function Norm(v: Json): Json
    decreases v
  {
    match v
    case Arr(xs) => Arr(seq(|xs|, i requires 0 <= i < |xs| => Norm(xs[i])))
    case Obj(ms) =>
      var items := Sort(ms);
      Obj(seq(|items|, i requires 0 <= i < |items| =>
        (SortedInside(ms, i); Member(items[i].key, Norm(items[i].value)))))
    case _ => v
  }

  /** What the printer accepts. */
  predicate Printable(v: Json)
    decreases v
  {
    match v
    case Float => false
    case Int(n) => -SAFE_INT <= n <= SAFE_INT
    case Arr(xs) => forall i :: 0 <= i < |xs| ==> Printable(xs[i])
    case Obj(ms) => forall i :: 0 <= i < |ms| ==> Printable(ms[i].value)
    case _ => true
  }

  lemma NormObj(ms: seq<Member>)
    ensures Norm(Obj(ms)).Obj? && |Norm(Obj(ms)).ms| == |Sort(ms)| == |ms|
    ensures forall i :: 0 <= i < |ms| ==> Norm(Obj(ms)).ms[i] == Member(Sort(ms)[i].key, Norm(Sort(ms)[i].value))
  {
    SortPermutes(ms);
  }

  lemma {:induction false} JoinItems(xs: seq<Json>, parts: seq<Text>)
    requires |parts| == |xs| && forall i :: 0 <= i < |xs| ==> parts[i] == Print(xs[i])
    ensures Join(parts) == PrintItems(xs)
    decreases |xs|
  {
    hide Print;
    if |xs| > 1 {
      JoinItems(xs[1..], parts[1..]);
    }
  }

  lemma {:induction false} JoinMembers(ms: seq<Member>, parts: seq<Text>)
    requires |parts| == |ms| && forall i :: 0 <= i < |ms| ==> parts[i] == PrintMember(ms[i])
    ensures Join(parts) == PrintMembers(ms)
    decreases |ms|
  {
    hide PrintMember;
    if |ms| > 1 {
      JoinMembers(ms[1..], parts[1..]);
    }
  }

  lemma JcsArr(xs: seq<Json>)
    requires forall i :: 0 <= i < |xs| ==> Printable(xs[i]) && Jcs(xs[i]) == Some(Print(Norm(xs[i])))
    ensures Jcs(Arr(xs)) == Some(Print(Norm(Arr(xs))))
  {
    hide Print, Join, PrintItems;
    var parts := seq(|xs|, i requires 0 <= i < |xs| => Jcs(xs[i]));
    JoinItems(Norm(Arr(xs)).xs, All(parts).value);
    ArrText(Norm(Arr(xs)).xs);
  }

  lemma ArrText(xs: seq<Json>)
    ensures Print(Arr(xs)) == [OPEN] + PrintItems(xs) + [CLOSE]
  {
  }

  lemma ObjText(ms: seq<Member>)
    ensures Print(Obj(ms)) == [OPEN_OBJ] + PrintMembers(ms) + [CLOSE_OBJ]
  {
  }

  /** The text of member `i` in sorted order. */
  ghost function Part(ms: seq<Member>, i: nat): Option<Text>
    requires i < |Sort(ms)|
  {
    var x := Jcs(Sort(ms)[i].value);
    if x.None? then None else Some(QuotedText(Sort(ms)[i].key) + [COLON] + x.value)
  }

  lemma JcsObjIs(ms: seq<Member>, parts: seq<Option<Text>>)
    requires |parts| == |Sort(ms)| && forall i :: 0 <= i < |parts| ==> parts[i] == Part(ms, i)
    ensures Jcs(Obj(ms)) == if All(parts).None? then None else Some([OPEN_OBJ] + Join(All(parts).value) + [CLOSE_OBJ])
  {
    hide QuotedText, Join, Sort;
    var items := Sort(ms);
    var own := seq(|items|, i requires 0 <= i < |items| =>
        (SortedInside(ms, i); var x := Jcs(items[i].value);
         if x.None? then None else Some(QuotedText(items[i].key) + [COLON] + x.value)));
    assert own == parts;
  }

  lemma JcsObj(ms: seq<Member>)
    requires forall i :: 0 <= i < |ms| ==> Printable(ms[i].value) && Jcs(ms[i].value) == Some(Print(Norm(ms[i].value)))
    ensures Jcs(Obj(ms)) == Some(Print(Norm(Obj(ms))))
  {
    hide Print, Join, PrintMembers, Jcs, Norm, Sort;
    NormObj(ms);
    var out := Norm(Obj(ms)).ms;
    var parts := seq(|Sort(ms)|, i requires 0 <= i < |Sort(ms)| => Part(ms, i));
    forall i | 0 <= i < |parts| ensures parts[i] == Some(PrintMember(out[i])) {
      SortedInside(ms, i);
      var j :| 0 <= j < |ms| && ms[j] == Sort(ms)[i];
    }
    JcsObjIs(ms, parts);
    JoinMembers(out, All(parts).value);
    ObjText(out);
  }

  /** The printer: on a printable value the canonical order printed, and nothing otherwise. */
  lemma {:induction false} JcsIsPrint(v: Json)
    ensures Printable(v) ==> Jcs(v) == Some(Print(Norm(v)))
    ensures !Printable(v) ==> Jcs(v).None?
    decreases v
  {
    match v {
      case Arr(xs) =>
        forall i | 0 <= i < |xs|
          ensures Printable(xs[i]) ==> Jcs(xs[i]) == Some(Print(Norm(xs[i])))
          ensures !Printable(xs[i]) ==> Jcs(xs[i]).None?
        {
          JcsIsPrint(xs[i]);
        }
        if Printable(v) {
          JcsArr(xs);
        } else {
          ArrRefused(xs);
        }
      case Obj(ms) =>
        forall i | 0 <= i < |ms|
          ensures Printable(ms[i].value) ==> Jcs(ms[i].value) == Some(Print(Norm(ms[i].value)))
          ensures !Printable(ms[i].value) ==> Jcs(ms[i].value).None?
        {
          JcsIsPrint(ms[i].value);
        }
        if Printable(v) {
          JcsObj(ms);
        } else {
          ObjRefused(ms);
        }
      case _ =>
    }
  }

  lemma ArrRefused(xs: seq<Json>)
    requires exists i :: 0 <= i < |xs| && Jcs(xs[i]).None?
    ensures Jcs(Arr(xs)).None?
  {
    var i :| 0 <= i < |xs| && Jcs(xs[i]).None?;
    var parts := seq(|xs|, i requires 0 <= i < |xs| => Jcs(xs[i]));
    assert parts[i].None?;
  }

  lemma ObjRefused(ms: seq<Member>)
    requires exists i :: 0 <= i < |ms| && Jcs(ms[i].value).None?
    ensures Jcs(Obj(ms)).None?
  {
    var i :| 0 <= i < |ms| && Jcs(ms[i].value).None?;
    SortPermutes(ms);
    assert ms[i] in multiset(Sort(ms));
    var k :| 0 <= k < |Sort(ms)| && Sort(ms)[k] == ms[i];
    hide Jcs, Sort;
    var parts := seq(|Sort(ms)|, i requires 0 <= i < |Sort(ms)| => Part(ms, i));
    assert parts[k].None?;
    JcsObjIs(ms, parts);
  }

  lemma {:induction false} NormPrints(v: Json)
    requires Printable(v)
    ensures NoFloat(Norm(v))
    decreases v
  {
    match v {
      case Arr(xs) =>
        forall i | 0 <= i < |xs| ensures NoFloat(Norm(xs[i])) {
          NormPrints(xs[i]);
        }
      case Obj(ms) =>
        NormObj(ms);
        forall i | 0 <= i < |ms| ensures NoFloat(Norm(v).ms[i].value) {
          SortedInside(ms, i);
          var j :| 0 <= j < |ms| && ms[j] == Sort(ms)[i];
          NormPrints(ms[j].value);
        }
      case _ =>
    }
  }

  // ---------- equality of JSON values ----------

  /** Objects are equal when they bind the same names to equal values, in any order. */
  predicate Equal(a: Json, b: Json)
    decreases a, 0
  {
    match (a, b)
    case (Arr(xs), Arr(ys)) => |xs| == |ys| && forall i :: 0 <= i < |xs| ==> Equal(xs[i], ys[i])
    case (Obj(ms), Obj(ns)) => |ms| == |ns| && forall i :: 0 <= i < |ms| ==> Bound(ms[i], ns)
    case _ => a == b
  }

  predicate Bound(m: Member, ns: seq<Member>)
    decreases m, 1
  {
    exists j :: 0 <= j < |ns| && ns[j].key == m.key && Equal(m.value, ns[j].value)
  }

  /** Dictionaries have distinct names; strings are Unicode scalar values. */
  predicate WellFormed(v: Json)
    decreases v
  {
    match v
    case Str(s) => Scalars(s)
    case Arr(xs) => forall i :: 0 <= i < |xs| ==> WellFormed(xs[i])
    case Obj(ms) => DistinctKeys(ms) && ScalarKeys(ms) && forall i :: 0 <= i < |ms| ==> WellFormed(ms[i].value)
    case _ => true
  }

  lemma {:induction false} NormIsEqual(a: Json, b: Json)
    requires Norm(a) == Norm(b)
    ensures Equal(a, b)
    decreases a
  {
    match a {
      case Arr(xs) =>
        assert b.Arr?;
        forall i | 0 <= i < |xs| ensures Equal(xs[i], b.xs[i]) {
          assert Norm(a).xs[i] == Norm(b).xs[i];
          NormIsEqual(xs[i], b.xs[i]);
        }
      case Obj(ms) =>
        assert b.Obj?;
        NormObj(ms);
        NormObj(b.ms);
        forall i | 0 <= i < |ms| ensures Bound(ms[i], b.ms) {
          var j := SameNameInBoth(ms, b.ms, i);
          NormIsEqual(ms[i].value, b.ms[j].value);
        }
      case _ =>
    }
  }

  lemma SameNameInBoth(ms: seq<Member>, ns: seq<Member>, i: nat) returns (j: nat)
    requires Norm(Obj(ms)) == Norm(Obj(ns)) && i < |ms|
    ensures j < |ns| && ns[j].key == ms[i].key && Norm(ms[i].value) == Norm(ns[j].value)
  {
    NormObj(ms);
    NormObj(ns);
    SortPermutes(ms);
    assert ms[i] in multiset(Sort(ms));
    hide Norm, Sort;
    var k :| 0 <= k < |Sort(ms)| && Sort(ms)[k] == ms[i];
    assert Norm(Obj(ms)).ms[k] == Norm(Obj(ns)).ms[k];
    SortedInside(ns, k);
    j :| 0 <= j < |ns| && ns[j] == Sort(ns)[k];
  }

  lemma BeforeIsStrict(a: Member, b: Member, c: Member)
    ensures !Before(a, a)
    ensures Before(a, b) && Before(b, c) ==> Before(a, c)
  {
    LessIsTotal(Utf16(a.key), Utf16(a.key));
    if Before(a, b) && Before(b, c) {
      LessIsTransitive(Utf16(a.key), Utf16(b.key), Utf16(c.key));
    }
  }

  /** A place is later than another when its member comes later. */
  lemma LaterPlace(b: seq<Member>, k: nat, j: nat)
    requires StrictlyOrdered(b) && k < |b| && j < |b| && Before(b[k], b[j])
    ensures k < j
  {
    hide Before;
    BeforeIsStrict(b[k], b[j], b[k]);
  }

  /** Each member of `a` sits in `b` no earlier than in `a`. */
  lemma {:induction false} Embeds(a: seq<Member>, b: seq<Member>, i: nat) returns (j: nat)
    requires StrictlyOrdered(a) && StrictlyOrdered(b) && i < |a| && forall x :: x in a ==> x in b
    ensures i <= j < |b| && b[j] == a[i]
    decreases i
  {
    hide Before;
    assert a[i] in b;
    j :| 0 <= j < |b| && b[j] == a[i];
    if i > 0 {
      var k := Embeds(a, b, i - 1);
      LaterPlace(b, k, j);
    }
  }

  /** Two strictly ordered lists of one length, the one inside the other, are the same. */
  lemma SameOrdered(a: seq<Member>, b: seq<Member>)
    requires StrictlyOrdered(a) && StrictlyOrdered(b) && |a| == |b| && forall x :: x in a ==> x in b
    ensures a == b
  {
    forall i | 0 <= i < |a| ensures a[i] == b[i] {
      PlaceIsExact(a, b, i);
    }
  }

  lemma {:induction false} PlaceIsExact(a: seq<Member>, b: seq<Member>, i: nat)
    requires StrictlyOrdered(a) && StrictlyOrdered(b) && |a| == |b| && i < |a| && forall x :: x in a ==> x in b
    ensures a[i] == b[i]
    decreases |a| - i
  {
    hide Before;
    var j := Embeds(a, b, i);
    if i + 1 < |a| {
      PlaceIsExact(a, b, i + 1);
      LaterPlace(b, j, i + 1);
    }
  }

  lemma NormKeys(ms: seq<Member>)
    requires DistinctKeys(ms) && ScalarKeys(ms)
    ensures StrictlyOrdered(Norm(Obj(ms)).ms)
  {
    SortIsStrict(ms);
    NormObj(ms);
    hide Norm, Sort, Less, Utf16;
  }

  predicate NormBound(m: Member, ns: seq<Member>) {
    exists j :: 0 <= j < |ns| && ns[j].key == m.key && Norm(m.value) == Norm(ns[j].value)
  }

  lemma {:induction false} EqualIsNorm(a: Json, b: Json)
    requires WellFormed(a) && WellFormed(b) && Equal(a, b)
    ensures Norm(a) == Norm(b)
    decreases a
  {
    match a {
      case Arr(xs) =>
        forall i | 0 <= i < |xs| ensures Norm(xs[i]) == Norm(b.xs[i]) {
          EqualIsNorm(xs[i], b.xs[i]);
        }
      case Obj(ms) =>
        var ns := b.ms;
        forall i | 0 <= i < |ms| ensures NormBound(ms[i], ns) {
          assert Bound(ms[i], ns);
          var j :| 0 <= j < |ns| && ns[j].key == ms[i].key && Equal(ms[i].value, ns[j].value);
          EqualIsNorm(ms[i].value, ns[j].value);
        }
        SameMembers(ms, ns);
      case _ =>
    }
  }

  lemma SameMembers(ms: seq<Member>, ns: seq<Member>)
    requires |ms| == |ns| && DistinctKeys(ms) && ScalarKeys(ms) && DistinctKeys(ns) && ScalarKeys(ns)
    requires forall i :: 0 <= i < |ms| ==> NormBound(ms[i], ns)
    ensures Norm(Obj(ms)) == Norm(Obj(ns))
  {
    NormObj(ms);
    NormObj(ns);
    NormKeys(ms);
    NormKeys(ns);
    var a, b := Norm(Obj(ms)).ms, Norm(Obj(ns)).ms;
    hide Norm, Sort, StrictlyOrdered, DistinctKeys, ScalarKeys;
    forall k | 0 <= k < |a| ensures a[k] in b {
      SortedInside(ms, k);
      var i :| 0 <= i < |ms| && ms[i] == Sort(ms)[k];
      assert NormBound(ms[i], ns);
      var j :| 0 <= j < |ns| && ns[j].key == ms[i].key && Norm(ms[i].value) == Norm(ns[j].value);
      var l := PlaceOf(ns, j);
      assert b[l] == a[k];
    }
    SameOrdered(a, b);
  }

  lemma PlaceOf(ns: seq<Member>, j: nat) returns (l: nat)
    requires j < |ns|
    ensures l < |Sort(ns)| && Sort(ns)[l] == ns[j]
  {
    SortPermutes(ns);
    assert ns[j] in multiset(Sort(ns));
    l :| 0 <= l < |Sort(ns)| && Sort(ns)[l] == ns[j];
  }

  // ---------- the canonical form decides equality ----------

  lemma {:induction false} NormKeepsValue(v: Json)
    ensures Equal(v, Norm(v))
    decreases v
  {
    match v {
      case Arr(xs) =>
        forall i | 0 <= i < |xs| ensures Equal(xs[i], Norm(v).xs[i]) {
          NormKeepsValue(xs[i]);
        }
      case Obj(ms) =>
        NormObj(ms);
        forall i | 0 <= i < |ms| ensures Bound(ms[i], Norm(v).ms) {
          NormKeepsValue(ms[i].value);
          var k := PlaceOf(ms, i);
          assert Norm(v).ms[k] == Member(ms[i].key, Norm(ms[i].value));
        }
      case _ =>
    }
  }

  /** A parser undoes the printer: the value read back is equal to the one printed. */
  lemma JcsReadsBack(v: Json)
    requires Printable(v)
    ensures Jcs(v).Some? && ParseValue(Jcs(v).value) == Some((Norm(v), [])) && Equal(v, Norm(v))
  {
    JcsIsPrint(v);
    NormPrints(v);
    ParsePrinted(Norm(v), []);
    assert Print(Norm(v)) + [] == Print(Norm(v));
    NormKeepsValue(v);
  }

  /** Two values have the same canonical form exactly when they are equal: independent of the order of
      members, and injective. */
  lemma JcsDecidesEquality(a: Json, b: Json)
    requires WellFormed(a) && WellFormed(b) && Printable(a) && Printable(b)
    ensures Jcs(a) == Jcs(b) <==> Equal(a, b)
  {
    hide WellFormed, Printable, Equal, Jcs, Norm, ParseValue;
    JcsReadsBack(a);
    JcsReadsBack(b);
    JcsIsPrint(a);
    JcsIsPrint(b);
    if Jcs(a) == Jcs(b) {
      NormIsEqual(a, b);
    }
    if Equal(a, b) {
      EqualIsNorm(a, b);
    }
  }

  // ---------- UTF-8 ----------

  function Utf8One(c: Char): Bytes {
    if c < 0x80 then [c]
    else if c < 0x800 then [0xC0 + c / 0x40, 0x80 + c % 0x40]
    else if c < 0x1_0000 then [0xE0 + c / 0x1000, 0x80 + (c / 0x40) % 0x40, 0x80 + c % 0x40]
    else [0xF0 + c / 0x4_0000, 0x80 + (c / 0x1000) % 0x40, 0x80 + (c / 0x40) % 0x40, 0x80 + c % 0x40]
  }

  /** None on a lone surrogate, where encoding raises. */
  function Utf8(s: Text): Option<Bytes> {
    if s == [] then Some([])
    else
      var rest := Utf8(s[1..]);
      if rest.None? || !Scalar(s[0]) then None else Some(Utf8One(s[0]) + rest.value)
  }

  lemma Utf8Apart(a: Char, b: Char, u: Bytes, v: Bytes)
    requires Utf8One(a) + u == Utf8One(b) + v
    ensures a == b && u == v
  {
    var x, y := Utf8One(a) + u, Utf8One(b) + v;
    assert x[0] == Utf8One(a)[0] && y[0] == Utf8One(b)[0];
    if |Utf8One(a)| >= 2 && |Utf8One(b)| >= 2 {
      assert x[1] == Utf8One(a)[1] && y[1] == Utf8One(b)[1];
    }
    if |Utf8One(a)| >= 3 && |Utf8One(b)| >= 3 {
      assert x[2] == Utf8One(a)[2] && y[2] == Utf8One(b)[2];
    }
    if |Utf8One(a)| >= 4 && |Utf8One(b)| >= 4 {
      assert x[3] == Utf8One(a)[3] && y[3] == Utf8One(b)[3];
    }
    Utf8Lead(a);
    Utf8Lead(b);
    assert |Utf8One(a)| == |Utf8One(b)|;
    Utf8Value(a);
    Utf8Value(b);
    assert x[|Utf8One(a)|..] == u && y[|Utf8One(b)|..] == v;
  }

  /** The first byte tells how many follow. */
  lemma Utf8Lead(c: Char)
    ensures var s := Utf8One(c);
      |s| == if s[0] < 0x80 then 1 else if s[0] < 0xE0 then 2 else if s[0] < 0xF0 then 3 else 4
  {
  }

  lemma DivTwice(n: nat)
    ensures n / 0x1000 == (n / 0x40) / 0x40 && n / 0x4_0000 == ((n / 0x40) / 0x40) / 0x40
  {
  }

  /** The bytes give the code point back. */
  lemma Utf8Value(c: Char)
    ensures var s := Utf8One(c);
      (c as int) ==
        if |s| == 1 then s[0] as int
        else if |s| == 2 then 0x40 * (s[0] as int - 0xC0) + (s[1] as int - 0x80)
        else if |s| == 3 then 0x40 * (0x40 * (s[0] as int - 0xE0) + (s[1] as int - 0x80)) + (s[2] as int - 0x80)
        else
          0x40 * (0x40 * (0x40 * (s[0] as int - 0xF0) + (s[1] as int - 0x80)) + (s[2] as int - 0x80))
          + (s[3] as int - 0x80)
  {
    DivTwice(c);
    var q := c / 0x40;
    var r := q / 0x40;
    assert c == 0x40 * q + c % 0x40 && q == 0x40 * r + q % 0x40 && r == 0x40 * (r / 0x40) + r % 0x40;
    assert c / 0x1000 == r && c / 0x4_0000 == r / 0x40;
  }

  lemma {:induction false} Utf8Injective(a: Text, b: Text)
    requires Utf8(a).Some? && Utf8(a) == Utf8(b)
    ensures a == b
    decreases |a|
  {
    if a != [] && b != [] {
      Utf8Apart(a[0], b[0], Utf8(a[1..]).value, Utf8(b[1..]).value);
      Utf8Injective(a[1..], b[1..]);
      assert a == [a[0]] + a[1..] && b == [b[0]] + b[1..];
    }
  }

  // ---------- a value printed ----------

  lemma ExampleString()
    ensures QuotedText([34, 10, 31, 233]) ==
      [34] + ([] + [92, 34] + [92, 110] + [92, 117, 48, 48, 49, 102] + [233]) + [34]
  {
    hide *;
    EscapeSnoc([], 34);
    EscapeSnoc([34], 10);
    EscapeSnoc([34, 10], 31);
    EscapeSnoc([34, 10, 31], 233);
    OneMore();
    EscapedChars();
    QuotedIs([34, 10, 31, 233]);
  }

  lemma OneMore()
    ensures var n: Text := []; n + [34] == [34]
    ensures var a: Text := [34]; a + [10] == [34, 10]
    ensures var b: Text := [34, 10]; b + [31] == [34, 10, 31]
    ensures var c: Text := [34, 10, 31]; c + [233] == [34, 10, 31, 233]
  {
  }

  lemma EscapedChars()
    ensures EscapeAll([]) == [] && Escape(34) == [92, 34] && Escape(10) == [92, 110]
    ensures Escape(31) == [92, 117, 48, 48, 49, 102] && Escape(233) == [233]
  {
  }

  lemma QuotedIs(s: Text)
    ensures QuotedText(s) == [34] + EscapeAll(s) + [34]
  {
    hide EscapeAll;
  }

  lemma EscapeSnoc(s: Text, c: Char)
    ensures EscapeAll(s + [c]) == EscapeAll(s) + Escape(c)
  {
    assert (s + [c])[..|s|] == s;
  }

  lemma QuotedChar(c: Char)
    requires c >= 0x20 && c != QUOTE && c != BACKSLASH
    ensures QuotedText([c]) == [34, c, 34]
  {
    var s: Text := [c];
    assert s[..0] == [];
    assert EscapeAll(s) == [] + Escape(c) == [c];
    assert [QUOTE] + [c] + [QUOTE] == [34, c, 34];
  }

  /** In code units U+1F600 comes before U+FB33, in code points after it. */
  lemma ExampleOrder(v: Json, w: Json, x: Json)
    ensures Sort([Member([0xFB33], v), Member([0x1F600], w), Member([97], x)]) ==
      [Member([97], x), Member([0x1F600], w), Member([0xFB33], v)]
  {
    var a, b, c := Member([0xFB33], v), Member([0x1F600], w), Member([97], x);
    UnitsOf(0xFB33);
    UnitsOf(0x1F600);
    UnitsOf(97);
    assert Before(b, a) && Before(c, a) && Before(c, b);
    hide *;
    SortThree(a, b, c);
  }

  lemma SortThree(a: Member, b: Member, c: Member)
    requires Before(b, a) && Before(c, a) && Before(c, b)
    ensures Sort([a, b, c]) == [c, b, a]
  {
    hide *;
    SortSnoc([], a);
    SortSnoc([a], b);
    SortSnoc([a, b], c);
    InsertNone(a);
    InsertFirst([], a, b);
    InsertFirst([b], a, c);
    InsertFirst([], b, c);
    InsertNone(b);
    InsertNone(c);
    assert [a] + [b] == [a, b] && [a, b] + [c] == [a, b, c];
    assert [b] + [a] == [b, a] && [c] + [b] == [c, b] && [c, b] + [a] == [c, b, a];
  }

  lemma SortSnoc(ms: seq<Member>, m: Member)
    ensures Sort(ms + [m]) == Insert(Sort(ms), m) && Sort([]) == []
    ensures [] + [m] == [m]
  {
    assert (ms + [m])[..|ms|] == ms;
    hide Insert;
  }

  lemma InsertNone(m: Member)
    ensures Insert([], m) == [m]
  {
  }

  lemma InsertFirst(front: seq<Member>, last: Member, m: Member)
    requires Before(m, last)
    ensures Insert(front + [last], m) == Insert(front, m) + [last] && [] + [last] == [last]
  {
    assert (front + [last])[..|front|] == front;
    hide Before;
  }

  lemma UnitsOf(c: Char)
    ensures Utf16([c]) == Units(c)
  {
    var s: Text := [c];
    assert s[1..] == [];
  }

  /** A member order, an escape, a number and the separators, as section 3.2 of RFC 8785 has them. */
  lemma JcsExample()
    ensures Jcs(Obj([Member([0xFB33], Null), Member([0x1F600], Arr([Bool(true), Int(-10)])),
                     Member([97], Str([34, 10, 31, 233]))])) ==
      Some([123]
           + ([34, 97, 34] + [58]
              + ([34] + ([] + [92, 34] + [92, 110] + [92, 117, 48, 48, 49, 102] + [233]) + [34]) + [44]
              + ([34, 0x1F600, 34] + [58] + [91, 116, 114, 117, 101, 44, 45, 49, 48, 93] + [44]
                 + ([34, 0xFB33, 34] + [58] + [110, 117, 108, 108])))
           + [125])
  {
    hide *;
    var x, w := Str([34, 10, 31, 233]), Arr([Bool(true), Int(-10)]);
    var a, b, c := Member([97], x), Member([0x1F600], w), Member([0xFB33], Null);
    var v := Obj([c, b, a]);
    ExampleNorm(v, a, b, c);
    JcsIsPrint(v);
    Spelled();
    ExampleMember(97, x);
    ExampleMember(0x1F600, w);
    ExampleMember(0xFB33, Null);
    ExampleString();
    ExampleArray();
    PrintThree(a, b, c);
    PrintLeaves([a, b, c], x.s);
  }

  lemma Spelled()
    ensures QUOTE == 34 && COMMA == 44 && BACKSLASH == 92 && OPEN_OBJ == 123 && CLOSE_OBJ == 125
    ensures NULL_TEXT == [110, 117, 108, 108]
  {
  }

  lemma PrintLeaves(ms: seq<Member>, s: Text)
    ensures Print(Obj(ms)) == [OPEN_OBJ] + PrintMembers(ms) + [CLOSE_OBJ]
    ensures Print(Str(s)) == QuotedText(s) && Print(Null) == NULL_TEXT
  {
  }

  lemma ExampleNorm(v: Json, a: Member, b: Member, c: Member)
    requires a == Member([97], Str([34, 10, 31, 233])) && b == Member([0x1F600], Arr([Bool(true), Int(-10)]))
    requires c == Member([0xFB33], Null) && v == Obj([c, b, a])
    ensures Printable(v) && Norm(v) == Obj([a, b, c])
  {
    hide *;
    ExampleOrder(Null, b.value, a.value);
    ExampleArray();
    PlainNorm(a.value.s);
    NormObj(v.ms);
    AllPrintable(v.ms);
    var ms := Norm(v).ms;
    assert ms[0] == a && ms[1] == b && ms[2] == c;
    assert ms == [a, b, c];
  }

  lemma PlainNorm(s: Text)
    ensures Norm(Str(s)) == Str(s) && Norm(Null) == Null && Printable(Str(s)) && Printable(Null)
  {
  }

  lemma AllPrintable(ms: seq<Member>)
    requires forall i :: 0 <= i < |ms| ==> Printable(ms[i].value)
    ensures Printable(Obj(ms))
  {
  }

  lemma ExampleMember(k: Char, v: Json)
    requires k >= 0x20 && k != QUOTE && k != BACKSLASH
    ensures PrintMember(Member([k], v)) == [34, k, 34] + [58] + Print(v)
  {
    QuotedChar(k);
    hide QuotedText, Print;
  }

  lemma ExampleArray()
    ensures var w := Arr([Bool(true), Int(-10)]);
      && Printable(w) && Norm(w) == w && Print(w) == [91, 116, 114, 117, 101, 44, 45, 49, 48, 93]
  {
    var xs := [Bool(true), Int(-10)];
    assert Digits(1) == [49] && Digits(10) == [49, 48];
    assert IntText(-10) == [45, 49, 48];
    var last := [Int(-10)];
    assert xs[1..] == last;
    assert PrintItems(last) == [45, 49, 48];
    assert Norm(Arr(xs)).xs == xs;
  }

  lemma PrintThree(a: Member, b: Member, c: Member)
    ensures PrintMembers([a, b, c]) ==
      PrintMember(a) + [COMMA] + (PrintMember(b) + [COMMA] + PrintMember(c))
  {
    var ms, bc, last := [a, b, c], [b, c], [c];
    assert ms[1..] == bc && bc[1..] == last;
    hide PrintMember;
    assert PrintMembers(last) == PrintMember(c);
    assert PrintMembers(bc) == PrintMember(b) + [COMMA] + PrintMember(c);
  }

  // ---------- capsule identity ----------

  /** `json_digest`: None where it raises. */
  function JsonDigest(sha: Sha, v: Json): Option<Digest> {
    var text := Jcs(v);
    if text.None? || Utf8(text.value).None? then None else Some(sha(Utf8(text.value).value))
  }

  /** capsule_id, signature, key_id. */
  const LOCAL_KEYS: set<Text> := {
    [99, 97, 112, 115, 117, 108, 101, 95, 105, 100], [115, 105, 103, 110, 97, 116, 117, 114, 101],
    [107, 101, 121, 95, 105, 100]
  }

  function Kept(ms: seq<Member>): seq<Member> {
    if ms == [] then []
    else Kept(ms[..|ms| - 1]) + (if ms[|ms| - 1].key in LOCAL_KEYS then [] else [ms[|ms| - 1]])
  }

  function Codes(s: string): Text
    requires forall i :: 0 <= i < |s| ==> s[i] < 128 as char
  {
    seq(|s|, i requires 0 <= i < |s| => s[i] as int)
  }

  /** A member of one of the three local names is nowhere in the identity form, and any other stays. */
  lemma EnvelopeIgnored(ms: seq<Member>, m: Member)
    ensures Kept(ms + [m]) ==
      if m.key == Codes("capsule_id") || m.key == Codes("signature") || m.key == Codes("key_id")
      then Kept(ms) else Kept(ms) + [m]
  {
    assert (ms + [m])[..|ms|] == ms;
    LocalNames();
    hide Codes, LOCAL_KEYS;
  }

  lemma LocalNames()
    ensures LOCAL_KEYS == {Codes("capsule_id"), Codes("signature"), Codes("key_id")}
  {
    assert Codes("capsule_id") == [99, 97, 112, 115, 117, 108, 101, 95, 105, 100];
    assert Codes("signature") == [115, 105, 103, 110, 97, 116, 117, 114, 101];
    assert Codes("key_id") == [107, 101, 121, 95, 105, 100];
  }

  /** `capsule_identity_form`: top-level members only. */
  function IdentityForm(capsule: seq<Member>): Json { Obj(Kept(capsule)) }

  lemma {:induction false} KeptMembers(ms: seq<Member>)
    ensures forall m :: m in Kept(ms) <==> m in ms && m.key !in LOCAL_KEYS
    decreases |ms|
  {
    if ms != [] {
      KeptMembers(ms[..|ms| - 1]);
      Snoc(ms);
      hide LOCAL_KEYS;
    }
  }

  /** What the two digests hashed. */
  function Hashed(a: Json): set<Bytes> {
    if Jcs(a).None? || Utf8(Jcs(a).value).None? then {} else {Utf8(Jcs(a).value).value}
  }

  lemma {:induction false} KeptDistinct(ms: seq<Member>)
    requires DistinctKeys(ms)
    ensures DistinctKeys(Kept(ms))
    decreases |ms|
  {
    hide LOCAL_KEYS;
    if ms != [] {
      var n := |ms| - 1;
      KeptDistinct(ms[..n]);
      KeptMembers(ms[..n]);
      forall i | 0 <= i < |Kept(ms[..n])| ensures Kept(ms[..n])[i].key != ms[n].key {
        var j :| 0 <= j < n && ms[..n][j] == Kept(ms[..n])[i];
        assert ms[j] == ms[..n][j];
      }
    }
  }

  lemma KeptKeys(ms: seq<Member>)
    requires WellFormed(Obj(ms))
    ensures WellFormed(Obj(Kept(ms)))
  {
    KeptDistinct(ms);
    KeptMembers(ms);
    var out := Kept(ms);
    hide LOCAL_KEYS, Kept, DistinctKeys;
    forall i | 0 <= i < |out| ensures Scalars(out[i].key) && WellFormed(out[i].value) {
      assert out[i] in ms;
      var j :| 0 <= j < |ms| && ms[j] == out[i];
    }
  }

  lemma IdentityBinds(sha: Sha, a: seq<Member>, b: seq<Member>)
    requires WellFormed(Obj(a)) && WellFormed(Obj(b))
    requires JsonDigest(sha, IdentityForm(a)).Some?
    requires JsonDigest(sha, IdentityForm(a)) == JsonDigest(sha, IdentityForm(b))
    requires NoCollision(sha, Hashed(IdentityForm(a)) + Hashed(IdentityForm(b)))
    ensures forall m :: m in a && m.key !in LOCAL_KEYS ==> Bound(m, b)
  {
    var f, g := IdentityForm(a), IdentityForm(b);
    KeptKeys(a);
    KeptKeys(b);
    JcsIsPrint(f);
    JcsIsPrint(g);
    hide WellFormed, Jcs, Printable, Utf8, Kept, LOCAL_KEYS, Bound;
    Utf8Injective(Jcs(f).value, Jcs(g).value);
    JcsDecidesEquality(f, g);
    EqualBinds(Kept(a), Kept(b));
    KeptMembers(a);
    KeptMembers(b);
    forall m | m in a && m.key !in LOCAL_KEYS ensures Bound(m, b) {
      assert m in Kept(a);
      BoundInMore(m, Kept(b), b);
    }
  }

  /** Two capsules whose recomputed ids agree bind the same names to equal values, apart from the three
      local ones. */
  lemma IdentityPinsCapsule(sha: Sha, a: seq<Member>, b: seq<Member>)
    requires WellFormed(Obj(a)) && WellFormed(Obj(b))
    requires JsonDigest(sha, IdentityForm(a)).Some?
    requires JsonDigest(sha, IdentityForm(a)) == JsonDigest(sha, IdentityForm(b))
    requires NoCollision(sha, Hashed(IdentityForm(a)) + Hashed(IdentityForm(b)))
    ensures forall m :: m in a && m.key !in LOCAL_KEYS ==> Bound(m, b)
    ensures forall m :: m in b && m.key !in LOCAL_KEYS ==> Bound(m, a)
  {
    hide *;
    IdentityBinds(sha, a, b);
    assert Hashed(IdentityForm(b)) + Hashed(IdentityForm(a)) == Hashed(IdentityForm(a)) + Hashed(IdentityForm(b));
    IdentityBinds(sha, b, a);
  }

  lemma EqualBinds(ms: seq<Member>, ns: seq<Member>)
    requires Equal(Obj(ms), Obj(ns))
    ensures forall m :: m in ms ==> Bound(m, ns)
  {
    hide Bound;
  }

  lemma BoundInMore(m: Member, ns: seq<Member>, all: seq<Member>)
    requires Bound(m, ns) && forall n :: n in ns ==> n in all
    ensures Bound(m, all)
  {
    var j :| 0 <= j < |ns| && ns[j].key == m.key && Equal(m.value, ns[j].value);
    assert ns[j] in all;
    var k :| 0 <= k < |all| && all[k] == ns[j];
  }
}
