/** The LiteLLM reporter: calls paired with results. */
module Reporter {
  /* Hooks fire in any order; each result is paired with its call all the same. */

  import opened Bytes

  type Text = seq<char>

  /** One input of a hook: a message of the request, or a tool call of the response. */
  datatype Input =
    | Message(tool: bool, id: Text, content: Text)
    | Call(id: Text, name: Text, arguments: Text)

  datatype Event = ToolCall(id: Text, name: Text, arguments: Text) | ToolResult(id: Text, content: Text)

  datatype Memory = Memory(pending: set<Text>, seen: set<Text>, early: map<Text, Text>)

  const EMPTY: Memory := Memory({}, {}, map[])

  /** What one input does to the memory, and what it sends. */
  function Take(m: Memory, x: Input): (Memory, seq<Event>) {
    match x
    case Message(tool, id, content) =>
      if !tool then (m, [])
      else if id in m.pending then (m.(pending := m.pending - {id}), [ToolResult(id, content)])
      else if id != "" && id !in m.seen && id !in m.early then (m.(early := m.early[id := content]), [])
      else (m, [])
    case Call(id, name, arguments) =>
      if id == "" || name == "" || id in m.seen then (m, [])
      else
        var m1 := m.(seen := m.seen + {id});
        if id in m.early
        then (m1.(early := m.early - {id}), [ToolCall(id, name, arguments), ToolResult(id, m.early[id])])
        else (m1.(pending := m.pending + {id}), [ToolCall(id, name, arguments)])
  }

  function TakeAll(m: Memory, xs: seq<Input>): (Memory, seq<Event>) {
    if xs == [] then (m, [])
    else
      var (m1, sent) := TakeAll(m, xs[..|xs| - 1]);
      var (m2, more) := Take(m1, xs[|xs| - 1]);
      (m2, sent + more)
  }

  /** The reporter: its memory, updated under its lock by every hook. */
  class ReporterObject {
    var pending: set<Text>
    var seen: set<Text>
    var early: map<Text, Text>

    function State(): Memory reads this { Memory(pending, seen, early) }

    constructor ()
      ensures State() == EMPTY
    {
      pending, seen, early := {}, {}, map[];
    }

    /** One completion: the results its request carries, then the calls its response asks for. */
    method Observe(messages: seq<Input>, calls: seq<Input>) returns (events: seq<Event>)
      requires forall i :: 0 <= i < |messages| ==> messages[i].Message?
      requires forall i :: 0 <= i < |calls| ==> calls[i].Call?
      modifies this
      ensures (State(), events) == TakeAll(old(State()), messages + calls)
    {
      events := [];
      ghost var was, all := State(), messages + calls;
      for i := 0 to |messages|
        invariant (State(), events) == TakeAll(was, messages[..i])
      {
        hide TakeAll;
        TakeSnoc(was, messages[..i], messages[i]);
        assert messages[..i + 1] == messages[..i] + [messages[i]];
        var more := TakeMessage(messages[i]);
        events := events + more;
      }
      assert messages[..|messages|] == messages && messages + calls[..0] == messages;
      for i := 0 to |calls|
        invariant (State(), events) == TakeAll(was, messages + calls[..i])
      {
        hide TakeAll;
        TakeSnoc(was, messages + calls[..i], calls[i]);
        assert messages + calls[..i + 1] == messages + calls[..i] + [calls[i]];
        var more := TakeCall(calls[i]);
        events := events + more;
      }
      assert calls[..|calls|] == calls;
    }

    /** A message of the request: a pending call's result, or one that came early, or neither. */
    method TakeMessage(m: Input) returns (sent: seq<Event>)
      requires m.Message?
      modifies this
      ensures (State(), sent) == Take(old(State()), m)
    {
      sent := [];
      if !m.tool {
        return;
      }
      if m.id in pending {
        pending := pending - {m.id};
        sent := [ToolResult(m.id, m.content)];
      } else if m.id != "" && m.id !in seen && m.id !in early {
        early := early[m.id := m.content];
      }
    }

    /** A call of the response: reported once, with a result that came early right after it. */
    method TakeCall(c: Input) returns (sent: seq<Event>)
      requires c.Call?
      modifies this
      ensures (State(), sent) == Take(old(State()), c)
    {
      sent := [];
      if c.id == "" || c.name == "" || c.id in seen {
        return;
      }
      seen := seen + {c.id};
      sent := [ToolCall(c.id, c.name, c.arguments)];
      if c.id in early {
        var content := early[c.id];
        early := early - {c.id};
        sent := sent + [ToolResult(c.id, content)];
        assert sent == [ToolCall(c.id, c.name, c.arguments), ToolResult(c.id, content)];
      } else {
        pending := pending + {c.id};
      }
    }
  }

  // ---------- what is sent, said of the inputs alone ----------

  /** The first named call with an id. */
  function FirstCall(xs: seq<Input>, id: Text): Option<Event> {
    if xs == [] then None
    else
      var before, x := FirstCall(xs[..|xs| - 1], id), xs[|xs| - 1];
      if before.Some? then before
      else if x.Call? && x.id == id && x.name != "" then Some(ToolCall(id, x.name, x.arguments))
      else None
  }

  /** The content of the first tool message for an id. */
  function FirstContent(xs: seq<Input>, id: Text): Option<Text> {
    if xs == [] then None
    else
      var before, x := FirstContent(xs[..|xs| - 1], id), xs[|xs| - 1];
      if before.Some? then before
      else if x.Message? && x.tool && x.id == id then Some(x.content)
      else None
  }

  function About(events: seq<Event>, id: Text): seq<Event> {
    if events == [] then []
    else About(events[..|events| - 1], id) + (if events[|events| - 1].id == id then [events[|events| - 1]] else [])
  }

  lemma {:induction false} AboutJoins(a: seq<Event>, b: seq<Event>, id: Text)
    ensures About(a + b, id) == About(a, id) + About(b, id)
    decreases |b|
  {
    if b == [] {
      assert a + b == a;
      assert About(a, id) + [] == About(a, id);
    } else {
      AboutJoins(a, b[..|b| - 1], id);
      assert (a + b)[..|a + b| - 1] == a + b[..|b| - 1];
    }
  }

  /** The call once it was seen, then its result once both were. */
  function Expected(xs: seq<Input>, id: Text): seq<Event> {
    if id == "" || FirstCall(xs, id).None? then []
    else
      [FirstCall(xs, id).value] +
      (if FirstContent(xs, id).None? then [] else [ToolResult(id, FirstContent(xs, id).value)])
  }

  /** What the memory holds of one id after `xs`. */
  predicate Remembers(m: Memory, xs: seq<Input>, id: Text) {
    && (id in m.seen <==> id != "" && FirstCall(xs, id).Some?)
    && (id in m.pending <==> id in m.seen && FirstContent(xs, id).None?)
    && (id in m.early <==> id != "" && FirstCall(xs, id).None? && FirstContent(xs, id).Some?)
    && (id in m.early ==> m.early[id] == FirstContent(xs, id).value)
  }

  lemma FirstsSnoc(xs: seq<Input>, x: Input, id: Text)
    ensures FirstCall(xs + [x], id) ==
      if FirstCall(xs, id).Some? then FirstCall(xs, id)
      else if x.Call? && x.id == id && x.name != "" then Some(ToolCall(id, x.name, x.arguments)) else None
    ensures FirstContent(xs + [x], id) ==
      if FirstContent(xs, id).Some? then FirstContent(xs, id)
      else if x.Message? && x.tool && x.id == id then Some(x.content) else None
  {
    assert (xs + [x])[..|xs|] == xs;
  }

  lemma OtherId(m: Memory, xs: seq<Input>, x: Input, id: Text)
    requires Remembers(m, xs, id) && x.id != id
    ensures Remembers(Take(m, x).0, xs + [x], id) && Expected(xs + [x], id) == Expected(xs, id)
    ensures About(Take(m, x).1, id) == []
  {
    FirstsSnoc(xs, x, id);
    AboutFew(Take(m, x).1, id);
    hide FirstCall, FirstContent, About;
  }

  lemma MessageStep(m: Memory, xs: seq<Input>, x: Input)
    requires Remembers(m, xs, x.id) && x.Message?
    ensures Remembers(Take(m, x).0, xs + [x], x.id)
    ensures Expected(xs + [x], x.id) == Expected(xs, x.id) + About(Take(m, x).1, x.id)
  {
    FirstsSnoc(xs, x, x.id);
    AboutFew(Take(m, x).1, x.id);
    hide FirstCall, FirstContent, About;
  }

  lemma CallStep(m: Memory, xs: seq<Input>, x: Input)
    requires Remembers(m, xs, x.id) && x.Call?
    ensures Remembers(Take(m, x).0, xs + [x], x.id)
    ensures Expected(xs + [x], x.id) == Expected(xs, x.id) + About(Take(m, x).1, x.id)
  {
    FirstsSnoc(xs, x, x.id);
    AboutFew(Take(m, x).1, x.id);
    hide FirstCall, FirstContent, About;
  }

  lemma OneStep(m: Memory, xs: seq<Input>, sent: seq<Event>, x: Input, id: Text)
    requires Remembers(m, xs, id) && About(sent, id) == Expected(xs, id)
    ensures Remembers(Take(m, x).0, xs + [x], id)
    ensures About(sent, id) + About(Take(m, x).1, id) == Expected(xs + [x], id)
  {
    hide *;
    if x.id != id {
      OtherId(m, xs, x, id);
    } else if x.Message? {
      MessageStep(m, xs, x);
    } else {
      CallStep(m, xs, x);
    }
  }

  lemma AboutFew(events: seq<Event>, id: Text)
    ensures events == [] ==> About(events, id) == []
    ensures |events| == 1 ==> About(events, id) == if events[0].id == id then events else []
    ensures |events| == 2 && events[0].id == events[1].id ==>
      About(events, id) == if events[0].id == id then events else []
  {
    if |events| == 2 {
      var front := events[..1];
      assert front[..0] == [];
      assert events == [events[0], events[1]];
    }
  }

  /** Over any sequence of observations, each id gets its call at most once and its result at most
      once, the result never before the call; a result is sent exactly when both a named call and a
      tool message were observed, and carries the first message's content. */
  lemma {:induction false} ReportsArePaired(xs: seq<Input>, id: Text)
    ensures Remembers(TakeAll(EMPTY, xs).0, xs, id)
    ensures About(TakeAll(EMPTY, xs).1, id) == Expected(xs, id)
    decreases |xs|
  {
    if xs != [] {
      var before, x := xs[..|xs| - 1], xs[|xs| - 1];
      ReportsArePaired(before, id);
      var (m, sent) := TakeAll(EMPTY, before);
      OneStep(m, before, sent, x, id);
      AboutJoins(sent, Take(m, x).1, id);
      Snoc(xs);
      hide Take, Remembers, Expected, FirstCall, FirstContent, About;
    }
  }

  lemma TakeSnoc(m: Memory, xs: seq<Input>, x: Input)
    ensures TakeAll(m, xs + [x]) ==
      (var (m1, sent) := TakeAll(m, xs); var (m2, more) := Take(m1, x); (m2, sent + more))
  {
    assert (xs + [x])[..|xs|] == xs;
  }

  lemma {:induction false} TakeJoins(m: Memory, xs: seq<Input>, ys: seq<Input>)
    ensures TakeAll(m, xs + ys) ==
      (var (m1, sent) := TakeAll(m, xs); var (m2, more) := TakeAll(m1, ys); (m2, sent + more))
    decreases |ys|
  {
    hide Take;
    var (m1, sent) := TakeAll(m, xs);
    if ys == [] {
      assert xs + ys == xs;
      assert sent + [] == sent;
    } else {
      var front, y := ys[..|ys| - 1], ys[|ys| - 1];
      TakeJoins(m, xs, front);
      Snoc(ys);
      Assoc(xs, front, [y]);
      TakeSnoc(m, xs + front, y);
      TakeSnoc(m1, front, y);
      var (m2, more) := TakeAll(m1, front);
      Assoc(sent, more, Take(m2, y).1);
    }
  }

  /** Hook order does not matter: two histories that agree, id by id, on the first named call and on
      the first tool message send the same events about every id. */
  lemma OrderDoesNotMatter(xs: seq<Input>, ys: seq<Input>, id: Text)
    requires FirstCall(xs, id) == FirstCall(ys, id) && FirstContent(xs, id) == FirstContent(ys, id)
    ensures About(TakeAll(EMPTY, xs).1, id) == About(TakeAll(EMPTY, ys).1, id)
  {
    ReportsArePaired(xs, id);
    ReportsArePaired(ys, id);
    hide TakeAll, About, FirstCall, FirstContent;
  }

  /** A completion observed on its own, and the next, is the two input lists one after the other. */
  lemma ObservationsJoin(first: seq<Input>, second: seq<Input>, id: Text)
    ensures var (m, sent) := TakeAll(EMPTY, first);
      About(sent, id) + About(TakeAll(m, second).1, id) == Expected(first + second, id)
  {
    var (m, sent) := TakeAll(EMPTY, first);
    TakeJoins(EMPTY, first, second);
    AboutJoins(sent, TakeAll(m, second).1, id);
    ReportsArePaired(first + second, id);
  }
}
