/** What the AT channel writes to the device, tells the handler and knows of its own end, over whole runs. */
module AtEffects {
  import opened Wire
  import opened AtModel
  import opened AtRules

  // ---- what is heard ----

  /** The waits that are heard: up to the first that runs out of time or after which the condition is met, if there is one;
      none if the condition is met at once. */
  lemma {:induction false} HeardExactly(c: Channel, schedule: seq<Wait>) returns (n: nat)
    ensures n <= |schedule| && Heard(c, schedule) == EventsOf(schedule[..n])
    ensures forall m :: 0 <= m < n ==> !Ready(OnEvents(c, EventsOf(schedule[..m])))
    ensures forall m :: 0 <= m < n - 1 ==> !schedule[m].timedOut
    ensures n == |schedule| || Ready(OnEvents(c, EventsOf(schedule[..n]))) || (n > 0 && schedule[n - 1].timedOut)
    decreases |schedule|
  {
    hide OnEvent, Ready;
    assert EventsOf(schedule[..0]) == [] && OnEvents(c, []) == c;
    if Ready(c) || schedule == [] {
      n := 0;
    } else {
      var first, rest := schedule[0].events, schedule[1..];
      assert schedule[..1][0] == schedule[0] && schedule[..1][1..] == [];
      AppendNone(first);
      n := 1;
      if !schedule[0].timedOut {
        var k := HeardExactly(OnEvents(c, first), rest);
        n := k + 1;
        forall m | 0 <= m <= k
          ensures OnEvents(c, EventsOf(schedule[..m + 1])) == OnEvents(OnEvents(c, first), EventsOf(rest[..m]))
          ensures EventsOf(schedule[..m + 1]) == first + EventsOf(rest[..m])
        {
          var front := schedule[..m + 1];
          assert front[0] == schedule[0] && front[1..] == rest[..m];
          OnEventsSplit(c, first, EventsOf(rest[..m]));
        }
        forall m | 0 <= m < n ensures !Ready(OnEvents(c, EventsOf(schedule[..m]))) {
          if m > 0 {
            assert !Ready(OnEvents(OnEvents(c, first), EventsOf(rest[..m - 1])));
          }
        }
        assert forall m :: 0 < m < n - 1 ==> schedule[m] == rest[m - 1];
        assert k > 0 ==> schedule[n - 1] == rest[k - 1];
      }
    }
  }

  // ---- the end of the channel ----

  /** The channel is closed once it has been closed or its input has ended, the latter only if the end is reported; and it
      is open until closed. */
  lemma {:induction false} ClosedExactly(c: Channel, events: seq<Event>)
    ensures var d := OnEvents(c, events);
            && (d.closed <==> c.closed || Close in events || (c.reportsEnd && EndOfInput in events))
            && (d.open <==> c.open && Close !in events)
            && d.reportsEnd == c.reportsEnd && d.proxy == c.proxy
    decreases |events|
  {
    hide OnEvent;
    if events != [] {
      ClosedStep(c, events[0]);
      ClosedExactly(OnEvent(c, events[0]), events[1..]);
      assert events == [events[0]] + events[1..];
    }
  }

  /** Neither closed nor opened. */
  predicate SameEnds(c: Channel, d: Channel) {
    d.closed == c.closed && d.open == c.open && d.reportsEnd == c.reportsEnd && d.proxy == c.proxy
  }

  lemma ReplyKeepsEnds(c: Channel, line: string)
    requires c.pending.Some?
    ensures SameEnds(c, OnOther(c, line)) && forall success :: SameEnds(c, OnFinal(c, line, success))
  {
    hide Keeps;
  }

  lemma ClosedStep(c: Channel, e: Event)
    ensures var d := OnEvent(c, e);
            && (d.closed <==> c.closed || e == Close || (c.reportsEnd && e == EndOfInput))
            && (d.open <==> c.open && e != Close)
            && d.reportsEnd == c.reportsEnd && d.proxy == c.proxy
  {
    if e.Line? && c.pending.Some? {
      ReplyKeepsEnds(c, e.line);
    }
    hide IsFinal, IsSuccess, OnOther, OnFinal;
  }

  // ---- without a command ----

  /** The lines and short messages among the events. */
  function Messages(events: seq<Event>): seq<Event> {
    if events == [] then []
    else (if events[0].Line? || events[0].Sms? then [events[0]] else []) + Messages(events[1..])
  }

  /** Without a command pending every line and short message goes to the handler, in order, and nothing is written. */
  lemma {:induction false} IdleTellsAll(c: Channel, events: seq<Event>)
    requires c.pending.None?
    ensures var d := OnEvents(c, events);
            && d.pending.None? && d.unsolicited == c.unsolicited + Messages(events)
            && d.wire == c.wire && d.raw == c.raw && d.pdu == c.pdu
    decreases |events|
  {
    if events == [] {
      AppendNone(c.unsolicited);
    } else {
      var e := events[0];
      IdleTellsAll(OnEvent(c, e), events[1..]);
      AppendNone(Messages(events[1..]));
      AppendNone(c.unsolicited);
      AppendAssoc(c.unsolicited, if e.Line? || e.Sms? then [e] else [], Messages(events[1..]));
    }
  }

  // ---- the wire ----

  /** What answers the prompts among the events, while the channel is alive: the raw data to the first CONNECT, the short
      message and Ctrl-Z to the first "> ". */
  function PromptData(alive: bool, reportsEnd: bool, raw: Option<string>, pdu: Option<string>, events: seq<Event>)
    : seq<string>
    decreases |events|
  {
    if events == [] then []
    else
      var rest := events[1..];
      match events[0]
      case Close => PromptData(false, reportsEnd, raw, pdu, rest)
      case EndOfInput => PromptData(alive && !reportsEnd, reportsEnd, raw, pdu, rest)
      case Sms(_, _) => PromptData(alive, reportsEnd, raw, pdu, rest)
      case Line(line) =>
        if raw.Some? && line == "CONNECT" then
          (if alive then [raw.value] else []) + PromptData(alive, reportsEnd, None, pdu, rest)
        else if pdu.Some? && line == "> " then
          (if alive then [pdu.value + [26 as char]] else []) + PromptData(alive, reportsEnd, raw, None, rest)
        else PromptData(alive, reportsEnd, raw, pdu, rest)
  }

  function Prompted(c: Channel, events: seq<Event>): seq<string> {
    PromptData(c.open && !c.closed, c.reportsEnd, c.raw, c.pdu, events)
  }

  lemma NoPromptWire(c: Channel, e: Event)
    requires c.pending.Some? && !IsPrompt(c, e)
    ensures var d := OnEvent(c, e);
            d.wire == c.wire && d.raw == c.raw && d.pdu == c.pdu && d.pending.Some?
  {
    hide IsFinal, IsSuccess, Keeps;
  }

  lemma PromptWire(c: Channel, e: Event)
    requires c.pending.Some? && IsPrompt(c, e)
    ensures var d := OnEvent(c, e);
            var alive := c.open && !c.closed;
            && d.pending.Some?
            && if SendsRaw(c, e.line) then
                 d.raw.None? && d.pdu == c.pdu && d.wire == c.wire + if alive then [c.raw.value] else []
               else
                 d.raw == c.raw && d.pdu.None? && d.wire == c.wire + if alive then [c.pdu.value + [26 as char]] else []
  {
    PromptIsNotFinal();
    assert CTRL_Z == [26 as char];
    AppendNone(c.wire);
    hide IsFinal;
  }

  /** While a command is pending exactly the prompts are answered. */
  lemma {:induction false} PromptsAnswered(c: Channel, events: seq<Event>)
    requires c.pending.Some?
    ensures OnEvents(c, events).wire == c.wire + Prompted(c, events)
    decreases |events|
  {
    hide OnEvent;
    if events == [] {
      AppendNone(c.wire);
    } else {
      var e, rest := events[0], events[1..];
      ClosedStep(c, e);
      var next := OnEvent(c, e);
      if IsPrompt(c, e) {
        PromptWire(c, e);
        PromptsAnswered(next, rest);
        AppendNone(c.wire);
        AppendNone(Prompted(next, rest));
        var data := if SendsRaw(c, e.line) then c.raw.value else c.pdu.value + [26 as char];
        AppendAssoc(c.wire, if c.open && !c.closed then [data] else [], Prompted(next, rest));
      } else {
        NoPromptWire(c, e);
        PromptsAnswered(next, rest);
      }
    }
  }

  /** What a command writes: its text with a carriage return, and the answers to the prompts heard during it. */
  function Writes(c: Channel, q: Command, fails: bool, schedule: seq<Wait>): seq<string> {
    if c.pending.Some? || (q.text.Some? && (!c.open || c.closed || fails)) then []
    else
      (if q.text.Some? then [q.text.value + [13 as char]] else [])
      + PromptData(c.open && !c.closed, c.reportsEnd, c.raw, q.pdu, Heard(Begun(c, q), schedule))
  }

  /** The channel when the wait loop of a command begins: the text written, and an empty response pending. */
  lemma BegunExactly(c: Channel, q: Command)
    ensures var pending := Pending(q.kind, q.prefix, Response(false, None, []));
            Begun(c, q)
            == Channel(c.proxy, c.reportsEnd, c.open, c.closed, Some(pending), q.pdu, c.raw, c.unsolicited,
                       c.wire + if q.text.Some? then [q.text.value + [13 as char]] else [])
  {
    AppendNone(c.wire);
    assert "\r" == [13 as char];
  }

  /** The channel after a command: as the events heard leave it, but with nothing pending. */
  lemma {:induction false} CommandLeaves(c: Channel, q: Command, fails: bool, schedule: seq<Wait>)
    ensures var written := c.pending.None? && (q.text.Some? ==> c.open && !c.closed && !fails);
            var last := if written then OnEvents(Begun(c, q), Heard(Begun(c, q), schedule)) else c;
            Send(c, q, fails, schedule).0 == last.(pending := None, pdu := None)
  {
    AwaitIsHeard(Begun(c, q), schedule);
    hide Await, Heard, OnEvents;
  }

  lemma CommandWrites(c: Channel, q: Command, fails: bool, schedule: seq<Wait>)
    ensures Send(c, q, fails, schedule).0.wire == c.wire + Writes(c, q, fails, schedule)
  {
    AppendNone(c.wire);
    CommandLeaves(c, q, fails, schedule);
    BegunExactly(c, q);
    var events := Heard(Begun(c, q), schedule);
    PromptsAnswered(Begun(c, q), events);
    var text := if q.text.Some? then [q.text.value + [13 as char]] else [];
    AppendAssoc(c.wire, text, Prompted(Begun(c, q), events));
    hide Send, Heard, OnEvents, PromptData, Begun;
  }

  function After(c: Channel, t: Turn): Channel {
    match t
    case Between(e) => OnEvent(c, e)
    case Issue(q, fails, schedule) => Send(c, q, fails, schedule).0
  }

  function AfterAll(c: Channel, turns: seq<Turn>): Channel
    decreases |turns|
  {
    if turns == [] then c else AfterAll(After(c, turns[0]), turns[1..])
  }

  /** The writes of a run of commands, one after another. */
  function AllWrites(c: Channel, turns: seq<Turn>): seq<string>
    decreases |turns|
  {
    if turns == [] then []
    else
      (match turns[0]
       case Between(_) => []
       case Issue(q, fails, schedule) => Writes(c, q, fails, schedule))
      + AllWrites(After(c, turns[0]), turns[1..])
  }

  /** Over every run of one command thread the wire carries exactly the texts of the commands written, each with its
      carriage return, and behind each what answered its prompts. */
  lemma {:induction false} WireExactly(c: Channel, turns: seq<Turn>)
    requires c.pending.None?
    ensures AfterAll(c, turns).wire == c.wire + AllWrites(c, turns) && AfterAll(c, turns).pending.None?
    decreases |turns|
  {
    hide OnEvent, Send, Writes;
    AppendNone(c.wire);
    if turns != [] {
      var next := After(c, turns[0]);
      match turns[0]
      case Between(e) =>
        OneEvent(c, e);
        WireExactly(next, turns[1..]);
        AppendNone(AllWrites(next, turns[1..]));
      case Issue(q, fails, schedule) =>
        CommandWrites(c, q, fails, schedule);
        ResultExactly(c, q, fails, schedule);
        WireExactly(next, turns[1..]);
        AppendAssoc(c.wire, Writes(c, q, fails, schedule), AllWrites(next, turns[1..]));
    }
  }

  lemma OneEvent(c: Channel, e: Event)
    requires c.pending.None?
    ensures OnEvent(c, e).pending.None? && OnEvent(c, e).wire == c.wire
  {
    IdleTellsAll(c, [e]);
    assert OnEvents(c, [e]) == OnEvent(c, e);
  }
}
