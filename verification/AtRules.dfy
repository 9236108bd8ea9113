/** What the AT channel promises its callers, for every order of lines, end of input, closing and time-out. */
module AtRules {
  import opened Wire
  import opened AtLines
  import opened AtModel

  // ---- the reference: which lines a command is given ----

  predicate Matches(kind: Kind, prefix: string, line: string) {
    match kind
    case NoResult => false
    case Numeric => StartsWithDigit(line)
    case SingleLine => StartsWith(line, prefix)
    case MultiLine => StartsWith(line, prefix)
  }

  function Picked(kind: Kind, prefix: string, lines: seq<string>): seq<string> {
    if lines == [] then []
    else (if Matches(kind, prefix, lines[0]) then [lines[0]] else []) + Picked(kind, prefix, lines[1..])
  }

  /** Of the matching lines a multi-line command is given all, any other only the first. */
  function Given(kind: Kind, prefix: string, kept: nat, lines: seq<string>): seq<string> {
    var picked := Picked(kind, prefix, lines);
    if kind.MultiLine? || picked == [] then picked else if kept == 0 then picked[..1] else []
  }

  /** The lines that end no command. */
  function Plain(events: seq<Event>): seq<string> {
    if events == [] then []
    else (if events[0].Line? && !IsFinal(events[0].line) then [events[0].line] else []) + Plain(events[1..])
  }

  function LastFinal(events: seq<Event>): Option<string> {
    if events == [] then None
    else if LastFinal(events[1..]).Some? then LastFinal(events[1..])
    else if events[0].Line? && IsFinal(events[0].line) then Some(events[0].line)
    else None
  }

  /** The lines and short messages that go to the command or to the handler; a proxy passes final lines on as well. */
  function Told(proxy: bool, events: seq<Event>): seq<Event> {
    if events == [] then []
    else
      (if events[0].Sms? || (events[0].Line? && (proxy || !IsFinal(events[0].line))) then [events[0]] else [])
      + Told(proxy, events[1..])
  }

  function AsLines(lines: seq<string>): seq<Event> {
    if lines == [] then [] else [Line(lines[0])] + AsLines(lines[1..])
  }

  /** s is a shuffle of a and b that keeps the order of each. */
  predicate Shuffle(s: seq<Event>, a: seq<Event>, b: seq<Event>) {
    if s == [] then a == [] && b == []
    else
      || (a != [] && a[0] == s[0] && Shuffle(s[1..], a[1..], b))
      || (b != [] && b[0] == s[0] && Shuffle(s[1..], a, b[1..]))
  }

  /** The response after these events. */
  function Answer(p: Pending, events: seq<Event>): Response {
    var r, final := p.response, LastFinal(events);
    Response(
      if final.Some? then IsSuccess(final.value) else r.success,
      if final.Some? then final else r.final,
      r.lines + Given(p.kind, p.prefix, |r.lines|, Plain(events)))
  }

  predicate Simple(c: Channel) {
    c.pending.Some? && c.raw.None? && c.pdu.None?
  }

  lemma GivenStep(kind: Kind, prefix: string, kept: seq<string>, line: string, rest: seq<string>)
    ensures Given(kind, prefix, |kept|, [line] + rest)
         == (if Keeps(kind, prefix, kept, line) then [line] + Given(kind, prefix, |kept| + 1, rest)
             else Given(kind, prefix, |kept|, rest))
  {
    hide StartsWith;
    var lines := [line] + rest;
    assert lines[0] == line && lines[1..] == rest;
    var picked := Picked(kind, prefix, rest);
    AppendNone(picked);
    if Matches(kind, prefix, line) {
      assert ([line] + picked)[..1] == [line];
      AppendNone([line]);
    }
  }

  /** A line that ends the command, or an event that is no line, leaves the kept lines alone. */
  lemma NotPlainStep(c: Channel, e: Event)
    requires Simple(c) && !(e.Line? && !IsFinal(e.line))
    ensures var r := c.pending.value.response;
            OnEvent(c, e).pending == Some(c.pending.value.(response :=
              if e.Line? then r.(success := IsSuccess(e.line), final := Some(e.line)) else r))
    ensures Simple(OnEvent(c, e)) && OnEvent(c, e).proxy == c.proxy
  {
    hide IsFinal, IsSuccess;
  }

  lemma PlainStep(c: Channel, line: string)
    requires Simple(c) && !IsFinal(line)
    ensures var p := c.pending.value;
            OnEvent(c, Line(line)).pending == Some(p.(response :=
              if Keeps(p.kind, p.prefix, p.response.lines, line)
              then p.response.(lines := p.response.lines + [line]) else p.response))
    ensures Simple(OnEvent(c, Line(line))) && OnEvent(c, Line(line)).proxy == c.proxy
  {
    hide IsFinal, IsSuccess, Keeps;
  }

  lemma AnswerStep(c: Channel, events: seq<Event>)
    requires Simple(c) && events != []
    ensures Simple(OnEvent(c, events[0]))
    ensures OnEvent(c, events[0]).proxy == c.proxy
    ensures var p1 := OnEvent(c, events[0]).pending.value;
            p1 == c.pending.value.(response := p1.response) && Answer(p1, events[1..]) == Answer(c.pending.value, events)
  {
    hide IsSuccess, Keeps, Picked, Given, OnEvent;
    var p := c.pending.value;
    var kept := p.response.lines;
    var e, rest := events[0], events[1..];
    AppendNone(Plain(rest));
    if e.Line? && !IsFinal(e.line) {
      PlainStep(c, e.line);
      GivenStep(p.kind, p.prefix, kept, e.line, Plain(rest));
      AppendAssoc(kept, [e.line], Given(p.kind, p.prefix, |kept| + 1, Plain(rest)));
    } else {
      NotPlainStep(c, e);
    }
  }

  lemma {:induction false} SimplyAnswered(c: Channel, events: seq<Event>)
    requires Simple(c)
    ensures Simple(OnEvents(c, events))
    ensures OnEvents(c, events).pending == Some(c.pending.value.(response := Answer(c.pending.value, events)))
    decreases |events|
  {
    hide OnEvent, IsFinal, IsSuccess, Matches;
    if events == [] {
      AppendNone(c.pending.value.response.lines);
    } else {
      hide Answer;
      AnswerStep(c, events);
      SimplyAnswered(OnEvent(c, events[0]), events[1..]);
    }
  }

  /** Whether the channel passes this event on at once. */
  predicate PassesOn(c: Channel, e: Event)
    requires c.pending.Some?
  {
    match e
    case Line(line) =>
      if IsFinal(line) then c.proxy
      else !Keeps(c.pending.value.kind, c.pending.value.prefix, c.pending.value.response.lines, line)
    case Sms(_, _) => true
    case _ => false
  }

  lemma PassedOn(c: Channel, e: Event)
    requires Simple(c)
    ensures OnEvent(c, e).unsolicited == c.unsolicited + (if PassesOn(c, e) then [e] else [])
  {
    hide IsFinal, IsSuccess, Keeps;
  }

  lemma {:induction false} ShuffleStep(e: Event, s: seq<Event>, a: seq<Event>, b: seq<Event>)
    requires Shuffle(s, a, b)
    ensures Shuffle([e] + s, [e] + a, b) && Shuffle([e] + s, a, [e] + b)
  {
    var s1, a1, b1 := [e] + s, [e] + a, [e] + b;
    assert s1[0] == a1[0] == b1[0] == e && s1[1..] == s && a1[1..] == a && b1[1..] == b;
  }

  function Kept(p: Pending, events: seq<Event>): seq<string> {
    Given(p.kind, p.prefix, |p.response.lines|, Plain(events))
  }

  lemma KeptStep(c: Channel, events: seq<Event>)
    requires Simple(c) && events != []
    ensures OnEvent(c, events[0]).pending.Some?
    ensures Kept(c.pending.value, events)
         == (if events[0].Line? && !IsFinal(events[0].line) && !PassesOn(c, events[0]) then [events[0].line] else [])
            + Kept(OnEvent(c, events[0]).pending.value, events[1..])
  {
    hide IsSuccess, Keeps, Picked, Given, OnEvent;
    var p := c.pending.value;
    var e, rest := events[0], events[1..];
    AppendNone(Plain(rest));
    AppendNone(Given(p.kind, p.prefix, |p.response.lines|, Plain(rest)));
    if e.Line? && !IsFinal(e.line) {
      PlainStep(c, e.line);
      GivenStep(p.kind, p.prefix, p.response.lines, e.line, Plain(rest));
    } else {
      NotPlainStep(c, e);
    }
  }

  lemma {:induction false} SimplyDivided(c: Channel, events: seq<Event>) returns (others: seq<Event>)
    requires Simple(c)
    ensures OnEvents(c, events).unsolicited == c.unsolicited + others
    ensures Shuffle(Told(c.proxy, events), AsLines(Kept(c.pending.value, events)), others)
    decreases |events|
  {
    hide OnEvent, IsFinal, IsSuccess, Keeps, Matches, Given;
    if events == [] {
      others := [];
      AppendNone(c.unsolicited);
      assert Plain([]) == [];
      KeptNone(c.pending.value);
    } else {
      hide Shuffle, Answer;
      var e, rest := events[0], events[1..];
      var next := OnEvent(c, e);
      AnswerStep(c, events);
      PassedOn(c, e);
      KeptStep(c, events);
      var tail := SimplyDivided(next, rest);
      var kept := Kept(next.pending.value, rest);
      hide Kept;
      AppendNone(Told(c.proxy, rest));
      AppendNone(kept);
      AppendNone(c.unsolicited);
      if PassesOn(c, e) {
        others := [e] + tail;
        AppendAssoc(c.unsolicited, [e], tail);
        ShuffleStep(e, Told(c.proxy, rest), AsLines(kept), tail);
      } else {
        others := tail;
        if e.Line? && !IsFinal(e.line) {
          var lines := [e.line] + kept;
          assert lines[0] == e.line && lines[1..] == kept;
          ShuffleStep(e, Told(c.proxy, rest), AsLines(kept), tail);
        }
      }
    }
  }

  lemma KeptNone(p: Pending)
    ensures Kept(p, []) == []
  {
  }

  // ---- prompts ----

  /** The events without the prompts they answer: one CONNECT when there is raw data to send, one "> " when there is a
      short message to send. */
  function Unprompted(raw: bool, pdu: bool, events: seq<Event>): seq<Event> {
    if events == [] then []
    else if raw && events[0] == Line("CONNECT") then Unprompted(false, pdu, events[1..])
    else if pdu && events[0] == Line("> ") then Unprompted(raw, false, events[1..])
    else [events[0]] + Unprompted(raw, pdu, events[1..])
  }

  /** The same channel but for what it has to send and has sent. */
  predicate SameListening(c: Channel, d: Channel) {
    d == c.(raw := None, pdu := None, wire := d.wire)
  }

  lemma PromptIsNotFinal()
    ensures !IsFinal("> ")
  {
    var line := "> ";
    forall i | 0 <= i < |SUCCESS| ensures !StartsWith(line, SUCCESS[i]) {
      assert SUCCESS[i][0] != line[0];
    }
    forall i | 0 <= i < |ERRORS| ensures !StartsWith(line, ERRORS[i]) {
      assert ERRORS[i][0] != line[0];
    }
  }

  predicate IsPrompt(c: Channel, e: Event) {
    e.Line? && (SendsRaw(c, e.line) || SendsPdu(c, e.line))
  }

  lemma PromptStep(c: Channel, d: Channel, e: Event)
    requires c.pending.Some? && SameListening(c, d) && IsPrompt(c, e)
    ensures SameListening(OnEvent(c, e), d) && OnEvent(c, e).pending.Some?
    ensures SendsRaw(c, e.line) ==> OnEvent(c, e).raw.None? && OnEvent(c, e).pdu == c.pdu
    ensures !SendsRaw(c, e.line) ==> OnEvent(c, e).raw == c.raw && OnEvent(c, e).pdu.None?
  {
    PromptIsNotFinal();
    hide IsFinal;
  }

  /** Both listen on in the same way, with the same left to send. */
  predicate ListenOn(c: Channel, d: Channel, next: Channel, after: Channel) {
    SameListening(next, after) && next.pending.Some? && next.raw == c.raw && next.pdu == c.pdu
  }

  lemma FinalStep(c: Channel, d: Channel, line: string, success: bool)
    requires c.pending.Some? && SameListening(c, d)
    ensures ListenOn(c, d, OnFinal(c, line, success), OnFinal(d, line, success))
  {
  }

  lemma OtherStep(c: Channel, d: Channel, line: string)
    requires c.pending.Some? && SameListening(c, d)
    ensures ListenOn(c, d, OnOther(c, line), OnOther(d, line))
  {
    hide Keeps;
  }

  lemma NoPromptStep(c: Channel, d: Channel, e: Event)
    requires c.pending.Some? && SameListening(c, d) && !IsPrompt(c, e)
    ensures ListenOn(c, d, OnEvent(c, e), OnEvent(d, e))
  {
    hide IsFinal, IsSuccess;
    if e.Line? {
      FinalStep(c, d, e.line, IsSuccess(e.line));
      OtherStep(c, d, e.line);
      hide OnFinal, OnOther;
    }
  }

  lemma {:induction false} PromptsApart(c: Channel, d: Channel, events: seq<Event>)
    requires c.pending.Some? && SameListening(c, d)
    ensures SameListening(OnEvents(c, events), OnEvents(d, Unprompted(c.raw.Some?, c.pdu.Some?, events)))
    decreases |events|
  {
    hide OnEvent, SameListening;
    if events != [] {
      var e, rest := events[0], events[1..];
      if IsPrompt(c, e) {
        PromptStep(c, d, e);
        PromptsApart(OnEvent(c, e), d, rest);
      } else {
        NoPromptStep(c, d, e);
        PromptsApart(OnEvent(c, e), OnEvent(d, e), rest);
      }
    }
  }

  /** What the channel listens to. */
  function Listened(c: Channel, events: seq<Event>): seq<Event> {
    Unprompted(c.raw.Some?, c.pdu.Some?, events)
  }

  lemma {:induction false} ListensSimply(c: Channel, events: seq<Event>)
    requires c.pending.Some?
    ensures var d := c.(raw := None, pdu := None);
            Simple(d) && SameListening(OnEvents(c, events), OnEvents(d, Listened(c, events)))
  {
    PromptsApart(c, c.(raw := None, pdu := None), events);
  }

  /** Over any events: which lines the command keeps is what its kind and prefix dictate, and the last final line is its
      result. */
  lemma {:induction false} Answered(c: Channel, events: seq<Event>)
    requires c.pending.Some?
    ensures OnEvents(c, events).pending
         == Some(c.pending.value.(response := Answer(c.pending.value, Listened(c, events))))
  {
    hide OnEvents, Answer, Unprompted;
    ListensSimply(c, events);
    SimplyAnswered(c.(raw := None, pdu := None), Listened(c, events));
  }

  /** Every line and short message goes to the command or to the handler, to one of them, and neither loses the order. */
  lemma Divided(c: Channel, events: seq<Event>) returns (others: seq<Event>)
    requires c.pending.Some?
    ensures OnEvents(c, events).unsolicited == c.unsolicited + others
    ensures Shuffle(Told(c.proxy, Listened(c, events)), AsLines(Kept(c.pending.value, Listened(c, events))), others)
  {
    hide OnEvents, Answer, Unprompted, Shuffle, Told, Kept;
    ListensSimply(c, events);
    others := SimplyDivided(c.(raw := None, pdu := None), Listened(c, events));
  }

  // ---- the wait loop ----

  lemma {:induction false} OnEventsSplit(c: Channel, a: seq<Event>, b: seq<Event>)
    ensures OnEvents(c, a + b) == OnEvents(OnEvents(c, a), b)
    decreases |a|
  {
    hide OnEvent;
    if a == [] {
      AppendNone(b);
    } else {
      assert (a + b)[0] == a[0] && (a + b)[1..] == a[1..] + b;
      OnEventsSplit(OnEvent(c, a[0]), a[1..], b);
    }
  }

  lemma {:induction false} AwaitIsHeard(c: Channel, schedule: seq<Wait>)
    ensures Await(c, schedule).0 == OnEvents(c, Heard(c, schedule))
    decreases |schedule|
  {
    hide OnEvent;
    if !Ready(c) && schedule != [] && !schedule[0].timedOut {
      var next := OnEvents(c, schedule[0].events);
      AwaitIsHeard(next, schedule[1..]);
      OnEventsSplit(c, schedule[0].events, Heard(next, schedule[1..]));
    }
  }

  function EventsOf(schedule: seq<Wait>): seq<Event> {
    if schedule == [] then [] else schedule[0].events + EventsOf(schedule[1..])
  }

  /** After the first n waits, none of which ran out of time, the loop's condition is met. */
  predicate ReadyAfter(c: Channel, schedule: seq<Wait>, n: nat)
    requires n <= |schedule|
  {
    && (forall i :: 0 <= i < n ==> !schedule[i].timedOut)
    && Ready(OnEvents(c, EventsOf(schedule[..n])))
  }

  lemma {:induction false} ReadyAfterStep(c: Channel, schedule: seq<Wait>, n: nat)
    requires 0 < n <= |schedule|
    ensures ReadyAfter(c, schedule, n)
       <==> !schedule[0].timedOut && ReadyAfter(OnEvents(c, schedule[0].events), schedule[1..], n - 1)
  {
    var front, rest := schedule[..n], schedule[1..];
    assert front[0] == schedule[0] && front[1..] == rest[..n - 1];
    OnEventsSplit(c, schedule[0].events, EventsOf(rest[..n - 1]));
    assert forall i :: 0 < i < n ==> schedule[i] == rest[i - 1];
    assert forall i :: 0 <= i < n - 1 ==> rest[i] == schedule[i + 1];
  }

  /** The wait loop ends by its condition exactly when the condition is met at some wake before the first time-out. */
  lemma {:induction false} WokenExactly(c: Channel, schedule: seq<Wait>)
    ensures Await(c, schedule).1 <==> exists n | 0 <= n <= |schedule| :: ReadyAfter(c, schedule, n)
    decreases |schedule|
  {
    hide OnEvent, OnEvents, ReadyAfter, Ready;
    ReadyAtOnce(c, schedule);
    if !Ready(c) && schedule != [] {
      var next, rest := OnEvents(c, schedule[0].events), schedule[1..];
      WokenExactly(next, rest);
      if n :| 0 <= n <= |schedule| && ReadyAfter(c, schedule, n) {
        ReadyAfterStep(c, schedule, n);
      }
      if !schedule[0].timedOut && Await(next, rest).1 {
        var n :| 0 <= n <= |rest| && ReadyAfter(next, rest, n);
        ReadyAfterStep(c, schedule, n + 1);
      }
    }
  }

  lemma ReadyAtOnce(c: Channel, schedule: seq<Wait>)
    ensures ReadyAfter(c, schedule, 0) <==> Ready(c)
  {
    hide OnEvent, Ready;
    assert EventsOf(schedule[..0]) == [];
  }

  // ---- whole commands ----

  /** The final line, once there, is one, and success says of which class. */
  predicate Judged(c: Channel) {
    c.pending.Some? ==>
      var r := c.pending.value.response;
      r.final.Some? ==> IsFinal(r.final.value) && (r.success <==> IsSuccess(r.final.value))
  }

  /** At most one line for a command that expects one, and only lines of its class. */
  predicate InClass(c: Channel) {
    c.pending.Some? ==>
      var p := c.pending.value;
      && (forall line :: line in p.response.lines ==> Matches(p.kind, p.prefix, line))
      && (p.kind.MultiLine? || |p.response.lines| <= 1)
  }

  /** What an event makes of the response: nothing, a verdict, or one line more. */
  lemma ResponseStep(c: Channel, e: Event)
    requires c.pending.Some?
    ensures var p := c.pending.value;
            var r := p.response;
            var after := OnEvent(c, e).pending;
            || after == Some(p)
            || (e.Line? && IsFinal(e.line)
                && after == Some(p.(response := r.(success := IsSuccess(e.line), final := Some(e.line)))))
            || (e.Line? && Keeps(p.kind, p.prefix, r.lines, e.line)
                && after == Some(p.(response := r.(lines := r.lines + [e.line]))))
  {
    hide IsFinal, IsSuccess, Keeps, Written;
    WrittenKeeps(c);
  }

  lemma WrittenKeeps(c: Channel)
    ensures forall s :: Written(c, s).pending == c.pending
  {
  }

  lemma JudgedStep(c: Channel, e: Event)
    requires Judged(c) && c.pending.Some?
    ensures Judged(OnEvent(c, e)) && OnEvent(c, e).pending.Some?
  {
    hide IsFinal, IsSuccess, Keeps, OnEvent;
    ResponseStep(c, e);
  }

  lemma InClassStep(c: Channel, e: Event)
    requires InClass(c) && c.pending.Some?
    ensures InClass(OnEvent(c, e)) && OnEvent(c, e).pending.Some?
    ensures var p, q := c.pending.value, OnEvent(c, e).pending.value; p.kind == q.kind && p.prefix == q.prefix
  {
    hide IsFinal, IsSuccess, StartsWith, StartsWithDigit, OnEvent;
    ResponseStep(c, e);
  }

  lemma {:induction false} KeptOverEvents(c: Channel, events: seq<Event>)
    requires Judged(c) && InClass(c) && c.pending.Some?
    ensures Judged(OnEvents(c, events)) && InClass(OnEvents(c, events)) && OnEvents(c, events).pending.Some?
    ensures var p, q := c.pending.value, OnEvents(c, events).pending.value; p.kind == q.kind && p.prefix == q.prefix
    decreases |events|
  {
    hide Judged, InClass, OnEvent;
    if events != [] {
      JudgedStep(c, events[0]);
      InClassStep(c, events[0]);
      KeptOverEvents(OnEvent(c, events[0]), events[1..]);
    }
  }

  /** The channel when the wait loop of a command begins. */
  function Begun(c: Channel, q: Command): Channel {
    Started(WriteText(c, q.text), q)
  }

  lemma {:induction false} AwaitReady(c: Channel, schedule: seq<Wait>)
    ensures Await(c, schedule).1 ==> Ready(Await(c, schedule).0)
    decreases |schedule|
  {
    hide OnEvents, Ready;
    if !Ready(c) && schedule != [] && !schedule[0].timedOut {
      AwaitReady(OnEvents(c, schedule[0].events), schedule[1..]);
    }
  }

  lemma {:induction false} BegunKeeps(c: Channel, q: Command, schedule: seq<Wait>)
    ensures var last := Await(Begun(c, q), schedule).0;
            && last.pending.Some? && last.pending.value.kind == q.kind && last.pending.value.prefix == q.prefix
            && Judged(last) && InClass(last)
  {
    hide Await, Heard;
    AwaitIsHeard(Begun(c, q), schedule);
    KeptOverEvents(Begun(c, q), Heard(Begun(c, q), schedule));
  }

  lemma WriteResults(c: Channel, text: Option<string>, fails: bool)
    ensures WriteResult(c, text, fails) in {0, AT_ERROR_GENERIC, AT_ERROR_CHANNEL_CLOSED}
  {
  }

  /** For every order of lines, end of input, closing and time-out: no command stays pending; result 0 means a final
      response came, with success set exactly when it is of the success class; a time-out hands nothing out. */
  lemma Completion(c: Channel, q: Command, fails: bool, schedule: seq<Wait>)
    requires c.pending.None?
    ensures var (after, err, response) := Send(c, q, fails, schedule);
            && after.pending.None? && after.pdu.None?
            && err in {0, AT_ERROR_GENERIC, AT_ERROR_CHANNEL_CLOSED, AT_ERROR_TIMEOUT}
            && (response.Some? <==> q.wants && WriteResult(c, q.text, fails) == 0 && err != AT_ERROR_TIMEOUT)
            && (WriteResult(c, q.text, fails) == 0 && err != AT_ERROR_TIMEOUT ==>
                  err == if after.closed then AT_ERROR_CHANNEL_CLOSED else 0)
            && (err == 0 && response.Some? ==>
                  && response.value.final.Some? && IsFinal(response.value.final.value)
                  && (response.value.success <==> IsSuccess(response.value.final.value)))
            && (err == AT_ERROR_TIMEOUT <==>
                  && WriteResult(c, q.text, fails) == 0
                  && !exists n | 0 <= n <= |schedule| :: ReadyAfter(Begun(c, q), schedule, n))
  {
    hide Await, IsFinal, IsSuccess, InClass, ReadyAfter, WriteResult;
    WriteResults(c, q.text, fails);
    BegunKeeps(c, q, schedule);
    AwaitReady(Begun(c, q), schedule);
    WokenExactly(Begun(c, q), schedule);
  }

  /** The response handed out is made of the lines that arrived before the wake, in their order of arrival. */
  lemma {:induction false} ResponseIsWhatArrived(c: Channel, q: Command, fails: bool, schedule: seq<Wait>)
    requires c.pending.None?
    ensures var response := Send(c, q, fails, schedule).2;
            var events := Heard(Begun(c, q), schedule);
            response.Some? ==>
              response.value == Answer(Pending(q.kind, q.prefix, NEW_RESPONSE), Unprompted(c.raw.Some?, q.pdu.Some?, events))
  {
    hide Await, Heard, Answer, Unprompted;
    AwaitIsHeard(Begun(c, q), schedule);
    Answered(Begun(c, q), Heard(Begun(c, q), schedule));
  }

  /** A successful single-line or numeric command has exactly one line, with the prefix asked for or a leading digit. */
  lemma SingleAnswer(c: Channel, q: Command, fails: bool, schedule: seq<Wait>)
    requires c.pending.None? && q.wants && (q.kind.SingleLine? || q.kind.Numeric?)
    ensures var (after, err, response) := SendOne(c, q, fails, schedule);
            && after == Send(c, q, fails, schedule).0
            && (err == 0 ==> response.Some?)
            && (err == 0 && response.value.success ==>
                  && |response.value.lines| == 1
                  && (q.kind.SingleLine? ==> StartsWith(response.value.lines[0], q.prefix))
                  && (q.kind.Numeric? ==> StartsWithDigit(response.value.lines[0])))
            && (err == AT_ERROR_INVALID_RESPONSE ==> response.None?)
  {
    hide Await, IsFinal, IsSuccess, StartsWith, StartsWithDigit;
    BegunKeeps(c, q, schedule);
    var lines := Await(Begun(c, q), schedule).0.pending.value.response.lines;
    assert lines != [] ==> lines[0] in lines;
  }

  /** The wait loop of the command ends by its condition. */
  ghost predicate Woken(c: Channel, q: Command, schedule: seq<Wait>) {
    exists n | 0 <= n <= |schedule| :: ReadyAfter(Begun(c, q), schedule, n)
  }

  /** Which result each command gets. */
  lemma ResultExactly(c: Channel, q: Command, fails: bool, schedule: seq<Wait>)
    ensures var (after, err, response) := Send(c, q, fails, schedule);
            && after.pending.None? && after.pdu.None?
            && err == (if c.pending.Some? then -2
                       else if q.text.Some? && (!c.open || c.closed) then -3
                       else if q.text.Some? && fails then -1
                       else if !Woken(c, q, schedule) then -4
                       else if after.closed then -3
                       else 0)
            && (c.pending.Some? ==> response.None? && after == c.(pending := None, pdu := None))
  {
    if c.pending.None? {
      Completion(c, q, fails, schedule);
    }
    hide Await, ReadyAfter, IsFinal, IsSuccess;
  }

  lemma {:induction false} AnswerParts(p: Pending, events: seq<Event>)
    requires p.response == NEW_RESPONSE
    ensures var r, final := Answer(p, events), LastFinal(events);
            && r.final == final && (r.success <==> final.Some? && IsSuccess(final.value))
            && r.lines == Given(p.kind, p.prefix, 0, Plain(events))
  {
    hide IsSuccess, Plain, Given, LastFinal;
    AppendNone(Given(p.kind, p.prefix, 0, Plain(events)));
  }

  /** The command's written, its wait ends with the channel open and a response wanted, the last final line heard is of the
      success class, and no line heard is one for the command. */
  ghost predicate EmptySuccess(c: Channel, q: Command, fails: bool, schedule: seq<Wait>) {
    var heard := Unprompted(c.raw.Some?, q.pdu.Some?, Heard(Begun(c, q), schedule));
    && c.pending.None? && (q.text.Some? ==> c.open && !c.closed && !fails)
    && Woken(c, q, schedule) && !Send(c, q, fails, schedule).0.closed && q.wants
    && LastFinal(heard).Some? && IsSuccess(LastFinal(heard).value)
    && Given(q.kind, q.prefix, 0, Plain(heard)) == []
  }

  /** A single-line or numeric command is refused exactly then; in any other case channel, result and response are those of
      the plain command. */
  lemma RefusedExactly(c: Channel, q: Command, fails: bool, schedule: seq<Wait>)
    ensures var one, plain := SendOne(c, q, fails, schedule), Send(c, q, fails, schedule);
            one == if EmptySuccess(c, q, fails, schedule) then (plain.0, -6, None) else plain
  {
    ResultExactly(c, q, fails, schedule);
    if c.pending.None? {
      Completion(c, q, fails, schedule);
      ResponseIsWhatArrived(c, q, fails, schedule);
      AnswerParts(Pending(q.kind, q.prefix, NEW_RESPONSE),
                  Unprompted(c.raw.Some?, q.pdu.Some?, Heard(Begun(c, q), schedule)));
    }
    hide Send, Answer, Woken, ReadyAfter, Unprompted, Heard, LastFinal, Plain, Given, IsFinal, IsSuccess;
  }

  // ---- the reader and the command thread together ----

  /** The lines in the events, those of short messages included. */
  function LinesIn(events: seq<Event>): seq<string> {
    if events == [] then []
    else
      (match events[0]
       case Line(line) => [line]
       case Sms(line, pdu) => [line, pdu]
       case _ => [])
      + LinesIn(events[1..])
  }

  /** Every line is passed on once, in order; only the first line of a short message that the input's end cuts is not. */
  lemma {:induction false} DispatchKeepsLines(lines: seq<string>) returns (cut: seq<string>)
    ensures LinesIn(Dispatch(lines)) + cut == lines
    ensures cut == [] || (|cut| == 1 && IsSms(cut[0]))
  {
    hide IsSms;
    if lines == [] || (IsSms(lines[0]) && |lines| == 1) {
      cut := lines;
    } else {
      var n := if IsSms(lines[0]) then 2 else 1;
      cut := DispatchKeepsLines(lines[n..]);
      AppendAssoc(lines[..n], LinesIn(Dispatch(lines[n..])), cut);
      assert lines == lines[..n] + lines[n..];
      LinesInFirst(lines, n);
    }
  }

  lemma {:induction false} LinesInFirst(lines: seq<string>, n: nat)
    requires lines != [] && n == (if IsSms(lines[0]) then 2 else 1) <= |lines|
    ensures LinesIn(Dispatch(lines)) == lines[..n] + LinesIn(Dispatch(lines[n..]))
  {
    hide IsSms;
  }

  /** The same characters cut into reads in two ways, heard as far as the same event, with any wakes: the same response,
      and it is a function of the characters. */
  lemma {:induction false} AnswerOverAnyCut(
    c: Channel, q: Command, fails: bool, n: nat,
    one: seq<string>, schedule: seq<Wait>, other: seq<string>, schedule': seq<Wait>)
    requires c.pending.None?
    requires Flat(one) == Flat(other) && n <= |Dispatch(LinesOf(Flat(one)))|
    requires Heard(Begun(c, q), schedule) == Prefix(Dispatch(AllLines([], one)), n)
    requires Heard(Begun(c, q), schedule') == Prefix(Dispatch(AllLines([], other)), n)
    ensures var (response, response') := (Send(c, q, fails, schedule).2, Send(c, q, fails, schedule').2);
            var events := Dispatch(LinesOf(Flat(one)))[..n];
            response.Some? && response'.Some? ==>
              && response == response'
              && response.value == Answer(Pending(q.kind, q.prefix, NEW_RESPONSE),
                                          Unprompted(c.raw.Some?, q.pdu.Some?, events))
  {
    hide Send, Heard, Answer, Dispatch, AllLines, LinesOf, Flat, Unprompted;
    ChunkIndependence([], one);
    ChunkIndependence([], other);
    AppendNone(Flat(one));
    ResponseIsWhatArrived(c, q, fails, schedule);
    ResponseIsWhatArrived(c, q, fails, schedule');
  }

  function Prefix(events: seq<Event>, n: nat): seq<Event> {
    if n <= |events| then events[..n] else events
  }

  // ---- one command thread ----

  datatype Turn = Between(event: Event) | Issue(command: Command, fails: bool, schedule: seq<Wait>)

  function Results(c: Channel, turns: seq<Turn>): seq<int>
    decreases |turns|
  {
    if turns == [] then []
    else
      match turns[0]
      case Between(e) => Results(OnEvent(c, e), turns[1..])
      case Issue(q, fails, schedule) =>
        var (after, err, _) := Send(c, q, fails, schedule);
        [err] + Results(after, turns[1..])
  }

  lemma QuietStaysQuiet(c: Channel, e: Event)
    requires c.pending.None?
    ensures OnEvent(c, e).pending.None?
  {
  }

  /** With one command thread no command ever finds another one pending. */
  lemma {:induction false} NeverTwoPending(c: Channel, turns: seq<Turn>)
    requires c.pending.None?
    ensures AT_ERROR_COMMAND_PENDING !in Results(c, turns)
    decreases |turns|
  {
    hide Send, OnEvent, Await;
    if turns != [] {
      match turns[0]
      case Between(e) =>
        QuietStaysQuiet(c, e);
        NeverTwoPending(OnEvent(c, e), turns[1..]);
      case Issue(q, fails, schedule) =>
        Completion(c, q, fails, schedule);
        NeverTwoPending(Send(c, q, fails, schedule).0, turns[1..]);
    }
  }
}
