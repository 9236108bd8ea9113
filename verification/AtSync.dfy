/** Whose answer a command gets: a modem that answers each written command once and in order, over runs of commands. */
module AtSync {
  import opened Wire
  import opened AtModel
  import opened AtRules

  /** The channel; how many commands have been written; the final lines that have come, the n-th of which answers the
      n-th command; and the number of the answer that the pending response holds, 0 for none. */
  datatype Session = Session(channel: Channel, asked: nat, answers: seq<string>, source: nat)

  /** A final line, unless it prompts for raw data. */
  predicate IsAnswer(c: Channel, e: Event) {
    e.Line? && IsFinal(e.line) && !(c.pending.Some? && SendsRaw(c, e.line))
  }

  function Hear(s: Session, e: Event): Session {
    if !IsAnswer(s.channel, e) then s.(channel := OnEvent(s.channel, e))
    else
      Session(OnEvent(s.channel, e), s.asked, s.answers + [e.line],
              if s.channel.pending.Some? then |s.answers| + 1 else s.source)
  }

  function HearAll(s: Session, events: seq<Event>): Session
    decreases |events|
  {
    if events == [] then s else HearAll(Hear(s, events[0]), events[1..])
  }

  /** The modem answers only what it was asked. */
  predicate Honest(s: Session, events: seq<Event>)
    decreases |events|
  {
    events != [] ==>
      && (IsAnswer(s.channel, events[0]) ==> |s.answers| < s.asked)
      && Honest(Hear(s, events[0]), events[1..])
  }

  /** The session when the wait loop of a command begins, and when it ends. */
  function Asking(s: Session, q: Command): Session {
    Session(Begun(s.channel, q), s.asked + if q.text.Some? then 1 else 0, s.answers, 0)
  }

  function During(s: Session, q: Command, schedule: seq<Wait>): seq<Event> {
    Heard(Begun(s.channel, q), schedule)
  }

  function Waited(s: Session, q: Command, schedule: seq<Wait>): Session {
    HearAll(Asking(s, q), During(s, q, schedule))
  }

  predicate Writes(s: Session, t: Turn) {
    t.Issue? && s.channel.pending.None? && WriteResult(s.channel, t.command.text, t.fails) == 0
  }

  function Next(s: Session, t: Turn): Session {
    match t
    case Between(e) => Hear(s, e)
    case Issue(q, fails, schedule) =>
      (if Writes(s, t) then Waited(s, q, schedule) else s).(channel := Send(s.channel, q, fails, schedule).0)
  }

  predicate HonestTurn(s: Session, t: Turn) {
    match t
    case Between(e) => Honest(s, [e])
    case Issue(q, fails, schedule) => Writes(s, t) ==> Honest(Asking(s, q), During(s, q, schedule))
  }

  function Result(s: Session, t: Turn): int
    requires t.Issue?
  {
    Send(s.channel, t.command, t.fails, t.schedule).1
  }

  /** A command that was written and reported success. */
  predicate Succeeds(s: Session, t: Turn) {
    t.Issue? && t.command.text.Some? && s.channel.pending.None? && Result(s, t) == 0
  }

  /** The number of the command whose answer the turn's response holds, and the number of its own. */
  function SourceOf(s: Session, t: Turn): nat
    requires t.Issue?
  {
    Waited(s, t.command, t.schedule).source
  }

  function OwnNumber(s: Session): nat {
    s.asked + 1
  }

  /** The commands whose answers have not come. */
  function Owed(s: Session): int {
    s.asked - |s.answers|
  }

  // ---- the source is the last answer ----

  lemma {:induction false} ChannelOf(s: Session, events: seq<Event>)
    ensures HearAll(s, events).channel == OnEvents(s.channel, events) && HearAll(s, events).asked == s.asked
    decreases |events|
  {
    hide OnEvent, IsAnswer;
    if events != [] {
      ChannelOf(Hear(s, events[0]), events[1..]);
    }
  }

  lemma FinalOfEvent(c: Channel, e: Event)
    requires c.pending.Some?
    ensures OnEvent(c, e).pending.Some?
    ensures OnEvent(c, e).pending.value.response.final
         == if IsAnswer(c, e) then Some(e.line) else c.pending.value.response.final
  {
    hide IsFinal, IsSuccess, Keeps, SendsPdu;
  }

  /** The response's final line is the last answer that came since from were there, and source says which. */
  predicate Sourced(s: Session, from: nat) {
    && s.channel.pending.Some? && from <= |s.answers|
    && var final := s.channel.pending.value.response.final;
       if |s.answers| == from then final.None? && s.source == 0
       else s.source == |s.answers| && final == Some(s.answers[s.source - 1])
  }

  lemma HearSourced(s: Session, e: Event, from: nat)
    requires Sourced(s, from)
    ensures Sourced(Hear(s, e), from)
  {
    hide OnEvent, IsAnswer;
    FinalOfEvent(s.channel, e);
  }

  lemma {:induction false} HearAllSourced(s: Session, events: seq<Event>, from: nat)
    requires Sourced(s, from)
    ensures Sourced(HearAll(s, events), from)
    decreases |events|
  {
    hide Hear, Sourced;
    if events != [] {
      HearSourced(s, events[0], from);
      HearAllSourced(Hear(s, events[0]), events[1..], from);
    }
  }

  lemma {:induction false} HonestStays(s: Session, events: seq<Event>)
    requires Honest(s, events) && |s.answers| <= s.asked
    ensures |HearAll(s, events).answers| <= HearAll(s, events).asked == s.asked
    decreases |events|
  {
    hide OnEvent, IsAnswer;
    if events != [] {
      HonestStays(Hear(s, events[0]), events[1..]);
    }
  }

  lemma {:induction false} WaitedParts(s: Session, q: Command, schedule: seq<Wait>)
    ensures var w := Waited(s, q, schedule);
            && Sourced(w, |s.answers|) && w.asked == Asking(s, q).asked
            && w.channel == Await(Begun(s.channel, q), schedule).0
  {
    hide OnEvent, Hear, Heard, Await;
    assert Sourced(Asking(s, q), |s.answers|);
    ChannelOf(Asking(s, q), During(s, q, schedule));
    HearAllSourced(Asking(s, q), During(s, q, schedule), |s.answers|);
    AwaitIsHeard(Begun(s.channel, q), schedule);
  }

  // ---- whose answer ----

  /** With an honest modem a command that succeeds gets its own answer exactly when the answers heard during it are all
      those owed before and its own; in particular whenever none was owed. */
  lemma OwnAnswerExactly(s: Session, t: Turn)
    requires Succeeds(s, t) && HonestTurn(s, t) && |s.answers| <= s.asked
    ensures var w := Waited(s, t.command, t.schedule);
            var response := Send(s.channel, t.command, t.fails, t.schedule).2;
            && 1 <= SourceOf(s, t) <= |w.answers|
            && (response.Some? ==> response.value.final == Some(w.answers[SourceOf(s, t) - 1]))
            && (SourceOf(s, t) == OwnNumber(s) <==> |w.answers| - |s.answers| == Owed(s) + 1)
            && |s.answers| < |w.answers| <= OwnNumber(s)
            && (Owed(s) == 0 ==> SourceOf(s, t) == OwnNumber(s))
  {
    WriteResults(s.channel, t.command.text, t.fails);
    AwaitReady(Begun(s.channel, t.command), t.schedule);
    WaitedParts(s, t.command, t.schedule);
    HonestStays(Asking(s, t.command), During(s, t.command, t.schedule));
    hide Await, Heard, HearAll, WriteResult, Honest;
  }

  // ---- whole runs ----

  ghost predicate HonestRun(turns: seq<Turn>, states: seq<Session>) {
    && |states| == |turns| + 1
    && states[0].channel.pending.None? && states[0].asked == 0 && states[0].answers == []
    && forall i :: 0 <= i < |turns| ==> HonestTurn(states[i], turns[i]) && states[i + 1] == Next(states[i], turns[i])
  }

  predicate InStep(s: Session) {
    s.channel.pending.None? && |s.answers| <= s.asked
  }

  lemma NextInStep(s: Session, t: Turn)
    requires InStep(s) && HonestTurn(s, t)
    ensures InStep(Next(s, t))
  {
    hide Await, Heard, Send, OnEvent, IsAnswer, Begun;
    match t
    case Between(e) =>
      QuietStaysQuiet(s.channel, e);
      assert Honest(s, [e]);
    case Issue(q, fails, schedule) =>
      Completion(s.channel, q, fails, schedule);
      if Writes(s, t) {
        HonestStays(Asking(s, q), During(s, q, schedule));
      }
  }

  lemma {:induction false} RunInStep(turns: seq<Turn>, states: seq<Session>, k: nat)
    requires HonestRun(turns, states) && k < |states|
    ensures InStep(states[k])
  {
    hide HonestTurn, Next;
    if k > 0 {
      RunInStep(turns, states, k - 1);
      NextInStep(states[k - 1], turns[k - 1]);
    }
  }

  /** Over every run with an honest modem, for every command that succeeds: its response ends in its own answer exactly
      when all answers owed before it were heard during it as well. */
  lemma EveryCommandExactly(turns: seq<Turn>, states: seq<Session>, k: nat)
    requires HonestRun(turns, states) && k < |turns| && Succeeds(states[k], turns[k])
    ensures SourceOf(states[k], turns[k]) == OwnNumber(states[k])
       <==> |states[k + 1].answers| == |states[k].answers| + Owed(states[k]) + 1
  {
    RunInStep(turns, states, k);
    OwnAnswerExactly(states[k], turns[k]);
    WriteResults(states[k].channel, turns[k].command.text, turns[k].fails);
    hide Await, Heard, WriteResult, Waited;
  }

  // ---- only a time-out brings the two out of step ----

  /** Nothing is owed, or nothing will be written any more. */
  predicate InSync(s: Session) {
    s.channel.closed || Owed(s) == 0
  }

  lemma ClosedStaysClosed(c: Channel, e: Event)
    ensures c.closed ==> OnEvent(c, e).closed
  {
    hide IsFinal, IsSuccess, Keeps;
  }

  lemma {:induction false} ClosedStays(c: Channel, events: seq<Event>)
    ensures c.closed ==> OnEvents(c, events).closed
    decreases |events|
  {
    hide OnEvent;
    if events != [] {
      ClosedStaysClosed(c, events[0]);
      ClosedStays(OnEvent(c, events[0]), events[1..]);
    }
  }

  /** A wait that ends with success has heard as many answers as are then asked for. */
  lemma {:induction false} SuccessSettles(s: Session, q: Command, schedule: seq<Wait>)
    requires InStep(s) && Owed(s) == 0 && Honest(Asking(s, q), During(s, q, schedule))
    requires Await(Begun(s.channel, q), schedule).1 && !Await(Begun(s.channel, q), schedule).0.closed
    ensures Owed(Waited(s, q, schedule)) == 0
  {
    AwaitReady(Begun(s.channel, q), schedule);
    WaitedParts(s, q, schedule);
    HonestStays(Asking(s, q), During(s, q, schedule));
    hide Await, Heard, HearAll, Honest;
  }

  lemma BetweenInSync(s: Session, e: Event)
    requires InStep(s) && HonestTurn(s, Between(e)) && InSync(s)
    ensures InSync(Hear(s, e))
  {
    hide OnEvent, IsAnswer;
    ClosedStaysClosed(s.channel, e);
    assert Honest(s, [e]);
  }

  lemma IssueInSync(s: Session, t: Turn)
    requires InStep(s) && HonestTurn(s, t) && InSync(s) && t.Issue? && Result(s, t) != AT_ERROR_TIMEOUT
    ensures InSync(Next(s, t))
  {
    var q, c := t.command, Begun(s.channel, t.command);
    Completion(s.channel, q, t.fails, t.schedule);
    AwaitIsHeard(c, t.schedule);
    ClosedStays(c, Heard(c, t.schedule));
    hide Await, Heard, Honest, ReadyAfter, HearAll;
    if Writes(s, t) && !Await(c, t.schedule).0.closed {
      SuccessSettles(s, q, t.schedule);
    }
  }

  lemma {:induction false} RunInSync(turns: seq<Turn>, states: seq<Session>, k: nat)
    requires HonestRun(turns, states) && k < |states|
    requires forall j :: 0 <= j < k && turns[j].Issue? ==> Result(states[j], turns[j]) != AT_ERROR_TIMEOUT
    ensures InSync(states[k])
  {
    hide HonestTurn, Result, Hear;
    if k > 0 {
      RunInStep(turns, states, k - 1);
      RunInSync(turns, states, k - 1);
      match turns[k - 1]
      case Between(e) => BetweenInSync(states[k - 1], e);
      case Issue(_, _, _) => IssueInSync(states[k - 1], turns[k - 1]);
    }
  }

  /** In particular every command that succeeds before any has timed out gets its own answer. */
  lemma OwnUntilTimeOut(turns: seq<Turn>, states: seq<Session>, k: nat)
    requires HonestRun(turns, states) && k < |turns| && Succeeds(states[k], turns[k])
    requires forall j :: 0 <= j < k && turns[j].Issue? ==> Result(states[j], turns[j]) != AT_ERROR_TIMEOUT
    ensures SourceOf(states[k], turns[k]) == OwnNumber(states[k])
  {
    RunInStep(turns, states, k);
    RunInSync(turns, states, k);
    OwnAnswerExactly(states[k], turns[k]);
    WriteResults(states[k].channel, turns[k].command.text, turns[k].fails);
    hide Await, Heard, WriteResult, Waited, HonestTurn;
    SuccessIsOpen(states[k], turns[k]);
  }

  lemma SuccessIsOpen(s: Session, t: Turn)
    requires Succeeds(s, t)
    ensures !s.channel.closed
  {
    hide Await;
  }

  // ---- the failing instance ----

  /** A command times out and its answer comes during the next command: an honest run in which the next command succeeds
      with the answer to the one before. */
  lemma LateAnswerIsTakenForTheNext(s: Session, q: Command, next: Command, line: string)
    requires s.channel.pending.None? && s.channel.raw.None? && s.channel.open && !s.channel.closed && Owed(s) == 0
    requires IsFinal(line) && q.text.Some? && next.text.Some?
    ensures var first, second := Issue(q, false, [Wait([], true)]), Issue(next, false, [Wait([Line(line)], false)]);
            var t := Next(s, first);
            && HonestTurn(s, first) && Result(s, first) == AT_ERROR_TIMEOUT
            && HonestTurn(t, second) && Succeeds(t, second)
            && SourceOf(t, second) == OwnNumber(s) < OwnNumber(t)
  {
    hide IsFinal, IsSuccess;
    var first, second := Issue(q, false, [Wait([], true)]), Issue(next, false, [Wait([Line(line)], false)]);
    var t := Next(s, first);
    NothingHeard(s, q);
    OneHeard(t, next, line);
  }

  lemma NothingHeard(s: Session, q: Command)
    requires s.channel.pending.None? && s.channel.open && !s.channel.closed && q.text.Some?
    ensures var t := Issue(q, false, [Wait([], true)]);
            && Writes(s, t) && HonestTurn(s, t) && Result(s, t) == AT_ERROR_TIMEOUT
            && Next(s, t).asked == s.asked + 1 && Next(s, t).answers == s.answers
            && Next(s, t).channel == Cleared(Begun(s.channel, q))
  {
    var c := Begun(s.channel, q);
    var schedule := [Wait([], true)];
    assert Await(c, schedule) == (c, false) && Heard(c, schedule) == [];
  }

  lemma OneHeard(s: Session, q: Command, line: string)
    requires s.channel.pending.None? && s.channel.raw.None? && s.channel.open && !s.channel.closed
    requires IsFinal(line) && q.text.Some? && |s.answers| <= s.asked
    ensures var t := Issue(q, false, [Wait([Line(line)], false)]);
            HonestTurn(s, t) && Succeeds(s, t) && SourceOf(s, t) == |s.answers| + 1
  {
    hide IsFinal, IsSuccess;
    var c, e := Begun(s.channel, q), Line(line);
    var schedule := [Wait([e], false)];
    FinalOfEvent(c, e);
    assert IsAnswer(c, e);
    assert OnEvents(c, [e]) == OnEvent(c, e);
    OpenAfterLine(c, line);
    hide OnEvent, OnEvents;
    assert Heard(OnEvent(c, e), []) == [];
    AppendNone([e]);
    assert Heard(c, schedule) == [e];
    assert Await(OnEvent(c, e), []) == (OnEvent(c, e), true);
    assert Await(c, schedule) == (OnEvent(c, e), true);
    assert Honest(Hear(Asking(s, q), e), []);
    assert HearAll(Asking(s, q), [e]) == Hear(Asking(s, q), e);
  }

  lemma OpenAfterLine(c: Channel, line: string)
    ensures OnEvent(c, Line(line)).closed == c.closed
  {
    hide IsFinal, IsSuccess, Keeps;
  }
}
