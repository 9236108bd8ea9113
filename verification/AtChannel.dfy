/** The AT channel in place: the response under construction, its linked lines, and the two threads' operations. */
module AtChannel {
  import opened Wire
  import opened AtLines
  import opened AtModel
  import AtReader

  /** strStartsWith */
  method StrStartsWith(line: string, prefix: string) returns (r: bool)
    ensures r == StartsWith(line, prefix)
  {
    var i := 0;
    while i < |line| && i < |prefix|
      invariant i <= |line| && i <= |prefix| && line[..i] == prefix[..i]
    {
      if line[i] != prefix[i] {
        if |prefix| <= |line| {
          assert line[..|prefix|][i] == line[i];
        }
        return false;
      }
      i := i + 1;
    }
    r := i == |prefix|;
    assert prefix[..|prefix|] == prefix;
  }

  method StartsWithOneOf(line: string, prefixes: seq<string>) returns (r: bool)
    ensures r == StartsWithAny(line, prefixes)
  {
    for i := 0 to |prefixes|
      invariant forall j :: 0 <= j < i ==> !StartsWith(line, prefixes[j])
    {
      var found := StrStartsWith(line, prefixes[i]);
      if found {
        return true;
      }
    }
    r := false;
  }

  class AtLine {
    const line: string
    var next: AtLine?

    constructor (line: string, next: AtLine?)
      ensures this.line == line && this.next == next
    {
      this.line := line;
      this.next := next;
    }
  }

  /** nodes lists, without repetition, what head leads to. */
  ghost predicate Chain(head: AtLine?, nodes: seq<AtLine>)
    reads nodes
  {
    && head == (if nodes == [] then null else nodes[0])
    && (forall i :: 0 <= i < |nodes| - 1 ==> nodes[i].next == nodes[i + 1])
    && (nodes != [] ==> nodes[|nodes| - 1].next == null)
    && (forall i, j :: 0 <= i < j < |nodes| ==> nodes[i] != nodes[j])
  }

  ghost function Backwards<T>(s: seq<T>): (r: seq<T>)
    ensures |r| == |s| && forall i :: 0 <= i < |s| ==> r[i] == s[|s| - 1 - i]
  {
    seq(|s|, i requires 0 <= i < |s| => s[|s| - 1 - i])
  }

  ghost function Texts(nodes: seq<AtLine>): (r: seq<string>)
    ensures |r| == |nodes| && forall i :: 0 <= i < |r| ==> r[i] == nodes[i].line
  {
    seq(|nodes|, i requires 0 <= i < |nodes| => nodes[i].line)
  }

  class AtResponse {
    var success: bool
    var final: Option<string>
    var intermediates: AtLine?
    ghost var nodes: seq<AtLine>

    ghost predicate Valid()
      reads this, nodes
    {
      Chain(intermediates, nodes)
    }

    constructor ()
      ensures Valid() && nodes == [] && success == false && final == None
    {
      success, final, intermediates := false, None, null;
      nodes := [];
    }

    /** addIntermediate: the newest line becomes the head. */
    method AddIntermediate(line: string)
      requires Valid()
      modifies this
      ensures Valid() && success == old(success) && final == old(final)
      ensures |nodes| == 1 + |old(nodes)| && nodes[1..] == old(nodes) && fresh(nodes[0]) && nodes[0].line == line
    {
      var node := new AtLine(line, intermediates);
      intermediates := node;
      nodes := [node] + nodes;
    }

    /** reverseIntermediates: the same nodes, relinked the other way round. */
    method ReverseIntermediates()
      requires Valid()
      modifies this, nodes
      ensures Valid() && success == old(success) && final == old(final)
      ensures nodes == Backwards(old(nodes))
    {
      ghost var all := nodes;
      ghost var n, k := |all|, 0;
      var cur := intermediates;
      intermediates := null;
      while cur != null
        invariant k <= n && cur == (if k < n then all[k] else null)
        invariant intermediates == (if k == 0 then null else all[k - 1])
        invariant k > 0 ==> all[0].next == null
        invariant forall i :: 0 < i < k ==> all[i].next == all[i - 1]
        invariant forall i :: k <= i < n - 1 ==> all[i].next == all[i + 1]
        invariant n > k ==> all[n - 1].next == null
        invariant nodes == all && success == old(success) && final == old(final)
        decreases n - k
      {
        var next := cur.next;
        cur.next := intermediates;
        intermediates := cur;
        cur := next;
        k := k + 1;
      }
      nodes := Backwards(all);
    }
  }

  ghost function ResponseView(r: AtResponse): Response
    reads r, r.nodes
  {
    Response(r.success, r.final, Texts(r.nodes))
  }

  ghost function OutView(r: AtResponse?): Option<Response>
    reads r, if r == null then [] else r.nodes
  {
    if r == null then None else Some(ResponseView(r))
  }

  class AtChannel {
    const proxy: bool
    const reportsEnd: bool
    var open: bool
    var readerClosed: bool
    var response: AtResponse?
    var kind: Kind
    var prefix: string
    var pdu: Option<string>
    var raw: Option<string>
    /** The calls of the handler, and what was written to the device. */
    var unsolicited: seq<Event>
    var wire: seq<string>
    /** What became of every response made, and the list nodes freed. */
    ghost var made: set<AtResponse>
    ghost var freed: set<AtResponse>
    ghost var handed: set<AtResponse>
    ghost var freedLines: set<AtLine>

    ghost predicate Valid()
      reads this, response, if response == null then [] else response.nodes
    {
      && freed !! handed
      && made == freed + handed + (if response == null then {} else {response})
      && (response != null ==>
            && response.Valid() && response !in freed && response !in handed
            && forall n :: n in response.nodes ==> n !in freedLines)
    }

    ghost function View(): Channel
      reads this, response, if response == null then [] else response.nodes
    {
      Channel(
        proxy, reportsEnd, open, readerClosed,
        if response == null then None
        else Some(Pending(kind, prefix, Response(response.success, response.final, Texts(Backwards(response.nodes))))),
        pdu, raw, unsolicited, wire)
    }

    /** at_open */
    constructor (proxy: bool, reportsEnd: bool)
      ensures Valid() && View() == Channel(proxy, reportsEnd, true, false, None, None, None, [], [])
      ensures made == {}
    {
      this.proxy, this.reportsEnd := proxy, reportsEnd;
      open, readerClosed, response, kind, prefix, pdu, raw := true, false, null, NoResult, [], None, None;
      unsolicited, wire := [], [];
      made, freed, handed, freedLines := {}, {}, {}, {};
    }

    /** The bookkeeping of responses is untouched. */
    twostate predicate SameResponses()
      reads this
    {
      response == old(response) && made == old(made) && freed == old(freed) && handed == old(handed)
      && freedLines == old(freedLines)
    }

    // ---- the reader thread ----

    method HandleUnsolicited(e: Event)
      requires Valid()
      modifies `unsolicited
      ensures Valid() && View() == Unsolicited(old(View()), e)
    {
      unsolicited := unsolicited + [e];
    }

    method Write(s: string)
      requires Valid()
      modifies `wire
      ensures Valid() && View() == Written(old(View()), s)
    {
      if open && !readerClosed {
        wire := wire + [s];
      }
    }

    method HandleFinalResponse(line: string, success: bool)
      requires Valid() && response != null
      modifies this`unsolicited, response
      ensures Valid() && response.nodes == old(response.nodes)
      ensures View() == OnFinal(old(View()), line, success)
    {
      if proxy {
        HandleUnsolicited(Line(line));
      }
      response.success := success;
      response.final := Some(line);
    }

    method IsIntermediate(line: string) returns (r: bool)
      requires Valid() && response != null
      ensures r == Keeps(kind, prefix, View().pending.value.response.lines, line)
    {
      match kind
      case NoResult => r := false;
      case Numeric => r := response.intermediates == null && line != [] && '0' <= line[0] <= '9';
      case SingleLine =>
        r := StrStartsWith(line, prefix);
        r := response.intermediates == null && r;
      case MultiLine => r := StrStartsWith(line, prefix);
    }

    method HandleOther(line: string)
      requires Valid() && response != null
      modifies this`unsolicited, response
      ensures Valid() && forall n :: n in response.nodes ==> n in old(response.nodes) || fresh(n)
      ensures View() == OnOther(old(View()), line)
    {
      hide Keeps;
      var keep := IsIntermediate(line);
      if keep {
        ghost var nodes := response.nodes;
        response.AddIntermediate(line);
        assert Texts(Backwards(response.nodes)) == Texts(Backwards(nodes)) + [line];
      } else {
        HandleUnsolicited(Line(line));
      }
    }

    method ProcessLine(line: string)
      requires Valid()
      modifies this, response
      ensures Valid() && SameResponses()
      ensures response != null ==> forall n :: n in response.nodes ==> n in old(response.nodes) || fresh(n)
      ensures View() == OnLine(old(View()), line)
    {
      hide Keeps, StartsWithAny, OnFinal, OnOther, Written, Unsolicited;
      hide AtResponse.Valid, Texts, Backwards, Chain;
      if response == null {
        HandleUnsolicited(Line(line));
      } else if raw.Some? && line == "CONNECT" {
        Write(raw.value);
        raw := None;
      } else {
        var success := StartsWithOneOf(line, SUCCESS);
        var error := StartsWithOneOf(line, ERRORS);
        if success || error {
          HandleFinalResponse(line, success);
        } else if pdu.Some? && line == "> " {
          Write(pdu.value + CTRL_Z);
          pdu := None;
        } else {
          HandleOther(line);
        }
      }
    }

    /** What another thread does while the command thread waits. */
    method Happen(e: Event)
      requires Valid()
      modifies this, response
      ensures Valid() && SameResponses()
      ensures response != null ==> forall n :: n in response.nodes ==> n in old(response.nodes) || fresh(n)
      ensures View() == OnEvent(old(View()), e)
    {
      hide OnLine;
      match e
      case Line(line) => ProcessLine(line);
      case Sms(_, _) => HandleUnsolicited(e);
      case EndOfInput => readerClosed := readerClosed || reportsEnd;
      case Close => open, readerClosed := false, true;
    }

    // ---- the command thread ----

    /** at_response_free: the response and every line of it, each once. */
    method ResponseFree(r: AtResponse)
      requires r.Valid() && r !in freed && forall n :: n in r.nodes ==> n !in freedLines
      modifies `freed, `freedLines
      ensures freed == old(freed) + {r} && freedLines == old(freedLines) + set n | n in r.nodes
    {
      var line := r.intermediates;
      ghost var i := 0;
      while line != null
        invariant i <= |r.nodes| && line == (if i < |r.nodes| then r.nodes[i] else null)
        invariant freed == old(freed) && freedLines == old(freedLines) + set n | n in r.nodes[..i]
        decreases |r.nodes| - i
      {
        var next := line.next;
        assert line !in freedLines;
        freedLines := freedLines + {line};
        assert r.nodes[..i + 1] == r.nodes[..i] + [line];
        line := next;
        i := i + 1;
      }
      assert r.nodes[..i] == r.nodes;
      freed := freed + {r};
    }

    method ClearPendingCommand()
      requires Valid()
      modifies this
      ensures Valid() && View() == Cleared(old(View()))
      ensures made == old(made) && handed == old(handed)
      ensures freed == old(freed) + (if old(response) == null then {} else {old(response)})
      ensures old(response) == null ==> freedLines == old(freedLines)
    {
      if response != null {
        ResponseFree(response);
      }
      response, prefix, pdu := null, [], None;
    }

    method WriteLine(text: string, fails: bool) returns (err: int)
      requires Valid()
      modifies `wire
      ensures Valid() && err == WriteResult(old(View()), Some(text), fails)
      ensures View() == if err < 0 then old(View()) else WriteText(old(View()), Some(text))
    {
      if !open || readerClosed {
        return AT_ERROR_CHANNEL_CLOSED;
      }
      if fails {
        return AT_ERROR_GENERIC;
      }
      wire := wire + [text + "\r"];
      err := 0;
    }

    method Start(q: Command)
      requires Valid() && response == null
      modifies this
      ensures Valid() && View() == Started(old(View()), q)
      ensures response != null && fresh(response) && response.nodes == []
      ensures made == old(made) + {response} && freed == old(freed) && handed == old(handed)
    {
      kind, prefix, pdu := q.kind, q.prefix, q.pdu;
      var r := new AtResponse();
      response := r;
      made := made + {r};
      assert Texts(Backwards([])) == [];
    }

    method Pass(events: seq<Event>)
      requires Valid() && response != null
      modifies this, response
      ensures Valid() && SameResponses()
      ensures forall n :: n in response.nodes ==> n in old(response.nodes) || fresh(n)
      ensures View() == OnEvents(old(View()), events)
    {
      hide OnEvent;
      ghost var before := View();
      var left := events;
      while left != []
        invariant Valid() && SameResponses()
        invariant forall n :: n in response.nodes ==> n in old(response.nodes) || fresh(n)
        invariant OnEvents(View(), left) == OnEvents(before, events)
        decreases |left|
      {
        Happen(left[0]);
        left := left[1..];
      }
    }

    /** The loop around the condition variable; the schedule says what happens at each wait and how it ends. */
    method WaitForFinal(schedule: seq<Wait>) returns (woken: bool)
      requires Valid() && response != null
      modifies this, response
      ensures Valid() && SameResponses()
      ensures forall n :: n in response.nodes ==> n in old(response.nodes) || fresh(n)
      ensures (View(), woken) == Await(old(View()), schedule)
    {
      hide OnEvents;
      ghost var before := View();
      var left := schedule;
      while response.final == None && !readerClosed
        invariant Valid() && SameResponses()
        invariant forall n :: n in response.nodes ==> n in old(response.nodes) || fresh(n)
        invariant Await(View(), left) == Await(before, schedule)
        decreases |left|
      {
        if left == [] {
          return false;
        }
        Pass(left[0].events);
        if left[0].timedOut {
          return false;
        }
        left := left[1..];
      }
      woken := true;
    }

    /** The response leaves the channel: freed, or in its lines' order of arrival to the issuer. */
    method HandOut(wants: bool) returns (out: AtResponse?)
      requires Valid() && response != null
      modifies this, response, response.nodes
      ensures Valid() && View() == old(View()).(pending := None)
      ensures made == old(made)
      ensures wants ==> out == old(response) && out.Valid() && out.nodes == Backwards(old(response.nodes))
      ensures wants ==> forall n :: n in out.nodes ==> n in old(response.nodes) && n !in freedLines
      ensures OutView(out) == if wants then Some(old(View().pending.value.response)) else None
      ensures handed == old(handed) + if wants then {old(response)} else {}
      ensures freed == old(freed) + if wants then {} else {old(response)}
    {
      hide Chain, AtResponse.Valid;
      out := null;
      if !wants {
        ResponseFree(response);
      } else {
        response.ReverseIntermediates();
        out := response;
        handed := handed + {response};
      }
      response := null;
    }

    method StartAndWait(q: Command, schedule: seq<Wait>) returns (woken: bool)
      requires Valid() && response == null
      modifies this
      ensures Valid() && response != null && fresh(response) && forall n :: n in response.nodes ==> fresh(n)
      ensures (View(), woken) == Await(Started(old(View()), q), schedule)
      ensures made == old(made) + {response} && freed == old(freed) && handed == old(handed)
    {
      hide Await, AtResponse.Valid, Chain, Texts, Backwards;
      Start(q);
      woken := WaitForFinal(schedule);
    }

    /** From the new response on. */
    method RunCommand(q: Command, schedule: seq<Wait>) returns (err: int, out: AtResponse?)
      requires Valid() && response == null
      modifies this
      ensures Valid() && response == null
      ensures (View(), err, OutView(out)) == Run(old(View()), q, schedule)
      ensures out != null ==> fresh(out) && out.Valid() && forall n :: n in out.nodes ==> fresh(n) && n !in freedLines
      ensures handed == old(handed) + (if out == null then {} else {out})
      ensures old(freed) <= freed && old(made) < made
    {
      hide Await, AtResponse.Valid, Chain, Texts, Backwards;
      var woken := StartAndWait(q, schedule);
      if !woken {
        ClearPendingCommand();
        return AT_ERROR_TIMEOUT, null;
      }
      assert forall i :: 0 <= i < |response.nodes| ==> response.nodes[i] in response.nodes;
      out := HandOut(q.wants);
      err := if readerClosed then AT_ERROR_CHANNEL_CLOSED else 0;
      ClearPendingCommand();
    }

    /** at_send_command_full_nolock */
    method SendCommandFullNolock(q: Command, fails: bool, schedule: seq<Wait>) returns (err: int, out: AtResponse?)
      requires Valid()
      modifies this
      ensures Valid() && response == null
      ensures (View(), err, OutView(out)) == Send(old(View()), q, fails, schedule)
      ensures out != null ==> fresh(out) && out.Valid() && forall n :: n in out.nodes ==> fresh(n) && n !in freedLines
      ensures handed == old(handed) + (if out == null then {} else {out})
      ensures old(freed) <= freed && old(made) <= made
    {
      hide Run, AtResponse.Valid, Texts, Backwards;
      if response != null {
        ClearPendingCommand();
        return AT_ERROR_COMMAND_PENDING, null;
      }
      err, out := 0, null;
      if q.text.Some? {
        err := WriteLine(q.text.value, fails);
      }
      if err < 0 {
        ClearPendingCommand();
        return;
      }
      err, out := RunCommand(q, schedule);
    }

    /** at_send_command_singleline and at_send_command_numeric, by the command's kind */
    method SendCommandOneLine(q: Command, fails: bool, schedule: seq<Wait>) returns (err: int, out: AtResponse?)
      requires Valid()
      modifies this
      ensures Valid() && response == null
      ensures (View(), err, OutView(out)) == SendOne(old(View()), q, fails, schedule)
      ensures out != null ==> fresh(out) && out.Valid()
      ensures handed == old(handed) + (if out == null then {} else {out})
    {
      hide Send;
      err, out := SendCommandFullNolock(q, fails, schedule);
      if err == 0 && out != null && out.success && out.intermediates == null {
        ResponseFree(out);
        handed := handed - {out};
        return AT_ERROR_INVALID_RESPONSE, null;
      }
    }

    /** at_send_command_raw: the data stays set until a CONNECT line takes it, whatever becomes of this command. */
    method SendCommandRaw(q: Command, data: string, fails: bool, schedule: seq<Wait>) returns (err: int, out: AtResponse?)
      requires Valid()
      modifies this
      ensures Valid() && response == null
      ensures (View(), err, OutView(out)) == Send(old(View()).(raw := Some(data)), q, fails, schedule)
      ensures out != null ==> fresh(out) && out.Valid()
      ensures handed == old(handed) + (if out == null then {} else {out})
    {
      hide Send;
      raw := Some(data);
      err, out := SendCommandFullNolock(q, fails, schedule);
    }
  }

  lemma {:induction false} DispatchFirst(line: string, rest: seq<string>)
    ensures !IsSms(line) ==> Dispatch([line] + rest) == [Line(line)] + Dispatch(rest)
    ensures IsSms(line) ==>
              Dispatch([line] + rest) == if rest == [] then [] else [Sms(line, rest[0])] + Dispatch(rest[1..])
  {
    hide IsSms;
    var lines := [line] + rest;
    assert lines[0] == line && lines[1..] == rest;
    if rest != [] {
      assert lines[2..] == rest[1..] && lines[1] == rest[0];
    }
  }

  /** One turn of readerLoop: an event, or none when the input has ended. */
  method NextEvent(reader: AtReader.Reader, tty: AtReader.Tty) returns (event: Option<Event>)
    requires reader.Ready(tty)
    modifies reader, reader.buf, tty
    ensures reader.Ready(tty)
    ensures Dispatch(LinesOf(old(reader.Rest(tty))))
         == if event.None? then [] else [event.value] + Dispatch(LinesOf(reader.Rest(tty)))
    ensures event.Some? ==> |reader.Rest(tty)| < |old(reader.Rest(tty))|
  {
    hide LinesOf, Flat, Fits, Residue, AtReader.Reader.Rest, AtReader.Reader.Valid;
    var line := reader.NextOf(tty);
    if line == None {
      assert Dispatch([]) == [];
      return None;
    }
    hide Dispatch;
    DispatchFirst(line.value, LinesOf(reader.Rest(tty)));
    var sms := StartsWithOneOf(line.value, SMS);
    if !sms {
      return Some(Line(line.value));
    }
    var second := reader.NextOf(tty);
    event := if second == None then None else Some(Sms(line.value, second.value));
  }

  /** readerLoop: what it makes of the device's input, event by event, until the input ends. */
  method ReaderLoop(reader: AtReader.Reader, tty: AtReader.Tty) returns (events: seq<Event>)
    requires reader.Ready(tty)
    modifies reader, reader.buf, tty
    ensures events == Dispatch(LinesOf(old(reader.Rest(tty)))) + [EndOfInput]
  {
    hide Dispatch, LinesOf, Flat, Fits, Residue, AtReader.Reader.Rest, AtReader.Reader.Valid;
    ghost var all := Dispatch(LinesOf(reader.Rest(tty)));
    events := [];
    AppendNone(all);
    while true
      invariant reader.Ready(tty) && all == events + Dispatch(LinesOf(reader.Rest(tty)))
      decreases |reader.Rest(tty)|
    {
      var event := NextEvent(reader, tty);
      if event == None {
        AppendNone(events);
        break;
      }
      AppendAssoc(events, [event.value], Dispatch(LinesOf(reader.Rest(tty))));
      events := events + [event.value];
    }
    events := events + [EndOfInput];
  }
}
