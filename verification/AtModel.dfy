/** The AT channel on values: how lines are classified, what a pending command keeps, how a command ends. */
module AtModel {
  import opened Wire

  // ---- classes of lines ----

  predicate StartsWith(line: string, prefix: string) {
    |prefix| <= |line| && line[..|prefix|] == prefix
  }

  /** s_finalResponsesSuccess; see annex B of 3GPP TS 27.007. */
  const SUCCESS: seq<string> := ["OK", "+QIND: \"FOTA\",\"END\",0", "CONNECT"]

  /** s_finalResponsesError */
  const ERRORS: seq<string> :=
    ["ERROR", "+CMS ERROR:", "+CME ERROR:", "NO CARRIER", "NO ANSWER", "NO DIALTONE", "COMMAND NOT SUPPORT"]

  /** s_smsUnsoliciteds */
  const SMS: seq<string> := ["+CMT:", "+CDS:", "+CBM:", "+CMTI:"]

  predicate StartsWithAny(line: string, prefixes: seq<string>) {
    exists i :: 0 <= i < |prefixes| && StartsWith(line, prefixes[i])
  }

  predicate IsSuccess(line: string) { StartsWithAny(line, SUCCESS) }
  predicate IsError(line: string) { StartsWithAny(line, ERRORS) }
  predicate IsFinal(line: string) { IsSuccess(line) || IsError(line) }
  predicate IsSms(line: string) { StartsWithAny(line, SMS) }

  predicate StartsWithDigit(line: string) {
    line != [] && '0' <= line[0] <= '9'
  }

  // ---- from lines to events ----

  /** What happens to the channel from outside the command thread. An unsolicited message is a Line or an Sms. */
  datatype Event = Line(line: string) | Sms(line: string, pdu: string) | EndOfInput | Close

  /** The reader pairs the first line of a two-line short message with the line behind it. */
  function Dispatch(lines: seq<string>): seq<Event> {
    if lines == [] then []
    else if !IsSms(lines[0]) then [Line(lines[0])] + Dispatch(lines[1..])
    else if |lines| == 1 then []
    else [Sms(lines[0], lines[1])] + Dispatch(lines[2..])
  }

  // ---- the channel ----

  datatype Kind = NoResult | Numeric | SingleLine | MultiLine

  /** The response under way: its intermediate lines in order of arrival. */
  datatype Response = Response(success: bool, final: Option<string>, lines: seq<string>)

  /** The command under way and the response to it. */
  datatype Pending = Pending(kind: Kind, prefix: string, response: Response)

  /** unsolicited lists the calls of the handler, wire what was written to the device. */
  datatype Channel = Channel(
    proxy: bool,
    reportsEnd: bool,
    open: bool,
    closed: bool,
    pending: Option<Pending>,
    pdu: Option<string>,
    raw: Option<string>,
    unsolicited: seq<Event>,
    wire: seq<string>)

  /** An intermediate line of this command, rather than an unsolicited one. */
  predicate Keeps(kind: Kind, prefix: string, kept: seq<string>, line: string) {
    match kind
    case NoResult => false
    case Numeric => kept == [] && StartsWithDigit(line)
    case SingleLine => kept == [] && StartsWith(line, prefix)
    case MultiLine => StartsWith(line, prefix)
  }

  function Unsolicited(c: Channel, e: Event): Channel {
    c.(unsolicited := c.unsolicited + [e])
  }

  /** Nothing is written any more once the reader has ended. */
  function Written(c: Channel, s: string): Channel {
    if !c.open || c.closed then c else c.(wire := c.wire + [s])
  }

  function Respond(c: Channel, r: Response): Channel
    requires c.pending.Some?
  {
    c.(pending := Some(c.pending.value.(response := r)))
  }

  predicate SendsRaw(c: Channel, line: string) {
    c.raw.Some? && line == "CONNECT"
  }

  predicate SendsPdu(c: Channel, line: string) {
    c.pdu.Some? && line == "> "
  }

  const CTRL_Z := "\U{1a}"

  function OnFinal(c: Channel, line: string, success: bool): Channel
    requires c.pending.Some?
  {
    var r := c.pending.value.response;
    Respond(if c.proxy then Unsolicited(c, Line(line)) else c, r.(success := success, final := Some(line)))
  }

  /** The switch over the command's type. */
  function OnOther(c: Channel, line: string): Channel
    requires c.pending.Some?
  {
    var p := c.pending.value;
    var r := p.response;
    if Keeps(p.kind, p.prefix, r.lines, line) then Respond(c, r.(lines := r.lines + [line]))
    else Unsolicited(c, Line(line))
  }

  /** processLine */
  function OnLine(c: Channel, line: string): Channel {
    if c.pending.None? then Unsolicited(c, Line(line))
    else if SendsRaw(c, line) then Written(c, c.raw.value).(raw := None)
    else if IsFinal(line) then OnFinal(c, line, IsSuccess(line))
    else if SendsPdu(c, line) then Written(c, c.pdu.value + CTRL_Z).(pdu := None)
    else OnOther(c, line)
  }

  function OnEvent(c: Channel, e: Event): Channel {
    match e
    case Line(line) => OnLine(c, line)
    case Sms(_, _) => Unsolicited(c, e)
    case EndOfInput => if c.reportsEnd then c.(closed := true) else c
    case Close => c.(open := false, closed := true)
  }

  function OnEvents(c: Channel, events: seq<Event>): Channel
    decreases |events|
  {
    if events == [] then c else OnEvents(OnEvent(c, events[0]), events[1..])
  }

  // ---- a command ----

  const AT_ERROR_GENERIC := -1
  const AT_ERROR_COMMAND_PENDING := -2
  const AT_ERROR_CHANNEL_CLOSED := -3
  const AT_ERROR_TIMEOUT := -4
  const AT_ERROR_INVALID_RESPONSE := -6

  /** wants: the issuer gave a place for the response. */
  datatype Command = Command(text: Option<string>, kind: Kind, prefix: string, pdu: Option<string>, wants: bool)

  /** One wait on the condition variable: what happened meanwhile, and whether it ended by time. */
  datatype Wait = Wait(events: seq<Event>, timedOut: bool)

  /** What ends the wait loop. */
  predicate Ready(c: Channel) {
    c.closed || (c.pending.Some? && c.pending.value.response.final.Some?)
  }

  /** The wait loop; the schedule is arbitrary, and its end is a time-out. */
  function Await(c: Channel, schedule: seq<Wait>): (Channel, bool)
    decreases |schedule|
  {
    if Ready(c) then (c, true)
    else if schedule == [] then (c, false)
    else
      var next := OnEvents(c, schedule[0].events);
      if schedule[0].timedOut then (next, false) else Await(next, schedule[1..])
  }

  /** What happened before the wait loop ended. */
  function Heard(c: Channel, schedule: seq<Wait>): seq<Event>
    decreases |schedule|
  {
    if Ready(c) || schedule == [] then []
    else if schedule[0].timedOut then schedule[0].events
    else schedule[0].events + Heard(OnEvents(c, schedule[0].events), schedule[1..])
  }

  const NEW_RESPONSE := Response(false, None, [])

  function Started(c: Channel, q: Command): Channel {
    c.(pending := Some(Pending(q.kind, q.prefix, NEW_RESPONSE)), pdu := q.pdu)
  }

  function Cleared(c: Channel): Channel {
    c.(pending := None, pdu := None)
  }

  /** writeline on the command's text; 0 when there is none. */
  function WriteResult(c: Channel, text: Option<string>, fails: bool): int {
    if text.None? then 0
    else if !c.open || c.closed then AT_ERROR_CHANNEL_CLOSED
    else if fails then AT_ERROR_GENERIC
    else 0
  }

  function WriteText(c: Channel, text: Option<string>): Channel {
    if text.None? then c else c.(wire := c.wire + [text.value + "\r"])
  }

  /** The command from its new response on. */
  function Run(c: Channel, q: Command, schedule: seq<Wait>): (Channel, int, Option<Response>) {
    var (last, woken) := Await(Started(c, q), schedule);
    if !woken then (Cleared(last), AT_ERROR_TIMEOUT, None)
    else
      var response := if q.wants && last.pending.Some? then Some(last.pending.value.response) else None;
      (Cleared(last), if last.closed then AT_ERROR_CHANNEL_CLOSED else 0, response)
  }

  /** at_send_command_full_nolock: the channel afterwards, the result and the response handed out. */
  function Send(c: Channel, q: Command, fails: bool, schedule: seq<Wait>): (Channel, int, Option<Response>) {
    if c.pending.Some? then (Cleared(c), AT_ERROR_COMMAND_PENDING, None)
    else if WriteResult(c, q.text, fails) < 0 then (Cleared(c), WriteResult(c, q.text, fails), None)
    else Run(WriteText(c, q.text), q, schedule)
  }

  /** at_send_command_singleline and at_send_command_numeric: a successful response must have a line. */
  function SendOne(c: Channel, q: Command, fails: bool, schedule: seq<Wait>): (Channel, int, Option<Response>) {
    var (after, err, response) := Send(c, q, fails, schedule);
    if err == 0 && response.Some? && response.value.success && response.value.lines == []
    then (after, AT_ERROR_INVALID_RESPONSE, None)
    else (after, err, response)
  }
}
