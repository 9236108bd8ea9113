/** One thread sends a request and waits, another passes received messages in: the shared request and response. */
module QmiRendezvous {
  import opened Wire
  import opened QmiTlv
  import opened QmiBuild
  import opened QmiCompose

  // ---- on values ----

  function Tid(m: Bytes): u16 {
    if IsCtl(m) then CtlTid(m) else Le16At(m, 7)
  }

  /** is_response */
  predicate IsResponse(request: Bytes, response: Bytes) {
    QmiType(request) == QmiType(response) && ClientId(request) == ClientId(response) && Tid(request) == Tid(response)
  }

  /** The bytes that the message's length field covers. */
  function Copied(m: Bytes): Bytes {
    seq<byte>(Length(m) + 1, i requires 0 <= i < Length(m) + 1 => At(m, i))
  }

  /** Gone: the device went away. memory: there was some for the copy. */
  datatype Received = Message(m: Bytes, memory: bool) | Gone

  datatype Report = ModemReset | NetworkState | DataCalls | Loopback

  const QMUX_TYPE_WDS: byte := 0x01
  const QMUX_TYPE_NAS: byte := 0x03
  const QMUX_TYPE_WDS_ADMIN: byte := 0x1A

  /** What a message nobody waits for tells the main thread, by the type alone. */
  function Reported(m: Bytes): seq<Report> {
    var kind := Le16At(m, 9);
    if IsCtl(m) && CtlKind(m) == 0x0024 then [ModemReset]
    else if QmiType(m) == QMUX_TYPE_NAS && kind == 0x0024 then [NetworkState]
    else if QmiType(m) == QMUX_TYPE_WDS && kind == 0x0022 then [DataCalls]
    else if QmiType(m) == QMUX_TYPE_NAS && kind == 0x004E then [NetworkState]
    else if QmiType(m) == QMUX_TYPE_WDS_ADMIN && kind == 0x002F then [Loopback]
    else []
  }

  /** freed and lost list the requests that were freed and those whose last pointer was overwritten. */
  datatype Shared = Shared(
    request: Option<Bytes>, response: Option<Bytes>, reports: seq<Report>, freed: seq<Bytes>, lost: seq<Bytes>)

  function AsSeq(m: Option<Bytes>): seq<Bytes> {
    if m.None? then [] else [m.value]
  }

  function Freed(s: Shared): Shared {
    s.(request := None, freed := s.freed + AsSeq(s.request))
  }

  predicate Awaited(s: Shared, m: Bytes) {
    s.request.Some? && IsResponse(s.request.value, m)
  }

  /** QmiThreadRecvQMI */
  function OnReceived(s: Shared, e: Received): Shared {
    match e
    case Gone => if s.request.Some? then Freed(s).(response := None) else s
    case Message(m, memory) =>
      if Awaited(s, m) then Freed(s).(response := if memory then Some(Copied(m)) else None)
      else s.(reports := s.reports + Reported(m))
  }

  function OnAll(s: Shared, events: seq<Received>): Shared
    decreases |events|
  {
    if events == [] then s else OnAll(OnReceived(s, events[0]), events[1..])
  }

  /** A call: the request as the device sent it, the result of sending, whether the caller wants the response, what
      comes in during the one wait, and how that ends: 0 when woken, for a reason or for none. */
  datatype Call = Call(request: Bytes, sent: int, wants: bool, events: seq<Received>, wake: int)

  const EINVAL := 22

  function Asked(s: Shared, request: Bytes): Shared {
    s.(request := Some(request), response := None, lost := s.lost + AsSeq(s.request))
  }

  /** QmiThreadSendQMITimeout: the state afterwards, the result and the response handed out. */
  function Exchange(s: Shared, call: Call): (Shared, int, Option<Bytes>) {
    var started := Asked(s, call.request);
    if call.sent != 0 then (started, call.sent, None)
    else
      var last := OnAll(started, call.events);
      if call.wake != 0 then (last, call.wake, None)
      else if last.response.None? then (last, -EINVAL, None)
      else if call.wants then (last, 0, last.response)
      else (last.(response := None), 0, None)
  }

  // ---- the reference: the first message that answers ----

  /** The first event that ends the request: its answer, or the device going away. */
  function FirstDecisive(request: Bytes, events: seq<Received>): Option<Received> {
    if events == [] then None
    else if events[0].Gone? || IsResponse(request, events[0].m) then Some(events[0])
    else FirstDecisive(request, events[1..])
  }

  lemma {:induction false} SettledStays(s: Shared, events: seq<Received>)
    requires s.request.None?
    ensures OnAll(s, events).request.None? && OnAll(s, events).response == s.response
    decreases |events|
  {
    if events != [] {
      SettledStays(OnReceived(s, events[0]), events[1..]);
    }
  }

  lemma {:induction false} OnlyTheFirstCounts(s: Shared, request: Bytes, events: seq<Received>)
    requires s.request == Some(request) && s.response.None?
    ensures var first := FirstDecisive(request, events);
            var answered := first.Some? && first.value.Message? && first.value.memory;
            OnAll(s, events).response == if answered then Some(Copied(first.value.m)) else None
    decreases |events|
  {
    hide IsResponse, Copied;
    if events != [] {
      var e := events[0];
      if e.Gone? || IsResponse(request, e.m) {
        SettledStays(OnReceived(s, e), events[1..]);
      } else {
        OnlyTheFirstCounts(OnReceived(s, e), request, events[1..]);
      }
    }
  }

  lemma {:induction false} DecisiveIs(request: Bytes, events: seq<Received>)
    ensures var first := FirstDecisive(request, events);
            first.Some? ==> first.value in events && (first.value.Message? ==> IsResponse(request, first.value.m))
  {
    if events != [] && !(events[0].Gone? || IsResponse(request, events[0].m)) {
      DecisiveIs(request, events[1..]);
    }
  }

  /** A response is handed out exactly when the first event that answers the call's own request, or ends it, is an answer
      and there was memory for it; whatever was received or awaited before makes no difference. */
  lemma FirstHandedOut(s: Shared, call: Call)
    ensures var (after, result, response) := Exchange(s, call);
            var first := FirstDecisive(call.request, call.events);
            var answered := first.Some? && first.value.Message? && first.value.memory;
            && (response.Some? <==> call.sent == 0 && call.wake == 0 && call.wants && answered)
            && (after.response.Some? <==> call.sent == 0 && answered && (call.wake != 0 || call.wants))
            && (response.Some? ==>
                  first.value in call.events && IsResponse(call.request, first.value.m)
                  && response.value == Copied(first.value.m))
            && result == (if call.sent != 0 then call.sent else if call.wake != 0 then call.wake
                          else if answered then 0 else -EINVAL)
  {
    hide OnAll, IsResponse, Copied;
    var started := Asked(s, call.request);
    OnlyTheFirstCounts(started, call.request, call.events);
    DecisiveIs(call.request, call.events);
  }

  // ---- late replies ----

  /** Number i in the order of composing; its transaction id is the i-th. */
  predicate Numbered(request: Bytes, i: nat) {
    i > 0 && !IsCtl(request) && Tid(request) == IdOf(i)
  }

  /** The device's send routine fills in service type and client id. */
  function AsSent(m: Bytes, qmiType: byte, clientId: byte): Bytes
    requires |m| >= HEADERS
  {
    m[4 := qmiType][5 := clientId]
  }

  /** The i-th request composed keeps its number when it is sent. */
  lemma ComposedIsNumbered(qmiType: byte, i: nat, kind: u16, b: Builder, sentType: byte, clientId: byte)
    requires i > 0 && sentType != QMUX_TYPE_CTL && FitsBuffer(Items(b))
    ensures var m := Request(qmiType, IdOf(i), kind, b);
            var sent := AsSent(m, sentType, clientId);
            && Numbered(sent, i) && |sent| == |m| && sent[4] == sentType && sent[5] == clientId
            && forall k :: 0 <= k < |m| && k != 4 && k != 5 ==> sent[k] == m[k]
  {
    hide IdOf, FitsBuffer, Items, Header;
    BodyLength(Items(b));
    var body := Encode(ListOf(Items(b)));
    hide Encode, Le16At, Le16;
    var m := Request(qmiType, IdOf(i), kind, b);
    var h := Header(qmiType, IdOf(i), kind, |body|);
    HeaderSize(qmiType, IdOf(i), kind, |body|);
    var sent := AsSent(m, sentType, clientId);
    assert sent[7..9] == h[7..9];
    Le16RoundTrip(sent, 7, IdOf(i));
  }

  /** A reply to any of the 65534 requests composed before is not handed out. */
  lemma NoLateReply(s: Shared, call: Call, i: nat, earlier: Bytes, j: nat)
    requires Numbered(call.request, i) && Numbered(earlier, j) && j < i < j + 0xffff
    ensures forall e :: e in call.events && e.Message? && IsResponse(earlier, e.m) ==> !IsResponse(call.request, e.m)
    ensures var response := Exchange(s, call).2;
            response.Some? ==>
              exists e :: e in call.events && e.Message? && response.value == Copied(e.m)
                       && IsResponse(call.request, e.m) && !IsResponse(earlier, e.m)
  {
    hide Copied, Exchange, IdOf;
    IdsRepeat(j, i);
    FirstHandedOut(s, call);
  }

  lemma {:induction false} FirstOfParts(request: Bytes, a: seq<Received>, b: seq<Received>)
    ensures FirstDecisive(request, a + b)
         == if FirstDecisive(request, a).Some? then FirstDecisive(request, a) else FirstDecisive(request, b)
  {
    hide IsResponse;
    if a == [] {
      AppendNone(b);
    } else {
      assert (a + b)[0] == a[0] && (a + b)[1..] == a[1..] + b;
      FirstOfParts(request, a[1..], b);
    }
  }

  /** A reply to an earlier request of the same service and client answers a request exactly when their numbers are a
      multiple of 65535 apart. */
  lemma LateReplyMatches(request: Bytes, i: nat, earlier: Bytes, j: nat, reply: Bytes)
    requires Numbered(request, i) && Numbered(earlier, j) && j <= i
    requires QmiType(request) == QmiType(earlier) && ClientId(request) == ClientId(earlier)
    requires IsResponse(earlier, reply)
    ensures IsResponse(request, reply) <==> (i - j) % 0xffff == 0
  {
    hide IdOf;
    IdsRepeat(j, i);
  }

  /** So it is taken exactly then: among any other events, with nothing decisive before it, it is handed out, or else the
      call goes as if it had not come. */
  lemma {:induction false} LateReplyTakenExactly(
    s: Shared, call: Call, i: nat, earlier: Bytes, j: nat, reply: Bytes, before: seq<Received>, after: seq<Received>)
    requires Numbered(call.request, i) && Numbered(earlier, j) && j <= i
    requires QmiType(call.request) == QmiType(earlier) && ClientId(call.request) == ClientId(earlier)
    requires IsResponse(earlier, reply) && call.sent == 0 && call.wake == 0 && call.wants
    requires call.events == before + ([Message(reply, true)] + after) && FirstDecisive(call.request, before).None?
    ensures var (_, result, response) := Exchange(s, call);
            var (_, result', response') := Exchange(s, call.(events := before + after));
            if (i - j) % 0xffff == 0 then result == 0 && response == Some(Copied(reply))
            else result == result' && response == response'
  {
    LateReplyMatches(call.request, i, earlier, j, reply);
    hide Copied, OnAll, IsResponse, Numbered;
    var request, late := call.request, [Message(reply, true)] + after;
    assert late[0] == Message(reply, true) && late[1..] == after;
    FirstOfParts(request, before, late);
    FirstOfParts(request, before, after);
    OnlyTheFirstCounts(Asked(s, request), request, call.events);
    OnlyTheFirstCounts(Asked(s, request), request, before + after);
  }

  // ---- the same on bytes ----

  /** Service type and client id, bytes 4 and 5, are the same, and so is the transaction id: byte 7 for service type 0, the
      two bytes at 7 for any other. */
  predicate Match(request: Bytes, m: Bytes) {
    && At(request, 4) == At(m, 4) && At(request, 5) == At(m, 5) && At(request, 7) == At(m, 7)
    && (At(request, 4) != 0 ==> At(request, 8) == At(m, 8))
  }

  lemma MatchIsResponse(request: Bytes, m: Bytes)
    ensures Match(request, m) <==> IsResponse(request, m)
  {
    hide At;
  }

  /** As many bytes as the message's length field, bytes 1 and 2, says, and one more. */
  ghost predicate IsCopy(r: Bytes, m: Bytes) {
    |r| == At(m, 1) + 0x100 * At(m, 2) + 1 && forall i :: 0 <= i < |r| ==> r[i] == At(m, i)
  }

  /** The k-th event is the first message that matches the request, and the device has not gone away before. */
  ghost predicate TakenAt(request: Bytes, events: seq<Received>, k: int) {
    && 0 <= k < |events| && events[k].Message? && Match(request, events[k].m)
    && forall j :: 0 <= j < k ==> events[j].Message? && !Match(request, events[j].m)
  }

  lemma {:induction false} FirstIsTaken(request: Bytes, events: seq<Received>) returns (n: nat)
    ensures var first := FirstDecisive(request, events);
            && (first.Some? && first.value.Message? ==> TakenAt(request, events, n) && first.value == events[n])
            && (forall k :: TakenAt(request, events, k) ==> first.Some? && first.value.Message? && k == n)
  {
    hide Match, IsResponse;
    n := 0;
    if events != [] {
      if events[0].Message? {
        MatchIsResponse(request, events[0].m);
      }
      if events[0].Message? && !IsResponse(request, events[0].m) {
        var m := FirstIsTaken(request, events[1..]);
        n := m + 1;
        MatchIsResponse(request, events[0].m);
        assert !TakenAt(request, events, 0);
        assert forall k :: TakenAt(request, events, k) ==> TakenAt(request, events[1..], k - 1);
      }
    }
  }

  ghost predicate Answerable(call: Call, k: int) {
    TakenAt(call.request, call.events, k) && call.events[k].memory
  }

  /** The result of a call, and whether its answer stays with the exchange; a response is handed out exactly when the call is
      sent and woken, wants one, and the first message to match its own request is there with memory for it; and then it is
      a copy of that message. */
  lemma ResponseIsOwn(s: Shared, call: Call)
    ensures var (after, result, response) := Exchange(s, call);
            var answered := exists k :: Answerable(call, k);
            && result == (if call.sent != 0 then call.sent else if call.wake != 0 then call.wake
                          else if answered then 0 else -22)
            && (response.Some? <==> call.sent == 0 && call.wake == 0 && call.wants && answered)
            && (after.response.Some? <==> call.sent == 0 && answered && (call.wake != 0 || call.wants))
            && forall k :: response.Some? && TakenAt(call.request, call.events, k) ==>
                 IsCopy(response.value, call.events[k].m)
  {
    FirstHandedOut(s, call);
    var n := FirstIsTaken(call.request, call.events);
    hide OnAll, IsResponse, Match, TakenAt, Exchange, Copied, IsCopy;
    var first := FirstDecisive(call.request, call.events);
    if first.Some? && first.value.Message? {
      CopiedIsCopy(first.value.m);
      assert Answerable(call, n) <==> first.value.memory;
    } else {
      assert forall k :: !TakenAt(call.request, call.events, k);
    }
  }

  lemma CopiedIsCopy(m: Bytes)
    ensures IsCopy(Copied(m), m)
  {
  }

  /** When the device goes away, the request pending, if any, is freed, and no response stays with the exchange. */
  lemma GoneForgets(s: Shared)
    ensures var t := OnReceived(s, Gone);
            && t.request.None? && t.lost == s.lost && t.reports == s.reports && t.freed == s.freed + AsSeq(s.request)
            && t.response == if s.request.Some? then None else s.response
  {
    AppendNone(s.freed);
  }

  // ---- reports ----

  /** What a message nobody waits for reports, by service type and message type: revoking client ids, the serving system and
      system information of the network service, the packet service status, and the loopback setting. */
  function ReportOf(m: Bytes): seq<Report> {
    if At(m, 4) == 0x00 && At(m, 8) == 0x24 && At(m, 9) == 0 then [ModemReset]
    else if At(m, 10) != 0 || At(m, 4) == 0x00 then []
    else if At(m, 4) == 0x03 && (At(m, 9) == 0x24 || At(m, 9) == 0x4E) then [NetworkState]
    else if At(m, 4) == 0x01 && At(m, 9) == 0x22 then [DataCalls]
    else if At(m, 4) == 0x1A && At(m, 9) == 0x2F then [Loopback]
    else []
  }

  lemma ReportedIsReport(m: Bytes)
    ensures Reported(m) == ReportOf(m)
  {
    hide At;
  }

  /** The reports of the messages that are not taken as answers. */
  function Reports(pending: Option<Bytes>, events: seq<Received>): seq<Report>
    decreases |events|
  {
    if events == [] then []
    else
      match events[0]
      case Gone => Reports(None, events[1..])
      case Message(m, _) =>
        if pending.Some? && Match(pending.value, m) then Reports(None, events[1..])
        else ReportOf(m) + Reports(pending, events[1..])
  }

  /** Every message is either taken as the answer or reported by its type, in order. */
  lemma {:induction false} ReportedInOrder(s: Shared, events: seq<Received>)
    ensures OnAll(s, events).reports == s.reports + Reports(s.request, events)
    decreases |events|
  {
    hide IsResponse, Match, Copied, Reported, ReportOf;
    AppendNone(s.reports);
    if events != [] {
      var e := events[0];
      ReportedInOrder(OnReceived(s, e), events[1..]);
      if e.Message? {
        if s.request.Some? {
          MatchIsResponse(s.request.value, e.m);
        }
        ReportedIsReport(e.m);
        AppendAssoc(s.reports, ReportOf(e.m), Reports(s.request, events[1..]));
      }
    }
  }

  /** What a call reports: nothing when it is not sent. */
  lemma CallReports(s: Shared, call: Call)
    ensures Exchange(s, call).0.reports
         == s.reports + if call.sent == 0 then Reports(Some(call.request), call.events) else []
  {
    hide OnAll;
    AppendNone(s.reports);
    ReportedInOrder(Asked(s, call.request), call.events);
  }

  // ---- whole runs ----

  /** Between calls messages come in as well. */
  datatype Turn = Between(event: Received) | Talk(call: Call)

  /** The calls of a run with the responses they were handed. */
  function Answers(s: Shared, turns: seq<Turn>): seq<(Call, Option<Bytes>)>
    decreases |turns|
  {
    if turns == [] then []
    else
      match turns[0]
      case Between(e) => Answers(OnReceived(s, e), turns[1..])
      case Talk(call) => [(call, Exchange(s, call).2)] + Answers(Exchange(s, call).0, turns[1..])
  }

  /** In every run each response that is handed out is a copy of the first message of its own call that matches the call's
      own request. */
  lemma {:induction false} EveryResponseIsOwn(s: Shared, turns: seq<Turn>)
    ensures forall a :: a in Answers(s, turns) && a.1.Some? ==>
              exists k :: TakenAt(a.0.request, a.0.events, k) && IsCopy(a.1.value, a.0.events[k].m)
    decreases |turns|
  {
    hide Exchange, IsCopy, Match;
    if turns != [] {
      match turns[0]
      case Between(e) => EveryResponseIsOwn(OnReceived(s, e), turns[1..]);
      case Talk(call) =>
        ResponseIsOwn(s, call);
        EveryResponseIsOwn(Exchange(s, call).0, turns[1..]);
        var response := Exchange(s, call).2;
        if response.Some? {
          var k :| Answerable(call, k);
          assert TakenAt(call.request, call.events, k) && IsCopy(response.value, call.events[k].m);
        }
    }
  }

  // ---- what becomes of requests ----

  /** Every request handed to the exchange, once. */
  ghost function Requests(s: Shared): multiset<Bytes> {
    multiset(s.freed) + multiset(s.lost) + multiset(AsSeq(s.request))
  }

  lemma ReceivedKeepsRequests(s: Shared, e: Received)
    ensures Requests(OnReceived(s, e)) == Requests(s)
    ensures OnReceived(s, e).lost == s.lost
  {
    hide IsResponse, Copied, Reported;
  }

  lemma {:induction false} AllKeepRequests(s: Shared, events: seq<Received>)
    ensures Requests(OnAll(s, events)) == Requests(s) && OnAll(s, events).lost == s.lost
    decreases |events|
  {
    hide OnReceived, Requests;
    if events != [] {
      ReceivedKeepsRequests(s, events[0]);
      AllKeepRequests(OnReceived(s, events[0]), events[1..]);
    }
  }

  lemma {:induction false} PendingUntilDecided(s: Shared, request: Bytes, events: seq<Received>)
    requires s.request == Some(request)
    ensures OnAll(s, events).request.Some? <==> FirstDecisive(request, events).None?
    decreases |events|
  {
    hide IsResponse, Copied, Reported;
    if events != [] {
      var e := events[0];
      if e.Gone? || IsResponse(request, e.m) {
        SettledStays(OnReceived(s, e), events[1..]);
      } else {
        PendingUntilDecided(OnReceived(s, e), request, events[1..]);
      }
    }
  }

  /** A call takes over its request, to be freed once; the one before is lost exactly when it is still pending; and its
      own is left pending exactly when it was not sent or nothing decided it. */
  lemma ExchangeOwnsRequests(s: Shared, call: Call)
    ensures var after := Exchange(s, call).0;
            && Requests(after) == Requests(s) + multiset{call.request}
            && after.lost == s.lost + AsSeq(s.request)
            && (after.request.Some? <==> call.sent != 0 || FirstDecisive(call.request, call.events).None?)
  {
    hide OnAll, Requests;
    var started := Asked(s, call.request);
    AskedTakesOver(s, call.request);
    AllKeepRequests(started, call.events);
    PendingUntilDecided(started, call.request, call.events);
    ResponseIsNoRequest(OnAll(started, call.events));
  }

  lemma AskedTakesOver(s: Shared, request: Bytes)
    ensures Requests(Asked(s, request)) == Requests(s) + multiset{request}
  {
    var lost, pending := multiset(s.lost), multiset(AsSeq(s.request));
    assert multiset(s.lost + AsSeq(s.request)) == lost + pending;
    assert multiset([request]) == multiset{request};
  }

  lemma ResponseIsNoRequest(s: Shared)
    ensures Requests(s.(response := None)) == Requests(s)
  {
  }

  function Called(turns: seq<Turn>): seq<Bytes> {
    if turns == [] then []
    else (if turns[0].Talk? then [turns[0].call.request] else []) + Called(turns[1..])
  }

  function After(s: Shared, turns: seq<Turn>): Shared
    decreases |turns|
  {
    if turns == [] then s
    else
      match turns[0]
      case Between(e) => After(OnReceived(s, e), turns[1..])
      case Talk(call) => After(Exchange(s, call).0, turns[1..])
  }

  /** Over every run each request is freed, lost or still pending, and only one of these. */
  lemma {:induction false} RequestsAccounted(s: Shared, turns: seq<Turn>)
    ensures Requests(After(s, turns)) == Requests(s) + multiset(Called(turns))
    decreases |turns|
  {
    hide Exchange, OnReceived, Requests;
    if turns != [] {
      var rest := turns[1..];
      match turns[0]
      case Between(e) =>
        ReceivedKeepsRequests(s, e);
        RequestsAccounted(OnReceived(s, e), rest);
      case Talk(call) =>
        ExchangeOwnsRequests(s, call);
        RequestsAccounted(Exchange(s, call).0, rest);
        assert multiset([call.request] + Called(rest)) == multiset{call.request} + multiset(Called(rest));
    }
  }

  // ---- in place ----

  class Rendezvous {
    var request: Option<Bytes>
    var response: Option<Bytes>
    var reports: seq<Report>
    ghost var freed: seq<Bytes>
    ghost var lost: seq<Bytes>

    ghost function View(): Shared
      reads this
    {
      Shared(request, response, reports, freed, lost)
    }

    constructor ()
      ensures View() == Shared(None, None, [], [], [])
    {
      request, response, reports := None, None, [];
      freed, lost := [], [];
    }

    method QmiThreadRecvQmi(e: Received)
      modifies this
      ensures View() == OnReceived(old(View()), e)
    {
      match e
      case Gone =>
        if request.Some? {
          freed := freed + [request.value];
          request, response := None, None;
        }
      case Message(m, memory) =>
        if request.Some? && IsResponse(request.value, m) {
          freed := freed + [request.value];
          request := None;
          response := if memory then Some(Copied(m)) else None;
        } else {
          reports := reports + Reported(m);
        }
    }

    /** Without a request nothing happens; otherwise as Exchange says. */
    method QmiThreadSendQmiTimeout(call: Option<Call>) returns (result: int, handed: Option<Bytes>)
      modifies this
      ensures call.None? ==> result == -EINVAL && handed == None && View() == old(View())
      ensures call.Some? ==> (View(), result, handed) == Exchange(old(View()), call.value)
    {
      hide OnReceived;
      handed := None;
      if call == None {
        return -EINVAL, None;
      }
      lost := lost + AsSeq(request);
      request, response := Some(call.value.request), None;
      result := call.value.sent;
      if result == 0 {
        ghost var started := View();
        var left := call.value.events;
        while left != []
          invariant OnAll(View(), left) == OnAll(started, call.value.events)
          decreases |left|
        {
          QmiThreadRecvQmi(left[0]);
          left := left[1..];
        }
        result := call.value.wake;
        if result == 0 {
          if response.Some? && call.value.wants {
            handed := response;
          } else if response.Some? {
            response := None;
          } else {
            result := -EINVAL;
          }
        }
      }
    }
  }
}
