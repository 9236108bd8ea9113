/** The QMI proxy together with a modem that answers control requests in order, and with clients coming and going. */
module QmiProxySystem {
  import opened Wire
  import opened QmiProxyModel
  import opened QmiProxyOrder

  datatype Answer = Answer(req: CtlReq, rsp: Bytes)

  /** inbox: control requests at the modem; outbox: its answers on the way to the proxy; granted: the pairs it has
      given out; answered: the history of answers the proxy has read. */
  datatype System = System(
    proxy: Proxy,
    inbox: seq<CtlReq>,
    outbox: seq<Answer>,
    granted: set<Pair>,
    answered: seq<Answer>)

  datatype Action =
    | Join(fd: int)
    | Say(fd: int, msg: Bytes)
    | Reply(rsp: Bytes)
    | Read
    | Indicate(msg: Bytes)
    | Leave(fd: int)

  function Boot(serverFd: int): System {
    System(Start(serverFd), [], [], {}, [])
  }

  /** The pairs the modem has given out after it sends this answer. */
  function Regrant(granted: set<Pair>, req: CtlReq, rsp: Bytes): set<Pair> {
    if CtlKind(req.msg) == QMICTL_GET_CLIENT_ID && RspOk(rsp) then granted + {RspPair(rsp)}
    else if CtlKind(req.msg) == QMICTL_RELEASE_CLIENT_ID && RspOk(rsp) then granted - {RspPair(rsp)}
    else granted
  }

  /** The effects of a step: what it appends to the history. */
  ghost function Added(before: seq<Effect>, after: seq<Effect>): seq<Effect> {
    if exists added :: before + added == after then var added :| before + added == after; added else []
  }

  /** The proxy's step happens and its new control writes arrive at the modem. */
  ghost function Move(s: System, p: Proxy): System {
    s.(proxy := p, inbox := s.inbox + CtlWrites(Added(s.proxy.log.effects, p.log.effects)))
  }

  predicate Connected(s: System, fd: int) {
    exists i :: 0 <= i < |s.proxy.conns| && s.proxy.conns[i].fd == fd
  }

  predicate Idle(s: System, fd: int) {
    forall i :: 0 <= i < |s.proxy.log.queue| ==> s.proxy.log.queue[i].fd != fd
  }

  /** Descriptors of open connections are distinct, only open connections talk or leave, and the modem answers each
      control request once, with its transaction id and type. */
  predicate Possible(s: System, a: Action) {
    match a
    case Join(fd) => fd != s.proxy.serverFd && !Connected(s, fd)
    case Say(fd, msg) => Connected(s, fd)
    case Reply(rsp) => s.inbox != [] && IsCtlResponse(rsp) && Answers(s.inbox[0].msg, rsp)
    case Read => s.outbox != []
    case Indicate(msg) => !IsCtlResponse(msg)
    case Leave(fd) => Connected(s, fd)
  }

  ghost function JoinStep(s: System, fd: int): System {
    Move(s, Accept(s.proxy, fd))
  }

  ghost function SayStep(s: System, fd: int, msg: Bytes): System {
    Move(s, FromClient(s.proxy, fd, msg))
  }

  function ReplyStep(s: System, rsp: Bytes): System
    requires s.inbox != []
  {
    s.(inbox := s.inbox[1..],
       outbox := s.outbox + [Answer(s.inbox[0], rsp)],
       granted := Regrant(s.granted, s.inbox[0], rsp))
  }

  ghost function ReadStep(s: System): System
    requires s.outbox != []
  {
    Move(s, FromDevice(s.proxy, s.outbox[0].rsp)).(outbox := s.outbox[1..], answered := s.answered + [s.outbox[0]])
  }

  ghost function IndicateStep(s: System, msg: Bytes): System {
    Move(s, FromDevice(s.proxy, msg))
  }

  ghost function LeaveStep(s: System, fd: int): System {
    Move(s, Cleanup(s.proxy, fd, true))
  }

  ghost function Next(s: System, a: Action): System
    requires Possible(s, a)
  {
    match a
    case Join(fd) => JoinStep(s, fd)
    case Say(fd, msg) => SayStep(s, fd, msg)
    case Reply(rsp) => ReplyStep(s, rsp)
    case Read => ReadStep(s)
    case Indicate(msg) => IndicateStep(s, msg)
    case Leave(fd) => LeaveStep(s, fd)
  }

  // ---- one request in flight ----

  /** Exactly one request is outstanding when the queue is not empty, and it is the head of the queue. */
  ghost predicate InFlight(s: System) {
    var q := s.proxy.log.queue;
    if q == [] then s.inbox == [] && s.outbox == []
    else
      || (s.inbox == [q[0]] && s.outbox == [])
      || (s.inbox == [] && |s.outbox| == 1 && s.outbox[0].req == q[0]
          && IsCtlResponse(s.outbox[0].rsp) && Answers(q[0].msg, s.outbox[0].rsp))
  }

  /** The replies that went to clients: copies of control responses. */
  function CtlReplies(effects: seq<Effect>): seq<Effect> {
    if effects == [] then []
    else
      var n := |effects| - 1;
      CtlReplies(effects[..n]) + if effects[n].ClientWrite? && IsCtl(effects[n].reply) then [effects[n]] else []
  }

  lemma {:induction false} CtlRepliesConcat(a: seq<Effect>, b: seq<Effect>)
    ensures CtlReplies(a + b) == CtlReplies(a) + CtlReplies(b)
  {
    if b == [] {
      assert a + b == a;
    } else {
      var n := |b| - 1;
      assert (a + b)[..|a + b| - 1] == a + b[..n];
      CtlRepliesConcat(a, b[..n]);
    }
  }

  /** Each answer to a client's request, sent to the client that issued it; answers to the proxy's own are not passed on. */
  function Deliveries(answered: seq<Answer>, serverFd: int): seq<Effect> {
    if answered == [] then []
    else
      var n := |answered| - 1;
      Deliveries(answered[..n], serverFd)
      + if answered[n].req.fd != serverFd then [ClientWrite(answered[n].req.fd, answered[n].rsp)] else []
  }

  function Requests(answered: seq<Answer>): seq<CtlReq> {
    seq(|answered|, i requires 0 <= i < |answered| => answered[i].req)
  }

  function Behind(queue: seq<CtlReq>): seq<CtlReq> {
    if queue == [] then [] else queue[1..]
  }

  /** The accepted requests are those answered and then those queued; they are also those written, once and in order,
      and then those behind the head; and every answer is delivered. */
  ghost predicate InOrder(s: System) {
    var l := s.proxy.log;
    && Requests(s.answered) + l.queue == l.accepted
    && CtlWrites(l.effects) + Behind(l.queue) == l.accepted
    && CtlReplies(l.effects) == Deliveries(s.answered, s.proxy.serverFd)
  }

  ghost predicate FdsDistinct(conns: seq<Conn>, serverFd: int) {
    && (forall i :: 0 <= i < |conns| ==> conns[i].fd != serverFd)
    && (forall i, j :: 0 <= i < j < |conns| ==> conns[i].fd != conns[j].fd)
  }

  ghost predicate Owned(s: System) {
    && FdsDistinct(s.proxy.conns, s.proxy.serverFd)
    && forall i :: 0 <= i < |s.proxy.log.queue| ==>
         s.proxy.log.queue[i].fd == s.proxy.serverFd || Connected(s, s.proxy.log.queue[i].fd)
  }

  ghost predicate Fifo(s: System) {
    s.proxy.serverFd != -1 && InFlight(s) && InOrder(s) && Owned(s)
  }

  /** No client leaves with a control request in the queue. */
  predicate Polite(s: System, a: Action) {
    Possible(s, a) && (a.Leave? ==> Idle(s, a.fd))
  }

  lemma {:induction false} ReplyOnce(conns: seq<Conn>, fd: int, serverFd: int, rsp: Bytes)
    requires FdsDistinct(conns, serverFd)
    ensures ReplyWrites(conns, fd, rsp) ==
            if exists i :: 0 <= i < |conns| && conns[i].fd == fd then [ClientWrite(fd, rsp)] else []
  {
    if conns != [] {
      var n := |conns| - 1;
      ReplyOnce(conns[..n], fd, serverFd, rsp);
      assert conns == conns[..n] + [conns[n]];
      if i :| 0 <= i < n && conns[i].fd == fd {
        assert conns[..n][i].fd == fd;
      }
    }
  }

  // ---- the invariant, action by action ----

  lemma {:induction false} MoveWrites(s: System, p: Proxy, added: seq<Effect>)
    requires p.log.effects == s.proxy.log.effects + added
    ensures Move(s, p) == s.(proxy := p, inbox := s.inbox + CtlWrites(added))
    ensures CtlWrites(p.log.effects) == CtlWrites(s.proxy.log.effects) + CtlWrites(added)
    ensures CtlReplies(p.log.effects) == CtlReplies(s.proxy.log.effects) + CtlReplies(added)
  {
    AppendCancel(s.proxy.log.effects, Added(s.proxy.log.effects, p.log.effects), added);
    CtlWritesConcat(s.proxy.log.effects, added);
    CtlRepliesConcat(s.proxy.log.effects, added);
  }

  lemma MoveSilent(s: System, p: Proxy)
    requires p.log.effects == s.proxy.log.effects
    ensures Move(s, p) == s.(proxy := p)
  {
    assert s.proxy.log.effects + [] == s.proxy.log.effects;
    MoveWrites(s, p, []);
  }

  lemma OneEffect(e: Effect)
    ensures CtlWrites([e]) == if e.CtlWrite? then [e.req] else []
    ensures CtlReplies([e]) == if e.ClientWrite? && IsCtl(e.reply) then [e] else []
  {
    assert [e][..0] == [];
  }

  ghost predicate SameTraffic(s: System, t: System) {
    && t.inbox == s.inbox && t.outbox == s.outbox && t.answered == s.answered
    && t.proxy.serverFd == s.proxy.serverFd
    && t.proxy.log.queue == s.proxy.log.queue && t.proxy.log.accepted == s.proxy.log.accepted
    && CtlWrites(t.proxy.log.effects) == CtlWrites(s.proxy.log.effects)
    && CtlReplies(t.proxy.log.effects) == CtlReplies(s.proxy.log.effects)
  }

  lemma SameTrafficOrder(s: System, t: System)
    requires SameTraffic(s, t)
    ensures InFlight(s) ==> InFlight(t)
    ensures InOrder(s) ==> InOrder(t)
  {
  }

  ghost predicate MoreConnected(s: System, t: System) {
    forall fd :: Connected(s, fd) ==> Connected(t, fd)
  }

  lemma SameFds(s: System, t: System)
    requires |s.proxy.conns| <= |t.proxy.conns|
    requires forall i :: 0 <= i < |s.proxy.conns| ==> t.proxy.conns[i].fd == s.proxy.conns[i].fd
    ensures MoreConnected(s, t)
  {
    forall fd | Connected(s, fd) ensures Connected(t, fd) {
      var i :| 0 <= i < |s.proxy.conns| && s.proxy.conns[i].fd == fd;
      assert t.proxy.conns[i].fd == fd;
    }
  }

  ghost function Queued(s: System, fd: int, msg: Bytes): System {
    Move(s, s.proxy.(log := Enqueue(s.proxy.log, fd, msg)))
  }

  /** The two ways of queueing a request: behind others, or at the head, and then it is written. */
  lemma QueuedParts(s: System, fd: int, msg: Bytes)
    ensures var l, t := s.proxy.log, Queued(s, fd, msg);
            var req := CtlReq(|l.accepted|, fd, msg);
            var written := if l.queue == [] then [req] else [];
            && t == s.(proxy := t.proxy, inbox := s.inbox + written)
            && t.proxy.serverFd == s.proxy.serverFd && t.proxy.conns == s.proxy.conns
            && t.proxy.log.queue == l.queue + [req] && t.proxy.log.accepted == l.accepted + [req]
            && CtlWrites(t.proxy.log.effects) == CtlWrites(l.effects) + written
            && CtlReplies(t.proxy.log.effects) == CtlReplies(l.effects)
  {
    var l := s.proxy.log;
    var req := CtlReq(|l.accepted|, fd, msg);
    var p := s.proxy.(log := Enqueue(l, fd, msg));
    OneEffect(CtlWrite(req));
    if l.queue == [] {
      MoveWrites(s, p, [CtlWrite(req)]);
    } else {
      MoveSilent(s, p);
    }
  }

  lemma QueuedInFlight(s: System, fd: int, msg: Bytes)
    requires InFlight(s)
    ensures InFlight(Queued(s, fd, msg))
  {
    QueuedParts(s, fd, msg);
  }

  lemma QueuedInOrder(s: System, fd: int, msg: Bytes)
    requires InOrder(s)
    ensures InOrder(Queued(s, fd, msg))
  {
    QueuedParts(s, fd, msg);
  }

  lemma QueuedOwned(s: System, fd: int, msg: Bytes)
    requires Owned(s) && (fd == s.proxy.serverFd || Connected(s, fd))
    ensures Owned(Queued(s, fd, msg))
  {
    QueuedParts(s, fd, msg);
    SameFds(s, Queued(s, fd, msg));
  }

  lemma QueuedFifo(s: System, fd: int, msg: Bytes)
    requires Fifo(s) && (fd == s.proxy.serverFd || Connected(s, fd))
    ensures Fifo(Queued(s, fd, msg))
  {
    QueuedInFlight(s, fd, msg);
    QueuedInOrder(s, fd, msg);
    QueuedOwned(s, fd, msg);
  }

  ghost function Released(s: System, clients: seq<Pair>): System {
    Move(s, s.proxy.(log := ReleaseAll(s.proxy.log, s.proxy.serverFd, clients)))
  }

  lemma {:induction false} ReleaseAllGrows(l: Ledger, serverFd: int, clients: seq<Pair>) returns (added: seq<Effect>)
    ensures ReleaseAll(l, serverFd, clients).effects == l.effects + added
    decreases |clients|
  {
    if clients == [] {
      added := [];
    } else {
      var l1 := Enqueue(l, serverFd, ReleaseMsg(clients[0]));
      var more := ReleaseAllGrows(l1, serverFd, clients[1..]);
      added := (if l.queue == [] then [CtlWrite(l1.queue[0])] else []) + more;
    }
  }

  lemma MoveTwice(s: System, p: Proxy, q: Proxy, a: seq<Effect>, b: seq<Effect>)
    requires p.log.effects == s.proxy.log.effects + a && q.log.effects == p.log.effects + b
    ensures Move(Move(s, p), q) == Move(s, q)
  {
    MoveWrites(s, p, a);
    MoveWrites(Move(s, p), q, b);
    AppendAssoc(s.proxy.log.effects, a, b);
    MoveWrites(s, q, a + b);
    CtlWritesConcat(a, b);
    AppendAssoc(s.inbox, CtlWrites(a), CtlWrites(b));
  }

  /** Asking for a list of pairs to be released is asking for each in turn. */
  lemma ReleasedStep(s: System, clients: seq<Pair>)
    requires clients != []
    ensures Released(s, clients) == Released(Queued(s, s.proxy.serverFd, ReleaseMsg(clients[0])), clients[1..])
  {
    var l := s.proxy.log;
    var l1 := Enqueue(l, s.proxy.serverFd, ReleaseMsg(clients[0]));
    var b := ReleaseAllGrows(l1, s.proxy.serverFd, clients[1..]);
    MoveTwice(s, s.proxy.(log := l1), s.proxy.(log := ReleaseAll(l1, s.proxy.serverFd, clients[1..])),
              if l.queue == [] then [CtlWrite(l1.queue[0])] else [], b);
  }

  lemma {:induction false} ReleasedInFlight(s: System, clients: seq<Pair>)
    requires InFlight(s)
    ensures InFlight(Released(s, clients))
    decreases |clients|
  {
    if clients == [] {
      MoveSilent(s, s.proxy);
    } else {
      QueuedInFlight(s, s.proxy.serverFd, ReleaseMsg(clients[0]));
      ReleasedStep(s, clients);
      ReleasedInFlight(Queued(s, s.proxy.serverFd, ReleaseMsg(clients[0])), clients[1..]);
    }
  }

  lemma {:induction false} ReleasedFifo(s: System, clients: seq<Pair>)
    requires Fifo(s)
    ensures Fifo(Released(s, clients))
    decreases |clients|
  {
    if clients == [] {
      MoveSilent(s, s.proxy);
    } else {
      QueuedFifo(s, s.proxy.serverFd, ReleaseMsg(clients[0]));
      ReleasedStep(s, clients);
      ReleasedFifo(Queued(s, s.proxy.serverFd, ReleaseMsg(clients[0])), clients[1..]);
    }
  }

  function ReleaseReqs(first: nat, serverFd: int, clients: seq<Pair>): seq<CtlReq> {
    seq(|clients|, i requires 0 <= i < |clients| => CtlReq(first + i, serverFd, ReleaseMsg(clients[i])))
  }

  /** The queue after the releases: the old queue, then one request of the proxy's own for each pair. */
  lemma {:induction false} ReleaseAllQueue(l: Ledger, serverFd: int, clients: seq<Pair>)
    ensures ReleaseAll(l, serverFd, clients).queue == l.queue + ReleaseReqs(|l.accepted|, serverFd, clients)
    decreases |clients|
  {
    if clients != [] {
      var l1 := Enqueue(l, serverFd, ReleaseMsg(clients[0]));
      ReleaseAllQueue(l1, serverFd, clients[1..]);
      assert ReleaseReqs(|l.accepted|, serverFd, clients)
          == [CtlReq(|l.accepted|, serverFd, ReleaseMsg(clients[0]))]
             + ReleaseReqs(|l1.accepted|, serverFd, clients[1..]);
    } else {
      assert ReleaseReqs(|l.accepted|, serverFd, clients) == [];
    }
  }

  /** The parts of a hang-up: the releases are queued, the client's first queued request and its connection go. */
  lemma LeaveParts(s: System, fd: int) returns (i: nat, reqs: seq<CtlReq>)
    requires Connected(s, fd)
    ensures i < |s.proxy.conns| && s.proxy.conns[i].fd == fd
    ensures var clients := s.proxy.conns[i].clients;
            var t, u := Released(s, clients), LeaveStep(s, fd);
            && reqs == ReleaseReqs(|s.proxy.log.accepted|, s.proxy.serverFd, clients)
            && t.proxy.log.queue == s.proxy.log.queue + reqs
            && t.proxy.conns == s.proxy.conns && t.proxy.serverFd == s.proxy.serverFd
            && t.outbox == s.outbox && t.granted == s.granted
            && u == t.(proxy := Proxy(s.proxy.serverFd, s.proxy.conns[..i] + s.proxy.conns[i + 1..],
                                      t.proxy.log.(queue := RemoveFirst(t.proxy.log.queue, fd))))
  {
    i := FindConn(s.proxy.conns, fd);
    reqs := ReleaseReqs(|s.proxy.log.accepted|, s.proxy.serverFd, s.proxy.conns[i].clients);
    ReleaseAllQueue(s.proxy.log, s.proxy.serverFd, s.proxy.conns[i].clients);
  }

  lemma {:induction false} NothingToRemove(queue: seq<CtlReq>, fd: int)
    requires forall i :: 0 <= i < |queue| ==> queue[i].fd != fd
    ensures RemoveFirst(queue, fd) == queue
  {
    var k := RemoveFirstAt(queue, fd);
  }

  /** When an idle client leaves, its releases are queued and its connection goes; no request is dropped. */
  lemma LeaveIdle(s: System, fd: int) returns (i: nat, reqs: seq<CtlReq>)
    requires FdsDistinct(s.proxy.conns, s.proxy.serverFd) && Connected(s, fd) && Idle(s, fd)
    ensures i < |s.proxy.conns| && s.proxy.conns[i].fd == fd
    ensures var clients := s.proxy.conns[i].clients;
            var t, u := Released(s, clients), LeaveStep(s, fd);
            && reqs == ReleaseReqs(|s.proxy.log.accepted|, s.proxy.serverFd, clients)
            && u == t.(proxy := t.proxy.(conns := s.proxy.conns[..i] + s.proxy.conns[i + 1..]))
            && u.proxy.log.queue == s.proxy.log.queue + reqs
            && u.proxy.serverFd == s.proxy.serverFd && u.outbox == s.outbox && u.granted == s.granted
  {
    i, reqs := LeaveParts(s, fd);
    NothingToRemove(s.proxy.log.queue + reqs, fd);
  }

  lemma ConnectedAfterLeave(s: System, t: System, i: nat, fd: int)
    requires i < |s.proxy.conns| && s.proxy.conns[i].fd != fd && Connected(s, fd)
    requires t.proxy.conns == s.proxy.conns[..i] + s.proxy.conns[i + 1..]
    ensures Connected(t, fd)
  {
    var c :| 0 <= c < |s.proxy.conns| && s.proxy.conns[c].fd == fd;
    assert t.proxy.conns[if c < i then c else c - 1].fd == fd;
  }

  lemma FdsDistinctAfterLeave(conns: seq<Conn>, serverFd: int, i: nat)
    requires FdsDistinct(conns, serverFd) && i < |conns|
    ensures FdsDistinct(conns[..i] + conns[i + 1..], serverFd)
  {
    var rest := conns[..i] + conns[i + 1..];
    assert forall k :: 0 <= k < |rest| ==> rest[k] == conns[if k < i then k else k + 1];
  }

  lemma LeaveOwned(s: System, t: System, i: nat, reqs: seq<CtlReq>)
    requires Owned(s) && i < |s.proxy.conns| && Idle(s, s.proxy.conns[i].fd)
    requires t.proxy.serverFd == s.proxy.serverFd && t.proxy.conns == s.proxy.conns[..i] + s.proxy.conns[i + 1..]
    requires t.proxy.log.queue == s.proxy.log.queue + reqs
    requires forall j :: 0 <= j < |reqs| ==> reqs[j].fd == s.proxy.serverFd
    ensures Owned(t)
  {
    FdsDistinctAfterLeave(s.proxy.conns, s.proxy.serverFd, i);
    forall k | 0 <= k < |t.proxy.log.queue|
      ensures t.proxy.log.queue[k].fd == t.proxy.serverFd || Connected(t, t.proxy.log.queue[k].fd)
    {
      if k < |s.proxy.log.queue| && s.proxy.log.queue[k].fd != s.proxy.serverFd {
        ConnectedAfterLeave(s, t, i, s.proxy.log.queue[k].fd);
      }
    }
  }

  lemma DropConnFifo(s: System, r: System, t: System, i: nat, reqs: seq<CtlReq>)
    requires Owned(s) && i < |s.proxy.conns| && Idle(s, s.proxy.conns[i].fd)
    requires Fifo(r) && SameTraffic(r, t) && r.proxy.log.queue == s.proxy.log.queue + reqs
    requires t.proxy.serverFd == s.proxy.serverFd && t.proxy.conns == s.proxy.conns[..i] + s.proxy.conns[i + 1..]
    requires forall j :: 0 <= j < |reqs| ==> reqs[j].fd == s.proxy.serverFd
    ensures Fifo(t)
  {
    SameTrafficOrder(r, t);
    LeaveOwned(s, t, i, reqs);
  }

  lemma LeaveFifo(s: System, fd: int)
    requires Fifo(s) && Connected(s, fd) && Idle(s, fd)
    ensures Fifo(LeaveStep(s, fd))
  {
    var i, reqs := LeaveIdle(s, fd);
    ReleasedFifo(s, s.proxy.conns[i].clients);
    DropConnFifo(s, Released(s, s.proxy.conns[i].clients), LeaveStep(s, fd), i, reqs);
  }

  lemma {:induction false} ConnWritesNoCtl(fd: int, clients: seq<Pair>, msg: Bytes)
    requires !IsCtl(msg)
    ensures CtlReplies(ConnWrites(fd, clients, msg)) == []
  {
    if clients != [] {
      var n := |clients| - 1;
      ConnWritesNoCtl(fd, clients[..n], msg);
      CtlRepliesConcat(ConnWrites(fd, clients[..n], msg), if Hits(clients[n], msg) then [ClientWrite(fd, msg)] else []);
      OneEffect(ClientWrite(fd, msg));
    }
  }

  lemma {:induction false} ServiceWritesNoCtl(conns: seq<Conn>, msg: Bytes)
    requires !IsCtl(msg)
    ensures CtlReplies(ServiceWrites(conns, msg)) == []
  {
    if conns != [] {
      var n := |conns| - 1;
      ServiceWritesNoCtl(conns[..n], msg);
      ConnWritesNoCtl(conns[n].fd, conns[n].clients, msg);
      CtlRepliesConcat(ServiceWrites(conns[..n], msg), ConnWrites(conns[n].fd, conns[n].clients, msg));
    }
  }

  /** A step that leaves connections, queue and control traffic alone. */
  lemma QuietFifo(s: System, t: System)
    requires Fifo(s) && SameTraffic(s, t) && t.proxy.conns == s.proxy.conns
    ensures Fifo(t)
  {
    SameTrafficOrder(s, t);
    SameFds(s, t);
  }

  lemma IndicateQuiet(s: System, msg: Bytes)
    requires !IsCtlResponse(msg)
    ensures var t := IndicateStep(s, msg);
            SameTraffic(s, t) && t.proxy.conns == s.proxy.conns && t.granted == s.granted
  {
    if s.proxy.serverFd == -1 || IsCtl(msg) {
      MoveSilent(s, s.proxy);
    } else {
      MoveWrites(s, FromDevice(s.proxy, msg), ServiceWrites(s.proxy.conns, msg));
      ServiceWritesAreReplies(s.proxy.conns, msg);
      ServiceWritesNoCtl(s.proxy.conns, msg);
    }
  }

  lemma SayQuiet(s: System, fd: int, msg: Bytes)
    requires s.proxy.serverFd != -1
    ensures Queues(msg) ==> SayStep(s, fd, msg) == Queued(s, fd, msg)
    ensures !Queues(msg) ==>
              var t := SayStep(s, fd, msg);
              SameTraffic(s, t) && t.proxy.conns == s.proxy.conns && t.granted == s.granted
  {
    if !IsCtl(msg) {
      MoveWrites(s, FromClient(s.proxy, fd, msg), [MuxWrite(msg)]);
      OneEffect(MuxWrite(msg));
    } else if !Queues(msg) {
      MoveSilent(s, s.proxy);
    }
  }

  lemma JoinFifo(s: System, fd: int)
    requires Fifo(s) && fd != s.proxy.serverFd && !Connected(s, fd)
    ensures Fifo(JoinStep(s, fd))
  {
    var t := JoinStep(s, fd);
    MoveSilent(s, Accept(s.proxy, fd));
    SameTrafficOrder(s, t);
    SameFds(s, t);
    JoinDistinct(s, fd);
  }

  lemma JoinDistinct(s: System, fd: int)
    requires FdsDistinct(s.proxy.conns, s.proxy.serverFd) && fd != s.proxy.serverFd && !Connected(s, fd)
    ensures FdsDistinct(s.proxy.conns + [Conn(fd, [])], s.proxy.serverFd)
  {
    assert forall i :: 0 <= i < |s.proxy.conns| ==> s.proxy.conns[i].fd != fd;
  }

  lemma ReplyFifo(s: System, rsp: Bytes)
    requires Fifo(s) && Possible(s, Reply(rsp))
    ensures Fifo(ReplyStep(s, rsp))
  {
    SameFds(s, ReplyStep(s, rsp));
  }

  /** What reading an answer adds to the writes: the reply to its issuer, then the next request. */
  function ReadWrites(s: System): seq<Effect>
    requires s.outbox != [] && s.proxy.log.queue != []
  {
    var req := s.outbox[0].req;
    var rest := s.proxy.log.queue[1..];
    (if req.fd == s.proxy.serverFd then [] else ReplyWrites(s.proxy.conns, req.fd, s.outbox[0].rsp))
    + if rest == [] then [] else [CtlWrite(rest[0])]
  }

  function ReadConns(s: System): seq<Conn>
    requires s.outbox != []
  {
    var req := s.outbox[0].req;
    if req.fd == s.proxy.serverFd then s.proxy.conns else NoteAll(s.proxy.conns, req.fd, s.outbox[0].rsp)
  }

  lemma ReadProxy(s: System)
    requires s.proxy.serverFd != -1 && InFlight(s) && s.outbox != []
    ensures FromDevice(s.proxy, s.outbox[0].rsp) ==
            Proxy(s.proxy.serverFd, ReadConns(s),
                  Ledger(s.proxy.log.queue[1..], s.proxy.log.accepted, s.proxy.log.effects + ReadWrites(s)))
  {
  }

  lemma ReadWritesParts(s: System)
    requires s.proxy.log.queue != [] && s.outbox != [] && s.outbox[0].req == s.proxy.log.queue[0]
    requires FdsDistinct(s.proxy.conns, s.proxy.serverFd)
    requires s.outbox[0].req.fd == s.proxy.serverFd || Connected(s, s.outbox[0].req.fd)
    requires IsCtl(s.outbox[0].rsp)
    ensures CtlWrites(ReadWrites(s)) == if |s.proxy.log.queue| == 1 then [] else [s.proxy.log.queue[1]]
    ensures var req, rsp := s.outbox[0].req, s.outbox[0].rsp;
            CtlReplies(ReadWrites(s)) == if req.fd == s.proxy.serverFd then [] else [ClientWrite(req.fd, rsp)]
  {
    assert CtlWrites([]) == [] && CtlReplies([]) == [];
    hide CtlWrites, CtlReplies, ReplyWrites;
    var req, rsp := s.outbox[0].req, s.outbox[0].rsp;
    var rest := s.proxy.log.queue[1..];
    var next := if rest == [] then [] else [CtlWrite(rest[0])];
    var replies := if req.fd == s.proxy.serverFd then [] else ReplyWrites(s.proxy.conns, req.fd, rsp);
    CtlWritesConcat(replies, next);
    CtlRepliesConcat(replies, next);
    ReplyWritesAreReplies(s.proxy.conns, req.fd, rsp);
    ReplyOnce(s.proxy.conns, req.fd, s.proxy.serverFd, rsp);
    OneEffect(ClientWrite(req.fd, rsp));
    if rest != [] {
      OneEffect(CtlWrite(rest[0]));
    }
  }

  /** The state after reading an answer. */
  lemma ReadParts(s: System)
    requires s.proxy.serverFd != -1 && InFlight(s) && s.outbox != []
    requires FdsDistinct(s.proxy.conns, s.proxy.serverFd)
    requires s.outbox[0].req.fd == s.proxy.serverFd || Connected(s, s.outbox[0].req.fd)
    ensures var t, l := ReadStep(s), s.proxy.log;
            var req, rsp := s.outbox[0].req, s.outbox[0].rsp;
            var written := if |l.queue| == 1 then [] else [l.queue[1]];
            && t == System(t.proxy, written, [], s.granted, s.answered + [s.outbox[0]])
            && t.proxy.serverFd == s.proxy.serverFd && t.proxy.conns == ReadConns(s)
            && t.proxy.log.queue == l.queue[1..] && t.proxy.log.accepted == l.accepted
            && CtlWrites(t.proxy.log.effects) == CtlWrites(l.effects) + written
            && CtlReplies(t.proxy.log.effects)
                 == CtlReplies(l.effects) + if req.fd == s.proxy.serverFd then [] else [ClientWrite(req.fd, rsp)]
  {
    hide At, Le16At, CtlWrites, CtlReplies, ReadWrites, ReadConns, FromDevice;
    ReadProxy(s);
    ReadWritesParts(s);
    MoveWrites(s, FromDevice(s.proxy, s.outbox[0].rsp), ReadWrites(s));
  }

  lemma ReadInOrder(s: System, t: System)
    requires InOrder(s) && s.outbox != [] && s.proxy.log.queue != [] && s.outbox[0].req == s.proxy.log.queue[0]
    requires t.proxy.log.queue == s.proxy.log.queue[1..] && t.proxy.log.accepted == s.proxy.log.accepted
    requires CtlWrites(t.proxy.log.effects) ==
             CtlWrites(s.proxy.log.effects) + if |s.proxy.log.queue| == 1 then [] else [s.proxy.log.queue[1]]
    requires t.answered == s.answered + [s.outbox[0]] && t.proxy.serverFd == s.proxy.serverFd
    requires var req, rsp := s.outbox[0].req, s.outbox[0].rsp;
             CtlReplies(t.proxy.log.effects) ==
             CtlReplies(s.proxy.log.effects) + if req.fd == s.proxy.serverFd then [] else [ClientWrite(req.fd, rsp)]
    ensures InOrder(t)
  {
    assert t.answered[..|s.answered|] == s.answered;
    assert Requests(t.answered) == Requests(s.answered) + [s.proxy.log.queue[0]];
    ShiftHead(Requests(s.answered), s.proxy.log.queue);
    if t.proxy.log.queue != [] {
      ShiftHead(CtlWrites(s.proxy.log.effects), t.proxy.log.queue);
    }
  }

  lemma ShiftHead<T>(done: seq<T>, queue: seq<T>)
    requires queue != []
    ensures done + [queue[0]] + queue[1..] == done + queue
  {
  }

  lemma ReadOwned(s: System, t: System)
    requires Owned(s) && s.proxy.log.queue != []
    requires t.proxy.log.queue == s.proxy.log.queue[1..] && t.proxy.serverFd == s.proxy.serverFd
    requires |t.proxy.conns| == |s.proxy.conns|
    requires forall i :: 0 <= i < |s.proxy.conns| ==> t.proxy.conns[i].fd == s.proxy.conns[i].fd
    ensures Owned(t)
  {
    SameFds(s, t);
    assert forall k :: 0 <= k < |t.proxy.log.queue| ==> t.proxy.log.queue[k] == s.proxy.log.queue[k + 1];
  }

  lemma ReadFifo(s: System)
    requires Fifo(s) && s.outbox != []
    ensures Fifo(ReadStep(s))
  {
    assert s.outbox[0].req == s.proxy.log.queue[0];
    ReadParts(s);
    ReadInOrder(s, ReadStep(s));
    ReadOwned(s, ReadStep(s));
  }

  lemma NextFifo(s: System, a: Action)
    requires Fifo(s) && Polite(s, a)
    ensures Fifo(Next(s, a))
  {
    match a
    case Join(fd) => JoinFifo(s, fd);
    case Say(fd, msg) =>
      SayQuiet(s, fd, msg);
      if Queues(msg) {
        QueuedFifo(s, fd, msg);
      } else {
        QuietFifo(s, SayStep(s, fd, msg));
      }
    case Reply(rsp) => ReplyFifo(s, rsp);
    case Read => ReadFifo(s);
    case Indicate(msg) =>
      IndicateQuiet(s, msg);
      QuietFifo(s, IndicateStep(s, msg));
    case Leave(fd) => LeaveFifo(s, fd);
  }

  // ---- whole runs ----

  /** A run of the proxy, its modem and its clients. */
  ghost predicate PossibleRun(serverFd: int, actions: seq<Action>, states: seq<System>) {
    && serverFd != -1
    && |states| == |actions| + 1
    && states[0] == Boot(serverFd)
    && forall i :: 0 <= i < |actions| ==> Possible(states[i], actions[i]) && states[i + 1] == Next(states[i], actions[i])
  }

  /** A run in which no client leaves with a control request queued. */
  ghost predicate PoliteRun(serverFd: int, actions: seq<Action>, states: seq<System>) {
    && PossibleRun(serverFd, actions, states)
    && forall i :: 0 <= i < |actions| ==> Polite(states[i], actions[i])
  }

  lemma BootFifo(serverFd: int)
    requires serverFd != -1
    ensures Fifo(Boot(serverFd))
  {
  }

  lemma NextKeepsServer(s: System, a: Action)
    requires Possible(s, a)
    ensures Next(s, a).proxy.serverFd == s.proxy.serverFd
  {
    hide IsCtl, IsCtlResponse, Answers, ReleaseAll, RemoveFirst, ServiceWrites, ReplyWrites;
  }

  lemma {:induction false} RunFifo(serverFd: int, actions: seq<Action>, states: seq<System>, k: nat)
    requires PoliteRun(serverFd, actions, states) && k < |states|
    ensures Fifo(states[k]) && states[k].proxy.serverFd == serverFd
  {
    hide InFlight, InOrder, Owned, Next;
    if k == 0 {
      BootFifo(serverFd);
    } else {
      RunFifo(serverFd, actions, states, k - 1);
      NextFifo(states[k - 1], actions[k - 1]);
      NextKeepsServer(states[k - 1], actions[k - 1]);
    }
  }

  /** In every state of every such run: the queue is not empty exactly when one request is outstanding at the modem,
      and that is the head; the requests written are the accepted ones, in order, up to the head; the i-th answer read
      answers the i-th accepted request; and the control responses clients were sent are the answers to clients'
      requests, in order, each sent once and to its issuer. */
  lemma {:induction false} OneInFlightFirstInFirstOut(serverFd: int, actions: seq<Action>, states: seq<System>, k: nat)
    requires PoliteRun(serverFd, actions, states) && k < |states|
    ensures var s := states[k];
            var l := s.proxy.log;
            && (l.queue != [] <==> |s.inbox| + |s.outbox| == 1)
            && |s.inbox| + |s.outbox| <= 1
            && (s.inbox != [] ==> s.inbox[0] == l.queue[0])
            && (s.outbox != [] ==> s.outbox[0].req == l.queue[0])
            && Requests(s.answered) + l.queue == l.accepted
            && CtlWrites(l.effects) + Behind(l.queue) == l.accepted
            && CtlReplies(l.effects) == Deliveries(s.answered, serverFd)
  {
    RunFifo(serverFd, actions, states, k);
  }
}
