/** Clients that hang up with a control request queued: what goes wrong with the QMI proxy, and exactly when. */
module QmiProxyHangUp {
  import opened Wire
  import opened QmiProxyModel
  import opened QmiProxyOrder
  import opened QmiProxySystem

  // ---- first in, first out holds exactly in runs without such a hang-up ----

  lemma {:induction false} ReleaseAllAccepted(l: Ledger, serverFd: int, clients: seq<Pair>)
    ensures ReleaseAll(l, serverFd, clients).accepted == l.accepted + ReleaseReqs(|l.accepted|, serverFd, clients)
    decreases |clients|
  {
    if clients == [] {
      AppendNone(l.accepted);
    } else {
      var l1 := Enqueue(l, serverFd, ReleaseMsg(clients[0]));
      ReleaseAllAccepted(l1, serverFd, clients[1..]);
      assert ReleaseReqs(|l.accepted|, serverFd, clients)
          == [CtlReq(|l.accepted|, serverFd, ReleaseMsg(clients[0]))]
             + ReleaseReqs(|l1.accepted|, serverFd, clients[1..]);
    }
  }

  lemma LeaveQueueAndHistory(s: System, fd: int) returns (reqs: seq<CtlReq>)
    requires Connected(s, fd)
    ensures forall j :: 0 <= j < |reqs| ==> reqs[j].fd == s.proxy.serverFd
    ensures var l := LeaveStep(s, fd).proxy.log;
            && l.queue == RemoveFirst(s.proxy.log.queue + reqs, fd) && l.accepted == s.proxy.log.accepted + reqs
    ensures LeaveStep(s, fd).answered == s.answered && LeaveStep(s, fd).proxy.serverFd == s.proxy.serverFd
  {
    hide ReleaseAll;
    var i := FindConn(s.proxy.conns, fd);
    reqs := ReleaseReqs(|s.proxy.log.accepted|, s.proxy.serverFd, s.proxy.conns[i].clients);
    ReleaseAllQueue(s.proxy.log, s.proxy.serverFd, s.proxy.conns[i].clients);
    ReleaseAllAccepted(s.proxy.log, s.proxy.serverFd, s.proxy.conns[i].clients);
  }

  /** The leaver's own request is forgotten, answered or not. */
  lemma BusyLeaveForgets(s: System, fd: int)
    requires InOrder(s) && Connected(s, fd) && !Idle(s, fd)
    ensures !InOrder(LeaveStep(s, fd))
  {
    hide CtlWrites, CtlReplies, Deliveries;
    var reqs := LeaveQueueAndHistory(s, fd);
    var q := s.proxy.log.queue;
    var n := RemoveFirstAt(q + reqs, fd);
    var i :| 0 <= i < |q| && q[i].fd == fd;
    assert (q + reqs)[i].fd == fd;
    var t := LeaveStep(s, fd);
    assert |Requests(t.answered) + t.proxy.log.queue| < |t.proxy.log.accepted|;
  }

  /** A hang-up keeps the whole law exactly when the leaver has no control request queued. */
  lemma LeaveKeepsFifoExactly(s: System, fd: int)
    requires Fifo(s) && Connected(s, fd)
    ensures Fifo(LeaveStep(s, fd)) <==> Idle(s, fd)
  {
    if Idle(s, fd) {
      LeaveFifo(s, fd);
    } else {
      BusyLeaveForgets(s, fd);
    }
  }

  /** One outstanding at a time, requests and answers in order of acceptance, each answer to its issuer. */
  ghost predicate Lawful(s: System) {
    InFlight(s) && InOrder(s)
  }

  lemma {:induction false} LawfulSoFar(serverFd: int, actions: seq<Action>, states: seq<System>, k: nat)
    requires PossibleRun(serverFd, actions, states) && k < |states|
    requires forall i :: 0 <= i < |states| ==> Lawful(states[i])
    ensures Fifo(states[k])
    ensures forall i :: 0 <= i < k ==> Polite(states[i], actions[i])
  {
    hide InFlight, InOrder, Owned, Idle, Next;
    if k == 0 {
      BootFifo(serverFd);
    } else {
      LawfulSoFar(serverFd, actions, states, k - 1);
      var s, a := states[k - 1], actions[k - 1];
      assert Lawful(states[k]);
      if !Polite(s, a) {
        BusyLeaveForgets(s, a.fd);
        NextOfLeave(s, a.fd);
        assert false;
      }
      NextFifo(s, a);
    }
  }

  lemma NextOfLeave(s: System, fd: int)
    requires Possible(s, Leave(fd))
    ensures Next(s, Leave(fd)) == LeaveStep(s, fd)
  {
  }

  /** Over every run: the law holds in every state exactly when no client leaves with a control request queued. */
  lemma LawExactlyWhenPolite(serverFd: int, actions: seq<Action>, states: seq<System>)
    requires PossibleRun(serverFd, actions, states)
    ensures (forall k :: 0 <= k < |states| ==> Lawful(states[k]))
       <==> (forall i :: 0 <= i < |actions| ==> Polite(states[i], actions[i]))
  {
    hide InFlight, InOrder, Owned, Idle, Next, Possible;
    if forall k :: 0 <= k < |states| ==> Lawful(states[k]) {
      LawfulSoFar(serverFd, actions, states, |actions|);
    } else if forall i :: 0 <= i < |actions| ==> Polite(states[i], actions[i]) {
      forall k | 0 <= k < |states| ensures Lawful(states[k]) {
        RunFifo(serverFd, actions, states, k);
      }
    }
  }

  // ---- one request in flight ----

  lemma HeadLeaves(s: System, fd: int)
    requires InFlight(s) && Connected(s, fd) && fd != s.proxy.serverFd && Ordered(s.proxy.log)
    requires s.proxy.log.queue != [] && s.proxy.log.queue[0].fd == fd
    ensures !InFlight(LeaveStep(s, fd))
  {
    var q := s.proxy.log.queue;
    var i, reqs := LeaveParts(s, fd);
    LeaveKeepsTraffic(s, fd);
    var now := LeaveStep(s, fd).proxy.log.queue;
    RemoveHead(q, reqs, fd);
    if now != [] {
      assert now[0] == if |q| > 1 then q[1] else reqs[0];
      assert now[0].id > q[0].id;
    }
  }

  lemma {:induction false} RemoveHead(q: seq<CtlReq>, reqs: seq<CtlReq>, fd: int)
    requires q != [] && q[0].fd == fd
    ensures RemoveFirst(q + reqs, fd) == q[1..] + reqs
  {
    assert (q + reqs)[1..] == q[1..] + reqs;
  }

  lemma HeadStays(s: System, fd: int)
    requires InFlight(s) && Connected(s, fd) && fd != s.proxy.serverFd
    requires s.proxy.log.queue == [] || s.proxy.log.queue[0].fd != fd
    ensures InFlight(LeaveStep(s, fd))
  {
    var q := s.proxy.log.queue;
    var i, reqs := LeaveParts(s, fd);
    ReleasedInFlight(s, s.proxy.conns[i].clients);
    var k := RemoveFirstAt(q + reqs, fd);
    if q == [] {
      NothingToRemove(q + reqs, fd);
    } else {
      assert LeaveStep(s, fd).proxy.log.queue[0] == q[0];
    }
  }

  /** A hang-up keeps one request in flight exactly when the request in flight is not the leaving client's. */
  lemma LeaveKeepsInFlight(s: System, fd: int)
    requires InFlight(s) && Connected(s, fd) && fd != s.proxy.serverFd && Ordered(s.proxy.log)
    ensures InFlight(LeaveStep(s, fd)) <==> (s.proxy.log.queue == [] || s.proxy.log.queue[0].fd != fd)
  {
    if s.proxy.log.queue != [] && s.proxy.log.queue[0].fd == fd {
      HeadLeaves(s, fd);
    } else {
      HeadStays(s, fd);
    }
  }

  lemma {:induction false} ReleaseAllSilent(l: Ledger, serverFd: int, clients: seq<Pair>)
    requires l.queue != []
    ensures ReleaseAll(l, serverFd, clients).effects == l.effects
    decreases |clients|
  {
    if clients != [] {
      ReleaseAllSilent(Enqueue(l, serverFd, ReleaseMsg(clients[0])), serverFd, clients[1..]);
    }
  }

  /** Behind a queue that is not empty, the releases of a hang-up write nothing. */
  lemma LeaveKeepsTraffic(s: System, fd: int)
    requires Connected(s, fd) && s.proxy.log.queue != []
    ensures LeaveStep(s, fd).inbox == s.inbox && LeaveStep(s, fd).outbox == s.outbox
    ensures LeaveStep(s, fd).proxy.log.effects == s.proxy.log.effects
  {
    var i := FindConn(s.proxy.conns, fd);
    ReleaseAllSilent(s.proxy.log, s.proxy.serverFd, s.proxy.conns[i].clients);
    MoveSilent(s, Cleanup(s.proxy, fd, true));
  }

  ghost predicate Younger(writes: seq<CtlReq>, queue: seq<CtlReq>) {
    forall i, j :: 0 <= i < |writes| && 0 <= j < |queue| ==> writes[i].id < queue[j].id
  }

  lemma TailYounger(l: Ledger, serverFd: int, clients: seq<Pair>)
    requires Ordered(l) && l.queue != []
    ensures Younger(CtlWrites(l.effects), l.queue[1..] + ReleaseReqs(|l.accepted|, serverFd, clients))
  {
    assert forall j :: 0 <= j < |l.queue[1..]| ==> l.queue[1..][j] == l.queue[j + 1];
  }

  /** After a hang-up with the request in flight, all that is queued is younger than every request ever written. */
  lemma LeaveMidFlight(s: System, fd: int)
    requires Ordered(s.proxy.log) && Connected(s, fd) && fd != s.proxy.serverFd
    requires s.proxy.log.queue != [] && s.proxy.log.queue[0].fd == fd
    ensures var l := LeaveStep(s, fd).proxy.log;
            Ordered(l) && Younger(CtlWrites(l.effects), l.queue)
  {
    var i, reqs := LeaveParts(s, fd);
    LeaveKeepsTraffic(s, fd);
    TailYounger(s.proxy.log, s.proxy.serverFd, s.proxy.conns[i].clients);
    StepOrdered(s.proxy, Closed(fd, true));
    assert (s.proxy.log.queue + reqs)[1..] == s.proxy.log.queue[1..] + reqs;
  }

  // ---- the next request dropped ----

  /** In every run, whoever hangs up when, the queue and the writes are ordered by acceptance. */
  lemma {:induction false} RunStaysOrdered(serverFd: int, actions: seq<Action>, states: seq<System>, k: nat)
    requires PossibleRun(serverFd, actions, states) && k < |states|
    ensures Ordered(states[k].proxy.log) && states[k].proxy.serverFd == serverFd
  {
    hide Ordered, Accept, FromClient, FromDevice, Cleanup;
    if k == 0 {
      BootOrdered(serverFd);
    } else {
      RunStaysOrdered(serverFd, actions, states, k - 1);
      ActionOrdered(states[k - 1], actions[k - 1]);
    }
  }

  lemma BootOrdered(serverFd: int)
    ensures Ordered(Boot(serverFd).proxy.log)
  {
  }

  lemma ActionOrdered(s: System, a: Action)
    requires Possible(s, a) && Ordered(s.proxy.log)
    ensures Ordered(Next(s, a).proxy.log) && Next(s, a).proxy.serverFd == s.proxy.serverFd
  {
    hide Ordered;
    match a
    case Join(fd) => StepOrdered(s.proxy, Accepted(fd));
    case Say(fd, msg) => StepOrdered(s.proxy, ClientMessage(fd, msg));
    case Reply(rsp) =>
    case Read => StepOrdered(s.proxy, DeviceMessage(s.outbox[0].rsp));
    case Indicate(msg) => StepOrdered(s.proxy, DeviceMessage(msg));
    case Leave(fd) => StepOrdered(s.proxy, Closed(fd, true));
  }

  /** An answer is on its way to the proxy, or this one fits the request at the modem. */
  predicate Answerable(s: System, rsp: Bytes) {
    s.outbox != [] || Possible(s, Reply(rsp))
  }

  /** The modem answers, if it has not, and the proxy reads the answer. */
  ghost function Answered(s: System, rsp: Bytes): System
    requires Answerable(s, rsp)
  {
    ReadStep(if s.outbox == [] then ReplyStep(s, rsp) else s)
  }

  /** What the proxy writes when it reads a control response with requests queued. */
  function RespondWrites(p: Proxy, rsp: Bytes): seq<Effect>
    requires p.log.queue != []
  {
    var req, rest := p.log.queue[0], p.log.queue[1..];
    (if !Answers(req.msg, rsp) || req.fd == p.serverFd then [] else ReplyWrites(p.conns, req.fd, rsp))
    + if rest == [] then [] else [CtlWrite(rest[0])]
  }

  lemma RespondParts(p: Proxy, rsp: Bytes)
    requires p.log.queue != []
    ensures var l, rest := Respond(p, rsp).log, p.log.queue[1..];
            && l == Ledger(rest, p.log.accepted, p.log.effects + RespondWrites(p, rsp))
            && CtlWrites(RespondWrites(p, rsp)) == if rest == [] then [] else [rest[0]]
  {
    hide ReplyWrites, Answers, NoteAll, CtlWrites;
    var req, rest := p.log.queue[0], p.log.queue[1..];
    var replies := if !Answers(req.msg, rsp) || req.fd == p.serverFd then [] else ReplyWrites(p.conns, req.fd, rsp);
    var next := if rest == [] then [] else [CtlWrite(rest[0])];
    AppendNone(p.log.effects);
    AppendNone(p.log.effects + replies);
    AppendNone(replies);
    AppendAssoc(p.log.effects, replies, next);
    NoWrites();
    ReplyWritesAreReplies(p.conns, req.fd, rsp);
    CtlWritesConcat(replies, next);
    if rest != [] {
      OneEffect(CtlWrite(rest[0]));
    }
  }

  lemma NoWrites()
    ensures CtlWrites([]) == []
  {
  }

  /** Whichever request the response read belongs to, the head is dropped and the next one written. */
  lemma AnsweredParts(s: System, rsp: Bytes)
    requires s.proxy.serverFd != -1 && s.proxy.log.queue != [] && Answerable(s, rsp)
    requires s.outbox != [] ==> |s.outbox| == 1 && s.inbox == [] && IsCtlResponse(s.outbox[0].rsp)
    requires s.outbox == [] ==> |s.inbox| == 1
    ensures var w := Answered(s, rsp);
            var q := s.proxy.log.queue;
            var written := if |q| == 1 then [] else [q[1]];
            && w.proxy.log.queue == q[1..] && w.proxy.log.accepted == s.proxy.log.accepted
            && w.inbox == written && w.outbox == []
            && CtlWrites(w.proxy.log.effects) == CtlWrites(s.proxy.log.effects) + written
  {
    hide CtlWrites, CtlReplies, RespondWrites, Respond, Answers;
    var t := if s.outbox == [] then ReplyStep(s, rsp) else s;
    var read := t.outbox[0].rsp;
    assert FromDevice(t.proxy, read) == Respond(t.proxy, read);
    RespondParts(t.proxy, read);
    MoveWrites(t, FromDevice(t.proxy, read), RespondWrites(t.proxy, read));
  }

  /** The head of the queue has been written. */
  lemma HeadWritten(s: System)
    requires InOrder(s) && s.proxy.log.queue != []
    ensures s.proxy.log.queue[0] in CtlWrites(s.proxy.log.effects)
  {
    hide CtlWrites, CtlReplies, Deliveries;
    var l := s.proxy.log;
    var n := |s.answered|;
    assert (Requests(s.answered) + l.queue)[n] == l.queue[0];
    assert |CtlWrites(l.effects)| == n + 1;
    assert (CtlWrites(l.effects) + Behind(l.queue))[n] == CtlWrites(l.effects)[n];
  }

  /** A request that was queued is neither queued any more nor was it ever written. */
  ghost predicate Drops(before: System, after: System) {
    exists req :: req in before.proxy.log.queue
                  && req !in after.proxy.log.queue && req !in CtlWrites(after.proxy.log.effects)
  }

  /** The traffic after a hang-up, for the lemmas about the answer that comes next. */
  lemma LeaveTraffic(s: System, fd: int, rsp: Bytes)
    requires Fifo(s) && Ordered(s.proxy.log) && Connected(s, fd)
    requires LeaveStep(s, fd).proxy.log.queue != [] && Answerable(LeaveStep(s, fd), rsp)
    ensures var u := LeaveStep(s, fd);
            && u.proxy.serverFd != -1
            && (u.outbox != [] ==> |u.outbox| == 1 && u.inbox == [] && IsCtlResponse(u.outbox[0].rsp))
            && (u.outbox == [] ==> |u.inbox| == 1)
    ensures s.proxy.log.queue != [] && s.proxy.log.queue[0].fd != fd ==>
              LeaveStep(s, fd).proxy.log.queue[0] == s.proxy.log.queue[0]
  {
    hide InOrder, Ordered, CtlWrites, CtlReplies;
    var q := s.proxy.log.queue;
    NotServerFd(s, fd);
    if q == [] {
      LeaveFifo(s, fd);
    } else {
      LeaveKeepsTraffic(s, fd);
      if q[0].fd != fd {
        var reqs := LeaveQueueAndHistory(s, fd);
        var k := RemoveFirstAt(q + reqs, fd);
      }
    }
  }

  lemma NotServerFd(s: System, fd: int)
    requires Owned(s) && Connected(s, fd)
    ensures fd != s.proxy.serverFd
  {
  }

  lemma YoungHead(writes: seq<CtlReq>, queue: seq<CtlReq>, accepted: seq<CtlReq>)
    requires Tidy(writes, queue, accepted) && Younger(writes, queue) && queue != []
    ensures queue[0] !in writes && queue[0] !in queue[1..]
    ensures |queue| > 1 ==> queue[0] != queue[1]
  {
    hide Known;
    assert forall i :: 0 <= i < |writes| ==> writes[i].id != queue[0].id;
    assert forall j :: 0 <= j < |queue[1..]| ==> queue[1..][j] == queue[j + 1];
  }

  lemma HeadDropped(s: System, fd: int, rsp: Bytes)
    requires Fifo(s) && Ordered(s.proxy.log) && Connected(s, fd)
    requires s.proxy.log.queue != [] && s.proxy.log.queue[0].fd == fd
    requires LeaveStep(s, fd).proxy.log.queue != [] && Answerable(LeaveStep(s, fd), rsp)
    ensures var u := LeaveStep(s, fd);
            var lost := u.proxy.log.queue[0];
            var w := Answered(u, rsp);
            && w.proxy.log.queue == u.proxy.log.queue[1..]
            && lost !in w.proxy.log.queue && lost !in CtlWrites(w.proxy.log.effects)
  {
    LeaveTraffic(s, fd, rsp);
    NotServerFd(s, fd);
    LeaveMidFlight(s, fd);
    hide Fifo, CtlWrites, CtlReplies, Answerable, Answered, LeaveStep, Younger, Tidy;
    var u := LeaveStep(s, fd);
    AnsweredParts(u, rsp);
    YoungHead(CtlWrites(u.proxy.log.effects), u.proxy.log.queue, u.proxy.log.accepted);
  }

  lemma NothingDropped(u: System, w: System)
    requires u.proxy.log.queue != [] && w.proxy.log.queue == u.proxy.log.queue[1..]
    requires u.proxy.log.queue[0] in CtlWrites(w.proxy.log.effects)
    ensures !Drops(u, w)
  {
    hide CtlWrites;
    var q := u.proxy.log.queue;
    assert q == [q[0]] + q[1..];
  }

  lemma HeadKept(s: System, fd: int, rsp: Bytes)
    requires Fifo(s) && Ordered(s.proxy.log) && Connected(s, fd)
    requires s.proxy.log.queue == [] || s.proxy.log.queue[0].fd != fd
    requires LeaveStep(s, fd).proxy.log.queue != [] && Answerable(LeaveStep(s, fd), rsp)
    ensures !Drops(LeaveStep(s, fd), Answered(LeaveStep(s, fd), rsp))
  {
    LeaveTraffic(s, fd, rsp);
    var u := LeaveStep(s, fd);
    if s.proxy.log.queue == [] {
      LeaveFifo(s, fd);
      HeadWritten(u);
    } else {
      HeadWritten(s);
      LeaveKeepsTraffic(s, fd);
    }
    hide Fifo, InFlight, InOrder, CtlWrites, CtlReplies, Answerable, Answered, LeaveStep, Drops;
    AnsweredParts(u, rsp);
    NothingDropped(u, Answered(u, rsp));
  }

  /** When the answer that was outstanding at a hang-up is read, wherever it was then, a queued request is dropped
      unwritten exactly when the head of the queue was the leaver's and the hang-up left something queued. */
  lemma DropsExactly(s: System, fd: int, rsp: Bytes)
    requires Fifo(s) && Ordered(s.proxy.log) && Connected(s, fd) && Answerable(LeaveStep(s, fd), rsp)
    ensures var u := LeaveStep(s, fd);
            var q := s.proxy.log.queue;
            Drops(u, Answered(u, rsp)) <==> q != [] && q[0].fd == fd && u.proxy.log.queue != []
  {
    hide Fifo, InFlight, InOrder, CtlWrites, CtlReplies, Answerable, Answered, LeaveStep;
    var q := s.proxy.log.queue;
    if LeaveStep(s, fd).proxy.log.queue != [] {
      if q != [] && q[0].fd == fd {
        HeadDropped(s, fd, rsp);
      } else {
        HeadKept(s, fd, rsp);
      }
    }
  }

  /** It is that one request which is lost, and reading the vanished answer puts one request in flight again. */
  lemma OneRequestLost(s: System, fd: int, rsp: Bytes)
    requires Fifo(s) && Ordered(s.proxy.log) && Connected(s, fd)
    requires s.proxy.log.queue != [] && s.proxy.log.queue[0].fd == fd
    requires LeaveStep(s, fd).proxy.log.queue != [] && Answerable(LeaveStep(s, fd), rsp)
    ensures var u := LeaveStep(s, fd);
            var w := Answered(u, rsp);
            var written := CtlWrites(u.proxy.log.effects);
            && InFlight(w)
            && w.proxy.log.accepted == written + [u.proxy.log.queue[0]] + u.proxy.log.queue[1..]
            && CtlWrites(w.proxy.log.effects) + Behind(w.proxy.log.queue) == written + u.proxy.log.queue[1..]
  {
    LeaveTraffic(s, fd, rsp);
    LeaveKeepsTraffic(s, fd);
    var reqs := LeaveQueueAndHistory(s, fd);
    hide CtlWrites, CtlReplies, Answerable, Answered, LeaveStep, Owned;
    var q := s.proxy.log.queue;
    var u := LeaveStep(s, fd);
    RemoveHead(q, reqs, fd);
    AnsweredParts(u, rsp);
    var written := CtlWrites(s.proxy.log.effects);
    AppendAssoc(written, q[1..], reqs);
    assert u.proxy.log.accepted == written + u.proxy.log.queue;
    SplitHead(written, u.proxy.log.queue);
    if |u.proxy.log.queue| > 1 {
      SplitHead(written, u.proxy.log.queue[1..]);
    } else {
      AppendNone(written);
    }
  }

  lemma SplitHead<T>(done: seq<T>, queue: seq<T>)
    requires queue != []
    ensures done + queue == done + [queue[0]] + queue[1..]
  {
  }

  // ---- a run that gets there ----

  /** A request for a client id, and the modem's grant. */
  function GetRequest(tid: byte, service: byte): Bytes {
    [USB_CTL_MSG_TYPE_QMI, 15, 0, 0, QMUX_TYPE_CTL, 0, QMICTL_FLAG_REQUEST, tid, 0x22, 0, 4, 0, 1, 1, 0, service]
  }

  function GetResponse(tid: byte, pair: Pair): Bytes {
    [USB_CTL_MSG_TYPE_QMI, 23, 0, 0, QMUX_TYPE_CTL, 0, QMICTL_FLAG_RESPONSE, tid, 0x22, 0, 12, 0,
     2, 4, 0, 0, 0, 0, 0, 1, 2, 0, pair.qmiType, pair.clientId]
  }

  lemma GetMessages(tid: byte, pair: Pair)
    ensures var m, r := GetRequest(tid, pair.qmiType), GetResponse(tid, pair);
            && |m| == Length(m) + 1 && |r| == Length(r) + 1
            && Queues(m) && IsCtlResponse(r) && Answers(m, r) && RspOk(r) && RspPair(r) == pair
  {
    var m, r := GetRequest(tid, pair.qmiType), GetResponse(tid, pair);
    assert m[7] == r[7] == tid && m[8] == r[8] == 0x22 && m[9] == r[9] == 0;
  }

  lemma JoinParts(s: System, fd: int)
    ensures JoinStep(s, fd) == s.(proxy := Accept(s.proxy, fd)) && Connected(JoinStep(s, fd), fd)
    ensures forall other :: Connected(JoinStep(s, fd), other) <==> Connected(s, other) || other == fd
  {
    MoveSilent(s, Accept(s.proxy, fd));
    var conns := s.proxy.conns;
    assert (conns + [Conn(fd, [])])[|conns|].fd == fd;
    forall other ensures Connected(JoinStep(s, fd), other) <==> Connected(s, other) || other == fd {
      if Connected(s, other) {
        var i :| 0 <= i < |conns| && conns[i].fd == other;
        assert (conns + [Conn(fd, [])])[i].fd == other;
      }
    }
  }

  /** Two clients, each with a request queued: the first's is at the modem. */
  lemma TwoWaiting(serverFd: int, a: int, b: int, m: Bytes, n: Bytes)
    requires serverFd != -1 && a != b && a != serverFd && b != serverFd && Queues(m) && Queues(n)
    ensures var s := Boot(serverFd);
            && Possible(s, Join(a)) && Possible(JoinStep(s, a), Join(b))
            && var t := JoinStep(JoinStep(s, a), b);
               && Possible(t, Say(a, m)) && SayStep(t, a, m) == Queued(t, a, m)
               && var u := SayStep(t, a, m);
                  && Possible(u, Say(b, n))
                  && var v := SayStep(u, b, n);
                     && v.inbox == [CtlReq(0, a, m)] && v.outbox == []
                     && v.proxy.log.queue == [CtlReq(0, a, m), CtlReq(1, b, n)]
                     && v.proxy.conns == [Conn(a, []), Conn(b, [])]
                     && Fifo(v) && Connected(v, a) && Ordered(v.proxy.log)
  {
    hide CtlWrites, CtlReplies, Deliveries, Fifo, Queues, FromClient;
    var s := Boot(serverFd);
    BootFifo(serverFd);
    JoinParts(s, a);
    var s1 := JoinStep(s, a);
    JoinFifo(s, a) by { assert Fifo(s); }
    JoinParts(s1, b);
    var t := JoinStep(s1, b);
    JoinFifo(s1, b);
    SayQuiet(t, a, m);
    QueuedParts(t, a, m);
    QueuedFifo(t, a, m);
    var u := SayStep(t, a, m);
    SayQuiet(u, b, n);
    QueuedParts(u, b, n);
    QueuedFifo(u, b, n);
    EnqueueOrdered(s.proxy.log, a, m) by { BootOrdered(serverFd); }
    EnqueueOrdered(u.proxy.log, b, n);
  }

  /** A run that has come to state s. */
  ghost predicate RunTo(serverFd: int, actions: seq<Action>, states: seq<System>, s: System) {
    PossibleRun(serverFd, actions, states) && states[|actions|] == s
  }

  lemma NextIs(s: System, a: Action)
    requires Possible(s, a)
    ensures match a
            case Join(fd) => Next(s, a) == JoinStep(s, fd)
            case Say(fd, msg) => Next(s, a) == SayStep(s, fd, msg)
            case Reply(rsp) => Next(s, a) == ReplyStep(s, rsp)
            case Read => Next(s, a) == ReadStep(s)
            case Indicate(msg) => Next(s, a) == IndicateStep(s, msg)
            case Leave(fd) => Next(s, a) == LeaveStep(s, fd)
  {
  }

  lemma Extend(serverFd: int, actions: seq<Action>, states: seq<System>, s: System, a: Action, t: System)
    requires RunTo(serverFd, actions, states, s) && Possible(s, a) && t == Next(s, a)
    ensures RunTo(serverFd, actions + [a], states + [t], t)
  {
    hide Possible, Next;
    var now, run := actions + [a], states + [t];
    forall i | 0 <= i < |now| ensures Possible(run[i], now[i]) && run[i + 1] == Next(run[i], now[i]) {
      if i < |actions| {
        assert run[i] == states[i] && run[i + 1] == states[i + 1] && now[i] == actions[i];
      }
    }
  }

  /** What the first client's hang-up leaves queued. */
  lemma SecondIsLeft(s: System, first: CtlReq, second: CtlReq)
    requires s.proxy.log.queue == [first, second] && Connected(s, first.fd)
    requires forall c :: c in s.proxy.conns ==> c.clients == []
    ensures LeaveStep(s, first.fd).proxy.log.queue == [second]
  {
    var i := FindConn(s.proxy.conns, first.fd);
    assert s.proxy.conns[i] in s.proxy.conns;
    assert RemoveFirst([first, second], first.fd) == [first, second][1..] == [second];
  }

  /** The first's hang-up, the modem's answer and its reading lose the second's request. */
  lemma LossSteps(s: System, first: CtlReq, second: CtlReq, rsp: Bytes)
    requires Fifo(s) && Ordered(s.proxy.log) && Connected(s, first.fd) && s.inbox == [first] && s.outbox == []
    requires s.proxy.log.queue == [first, second] && LeaveStep(s, first.fd).proxy.log.queue == [second]
    requires IsCtlResponse(rsp) && Answers(first.msg, rsp)
    ensures Possible(s, Leave(first.fd)) && Possible(LeaveStep(s, first.fd), Reply(rsp))
    ensures var t := ReplyStep(LeaveStep(s, first.fd), rsp);
            && Possible(t, Read)
            && var l := ReadStep(t).proxy.log;
               second in l.accepted && second !in l.queue && second !in CtlWrites(l.effects)
  {
    hide CtlWrites, CtlReplies, Deliveries, IsCtlResponse, Answers, FromDevice;
    LeaveKeepsTraffic(s, first.fd);
    HeadDropped(s, first.fd, rsp);
    OneRequestLost(s, first.fd, rsp);
  }

  lemma RunToTwoWaiting(serverFd: int, a: int, b: int, m: Bytes, n: Bytes)
    returns (actions: seq<Action>, states: seq<System>, s: System)
    requires serverFd != -1 && a != b && a != serverFd && b != serverFd && Queues(m) && Queues(n)
    ensures RunTo(serverFd, actions, states, s) && actions == [Join(a), Join(b), Say(a, m), Say(b, n)]
    ensures s.inbox == [CtlReq(0, a, m)] && s.outbox == []
    ensures s.proxy.log.queue == [CtlReq(0, a, m), CtlReq(1, b, n)] && s.proxy.conns == [Conn(a, []), Conn(b, [])]
    ensures Fifo(s) && Ordered(s.proxy.log) && Connected(s, a)
  {
    hide *;
    TwoWaiting(serverFd, a, b, m, n);
    StartRun(serverFd);
    s := Boot(serverFd);
    actions, states := [], [s];
    NextIs(s, Join(a));
    actions, states, s := OneMore(serverFd, actions, states, s, Join(a));
    NextIs(s, Join(b));
    actions, states, s := OneMore(serverFd, actions, states, s, Join(b));
    NextIs(s, Say(a, m));
    actions, states, s := OneMore(serverFd, actions, states, s, Say(a, m));
    NextIs(s, Say(b, n));
    actions, states, s := OneMore(serverFd, actions, states, s, Say(b, n));
  }

  lemma OneMore(serverFd: int, actions: seq<Action>, states: seq<System>, s: System, a: Action)
    returns (longer: seq<Action>, run: seq<System>, t: System)
    requires RunTo(serverFd, actions, states, s) && Possible(s, a)
    ensures RunTo(serverFd, longer, run, t) && longer == actions + [a] && t == Next(s, a)
  {
    t := Next(s, a);
    longer, run := actions + [a], states + [t];
    Extend(serverFd, actions, states, s, a, t);
  }

  lemma StartRun(serverFd: int)
    requires serverFd != -1
    ensures RunTo(serverFd, [], [Boot(serverFd)], Boot(serverFd))
  {
  }

  /** Such a loss is reached from the start: two clients join and ask for ids, the first hangs up, and when its grant is
      read the second's request is dropped unwritten. */
  lemma LossIsReached(serverFd: int, a: int, b: int, one: Pair, two: Pair, tid: byte)
    returns (actions: seq<Action>, states: seq<System>, s: System)
    requires serverFd != -1 && a != b && a != serverFd && b != serverFd
    ensures RunTo(serverFd, actions, states, s)
    ensures var m, n := GetRequest(tid, one.qmiType), GetRequest(tid, two.qmiType);
            actions == [Join(a), Join(b), Say(a, m), Say(b, n), Leave(a), Reply(GetResponse(tid, one)), Read]
    ensures var lost := CtlReq(1, b, GetRequest(tid, two.qmiType));
            var l := s.proxy.log;
            lost in l.accepted && lost !in l.queue && lost !in CtlWrites(l.effects)
  {
    var m, n, rsp := GetRequest(tid, one.qmiType), GetRequest(tid, two.qmiType), GetResponse(tid, one);
    GetMessages(tid, one);
    GetMessages(tid, two);
    hide *;
    actions, states, s := RunToTwoWaiting(serverFd, a, b, m, n);
    SecondIsLeft(s, CtlReq(0, a, m), CtlReq(1, b, n));
    LossSteps(s, CtlReq(0, a, m), CtlReq(1, b, n), rsp);
    NextIs(s, Leave(a));
    actions, states, s := OneMore(serverFd, actions, states, s, Leave(a));
    NextIs(s, Reply(rsp));
    actions, states, s := OneMore(serverFd, actions, states, s, Reply(rsp));
    NextIs(s, Read);
    actions, states, s := OneMore(serverFd, actions, states, s, Read);
  }

  // ---- answers that reach the wrong client ----

  /** Reading a fitting answer writes it to whichever connection has the issuer's descriptor by then. */
  lemma AnswerGoesToDescriptor(s: System)
    requires s.proxy.serverFd != -1 && FdsDistinct(s.proxy.conns, s.proxy.serverFd)
    requires s.outbox != [] && s.proxy.log.queue != [] && s.proxy.log.queue[0].fd != s.proxy.serverFd
    requires IsCtlResponse(s.outbox[0].rsp) && Answers(s.proxy.log.queue[0].msg, s.outbox[0].rsp)
    ensures var w, fd, rsp := ReadStep(s), s.proxy.log.queue[0].fd, s.outbox[0].rsp;
            && w.proxy.conns == NoteAll(s.proxy.conns, fd, rsp)
            && CtlReplies(w.proxy.log.effects)
               == CtlReplies(s.proxy.log.effects) + if Connected(s, fd) then [ClientWrite(fd, rsp)] else []
  {
    hide At, Le16At, CtlReplies, CtlWrites, ReplyWrites, NoteAll;
    var fd, rsp := s.proxy.log.queue[0].fd, s.outbox[0].rsp;
    var rest := s.proxy.log.queue[1..];
    assert FromDevice(s.proxy, rsp) == Respond(s.proxy, rsp);
    RespondParts(s.proxy, rsp);
    MoveWrites(s, FromDevice(s.proxy, rsp), RespondWrites(s.proxy, rsp));
    ReplyOnce(s.proxy.conns, fd, s.proxy.serverFd, rsp);
    NoReplies();
    OneEffect(ClientWrite(fd, rsp));
    CtlRepliesConcat(ReplyWrites(s.proxy.conns, fd, rsp), if rest == [] then [] else [CtlWrite(rest[0])]);
    if rest != [] {
      OneEffect(CtlWrite(rest[0]));
    }
    AppendNone(CtlReplies(ReplyWrites(s.proxy.conns, fd, rsp)));
  }

  lemma NoReplies()
    ensures CtlReplies([]) == []
  {
  }

  lemma AfterLeave(s: System, fd: int, other: int)
    requires Fifo(s) && Connected(s, fd) && Connected(s, other) && other != fd
    ensures var u := LeaveStep(s, fd);
            FdsDistinct(u.proxy.conns, u.proxy.serverFd) && Connected(u, other) && u.proxy.serverFd == s.proxy.serverFd
  {
    hide InFlight, InOrder;
    var i, reqs := LeaveParts(s, fd);
    FdsDistinctAfterLeave(s.proxy.conns, s.proxy.serverFd, i);
    ConnectedAfterLeave(s, LeaveStep(s, fd), i, other);
  }

  /** With nothing queued and an old request at the modem, a new request of the same transaction id and type. */
  lemma OldAnswerTaken(u: System, gone: CtlReq, fd: int, msg: Bytes, rsp: Bytes)
    requires u.proxy.serverFd != -1 && FdsDistinct(u.proxy.conns, u.proxy.serverFd) && Connected(u, fd)
    requires u.proxy.log.queue == [] && u.inbox == [gone] && u.outbox == []
    requires Queues(msg) && IsCtlResponse(rsp) && Answers(gone.msg, rsp) && Answers(msg, rsp)
    ensures var t := SayStep(u, fd, msg);
            && Possible(u, Say(fd, msg)) && Possible(t, Reply(rsp))
            && var w := ReadStep(ReplyStep(t, rsp));
               && CtlReplies(w.proxy.log.effects) == CtlReplies(u.proxy.log.effects) + [ClientWrite(fd, rsp)]
               && w.proxy.conns == NoteAll(u.proxy.conns, fd, rsp)
  {
    hide CtlReplies, CtlWrites, Answers, IsCtlResponse, Queues, FromClient, FromDevice;
    NotServer(u, fd);
    SayQuiet(u, fd, msg);
    QueuedParts(u, fd, msg);
    AnswerGoesToDescriptor(ReplyStep(SayStep(u, fd, msg), rsp));
  }

  lemma GrantIsNoted(conns: seq<Conn>, i: nat, rsp: Bytes)
    requires i < |conns|
    ensures CtlKind(rsp) == QMICTL_GET_CLIENT_ID && RspOk(rsp) ==>
              exists c :: c in NoteAll(conns, conns[i].fd, rsp) && c.fd == conns[i].fd && RspPair(rsp) in c.clients
  {
    hide At, Le16At;
    assert NoteAll(conns, conns[i].fd, rsp)[i] == NoteConn(conns[i], conns[i].fd, rsp);
  }

  /** When a hang-up in flight leaves nothing queued, the next request of the same transaction id and type is handed the
      vanished client's answer, and with it the id that was granted to that client. */
  lemma VanishedAnswerTaken(s: System, fd: int, other: int, msg: Bytes, rsp: Bytes)
    requires Fifo(s) && Connected(s, fd) && Connected(s, other) && other != fd
    requires s.inbox != [] && s.inbox[0].fd == fd && LeaveStep(s, fd).proxy.log.queue == []
    requires Queues(msg) && IsCtlResponse(rsp) && Answers(s.inbox[0].msg, rsp) && Answers(msg, rsp)
    ensures var t := SayStep(LeaveStep(s, fd), other, msg);
            && Possible(LeaveStep(s, fd), Say(other, msg)) && Possible(t, Reply(rsp))
            && var w := ReadStep(ReplyStep(t, rsp));
               && CtlReplies(w.proxy.log.effects) == CtlReplies(s.proxy.log.effects) + [ClientWrite(other, rsp)]
               && (CtlKind(rsp) == QMICTL_GET_CLIENT_ID && RspOk(rsp) ==>
                     exists c :: c in w.proxy.conns && c.fd == other && RspPair(rsp) in c.clients)
  {
    AfterLeave(s, fd, other);
    LeaveKeepsTraffic(s, fd);
    hide LeaveStep, SayStep, ReplyStep, ReadStep, CtlReplies, InOrder, Owned, Answers, IsCtlResponse, Queues, Possible;
    hide At, Le16At;
    var u := LeaveStep(s, fd);
    OldAnswerTaken(u, s.inbox[0], other, msg, rsp);
    var i :| 0 <= i < |u.proxy.conns| && u.proxy.conns[i].fd == other;
    GrantIsNoted(u.proxy.conns, i, rsp);
  }

  lemma NotServer(s: System, fd: int)
    requires FdsDistinct(s.proxy.conns, s.proxy.serverFd) && Connected(s, fd)
    ensures fd != s.proxy.serverFd
  {
  }

  /** A leaver's request is still queued after its hang-up exactly when it had two or more; its answer then goes to
      whichever connection is given the descriptor next. */
  lemma LeaverStillQueued(s: System, fd: int)
    requires Connected(s, fd) && fd != s.proxy.serverFd
    ensures var q, now := s.proxy.log.queue, LeaveStep(s, fd).proxy.log.queue;
            (exists k :: 0 <= k < |now| && now[k].fd == fd)
            <==> exists i, j :: 0 <= i < j < |q| && q[i].fd == q[j].fd == fd
  {
    hide LeaveStep;
    var q, now := s.proxy.log.queue, LeaveStep(s, fd).proxy.log.queue;
    var reqs := LeaveQueueAndHistory(s, fd);
    var n := RemoveFirstAt(q + reqs, fd);
    if k :| 0 <= k < |now| && now[k].fd == fd {
      assert n < |q + reqs| && n <= k && (q + reqs)[k + 1] == now[k];
      assert q[n].fd == q[k + 1].fd == fd;
    }
    if i, j :| 0 <= i < j < |q| && q[i].fd == q[j].fd == fd {
      assert (q + reqs)[i].fd == fd && (q + reqs)[j].fd == fd;
      assert now[j - 1] == (q + reqs)[j];
    }
  }
}
