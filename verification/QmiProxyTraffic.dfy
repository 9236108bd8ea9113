/** What the QMI proxy passes on, over arbitrary runs and in terms of the bytes of messages. */
module QmiProxyTraffic {
  import opened Wire
  import opened QmiProxyModel
  import opened QmiProxyOrder

  // ---- from clients to the modem ----

  /** The messages other than control requests that were written to the modem. */
  function MuxWrites(effects: seq<Effect>): seq<Bytes> {
    if effects == [] then []
    else
      var n := |effects| - 1;
      MuxWrites(effects[..n]) + if effects[n].MuxWrite? then [effects[n].msg] else []
  }

  /** The service messages that clients sent: those whose service type, byte 4, is not 0. */
  function Said(events: seq<Event>): seq<Bytes> {
    if events == [] then []
    else
      var e := events[|events| - 1];
      Said(events[..|events| - 1]) + if e.ClientMessage? && At(e.msg, 4) != 0 then [e.msg] else []
  }

  /** The control requests that clients made, each with its client: byte 4 is 0, and bytes 8 and 9 are not SYNC's. */
  function Asked(events: seq<Event>): seq<(int, Bytes)> {
    if events == [] then []
    else
      var e := events[|events| - 1];
      Asked(events[..|events| - 1])
      + if e.ClientMessage? && At(e.msg, 4) == 0 && !(At(e.msg, 8) == 0x27 && At(e.msg, 9) == 0)
        then [(e.fd, e.msg)] else []
  }

  /** The requests that are not the proxy's own. */
  function OfClients(requests: seq<CtlReq>, serverFd: int): seq<(int, Bytes)> {
    if requests == [] then []
    else
      var req := requests[|requests| - 1];
      OfClients(requests[..|requests| - 1], serverFd) + if req.fd != serverFd then [(req.fd, req.msg)] else []
  }

  lemma {:induction false} MuxWritesConcat(a: seq<Effect>, b: seq<Effect>)
    ensures MuxWrites(a + b) == MuxWrites(a) + MuxWrites(b)
  {
    if b == [] {
      AppendNone(a);
    } else {
      var n := |b| - 1;
      assert (a + b)[..|a + b| - 1] == a + b[..n];
      MuxWritesConcat(a, b[..n]);
    }
  }

  lemma OneMuxWrite(e: Effect)
    ensures MuxWrites([e]) == if e.MuxWrite? then [e.msg] else []
  {
    assert [e][..0] == [];
  }

  lemma {:induction false} OfClientsConcat(a: seq<CtlReq>, req: CtlReq, serverFd: int)
    ensures OfClients(a + [req], serverFd)
         == OfClients(a, serverFd) + if req.fd != serverFd then [(req.fd, req.msg)] else []
  {
    assert (a + [req])[..|a + [req]| - 1] == a;
  }

  ghost predicate NoMux(effects: seq<Effect>) {
    forall e :: e in effects ==> !e.MuxWrite?
  }

  lemma {:induction false} NoMuxNone(effects: seq<Effect>)
    requires NoMux(effects)
    ensures MuxWrites(effects) == []
  {
    if effects != [] {
      var n := |effects| - 1;
      assert effects[n] in effects && forall e :: e in effects[..n] ==> e in effects;
      NoMuxNone(effects[..n]);
    }
  }

  lemma {:induction false} RepliesNoMux(conns: seq<Conn>, fd: int, rsp: Bytes)
    ensures NoMux(ReplyWrites(conns, fd, rsp))
  {
    if conns != [] {
      RepliesNoMux(conns[..|conns| - 1], fd, rsp);
    }
  }

  lemma {:induction false} ConnWritesNoMux(fd: int, clients: seq<Pair>, msg: Bytes)
    ensures NoMux(ConnWrites(fd, clients, msg))
  {
    if clients != [] {
      ConnWritesNoMux(fd, clients[..|clients| - 1], msg);
    }
  }

  lemma {:induction false} ServiceNoMux(conns: seq<Conn>, msg: Bytes)
    ensures NoMux(ServiceWrites(conns, msg))
  {
    if conns != [] {
      ServiceNoMux(conns[..|conns| - 1], msg);
      ConnWritesNoMux(conns[|conns| - 1].fd, conns[|conns| - 1].clients, msg);
    }
  }

  /** A ledger that has grown by a request of its own or of a client, or by writes to clients. */
  ghost predicate Keeps(before: Ledger, after: Ledger, serverFd: int) {
    MuxWrites(after.effects) == MuxWrites(before.effects)
    && OfClients(after.accepted, serverFd) == OfClients(before.accepted, serverFd)
  }

  lemma {:induction false} EnqueueTraffic(l: Ledger, fd: int, msg: Bytes, serverFd: int)
    ensures var after := Enqueue(l, fd, msg);
            && MuxWrites(after.effects) == MuxWrites(l.effects)
            && OfClients(after.accepted, serverFd)
               == OfClients(l.accepted, serverFd) + if fd != serverFd then [(fd, msg)] else []
  {
    var req := CtlReq(|l.accepted|, fd, msg);
    OfClientsConcat(l.accepted, req, serverFd);
    MuxWritesConcat(l.effects, [CtlWrite(req)]);
    OneMuxWrite(CtlWrite(req));
  }

  lemma {:induction false} ReleaseAllTraffic(l: Ledger, serverFd: int, clients: seq<Pair>)
    ensures Keeps(l, ReleaseAll(l, serverFd, clients), serverFd)
    decreases |clients|
  {
    hide Enqueue, MuxWrites, OfClients;
    if clients != [] {
      EnqueueTraffic(l, serverFd, ReleaseMsg(clients[0]), serverFd);
      ReleaseAllTraffic(Enqueue(l, serverFd, ReleaseMsg(clients[0])), serverFd, clients[1..]);
    }
  }

  lemma EmitTraffic(l: Ledger, effects: seq<Effect>, serverFd: int)
    requires NoMux(effects)
    ensures Keeps(l, Emit(l, effects), serverFd)
  {
    MuxWritesConcat(l.effects, effects);
    NoMuxNone(effects);
    AppendNone(MuxWrites(l.effects));
  }

  lemma DeviceTraffic(p: Proxy, msg: Bytes)
    ensures Keeps(p.log, FromDevice(p, msg).log, p.serverFd)
  {
    hide MuxWrites, OfClients, NoMux, NoteAll, Answers, ReplyWrites, ServiceWrites, IsCtl;
    ServiceNoMux(p.conns, msg);
    EmitTraffic(p.log, ServiceWrites(p.conns, msg), p.serverFd);
    if p.log.queue != [] {
      var req := p.log.queue[0];
      var popped := p.log.(queue := p.log.queue[1..]);
      RepliesNoMux(p.conns, req.fd, msg);
      EmitTraffic(popped, ReplyWrites(p.conns, req.fd, msg), p.serverFd);
      var l := Consume(p, msg).log;
      if l.queue != [] {
        OneCtlWrite(l.queue[0]);
        EmitTraffic(l, [CtlWrite(l.queue[0])], p.serverFd);
      }
    }
  }

  lemma OneCtlWrite(req: CtlReq)
    ensures NoMux([CtlWrite(req)])
  {
  }

  lemma CleanupTraffic(p: Proxy, fd: int, disconnect: bool)
    ensures Keeps(p.log, Cleanup(p, fd, disconnect).log, p.serverFd)
  {
    hide MuxWrites, OfClients, ReleaseAll, RemoveFirst;
    var i := FindConn(p.conns, fd);
    if i < |p.conns| {
      ReleaseAllTraffic(p.log, p.serverFd, p.conns[i].clients);
    }
  }

  lemma ClientTraffic(p: Proxy, fd: int, msg: Bytes)
    requires p.serverFd != -1 && fd != p.serverFd
    ensures var l := FromClient(p, fd, msg).log;
            && MuxWrites(l.effects) == MuxWrites(p.log.effects) + (if At(msg, 4) != 0 then [msg] else [])
            && OfClients(l.accepted, p.serverFd)
               == OfClients(p.log.accepted, p.serverFd)
                  + if At(msg, 4) == 0 && !(At(msg, 8) == 0x27 && At(msg, 9) == 0) then [(fd, msg)] else []
  {
    EnqueueTraffic(p.log, fd, msg, p.serverFd);
    MuxWritesConcat(p.log.effects, [MuxWrite(msg)]);
    OneMuxWrite(MuxWrite(msg));
    hide MuxWrites, OfClients, Enqueue, At;
    AppendNone(MuxWrites(p.log.effects));
    AppendNone(OfClients(p.log.accepted, p.serverFd));
  }

  /** Over every run, whoever joins, leaves or waits: each service message of a client is forwarded to the modem, once, in
      order and unchanged; and the requests accepted from clients are their control messages but SYNC, in order. */
  lemma {:induction false} ClientsAreServed(serverFd: int, events: seq<Event>)
    requires serverFd != -1
    requires forall i :: 0 <= i < |events| && events[i].ClientMessage? ==> events[i].fd != serverFd
    ensures var p := Run(serverFd, events);
            && p.serverFd == serverFd
            && MuxWrites(p.log.effects) == Said(events)
            && OfClients(p.log.accepted, serverFd) == Asked(events)
  {
    hide FromClient, FromDevice, Cleanup, Accept, MuxWrites, OfClients, At;
    if events == [] {
      NothingYet(serverFd);
    } else {
      var n := |events| - 1;
      ClientsAreServed(serverFd, events[..n]);
      var p, e := Run(serverFd, events[..n]), events[n];
      AppendNone(Said(events[..n]));
      AppendNone(Asked(events[..n]));
      StepServerFd(p, e);
      match e
      case Accepted(fd) => AcceptLog(p, fd);
      case ClientMessage(fd, msg) => ClientTraffic(p, fd, msg);
      case DeviceMessage(msg) => DeviceTraffic(p, msg);
      case Closed(fd, disconnect) => CleanupTraffic(p, fd, disconnect);
    }
  }

  lemma {:induction false} NothingYet(serverFd: int)
    ensures MuxWrites(Start(serverFd).log.effects) == [] && OfClients(Start(serverFd).log.accepted, serverFd) == []
    ensures Start(serverFd).serverFd == serverFd
  {
  }

  lemma AcceptLog(p: Proxy, fd: int)
    ensures Accept(p, fd).log == p.log
  {
  }

  lemma StepServerFd(p: Proxy, e: Event)
    ensures Step(p, e).serverFd == p.serverFd
  {
    hide Answers, NoteAll, ReplyWrites, ServiceWrites, ReleaseAll, RemoveFirst, IsCtl, IsCtlResponse, Queues;
  }

  /** Before the proxy is up nothing is accepted or written. */
  lemma {:induction false} NothingBeforeItIsUp(events: seq<Event>)
    ensures var p := Run(-1, events);
            p.serverFd == -1 && p.log.accepted == [] && p.log.effects == [] && p.log.queue == []
            && forall i :: 0 <= i < |p.conns| ==> p.conns[i].clients == []
  {
    if events != [] {
      var n := |events| - 1;
      NothingBeforeItIsUp(events[..n]);
      var p, e := Run(-1, events[..n]), events[n];
      if e.Closed? && FindConn(p.conns, e.fd) < |p.conns| {
        assert p.conns[FindConn(p.conns, e.fd)].clients == [];
        assert RemoveFirst([], e.fd) == [];
      }
    }
  }

  /** A clean-up without hang-up gives nothing back and writes nothing. */
  lemma {:induction false} QuietClose(p: Proxy, fd: int)
    ensures var q := Cleanup(p, fd, false);
            q.log.accepted == p.log.accepted && q.log.effects == p.log.effects
            && q.log.queue == if FindConn(p.conns, fd) < |p.conns| then RemoveFirst(p.log.queue, fd) else p.log.queue
  {
  }

  // ---- from the modem to clients ----

  /** The response fits the request: transaction id and message type, bytes 7 to 9, are the same. */
  predicate Fits(req: Bytes, rsp: Bytes) {
    At(req, 7) == At(rsp, 7) && At(req, 8) == At(rsp, 8) && At(req, 9) == At(rsp, 9)
  }

  /** Result and error, bytes 15 to 18, are 0. */
  predicate Granted(rsp: Bytes) {
    At(rsp, 15) == 0 && At(rsp, 16) == 0 && At(rsp, 17) == 0 && At(rsp, 18) == 0
  }

  lemma FitsIsAnswers(req: Bytes, rsp: Bytes)
    ensures Fits(req, rsp) <==> Answers(req, rsp)
    ensures Granted(rsp) <==> RspOk(rsp)
  {
    hide At;
  }

  /** The pairs of the issuing connection after a fitting response: GET adds the pair in bytes 22 and 23, RELEASE takes its
      first occurrence off, anything else and anything refused changes nothing. */
  lemma NotedExactly(clients: seq<Pair>, rsp: Bytes)
    ensures var pair := Pair(At(rsp, 22), At(rsp, 23));
            var now := NoteResponse(clients, rsp);
            if At(rsp, 8) == 0x22 && At(rsp, 9) == 0 && Granted(rsp) then now == clients + [pair]
            else if At(rsp, 8) == 0x23 && At(rsp, 9) == 0 && Granted(rsp) && pair in clients then
              exists k :: 0 <= k < |clients| && clients[k] == pair && pair !in clients[..k]
                          && now == clients[..k] + clients[k + 1..]
            else now == clients
  {
    FitsIsAnswers(rsp, rsp);
    var k := RemovedAt(clients, Pair(At(rsp, 22), At(rsp, 23)));
    hide At, RemovePair;
  }

  lemma {:induction false} RemovedAt(clients: seq<Pair>, pair: Pair) returns (k: nat)
    ensures pair !in clients ==> RemovePair(clients, pair) == clients
    ensures pair in clients ==>
              k < |clients| && clients[k] == pair && pair !in clients[..k]
              && RemovePair(clients, pair) == clients[..k] + clients[k + 1..]
  {
    k := 0;
    if clients != [] && clients[0] != pair {
      var j := RemovedAt(clients[1..], pair);
      k := j + 1;
      if pair in clients {
        assert clients[..k] == [clients[0]] + clients[1..][..j] && clients[k + 1..] == clients[1..][j + 1..];
        AppendAssoc([clients[0]], clients[1..][..j], clients[k + 1..]);
      }
    }
  }

  /** A control message of the modem matters only as a response, byte 6 being 1, with a request queued. Then the head is
      dropped and the next one written; and if the response fits the head, which is a client's, each connection with that
      client's descriptor gets a copy and notes it. Nothing else is written or noted. */
  lemma {:induction false} ControlMessageExactly(p: Proxy, msg: Bytes)
    requires p.serverFd != -1 && At(msg, 4) == 0
    ensures var after := FromDevice(p, msg);
            var q := p.log.queue;
            if At(msg, 6) != 1 || q == [] then after == p
            else
              var fd := q[0].fd;
              var delivered := Fits(q[0].msg, msg) && fd != p.serverFd;
              && after.log.queue == q[1..] && after.log.accepted == p.log.accepted
              && after.log.effects
                 == p.log.effects + (if delivered then ReplyWrites(p.conns, fd, msg) else [])
                    + (if |q| > 1 then [CtlWrite(q[1])] else [])
              && |after.conns| == |p.conns|
              && forall i :: 0 <= i < |p.conns| ==>
                   after.conns[i] == if delivered && p.conns[i].fd == fd
                                     then Conn(fd, NoteResponse(p.conns[i].clients, msg)) else p.conns[i]
  {
    AppendNone(p.log.effects);
    if p.log.queue != [] {
      FitsIsAnswers(p.log.queue[0].msg, msg);
      var copies := ReplyWrites(p.conns, p.log.queue[0].fd, msg);
      AppendNone(p.log.effects + copies);
    }
    hide At, Answers, Fits, ReplyWrites, NoteResponse;
  }

  /** n copies of a write */
  function Copies(fd: int, msg: Bytes, n: nat): seq<Effect> {
    seq(n, _ => ClientWrite(fd, msg))
  }

  function CountOf(clients: seq<Pair>, service: byte): nat {
    if clients == [] then 0
    else CountOf(clients[..|clients| - 1], service) + if clients[|clients| - 1].qmiType == service then 1 else 0
  }

  /** To every connection, in order, a copy for each of its pairs of the service. */
  function Broadcast(conns: seq<Conn>, msg: Bytes): seq<Effect> {
    if conns == [] then []
    else
      var c := conns[|conns| - 1];
      Broadcast(conns[..|conns| - 1], msg) + Copies(c.fd, msg, CountOf(c.clients, At(msg, 4)))
  }

  lemma {:induction false} ConnBroadcast(fd: int, clients: seq<Pair>, msg: Bytes)
    requires At(msg, 5) == 0
    ensures ConnWrites(fd, clients, msg) == Copies(fd, msg, CountOf(clients, At(msg, 4)))
  {
    if clients != [] {
      ConnBroadcast(fd, clients[..|clients| - 1], msg);
    }
  }

  /** A service message without client id, byte 5 being 0, is broadcast to the holders of its service's pairs. */
  lemma {:induction false} BroadcastExactly(conns: seq<Conn>, msg: Bytes)
    requires At(msg, 5) == 0
    ensures ServiceWrites(conns, msg) == Broadcast(conns, msg)
  {
    hide At;
    if conns != [] {
      BroadcastExactly(conns[..|conns| - 1], msg);
      ConnBroadcast(conns[|conns| - 1].fd, conns[|conns| - 1].clients, msg);
    }
  }
}
