/** Order of control requests over arbitrary runs of the QMI proxy: any client, any response, any hang-up. */
module QmiProxyOrder {
  import opened Wire
  import opened QmiProxyModel

  datatype Event =
    | Accepted(fd: int)
    | ClientMessage(fd: int, msg: Bytes)
    | DeviceMessage(msg: Bytes)
    | Closed(fd: int, disconnect: bool)

  function Step(p: Proxy, e: Event): Proxy {
    match e
    case Accepted(fd) => Accept(p, fd)
    case ClientMessage(fd, msg) => FromClient(p, fd, msg)
    case DeviceMessage(msg) => FromDevice(p, msg)
    case Closed(fd, disconnect) => Cleanup(p, fd, disconnect)
  }

  function Run(serverFd: int, events: seq<Event>): Proxy {
    if events == [] then Start(serverFd)
    else Step(Run(serverFd, events[..|events| - 1]), events[|events| - 1])
  }

  function CtlWrites(effects: seq<Effect>): seq<CtlReq> {
    if effects == [] then []
    else
      var n := |effects| - 1;
      CtlWrites(effects[..n]) + if effects[n].CtlWrite? then [effects[n].req] else []
  }

  lemma {:induction false} CtlWritesConcat(a: seq<Effect>, b: seq<Effect>)
    ensures CtlWrites(a + b) == CtlWrites(a) + CtlWrites(b)
  {
    if b == [] {
      assert a + b == a;
    } else {
      var n := |b| - 1;
      assert (a + b)[..|a + b| - 1] == a + b[..n];
      CtlWritesConcat(a, b[..n]);
    }
  }

  lemma {:induction false} ReplyWritesAreReplies(conns: seq<Conn>, fd: int, rsp: Bytes)
    ensures CtlWrites(ReplyWrites(conns, fd, rsp)) == []
  {
    if conns != [] {
      var n := |conns| - 1;
      ReplyWritesAreReplies(conns[..n], fd, rsp);
      CtlWritesConcat(ReplyWrites(conns[..n], fd, rsp), if conns[n].fd == fd then [ClientWrite(fd, rsp)] else []);
    }
  }

  lemma {:induction false} ConnWritesAreReplies(fd: int, clients: seq<Pair>, msg: Bytes)
    ensures CtlWrites(ConnWrites(fd, clients, msg)) == []
  {
    if clients != [] {
      var n := |clients| - 1;
      ConnWritesAreReplies(fd, clients[..n], msg);
      CtlWritesConcat(ConnWrites(fd, clients[..n], msg), if Hits(clients[n], msg) then [ClientWrite(fd, msg)] else []);
    }
  }

  lemma {:induction false} ServiceWritesAreReplies(conns: seq<Conn>, msg: Bytes)
    ensures CtlWrites(ServiceWrites(conns, msg)) == []
  {
    if conns != [] {
      var n := |conns| - 1;
      ServiceWritesAreReplies(conns[..n], msg);
      ConnWritesAreReplies(conns[n].fd, conns[n].clients, msg);
      CtlWritesConcat(ServiceWrites(conns[..n], msg), ConnWrites(conns[n].fd, conns[n].clients, msg));
    }
  }

  ghost predicate Rising(s: seq<CtlReq>) {
    forall i, j :: 0 <= i < j < |s| ==> s[i].id < s[j].id
  }

  /** Every element is the accepted request with its id. */
  ghost predicate Known(s: seq<CtlReq>, accepted: seq<CtlReq>) {
    forall i :: 0 <= i < |s| ==> s[i].id < |accepted| && accepted[s[i].id] == s[i]
  }

  /** Ids are positions in the history, and whatever waits behind the head is younger than everything written. */
  ghost predicate Tidy(writes: seq<CtlReq>, queue: seq<CtlReq>, accepted: seq<CtlReq>) {
    && (forall i :: 0 <= i < |accepted| ==> accepted[i].id == i)
    && Rising(writes) && Known(writes, accepted)
    && Rising(queue) && Known(queue, accepted)
    && forall i, j :: 0 <= i < |writes| && 1 <= j < |queue| ==> writes[i].id < queue[j].id
  }

  ghost predicate Ordered(l: Ledger) {
    Tidy(CtlWrites(l.effects), l.queue, l.accepted)
  }

  lemma TidyEnqueue(writes: seq<CtlReq>, queue: seq<CtlReq>, accepted: seq<CtlReq>, req: CtlReq)
    requires Tidy(writes, queue, accepted) && req.id == |accepted|
    ensures Tidy(if queue == [] then writes + [req] else writes, queue + [req], accepted + [req])
  {
  }

  lemma BehindIsYounger(writes: seq<CtlReq>, queue: seq<CtlReq>, accepted: seq<CtlReq>)
    requires Tidy(writes, queue, accepted) && |queue| > 1
    ensures forall i :: 0 <= i < |writes| ==> writes[i].id < queue[1..][0].id
  {
    hide Rising, Known;
    assert queue[1..][0] == queue[1];
  }

  lemma TidyPop(writes: seq<CtlReq>, queue: seq<CtlReq>, accepted: seq<CtlReq>)
    requires Tidy(writes, queue, accepted) && queue != []
    ensures var rest := queue[1..];
            Tidy(if rest == [] then writes else writes + [rest[0]], rest, accepted)
  {
    hide Rising, Known;
    var rest := queue[1..];
    assert queue[..0] + queue[1..] == rest;
    if rest != [] {
      BehindIsYounger(writes, queue, accepted);
    }
    hide Tidy;
    TidyDrop(writes, queue, accepted, 0);
    if rest != [] {
      TidyWrite(writes, rest, accepted);
    }
  }

  lemma TidyWrite(writes: seq<CtlReq>, queue: seq<CtlReq>, accepted: seq<CtlReq>)
    requires Tidy(writes, queue, accepted) && queue != []
    requires forall i :: 0 <= i < |writes| ==> writes[i].id < queue[0].id
    ensures Tidy(writes + [queue[0]], queue, accepted)
  {
  }

  lemma TidyDrop(writes: seq<CtlReq>, queue: seq<CtlReq>, accepted: seq<CtlReq>, k: nat)
    requires Tidy(writes, queue, accepted) && k < |queue|
    ensures Tidy(writes, queue[..k] + queue[k + 1..], accepted)
  {
    var now := queue[..k] + queue[k + 1..];
    assert forall j :: 0 <= j < |now| ==> now[j] == queue[if j < k then j else j + 1];
  }

  lemma OneWrite(req: CtlReq)
    ensures CtlWrites([CtlWrite(req)]) == [req]
  {
    assert [CtlWrite(req)][..0] == [];
  }

  lemma EnqueueOrdered(l: Ledger, fd: int, msg: Bytes)
    requires Ordered(l)
    ensures Ordered(Enqueue(l, fd, msg))
  {
    var req := CtlReq(|l.accepted|, fd, msg);
    TidyEnqueue(CtlWrites(l.effects), l.queue, l.accepted, req);
    CtlWritesConcat(l.effects, [CtlWrite(req)]);
    OneWrite(req);
  }

  lemma {:induction false} ReleaseAllOrdered(l: Ledger, serverFd: int, clients: seq<Pair>)
    requires Ordered(l)
    ensures Ordered(ReleaseAll(l, serverFd, clients))
    decreases |clients|
  {
    if clients != [] {
      EnqueueOrdered(l, serverFd, ReleaseMsg(clients[0]));
      ReleaseAllOrdered(Enqueue(l, serverFd, ReleaseMsg(clients[0])), serverFd, clients[1..]);
    }
  }

  /** RemoveFirst takes out exactly the first element with the descriptor, if there is one. */
  lemma {:induction false} RemoveFirstAt(queue: seq<CtlReq>, fd: int) returns (k: nat)
    ensures k <= |queue| && forall j :: 0 <= j < k ==> queue[j].fd != fd
    ensures k < |queue| ==> queue[k].fd == fd && RemoveFirst(queue, fd) == queue[..k] + queue[k + 1..]
    ensures k == |queue| ==> RemoveFirst(queue, fd) == queue
  {
    if queue == [] || queue[0].fd == fd {
      k := 0;
    } else {
      var j := RemoveFirstAt(queue[1..], fd);
      k := j + 1;
      assert queue[..k] == [queue[0]] + queue[1..][..j];
      if k < |queue| {
        assert queue[k + 1..] == queue[1..][j + 1..];
        AppendAssoc([queue[0]], queue[1..][..j], queue[k + 1..]);
      }
    }
  }

  lemma {:induction false} RemoveFirstOrdered(l: Ledger, fd: int)
    requires Ordered(l)
    ensures Ordered(l.(queue := RemoveFirst(l.queue, fd)))
  {
    var k := RemoveFirstAt(l.queue, fd);
    if k < |l.queue| {
      TidyDrop(CtlWrites(l.effects), l.queue, l.accepted, k);
    }
  }

  lemma SendHeadWrites(l: Ledger)
    ensures SendHead(l).queue == l.queue && SendHead(l).accepted == l.accepted
    ensures CtlWrites(SendHead(l).effects) == CtlWrites(l.effects) + if l.queue == [] then [] else [l.queue[0]]
  {
    if l.queue != [] {
      CtlWritesConcat(l.effects, [CtlWrite(l.queue[0])]);
      OneWrite(l.queue[0]);
    }
  }

  lemma PopOrdered(l: Ledger, popped: Ledger)
    requires Ordered(l) && l.queue != []
    requires popped.queue == l.queue[1..] && popped.accepted == l.accepted
    requires CtlWrites(popped.effects) == CtlWrites(l.effects)
    ensures Ordered(SendHead(popped))
  {
    TidyPop(CtlWrites(l.effects), l.queue, l.accepted);
    SendHeadWrites(popped);
  }

  /** What the head of the queue meets changes no control write. */
  lemma ConsumeWrites(p: Proxy, rsp: Bytes)
    requires p.log.queue != []
    ensures var l := Consume(p, rsp).log;
            && l.queue == p.log.queue[1..] && l.accepted == p.log.accepted
            && CtlWrites(l.effects) == CtlWrites(p.log.effects)
  {
    var fd := p.log.queue[0].fd;
    CtlWritesConcat(p.log.effects, ReplyWrites(p.conns, fd, rsp));
    ReplyWritesAreReplies(p.conns, fd, rsp);
  }

  lemma DeviceOrdered(p: Proxy, msg: Bytes)
    requires Ordered(p.log)
    ensures Ordered(FromDevice(p, msg).log)
  {
    if p.serverFd == -1 {
    } else if IsCtlResponse(msg) {
      if p.log.queue != [] {
        ConsumeWrites(p, msg);
        PopOrdered(p.log, Consume(p, msg).log);
      }
    } else {
      ServiceWritesAreReplies(p.conns, msg);
      CtlWritesConcat(p.log.effects, ServiceWrites(p.conns, msg));
    }
  }

  lemma ForwardOrdered(l: Ledger, msg: Bytes)
    requires Ordered(l)
    ensures Ordered(Emit(l, [MuxWrite(msg)]))
  {
    CtlWritesConcat(l.effects, [MuxWrite(msg)]);
    assert CtlWrites([MuxWrite(msg)]) == [];
  }

  lemma StepOrdered(p: Proxy, e: Event)
    requires Ordered(p.log)
    ensures Ordered(Step(p, e).log)
  {
    hide Ordered, Emit, Enqueue, ReleaseAll, RemoveFirst, FromDevice, IsCtl, Queues;
    match e
    case Accepted(fd) =>
    case ClientMessage(fd, msg) =>
      EnqueueOrdered(p.log, fd, msg);
      ForwardOrdered(p.log, msg);
    case DeviceMessage(msg) =>
      DeviceOrdered(p, msg);
    case Closed(fd, disconnect) =>
      var i := FindConn(p.conns, fd);
      if i < |p.conns| {
        ReleaseAllOrdered(p.log, p.serverFd, p.conns[i].clients);
        RemoveFirstOrdered(ReleaseAll(p.log, p.serverFd, p.conns[i].clients), fd);
        RemoveFirstOrdered(p.log, fd);
      }
  }

  lemma {:induction false} RunOrdered(serverFd: int, events: seq<Event>)
    ensures Ordered(Run(serverFd, events).log)
  {
    if events != [] {
      RunOrdered(serverFd, events[..|events| - 1]);
      StepOrdered(Run(serverFd, events[..|events| - 1]), events[|events| - 1]);
    }
  }

  /** In every run the control writes are accepted requests in the order of acceptance, none of them twice. */
  lemma {:induction false} AtMostOnce(serverFd: int, events: seq<Event>)
    ensures var l := Run(serverFd, events).log;
            var writes := CtlWrites(l.effects);
            && (forall i :: 0 <= i < |writes| ==> writes[i] in l.accepted)
            && (forall i, j :: 0 <= i < j < |writes| ==> writes[i] != writes[j] && writes[i].id < writes[j].id)
            && (forall i :: 0 <= i < |l.accepted| ==> l.accepted[i].id == i)
  {
    RunOrdered(serverFd, events);
  }
}
