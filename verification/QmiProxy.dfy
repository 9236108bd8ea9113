/** The QMI proxy as it runs: objects whose lists are updated in place, refining QmiProxyModel. */
module QmiProxy {
  import opened Wire
  import M = QmiProxyModel

  class Connection {
    const fd: int
    var clients: seq<Pair>

    constructor (fd: int)
      ensures this.fd == fd && clients == []
    {
      this.fd := fd;
      clients := [];
    }
  }

  ghost function Views(cs: seq<Connection>): (v: seq<M.Conn>)
    reads cs
    ensures |v| == |cs|
    ensures forall i :: 0 <= i < |cs| ==> v[i] == M.Conn(cs[i].fd, cs[i].clients)
  {
    seq(|cs|, i requires 0 <= i < |cs| reads cs => M.Conn(cs[i].fd, cs[i].clients))
  }

  /** The connections when the first i of them have been told of a response. */
  ghost function NotedTo(conns: seq<M.Conn>, i: nat, fd: int, rsp: Bytes): seq<M.Conn>
    requires i <= |conns|
  {
    M.NoteAll(conns[..i], fd, rsp) + conns[i..]
  }

  ghost function OneReply(c: M.Conn, fd: int, rsp: Bytes): seq<M.Effect> {
    if c.fd == fd then [M.ClientWrite(fd, rsp)] else []
  }

  lemma {:induction false} NotedToStarts(conns: seq<M.Conn>, fd: int, rsp: Bytes)
    ensures NotedTo(conns, 0, fd, rsp) == conns && M.ReplyWrites(conns[..0], fd, rsp) == []
  {
  }

  lemma NotedToEnds(conns: seq<M.Conn>, fd: int, rsp: Bytes)
    ensures NotedTo(conns, |conns|, fd, rsp) == M.NoteAll(conns, fd, rsp) && conns[..|conns|] == conns
  {
  }

  lemma {:induction false} NotedToStep(conns: seq<M.Conn>, i: nat, fd: int, rsp: Bytes)
    requires i < |conns|
    ensures var now := NotedTo(conns, i, fd, rsp);
            && |now| == |conns| && now[i] == conns[i]
            && now[i := M.NoteConn(conns[i], fd, rsp)] == NotedTo(conns, i + 1, fd, rsp)
            && M.ReplyWrites(conns[..i + 1], fd, rsp)
               == M.ReplyWrites(conns[..i], fd, rsp) + OneReply(conns[i], fd, rsp)
  {
    hide M.NoteConn;
    assert conns[..i + 1][..i] == conns[..i];
  }

  class Proxy {
    var serverFd: int
    var connections: seq<Connection>
    var log: M.Ledger

    ghost predicate Valid()
      reads this
    {
      forall i, j :: 0 <= i < j < |connections| ==> connections[i] != connections[j]
    }

    ghost function View(): M.Proxy
      reads this, connections
    {
      M.Proxy(serverFd, Views(connections), log)
    }

    constructor (serverFd: int)
      ensures Valid() && View() == M.Start(serverFd)
    {
      this.serverFd := serverFd;
      connections, log := [], M.Ledger([], [], []);
    }

    method AcceptConnection(clientFd: int)
      requires Valid()
      modifies `connections
      ensures Valid() && View() == M.Accept(old(View()), clientFd)
      ensures |connections| == |old(connections)| + 1 && connections[..|old(connections)|] == old(connections)
      ensures fresh(connections[|old(connections)|])
    {
      var con := new Connection(clientFd);
      connections := connections + [con];
      assert View().conns == M.Accept(old(View()), clientFd).conns;
    }

    /** Queue a request, sending it first when the queue is empty. */
    method Enqueue(fd: int, msg: Bytes)
      modifies `log
      ensures log == M.Enqueue(old(log), fd, msg)
    {
      var req := M.CtlReq(|log.accepted|, fd, msg);
      if log.queue == [] {
        log := log.(effects := log.effects + [M.CtlWrite(req)]);
      }
      log := log.(queue := log.queue + [req], accepted := log.accepted + [req]);
    }

    method RecvFromClient(msg: Bytes, clientFd: int) returns (ret: int)
      requires Valid()
      modifies `log
      ensures View() == M.FromClient(old(View()), clientFd, msg)
      ensures ret == if serverFd == -1 then -1 else 0
    {
      if serverFd == -1 {
        return -1;
      }
      if QmiType(msg) == QMUX_TYPE_CTL {
        if CtlKind(msg) == QMICTL_SYNC_REQ {
          return 0;
        }
        Enqueue(clientFd, msg);
      } else {
        log := log.(effects := log.effects + [M.MuxWrite(msg)]);
      }
      return 0;
    }

    /** Drop the first queued message of a leaving client. */
    method DropFirstQueued(clientFd: int)
      modifies `log
      ensures log == old(log).(queue := M.RemoveFirst(old(log).queue, clientFd))
    {
      ghost var queue := log.queue;
      var i := 0;
      while i < |log.queue|
        invariant i <= |queue| && log == old(log)
        invariant M.RemoveFirst(queue, clientFd) == queue[..i] + M.RemoveFirst(queue[i..], clientFd)
      {
        if log.queue[i].fd == clientFd {
          log := log.(queue := log.queue[..i] + log.queue[i + 1..]);
          return;
        }
        i := i + 1;
      }
    }

    /** Empty a connection's client list, asking for each pair to be released if the client hung up. */
    method DrainClients(con: Connection, clientDisconnect: bool)
      modifies con, `log
      ensures con.clients == []
      ensures log == if clientDisconnect then M.ReleaseAll(old(log), serverFd, old(con.clients)) else old(log)
    {
      while con.clients != []
        invariant clientDisconnect ==>
            M.ReleaseAll(log, serverFd, con.clients) == M.ReleaseAll(old(log), serverFd, old(con.clients))
        invariant !clientDisconnect ==> log == old(log)
        decreases |con.clients|
      {
        if clientDisconnect {
          Enqueue(serverFd, M.ReleaseMsg(con.clients[0]));
        }
        con.clients := con.clients[1..];
      }
    }

    /** The search loop of the clean-up. */
    method FindConnection(clientFd: int) returns (i: nat)
      ensures i == M.FindConn(Views(connections), clientFd)
    {
      i := 0;
      while i < |connections|
        invariant i <= |connections|
        invariant forall j :: 0 <= j < i ==> connections[j].fd != clientFd
      {
        if connections[i].fd == clientFd {
          break;
        }
        i := i + 1;
      }
    }

    /** Empty the i-th connection and drop its first queued message. */
    method DrainAt(i: nat, clientFd: int, clientDisconnect: bool)
      requires Valid() && i < |connections|
      modifies connections[i], `log
      ensures Views(connections)[..i] == old(Views(connections)[..i])
      ensures Views(connections)[i + 1..] == old(Views(connections)[i + 1..])
      ensures var l := if clientDisconnect then M.ReleaseAll(old(log), serverFd, old(connections[i].clients)) else old(log);
              log == l.(queue := M.RemoveFirst(l.queue, clientFd))
    {
      hide M.ReleaseAll, M.RemoveFirst;
      DrainClients(connections[i], clientDisconnect);
      DropFirstQueued(clientFd);
    }

    /** Take the i-th connection off the list. */
    method Unlink(i: nat)
      requires Valid() && i < |connections|
      modifies `connections
      ensures Valid() && connections == old(connections)[..i] + old(connections)[i + 1..]
      ensures old(connections)[i] !in connections
      ensures Views(connections) == old(Views(connections)[..i] + Views(connections)[i + 1..])
    {
      connections := connections[..i] + connections[i + 1..];
    }

    method CleanupConnection(clientFd: int, clientDisconnect: bool)
      requires Valid()
      modifies this, connections
      ensures Valid() && View() == M.Cleanup(old(View()), clientFd, clientDisconnect)
    {
      hide M.ReleaseAll, M.RemoveFirst;
      var i := FindConnection(clientFd);
      if i < |connections| {
        DrainAt(i, clientFd, clientDisconnect);
        Unlink(i);
      }
    }

    /** get_client_id */
    method GetClientId(con: Connection, rsp: Bytes)
      modifies con
      ensures con.clients == old(con.clients) + if RspOk(rsp) then [RspPair(rsp)] else []
    {
      if RspOk(rsp) {
        con.clients := con.clients + [RspPair(rsp)];
      }
    }

    /** release_client_id */
    method ReleaseClientId(con: Connection, rsp: Bytes)
      modifies con
      ensures con.clients == if RspOk(rsp) then M.RemovePair(old(con.clients), RspPair(rsp)) else old(con.clients)
    {
      if RspOk(rsp) {
        ghost var all := con.clients;
        var i := 0;
        while i < |con.clients|
          invariant i <= |all| && con.clients == all
          invariant M.RemovePair(all, RspPair(rsp)) == all[..i] + M.RemovePair(all[i..], RspPair(rsp))
        {
          if con.clients[i] == RspPair(rsp) {
            con.clients := con.clients[..i] + con.clients[i + 1..];
            return;
          }
          i := i + 1;
        }
      }
    }

    /** Record in a connection what a control response granted or took back. */
    method NoteResponse(con: Connection, rsp: Bytes)
      modifies con
      ensures con.clients == M.NoteResponse(old(con.clients), rsp)
    {
      if CtlKind(rsp) == QMICTL_GET_CLIENT_ID {
        GetClientId(con, rsp);
      } else if CtlKind(rsp) == QMICTL_RELEASE_CLIENT_ID {
        ReleaseClientId(con, rsp);
      }
    }

    /** One turn of the delivery loop. */
    method DeliverTo(i: nat, fd: int, rsp: Bytes)
      requires Valid() && i < |connections|
      modifies `log, connections[i]
      ensures Views(connections) == old(Views(connections))[i := M.NoteConn(old(Views(connections))[i], fd, rsp)]
      ensures log == M.Emit(old(log), if connections[i].fd == fd then [M.ClientWrite(fd, rsp)] else [])
    {
      var con := connections[i];
      if con.fd == fd {
        log := log.(effects := log.effects + [M.ClientWrite(fd, rsp)]);
        NoteResponse(con, rsp);
      }
    }

    /** Hand a matching response to the connection that issued the request. */
    method DeliverResponse(fd: int, rsp: Bytes)
      requires Valid()
      modifies `log, connections
      ensures Views(connections) == M.NoteAll(old(Views(connections)), fd, rsp)
      ensures log == M.Emit(old(log), M.ReplyWrites(old(Views(connections)), fd, rsp))
    {
      hide At, Le16At, M.NoteConn, M.NoteResponse, M.NoteAll, M.ReplyWrites, NotedTo;
      ghost var conns := Views(connections);
      NotedToStarts(conns, fd, rsp);
      for i := 0 to |connections|
        invariant Views(connections) == NotedTo(conns, i, fd, rsp)
        invariant log == M.Emit(old(log), M.ReplyWrites(conns[..i], fd, rsp))
      {
        NotedToStep(conns, i, fd, rsp);
        DeliverTo(i, fd, rsp);
        AppendAssoc(old(log.effects), M.ReplyWrites(conns[..i], fd, rsp), OneReply(conns[i], fd, rsp));
      }
      NotedToEnds(conns, fd, rsp);
    }

    /** The inner loop of the service fan-out. */
    method ForwardTo(con: Connection, msg: Bytes)
      modifies `log
      ensures log == M.Emit(old(log), M.ConnWrites(con.fd, con.clients, msg))
    {
      hide At, Le16At;
      for j := 0 to |con.clients|
        invariant log == M.Emit(old(log), M.ConnWrites(con.fd, con.clients[..j], msg))
      {
        assert con.clients[..j + 1][..j] == con.clients[..j];
        if QmiType(msg) == con.clients[j].qmiType {
          if ClientId(msg) == 0 || ClientId(msg) == con.clients[j].clientId {
            log := log.(effects := log.effects + [M.ClientWrite(con.fd, msg)]);
          }
        }
      }
      assert con.clients[..|con.clients|] == con.clients;
    }

    /** Pass a service message to every connection that holds a matching pair. */
    method ForwardService(msg: Bytes)
      requires Valid()
      modifies `log
      ensures log == M.Emit(old(log), M.ServiceWrites(old(Views(connections)), msg))
    {
      hide M.ConnWrites;
      ghost var conns := Views(connections);
      for i := 0 to |connections|
        invariant log == M.Emit(old(log), M.ServiceWrites(conns[..i], msg))
      {
        ForwardTo(connections[i], msg);
        assert conns[..i + 1][..i] == conns[..i];
        AppendAssoc(old(log.effects), M.ServiceWrites(conns[..i], msg), M.ConnWrites(conns[i].fd, conns[i].clients, msg));
      }
      assert conns[..|conns|] == conns;
    }

    /** Match a control response against the head of the queue, then drop the head. */
    method DropHead(rsp: Bytes)
      requires Valid() && log.queue != []
      modifies `log, connections
      ensures View() == M.Consume(old(View()), rsp)
    {
      var req := log.queue[0];
      if CtlTid(req.msg) != CtlTid(rsp) || CtlKind(req.msg) != CtlKind(rsp) {
        // mismatch: only reported
      } else if req.fd == serverFd {
        // the proxy's own release: only reported
      } else {
        DeliverResponse(req.fd, rsp);
      }
      log := log.(queue := log.queue[1..]);
    }

    method RecvFromDevice(msg: Bytes)
      requires Valid()
      modifies `log, connections
      ensures Valid() && View() == M.FromDevice(old(View()), msg)
    {
      if serverFd == -1 {
        return;
      }
      if QmiType(msg) == QMUX_TYPE_CTL {
        if CtlFlags(msg) == QMICTL_FLAG_RESPONSE && log.queue != [] {
          DropHead(msg);
          if log.queue != [] {
            log := log.(effects := log.effects + [M.CtlWrite(log.queue[0])]);
          }
        }
      } else {
        ForwardService(msg);
      }
    }
  }
}
