/** What each step of the QMI proxy does to its connections, its control queue and its outputs, on values. */
module QmiProxyModel {
  import opened Wire

  datatype Conn = Conn(fd: int, clients: seq<Pair>)

  /** A queued control message; id stands for the identity of its list node, given out in allocation order. */
  datatype CtlReq = CtlReq(id: nat, fd: int, msg: Bytes)

  /** An attempted write: of a control request or of any other message to the modem, or of a message to a client. */
  datatype Effect =
    | CtlWrite(req: CtlReq)
    | MuxWrite(msg: Bytes)
    | ClientWrite(fd: int, reply: Bytes)

  /** The control queue; every request ever queued; every write ever attempted. */
  datatype Ledger = Ledger(queue: seq<CtlReq>, accepted: seq<CtlReq>, effects: seq<Effect>)

  datatype Proxy = Proxy(serverFd: int, conns: seq<Conn>, log: Ledger)

  function Start(serverFd: int): Proxy {
    Proxy(serverFd, [], Ledger([], [], []))
  }

  function Accept(p: Proxy, fd: int): Proxy {
    p.(conns := p.conns + [Conn(fd, [])])
  }

  function Emit(l: Ledger, effects: seq<Effect>): Ledger {
    l.(effects := l.effects + effects)
  }

  /** A request goes to the modem at once only when nothing is queued before it. */
  function Enqueue(l: Ledger, fd: int, msg: Bytes): Ledger {
    var req := CtlReq(|l.accepted|, fd, msg);
    Ledger(l.queue + [req],
           l.accepted + [req],
           if l.queue == [] then l.effects + [CtlWrite(req)] else l.effects)
  }

  /** The messages from clients that are queued: control messages other than SYNC. */
  predicate Queues(msg: Bytes) {
    IsCtl(msg) && CtlKind(msg) != QMICTL_SYNC_REQ
  }

  function FromClient(p: Proxy, fd: int, msg: Bytes): Proxy {
    if p.serverFd == -1 then p
    else if !IsCtl(msg) then p.(log := Emit(p.log, [MuxWrite(msg)]))
    else if Queues(msg) then p.(log := Enqueue(p.log, fd, msg))
    else p
  }

  /** The 17-byte request by which the proxy gives a pair back. */
  function ReleaseMsg(pair: Pair): Bytes {
    [USB_CTL_MSG_TYPE_QMI, 16, 0, 0, QMUX_TYPE_CTL, 0,
     QMICTL_FLAG_REQUEST, 255, QMICTL_RELEASE_CLIENT_ID % 0x100, QMICTL_RELEASE_CLIENT_ID / 0x100, 5, 0,
     1, 2, 0, pair.qmiType, pair.clientId]
  }

  /** One RELEASE request for each pair, in the order of the list. */
  function ReleaseAll(l: Ledger, serverFd: int, clients: seq<Pair>): Ledger
    decreases |clients|
  {
    if clients == [] then l
    else ReleaseAll(Enqueue(l, serverFd, ReleaseMsg(clients[0])), serverFd, clients[1..])
  }

  /** The first connection with this descriptor, or the number of connections. */
  function FindConn(conns: seq<Conn>, fd: int): (i: nat)
    ensures i <= |conns|
    ensures i < |conns| ==> conns[i].fd == fd
    ensures forall j :: 0 <= j < i ==> conns[j].fd != fd
  {
    if conns == [] || conns[0].fd == fd then 0 else 1 + FindConn(conns[1..], fd)
  }

  function RemoveFirst(queue: seq<CtlReq>, fd: int): seq<CtlReq> {
    if queue == [] then []
    else if queue[0].fd == fd then queue[1..]
    else [queue[0]] + RemoveFirst(queue[1..], fd)
  }

  function Cleanup(p: Proxy, fd: int, disconnect: bool): Proxy {
    var i := FindConn(p.conns, fd);
    if i == |p.conns| then p
    else
      var log := if disconnect then ReleaseAll(p.log, p.serverFd, p.conns[i].clients) else p.log;
      Proxy(p.serverFd, p.conns[..i] + p.conns[i + 1..], log.(queue := RemoveFirst(log.queue, fd)))
  }

  predicate Answers(req: Bytes, rsp: Bytes) {
    CtlTid(req) == CtlTid(rsp) && CtlKind(req) == CtlKind(rsp)
  }

  function RemovePair(clients: seq<Pair>, pair: Pair): seq<Pair> {
    if clients == [] then []
    else if clients[0] == pair then clients[1..]
    else [clients[0]] + RemovePair(clients[1..], pair)
  }

  /** get_client_id and release_client_id: the pairs of the issuing connection after a control response. */
  function NoteResponse(clients: seq<Pair>, rsp: Bytes): seq<Pair> {
    if CtlKind(rsp) == QMICTL_GET_CLIENT_ID && RspOk(rsp) then clients + [RspPair(rsp)]
    else if CtlKind(rsp) == QMICTL_RELEASE_CLIENT_ID && RspOk(rsp) then RemovePair(clients, RspPair(rsp))
    else clients
  }

  function NoteConn(c: Conn, fd: int, rsp: Bytes): Conn {
    if c.fd == fd then c.(clients := NoteResponse(c.clients, rsp)) else c
  }

  function NoteAll(conns: seq<Conn>, fd: int, rsp: Bytes): (r: seq<Conn>)
    ensures |r| == |conns|
    ensures forall i :: 0 <= i < |r| ==> r[i] == NoteConn(conns[i], fd, rsp)
  {
    seq(|conns|, i requires 0 <= i < |conns| => NoteConn(conns[i], fd, rsp))
  }

  /** One copy of the response for each connection with the issuer's descriptor. */
  function ReplyWrites(conns: seq<Conn>, fd: int, rsp: Bytes): seq<Effect> {
    if conns == [] then []
    else
      var n := |conns| - 1;
      ReplyWrites(conns[..n], fd, rsp) + if conns[n].fd == fd then [ClientWrite(fd, rsp)] else []
  }

  predicate Hits(pair: Pair, msg: Bytes) {
    QmiType(msg) == pair.qmiType && (ClientId(msg) == 0 || ClientId(msg) == pair.clientId)
  }

  function ConnWrites(fd: int, clients: seq<Pair>, msg: Bytes): seq<Effect> {
    if clients == [] then []
    else
      var n := |clients| - 1;
      ConnWrites(fd, clients[..n], msg) + if Hits(clients[n], msg) then [ClientWrite(fd, msg)] else []
  }

  /** A service message goes to every connection once for each matching pair it holds. */
  function ServiceWrites(conns: seq<Conn>, msg: Bytes): seq<Effect> {
    if conns == [] then []
    else
      var n := |conns| - 1;
      ServiceWrites(conns[..n], msg) + ConnWrites(conns[n].fd, conns[n].clients, msg)
  }

  /** A control response meets the head of the queue; matching or not, the head is dropped. */
  function Consume(p: Proxy, rsp: Bytes): Proxy
    requires p.log.queue != []
  {
    var req := p.log.queue[0];
    var rest := p.log.(queue := p.log.queue[1..]);
    if !Answers(req.msg, rsp) || req.fd == p.serverFd then p.(log := rest)
    else Proxy(p.serverFd, NoteAll(p.conns, req.fd, rsp), Emit(rest, ReplyWrites(p.conns, req.fd, rsp)))
  }

  function SendHead(l: Ledger): Ledger {
    if l.queue == [] then l else Emit(l, [CtlWrite(l.queue[0])])
  }

  function Respond(p: Proxy, rsp: Bytes): Proxy
    requires p.log.queue != []
  {
    var q := Consume(p, rsp);
    q.(log := SendHead(q.log))
  }

  predicate IsCtlResponse(msg: Bytes) {
    IsCtl(msg) && CtlFlags(msg) == QMICTL_FLAG_RESPONSE
  }

  function FromDevice(p: Proxy, msg: Bytes): Proxy {
    if p.serverFd == -1 then p
    else if IsCtlResponse(msg) then
      if p.log.queue == [] then p else Respond(p, msg)
    else if IsCtl(msg) then p
    else p.(log := Emit(p.log, ServiceWrites(p.conns, msg)))
  }

  /** Header, transaction id 255, and one TLV of two bytes that is the pair; both length fields count what follows. */
  lemma ReleaseMsgFields(pair: Pair)
    ensures var m := ReleaseMsg(pair);
            && |m| == 17 && Length(m) as int + 1 == |m| && Queues(m)
            && CtlKind(m) == QMICTL_RELEASE_CLIENT_ID && ReqPair(m) == pair
            && m[0] == 1 && m[3] == m[4] == m[5] == m[6] == 0 && m[7] == 0xff
            && Le16At(m, 8) == 0x23 && Le16At(m, 10) == |m| - 12
            && m[12] == 1 && Le16At(m, 13) == 2 && m[15] == pair.qmiType && m[16] == pair.clientId
  {
    var m := ReleaseMsg(pair);
    assert m[13] == 2 && m[14] == 0 && m[10] == 5 && m[11] == 0;
  }
}
