/** What each step of the QRTR proxy does to its connections, tables and outputs, on values. */
module QrtrModel {
  import opened Wire
  import opened QrtrTables

  const TYPE_DATA: u32 := 1
  const TYPE_HELLO: u32 := 2
  const TYPE_NEW_SERVER: u32 := 4
  const TYPE_DEL_SERVER: u32 := 5
  const TYPE_DEL_CLIENT: u32 := 6
  const TYPE_RESUME_TX: u32 := 7
  const NODE_BCAST: u32 := 0xffff_ffff
  const PORT_CTRL: u32 := 0xffff_fffe
  const NODE_MODEM: u32 := 3
  const NODE_MYSELF: u32 := 1

  datatype Address = Address(node: u32, port: u32)

  /** A QRTR packet: the header fields the proxy sets or reads, and as many payload bytes as the header says. */
  datatype Packet = Packet(kind: u32, src: Address, dst: Address, confirmRx: u32, payload: Bytes)

  datatype Client = Client(qmiType: byte, clientId: byte, at: Address)
  datatype Conn = Conn(fd: int, clients: seq<Client>)
  datatype Service = Service(service: u32, version: u32, instance: u32, at: Address, src: Address)
  datatype Effect = ToModem(packet: Packet) | ToClient(fd: int, msg: Bytes)
  datatype Tables = Tables(clientIds: Table, portIds: Table)
  datatype Proxy = Proxy(conns: seq<Conn>, services: seq<Service>, tables: Tables, effects: seq<Effect>)

  /** What the read loop hands on: a message as long as its length field says, with at least a header. */
  type Message = m: Bytes | |m| >= QMI_HDR_SIZE && |m| == Length(m) as int + 1 witness [0, 5, 0, 0, 0, 0]

  function Emit(p: Proxy, effects: seq<Effect>): Proxy {
    p.(effects := p.effects + effects)
  }

  /** A struct qrtr_ctrl_pkt with its first two operands. */
  function Control(cmd: u32, a: u32, b: u32): Bytes {
    Le32(cmd) + Le32(a) + Le32(b) + [0, 0, 0, 0, 0, 0, 0, 0]
  }

  function FindService(services: seq<Service>, qmiType: byte): (r: Option<Service>)
    ensures r.Some? ==> r.value in services && r.value.service == qmiType
    ensures r.None? ==> forall s :: s in services ==> s.service != qmiType
  {
    if services == [] then None
    else if services[0].service == qmiType then Some(services[0])
    else FindService(services[1..], qmiType)
  }

  function DelClient(services: seq<Service>, c: Client): Packet {
    var srv := FindService(services, c.qmiType);
    var to := if srv.Some? then srv.value.src.node else NODE_BCAST;
    Packet(TYPE_DATA, c.at, Address(to, PORT_CTRL), 0, Control(TYPE_DEL_CLIENT, c.at.node, c.at.port))
  }

  function FindConn(conns: seq<Conn>, fd: int): (i: nat)
    ensures i <= |conns|
    ensures i < |conns| ==> conns[i].fd == fd
    ensures forall j :: 0 <= j < i ==> conns[j].fd != fd
  {
    if conns == [] || conns[0].fd == fd then 0 else 1 + FindConn(conns[1..], fd)
  }

  predicate Owns(c: Client, qmiType: byte, clientId: byte) {
    c.qmiType == qmiType && c.clientId == clientId
  }

  function FindClient(clients: seq<Client>, qmiType: byte, clientId: byte): (k: nat)
    ensures k <= |clients|
    ensures k < |clients| ==> Owns(clients[k], qmiType, clientId)
    ensures forall j :: 0 <= j < k ==> !Owns(clients[j], qmiType, clientId)
  {
    if clients == [] || Owns(clients[0], qmiType, clientId) then 0
    else 1 + FindClient(clients[1..], qmiType, clientId)
  }

  function FreeBoth(t: Tables, c: Client): Tables {
    Tables(Free(t.clientIds, c.clientId), Free(t.portIds, c.at.port))
  }

  function SetClients(p: Proxy, i: nat, clients: seq<Client>): Proxy
    requires i < |p.conns|
  {
    p.(conns := p.conns[i := Conn(p.conns[i].fd, clients)])
  }

  /** Release the k-th client of the i-th connection. */
  function ReleaseAt(p: Proxy, i: nat, k: nat): Proxy
    requires i < |p.conns| && k < |p.conns[i].clients|
  {
    var clients := p.conns[i].clients;
    var q := SetClients(p, i, clients[..k] + clients[k + 1..]);
    q.(tables := FreeBoth(p.tables, clients[k]),
       effects := p.effects + [ToModem(DelClient(p.services, clients[k]))])
  }

  function Release(p: Proxy, i: nat, qmiType: byte, clientId: byte): Proxy
    requires i < |p.conns|
  {
    var k := FindClient(p.conns[i].clients, qmiType, clientId);
    if k < |p.conns[i].clients| then ReleaseAt(p, i, k) else p
  }

  /** The drain loop of the clean-up: release the pair of the first client until there is none. */
  function Drain(p: Proxy, i: nat): Proxy
    requires i < |p.conns|
    decreases |p.conns[i].clients|
  {
    if p.conns[i].clients == [] then p
    else
      var c := p.conns[i].clients[0];
      Drain(Release(p, i, c.qmiType, c.clientId), i)
  }

  function RemoveConn(p: Proxy, i: nat): Proxy
    requires i < |p.conns|
  {
    p.(conns := p.conns[..i] + p.conns[i + 1..])
  }

  function Accept(p: Proxy, fd: int): Proxy {
    p.(conns := p.conns + [Conn(fd, [])])
  }

  lemma {:induction false} DrainKeepsConns(p: Proxy, i: nat)
    requires i < |p.conns|
    ensures |Drain(p, i).conns| == |p.conns|
    decreases |p.conns[i].clients|
  {
    if p.conns[i].clients != [] {
      var c := p.conns[i].clients[0];
      DrainKeepsConns(Release(p, i, c.qmiType, c.clientId), i);
    }
  }

  function Cleanup(p: Proxy, fd: int): Proxy {
    var i := FindConn(p.conns, fd);
    if i == |p.conns| then p
    else
      DrainKeepsConns(p, i);
      RemoveConn(Drain(p, i), i)
  }

  /** The id given to a new client is the low byte of the cell found, the port the index of the cell found. */
  function NewClient(t: Tables, qmiType: byte): Client {
    Client(qmiType, AllocId(t.clientIds) % 0x100, Address(NODE_MYSELF, AllocId(t.portIds) % 0x1_0000_0000))
  }

  function AllocClient(p: Proxy, i: nat, qmiType: byte): Proxy
    requires i < |p.conns|
  {
    var q := SetClients(p, i, p.conns[i].clients + [NewClient(p.tables, qmiType)]);
    q.(tables := Tables(Alloc(p.tables.clientIds), Alloc(p.tables.portIds)))
  }

  /** The header and result TLV common to the proxy's own control responses. */
  function RspHead(req: Bytes, total: u16, result: u16, error: u16): Bytes
    requires total >= 12
  {
    [USB_CTL_MSG_TYPE_QMI, (total - 1) % 0x100, (total - 1) / 0x100, 0, QMUX_TYPE_CTL, 0,
     QMICTL_FLAG_RESPONSE, CtlTid(req), CtlKind(req) % 0x100, CtlKind(req) / 0x100,
     (total - 12) % 0x100, (total - 12) / 0x100,
     2, 4, 0, result % 0x100, result / 0x100, error % 0x100, error / 0x100]
  }

  function GetRsp(req: Bytes, qmiType: byte, clientId: byte): Bytes {
    RspHead(req, 24, if clientId == 0 then 1 else 0, if clientId == 0 then 3 else 0)
    + [1, 2, 0, qmiType, clientId]
  }

  function ReleaseRsp(req: Bytes): Bytes {
    RspHead(req, 24, 0, 0) + [1, 2, 0, ReqPair(req).qmiType, ReqPair(req).clientId]
  }

  function VersionRsp(req: Bytes): Bytes {
    RspHead(req, 23, 0, 0) + [1, 1, 0, 0]
  }

  function OnGet(p: Proxy, i: nat, msg: Bytes): Proxy
    requires i < |p.conns|
  {
    var qmiType := ReqService(msg);
    var fd := p.conns[i].fd;
    if FindService(p.services, qmiType).Some?
    then Emit(AllocClient(p, i, qmiType), [ToClient(fd, GetRsp(msg, qmiType, NewClient(p.tables, qmiType).clientId))])
    else Emit(p, [ToClient(fd, GetRsp(msg, qmiType, 0))])
  }

  function OnRelease(p: Proxy, i: nat, msg: Bytes): Proxy
    requires i < |p.conns|
  {
    Emit(Release(p, i, ReqPair(msg).qmiType, ReqPair(msg).clientId), [ToClient(p.conns[i].fd, ReleaseRsp(msg))])
  }

  /** The packets a service message of the i-th connection becomes: one from its owner's port, or none. */
  function Outgoing(p: Proxy, i: nat, msg: Message): seq<Effect>
    requires i < |p.conns|
  {
    var clients := p.conns[i].clients;
    var k := FindClient(clients, QmiType(msg), ClientId(msg));
    if k == |clients| then []
    else
      var srv := FindService(p.services, QmiType(msg));
      if srv.None? || srv.value.service == 0 then []
      else [ToModem(Packet(TYPE_DATA, clients[k].at, srv.value.at, 0, msg[QMI_HDR_SIZE..]))]
  }

  function FromClient(p: Proxy, fd: int, msg: Message): Proxy {
    var i := FindConn(p.conns, fd);
    if i == |p.conns| then p
    else if !IsCtl(msg) then Emit(p, Outgoing(p, i, msg))
    else if CtlKind(msg) == QMICTL_GET_CLIENT_ID then OnGet(p, i, msg)
    else if CtlKind(msg) == QMICTL_RELEASE_CLIENT_ID then OnRelease(p, i, msg)
    else if CtlKind(msg) == QMICTL_GET_VERSION_REQ then Emit(p, [ToClient(fd, VersionRsp(msg))])
    else p
  }

  /** The QMI message rebuilt for a client from the payload of a packet to its port. */
  function Rebuilt(c: Client, payload: Bytes): Bytes {
    [USB_CTL_MSG_TYPE_QMI] + Le16((|payload| + QMI_HDR_SIZE - 1) % 0x1_0000) + [0, c.qmiType, c.clientId] + payload
  }

  function ConnDeliveries(fd: int, clients: seq<Client>, packet: Packet): seq<Effect> {
    if clients == [] then []
    else
      var n := |clients| - 1;
      ConnDeliveries(fd, clients[..n], packet)
      + if clients[n].at == packet.dst then [ToClient(fd, Rebuilt(clients[n], packet.payload))] else []
  }

  /** A data packet goes to every client that has its destination address. */
  function Deliveries(conns: seq<Conn>, packet: Packet): seq<Effect> {
    if conns == [] then []
    else
      var n := |conns| - 1;
      Deliveries(conns[..n], packet) + ConnDeliveries(conns[n].fd, conns[n].clients, packet)
  }

  function Confirmation(packet: Packet): seq<Effect> {
    if packet.confirmRx == 0 then []
    else [ToModem(Packet(TYPE_RESUME_TX, packet.dst, packet.src, 0,
                         Control(TYPE_RESUME_TX, packet.dst.node, packet.dst.port)))]
  }

  /** A service announced by the modem is added; one withdrawn stays, since only a fresh node is unlinked. */
  function OnServer(p: Proxy, packet: Packet): Proxy {
    var b := packet.payload;
    if Le32At(b, 12) == NODE_MODEM && packet.kind == TYPE_NEW_SERVER
    then p.(services := p.services + [Service(Le32At(b, 4), Le32At(b, 8) % 0x100, Le32At(b, 8) / 0x100,
                                              Address(Le32At(b, 12), Le32At(b, 16)), packet.src)])
    else p
  }

  function FromModem(p: Proxy, packet: Packet): Proxy {
    if packet.kind == TYPE_HELLO then
      Emit(p, [ToModem(Packet(TYPE_HELLO, Address(NODE_MYSELF, PORT_CTRL), packet.src, 0, Control(TYPE_HELLO, 0, 0)))])
    else if packet.kind == TYPE_NEW_SERVER || packet.kind == TYPE_DEL_SERVER then OnServer(p, packet)
    else if packet.kind == TYPE_DATA then Emit(p, Deliveries(p.conns, packet) + Confirmation(packet))
    else p
  }

  /** The responses carry back what a client reads out of them. */
  lemma GetRspFields(req: Bytes, qmiType: byte, clientId: byte)
    ensures var m := GetRsp(req, qmiType, clientId);
            && |m| == 24 && Length(m) == 23 && IsCtl(m) && CtlFlags(m) == QMICTL_FLAG_RESPONSE
            && CtlTid(m) == CtlTid(req) && CtlKind(m) == CtlKind(req)
            && RspPair(m) == Pair(qmiType, clientId) && (RspOk(m) <==> clientId != 0)
  {
    var head := RspHead(req, 24, if clientId == 0 then 1 else 0, if clientId == 0 then 3 else 0);
    var m := GetRsp(req, qmiType, clientId);
    assert |head| == 19 && m[22] == qmiType && m[23] == clientId;
    assert forall i :: 0 <= i < 19 ==> m[i] == head[i];
  }
}
