/** What the QRTR proxy answers and says on its own account, byte by byte. */
module QrtrReplies {
  import opened Wire
  import opened QrtrTables
  import opened QrtrModel
  import opened QrtrRuns
  import opened QrtrServices

  // ---- responses to control requests ----

  /** A control response of that size to the request: header, the request's transaction id and type, and a result TLV. */
  ghost predicate Responds(m: Bytes, req: Bytes, size: nat, result: byte, error: byte) {
    && |m| == size && 19 <= size < 0x100
    && m[..7] == [1, size - 1, 0, 0, 0, 0, 1]
    && m[7..12] == [At(req, 7), At(req, 8), At(req, 9), size - 12, 0]
    && m[12..19] == [2, 4, 0, result, 0, error, 0]
  }

  lemma HeadResponds(m: Bytes, req: Bytes, size: nat, result: byte, error: byte, tail: Bytes)
    requires 19 <= size < 0x100 && m == RspHead(req, size, result, error) + tail && |m| == size
    ensures Responds(m, req, size, result, error) && m[19..] == tail
  {
    var h := RspHead(req, size, result, error);
    assert CtlKind(req) % 0x100 == At(req, 8) && CtlKind(req) / 0x100 == At(req, 9);
    assert forall i :: 0 <= i < 19 ==> m[i] == h[i];
    hide At;
  }

  /** The messages that responses carry: for GET a second TLV with the service asked for, byte 15 of the request, and the
      id; for RELEASE with the request's pair, bytes 15 and 16; for VERSION with no elements. */
  lemma ResponseBytes(req: Bytes, qmiType: byte, clientId: byte)
    ensures var m := GetRsp(req, qmiType, clientId);
            && Responds(m, req, 24, if clientId == 0 then 1 else 0, if clientId == 0 then 3 else 0)
            && m[19..] == [1, 2, 0, qmiType, clientId]
    ensures Responds(ReleaseRsp(req), req, 24, 0, 0) && ReleaseRsp(req)[19..] == [1, 2, 0, At(req, 15), At(req, 16)]
    ensures Responds(VersionRsp(req), req, 23, 0, 0) && VersionRsp(req)[19..] == [1, 1, 0, 0]
  {
    HeadResponds(GetRsp(req, qmiType, clientId), req, 24, if clientId == 0 then 1 else 0, if clientId == 0 then 3 else 0,
                 [1, 2, 0, qmiType, clientId]);
    HeadResponds(ReleaseRsp(req), req, 24, 0, 0, [1, 2, 0, At(req, 15), At(req, 16)]);
    HeadResponds(VersionRsp(req), req, 23, 0, 0, [1, 1, 0, 0]);
  }

  /** The one response goes to the client that asked. */
  ghost predicate Answered(p: Proxy, q: Proxy, fd: int, m: Bytes) {
    q.effects == p.effects + [ToClient(fd, m)]
  }

  /** A GET for a known service is answered with the id of the client that is put on the connection's list for it, and a
      GET for an unknown one with failure; either way nothing else is said. */
  lemma {:induction false} GetAnswered(p: Proxy, fd: int, msg: Message)
    requires FindConn(p.conns, fd) < |p.conns| && At(msg, 4) == 0 && At(msg, 8) == 0x22 && At(msg, 9) == 0
    ensures var i, q := FindConn(p.conns, fd), FromClient(p, fd, msg);
            var known := FindService(p.services, At(msg, 15)).Some?;
            && q.services == p.services
            && exists m: Bytes, id: byte ::
                 && Answered(p, q, fd, m)
                 && Responds(m, msg, 24, if id == 0 then 1 else 0, if id == 0 then 3 else 0)
                 && m[19..] == [1, 2, 0, At(msg, 15), id]
                 && if known then
                      exists at :: q.conns == p.conns[i := Conn(fd, p.conns[i].clients + [Client(At(msg, 15), id, at)])]
                    else id == 0 && q.conns == p.conns && q.tables == p.tables
  {
    hide At, Le16At, GetRsp, Alloc, AllocId;
    var i := FindConn(p.conns, fd);
    var known := FindService(p.services, At(msg, 15)).Some?;
    var c := NewClient(p.tables, At(msg, 15));
    var id := if known then c.clientId else 0;
    KindBytes(msg);
    ResponseBytes(msg, At(msg, 15), id);
    assert Answered(p, FromClient(p, fd, msg), fd, GetRsp(msg, At(msg, 15), id));
    assert known ==> c == Client(At(msg, 15), id, c.at);
  }

  /** A control message's type, bytes 8 and 9, as the proxy reads it. */
  lemma KindBytes(msg: Bytes)
    ensures CtlKind(msg) == At(msg, 8) + 0x100 * At(msg, 9)
    ensures IsCtl(msg) <==> At(msg, 4) == 0
    ensures ReqService(msg) == At(msg, 15) && ReqPair(msg) == Pair(At(msg, 15), At(msg, 16))
  {
  }

  /** A RELEASE is always answered with success and the pair it named, after the farewell of the client if there is one. */
  lemma {:induction false} ReleaseAnswered(p: Proxy, fd: int, msg: Message)
    requires FindConn(p.conns, fd) < |p.conns| && At(msg, 4) == 0 && At(msg, 8) == 0x23 && At(msg, 9) == 0
    ensures var i := FindConn(p.conns, fd);
            var released := Release(p, i, At(msg, 15), At(msg, 16));
            exists m: Bytes ::
              && Answered(released, FromClient(p, fd, msg), fd, m)
              && FromClient(p, fd, msg) == released.(effects := FromClient(p, fd, msg).effects)
              && Responds(m, msg, 24, 0, 0) && m[19..] == [1, 2, 0, At(msg, 15), At(msg, 16)]
  {
    hide At, Le16At, ReleaseRsp, Release;
    KindBytes(msg);
    ResponseBytes(msg, 0, 0);
    var i := FindConn(p.conns, fd);
    assert Answered(Release(p, i, At(msg, 15), At(msg, 16)), FromClient(p, fd, msg), fd, ReleaseRsp(msg));
  }

  /** What a release does: the first client with the pair goes, with one farewell; without such a client nothing happens. */
  lemma ReleaseExactly(p: Proxy, i: nat, qmiType: byte, clientId: byte)
    requires i < |p.conns|
    ensures var q, clients := Release(p, i, qmiType, clientId), p.conns[i].clients;
            if exists c :: c in clients && c.qmiType == qmiType && c.clientId == clientId then
              exists k :: 0 <= k < |clients| && clients[k].qmiType == qmiType && clients[k].clientId == clientId
                          && (forall j :: 0 <= j < k ==> !(clients[j].qmiType == qmiType && clients[j].clientId == clientId))
                          && q.conns == p.conns[i := Conn(p.conns[i].fd, clients[..k] + clients[k + 1..])]
                          && q.effects == p.effects + [ToModem(DelClient(p.services, clients[k]))]
            else q == p
  {
    hide Free, DelClient;
    var clients := p.conns[i].clients;
    var k := FindClient(clients, qmiType, clientId);
    if c :| c in clients && c.qmiType == qmiType && c.clientId == clientId {
      var j :| 0 <= j < |clients| && clients[j] == c;
      assert Owns(clients[j], qmiType, clientId);
    } else {
      assert forall j :: 0 <= j < |clients| ==> clients[j] in clients;
    }
  }

  /** A VERSION request is answered with no versions; a SYNC, a control message of any other type, and any control message
      of a connection that is not there are ignored. */
  lemma {:induction false} OtherControl(p: Proxy, fd: int, msg: Message)
    requires At(msg, 4) == 0
    requires !(At(msg, 9) == 0 && (At(msg, 8) == 0x22 || At(msg, 8) == 0x23)) || FindConn(p.conns, fd) == |p.conns|
    ensures var q := FromClient(p, fd, msg);
            if FindConn(p.conns, fd) < |p.conns| && At(msg, 8) == 0x21 && At(msg, 9) == 0 then
              && q == p.(effects := q.effects)
              && exists m: Bytes :: Answered(p, q, fd, m) && Responds(m, msg, 23, 0, 0) && m[19..] == [1, 1, 0, 0]
            else q == p
  {
    hide At, Le16At, VersionRsp;
    KindBytes(msg);
    ResponseBytes(msg, 0, 0);
    assert At(msg, 8) == 0x21 && At(msg, 9) == 0 && FindConn(p.conns, fd) < |p.conns| ==>
        Answered(p, FromClient(p, fd, msg), fd, VersionRsp(msg));
  }

  // ---- packets to the modem ----

  /** A control packet's payload: a command and two operands, 20 bytes in all, the rest 0. */
  ghost predicate Commands(b: Bytes, command: int, one: int, two: int) {
    && |b| == 20 && Field(b, 0) == command && Field(b, 4) == one && Field(b, 8) == two
    && Field(b, 12) == 0 && Field(b, 16) == 0
  }

  lemma WordBytes(x: u32)
    ensures Byte(x) + 0x100 * Byte(x / 0x100) + 0x1_0000 * Byte(x / 0x1_0000) + 0x100_0000 * Byte(x / 0x100_0000) == x
  {
    var a, b := x / 0x100, x / 0x1_0000;
    assert b == a / 0x100 && x / 0x100_0000 == b / 0x100;
  }

  lemma ControlCommands(command: u32, one: u32, two: u32)
    ensures Commands(Control(command, one, two), command, one, two)
  {
    WordBytes(command);
    WordBytes(one);
    WordBytes(two);
    var b := Control(command, one, two);
    assert b[..4] == Le32(command) && b[4..8] == Le32(one) && b[8..12] == Le32(two);
    hide Byte;
    assert forall i :: 0 <= i < 4 ==> b[i] == Le32(command)[i] && b[4 + i] == Le32(one)[i] && b[8 + i] == Le32(two)[i];
    assert forall i :: 12 <= i < 20 ==> b[i] == 0;
  }

  /** A farewell leaves from the client's address to the control port of the node that announced its service, or to all
      nodes, and says DEL_CLIENT with the client's node and port. */
  lemma {:induction false} FarewellExactly(services: seq<Service>, c: Client)
    ensures var packet, known := DelClient(services, c), FindService(services, c.qmiType);
            && packet.kind == 1 && packet.src == c.at && packet.confirmRx == 0
            && packet.dst == Address(if known.Some? then known.value.src.node else 0xffff_ffff, 0xffff_fffe)
            && Commands(packet.payload, 6, c.at.node, c.at.port)
  {
    ControlCommands(6, c.at.node, c.at.port);
  }

  /** A HELLO is answered with a HELLO from the proxy's control port; a data packet that asks for confirmation is confirmed,
      after its deliveries, from where it went to where it came from; anything else says nothing. */
  lemma {:induction false} PacketAnsweredExactly(p: Proxy, packet: Packet)
    ensures var q := FromModem(p, packet);
            && q.conns == p.conns && q.tables == p.tables
            && if packet.kind == 2 then
                 exists r: Packet ::
                   q.effects == p.effects + [ToModem(r)] && r.kind == 2 && r.confirmRx == 0
                   && r.src == Address(1, 0xffff_fffe) && r.dst == packet.src && Commands(r.payload, 2, 0, 0)
               else if packet.kind == 1 && packet.confirmRx != 0 then
                 exists r: Packet ::
                   q.effects == p.effects + Deliveries(p.conns, packet) + [ToModem(r)] && r.kind == 7 && r.confirmRx == 0
                   && r.src == packet.dst && r.dst == packet.src
                   && Commands(r.payload, 7, packet.dst.node, packet.dst.port)
               else q.effects == p.effects + if packet.kind == 1 then Deliveries(p.conns, packet) else []
  {
    ControlCommands(2, 0, 0);
    ControlCommands(7, packet.dst.node, packet.dst.port);
    AppendNone(p.effects);
    var out := Deliveries(p.conns, packet);
    AppendNone(out);
    AppendAssoc(p.effects, out, Confirmation(packet));
    hide Deliveries, Control, Commands, At, Le16At;
    if packet.kind == 1 && packet.confirmRx != 0 {
      var r := Packet(7, packet.dst, packet.src, 0, Control(7, packet.dst.node, packet.dst.port));
      assert Confirmation(packet) == [ToModem(r)];
    }
  }
}
