/** Translation between QMI and QRTR addresses: what a client sends from its port comes back to it unchanged. */
module QrtrTranslation {
  import opened Wire
  import opened QrtrTables
  import opened QrtrModel
  import opened QrtrIds
  import opened QrtrRuns
  import opened QrtrPorts
  import opened QrtrServices

  ghost predicate FromList(fd: int, clients: seq<Client>, packet: Packet, e: Effect) {
    exists c :: c in clients && c.at == packet.dst && e == ToClient(fd, Rebuilt(c, packet.payload))
  }

  lemma {:induction false} ConnDeliveriesCount(services: seq<Service>, fd: int, clients: seq<Client>, packet: Packet)
    requires AllServed(services, clients) && packet.dst.node == NODE_MYSELF
    ensures var w := ConnDeliveries(fd, clients, packet);
            && |w| == Ids(clients, PortOf)[packet.dst.port]
            && forall j :: 0 <= j < |w| ==> FromList(fd, clients, packet, w[j])
  {
    hide Rebuilt, FindService;
    if clients != [] {
      var n := |clients| - 1;
      var before, w := ConnDeliveries(fd, clients[..n], packet), ConnDeliveries(fd, clients, packet);
      ConnDeliveriesCount(services, fd, clients[..n], packet);
      assert ClientServed(services, clients[n]);
      forall j | 0 <= j < |w| ensures FromList(fd, clients, packet, w[j]) {
        if j < |before| {
          assert FromList(fd, clients[..n], packet, before[j]);
          var c :| c in clients[..n] && c.at == packet.dst && before[j] == ToClient(fd, Rebuilt(c, packet.payload));
          assert c in clients;
        } else {
          assert clients[n] in clients;
        }
      }
    }
  }

  ghost predicate DeliveredTo(conns: seq<Conn>, packet: Packet, e: Effect) {
    exists i, c :: 0 <= i < |conns| && c in conns[i].clients && c.at == packet.dst
                   && e == ToClient(conns[i].fd, Rebuilt(c, packet.payload))
  }

  /** A data packet is delivered once for every client with its port, and to nobody else. */
  lemma {:induction false} DeliveriesCount(services: seq<Service>, conns: seq<Conn>, packet: Packet)
    requires forall i :: 0 <= i < |conns| ==> AllServed(services, conns[i].clients)
    requires packet.dst.node == NODE_MYSELF
    ensures var w := Deliveries(conns, packet);
            && |w| == AllIds(conns, PortOf)[packet.dst.port]
            && forall j :: 0 <= j < |w| ==> DeliveredTo(conns, packet, w[j])
  {
    hide Rebuilt, AllServed, Ids, ConnDeliveries;
    if conns != [] {
      var n := |conns| - 1;
      var before, w := Deliveries(conns[..n], packet), Deliveries(conns, packet);
      var last := ConnDeliveries(conns[n].fd, conns[n].clients, packet);
      DeliveriesCount(services, conns[..n], packet);
      ConnDeliveriesCount(services, conns[n].fd, conns[n].clients, packet);
      forall j | 0 <= j < |w| ensures DeliveredTo(conns, packet, w[j]) {
        if j < |before| {
          assert DeliveredTo(conns[..n], packet, before[j]);
          var i, c :| 0 <= i < n && c in conns[..n][i].clients && c.at == packet.dst
                      && before[j] == ToClient(conns[..n][i].fd, Rebuilt(c, packet.payload));
          assert conns[i] == conns[..n][i] && c in conns[i].clients;
        } else {
          assert w[j] == last[j - |before|] && FromList(conns[n].fd, conns[n].clients, packet, w[j]);
          var c :| c in conns[n].clients && c.at == packet.dst
                   && w[j] == ToClient(conns[n].fd, Rebuilt(c, packet.payload));
        }
      }
    }
  }

  lemma {:induction false} DifferentLists(conns: seq<Conn>, i: nat, c: Client, j: nat, d: Client)
    requires i < |conns| && j < |conns| && i != j && c in conns[i].clients && d in conns[j].clients
    requires PortOf(c) == PortOf(d)
    ensures AllIds(conns, PortOf)[PortOf(c)] >= 2
  {
    hide AllIds, Ids;
    var rest := conns[..i] + conns[i + 1..];
    var k := if j < i then j else j - 1;
    assert rest[k] == conns[j];
    RemoveIds(conns, i, PortOf);
    RemoveIds(rest, k, PortOf);
    InIds(conns[i].clients, c, PortOf);
    InIds(conns[j].clients, d, PortOf);
  }

  lemma {:induction false} OneList(clients: seq<Client>, c: Client, d: Client)
    requires c in clients && d in clients && c != d && PortOf(c) == PortOf(d)
    ensures Ids(clients, PortOf)[PortOf(c)] >= 2
  {
    hide Ids;
    var a :| 0 <= a < |clients| && clients[a] == c;
    var b :| 0 <= b < |clients| && clients[b] == d;
    var others := clients[..a] + clients[a + 1..];
    assert others[if b < a then b else b - 1] == d;
    IdsRemove(clients, a, PortOf);
    InIds(others, d, PortOf);
  }

  /** Two clients at two places cannot share a port that the lists hold once. */
  lemma {:induction false} SamePlace(conns: seq<Conn>, i: nat, c: Client, j: nat, d: Client)
    requires i < |conns| && j < |conns| && c in conns[i].clients && d in conns[j].clients
    requires PortOf(c) == PortOf(d) && AllIds(conns, PortOf)[PortOf(c)] <= 1
    ensures i == j && c == d
  {
    hide AllIds, Ids;
    if i != j {
      DifferentLists(conns, i, c, j, d);
    } else if c != d {
      OneList(conns[i].clients, c, d);
      RemoveIds(conns, i, PortOf);
    }
  }

  /** A packet to a live client's port reaches that client and nobody else, unless another one shares the port. */
  lemma {:induction false} DeliveredOnce(p: Proxy, i: nat, c: Client, packet: Packet)
    requires NoSharedPort(p.conns) && Served(p) && i < |p.conns| && c in p.conns[i].clients && packet.dst == c.at
    ensures Deliveries(p.conns, packet) == [ToClient(p.conns[i].fd, Rebuilt(c, packet.payload))]
  {
    hide AllIds, Ids, Deliveries, Rebuilt, NoSharedPort;
    assert ClientServed(p.services, c);
    DeliveriesCount(p.services, p.conns, packet);
    InIds(p.conns[i].clients, c, PortOf);
    RemoveIds(p.conns, i, PortOf);
    NoSharedPortCounts(p.conns);
    var w := Deliveries(p.conns, packet);
    assert |w| == 1 && DeliveredTo(p.conns, packet, w[0]);
    var j, d :| 0 <= j < |p.conns| && d in p.conns[j].clients && d.at == packet.dst
                && w[0] == ToClient(p.conns[j].fd, Rebuilt(d, packet.payload));
    SamePlace(p.conns, i, c, j, d);
  }

  /** Stripping the header of a well-formed message and building it again gives the message back. */
  lemma RebuiltIsOriginal(msg: Message, c: Client)
    requires At(msg, 0) == USB_CTL_MSG_TYPE_QMI && At(msg, 3) == 0 && Owns(c, QmiType(msg), ClientId(msg))
    ensures Rebuilt(c, msg[QMI_HDR_SIZE..]) == msg
  {
    var r := Rebuilt(c, msg[QMI_HDR_SIZE..]);
    assert |r| == |msg|;
    assert Length(msg) == |msg| - 1;
    forall j | 0 <= j < |msg| ensures r[j] == msg[j] {
      if j >= QMI_HDR_SIZE {
        assert r[j] == msg[QMI_HDR_SIZE..][j - QMI_HDR_SIZE];
      }
    }
  }

  /** The client has the service type and client id of the message, bytes 4 and 5. */
  predicate OwnerOf(c: Client, msg: Bytes) {
    c.qmiType == At(msg, 4) && c.clientId == At(msg, 5)
  }

  /** What a service message of an owner becomes: its bytes behind the header, from the owner's own address to the node
      and port that the modem first announced for the service. */
  ghost predicate Leaves(packet: Packet, owner: Client, msg: Message, announcement: Packet) {
    && OwnerOf(owner, msg) && packet.src == owner.at && packet.src.node == 1
    && packet.dst == Address(Field(announcement.payload, 12), Field(announcement.payload, 16))
    && packet.kind == 1 && packet.confirmRx == 0 && packet.payload == msg[6..]
  }

  /** In every run with at most 256 live clients: a service message of an open connection that owns its pair leaves as
      one packet from its client's own port to where the service was first announced, without the header; and when the
      peer sends the payload back to that port, the one message delivered is the original, byte for byte, to that
      connection. */
  lemma {:induction false} AddressRoundTrip(events: seq<Event>, states: seq<Proxy>, k: nat, fd: int, msg: Message, peer: Address)
    requires BoundedRun(events, states, 0x100) && k < |states|
    requires var conns := states[k].conns; var i := FindConn(conns, fd);
             i < |conns| && exists c :: c in conns[i].clients && OwnerOf(c, msg)
    requires At(msg, 4) != 0 && At(msg, 0) == 1 && At(msg, 3) == 0
    ensures var p := states[k];
            var q := FromClient(p, fd, msg);
            var first := FirstOf(Announcements(events[..k]), At(msg, 4));
            && first.Some?
            && exists packet: Packet, owner ::
                 && owner in p.conns[FindConn(p.conns, fd)].clients && Leaves(packet, owner, msg, first.value)
                 && q.effects == p.effects + [ToModem(packet)]
                 && FromModem(q, Packet(TYPE_DATA, peer, packet.src, 0, packet.payload)).effects
                    == q.effects + [ToClient(fd, msg)]
  {
    PortsDistinctExactly(events, states);
    RunConsistent(events, states, k);
    KnownAsFirstAnnounced(events, states, k, At(msg, 4));
    hide AllIds, Ids, Deliveries, Rebuilt, Books, NoSharedPort, Live, At, Le16At, Field, FirstOf, Announcements;
    var p := states[k];
    var i := FindConn(p.conns, fd);
    var clients := p.conns[i].clients;
    var n := FindClient(clients, QmiType(msg), ClientId(msg));
    var c := clients[n];
    assert ClientServed(p.services, c);
    var srv := FindService(p.services, QmiType(msg));
    var packet := Packet(TYPE_DATA, c.at, srv.value.at, 0, msg[QMI_HDR_SIZE..]);
    var echo := Packet(TYPE_DATA, peer, c.at, 0, packet.payload);
    DeliveredOnce(p, i, c, echo);
    RebuiltIsOriginal(msg, c);
    AppendNone([ToClient(fd, msg)]);
    assert FromClient(p, fd, msg).effects == p.effects + [ToModem(packet)];
    assert Leaves(packet, c, msg, FirstOf(Announcements(events[..k]), At(msg, 4)).value);
  }

  /** A service message from elsewhere, or for a pair that its connection does not own, changes nothing and goes nowhere. */
  lemma NotOwnedNotSent(p: Proxy, fd: int, msg: Message)
    requires At(msg, 4) != 0
    requires forall i, c :: 0 <= i < |p.conns| && p.conns[i].fd == fd && c in p.conns[i].clients ==> !OwnerOf(c, msg)
    ensures FromClient(p, fd, msg) == p
  {
    hide At;
    var i := FindConn(p.conns, fd);
    AppendNone(p.effects);
    if i < |p.conns| {
      var clients := p.conns[i].clients;
      var n := FindClient(clients, QmiType(msg), ClientId(msg));
      assert n < |clients| ==> clients[n] in p.conns[i].clients && OwnerOf(clients[n], msg);
      assert Outgoing(p, i, msg) == [];
    }
  }
}
