/** Whole runs of the QRTR proxy: its id tables, its clean-up and its address translation. */
module QrtrRuns {
  import opened Wire
  import opened QrtrTables
  import opened QrtrModel
  import opened QrtrIds

  datatype Event =
    | Accepted(fd: int)
    | ClientMessage(fd: int, msg: Message)
    | ModemPacket(packet: Packet)
    | Closed(fd: int)

  function Step(p: Proxy, e: Event): Proxy {
    match e
    case Accepted(fd) => Accept(p, fd)
    case ClientMessage(fd, msg) => FromClient(p, fd, msg)
    case ModemPacket(packet) => FromModem(p, packet)
    case Closed(fd) => Cleanup(p, fd)
  }

  function ZeroTable(n: nat): (t: Table)
    requires n > 0
    ensures |t| == n
  {
    seq(n, _ => 0)
  }

  function Start(): Proxy {
    Proxy([], [], Tables(ZeroTable(CLIENT_CELLS), ZeroTable(PORT_CELLS)), [])
  }

  ghost predicate Run(events: seq<Event>, states: seq<Proxy>) {
    && |states| == |events| + 1
    && states[0] == Start()
    && forall i :: 0 <= i < |events| ==> states[i + 1] == Step(states[i], events[i])
  }

  /** A run in which there are never more than max live clients. */
  ghost predicate BoundedRun(events: seq<Event>, states: seq<Proxy>, max: nat) {
    && Run(events, states)
    && forall i :: 0 <= i < |states| ==> Live(states[i]) <= max
  }

  // ---- services never go, so every client's service is known ----

  lemma {:induction false} FindServiceGrows(services: seq<Service>, s: Service, qmiType: byte)
    requires FindService(services, qmiType).Some?
    ensures FindService(services + [s], qmiType) == FindService(services, qmiType)
  {
    if services[0].service != qmiType {
      assert (services + [s])[1..] == services[1..] + [s];
      FindServiceGrows(services[1..], s, qmiType);
    }
  }

  ghost predicate ClientServed(services: seq<Service>, c: Client) {
    c.at.node == NODE_MYSELF && FindService(services, c.qmiType).Some?
  }

  ghost predicate AllServed(services: seq<Service>, clients: seq<Client>) {
    forall c :: c in clients ==> ClientServed(services, c)
  }

  ghost predicate Served(p: Proxy) {
    forall i :: 0 <= i < |p.conns| ==> AllServed(p.services, p.conns[i].clients)
  }

  lemma {:induction false} DrainServed(p: Proxy, i: nat)
    requires Served(p) && i < |p.conns|
    ensures Served(Drain(p, i)) && |Drain(p, i).conns| == |p.conns|
    decreases |p.conns[i].clients|
  {
    if p.conns[i].clients != [] {
      var c := p.conns[i].clients[0];
      DrainServed(Release(p, i, c.qmiType, c.clientId), i);
    }
  }

  lemma FromClientServed(p: Proxy, fd: int, msg: Message)
    requires Served(p)
    ensures Served(FromClient(p, fd, msg))
  {
    hide At, Le16At, Alloc, AllocId, Free, DelClient, GetRsp, ReleaseRsp, VersionRsp;
    var i := FindConn(p.conns, fd);
    if i < |p.conns| && IsCtl(msg) && CtlKind(msg) == QMICTL_GET_CLIENT_ID {
      var qmiType := ReqService(msg);
      if FindService(p.services, qmiType).Some? {
        assert ClientServed(p.services, NewClient(p.tables, qmiType));
      }
    }
  }

  lemma FromModemServed(p: Proxy, packet: Packet)
    requires Served(p)
    ensures Served(FromModem(p, packet))
  {
    hide At, Le16At, Le32At, Deliveries, Control;
    var q := FromModem(p, packet);
    if q.services != p.services {
      var s := q.services[|p.services|];
      assert q.services == p.services + [s];
      forall i, c | 0 <= i < |p.conns| && c in p.conns[i].clients ensures ClientServed(q.services, c) {
        assert ClientServed(p.services, c);
        FindServiceGrows(p.services, s, c.qmiType);
      }
    }
  }

  lemma StepServed(p: Proxy, e: Event)
    requires Served(p)
    ensures Served(Step(p, e))
  {
    match e
    case Accepted(fd) =>
    case ClientMessage(fd, msg) => FromClientServed(p, fd, msg);
    case ModemPacket(packet) => FromModemServed(p, packet);
    case Closed(fd) =>
      var i := FindConn(p.conns, fd);
      if i < |p.conns| {
        DrainServed(p, i);
      }
  }

  // ---- the tables ----

  lemma StepConsistent(p: Proxy, e: Event)
    requires Consistent(p)
    ensures Consistent(Step(p, e)) && TopStep(p, Step(p, e)) && Live(Step(p, e)) <= Live(p) + 1
  {
    hide Consistent, Top, Live, At, Le16At;
    match e
    case Accepted(fd) => AcceptConsistent(p, fd);
    case ClientMessage(fd, msg) => FromClientConsistent(p, fd, msg);
    case ModemPacket(packet) => ModemConsistent(p, packet);
    case Closed(fd) => CleanupConsistent(p, fd);
  }

  lemma ModemConsistent(p: Proxy, packet: Packet)
    requires Consistent(p)
    ensures var q := FromModem(p, packet);
            Consistent(q) && Live(q) == Live(p) && Top(q) == Top(p)
  {
    FromModemKeepsConns(p, packet);
    hide FromModem, AllIds;
  }

  lemma FromModemKeepsConns(p: Proxy, packet: Packet)
    ensures FromModem(p, packet).conns == p.conns && FromModem(p, packet).tables == p.tables
  {
  }

  lemma StartConsistent()
    ensures Consistent(Start()) && Served(Start()) && Top(Start()) == Live(Start()) == 0
  {
    var t := Start().tables;
    assert Used(t.clientIds) == {} && Used(t.portIds) == {};
    var none: multiset<nat> := multiset{};
    assert none[0 := 0] == none == multiset(Used(t.clientIds));
    assert Low(none) == none;
  }

  /** In every run, however many clients there are, the tables agree with the lists. */
  lemma {:induction false} RunConsistent(events: seq<Event>, states: seq<Proxy>, k: nat)
    requires Run(events, states) && k < |states|
    ensures Consistent(states[k]) && Served(states[k])
  {
    hide Consistent, Served, Step;
    if k == 0 {
      StartConsistent();
    } else {
      RunConsistent(events, states, k - 1);
      StepConsistent(states[k - 1], events[k - 1]);
      StepServed(states[k - 1], events[k - 1]);
    }
  }

  /** Only clients beyond the 255th ever get the top port. */
  lemma {:induction false} RunTop(events: seq<Event>, states: seq<Proxy>, max: nat, k: nat)
    requires BoundedRun(events, states, max) && k < |states|
    ensures Top(states[k]) <= if max <= 0xff then 0 else max - 0xff
  {
    hide Top, Live, Step;
    if k == 0 {
      StartConsistent();
    } else {
      RunTop(events, states, max, k - 1);
      RunConsistent(events, states, k - 1);
      assert Live(states[k]) <= max;
      StepConsistent(states[k - 1], events[k - 1]);
    }
  }

  // ---- with at most 239 live clients no client is without an id ----

  lemma {:induction false} IdsSize(clients: seq<Client>, f: Client -> nat)
    ensures |Ids(clients, f)| == |clients|
  {
    if clients != [] {
      IdsSize(clients[..|clients| - 1], f);
    }
  }

  lemma {:induction false} AllIdsSize(conns: seq<Conn>, f: Client -> nat, g: Client -> nat)
    ensures |AllIds(conns, f)| == |AllIds(conns, g)|
  {
    if conns != [] {
      var n := |conns| - 1;
      AllIdsSize(conns[..n], f, g);
      IdsSize(conns[n].clients, f);
      IdsSize(conns[n].clients, g);
    }
  }

  lemma ReleaseNoZero(p: Proxy, i: nat, k: nat)
    requires i < |p.conns| && k < |p.conns[i].clients| && 0 !in AllIds(p.conns, IdOf)
    ensures 0 !in AllIds(ReleaseAt(p, i, k).conns, IdOf)
  {
    hide AllIds, Ids, Free, DelClient;
    SetClientsRemoves(p, i, k, IdOf);
  }

  lemma {:induction false} DrainNoZero(p: Proxy, i: nat)
    requires i < |p.conns| && 0 !in AllIds(p.conns, IdOf)
    ensures |Drain(p, i).conns| == |p.conns| && Drain(p, i).conns[i].clients == []
    ensures 0 !in AllIds(Drain(p, i).conns, IdOf)
    decreases |p.conns[i].clients|
  {
    hide AllIds, Ids, Free, DelClient;
    if p.conns[i].clients != [] {
      var c := p.conns[i].clients[0];
      ReleaseNoZero(p, i, 0);
      DrainNoZero(Release(p, i, c.qmiType, c.clientId), i);
    }
  }

  lemma AllocNoZero(p: Proxy, i: nat, qmiType: byte)
    requires Consistent(p) && i < |p.conns| && 0 !in AllIds(p.conns, IdOf) && Live(p) < CLIENT_CELLS - 1
    ensures 0 !in AllIds(AllocClient(p, i, qmiType).conns, IdOf)
  {
    hide AllIds, Ids, Exact;
    AllIdsSize(p.conns, IdOf, PortOf);
    NewIds(p.tables, AllIds(p.conns, IdOf), AllIds(p.conns, PortOf));
    SetClientsAdds(p, i, NewClient(p.tables, qmiType), IdOf);
  }

  lemma StepNoZero(p: Proxy, e: Event)
    requires Consistent(p) && 0 !in AllIds(p.conns, IdOf) && Live(p) <= CLIENT_CELLS - 1
    requires Live(Step(p, e)) <= CLIENT_CELLS - 1
    ensures 0 !in AllIds(Step(p, e).conns, IdOf)
  {
    hide AllIds, Ids, Exact, At, Le16At, Books;
    match e
    case Accepted(fd) => AcceptKeepsIds(p, fd, IdOf);
    case ClientMessage(fd, msg) =>
      var i := FindConn(p.conns, fd);
      if i < |p.conns| && IsCtl(msg) {
        if CtlKind(msg) == QMICTL_GET_CLIENT_ID {
          if FindService(p.services, ReqService(msg)).Some? {
            SetClientsAdds(p, i, NewClient(p.tables, ReqService(msg)), PortOf);
            AllocNoZero(p, i, ReqService(msg));
          }
        } else if CtlKind(msg) == QMICTL_RELEASE_CLIENT_ID {
          var k := FindClient(p.conns[i].clients, ReqPair(msg).qmiType, ReqPair(msg).clientId);
          if k < |p.conns[i].clients| {
            ReleaseNoZero(p, i, k);
          }
        }
      }
    case ModemPacket(packet) => FromModemKeepsConns(p, packet);
    case Closed(fd) =>
      var i := FindConn(p.conns, fd);
      if i < |p.conns| {
        DrainNoZero(p, i);
        AllIdsDropEmpty(Drain(p, i).conns, i, IdOf);
      }
  }

  lemma {:induction false} RunNoZero(events: seq<Event>, states: seq<Proxy>, k: nat)
    requires BoundedRun(events, states, CLIENT_CELLS - 1) && k < |states|
    ensures 0 !in AllIds(states[k].conns, IdOf)
  {
    hide Books, Ids, Exact, Step;
    if k > 0 {
      RunNoZero(events, states, k - 1);
      RunConsistent(events, states, k - 1);
      assert Live(states[k]) <= CLIENT_CELLS - 1 && Live(states[k - 1]) <= CLIENT_CELLS - 1;
      StepNoZero(states[k - 1], events[k - 1]);
    }
  }

  /** In every run with at most 239 live clients at a time the cells in use are exactly the ids of the live clients,
      client ids and ports alike, every id is on one list once, and none is 0. */
  lemma AllocationConserved(events: seq<Event>, states: seq<Proxy>, k: nat)
    requires BoundedRun(events, states, 239) && k < |states|
    ensures var p := states[k];
            var ids, ports := AllIds(p.conns, IdOf), AllIds(p.conns, PortOf);
            && |p.tables.clientIds| == 240 && |p.tables.portIds| == 4080
            && (forall x :: 0 <= x < 240 ==> (p.tables.clientIds[x] != 0 <==> x in ids) && ids[x] <= 1)
            && (forall x :: 0 <= x < 4080 ==> (p.tables.portIds[x] != 0 <==> x in ports) && ports[x] <= 1)
            && (forall x :: x in ids ==> 1 <= x < 240 && p.tables.clientIds[x] == x)
            && (forall x :: x in ports ==> 1 <= x < 0x100 && p.tables.portIds[x] == x)
  {
    RunConsistent(events, states, k);
    RunNoZero(events, states, k);
    RunTop(events, states, CLIENT_CELLS - 1, k);
    var p := states[k];
    NoTop(AllIds(p.conns, PortOf));
    TableReading(p.tables.clientIds, AllIds(p.conns, IdOf));
    TableReading(p.tables.portIds, AllIds(p.conns, PortOf));
  }

  lemma NoTop(ports: multiset<nat>)
    requires ports[TOP_PORT] == 0
    ensures Low(ports) == ports
  {
  }

  lemma TableReading(t: Table, ids: multiset<nat>)
    requires Exact(t, ids) && 0 !in ids
    ensures forall x :: 0 <= x < |t| ==> (t[x] != 0 <==> x in ids) && ids[x] <= 1
    ensures forall x :: x in ids ==> 1 <= x < |t| && x < 0x100 && t[x] == x
  {
    forall x: nat ensures x < |t| ==> (t[x] != 0 <==> x in ids) && ids[x] <= 1
      ensures x in ids ==> 1 <= x < |t| && x < 0x100 && t[x] == x
    {
      if x != 0 {
        ExactMembers(t, ids, x);
      }
    }
  }

  lemma NextPort(t: Tables, ids: multiset<nat>, ports: multiset<nat>)
    requires Books(t, ids, ports)
    ensures var port := AllocId(t.portIds);
            && 1 <= port <= TOP_PORT && port <= |ports| + 1
            && (port < TOP_PORT ==>
                  port !in ports && Alloc(t.portIds)[port] == port && Free(Alloc(t.portIds), port) == t.portIds)
            && (port == TOP_PORT ==>
                  Alloc(t.portIds) == t.portIds && forall x: nat :: 1 <= x < TOP_PORT ==> x in ports)
  {
    NewIds(t, ids, ports);
    LowSize(ports);
    hide Exact;
    if AllocId(t.portIds) == TOP_PORT {
      AllTaken(t.portIds, Low(ports));
      forall x: nat | 1 <= x < TOP_PORT ensures x in ports {
        assert x in Low(ports);
      }
    }
  }

  /** Pigeonhole, in every run: the next port is at most one more than the live clients. Below 256 no live client has it,
      its table holds it whole, and giving it back restores the table; 256 comes only when 1 to 255 are all taken, and is
      not recorded. */
  lemma PortsByPigeonhole(events: seq<Event>, states: seq<Proxy>, k: nat)
    requires Run(events, states) && k < |states|
    ensures var t, ports := states[k].tables.portIds, AllIds(states[k].conns, PortOf);
            var port := AllocId(t);
            && 1 <= port <= TOP_PORT && port <= Live(states[k]) + 1
            && (port < TOP_PORT ==> port !in ports && Alloc(t)[port] == port && Free(Alloc(t), port) == t)
            && (port == TOP_PORT ==> Alloc(t) == t && forall x: nat :: 1 <= x < TOP_PORT ==> x in ports)
  {
    RunConsistent(events, states, k);
    hide AllIds, Books, AllocId, Alloc, Free;
    NextPort(states[k].tables, AllIds(states[k].conns, IdOf), AllIds(states[k].conns, PortOf));
  }

  lemma {:induction false} AllTaken(t: Table, ports: multiset<nat>)
    requires Exact(t, ports) && LowestFree(t, 1) == TOP_PORT
    ensures forall x: nat :: 1 <= x < TOP_PORT ==> x in ports
  {
    forall x: nat | 1 <= x < TOP_PORT ensures x in ports {
      ExactMembers(t, ports, x);
    }
  }

  // ---- clean-up ----

  function Farewells(services: seq<Service>, clients: seq<Client>): seq<Effect> {
    seq(|clients|, j requires 0 <= j < |clients| => ToModem(DelClient(services, clients[j])))
  }

  /** One turn of the drain releases the first client. */
  lemma {:induction false} DrainStep(p: Proxy, i: nat)
    requires i < |p.conns| && p.conns[i].clients != []
    ensures Drain(p, i) == Drain(ReleaseAt(p, i, 0), i)
    ensures ReleaseAt(p, i, 0).conns == p.conns[i := Conn(p.conns[i].fd, p.conns[i].clients[1..])]
  {
    hide Free, DelClient;
    assert p.conns[i].clients[..0] + p.conns[i].clients[1..] == p.conns[i].clients[1..];
  }

  lemma {:induction false} DrainConns(p: Proxy, i: nat)
    requires i < |p.conns|
    ensures Drain(p, i).conns == p.conns[i := Conn(p.conns[i].fd, [])] && Drain(p, i).services == p.services
    decreases |p.conns[i].clients|
  {
    if p.conns[i].clients == [] {
      assert p.conns[i := Conn(p.conns[i].fd, [])] == p.conns;
    } else {
      DrainStep(p, i);
      hide Drain, Free, DelClient;
      var q := ReleaseAt(p, i, 0);
      DrainConns(q, i);
      assert q.conns[i := Conn(p.conns[i].fd, [])] == p.conns[i := Conn(p.conns[i].fd, [])];
    }
  }

  lemma FarewellsStep(services: seq<Service>, clients: seq<Client>)
    requires clients != []
    ensures Farewells(services, clients)
         == [ToModem(DelClient(services, clients[0]))] + Farewells(services, clients[1..])
  {
    hide DelClient;
  }

  /** The drain says one farewell for each client, in list order. */
  lemma {:induction false} DrainEffects(p: Proxy, i: nat)
    requires i < |p.conns|
    ensures Drain(p, i).effects == p.effects + Farewells(p.services, p.conns[i].clients)
    decreases |p.conns[i].clients|
  {
    var clients := p.conns[i].clients;
    if clients == [] {
      AppendNone(p.effects);
    } else {
      DrainStep(p, i);
      hide Drain, Free, DelClient, Farewells;
      var first := [ToModem(DelClient(p.services, clients[0]))];
      var q := ReleaseAt(p, i, 0);
      assert q.services == p.services && q.effects == p.effects + first && q.conns[i].clients == clients[1..];
      DrainEffects(q, i);
      FarewellsStep(p.services, clients);
      AppendAssoc(p.effects, first, Farewells(p.services, clients[1..]));
    }
  }

  /** Closing a connection sends one farewell for each of its clients, in list order, frees exactly their ids, and
      leaves the other connections, their ids and the services as they are. */
  lemma {:induction false} CleanupIsolated(p: Proxy, fd: int)
    requires Consistent(p) && FindConn(p.conns, fd) < |p.conns|
    ensures var i := FindConn(p.conns, fd);
            var q := Cleanup(p, fd);
            && q.conns == p.conns[..i] + p.conns[i + 1..] && q.services == p.services
            && q.effects == p.effects + Farewells(p.services, p.conns[i].clients)
            && Consistent(q)
            && AllIds(p.conns, IdOf) == AllIds(q.conns, IdOf) + Ids(p.conns[i].clients, IdOf)
            && AllIds(p.conns, PortOf) == AllIds(q.conns, PortOf) + Ids(p.conns[i].clients, PortOf)
  {
    hide AllIds, Ids, Exact, Books;
    var i := FindConn(p.conns, fd);
    CleanupConsistent(p, fd);
    DrainConns(p, i);
    DrainEffects(p, i);
    RemoveIds(p.conns, i, IdOf);
    RemoveIds(p.conns, i, PortOf);
  }

  /** A release request changes the tables or the lists exactly when its connection owns the pair. */
  lemma ReleaseNeedsOwner(p: Proxy, i: nat, qmiType: byte, clientId: byte)
    requires i < |p.conns|
    ensures Release(p, i, qmiType, clientId) != p <==>
            exists k :: 0 <= k < |p.conns[i].clients| && Owns(p.conns[i].clients[k], qmiType, clientId)
  {
    hide Free, DelClient;
    var k := FindClient(p.conns[i].clients, qmiType, clientId);
    if k < |p.conns[i].clients| {
      assert |Release(p, i, qmiType, clientId).effects| == |p.effects| + 1;
    }
  }
}
