/** When two live clients of the QRTR proxy share a port. */
module QrtrPorts {
  import opened Wire
  import opened QrtrTables
  import opened QrtrModel
  import opened QrtrIds
  import opened QrtrRuns

  /** The place of a client: a connection and a position on its list. */
  ghost predicate Place(conns: seq<Conn>, i: int, a: int) {
    0 <= i < |conns| && 0 <= a < |conns[i].clients|
  }

  ghost function PortAt(conns: seq<Conn>, i: int, a: int): nat
    requires Place(conns, i, a)
  {
    PortOf(conns[i].clients[a])
  }

  ghost predicate NoSharedPort(conns: seq<Conn>) {
    forall i, a, j, b ::
      Place(conns, i, a) && Place(conns, j, b) && PortAt(conns, i, a) == PortAt(conns, j, b) ==> i == j && a == b
  }

  // ---- places and counts ----

  lemma {:induction false} PlaceIn(clients: seq<Client>, x: nat) returns (a: nat)
    requires x in Ids(clients, PortOf)
    ensures a < |clients| && PortOf(clients[a]) == x
  {
    var n := |clients| - 1;
    if PortOf(clients[n]) == x {
      a := n;
    } else {
      a := PlaceIn(clients[..n], x);
    }
  }

  lemma {:induction false} PlaceOf(conns: seq<Conn>, x: nat) returns (i: nat, a: nat)
    requires x in AllIds(conns, PortOf)
    ensures Place(conns, i, a) && PortAt(conns, i, a) == x
  {
    hide Ids;
    var n := |conns| - 1;
    if x in Ids(conns[n].clients, PortOf) {
      i := n;
      a := PlaceIn(conns[n].clients, x);
    } else {
      i, a := PlaceOf(conns[..n], x);
    }
  }

  /** The lists without one client. */
  ghost function Without(conns: seq<Conn>, i: nat, a: nat): seq<Conn>
    requires Place(conns, i, a)
  {
    conns[i := Conn(conns[i].fd, conns[i].clients[..a] + conns[i].clients[a + 1..])]
  }

  lemma {:induction false} WithoutCounts(conns: seq<Conn>, i: nat, a: nat)
    requires Place(conns, i, a)
    ensures AllIds(conns, PortOf) == AllIds(Without(conns, i, a), PortOf) + multiset{PortAt(conns, i, a)}
  {
    hide AllIds, Ids;
    var clients := conns[i].clients;
    var rest := clients[..a] + clients[a + 1..];
    AllIdsUpdate(conns, i, Conn(conns[i].fd, rest), PortOf);
    IdsRemove(clients, a, PortOf);
    Exchange(AllIds(Without(conns, i, a), PortOf), Ids(clients, PortOf),
             AllIds(conns, PortOf), Ids(rest, PortOf), multiset{PortOf(clients[a])});
  }

  lemma {:induction false} InAllIds(conns: seq<Conn>, i: nat, a: nat)
    requires Place(conns, i, a)
    ensures PortAt(conns, i, a) in AllIds(conns, PortOf)
  {
    hide AllIds;
    WithoutCounts(conns, i, a);
    assert PortAt(conns, i, a) in multiset{PortAt(conns, i, a)};
  }

  lemma {:induction false} TwoPlacesTwice(conns: seq<Conn>, i: nat, a: nat, j: nat, b: nat)
    requires Place(conns, i, a) && Place(conns, j, b) && (i != j || b < a)
    requires PortAt(conns, i, a) == PortAt(conns, j, b)
    ensures AllIds(conns, PortOf)[PortAt(conns, i, a)] >= 2
  {
    hide AllIds;
    WithoutCounts(conns, i, a);
    assert Place(Without(conns, i, a), j, b) && PortAt(Without(conns, i, a), j, b) == PortAt(conns, j, b);
    InAllIds(Without(conns, i, a), j, b);
  }

  lemma {:induction false} TwiceTwoPlaces(conns: seq<Conn>, x: nat)
    requires AllIds(conns, PortOf)[x] >= 2
    ensures !NoSharedPort(conns)
  {
    hide AllIds;
    var i, a := PlaceOf(conns, x);
    WithoutCounts(conns, i, a);
    assert x in AllIds(Without(conns, i, a), PortOf);
    var j, b := PlaceOf(Without(conns, i, a), x);
    var c := if j == i && b >= a then b + 1 else b;
    assert Place(conns, j, c) && PortAt(conns, j, c) == x && (j != i || c != a);
  }

  /** No two clients share a port exactly when every port is on the lists at most once. */
  lemma {:induction false} NoSharedPortCounts(conns: seq<Conn>)
    ensures NoSharedPort(conns) <==> forall x: nat :: AllIds(conns, PortOf)[x] <= 1
  {
    hide AllIds;
    if x: nat :| AllIds(conns, PortOf)[x] > 1 {
      TwiceTwoPlaces(conns, x);
    } else {
      hide NoSharedPort;
      forall i, a, j, b | Place(conns, i, a) && Place(conns, j, b) && PortAt(conns, i, a) == PortAt(conns, j, b)
        ensures i == j && a == b
      {
        if i != j || b < a {
          TwoPlacesTwice(conns, i, a, j, b);
        } else if a < b {
          TwoPlacesTwice(conns, j, b, i, a);
        }
      }
      assert NoSharedPort(conns);
    }
  }

  // ---- the exact bound ----

  lemma LowOnce(t: Table, ports: multiset<nat>)
    requires Exact(t, Low(ports)) && 0 !in ports
    ensures |Low(ports)| <= 0xff && forall x: nat :: x != TOP_PORT ==> ports[x] <= 1
  {
    LowestFreeBound(t, Low(ports));
    assert Low(ports)[0 := 0] == Low(ports);
    forall x: nat | x != TOP_PORT ensures ports[x] <= 1 {
      assert ports[x] == Low(ports)[x];
      if x != 0 {
        ExactMembers(t, Low(ports), x);
      }
    }
  }

  /** Whatever the history, ports are distinct exactly when at most one client has the top port. */
  lemma DistinctButTop(p: Proxy)
    requires Consistent(p)
    ensures NoSharedPort(p.conns) <==> Top(p) <= 1
    ensures Live(p) > 0x100 ==> Top(p) > 1
  {
    hide AllIds, Exact, NoSharedPort;
    var ports := AllIds(p.conns, PortOf);
    NoSharedPortCounts(p.conns);
    LowOnce(p.tables.portIds, ports);
    LowSize(ports);
  }

  /** Over every run: no two live clients ever share a port exactly when there are never more than 256 live clients. */
  lemma PortsDistinctExactly(events: seq<Event>, states: seq<Proxy>)
    requires Run(events, states)
    ensures (forall k :: 0 <= k < |states| ==> NoSharedPort(states[k].conns))
       <==> (forall k :: 0 <= k < |states| ==> Live(states[k]) <= 0x100)
  {
    hide Run, NoSharedPort, Live, Top, Consistent;
    forall k | 0 <= k < |states|
      ensures NoSharedPort(states[k].conns) <==> Top(states[k]) <= 1
      ensures Live(states[k]) > 0x100 ==> Top(states[k]) > 1
    {
      RunConsistent(events, states, k);
      DistinctButTop(states[k]);
    }
    if forall k :: 0 <= k < |states| ==> Live(states[k]) <= 0x100 {
      forall k | 0 <= k < |states| ensures NoSharedPort(states[k].conns) {
        RunTop(events, states, 0x100, k);
      }
    }
  }

  // ---- runs with any number of live clients ----

  const WDS: byte := 1

  /** The modem announces a service, and a client asks for an id for it. */
  const ANNOUNCE: Packet :=
    Packet(TYPE_NEW_SERVER, Address(NODE_MODEM, PORT_CTRL), Address(NODE_MYSELF, PORT_CTRL), 0,
           [4, 0, 0, 0, WDS, 0, 0, 0, 0, 0, 0, 0, 3, 0, 0, 0, 1, 0, 0, 0])

  const GET_WDS: Bytes := [USB_CTL_MSG_TYPE_QMI, 15, 0, 0, QMUX_TYPE_CTL, 0, QMICTL_FLAG_REQUEST, 1, 0x22, 0, 4, 0, 1, 1, 0, WDS]

  /** One connection, and the service it asks for. */
  ghost predicate Serving(p: Proxy, fd: int) {
    |p.conns| == 1 && p.conns[0].fd == fd && FindService(p.services, WDS).Some?
  }

  lemma Announced(p: Proxy)
    requires p.services == []
    ensures FindService(FromModem(p, ANNOUNCE).services, WDS).Some? && FromModem(p, ANNOUNCE).conns == p.conns
  {
    var b := ANNOUNCE.payload;
    assert b[4] == 1 && b[5] == b[6] == b[7] == 0 && b[12] == 3 && b[13] == b[14] == b[15] == 0;
  }

  lemma GetAddsOne(p: Proxy, fd: int)
    requires Serving(p, fd)
    ensures |GET_WDS| >= QMI_HDR_SIZE && |GET_WDS| == Length(GET_WDS) + 1
    ensures var q := FromClient(p, fd, GET_WDS);
            Serving(q, fd) && Live(q) == Live(p) + 1
  {
    hide AllIds, Ids, GetRsp, Alloc, NewClient;
    var msg := GET_WDS;
    assert IsCtl(msg) && CtlKind(msg) == QMICTL_GET_CLIENT_ID && ReqService(msg) == WDS;
    SetClientsAdds(p, 0, NewClient(p.tables, WDS), PortOf);
  }

  lemma Longer(events: seq<Event>, states: seq<Proxy>, e: Event)
    requires Run(events, states)
    ensures Run(events + [e], states + [Step(states[|events|], e)])
  {
    hide Step;
    var now, run := events + [e], states + [Step(states[|events|], e)];
    forall i | 0 <= i < |now| ensures run[i + 1] == Step(run[i], now[i]) {
      if i < |events| {
        assert run[i] == states[i] && run[i + 1] == states[i + 1] && now[i] == events[i];
      }
    }
  }

  /** For every number there is a run that ends with so many live clients and never has more. */
  lemma {:induction false} RunWithClients(fd: int, n: nat) returns (events: seq<Event>, states: seq<Proxy>)
    ensures BoundedRun(events, states, n) && Live(states[|events|]) == n && Serving(states[|events|], fd)
  {
    hide Step, Live, Serving;
    if n == 0 {
      events, states := EmptyRun(fd);
    } else {
      events, states := RunWithClients(fd, n - 1);
      var p := states[|events|];
      GetAddsOne(p, fd);
      var e := ClientMessage(fd, GET_WDS);
      Longer(events, states, e);
      assert Step(p, e) == FromClient(p, fd, GET_WDS) by { StepOfMessage(p, fd, GET_WDS); }
      events, states := events + [e], states + [Step(p, e)];
    }
  }

  lemma StepOfMessage(p: Proxy, fd: int, msg: Message)
    ensures Step(p, ClientMessage(fd, msg)) == FromClient(p, fd, msg)
  {
  }

  lemma EmptyRun(fd: int) returns (events: seq<Event>, states: seq<Proxy>)
    ensures BoundedRun(events, states, 0) && Serving(states[|events|], fd) && Live(states[|events|]) == 0
  {
    hide *;
    var p := Start();
    var q := FromModem(p, ANNOUNCE);
    FirstSteps(fd);
    Longer([], [p], ModemPacket(ANNOUNCE));
    assert [] + [ModemPacket(ANNOUNCE)] == [ModemPacket(ANNOUNCE)];
    Longer([ModemPacket(ANNOUNCE)], [p] + [q], Accepted(fd));
    events := [ModemPacket(ANNOUNCE)] + [Accepted(fd)];
    states := [p] + [q] + [Accept(q, fd)];
    Bounded(events, states);
  }

  lemma Bounded(events: seq<Event>, states: seq<Proxy>)
    requires Run(events, states) && forall i :: 0 <= i < |states| ==> Live(states[i]) == 0
    ensures BoundedRun(events, states, 0)
  {
    hide Run, Live;
  }

  lemma FirstSteps(fd: int)
    ensures var p := Start();
            var q := FromModem(p, ANNOUNCE);
            var r := Accept(q, fd);
            && Run([], [p]) && Step(p, ModemPacket(ANNOUNCE)) == q && Step(q, Accepted(fd)) == r
            && Live(p) == Live(q) == Live(r) == 0 && Serving(r, fd)
  {
    var p := Start();
    Announced(p);
    AcceptKeepsIds(FromModem(p, ANNOUNCE), fd, PortOf);
    hide FromModem;
  }

  /** The bound is met and passed: 256 live clients can have 256 ports, and 257 cannot. */
  lemma SharedPortIsReached(fd: int)
    returns (events: seq<Event>, states: seq<Proxy>, more: seq<Event>, beyond: seq<Proxy>)
    ensures Run(events, states) && Live(states[|events|]) == 0x100 && NoSharedPort(states[|events|].conns)
    ensures Run(more, beyond) && Live(beyond[|more|]) == 0x101 && !NoSharedPort(beyond[|more|].conns)
  {
    hide Step, NoSharedPort, Live, Top, Consistent, Serving;
    events, states := RunWithClients(fd, 0x100);
    PortsDistinctExactly(events, states);
    more, beyond := RunWithClients(fd, 0x101);
    RunConsistent(more, beyond, |more|);
    DistinctButTop(beyond[|more|]);
  }
}
