/** The ids on the QRTR proxy's client lists against its two tables, over whole runs. */
module QrtrIds {
  import opened Wire
  import opened QrtrTables
  import opened QrtrModel

  function IdOf(c: Client): nat { c.clientId }
  function PortOf(c: Client): nat { c.at.port }

  ghost function Ids(clients: seq<Client>, f: Client -> nat): multiset<nat> {
    if clients == [] then multiset{}
    else Ids(clients[..|clients| - 1], f) + multiset{f(clients[|clients| - 1])}
  }

  ghost function AllIds(conns: seq<Conn>, f: Client -> nat): multiset<nat> {
    if conns == [] then multiset{}
    else AllIds(conns[..|conns| - 1], f) + Ids(conns[|conns| - 1].clients, f)
  }

  ghost function Live(p: Proxy): nat {
    |AllIds(p.conns, PortOf)|
  }

  // ---- sums over lists ----

  lemma {:induction false} IdsConcat(a: seq<Client>, b: seq<Client>, f: Client -> nat)
    ensures Ids(a + b, f) == Ids(a, f) + Ids(b, f)
  {
    if b == [] {
      AppendNone(a);
    } else {
      assert (a + b)[..|a + b| - 1] == a + b[..|b| - 1];
      IdsConcat(a, b[..|b| - 1], f);
    }
  }

  lemma IdsOne(c: Client, f: Client -> nat)
    ensures Ids([c], f) == multiset{f(c)}
  {
    assert [c][..0] == [];
  }

  lemma {:induction false} IdsMiddle(a: seq<Client>, c: Client, b: seq<Client>, f: Client -> nat)
    ensures Ids(a + [c] + b, f) == Ids(a + b, f) + multiset{f(c)}
  {
    hide Ids;
    IdsConcat(a + [c], b, f);
    IdsConcat(a, [c], f);
    IdsOne(c, f);
    IdsConcat(a, b, f);
  }

  lemma {:induction false} IdsRemove(clients: seq<Client>, k: nat, f: Client -> nat)
    requires k < |clients|
    ensures Ids(clients, f) == Ids(clients[..k] + clients[k + 1..], f) + multiset{f(clients[k])}
  {
    hide Ids;
    assert clients == clients[..k] + [clients[k]] + clients[k + 1..];
    IdsMiddle(clients[..k], clients[k], clients[k + 1..], f);
  }

  lemma {:induction false} AllIdsConcat(a: seq<Conn>, b: seq<Conn>, f: Client -> nat)
    ensures AllIds(a + b, f) == AllIds(a, f) + AllIds(b, f)
  {
    if b == [] {
      AppendNone(a);
    } else {
      assert (a + b)[..|a + b| - 1] == a + b[..|b| - 1];
      AllIdsConcat(a, b[..|b| - 1], f);
    }
  }

  lemma {:induction false} AllIdsMiddle(a: seq<Conn>, c: Conn, b: seq<Conn>, f: Client -> nat)
    ensures AllIds(a + [c] + b, f) == AllIds(a, f) + Ids(c.clients, f) + AllIds(b, f)
  {
    AllIdsConcat(a + [c], b, f);
    AllIdsConcat(a, [c], f);
    assert [c][..0] == [];
  }

  lemma AllIdsUpdate(conns: seq<Conn>, i: nat, c: Conn, f: Client -> nat)
    requires i < |conns|
    ensures AllIds(conns[i := c], f) + Ids(conns[i].clients, f) == AllIds(conns, f) + Ids(c.clients, f)
  {
    hide AllIds;
    var a, b := conns[..i], conns[i + 1..];
    assert conns == a + [conns[i]] + b && conns[i := c] == a + [c] + b;
    AllIdsMiddle(a, conns[i], b, f);
    AllIdsMiddle(a, c, b, f);
  }

  lemma {:induction false} AllIdsDropEmpty(conns: seq<Conn>, i: nat, f: Client -> nat)
    requires i < |conns| && conns[i].clients == []
    ensures AllIds(conns[..i] + conns[i + 1..], f) == AllIds(conns, f)
  {
    hide AllIds;
    var a, b := conns[..i], conns[i + 1..];
    assert conns == a + [conns[i]] + b;
    AllIdsMiddle(a, conns[i], b, f);
    AllIdsConcat(a, b, f);
  }

  /** Exchanging parts of equal sums. */
  lemma Exchange(now: multiset<nat>, before: multiset<nat>, all: multiset<nat>, after: multiset<nat>, one: multiset<nat>)
    requires now + before == all + after
    ensures after == before + one ==> now == all + one
    ensures before == after + one ==> all == now + one
  {
    forall x ensures now[x] + before[x] == all[x] + after[x] {
      assert (now + before)[x] == (all + after)[x];
    }
    if after == before + one {
      forall x ensures now[x] == (all + one)[x] {
        assert after[x] == (before + one)[x];
      }
    }
    if before == after + one {
      forall x ensures all[x] == (now + one)[x] {
        assert before[x] == (after + one)[x];
      }
    }
  }

  lemma SetClientsAdds(p: Proxy, i: nat, c: Client, f: Client -> nat)
    requires i < |p.conns|
    ensures AllIds(SetClients(p, i, p.conns[i].clients + [c]).conns, f) == AllIds(p.conns, f) + multiset{f(c)}
  {
    hide AllIds, Ids;
    var clients := p.conns[i].clients;
    AllIdsUpdate(p.conns, i, Conn(p.conns[i].fd, clients + [c]), f);
    IdsConcat(clients, [c], f);
    IdsOne(c, f);
    Exchange(AllIds(p.conns[i := Conn(p.conns[i].fd, clients + [c])], f), Ids(clients, f),
             AllIds(p.conns, f), Ids(clients + [c], f), multiset{f(c)});
  }

  lemma SetClientsRemoves(p: Proxy, i: nat, k: nat, f: Client -> nat)
    requires i < |p.conns| && k < |p.conns[i].clients|
    ensures var clients := p.conns[i].clients;
            AllIds(p.conns, f)
            == AllIds(SetClients(p, i, clients[..k] + clients[k + 1..]).conns, f) + multiset{f(clients[k])}
  {
    hide AllIds, Ids;
    var clients := p.conns[i].clients;
    var rest := clients[..k] + clients[k + 1..];
    AllIdsUpdate(p.conns, i, Conn(p.conns[i].fd, rest), f);
    IdsRemove(clients, k, f);
    Exchange(AllIds(p.conns[i := Conn(p.conns[i].fd, rest)], f), Ids(clients, f),
             AllIds(p.conns, f), Ids(rest, f), multiset{f(clients[k])});
  }

  lemma {:induction false} InIds(clients: seq<Client>, c: Client, f: Client -> nat)
    requires c in clients
    ensures f(c) in Ids(clients, f)
  {
    var n := |clients| - 1;
    if c != clients[n] {
      assert c in clients[..n];
      InIds(clients[..n], c, f);
    }
  }

  lemma {:induction false} RemoveIds(conns: seq<Conn>, i: nat, f: Client -> nat)
    requires i < |conns|
    ensures AllIds(conns, f) == AllIds(conns[..i] + conns[i + 1..], f) + Ids(conns[i].clients, f)
  {
    hide AllIds, Ids;
    var a, b := conns[..i], conns[i + 1..];
    assert conns == a + [conns[i]] + b;
    AllIdsMiddle(a, conns[i], b, f);
    AllIdsConcat(a, b, f);
  }

  // ---- the invariant ----

  /** The first port whose table cell cannot hold it: it is stored as 0, so the cell always looks free. */
  const TOP_PORT: nat := 0x100

  /** The live clients with that port. */
  ghost function Top(p: Proxy): nat {
    AllIds(p.conns, PortOf)[TOP_PORT]
  }

  /** The ports that their table holds. */
  ghost function Low(ports: multiset<nat>): multiset<nat> {
    ports[TOP_PORT := 0]
  }

  /** The tables hold exactly these client ids and port ids, each once, except client id 0 and the top port; no port is 0
      or above the top port. */
  ghost predicate Books(t: Tables, ids: multiset<nat>, ports: multiset<nat>) {
    && |t.clientIds| == CLIENT_CELLS && |t.portIds| == PORT_CELLS
    && Exact(t.clientIds, ids) && Exact(t.portIds, Low(ports))
    && 0 !in ports && forall x :: x in ports ==> x <= TOP_PORT
  }

  ghost predicate Consistent(p: Proxy) {
    Books(p.tables, AllIds(p.conns, IdOf), AllIds(p.conns, PortOf))
  }

  lemma LowSize(ports: multiset<nat>)
    ensures |ports| == |Low(ports)| + ports[TOP_PORT]
  {
    var top: multiset<nat> := multiset{};
    top := top[TOP_PORT := ports[TOP_PORT]];
    assert ports == Low(ports) + top;
  }

  lemma LowPlus(ports: multiset<nat>, x: nat)
    ensures Low(ports + multiset{x}) == if x == TOP_PORT then Low(ports) else Low(ports) + multiset{x}
  {
  }

  /** What is known of the ids that the next client gets. */
  lemma NewIds(t: Tables, ids: multiset<nat>, ports: multiset<nat>)
    requires Books(t, ids, ports)
    ensures AllocId(t.clientIds) < 0x100
    ensures AllocId(t.clientIds) == 0 ==> |ids| >= CLIENT_CELLS - 1
    ensures var port := AllocId(t.portIds);
            && 1 <= port <= TOP_PORT && port <= |Low(ports)| + 1 && port !in Low(ports)
            && (port == TOP_PORT ==> |Low(ports)| == 0xff && Alloc(t.portIds) == t.portIds)
  {
    assert Low(ports)[0 := 0] == Low(ports);
    AllocClientExact(t.clientIds, ids);
    LowestFreeBound(t.clientIds, ids);
    AllocExact(t.portIds, Low(ports));
    AllocPortExact(t.portIds, Low(ports));
    LowestFreeBound(t.portIds, Low(ports));
  }

  lemma BooksAlloc(t: Tables, ids: multiset<nat>, ports: multiset<nat>)
    requires Books(t, ids, ports)
    ensures Books(Tables(Alloc(t.clientIds), Alloc(t.portIds)),
                  ids + multiset{AllocId(t.clientIds)}, ports + multiset{AllocId(t.portIds)})
  {
    hide Exact, Alloc, AllocId, Low;
    NewIds(t, ids, ports);
    AllocClientExact(t.clientIds, ids);
    AllocExact(t.portIds, Low(ports));
    LowPlus(ports, AllocId(t.portIds));
    AllocLength(t.clientIds);
    AllocLength(t.portIds);
  }

  lemma AllocLength(t: Table)
    ensures |Alloc(t)| == |t|
  {
  }

  lemma FreeLength(t: Table, id: nat)
    ensures |Free(t, id)| == |t|
  {
  }

  lemma TopIsNotFreed(t: Table, ports: multiset<nat>)
    requires Exact(t, ports) && |t| == PORT_CELLS
    ensures Free(t, TOP_PORT) == t
  {
  }

  lemma BooksFree(t: Tables, ids: multiset<nat>, ports: multiset<nat>, c: Client)
    requires Books(t, ids + multiset{IdOf(c)}, ports + multiset{PortOf(c)})
    ensures Books(FreeBoth(t, c), ids, ports)
  {
    hide Exact, Free, Low;
    LowPlus(ports, PortOf(c));
    FreeExact(t.clientIds, ids + multiset{IdOf(c)}, IdOf(c));
    assert ids + multiset{IdOf(c)} - multiset{IdOf(c)} == ids;
    if PortOf(c) == TOP_PORT {
      TopIsNotFreed(t.portIds, Low(ports));
    } else {
      FreeExact(t.portIds, Low(ports) + multiset{PortOf(c)}, PortOf(c));
      assert Low(ports) + multiset{PortOf(c)} - multiset{PortOf(c)} == Low(ports);
    }
    FreeLength(t.clientIds, IdOf(c));
    FreeLength(t.portIds, PortOf(c));
    assert forall x :: x in ports ==> x in ports + multiset{PortOf(c)};
  }

  /** The top port is handed out only when all others are taken. */
  ghost predicate TopStep(p: Proxy, q: Proxy) {
    Top(q) <= Top(p) || Top(q) + 0xff == Live(q)
  }

  lemma TopAfter(ports: multiset<nat>, port: nat)
    requires port == TOP_PORT ==> |Low(ports)| == 0xff
    ensures var now := ports + multiset{port};
            |now| == |ports| + 1 && (now[TOP_PORT] <= ports[TOP_PORT] || now[TOP_PORT] + 0xff == |now|)
  {
    hide Low;
    LowSize(ports);
  }

  lemma NewClientIds(t: Tables, ids: multiset<nat>, ports: multiset<nat>, qmiType: byte)
    requires Books(t, ids, ports)
    ensures var c := NewClient(t, qmiType);
            && IdOf(c) == AllocId(t.clientIds) && PortOf(c) == AllocId(t.portIds)
            && (PortOf(c) == TOP_PORT ==> |Low(ports)| == 0xff)
  {
    hide Exact, Low, AllocId;
    NewIds(t, ids, ports);
  }

  lemma AllocConsistent(p: Proxy, i: nat, qmiType: byte)
    requires Consistent(p) && i < |p.conns|
    ensures var q := AllocClient(p, i, qmiType);
            Consistent(q) && Live(q) == Live(p) + 1 && TopStep(p, q)
  {
    hide AllIds, Ids, Low, Books, NewClient, Alloc, AllocId;
    var c := NewClient(p.tables, qmiType);
    NewClientIds(p.tables, AllIds(p.conns, IdOf), AllIds(p.conns, PortOf), qmiType);
    BooksAlloc(p.tables, AllIds(p.conns, IdOf), AllIds(p.conns, PortOf));
    SetClientsAdds(p, i, c, IdOf);
    SetClientsAdds(p, i, c, PortOf);
    TopAfter(AllIds(p.conns, PortOf), PortOf(c));
  }

  lemma ReleaseAtConsistent(p: Proxy, i: nat, k: nat)
    requires Consistent(p) && i < |p.conns| && k < |p.conns[i].clients|
    ensures var q := ReleaseAt(p, i, k);
            Consistent(q) && Live(q) == Live(p) - 1 && Top(q) <= Top(p)
  {
    hide AllIds, Ids, Exact, Books;
    var q := ReleaseAt(p, i, k);
    SetClientsRemoves(p, i, k, IdOf);
    SetClientsRemoves(p, i, k, PortOf);
    BooksFree(p.tables, AllIds(q.conns, IdOf), AllIds(q.conns, PortOf), p.conns[i].clients[k]);
  }

  lemma {:induction false} DrainConsistent(p: Proxy, i: nat)
    requires Consistent(p) && i < |p.conns|
    ensures Consistent(Drain(p, i)) && Live(Drain(p, i)) <= Live(p) && Top(Drain(p, i)) <= Top(p)
    ensures |Drain(p, i).conns| == |p.conns| && Drain(p, i).conns[i].clients == []
    ensures Drain(p, i).services == p.services
    decreases |p.conns[i].clients|
  {
    hide Top, Live, Consistent;
    if p.conns[i].clients != [] {
      var c := p.conns[i].clients[0];
      ReleaseAtConsistent(p, i, 0);
      DrainConsistent(Release(p, i, c.qmiType, c.clientId), i);
    }
  }

  lemma CleanupConsistent(p: Proxy, fd: int)
    requires Consistent(p)
    ensures Consistent(Cleanup(p, fd)) && Live(Cleanup(p, fd)) <= Live(p) && Top(Cleanup(p, fd)) <= Top(p)
  {
    hide AllIds, Ids, Exact;
    var i := FindConn(p.conns, fd);
    if i < |p.conns| {
      DrainConsistent(p, i);
      AllIdsDropEmpty(Drain(p, i).conns, i, IdOf);
      AllIdsDropEmpty(Drain(p, i).conns, i, PortOf);
    }
  }

  lemma AllIdsOne(c: Conn, f: Client -> nat)
    ensures AllIds([c], f) == Ids(c.clients, f)
  {
    assert [c][..0] == [];
  }

  lemma AcceptKeepsIds(p: Proxy, fd: int, f: Client -> nat)
    ensures AllIds(Accept(p, fd).conns, f) == AllIds(p.conns, f)
  {
    AllIdsConcat(p.conns, [Conn(fd, [])], f);
    AllIdsOne(Conn(fd, []), f);
  }

  lemma AcceptConsistent(p: Proxy, fd: int)
    requires Consistent(p)
    ensures Consistent(Accept(p, fd)) && Live(Accept(p, fd)) == Live(p) && Top(Accept(p, fd)) == Top(p)
  {
    hide AllIds, Ids, Exact;
    AcceptKeepsIds(p, fd, IdOf);
    AcceptKeepsIds(p, fd, PortOf);
  }

  lemma FromClientConsistent(p: Proxy, fd: int, msg: Message)
    requires Consistent(p)
    ensures var q := FromClient(p, fd, msg);
            Consistent(q) && Live(q) <= Live(p) + 1 && TopStep(p, q)
  {
    hide AllIds, Ids, Exact;
    var i := FindConn(p.conns, fd);
    if i < |p.conns| && IsCtl(msg) {
      if CtlKind(msg) == QMICTL_GET_CLIENT_ID {
        AllocConsistent(p, i, ReqService(msg));
      } else if CtlKind(msg) == QMICTL_RELEASE_CLIENT_ID {
        var k := FindClient(p.conns[i].clients, ReqPair(msg).qmiType, ReqPair(msg).clientId);
        if k < |p.conns[i].clients| {
          ReleaseAtConsistent(p, i, k);
        }
      }
    }
  }
}
