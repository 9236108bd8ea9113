/** The QRTR proxy as it runs: tables and lists updated in place, refining QrtrModel. */
module QrtrProxy {
  import opened Wire
  import opened QrtrTables
  import M = QrtrModel

  class Connection {
    const fd: int
    var clients: seq<M.Client>

    constructor (fd: int)
      ensures this.fd == fd && clients == []
    {
      this.fd := fd;
      clients := [];
    }
  }

  ghost function Views(cs: seq<Connection>): (v: seq<M.Conn>)
    reads cs
    ensures |v| == |cs|
    ensures forall i :: 0 <= i < |cs| ==> v[i] == M.Conn(cs[i].fd, cs[i].clients)
  {
    seq(|cs|, i requires 0 <= i < |cs| reads cs => M.Conn(cs[i].fd, cs[i].clients))
  }

  class Proxy {
    const clientBitmap: array<byte>
    const portBitmap: array<byte>
    var connections: seq<Connection>
    var services: seq<M.Service>
    var effects: seq<M.Effect>

    ghost predicate Valid()
      reads this
    {
      && clientBitmap.Length == CLIENT_CELLS && portBitmap.Length == PORT_CELLS
      && clientBitmap != portBitmap
      && forall i, j :: 0 <= i < j < |connections| ==> connections[i] != connections[j]
    }

    ghost function View(): M.Proxy
      requires Valid()
      reads this, connections, clientBitmap, portBitmap
    {
      M.Proxy(Views(connections), services, M.Tables(clientBitmap[..], portBitmap[..]), effects)
    }

    constructor ()
      ensures Valid() && fresh(clientBitmap) && fresh(portBitmap)
      ensures View().conns == [] && View().services == [] && View().effects == []
      ensures forall i :: 0 <= i < CLIENT_CELLS ==> clientBitmap[i] == 0
      ensures forall i :: 0 <= i < PORT_CELLS ==> portBitmap[i] == 0
    {
      clientBitmap := new byte[CLIENT_CELLS](_ => 0);
      portBitmap := new byte[PORT_CELLS](_ => 0);
      connections, services, effects := [], [], [];
    }

    method AcceptConnection(clientFd: int)
      requires Valid()
      modifies `connections
      ensures Valid() && View() == M.Accept(old(View()), clientFd)
    {
      var con := new Connection(clientFd);
      connections := connections + [con];
      assert View().conns == M.Accept(old(View()), clientFd).conns;
    }

    method FindConnection(clientFd: int) returns (i: nat)
      ensures i == M.FindConn(Views(connections), clientFd)
    {
      i := 0;
      while i < |connections|
        invariant i <= |connections|
        invariant forall j :: 0 <= j < i ==> connections[j].fd != clientFd
      {
        if connections[i].fd == clientFd {
          break;
        }
        i := i + 1;
      }
    }

    method FindClientOf(con: Connection, qmiType: byte, clientId: byte) returns (k: nat)
      ensures k == M.FindClient(con.clients, qmiType, clientId)
    {
      k := 0;
      while k < |con.clients|
        invariant k <= |con.clients|
        invariant forall j :: 0 <= j < k ==> !M.Owns(con.clients[j], qmiType, clientId)
      {
        if qmiType == con.clients[k].qmiType && clientId == con.clients[k].clientId {
          break;
        }
        k := k + 1;
      }
    }

    method FindService(qmiType: byte) returns (srv: Option<M.Service>)
      ensures srv == M.FindService(services, qmiType)
    {
      var rest := services;
      while rest != []
        invariant M.FindService(services, qmiType) == M.FindService(rest, qmiType)
        decreases |rest|
      {
        if rest[0].service == qmiType {
          return Some(rest[0]);
        }
        rest := rest[1..];
      }
      srv := None;
    }

    /** alloc_qrtr_client_id: the id is stored in eight bits. */
    method AllocClient(i: nat, qmiType: byte) returns (clientId: byte)
      requires Valid() && i < |connections|
      modifies connections[i], clientBitmap, portBitmap
      ensures Valid() && View() == M.AllocClient(old(View()), i, qmiType)
      ensures clientId == M.NewClient(old(View().tables), qmiType).clientId
    {
      hide Alloc, AllocId;
      var con := connections[i];
      var id := AllocFrom(clientBitmap);
      var port := AllocFrom(portBitmap);
      var client := M.Client(qmiType, id % 0x100, M.Address(M.NODE_MYSELF, port % 0x1_0000_0000));
      clientId := client.clientId;
      con.clients := con.clients + [client];
      assert Views(connections) == old(Views(connections))[i := M.Conn(con.fd, con.clients)];
    }

    /** ctrl_cmd_del_client */
    method SendDelClient(client: M.Client)
      modifies `effects
      ensures effects == old(effects) + [M.ToModem(M.DelClient(services, client))]
    {
      var srv := FindService(client.qmiType);
      var to := if srv.Some? then srv.value.src.node else M.NODE_BCAST;
      var packet := M.Packet(M.TYPE_DATA, client.at, M.Address(to, M.PORT_CTRL), 0,
                             M.Control(M.TYPE_DEL_CLIENT, client.at.node, client.at.port));
      effects := effects + [M.ToModem(packet)];
    }

    /** Take the k-th client off the i-th connection, tell the modem and free its ids. */
    method ReleaseAt(i: nat, k: nat)
      requires Valid() && i < |connections| && k < |connections[i].clients|
      modifies connections[i], clientBitmap, portBitmap, `effects
      ensures Valid() && View() == M.ReleaseAt(old(View()), i, k)
    {
      hide Free, M.DelClient;
      var con := connections[i];
      var client := con.clients[k];
      SendDelClient(client);
      FreeIn(clientBitmap, client.clientId);
      FreeIn(portBitmap, client.at.port);
      con.clients := con.clients[..k] + con.clients[k + 1..];
      assert Views(connections) == old(Views(connections))[i := M.Conn(con.fd, con.clients)];
    }

    /** release_qrtr_client_id */
    method ReleaseClient(i: nat, qmiType: byte, clientId: byte)
      requires Valid() && i < |connections|
      modifies connections[i], clientBitmap, portBitmap, `effects
      ensures Valid() && View() == M.Release(old(View()), i, qmiType, clientId)
    {
      hide M.ReleaseAt, M.Owns;
      var k := FindClientOf(connections[i], qmiType, clientId);
      assert View().conns[i].clients == connections[i].clients;
      if k < |connections[i].clients| {
        ReleaseAt(i, k);
      }
    }

    /** The drain loop of the clean-up ends because every turn takes the first client off. */
    method DrainClients(i: nat)
      requires Valid() && i < |connections|
      modifies connections[i], clientBitmap, portBitmap, `effects
      ensures Valid() && View() == M.Drain(old(View()), i)
    {
      hide Free, M.DelClient;
      while connections[i].clients != []
        invariant Valid() && M.Drain(View(), i) == M.Drain(old(View()), i)
        decreases |connections[i].clients|
      {
        var client := connections[i].clients[0];
        ghost var before := View();
        assert before.conns[i].clients == connections[i].clients;
        ReleaseClient(i, client.qmiType, client.clientId);
        assert View() == M.Release(before, i, client.qmiType, client.clientId);
        assert View().conns[i].clients == connections[i].clients;
      }
      assert View().conns[i].clients == [];
    }

    method Unlink(i: nat)
      requires Valid() && i < |connections|
      modifies `connections
      ensures Valid() && View() == M.RemoveConn(old(View()), i)
    {
      connections := connections[..i] + connections[i + 1..];
      assert Views(connections) == old(Views(connections)[..i] + Views(connections)[i + 1..]);
    }

    method CleanupConnection(clientFd: int)
      requires Valid()
      modifies this, connections, clientBitmap, portBitmap
      ensures Valid() && View() == M.Cleanup(old(View()), clientFd)
    {
      hide M.Drain, M.Release;
      var i := FindConnection(clientFd);
      if i < |connections| {
        DrainClients(i);
        Unlink(i);
      }
    }

    method SendToClient(fd: int, msg: Bytes)
      modifies `effects
      ensures effects == old(effects) + [M.ToClient(fd, msg)]
    {
      effects := effects + [M.ToClient(fd, msg)];
    }

    /** A GET request: an id only for a known service, and a response either way. */
    method OnGet(i: nat, msg: Bytes)
      requires Valid() && i < |connections|
      modifies connections[i], clientBitmap, portBitmap, `effects
      ensures Valid() && View() == M.OnGet(old(View()), i, msg)
    {
      hide M.GetRsp, Alloc, AllocId;
      var qmiType := ReqService(msg);
      var clientId := 0;
      var srv := FindService(qmiType);
      var fd := connections[i].fd;
      if srv.Some? {
        clientId := AllocClient(i, qmiType);
      }
      SendToClient(fd, M.GetRsp(msg, qmiType, clientId));
    }

    /** A RELEASE request: always answered with success. */
    method OnRelease(i: nat, msg: Bytes)
      requires Valid() && i < |connections|
      modifies connections[i], clientBitmap, portBitmap, `effects
      ensures Valid() && View() == M.OnRelease(old(View()), i, msg)
    {
      hide M.ReleaseRsp, M.Release;
      var fd := connections[i].fd;
      var pair := ReqPair(msg);
      ReleaseClient(i, pair.qmiType, pair.clientId);
      SendToClient(fd, M.ReleaseRsp(msg));
    }

    /** A service message leaves from its owner's port, without the QMI header. */
    method ForwardToService(i: nat, msg: M.Message)
      requires Valid() && i < |connections|
      modifies `effects
      ensures View() == M.Emit(old(View()), M.Outgoing(old(View()), i, msg))
    {
      hide At, Le16At;
      var con := connections[i];
      var k := FindClientOf(con, QmiType(msg), ClientId(msg));
      assert View().conns[i].clients == con.clients;
      if k < |con.clients| {
        var srv := FindService(QmiType(msg));
        if srv.Some? && srv.value.service != 0 {
          var packet := M.Packet(M.TYPE_DATA, con.clients[k].at, srv.value.at, 0, msg[QMI_HDR_SIZE..]);
          effects := effects + [M.ToModem(packet)];
        }
      }
    }

    method RecvFromClient(msg: M.Message, clientFd: int) returns (ret: int)
      requires Valid()
      modifies this, connections, clientBitmap, portBitmap
      ensures Valid() && View() == M.FromClient(old(View()), clientFd, msg)
      ensures ret == if M.FindConn(old(View()).conns, clientFd) < |old(connections)| then 0 else -1
    {
      hide M.OnGet, M.OnRelease, M.Outgoing, M.VersionRsp, At, Le16At;
      var i := FindConnection(clientFd);
      if i == |connections| {
        return -1;
      }
      if QmiType(msg) == QMUX_TYPE_CTL {
        if CtlKind(msg) == QMICTL_SYNC_REQ {
          return 0;
        } else if CtlKind(msg) == QMICTL_GET_CLIENT_ID {
          OnGet(i, msg);
        } else if CtlKind(msg) == QMICTL_RELEASE_CLIENT_ID {
          OnRelease(i, msg);
        } else if CtlKind(msg) == QMICTL_GET_VERSION_REQ {
          SendToClient(clientFd, M.VersionRsp(msg));
        }
      } else {
        ForwardToService(i, msg);
      }
      return 0;
    }

    /** The inner loop of the data fan-out. */
    method DeliverTo(con: Connection, packet: M.Packet)
      modifies `effects
      ensures effects == old(effects) + M.ConnDeliveries(con.fd, con.clients, packet)
    {
      hide M.Rebuilt;
      for j := 0 to |con.clients|
        invariant effects == old(effects) + M.ConnDeliveries(con.fd, con.clients[..j], packet)
      {
        assert con.clients[..j + 1][..j] == con.clients[..j];
        if con.clients[j].at.node == packet.dst.node && con.clients[j].at.port == packet.dst.port {
          effects := effects + [M.ToClient(con.fd, M.Rebuilt(con.clients[j], packet.payload))];
        }
      }
      assert con.clients[..|con.clients|] == con.clients;
    }

    method DeliverAll(packet: M.Packet)
      modifies `effects
      ensures effects == old(effects) + M.Deliveries(old(Views(connections)), packet)
    {
      hide M.ConnDeliveries;
      ghost var conns := Views(connections);
      for i := 0 to |connections|
        invariant effects == old(effects) + M.Deliveries(conns[..i], packet)
      {
        DeliverTo(connections[i], packet);
        assert conns[..i + 1][..i] == conns[..i];
        AppendAssoc(old(effects), M.Deliveries(conns[..i], packet),
                    M.ConnDeliveries(conns[i].fd, conns[i].clients, packet));
      }
      assert conns[..|conns|] == conns;
    }

    method HandleServerChange(packet: M.Packet)
      requires Valid()
      modifies `services
      ensures View() == M.OnServer(old(View()), packet)
    {
      hide At, Le16At;
      var b := packet.payload;
      if Le32At(b, 12) != M.NODE_MODEM {
        return;
      }
      var s := M.Service(Le32At(b, 4), Le32At(b, 8) % 0x100, Le32At(b, 8) / 0x100,
                         M.Address(Le32At(b, 12), Le32At(b, 16)), packet.src);
      if packet.kind == M.TYPE_NEW_SERVER {
        services := services + [s];
      }
    }

    method RecvFromDevice(packet: M.Packet)
      requires Valid()
      modifies `effects, `services
      ensures Valid() && View() == M.FromModem(old(View()), packet)
    {
      hide M.Deliveries, M.Control, At, Le16At;
      if packet.kind == M.TYPE_HELLO {
        effects := effects + [M.ToModem(M.Packet(M.TYPE_HELLO, M.Address(M.NODE_MYSELF, M.PORT_CTRL), packet.src, 0,
                                                 M.Control(M.TYPE_HELLO, 0, 0)))];
      } else if packet.kind == M.TYPE_NEW_SERVER || packet.kind == M.TYPE_DEL_SERVER {
        HandleServerChange(packet);
      } else if packet.kind == M.TYPE_DATA {
        DeliverAll(packet);
        ghost var out := M.Deliveries(old(Views(connections)), packet);
        AppendAssoc(old(effects), out, M.Confirmation(packet));
        AppendNone(out);
        if packet.confirmRx != 0 {
          effects := effects + [M.ToModem(M.Packet(M.TYPE_RESUME_TX, packet.dst, packet.src, 0,
                                          M.Control(M.TYPE_RESUME_TX, packet.dst.node, packet.dst.port)))];
        }
      }
    }
  }
}
