/** The services that the QRTR proxy knows are those the modem announced, at the addresses it announced. */
module QrtrServices {
  import opened Wire
  import opened QrtrModel
  import opened QrtrRuns

  /** The 32-bit word at an offset, least significant byte first. */
  function Field(b: Bytes, i: nat): int {
    At(b, i) + 0x100 * At(b, i + 1) + 0x1_0000 * At(b, i + 2) + 0x100_0000 * At(b, i + 3)
  }

  lemma FieldIsLe32(b: Bytes, i: nat)
    ensures Field(b, i) == Le32At(b, i)
  {
    hide At;
  }

  /** A NEW_SERVER packet about a service on the modem: the payload is command, service, instance, node and port. */
  predicate Announces(e: Event) {
    e.ModemPacket? && e.packet.kind == 4 && Field(e.packet.payload, 12) == 3
  }

  /** The announcements of a run, in order. */
  function Announcements(events: seq<Event>): seq<Packet> {
    if events == [] then []
    else
      var e := events[|events| - 1];
      Announcements(events[..|events| - 1]) + if Announces(e) then [e.packet] else []
  }

  /** Service, version and instance, address and sender as announced. */
  predicate IsAnnounced(s: Service, packet: Packet) {
    var b := packet.payload;
    && s.service == Field(b, 4)
    && s.version == At(b, 8) && s.instance == At(b, 9) + 0x100 * At(b, 10) + 0x1_0000 * At(b, 11)
    && s.at.node == Field(b, 12) && s.at.port == Field(b, 16)
    && s.src == packet.src
  }

  lemma Recorded(p: Proxy, packet: Packet)
    ensures var q := FromModem(p, packet);
            if Announces(ModemPacket(packet)) then
              |q.services| == |p.services| + 1 && q.services[..|p.services|] == p.services
              && IsAnnounced(q.services[|p.services|], packet)
            else q.services == p.services
  {
    hide Deliveries, Control;
    var b := packet.payload;
    FieldIsLe32(b, 4);
    FieldIsLe32(b, 12);
    FieldIsLe32(b, 16);
    assert Le32At(b, 8) % 0x100 == At(b, 8);
    assert Le32At(b, 8) / 0x100 == At(b, 9) + 0x100 * At(b, 10) + 0x1_0000 * At(b, 11);
    hide At, Le16At, Le32At, Field;
  }

  lemma OthersKeepServices(p: Proxy, e: Event)
    requires !e.ModemPacket?
    ensures Step(p, e).services == p.services
  {
    match e
    case Accepted(fd) =>
    case ClientMessage(fd, msg) =>
      hide At, Le16At, GetRsp, ReleaseRsp, VersionRsp, Outgoing, DelClient, NewClient, FreeBoth;
    case Closed(fd) =>
      var i := FindConn(p.conns, fd);
      if i < |p.conns| {
        DrainConns(p, i);
      }
  }

  /** In every run the services listed are those announced, one for each announcement, in order, with its fields. */
  lemma {:induction false} ServicesAreAnnounced(events: seq<Event>, states: seq<Proxy>, k: nat)
    requires Run(events, states) && k < |states|
    ensures var all := Announcements(events[..k]);
            && |states[k].services| == |all|
            && forall i :: 0 <= i < |all| ==> IsAnnounced(states[k].services[i], all[i])
  {
    hide Step, IsAnnounced, Announces, FromModem;
    if k > 0 {
      ServicesAreAnnounced(events, states, k - 1);
      var p, e := states[k - 1], events[k - 1];
      assert events[..k][..k - 1] == events[..k - 1];
      if e.ModemPacket? {
        StepOfPacket(p, e.packet);
        Recorded(p, e.packet);
        var now := states[k].services;
        assert forall i :: 0 <= i < |p.services| ==> now[i] == now[..|p.services|][i] == p.services[i] || !Announces(e);
      } else {
        OthersKeepServices(p, e);
        NoAnnouncement(e);
      }
    } else {
      assert events[..0] == [];
    }
  }

  lemma StepOfPacket(p: Proxy, packet: Packet)
    ensures Step(p, ModemPacket(packet)) == FromModem(p, packet)
  {
  }

  lemma NoAnnouncement(e: Event)
    requires !e.ModemPacket?
    ensures !Announces(e)
  {
  }

  /** The first announcement of a service, if there is one. */
  function FirstOf(packets: seq<Packet>, service: byte): Option<Packet> {
    if packets == [] then None
    else if Field(packets[0].payload, 4) == service then Some(packets[0])
    else FirstOf(packets[1..], service)
  }

  lemma {:induction false} FindsTheFirst(services: seq<Service>, packets: seq<Packet>, service: byte)
    requires |services| == |packets| && forall i :: 0 <= i < |packets| ==> IsAnnounced(services[i], packets[i])
    ensures FirstOf(packets, service).Some? <==> FindService(services, service).Some?
    ensures FirstOf(packets, service).Some? ==>
              IsAnnounced(FindService(services, service).value, FirstOf(packets, service).value)
  {
    hide Field;
    if packets != [] {
      assert IsAnnounced(services[0], packets[0]);
      FindsTheFirst(services[1..], packets[1..], service);
    }
  }

  /** A service is known exactly when it was announced, and it is taken to be where it was first announced. */
  lemma {:induction false} KnownAsFirstAnnounced(events: seq<Event>, states: seq<Proxy>, k: nat, service: byte)
    requires Run(events, states) && k < |states|
    ensures var known, packet := FindService(states[k].services, service), FirstOf(Announcements(events[..k]), service);
            && (known.Some? <==> packet.Some?)
            && (known.Some? ==> IsAnnounced(known.value, packet.value))
  {
    hide IsAnnounced;
    ServicesAreAnnounced(events, states, k);
    FindsTheFirst(states[k].services, Announcements(events[..k]), service);
  }
}
