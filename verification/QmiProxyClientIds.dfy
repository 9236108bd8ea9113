/** Conservation of the client ids that the modem grants through the QMI proxy. */
module QmiProxyClientIds {
  import opened Wire
  import opened QmiProxyModel
  import opened QmiProxyOrder
  import opened QmiProxySystem

  /** Every pair on some connection's list, as often as it is there. */
  ghost function Held(conns: seq<Conn>): multiset<Pair> {
    if conns == [] then multiset{}
    else Held(conns[..|conns| - 1]) + multiset(conns[|conns| - 1].clients)
  }

  /** The pairs that queued requests of the proxy's own are to give back. */
  ghost function OwnReleases(queue: seq<CtlReq>, serverFd: int): multiset<Pair> {
    if queue == [] then multiset{}
    else
      var n := |queue| - 1;
      OwnReleases(queue[..n], serverFd)
      + if queue[n].fd == serverFd then multiset{ReqPair(queue[n].msg)} else multiset{}
  }

  /** The queued requests the modem has not answered yet. */
  function Unanswered(s: System): seq<CtlReq> {
    if s.outbox == [] || s.proxy.log.queue == [] then s.proxy.log.queue else s.proxy.log.queue[1..]
  }

  predicate Grants(a: Answer) {
    CtlKind(a.req.msg) == QMICTL_GET_CLIENT_ID && RspOk(a.rsp)
  }

  predicate Returns(a: Answer) {
    CtlKind(a.req.msg) == QMICTL_RELEASE_CLIENT_ID && RspOk(a.rsp)
  }

  /** A pair granted by an answer that the proxy has not read. */
  ghost function Granting(s: System): multiset<Pair> {
    if s.outbox != [] && Grants(s.outbox[0]) then multiset{RspPair(s.outbox[0].rsp)} else multiset{}
  }

  /** A pair the modem has taken back at a client's request, while the proxy still lists it. */
  ghost function Returning(s: System): multiset<Pair> {
    if s.outbox != [] && Returns(s.outbox[0]) && s.outbox[0].req.fd != s.proxy.serverFd
    then multiset{RspPair(s.outbox[0].rsp)} else multiset{}
  }

  ghost predicate Holds(conns: seq<Conn>, fd: int, pair: Pair) {
    exists i :: 0 <= i < |conns| && conns[i].fd == fd && pair in conns[i].clients
  }

  /** A client queues one control request at a time and gives back only pairs it holds; the modem grants only pairs it
      has not given out, takes back the pair it was asked to, and does not refuse the proxy's own requests. */
  ghost predicate Careful(s: System, a: Action) {
    && Polite(s, a)
    && match a
       case Say(fd, msg) =>
         Queues(msg) ==>
           Idle(s, fd) && (CtlKind(msg) == QMICTL_RELEASE_CLIENT_ID ==> Holds(s.proxy.conns, fd, ReqPair(msg)))
       case Reply(rsp) =>
         var answer := Answer(s.inbox[0], rsp);
         && (Grants(answer) ==> RspPair(rsp) !in s.granted)
         && (Returns(answer) ==> RspPair(rsp) == ReqPair(answer.req.msg))
         && (answer.req.fd == s.proxy.serverFd ==> RspOk(rsp))
       case _ => true
  }

  /** Pairs out at the modem = pairs held + pairs about to be given back + a pair on its way to a client; a pair being
      given back by a client is still held but no longer out. */
  ghost predicate Balanced(s: System) {
    && multiset(s.granted) + Returning(s)
         == Held(s.proxy.conns) + OwnReleases(Unanswered(s), s.proxy.serverFd) + Granting(s)
    && forall pair :: pair in Returning(s) ==> pair !in s.granted
  }

  /** One control request a client, release requests only for pairs held, and answers that fit their requests. */
  ghost predicate Honest(s: System) {
    var q := s.proxy.log.queue;
    && (forall i, j :: 0 <= i < j < |q| && q[i].fd == q[j].fd ==> q[i].fd == s.proxy.serverFd)
    && (forall i :: 0 <= i < |q| && q[i].fd == s.proxy.serverFd ==> CtlKind(q[i].msg) == QMICTL_RELEASE_CLIENT_ID)
    && (forall i :: 0 <= i < |q| && q[i].fd != s.proxy.serverFd && CtlKind(q[i].msg) == QMICTL_RELEASE_CLIENT_ID
          ==> Holds(s.proxy.conns, q[i].fd, ReqPair(q[i].msg)))
    && (s.outbox != [] && Returns(s.outbox[0]) ==> RspPair(s.outbox[0].rsp) == ReqPair(s.outbox[0].req.msg))
  }

  ghost predicate Conserved(s: System) {
    Fifo(s) && Honest(s) && Balanced(s)
  }

  // ---- sums over lists ----

  lemma {:induction false} HeldConcat(a: seq<Conn>, b: seq<Conn>)
    ensures Held(a + b) == Held(a) + Held(b)
  {
    if b == [] {
      assert a + b == a;
    } else {
      assert (a + b)[..|a + b| - 1] == a + b[..|b| - 1];
      HeldConcat(a, b[..|b| - 1]);
    }
  }

  lemma HeldOne(c: Conn)
    ensures Held([c]) == multiset(c.clients)
  {
    assert [c][..0] == [];
  }

  lemma {:induction false} HeldMiddle(a: seq<Conn>, c: Conn, b: seq<Conn>)
    ensures Held(a + [c] + b) == Held(a) + multiset(c.clients) + Held(b)
  {
    HeldConcat(a + [c], b);
    HeldConcat(a, [c]);
    HeldOne(c);
  }

  lemma HeldUpdate(conns: seq<Conn>, i: nat, c: Conn)
    requires i < |conns|
    ensures Held(conns[i := c]) + multiset(conns[i].clients) == Held(conns) + multiset(c.clients)
  {
    hide Held;
    var a, b := conns[..i], conns[i + 1..];
    assert conns == a + [conns[i]] + b && conns[i := c] == a + [c] + b;
    HeldMiddle(a, conns[i], b);
    HeldMiddle(a, c, b);
  }

  lemma {:induction false} HeldRemove(conns: seq<Conn>, i: nat)
    requires i < |conns|
    ensures Held(conns) == Held(conns[..i] + conns[i + 1..]) + multiset(conns[i].clients)
  {
    hide Held;
    var a, b := conns[..i], conns[i + 1..];
    assert conns == a + [conns[i]] + b;
    HeldMiddle(a, conns[i], b);
    HeldConcat(a, b);
  }

  lemma {:induction false} HoldsIsHeld(conns: seq<Conn>, fd: int, pair: Pair)
    requires Holds(conns, fd, pair)
    ensures pair in Held(conns)
  {
    var i :| 0 <= i < |conns| && conns[i].fd == fd && pair in conns[i].clients;
    HeldRemove(conns, i);
  }

  lemma {:induction false} OwnReleasesConcat(a: seq<CtlReq>, b: seq<CtlReq>, serverFd: int)
    ensures OwnReleases(a + b, serverFd) == OwnReleases(a, serverFd) + OwnReleases(b, serverFd)
  {
    if b == [] {
      assert a + b == a;
    } else {
      assert (a + b)[..|a + b| - 1] == a + b[..|b| - 1];
      OwnReleasesConcat(a, b[..|b| - 1], serverFd);
    }
  }

  lemma {:induction false} OwnReleasesOne(req: CtlReq, serverFd: int)
    ensures OwnReleases([req], serverFd) == if req.fd == serverFd then multiset{ReqPair(req.msg)} else multiset{}
  {
    assert [req][..0] == [];
  }

  lemma {:induction false} OwnReleasesHead(queue: seq<CtlReq>, serverFd: int)
    requires queue != []
    ensures OwnReleases(queue, serverFd) ==
            (if queue[0].fd == serverFd then multiset{ReqPair(queue[0].msg)} else multiset{})
            + OwnReleases(queue[1..], serverFd)
  {
    assert queue == [queue[0]] + queue[1..];
    OwnReleasesConcat([queue[0]], queue[1..], serverFd);
    OwnReleasesOne(queue[0], serverFd);
  }

  /** The release requests for a list of pairs give back exactly those pairs. */
  lemma {:induction false} ReleaseReqsGiveBack(first: nat, serverFd: int, clients: seq<Pair>)
    ensures OwnReleases(ReleaseReqs(first, serverFd, clients), serverFd) == multiset(clients)
  {
    if clients != [] {
      var n := |clients| - 1;
      var reqs := ReleaseReqs(first, serverFd, clients);
      assert reqs[..n] == ReleaseReqs(first, serverFd, clients[..n]);
      ReleaseReqsGiveBack(first, serverFd, clients[..n]);
      ReleaseMsgFields(clients[n]);
      assert clients == clients[..n] + [clients[n]];
    }
  }

  // ---- the invariant, action by action ----

  lemma SayBalanced(s: System, t: System, req: CtlReq)
    requires Balanced(s) && req.fd != s.proxy.serverFd && (s.outbox != [] ==> s.proxy.log.queue != [])
    requires t.proxy.serverFd == s.proxy.serverFd && t.proxy.conns == s.proxy.conns
    requires t.outbox == s.outbox && t.granted == s.granted && t.proxy.log.queue == s.proxy.log.queue + [req]
    ensures Balanced(t)
  {
    hide Held, OwnReleases;
    assert Unanswered(t) == Unanswered(s) + [req];
    OwnReleasesConcat(Unanswered(s), [req], s.proxy.serverFd);
    OwnReleasesOne(req, s.proxy.serverFd);
    assert OwnReleases([req], s.proxy.serverFd) == multiset{};
    PlusNone(OwnReleases(Unanswered(s), s.proxy.serverFd));
  }

  lemma PlusNone<T>(m: multiset<T>)
    ensures m + multiset{} == m
  {
  }

  lemma SayHonest(s: System, t: System, req: CtlReq)
    requires Honest(s) && req.fd != s.proxy.serverFd && Idle(s, req.fd)
    requires CtlKind(req.msg) == QMICTL_RELEASE_CLIENT_ID ==> Holds(s.proxy.conns, req.fd, ReqPair(req.msg))
    requires t.proxy.serverFd == s.proxy.serverFd && t.proxy.conns == s.proxy.conns
    requires t.outbox == s.outbox && t.proxy.log.queue == s.proxy.log.queue + [req]
    ensures Honest(t)
  {
  }

  lemma SayConserved(s: System, fd: int, msg: Bytes)
    requires Conserved(s) && Careful(s, Say(fd, msg))
    ensures Honest(SayStep(s, fd, msg)) && Balanced(SayStep(s, fd, msg))
  {
    SayQuiet(s, fd, msg);
    if Queues(msg) {
      var req := CtlReq(|s.proxy.log.accepted|, fd, msg);
      QueuedParts(s, fd, msg);
      NotServer(s, fd);
      SayBalanced(s, Queued(s, fd, msg), req);
      SayHonest(s, Queued(s, fd, msg), req);
    }
  }

  lemma NotServer(s: System, fd: int)
    requires FdsDistinct(s.proxy.conns, s.proxy.serverFd) && Connected(s, fd)
    ensures fd != s.proxy.serverFd
  {
  }

  lemma HoldsMore(conns: seq<Conn>, c: Conn)
    ensures forall f, pair :: Holds(conns, f, pair) ==> Holds(conns + [c], f, pair)
  {
    forall f, pair | Holds(conns, f, pair) ensures Holds(conns + [c], f, pair) {
      var i :| 0 <= i < |conns| && conns[i].fd == f && pair in conns[i].clients;
      assert (conns + [c])[i] == conns[i];
    }
  }

  lemma JoinConserved(s: System, fd: int)
    requires Conserved(s)
    ensures Honest(JoinStep(s, fd)) && Balanced(JoinStep(s, fd))
  {
    hide Held, OwnReleases;
    var t := JoinStep(s, fd);
    MoveSilent(s, Accept(s.proxy, fd));
    HeldConcat(s.proxy.conns, [Conn(fd, [])]);
    HeldOne(Conn(fd, []));
    assert Held(t.proxy.conns) == Held(s.proxy.conns);
    HoldsMore(s.proxy.conns, Conn(fd, []));
  }

  lemma ReplyGrants(granted: set<Pair>, all: multiset<Pair>, pair: Pair)
    requires multiset(granted) == all && pair !in granted
    ensures multiset(granted + {pair}) == all + multiset{pair}
  {
    assert multiset(granted + {pair}) == multiset(granted) + multiset{pair};
  }

  lemma ReplyReturns(granted: set<Pair>, all: multiset<Pair>, pair: Pair)
    requires multiset(granted) == all && pair in all
    ensures multiset(granted - {pair}) + multiset{pair} == all
    ensures multiset(granted - {pair}) == all - multiset{pair}
  {
    assert pair in multiset(granted);
  }

  /** The modem's ledger with nothing in transit. */
  lemma NoneInTransit(s: System)
    requires Balanced(s) && s.outbox == []
    ensures multiset(s.granted) == Held(s.proxy.conns) + OwnReleases(s.proxy.log.queue, s.proxy.serverFd)
  {
    var none: multiset<Pair> := multiset{};
    assert Returning(s) == none && Granting(s) == none;
    assert multiset(s.granted) == multiset(s.granted) + none;
  }

  /** The modem's ledger after it answers the head of the queue. */
  lemma ReplyBalanced(s: System, t: System, req: CtlReq, rsp: Bytes)
    requires Balanced(s) && s.outbox == [] && s.proxy.log.queue != [] && req == s.proxy.log.queue[0]
    requires t.proxy == s.proxy && t.outbox == [Answer(req, rsp)] && t.granted == Regrant(s.granted, req, rsp)
    requires Grants(Answer(req, rsp)) ==> RspPair(rsp) !in s.granted
    requires Returns(Answer(req, rsp)) ==> RspPair(rsp) == ReqPair(req.msg)
    requires Returns(Answer(req, rsp)) && req.fd != s.proxy.serverFd ==> RspPair(rsp) in Held(s.proxy.conns)
    requires req.fd == s.proxy.serverFd ==> Returns(Answer(req, rsp))
    ensures Balanced(t)
  {
    hide Held, OwnReleases;
    var q, pair := s.proxy.log.queue, RspPair(rsp);
    var held, own := Held(s.proxy.conns), OwnReleases(q[1..], s.proxy.serverFd);
    var none: multiset<Pair> := multiset{};
    NoneInTransit(s);
    OwnReleasesHead(q, s.proxy.serverFd);
    assert Unanswered(t) == q[1..];
    if req.fd == s.proxy.serverFd {
      ReplyReturns(s.granted, held + (multiset{pair} + own), pair);
      assert Returning(t) == none && Granting(t) == none;
      assert multiset(t.granted) + none == held + own + none;
    } else {
      assert none + own == own;
      if Grants(Answer(req, rsp)) {
        ReplyGrants(s.granted, held + own, pair);
        assert multiset(t.granted) + none == held + own + multiset{pair};
      } else if Returns(Answer(req, rsp)) {
        ReplyReturns(s.granted, held + own, pair);
        assert multiset(t.granted) + multiset{pair} == held + own + none;
      } else {
        assert multiset(t.granted) + none == held + own + none;
      }
    }
  }

  lemma ReplyConserved(s: System, rsp: Bytes)
    requires Conserved(s) && Careful(s, Reply(rsp))
    ensures Honest(ReplyStep(s, rsp)) && Balanced(ReplyStep(s, rsp))
  {
    var req := s.inbox[0];
    if Returns(Answer(req, rsp)) && req.fd != s.proxy.serverFd {
      assert Holds(s.proxy.conns, req.fd, ReqPair(req.msg));
      HoldsIsHeld(s.proxy.conns, req.fd, ReqPair(req.msg));
    }
    ReplyBalanced(s, ReplyStep(s, rsp), req, rsp);
  }

  lemma RefusalUnbalances(s: System, t: System, req: CtlReq, rsp: Bytes)
    requires Balanced(s) && s.outbox == [] && s.proxy.log.queue != [] && req == s.proxy.log.queue[0]
    requires req.fd == s.proxy.serverFd && CtlKind(req.msg) == QMICTL_RELEASE_CLIENT_ID && !RspOk(rsp)
    requires t.proxy == s.proxy && t.outbox == [Answer(req, rsp)] && t.granted == s.granted
    ensures !Balanced(t)
  {
    hide Held, OwnReleases;
    var q, pair := s.proxy.log.queue, ReqPair(req.msg);
    var held, own := Held(s.proxy.conns), OwnReleases(q[1..], s.proxy.serverFd);
    var none: multiset<Pair> := multiset{};
    NoneInTransit(s);
    OwnReleasesHead(q, s.proxy.serverFd);
    assert Unanswered(t) == q[1..] && Returning(t) == none && Granting(t) == none;
    assert (held + (multiset{pair} + own))[pair] == (held + own)[pair] + 1;
    assert (multiset(t.granted) + none)[pair] != (held + own + none)[pair];
  }

  /** A release that the proxy asks for keeps the balance exactly when the modem does not refuse it: the proxy forgets
      the pair either way. */
  lemma OwnReleaseBalancedExactly(s: System, rsp: Bytes)
    requires Conserved(s) && Possible(s, Reply(rsp)) && s.inbox[0].fd == s.proxy.serverFd
    requires RspOk(rsp) ==> RspPair(rsp) == ReqPair(s.inbox[0].msg)
    ensures Balanced(ReplyStep(s, rsp)) <==> RspOk(rsp)
  {
    var req := s.inbox[0];
    if RspOk(rsp) {
      ReplyBalanced(s, ReplyStep(s, rsp), req, rsp);
    } else {
      RefusalUnbalances(s, ReplyStep(s, rsp), req, rsp);
    }
  }

  lemma {:induction false} RemovePairCount(clients: seq<Pair>, pair: Pair)
    requires pair in clients
    ensures multiset(RemovePair(clients, pair)) + multiset{pair} == multiset(clients)
  {
    assert clients == [clients[0]] + clients[1..];
    if clients[0] != pair {
      RemovePairCount(clients[1..], pair);
    }
  }

  /** Noting a response changes one connection's pairs by what the answer grants or takes back. */
  lemma NoteResponsePairs(s: System, clients: seq<Pair>)
    requires s.outbox != [] && Answers(s.outbox[0].req.msg, s.outbox[0].rsp)
    requires s.outbox[0].req.fd != s.proxy.serverFd
    requires Returns(s.outbox[0]) ==> RspPair(s.outbox[0].rsp) in clients
    ensures multiset(NoteResponse(clients, s.outbox[0].rsp)) + Returning(s) == multiset(clients) + Granting(s)
  {
    var rsp := s.outbox[0].rsp;
    if Grants(s.outbox[0]) {
      assert multiset(clients + [RspPair(rsp)]) == multiset(clients) + multiset{RspPair(rsp)};
    } else if Returns(s.outbox[0]) {
      RemovePairCount(clients, RspPair(rsp));
    }
  }

  lemma SwapParts<T>(after: multiset<T>, before: multiset<T>, c: multiset<T>, d: multiset<T>, r: multiset<T>, g: multiset<T>)
    requires after + c == before + d && d + r == c + g
    ensures after + r == before + g
  {
    forall x ensures (after + r)[x] == (before + g)[x] {
      assert (after + c)[x] == (before + d)[x] && (d + r)[x] == (c + g)[x];
    }
  }

  lemma ReadHeld(s: System)
    requires Conserved(s) && s.outbox != [] && s.outbox[0].req.fd != s.proxy.serverFd
    ensures var conns := NoteAll(s.proxy.conns, s.outbox[0].req.fd, s.outbox[0].rsp);
            Held(conns) + Returning(s) == Held(s.proxy.conns) + Granting(s)
  {
    hide Held, OwnReleases;
    var req, rsp := s.outbox[0].req, s.outbox[0].rsp;
    assert req == s.proxy.log.queue[0];
    var i :| 0 <= i < |s.proxy.conns| && s.proxy.conns[i].fd == req.fd;
    var c := s.proxy.conns[i];
    var d := NoteConn(c, req.fd, rsp);
    assert NoteAll(s.proxy.conns, req.fd, rsp) == s.proxy.conns[i := d];
    HeldUpdate(s.proxy.conns, i, d);
    if Returns(s.outbox[0]) {
      assert Holds(s.proxy.conns, req.fd, RspPair(rsp));
    }
    NoteResponsePairs(s, c.clients);
    assert d.clients == NoteResponse(c.clients, rsp);
    SwapParts(Held(s.proxy.conns[i := d]), Held(s.proxy.conns),
              multiset(c.clients), multiset(d.clients), Returning(s), Granting(s));
  }

  lemma ReadBalanced(s: System, t: System)
    requires Balanced(s) && s.outbox != [] && s.proxy.log.queue != []
    requires t.outbox == [] && t.granted == s.granted && t.proxy.serverFd == s.proxy.serverFd
    requires t.proxy.log.queue == s.proxy.log.queue[1..]
    requires Held(t.proxy.conns) + Returning(s) == Held(s.proxy.conns) + Granting(s)
    ensures Balanced(t)
  {
    var own := OwnReleases(s.proxy.log.queue[1..], s.proxy.serverFd);
    var none: multiset<Pair> := multiset{};
    ReadSums(multiset(s.granted), Returning(s), Held(s.proxy.conns), Held(t.proxy.conns), own, Granting(s));
    assert Returning(t) == none && Granting(t) == none;
    assert multiset(s.granted) + none == Held(t.proxy.conns) + own + none;
  }

  lemma ReadSums<T>(granted: multiset<T>, r: multiset<T>, before: multiset<T>, after: multiset<T>, own: multiset<T>,
                    g: multiset<T>)
    requires granted + r == before + own + g && after + r == before + g
    ensures granted == after + own
  {
    forall x ensures granted[x] == (after + own)[x] {
      assert (granted + r)[x] == (before + own + g)[x] && (after + r)[x] == (before + g)[x];
    }
  }

  lemma ReadChangesHeld(s: System)
    requires Conserved(s) && s.outbox != []
    ensures Held(ReadConns(s)) + Returning(s) == Held(s.proxy.conns) + Granting(s)
  {
    if s.outbox[0].req.fd != s.proxy.serverFd {
      ReadHeld(s);
    } else {
      assert s.proxy.log.queue[0].fd == s.proxy.serverFd;
    }
  }

  lemma ReadConserved(s: System)
    requires Conserved(s) && s.outbox != []
    ensures Honest(ReadStep(s)) && Balanced(ReadStep(s))
  {
    assert s.outbox[0].req == s.proxy.log.queue[0];
    ReadParts(s);
    ReadChangesHeld(s);
    ReadBalanced(s, ReadStep(s));
    ReadHonest(s, ReadStep(s));
  }

  lemma ReadHonest(s: System, t: System)
    requires Conserved(s) && s.outbox != [] && t.outbox == []
    requires t.proxy.serverFd == s.proxy.serverFd && t.proxy.log.queue == s.proxy.log.queue[1..]
    requires t.proxy.conns == ReadConns(s)
    ensures Honest(t)
  {
    var q := s.proxy.log.queue;
    assert forall k :: 0 <= k < |t.proxy.log.queue| ==> t.proxy.log.queue[k] == q[k + 1];
    forall k | 1 <= k < |q| && q[k].fd != s.proxy.serverFd && CtlKind(q[k].msg) == QMICTL_RELEASE_CLIENT_ID
      ensures Holds(t.proxy.conns, q[k].fd, ReqPair(q[k].msg))
    {
      var i :| 0 <= i < |s.proxy.conns| && s.proxy.conns[i].fd == q[k].fd && ReqPair(q[k].msg) in s.proxy.conns[i].clients;
      assert q[0].fd != q[k].fd;
      assert t.proxy.conns[i] == s.proxy.conns[i];
    }
  }

  lemma LeaveConserved(s: System, fd: int)
    requires Conserved(s) && Connected(s, fd) && Idle(s, fd)
    ensures Honest(LeaveStep(s, fd)) && Balanced(LeaveStep(s, fd))
  {
    var i, reqs := LeaveIdle(s, fd);
    LeaveBalanced(s, LeaveStep(s, fd), i, reqs);
    LeaveHonest(s, LeaveStep(s, fd), i, reqs, s.proxy.conns[i].clients);
  }

  lemma LeaveBalanced(s: System, t: System, i: nat, reqs: seq<CtlReq>)
    requires Balanced(s) && i < |s.proxy.conns| && (s.outbox != [] ==> s.proxy.log.queue != [])
    requires reqs == ReleaseReqs(|s.proxy.log.accepted|, s.proxy.serverFd, s.proxy.conns[i].clients)
    requires t.proxy.serverFd == s.proxy.serverFd && t.outbox == s.outbox && t.granted == s.granted
    requires t.proxy.log.queue == s.proxy.log.queue + reqs
    requires t.proxy.conns == s.proxy.conns[..i] + s.proxy.conns[i + 1..]
    ensures Balanced(t)
  {
    hide Held, OwnReleases;
    var own := OwnReleases(Unanswered(s), s.proxy.serverFd);
    var clients := multiset(s.proxy.conns[i].clients);
    assert Unanswered(t) == Unanswered(s) + reqs;
    OwnReleasesConcat(Unanswered(s), reqs, s.proxy.serverFd);
    ReleaseReqsGiveBack(|s.proxy.log.accepted|, s.proxy.serverFd, s.proxy.conns[i].clients);
    HeldRemove(s.proxy.conns, i);
    MoveAcross(Held(t.proxy.conns), clients, own);
  }

  lemma MoveAcross<T>(held: multiset<T>, c: multiset<T>, own: multiset<T>)
    ensures held + c + own == held + (own + c)
  {
  }

  lemma OthersHold(conns: seq<Conn>, i: nat)
    requires i < |conns|
    ensures forall f, pair :: Holds(conns, f, pair) && f != conns[i].fd ==> Holds(conns[..i] + conns[i + 1..], f, pair)
  {
    var rest := conns[..i] + conns[i + 1..];
    forall f, pair | Holds(conns, f, pair) && f != conns[i].fd ensures Holds(rest, f, pair) {
      var c :| 0 <= c < |conns| && conns[c].fd == f && pair in conns[c].clients;
      assert rest[if c < i then c else c - 1] == conns[c];
    }
  }

  lemma LeaveHonest(s: System, t: System, i: nat, reqs: seq<CtlReq>, clients: seq<Pair>)
    requires Conserved(s) && i < |s.proxy.conns| && Idle(s, s.proxy.conns[i].fd)
    requires reqs == ReleaseReqs(|s.proxy.log.accepted|, s.proxy.serverFd, clients)
    requires t.proxy.serverFd == s.proxy.serverFd && t.outbox == s.outbox
    requires t.proxy.log.queue == s.proxy.log.queue + reqs
    requires t.proxy.conns == s.proxy.conns[..i] + s.proxy.conns[i + 1..]
    ensures Honest(t)
  {
    forall j | 0 <= j < |reqs| ensures CtlKind(reqs[j].msg) == QMICTL_RELEASE_CLIENT_ID {
      ReleaseMsgFields(clients[j]);
    }
    OthersHold(s.proxy.conns, i);
    hide Holds;
  }

  lemma QuietConserved(s: System, msg: Bytes)
    requires Conserved(s) && !IsCtlResponse(msg)
    ensures Honest(IndicateStep(s, msg)) && Balanced(IndicateStep(s, msg))
  {
    IndicateQuiet(s, msg);
  }

  lemma NextConserved(s: System, a: Action)
    requires Conserved(s) && Careful(s, a)
    ensures Conserved(Next(s, a))
  {
    NextFifo(s, a);
    match a
    case Join(fd) => JoinConserved(s, fd);
    case Say(fd, msg) => SayConserved(s, fd, msg);
    case Reply(rsp) => ReplyConserved(s, rsp);
    case Read => ReadConserved(s);
    case Indicate(msg) => QuietConserved(s, msg);
    case Leave(fd) => LeaveConserved(s, fd);
  }

  // ---- whole runs ----

  ghost predicate CarefulRun(serverFd: int, actions: seq<Action>, states: seq<System>) {
    && PoliteRun(serverFd, actions, states)
    && forall i :: 0 <= i < |actions| ==> Careful(states[i], actions[i])
  }

  lemma BootBalanced(s: System)
    requires s.proxy.conns == [] && s.proxy.log.queue == [] && s.outbox == [] && s.granted == {}
    ensures Balanced(s)
  {
    var none: multiset<Pair> := multiset{};
    assert multiset(s.granted) == none;
    assert none + none == none + none + none;
  }

  lemma BootConserved(serverFd: int)
    requires serverFd != -1
    ensures Conserved(Boot(serverFd))
  {
    BootBalanced(Boot(serverFd));
  }

  lemma {:induction false} RunConserved(serverFd: int, actions: seq<Action>, states: seq<System>, k: nat)
    requires CarefulRun(serverFd, actions, states) && k < |states|
    ensures Conserved(states[k])
  {
    if k == 0 {
      BootConserved(serverFd);
    } else {
      RunConserved(serverFd, actions, states, k - 1);
      var s, t := states[k - 1], states[k];
      assert Careful(s, actions[k - 1]) && t == Next(s, actions[k - 1]);
      NextConserved(s, actions[k - 1]);
    }
  }

  /** In every state of every such run: the pairs out at the modem, with one a client is just giving back, are exactly
      the pairs held, those the proxy is about to give back and one on its way; none is there twice. */
  lemma {:induction false} ClientIdsConserved(serverFd: int, actions: seq<Action>, states: seq<System>, k: nat)
    requires CarefulRun(serverFd, actions, states) && k < |states|
    ensures var s := states[k];
            var all := Held(s.proxy.conns) + OwnReleases(Unanswered(s), serverFd) + Granting(s);
            && multiset(s.granted) + Returning(s) == all
            && (forall pair :: pair in Returning(s) ==> pair !in s.granted)
            && (forall pair :: all[pair] <= 1)
            && (s.outbox == [] ==>
                  multiset(s.granted) == Held(s.proxy.conns) + OwnReleases(s.proxy.log.queue, serverFd))
            && (s.proxy.log.queue == [] ==> multiset(s.granted) == Held(s.proxy.conns))
  {
    RunConserved(serverFd, actions, states, k);
    RunFifo(serverFd, actions, states, k);
    var s := states[k];
    var all := Held(s.proxy.conns) + OwnReleases(Unanswered(s), serverFd) + Granting(s);
    forall pair ensures all[pair] <= 1 {
      assert (multiset(s.granted) + Returning(s))[pair] == all[pair];
    }
    if s.outbox == [] {
      assert multiset(s.granted) == multiset(s.granted) + Returning(s);
      assert all == Held(s.proxy.conns) + OwnReleases(Unanswered(s), serverFd);
    }
    if s.proxy.log.queue == [] {
      assert Held(s.proxy.conns) + OwnReleases([], serverFd) == Held(s.proxy.conns);
    }
  }

  // ---- who gets a service message ----

  lemma {:induction false} ConnWritesCount(fd: int, clients: seq<Pair>, msg: Bytes)
    requires ClientId(msg) != 0
    ensures |ConnWrites(fd, clients, msg)| == multiset(clients)[Pair(QmiType(msg), ClientId(msg))]
    ensures forall i :: 0 <= i < |ConnWrites(fd, clients, msg)| ==> ConnWrites(fd, clients, msg)[i] == ClientWrite(fd, msg)
  {
    if clients != [] {
      hide At;
      var n := |clients| - 1;
      ConnWritesCount(fd, clients[..n], msg);
      assert Hits(clients[n], msg) <==> clients[n] == Pair(QmiType(msg), ClientId(msg));
      hide Hits;
      assert clients == clients[..n] + [clients[n]];
      assert multiset(clients) == multiset(clients[..n]) + multiset{clients[n]};
    }
  }

  /** A service message with a client id goes out once for every time its pair is held. */
  lemma {:induction false} ServiceWritesCount(conns: seq<Conn>, msg: Bytes)
    requires ClientId(msg) != 0
    ensures |ServiceWrites(conns, msg)| == Held(conns)[Pair(QmiType(msg), ClientId(msg))]
    ensures forall i :: 0 <= i < |ServiceWrites(conns, msg)| ==>
              exists c :: 0 <= c < |conns| && Pair(QmiType(msg), ClientId(msg)) in conns[c].clients
                          && ServiceWrites(conns, msg)[i] == ClientWrite(conns[c].fd, msg)
  {
    if conns != [] {
      var n := |conns| - 1;
      ServiceWritesCount(conns[..n], msg);
      ConnWritesCount(conns[n].fd, conns[n].clients, msg);
      var writes := ServiceWrites(conns, msg);
      forall i | 0 <= i < |writes|
        ensures exists c :: 0 <= c < |conns| && Pair(QmiType(msg), ClientId(msg)) in conns[c].clients
                            && writes[i] == ClientWrite(conns[c].fd, msg)
      {
        if i < |ServiceWrites(conns[..n], msg)| {
          var c :| 0 <= c < n && Pair(QmiType(msg), ClientId(msg)) in conns[..n][c].clients
                   && ServiceWrites(conns[..n], msg)[i] == ClientWrite(conns[..n][c].fd, msg);
          assert conns[c] == conns[..n][c];
        } else {
          assert writes[i] == ConnWrites(conns[n].fd, conns[n].clients, msg)[i - |ServiceWrites(conns[..n], msg)|];
        }
      }
    }
  }

  /** In every such run a service message with a client id reaches exactly the connection that holds its pair, once;
      when no connection holds the pair it reaches nobody. */
  lemma ServiceMessageReachesItsOwner(
    serverFd: int, actions: seq<Action>, states: seq<System>, k: nat, msg: Bytes)
    requires CarefulRun(serverFd, actions, states) && k < |states|
    requires !IsCtl(msg) && ClientId(msg) != 0
    ensures var p := states[k].proxy;
            var pair := Pair(QmiType(msg), ClientId(msg));
            var writes := FromDevice(p, msg).log.effects[|p.log.effects|..];
            && |writes| <= 1
            && (writes == [] <==> pair !in Held(p.conns))
            && (forall c :: 0 <= c < |p.conns| && pair in p.conns[c].clients ==> writes == [ClientWrite(p.conns[c].fd, msg)])
  {
    hide Held, OwnReleases, ServiceWrites;
    ClientIdsConserved(serverFd, actions, states, k);
    RunFifo(serverFd, actions, states, k);
    var p := states[k].proxy;
    var pair := Pair(QmiType(msg), ClientId(msg));
    ServiceWritesCount(p.conns, msg);
    assert FromDevice(p, msg).log.effects[|p.log.effects|..] == ServiceWrites(p.conns, msg);
    var all := Held(p.conns) + OwnReleases(Unanswered(states[k]), serverFd) + Granting(states[k]);
    assert Held(p.conns)[pair] <= all[pair];
    forall c | 0 <= c < |p.conns| && pair in p.conns[c].clients
      ensures ServiceWrites(p.conns, msg) == [ClientWrite(p.conns[c].fd, msg)]
    {
      assert Holds(p.conns, p.conns[c].fd, pair);
      HoldsIsHeld(p.conns, p.conns[c].fd, pair);
      var w := ServiceWrites(p.conns, msg);
      var d :| 0 <= d < |p.conns| && pair in p.conns[d].clients && w[0] == ClientWrite(p.conns[d].fd, msg);
      if c != d {
        HeldTwice(p.conns, c, d, pair);
      }
    }
  }

  lemma {:induction false} HeldTwice(conns: seq<Conn>, c: nat, d: nat, pair: Pair)
    requires c < |conns| && d < |conns| && c != d && pair in conns[c].clients && pair in conns[d].clients
    ensures Held(conns)[pair] >= 2
  {
    HeldRemove(conns, c);
    var rest := conns[..c] + conns[c + 1..];
    assert rest[if d < c then d else d - 1] == conns[d];
    assert Holds(rest, conns[d].fd, pair);
    HoldsIsHeld(rest, conns[d].fd, pair);
  }
}
