/** The optional reassembly of modem messages that arrive in fragments of at most 56 bytes. */
module QmiReassembly {
  import Memory
  import opened Wire

  const IDENTITY: u16 := 0x2c7c
  const VERSION: u16 := 0x0001
  const MAX_PAYLOAD := 56
  const CAPACITY := 4096

  /** sizeof(QMI_MSG_HEADER): identity, version, length of this fragment, length of the whole message. */
  const HEADER := 8

  function CurLen(b: Bytes): u16 { Le16At(b, 4) }
  function TotalLen(b: Bytes): u16 { Le16At(b, 6) }

  predicate Accepts(b: Bytes, size: nat) {
    size % 0x1_0000 >= HEADER && Le16At(b, 0) == IDENTITY && Le16At(b, 2) == VERSION && CurLen(b) <= TotalLen(b)
  }

  /** A fragment that is the whole message replaces what was collected; any other is added, and the message is complete
      when the fragment is a short one or the announced length is reached. */
  function MergeAccepted(acc: Bytes, payload: Bytes, cur: u16, total: u16): (Bytes, Option<Bytes>) {
    if cur == total then ([], Some(payload))
    else if cur < MAX_PAYLOAD || |acc| + cur >= total then ([], Some(acc + payload))
    else (acc + payload, None)
  }

  /** The bytes collected so far after a packet, and the message it completes. */
  function Merge(acc: Bytes, b: Bytes, size: nat): (Bytes, Option<Bytes>)
    requires Accepts(b, size) ==> HEADER + CurLen(b) <= |b|
  {
    if !Accepts(b, size) then (acc, None)
    else MergeAccepted(acc, b[HEADER..HEADER + CurLen(b)], CurLen(b), TotalLen(b))
  }

  class Reassembler {
    const data: array<byte>
    var len: nat

    ghost predicate Valid()
      reads this
    {
      data.Length == CAPACITY && len <= CAPACITY
    }

    ghost function Collected(): Bytes
      requires Valid()
      reads this, data
    {
      data[..len]
    }

    constructor ()
      ensures Valid() && fresh(data) && Collected() == []
    {
      data := new byte[CAPACITY](_ => 0);
      len := 0;
    }

    /** A fragment that is a whole message: drop its header. */
    method TakeWhole(buf: array<byte>, total: nat)
      requires Valid() && buf != data && HEADER + total <= buf.Length
      modifies `len, buf
      ensures Valid() && Collected() == [] && buf[..total] == old(buf[HEADER..HEADER + total])
    {
      Memory.Copy(buf, 0, buf, HEADER, total);
      len := 0;
      assert buf[..total] == buf[0..0 + total];
    }

    /** Add a fragment to what was collected. */
    method Append(buf: array<byte>, cur: nat)
      requires Valid() && buf != data && HEADER + cur <= buf.Length && len + cur <= CAPACITY
      modifies `len, data
      ensures Valid() && Collected() == old(Collected() + buf[HEADER..HEADER + cur])
    {
      ghost var acc, payload := Collected(), buf[HEADER..HEADER + cur];
      Memory.Copy(data, len, buf, HEADER, cur);
      assert data[..len + cur] == data[..len] + data[len..len + cur] == acc + payload;
      len := len + cur;
    }

    /** Put what was collected into the read buffer and start over. */
    method TakeCollected(buf: array<byte>) returns (size: nat)
      requires Valid() && buf != data && CAPACITY <= buf.Length
      modifies `len, buf
      ensures Valid() && Collected() == [] && size <= buf.Length && buf[..size] == old(Collected())
    {
      size := len;
      Memory.Copy(buf, 0, data, 0, len);
      len := 0;
      assert buf[..size] == buf[0..0 + size] && data[..size] == data[0..0 + size];
    }

    /** merge_qmi_rsp_packet, on the read buffer and the number of bytes read into it; the new size matters when ret is
        0. It relies on its sender for the fragment lying in the buffer and the collected bytes fitting theirs. */
    method MergePacket(buf: array<byte>, size: nat) returns (ret: int, newSize: nat)
      requires Valid() && buf != data && size <= buf.Length && CAPACITY <= buf.Length
      requires Accepts(buf[..], size) ==>
                 HEADER + CurLen(buf[..]) <= buf.Length
                 && (CurLen(buf[..]) < TotalLen(buf[..]) ==> len + CurLen(buf[..]) <= CAPACITY)
      modifies this, data, buf
      ensures Valid() && newSize <= buf.Length
      ensures ret == 0 || ret == -1
      ensures (Collected(), if ret == 0 then Some(buf[..newSize]) else None)
              == old(Merge(Collected(), buf[..], size))
    {
      ghost var acc, b := Collected(), buf[..];
      ghost var merged := Merge(acc, b, size);
      newSize := size;
      if size % 0x1_0000 < HEADER {
        return -1, size;
      }
      var identity, version := Word(buf[0], buf[1]), Word(buf[2], buf[3]);
      var cur, total := Word(buf[4], buf[5]), Word(buf[6], buf[7]);
      assert identity == Le16At(b, 0) && version == Le16At(b, 2) && cur == CurLen(b) && total == TotalLen(b);
      if identity != IDENTITY || version != VERSION || cur > total {
        return -1, size;
      }
      ghost var payload := b[HEADER..HEADER + cur];
      assert buf[HEADER..HEADER + cur] == payload;
      assert merged == MergeAccepted(acc, payload, cur, total);
      hide At, Le16At, Word, Merge, Accepts, CurLen, TotalLen;
      if cur == total {
        TakeWhole(buf, total);
        return 0, total;
      }
      Append(buf, cur);
      if cur < MAX_PAYLOAD || len >= total {
        newSize := TakeCollected(buf);
        return 0, newSize;
      }
      return -1, size;
    }
  }

  // ---- messages cut into fragments ----

  type Message = m: Bytes | |m| <= 4096

  predicate Readable(b: Bytes) {
    Accepts(b, |b|) ==> HEADER + CurLen(b) <= |b|
  }

  type Packet = b: Bytes | Readable(b)

  function Fragment(chunk: Message, total: u16): (b: Packet)
    requires |chunk| <= total
    ensures |b| == HEADER + |chunk| && Accepts(b, |b|) && CurLen(b) == |chunk| && TotalLen(b) == total
    ensures b[HEADER..HEADER + |chunk|] == chunk
  {
    var b: Bytes := FragmentHeader(|chunk|, total) + chunk;
    FragmentFields(b, |chunk|, total, chunk);
    b
  }

  function FragmentHeader(cur: u16, total: u16): (h: Bytes)
    ensures |h| == HEADER
  {
    Le16(IDENTITY) + Le16(VERSION) + Le16(cur) + Le16(total)
  }

  lemma FragmentFields(b: Bytes, cur: u16, total: u16, chunk: Bytes)
    requires b == FragmentHeader(cur, total) + chunk
    ensures Le16At(b, 0) == IDENTITY && Le16At(b, 2) == VERSION && CurLen(b) == cur && TotalLen(b) == total
  {
    var h := FragmentHeader(cur, total);
    assert forall i :: 0 <= i < HEADER ==> At(b, i) == h[i];
  }

  /** Fragments of 56 bytes with a shorter or equal last one, each saying the length of the whole message. */
  function Cut(rest: Message, total: u16): seq<Packet>
    requires |rest| <= total
  {
    if |rest| <= MAX_PAYLOAD then [Fragment(rest, total)]
    else [Fragment(rest[..MAX_PAYLOAD], total)] + Cut(rest[MAX_PAYLOAD..], total)
  }

  function CutAll(messages: seq<Message>): seq<Packet> {
    if messages == [] then [] else Cut(messages[0], |messages[0]|) + CutAll(messages[1..])
  }

  /** The messages that come out of feeding packets in turn, starting from the bytes collected so far. */
  function Feed(acc: Bytes, packets: seq<Packet>): (Bytes, seq<Bytes>)
    decreases |packets|
  {
    if packets == [] then (acc, [])
    else
      var (acc1, done) := Merge(acc, packets[0], |packets[0]|);
      var (acc2, more) := Feed(acc1, packets[1..]);
      (acc2, (if done.Some? then [done.value] else []) + more)
  }

  /** The collected bytes fit their buffer before and after every packet. */
  ghost predicate Fits(acc: Bytes, packets: seq<Packet>)
    decreases |packets|
  {
    && |acc| <= CAPACITY
    && (packets != [] ==> |acc| + CurLen(packets[0]) <= CAPACITY && Fits(Merge(acc, packets[0], |packets[0]|).0, packets[1..]))
  }

  /** A fragment completes the message when nothing of it is left to come. */
  lemma MergeFragment(acc: Bytes, chunk: Message, total: u16)
    requires |acc| + |chunk| <= total && |chunk| <= MAX_PAYLOAD && (acc != [] ==> chunk != [])
    requires |acc| + |chunk| == total || |chunk| == MAX_PAYLOAD
    ensures var b := Fragment(chunk, total);
            Merge(acc, b, |b|) ==
            if |acc| + |chunk| == total then ([], Some(acc + chunk)) else (acc + chunk, None)
  {
    AppendNone(chunk);
  }

  /** Feeding the fragments of what is left of a message completes the message and nothing else, whatever follows. */
  lemma {:induction false} FeedCut(acc: Bytes, rest: Message, total: u16, tail: seq<Packet>)
    requires total == |acc| + |rest| <= CAPACITY && (acc != [] ==> rest != [])
    ensures Feed(acc, Cut(rest, total) + tail) == (Feed([], tail).0, [acc + rest] + Feed([], tail).1)
    ensures Fits([], tail) ==> Fits(acc, Cut(rest, total) + tail)
    decreases |rest|
  {
    var packets := Cut(rest, total) + tail;
    if |rest| <= MAX_PAYLOAD {
      MergeFragment(acc, rest, total);
      assert packets[0] == Fragment(rest, total) && packets[1..] == tail;
    } else {
      var chunk, left := rest[..MAX_PAYLOAD], rest[MAX_PAYLOAD..];
      MergeFragment(acc, chunk, total);
      assert packets[0] == Fragment(chunk, total) && packets[1..] == Cut(left, total) + tail;
      FeedCut(acc + chunk, left, total, tail);
      AppendAssoc(acc, chunk, left);
      assert chunk + left == rest;
      AppendNone(Feed(acc + chunk, packets[1..]).1);
    }
  }

  /** Cutting messages into fragments and feeding the fragments gives back exactly the messages, in order; the buffer is
      never overrun, and it is empty at the end. */
  lemma {:induction false} ReassemblyRoundTrip(messages: seq<Message>)
    ensures Feed([], CutAll(messages)) == ([], messages)
    ensures Fits([], CutAll(messages))
  {
    if messages != [] {
      ReassemblyRoundTrip(messages[1..]);
      FeedCut([], messages[0], |messages[0]|, CutAll(messages[1..]));
      assert [] + messages[0] == messages[0] && [messages[0]] + messages[1..] == messages;
    }
  }

  /** The merge on bytes: identity 7c 2c and version 1 0, then the lengths of fragment and message. Anything else is
      refused and leaves what was collected. */
  lemma MergeExactly(acc: Bytes, b: Bytes, size: nat)
    requires Accepts(b, size) ==> HEADER + CurLen(b) <= |b|
    ensures var cur: nat, total: nat := At(b, 4) + 0x100 * At(b, 5) as int, At(b, 6) + 0x100 * At(b, 7) as int;
            var named := At(b, 0) == 0x7c && At(b, 1) == 0x2c && At(b, 2) == 1 && At(b, 3) == 0;
            if size % 0x1_0000 < 8 || !named || cur > total then Merge(acc, b, size) == (acc, None)
            else
              && 8 + cur <= |b|
              && var payload := b[8..8 + cur];
                 Merge(acc, b, size)
                 == if cur == total then ([], Some(payload))
                    else if cur < 56 || |acc| + cur >= total then ([], Some(acc + payload))
                    else (acc + payload, None)
  {
    hide At;
  }

  /** Whatever was lost before, a short fragment or a message in one fragment ends what was collected, and all messages
      behind it come out whole. */
  lemma {:induction false} ResumesBehindAnEnd(acc: Bytes, chunk: Message, total: u16, messages: seq<Message>)
    requires |chunk| <= total && |acc| + |chunk| <= CAPACITY && (|chunk| < 56 || |chunk| == total)
    ensures Feed(acc, [Fragment(chunk, total)] + CutAll(messages))
         == ([], [if |chunk| == total then chunk else acc + chunk] + messages)
    ensures Fits(acc, [Fragment(chunk, total)] + CutAll(messages))
  {
    ReassemblyRoundTrip(messages);
    var first, rest := Fragment(chunk, total), CutAll(messages);
    var packets := [first] + rest;
    assert packets[0] == first && packets[1..] == rest;
    hide CutAll, Fragment;
    assert Merge(acc, first, |first|) == ([], Some(if |chunk| == total then chunk else acc + chunk));
  }

  lemma {:induction false} CutSmall(rest: Message, total: u16)
    requires |rest| <= total
    ensures forall p :: p in Cut(rest, total) ==> |p| <= HEADER + MAX_PAYLOAD
  {
    if |rest| > MAX_PAYLOAD {
      CutSmall(rest[MAX_PAYLOAD..], total);
    }
  }

  lemma {:induction false} CutAllSmall(messages: seq<Message>)
    ensures forall p :: p in CutAll(messages) ==> |p| <= HEADER + MAX_PAYLOAD
  {
    if messages != [] {
      CutSmall(messages[0], |messages[0]|);
      CutAllSmall(messages[1..]);
    }
  }

  /** A packet is merged by its own bytes, whatever is left in the buffer behind them. */
  lemma MergeOwnBytes(acc: Bytes, b: Bytes, p: Packet)
    requires |p| <= |b| && b[..|p|] == p && |p| < 0x1_0000
    ensures Accepts(p, |p|) ==> HEADER + CurLen(b) <= |b| && CurLen(b) == CurLen(p) && TotalLen(b) == TotalLen(p)
    ensures Accepts(p, |p|) <==> Accepts(b, |p|)
    ensures Merge(acc, b, |p|) == Merge(acc, p, |p|)
  {
    if |p| >= HEADER {
      assert forall i :: 0 <= i < |p| ==> b[i] == p[i];
    }
    if Accepts(p, |p|) {
      assert b[HEADER..HEADER + CurLen(b)] == b[..|p|][HEADER..HEADER + CurLen(b)];
    }
  }

  /** One read of a packet into the buffer, and its merge. */
  method ReadOne(r: Reassembler, buf: array<byte>, p: Packet) returns (message: Option<Bytes>)
    requires r.Valid() && buf != r.data && CAPACITY == buf.Length && |p| <= HEADER + MAX_PAYLOAD
    requires r.len + CurLen(p) <= CAPACITY
    modifies r, r.data, buf
    ensures r.Valid()
    ensures (r.Collected(), message) == old(Merge(r.Collected(), p, |p|))
  {
    forall j | 0 <= j < |p| {
      buf[j] := p[j];
    }
    assert buf[..][..|p|] == p;
    MergeOwnBytes(r.Collected(), buf[..], p);
    var ret, size := r.MergePacket(buf, |p|);
    message := if ret == 0 then Some(buf[..size]) else None;
  }

  /** The read loop of the proxy over a modem that sends messages in fragments. */
  method ReadAll(r: Reassembler, packets: seq<Packet>, ghost messages: seq<Message>) returns (out: seq<Bytes>)
    requires r.Valid() && r.Collected() == [] && packets == CutAll(messages)
    modifies r, r.data
    ensures r.Valid() && r.Collected() == [] && out == messages
  {
    ReassemblyRoundTrip(messages);
    CutAllSmall(messages);
    var buf := new byte[CAPACITY](_ => 0);
    out := [];
    var rest := packets;
    while rest != []
      invariant r.Valid() && Fits(r.Collected(), rest)
      invariant forall p :: p in rest ==> |p| <= HEADER + MAX_PAYLOAD
      invariant Feed(r.Collected(), rest).0 == [] && out + Feed(r.Collected(), rest).1 == messages
      decreases |rest|
    {
      ghost var more := Feed(Merge(r.Collected(), rest[0], |rest[0]|).0, rest[1..]).1;
      var message := ReadOne(r, buf, rest[0]);
      AppendNone(more);
      if message.Some? {
        AppendAssoc(out, [message.value], more);
        out := out + [message.value];
      }
      rest := rest[1..];
    }
    AppendNone(out);
  }
}
