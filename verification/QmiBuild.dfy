/** The messages that the connection manager composes: transaction ids, and the TLV lists built in a zeroed buffer. */
module QmiBuild {
  import opened Wire
  import opened QmiTlv

  // ---- what is to be sent ----

  /** A C string without its terminator. */
  type Text = s: Bytes | 0 !in s

  /** The fields of the profile that the builders read; integers are stored into bytes by truncation. */
  datatype Settings = Settings(
    apn: Option<Text>, user: Option<Text>, pd: Option<Text>, auth: int,
    ipType: int, ipFamily: int, index: int, idProduct: int,
    byApnName: int, byApnType: int, apnType: int)

  /** A TLV and how many bytes behind it its stores touch: a string's terminator, the rest of a BOOL. */
  datatype Item = Item(tlv: Tlv, spill: nat)

  function ByteItem(kind: byte, x: int): seq<Item> { [Item(Tlv(kind, [Byte(x)]), 0)] }
  function BoolItem(kind: byte, x: int): seq<Item> { if x == 0 then [] else [Item(Tlv(kind, [Byte(x)]), 3)] }
  function WordItem(kind: byte, x: int): seq<Item> { if x == 0 then [] else [Item(Tlv(kind, Le32(x)), 0)] }
  function TextItem(kind: byte, t: Option<Text>): seq<Item> {
    if t.None? then [] else [Item(Tlv(kind, t.value), 1)]
  }
  function AuthItem(kind: byte, s: Settings): seq<Item> {
    if s.user.Some? && s.pd.Some? then ByteItem(kind, s.auth) else []
  }

  /** WdsModifyProfileSettingsReq */
  function ModifyItems(s: Settings): seq<Item> {
    [Item(Tlv(0x01, [0, Byte(s.index)]), 0)]
    + ByteItem(0x11, s.ipType)
    + TextItem(0x14, s.apn)
    + TextItem(0x1B, s.user)
    + TextItem(0x1C, s.pd)
    + AuthItem(0x1D, s)
  }

  predicate Blank(t: Option<Text>) {
    t.None? || t.value == []
  }

  /** "ctnet@mycdma.cn" and "vnet.mobi" */
  const CDMA_USER: Text := [99, 116, 110, 101, 116, 64, 109, 121, 99, 100, 109, 97, 46, 99, 110]
  const CDMA_PD: Text := [118, 110, 101, 116, 46, 109, 111, 98, 105]
  const CHAP := 2

  function Effective(s: Settings, cdma: bool): Settings {
    if cdma && Blank(s.user) && Blank(s.pd) then s.(user := Some(CDMA_USER), pd := Some(CDMA_PD), auth := CHAP) else s
  }

  /** The product that is started by name or type of the APN. */
  const BY_APN := 0x0316

  function SessionItems(s: Settings, cdma: bool): seq<Item> {
    ByteItem(0x30, if cdma then 2 else 1)
    + TextItem(0x14, if cdma then None else s.apn)
    + TextItem(0x17, s.user)
    + TextItem(0x18, s.pd)
    + AuthItem(0x16, s)
    + ByteItem(0x19, s.ipFamily)
  }

  function ProfileItems(s: Settings, cdma: bool): seq<Item> {
    if s.idProduct != BY_APN then if s.index != 0 && !cdma then ByteItem(0x31, s.index) else []
    else BoolItem(0x3C, s.byApnName) + BoolItem(0x3D, s.byApnType) + WordItem(0x38, s.apnType)
  }

  /** WdsStartNwInterfaceReq */
  function StartItems(given: Settings, cdma: bool): seq<Item> {
    var s := Effective(given, cdma);
    SessionItems(s, cdma) + ProfileItems(s, cdma)
  }

  function Tlvs(items: seq<Item>): seq<Tlv> {
    if items == [] then [] else [items[0].tlv] + Tlvs(items[1..])
  }

  /** The room the items' TLVs take. */
  function Total(items: seq<Item>): nat {
    if items == [] then 0 else TLV_HDR + |items[0].tlv.value| + Total(items[1..])
  }

  /** One past the last byte that any of the items' stores touches. */
  function Reach(items: seq<Item>): nat {
    if items == [] then 0
    else
      var size := TLV_HDR + |items[0].tlv.value|;
      Max(size + items[0].spill, size + Reach(items[1..]))
  }

  function Max(a: nat, b: nat): nat {
    if a < b then b else a
  }

  /** WDM_DEFAULT_BUFSIZE, and where the TLVs of a message start in it */
  const BUFFER := 256
  const BODY := 13

  predicate FitsBuffer(items: seq<Item>) {
    BODY + Reach(items) <= BUFFER
  }

  // ---- sizes ----

  lemma {:induction false} Append(a: seq<Item>, b: seq<Item>)
    ensures Tlvs(a + b) == Tlvs(a) + Tlvs(b) && Total(a + b) == Total(a) + Total(b)
    ensures Reach(a + b) >= Total(a) + Reach(b)
  {
    if a == [] {
      AppendNone(b);
    } else {
      assert (a + b)[0] == a[0] && (a + b)[1..] == a[1..] + b;
      Append(a[1..], b);
    }
  }

  lemma {:induction false} ReachHolds(items: seq<Item>)
    ensures Total(items) <= Reach(items)
    ensures forall t :: t in Tlvs(items) ==> |t.value| <= Reach(items)
  {
    if items != [] {
      ReachHolds(items[1..]);
    }
  }

  /** One past the last byte that the k-th of the items' stores touches. */
  function EndOf(items: seq<Item>, k: nat): nat
    requires k < |items|
  {
    Total(items[..k]) + 3 + |items[k].tlv.value| + items[k].spill
  }

  lemma {:induction false} ReachExactly(items: seq<Item>, limit: nat)
    ensures Reach(items) <= limit <==> forall k :: 0 <= k < |items| ==> EndOf(items, k) <= limit
  {
    if items != [] {
      var size := 3 + |items[0].tlv.value|;
      var rest := items[1..];
      forall k | 0 <= k < |rest| ensures EndOf(items, k + 1) == size + EndOf(rest, k) {
        assert items[..k + 1][0] == items[0] && items[..k + 1][1..] == rest[..k];
      }
      assert EndOf(items, 0) == size + items[0].spill;
      if size <= limit {
        ReachExactly(rest, limit - size);
      }
      if forall k :: 0 <= k < |rest| ==> EndOf(rest, k) <= limit - size {
        forall k | 0 < k < |items| ensures EndOf(items, k) <= limit {
          assert EndOf(items, (k - 1) + 1) == size + EndOf(rest, k - 1);
        }
      }
      if forall k :: 0 <= k < |items| ==> EndOf(items, k) <= limit {
        forall k | 0 <= k < |rest| ensures EndOf(rest, k) <= limit - size {
          assert EndOf(items, k + 1) <= limit;
        }
      }
    }
  }

  /** Items fit exactly when every store stays in the 256 bytes. */
  lemma FitsExactly(items: seq<Item>)
    ensures FitsBuffer(items) <==> forall k :: 0 <= k < |items| ==> 13 + EndOf(items, k) <= 256
  {
    ReachExactly(items, 256 - 13);
  }

  /** The TLVs of items that fit. */
  function ListOf(items: seq<Item>): TlvList
    requires FitsBuffer(items)
  {
    ReachHolds(items);
    Tlvs(items)
  }

  lemma {:induction false} EncodedTotal(items: seq<Item>)
    requires FitsBuffer(items)
    ensures |Encode(ListOf(items))| == Total(items)
  {
    if items != [] {
      EncodedTotal(items[1..]);
      assert ListOf(items)[1..] == ListOf(items[1..]);
    }
  }

  lemma {:induction false} EncodeSplit(a: TlvList, b: TlvList)
    ensures (forall t :: t in a + b ==> |t.value| < 0x1_0000) && Encode(a + b) == Encode(a) + Encode(b)
    decreases |a|
  {
    if a == [] {
      AppendNone(b);
      AppendNone(Encode(b));
    } else {
      assert a[0] in a && forall t :: t in a[1..] ==> t in a;
      assert (a + b)[0] == a[0] && (a + b)[1..] == a[1..] + b;
      EncodeSplit(a[1..], b);
      AppendAssoc(EncodeTlv(a[0]), Encode(a[1..]), Encode(b));
    }
  }

  // ---- the builders in place ----

  /** The first items, all written, the next goes to at. */
  ghost predicate Built(buf: array<byte>, items: seq<Item>, at: nat)
    reads buf
  {
    && buf.Length == BUFFER && FitsBuffer(items) && at == BODY + Total(items) <= BUFFER
    && buf[BODY..at] == Encode(ListOf(items))
  }

  lemma {:induction false} BuiltMore(items: seq<Item>, more: Item)
    requires FitsBuffer(items + [more])
    ensures FitsBuffer(items) && FitsBuffer([more])
    ensures Total(items + [more]) == Total(items) + TLV_HDR + |more.tlv.value|
    ensures |more.tlv.value| < BUFFER
    ensures BODY + Total(items) + TLV_HDR + |more.tlv.value| + more.spill <= BUFFER
    ensures Encode(ListOf(items + [more])) == Encode(ListOf(items)) + EncodeTlv(more.tlv)
  {
    Append(items, [more]);
    ReachPrefix(items, [more]);
    assert Reach([more]) >= TLV_HDR + |more.tlv.value| + more.spill;
    EncodeSplit(ListOf(items), ListOf([more]));
    assert ListOf([more]) == [more.tlv] && Encode([more.tlv]) == EncodeTlv(more.tlv);
  }

  lemma {:induction false} ReachPrefix(a: seq<Item>, b: seq<Item>)
    ensures Reach(a) <= Reach(a + b)
  {
    if a != [] {
      assert (a + b)[0] == a[0] && (a + b)[1..] == a[1..] + b;
      ReachPrefix(a[1..], b);
    }
  }

  /** Byte by byte, as a string copy or a store of a word goes. */
  method Store(buf: array<byte>, at: nat, bytes: Bytes)
    requires at + |bytes| <= buf.Length
    modifies buf
    ensures buf[..at] == old(buf[..at]) && buf[at..at + |bytes|] == bytes
  {
    for i := 0 to |bytes|
      invariant buf[..at] == old(buf[..at]) && buf[at..at + i] == bytes[..i]
    {
      buf[at + i] := bytes[i];
      assert buf[at..at + i + 1] == buf[at..at + i] + [bytes[i]];
      assert bytes[..i + 1] == bytes[..i] + [bytes[i]];
    }
  }

  /** A header that states size, and stores behind it that may go further: a string with its terminator, or a BOOL. */
  method PutTlv(buf: array<byte>, at: nat, kind: byte, size: nat, stored: Bytes, ghost items: seq<Item>)
    returns (next: nat)
    requires size <= |stored| && Built(buf, items, at)
    requires FitsBuffer(items + [Item(Tlv(kind, stored[..size]), |stored| - size)])
    modifies buf
    ensures Built(buf, items + [Item(Tlv(kind, stored[..size]), |stored| - size)], next)
    ensures buf[..BODY] == old(buf[..BODY])
  {
    hide Encode, Total, Reach, FitsBuffer;
    ghost var more := Item(Tlv(kind, stored[..size]), |stored| - size);
    BuiltMore(items, more);
    next := at + TLV_HDR + size;
    ghost var was := buf[..];
    Store(buf, at, [kind] + Le16(size));
    ghost var headed := buf[..];
    Store(buf, at + TLV_HDR, stored);
    Spliced(was, headed, buf[..], at, [kind] + Le16(size), stored, size);
    assert buf[BODY..next] == buf[..][BODY..next];
    assert buf[..BODY] == buf[..][..BODY];
  }

  lemma Spliced(was: Bytes, headed: Bytes, now: Bytes, at: nat, header: Bytes, stored: Bytes, size: nat)
    requires BODY <= at && at + |header| + |stored| <= |was| == |headed| == |now| && size <= |stored|
    requires headed[..at] == was[..at] && headed[at..at + |header|] == header
    requires now[..at + |header|] == headed[..at + |header|]
    requires now[at + |header|..at + |header| + |stored|] == stored
    ensures now[..BODY] == was[..BODY]
    ensures now[BODY..at + |header| + size] == was[BODY..at] + (header + stored[..size])
  {
    forall i | 0 <= i < at + |header| + size
      ensures now[i] == if i < at then was[i] else if i < at + |header| then header[i - at] else stored[i - at - |header|]
    {
      if i < at + |header| {
        assert now[i] == now[..at + |header|][i] == headed[i];
        if i < at {
          assert headed[i] == headed[..at][i] == was[..at][i];
        } else {
          assert headed[i] == headed[at..at + |header|][i - at];
        }
      } else {
        assert now[i] == now[at + |header|..at + |header| + |stored|][i - at - |header|];
      }
    }
  }

  method PutByte(buf: array<byte>, at: nat, kind: byte, x: int, ghost items: seq<Item>) returns (next: nat)
    requires Built(buf, items, at) && FitsBuffer(items + ByteItem(kind, x))
    modifies buf
    ensures Built(buf, items + ByteItem(kind, x), next) && buf[..BODY] == old(buf[..BODY])
  {
    assert [Byte(x)][..1] == [Byte(x)];
    next := PutTlv(buf, at, kind, 1, [Byte(x)], items);
  }

  method PutText(buf: array<byte>, at: nat, kind: byte, t: Option<Text>, ghost items: seq<Item>) returns (next: nat)
    requires Built(buf, items, at) && FitsBuffer(items + TextItem(kind, t))
    modifies buf
    ensures Built(buf, items + TextItem(kind, t), next) && buf[..BODY] == old(buf[..BODY])
  {
    next := at;
    AppendNone(items);
    if t.Some? {
      assert (t.value + [0])[..|t.value|] == t.value;
      next := PutTlv(buf, at, kind, |t.value|, t.value + [0], items);
    }
  }

  method PutAuth(buf: array<byte>, at: nat, kind: byte, s: Settings, ghost items: seq<Item>) returns (next: nat)
    requires Built(buf, items, at) && FitsBuffer(items + AuthItem(kind, s))
    modifies buf
    ensures Built(buf, items + AuthItem(kind, s), next) && buf[..BODY] == old(buf[..BODY])
  {
    next := at;
    AppendNone(items);
    if s.user.Some? && s.pd.Some? {
      next := PutByte(buf, at, kind, s.auth, items);
    }
  }

  method PutBool(buf: array<byte>, at: nat, kind: byte, x: int, ghost items: seq<Item>) returns (next: nat)
    requires Built(buf, items, at) && FitsBuffer(items + BoolItem(kind, x))
    modifies buf
    ensures Built(buf, items + BoolItem(kind, x), next) && buf[..BODY] == old(buf[..BODY])
  {
    next := at;
    AppendNone(items);
    if x != 0 {
      assert Le32(x)[..1] == [Byte(x)];
      next := PutTlv(buf, at, kind, 1, Le32(x), items);
    }
  }

  method PutWord(buf: array<byte>, at: nat, kind: byte, x: int, ghost items: seq<Item>) returns (next: nat)
    requires Built(buf, items, at) && FitsBuffer(items + WordItem(kind, x))
    modifies buf
    ensures Built(buf, items + WordItem(kind, x), next) && buf[..BODY] == old(buf[..BODY])
  {
    next := at;
    AppendNone(items);
    if x != 0 {
      assert Le32(x)[..4] == Le32(x);
      next := PutTlv(buf, at, kind, 4, Le32(x), items);
    }
  }

  lemma FitsFront(a: seq<Item>, b: seq<Item>)
    requires FitsBuffer(a + b)
    ensures FitsBuffer(a)
  {
    ReachPrefix(a, b);
  }

  /** WdsModifyProfileSettingsReq; the result counts from the message's type on. */
  method WdsModifyProfileSettingsReq(buf: array<byte>, s: Settings) returns (size: nat)
    requires buf.Length == BUFFER && FitsBuffer(ModifyItems(s))
    modifies buf
    ensures size == LIST_AT + Total(ModifyItems(s)) && Built(buf, ModifyItems(s), BODY - LIST_AT + size)
    ensures buf[..BODY - 2] == old(buf[..BODY - 2])
  {
    hide Encode, Total, Reach, ByteItem, TextItem, AuthItem, FitsBuffer;
    ghost var head := [Item(Tlv(0x01, [0, Byte(s.index)]), 0)];
    ghost var pdpType := head + ByteItem(0x11, s.ipType);
    ghost var apn := pdpType + TextItem(0x14, s.apn);
    ghost var user := apn + TextItem(0x1B, s.user);
    ghost var pd := user + TextItem(0x1C, s.pd);
    FitsFront(pd, AuthItem(0x1D, s));
    FitsFront(user, TextItem(0x1C, s.pd));
    FitsFront(apn, TextItem(0x1B, s.user));
    FitsFront(pdpType, TextItem(0x14, s.apn));
    FitsFront(head, ByteItem(0x11, s.ipType));
    buf[BODY - 2], buf[BODY - 1] := 5, 0;
    NoItems(buf);
    assert [] + head == head && [0, Byte(s.index)][..2] == [0, Byte(s.index)];
    var at := PutTlv(buf, BODY, 0x01, 2, [0, Byte(s.index)], []);
    at := PutByte(buf, at, 0x11, s.ipType, head);
    at := PutText(buf, at, 0x14, s.apn, pdpType);
    at := PutText(buf, at, 0x1B, s.user, apn);
    at := PutText(buf, at, 0x1C, s.pd, user);
    at := PutAuth(buf, at, 0x1D, s, pd);
    size := at - (BODY - LIST_AT);
    assert buf[..BODY - 2] == buf[..BODY][..BODY - 2];
  }

  lemma NoItems(buf: array<byte>)
    requires buf.Length == BUFFER
    ensures Built(buf, [], BODY) && FitsBuffer([])
  {
  }

  /** The part of the list that every start request has. */
  method PutSession(buf: array<byte>, s: Settings, cdma: bool) returns (at: nat)
    requires buf.Length == BUFFER && FitsBuffer(SessionItems(s, cdma))
    modifies buf
    ensures Built(buf, SessionItems(s, cdma), at) && buf[..BODY] == old(buf[..BODY])
  {
    hide Encode, Total, Reach, ByteItem, TextItem, AuthItem, FitsBuffer;
    ghost var tech := ByteItem(0x30, if cdma then 2 else 1);
    ghost var apn := tech + TextItem(0x14, if cdma then None else s.apn);
    ghost var user := apn + TextItem(0x17, s.user);
    ghost var pd := user + TextItem(0x18, s.pd);
    ghost var auth := pd + AuthItem(0x16, s);
    FitsFront(auth, ByteItem(0x19, s.ipFamily));
    FitsFront(pd, AuthItem(0x16, s));
    FitsFront(user, TextItem(0x18, s.pd));
    FitsFront(apn, TextItem(0x17, s.user));
    FitsFront(tech, TextItem(0x14, if cdma then None else s.apn));
    NoItems(buf);
    assert [] + tech == tech;
    at := PutByte(buf, BODY, 0x30, if cdma then 2 else 1, []);
    at := PutText(buf, at, 0x14, if cdma then None else s.apn, tech);
    at := PutText(buf, at, 0x17, s.user, apn);
    at := PutText(buf, at, 0x18, s.pd, user);
    at := PutAuth(buf, at, 0x16, s, pd);
    at := PutByte(buf, at, 0x19, s.ipFamily, auth);
  }

  /** The rest: the profile's index, or for one product how to find the APN. */
  method PutProfile(buf: array<byte>, from: nat, s: Settings, cdma: bool, ghost items: seq<Item>) returns (at: nat)
    requires Built(buf, items, from) && FitsBuffer(items + ProfileItems(s, cdma))
    modifies buf
    ensures Built(buf, items + ProfileItems(s, cdma), at) && buf[..BODY] == old(buf[..BODY])
  {
    hide Encode, Total, Reach, ByteItem, BoolItem, WordItem, FitsBuffer;
    at := from;
    AppendNone(items);
    if s.idProduct != BY_APN {
      if s.index != 0 && !cdma {
        at := PutByte(buf, at, 0x31, s.index, items);
      }
    } else {
      ghost var byName, byType, word := BoolItem(0x3C, s.byApnName), BoolItem(0x3D, s.byApnType), WordItem(0x38, s.apnType);
      AppendAssoc(items, byName + byType, word);
      AppendAssoc(items, byName, byType);
      FitsFront(items + byName + byType, word);
      FitsFront(items + byName, byType);
      at := PutBool(buf, at, 0x3C, s.byApnName, items);
      at := PutBool(buf, at, 0x3D, s.byApnType, items + byName);
      at := PutWord(buf, at, 0x38, s.apnType, items + byName + byType);
    }
  }

  /** WdsStartNwInterfaceReq; the index of a 3GPP2 profile is never written, as its branch lies inside the other's. */
  method WdsStartNwInterfaceReq(buf: array<byte>, given: Settings, cdma: bool) returns (size: nat)
    requires buf.Length == BUFFER && FitsBuffer(StartItems(given, cdma))
    modifies buf
    ensures size == LIST_AT + Total(StartItems(given, cdma)) && Built(buf, StartItems(given, cdma), BODY - LIST_AT + size)
    ensures buf[..BODY - 2] == old(buf[..BODY - 2])
  {
    hide Encode, Total, Reach, SessionItems, ProfileItems, FitsBuffer;
    var s := given;
    if cdma && (s.user.None? || s.user.value == []) && (s.pd.None? || s.pd.value == []) {
      s := s.(user := Some(CDMA_USER), pd := Some(CDMA_PD), auth := CHAP);
    }
    FitsFront(SessionItems(s, cdma), ProfileItems(s, cdma));
    buf[BODY - 2], buf[BODY - 1] := 0, 0;
    var at := PutSession(buf, s, cdma);
    at := PutProfile(buf, at, s, cdma, SessionItems(s, cdma));
    size := at - (BODY - LIST_AT);
    assert buf[..BODY - 2] == buf[..BODY][..BODY - 2];
  }
}
