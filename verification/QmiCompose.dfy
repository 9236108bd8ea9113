/** Composing a request around its TLVs, with a transaction id of its own; and reading it back. */
module QmiCompose {
  import opened Wire
  import opened QmiTlv
  import opened QmiBuild

  // ---- transaction ids ----

  /** The n-th id, counted from 1. */
  function IdOf(n: nat): u16
    requires n > 0
  {
    (n - 1) % 0xffff + 1
  }

  /** Ids stay in 1..65535 and repeat exactly every 65535 calls. */
  lemma IdsRepeat(i: nat, j: nat)
    requires 0 < i <= j
    ensures 1 <= IdOf(i) <= 0xffff
    ensures IdOf(i) == IdOf(j) <==> (j - i) % 0xffff == 0
    ensures i < j && IdOf(i) == IdOf(j) ==> j - i >= 0xffff
  {
    var a, b := i - 1, j - 1;
    assert a == a / 0xffff * 0xffff + a % 0xffff && b == b / 0xffff * 0xffff + b % 0xffff;
    if a % 0xffff == b % 0xffff {
      assert b - a == (b / 0xffff - a / 0xffff) * 0xffff;
    }
    if (b - a) % 0xffff == 0 {
      var k := (b - a) / 0xffff;
      assert b == a % 0xffff + (a / 0xffff + k) * 0xffff;
      SameRest(b, a / 0xffff + k, a % 0xffff);
    }
  }

  lemma SameRest(b: int, q: int, r: int)
    requires b == r + q * 0xffff && 0 <= r < 0xffff
    ensures b % 0xffff == r
  {
  }

  // ---- a request ----

  /** Header sizes: QMI, QMUX, type and length of the message */
  const HEADERS := QMI_HDR_SIZE + 3 + LIST_AT

  function Header(qmiType: byte, tid: u16, kind: u16, length: nat): Bytes
    requires length + 12 < 0x1_0000
  {
    [USB_CTL_MSG_TYPE_QMI] + Le16(length + 12) + [0, qmiType, 0, 0] + Le16(tid) + Le16(kind) + Le16(length)
  }

  function Message(qmiType: byte, tid: u16, kind: u16, body: Bytes): Bytes
    requires |body| <= BUFFER
  {
    Header(qmiType, tid, kind, |body|) + body
  }

  /** The message from its own type and length on, where a lookup starts. */
  function Inner(m: Bytes): Bytes
    requires |m| >= HEADERS
  {
    m[HEADERS - LIST_AT..]
  }

  datatype Builder = NoBody | Modify(s: Settings) | Start(s: Settings, cdma: bool)

  function Items(b: Builder): seq<Item> {
    match b
    case NoBody => []
    case Modify(s) => ModifyItems(s)
    case Start(s, cdma) => StartItems(s, cdma)
  }

  lemma {:induction false} BodyLength(items: seq<Item>)
    requires FitsBuffer(items)
    ensures |Encode(ListOf(items))| == Total(items) <= BUFFER - BODY
  {
    EncodedTotal(items);
    ReachHolds(items);
  }

  function Request(qmiType: byte, tid: u16, kind: u16, b: Builder): (r: Bytes)
    requires FitsBuffer(Items(b))
    ensures |r| >= HEADERS
  {
    BodyLength(Items(b));
    Message(qmiType, tid, kind, Encode(ListOf(Items(b))))
  }

  class Composer {
    var transactionId: int
    ghost var composed: nat

    ghost predicate Valid()
      reads this
    {
      transactionId == if composed == 0 then 0 else IdOf(composed)
    }

    constructor ()
      ensures Valid() && composed == 0
    {
      transactionId, composed := 0, 0;
    }

    method GetQmuxTransactionId() returns (tid: u16)
      requires Valid()
      modifies this
      ensures Valid() && composed == old(composed) + 1 && tid == IdOf(composed)
    {
      transactionId := transactionId + 1;
      if transactionId > 0xffff {
        transactionId := 1;
      }
      composed := composed + 1;
      tid := transactionId;
    }

    method Build(buf: array<byte>, b: Builder) returns (length: nat)
      requires buf.Length == BUFFER && FitsBuffer(Items(b)) && (b.NoBody? ==> buf[BODY - 2] == buf[BODY - 1] == 0)
      modifies buf
      ensures length == Total(Items(b)) && Built(buf, Items(b), BODY + length)
      ensures buf[..BODY - 2] == old(buf[..BODY - 2])
    {
      hide ModifyItems, StartItems, Encode, Total, FitsBuffer;
      NoItems(buf);
      NothingTotal();
      var size := LIST_AT;
      match b {
        case NoBody =>
        case Modify(s) => size := WdsModifyProfileSettingsReq(buf, s);
        case Start(s, cdma) => size := WdsStartNwInterfaceReq(buf, s, cdma);
      }
      length := size - LIST_AT;
    }

    /** The id is spent even when there is no memory for the message. */
    method ComposeQmuxMsg(qmiType: byte, kind: u16, b: Builder, memory: bool) returns (r: Option<Bytes>)
      requires Valid() && FitsBuffer(Items(b))
      modifies this
      ensures Valid() && composed == old(composed) + 1
      ensures r == if memory then Some(Request(qmiType, IdOf(composed), kind, b)) else None
    {
      hide FitsBuffer, Items, IdOf, Encode, Total, Header, Front;
      BodyLength(Items(b));
      var buf := new byte[BUFFER](_ => 0);
      var tid := GetQmuxTransactionId();
      PutFront(buf, qmiType, tid, kind);
      var length := Build(buf, b);
      ghost var body := buf[BODY..BODY + length];
      PutLengths(buf, qmiType, tid, kind, length);
      assert buf[BODY..BODY + length] == buf[BODY..][..length] == body;
      assert buf[..BODY + length] == buf[..BODY] + body;
      r := if memory then Some(buf[..length + 12 + 1]) else None;
    }
  }

  /** The header but for its two lengths */
  function Front(qmiType: byte, tid: u16, kind: u16): Bytes {
    [USB_CTL_MSG_TYPE_QMI, 0, 0, 0, qmiType, 0, 0] + Le16(tid) + Le16(kind)
  }

  method PutFront(buf: array<byte>, qmiType: byte, tid: u16, kind: u16)
    requires buf.Length == BUFFER && forall i :: 0 <= i < BUFFER ==> buf[i] == 0
    modifies buf
    ensures buf[..BODY - 2] == Front(qmiType, tid, kind) && buf[BODY - 2] == buf[BODY - 1] == 0
  {
    buf[0] := USB_CTL_MSG_TYPE_QMI;
    buf[3] := 0;
    buf[4] := qmiType;
    buf[6] := 0;
    buf[7], buf[8] := Le16(tid)[0], Le16(tid)[1];
    buf[9], buf[10] := Le16(kind)[0], Le16(kind)[1];
  }

  method PutLengths(buf: array<byte>, qmiType: byte, tid: u16, kind: u16, length: nat)
    requires buf.Length == BUFFER && length <= BUFFER && buf[..BODY - 2] == Front(qmiType, tid, kind)
    modifies buf
    ensures buf[..BODY] == Header(qmiType, tid, kind, length) && buf[BODY..] == old(buf[BODY..])
  {
    ghost var front := buf[..BODY - 2];
    assert forall i :: 0 <= i < BODY - 2 ==> buf[i] == front[i];
    buf[11], buf[12] := Le16(length)[0], Le16(length)[1];
    buf[1], buf[2] := Le16(length + 12)[0], Le16(length + 12)[1];
  }

  lemma NothingTotal()
    ensures Total([]) == 0
  {
  }

  // ---- reading back ----

  /** The value of the first TLV of a type. */
  function First(items: seq<Item>, kind: byte): Option<Bytes> {
    if items == [] then None
    else if items[0].tlv.kind == kind then Some(items[0].tlv.value)
    else First(items[1..], kind)
  }

  function Else(a: Option<Bytes>, b: Option<Bytes>): Option<Bytes> {
    if a.Some? then a else b
  }

  lemma {:induction false} FirstOfBoth(a: seq<Item>, b: seq<Item>, kind: byte)
    ensures First(a + b, kind) == Else(First(a, kind), First(b, kind))
  {
    if a == [] {
      AppendNone(b);
    } else {
      assert (a + b)[0] == a[0] && (a + b)[1..] == a[1..] + b;
      FirstOfBoth(a[1..], b, kind);
    }
  }

  lemma {:induction false} LookupIsFirst(items: seq<Item>, found: nat, kind: byte)
    ensures var k := Lookup(Tlvs(items), found, kind);
            && (k.None? <==> First(items, kind).None?)
            && (k.Some? ==> k.value < |Tlvs(items)| && First(items, kind) == Some(Tlvs(items)[k.value].value))
  {
    if items != [] {
      LookupIsFirst(items[1..], found + 1, kind);
      assert Tlvs(items)[1..] == Tlvs(items[1..]);
    }
  }

  lemma HeaderSize(qmiType: byte, tid: u16, kind: u16, length: nat)
    requires length + 12 < 0x1_0000
    ensures var h := Header(qmiType, tid, kind, length);
            && |h| == HEADERS && h[HEADERS - 2..] == Le16(length) && h[7..9] == Le16(tid)
            && h[4] == qmiType && h[1..3] == Le16(length + 12)
  {
  }

  /** The header byte by byte: QMI with its length, no flags, the service, no client yet; no flags, the id; the message type
      and the length of its TLVs. */
  ghost predicate HeaderBytes(m: Bytes, qmiType: byte, tid: u16, kind: u16, length: nat) {
    && |m| == 13 + length
    && m[0] == 1 && m[1] as int + 0x100 * m[2] as int == 12 + length && m[3] == 0 && m[4] == qmiType && m[5] == 0
    && m[6] == 0 && m[7] as int + 0x100 * m[8] as int == tid
    && m[9] as int + 0x100 * m[10] as int == kind && m[11] as int + 0x100 * m[12] as int == length
  }

  lemma MessageHeader(qmiType: byte, tid: u16, kind: u16, body: Bytes)
    requires |body| <= BUFFER
    ensures HeaderBytes(Message(qmiType, tid, kind, body), qmiType, tid, kind, |body|)
  {
    var h, m := Header(qmiType, tid, kind, |body|), Message(qmiType, tid, kind, body);
    assert forall i :: 0 <= i < 13 ==> m[i] == h[i];
  }

  /** The header is as it should be, its length field the sum of the TLVs, and a lookup gives the first TLV of the type
      written. */
  lemma {:induction false} RequestCarries(qmiType: byte, tid: u16, kind: u16, b: Builder, t: byte)
    requires FitsBuffer(Items(b))
    ensures var m := Request(qmiType, tid, kind, b);
            && |m| == HEADERS + Total(Items(b)) && Length(m) + 1 == |m|
            && Le16At(Inner(m), 2) == Total(Items(b)) && Carries(Inner(m), ListOf(Items(b)))
            && Get(Inner(m), t) == First(Items(b), t)
            && HeaderBytes(m, qmiType, tid, kind, Total(Items(b)))
  {
    hide FitsBuffer, Items, Total, Encode, Lookup, First, Get, Find, HeaderBytes;
    var items := Items(b);
    BodyLength(items);
    var body := Encode(ListOf(items));
    var m := Request(qmiType, tid, kind, b);
    HeaderSize(qmiType, tid, kind, |body|);
    MessageHeader(qmiType, tid, kind, body);
    var h := Header(qmiType, tid, kind, |body|);
    assert m[HEADERS - 2..HEADERS] == h[HEADERS - 2..] && m[1..3] == h[1..3];
    var inner := Inner(m);
    assert inner[2..4] == m[HEADERS - 2..HEADERS];
    Le16RoundTrip(m, 1, |body| + 12);
    Le16RoundTrip(inner, 2, |body|);
    forall i | 0 <= i < |body| ensures inner[LIST_AT + i] == body[i] {
    }
    FindRefinesLookup(inner, ListOf(items), t);
    LookupIsFirst(items, 0, t);
  }

  lemma {:induction false} FirstOfText(kind: byte, x: Option<Text>, t: byte)
    ensures First(TextItem(kind, x), t) == if t == kind && x.Some? then Some(x.value) else None
  {
  }

  lemma {:induction false} FirstOfByte(kind: byte, x: int, t: byte)
    ensures First(ByteItem(kind, x), t) == if t == kind then Some([Byte(x)]) else None
  {
  }

  lemma {:induction false} FirstOfAuth(kind: byte, s: Settings, t: byte)
    ensures First(AuthItem(kind, s), t) == if t == kind && s.user.Some? && s.pd.Some? then Some([Byte(s.auth)]) else None
  {
  }

  function AsBytes(t: Option<Text>): Option<Bytes> {
    if t.None? then None else Some(t.value)
  }

  function AuthOf(s: Settings): Option<Bytes> {
    if s.user.Some? && s.pd.Some? then Some([Byte(s.auth)]) else None
  }

  /** What a profile change request should carry under each type. */
  function ModifyField(s: Settings, t: byte): Option<Bytes> {
    if t == 0x01 then Some([0, Byte(s.index)]) else if t == 0x11 then Some([Byte(s.ipType)])
    else if t == 0x14 then AsBytes(s.apn) else if t == 0x1B then AsBytes(s.user)
    else if t == 0x1C then AsBytes(s.pd) else if t == 0x1D then AuthOf(s) else None
  }

  lemma {:induction false} FirstOfModify(s: Settings, t: byte)
    ensures First(ModifyItems(s), t) == ModifyField(s, t)
  {
    var head := [Item(Tlv(0x01, [0, Byte(s.index)]), 0)];
    assert First(head, t) == if t == 0x01 then Some([0, Byte(s.index)]) else None;
    hide First, ByteItem, TextItem, AuthItem;
    var pdpType := head + ByteItem(0x11, s.ipType);
    var apn := pdpType + TextItem(0x14, s.apn);
    var user := apn + TextItem(0x1B, s.user);
    var pd := user + TextItem(0x1C, s.pd);
    FirstOfBoth(head, ByteItem(0x11, s.ipType), t);
    FirstOfBoth(pdpType, TextItem(0x14, s.apn), t);
    FirstOfBoth(apn, TextItem(0x1B, s.user), t);
    FirstOfBoth(user, TextItem(0x1C, s.pd), t);
    FirstOfBoth(pd, AuthItem(0x1D, s), t);
    FirstOfByte(0x11, s.ipType, t);
    FirstOfText(0x14, s.apn, t);
    FirstOfText(0x1B, s.user, t);
    FirstOfText(0x1C, s.pd, t);
    FirstOfAuth(0x1D, s, t);
  }

  /** What a lookup of any type reads from a profile change request is what it should carry: each field written, none for
      each omitted, and nothing else. */
  lemma ModifyReadsBack(qmiType: byte, tid: u16, kind: u16, s: Settings, t: byte)
    requires FitsBuffer(ModifyItems(s))
    ensures var m := Request(qmiType, tid, kind, Modify(s));
            && HeaderBytes(m, qmiType, tid, kind, Total(ModifyItems(s)))
            && Get(Inner(m), t) == ModifyField(s, t)
  {
    hide Get, First, FitsBuffer, Total, ModifyItems, Inner, Carries, Message, HeaderBytes;
    RequestCarries(qmiType, tid, kind, Modify(s), t);
    FirstOfModify(s, t);
  }

  /** What every start request should carry. */
  function SessionField(s: Settings, cdma: bool, t: byte): Option<Bytes> {
    if t == 0x30 then Some([if cdma then 2 else 1])
    else if t == 0x14 then if cdma then None else AsBytes(s.apn)
    else if t == 0x17 then AsBytes(s.user) else if t == 0x18 then AsBytes(s.pd)
    else if t == 0x16 then AuthOf(s) else if t == 0x19 then Some([Byte(s.ipFamily)]) else None
  }

  lemma {:induction false} FirstOfSession(s: Settings, cdma: bool, t: byte)
    ensures First(SessionItems(s, cdma), t) == SessionField(s, cdma, t)
  {
    hide First, ByteItem, TextItem, AuthItem;
    var tech := ByteItem(0x30, if cdma then 2 else 1);
    var apn := tech + TextItem(0x14, if cdma then None else s.apn);
    var user := apn + TextItem(0x17, s.user);
    var pd := user + TextItem(0x18, s.pd);
    var auth := pd + AuthItem(0x16, s);
    FirstOfBoth(tech, TextItem(0x14, if cdma then None else s.apn), t);
    FirstOfBoth(apn, TextItem(0x17, s.user), t);
    FirstOfBoth(user, TextItem(0x18, s.pd), t);
    FirstOfBoth(pd, AuthItem(0x16, s), t);
    FirstOfBoth(auth, ByteItem(0x19, s.ipFamily), t);
    FirstOfByte(0x30, if cdma then 2 else 1, t);
    FirstOfText(0x14, if cdma then None else s.apn, t);
    FirstOfText(0x17, s.user, t);
    FirstOfText(0x18, s.pd, t);
    FirstOfAuth(0x16, s, t);
    FirstOfByte(0x19, s.ipFamily, t);
  }

  /** A field that a start request carries only when it is not zero. */
  function Unless0(x: int, value: Bytes): Option<Bytes> {
    if x == 0 then None else Some(value)
  }

  /** What a start request should carry about the profile. */
  function ProfileField(s: Settings, cdma: bool, t: byte): Option<Bytes> {
    if s.idProduct != BY_APN then
      if t == 0x31 && !cdma then Unless0(s.index, [Byte(s.index)]) else None
    else if t == 0x3C then Unless0(s.byApnName, [Byte(s.byApnName)])
    else if t == 0x3D then Unless0(s.byApnType, [Byte(s.byApnType)])
    else if t == 0x38 then Unless0(s.apnType, Le32(s.apnType)) else None
  }

  lemma {:induction false} FirstOfProfile(s: Settings, cdma: bool, t: byte)
    ensures First(ProfileItems(s, cdma), t) == ProfileField(s, cdma, t)
  {
    if s.idProduct == BY_APN {
      var byName, byType, word := BoolItem(0x3C, s.byApnName), BoolItem(0x3D, s.byApnType), WordItem(0x38, s.apnType);
      FirstOfBoth(byName + byType, word, t);
      FirstOfBoth(byName, byType, t);
      assert First(byName, t) == if t == 0x3C then Unless0(s.byApnName, [Byte(s.byApnName)]) else None;
      assert First(byType, t) == if t == 0x3D then Unless0(s.byApnType, [Byte(s.byApnType)]) else None;
      assert First(word, t) == if t == 0x38 then Unless0(s.apnType, Le32(s.apnType)) else None;
    } else if s.index != 0 && !cdma {
      FirstOfByte(0x31, s.index, t);
    }
  }

  lemma {:induction false} FirstOfStart(given: Settings, cdma: bool, t: byte)
    ensures var s := Effective(given, cdma);
            First(StartItems(given, cdma), t) == Else(First(SessionItems(s, cdma), t), First(ProfileItems(s, cdma), t))
  {
    var s := Effective(given, cdma);
    FirstOfBoth(SessionItems(s, cdma), ProfileItems(s, cdma), t);
  }

  function Ascii(text: string): Bytes {
    seq<byte>(|text|, i requires 0 <= i < |text| => Byte(text[i] as int))
  }

  predicate Empty(t: Option<Text>) {
    t == None || t == Some([])
  }

  /** What a start request should carry under each type. Without a user and without a password a 3GPP2 profile stands for
      the operator's account, authenticated by CHAP. */
  function StartField(given: Settings, cdma: bool, t: byte): Option<Bytes> {
    var account := cdma && Empty(given.user) && Empty(given.pd);
    var byApn := given.idProduct == 0x0316;
    match t
    case 0x30 => Some([if cdma then 2 else 1])
    case 0x14 => if cdma then None else AsBytes(given.apn)
    case 0x17 => if account then Some(Ascii("ctnet@mycdma.cn")) else AsBytes(given.user)
    case 0x18 => if account then Some(Ascii("vnet.mobi")) else AsBytes(given.pd)
    case 0x16 => if account then Some([2]) else AuthOf(given)
    case 0x19 => Some([Byte(given.ipFamily)])
    case 0x31 => if byApn || cdma then None else Unless0(given.index, [Byte(given.index)])
    case 0x3C => if byApn then Unless0(given.byApnName, [Byte(given.byApnName)]) else None
    case 0x3D => if byApn then Unless0(given.byApnType, [Byte(given.byApnType)]) else None
    case 0x38 => if byApn then Unless0(given.apnType, Le32(given.apnType)) else None
    case _ => None
  }

  lemma OperatorsAccount()
    ensures CDMA_USER == Ascii("ctnet@mycdma.cn") && CDMA_PD == Ascii("vnet.mobi")
  {
  }

  lemma StartFieldIs(given: Settings, cdma: bool, t: byte)
    ensures var s := Effective(given, cdma);
            Else(SessionField(s, cdma, t), ProfileField(s, cdma, t)) == StartField(given, cdma, t)
  {
    OperatorsAccount();
    hide Ascii, Le32;
  }

  /** The same for a start request. */
  lemma StartReadsBack(qmiType: byte, tid: u16, kind: u16, given: Settings, cdma: bool, t: byte)
    requires FitsBuffer(StartItems(given, cdma))
    ensures var m := Request(qmiType, tid, kind, Start(given, cdma));
            && HeaderBytes(m, qmiType, tid, kind, Total(StartItems(given, cdma)))
            && Get(Inner(m), t) == StartField(given, cdma, t)
  {
    RequestCarries(qmiType, tid, kind, Start(given, cdma), t);
    FirstOfStart(given, cdma, t);
    FirstOfSession(Effective(given, cdma), cdma, t);
    FirstOfProfile(Effective(given, cdma), cdma, t);
    StartFieldIs(given, cdma, t);
    hide Get, First, FitsBuffer, Total, StartItems, SessionItems, ProfileItems, Inner, Carries, Message, HeaderBytes;
    hide SessionField, ProfileField, StartField, Effective;
  }

  // ---- every field once ----

  function HowMany(items: seq<Item>, t: byte): nat {
    if items == [] then 0 else (if items[0].tlv.kind == t then 1 else 0) + HowMany(items[1..], t)
  }

  lemma {:induction false} HowManyOfBoth(a: seq<Item>, b: seq<Item>, t: byte)
    ensures HowMany(a + b, t) == HowMany(a, t) + HowMany(b, t)
  {
    if a == [] {
      AppendNone(b);
    } else {
      assert (a + b)[0] == a[0] && (a + b)[1..] == a[1..] + b;
      HowManyOfBoth(a[1..], b, t);
    }
  }

  function OneIf(b: bool): nat { if b then 1 else 0 }

  lemma {:induction false} HowManyOfPart(t: byte, kind: byte, x: int, text: Option<Text>, s: Settings)
    ensures HowMany(ByteItem(kind, x), t) == OneIf(t == kind)
    ensures HowMany(TextItem(kind, text), t) == OneIf(t == kind && text.Some?)
    ensures HowMany(AuthItem(kind, s), t) == OneIf(t == kind && s.user.Some? && s.pd.Some?)
    ensures HowMany(BoolItem(kind, x), t) == OneIf(t == kind && x != 0)
    ensures HowMany(WordItem(kind, x), t) == OneIf(t == kind && x != 0)
  {
  }

  /** A profile change request has one TLV of each type it should carry, and no other. */
  lemma {:induction false} ModifyOnceEach(s: Settings, t: byte)
    ensures HowMany(ModifyItems(s), t) == OneIf(ModifyField(s, t).Some?)
  {
    var head := [Item(Tlv(0x01, [0, Byte(s.index)]), 0)];
    assert HowMany(head, t) == OneIf(t == 0x01);
    hide HowMany, ByteItem, TextItem, AuthItem;
    var pdpType := head + ByteItem(0x11, s.ipType);
    var apn := pdpType + TextItem(0x14, s.apn);
    var user := apn + TextItem(0x1B, s.user);
    var pd := user + TextItem(0x1C, s.pd);
    HowManyOfBoth(head, ByteItem(0x11, s.ipType), t);
    HowManyOfBoth(pdpType, TextItem(0x14, s.apn), t);
    HowManyOfBoth(apn, TextItem(0x1B, s.user), t);
    HowManyOfBoth(user, TextItem(0x1C, s.pd), t);
    HowManyOfBoth(pd, AuthItem(0x1D, s), t);
    HowManyOfPart(t, 0x11, s.ipType, None, s);
    HowManyOfPart(t, 0x14, 0, s.apn, s);
    HowManyOfPart(t, 0x1B, 0, s.user, s);
    HowManyOfPart(t, 0x1C, 0, s.pd, s);
    HowManyOfPart(t, 0x1D, 0, None, s);
  }

  lemma {:induction false} SessionOnceEach(s: Settings, cdma: bool, t: byte)
    ensures HowMany(SessionItems(s, cdma), t) == OneIf(SessionField(s, cdma, t).Some?)
  {
    hide HowMany, ByteItem, TextItem, AuthItem;
    var apnText := if cdma then None else s.apn;
    var tech := ByteItem(0x30, if cdma then 2 else 1);
    var apn := tech + TextItem(0x14, apnText);
    var user := apn + TextItem(0x17, s.user);
    var pd := user + TextItem(0x18, s.pd);
    var auth := pd + AuthItem(0x16, s);
    HowManyOfBoth(tech, TextItem(0x14, apnText), t);
    HowManyOfBoth(apn, TextItem(0x17, s.user), t);
    HowManyOfBoth(user, TextItem(0x18, s.pd), t);
    HowManyOfBoth(pd, AuthItem(0x16, s), t);
    HowManyOfBoth(auth, ByteItem(0x19, s.ipFamily), t);
    HowManyOfPart(t, 0x30, if cdma then 2 else 1, None, s);
    HowManyOfPart(t, 0x14, 0, apnText, s);
    HowManyOfPart(t, 0x17, 0, s.user, s);
    HowManyOfPart(t, 0x18, 0, s.pd, s);
    HowManyOfPart(t, 0x16, 0, None, s);
    HowManyOfPart(t, 0x19, s.ipFamily, None, s);
  }

  lemma {:induction false} ProfileOnceEach(s: Settings, cdma: bool, t: byte)
    ensures HowMany(ProfileItems(s, cdma), t) == OneIf(ProfileField(s, cdma, t).Some?)
  {
    assert HowMany([], t) == 0;
    hide HowMany, ByteItem, BoolItem, WordItem;
    HowManyOfPart(t, 0x31, s.index, None, s);
    if s.idProduct == BY_APN {
      var byName, byType, word := BoolItem(0x3C, s.byApnName), BoolItem(0x3D, s.byApnType), WordItem(0x38, s.apnType);
      HowManyOfBoth(byName + byType, word, t);
      HowManyOfBoth(byName, byType, t);
      HowManyOfPart(t, 0x3C, s.byApnName, None, s);
      HowManyOfPart(t, 0x3D, s.byApnType, None, s);
      HowManyOfPart(t, 0x38, s.apnType, None, s);
    }
  }

  /** So has a start request. */
  lemma {:induction false} StartOnceEach(given: Settings, cdma: bool, t: byte)
    ensures HowMany(StartItems(given, cdma), t) == OneIf(StartField(given, cdma, t).Some?)
  {
    var s := Effective(given, cdma);
    SessionOnceEach(s, cdma, t);
    ProfileOnceEach(s, cdma, t);
    StartFieldIs(given, cdma, t);
    HowManyOfBoth(SessionItems(s, cdma), ProfileItems(s, cdma), t);
    hide HowMany, SessionItems, ProfileItems;
  }
}
