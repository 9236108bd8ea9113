/** Type-length-value lists of QMI service messages, and the scanner that looks one up. */
module QmiTlv {
  import opened Wire

  datatype Tlv = Tlv(kind: byte, value: Bytes)

  /** sizeof(QMI_TLV_HDR), and where the list starts behind type and length */
  const TLV_HDR := 3
  const LIST_AT := 4

  type TlvList = s: seq<Tlv> | forall t :: t in s ==> |t.value| < 0x1_0000

  function EncodeTlv(t: Tlv): Bytes
    requires |t.value| < 0x1_0000
  {
    [t.kind] + Le16(|t.value|) + t.value
  }

  function Encode(tlvs: TlvList): Bytes {
    if tlvs == [] then [] else
      assert tlvs[0] in tlvs && forall t :: t in tlvs[1..] ==> t in tlvs;
      EncodeTlv(tlvs[0]) + Encode(tlvs[1..])
  }

  // ---- the scanner ----

  function Kind(m: Bytes, at: nat): byte { At(m, at) }
  function Size(m: Bytes, at: nat): u16 { Le16At(m, at + 1) }
  function Value(m: Bytes, at: nat): (v: Bytes)
    ensures |v| == Size(m, at) && forall i :: 0 <= i < |v| ==> v[i] == At(m, at + TLV_HDR + i)
  {
    seq<byte>(Size(m, at), i requires 0 <= i < Size(m, at) => At(m, at + TLV_HDR + i))
  }

  /** The n-th TLV, counted from 1, is the one asked for: by its number above 0x1000, by its type otherwise. */
  predicate Hit(kind: byte, n: nat, tlvType: int) {
    if tlvType > 0x1000 then n + 0x1000 == tlvType else kind == tlvType
  }

  function Wrapped(length: int): u16 {
    length % 0x1_0000
  }

  /** GetTLV's loop, its 16-bit remaining length and all; bytes past the end of the message read as zero. */
  function Walk(m: Bytes, at: nat, length: u16, found: nat, tlvType: int): Option<nat>
    decreases if at < |m| then |m| - at else 0, length
  {
    if length < TLV_HDR then None
    else if Hit(Kind(m, at), found + 1, tlvType) then Some(at)
    else
      var size := Size(m, at) + TLV_HDR;
      Walk(m, at + size, Wrapped(length - size), found + 1, tlvType)
  }

  /** m starts at the type of the message; the list's length is its second field. */
  function Find(m: Bytes, tlvType: int): Option<nat> {
    Walk(m, LIST_AT, Le16At(m, 2), 0, tlvType)
  }

  /** The value that Find leads to. */
  function Get(m: Bytes, tlvType: int): Option<Bytes> {
    var at := Find(m, tlvType);
    if at.None? then None else Some(Value(m, at.value))
  }

  lemma PastTheEnd(m: Bytes, at: nat, length: u16)
    requires length >= TLV_HDR
    ensures at >= |m| ==> Wrapped(length - (Size(m, at) + TLV_HDR)) < length
  {
  }

  method GetTlv(m: Bytes, tlvType: int) returns (r: Option<nat>)
    ensures r == Find(m, tlvType)
  {
    hide At, Le16At, Kind, Size, Wrapped;
    var found: nat := 0;
    var length: u16 := Le16At(m, 2);
    var at: nat := LIST_AT;
    while length >= TLV_HDR
      invariant Walk(m, at, length, found, tlvType) == Find(m, tlvType)
      decreases if at < |m| then |m| - at else 0, length
    {
      found := found + 1;
      if tlvType > 0x1000 {
        if found + 0x1000 == tlvType {
          return Some(at);
        }
      } else if Kind(m, at) == tlvType {
        return Some(at);
      }
      var size := Size(m, at) + TLV_HDR;
      PastTheEnd(m, at, length);
      length := Wrapped(length - size);
      at := at + size;
    }
    r := None;
  }

  // ---- the reference: search of a list ----

  function Lookup(tlvs: seq<Tlv>, found: nat, tlvType: int): Option<nat> {
    if tlvs == [] then None
    else if Hit(tlvs[0].kind, found + 1, tlvType) then Some(0)
    else
      var k := Lookup(tlvs[1..], found + 1, tlvType);
      if k.None? then None else Some(k.value + 1)
  }

  /** By type it is the first of that type, by number the one with that number, or none. */
  lemma {:induction false} LookupIs(tlvs: seq<Tlv>, found: nat, tlvType: int)
    ensures var k := Lookup(tlvs, found, tlvType);
            && (k.Some? ==> k.value < |tlvs|)
            && (tlvType <= 0x1000 && k.Some? ==>
                  tlvs[k.value].kind == tlvType && forall j :: 0 <= j < k.value ==> tlvs[j].kind != tlvType)
            && (tlvType <= 0x1000 && k.None? ==> forall t :: t in tlvs ==> t.kind != tlvType)
            && (tlvType > 0x1000 ==>
                  k == if found < tlvType - 0x1000 <= found + |tlvs| then Some(tlvType - 0x1001 - found) else None)
  {
    if tlvs != [] {
      LookupIs(tlvs[1..], found + 1, tlvType);
    }
  }

  /** bytes stand in m from at on. */
  predicate Holds(m: Bytes, at: nat, bytes: Bytes) {
    at + |bytes| <= |m| && forall i :: 0 <= i < |bytes| ==> m[at + i] == bytes[i]
  }

  lemma HoldsParts(m: Bytes, at: nat, a: Bytes, b: Bytes)
    requires Holds(m, at, a + b)
    ensures Holds(m, at, a) && Holds(m, at + |a|, b)
  {
    forall i | 0 <= i < |a| ensures m[at + i] == a[i] {
      assert (a + b)[i] == a[i];
    }
    forall i | 0 <= i < |b| ensures m[at + |a| + i] == b[i] {
      assert (a + b)[|a| + i] == b[i];
    }
  }

  lemma HoldsTlv(m: Bytes, at: nat, t: Tlv)
    requires |t.value| < 0x1_0000 && Holds(m, at, EncodeTlv(t))
    ensures Kind(m, at) == t.kind && Size(m, at) == |t.value| && Value(m, at) == t.value
  {
    var e := EncodeTlv(t);
    assert m[at] == e[0] && m[at + 1] == e[1] && m[at + 2] == e[2];
    assert Size(m, at) == |t.value|;
    forall i | 0 <= i < |t.value| ensures Value(m, at)[i] == t.value[i] {
      var j := TLV_HDR + i;
      assert m[at + j] == e[j] == t.value[i];
    }
  }

  /** Where the k-th of the TLVs starts. */
  function Offset(tlvs: TlvList, k: nat): nat
    requires k <= |tlvs|
  {
    |Encode(FirstOnes(tlvs, k))|
  }

  function FirstOnes(tlvs: TlvList, k: nat): TlvList
    requires k <= |tlvs|
  {
    assert forall t :: t in tlvs[..k] ==> t in tlvs;
    tlvs[..k]
  }

  lemma OffsetStep(tlvs: TlvList, rest: TlvList, k: nat)
    requires tlvs != [] && rest == tlvs[1..] && k <= |rest| && tlvs[0] in tlvs
    ensures Offset(tlvs, k + 1) == TLV_HDR + |tlvs[0].value| + Offset(rest, k)
  {
    var front := FirstOnes(tlvs, k + 1);
    assert front[0] == tlvs[0] && front[1..] == FirstOnes(rest, k);
  }

  lemma {:induction false} WalkFinds(m: Bytes, at: nat, slack: nat, found: nat, tlvType: int, tlvs: TlvList)
    requires Holds(m, at, Encode(tlvs)) && slack < TLV_HDR && |Encode(tlvs)| + slack < 0x1_0000
    ensures Lookup(tlvs, found, tlvType).Some? ==> Lookup(tlvs, found, tlvType).value < |tlvs|
    ensures Walk(m, at, |Encode(tlvs)| + slack, found, tlvType)
         == match Lookup(tlvs, found, tlvType) { case None => None case Some(k) => Some(at + Offset(tlvs, k)) }
    ensures match Lookup(tlvs, found, tlvType)
            case None => true
            case Some(k) => Kind(m, at + Offset(tlvs, k)) == tlvs[k].kind && Value(m, at + Offset(tlvs, k)) == tlvs[k].value
    decreases |tlvs|
  {
    hide Kind, Size, Value, Hit, Holds, EncodeTlv;
    if tlvs != [] {
      var t := tlvs[0];
      assert t in tlvs && forall u :: u in tlvs[1..] ==> u in tlvs;
      var rest: TlvList := tlvs[1..];
      var size := TLV_HDR + |t.value|;
      assert |EncodeTlv(t)| == size by { EncodedSize(t); }
      HoldsParts(m, at, EncodeTlv(t), Encode(rest));
      HoldsTlv(m, at, t);
      if Hit(t.kind, found + 1, tlvType) {
        assert Encode(FirstOnes(tlvs, 0)) == [];
      } else {
        WalkFinds(m, at + size, slack, found + 1, tlvType, rest);
        var k := Lookup(rest, found + 1, tlvType);
        if k.Some? {
          OffsetStep(tlvs, rest, k.value);
        }
      }
    }
  }

  lemma EncodedSize(t: Tlv)
    requires |t.value| < 0x1_0000
    ensures |EncodeTlv(t)| == TLV_HDR + |t.value|
  {
  }

  /** The message's list is the encoding of tlvs, up to at most two bytes. */
  predicate Carries(m: Bytes, tlvs: TlvList) {
    && Holds(m, LIST_AT, Encode(tlvs))
    && |Encode(tlvs)| <= Le16At(m, 2) < |Encode(tlvs)| + TLV_HDR
  }

  /** GetTLV refines the search of a list: the value of the TLV that the list search gives, or none. */
  lemma {:induction false} FindRefinesLookup(m: Bytes, tlvs: TlvList, tlvType: int)
    requires Carries(m, tlvs)
    ensures match Lookup(tlvs, 0, tlvType)
            case None => Find(m, tlvType) == None && Get(m, tlvType) == None
            case Some(k) =>
              && k < |tlvs| && Find(m, tlvType) == Some(LIST_AT + Offset(tlvs, k))
              && Get(m, tlvType) == Some(tlvs[k].value)
  {
    hide Walk, Lookup, Encode, Value;
    WalkFinds(m, LIST_AT, Le16At(m, 2) - |Encode(tlvs)|, 0, tlvType, tlvs);
  }

  // ---- when the remaining length wraps ----

  /** No step of a scan to the end takes more than is left. */
  predicate NeverWraps(m: Bytes, at: nat, length: u16)
    decreases length
  {
    length < TLV_HDR
    || (var size := Size(m, at) + TLV_HDR; size <= length && NeverWraps(m, at + size, length - size))
  }

  lemma {:induction false} NeverWrapsOnList(m: Bytes, at: nat, slack: nat, tlvs: TlvList)
    requires Holds(m, at, Encode(tlvs)) && slack < TLV_HDR && |Encode(tlvs)| + slack < 0x1_0000
    ensures NeverWraps(m, at, |Encode(tlvs)| + slack)
    decreases |tlvs|
  {
    hide Kind, Size, Value, Holds, EncodeTlv;
    if tlvs != [] {
      var t := tlvs[0];
      assert t in tlvs && forall u :: u in tlvs[1..] ==> u in tlvs;
      EncodedSize(t);
      HoldsParts(m, at, EncodeTlv(t), Encode(tlvs[1..]));
      HoldsTlv(m, at, t);
      NeverWrapsOnList(m, at + TLV_HDR + |t.value|, slack, tlvs[1..]);
    }
  }

  lemma HoldsAppend(m: Bytes, at: nat, a: Bytes, b: Bytes)
    requires Holds(m, at, a) && Holds(m, at + |a|, b)
    ensures Holds(m, at, a + b)
  {
    forall i | 0 <= i < |a + b| ensures m[at + i] == (a + b)[i] {
      if i >= |a| {
        assert m[at + |a| + (i - |a|)] == b[i - |a|];
      }
    }
  }

  lemma TlvAt(m: Bytes, at: nat) returns (t: Tlv)
    requires at + TLV_HDR + Size(m, at) <= |m|
    ensures t == Tlv(Kind(m, at), Value(m, at)) && |t.value| == Size(m, at) && Holds(m, at, EncodeTlv(t))
  {
    t := Tlv(Kind(m, at), Value(m, at));
    var e := EncodeTlv(t);
    assert Le16(Size(m, at)) == [m[at + 1], m[at + 2]];
    forall i | 0 <= i < |e| ensures m[at + i] == e[i] {
      if i >= TLV_HDR {
        assert e[i] == t.value[i - TLV_HDR] == At(m, at + TLV_HDR + (i - TLV_HDR));
      }
    }
  }

  lemma {:induction false} ListThere(m: Bytes, at: nat, length: u16) returns (tlvs: TlvList)
    requires NeverWraps(m, at, length) && at + length <= |m|
    ensures Holds(m, at, Encode(tlvs)) && |Encode(tlvs)| <= length < |Encode(tlvs)| + TLV_HDR
    decreases length
  {
    hide Kind, Size, Value, EncodeTlv;
    tlvs := [];
    if length >= TLV_HDR {
      hide Holds;
      var t := TlvAt(m, at);
      EncodedSize(t);
      var size := Size(m, at) + TLV_HDR;
      var rest := ListThere(m, at + size, length - size);
      HoldsAppend(m, at, EncodeTlv(t), Encode(rest));
      tlvs := [t] + rest;
      assert tlvs[0] == t && tlvs[1..] == rest;
    }
  }

  /** The remaining length never wraps exactly when a TLV list fills the stated length, but for at most two bytes. */
  lemma {:induction false} NeverWrapsExactly(m: Bytes)
    requires LIST_AT + Le16At(m, 2) <= |m|
    ensures NeverWraps(m, LIST_AT, Le16At(m, 2)) <==> exists tlvs: TlvList :: Carries(m, tlvs)
  {
    hide NeverWraps, Encode, Holds;
    if NeverWraps(m, LIST_AT, Le16At(m, 2)) {
      var tlvs := ListThere(m, LIST_AT, Le16At(m, 2));
      assert Carries(m, tlvs);
    }
    if tlvs: TlvList :| Carries(m, tlvs) {
      NeverWrapsOnList(m, LIST_AT, Le16At(m, 2) - |Encode(tlvs)|, tlvs);
    }
  }

  /** A TLV that states more than is left, and is not the one asked for, is stepped over all the same, and the scan goes on
      with 65536 more than the difference. */
  lemma OverlongRunsOn(m: Bytes, at: nat, length: u16, found: nat, tlvType: int)
    requires 3 <= length < Size(m, at) + 3 && !Hit(Kind(m, at), found + 1, tlvType)
    ensures var size: nat := Size(m, at) as int + 3;
            && 0 <= length + 0x1_0000 - size < 0x1_0000
            && Walk(m, at, length, found, tlvType)
               == Walk(m, at + size, length + 0x1_0000 - size, found + 1, tlvType)
  {
    hide At, Le16At;
    var size: nat := Size(m, at) as int + 3;
    assert Wrapped(length - size) == length + 0x1_0000 - size;
  }

  /** The fields of a TLV on bytes. */
  lemma TlvBytes(m: Bytes, at: nat)
    ensures Kind(m, at) == At(m, at) && Size(m, at) == At(m, at + 1) as int + 0x100 * At(m, at + 2) as int
    ensures |Value(m, at)| == Size(m, at) && forall i :: 0 <= i < Size(m, at) ==> Value(m, at)[i] == At(m, at + 3 + i)
  {
  }
}
