/** Bytes, little-endian fields and the QMI header fields that both proxies and the connection manager read. */
module Wire {
  type byte = x: int | 0 <= x < 256
  type u16 = x: int | 0 <= x < 0x1_0000
  type u32 = x: int | 0 <= x < 0x1_0000_0000
  type Bytes = seq<byte>

  datatype Option<+T> = None | Some(value: T)

  /** A service type with a client id: what the modem grants and takes back. */
  datatype Pair = Pair(qmiType: byte, clientId: byte)

  const QMUX_TYPE_CTL: byte := 0x00
  const USB_CTL_MSG_TYPE_QMI: byte := 0x01

  const QMICTL_FLAG_REQUEST: byte := 0x00
  const QMICTL_FLAG_RESPONSE: byte := 0x01
  const QMICTL_GET_VERSION_REQ: u16 := 0x0021
  const QMICTL_GET_CLIENT_ID: u16 := 0x0022
  const QMICTL_RELEASE_CLIENT_ID: u16 := 0x0023
  const QMICTL_SYNC_REQ: u16 := 0x0027

  /** sizeof(QCQMI_HDR) */
  const QMI_HDR_SIZE := 6

  /** A field past the end of a short message reads as zero. */
  function At(m: Bytes, i: nat): byte {
    if i < |m| then m[i] else 0
  }

  function Word(low: byte, high: byte): u16 {
    low as int + 0x100 * high as int
  }

  function Le16At(m: Bytes, i: nat): u16 {
    Word(At(m, i), At(m, i + 1))
  }

  function Le16(v: u16): Bytes {
    [v % 0x100, v / 0x100]
  }

  /** What a store of an integer into one byte keeps. */
  function Byte(x: int): byte {
    x % 0x100
  }

  function Le32(x: int): Bytes {
    [Byte(x), Byte(x / 0x100), Byte(x / 0x1_0000), Byte(x / 0x100_0000)]
  }

  function Le32At(m: Bytes, i: nat): u32 {
    Le16At(m, i) as int + 0x1_0000 * Le16At(m, i + 2) as int
  }

  // The QMI header: IFType, Length (2 bytes), CtlFlags, QMIType, ClientId.
  function Length(m: Bytes): u16 { Le16At(m, 1) }
  function QmiType(m: Bytes): byte { At(m, 4) }
  function ClientId(m: Bytes): byte { At(m, 5) }
  predicate IsCtl(m: Bytes) { QmiType(m) == QMUX_TYPE_CTL }

  // A control message continues with CtlFlags, TransactionId, QMICTLType (2 bytes), Length (2 bytes).
  function CtlFlags(m: Bytes): byte { At(m, 6) }
  function CtlTid(m: Bytes): byte { At(m, 7) }
  function CtlKind(m: Bytes): u16 { Le16At(m, 8) }

  /** The pair in the first TLV of a RELEASE request. */
  function ReqPair(m: Bytes): Pair { Pair(At(m, 15), At(m, 16)) }

  /** The service type in the first TLV of a GET request. */
  function ReqService(m: Bytes): byte { At(m, 15) }

  /** The result TLV of a GET or RELEASE response says success. */
  predicate RspOk(m: Bytes) { Le16At(m, 15) == 0 && Le16At(m, 17) == 0 }

  /** The pair in the second TLV of a GET or RELEASE response. */
  function RspPair(m: Bytes): Pair { Pair(At(m, 22), At(m, 23)) }

  lemma Le16RoundTrip(m: Bytes, i: nat, v: u16)
    requires i + 2 <= |m| && m[i..i + 2] == Le16(v)
    ensures Le16At(m, i) == v
  {
    assert m[i..i + 2][0] == m[i] && m[i..i + 2][1] == m[i + 1];
  }

  lemma AppendAssoc<T>(a: seq<T>, b: seq<T>, c: seq<T>)
    ensures a + b + c == a + (b + c)
  {
  }

  lemma AppendNone<T>(a: seq<T>)
    ensures a + [] == a && [] + a == a
  {
  }

  lemma AppendCancel<T>(a: seq<T>, x: seq<T>, y: seq<T>)
    requires a + x == a + y
    ensures x == y
  {
    assert |x| == |y|;
    forall i | 0 <= i < |x| ensures x[i] == y[i] {
      assert (a + x)[|a| + i] == (a + y)[|a| + i];
    }
  }
}
