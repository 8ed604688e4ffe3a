/** Value types shared by the USB device core: status codes, lifecycle
    states, endpoint types and the decoding of the 8-byte control setup
    packet (section 9.3 of the USB 2.0 specification). */
module UsbTypes {

  type byte = x: int | 0 <= x < 256

  /** Number of IN (and of OUT) endpoints besides endpoint 0
      (USB_MAX_ENDPOINTS; its header is not part of this model). */
  const MaxEndpoints: nat

  /** Capacity of a device's control data buffer (sizeof(data_buf); its
      header is not part of this model). */
  const DataBufSize: nat

  /** Token (packet identifier) of a transaction. */
  datatype Pid = TokenSetup | TokenIn | TokenOut | TokenOther

  /** Packet status codes (USB_RET_*). */
  datatype Ret =
    | RetSuccess | RetNoDev | RetNak | RetStall | RetBabble | RetIoError
    | RetAsync | RetAddToQueue | RetRemoveFromQueue

  /** Packet lifecycle (USB_PACKET_*). */
  datatype PacketState = PktUndefined | PktSetup | PktQueued | PktAsync | PktComplete | PktCanceled

  /** Endpoint-0 control-transfer state (SETUP_STATE_*). */
  datatype SetupState = SetupIdle | SetupSetup | SetupData | SetupAck | SetupParam

  /** Device lifecycle (USB_STATE_*). */
  datatype DevState =
    | StateNotAttached | StateAttached | StateDefault
    | StateAddressed | StateConfigured | StateSuspended

  /** Endpoint transfer types, as encoded in bmAttributes (table 9-13 of USB 2.0). */
  const XferControl: byte := 0
  const XferIsoc: byte := 1
  const XferBulk: byte := 2
  const XferInt: byte := 3

  /** Direction bit of bmRequestType: set for device-to-host requests. */
  const UsbDirIn: byte := 0x80

  predicate InFlightState(s: PacketState) {
    s == PktQueued || s == PktAsync
  }

  /** `requestType & USB_DIR_IN` is nonzero. */
  predicate IsDirIn(requestType: byte) {
    requestType >= UsbDirIn
  }

  /** A 16-bit quantity assembled from a high and a low byte. */
  function Word(hi: byte, lo: byte): nat {
    hi as nat * 256 + lo as nat
  }

  lemma WordBounds(hi: byte, lo: byte)
    ensures Word(hi, lo) < 0x1_0000
    ensures Word(hi, lo) / 256 == hi as nat && Word(hi, lo) % 256 == lo as nat
  {
  }

  /** The four numbers the core extracts from a setup packet. Note that
      `request` puts bmRequestType in its HIGH byte and bRequest in its low
      byte, while wValue, wIndex and wLength are little-endian. */
  datatype SetupFields = SetupFields(request: nat, value: nat, index: nat, length: nat)

  predicate WellFormed(f: SetupFields) {
    f.request < 0x1_0000 && f.value < 0x1_0000 && f.index < 0x1_0000 && f.length < 0x1_0000
  }

  function DecodeSetup(buf: seq<byte>): (f: SetupFields)
    requires |buf| == 8
    ensures WellFormed(f)
  {
    WordBounds(buf[0], buf[1]); WordBounds(buf[3], buf[2]);
    WordBounds(buf[5], buf[4]); WordBounds(buf[7], buf[6]);
    SetupFields(Word(buf[0], buf[1]), Word(buf[3], buf[2]), Word(buf[5], buf[4]), Word(buf[7], buf[6]))
  }

  function Lo(w: nat): byte
    requires w < 0x1_0000
  {
    w % 256
  }

  function Hi(w: nat): byte
    requires w < 0x1_0000
  {
    w / 256
  }

  /** The wire layout of a setup packet carrying the given fields. */
  function EncodeSetup(f: SetupFields): (buf: seq<byte>)
    requires WellFormed(f)
    ensures |buf| == 8
  {
    [Hi(f.request), Lo(f.request), Lo(f.value), Hi(f.value),
     Lo(f.index), Hi(f.index), Lo(f.length), Hi(f.length)]
  }

  lemma HiLoWord(w: nat)
    requires w < 0x1_0000
    ensures Word(Hi(w), Lo(w)) == w
  {
  }

  lemma WordHiLo(hi: byte, lo: byte)
    ensures Hi(Word(hi, lo)) == hi && Lo(Word(hi, lo)) == lo
  {
    WordBounds(hi, lo);
  }

  /** Decoding is injective: the setup bytes are recovered from the fields. */
  lemma EncodeDecodeSetup(buf: seq<byte>)
    requires |buf| == 8
    ensures EncodeSetup(DecodeSetup(buf)) == buf
  {
    WordHiLo(buf[0], buf[1]); WordHiLo(buf[3], buf[2]);
    WordHiLo(buf[5], buf[4]); WordHiLo(buf[7], buf[6]);
  }

  lemma DecodeEncodeSetup(f: SetupFields)
    requires WellFormed(f)
    ensures DecodeSetup(EncodeSetup(f)) == f
  {
    HiLoWord(f.request); HiLoWord(f.value); HiLoWord(f.index); HiLoWord(f.length);
  }

  /** The direction of a request can be read off the decoded request word. */
  lemma DirectionFromRequest(buf: seq<byte>)
    requires |buf| == 8
    ensures IsDirIn(buf[0]) <==> DecodeSetup(buf).request >= 0x8000
  {
    WordBounds(buf[0], buf[1]);
  }

  /** The parameter word shifted right by `i` bytes. */
  function ShiftBytes(param: nat, i: nat): nat {
    if i == 0 then param else ShiftBytes(param / 256, i - 1)
  }

  /** Byte `i` of the 64-bit parameter word, as the C conversion of
      `Parameter >> (i * 8)` to uint8_t gives it. */
  function ParamByte(param: nat, i: nat): byte {
    ShiftBytes(param, i) % 256
  }

  /** The first `n` bytes of `param`, least significant first. */
  function Unpack(param: nat, n: nat): (s: seq<byte>)
    ensures |s| == n
  {
    if n == 0 then [] else [param % 256] + Unpack(param / 256, n - 1)
  }

  /** The little-endian number whose bytes are `s`. */
  function Pack(s: seq<byte>): nat {
    if s == [] then 0 else s[0] + 256 * Pack(s[1..])
  }

  lemma {:induction false} UnpackAt(param: nat, n: nat, i: nat)
    requires i < n
    ensures Unpack(param, n)[i] == ParamByte(param, i)
  {
    if i > 0 {
      UnpackAt(param / 256, n - 1, i - 1);
    }
  }

  lemma {:induction false} PackBound(s: seq<byte>)
    ensures Pack(s) < Power256(|s|)
  {
    if s != [] {
      PackBound(s[1..]);
    }
  }

  function Power256(n: nat): (r: nat)
    ensures r > 0
  {
    if n == 0 then 1 else 256 * Power256(n - 1)
  }

  /** Unpacking then packing gives back the parameter word whenever it fits
      the number of bytes unpacked. */
  lemma {:induction false} PackUnpack(param: nat, n: nat)
    requires param < Power256(n)
    ensures Pack(Unpack(param, n)) == param
  {
    if n > 0 {
      PackUnpack(param / 256, n - 1);
      assert Unpack(param, n)[1..] == Unpack(param / 256, n - 1);
    }
  }

  /** Packing then unpacking gives back the bytes. */
  lemma {:induction false} UnpackPack(s: seq<byte>)
    ensures Unpack(Pack(s), |s|) == s
  {
    if s != [] {
      UnpackPack(s[1..]);
      assert Pack(s) % 256 == s[0] && Pack(s) / 256 == Pack(s[1..]);
    }
  }

  /** The eight setup bytes unpacked from a 64-bit parameter hold the whole word. */
  lemma ParameterRoundTrip(param: nat)
    requires param < 0x1_0000_0000_0000_0000
    ensures |Unpack(param, 8)| == 8
    ensures forall i :: 0 <= i < 8 ==> Unpack(param, 8)[i] == ParamByte(param, i)
    ensures Pack(Unpack(param, 8)) == param
  {
    forall i | 0 <= i < 8 ensures Unpack(param, 8)[i] == ParamByte(param, i) {
      UnpackAt(param, 8, i);
    }
    assert Power256(8) == 0x1_0000_0000_0000_0000;
    PackUnpack(param, 8);
  }
}
