/** The objects of the USB device core: packets, endpoints, devices and
    ports. Their fields are updated in place by the operations in the
    other Usb* modules. */
module UsbState {
  import opened UsbTypes

  /** Optional device-class hooks (the members of USBDeviceClass). */
  datatype Hook =
    | HookInit | HookFindDevice | HookCancelPacket | HookHandleDestroy
    | HookHandleAttach | HookHandleReset | HookHandleControl | HookHandleData
    | HookSetInterface | HookFlushEpQueue | HookEpStopped

  /** Calls a port makes on its host controller and its attach operation. */
  datatype PortEvent = OpsAttach | ControllerDetach

  class Packet {
    var Id: nat
    var Pid: Pid
    var Endpoint: Endpoint?
    var Stream: nat
    var Status: Ret
    var ActualLength: nat
    /** The packed setup request of a parameter-style control transfer (uint64_t). */
    var Parameter: nat
    var ShortNotOK: bool
    var IntReq: bool
    /** The bytes of the scatter-gather vector, flattened; its length is IoVec.Size. */
    var IoVec: seq<byte>
    var State: PacketState

    constructor ()
      ensures State == PktUndefined && IoVec == [] && Endpoint == null
      ensures Parameter == 0 && ActualLength == 0
    {
      Id, Pid, Endpoint, Stream := 0, TokenOther, null, 0;
      Status, ActualLength, Parameter := RetSuccess, 0, 0;
      ShortNotOK, IntReq := false, false;
      IoVec, State := [], PktUndefined;
    }

    /** USB_IsPacketInflight: queued on its endpoint or waiting for the device. */
    predicate InFlight()
      reads this
    {
      InFlightState(State)
    }
  }

  class Endpoint {
    var Num: nat
    var Pid: Pid
    var Type: byte
    var IfNum: byte
    var MaxPacketSize: nat
    var Pipeline: bool
    var Halted: bool
    var Dev: Device?
    /** Packets in flight on this endpoint, oldest first. */
    var Queue: seq<Packet>

    constructor (num: nat, pid: Pid)
      ensures Num == num && Pid == pid && Queue == [] && Dev == null
      ensures !Halted && !Pipeline
    {
      Num, Pid, Type, IfNum, MaxPacketSize := num, pid, XferControl, 0, 0;
      Pipeline, Halted, Dev, Queue := false, false, null, [];
    }

    /** Every queued packet belongs to this endpoint, is in flight, and
        occurs once. */
    ghost predicate QueueValid()
      reads this, Queue
    {
      (forall i :: 0 <= i < |Queue| ==> Queue[i].Endpoint == this && Queue[i].InFlight()) &&
      Distinct(Queue)
    }
  }

  /** No packet occurs twice. */
  ghost predicate Distinct(q: seq<Packet>) {
    forall i, j :: 0 <= i < j < |q| ==> q[i] != q[j]
  }

  /** The queue with every occurrence of `x` taken out, the rest in order. */
  function Without(q: seq<Packet>, x: Packet): seq<Packet> {
    if q == [] then []
    else if q[0] == x then Without(q[1..], x)
    else [q[0]] + Without(q[1..], x)
  }

  lemma {:induction false} WithoutAbsent(q: seq<Packet>, x: Packet)
    requires x !in q
    ensures Without(q, x) == q
  {
    if q != [] {
      WithoutAbsent(q[1..], x);
    }
  }

  /** Removing a packet that occurs once at index k leaves the packets
      before and after it, in their order. */
  lemma {:induction false} WithoutAt(q: seq<Packet>, x: Packet, k: nat)
    requires k < |q| && q[k] == x
    requires Distinct(q)
    ensures Without(q, x) == q[..k] + q[k + 1..]
  {
    if k == 0 {
      assert x !in q[1..] by {
        forall j | 0 <= j < |q[1..]| ensures q[1..][j] != x {
          assert q[1..][j] == q[j + 1];
        }
      }
      WithoutAbsent(q[1..], x);
    } else {
      assert Distinct(q[1..]) by {
        forall i, j | 0 <= i < j < |q[1..]| ensures q[1..][i] != q[1..][j] {
          assert q[1..][i] == q[i + 1] && q[1..][j] == q[j + 1];
        }
      }
      WithoutAt(q[1..], x, k - 1);
      assert q[1..][..k - 1] == q[1..k];
      assert q[1..][k..] == q[k + 1..];
      assert [q[0]] + q[1..k] == q[..k];
    }
  }

  /** Taking out the packet at index k of a queue without repeats leaves a
      queue without repeats that no longer holds it. */
  lemma RemoveAtDistinct(q: seq<Packet>, k: nat)
    requires k < |q| && Distinct(q)
    ensures Distinct(q[..k] + q[k + 1..]) && q[k] !in q[..k] + q[k + 1..]
    ensures forall x :: x in q[..k] + q[k + 1..] <==> x in q && x != q[k]
  {
    var r := q[..k] + q[k + 1..];
    assert forall i :: 0 <= i < |r| ==> r[i] == q[if i < k then i else i + 1];
    forall x | x in q && x != q[k] ensures x in r {
      var i :| 0 <= i < |q| && q[i] == x;
      assert r[if i < k then i else i - 1] == x;
    }
  }

  class Device {
    var Port: Port?
    /** Nonzero once the device has been plugged into its port. */
    var Attached: nat
    var State: DevState
    var Addr: byte
    var RemoteWakeup: nat
    /** USB_DEV_FLAG_IS_HOST in the device flags. */
    var IsHost: bool
    var EpCtl: Endpoint
    var EpIn: array<Endpoint>
    var EpOut: array<Endpoint>
    var SetupBuffer: array<byte>
    var DataBuf: array<byte>
    var SetupState: SetupState
    var SetupLength: nat
    var SetupIndex: nat
    /** The hooks the device class provides. */
    var Hooks: set<Hook>
    /** Every hook invocation so far, in order. */
    ghost var Events: seq<Hook>

    constructor (epCtl: Endpoint, epIn: array<Endpoint>, epOut: array<Endpoint>, hooks: set<Hook>)
      requires epIn.Length == MaxEndpoints && epOut.Length == MaxEndpoints
      ensures Valid() && fresh(SetupBuffer) && fresh(DataBuf)
      ensures EpCtl == epCtl && EpIn == epIn && EpOut == epOut && Hooks == hooks
      ensures Attached == 0 && State == StateNotAttached && SetupState == SetupIdle && Events == []
    {
      Port, Attached, State, Addr, RemoteWakeup, IsHost := null, 0, StateNotAttached, 0, 0, false;
      EpCtl, EpIn, EpOut := epCtl, epIn, epOut;
      SetupBuffer := new byte[8](_ => 0);
      DataBuf := new byte[DataBufSize](_ => 0);
      SetupState, SetupLength, SetupIndex := SetupIdle, 0, 0;
      Hooks, Events := hooks, [];
    }

    /** Buffer sizes, and the control-transfer invariant: while streaming
        the data stage the cursor stays within the requested length, and the
        requested length within the data buffer. */
    ghost predicate Valid()
      reads this
    {
      SetupBuffer.Length == 8 && DataBuf.Length == DataBufSize && SetupBuffer != DataBuf &&
      EpIn.Length == MaxEndpoints && EpOut.Length == MaxEndpoints &&
      (SetupState == SetupData ==> SetupIndex <= SetupLength <= DataBufSize)
    }

    /** The endpoint table: endpoint 0 is the control endpoint, IN[i] and
        OUT[i] have number i + 1 and the matching direction, all belong to
        this device. */
    ghost predicate EndpointsValid()
      reads this, EpCtl, EpIn, EpOut, EpIn[..], EpOut[..]
    {
      EpIn.Length == MaxEndpoints && EpOut.Length == MaxEndpoints &&
      EpCtl.Num == 0 && EpCtl.Dev == this &&
      (forall i :: 0 <= i < MaxEndpoints ==>
        EpIn[i].Num == i + 1 && EpIn[i].Pid == TokenIn && EpIn[i].Dev == this) &&
      (forall i :: 0 <= i < MaxEndpoints ==>
        EpOut[i].Num == i + 1 && EpOut[i].Pid == TokenOut && EpOut[i].Dev == this)
    }
  }

  /** The device, or no object for a null reference: lets a frame name
      single fields of a device that may be absent. */
  function Present(d: Device?): set<Device> {
    if d == null then {} else {d}
  }

  /** The endpoint, or no object for a null reference. */
  function PresentEndpoint(e: Endpoint?): set<Endpoint> {
    if e == null then {} else {e}
  }

  class Port {
    var PortIndex: int
    var SpeedMask: int
    var Path: string
    /** Number of hubs between the root and this port. */
    var HubCount: nat
    var Dev: Device?
    /** Calls made on the port's attach operation and on the host controller. */
    ghost var Events: seq<PortEvent>

    constructor ()
      ensures Dev == null && Events == [] && Path == "" && HubCount == 0
    {
      PortIndex, SpeedMask, Path, HubCount, Dev, Events := 0, 0, "", 0, null, [];
    }
  }
}
