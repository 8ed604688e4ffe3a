/** The packet lifecycle: preparing a packet, submitting it to a device
    (processed at once or queued behind earlier packets on its endpoint),
    and cancelling a packet that is in flight. */
module UsbPackets {
  import opened UsbTypes
  import opened UsbState
  import opened UsbHooks
  import opened UsbControl

  /** USB_PacketSetup: ready a packet that is not in flight for a new
      transfer, with an empty vector. */
  method PacketSetup(p: Packet, pid: Pid, ep: Endpoint?, stream: nat, id: nat, shortNotOK: bool, intReq: bool)
    requires !p.InFlight()
    modifies p
    ensures p.Id == id && p.Pid == pid && p.Endpoint == ep && p.Stream == stream
    ensures p.ShortNotOK == shortNotOK && p.IntReq == intReq
    ensures p.Status == RetSuccess && p.ActualLength == 0 && p.Parameter == 0
    ensures p.IoVec == [] && p.State == PktSetup && !p.InFlight()
  {
    p.Id, p.Pid, p.Endpoint, p.Stream := id, pid, ep, stream;
    p.Status, p.ActualLength, p.Parameter := RetSuccess, 0, 0;
    p.ShortNotOK, p.IntReq := shortNotOK, intReq;
    p.IoVec := [];
    p.State := PktSetup;
  }

  /** USB_PacketAddBuffer: extend the packet's vector with a buffer. */
  method PacketAddBuffer(p: Packet, data: seq<byte>)
    modifies p`IoVec
    ensures p.IoVec == old(p.IoVec) + data
    ensures p.IoVec[..old(|p.IoVec|)] == old(p.IoVec) && |p.IoVec| == old(|p.IoVec|) + |data|
  {
    p.IoVec := p.IoVec + data;
  }

  /** USB_QueueOne: put the packet at the tail of its endpoint's queue, to
      be completed asynchronously. */
  method QueueOne(p: Packet)
    requires p.Endpoint != null && p.Endpoint.QueueValid() && p !in p.Endpoint.Queue
    modifies p`State, p`Status, p.Endpoint`Queue
    ensures p.State == PktQueued && p.Status == RetAsync
    ensures p.Endpoint.Queue == old(p.Endpoint.Queue) + [p]
    ensures p.Endpoint.QueueValid()
  {
    p.State := PktQueued;
    p.Endpoint.Queue := p.Endpoint.Queue + [p];
    p.Status := RetAsync;
  }

  /** What USB_ProcessOne needs of a packet on a device's endpoint: the
      control data copies fit the packet's vector, the parameter word is 64
      bits wide, and on a pipelined endpoint with packets waiting a result
      can only come back asynchronously (a data endpoint whose class
      handles data; the control handlers stall by themselves). */
  ghost predicate ProcessReady(dev: Device, p: Packet)
    reads dev, p, p.Endpoint
  {
    p.Endpoint != null && p.Endpoint.Dev == dev && dev.Valid() &&
    p.Parameter < 0x1_0000_0000_0000_0000 &&
    (p.Endpoint.Num == 0 && p.Parameter != 0 ==> ParamFits(p)) &&
    (p.Endpoint.Num == 0 && p.Parameter == 0 ==> CopyFits(dev, p)) &&
    (p.Stream == 0 && p.Endpoint.Pipeline && p.Endpoint.Queue != [] ==>
      p.Endpoint.Num != 0 && HookHandleData in dev.Hooks)
  }

  /** USB_ProcessOne: run one packet through its device with its status
      reset to SUCCESS first: the control state machine on endpoint 0 (the
      parameter form when a parameter word is set, a stall for a token it
      does not know), the class's data handler on other endpoints. */
  method ProcessOne(dev: Device, p: Packet) returns (ghost reported: nat)
    requires ProcessReady(dev, p)
    modifies p`Status, p`ActualLength, p`IoVec
    modifies dev`SetupState, dev`SetupLength, dev`SetupIndex, dev`Events, dev.SetupBuffer, dev.DataBuf
    ensures dev.Valid()
    ensures BackendMayReturn(p.Status, p.Endpoint, dev.IsHost, p.Stream)
    ensures p.Endpoint.Num != 0 ==>
      dev.Events == old(dev.Events) + (if HookHandleData in dev.Hooks then [HookHandleData] else []) &&
      ControlKept(dev, old(Snapshot(dev, p))) &&
      (HookHandleData !in dev.Hooks ==>
        p.Status == RetSuccess && p.ActualLength == old(p.ActualLength) && p.IoVec == old(p.IoVec))
    ensures p.Endpoint.Num == 0 ==> ControlDone(dev, p, old(Snapshot(dev, p)), reported)
    ensures p.Endpoint.Num == 0 ==>
      dev.Events == old(dev.Events) || dev.Events == old(dev.Events) + [HookHandleControl]
    ensures p.Endpoint.Num == 0 && p.Parameter == 0 && p.Pid == TokenOther ==>
      p.Status == RetStall && dev.Events == old(dev.Events) && ControlKept(dev, old(Snapshot(dev, p)))
  {
    reported := 0;
    p.Status := RetSuccess;
    if p.Endpoint.Num == 0 {
      reported := ProcessControl(dev, p);
    } else {
      DeviceHandleData(dev, p);
    }
  }

  /** What endpoint 0 does with a packet whose status starts as SUCCESS:
      the parameter form, the SETUP, IN and OUT token handlers, or a stall
      for any other token; at most one call of the control handler. */
  ghost predicate ControlDone(dev: Device, p: Packet, b: ControlSnapshot, reported: nat)
    reads dev, dev.SetupBuffer, dev.DataBuf, p`Endpoint, p`Parameter, p`Pid, p`Status, p`ActualLength, p`IoVec, PresentEndpoint(p.Endpoint)`Type
  {
    (dev.Events == b.events || dev.Events == b.events + [HookHandleControl]) &&
    if p.Parameter != 0 then
      ParameterDone(dev, p, b, RetSuccess, reported)
    else
      match p.Pid
      case TokenSetup => SetupDone(dev, p, b, RetSuccess, reported)
      case TokenIn => TokenInDone(dev, p, b, RetSuccess)
      case TokenOut => TokenOutDone(dev, p, b, RetSuccess)
      case TokenOther =>
        p.Status == RetStall && dev.Events == b.events && ControlKept(dev, b) &&
        p.ActualLength == b.actual && p.IoVec == b.iovec
  }

  /** The endpoint-0 branch of USB_ProcessOne. */
  method ProcessControl(dev: Device, p: Packet) returns (ghost reported: nat)
    requires ProcessReady(dev, p) && p.Endpoint.Num == 0 && p.Status == RetSuccess
    modifies p`Status, p`ActualLength, p`IoVec
    modifies dev`SetupState, dev`SetupLength, dev`SetupIndex, dev`Events, dev.SetupBuffer, dev.DataBuf
    ensures dev.Valid()
    ensures BackendMayReturn(p.Status, p.Endpoint, dev.IsHost, p.Stream)
    ensures ControlDone(dev, p, old(Snapshot(dev, p)), reported)
  {
    if p.Parameter != 0 {
      ghost var staged;
      reported, staged := DoParameter(dev, p);
      return;
    }
    reported := ProcessToken(dev, p);
  }

  /** The token switch of USB_ProcessOne on endpoint 0, for a packet with
      no parameter word. */
  method ProcessToken(dev: Device, p: Packet) returns (ghost reported: nat)
    requires ProcessReady(dev, p) && p.Endpoint.Num == 0 && p.Status == RetSuccess && p.Parameter == 0
    modifies p`Status, p`ActualLength, p`IoVec
    modifies dev`SetupState, dev`SetupLength, dev`SetupIndex, dev`Events, dev.SetupBuffer, dev.DataBuf
    ensures dev.Valid()
    ensures BackendMayReturn(p.Status, p.Endpoint, dev.IsHost, p.Stream)
    ensures ControlDone(dev, p, old(Snapshot(dev, p)), reported)
  {
    reported := 0;
    match p.Pid {
      case TokenSetup =>
        reported := DoTokenSetup(dev, p);
      case TokenIn =>
        DoTokenIn(dev, p);
      case TokenOut =>
        DoTokenOut(dev, p);
      case TokenOther =>
        p.Status := RetStall;
    }
  }

  /** What USB_HandlePacket demands of a packet submitted to a device: a
      freshly set-up packet on one of the device's endpoints, the device in
      the DEFAULT state, a halted endpoint with nothing queued, and what
      processing it needs. */
  ghost predicate Submittable(dev: Device, p: Packet)
    reads dev, p, p.Endpoint, if p.Endpoint != null then p.Endpoint.Queue else []
  {
    p.Endpoint != null && p.Endpoint.Dev == dev && dev.State == StateDefault &&
    p.State == PktSetup && p.Endpoint.QueueValid() &&
    (p.Endpoint.Halted ==> p.Endpoint.Queue == []) &&
    ProcessReady(dev, p)
  }

  /** The outcome of submitting packet `p` to `dev`: the endpoint is no
      longer halted; the packet is in flight exactly when its status is
      ASYNC, and then it sits at the tail of its endpoint's queue, which is
      otherwise unchanged; it stays in SETUP exactly on NAK and is complete
      on any other status; it waits asynchronously only where that is
      allowed. */
  twostate predicate Submitted(dev: Device, p: Packet)
    reads dev, p, p.Endpoint, if p.Endpoint != null then p.Endpoint.Queue else []
  {
    p.Endpoint != null && p.Endpoint == old(p.Endpoint) && p.Endpoint.Dev == dev &&
    dev.Valid() && !p.Endpoint.Halted && p.Endpoint.QueueValid() &&
    (p.InFlight() <==> p.Status == RetAsync) &&
    (p.InFlight() ==> p.Endpoint.Queue == old(p.Endpoint.Queue) + [p]) &&
    (!p.InFlight() ==> p.Endpoint.Queue == old(p.Endpoint.Queue)) &&
    (p.State == PktSetup <==> p.Status == RetNak) &&
    (p.State == PktComplete <==> p.Status != RetAsync && p.Status != RetNak) &&
    (p.State == PktAsync ==> AsyncAllowed(p.Endpoint, dev.IsHost))
  }

  /** USB_HandlePacket: submit a packet; a missing device reports NODEV.
      `processed` tells whether the packet went to the device at once, and
      `handled` is the status processing gave it. */
  method HandlePacket(dev: Device?, p: Packet) returns (ghost processed: bool, ghost handled: Ret, ghost reported: nat)
    requires dev != null ==> Submittable(dev, p)
    modifies p`Status, p`State, p`ActualLength, p`IoVec
    modifies (if dev == null then {} else PresentEndpoint(p.Endpoint))`Halted
    modifies (if dev == null then {} else PresentEndpoint(p.Endpoint))`Queue
    modifies Present(dev)`SetupState, Present(dev)`SetupLength, Present(dev)`SetupIndex, Present(dev)`Events
    modifies if dev == null then {} else {dev.SetupBuffer, dev.DataBuf}
    ensures dev == null ==>
      p.Status == RetNoDev && p.State == old(p.State) &&
      p.ActualLength == old(p.ActualLength) && p.IoVec == old(p.IoVec)
    ensures dev != null ==> Submitted(dev, p) && SubmitOutcome(dev, p, processed, handled, reported)
  {
    processed, handled, reported := false, RetNoDev, 0;
    if dev == null {
      p.Status := RetNoDev;
      return;
    }
    processed, handled, reported := SubmitPacket(dev, p);
  }

  /** How a submission ended, beyond Submitted: the packet is processed at
      once exactly when its endpoint had nothing queued, is pipelined, or
      the packet belongs to a stream; otherwise it waits QUEUED with no
      handler run. A processed packet whose handling gave ASYNC waits as
      ASYNC, one that gave ADD_TO_QUEUE waits as QUEUED, and any other
      status is its final status. A data endpoint without a data handler
      completes with SUCCESS; on endpoint 0 the control outcome stands
      unless the packet was queued afterwards. */
  twostate predicate SubmitOutcome(dev: Device, p: Packet, processed: bool, handled: Ret, reported: nat)
    reads dev, dev.SetupBuffer, dev.DataBuf, p, p.Endpoint
  {
    p.Endpoint != null && old(p.Endpoint) == p.Endpoint &&
    (processed <==> old(p.Endpoint.Queue) == [] || p.Endpoint.Pipeline || p.Stream != 0) &&
    (!processed ==>
      p.State == PktQueued && p.Status == RetAsync && dev.Events == old(dev.Events) &&
      ControlKept(dev, old(Snapshot(dev, p))) &&
      p.ActualLength == old(p.ActualLength) && p.IoVec == old(p.IoVec)) &&
    (processed && handled == RetAsync ==> p.State == PktAsync && p.Status == RetAsync) &&
    (processed && handled == RetAddToQueue ==> p.State == PktQueued && p.Status == RetAsync) &&
    (processed && handled != RetAsync && handled != RetAddToQueue ==> p.Status == handled) &&
    (processed && p.Endpoint.Num != 0 ==> ControlKept(dev, old(Snapshot(dev, p)))) &&
    (processed && p.Endpoint.Num != 0 && HookHandleData !in dev.Hooks ==>
      handled == RetSuccess && p.State == PktComplete &&
      p.ActualLength == old(p.ActualLength) && p.IoVec == old(p.IoVec)) &&
    (processed && p.Endpoint.Num == 0 ==>
      (dev.Events == old(dev.Events) || dev.Events == old(dev.Events) + [HookHandleControl]) &&
      (p.Parameter == 0 && p.Pid == TokenOther ==>
        handled == RetStall && dev.Events == old(dev.Events) && ControlKept(dev, old(Snapshot(dev, p)))))
  }

  /** The body of USB_HandlePacket for a present device. It is processed
      at once when its endpoint has nothing queued, is pipelined, or the
      packet belongs to a stream; otherwise it waits at the tail of the
      queue without any handler running. */
  method SubmitPacket(dev: Device, p: Packet) returns (ghost processed: bool, ghost handled: Ret, ghost reported: nat)
    requires Submittable(dev, p)
    modifies p`Status, p`State, p`ActualLength, p`IoVec, p.Endpoint`Halted, p.Endpoint`Queue
    modifies dev`SetupState, dev`SetupLength, dev`SetupIndex, dev`Events, dev.SetupBuffer, dev.DataBuf
    ensures Submitted(dev, p) && SubmitOutcome(dev, p, processed, handled, reported)
  {
    var ep := p.Endpoint;
    assert forall i :: 0 <= i < |ep.Queue| ==> ep.Queue[i].InFlight() && ep.Queue[i] != p;
    processed, handled, reported := false, RetAddToQueue, 0;
    if ep.Halted {
      ep.Halted := false;
    }
    if ep.Queue == [] || ep.Pipeline || p.Stream != 0 {
      processed := true;
      handled, reported := ProcessNow(dev, p);
    } else {
      QueueOne(p);
    }
  }

  /** The processing branch of USB_HandlePacket: process the packet and
      record the status it gets (`handled`). */
  method ProcessNow(dev: Device, p: Packet) returns (ghost handled: Ret, ghost reported: nat)
    requires ProcessReady(dev, p) && p.State == PktSetup && p.Endpoint.QueueValid() && p !in p.Endpoint.Queue
    modifies p`Status, p`State, p`ActualLength, p`IoVec, p.Endpoint`Queue
    modifies dev`SetupState, dev`SetupLength, dev`SetupIndex, dev`Events, dev.SetupBuffer, dev.DataBuf
    ensures dev.Valid() && p.Endpoint.QueueValid()
    ensures handled == RetAsync ==>
      p.State == PktAsync && p.Status == RetAsync && p.Endpoint.Queue == old(p.Endpoint.Queue) + [p] &&
      AsyncAllowed(p.Endpoint, dev.IsHost)
    ensures handled == RetAddToQueue ==>
      p.State == PktQueued && p.Status == RetAsync && p.Endpoint.Queue == old(p.Endpoint.Queue) + [p]
    ensures handled != RetAsync && handled != RetAddToQueue ==>
      p.Status == handled && p.Endpoint.Queue == old(p.Endpoint.Queue) &&
      p.State == (if handled == RetNak then PktSetup else PktComplete)
    ensures p.Endpoint.Num != 0 ==>
      dev.Events == old(dev.Events) + (if HookHandleData in dev.Hooks then [HookHandleData] else []) &&
      ControlKept(dev, old(Snapshot(dev, p))) &&
      (HookHandleData !in dev.Hooks ==>
        handled == RetSuccess && p.ActualLength == old(p.ActualLength) && p.IoVec == old(p.IoVec))
    ensures p.Endpoint.Num == 0 ==>
      (dev.Events == old(dev.Events) || dev.Events == old(dev.Events) + [HookHandleControl]) &&
      (p.Parameter == 0 && p.Pid == TokenOther ==>
        handled == RetStall && dev.Events == old(dev.Events) && ControlKept(dev, old(Snapshot(dev, p))))
  {
    reported := ProcessOne(dev, p);
    handled := p.Status;
    RecordResult(dev, p);
  }

  /** The part of USB_HandlePacket after processing: an asynchronous
      result puts the packet at the tail of its queue as ASYNC, an
      add-to-queue result queues it, NAK leaves it in SETUP to be retried,
      and anything else completes it. The source's assertions hold because
      of what a backend may return. */
  method RecordResult(dev: Device, p: Packet)
    requires p.Endpoint != null && p.Endpoint.QueueValid() && p !in p.Endpoint.Queue && p.State == PktSetup
    requires BackendMayReturn(p.Status, p.Endpoint, dev.IsHost, p.Stream)
    modifies p`State, p`Status, p.Endpoint`Queue
    ensures p.Endpoint.QueueValid()
    ensures old(p.Status) != RetAddToQueue ==> p.Status == old(p.Status)
    ensures old(p.Status) == RetAsync ==>
      p.State == PktAsync && p.Status == RetAsync && p.Endpoint.Queue == old(p.Endpoint.Queue) + [p] &&
      AsyncAllowed(p.Endpoint, dev.IsHost)
    ensures old(p.Status) == RetAddToQueue ==>
      p.State == PktQueued && p.Status == RetAsync && p.Endpoint.Queue == old(p.Endpoint.Queue) + [p]
    ensures old(p.Status) != RetAsync && old(p.Status) != RetAddToQueue ==>
      p.Status == old(p.Status) && p.Endpoint.Queue == old(p.Endpoint.Queue) &&
      p.State == (if p.Status == RetNak then PktSetup else PktComplete)
  {
    var ep := p.Endpoint;
    if p.Status == RetAsync {
      assert ep.Type != XferIsoc;
      assert ep.Type != XferInt || dev.IsHost;
      p.State := PktAsync;
      ep.Queue := ep.Queue + [p];
    } else if p.Status == RetAddToQueue {
      QueueOne(p);
    } else {
      assert p.Stream != 0 || !ep.Pipeline || ep.Queue == [];
      if p.Status != RetNak {
        p.State := PktComplete;
      }
    }
  }

  /** USB_CancelPacket: take an in-flight packet off its endpoint's queue,
      the others keeping their order, and tell the device class when the
      packet was waiting for it. */
  method CancelPacket(p: Packet)
    requires p.Endpoint != null && p.InFlight() && p.Endpoint.QueueValid() && p in p.Endpoint.Queue
    requires p.State == PktAsync ==> p.Endpoint.Dev != null
    modifies p`State, p.Endpoint`Queue, Present(p.Endpoint.Dev)`Events
    ensures p.State == PktCanceled && !p.InFlight()
    ensures p.Endpoint.Queue == Without(old(p.Endpoint.Queue), p)
    ensures p !in p.Endpoint.Queue && |p.Endpoint.Queue| == old(|p.Endpoint.Queue|) - 1
    ensures forall x :: x in p.Endpoint.Queue <==> x in old(p.Endpoint.Queue) && x != p
    ensures p.Endpoint.QueueValid()
    ensures p.Endpoint.Dev != null && old(p.Endpoint.Dev.Valid()) ==> p.Endpoint.Dev.Valid()
    ensures p.Endpoint.Dev != null ==>
      p.Endpoint.Dev.Events == old(p.Endpoint.Dev.Events) +
        (if old(p.State) == PktAsync && HookCancelPacket in p.Endpoint.Dev.Hooks then [HookCancelPacket] else []) &&
      p.Endpoint.Dev.Hooks == old(p.Endpoint.Dev.Hooks)
  {
    var callback := p.State == PktAsync;
    Dequeue(p);
    if callback {
      DeviceCancelPacket(p.Endpoint.Dev, p);
    }
  }

  /** The state change and queue removal of USB_CancelPacket: the packet
      becomes CANCELED and leaves its endpoint's queue, the others keeping
      their order. */
  method Dequeue(p: Packet)
    requires p.Endpoint != null && p.InFlight() && p.Endpoint.QueueValid() && p in p.Endpoint.Queue
    modifies p`State, p.Endpoint`Queue
    ensures p.State == PktCanceled
    ensures p.Endpoint.Queue == Without(old(p.Endpoint.Queue), p)
    ensures p !in p.Endpoint.Queue && |p.Endpoint.Queue| == old(|p.Endpoint.Queue|) - 1
    ensures forall x :: x in p.Endpoint.Queue <==> x in old(p.Endpoint.Queue) && x != p
    ensures p.Endpoint.QueueValid()
  {
    var ep := p.Endpoint;
    ghost var q := ep.Queue;
    ghost var k :| 0 <= k < |q| && q[k] == p;
    WithoutAt(q, p, k);
    RemoveAtDistinct(q, k);
    p.State := PktCanceled;
    ep.Queue := Without(ep.Queue, p);
    assert forall i :: 0 <= i < |ep.Queue| ==> ep.Queue[i] in q && ep.Queue[i] != p;
  }
}
