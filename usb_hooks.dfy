/** Byte movement between a packet's vector and a flat buffer, and the
    "call the hook if present" dispatchers into the device class. A hook's
    body belongs to a device-class backend that is not part of this model:
    a present hook is an arbitrary step within the bounds the core relies
    on, and it is recorded in the device's ghost `Events`; an absent hook
    changes nothing. */
module UsbHooks {
  import opened UsbTypes
  import opened UsbState

  /** What a backend may report for packet `p` on endpoint `ep`: never
      ASYNC on an isochronous endpoint, ASYNC on an interrupt endpoint only
      for a device in host role, and on a pipelined endpoint with packets
      still queued only ASYNC or ADD_TO_QUEUE (otherwise packets would
      complete out of order). */
  predicate BackendMayReturn(st: Ret, ep: Endpoint, isHost: bool, stream: nat)
    reads ep
  {
    (st == RetAsync ==> AsyncAllowed(ep, isHost)) &&
    (st != RetAsync && st != RetAddToQueue && stream == 0 && ep.Pipeline ==> ep.Queue == [])
  }

  /** A packet on `ep` may complete asynchronously: host controllers cannot
      handle that on isochronous endpoints, and on interrupt endpoints it is
      reserved to devices in host role. */
  predicate AsyncAllowed(ep: Endpoint, isHost: bool)
    reads ep`Type
  {
    ep.Type != XferIsoc && (ep.Type == XferInt ==> isHost)
  }

  /** USB_PacketCopy: moves `bytes` bytes between `buf[off..]` and the
      packet's vector at offset ActualLength (vector to buffer for SETUP and
      OUT, buffer to vector for IN) and advances ActualLength by `bytes`. */
  method PacketCopy(p: Packet, buf: array<byte>, off: nat, bytes: nat)
    requires p.Pid != TokenOther
    requires p.ActualLength + bytes <= |p.IoVec|
    requires off + bytes <= buf.Length
    modifies p`ActualLength, p`IoVec, buf
    ensures p.ActualLength == old(p.ActualLength) + bytes
    ensures |p.IoVec| == old(|p.IoVec|)
    ensures p.Pid != TokenIn ==>
      buf[..] == old(buf[..off]) + old(p.IoVec[p.ActualLength..p.ActualLength + bytes]) + old(buf[off + bytes..]) &&
      p.IoVec == old(p.IoVec)
    ensures p.Pid == TokenIn ==>
      buf[..] == old(buf[..]) &&
      p.IoVec == old(p.IoVec[..p.ActualLength]) + buf[off..off + bytes] + old(p.IoVec[p.ActualLength + bytes..])
  {
    var al := p.ActualLength;
    var v := p.IoVec;
    if p.Pid == TokenSetup || p.Pid == TokenOut {
      forall i | 0 <= i < bytes {
        buf[off + i] := v[al + i];
      }
      assert buf[..] == old(buf[..off]) + v[al..al + bytes] + old(buf[off + bytes..]);
    } else {
      var updated := v[..al] + buf[off..off + bytes] + v[al + bytes..];
      p.IoVec := updated;
    }
    p.ActualLength := al + bytes;
  }

  /** USB_DeviceInit: the class's init hook, or 0 when it has none. */
  method DeviceInit(dev: Device) returns (r: int)
    modifies dev`Events
    ensures HookInit !in dev.Hooks ==> r == 0 && dev.Events == old(dev.Events)
    ensures HookInit in dev.Hooks ==> dev.Events == old(dev.Events) + [HookInit]
  {
    r := 0;
    if HookInit in dev.Hooks {
      r :| true;
      dev.Events := dev.Events + [HookInit];
    }
  }

  /** USB_DeviceFindDevice: the class's resolver for an address behind the
      device (a hub), or null when it has none. */
  method DeviceFindDevice(dev: Device, addr: byte) returns (r: Device?)
    modifies dev`Events
    ensures HookFindDevice !in dev.Hooks ==> r == null && dev.Events == old(dev.Events)
    ensures HookFindDevice in dev.Hooks ==> dev.Events == old(dev.Events) + [HookFindDevice]
  {
    r := null;
    if HookFindDevice in dev.Hooks {
      r :| true;
      dev.Events := dev.Events + [HookFindDevice];
    }
  }

  /** USB_DeviceCancelPacket. */
  method DeviceCancelPacket(dev: Device, p: Packet)
    modifies dev`Events
    ensures dev.Events == old(dev.Events) + (if HookCancelPacket in dev.Hooks then [HookCancelPacket] else [])
  {
    if HookCancelPacket in dev.Hooks {
      dev.Events := dev.Events + [HookCancelPacket];
    }
  }

  /** USB_DeviceHandleDestroy. */
  method DeviceHandleDestroy(dev: Device)
    modifies dev`Events
    ensures dev.Events == old(dev.Events) + (if HookHandleDestroy in dev.Hooks then [HookHandleDestroy] else [])
  {
    if HookHandleDestroy in dev.Hooks {
      dev.Events := dev.Events + [HookHandleDestroy];
    }
  }

  /** USB_DeviceHandleAttach. */
  method DeviceHandleAttach(dev: Device)
    modifies dev`Events
    ensures dev.Events == old(dev.Events) + (if HookHandleAttach in dev.Hooks then [HookHandleAttach] else [])
  {
    if HookHandleAttach in dev.Hooks {
      dev.Events := dev.Events + [HookHandleAttach];
    }
  }

  /** USB_DeviceHandleReset. */
  method DeviceHandleReset(dev: Device)
    modifies dev`Events
    ensures dev.Events == old(dev.Events) + (if HookHandleReset in dev.Hooks then [HookHandleReset] else [])
  {
    if HookHandleReset in dev.Hooks {
      dev.Events := dev.Events + [HookHandleReset];
    }
  }

  /** USB_DeviceHandleControl: the class's control handler may set any
      status a backend may report, report at most `length` bytes (and no
      more than the data buffer holds), and rewrite the data buffer. */
  method DeviceHandleControl(dev: Device, p: Packet, request: nat, value: nat, index: nat, length: nat)
    requires p.Endpoint != null
    modifies p`Status, p`ActualLength, dev`Events, dev.DataBuf
    ensures HookHandleControl !in dev.Hooks ==>
      p.Status == old(p.Status) && p.ActualLength == old(p.ActualLength) &&
      dev.Events == old(dev.Events) && dev.DataBuf[..] == old(dev.DataBuf[..])
    ensures HookHandleControl in dev.Hooks ==>
      dev.Events == old(dev.Events) + [HookHandleControl] &&
      p.ActualLength <= length && p.ActualLength <= dev.DataBuf.Length &&
      BackendMayReturn(p.Status, p.Endpoint, dev.IsHost, p.Stream)
  {
    if HookHandleControl in dev.Hooks {
      assert BackendMayReturn(RetAddToQueue, p.Endpoint, dev.IsHost, p.Stream);
      var st: Ret :| BackendMayReturn(st, p.Endpoint, dev.IsHost, p.Stream);
      var al: nat :| al <= length && al <= dev.DataBuf.Length;
      var zeros: seq<byte> := seq(dev.DataBuf.Length, _ => 0);
      assert |zeros| == dev.DataBuf.Length;  // a witness for the choice below
      var contents: seq<byte> :| |contents| == dev.DataBuf.Length;
      forall i | 0 <= i < dev.DataBuf.Length {
        dev.DataBuf[i] := contents[i];
      }
      p.Status, p.ActualLength := st, al;
      dev.Events := dev.Events + [HookHandleControl];
    }
  }

  /** USB_DeviceHandleData: the class's handler for a data endpoint may set
      any status a backend may report, fill the vector, and report at most
      the vector's capacity. */
  method DeviceHandleData(dev: Device, p: Packet)
    requires p.Endpoint != null
    modifies p`Status, p`ActualLength, p`IoVec, dev`Events
    ensures |p.IoVec| == old(|p.IoVec|)
    ensures HookHandleData !in dev.Hooks ==>
      p.Status == old(p.Status) && p.ActualLength == old(p.ActualLength) &&
      p.IoVec == old(p.IoVec) && dev.Events == old(dev.Events)
    ensures HookHandleData in dev.Hooks ==>
      dev.Events == old(dev.Events) + [HookHandleData] &&
      p.ActualLength <= |p.IoVec| && BackendMayReturn(p.Status, p.Endpoint, dev.IsHost, p.Stream)
  {
    if HookHandleData in dev.Hooks {
      assert BackendMayReturn(RetAddToQueue, p.Endpoint, dev.IsHost, p.Stream);
      var st: Ret :| BackendMayReturn(st, p.Endpoint, dev.IsHost, p.Stream);
      var n := |p.IoVec|;
      var al: nat :| al <= n;
      var zeros: seq<byte> := seq(n, _ => 0);  // a witness for the choice below
      var contents: seq<byte> :| |contents| == n;
      p.IoVec := contents;
      p.Status, p.ActualLength := st, al;
      dev.Events := dev.Events + [HookHandleData];
    }
  }

  /** USB_DeviceSetInterface. */
  method DeviceSetInterface(dev: Device, iface: int, altOld: int, altNew: int)
    modifies dev`Events
    ensures dev.Events == old(dev.Events) + (if HookSetInterface in dev.Hooks then [HookSetInterface] else [])
  {
    if HookSetInterface in dev.Hooks {
      dev.Events := dev.Events + [HookSetInterface];
    }
  }

  /** USB_DeviceFlushEPqueue. */
  method DeviceFlushEpQueue(dev: Device, ep: Endpoint)
    modifies dev`Events
    ensures dev.Events == old(dev.Events) + (if HookFlushEpQueue in dev.Hooks then [HookFlushEpQueue] else [])
  {
    if HookFlushEpQueue in dev.Hooks {
      dev.Events := dev.Events + [HookFlushEpQueue];
    }
  }

  /** USB_DeviceEPstopped. */
  method DeviceEpStopped(dev: Device, ep: Endpoint)
    modifies dev`Events
    ensures dev.Events == old(dev.Events) + (if HookEpStopped in dev.Hooks then [HookEpStopped] else [])
  {
    if HookEpStopped in dev.Hooks {
      dev.Events := dev.Events + [HookEpStopped];
    }
  }
}
