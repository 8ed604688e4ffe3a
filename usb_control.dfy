/** The endpoint-0 control-transfer state machine: the packed-parameter
    variant (USB_DoParameter) and the SETUP / IN / OUT token handlers that
    sequence the Setup, Data and Status stages of section 8.5.3 of the
    USB 2.0 specification. */
module UsbControl {
  import opened UsbTypes
  import opened UsbState
  import opened UsbHooks

  /** Bytes moved by one data-stage token: what remains of the requested
      length, at most the packet's own vector size. */
  function ChunkLen(length: nat, index: nat, size: nat): (len: nat)
    requires index <= length
    ensures len <= size && index + len <= length
    ensures len == size || index + len == length
  {
    if length - index > size then size else length - index
  }

  /** The chunk sizes of a whole data stage streamed from `index` with
      packets of `size` bytes, one per token, until the cursor reaches
      `length`. */
  function Chunks(length: nat, index: nat, size: nat): seq<nat>
    requires index <= length && size > 0
    decreases length - index
  {
    if index == length then []
    else [ChunkLen(length, index, size)] + Chunks(length, index + ChunkLen(length, index, size), size)
  }

  function Sum(s: seq<nat>): nat {
    if s == [] then 0 else s[0] + Sum(s[1..])
  }

  /** A data stage moves exactly the requested bytes, in full-size chunks
      except possibly the last. */
  lemma {:induction false} ChunksCover(length: nat, index: nat, size: nat)
    requires index <= length && size > 0
    ensures Sum(Chunks(length, index, size)) == length - index
    ensures forall k :: 0 <= k < |Chunks(length, index, size)| - 1 ==> Chunks(length, index, size)[k] == size
    ensures forall k :: 0 <= k < |Chunks(length, index, size)| ==> 0 < Chunks(length, index, size)[k] <= size
    decreases length - index
  {
    if index < length {
      var len := ChunkLen(length, index, size);
      ChunksCover(length, index + len, size);
      var rest := Chunks(length, index + len, size);
      assert Chunks(length, index, size) == [len] + rest;
      assert ([len] + rest)[1..] == rest;
      if rest != [] {
        assert index + len < length;
      }
    }
  }

  /** The copy windows needed for the data stage of a request fit the
      control data buffer exactly when the request length does. */
  lemma {:induction false} DataStageWithinBuffer(length: nat, size: nat)
    requires size > 0
    ensures Sum(Chunks(length, 0, size)) <= DataBufSize <==> length <= DataBufSize
  {
    ChunksCover(length, 0, size);
  }

  /** The packet vector has room for what the token handlers copy into or
      out of it (the copy-within-capacity assertion of USB_PacketCopy). */
  ghost predicate CopyFits(s: Device, p: Packet)
    reads s, p
  {
    (p.Pid == TokenSetup && |p.IoVec| == 8 ==> p.ActualLength + 8 <= |p.IoVec|) &&
    (s.SetupState == SetupData && SetupIndexOk(s) ==>
      p.ActualLength + ChunkLen(s.SetupLength, s.SetupIndex, |p.IoVec|) <= |p.IoVec|)
  }

  ghost predicate SetupIndexOk(s: Device)
    reads s
  {
    s.SetupIndex <= s.SetupLength
  }

  /** wLength of a packed parameter word. */
  function ParamLength(param: nat): (len: nat)
    ensures len < 0x1_0000
  {
    WordBounds(ParamByte(param, 7), ParamByte(param, 6));
    Word(ParamByte(param, 7), ParamByte(param, 6))
  }

  /** The vector has room for the payload of a parameter-style request that
      passes the data-buffer check. */
  ghost predicate ParamFits(p: Packet)
    reads p
  {
    ParamLength(p.Parameter) <= DataBufSize ==>
      (p.Pid == TokenOut ==> p.ActualLength + ParamLength(p.Parameter) <= |p.IoVec|) &&
      (p.Pid == TokenIn ==> ParamLength(p.Parameter) <= |p.IoVec|)
  }

  /** The loop of USB_DoParameter that spreads the parameter word over the
      eight setup bytes, least significant first. */
  method UnpackParameter(s: Device, param: nat)
    requires s.SetupBuffer.Length == 8
    modifies s.SetupBuffer
    ensures s.SetupBuffer[..] == Unpack(param, 8)
  {
    var i := 0;
    while i < 8
      invariant 0 <= i <= 8
      invariant forall j :: 0 <= j < i ==> s.SetupBuffer[j] == ParamByte(param, j)
    {
      s.SetupBuffer[i] := ParamByte(param, i);
      i := i + 1;
    }
    forall j | 0 <= j < 8 ensures s.SetupBuffer[j] == Unpack(param, 8)[j] {
      UnpackAt(param, 8, j);
    }
  }

  /** The wLength the setup bytes of a parameter word carry is ParamLength. */
  lemma ParamLengthDecoded(param: nat)
    ensures DecodeSetup(Unpack(param, 8)).length == ParamLength(param)
  {
    UnpackAt(param, 8, 6);
    UnpackAt(param, 8, 7);
  }

  /** The control state and the packet's transfer progress as they stood
      before a token was handled; the outcome predicates below compare the
      state after the token with one of these. */
  datatype ControlSnapshot = ControlSnapshot(state: SetupState, length: nat, index: nat, events: seq<Hook>,
                                             setup: seq<byte>, data: seq<byte>, actual: nat, iovec: seq<byte>)

  ghost function Snapshot(s: Device, p: Packet): ControlSnapshot
    reads s, s.SetupBuffer, s.DataBuf, p`ActualLength, p`IoVec
  {
    ControlSnapshot(s.SetupState, s.SetupLength, s.SetupIndex, s.Events, s.SetupBuffer[..], s.DataBuf[..],
                    p.ActualLength, p.IoVec)
  }

  /** The control state of `dev` is as it stood in `b`: the stage, the
      request length and cursor, the setup packet and the data buffer. */
  ghost predicate ControlKept(dev: Device, b: ControlSnapshot)
    reads dev, dev.SetupBuffer, dev.DataBuf
  {
    dev.SetupState == b.state && dev.SetupLength == b.length && dev.SetupIndex == b.index &&
    dev.SetupBuffer[..] == b.setup && dev.DataBuf[..] == b.data
  }

  /** No data moved: the cursor, the packet's progress and vector, and the
      data buffer are as they stood in `b`. */
  ghost predicate TransferKept(s: Device, p: Packet, b: ControlSnapshot)
    reads s, s.DataBuf, p`ActualLength, p`IoVec
  {
    s.SetupIndex == b.index && p.ActualLength == b.actual && p.IoVec == b.iovec && s.DataBuf[..] == b.data
  }

  /** The outcome of USB_DoParameter for a packet whose status was
      `statusIn` on entry: the setup buffer holds the parameter's eight
      bytes and the control state is PARAM. A wLength over the data buffer
      stalls without asking the handler. Otherwise the handler runs once
      and `reported` is the ActualLength it leaves (its own choice when the
      class has a handler, at most wLength; the untouched length without
      one); unless the request went ASYNC, SetupLength is cut to it and an
      IN request gets exactly that many data-buffer bytes. Without a
      handler the data buffer ends as it was handed over: the OUT payload
      in front of the old contents, or the old contents for IN. A stall
      moves no data. */
  ghost predicate ParameterDone(s: Device, p: Packet, b: ControlSnapshot, statusIn: Ret, reported: nat)
    reads s, s.SetupBuffer, s.DataBuf, p`Endpoint, p`Parameter, p`Pid, p`Status, p`ActualLength, p`IoVec, PresentEndpoint(p.Endpoint)`Type
  {
    var len := ParamLength(p.Parameter);
    p.Endpoint != null && s.Valid() && s.SetupBuffer[..] == Unpack(p.Parameter, 8) &&
    s.SetupState == SetupParam && s.SetupIndex == 0 &&
    (len > DataBufSize ==>
      p.Status == RetStall && s.SetupLength == len &&
      p.ActualLength == b.actual && s.Events == b.events &&
      p.IoVec == b.iovec && s.DataBuf[..] == b.data) &&
    (len <= DataBufSize ==> ParameterHandled(s, p, b, len, statusIn, reported)) &&
    (p.Status == RetAsync ==> statusIn == RetAsync || AsyncAllowed(p.Endpoint, s.IsHost))
  }

  /** A parameter-style request of length `len` within the data buffer,
      handled from the transfer progress in `b`: the handler runs once
      and `reported` is the ActualLength it leaves (at most `len` when the
      class has a handler; without one the status stays `statusIn`, the
      data buffer holds what was handed over and an OUT payload counts as
      transferred). Unless the answer is ASYNC the length is cut to
      `reported`, and an IN request gets exactly that many data-buffer
      bytes at the front of its vector, the rest of the vector kept; any
      other vector is kept. */
  ghost predicate ParameterHandled(s: Device, p: Packet, b: ControlSnapshot, len: nat, statusIn: Ret, reported: nat)
    reads s, s.DataBuf, p`Pid, p`Status, p`ActualLength, p`IoVec
  {
    s.Events == b.events + (if HookHandleControl in s.Hooks then [HookHandleControl] else []) &&
    |p.IoVec| == |b.iovec| && (p.Pid != TokenIn ==> p.IoVec == b.iovec) &&
    (HookHandleControl !in s.Hooks ==>
      s.DataBuf[..] == StagedData(b.iovec, b.actual, b.data, p.Pid == TokenOut, len)) &&
    (HookHandleControl in s.Hooks ==> reported <= len) &&
    (HookHandleControl !in s.Hooks ==>
      p.Status == statusIn && reported == b.actual + (if p.Pid == TokenOut then len else 0)) &&
    (p.Status == RetAsync ==> s.SetupLength == len) &&
    (p.Status != RetAsync ==> s.SetupLength == Min(len, reported)) &&
    (p.Status == RetAsync || p.Pid != TokenIn ==> p.ActualLength == reported) &&
    (p.Status != RetAsync && p.Pid == TokenIn ==>
      p.ActualLength == s.SetupLength <= |b.iovec| && s.SetupLength <= s.DataBuf.Length &&
      p.IoVec == s.DataBuf[..s.SetupLength] + b.iovec[s.SetupLength..]) &&
    (p.Status == RetAsync ==> p.IoVec == b.iovec)
  }

  /** The data buffer as the handler of a parameter-style request sees it:
      for an OUT request the `len` payload bytes from the packet's vector
      at its progress replace the front of the buffer. */
  ghost function StagedData(iovec: seq<byte>, actual: nat, data: seq<byte>, out: bool, len: nat): seq<byte>
  {
    if out && actual + len <= |iovec| && len <= |data| then
      iovec[actual..actual + len] + data[len..]
    else
      data
  }

  /** USB_DoParameter: a control request delivered as one 64-bit word.
      `staged` is the data buffer as the handler got it. */
  method DoParameter(s: Device, p: Packet) returns (ghost reported: nat, ghost staged: seq<byte>)
    requires s.Valid() && p.Endpoint != null
    requires p.Parameter < 0x1_0000_0000_0000_0000
    requires ParamFits(p)
    modifies s`SetupState, s`SetupLength, s`SetupIndex, s`Events, s.SetupBuffer, s.DataBuf
    modifies p`Status, p`ActualLength, p`IoVec
    ensures ParameterDone(s, p, old(Snapshot(s, p)), old(p.Status), reported)
    ensures ParamLength(p.Parameter) <= DataBufSize ==>
      staged == StagedData(old(p.IoVec), old(p.ActualLength), old(s.DataBuf[..]), p.Pid == TokenOut, ParamLength(p.Parameter))
  {
    reported, staged := 0, [];
    ghost var b := Snapshot(s, p);
    UnpackParameter(s, p.Parameter);
    ParamLengthDecoded(p.Parameter);
    s.SetupState := SetupParam;
    var f := DecodeSetup(s.SetupBuffer[..]);
    s.SetupLength := f.length;
    s.SetupIndex := 0;
    if s.SetupLength > DataBufSize {
      p.Status := RetStall;
      return;
    }
    reported, staged := ParameterTransfer(s, p, f, b);
  }

  /** The part of USB_DoParameter after the length check: the payload of an
      OUT request goes to the data buffer, the handler runs, the length is
      cut to what it reported, and an IN request gets that many bytes back.
      `staged` is the data buffer as the handler got it; `b` holds the
      transfer progress, the hook trace and the data buffer on entry. */
  method ParameterTransfer(s: Device, p: Packet, f: SetupFields, ghost b: ControlSnapshot)
    returns (ghost reported: nat, ghost staged: seq<byte>)
    requires s.Valid() && p.Endpoint != null && s.SetupState == SetupParam && s.SetupLength <= DataBufSize
    requires p.Pid == TokenOut ==> p.ActualLength + s.SetupLength <= |p.IoVec|
    requires p.Pid == TokenIn ==> s.SetupLength <= |p.IoVec|
    requires b.actual == p.ActualLength && b.iovec == p.IoVec && b.data == s.DataBuf[..] && b.events == s.Events
    modifies s`SetupLength, s`Events, s.DataBuf
    modifies p`Status, p`ActualLength, p`IoVec
    ensures s.Valid() && s.SetupLength <= old(s.SetupLength)
    ensures ParameterHandled(s, p, b, old(s.SetupLength), old(p.Status), reported)
    ensures p.Status == RetAsync ==> old(p.Status) == RetAsync || AsyncAllowed(p.Endpoint, s.IsHost)
    ensures staged == StagedData(b.iovec, b.actual, b.data, p.Pid == TokenOut, old(s.SetupLength))
    ensures HookHandleControl !in s.Hooks ==> s.DataBuf[..] == staged
  {
    if p.Pid == TokenOut {
      PacketCopy(p, s.DataBuf, 0, s.SetupLength);
    }
    staged := s.DataBuf[..];
    reported := HandleParameter(s, p, f, b);
  }

  /** The handler's part of a parameter-style request whose OUT payload,
      if any, is already in the data buffer: the handler runs, and unless
      it answers ASYNC the length is cut to what it reported and an IN
      request gets that many bytes back. */
  method HandleParameter(s: Device, p: Packet, f: SetupFields, ghost b: ControlSnapshot) returns (ghost reported: nat)
    requires s.Valid() && p.Endpoint != null && s.SetupState == SetupParam && s.SetupLength <= DataBufSize
    requires p.Pid == TokenIn ==> s.SetupLength <= |p.IoVec|
    requires b.iovec == p.IoVec && b.events == s.Events
    requires p.ActualLength == b.actual + (if p.Pid == TokenOut then s.SetupLength else 0)
    requires s.DataBuf[..] == StagedData(b.iovec, b.actual, b.data, p.Pid == TokenOut, s.SetupLength)
    modifies s`SetupLength, s`Events, s.DataBuf
    modifies p`Status, p`ActualLength, p`IoVec
    ensures s.Valid() && s.SetupLength <= old(s.SetupLength)
    ensures ParameterHandled(s, p, b, old(s.SetupLength), old(p.Status), reported)
    ensures p.Status == RetAsync ==> old(p.Status) == RetAsync || AsyncAllowed(p.Endpoint, s.IsHost)
    ensures HookHandleControl !in s.Hooks ==> s.DataBuf[..] == old(s.DataBuf[..])
  {
    DeviceHandleControl(s, p, f.request, f.value, f.index, s.SetupLength);
    reported := p.ActualLength;
    if p.Status == RetAsync {
      return;
    }
    FinishParameter(s, p);
  }

  /** The end of a parameter-style request the handler answered with
      something other than ASYNC: the length is cut to what the handler
      reported, and an IN request gets that many data-buffer bytes at the
      front of its vector, the rest of the vector kept. */
  method FinishParameter(s: Device, p: Packet)
    requires s.Valid() && s.SetupState == SetupParam && s.SetupLength <= DataBufSize
    requires p.Pid == TokenIn ==> s.SetupLength <= |p.IoVec|
    modifies s`SetupLength, s.DataBuf
    modifies p`ActualLength, p`IoVec
    ensures s.Valid() && s.DataBuf[..] == old(s.DataBuf[..])
    ensures s.SetupLength == Min(old(s.SetupLength), old(p.ActualLength))
    ensures p.Pid != TokenIn ==> p.ActualLength == old(p.ActualLength) && p.IoVec == old(p.IoVec)
    ensures p.Pid == TokenIn ==>
      p.ActualLength == s.SetupLength && p.IoVec == s.DataBuf[..s.SetupLength] + old(p.IoVec)[s.SetupLength..]
  {
    if p.ActualLength < s.SetupLength {
      s.SetupLength := p.ActualLength;
    }
    if p.Pid == TokenIn {
      p.ActualLength := 0;
      PacketCopy(p, s.DataBuf, 0, s.SetupLength);
    }
  }

  function Min(a: nat, b: nat): nat {
    if a < b then a else b
  }

  /** The outcome of accepting the setup packet now in SetupBuffer, for a
      control state `before`, a hook trace `eventsBefore` and a packet
      status `statusIn` on entry. A wLength over the data buffer stalls,
      returns to IDLE and reports no data. Otherwise the request starts as
      OnSetup describes; only an IN request asks the handler, and `reported`
      is the ActualLength it leaves: its own choice, at most wLength, when
      the class has a handler, and 0 when it has none. The data buffer
      `dataBefore` changes only when a handler answers an IN request. */
  ghost predicate SetupAccepted(s: Device, p: Packet, before: SetupState, eventsBefore: seq<Hook>,
                                dataBefore: seq<byte>, statusIn: Ret, reported: nat)
    reads s, s.SetupBuffer, s.DataBuf, p`Status, p`ActualLength
  {
    s.SetupBuffer.Length == 8 && s.SetupIndex == 0 &&
    var f := DecodeSetup(s.SetupBuffer[..]);
    (f.length > DataBufSize ==>
      p.Status == RetStall && s.SetupState == SetupIdle && s.Events == eventsBefore &&
      s.SetupLength == f.length && p.ActualLength == 0 && s.DataBuf[..] == dataBefore) &&
    (f.length <= DataBufSize ==>
      (!IsDirIn(s.SetupBuffer[0]) || HookHandleControl !in s.Hooks ==> s.DataBuf[..] == dataBefore) &&
      OnSetup(s.SetupBuffer[..], before, statusIn, p.Status, reported, s.SetupState, s.SetupLength) &&
      s.Events == eventsBefore +
        (if IsDirIn(s.SetupBuffer[0]) && HookHandleControl in s.Hooks then [HookHandleControl] else []) &&
      (p.Status == RetSuccess || !IsDirIn(s.SetupBuffer[0]) ==> p.ActualLength == 8) &&
      (IsDirIn(s.SetupBuffer[0]) ==>
        (HookHandleControl in s.Hooks ==> reported <= f.length) &&
        (HookHandleControl !in s.Hooks ==> reported == 0 && p.Status == statusIn) &&
        (p.Status != RetSuccess ==> p.ActualLength == reported)))
  }

  /** The outcome of DoTokenSetup for a packet whose status was `statusIn`
      on entry: a vector that is not eight bytes stalls and changes no
      control state and no transfer progress; otherwise SetupBuffer holds the vector's eight bytes
      and the request is accepted or rejected as SetupAccepted says. The
      data-stage invariant is kept either way. */
  ghost predicate SetupDone(s: Device, p: Packet, b: ControlSnapshot, statusIn: Ret, reported: nat)
    reads s, s.SetupBuffer, s.DataBuf, p`Endpoint, p`Parameter, p`Pid, p`Status, p`ActualLength, p`IoVec, PresentEndpoint(p.Endpoint)`Type
  {
    p.Endpoint != null && s.Valid() && p.IoVec == b.iovec &&
    (|p.IoVec| != 8 ==>
      p.Status == RetStall && s.Events == b.events && ControlKept(s, b) && p.ActualLength == b.actual) &&
    (|p.IoVec| == 8 ==>
      s.SetupBuffer[..] == p.IoVec &&
      SetupAccepted(s, p, b.state, b.events, b.data, statusIn, reported)) &&
    (p.Status == RetAsync ==> statusIn == RetAsync || AsyncAllowed(p.Endpoint, s.IsHost))
  }

  /** USB_DoTokenSetup, with the request length checked against the data
      buffer for both directions before anything is stored, and a rejected
      request returning the control state to IDLE. */
  method DoTokenSetup(s: Device, p: Packet) returns (ghost reported: nat)
    requires s.Valid() && p.Endpoint != null && p.Pid == TokenSetup
    requires CopyFits(s, p)
    modifies s`SetupState, s`SetupLength, s`SetupIndex, s`Events, s.SetupBuffer, s.DataBuf
    modifies p`Status, p`ActualLength, p`IoVec
    ensures SetupDone(s, p, old(Snapshot(s, p)), old(p.Status), reported)
    ensures s.Events == old(s.Events) || s.Events == old(s.Events) + [HookHandleControl]
  {
    reported := 0;
    if |p.IoVec| != 8 {
      p.Status := RetStall;
      return;
    }
    PacketCopy(p, s.SetupBuffer, 0, 8);
    p.ActualLength := 0;
    reported := AcceptSetup(s, p);
  }

  /** The part of DoTokenSetup after the eight setup bytes are in
      SetupBuffer: decode them, check the length, and start the request. */
  method AcceptSetup(s: Device, p: Packet) returns (ghost reported: nat)
    requires s.Valid() && p.Endpoint != null && p.ActualLength == 0
    modifies s`SetupState, s`SetupLength, s`SetupIndex, s`Events, s.DataBuf
    modifies p`Status, p`ActualLength
    ensures s.Valid()
    ensures SetupAccepted(s, p, old(s.SetupState), old(s.Events), old(s.DataBuf[..]), old(p.Status), reported)
    ensures p.Status == RetAsync ==> old(p.Status) == RetAsync || AsyncAllowed(p.Endpoint, s.IsHost)
  {
    reported := 0;
    var f := DecodeSetup(s.SetupBuffer[..]);
    s.SetupLength := f.length;
    s.SetupIndex := 0;
    if s.SetupLength > DataBufSize {
      p.Status := RetStall;
      s.SetupState := SetupIdle;
      return;
    }
    if IsDirIn(s.SetupBuffer[0]) {
      reported := StartInRequest(s, p, f);
      if p.Status != RetSuccess {
        return;
      }
    } else {
      if s.SetupLength == 0 {
        s.SetupState := SetupAck;
      } else {
        s.SetupState := SetupData;
      }
    }
    p.ActualLength := 8;
  }

  /** An accepted IN request: the handler answers at once. A pending
      answer leaves the control state in SETUP, a failure leaves it as it
      was, and success starts the data stage with the length cut to what
      the handler reported. */
  method StartInRequest(s: Device, p: Packet, f: SetupFields) returns (ghost reported: nat)
    requires p.Endpoint != null && s.DataBuf.Length == DataBufSize
    requires s.SetupLength == f.length && s.SetupIndex == 0 && p.ActualLength == 0
    modifies s`SetupState, s`SetupLength, s`Events, s.DataBuf
    modifies p`Status, p`ActualLength
    ensures old(s.Valid()) ==> s.Valid()
    ensures s.SetupIndex == 0 && (p.Status == RetSuccess ==> s.SetupLength <= DataBufSize)
    ensures s.Events == old(s.Events) + (if HookHandleControl in s.Hooks then [HookHandleControl] else [])
    ensures HookHandleControl in s.Hooks ==> reported <= f.length
    ensures HookHandleControl !in s.Hooks ==>
      reported == old(p.ActualLength) && p.Status == old(p.Status) && s.DataBuf[..] == old(s.DataBuf[..])
    ensures p.Status == RetSuccess ==> s.SetupState == SetupData && s.SetupLength == Min(f.length, reported)
    ensures p.Status == RetAsync ==> s.SetupState == SetupSetup && s.SetupLength == f.length
    ensures p.Status != RetSuccess && p.Status != RetAsync ==>
      s.SetupState == old(s.SetupState) && s.SetupLength == f.length
    ensures p.ActualLength == reported
    ensures p.Status == RetAsync ==> old(p.Status) == RetAsync || AsyncAllowed(p.Endpoint, s.IsHost)
  {
    DeviceHandleControl(s, p, f.request, f.value, f.index, s.SetupLength);
    reported := p.ActualLength;
    if p.Status == RetAsync {
      s.SetupState := SetupSetup;
    }
    if p.Status != RetSuccess {
      return;
    }
    if p.ActualLength < s.SetupLength {
      s.SetupLength := p.ActualLength;
    }
    s.SetupState := SetupData;
  }

  /** The control state after an accepted setup packet `setup` (request
      length within the data buffer): an IN request asks the handler at
      once and enters the data stage with the length cut to what the
      handler reported (SETUP while the handler is pending, unchanged when
      it failed); an OUT request enters the data stage, or the status stage
      when there is no data. */
  ghost predicate OnSetup(setup: seq<byte>, before: SetupState, statusIn: Ret, status: Ret,
                          reported: nat, after: SetupState, length: nat)
    requires |setup| == 8
  {
    var f := DecodeSetup(setup);
    if IsDirIn(setup[0]) then
      (status == RetSuccess ==> after == SetupData && length == Min(f.length, reported)) &&
      (status == RetAsync ==> after == SetupSetup && length == f.length) &&
      (status != RetSuccess && status != RetAsync ==> after == before && length == f.length)
    else
      status == statusIn && length == f.length &&
      after == (if f.length == 0 then SetupAck else SetupData)
  }

  /** USB_DoTokenSetup as the source writes it: the data-buffer check is made
      only for OUT requests and, when it fails, leaves the control state as
      it was while SetupLength already holds the oversized length. An IN
      request the handler fails leaves the control state as it was too. */
  method DoTokenSetupAsWritten(s: Device, p: Packet)
    requires s.Valid() && p.Endpoint != null && p.Pid == TokenSetup
    requires CopyFits(s, p)
    modifies s`SetupState, s`SetupLength, s`SetupIndex, s`Events, s.SetupBuffer, s.DataBuf
    modifies p`Status, p`ActualLength, p`IoVec
    ensures p.IoVec == old(p.IoVec)
    ensures old(|p.IoVec|) == 8 ==>
      s.SetupBuffer[..] == old(p.IoVec)[old(p.ActualLength)..old(p.ActualLength) + 8]
    ensures |p.IoVec| == 8 && !IsDirIn(s.SetupBuffer[0]) && DecodeSetup(s.SetupBuffer[..]).length > DataBufSize ==>
      p.Status == RetStall && s.SetupState == old(s.SetupState) &&
      s.SetupLength == DecodeSetup(s.SetupBuffer[..]).length && s.SetupIndex == 0
    ensures old(s.SetupState) == SetupData && |p.IoVec| == 8 && !IsDirIn(s.SetupBuffer[0]) &&
            DecodeSetup(s.SetupBuffer[..]).length > DataBufSize
            ==> !s.Valid()
    ensures old(s.SetupState) == SetupData && |p.IoVec| == 8 && IsDirIn(s.SetupBuffer[0]) &&
            DecodeSetup(s.SetupBuffer[..]).length > DataBufSize && p.Status != RetSuccess && p.Status != RetAsync
            ==> s.SetupState == SetupData && s.SetupLength == DecodeSetup(s.SetupBuffer[..]).length && !s.Valid()
  {
    if |p.IoVec| != 8 {
      p.Status := RetStall;
      return;
    }
    PacketCopy(p, s.SetupBuffer, 0, 8);
    p.ActualLength := 0;
    AcceptSetupAsWritten(s, p);
  }

  /** The part of DoTokenSetupAsWritten after the eight setup bytes are in
      SetupBuffer. */
  method AcceptSetupAsWritten(s: Device, p: Packet)
    requires s.Valid() && p.Endpoint != null && p.ActualLength == 0
    modifies s`SetupState, s`SetupLength, s`SetupIndex, s`Events, s.DataBuf
    modifies p`Status, p`ActualLength
    ensures s.SetupBuffer.Length == 8
    ensures !IsDirIn(s.SetupBuffer[0]) && DecodeSetup(s.SetupBuffer[..]).length > DataBufSize ==>
      p.Status == RetStall && s.SetupState == old(s.SetupState) &&
      s.SetupLength == DecodeSetup(s.SetupBuffer[..]).length && s.SetupIndex == 0
    ensures IsDirIn(s.SetupBuffer[0]) && p.Status != RetSuccess && p.Status != RetAsync ==>
      s.SetupState == old(s.SetupState) && s.SetupLength == DecodeSetup(s.SetupBuffer[..]).length && s.SetupIndex == 0
  {
    var f := DecodeSetup(s.SetupBuffer[..]);
    s.SetupLength := f.length;
    s.SetupIndex := 0;
    if IsDirIn(s.SetupBuffer[0]) {
      ghost var reported := StartInRequest(s, p, f);
      if p.Status != RetSuccess {
        return;
      }
    } else {
      if s.SetupLength > DataBufSize {
        p.Status := RetStall;
        return;
      }
      if s.SetupLength == 0 {
        s.SetupState := SetupAck;
      } else {
        s.SetupState := SetupData;
      }
    }
    p.ActualLength := 8;
  }

  /** The state DoTokenSetupAsWritten leaves when an oversized request
      (OUT, or IN failed by the handler) arrives during a data stage: DATA,
      cursor 0, and a SetupLength beyond the data buffer. The data-stage
      tokens that follow each copy ChunkLen bytes between the buffer at the
      cursor and the packet, so together they run past its end, and a
      single token with a vector larger than the buffer already does. */
  lemma StaleLengthOverrun(s: Device, size: nat)
    requires s.DataBuf.Length == DataBufSize && size > 0
    requires s.SetupState == SetupData && s.SetupIndex == 0 && s.SetupLength > DataBufSize
    ensures s.SetupIndex + Sum(Chunks(s.SetupLength, s.SetupIndex, size)) > s.DataBuf.Length
    ensures size > DataBufSize ==> s.SetupIndex + ChunkLen(s.SetupLength, s.SetupIndex, size) > s.DataBuf.Length
  {
    DataStageWithinBuffer(s.SetupLength, size);
  }

  /** One data-stage token: `len` bytes move between the data buffer at
      the cursor and the packet's vector (buffer to vector for IN, vector to
      buffer for OUT), the cursor advances by `len`, and the status stage
      follows once the cursor reaches the request length. */
  ghost predicate StreamedChunk(s: Device, p: Packet, b: ControlSnapshot)
    reads s, s.DataBuf, p`Pid, p`ActualLength, p`IoVec
  {
    b.index <= b.length == s.SetupLength &&
    s.SetupIndex == b.index + ChunkLen(s.SetupLength, b.index, |p.IoVec|) &&
    p.ActualLength == b.actual + (s.SetupIndex - b.index) &&
    s.SetupState == (if s.SetupIndex >= s.SetupLength then SetupAck else SetupData) &&
    s.SetupIndex <= s.DataBuf.Length && |p.IoVec| == |b.iovec| && p.ActualLength <= |p.IoVec| &&
    |b.data| == s.DataBuf.Length &&
    (p.Pid == TokenIn ==>
      p.IoVec == b.iovec[..b.actual] + s.DataBuf[b.index..s.SetupIndex] + b.iovec[p.ActualLength..] &&
      s.DataBuf[..] == b.data) &&
    (p.Pid == TokenOut ==>
      s.DataBuf[..] == b.data[..b.index] + p.IoVec[b.actual..p.ActualLength] + b.data[s.SetupIndex..] &&
      p.IoVec == b.iovec)
  }

  /** The data stage of an IN request, for an IN token: the next chunk
      goes from the data buffer at the cursor to the packet's vector. */
  method StreamIn(s: Device, p: Packet)
    requires s.Valid() && s.SetupState == SetupData && p.Pid == TokenIn
    requires CopyFits(s, p)
    modifies s`SetupState, s`SetupIndex, s.DataBuf
    modifies p`ActualLength, p`IoVec
    ensures s.Valid() && StreamedChunk(s, p, old(Snapshot(s, p)))
  {
    ghost var b := Snapshot(s, p);
    var len := ChunkLen(s.SetupLength, s.SetupIndex, |p.IoVec|);
    PacketCopy(p, s.DataBuf, s.SetupIndex, len);
    assert p.IoVec == b.iovec[..b.actual] + s.DataBuf[b.index..b.index + len] + b.iovec[b.actual + len..];
    s.SetupIndex := s.SetupIndex + len;
    assert p.IoVec == b.iovec[..b.actual] + s.DataBuf[b.index..s.SetupIndex] + b.iovec[p.ActualLength..];
    if s.SetupIndex >= s.SetupLength {
      s.SetupState := SetupAck;
    }
  }

  /** The data stage of an OUT request, for an OUT token: the next chunk
      goes from the packet's vector to the data buffer at the cursor. */
  method StreamOut(s: Device, p: Packet)
    requires s.Valid() && s.SetupState == SetupData && p.Pid == TokenOut
    requires CopyFits(s, p)
    modifies s`SetupState, s`SetupIndex, s.DataBuf
    modifies p`ActualLength, p`IoVec
    ensures s.Valid() && StreamedChunk(s, p, old(Snapshot(s, p)))
  {
    ghost var b := Snapshot(s, p);
    var len := ChunkLen(s.SetupLength, s.SetupIndex, |p.IoVec|);
    PacketCopy(p, s.DataBuf, s.SetupIndex, len);
    assert s.DataBuf[..] == b.data[..b.index] + p.IoVec[b.actual..b.actual + len] + b.data[b.index + len..];
    s.SetupIndex := s.SetupIndex + len;
    assert s.DataBuf[..] == b.data[..b.index] + p.IoVec[b.actual..p.ActualLength] + b.data[s.SetupIndex..];
    if s.SetupIndex >= s.SetupLength {
      s.SetupState := SetupAck;
    }
  }

  /** The outcome of an IN token on endpoint 0 for a packet whose status
      was `statusIn` on entry. In the status stage of an OUT request the
      handler completes it (IDLE, no data) unless it answers ASYNC, and the
      cursor and the vector are left alone; in the status stage of an IN
      request nothing changes. In the data stage of an IN request one chunk
      streams to the host; an IN token in the data stage of an OUT request
      stalls and returns to IDLE. Any other state stalls and is kept. The
      request length never changes, and a stall moves no data. */
  ghost predicate TokenInDone(s: Device, p: Packet, b: ControlSnapshot, statusIn: Ret)
    reads s, s.SetupBuffer, s.DataBuf, p`Endpoint, p`Parameter, p`Pid, p`Status, p`ActualLength, p`IoVec, PresentEndpoint(p.Endpoint)`Type
  {
    p.Endpoint != null && s.Valid() && s.SetupLength == b.length &&
    (b.state == SetupAck && !IsDirIn(s.SetupBuffer[0]) ==>
      s.Events == b.events + (if HookHandleControl in s.Hooks then [HookHandleControl] else []) &&
      s.SetupIndex == b.index && p.IoVec == b.iovec &&
      (HookHandleControl !in s.Hooks ==> p.Status == statusIn && s.DataBuf[..] == b.data) &&
      (p.Status == RetAsync ==> s.SetupState == SetupAck) &&
      (p.Status != RetAsync ==> s.SetupState == SetupIdle && p.ActualLength == 0)) &&
    (b.state == SetupAck && IsDirIn(s.SetupBuffer[0]) ==>
      s.SetupState == SetupAck && p.Status == statusIn && s.Events == b.events && TransferKept(s, p, b)) &&
    (b.state == SetupData && IsDirIn(s.SetupBuffer[0]) ==>
      StreamedChunk(s, p, b) && p.Status == statusIn && s.Events == b.events) &&
    (b.state == SetupData && !IsDirIn(s.SetupBuffer[0]) ==>
      s.SetupState == SetupIdle && p.Status == RetStall && s.Events == b.events && TransferKept(s, p, b)) &&
    (b.state != SetupAck && b.state != SetupData ==>
      s.SetupState == b.state && p.Status == RetStall && s.Events == b.events && TransferKept(s, p, b)) &&
    (p.Status == RetAsync ==> statusIn == RetAsync || AsyncAllowed(p.Endpoint, s.IsHost))
  }

  /** DoTokenIn: an IN token on endpoint 0. */
  method DoTokenIn(s: Device, p: Packet)
    requires s.Valid() && p.Endpoint != null && p.Endpoint.Num == 0 && p.Pid == TokenIn
    requires CopyFits(s, p)
    modifies s`SetupState, s`SetupIndex, s`Events, s.DataBuf
    modifies p`Status, p`ActualLength, p`IoVec
    ensures TokenInDone(s, p, old(Snapshot(s, p)), old(p.Status))
    ensures s.Events == old(s.Events) || s.Events == old(s.Events) + [HookHandleControl]
  {
    var f := DecodeSetup(s.SetupBuffer[..]);
    match s.SetupState {
      case SetupAck =>
        if !IsDirIn(s.SetupBuffer[0]) {
          DeviceHandleControl(s, p, f.request, f.value, f.index, s.SetupLength);
          if p.Status == RetAsync {
            return;
          }
          s.SetupState := SetupIdle;
          p.ActualLength := 0;
        }
      case SetupData =>
        if IsDirIn(s.SetupBuffer[0]) {
          StreamIn(s, p);
          return;
        }
        s.SetupState := SetupIdle;
        p.Status := RetStall;
      case _ =>
        p.Status := RetStall;
    }
  }

  /** The outcome of an OUT token on endpoint 0 for a packet whose status
      was `statusIn` on entry. In the status stage of an IN request the
      transfer ends (IDLE); in that of an OUT request extra output is
      ignored. In the data stage of an OUT request one chunk streams into
      the data buffer; an OUT token in the data stage of an IN request
      stalls and returns to IDLE. Any other state stalls and is kept. The
      class is never asked, the request length never changes, and outside
      the data stage of an OUT request no data moves. */
  ghost predicate TokenOutDone(s: Device, p: Packet, b: ControlSnapshot, statusIn: Ret)
    reads s, s.SetupBuffer, s.DataBuf, p`Pid, p`Status, p`ActualLength, p`IoVec
  {
    s.Valid() && s.Events == b.events && s.SetupLength == b.length &&
    (b.state == SetupAck ==>
      s.SetupState == (if IsDirIn(s.SetupBuffer[0]) then SetupIdle else SetupAck) &&
      p.Status == statusIn && TransferKept(s, p, b)) &&
    (b.state == SetupData && !IsDirIn(s.SetupBuffer[0]) ==>
      StreamedChunk(s, p, b) && p.Status == statusIn) &&
    (b.state == SetupData && IsDirIn(s.SetupBuffer[0]) ==>
      s.SetupState == SetupIdle && p.Status == RetStall && TransferKept(s, p, b)) &&
    (b.state != SetupAck && b.state != SetupData ==>
      s.SetupState == b.state && p.Status == RetStall && TransferKept(s, p, b)) &&
    (p.Status == statusIn || p.Status == RetStall)
  }

  /** DoTokenOut: an OUT token on endpoint 0. */
  method DoTokenOut(s: Device, p: Packet)
    requires s.Valid() && p.Endpoint != null && p.Endpoint.Num == 0 && p.Pid == TokenOut
    requires CopyFits(s, p)
    modifies s`SetupState, s`SetupIndex, s.DataBuf
    modifies p`Status, p`ActualLength, p`IoVec
    ensures TokenOutDone(s, p, old(Snapshot(s, p)), old(p.Status))
  {
    match s.SetupState {
      case SetupAck =>
        if IsDirIn(s.SetupBuffer[0]) {
          s.SetupState := SetupIdle;
        }
      case SetupData =>
        if !IsDirIn(s.SetupBuffer[0]) {
          StreamOut(s, p);
          return;
        }
        s.SetupState := SetupIdle;
        p.Status := RetStall;
      case _ =>
        p.Status := RetStall;
    }
  }
}
