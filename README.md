# USB device core and ATA SET FEATURES, modelled in Dafny

This project models two parts of an Original Xbox emulator's hardware layer.

The first is the generic USB device core (`USBPCIDevice` in
`src/core/openxbox/hw/pci/usb_pci.cpp`):

- the packet lifecycle (SETUP, QUEUED, ASYNC, COMPLETE, CANCELED) over a
  per-endpoint FIFO queue;
- the endpoint-0 control-transfer state machine (IDLE, SETUP, DATA, ACK,
  PARAM) with the 8-byte setup packet of section 9.3 of the USB 2.0
  specification and the Setup/Data/Status stages of its section 8.5.3;
- endpoint lookup and the endpoint setters;
- the port and device lifecycle (attach, detach, reset, address lookup,
  port path);
- the "call the device-class hook if it has one" dispatchers.

The second is the SET FEATURES command of an ATA device
(`src/core/openxbox/hw/ata/ata_device.cpp`), after section 8.37 of
ATA/ATAPI-4. It decodes the transfer-mode subcommand's Sector Count register
(table 20), range-checks the mode, and on failure produces the error outputs
of section 8.37.6.

Both sources change state step by step. The model therefore uses classes
with mutable fields:

- `Packet`, `Endpoint` (its queue is a `seq<Packet>`), `Device` (its setup
  and data buffers are arrays of bytes) and `Port` in `usb_state.dfy`;
- `ATARegisters` and `ATADevice` in `ata_device.dfy`.

Methods carry `modifies` clauses down to the field, except where a method
writes every field of an object (`PacketSetup`) or writes into an array, and
are proved against specification functions and predicates.

Files:

| file | module | contents |
|---|---|---|
| `usb_types.dfy` | `UsbTypes` | status codes, states, setup-packet decoding, parameter-word unpacking |
| `usb_state.dfy` | `UsbState` | the classes and the queue-removal function |
| `usb_hooks.dfy` | `UsbHooks` | `PacketCopy` and the hook dispatchers |
| `usb_control.dfy` | `UsbControl` | the control-transfer state machine |
| `usb_packets.dfy` | `UsbPackets` | packet setup, submission, queueing, cancellation |
| `usb_ports.dfy` | `UsbPorts` | ports, device lifecycle, endpoint lookup and setters |
| `ata_device.dfy` | `AtaDevice` | SET FEATURES and transfer-mode validation |

Modelling choices:

- **Device-class hooks.** A class's hooks are a set `Hooks` on the device.
  - An absent hook changes nothing.
  - A present hook is a nondeterministic step, and it appends an event to
    the device's ghost `Events` trace.
  - The control handler may report at most the requested length and no more
    than the data buffer holds.
  - The data handler may report at most the vector's capacity.
  - Either handler may return any status a backend is allowed to
    (`UsbHooks.BackendMayReturn`). These duties are the comments at
    `usb_pci.cpp:224-239`: no ASYNC on isochronous endpoints, ASYNC on
    interrupt endpoints only for a device in host role, and no synchronous
    result on a pipelined endpoint that has packets waiting.
- **Foreign calls.** The host controller's detach and the port's attach
  operation are recorded as events on the port's ghost `Events` trace.
- **Symbolic constants.** `USB_MAX_ENDPOINTS`, `sizeof(data_buf)` and the
  `kMaximum*TransferMode` values come from headers that are not part of
  this model. They are constants without a value (`MaxEndpoints`,
  `DataBufSize`, `MaxPioMode`, `MaxMultiwordDmaMode`, `MaxUltraDmaMode`),
  so every proof holds for any value.
- **ATA register values.** The register bits and transfer-type codes are
  those ATA/ATAPI-4 defines:
  - DRDY 0x40, DRQ 0x08, ERR 0x01 and ABRT 0x04;
  - DEV is bit 4;
  - set-transfer-mode is Features 03h;
  - the transfer types are 00000b, 00001b, 00100b and 01000b.
- **Source assertions.** `assert`s in the source are preconditions.
- **Where behaviour follows the code.** In these places the model does what
  the code does rather than what a reader of the protocol might expect:
  - A token that arrives in an unexpected control state stalls but leaves
    the control state as it was (`usb_pci.cpp:434-436`, `470-472`). It does
    not return to IDLE.
  - A SETUP token moves the control state to SETUP only while an IN request
    is pending in the handler.
  - `SetFeatures` sets ERR when the Error register is nonzero, but never
    clears it (`ata_device.cpp:68-70`).
  - `DoTokenSetup` checks the request length in a different place; see
    Findings.

## Model

| member | source | states |
|---|---|---|
| UsbTypes.EncodeDecodeSetup | src/core/openxbox/hw/pci/usb_pci.cpp:358-363 | The four decoded fields (request = bmRequestType:bRequest, and little-endian wValue, wIndex, wLength) determine all eight setup bytes. |
| UsbTypes.DecodeEncodeSetup | src/core/openxbox/hw/pci/usb_pci.cpp:358-363 | Decoding the wire layout of any four 16-bit fields gives them back. |
| UsbTypes.DirectionFromRequest | src/core/openxbox/hw/pci/usb_pci.cpp:361-365 | The direction test on bmRequestType agrees with bit 15 of the decoded request word. |
| UsbTypes.UnpackAt | src/core/openxbox/hw/pci/usb_pci.cpp:303-305 | Byte i of the unpacked setup buffer is `Parameter >> (i * 8)` truncated to 8 bits. |
| UsbTypes.PackUnpack | src/core/openxbox/hw/pci/usb_pci.cpp:303-305 | Unpacking a word that fits n bytes and packing the bytes again gives the word back. |
| UsbTypes.UnpackPack | src/core/openxbox/hw/pci/usb_pci.cpp:303-305 | Packing bytes and unpacking them again gives the bytes back. |
| UsbTypes.ParameterRoundTrip | src/core/openxbox/hw/pci/usb_pci.cpp:303-305 | The eight setup bytes unpacked from a 64-bit parameter are its bytes, least significant first, and hold the whole word. |
| UsbState.WithoutAt | src/core/openxbox/hw/pci/usb_pci.cpp:583 | Removing a packet that occurs once in a queue leaves the packets before and after it, in their order. |
| UsbState.RemoveAtDistinct | src/core/openxbox/hw/pci/usb_pci.cpp:583 | After the removal the queue still has no repeats, no longer holds the packet, and holds every other packet it held. |
| UsbHooks.PacketCopy | src/core/openxbox/hw/pci/usb_pci.cpp:475-493 | Requires ActualLength + bytes within the vector size. For SETUP and OUT the buffer window receives the vector bytes at ActualLength; for IN the vector window receives the buffer bytes. ActualLength grows by exactly `bytes`; nothing else changes. |
| UsbHooks.DeviceInit | src/core/openxbox/hw/pci/usb_pci.cpp:495-503 | Without an init hook the result is 0 and nothing happens; with one the hook runs once. |
| UsbHooks.DeviceFindDevice | src/core/openxbox/hw/pci/usb_pci.cpp:505-512 | Without a find hook the result is null; with one the hook runs once. |
| UsbHooks.DeviceCancelPacket | src/core/openxbox/hw/pci/usb_pci.cpp:514-519 | The cancel hook runs once if present, otherwise nothing happens. |
| UsbHooks.DeviceHandleDestroy | src/core/openxbox/hw/pci/usb_pci.cpp:521-526 | The destroy hook runs once if present, otherwise nothing happens. |
| UsbHooks.DeviceHandleAttach | src/core/openxbox/hw/pci/usb_pci.cpp:528-533 | The attach hook runs once if present, otherwise nothing happens. |
| UsbHooks.DeviceHandleReset | src/core/openxbox/hw/pci/usb_pci.cpp:535-540 | The reset hook runs once if present, otherwise nothing happens. |
| UsbHooks.DeviceHandleControl | src/core/openxbox/hw/pci/usb_pci.cpp:542-547 | Without a control hook the packet and data buffer are untouched. With one it runs once, reports at most the requested length and the buffer size, and returns a status a backend may return. |
| UsbHooks.DeviceHandleData | src/core/openxbox/hw/pci/usb_pci.cpp:549-554 | Without a data hook the packet is untouched. With one it runs once, reports at most the vector capacity, keeps the vector size, and returns a status a backend may return. |
| UsbHooks.DeviceSetInterface | src/core/openxbox/hw/pci/usb_pci.cpp:556-561 | The set-interface hook runs once if present, otherwise nothing happens. |
| UsbHooks.DeviceFlushEpQueue | src/core/openxbox/hw/pci/usb_pci.cpp:563-568 | The flush hook runs once if present, otherwise nothing happens. |
| UsbHooks.DeviceEpStopped | src/core/openxbox/hw/pci/usb_pci.cpp:571-577 | The endpoint-stopped hook runs once if present, otherwise nothing happens. |
| UsbControl.ChunkLen | src/core/openxbox/hw/pci/usb_pci.cpp:419-422 | One data-stage token moves min(SetupLength - SetupIndex, vector size) bytes: never past the requested length, and a full packet unless it ends the stage. |
| UsbControl.ChunksCover | src/core/openxbox/hw/pci/usb_pci.cpp:417-429 | A data stage streamed from `index` moves exactly length - index bytes, in full-size chunks except possibly the last. |
| UsbControl.DataStageWithinBuffer | src/core/openxbox/hw/pci/usb_pci.cpp:380-384 | The bytes a data stage streams stay within the data buffer exactly when the request length does, so the length check is the whole bound. |
| UsbControl.UnpackParameter | src/core/openxbox/hw/pci/usb_pci.cpp:303-305 | The loop leaves the setup buffer holding the parameter's eight bytes, least significant first. |
| UsbControl.ParamLengthDecoded | src/core/openxbox/hw/pci/usb_pci.cpp:308 | The wLength decoded from the unpacked setup bytes is bytes 6 and 7 of the parameter word. |
| UsbControl.DoParameter | src/core/openxbox/hw/pci/usb_pci.cpp:300-337 | ParameterDone: the setup buffer holds the parameter's bytes; state PARAM and cursor 0 always. A wLength over the data buffer stalls with ActualLength, the vector, the data buffer and the events kept and no handler call. Otherwise (ParameterHandled) the handler runs once and reports at most wLength bytes; without a handler the status is kept, the report is the earlier ActualLength plus wLength for OUT, and the data buffer ends as the OUT payload (the vector's wLength bytes at ActualLength) in front of its old contents, or unchanged for IN. ASYNC keeps SetupLength = wLength; any other result cuts it to min(wLength, reported), and an IN request then has ActualLength equal to that length and a vector made of exactly those data-buffer bytes followed by the rest of its old vector; an OUT request's vector is kept, and so is every vector on ASYNC. `staged`, the buffer handed to the handler, carries the OUT payload whether or not the class has a handler. ASYNC only where allowed. |
| UsbControl.ParameterTransfer | src/core/openxbox/hw/pci/usb_pci.cpp:321-336 | For an OUT request the vector's SetupLength bytes at ActualLength go to the front of the data buffer before the handler runs (`staged`, the buffer it is handed); then the outcome is ParameterHandled for that length, the length never grows, and without a handler the data buffer ends as `staged`. |
| UsbControl.HandleParameter | src/core/openxbox/hw/pci/usb_pci.cpp:325-336 | With the OUT payload already staged, the handler runs once and the outcome is ParameterHandled (events, reported bound, cut length, the IN vector as the copied data-buffer bytes followed by the rest of the old vector, the vector kept on ASYNC, status kept without a handler); without a handler the data buffer is untouched. |
| UsbControl.FinishParameter | src/core/openxbox/hw/pci/usb_pci.cpp:330-336 | After a non-ASYNC answer, SetupLength becomes min(SetupLength, reported); an IN request gets ActualLength equal to that length and a vector of exactly the first SetupLength data-buffer bytes followed by the rest of its old vector; an OUT request keeps ActualLength and vector; the data buffer is kept. |
| UsbControl.DoTokenSetup | src/core/openxbox/hw/pci/usb_pci.cpp:339-394 | SetupDone: the vector is never changed. A vector that is not 8 bytes stalls and keeps the whole control state (stage, length, cursor, setup buffer, data buffer), the events and ActualLength. Otherwise the setup buffer is the 8 vector bytes (SetupAccepted): a wLength over the data buffer stalls, returns to IDLE, records wLength, reports ActualLength 0 and keeps the data buffer, for either direction with no handler call; an accepted request ends as OnSetup describes; a success or an OUT request reports ActualLength 8; an IN request's handler reports at most wLength bytes (0, with the status kept, when the class has none); only an IN request's handler can change the data buffer. The DATA invariant is kept; ASYNC only where allowed. |
| UsbControl.AcceptSetup | src/core/openxbox/hw/pci/usb_pci.cpp:358-393 | Requires ActualLength 0, as set just before by the caller. After the setup bytes are in place, SetupAccepted: a wLength over the data buffer is rejected to IDLE with ActualLength 0, SetupLength wLength, the data buffer kept and no event, for either direction; otherwise the request starts as OnSetup describes, with the same reported-length and ActualLength facts as DoTokenSetup. The handler runs only for IN requests, and only it can change the data buffer. |
| UsbControl.StartInRequest | src/core/openxbox/hw/pci/usb_pci.cpp:365-377 | The handler runs once: its event is recorded, it reports at most wLength bytes (nothing, with the status and data buffer kept, when the class has none), and ActualLength is that report. SUCCESS enters DATA with the length cut to min(wLength, reported), within the data buffer; ASYNC enters SETUP with the length kept; any other status keeps the state and the length. The cursor stays 0 and the control invariant is kept when it held. |
| UsbControl.DoTokenSetupAsWritten | src/core/openxbox/hw/pci/usb_pci.cpp:339-394 | The code as written: an oversized OUT request stalls with the old state kept and SetupLength already set to the oversized length; an oversized IN request the handler fails (neither SUCCESS nor ASYNC) also keeps the old state with the oversized length. From state DATA either case breaks the control invariant (SetupLength within the data buffer). |
| UsbControl.AcceptSetupAsWritten | src/core/openxbox/hw/pci/usb_pci.cpp:358-393 | The part after the copy, as written: an oversized OUT request stalls with state kept, SetupLength the oversized length and cursor 0; an IN request the handler fails keeps the state with SetupLength the requested length. |
| UsbControl.StaleLengthOverrun | src/core/openxbox/hw/pci/usb_pci.cpp:417-429 | From the DATA state the as-written handler leaves behind (cursor 0, SetupLength over the data buffer), the chunks that stream the data stage (OUT tokens writing into the data buffer, IN tokens reading from it) run past the end of the buffer, and a vector larger than the buffer overruns it on the first token. |
| UsbControl.StreamIn | src/core/openxbox/hw/pci/usb_pci.cpp:417-429 | One IN token in the data stage of an IN request (StreamedChunk): ChunkLen bytes of the data buffer at the cursor replace the vector's bytes at ActualLength, the rest of the vector and the data buffer are kept, the cursor and ActualLength advance by that amount, and the state becomes ACK once the cursor reaches the length. |
| UsbControl.StreamOut | src/core/openxbox/hw/pci/usb_pci.cpp:454-465 | One OUT token in the data stage of an OUT request (StreamedChunk): the vector's ChunkLen bytes at ActualLength replace the data buffer's bytes at the cursor, the rest of the buffer and the vector are kept, the cursor and ActualLength advance by that amount, and the state becomes ACK once the cursor reaches the length. |
| UsbControl.DoTokenIn | src/core/openxbox/hw/pci/usb_pci.cpp:396-437 | TokenInDone: SetupLength never changes. In ACK of an OUT request the handler runs and, unless ASYNC, the state becomes IDLE with ActualLength 0; the cursor and the vector are kept, and without a handler so are the status and the data buffer. In ACK of an IN request nothing changes (state, cursor, ActualLength, vector, data buffer, status, events). In DATA of an IN request one chunk streams out (StreamedChunk). In DATA of an OUT request the result is STALL and IDLE; any other state stalls and keeps the state; both stalls keep the cursor, ActualLength, the vector and the data buffer. At most one control-hook event. |
| UsbControl.DoTokenOut | src/core/openxbox/hw/pci/usb_pci.cpp:439-473 | TokenOutDone: SetupLength and the events never change. In ACK of an IN request the state becomes IDLE, otherwise extra output is ignored; either way the status, cursor, ActualLength, vector and data buffer are kept. In DATA of an OUT request one chunk streams in (StreamedChunk). In DATA of an IN request the result is STALL and IDLE; any other state stalls and keeps the state; both stalls keep the cursor, ActualLength, the vector and the data buffer. |
| UsbPackets.PacketSetup | src/core/openxbox/hw/pci/usb_pci.cpp:179-199 | Requires the packet not in flight (QUEUED or ASYNC). Leaves the given identity, Status SUCCESS, ActualLength 0, Parameter 0, an empty vector and state SETUP. |
| UsbPackets.PacketAddBuffer | src/core/openxbox/hw/pci/usb_pci.cpp:201-203 | The vector is extended by the buffer; its earlier bytes are kept. |
| UsbPackets.QueueOne | src/core/openxbox/hw/pci/usb_pci.cpp:250-254 | The packet becomes QUEUED with Status ASYNC at the tail of its endpoint's queue, and the queue invariant is kept. |
| UsbPackets.ProcessOne | src/core/openxbox/hw/pci/usb_pci.cpp:265-298 | The status starts as SUCCESS. Endpoint 0 goes to the control state machine with its full outcome passed on (ControlDone: the parameter form when a parameter is set, else the SETUP, IN or OUT outcome, and for an unknown token STALL with the control state, events, ActualLength and vector kept; at most one control-hook event). Other endpoints go to the data hook and leave the control state (ControlKept: stage, length, cursor, setup and data buffers) untouched; without a data hook the result is SUCCESS with ActualLength and the vector kept. The result satisfies the backend duties; the control invariant is kept. |
| UsbPackets.ProcessControl | src/core/openxbox/hw/pci/usb_pci.cpp:275-293 | Endpoint 0 with the status already SUCCESS: the control outcome ControlDone (parameter form when a parameter is set, else the token's outcome); the backend duties and the control invariant hold. |
| UsbPackets.ProcessToken | src/core/openxbox/hw/pci/usb_pci.cpp:280-292 | The token switch for a packet without a parameter: the SETUP, IN or OUT outcome, or STALL for another token with the control state, events, ActualLength and vector kept (ControlDone); the backend duties and the control invariant hold. |
| UsbPackets.HandlePacket | src/core/openxbox/hw/pci/usb_pci.cpp:205-248 | A null device gives NODEV and changes nothing else. Otherwise Submitted: halt cleared; in flight iff ASYNC and then at the queue tail; SETUP iff NAK; COMPLETE otherwise; ASYNC only where allowed. SubmitOutcome then tells the cases apart: the packet is processed iff the queue was empty or the endpoint pipelines or streams; a packet not processed is QUEUED with no handler run and the control state (ControlKept), ActualLength and vector kept; a processed one is ASYNC (handler returned ASYNC), QUEUED (ADD_TO_QUEUE) or holds the handler's status; on a data endpoint the control state is kept, and without a data hook the packet completes with SUCCESS and its ActualLength and vector kept; on endpoint 0 at most one control-hook event has run and an unknown token has STALLed with the control state kept. |
| UsbPackets.SubmitPacket | src/core/openxbox/hw/pci/usb_pci.cpp:210-247 | The present-device branch of HandlePacket, with the same Submitted and SubmitOutcome. The isochronous, interrupt and pipelining assertions hold under the backend duties assumed of the hooks (BackendMayReturn). |
| UsbPackets.ProcessNow | src/core/openxbox/hw/pci/usb_pci.cpp:221-243 | A packet processed on submission: the handler status is ASYNC (packet ASYNC at the queue tail, where allowed), ADD_TO_QUEUE (packet QUEUED with status ASYNC at the tail), or anything else (kept as the status, queue unchanged, SETUP iff NAK, else COMPLETE). A data endpoint runs its hook once and keeps the control state (SUCCESS with ActualLength and vector kept without a hook); endpoint 0 runs the control hook at most once and STALLs an unknown token with the control state kept. |
| UsbPackets.RecordResult | src/core/openxbox/hw/pci/usb_pci.cpp:223-243 | The three-way record of a handler status: ASYNC queues the packet as ASYNC, ADD_TO_QUEUE queues it as QUEUED, any other status is kept with SETUP iff NAK; the queue invariant is kept and the source's three assertions hold for a status within the backend duties. |
| UsbPackets.CancelPacket | src/core/openxbox/hw/pci/usb_pci.cpp:579-587 | Requires an in-flight packet. It becomes CANCELED; the queue loses exactly that packet and keeps the others in order; the cancel hook runs iff the packet was ASYNC; only the packet's state, its endpoint's queue and the device's event trace change, so the device invariant is kept. |
| UsbPackets.Dequeue | src/core/openxbox/hw/pci/usb_pci.cpp:582-583 | The packet becomes CANCELED and its endpoint's queue loses exactly that packet, the others keeping their order, so the queue invariant is kept. |
| UsbPorts.DigitsRoundTrip | src/core/openxbox/hw/pci/usb_pci.cpp:609-614 | The decimal text of a port number reads back as that number. |
| UsbPorts.DecimalNoDots | src/core/openxbox/hw/pci/usb_pci.cpp:609-614 | The text of a port number contains no path separator. |
| UsbPorts.DotsAppend | src/core/openxbox/hw/pci/usb_pci.cpp:609-610 | Separators in a joined path are those of its parts. |
| UsbPorts.PortLocation | src/core/openxbox/hw/pci/usb_pci.cpp:607-617 | A root port's path is "N" with HubCount 0; under a hub it is "upstream.N" with HubCount one more. Paths keep one separator per hub. |
| UsbPorts.RegisterPort | src/core/openxbox/hw/pci/usb_pci.cpp:103-108 | Index and speed mask are stored, and the port is the root port named by index + 1. |
| UsbPorts.Detach | src/core/openxbox/hw/pci/usb_pci.cpp:119-126 | Requires an attached device. The controller is told, and the device becomes NOTATTACHED. |
| UsbPorts.Attach | src/core/openxbox/hw/pci/usb_pci.cpp:128-137 | Requires a plugged, NOTATTACHED device. The port's attach operation runs, the device becomes ATTACHED, and the attach hook runs if present. |
| UsbPorts.DeviceReset | src/core/openxbox/hw/pci/usb_pci.cpp:139-148 | A null or unplugged device is untouched. Otherwise RemoteWakeup and Addr become 0, the state DEFAULT, and the reset hook runs if present (the source's final call is the reset dispatcher); only those fields change, so the device invariant is kept. |
| UsbPorts.PortReset | src/core/openxbox/hw/pci/usb_pci.cpp:110-117 | Detach, attach and reset in that order. The device ends DEFAULT with address 0, after the controller and port calls and the attach and reset hooks; only the device's state, address, wakeup flag and events change, so its invariant is kept. |
| UsbPorts.DeviceAttach | src/core/openxbox/hw/pci/usb_pci.cpp:619-627 | Requires an unplugged device with a port. It becomes plugged and then attached. |
| UsbPorts.FindDevice | src/core/openxbox/hw/pci/usb_pci.cpp:150-161 | Null unless the port's device is plugged and in DEFAULT. The device itself when its address matches; otherwise its find hook decides, and the result is null without one. Only the device's event trace changes. |
| UsbPorts.GetEP | src/core/openxbox/hw/pci/usb_pci.cpp:163-177 | Null exactly for a null device. |
| UsbPorts.GetEPFinds | src/core/openxbox/hw/pci/usb_pci.cpp:163-177 | Endpoint 0 gives the control endpoint for any token. For 1 <= ep <= USB_MAX_ENDPOINTS it gives the endpoint numbered ep of the device, in the token's direction. |
| UsbPorts.EPsetType | src/core/openxbox/hw/pci/usb_pci.cpp:589-592 | The looked-up endpoint's type becomes the given type. |
| UsbPorts.EPsetIfnum | src/core/openxbox/hw/pci/usb_pci.cpp:594-597 | The looked-up endpoint's interface number becomes the given one. |
| UsbPorts.PacketSizeFieldBits | src/core/openxbox/hw/pci/usb_pci.cpp:604 | `raw & 0x7FF` keeps bits 10..0: at most 2047, raw minus a multiple of 2048, and raw itself below 2048. |
| UsbPorts.EPsetMaxPacketSize | src/core/openxbox/hw/pci/usb_pci.cpp:599-605 | The looked-up endpoint's max packet size becomes the 11-bit size field of wMaxPacketSize, at most 2047. |
| AtaDevice.DecodeEncodeTransfer | src/core/openxbox/hw/ata/ata_device.cpp:93-94 | Decoding a Sector Count written as type (5 bits) and mode (3 bits) gives them back. |
| AtaDevice.EncodeDecodeTransfer | src/core/openxbox/hw/ata/ata_device.cpp:93-94 | Type and mode account for every bit of Sector Count. |
| AtaDevice.TransferType | src/core/openxbox/hw/ata/ata_device.cpp:93 | The decoded transfer type is a 5-bit value (below 32). |
| AtaDevice.TransferMode | src/core/openxbox/hw/ata/ata_device.cpp:94 | The decoded mode is at most 7. |
| AtaDevice.SelectDeviceBits | src/core/openxbox/hw/ata/ata_device.cpp:55 | For device index 0 or 1 the new DEV bit is the index and the other Device/Head bits are kept. |
| AtaDevice.AbortedStatusBits | src/core/openxbox/hw/ata/ata_device.cpp:61-70 | The failure status has DRDY set and DRQ clear. ERR is set when Error is nonzero and kept otherwise; all other bits are kept. |
| AtaDevice.ATADevice.DoIdentifyDevice | src/core/openxbox/hw/ata/ata_device.cpp:38-40 | Always fails. |
| AtaDevice.ATADevice.IdentifyDevice | src/core/openxbox/hw/ata/ata_device.cpp:28-36 | Always fails. |
| AtaDevice.ATADevice.SetPioTransferMode | src/core/openxbox/hw/ata/ata_device.cpp:109-139 | Succeeds iff the mode is accepted (default mode at most 1, flow control at most the PIO maximum). On success stores exactly (type, mode) and leaves Error alone. On failure ORs ABRT into Error and keeps the stored PIO pair. |
| AtaDevice.ATADevice.SetDmaTransferMode | src/core/openxbox/hw/ata/ata_device.cpp:141-171 | Succeeds iff the mode is within the multiword or Ultra DMA maximum. On success stores exactly (type, mode) and leaves Error alone. On failure ORs ABRT into Error and keeps the stored DMA pair. |
| AtaDevice.ATADevice.SetTransferMode | src/core/openxbox/hw/ata/ata_device.cpp:90-107 | Succeeds iff the decoded (type, mode) is accepted by table 20 and the device maxima. A type outside table 20 touches neither Error nor any stored mode. The pair of the other kind is never changed. |
| AtaDevice.ATADevice.DoSetFeatures | src/core/openxbox/hw/ata/ata_device.cpp:77-88 | A Features value other than set-transfer-mode fails with nothing changed; otherwise the outcome is SetTransferMode's (TransferModeSet: success iff the mode is accepted, the Error cases, the stored and kept pairs). |
| AtaDevice.ATADevice.SetFeatures | src/core/openxbox/hw/ata/ata_device.cpp:42-75 | Any Features value other than set-transfer-mode fails with Error kept and no stored mode changed; set-transfer-mode has SetTransferMode's outcome (TransferModeSet). Success leaves Device/Head, Status and Error as they were. On failure DEV becomes the device index with the other Device/Head bits kept, DRDY is set, DRQ is cleared, and ERR is set when Error is nonzero (kept otherwise). |
| AtaDevice.ATADevice.ReportFailure | src/core/openxbox/hw/ata/ata_device.cpp:55-70 | Device/Head gets the device index in DEV and Status gets the failure bits. |

## Left out

- PCI plumbing (`Init`, `PCIMMIORead`, `PCIMMIOWrite`) only forwards to the OHCI host controller, which is not part of this model.
- The OHCI detach call and the port's attach operation are foreign calls. They appear only as events on the port's ghost trace.
- The bodies of device-class hooks are backends that are not part of this model. Each present hook is an arbitrary step within the stated bounds.
- The scatter-gather helpers (`IoVecTobuffer`, `IoVecFromBuffer`, `IoVecReset`, `IoVecAdd`) are replaced by one flat byte sequence per packet. The model therefore does not capture a vector that aliases guest memory.
- UsbHooks.PacketCopy: the `Combined` isochronous redirect is not modelled; copies always use the packet's own vector.
- UsbPackets.PacketSetup: there is no `Combined` field to reset.
- UsbPackets.PacketAddBuffer: the buffer's bytes are appended by value, so later writes through the caller's pointer are not seen.
- UsbControl.DoTokenSetupAsWritten: an IN request over the data buffer reaches the handler unchecked. When the handler succeeds the length stays within the buffer only because the handler's reported length is bounded by the buffer (`UsbHooks.DeviceHandleControl`); when it fails, see Findings. The corrected `DoTokenSetup` checks the length first.
- UsbPorts.EPsetIfnum: the source declares a `uint8_t` result but returns nothing. It is modelled as a setter with no result.
- UsbPorts.PortLocation: `snprintf` truncation to the fixed `Path` buffer is not modelled; paths are unbounded strings.
- UsbPorts.PacketSizeFieldBits: the mask is stated as `raw % 0x800` on the 16-bit value rather than as a bitwise AND.
- UsbPackets.HandlePacket: on a pipelined endpoint with packets waiting, it requires the packet to be on a data endpoint whose class has a data handler. The source asserts (`usb_pci.cpp:238`) that a synchronous result cannot happen there, and the control state machine can stall by itself.
- `USB_PacketCheckState` and `USB_IsPacketInflight` appear as the precondition `p.State == PktSetup` and the predicate `Packet.InFlight`, not as separate operations.
- UsbPackets.HandlePacket: for endpoint 0 it states the control-hook count and the unknown-token stall only; the full control outcome (`ControlDone`) is stated on `ProcessOne` and `ProcessControl`, and carrying it across the recording of the result is left out to keep the proof small.
- UsbPackets.ProcessOne: endpoint 0 runs the corrected `DoTokenSetup` (see Findings), so `ProcessControl`, `ProcessNow`, `SubmitPacket` and `HandlePacket` inherit the corrected SETUP behaviour rather than the as-written one.
- UsbHooks.DeviceHandleControl: a present control handler may change only the packet's status and ActualLength, the device's event trace and the data buffer, and reports at most the requested length (and the buffer size). A real class handler also changes the device address, its configuration and endpoint state (SET_ADDRESS, SET_CONFIGURATION and the like); those effects, and a handler reporting more than was asked, are not modelled.
- UsbPackets.SubmitPacket: like HandlePacket, it states for endpoint 0 only the control-hook count and the unknown-token stall, not the full control outcome (`ControlDone`), which is stated on `ProcessOne`, `ProcessControl` and `ProcessToken`.
- UsbPackets.ProcessNow: for endpoint 0 it states only the control-hook count and the unknown-token stall, not the full control outcome (`ControlDone`), to keep the proof across the recording of the result small.
- UsbControl.DoParameter: it requires (through `ParamFits`) that an IN packet's vector can hold the full wLength. The source only copies the length the handler reported, and `USB_PacketCopy` asserts only that much.
- UsbHooks.DeviceHandleControl and UsbHooks.DeviceHandleData: a present handler may return only the statuses of `BackendMayReturn` (no ASYNC on an isochronous endpoint, nor on an interrupt endpoint of a non-host device; and a synchronous status on a pipelined, non-stream endpoint only while its queue is empty). These are duties of the backends, which are not part of this model, so the three assertions of `USB_HandlePacket` are proved under them.
- UsbPorts.DeviceReset: `usb_device_handle_reset` is treated as the reset-hook dispatcher (`UsbHooks.DeviceHandleReset`); its own body is not part of this model.
- UsbControl.AcceptSetup: it requires ActualLength 0, which the caller sets at `usb_pci.cpp:357` before this part of `USB_DoTokenSetup` runs.
- Logging (`log_debug`, `log_warning`, `log_fatal`) is not modelled.
- `src/core/openxbox/hw/mcpx_ram.cpp` and `src/core/vixen/hw/nv2a/engines/nv2a_engine_prmdio.cpp` are stubs that log and return 0, and are not part of this model.
- AtaDevice.ATADevice.IdentifyDevice: the unimplemented failure branch has no behaviour to model.

## Findings

| source | as written | input that shows it | evidently intended | confidence | as-written member | corrected member |
|---|---|---|---|---|---|---|
| src/core/openxbox/hw/pci/usb_pci.cpp:358-391 | SetupLength is stored before the length check. The check against sizeof(data_buf) exists only for OUT requests, and its stall leaves SetupState unchanged; an IN request whose handler fails also leaves SetupState unchanged. | Control state DATA from an earlier request with a small wLength, then a SETUP packet `00 09 00 00 00 00 FF FF` (OUT, wLength 0xFFFF). The result is STALL with the state still DATA, SetupLength 0xFFFF and SetupIndex 0, so the following OUT tokens stream up to 0xFFFF bytes into data_buf. Likewise an IN SETUP with wLength 0xFFFF that the class handler STALLs leaves DATA with SetupLength 0xFFFF, and the following IN tokens read past data_buf. | Reject a wLength over the data buffer for either direction, before the handler runs, and return the control state to IDLE. | not executed | UsbControl.DoTokenSetupAsWritten, UsbControl.StaleLengthOverrun | UsbControl.DoTokenSetup |
