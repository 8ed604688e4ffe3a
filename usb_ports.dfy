/** Ports and the device lifecycle on them (attach, detach, reset, address
    lookup, the dotted port path), endpoint lookup and the endpoint
    setters. */
module UsbPorts {
  import opened UsbTypes
  import opened UsbState
  import opened UsbHooks

  /** The character of a decimal digit. */
  function DigitChar(d: nat): (c: char)
    requires d < 10
    ensures '0' <= c <= '9'
  {
    (48 + d) as char
  }

  predicate IsDigits(s: string) {
    forall i :: 0 <= i < |s| ==> '0' <= s[i] <= '9'
  }

  /** The decimal digits of `n`, most significant first, no leading zero. */
  function Digits(n: nat): (s: string)
    ensures |s| >= 1 && IsDigits(s)
    ensures |s| > 1 ==> s[0] != '0'
  {
    if n < 10 then [DigitChar(n)] else Digits(n / 10) + [DigitChar(n % 10)]
  }

  /** The number a string of decimal digits denotes. */
  function DigitsValue(s: string): nat
    requires IsDigits(s)
  {
    if s == [] then 0 else 10 * DigitsValue(s[..|s| - 1]) + (s[|s| - 1] as int - 48)
  }

  /** Reading back the digits of a number gives the number. */
  lemma {:induction false} DigitsRoundTrip(n: nat)
    ensures DigitsValue(Digits(n)) == n
  {
    if n >= 10 {
      DigitsRoundTrip(n / 10);
      var s := Digits(n);
      assert s[..|s| - 1] == Digits(n / 10);
    }
  }

  /** The text `%d` formats an int as. */
  function Decimal(n: int): string {
    if n < 0 then "-" + Digits(-n) else Digits(n)
  }

  /** Number of '.' separators in a path. */
  function Dots(s: string): nat {
    if s == [] then 0 else (if s[0] == '.' then 1 else 0) + Dots(s[1..])
  }

  lemma {:induction false} DotsAppend(a: string, b: string)
    ensures Dots(a + b) == Dots(a) + Dots(b)
  {
    if a == [] {
      assert a + b == b;
    } else {
      assert (a + b)[0] == a[0] && (a + b)[1..] == a[1..] + b;
      DotsAppend(a[1..], b);
    }
  }

  lemma {:induction false} DigitsNoDots(s: string)
    requires IsDigits(s)
    ensures Dots(s) == 0
  {
    if s != [] {
      DigitsNoDots(s[1..]);
    }
  }

  lemma DecimalNoDots(n: int)
    ensures Dots(Decimal(n)) == 0
  {
    if n < 0 {
      DigitsNoDots(Digits(-n));
      DotsAppend("-", Digits(-n));
    } else {
      DigitsNoDots(Digits(n));
    }
  }

  /** A port path has one dot per hub between the root and the port. */
  ghost predicate PathValid(port: Port)
    reads port
  {
    Dots(port.Path) == port.HubCount
  }

  /** USB_PortLocation: "N" for root port N, "upstream.N" for port N of a
      hub attached at `upstream`, one hub deeper. */
  method PortLocation(downstream: Port, upstream: Port?, portnr: int)
    requires upstream != null ==> PathValid(upstream)
    modifies downstream`Path, downstream`HubCount
    ensures upstream == null ==> downstream.Path == Decimal(portnr) && downstream.HubCount == 0
    ensures upstream != null ==>
      downstream.Path == old(upstream.Path) + "." + Decimal(portnr) &&
      downstream.HubCount == old(upstream.HubCount) + 1
    ensures PathValid(downstream)
  {
    DecimalNoDots(portnr);
    if upstream != null {
      DotsAppend(upstream.Path, ".");
      DotsAppend(upstream.Path + ".", Decimal(portnr));
      downstream.Path := upstream.Path + "." + Decimal(portnr);
      downstream.HubCount := upstream.HubCount + 1;
    } else {
      downstream.Path := Decimal(portnr);
      downstream.HubCount := 0;
    }
  }

  /** USB_RegisterPort: a root port with index `index` is named by its
      one-based number. */
  method RegisterPort(port: Port, index: int, speedMask: int)
    modifies port`PortIndex, port`SpeedMask, port`Path, port`HubCount
    ensures port.PortIndex == index && port.SpeedMask == speedMask
    ensures port.Path == Decimal(index + 1) && port.HubCount == 0 && PathValid(port)
  {
    port.PortIndex := index;
    port.SpeedMask := speedMask;
    PortLocation(port, null, index + 1);
  }

  /** USB_Detach: the host controller is told and the device is no longer
      attached. */
  method Detach(port: Port)
    requires port.Dev != null && port.Dev.State != StateNotAttached
    modifies port`Events, port.Dev`State
    ensures port.Events == old(port.Events) + [ControllerDetach]
    ensures port.Dev.State == StateNotAttached
  {
    port.Events := port.Events + [ControllerDetach];
    port.Dev.State := StateNotAttached;
  }

  /** USB_Attach: the port's attach operation runs, the device becomes
      attached and its class is told. */
  method Attach(port: Port)
    requires port.Dev != null && port.Dev.Attached != 0 && port.Dev.State == StateNotAttached
    modifies port`Events, port.Dev`State, port.Dev`Events
    ensures port.Events == old(port.Events) + [OpsAttach]
    ensures port.Dev.State == StateAttached
    ensures port.Dev.Events ==
      old(port.Dev.Events) + (if HookHandleAttach in port.Dev.Hooks then [HookHandleAttach] else [])
  {
    port.Events := port.Events + [OpsAttach];
    port.Dev.State := StateAttached;
    DeviceHandleAttach(port.Dev);
  }

  /** USB_DeviceReset: an attached device forgets its address and remote
      wakeup setting and returns to the DEFAULT state; an absent or
      unplugged device is left alone. The source's final call,
      usb_device_handle_reset, is the class's reset hook
      (USB_DeviceHandleReset here). */
  method DeviceReset(dev: Device?)
    modifies Present(dev)`RemoteWakeup, Present(dev)`Addr, Present(dev)`State, Present(dev)`Events
    ensures dev != null && dev.Attached != 0 ==>
      dev.RemoteWakeup == 0 && dev.Addr == 0 && dev.State == StateDefault &&
      dev.Events == old(dev.Events) + (if HookHandleReset in dev.Hooks then [HookHandleReset] else [])
    ensures dev != null && dev.Attached == 0 ==> unchanged(dev)
    ensures dev != null ==>
      dev.Attached == old(dev.Attached) && dev.Hooks == old(dev.Hooks) && dev.Port == old(dev.Port) &&
      dev.SetupState == old(dev.SetupState) && dev.EpCtl == old(dev.EpCtl)
    ensures dev != null && old(dev.Valid()) ==> dev.Valid()
  {
    if dev == null || dev.Attached == 0 {
      return;
    }
    dev.RemoteWakeup := 0;
    dev.Addr := 0;
    dev.State := StateDefault;
    DeviceHandleReset(dev);
  }

  /** USB_PortReset: detach, attach again, and reset the device. */
  method PortReset(port: Port)
    requires port.Dev != null && port.Dev.Attached != 0 && port.Dev.State != StateNotAttached
    modifies port`Events, port.Dev`State, port.Dev`Addr, port.Dev`RemoteWakeup, port.Dev`Events
    ensures port.Dev == old(port.Dev)
    ensures old(port.Dev.Valid()) ==> port.Dev.Valid()
    ensures port.Events == old(port.Events) + [ControllerDetach, OpsAttach]
    ensures port.Dev.State == StateDefault && port.Dev.Addr == 0 && port.Dev.RemoteWakeup == 0
    ensures port.Dev.Events == old(port.Dev.Events) +
      (if HookHandleAttach in port.Dev.Hooks then [HookHandleAttach] else []) +
      (if HookHandleReset in port.Dev.Hooks then [HookHandleReset] else [])
  {
    var dev := port.Dev;
    Detach(port);
    Attach(port);
    DeviceReset(dev);
  }

  /** USB_DeviceAttach: plug the device into its port and attach it there. */
  method DeviceAttach(dev: Device)
    requires dev.Port != null && dev.Port.Dev == dev && dev.Attached == 0 && dev.State == StateNotAttached
    modifies dev`Attached, dev`State, dev`Events, dev.Port`Events
    ensures dev.Attached == 1 && dev.State == StateAttached
    ensures dev.Port.Events == old(dev.Port.Events) + [OpsAttach]
    ensures dev.Events == old(dev.Events) + (if HookHandleAttach in dev.Hooks then [HookHandleAttach] else [])
  {
    dev.Attached := dev.Attached + 1;
    Attach(dev.Port);
  }

  /** USB_FindDevice: the device on the port answers for its own address
      once attached and in the DEFAULT state, and asks its class (a hub)
      about any other address. */
  method FindDevice(port: Port, addr: byte) returns (r: Device?)
    modifies Present(port.Dev)`Events
    ensures port.Dev == null || port.Dev.Attached == 0 || port.Dev.State != StateDefault ==>
      r == null && (port.Dev != null ==> unchanged(port.Dev))
    ensures port.Dev != null && port.Dev.Attached != 0 && port.Dev.State == StateDefault ==>
      (port.Dev.Addr == addr ==> r == port.Dev && unchanged(port.Dev)) &&
      (port.Dev.Addr != addr && HookFindDevice !in port.Dev.Hooks ==> r == null)
    ensures port.Dev != null ==>
      port.Dev.Events == old(port.Dev.Events) ||
      port.Dev.Events == old(port.Dev.Events) + [HookFindDevice]
    ensures port.Dev != null && old(port.Dev.Valid()) ==> port.Dev.Valid()
  {
    var dev := port.Dev;
    if dev == null || dev.Attached == 0 || dev.State != StateDefault {
      return null;
    }
    if dev.Addr == addr {
      return dev;
    }
    r := DeviceFindDevice(dev, addr);
  }

  /** USB_GetEP: endpoint 0 is the control endpoint whatever the token; any
      other endpoint number `ep` picks entry ep - 1 of the IN table for an
      IN token and of the OUT table otherwise. */
  function GetEP(dev: Device?, pid: Pid, ep: int): (r: Endpoint?)
    reads dev, if dev == null then {} else {dev.EpIn, dev.EpOut}
    requires dev != null ==> dev.EpIn.Length == MaxEndpoints && dev.EpOut.Length == MaxEndpoints
    requires dev != null && ep != 0 ==> (pid == TokenIn || pid == TokenOut) && 0 < ep <= MaxEndpoints
    ensures r == null <==> dev == null
  {
    if dev == null then null
    else if ep == 0 then dev.EpCtl
    else if pid == TokenIn then dev.EpIn[ep - 1]
    else dev.EpOut[ep - 1]
  }

  /** On a device whose endpoint tables are in order, the endpoint found
      for number `ep` has that number, belongs to the device and, unless it
      is the control endpoint, has the token's direction. */
  lemma GetEPFinds(dev: Device, pid: Pid, ep: int)
    requires dev.EndpointsValid()
    requires ep != 0 ==> (pid == TokenIn || pid == TokenOut) && 0 < ep <= MaxEndpoints
    ensures GetEP(dev, pid, ep).Num == ep && GetEP(dev, pid, ep).Dev == dev
    ensures ep != 0 ==> GetEP(dev, pid, ep).Pid == pid
  {
  }

  /** The requirements of USB_GetEP on a present device. */
  ghost predicate EndpointAddress(dev: Device, pid: Pid, ep: int)
    reads dev
  {
    dev.EpIn.Length == MaxEndpoints && dev.EpOut.Length == MaxEndpoints &&
    (ep != 0 ==> (pid == TokenIn || pid == TokenOut) && 0 < ep <= MaxEndpoints)
  }

  /** USB_EPsetType. */
  method EPsetType(dev: Device, pid: Pid, ep: int, typ: byte)
    requires EndpointAddress(dev, pid, ep)
    modifies GetEP(dev, pid, ep)`Type
    ensures GetEP(dev, pid, ep).Type == typ
  {
    var uep := GetEP(dev, pid, ep);
    uep.Type := typ;
  }

  /** USB_EPsetIfnum. */
  method EPsetIfnum(dev: Device, pid: Pid, ep: int, ifnum: byte)
    requires EndpointAddress(dev, pid, ep)
    modifies GetEP(dev, pid, ep)`IfNum
    ensures GetEP(dev, pid, ep).IfNum == ifnum
  {
    var uep := GetEP(dev, pid, ep);
    uep.IfNum := ifnum;
  }

  /** The packet-size field of wMaxPacketSize (`raw & 0x7FF`): bits 10..0;
      bits 12..11 (additional transactions per microframe) and 15..13 are
      dropped. */
  function PacketSizeField(raw: nat): nat
    requires raw < 0x1_0000
  {
    raw % 0x800
  }

  lemma PacketSizeFieldBits(raw: nat)
    requires raw < 0x1_0000
    ensures PacketSizeField(raw) <= 2047
    ensures raw == PacketSizeField(raw) + 0x800 * (raw / 0x800) && raw / 0x800 < 32
    ensures raw < 0x800 ==> PacketSizeField(raw) == raw
  {
  }

  /** USB_EPsetMaxPacketSize. */
  method EPsetMaxPacketSize(dev: Device, pid: Pid, ep: int, raw: nat)
    requires EndpointAddress(dev, pid, ep) && raw < 0x1_0000
    modifies GetEP(dev, pid, ep)`MaxPacketSize
    ensures GetEP(dev, pid, ep).MaxPacketSize == PacketSizeField(raw) <= 2047
  {
    var uep := GetEP(dev, pid, ep);
    PacketSizeFieldBits(raw);
    uep.MaxPacketSize := PacketSizeField(raw);
  }
}
