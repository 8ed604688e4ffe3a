/** The SET FEATURES command of an ATA device (section 8.37 of
    ATA/ATAPI-4): the subcommand in the Features register, the transfer-mode
    subcommand whose Sector Count register carries a transfer type and mode
    (section 8.37.10, table 20), and the error outputs of section 8.37.6.
    Registers are 8 bits wide and updated in place. */
module AtaDevice {

  /** Status register bits (section 7.15 of ATA/ATAPI-4). */
  const StError: bv8 := 0x01
  const StDataRequest: bv8 := 0x08
  const StReady: bv8 := 0x40

  /** ABRT in the Error register. */
  const ErrAbort: bv8 := 0x04

  /** Position of DEV in the Device/Head register. */
  const DevSelectorBit: bv8 := 4

  /** The Features value of the set-transfer-mode subcommand. */
  const SFCmdSetTransferMode: bv8 := 0x03

  /** Transfer types of table 20: PIO default mode (00000b), PIO flow
      control mode (00001b), multiword DMA (00100b), Ultra DMA (01000b). */
  const XferTypePioDefault: bv8 := 0x00
  const XferTypePioFlowCtl: bv8 := 0x01
  const XferTypeMultiWordDma: bv8 := 0x04
  const XferTypeUltraDma: bv8 := 0x08

  /** Highest modes the device supports (kMaximum*TransferMode; their
      header is not part of this model). */
  const MaxPioMode: bv8
  const MaxMultiwordDmaMode: bv8
  const MaxUltraDmaMode: bv8

  /** The transfer type, bits 7..3 of the Sector Count register. */
  function TransferType(sectorCount: bv8): (t: bv8)
    ensures t < 32
  {
    (sectorCount >> 3) & 0x1F
  }

  /** The transfer mode, bits 2..0 of the Sector Count register. */
  function TransferMode(sectorCount: bv8): (m: bv8)
    ensures m <= 7
  {
    sectorCount & 0x7
  }

  /** The Sector Count value a host writes to request mode `m` of type `t`. */
  function EncodeTransfer(t: bv8, m: bv8): bv8
    requires t < 32 && m < 8
  {
    (t << 3) | m
  }

  lemma DecodeEncodeTransfer(t: bv8, m: bv8)
    requires t < 32 && m < 8
    ensures TransferType(EncodeTransfer(t, m)) == t && TransferMode(EncodeTransfer(t, m)) == m
  {
  }

  /** Type and mode together account for every bit of the register. */
  lemma EncodeDecodeTransfer(sectorCount: bv8)
    ensures EncodeTransfer(TransferType(sectorCount), TransferMode(sectorCount)) == sectorCount
  {
  }

  predicate IsPioType(t: bv8) {
    t == XferTypePioDefault || t == XferTypePioFlowCtl
  }

  predicate IsDmaType(t: bv8) {
    t == XferTypeMultiWordDma || t == XferTypeUltraDma
  }

  /** The modes the device accepts: PIO default mode 0 or 1 (with or
      without IORDY), PIO flow control, multiword DMA and Ultra DMA up to
      the device's maxima; no other transfer type. */
  predicate ModeAccepted(t: bv8, m: bv8) {
    (t == XferTypePioDefault && m <= 1) ||
    (t == XferTypePioFlowCtl && m <= MaxPioMode) ||
    (t == XferTypeMultiWordDma && m <= MaxMultiwordDmaMode) ||
    (t == XferTypeUltraDma && m <= MaxUltraDmaMode)
  }

  /** The task-file registers a channel's devices share. */
  class ATARegisters {
    var Features: bv8
    var SectorCount: bv8
    var DeviceHead: bv8
    var Status: bv8
    var Error: bv8

    constructor ()
      ensures Features == 0 && SectorCount == 0 && DeviceHead == 0 && Status == 0 && Error == 0
    {
      Features, SectorCount, DeviceHead, Status, Error := 0, 0, 0, 0, 0;
    }
  }

  /** The Device/Head value with DEV replaced by the device index. */
  function SelectDevice(deviceHead: bv8, devIndex: bv8): bv8 {
    (deviceHead & !(1 << DevSelectorBit)) | (devIndex << DevSelectorBit)
  }

  /** For a device index 0 or 1, DEV reads back as the index and every other
      bit of Device/Head is kept. */
  lemma SelectDeviceBits(deviceHead: bv8, devIndex: bv8)
    requires devIndex < 2
    ensures (SelectDevice(deviceHead, devIndex) >> DevSelectorBit) & 1 == devIndex
    ensures SelectDevice(deviceHead, devIndex) & !0x10 == deviceHead & !0x10
  {
  }

  /** The Status value after a failed SET FEATURES: DRDY set, DRQ clear,
      ERR set when the Error register is nonzero (otherwise as it was), all
      other bits kept. */
  function AbortedStatus(status: bv8, error: bv8): bv8 {
    var s := (status | StReady) & !StDataRequest;
    if error != 0 then s | StError else s
  }

  lemma AbortedStatusBits(status: bv8, error: bv8)
    ensures AbortedStatus(status, error) & StReady == StReady
    ensures AbortedStatus(status, error) & StDataRequest == 0
    ensures error != 0 ==> AbortedStatus(status, error) & StError == StError
    ensures error == 0 ==> AbortedStatus(status, error) & StError == status & StError
    ensures AbortedStatus(status, error) & !(StReady | StDataRequest | StError) ==
            status & !(StReady | StDataRequest | StError)
  {
  }

  class ATADevice {
    const Channel: nat
    const DevIndex: bv8
    const Regs: ATARegisters
    var PioTransferType: bv8
    var PioTransferMode: bv8
    var DmaTransferType: bv8
    var DmaTransferMode: bv8

    constructor (channel: nat, devIndex: bv8, regs: ATARegisters)
      ensures Channel == channel && DevIndex == devIndex && Regs == regs
    {
      Channel, DevIndex, Regs := channel, devIndex, regs;
      PioTransferType, PioTransferMode := XferTypePioDefault, 0;
      DmaTransferType, DmaTransferMode := XferTypeMultiWordDma, 0;
    }

    /** __doIdentifyDevice: not implemented, always fails. */
    method DoIdentifyDevice() returns (ok: bool)
      ensures !ok
    {
      ok := false;
    }

    /** IdentifyDevice: fails, and its failure path does nothing yet. */
    method IdentifyDevice() returns (ok: bool)
      ensures !ok
    {
      ok := DoIdentifyDevice();
    }

    /** SetPIOTransferMode: store a PIO type and mode the device supports;
      otherwise report ABRT and keep the stored mode. */
    method SetPioTransferMode(t: bv8, m: bv8) returns (ok: bool)
      requires IsPioType(t)
      modifies Regs`Error, this`PioTransferType, this`PioTransferMode
      ensures ok <==> ModeAccepted(t, m)
      ensures ok ==>
        PioTransferType == t && PioTransferMode == m && Regs.Error == old(Regs.Error)
      ensures !ok ==>
        PioTransferType == old(PioTransferType) && PioTransferMode == old(PioTransferMode) &&
        Regs.Error == old(Regs.Error) | ErrAbort
    {
      if t == XferTypePioDefault {
        if m > 1 {
          Regs.Error := Regs.Error | ErrAbort;
          return false;
        }
      } else {
        if m > MaxPioMode {
          Regs.Error := Regs.Error | ErrAbort;
          return false;
        }
      }
      PioTransferType := t;
      PioTransferMode := m;
      return true;
    }

    /** SetDMATransferMode: store a DMA type and mode the device supports;
      otherwise report ABRT and keep the stored mode. */
    method SetDmaTransferMode(t: bv8, m: bv8) returns (ok: bool)
      requires IsDmaType(t)
      modifies Regs`Error, this`DmaTransferType, this`DmaTransferMode
      ensures ok <==> ModeAccepted(t, m)
      ensures ok ==>
        DmaTransferType == t && DmaTransferMode == m && Regs.Error == old(Regs.Error)
      ensures !ok ==>
        DmaTransferType == old(DmaTransferType) && DmaTransferMode == old(DmaTransferMode) &&
        Regs.Error == old(Regs.Error) | ErrAbort
    {
      if t == XferTypeMultiWordDma {
        if m > MaxMultiwordDmaMode {
          Regs.Error := Regs.Error | ErrAbort;
          return false;
        }
      } else {
        if m > MaxUltraDmaMode {
          Regs.Error := Regs.Error | ErrAbort;
          return false;
        }
      }
      DmaTransferType := t;
      DmaTransferMode := m;
      return true;
    }

    /** The outcome of the set-transfer-mode subcommand as Sector Count
      requests it: success exactly when table 20 and the device accept the
      type and mode; then the pair of that kind holds them. A failure on a
      known type ORs ABRT into Error; an unknown type touches nothing. The
      pair of the other kind, and the requested kind's pair on failure,
      are kept. */
    twostate predicate TransferModeSet(ok: bool)
      reads this, Regs`SectorCount, Regs`Error
    {
      var t := TransferType(Regs.SectorCount);
      var m := TransferMode(Regs.SectorCount);
      (ok <==> ModeAccepted(t, m)) &&
      (!IsPioType(t) && !IsDmaType(t) ==> Regs.Error == old(Regs.Error)) &&
      (IsPioType(t) || IsDmaType(t) ==> Regs.Error == (if ok then old(Regs.Error) else old(Regs.Error) | ErrAbort)) &&
      (ok && IsPioType(t) ==> PioTransferType == t && PioTransferMode == m) &&
      (ok && IsDmaType(t) ==> DmaTransferType == t && DmaTransferMode == m) &&
      (!ok || IsDmaType(t) ==> PioTransferType == old(PioTransferType) && PioTransferMode == old(PioTransferMode)) &&
      (!ok || IsPioType(t) ==> DmaTransferType == old(DmaTransferType) && DmaTransferMode == old(DmaTransferMode))
    }

    /** SetTransferMode: decode the Sector Count register and set the PIO
      or DMA mode it asks for. A transfer type outside table 20 fails
      without touching any register or stored mode. */
    method SetTransferMode() returns (ok: bool)
      modifies Regs`Error, this`PioTransferType, this`PioTransferMode, this`DmaTransferType, this`DmaTransferMode
      ensures TransferModeSet(ok)
    {
      var t := TransferType(Regs.SectorCount);
      var m := TransferMode(Regs.SectorCount);
      if IsPioType(t) {
        ok := SetPioTransferMode(t, m);
      } else if IsDmaType(t) {
        ok := SetDmaTransferMode(t, m);
      } else {
        ok := false;
      }
    }

    /** __doSetFeatures: only the set-transfer-mode subcommand is
      supported; any other subcommand fails without touching anything. */
    method DoSetFeatures() returns (ok: bool)
      modifies Regs`Error, this`PioTransferType, this`PioTransferMode, this`DmaTransferType, this`DmaTransferMode
      ensures Regs.Features != SFCmdSetTransferMode ==> !ok && unchanged(Regs) && unchanged(this)
      ensures Regs.Features == SFCmdSetTransferMode ==> TransferModeSet(ok)
      ensures ok ==> Regs.Error == old(Regs.Error)
      ensures !ok ==> Regs.Error == old(Regs.Error) || Regs.Error == old(Regs.Error) | ErrAbort
    {
      if Regs.Features == SFCmdSetTransferMode {
        ok := SetTransferMode();
      } else {
        ok := false;
      }
    }

    /** SetFeatures: run the subcommand and, when it fails, produce the
      error outputs: DEV names this device, DRDY is set, DRQ is cleared and
      ERR is set if any Error bit is. A successful subcommand leaves the
      Device/Head and Status registers alone. */
    method SetFeatures() returns (ok: bool)
      modifies Regs`Error, Regs`DeviceHead, Regs`Status
      modifies this`PioTransferType, this`PioTransferMode, this`DmaTransferType, this`DmaTransferMode
      ensures Regs.Features != SFCmdSetTransferMode ==>
        !ok && Regs.Error == old(Regs.Error) && unchanged(this)
      ensures Regs.Features == SFCmdSetTransferMode ==> TransferModeSet(ok)
      ensures ok ==>
        Regs.DeviceHead == old(Regs.DeviceHead) && Regs.Status == old(Regs.Status) &&
        Regs.Error == old(Regs.Error)
      ensures !ok ==>
        Regs.DeviceHead == SelectDevice(old(Regs.DeviceHead), DevIndex) &&
        Regs.Status == AbortedStatus(old(Regs.Status), Regs.Error)
      ensures !ok && DevIndex < 2 ==>
        (Regs.DeviceHead >> DevSelectorBit) & 1 == DevIndex &&
        Regs.DeviceHead & !0x10 == old(Regs.DeviceHead) & !0x10
      ensures !ok ==>
        Regs.Status & StReady == StReady && Regs.Status & StDataRequest == 0 &&
        (Regs.Error != 0 ==> Regs.Status & StError == StError) &&
        (Regs.Error == 0 ==> Regs.Status & StError == old(Regs.Status) & StError)
    {
      ok := DoSetFeatures();
      if !ok {
        ReportFailure();
        AbortedStatusBits(old(Regs.Status), Regs.Error);
        if DevIndex < 2 {
          SelectDeviceBits(old(Regs.DeviceHead), DevIndex);
        }
      }
    }

    /** The failure outputs of SetFeatures (section 8.37.6). */
    method ReportFailure()
      modifies Regs`DeviceHead, Regs`Status
      ensures Regs.DeviceHead == SelectDevice(old(Regs.DeviceHead), DevIndex)
      ensures Regs.Status == AbortedStatus(old(Regs.Status), Regs.Error)
    {
      var regs := Regs;
      regs.DeviceHead := SelectDevice(regs.DeviceHead, DevIndex);
      regs.Status := regs.Status | StReady;
      regs.Status := regs.Status & !StDataRequest;
      if regs.Error != 0 {
        regs.Status := regs.Status | StError;
      }
    }
  }
}
