/** The memory map: which memory an access goes to, and what comes back. */
module BusMaster {
  import opened CpuInterface
  import opened MemSim

  datatype Region = ROM | VIDEO_ROM | ISA_HOLE | RAM

  /** The decode, on byte addresses. */
  function RegionOf(addr: int): Region {
    if 0x000F_0000 <= addr <= 0x000F_FFFF || 0x00FF_0000 <= addr <= 0x00FF_FFFF then ROM
    else if 0x000C_0000 <= addr <= 0x000C_BFFF then VIDEO_ROM
    else if 0x00F0_0000 <= addr <= 0x00FE_FFFF then ISA_HOLE
    else RAM
  }

  /** Nothing but the two ROM windows, the two holes and the rest, without overlap; the windows alias. */
  lemma MemoryMap(addr: int)
    requires 0 <= addr < 0x100_0000
    ensures RegionOf(addr) == ROM <==> addr / 0x1_0000 == 0x0F || addr / 0x1_0000 == 0xFF
    ensures RegionOf(addr) == VIDEO_ROM <==> 0x30 <= addr / 0x4000 < 0x33
    ensures RegionOf(addr) == ISA_HOLE <==> 0xF0 <= addr / 0x1_0000 < 0xFF
    ensures RegionOf(addr / 4 * 4) == RegionOf(addr)
  {
    assert addr / 4 * 4 <= addr < addr / 4 * 4 + 4;
  }

  datatype RomPins = RomPins(address: int, rdEnable: bool)
  datatype RamPins = RamPins(address: int, rdEnable: bool, wrEnable: bool, wrMask: Mask, wrData: bv32)

  /**
   * The outputs of the combinational block: to the ROM, to the RAM, and back to the slave. The enables are
   * assigned only in the branch that uses them, so they hold their value elsewhere; so does everything but
   * the two answers during reset.
   */
  datatype Decoder = Decoder(rom: RomPins, ram: RamPins, bus: Outputs)

  /** The low 14 bits of a word address. */
  function RomIndex(wordAddress: int): int {
    wordAddress % 0x4000
  }

  /** One evaluation of the block. */
  function Evaluate(d: Decoder, rst: bool, port: Port, rom: Outputs, ram: Outputs): Decoder {
    if rst then d.(bus := d.bus.(ack := false, valid := false))
    else
      var noRom := d.rom.(address := 0);
      var noRam := d.ram.(address := 0, wrMask := NO_LANES, wrData := 0);
      match RegionOf(4 * port.address)
      case ROM => Decoder(RomPins(RomIndex(port.address), port.rdEnable), noRam, Outputs(true, rom.data, rom.valid))
      case VIDEO_ROM => Decoder(noRom, noRam, Outputs(true, 0, true))
      case ISA_HOLE => Decoder(noRom, noRam, Outputs(true, 0, true))
      case RAM => Decoder(noRom, RamPins(port.address, port.rdEnable, port.wrEnable, port.wrMask, port.wrData), ram)
  }

  const DARK := Decoder(RomPins(0, false), RamPins(0, false, false, NO_LANES, 0), Outputs(false, 0, false))

  class BUSMASTER {
    var rom: RomPins
    var ram: RamPins
    var bus: Outputs

    ghost function State(): Decoder
      reads this
    {
      Decoder(rom, ram, bus)
    }

    constructor ()
      ensures State() == DARK
    {
      rom, ram := RomPins(0, false), RamPins(0, false, false, NO_LANES, 0);
      bus := Outputs(false, 0, false);
    }

    method Eval(rst: bool, port: Port, romOut: Outputs, ramOut: Outputs)
      modifies this
      ensures State() == Evaluate(old(State()), rst, port, romOut, ramOut)
    {
      hide RomIndex;
      if rst {
        bus := bus.(ack := false, valid := false);
      } else {
        rom := rom.(address := 0);
        ram := ram.(address := 0, wrMask := NO_LANES, wrData := 0);
        var pad := 4 * port.address;
        if (pad >= 0x000F_0000 && pad <= 0x000F_FFFF) || (pad >= 0x00FF_0000 && pad <= 0x00FF_FFFF) {
          rom := RomPins(RomIndex(port.address), port.rdEnable);
          bus := Outputs(true, romOut.data, romOut.valid);
        } else if pad >= 0x000C_0000 && pad <= 0x000C_BFFF {
          bus := Outputs(true, 0, true);
        } else if pad >= 0x00F0_0000 && pad <= 0x00FE_FFFF {
          bus := Outputs(true, 0, true);
        } else {
          bus := Outputs(ramOut.ack, ramOut.data, ramOut.valid);
          ram := RamPins(port.address, port.rdEnable, port.wrEnable, port.wrMask, port.wrData);
        }
      }
    }
  }
}
