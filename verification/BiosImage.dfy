/** A file loaded into the ROM, as the CPU sees it over the bus. */
module BiosImage {
  import opened BusMaster
  import opened TestBench
  import opened CpuBus
  import MemSim

  /** Both ROM windows show the file, 64 KB of it, followed by zeros where it is shorter. */
  lemma WindowShowsFile(file: seq<bv8>, addr: int)
    requires RegionOf(Lines(addr)) == ROM
    ensures MapByte(MemSim.Image(file, ROM_WORDS), addr) == MemSim.FileByte(file, addr % 0x1_0000)
  {
    hide MemSim.ByteOf, MemSim.WordOf, MemSim.ImageWord;
    var k := addr % 0x1_0000;
    WordInWindow(addr);
    MemSim.ImageBytes(file, ROM_WORDS, k);
  }

  predicate InRom(fs: seq<Fetch>) {
    forall i | 0 <= i < |fs| :: RegionOf(Lines(fs[i].addr)) == ROM
  }

  /**
   * From power-up with any file loaded into the ROM: any number of byte reads of the ROM windows, with any
   * idle time between them, returns the bytes of the file in the order of the calls, each after exactly five ticks.
   */
  lemma FileOverTheBus(b: Bench, file: seq<bv8>, fs: seq<Fetch>)
    requires PoweredUp(b, MemSim.Image(file, ROM_WORDS)) && InRom(fs)
    ensures |Fetched(AfterReset(b), fs)| == |fs|
    ensures forall i | 0 <= i < |fs| ::
              Fetched(AfterReset(b), fs)[i] == MemSim.FileByte(file, fs[i].addr % 0x1_0000)
    ensures forall i, n | 0 <= i < |fs| && 0 < n <= 5 ::
              During(AfterReset(b), fs, i, n).link.m.shared.completed <==> n == 5
  {
    hide AfterReset, MapByte, MemSim.Image, PoweredUp;
    AllReadsFromReset(b, MemSim.Image(file, ROM_WORDS), fs);
    forall i | 0 <= i < |fs| { WindowShowsFile(file, fs[i].addr); }
  }
}
