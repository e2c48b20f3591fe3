/** The delay-counted memory of the simulation, and the byte memory it refines. */
module MemSim {
  import Words

  // ---------- Words and their byte lanes ----------

  type Lane = i: int | 0 <= i < 4

  /** A four-bit write mask, one flag for each byte lane. */
  datatype Mask = Mask(b0: bool, b1: bool, b2: bool, b3: bool) {
    function At(i: Lane): bool {
      if i == 0 then b0 else if i == 1 then b1 else if i == 2 then b2 else b3
    }
  }

  const NO_LANES := Mask(false, false, false, false)

  function Byte0(w: bv32): bv8 { (w & 0xff) as bv8 }
  function Byte1(w: bv32): bv8 { ((w >> 8) & 0xff) as bv8 }
  function Byte2(w: bv32): bv8 { ((w >> 16) & 0xff) as bv8 }
  function Byte3(w: bv32): bv8 { (w >> 24) as bv8 }

  /** The byte in lane `i` of a word. */
  function ByteOf(w: bv32, i: Lane): bv8 {
    if i == 0 then Byte0(w) else if i == 1 then Byte1(w) else if i == 2 then Byte2(w) else Byte3(w)
  }

  function SelectBits(b0: bool, b1: bool, b2: bool, b3: bool): bv32 {
    (if b3 then 0xff000000 else 0) | (if b2 then 0x00ff0000 else 0) |
    (if b1 then 0x0000ff00 else 0) | (if b0 then 0x000000ff else 0)
  }

  function Select(mask: Mask): bv32 {
    SelectBits(mask.b0, mask.b1, mask.b2, mask.b3)
  }

  /** The word left in memory by a masked write. */
  function Merge(w: bv32, data: bv32, mask: Mask): bv32 {
    Overlay(w, data, Select(mask))
  }

  function Overlay(w: bv32, data: bv32, sel: bv32): bv32 {
    (w & !sel) | (data & sel)
  }

  /** A masked write replaces exactly the lanes its mask selects. */
  lemma MergeLanes(w: bv32, data: bv32, mask: Mask, i: Lane)
    ensures ByteOf(Merge(w, data, mask), i) == if mask.At(i) then ByteOf(data, i) else ByteOf(w, i)
  {
    hide Merge, Byte0, Byte1, Byte2, Byte3;
    MergeLane0(w, data, mask);
    MergeLane1(w, data, mask);
    MergeLane2(w, data, mask);
    MergeLane3(w, data, mask);
  }

  lemma MergeLane0(w: bv32, data: bv32, mask: Mask)
    ensures Byte0(Merge(w, data, mask)) == if mask.b0 then Byte0(data) else Byte0(w)
  {
    hide SelectBits, Overlay, Byte0;
    BitsOfLane0(w, data, mask.b0, mask.b1, mask.b2, mask.b3);
  }

  lemma MergeLane1(w: bv32, data: bv32, mask: Mask)
    ensures Byte1(Merge(w, data, mask)) == if mask.b1 then Byte1(data) else Byte1(w)
  {
    hide SelectBits, Overlay, Byte1;
    BitsOfLane1(w, data, mask.b0, mask.b1, mask.b2, mask.b3);
  }

  lemma MergeLane2(w: bv32, data: bv32, mask: Mask)
    ensures Byte2(Merge(w, data, mask)) == if mask.b2 then Byte2(data) else Byte2(w)
  {
    hide SelectBits, Overlay, Byte2;
    BitsOfLane2(w, data, mask.b0, mask.b1, mask.b2, mask.b3);
  }

  lemma MergeLane3(w: bv32, data: bv32, mask: Mask)
    ensures Byte3(Merge(w, data, mask)) == if mask.b3 then Byte3(data) else Byte3(w)
  {
    hide SelectBits, Overlay, Byte3;
    BitsOfLane3(w, data, mask.b0, mask.b1, mask.b2, mask.b3);
  }

  lemma BitsOfLane0(w: bv32, d: bv32, b0: bool, b1: bool, b2: bool, b3: bool)
    ensures Byte0(Overlay(w, d, SelectBits(b0, b1, b2, b3))) == if b0 then Byte0(d) else Byte0(w)
  {
  }

  lemma BitsOfLane1(w: bv32, d: bv32, b0: bool, b1: bool, b2: bool, b3: bool)
    ensures Byte1(Overlay(w, d, SelectBits(b0, b1, b2, b3))) == if b1 then Byte1(d) else Byte1(w)
  {
  }

  lemma BitsOfLane2(w: bv32, d: bv32, b0: bool, b1: bool, b2: bool, b3: bool)
    ensures Byte2(Overlay(w, d, SelectBits(b0, b1, b2, b3))) == if b2 then Byte2(d) else Byte2(w)
  {
  }

  lemma BitsOfLane3(w: bv32, d: bv32, b0: bool, b1: bool, b2: bool, b3: bool)
    ensures Byte3(Overlay(w, d, SelectBits(b0, b1, b2, b3))) == if b3 then Byte3(d) else Byte3(w)
  {
  }

  /** Writing the same lanes again changes nothing. */
  lemma MergeTwice(w: bv32, data: bv32, mask: Mask)
    ensures Merge(Merge(w, data, mask), data, mask) == Merge(w, data, mask)
  {
    hide Select, Overlay;
    OverlayTwice(w, data, Select(mask));
  }

  lemma OverlayTwice(w: bv32, data: bv32, sel: bv32)
    ensures Overlay(Overlay(w, data, sel), data, sel) == Overlay(w, data, sel)
  {
  }

  lemma OverlayAll(w: bv32, data: bv32, sel: bv32)
    requires sel == 0xffffffff
    ensures Overlay(w, data, sel) == data
  {
  }

  lemma FullMask(w: bv32, data: bv32, mask: Mask)
    requires Select(mask) == 0xffffffff
    ensures Merge(w, data, mask) == data
  {
    hide Select, Overlay;
    OverlayAll(w, data, Select(mask));
  }

  /** The mask as bits, put together one lane at a time: all ones in the lanes it selects, zeros elsewhere. */
  method Selected(mask: Mask) returns (sel: bv32)
    ensures sel == Select(mask)
    ensures forall i: Lane :: ByteOf(sel, i) == if mask.At(i) then 0xff else 0
  {
    SelectLanes(mask.b0, mask.b1, mask.b2, mask.b3);
    sel := 0;
    if mask.b3 { sel := sel | 0xff000000; }
    if mask.b2 { sel := sel | 0x00ff0000; }
    if mask.b1 { sel := sel | 0x0000ff00; }
    if mask.b0 { sel := sel | 0x000000ff; }
  }

  lemma SelectLanes(b0: bool, b1: bool, b2: bool, b3: bool)
    ensures forall i: Lane :: ByteOf(SelectBits(b0, b1, b2, b3), i) == if Mask(b0, b1, b2, b3).At(i) then 0xff else 0
  {
  }

  // ---------- Loading an image ----------

  /** The word a little-endian host makes of four bytes of a file. */
  function WordOf(b0: bv8, b1: bv8, b2: bv8, b3: bv8): bv32 {
    ((b3 as bv32) << 24) | ((b2 as bv32) << 16) | ((b1 as bv32) << 8) | (b0 as bv32)
  }

  lemma LanesOfWord(b0: bv8, b1: bv8, b2: bv8, b3: bv8, i: Lane)
    ensures ByteOf(WordOf(b0, b1, b2, b3), i) == if i == 0 then b0 else if i == 1 then b1 else if i == 2 then b2 else b3
  {
  }

  /** A word with the byte in lane `i` replaced. */
  function SetByte(w: bv32, i: Lane, b: bv8): bv32 {
    if i == 0 then (w & 0xffffff00) | (b as bv32)
    else if i == 1 then (w & 0xffff00ff) | ((b as bv32) << 8)
    else if i == 2 then (w & 0xff00ffff) | ((b as bv32) << 16)
    else (w & 0x00ffffff) | ((b as bv32) << 24)
  }

  lemma SetByteOf(b0: bv8, b1: bv8, b2: bv8, b3: bv8, i: Lane, b: bv8)
    ensures SetByte(WordOf(b0, b1, b2, b3), i, b) ==
            WordOf(if i == 0 then b else b0, if i == 1 then b else b1, if i == 2 then b else b2, if i == 3 then b else b3)
  {
    hide WordOf, SetByte;
    if i == 0 { SetByte0(b0, b1, b2, b3, b); }
    else if i == 1 { SetByte1(b0, b1, b2, b3, b); }
    else if i == 2 { SetByte2(b0, b1, b2, b3, b); }
    else { SetByte3(b0, b1, b2, b3, b); }
  }

  lemma SetByte0(b0: bv8, b1: bv8, b2: bv8, b3: bv8, b: bv8)
    ensures SetByte(WordOf(b0, b1, b2, b3), 0, b) == WordOf(b, b1, b2, b3)
  {
  }

  lemma SetByte1(b0: bv8, b1: bv8, b2: bv8, b3: bv8, b: bv8)
    ensures SetByte(WordOf(b0, b1, b2, b3), 1, b) == WordOf(b0, b, b2, b3)
  {
  }

  lemma SetByte2(b0: bv8, b1: bv8, b2: bv8, b3: bv8, b: bv8)
    ensures SetByte(WordOf(b0, b1, b2, b3), 2, b) == WordOf(b0, b1, b, b3)
  {
  }

  lemma SetByte3(b0: bv8, b1: bv8, b2: bv8, b3: bv8, b: bv8)
    ensures SetByte(WordOf(b0, b1, b2, b3), 3, b) == WordOf(b0, b1, b2, b)
  {
  }

  /** A byte of the file, or of the zeros that follow it. */
  function FileByte(file: seq<bv8>, k: nat): bv8 {
    if k < |file| then file[k] else 0
  }

  function ImageWord(file: seq<bv8>, w: nat): bv32 {
    WordOf(FileByte(file, 4 * w), FileByte(file, 4 * w + 1), FileByte(file, 4 * w + 2), FileByte(file, 4 * w + 3))
  }

  /** The memory that holds a file: too short a file is followed by zeros, too long a one is cut. */
  function Image(file: seq<bv8>, len: nat): (image: seq<bv32>)
    ensures |image| == len && forall w | 0 <= w < len :: image[w] == ImageWord(file, w)
  {
    seq(len, w requires 0 <= w < len => ImageWord(file, w))
  }

  /** Byte for byte, the image is the file. */
  lemma ImageBytes(file: seq<bv8>, len: nat, k: nat)
    requires k < 4 * len
    ensures Bytes(Image(file, len))[k] == FileByte(file, k)
  {
    hide WordOf, ByteOf;
    var w, l := k / 4, k % 4;
    assert k == 4 * w + l;
    LanesOfWord(FileByte(file, 4 * w), FileByte(file, 4 * w + 1), FileByte(file, 4 * w + 2), FileByte(file, 4 * w + 3), k % 4);
  }

  /** One byte more of the file changes one lane of one word. */
  lemma ImageStep(file: seq<bv8>, k: nat, w: nat)
    requires k < |file|
    ensures ImageWord(file[..k + 1], w) ==
            if w == k / 4 then SetByte(ImageWord(file[..k], w), k % 4, file[k]) else ImageWord(file[..k], w)
  {
    hide WordOf, SetByte;
    if w == k / 4 {
      var f := file[..k];
      SetByteOf(FileByte(f, 4 * w), FileByte(f, 4 * w + 1), FileByte(f, 4 * w + 2), FileByte(f, 4 * w + 3), k % 4, file[k]);
    }
  }

  /** What does not fit makes no difference. */
  lemma ImageOfPrefix(file: seq<bv8>, len: nat, nr: nat)
    requires nr <= |file| && (nr == |file| || nr == 4 * len)
    ensures Image(file[..nr], len) == Image(file, len)
  {
    hide WordOf;
    var p, q := Image(file[..nr], len), Image(file, len);
    forall w | 0 <= w < len ensures p[w] == q[w] {
      forall k | 4 * w <= k < 4 * w + 4 ensures FileByte(file[..nr], k) == FileByte(file, k) {}
    }
  }

  lemma ZeroImage(len: nat)
    ensures Image([], len) == seq(len, _ => 0)
  {
  }

  // ---------- One call ----------

  datatype Mem = Mem(words: seq<bv32>, delay: nat, count: nat)

  /** `wr_ack`, `rd_data`, `rd_valid`: passed by reference, so kept when a call does not assign them. */
  datatype Outputs = Outputs(ack: bool, data: bv32, valid: bool)

  datatype Call = Call(wrData: bv32, address: nat, wrEnable: bool, wrMask: Mask, rdEnable: bool)

  predicate Enabled(c: Call) {
    c.wrEnable || c.rdEnable
  }

  /** The word after the last one passes the bounds test, so a caller must not access it. */
  predicate Defined(m: Mem, c: Call) {
    c.address == |m.words| && m.count == 0 ==> !Enabled(c)
  }

  function Apply(m: Mem, o: Outputs, c: Call): (r: (Mem, Outputs))
    requires Defined(m, c)
  {
    if c.address > |m.words| then (m, o)
    else if m.count == 0 then
      if c.wrEnable then
        (m.(words := m.words[c.address := Merge(m.words[c.address], c.wrData, c.wrMask)], count := m.delay),
         o.(ack := true, valid := false))
      else if c.rdEnable then
        (m.(count := m.delay), Outputs(false, m.words[c.address], true))
      else (m, o)
    else (m.(count := m.count - 1), o.(ack := false, valid := false))
  }

  class MEMSIM {
    const words: array<bv32>
    const delay: nat
    var count: nat
    var ack: bool
    var data: bv32
    var valid: bool

    ghost function State(): Mem
      reads this, words
    {
      Mem(words[..], delay, count)
    }

    function Out(): Outputs
      reads this
    {
      Outputs(ack, data, valid)
    }

    constructor (nwords: nat, delay: nat)
      ensures words.Length == nwords && this.delay == delay && fresh(words)
      ensures count == 0 && Out() == Outputs(false, 0, false)
    {
      words := new bv32[nwords](_ => 0);
      this.delay := delay;
      count := 0;
      ack, data, valid := false, 0, false;
    }

    /** `load` of an open file: clears the memory, then reads as much of the file as fits. */
    method Load(file: seq<bv8>) returns (nr: nat)
      modifies words
      ensures words[..] == Image(file, words.Length)
      ensures nr == if |file| < 4 * words.Length then |file| else 4 * words.Length
    {
      hide SetByte, ImageWord;
      nr := 0;
      while nr < words.Length
        invariant nr <= words.Length && forall w | 0 <= w < nr :: words[w] == 0
      {
        words[nr] := 0;
        nr := nr + 1;
      }
      ZeroImage(words.Length);
      nr := 0;
      while nr < |file| && nr < 4 * words.Length
        invariant nr <= |file| && nr <= 4 * words.Length
        invariant forall w | 0 <= w < words.Length :: words[w] == ImageWord(file[..nr], w)
      {
        forall w | 0 <= w < words.Length { ImageStep(file, nr, w); }
        words[nr / 4] := SetByte(words[nr / 4], nr % 4, file[nr]);
        nr := nr + 1;
      }
      ImageOfPrefix(file, words.Length, nr);
    }

    method Access(wrData: bv32, address: nat, wrEnable: bool, wrMask: Mask, rdEnable: bool)
      requires Defined(State(), Call(wrData, address, wrEnable, wrMask, rdEnable))
      modifies this, words
      ensures (State(), Out()) == Apply(old(State()), old(Out()), Call(wrData, address, wrEnable, wrMask, rdEnable))
    {
      hide Select, Overlay;
      if address > words.Length { return; }
      var sel := Selected(wrMask);
      if count == 0 {
        if wrEnable {
          if sel == 0xffffffff {
            FullMask(words[address], wrData, wrMask);
            words[address] := wrData;
          } else {
            words[address] := Overlay(words[address], wrData, sel);
          }
          count := delay;
          valid, ack := false, true;
        } else if rdEnable {
          data := words[address];
          count := delay;
          valid, ack := true, false;
        }
      } else {
        count := count - 1;
        ack, valid := false, false;
      }
    }
  }

  // ---------- Any number of calls ----------

  predicate InRange(m: Mem, calls: seq<Call>) {
    forall i | 0 <= i < |calls| :: calls[i].address < |m.words|
  }

  /** State and outputs after the first `n` calls. */
  function After(m: Mem, o: Outputs, calls: seq<Call>, n: nat): (r: (Mem, Outputs))
    requires n <= |calls| && InRange(m, calls)
    ensures |r.0.words| == |m.words| && r.0.delay == m.delay
    decreases n
  {
    if n == 0 then (m, o)
    else
      var p := After(m, o, calls, n - 1);
      Apply(p.0, p.1, calls[n - 1])
  }

  /** Call `i` finds the memory ready and asks for something. */
  predicate Accepted(m: Mem, o: Outputs, calls: seq<Call>, i: nat)
    requires i < |calls| && InRange(m, calls)
  {
    After(m, o, calls, i).0.count == 0 && Enabled(calls[i])
  }

  /** The memory as bytes, four to a word. */
  function Bytes(words: seq<bv32>): (b: seq<bv8>)
    ensures |b| == 4 * |words|
    ensures forall k | 0 <= k < |b| :: b[k] == ByteOf(words[k / 4], k % 4)
  {
    seq(4 * |words|, k requires 0 <= k < 4 * |words| => ByteOf(words[k / 4], k % 4))
  }

  /** The reference: a plain byte memory that stores the selected bytes of a write. */
  function Store(b: seq<bv8>, c: Call): (r: seq<bv8>)
    requires 4 * c.address + 4 <= |b|
    ensures |r| == |b|
  {
    var a := 4 * c.address;
    var b0 := if c.wrMask.b0 then b[a := ByteOf(c.wrData, 0)] else b;
    var b1 := if c.wrMask.b1 then b0[a + 1 := ByteOf(c.wrData, 1)] else b0;
    var b2 := if c.wrMask.b2 then b1[a + 2 := ByteOf(c.wrData, 2)] else b1;
    if c.wrMask.b3 then b2[a + 3 := ByteOf(c.wrData, 3)] else b2
  }

  /** The reference after the accepted writes among the first `n` calls. */
  function Reference(m: Mem, o: Outputs, calls: seq<Call>, n: nat): (b: seq<bv8>)
    requires n <= |calls| && InRange(m, calls)
    ensures |b| == 4 * |m.words|
    decreases n
  {
    if n == 0 then Bytes(m.words)
    else
      var b := Reference(m, o, calls, n - 1);
      if Accepted(m, o, calls, n - 1) && calls[n - 1].wrEnable then Store(b, calls[n - 1]) else b
  }

  /** At every point the memory holds exactly what the accepted writes have stored in the reference. */
  lemma {:induction false} RefinesBytes(m: Mem, o: Outputs, calls: seq<Call>, n: nat)
    requires n <= |calls| && InRange(m, calls)
    ensures Bytes(After(m, o, calls, n).0.words) == Reference(m, o, calls, n)
    decreases n
  {
    if n > 0 {
      RefinesBytes(m, o, calls, n - 1);
      if Accepted(m, o, calls, n - 1) && calls[n - 1].wrEnable {
        StoreIsMerge(After(m, o, calls, n - 1).0.words, calls[n - 1]);
      }
    }
  }

  lemma StoreIsMerge(words: seq<bv32>, c: Call)
    requires c.address < |words|
    ensures Bytes(words[c.address := Merge(words[c.address], c.wrData, c.wrMask)]) == Store(Bytes(words), c)
  {
    hide Merge, ByteOf;
    var w := words[c.address := Merge(words[c.address], c.wrData, c.wrMask)];
    var s, t := Bytes(w), Store(Bytes(words), c);
    forall k | 0 <= k < |s| ensures s[k] == t[k] {
      if k / 4 == c.address {
        MergeLanes(words[c.address], c.wrData, c.wrMask, k % 4);
      }
    }
  }

  /** An accepted read answers with the reference's four bytes at that point, and raises valid alone. */
  lemma AcceptedRead(m: Mem, o: Outputs, calls: seq<Call>, i: nat)
    requires i < |calls| && InRange(m, calls) && Accepted(m, o, calls, i) && !calls[i].wrEnable
    ensures var out := After(m, o, calls, i + 1).1;
            && out.valid && !out.ack
            && forall l: Lane :: ByteOf(out.data, l) == Reference(m, o, calls, i)[4 * calls[i].address + l]
  {
    RefinesBytes(m, o, calls, i);
    var words := After(m, o, calls, i).0.words;
    forall l: Lane { WordBytes(words, calls[i].address, l); }
  }

  lemma WordBytes(words: seq<bv32>, a: nat, l: Lane)
    requires a < |words|
    ensures Bytes(words)[4 * a + l] == ByteOf(words[a], l)
  {
    hide ByteOf;
    LaneIndex(a, l);
  }

  lemma LaneIndex(a: nat, l: Lane)
    ensures (4 * a + l) / 4 == a && (4 * a + l) % 4 == l
  {
  }

  /** The counter stays within the delay, and the two answers are never up together. */
  lemma {:induction false} AlwaysSane(m: Mem, o: Outputs, calls: seq<Call>, n: nat)
    requires n <= |calls| && InRange(m, calls) && m.count <= m.delay && !(o.ack && o.valid)
    ensures var p := After(m, o, calls, n); p.0.count <= m.delay && !(p.1.ack && p.1.valid)
    decreases n
  {
    if n > 0 { AlwaysSane(m, o, calls, n - 1); }
  }

  /** After an accepted call the memory is busy for exactly `delay` calls. */
  lemma {:induction false} BusyAfter(m: Mem, o: Outputs, calls: seq<Call>, i: nat, j: nat)
    requires i < j <= |calls| && InRange(m, calls) && Accepted(m, o, calls, i) && j - i <= m.delay + 1
    ensures After(m, o, calls, j).0.count == m.delay - (j - i - 1)
    decreases j
  {
    if j > i + 1 { BusyAfter(m, o, calls, i, j - 1); }
  }

  /** Two accepted calls are at least delay + 1 apart; a call that far away is accepted if it asks. */
  lemma Spacing(m: Mem, o: Outputs, calls: seq<Call>, i: nat, j: nat)
    requires i < j < |calls| && InRange(m, calls) && Accepted(m, o, calls, i)
    ensures j - i <= m.delay ==> !Accepted(m, o, calls, j)
    ensures j - i == m.delay + 1 ==> (Accepted(m, o, calls, j) <==> Enabled(calls[j]))
  {
    if j - i <= m.delay + 1 { BusyAfter(m, o, calls, i, j); }
  }

  /** Under sustained enable, accepted calls recur with period delay + 1 and nowhere else. */
  lemma {:induction false} Sustained(m: Mem, o: Outputs, calls: seq<Call>, i: nat, j: nat)
    requires i <= j < |calls| && InRange(m, calls) && Accepted(m, o, calls, i)
    requires forall k | i <= k < |calls| :: Enabled(calls[k])
    ensures Accepted(m, o, calls, j) <==> (j - i) % (m.delay + 1) == 0
    decreases j - i
  {
    hide Accepted, InRange;
    var p := m.delay + 1;
    SmallRemainder(j - i, p);
    if i < j {
      Spacing(m, o, calls, i, j);
      if j - i >= p {
        Spacing(m, o, calls, i, i + p);
        Sustained(m, o, calls, i + p, j);
      }
    }
  }

  lemma SmallRemainder(d: nat, p: nat)
    requires 0 < p
    ensures 0 <= d < p ==> d % p == d
    ensures p <= d ==> d % p == (d - p) % p
  {
    if d < p {
      Words.FromQuotient(d, p, 0, d);
    } else {
      var q, r := (d - p) / p, (d - p) % p;
      Words.FromQuotient(d, p, q + 1, r);
    }
  }

  // ---------- Calls beyond the array ----------

  /** No call is for the word just past the end; calls further out are allowed. */
  predicate NoneAtEnd(size: nat, calls: seq<Call>) {
    forall i | 0 <= i < |calls| :: calls[i].address != size
  }

  /** State and outputs after any such calls. */
  function AfterAny(m: Mem, o: Outputs, calls: seq<Call>): (r: (Mem, Outputs))
    requires NoneAtEnd(|m.words|, calls)
    ensures |r.0.words| == |m.words|
    decreases |calls|
  {
    if calls == [] then (m, o)
    else
      var p := AfterAny(m, o, calls[..|calls| - 1]);
      Apply(p.0, p.1, calls[|calls| - 1])
  }

  /** The calls that are for a word of the array. */
  function Within(size: nat, calls: seq<Call>): (r: seq<Call>)
    ensures forall i | 0 <= i < |r| :: r[i].address < size
    decreases |calls|
  {
    if calls == [] then []
    else
      var last := calls[|calls| - 1];
      Within(size, calls[..|calls| - 1]) + if last.address < size then [last] else []
  }

  /** The rest might as well not have been made: they move neither memory, counter nor outputs. */
  lemma {:induction false} BeyondSkipped(m: Mem, o: Outputs, calls: seq<Call>)
    requires NoneAtEnd(|m.words|, calls)
    ensures var inside := Within(|m.words|, calls);
      InRange(m, inside) && AfterAny(m, o, calls) == After(m, o, inside, |inside|)
    decreases |calls|
  {
    hide Apply;
    if calls != [] {
      var rest, last := calls[..|calls| - 1], calls[|calls| - 1];
      BeyondSkipped(m, o, rest);
      var inside := Within(|m.words|, rest);
      if last.address < |m.words| {
        SamePrefix(m, o, inside, [last], |inside|);
      } else {
        var p := AfterAny(m, o, rest);
        NotForUs(p.0, p.1, last);
        assert inside + [] == inside;
      }
    }
  }

  lemma NotForUs(m: Mem, o: Outputs, c: Call)
    requires c.address > |m.words|
    ensures Apply(m, o, c) == (m, o)
  {
  }

  lemma {:induction false} SamePrefix(m: Mem, o: Outputs, calls: seq<Call>, more: seq<Call>, n: nat)
    requires n <= |calls| && InRange(m, calls) && InRange(m, calls + more)
    ensures After(m, o, calls + more, n) == After(m, o, calls, n)
    decreases n
  {
    hide Apply;
    if n > 0 { SamePrefix(m, o, calls, more, n - 1); }
  }
}
