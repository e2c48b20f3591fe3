/** The image converter, and the memory that the synthesised ROM reads back from its output. */
module Bin2Mif {
  import opened MemSim
  import opened Wrappers

  // ---------- Hexadecimal digits ----------

  function Digit(d: bv8): char
    requires d < 16
  {
    if d == 0 then '0' else if d == 1 then '1' else if d == 2 then '2' else if d == 3 then '3'
    else if d == 4 then '4' else if d == 5 then '5' else if d == 6 then '6' else if d == 7 then '7'
    else if d == 8 then '8' else if d == 9 then '9' else if d == 10 then 'A' else if d == 11 then 'B'
    else if d == 12 then 'C' else if d == 13 then 'D' else if d == 14 then 'E' else 'F'
  }

  /** What a reader takes a character for: the place of an upper or lower case digit. */
  function DigitValue(c: char): Option<bv32> {
    if c == '0' then Some(0) else if c == '1' then Some(1) else if c == '2' then Some(2) else if c == '3' then Some(3)
    else if c == '4' then Some(4) else if c == '5' then Some(5) else if c == '6' then Some(6) else if c == '7' then Some(7)
    else if c == '8' then Some(8) else if c == '9' then Some(9)
    else if c == 'A' || c == 'a' then Some(10) else if c == 'B' || c == 'b' then Some(11)
    else if c == 'C' || c == 'c' then Some(12) else if c == 'D' || c == 'd' then Some(13)
    else if c == 'E' || c == 'e' then Some(14) else if c == 'F' || c == 'f' then Some(15)
    else None
  }

  lemma DigitRead(d: bv8)
    requires d < 16
    ensures DigitValue(Digit(d)) == Some(d as bv32)
  {
  }

  // ---------- What the converter prints ----------

  /** An integer from 0 to 255 as the stream prints it in upper-case hexadecimal: no leading zero. */
  function Hex(b: bv8): string {
    if b < 16 then [Digit(b)] else [Digit(b >> 4), Digit(b & 0xf)]
  }

  /** The same in a field of two, filled with zeros. */
  function Field(b: bv8): string {
    if |Hex(b)| < 2 then "0" + Hex(b) else Hex(b)
  }

  /** Four bytes, the last first. */
  function Line(b0: bv8, b1: bv8, b2: bv8, b3: bv8): string {
    Field(b3) + Field(b2) + Field(b1) + Field(b0) + "\n"
  }

  function LineOf(file: seq<bv8>, w: nat): string
    requires 4 * w + 4 <= |file|
  {
    Line(file[4 * w], file[4 * w + 1], file[4 * w + 2], file[4 * w + 3])
  }

  /** The first `n` lines. */
  function Lines(file: seq<bv8>, n: nat): string
    requires 4 * n <= |file|
  {
    if n == 0 then "" else Lines(file, n - 1) + LineOf(file, n - 1)
  }

  /** The buffer after the read: the file as far as it goes, then what the allocation happened to hold. */
  function Filled(file: seq<bv8>, junk: seq<bv8>): (buffer: seq<bv8>)
    ensures |buffer| == |junk|
    ensures forall k | 0 <= k < |junk| :: buffer[k] == if k < |file| then file[k] else junk[k]
  {
    seq(|junk|, k requires 0 <= k < |junk| => if k < |file| then file[k] else junk[k])
  }

  /**
   * The loop, on a buffer that was allocated with `junk` in it; a size that is no multiple of four would read
   * past it. What it prints reads back as the words that the simulation loads from the file exactly if the
   * file is long enough, or the buffer happened to be zero past its end.
   */
  method Convert(file: seq<bv8>, junk: seq<bv8>) returns (text: string)
    requires |junk| % 4 == 0
    ensures text == Lines(Filled(file, junk), |junk| / 4)
    ensures ReadMemH(text) == Words(Image(file, |junk| / 4)) <==> forall k | |file| <= k < |junk| :: junk[k] == 0
  {
    hide Field, ReadMemH, LineOf, Image, Filled;
    var size := |junk|;
    var buffer := new bv8[size](k requires 0 <= k < size => if k < |file| then file[k] else junk[k]);
    ghost var filled := Filled(file, junk);
    assert forall k | 0 <= k < size :: buffer[k] == filled[k];
    text := "";
    var i := 0;
    while i < size
      invariant i <= size && i % 4 == 0
      invariant text == Lines(filled, i / 4) && forall k | 0 <= k < size :: buffer[k] == filled[k]
    {
      ghost var before, w := text, i / 4;
      assert i == 4 * w;
      text := text + Field(buffer[i + 3]);
      text := text + Field(buffer[i + 2]);
      text := text + Field(buffer[i + 1]);
      text := text + Field(buffer[i]);
      text := text + "\n";
      LinePrinted(before, filled, w);
      assert text == Lines(filled, w + 1);
      i := i + 4;
    }
    RoundTrip(filled, size / 4);
    SameImage(file, junk);
  }

  lemma SameImage(file: seq<bv8>, junk: seq<bv8>)
    requires |junk| % 4 == 0
    ensures Image(Filled(file, junk), |junk| / 4) == Image(file, |junk| / 4) <==>
            forall k | |file| <= k < |junk| :: junk[k] == 0
  {
    hide Filled, WordOf, Bytes, ByteOf;
    var n, filled := |junk| / 4, Filled(file, junk);
    if Image(filled, n) == Image(file, n) {
      forall k | |file| <= k < |junk| ensures junk[k] == 0 {
        ImageBytes(filled, n, k);
        ImageBytes(file, n, k);
        assert FileByte(filled, k) == junk[k] && FileByte(file, k) == 0;
      }
    }
    if forall k | |file| <= k < |junk| :: junk[k] == 0 {
      forall w | 0 <= w < n ensures ImageWord(filled, w) == ImageWord(file, w) {
        forall k | 4 * w <= k < 4 * w + 4 ensures FileByte(filled, k) == FileByte(file, k) {}
      }
      assert Image(filled, n) == Image(file, n);
    }
  }

  lemma LinePrinted(before: string, file: seq<bv8>, w: nat)
    requires 4 * w + 4 <= |file|
    ensures before + Field(file[4 * w + 3]) + Field(file[4 * w + 2]) + Field(file[4 * w + 1]) + Field(file[4 * w]) + "\n"
            == before + LineOf(file, w)
  {
    hide Field;
  }

  predicate UpperHex(c: char) {
    '0' <= c <= '9' || 'A' <= c <= 'F'
  }

  /** Every line is eight upper-case digits and a newline. */
  lemma {:induction false} LinesShape(file: seq<bv8>, n: nat, i: nat)
    requires 4 * n <= |file| && i < 9 * n
    ensures |Lines(file, n)| == 9 * n
    ensures if i % 9 == 8 then Lines(file, n)[i] == '\n' else UpperHex(Lines(file, n)[i])
    decreases n
  {
    hide LineOf, UpperHex;
    LineShape(file, n - 1);
    if n == 1 {
      assert Lines(file, 1) == LineOf(file, 0);
    } else if i < 9 * (n - 1) {
      LinesShape(file, n - 1, i);
    } else {
      LinesShape(file, n - 1, 0);
      var j := i - 9 * (n - 1);
      assert i % 9 == j;
      assert Lines(file, n)[i] == LineOf(file, n - 1)[j];
    }
  }

  lemma LineShape(file: seq<bv8>, w: nat)
    requires 4 * w + 4 <= |file|
    ensures |LineOf(file, w)| == 9 && LineOf(file, w)[8] == '\n'
    ensures forall j | 0 <= j < 8 :: UpperHex(LineOf(file, w)[j])
  {
    hide Field;
    FieldShape(file[4 * w]);
    FieldShape(file[4 * w + 1]);
    FieldShape(file[4 * w + 2]);
    FieldShape(file[4 * w + 3]);
  }

  lemma FieldShape(b: bv8)
    ensures |Field(b)| == 2 && UpperHex(Field(b)[0]) && UpperHex(Field(b)[1])
  {
  }

  // ---------- What $readmemh makes of it ----------

  /** The words read so far and the number being read. */
  datatype Reader = Words(words: seq<bv32>) | Within(words: seq<bv32>, number: bv32) | Malformed

  predicate White(c: char) {
    c == ' ' || c == '\n' || c == '\t' || c == '\U{000C}'
  }

  function ShiftIn(number: bv32, digit: bv32): bv32 {
    (number << 4) | digit
  }

  /** One character: a digit is shifted in, white space ends a number. */
  function Take(r: Reader, c: char): Reader {
    match DigitValue(c)
    case Some(d) =>
      (match r
       case Words(ws) => Within(ws, ShiftIn(0, d))
       case Within(ws, n) => Within(ws, ShiftIn(n, d))
       case Malformed => Malformed)
    case None =>
      if r == Malformed || !White(c) then Malformed
      else if r.Within? then Words(r.words + [r.number])
      else r
  }

  function Scan(r: Reader, text: string): Reader
    decreases |text|
  {
    if text == "" then r else Take(Scan(r, text[..|text| - 1]), text[|text| - 1])
  }

  /** The words of a text that is nothing but hexadecimal numbers and white space. */
  function ReadMemH(text: string): Reader {
    Scan(Words([]), text + "\n")
  }

  lemma {:induction false} ScanAppend(r: Reader, s: string, t: string)
    ensures Scan(r, s + t) == Scan(Scan(r, s), t)
    decreases |t|
  {
    if t == "" {
      assert s + t == s;
    } else {
      var u := t[..|t| - 1];
      ScanAppend(r, s, u);
      assert (s + t)[..|s + t| - 1] == s + u;
    }
  }

  lemma ScanOne(r: Reader, c: char)
    ensures Scan(r, [c]) == Take(r, c)
  {
    assert [c][..0] == "";
    assert Scan(r, "") == r;
  }

  function Nibbles(n: bv32, b: bv8): bv32 {
    ShiftIn(ShiftIn(n, (b >> 4) as bv32), (b & 0xf) as bv32)
  }

  /** A field of two digits, with a digit before it or not. */
  lemma ScanField(r: Reader, b: bv8)
    requires r != Malformed
    ensures Scan(r, Field(b)) == Within(r.words, Nibbles(if r.Within? then r.number else 0, b))
  {
    hide Digit, DigitValue, ShiftIn;
    FieldDigits(b);
    var hi, lo := b >> 4, b & 0xf;
    DigitRead(hi);
    DigitRead(lo);
    assert Field(b) == [Digit(hi)] + [Digit(lo)];
    ScanAppend(r, [Digit(hi)], [Digit(lo)]);
    ScanOne(r, Digit(hi));
    ScanOne(Take(r, Digit(hi)), Digit(lo));
  }

  /** The padding makes two digits of every byte. */
  lemma FieldDigits(b: bv8)
    ensures b >> 4 < 16 && b & 0xf < 16
    ensures Field(b) == [Digit(b >> 4), Digit(b & 0xf)]
  {
    if b < 16 {
      assert b >> 4 == 0 && b & 0xf == b;
    }
  }

  lemma NibblesOfWord(b0: bv8, b1: bv8, b2: bv8, b3: bv8)
    ensures Nibbles(Nibbles(Nibbles(Nibbles(0, b3), b2), b1), b0) == WordOf(b0, b1, b2, b3)
  {
  }

  lemma ScanLine(ws: seq<bv32>, b0: bv8, b1: bv8, b2: bv8, b3: bv8)
    ensures Scan(Words(ws), Line(b0, b1, b2, b3)) == Words(ws + [WordOf(b0, b1, b2, b3)])
  {
    hide Field, Nibbles, WordOf, Scan;
    var r := Words(ws);
    ScanAppend(r, Field(b3), Field(b2));
    ScanAppend(r, Field(b3) + Field(b2), Field(b1));
    ScanAppend(r, Field(b3) + Field(b2) + Field(b1), Field(b0));
    ScanAppend(r, Field(b3) + Field(b2) + Field(b1) + Field(b0), "\n");
    ScanField(r, b3);
    var n3 := Nibbles(0, b3);
    ScanField(Within(ws, n3), b2);
    var n2 := Nibbles(n3, b2);
    ScanField(Within(ws, n2), b1);
    var n1 := Nibbles(n2, b1);
    ScanField(Within(ws, n1), b0);
    ScanOne(Within(ws, Nibbles(n1, b0)), '\n');
    NibblesOfWord(b0, b1, b2, b3);
  }

  lemma {:induction false} ScanLines(file: seq<bv8>, n: nat)
    requires 4 * n <= |file|
    ensures Scan(Words([]), Lines(file, n)) == Words(Image(file, n))
    decreases n
  {
    hide Scan, WordOf, LineOf;
    if n == 0 {
      ScanEmpty();
    } else {
      ScanLines(file, n - 1);
      ScanAppend(Words([]), Lines(file, n - 1), LineOf(file, n - 1));
      ScanLineOf(file, n - 1);
      assert Image(file, n) == Image(file, n - 1) + [ImageWord(file, n - 1)];
    }
  }

  lemma ScanEmpty()
    ensures Scan(Words([]), "") == Words([])
  {
  }

  lemma ScanLineOf(file: seq<bv8>, w: nat)
    requires 4 * w + 4 <= |file|
    ensures Scan(Words(Image(file, w)), LineOf(file, w)) == Words(Image(file, w) + [ImageWord(file, w)])
  {
    hide Scan, WordOf, Line;
    ScanLine(Image(file, w), file[4 * w], file[4 * w + 1], file[4 * w + 2], file[4 * w + 3]);
  }

  /** The synthesised ROM reads from the printed text exactly the words the simulated one loads from the file. */
  lemma RoundTrip(file: seq<bv8>, n: nat)
    requires 4 * n <= |file|
    ensures ReadMemH(Lines(file, n)) == Words(Image(file, n))
  {
    hide Scan, Lines, Image, Take;
    ScanAppend(Words([]), Lines(file, n), "\n");
    ScanLines(file, n);
    ScanOne(Words(Image(file, n)), '\n');
    LastNewline(Image(file, n));
  }

  lemma LastNewline(ws: seq<bv32>)
    ensures Take(Words(ws), '\n') == Words(ws)
  {
    assert DigitValue('\n') == None by {
      assert '\n' < '0';
    }
    hide DigitValue;
  }
}
