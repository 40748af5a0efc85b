/** Loading a QVM image: variable-length instructions become pairs of words, data words are byte-swapped
    when the image is big-endian, and the data mask is worked out. The host is little-endian. */
module Qvm {
  import opened Common
  import opened Placing

  type byte = b: int | 0 <= b < 256

  const VM_MAGIC := 0x12721444
  const VM_MAGIC_BIG := 0x44147212
  const TWO_31 := 0x8000_0000
  const TWO_32 := 0x1_0000_0000

  predicate IsInt(i: int) { -TWO_31 <= i < TWO_31 }

  // ---- Words --------------------------------------------------------------

  function Signed(u: int): int { if u < TWO_31 then u else u - TWO_32 }

  function Unsigned(i: int): int { if i < 0 then i + TWO_32 else i }

  /** The 32-bit integer of four bytes, least first. */
  function Word(b: seq<byte>): (i: int)
    requires |b| == 4
    ensures IsInt(i)
  {
    Signed(b[0] as int + 0x100 * b[1] as int + 0x1_0000 * b[2] as int + 0x100_0000 * b[3] as int)
  }

  function Bytes(i: int): (b: seq<byte>)
    requires IsInt(i)
    ensures |b| == 4
  {
    var u := Unsigned(i);
    [u % 0x100, u / 0x100 % 0x100, u / 0x1_0000 % 0x100, u / 0x100_0000]
  }

  lemma WordOfBytes(i: int)
    requires IsInt(i)
    ensures Word(Bytes(i)) == i
  {
    var u := Unsigned(i);
    var v := u / 0x100;
    var w := v / 0x100;
    assert u / 0x1_0000 == w && u / 0x100_0000 == w / 0x100;
  }

  lemma BytesOfWord(b: seq<byte>)
    requires |b| == 4
    ensures Bytes(Word(b)) == b
  {
    var w: int := b[2] as int + 0x100 * b[3] as int;
    var v: int := b[1] as int + 0x100 * w;
    var u: int := b[0] as int + 0x100 * v;
    assert Unsigned(Word(b)) == u && u / 0x100 == v && u / 0x1_0000 == w && u / 0x100_0000 == b[3];
  }

  /** The same bytes the other way round, as shifts and sums. */
  method IntByteSwap(i: int) returns (r: int)
    requires IsInt(i)
    ensures r == Swapped(i)
  {
    var u := Unsigned(i);
    var b1, b2, b3, b4 := u % 0x100, u / 0x100 % 0x100, u / 0x1_0000 % 0x100, u / 0x100_0000 % 0x100;
    r := Signed(0x100_0000 * b1) + 0x1_0000 * b2 + 0x100 * b3 + b4;
  }

  function Reversed(b: seq<byte>): seq<byte>
    requires |b| == 4
  {
    [b[3], b[2], b[1], b[0]]
  }

  function Swapped(i: int): (r: int)
    requires IsInt(i)
    ensures IsInt(r)
  {
    Word(Reversed(Bytes(i)))
  }

  /** Swapping twice is no swap, and swapping a word reverses its bytes. */
  lemma SwapTwice(i: int)
    requires IsInt(i)
    ensures Swapped(Swapped(i)) == i && Bytes(Swapped(i)) == Reversed(Bytes(i))
  {
    hide Bytes;
    hide Word;
    BytesOfWord(Reversed(Bytes(i)));
    WordOfBytes(i);
    assert Reversed(Reversed(Bytes(i))) == Bytes(i);
  }

  // ---- The image ----------------------------------------------------------

  /** The word at `p`, as the program means it. */
  function WordAt(image: seq<byte>, p: nat, swapped: bool): (i: int)
    requires p + 4 <= |image|
    ensures IsInt(i)
  {
    if swapped then Swapped(Word(image[p..p + 4])) else Word(image[p..p + 4])
  }

  datatype Header = Header(
    vmMagic: int, instructionCount: int, codeOffset: int, codeLength: int,
    dataOffset: int, dataLength: int, litLength: int, bssLength: int)

  predicate BigEndian(image: seq<byte>)
    requires |image| >= 32
  {
    WordAt(image, 0, false) == VM_MAGIC_BIG
  }

  function ReadHeader(image: seq<byte>): Header
    requires |image| >= 32
  {
    var swapped := BigEndian(image);
    Header(
      WordAt(image, 0, swapped), WordAt(image, 4, swapped), WordAt(image, 8, swapped), WordAt(image, 12, swapped),
      WordAt(image, 16, swapped), WordAt(image, 20, swapped), WordAt(image, 24, swapped), WordAt(image, 28, swapped))
  }

  predicate Accepted(h: Header) { h.vmMagic == VM_MAGIC && h.instructionCount > 0 && h.codeLength > 0 }

  // The opcodes with a parameter, by their numbers.
  const OP_ENTER := 3
  const OP_LEAVE := 4
  const OP_CONST := 8
  const OP_LOCAL := 9
  const OP_EQ := 11
  const OP_GEF := 26
  const OP_ARG := 33
  const OP_BLOCK_COPY := 34

  /** Four bytes for ENTER, LEAVE, CONST, LOCAL, the comparisons EQ to GEF and BLOCK_COPY, one for ARG. */
  function ParamSize(op: byte): (n: nat)
    ensures n == 4 || n == 1 || n == 0
  {
    if op in [OP_ENTER, OP_LEAVE, OP_CONST, OP_LOCAL, OP_BLOCK_COPY] || OP_EQ <= op <= OP_GEF then 4
    else if op == OP_ARG then 1
    else 0
  }

  function ParamAt(image: seq<byte>, p: nat, size: nat, swapped: bool): int
    requires size <= 4 && p + size <= |image|
  {
    if size == 4 then WordAt(image, p, swapped) else if size == 1 then image[p] else 0
  }

  /** The code segment of `n` instructions from `p` on, two words each; None when they run out of the image. */
  function Code(image: seq<byte>, p: nat, n: nat, swapped: bool): (r: Option<seq<int>>)
    ensures r.Some? ==> |r.value| == 2 * n
    decreases n
  {
    if n == 0 then Some([])
    else if p >= |image| || p + 1 + ParamSize(image[p]) > |image| then None
    else
      var size := ParamSize(image[p]);
      match Code(image, p + 1 + size, n - 1, swapped)
      case None => None
      case Some(rest) => Some([image[p] as int, ParamAt(image, p + 1, size, swapped)] + rest)
  }

  /** The bytes of `n` data words from `p` on. */
  function Words(image: seq<byte>, p: nat, n: nat, swapped: bool): (r: seq<byte>)
    requires p + 4 * n <= |image|
    ensures |r| == 4 * n
    decreases n
  {
    if n == 0 then []
    else (if swapped then Reversed(image[p..p + 4]) else image[p..p + 4]) + Words(image, p + 4, n - 1, swapped)
  }

  /** What the source takes for granted of an image that it accepts: that its parts lie inside it, behind
      the header, and its sizes inside 32 bits. */
  predicate Fits(image: seq<byte>, stackSize: nat)
  {
    && |image| >= 32
    && var h := ReadHeader(image);
      Accepted(h) ==>
        && 32 <= h.codeOffset && Code(image, h.codeOffset, h.instructionCount, BigEndian(image)).Some?
        && 32 <= h.dataOffset && 0 <= h.dataLength && 0 <= h.litLength && 0 <= h.bssLength
        && h.dataOffset + h.dataLength / 4 * 4 + h.litLength <= |image|
        && h.dataLength + h.litLength + h.bssLength + stackSize < TWO_31 / 2
        && 8 * h.instructionCount + h.dataLength + h.litLength + h.bssLength + stackSize < TWO_31
  }

  function Zeros(n: nat): (r: seq<byte>)
    ensures |r| == n && forall i :: 0 <= i < n ==> r[i] == 0
  {
    seq(n, i => 0)
  }

  /** The data and stack segments: the data words, the bytes behind them as literals, and zeros. */
  function Data(image: seq<byte>, stackSize: nat): seq<byte>
    requires Fits(image, stackSize) && Accepted(ReadHeader(image))
  {
    var h := ReadHeader(image);
    var n := h.dataLength / 4;
    var lit := h.dataOffset + 4 * n;
    Words(image, h.dataOffset, n, BigEndian(image)) + image[lit..lit + h.litLength]
      + Zeros(h.dataLength - 4 * n + h.bssLength + stackSize)
  }

  // ---- Programs and their images --------------------------------------------

  datatype Instr = Instr(op: byte, param: int)

  /** What a compiler lays down; the gaps are whatever stands between the parts. */
  datatype Program = Program(
    code: seq<Instr>, codeLength: int, data: seq<int>, lit: seq<byte>, bss: nat,
    gap1: seq<byte>, gap2: seq<byte>, gap3: seq<byte>)

  /** The parameter of each opcode, in bytes, by the table of the virtual machine's instructions: 3 ENTER, 4
      LEAVE, 8 CONST, 9 LOCAL, the jumps 11 EQ to 26 GEF and 34 BLOCK_COPY take a word, 33 ARG a byte. */
  function Width(op: byte): nat
  {
    if op == 3 || op == 4 || op == 8 || op == 9 || 11 <= op <= 26 || op == 34 then 4 else if op == 33 then 1 else 0
  }

  lemma WidthIs(op: byte)
    ensures ParamSize(op) == Width(op)
  {
  }

  predicate GoodInstr(x: Instr)
  {
    match Width(x.op)
    case 4 => IsInt(x.param)
    case 1 => 0 <= x.param < 256
    case _ => x.param == 0
  }

  function WordBytes(i: int, big: bool): (b: seq<byte>)
    requires IsInt(i)
    ensures |b| == 4
  {
    if big then Reversed(Bytes(i)) else Bytes(i)
  }

  function ParamBytes(x: Instr, big: bool): (b: seq<byte>)
    requires GoodInstr(x)
    ensures |b| == Width(x.op)
  {
    if Width(x.op) == 4 then WordBytes(x.param, big) else if Width(x.op) == 1 then [x.param] else []
  }

  function CodeBytes(code: seq<Instr>, big: bool): seq<byte>
    requires forall i :: 0 <= i < |code| ==> GoodInstr(code[i])
  {
    if code == [] then [] else ([code[0].op] + ParamBytes(code[0], big)) + CodeBytes(code[1..], big)
  }

  function DataBytes(words: seq<int>, big: bool): (b: seq<byte>)
    requires forall i :: 0 <= i < |words| ==> IsInt(words[i])
    ensures |b| == 4 * |words|
  {
    if words == [] then [] else WordBytes(words[0], big) + DataBytes(words[1..], big)
  }

  /** The code segment that the program stands for. */
  function Flat(code: seq<Instr>): seq<int>
  {
    if code == [] then [] else [code[0].op as int, code[0].param] + Flat(code[1..])
  }

  lemma WordReads(image: seq<byte>, p: nat, i: int, big: bool)
    requires IsInt(i) && At(image, p, WordBytes(i, big))
    ensures p + 4 <= |image| && WordAt(image, p, big) == i
  {
    hide Bytes;
    hide Word;
    WordOfBytes(i);
    BytesOfWord(Reversed(Bytes(i)));
    assert Reversed(Reversed(Bytes(i))) == Bytes(i);
  }

  /** The loader reads exactly the instructions that were laid down. */
  lemma {:induction false} CodeReads(image: seq<byte>, p: nat, code: seq<Instr>, big: bool)
    requires (forall i :: 0 <= i < |code| ==> GoodInstr(code[i])) && At(image, p, CodeBytes(code, big))
    ensures Code(image, p, |code|, big) == Some(Flat(code))
    decreases |code|
  {
    hide *;
    if code == [] {
      NoCodeBytes(image, p, big);
    } else {
      CodeFront(code, big);
      var x, rest := code[0], CodeBytes(code[1..], big);
      AtSplit(image, p, [x.op] + ParamBytes(x, big), rest);
      ParamReads(image, p, x, big);
      WidthIs(x.op);
      var next := p + 1 + ParamSize(x.op);
      CodeReads(image, next, code[1..], big);
      CodeStep(image, p, |code|, big, Flat(code[1..]));
    }
  }

  lemma NoCodeBytes(image: seq<byte>, p: nat, big: bool)
    ensures Code(image, p, 0, big) == Some(Flat([]))
  {
  }

  lemma CodeFront(code: seq<Instr>, big: bool)
    requires code != [] && forall i :: 0 <= i < |code| ==> GoodInstr(code[i])
    ensures GoodInstr(code[0]) &&
      CodeBytes(code, big) == ([code[0].op] + ParamBytes(code[0], big)) + CodeBytes(code[1..], big)
    ensures |[code[0].op] + ParamBytes(code[0], big)| == 1 + Width(code[0].op)
    ensures Flat(code) == [code[0].op as int, code[0].param] + Flat(code[1..])
  {
    hide ParamBytes;
    hide Width;
  }

  /** One instruction, as it was laid down. */
  lemma ParamReads(image: seq<byte>, p: nat, x: Instr, big: bool)
    requires GoodInstr(x) && At(image, p, [x.op] + ParamBytes(x, big))
    ensures p + 1 + ParamSize(x.op) <= |image| && image[p] == x.op &&
      ParamAt(image, p + 1, ParamSize(x.op), big) == x.param
  {
    hide WordBytes;
    hide WordAt;
    WidthIs(x.op);
    AtSplit(image, p, [x.op], ParamBytes(x, big));
    AtRest(image, p, [x.op]);
    if ParamSize(x.op) == 4 {
      WordReads(image, p + 1, x.param, big);
    } else if ParamSize(x.op) == 1 {
      AtRest(image, p + 1, ParamBytes(x, big));
    }
  }

  lemma CodeStep(image: seq<byte>, p: nat, n: nat, big: bool, rest: seq<int>)
    requires n > 0 && p < |image| && p + 1 + ParamSize(image[p]) <= |image|
    requires Code(image, p + 1 + ParamSize(image[p]), n - 1, big) == Some(rest)
    ensures Code(image, p, n, big) == Some([image[p] as int, ParamAt(image, p + 1, ParamSize(image[p]), big)] + rest)
  {
    hide ParamAt;
    hide ParamSize;
  }

  lemma {:induction false} WordsRead(image: seq<byte>, p: nat, words: seq<int>, big: bool)
    requires (forall i :: 0 <= i < |words| ==> IsInt(words[i])) && At(image, p, DataBytes(words, big))
    ensures p + 4 * |words| <= |image| && Words(image, p, |words|, big) == DataBytes(words, false)
    decreases |words|
  {
    hide Bytes;
    if words != [] {
      AtSplit(image, p, WordBytes(words[0], big), DataBytes(words[1..], big));
      AtSlice(image, p, WordBytes(words[0], big));
      WordsRead(image, p + 4, words[1..], big);
    }
  }

  lemma {:induction false} SameLength(code: seq<Instr>)
    requires forall i :: 0 <= i < |code| ==> GoodInstr(code[i])
    ensures |CodeBytes(code, true)| == |CodeBytes(code, false)| >= |code|
  {
    if code != [] { SameLength(code[1..]); }
  }

  predicate GoodProgram(g: Program, stackSize: nat)
  {
    && g.code != [] && (forall i :: 0 <= i < |g.code| ==> GoodInstr(g.code[i])) && 0 < g.codeLength < TWO_31
    && (forall i :: 0 <= i < |g.data| ==> IsInt(g.data[i]))
    && 32 + |g.gap1| + |CodeBytes(g.code, false)| + |g.gap2| < TWO_31
    && 4 * |g.data| + |g.lit| + g.bss + stackSize < TWO_31 / 2
    && 8 * |g.code| + 4 * |g.data| + |g.lit| + g.bss + stackSize < TWO_31
  }

  function HeaderOf(g: Program): Header
    requires forall i :: 0 <= i < |g.code| ==> GoodInstr(g.code[i])
  {
    var codeOffset := 32 + |g.gap1|;
    Header(VM_MAGIC, |g.code|, codeOffset, g.codeLength,
           codeOffset + |CodeBytes(g.code, false)| + |g.gap2|, 4 * |g.data|, |g.lit|, g.bss)
  }

  predicate HeaderInts(h: Header)
  {
    && IsInt(h.vmMagic) && IsInt(h.instructionCount) && IsInt(h.codeOffset) && IsInt(h.codeLength)
    && IsInt(h.dataOffset) && IsInt(h.dataLength) && IsInt(h.litLength) && IsInt(h.bssLength)
  }

  function HeaderBytes(h: Header, big: bool): (b: seq<byte>)
    requires HeaderInts(h)
    ensures |b| == 32
  {
    WordBytes(h.vmMagic, big) + (WordBytes(h.instructionCount, big) + (WordBytes(h.codeOffset, big) +
      (WordBytes(h.codeLength, big) + (WordBytes(h.dataOffset, big) + (WordBytes(h.dataLength, big) +
        (WordBytes(h.litLength, big) + WordBytes(h.bssLength, big)))))))
  }

  /** The image file of a program, in either byte order. */
  function Image(g: Program, stackSize: nat, big: bool): seq<byte>
    requires GoodProgram(g, stackSize)
  {
    HeaderBytes(HeaderOf(g), big) +
      (g.gap1 + (CodeBytes(g.code, big) + (g.gap2 + (DataBytes(g.data, big) + (g.lit + g.gap3)))))
  }

  lemma MagicTells(image: seq<byte>, i: int, big: bool)
    requires At(image, 0, WordBytes(VM_MAGIC, big))
    ensures |image| >= 4 && (WordAt(image, 0, false) == VM_MAGIC_BIG <==> big)
  {
    assert Bytes(VM_MAGIC) == [0x44, 0x14, 0x72, 0x12];
    assert image[0..4] == WordBytes(VM_MAGIC, big);
  }

  lemma HeaderReads(image: seq<byte>, h: Header, big: bool)
    requires HeaderInts(h) && h.vmMagic == VM_MAGIC && At(image, 0, HeaderBytes(h, big))
    ensures |image| >= 32 && BigEndian(image) == big && ReadHeader(image) == h
  {
    hide WordBytes;
    hide WordAt;
    hide At;
    AtSlice(image, 0, HeaderBytes(h, big));
    var b := (i: int) requires IsInt(i) => WordBytes(i, big);
    var r7 := b(h.litLength) + b(h.bssLength);
    var r6 := b(h.dataLength) + r7;
    var r5 := b(h.dataOffset) + r6;
    var r4 := b(h.codeLength) + r5;
    var r3 := b(h.codeOffset) + r4;
    var r2 := b(h.instructionCount) + r3;
    AtSplit(image, 0, b(h.vmMagic), r2);
    AtSplit(image, 4, b(h.instructionCount), r3);
    AtSplit(image, 8, b(h.codeOffset), r4);
    AtSplit(image, 12, b(h.codeLength), r5);
    AtSplit(image, 16, b(h.dataOffset), r6);
    AtSplit(image, 20, b(h.dataLength), r7);
    AtSplit(image, 24, b(h.litLength), b(h.bssLength));
    WordReads(image, 0, h.vmMagic, big);
    WordReads(image, 4, h.instructionCount, big);
    WordReads(image, 8, h.codeOffset, big);
    WordReads(image, 12, h.codeLength, big);
    WordReads(image, 16, h.dataOffset, big);
    WordReads(image, 20, h.dataLength, big);
    WordReads(image, 24, h.litLength, big);
    WordReads(image, 28, h.bssLength, big);
    MagicTells(image, h.vmMagic, big);
  }

  lemma Parts(image: seq<byte>, a: seq<byte>, b: seq<byte>, c: seq<byte>, d: seq<byte>, e: seq<byte>,
    f: seq<byte>, g: seq<byte>)
    requires image == a + (b + (c + (d + (e + (f + g)))))
    ensures At(image, 0, a) && At(image, |a| + |b|, c) && At(image, |a| + |b| + |c| + |d|, e)
    ensures At(image, |a| + |b| + |c| + |d| + |e|, f)
  {
    assert At(image, 0, image);
    hide At;
    AtSplit(image, 0, a, b + (c + (d + (e + (f + g)))));
    AtSplit(image, |a|, b, c + (d + (e + (f + g))));
    AtSplit(image, |a| + |b|, c, d + (e + (f + g)));
    AtSplit(image, |a| + |b| + |c|, d, e + (f + g));
    AtSplit(image, |a| + |b| + |c| + |d|, e, f + g);
    AtSplit(image, |a| + |b| + |c| + |d| + |e|, f, g);
  }

  lemma DataAre(image: seq<byte>, h: Header, words: seq<byte>, lit: seq<byte>, stackSize: nat)
    requires |image| >= 32 && ReadHeader(image) == h && Accepted(h) && Fits(image, stackSize) && h.dataLength % 4 == 0
    requires Words(image, h.dataOffset, h.dataLength / 4, BigEndian(image)) == words &&
      At(image, h.dataOffset + h.dataLength, lit)
    requires |lit| == h.litLength
    ensures Data(image, stackSize) == words + lit + Zeros(h.bssLength + stackSize)
  {
    hide Words;
    hide ReadHeader;
    hide BigEndian;
    hide Code;
  }

  /** Loading a program's image, whichever its byte order, gives exactly its instructions, and its data
      words, literals and zeros. */
  lemma ImageLoads(g: Program, stackSize: nat, big: bool)
    requires GoodProgram(g, stackSize)
    ensures var image := Image(g, stackSize, big);
      && |image| >= 32 && ReadHeader(image) == HeaderOf(g) && BigEndian(image) == big && Accepted(HeaderOf(g))
      && Code(image, HeaderOf(g).codeOffset, |g.code|, big) == Some(Flat(g.code))
      && Fits(image, stackSize)
      && Data(image, stackSize) == DataBytes(g.data, false) + g.lit + Zeros(g.bss + stackSize)
  {
    hide HeaderBytes;
    hide ReadHeader;
    hide BigEndian;
    hide Code;
    hide CodeBytes;
    hide DataBytes;
    hide Words;
    hide Data;
    hide At;
    hide WordAt;
    SameLength(g.code);
    var image, h := Image(g, stackSize, big), HeaderOf(g);
    var a, c, e := HeaderBytes(h, big), CodeBytes(g.code, big), DataBytes(g.data, big);
    Parts(image, a, g.gap1, c, g.gap2, e, g.lit, g.gap3);
    HeaderReads(image, h, big);
    CodeReads(image, h.codeOffset, g.code, big);
    WordsRead(image, h.dataOffset, g.data, big);
    AtSlice(image, h.dataOffset + h.dataLength, g.lit);
    DataAre(image, h, DataBytes(g.data, false), g.lit, stackSize);
  }

  /** An image and its byte-swapped twin load to the same code and the same data. */
  lemma TwinsLoadAlike(g: Program, stackSize: nat)
    requires GoodProgram(g, stackSize)
    ensures var little, big := Image(g, stackSize, false), Image(g, stackSize, true);
      && Fits(little, stackSize) && Fits(big, stackSize) && ReadHeader(little) == ReadHeader(big)
      && Accepted(ReadHeader(little)) && Data(little, stackSize) == Data(big, stackSize)
      && Code(little, ReadHeader(little).codeOffset, |g.code|, false)
        == Code(big, ReadHeader(big).codeOffset, |g.code|, true)
  {
    hide Image;
    hide Data;
    hide Code;
    ImageLoads(g, stackSize, false);
    ImageLoads(g, stackSize, true);
  }

  // ---- Data that is not a whole number of words ------------------------------

  /** What is behind the last whole data word: the file's bytes there, as many as there are literals, then zeros. */
  lemma TailOfData(image: seq<byte>, stackSize: nat)
    requires Fits(image, stackSize) && Accepted(ReadHeader(image))
    ensures var h := ReadHeader(image);
      var n := 4 * (h.dataLength / 4);
      && |Data(image, stackSize)| == h.dataLength + h.litLength + h.bssLength + stackSize
      && Data(image, stackSize)[..n] == Words(image, h.dataOffset, h.dataLength / 4, BigEndian(image))
      && Data(image, stackSize)[n..]
        == image[h.dataOffset + n..h.dataOffset + n + h.litLength] + Zeros(h.dataLength - n + h.bssLength + stackSize)
  {
    hide ReadHeader;
    hide BigEndian;
    hide Code;
    hide Words;
  }

  /** In either byte order the bytes behind the last whole data word, literals included, arrive whole
      exactly when the last of them are zero, as many as the data is longer than whole words: literals
      are copied from right behind the last whole word, so that many are left behind. */
  lemma WholeWhenWords(image: seq<byte>, stackSize: nat)
    requires Fits(image, stackSize) && Accepted(ReadHeader(image))
    requires var h := ReadHeader(image); h.dataOffset + h.dataLength + h.litLength <= |image|
    ensures var h := ReadHeader(image);
      var n, end := 4 * (h.dataLength / 4), h.dataOffset + h.dataLength + h.litLength;
      var tail := Data(image, stackSize)[n..h.dataLength + h.litLength];
      tail == image[h.dataOffset + n..end] <==> ZeroIn(image, end - h.dataLength % 4, end)
  {
    hide ReadHeader;
    hide BigEndian;
    hide Code;
    hide Words;
    hide Data;
    TailOfData(image, stackSize);
    var h := ReadHeader(image);
    var n := 4 * (h.dataLength / 4);
    var whole, length := Data(image, stackSize), h.dataLength + h.litLength;
    assert whole[n..length] == whole[n..][..length - n];
    TailIs(image, whole[n..length], h.dataOffset + n, h.litLength, h.dataLength % 4);
  }

  lemma TailIs(image: seq<byte>, tail: seq<byte>, p: nat, m: nat, rest: nat)
    requires p + m + rest <= |image| && tail == image[p..p + m] + Zeros(rest)
    ensures tail == image[p..p + m + rest] <==> ZeroIn(image, p + m, p + m + rest)
  {
    var file := image[p..p + m + rest];
    assert forall i :: 0 <= i < m ==> tail[i] == file[i] == image[p + i];
    assert forall i :: m <= i < m + rest ==> tail[i] == 0 && file[i] == image[p + i];
    if tail == file {
      forall i | p + m <= i < p + m + rest ensures image[i] == 0 { assert file[i - p] == tail[i - p]; }
    }
    if ZeroIn(image, p + m, p + m + rest) {
      assert forall i :: 0 <= i < m + rest ==> tail[i] == file[i];
    }
  }

  /** One byte of data, 5, and one literal, 7: the literal is lost. */
  lemma LiteralLost()
    ensures var h := Header(VM_MAGIC, 1, 32, 1, 33, 1, 1, 0);
      var image := HeaderBytes(h, false) + [1, 5, 7];
      && Fits(image, 0) && ReadHeader(image) == h && Accepted(h)
      && image[h.dataOffset..h.dataOffset + 2] == [5, 7] && Data(image, 0) == [5, 0]
  {
    hide HeaderBytes;
    hide ReadHeader;
    hide BigEndian;
    var h := Header(VM_MAGIC, 1, 32, 1, 33, 1, 1, 0);
    var image := HeaderBytes(h, false) + [1, 5, 7];
    assert image[0..0 + 32] == HeaderBytes(h, false);
    HeaderReads(image, h, false);
    assert image[32] == 1;
    NoCodeBytes(image, 33, false);
    CodeStep(image, 32, 1, false, []);
    assert image[33..33 + 0] == [];
    TailOfData(image, 0);
    assert image[33..34] == [5] && image[33..35] == [5, 7];
    assert Zeros(1) == [0];
    assert Data(image, 0)[0..] == Data(image, 0);
  }

  predicate ZeroIn(image: seq<byte>, from: nat, to: nat)
  {
    to <= |image| && forall i :: from <= i < to ==> image[i] == 0
  }

  // ---- The loader ---------------------------------------------------------

  function Pow2(k: nat): nat { if k == 0 then 1 else 2 * Pow2(k - 1) }

  lemma {:induction false} Pow2Grows(j: nat, k: nat)
    ensures j <= k ==> Pow2(j) <= Pow2(k)
    ensures j < k ==> 2 * Pow2(j) <= Pow2(k)
  {
    if j < k { Pow2Grows(j, k - 1); }
  }

  /** The least power of two above the size. */
  ghost predicate LeastAbove(power: int, size: int)
  {
    (exists k :: power == Pow2(k)) && power > size && forall j: nat :: Pow2(j) > size ==> power <= Pow2(j)
  }

  /** A mask one below the least power of two above the size. */
  method Mask(size: nat) returns (mask: nat)
    requires size < TWO_31 / 2
    ensures LeastAbove(mask + 1, size) && mask < TWO_31
  {
    mask := 1;
    ghost var k := 0;
    while !(mask > size)
      invariant mask == Pow2(k) && (k == 0 || Pow2(k - 1) <= size)
      decreases size - mask
    {
      mask := 2 * mask;
      k := k + 1;
    }
    mask := mask - 1;
    forall j: nat | Pow2(j) > size ensures Pow2(k) <= Pow2(j) {
      if j < k { Pow2Grows(j, k - 1); }
      Pow2Grows(k, j);
    }
  }

  class Q3Vm {
    var header: Header
    var swapped: bool
    var codeSegment: array<int>
    /** The data segment and, behind it, the stack segment. */
    var dataSegment: array<byte>
    var codeSegmentLen: int
    var dataSegmentLen: int
    var dataSegmentMask: int
    var memorySize: int
    var opBase: int

    constructor ()
    {
      header := Header(0, 0, 0, 0, 0, 0, 0, 0);
      swapped, codeSegmentLen, dataSegmentLen, dataSegmentMask, memorySize, opBase := false, 0, 0, 0, 0, 0;
      codeSegment, dataSegment := new int[0], new byte[0];
    }

    /** Loads an image; false for one whose header is not accepted. */
    method Create(image: seq<byte>, stackSize: nat) returns (ok: bool)
      requires Fits(image, stackSize)
      modifies this
      ensures ok <==> Accepted(ReadHeader(image))
      ensures ok ==> header == ReadHeader(image) && swapped == BigEndian(image)
      ensures ok ==> codeSegmentLen == header.instructionCount
      ensures ok ==> Some(codeSegment[..]) == Code(image, header.codeOffset, header.instructionCount, swapped)
      ensures ok ==> dataSegmentLen == header.dataLength + header.litLength + header.bssLength
      ensures ok ==> dataSegment[..] == Data(image, stackSize) && dataSegment.Length == dataSegmentLen + stackSize
      ensures ok ==> LeastAbove(dataSegmentMask + 1, dataSegmentLen + stackSize)
      ensures !ok ==> codeSegmentLen == dataSegmentLen == dataSegmentMask == memorySize == 0
      ensures ok ==> memorySize == 8 * codeSegmentLen + dataSegment.Length && opBase == dataSegmentLen + stackSize / 2
    {
      hide *;
      LongEnough(image, stackSize);
      var h, big := LoadHeader(image);
      AcceptedIs(h);
      if h.vmMagic != VM_MAGIC || h.instructionCount <= 0 || h.codeLength <= 0 {
        Clear();
        return false;
      }
      FitsAre(image, stackSize);
      var length := h.dataLength + h.litLength + h.bssLength;
      var mask := Mask(length + stackSize);
      var code, data := LoadSegments(image, h, big, stackSize);
      header, swapped := h, big;
      codeSegmentLen, dataSegmentLen, dataSegmentMask := h.instructionCount, length, mask;
      memorySize := codeSegmentLen * 4 * 2 + dataSegmentLen + stackSize;
      opBase := dataSegmentLen + stackSize / 2;
      codeSegment, dataSegment := code, data;
      ok := true;
    }

    method Clear()
      modifies this
      ensures codeSegmentLen == dataSegmentLen == dataSegmentMask == memorySize == opBase == 0 && !swapped
      ensures fresh(codeSegment) && codeSegment.Length == 0 && fresh(dataSegment) && dataSegment.Length == 0
    {
      header := Header(0, 0, 0, 0, 0, 0, 0, 0);
      swapped, codeSegmentLen, dataSegmentLen, dataSegmentMask, memorySize, opBase := false, 0, 0, 0, 0, 0;
      codeSegment, dataSegment := new int[0], new byte[0];
    }
  }

  /** The segments, zeroed and then filled from the image. */
  method LoadSegments(image: seq<byte>, h: Header, big: bool, stackSize: nat)
    returns (code: array<int>, data: array<byte>)
    requires Fits(image, stackSize) && h == ReadHeader(image) && big == BigEndian(image) && Accepted(h)
    ensures fresh(code) && fresh(data)
    ensures Some(code[..]) == Code(image, h.codeOffset, h.instructionCount, big)
    ensures data[..] == Data(image, stackSize) && data.Length == h.dataLength + h.litLength + h.bssLength + stackSize
  {
    hide *;
    FitsAre(image, stackSize);
    code := new int[h.instructionCount * 2];
    data := new byte[h.dataLength + h.litLength + h.bssLength + stackSize](_ => 0);
    LoadCode(image, h.codeOffset, h.instructionCount, big, code);
    LoadData(image, h, big, data);
    DataIs(image, stackSize, data[..]);
  }

  lemma LongEnough(image: seq<byte>, stackSize: nat)
    requires Fits(image, stackSize)
    ensures |image| >= 32
  {
  }

  lemma AcceptedIs(h: Header)
    ensures Accepted(h) <==> h.vmMagic == VM_MAGIC && h.instructionCount > 0 && h.codeLength > 0
  {
  }

  lemma FitsAre(image: seq<byte>, stackSize: nat)
    requires Fits(image, stackSize) && Accepted(ReadHeader(image))
    ensures var h := ReadHeader(image);
      && h.instructionCount > 0 && 32 <= h.codeOffset &&
        Code(image, h.codeOffset, h.instructionCount, BigEndian(image)).Some?
      && 32 <= h.dataOffset && 0 <= h.dataLength && 0 <= h.litLength && 0 <= h.bssLength
      && h.dataOffset + h.dataLength / 4 * 4 + h.litLength <= |image|
      && h.dataLength + h.litLength + h.bssLength + stackSize < TWO_31 / 2
  {
    hide ReadHeader;
    hide Code;
    hide BigEndian;
  }

  lemma DataIs(image: seq<byte>, stackSize: nat, data: seq<byte>)
    requires Fits(image, stackSize) && Accepted(ReadHeader(image))
    requires var h := ReadHeader(image);
      && |data| == h.dataLength + h.litLength + h.bssLength + stackSize
      && var n, lit := h.dataLength / 4, h.dataOffset + h.dataLength / 4 * 4;
        && lit + h.litLength <= |image|
        && data[..4 * n + h.litLength]
          == Words(image, h.dataOffset, n, BigEndian(image)) + image[lit..lit + h.litLength]
        && forall i :: 4 * n + h.litLength <= i < |data| ==> data[i] == 0
    ensures data == Data(image, stackSize)
  {
    hide ReadHeader;
    hide Code;
    hide BigEndian;
    hide Words;
    var h := ReadHeader(image);
    var m := h.dataLength / 4 * 4 + h.litLength;
    assert data[m..] == Zeros(|data| - m);
    assert data == data[..m] + data[m..];
  }

  method LoadHeader(image: seq<byte>) returns (h: Header, swapped: bool)
    requires |image| >= 32
    ensures h == ReadHeader(image) && swapped == BigEndian(image)
  {
    hide Word;
    h := Header(
      Word(image[0..4]), Word(image[4..8]), Word(image[8..12]), Word(image[12..16]),
      Word(image[16..20]), Word(image[20..24]), Word(image[24..28]), Word(image[28..32]));
    swapped := h.vmMagic == VM_MAGIC_BIG;
    if swapped {
      var m := IntByteSwap(h.vmMagic);
      var n := IntByteSwap(h.instructionCount);
      var co := IntByteSwap(h.codeOffset);
      var cl := IntByteSwap(h.codeLength);
      var d := IntByteSwap(h.dataOffset);
      var dl := IntByteSwap(h.dataLength);
      var ll := IntByteSwap(h.litLength);
      var bl := IntByteSwap(h.bssLength);
      h := Header(m, n, co, cl, d, dl, ll, bl);
    }
  }

  lemma CodeTurn(image: seq<byte>, p: nat, n: nat, swapped: bool)
    requires n > 0 && Code(image, p, n, swapped).Some?
    ensures p < |image| && p + 1 + ParamSize(image[p]) <= |image|
    ensures var size := ParamSize(image[p]);
      && Code(image, p + 1 + size, n - 1, swapped).Some?
      && Code(image, p, n, swapped).value
        == [image[p] as int, ParamAt(image, p + 1, size, swapped)] + Code(image, p + 1 + size, n - 1, swapped).value
  {
    hide ParamAt;
    hide ParamSize;
  }

  lemma NoCode(image: seq<byte>, p: nat, swapped: bool)
    ensures Code(image, p, 0, swapped) == Some([])
  {
  }

  /** One instruction: its opcode and its parameter, zero for none. */
  method LoadInstruction(image: seq<byte>, p: nat, swapped: bool, dst: array<int>, out: nat) returns (src: nat)
    requires p < |image| && p + 1 + ParamSize(image[p]) <= |image| && out + 2 <= dst.Length
    modifies dst
    ensures src == p + 1 + ParamSize(image[p])
    ensures dst[out] == image[p] as int && dst[out + 1] == ParamAt(image, p + 1, ParamSize(image[p]), swapped)
    ensures forall i :: 0 <= i < dst.Length && i != out && i != out + 1 ==> dst[i] == old(dst[i])
  {
    hide Word;
    hide Swapped;
    var op := image[p];
    src := p + 1;
    dst[out] := op as int;
    if ParamSize(op) == 4 {
      dst[out + 1] := Word(image[src..src + 4]);
      if swapped { dst[out + 1] := IntByteSwap(dst[out + 1]); }
      src := src + 4;
    } else if ParamSize(op) == 1 {
      dst[out + 1] := image[src] as int;
      src := src + 1;
    } else {
      dst[out + 1] := 0;
    }
  }

  method LoadCode(image: seq<byte>, codeOffset: nat, count: nat, swapped: bool, dst: array<int>)
    requires Code(image, codeOffset, count, swapped).Some? && dst.Length == 2 * count
    modifies dst
    ensures Some(dst[..]) == Code(image, codeOffset, count, swapped)
  {
    hide Code;
    hide ParamAt;
    hide ParamSize;
    ghost var goal := Code(image, codeOffset, count, swapped).value;
    var src, out := codeOffset, 0;
    for n := 0 to count
      invariant out == 2 * n && src >= 0 && Code(image, src, count - n, swapped).Some?
      invariant dst[..out] + Code(image, src, count - n, swapped).value == goal
    {
      CodeTurn(image, src, count - n, swapped);
      ghost var done, p := dst[..out], src;
      src := LoadInstruction(image, src, swapped, dst, out);
      assert dst[..out + 2] == done + [image[p] as int, ParamAt(image, p + 1, ParamSize(image[p]), swapped)];
      out := out + 2;
    }
    NoCode(image, src, swapped);
    assert goal == dst[..out] == dst[..];
  }

  lemma WordsTurn(image: seq<byte>, p: nat, n: nat, swapped: bool)
    requires n > 0 && p + 4 * n <= |image|
    ensures Words(image, p, n, swapped)
      == (if swapped then Reversed(image[p..p + 4]) else image[p..p + 4]) + Words(image, p + 4, n - 1, swapped)
  {
  }

  /** memcpy. */
  method CopyBytes(dst: array<byte>, at: nat, b: seq<byte>)
    requires at + |b| <= dst.Length
    modifies dst
    ensures dst[..at + |b|] == old(dst[..at]) + b
    ensures forall i :: at + |b| <= i < dst.Length ==> dst[i] == old(dst[i])
  {
    ghost var was := dst[..];
    forall i | at <= i < at + |b| { dst[i] := b[i - at]; }
    assert forall i :: 0 <= i < at ==> dst[i] == was[i];
  }

  /** The data words, each four bytes. */
  method LoadWords(image: seq<byte>, p: nat, count: nat, swapped: bool, dst: array<byte>)
    requires p + 4 * count <= |image| && 4 * count <= dst.Length
    modifies dst
    ensures dst[..4 * count] == Words(image, p, count, swapped)
    ensures forall i :: 4 * count <= i < dst.Length ==> dst[i] == old(dst[i])
  {
    hide Words;
    hide Reversed;
    ghost var goal := Words(image, p, count, swapped);
    var src, out := p, 0;
    for n := 0 to count
      invariant out == 4 * n && src == p + out
      invariant dst[..out] + Words(image, src, count - n, swapped) == goal
      invariant forall i :: out <= i < dst.Length ==> dst[i] == old(dst[i])
    {
      WordsTurn(image, src, count - n, swapped);
      var b := if swapped then Reversed(image[src..src + 4]) else image[src..src + 4];
      ReversedLength(image[src..src + 4]);
      Rebracketed(dst[..out], b, Words(image, src + 4, count - n - 1, swapped));
      CopyBytes(dst, out, b);
      src, out := src + 4, out + 4;
    }
    NoWords(image, src, swapped);
  }

  lemma Rebracketed(a: seq<byte>, b: seq<byte>, c: seq<byte>)
    ensures a + (b + c) == a + b + c
  {
  }

  lemma NoWords(image: seq<byte>, p: nat, swapped: bool)
    requires p <= |image|
    ensures forall a: seq<byte> :: a + Words(image, p, 0, swapped) == a
  {
  }

  lemma ReversedLength(b: seq<byte>)
    requires |b| == 4
    ensures |Reversed(b)| == 4
  {
  }

  /** The data segment: words, then literals; what is behind them stays as it was. */
  method LoadData(image: seq<byte>, h: Header, swapped: bool, dst: array<byte>)
    requires 0 <= h.dataOffset && 0 <= h.dataLength && 0 <= h.litLength
    requires h.dataOffset + h.dataLength / 4 * 4 + h.litLength <= |image| && h.dataLength + h.litLength <= dst.Length
    modifies dst
    ensures var n, lit := h.dataLength / 4, h.dataOffset + h.dataLength / 4 * 4;
      dst[..4 * n + h.litLength] == Words(image, h.dataOffset, n, swapped) + image[lit..lit + h.litLength]
    ensures forall i :: h.dataLength / 4 * 4 + h.litLength <= i < dst.Length ==> dst[i] == old(dst[i])
  {
    hide Words;
    var n := h.dataLength / 4;
    var lit := h.dataOffset + 4 * n;
    LoadWords(image, h.dataOffset, n, swapped, dst);
    CopyBytes(dst, 4 * n, image[lit..lit + h.litLength]);
  }
}
