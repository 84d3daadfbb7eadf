/** Section layout of a demand paged a.out executable, `adjust_z_magic`. */
module AoutZMagic {
  import opened Words

  /** What the target and the output file fix beforehand. `backend_data` is never null for a linked target. */
  datatype Target = Target(pageSize: nat, segmentSize: nat, diskBlockSize: nat, execBytes: nat,
                           textIncludesHeader: bool, mappedContiguous: bool, headerNotCounted: bool,
                           defaultTextVma: nat, qMagic: bool, hasReloc: bool)

  predicate Sane(t: Target) {
    t.pageSize > 0 && t.segmentSize > 0
  }

  /** `ztih`: the text segment includes the exec header. */
  predicate HeaderInText(t: Target) {
    t.textIncludesHeader || t.qMagic
  }

  class Section {
    var vma: int
    var rawSize: int
    var filepos: int
    const alignment: nat
    const userSetVma: bool

    constructor (vma: int, rawSize: int, alignment: nat, userSetVma: bool)
      ensures this.vma == vma && this.rawSize == rawSize && this.alignment == alignment
      ensures this.userSetVma == userSetVma
    {
      this.vma, this.rawSize, this.filepos := vma, rawSize, 0;
      this.alignment, this.userSetVma := alignment, userSetVma;
    }
  }

  class ExecHeader {
    var text: int
    var data: int
    var bss: int
    var qMagic: bool

    constructor () {
      text, data, bss, qMagic := 0, 0, 0, false;
    }
  }

  // ---- rounding ----

  /** `x & (b - 1)` for a power of two `b`: the remainder, by subtraction. */
  function Rem(x: int, b: nat): (r: int)
    requires 0 < b
    ensures 0 <= r < b
    decreases if x < 0 then b - x else x
  {
    if x < 0 then Rem(x + b, b) else if x < b then x else Rem(x - b, b)
  }

  lemma {:induction false} RemWitness(x: int, b: nat) returns (q: int)
    requires 0 < b
    ensures x == b * q + Rem(x, b)
    decreases if x < 0 then b - x else x
  {
    if x < 0 {
      q := RemWitness(x + b, b);
      q := q - 1;
    } else if x < b {
      q := 0;
    } else {
      q := RemWitness(x - b, b);
      q := q + 1;
    }
  }

  lemma RemIsMod(x: int, b: nat)
    requires 0 < b
    ensures Rem(x, b) == x % b
  {
    var q := RemWitness(x, b);
    DivModUnique(x, q, Rem(x, b), b);
  }

  /** `x` and `y` lie equally far into a page. */
  predicate Congruent(x: int, y: int, b: nat)
    requires 0 < b
  {
    Rem(x - y, b) == 0
  }

  lemma CongruentWitness(x: int, y: int, b: nat, q: int)
    requires 0 < b && x - y == b * q
    ensures Congruent(x, y, b)
  {
    RemIsMod(x - y, b);
    DivModUnique(x - y, q, 0, b);
  }

  /** BFD_ALIGN and align_power, for addresses that do not reach the top of the address space. */
  function Align(x: int, b: nat): int
    requires 0 < b
  {
    x + Rem(-x, b)
  }

  lemma AlignIsLeast(x: int, b: nat) returns (q: int)
    requires 0 < b
    ensures x <= Align(x, b) < x + b && Align(x, b) == b * q && Congruent(Align(x, b), 0, b)
  {
    q := RemWitness(-x, b);
    q := -q;
    CongruentWitness(Align(x, b), 0, b, q);
  }

  // ---- the layout ----

  /** Everything `adjust_z_magic` reads of a section, and everything it decides. */
  datatype Area = Area(vma: int, size: int, alignment: nat, userSet: bool)
  datatype Plan = Plan(textPos: int, textVma: int, textSize: int, dataPos: int, dataVma: int, dataSize: int,
                       bssVma: int, execText: int, execData: int, execBss: int)

  function TextPos(t: Target): int {
    if HeaderInText(t) then t.execBytes else t.diskBlockSize
  }

  function TextVma(t: Target, text: Area): int {
    if text.userSet then text.vma
    else if t.hasReloc then 0
    else if HeaderInText(t) then t.defaultTextVma + t.execBytes else t.defaultTextVma
  }

  /** The size of the text section before it is made contiguous with data. */
  function PaddedText(t: Target, text: Area): int
    requires Sane(t)
  {
    var first := if !text.userSet then 0
                 else if HeaderInText(t) then Rem(TextPos(t) - text.vma, t.pageSize)
                 else Rem(-text.vma, t.pageSize);
    var end := if HeaderInText(t) then TextPos(t) + text.size else text.size;
    text.size + first + (Align(end, t.pageSize) - end)
  }

  function DataVma(t: Target, text: Area, data: Area): int
    requires Sane(t)
  {
    if data.userSet then data.vma else Align(TextVma(t, text) + PaddedText(t, text), t.segmentSize)
  }

  function TextSize(t: Target, text: Area, data: Area): int
    requires Sane(t)
  {
    if t.mappedContiguous then DataVma(t, text, data) - TextVma(t, text) else PaddedText(t, text)
  }

  function PlanOf(t: Target, text: Area, data: Area, bss: Area): (p: Plan)
    requires Sane(t)
  {
    var textSize := TextSize(t, text, data);
    var dataVma := DataVma(t, text, data);
    var dataSize := Align(data.size, Pow2(bss.alignment));
    var execData := Align(dataSize, t.pageSize);
    var bssVma := if bss.userSet then bss.vma else dataVma + dataSize;
    var pad := execData - dataSize;
    Plan(TextPos(t), TextVma(t, text), textSize,
         TextPos(t) + textSize, dataVma, dataSize, bssVma,
         textSize + (if HeaderInText(t) && !t.headerNotCounted then t.execBytes else 0),
         execData,
         if Align(bssVma, Pow2(bss.alignment)) == dataVma + dataSize
         then if pad > bss.size then 0 else bss.size - pad
         else bss.size)
  }

  // ---- the layout is sound ----

  /** How far into a page the text ends before data is considered: not at all if the user set the text
      address, otherwise as far as the default address is, except that a relocatable file with its header in
      the text is off by the header. */
  function TextEndOffset(t: Target, text: Area): int {
    if text.userSet then 0
    else if t.hasReloc then if HeaderInText(t) then 0 - t.execBytes else 0
    else t.defaultTextVma
  }

  lemma TextEnd(t: Target, text: Area)
    requires Sane(t)
    ensures Congruent(TextVma(t, text) + PaddedText(t, text), TextEndOffset(t, text), t.pageSize)
    ensures text.size <= PaddedText(t, text) < text.size + (if text.userSet then 2 else 1) * t.pageSize
  {
    var b := t.pageSize;
    var k := AlignIsLeast(if HeaderInText(t) then TextPos(t) + text.size else text.size, b);
    if text.userSet {
      var x := if HeaderInText(t) then TextPos(t) - text.vma else -text.vma;
      var q := RemWitness(x, b);
      assert b * k - b * q == b * (k - q);
      CongruentWitness(TextVma(t, text) + PaddedText(t, text), 0, b, k - q);
    } else {
      CongruentWitness(TextVma(t, text) + PaddedText(t, text), TextEndOffset(t, text), b, k);
    }
  }

  predicate InOrder(t: Target, text: Area, data: Area)
    requires Sane(t)
  {
    TextVma(t, text) + PaddedText(t, text) <= DataVma(t, text, data)
  }

  /** Placed automatically, data starts on the first segment boundary at or after the end of the text. */
  lemma DataAfterText(t: Target, text: Area, data: Area)
    requires Sane(t)
    ensures !data.userSet ==> InOrder(t, text, data) && DataVma(t, text, data) % t.segmentSize == 0
    ensures !data.userSet ==> DataVma(t, text, data) < TextVma(t, text) + PaddedText(t, text) + t.segmentSize
  {
    var q := AlignIsLeast(TextVma(t, text) + PaddedText(t, text), t.segmentSize);
    RemIsMod(DataVma(t, text, data), t.segmentSize);
  }

  /** The layout is sound in every combination of flags. */
  lemma PlanIsSound(t: Target, text: Area, data: Area, bss: Area)
    requires Sane(t) && InOrder(t, text, data)
    ensures var p := PlanOf(t, text, data, bss);
      // Text starts behind the header or in the next disk block, at the address the user or the target wants.
      && p.textPos == (if t.textIncludesHeader || t.qMagic then t.execBytes else t.diskBlockSize)
      && p.textVma == (if text.userSet then text.vma else if t.hasReloc then 0
                       else if t.textIncludesHeader || t.qMagic then t.defaultTextVma + t.execBytes
                       else t.defaultTextVma)
      // The file holds data right after the text, and text never shrinks.
      && p.dataPos == p.textPos + p.textSize && p.textSize >= text.size
      // Memory: no overlap, and no gap if the target maps them together.
      && p.textVma + p.textSize <= p.dataVma
      && (t.mappedContiguous ==> p.textVma + p.textSize == p.dataVma)
      // The header counts itself into the text unless it is not in it or not to be counted.
      && p.execText == p.textSize + (if (t.textIncludesHeader || t.qMagic) && !t.headerNotCounted then t.execBytes
                                     else 0)
      && (!bss.userSet ==> p.bssVma == p.dataVma + p.dataSize) && (bss.userSet ==> p.bssVma == bss.vma)
      && (data.userSet ==> p.dataVma == data.vma)
      // The header rounds data up to whole pages.
      && p.execData % t.pageSize == 0 && data.size <= p.dataSize <= p.execData < p.dataSize + t.pageSize
      && p.dataSize % Pow2(bss.alignment) == 0
  {
    var p := PlanOf(t, text, data, bss);
    TextEnd(t, text);
    var i := AlignIsLeast(data.size, Pow2(bss.alignment));
    var j := AlignIsLeast(p.dataSize, t.pageSize);
    RemIsMod(p.execData, t.pageSize);
    RemIsMod(p.dataSize, Pow2(bss.alignment));
  }

  /** Where bss follows data, the header's two sizes cover exactly what data and bss need, in whole pages. */
  lemma BssAccountedFor(t: Target, text: Area, data: Area, bss: Area)
    requires Sane(t) && bss.size >= 0
    ensures var p := PlanOf(t, text, data, bss);
      && (Align(p.bssVma, Pow2(bss.alignment)) == p.dataVma + p.dataSize ==>
           p.execData + p.execBss == if p.execData >= p.dataSize + bss.size then p.execData else p.dataSize + bss.size)
      && (Align(p.bssVma, Pow2(bss.alignment)) != p.dataVma + p.dataSize ==> p.execBss == bss.size)
      && 0 <= p.execBss <= bss.size
  {
    var j := AlignIsLeast(PlanOf(t, text, data, bss).dataSize, t.pageSize);
  }

  /** One file mapping serves text and data: modulo a page both are as far from their place in the file,
      always if the target maps them contiguously, and otherwise whenever the text ends on a page boundary
      and data is placed on a segment of whole pages. */
  lemma OneMapping(t: Target, text: Area, data: Area, bss: Area)
    requires Sane(t)
    requires t.mappedContiguous
          || (TextEndOffset(t, text) == 0 && !data.userSet && t.segmentSize % t.pageSize == 0)
    ensures var p := PlanOf(t, text, data, bss);
      Congruent(p.dataVma - p.dataPos, p.textVma - p.textPos, t.pageSize)
  {
    var p := PlanOf(t, text, data, bss);
    var b := t.pageSize;
    if t.mappedContiguous {
      CongruentWitness(p.dataVma - p.dataPos, p.textVma - p.textPos, b, 0);
    } else {
      TextEnd(t, text);
      var i := RemWitness(TextVma(t, text) + PaddedText(t, text) - 0, b);
      var j := AlignIsLeast(TextVma(t, text) + PaddedText(t, text), t.segmentSize);
      var k := t.segmentSize / b;
      WholePages(t.segmentSize, b, k, j);
      assert b * (k * j) - b * i == b * (k * j - i);
      CongruentWitness(p.dataVma - p.dataPos, p.textVma - p.textPos, b, k * j - i);
    }
  }

  lemma WholePages(segment: nat, b: nat, k: nat, j: int)
    requires 0 < b && segment % b == 0 && k == segment / b
    ensures segment * j == b * (k * j)
  {
    assert segment == b * k;
  }

  // ---- the code ----

  ghost function AreaOf(s: Section): Area
    reads s
  {
    Area(s.vma, s.rawSize, s.alignment, s.userSetVma)
  }

  /** The first half: where text goes, and how far it is padded. */
  method PlaceText(t: Target, text: Section)
    requires Sane(t)
    modifies text
    ensures text.filepos == TextPos(t) && text.vma == TextVma(t, old(AreaOf(text)))
    ensures text.rawSize == PaddedText(t, old(AreaOf(text)))
  {
    var ztih := HeaderInText(t);
    text.filepos := if ztih then t.execBytes else t.diskBlockSize;
    var textPad: int;
    if !text.userSetVma {
      text.vma := if t.hasReloc then 0 else if ztih then t.defaultTextVma + t.execBytes else t.defaultTextVma;
      textPad := 0;
    } else {
      if ztih {
        textPad := Rem(text.filepos - text.vma, t.pageSize);
      } else {
        textPad := Rem(-text.vma, t.pageSize);
      }
    }
    if ztih {
      var textEnd := text.filepos + text.rawSize;
      textPad := textPad + (Align(textEnd, t.pageSize) - textEnd);
    } else {
      var textEnd := text.rawSize;
      textPad := textPad + (Align(textEnd, t.pageSize) - textEnd);
    }
    text.rawSize := text.rawSize + textPad;
  }

  /** Where data goes, and what is left to pad of the text. */
  method PlaceData(t: Target, text: Section, data: Section)
    requires Sane(t) && text != data
    modifies text`rawSize, data`vma, data`filepos
    ensures data.vma == if data.userSetVma then old(data.vma) else Align(text.vma + old(text.rawSize), t.segmentSize)
    ensures text.rawSize == if t.mappedContiguous then data.vma - text.vma else old(text.rawSize)
    ensures data.filepos == text.filepos + text.rawSize
  {
    if !data.userSetVma {
      var vma := text.vma + text.rawSize;
      data.vma := Align(vma, t.segmentSize);
    }
    if t.mappedContiguous {
      var textPad := data.vma - text.vma - text.rawSize;
      text.rawSize := text.rawSize + textPad;
    }
    data.filepos := text.filepos + text.rawSize;
  }

  /** The sizes in the header, and where bss goes. */
  method PlaceBss(t: Target, text: Section, data: Section, bss: Section, execp: ExecHeader)
    requires Sane(t) && text != data && text != bss && data != bss
    modifies data`rawSize, bss`vma, execp
    ensures data.rawSize == Align(old(data.rawSize), Pow2(bss.alignment))
    ensures bss.vma == if bss.userSetVma then old(bss.vma) else data.vma + data.rawSize
    ensures execp.text == text.rawSize + if HeaderInText(t) && !t.headerNotCounted then t.execBytes else 0
    ensures execp.data == Align(data.rawSize, t.pageSize) && execp.qMagic == t.qMagic
    ensures execp.bss == if Align(bss.vma, Pow2(bss.alignment)) == data.vma + data.rawSize
                         then if execp.data - data.rawSize > bss.rawSize then 0
                              else bss.rawSize - (execp.data - data.rawSize)
                         else bss.rawSize
  {
    execp.text := text.rawSize;
    if HeaderInText(t) && !t.headerNotCounted {
      execp.text := execp.text + t.execBytes;
    }
    execp.qMagic := t.qMagic;
    data.rawSize := Align(data.rawSize, Pow2(bss.alignment));
    execp.data := Align(data.rawSize, t.pageSize);
    var dataPad := execp.data - data.rawSize;
    if !bss.userSetVma {
      bss.vma := data.vma + data.rawSize;
    }
    if Align(bss.vma, Pow2(bss.alignment)) == data.vma + data.rawSize {
      execp.bss := if dataPad > bss.rawSize then 0 else bss.rawSize - dataPad;
    } else {
      execp.bss := bss.rawSize;
    }
  }

  method AdjustZMagic(t: Target, text: Section, data: Section, bss: Section, execp: ExecHeader)
    requires Sane(t) && text != data && text != bss && data != bss
    modifies text, data, bss, execp
    ensures Plan(text.filepos, text.vma, text.rawSize, data.filepos, data.vma, data.rawSize, bss.vma,
                 execp.text, execp.data, execp.bss)
         == PlanOf(t, old(AreaOf(text)), old(AreaOf(data)), old(AreaOf(bss)))
    ensures execp.qMagic == t.qMagic && bss.rawSize == old(bss.rawSize)
  {
    PlaceText(t, text);
    PlaceData(t, text, data);
    PlaceBss(t, text, data, bss, execp);
  }
}
