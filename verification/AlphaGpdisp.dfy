/** The ALPHA_R_GPDISP relocation: an ldah/lda instruction pair whose two signed 16-bit halves together
    hold the distance from the instruction to the gp. */
module AlphaGpdisp {
  import opened Words

  const HALF := 0x1_0000

  /** The low half of an instruction word. */
  function Low(insn: int): (l: int)
    ensures 0 <= l < HALF
  {
    insn % HALF
  }

  function SignExtend16(x: int): (s: int)
    requires 0 <= x < HALF
    ensures -0x8000 <= s < 0x8000 && (s == x || s == x - HALF)
  {
    if x < 0x8000 then x else x - HALF
  }

  /** What the pair adds to its base register when it runs: ldah shifts its operand by 16 bits. */
  function Computes(insn1: int, insn2: int): int {
    SignExtend16(Low(insn1)) * HALF + SignExtend16(Low(insn2))
  }

  /** "Get the existing addend": the source's unsigned arithmetic. */
  function Extract(insn1: int, insn2: int): int {
    Low(insn1) * HALF + Low(insn2)
    - (if Low(insn1) >= 0x8000 then 0x8000_0000 + 0x8000_0000 else 0)
    - (if Low(insn2) >= 0x8000 then HALF else 0)
  }

  /** The addend, with what `lda` will borrow added back. */
  function Carried(addend: int): int {
    if Low(addend) >= 0x8000 then addend + HALF else addend
  }

  function HighWord(insn1: int, addend: int): int {
    insn1 - Low(insn1) + Low(Carried(addend) / HALF)
  }

  function LowWord(insn2: int, addend: int): int {
    insn2 - Low(insn2) + Low(addend)
  }

  const MIN_PAIR := -0x8000_8000
  const MAX_PAIR := 0x7fff_7fff

  /** The addend read from a pair is what the pair computes. */
  lemma ExtractIsExact(insn1: int, insn2: int)
    ensures Extract(insn1, insn2) == Computes(insn1, insn2)
    ensures MIN_PAIR <= Extract(insn1, insn2) <= MAX_PAIR
  {
  }

  lemma LowOfStored(insn: int, x: int)
    ensures Low(insn - Low(insn) + Low(x)) == Low(x)
    ensures (insn - Low(insn) + Low(x)) / HALF == insn / HALF
  {
    DivModUnique(insn - Low(insn) + Low(x), insn / HALF, Low(x), HALF);
  }

  /** What the rewritten pair computes, before any wrap-around is considered. */
  lemma StoredPair(insn1: int, insn2: int, addend: int)
    ensures var c := Carried(addend) / HALF;
      Computes(HighWord(insn1, addend), LowWord(insn2, addend)) == addend - HALF * (c - SignExtend16(Low(c)))
  {
    LowOfStored(insn1, Carried(addend) / HALF);
    LowOfStored(insn2, addend);
    var c := Carried(addend) / HALF;
    AddMultiple(addend, 1, HALF);
    assert Low(Carried(addend)) == Low(addend);
    assert Carried(addend) == HALF * c + Low(addend);
  }

  /** The rewrite is exact modulo 2^32 for every addend, and exact without that for the addends a pair can
      hold and no others. The other bits of both instructions stay. */
  lemma RewriteIsExact(insn1: int, insn2: int, addend: int)
    ensures Wrap(Extract(HighWord(insn1, addend), LowWord(insn2, addend))) == Wrap(addend)
    ensures Extract(HighWord(insn1, addend), LowWord(insn2, addend)) == addend
       <==> MIN_PAIR <= addend <= MAX_PAIR
    ensures HighWord(insn1, addend) / HALF == insn1 / HALF && LowWord(insn2, addend) / HALF == insn2 / HALF
  {
    var c := Carried(addend) / HALF;
    ExtractIsExact(HighWord(insn1, addend), LowWord(insn2, addend));
    StoredPair(insn1, insn2, addend);
    LowOfStored(insn1, c);
    LowOfStored(insn2, addend);
    var k := c / HALF;
    assert c == HALF * k + Low(c);
    var lost := if Low(c) >= 0x8000 then k + 1 else k;
    assert HALF * (c - SignExtend16(Low(c))) == WORD * lost;
    AddMultiple(addend, -lost, WORD);
    assert addend - WORD * lost == WORD * (-lost) + addend;
  }

  // ---- the relocation ----

  /** Everything the relocation depends on: the two gp values and how far the section moved. */
  datatype Move = Move(inputGp: int, outputGp: int, inputVma: int, outputAddress: int)

  /** `alpha_relocate_section`. */
  function LinkedAddend(insn1: int, insn2: int, m: Move): int {
    Extract(insn1, insn2) + (m.outputGp - m.inputGp + m.inputVma - m.outputAddress)
  }

  /** `alpha_ecoff_get_relocated_section_contents`, for the relocation at offset `address`. */
  function ContentsAddend(insn1: int, insn2: int, m: Move, address: int): int {
    Extract(insn1, insn2) - (m.inputGp - (m.inputVma + address)) + (m.outputGp - (m.outputAddress + address))
  }

  lemma BothCopiesAgree(insn1: int, insn2: int, m: Move, address: int)
    ensures LinkedAddend(insn1, insn2, m) == ContentsAddend(insn1, insn2, m, address)
  {
  }

  /** A pair that computed the input gp from its input place computes the output gp from its output place:
      always in 32 bits, and exactly if the new distance fits a pair. */
  lemma PairKeepsMeaning(insn1: int, insn2: int, m: Move, address: int)
    requires Computes(insn1, insn2) == m.inputGp - (m.inputVma + address)
    ensures var addend := LinkedAddend(insn1, insn2, m);
            var distance := m.outputGp - (m.outputAddress + address);
            var result := Computes(HighWord(insn1, addend), LowWord(insn2, addend));
      && Wrap(result) == Wrap(distance)
      && (MIN_PAIR <= distance <= MAX_PAIR <==> result == distance)
  {
    var addend := LinkedAddend(insn1, insn2, m);
    ExtractIsExact(insn1, insn2);
    RewriteIsExact(insn1, insn2, addend);
    ExtractIsExact(HighWord(insn1, addend), LowWord(insn2, addend));
  }

  /** Relocating twice leaves the same instruction words as relocating once by the sum. */
  lemma TwoRewrites(insn1: int, insn2: int, d1: int, d2: int)
    ensures var a := Extract(insn1, insn2) + d1;
            var i1, i2 := HighWord(insn1, a), LowWord(insn2, a);
            var b := Extract(i1, i2) + d2;
      && HighWord(i1, b) == HighWord(insn1, a + d2)
      && LowWord(i2, b) == LowWord(insn2, a + d2)
  {
    var a := Extract(insn1, insn2) + d1;
    var i1, i2 := HighWord(insn1, a), LowWord(insn2, a);
    var b := Extract(i1, i2) + d2;
    RewriteIsExact(insn1, insn2, a);
    LowOfStored(insn1, Carried(a) / HALF);
    LowOfStored(insn2, a);
    AddToBoth(Extract(i1, i2), a, d2);
    SameStored(b, a + d2);
    Restored(insn1, Carried(a) / HALF, Carried(b) / HALF);
    Restored(insn2, a, b);
  }

  lemma AddToBoth(x: int, y: int, d: int)
    requires Wrap(x) == Wrap(y)
    ensures Wrap(x + d) == Wrap(y + d)
  {
    AddMultiple(y + d, x / WORD - y / WORD, WORD);
    assert x + d == WORD * (x / WORD - y / WORD) + (y + d);
  }

  lemma Restored(insn: int, x: int, y: int)
    ensures var i := insn - Low(insn) + Low(x); i - Low(i) + Low(y) == insn - Low(insn) + Low(y)
  {
    LowOfStored(insn, x);
  }

  /** Addends that agree in 32 bits are stored alike. */
  lemma SameStored(a: int, b: int)
    requires Wrap(a) == Wrap(b)
    ensures Low(a) == Low(b) && Low(Carried(a) / HALF) == Low(Carried(b) / HALF)
  {
    var k := a / WORD - b / WORD;
    assert a == HALF * (HALF * k) + b;
    AddMultiple(b, HALF * k, HALF);
    var x, y := Carried(a), Carried(b);
    assert x == HALF * (HALF * k) + y;
    assert x == HALF * (y / HALF + HALF * k) + y % HALF;
    DivModUnique(x, y / HALF + HALF * k, y % HALF, HALF);
    AddMultiple(y / HALF, k, HALF);
  }

  // ---- the code ----

  /** The section with a word stored. */
  function Stored(data: seq<Byte>, at: nat, x: int): (s: seq<Byte>)
    requires at + 4 <= |data|
    ensures |s| == |data|
    ensures forall k :: 0 <= k < |data| && !(at <= k < at + 4) ==> s[k] == data[k]
  {
    data[..at] + PutL32(x) + data[at + 4..]
  }

  lemma StoredIsRead(data: seq<Byte>, at: nat, x: int)
    requires at + 4 <= |data| && 0 <= x < WORD
    ensures Word(Stored(data, at, x), at) == x
  {
    assert Stored(data, at, x)[at..] == PutL32(x) + data[at + 4..];
    PutGetL32(x, data[at + 4..]);
  }

  method StoreWord(data: array<Byte>, at: nat, x: int)
    requires at + 4 <= data.Length
    modifies data
    ensures data[..] == Stored(old(data[..]), at, x)
  {
    hide PutL32;
    PutWord(data, at, x);
    assert old(data[..at]) == old(data[..])[..at] && old(data[at + 4..]) == old(data[..])[at + 4..];
  }

  lemma WordKept(data: seq<Byte>, at: nat, other: nat, x: int)
    requires at + 4 <= |data| && other + 4 <= |data| && (other + 4 <= at || at + 4 <= other)
    ensures Word(Stored(data, other, x), at) == Word(data, at)
  {
    hide Stored, Word;
    assert Stored(data, other, x)[at..at + 4] == data[at..at + 4];
    SameWord(Stored(data, other, x), data, at);
  }

  /** The GPDISP case: rewrite the pair at `at` and `at + ahead`, wherever the second word is. The source only
      warns when the two words are not an ldah and an lda. */
  method RelocateGpdisp(data: array<Byte>, at: nat, ahead: int, m: Move)
    requires 0 <= at + ahead && at + 4 <= data.Length && at + ahead + 4 <= data.Length
    modifies data
    ensures var insn1, insn2 := old(Word(data[..], at)), old(Word(data[..], at + ahead));
            var addend := LinkedAddend(insn1, insn2, m);
      && data[..] == Stored(Stored(old(data[..]), at, HighWord(insn1, addend)), at + ahead, LowWord(insn2, addend))
      && Word(data[..], at + ahead) == LowWord(insn2, addend)
      && (ahead >= 4 || ahead <= -4 ==> Word(data[..], at) == HighWord(insn1, addend))
  {
    hide Word, Stored, LinkedAddend, HighWord, LowWord;
    var insn1 := Word(data[..], at);
    var insn2 := Word(data[..], at + ahead);
    var new1, new2 := RewritePair(insn1, insn2, m);
    StoreWord(data, at, new1);
    ghost var between := data[..];
    StoredIsRead(old(data[..]), at, new1);
    StoreWord(data, at + ahead, new2);
    StoredIsRead(between, at + ahead, new2);
    if ahead >= 4 || ahead <= -4 {
      WordKept(between, at, at + ahead, new2);
    }
  }

  method RewritePair(insn1: int, insn2: int, m: Move) returns (new1: int, new2: int)
    requires 0 <= insn1 < WORD && 0 <= insn2 < WORD
    ensures var addend := LinkedAddend(insn1, insn2, m);
            new1 == HighWord(insn1, addend) && new2 == LowWord(insn2, addend)
    ensures 0 <= new1 < WORD && 0 <= new2 < WORD
  {
    hide Extract, HighWord, LowWord;
    var addend := ExistingAddend(insn1, insn2);
    addend := addend + (m.outputGp - m.inputGp + m.inputVma - m.outputAddress);
    new1, new2 := StoreAddend(insn1, insn2, addend);
  }

  method ExistingAddend(insn1: int, insn2: int) returns (addend: int)
    ensures addend == Extract(insn1, insn2)
  {
    addend := insn1 % HALF * HALF + insn2 % HALF;
    if insn1 % HALF >= 0x8000 {
      addend := addend - 0x8000_0000;
      addend := addend - 0x8000_0000;
    }
    if insn2 % HALF >= 0x8000 {
      addend := addend - HALF;
    }
  }

  method StoreAddend(insn1: int, insn2: int, addend: int) returns (new1: int, new2: int)
    requires 0 <= insn1 < WORD && 0 <= insn2 < WORD
    ensures new1 == HighWord(insn1, addend) && new2 == LowWord(insn2, addend)
    ensures 0 <= new1 < WORD && 0 <= new2 < WORD
  {
    var carried := addend;
    if addend % HALF >= 0x8000 {
      carried := carried + HALF;
    }
    AddMultiple(addend, 1, HALF);
    HighPart(insn1);
    HighPart(insn2);
    new1 := insn1 - insn1 % HALF + carried / HALF % HALF;
    new2 := insn2 - insn2 % HALF + carried % HALF;
  }

  lemma HighPart(insn: int)
    requires 0 <= insn < WORD
    ensures 0 <= insn - insn % HALF <= WORD - HALF
  {
    assert insn - insn % HALF == HALF * (insn / HALF);
  }
}
