/** Extended a.out relocation, `aout_link_input_section_ext`: linking in several stages gives the value
    that linking at once gives. */
module AoutReloc {
  import opened Words
  import opened AoutTypes

  datatype Sec = Text | Data | Bss | Abs

  /** A number for each of the three a.out sections; the absolute section stays at 0. */
  datatype PerSection = PerSection(text: int, data: int, bss: int) {
    function Of(s: Sec): int {
      match s
      case Text => text
      case Data => data
      case Bss => bss
      case Abs => 0
    }
  }

  /** One input file's part in one link: the `vma` of its sections, the `output_offset` at which they
      are placed, and the vma of the output sections. A section goes to the output section of its kind. */
  datatype Link = Link(vma: PerSection, offset: PerSection, outVma: PerSection)

  /** `sym_hashes[r_index]`, as far as relocation looks at it: a definition gives the symbol's value in
      its own input section, that section's output section, and its offset there. */
  datatype Hash = NoEntry | Undefined | UndefWeak | Defined(value: int, sec: Sec, offset: int)

  // ---- relocation types, `howto_table_ext` ----

  const TYPES := 24
  const RELOC_BASE10 := 14
  const RELOC_BASE13 := 15
  const RELOC_BASE22 := 16

  predicate Base(t: int) {
    t == RELOC_BASE10 || t == RELOC_BASE13 || t == RELOC_BASE22
  }

  /** RELOC_DISP8 .. RELOC_WDISP22, RELOC_PC10, RELOC_PC22 and RELOC_JMP_TBL. */
  predicate PcRelative(t: int) {
    3 <= t <= 7 || 17 <= t <= 19
  }

  /** RELOC_PC10 and RELOC_PC22. */
  predicate PcrelOffset(t: int) {
    17 <= t <= 18
  }

  // ---- `r_index` as a section, `aout_reloc_index_to_section` ----

  predicate NamesSection(index: int) {
    var t := TypeBits(index);
    t == N_UNDF || t == N_ABS || t == N_TEXT || t == N_DATA || t == N_BSS
  }

  function IndexToSection(index: int): Sec
    requires NamesSection(index)
  {
    var t := TypeBits(index);
    if t == N_TEXT then Text else if t == N_DATA then Data else if t == N_BSS then Bss else Abs
  }

  function SectionToIndex(s: Sec): int {
    match s
    case Text => N_TEXT
    case Data => N_DATA
    case Bss => N_BSS
    case Abs => N_ABS
  }

  lemma IndexRoundTrip(s: Sec)
    ensures NamesSection(SectionToIndex(s)) && IndexToSection(SectionToIndex(s)) == s
  {
  }

  // ---- one relocation record ----

  datatype Reloc = Reloc(address: int, index: int, extern: bool, rtype: int, addend: int)

  /** A base relative relocation's symbol table entry: its section and its value in the input file. */
  datatype Entry = Entry(sec: Sec, value: int)

  /** What the input file's tables say about the record's `r_index`. `mapped` is the index of the symbol
      in the output symbol table. */
  datatype Target = Target(hash: Hash, entry: Entry, mapped: int)

  predicate Legal(r: Reloc) {
    && 0 <= r.rtype < TYPES
    && (!r.extern && !Base(r.rtype) ==> NamesSection(r.index))
  }

  function Shift(l: Link, s: Sec): int {
    l.outVma.Of(s) + l.offset.Of(s) - l.vma.Of(s)
  }

  function HashAddress(l: Link, h: Hash): int
    requires h.Defined?
  {
    h.value + l.outVma.Of(h.sec) + h.offset
  }

  predicate Converted(r: Reloc, t: Target) {
    r.extern && !Base(r.rtype) && t.hash.Defined?
  }

  /** `relocation` in the relocateable branch. */
  function Adjustment(l: Link, s: Sec, r: Reloc, t: Target): int
    requires Legal(r)
  {
    (if Converted(r, t) then HashAddress(l, t.hash)
     else if r.extern || Base(r.rtype) then 0
     else Shift(l, IndexToSection(r.index)))
    - (if PcRelative(r.rtype) && !PcrelOffset(r.rtype) then Shift(l, s) else 0)
  }

  /** The relocateable branch: the record written for a relocation in section `s`. */
  function Rewrite(l: Link, s: Sec, r: Reloc, t: Target): (q: Reloc)
    requires Legal(r)
    ensures Legal(q)
  {
    var relocation := Adjustment(l, s, r, t);
    Reloc(Wrap(r.address + l.offset.Of(s)),
          if Converted(r, t) then SectionToIndex(t.hash.sec)
          else if r.extern || Base(r.rtype) then t.mapped
          else r.index,
          r.extern && !Converted(r, t),
          r.rtype,
          Wrap(r.addend + relocation))
  }

  /** `relocation` in the final branch, before the addend. */
  function Destination(l: Link, s: Sec, r: Reloc, t: Target): int
    requires Legal(r)
  {
    if r.extern then if t.hash.Defined? then HashAddress(l, t.hash) else 0
    else if Base(r.rtype) then Shift(l, t.entry.sec) + t.entry.value
    else Shift(l, IndexToSection(r.index)) + (if PcRelative(r.rtype) then l.vma.Of(s) else 0)
  }

  /** The final branch and `_bfd_final_link_relocate`: the value stored into the section. */
  function FinalValue(l: Link, s: Sec, r: Reloc, t: Target): (v: int)
    requires Legal(r)
    ensures Wrap(v) == v
  {
    Wrap(Destination(l, s, r, t) + r.addend
         - (if PcRelative(r.rtype) then l.outVma.Of(s) + l.offset.Of(s) else 0)
         - (if PcrelOffset(r.rtype) then r.address else 0))
  }

  // ---- what that amounts to ----

  /** How far a section named by the low bits of `r_index` is moved by a link. */
  lemma ShiftOfIndex(l: Link, index: int)
    requires NamesSection(index)
    ensures var n := index % 0x20 / 2;
      Shift(l, IndexToSection(index))
      == if n == 2 then l.outVma.text + l.offset.text - l.vma.text
         else if n == 3 then l.outVma.data + l.offset.data - l.vma.data
         else if n == 4 then l.outVma.bss + l.offset.bss - l.vma.bss
         else 0
  {
  }

  /** The value stored, type by type. An external relocation stores the final address of its symbol, wherever in its
      section that is defined, or 0 if it is not defined; a base relative one the final address of its symbol's entry;
      any other moves with the section it names. The PC relative types are made relative to where the section comes
      to lie, two of them to the place itself, and those against a section keep the section's old vma. */
  lemma FinalValueIs(l: Link, s: Sec, r: Reloc, t: Target)
    requires Legal(r)
    ensures var pc, place := r.rtype in {3, 4, 5, 6, 7, 17, 18, 19}, r.rtype in {17, 18};
      var less := if pc then l.outVma.Of(s) + l.offset.Of(s) + (if place then r.address else 0) else 0;
      var n := r.index % 0x20 / 2;
      var to :=
        if r.extern then
          match t.hash
          case Defined(value, sec, offset) => l.outVma.Of(sec) + offset + value
          case _ => 0
        else if r.rtype in {14, 15, 16} then
          l.outVma.Of(t.entry.sec) + l.offset.Of(t.entry.sec) + t.entry.value - l.vma.Of(t.entry.sec)
        else
          (if n == 2 then l.outVma.text + l.offset.text - l.vma.text
           else if n == 3 then l.outVma.data + l.offset.data - l.vma.data
           else if n == 4 then l.outVma.bss + l.offset.bss - l.vma.bss
           else 0) + (if pc then l.vma.Of(s) else 0);
      FinalValue(l, s, r, t) == (to + r.addend - less) % WORD
  {
    if !r.extern && !Base(r.rtype) {
      ShiftOfIndex(l, r.index);
    }
  }

  /** The record written instead, type by type. One against a defined symbol becomes one against the symbol's section,
      with the symbol's address in the output file added in; another external one, or a base relative one, keeps its
      addend and gets the symbol's new index; any other moves with the section it names. The PC relative types that do
      not count from the place itself give back how far their own section moves. */
  lemma RewriteIs(l: Link, s: Sec, r: Reloc, t: Target)
    requires Legal(r)
    ensures var q := Rewrite(l, s, r, t);
      var base := r.rtype in {14, 15, 16};
      var less := if r.rtype in {3, 4, 5, 6, 7, 19} then l.outVma.Of(s) + l.offset.Of(s) - l.vma.Of(s) else 0;
      var n := r.index % 0x20 / 2;
      && q.address == (r.address + l.offset.Of(s)) % WORD && q.rtype == r.rtype
      && (r.extern && !base && t.hash.Defined? ==>
           && !q.extern
           && q.index == (match t.hash.sec case Text => 4 case Data => 6 case Bss => 8 case Abs => 2)
           && q.addend == (r.addend + t.hash.value + l.outVma.Of(t.hash.sec) + t.hash.offset - less) % WORD)
      && (base || (r.extern && !t.hash.Defined?) ==>
           q.extern == r.extern && q.index == t.mapped && q.addend == (r.addend - less) % WORD)
      && (!r.extern && !base ==>
           && !q.extern && q.index == r.index
           && q.addend == (r.addend - less
                           + if n == 2 then l.outVma.text + l.offset.text - l.vma.text
                             else if n == 3 then l.outVma.data + l.offset.data - l.vma.data
                             else if n == 4 then l.outVma.bss + l.offset.bss - l.vma.bss
                             else 0) % WORD)
  {
    if !r.extern && !Base(r.rtype) {
      ShiftOfIndex(l, r.index);
    }
  }

  /** An external relocation against a symbol amounts to one against the symbol's section with the symbol's old
      address added in: always if it is not PC relative, otherwise if and only if the relocated section was at
      vma 0. */
  lemma DefinedAsSection(l: Link, s: Sec, r: Reloc, t: Target)
    requires Legal(r) && r.extern && !Base(r.rtype) && t.hash.Defined? && t.hash.offset == l.offset.Of(t.hash.sec)
    ensures var q := Reloc(r.address, SectionToIndex(t.hash.sec), false, r.rtype,
                           r.addend + t.hash.value + l.vma.Of(t.hash.sec));
      Legal(q) && (FinalValue(l, s, r, t) == FinalValue(l, s, q, NO_TARGET)
                   <==> r.rtype !in {3, 4, 5, 6, 7, 17, 18, 19} || l.vma.Of(s) % WORD == 0)
  {
    IndexRoundTrip(t.hash.sec);
    var q := Reloc(r.address, SectionToIndex(t.hash.sec), false, r.rtype,
                   r.addend + t.hash.value + l.vma.Of(t.hash.sec));
    var v := Destination(l, s, r, t) + r.addend - (if PcRelative(r.rtype) then l.outVma.Of(s) + l.offset.Of(s) else 0)
             - (if PcrelOffset(r.rtype) then r.address else 0);
    CongruentSums(v + (if PcRelative(r.rtype) then l.vma.Of(s) else 0), v,
                  if PcRelative(r.rtype) then l.vma.Of(s) else 0);
  }

  // ---- two links in a row ----

  /** `second` links the file that `first` wrote. */
  predicate Chained(first: Link, second: Link) {
    second.vma == first.outVma
  }

  /** Linking at once to where the second link puts things. */
  function Compose(first: Link, second: Link): Link {
    Link(first.vma,
         PerSection(first.offset.text + second.offset.text, first.offset.data + second.offset.data,
                    first.offset.bss + second.offset.bss),
         second.outVma)
  }

  /** The same symbol, seen by the direct link, the first and the second link. */
  predicate SameSymbol(r: Reloc, direct: Target, first: Target, second: Target, l2: Link) {
    && (first.hash.Defined? ==>
         direct.hash == Defined(first.hash.value, first.hash.sec, first.hash.offset + l2.offset.Of(first.hash.sec)))
    && (!first.hash.Defined? ==> direct.hash == second.hash)
    && (first.hash.Defined? && Base(r.rtype) && r.extern ==>
         second.hash.Defined? && HashAddress(l2, second.hash) == HashAddress(l2, direct.hash))
    && direct.entry == first.entry
  }

  /** `aout_link_write_symbols` gives a symbol its address in the output file. */
  function MovedEntry(l: Link, e: Entry): Entry {
    Entry(e.sec, Wrap(Shift(l, e.sec) + e.value))
  }

  /** How far the second link's value is from the direct one. */
  function Discrepancy(l1: Link, s: Sec, r: Reloc, first: Target): int {
    if !PcRelative(r.rtype) then 0
    else if Converted(r, first) then if PcrelOffset(r.rtype) then l1.outVma.Of(s) else l1.vma.Of(s)
    else if r.extern then if PcrelOffset(r.rtype) then 0 else l1.vma.Of(s) - l1.outVma.Of(s)
    else if PcrelOffset(r.rtype) then l1.outVma.Of(s) - l1.vma.Of(s)
    else 0
  }

  lemma CongruentSums(a: int, b: int, d: int)
    requires Wrap(a) == Wrap(b + d)
    ensures Wrap(a) == Wrap(b) <==> Wrap(d) == 0
  {
    var q := a / WORD - (b + d) / WORD;
    assert a == b + d + WORD * q;
    if Wrap(d) == 0 {
      assert a == b + WORD * (q + d / WORD);
      AddMultiple(b, q + d / WORD, WORD);
    }
    if Wrap(a) == Wrap(b) {
      assert d == 0 + WORD * (a / WORD - b / WORD - q);
      AddMultiple(0, a / WORD - b / WORD - q, WORD);
    }
  }

  lemma WrapSum(a: int, b: int)
    ensures Wrap(Wrap(a) + b) == Wrap(a + b)
  {
    assert a + b == WORD * (a / WORD) + (Wrap(a) + b);
    AddMultiple(Wrap(a) + b, a / WORD, WORD);
  }

  lemma AddendOf(l: Link, s: Sec, r: Reloc, t: Target)
    requires Legal(r)
    ensures Wrap(Rewrite(l, s, r, t).addend) == Wrap(r.addend + Adjustment(l, s, r, t))
  {
    WrapSum(r.addend + Adjustment(l, s, r, t), 0);
  }

  /** Linking in two stages equals linking directly, exactly when `Discrepancy` is a multiple of 2^32: always
      for a relocation that is not PC relative, always for a section relocation that is PC relative without
      `pcrel_offset`, and for one converted from a defined symbol when the source section's vma is 0. */
  lemma TwoStages(l1: Link, l2: Link, s: Sec, r: Reloc, direct: Target, first: Target, second: Target)
    requires Legal(r) && Chained(l1, l2) && SameSymbol(r, direct, first, second, l2)
    requires Base(r.rtype) && !r.extern ==> second.entry == MovedEntry(l1, first.entry)
    ensures FinalValue(l2, s, Rewrite(l1, s, r, first), second) == FinalValue(Compose(l1, l2), s, r, direct)
       <==> Wrap(Discrepancy(l1, s, r, first)) == 0
  {
    StagedSum(l1, l2, s, r, direct, first, second);
    CongruentSums(Staged(l1, l2, s, r, first, second), Direct(l1, l2, s, r, direct), Discrepancy(l1, s, r, first));
  }

  function Staged(l1: Link, l2: Link, s: Sec, r: Reloc, first: Target, second: Target): int
    requires Legal(r)
  {
    FinalValue(l2, s, Rewrite(l1, s, r, first), second)
  }

  function Direct(l1: Link, l2: Link, s: Sec, r: Reloc, direct: Target): int
    requires Legal(r)
  {
    FinalValue(Compose(l1, l2), s, r, direct)
  }

  /** Where the second link sends the rewritten record, without the first link's wrap-around. */
  function SecondDestination(l1: Link, l2: Link, s: Sec, r: Reloc, first: Target, second: Target): int
    requires Legal(r)
  {
    if Base(r.rtype) && !r.extern then Shift(l2, first.entry.sec) + Shift(l1, first.entry.sec) + first.entry.value
    else Destination(l2, s, Rewrite(l1, s, r, first), second)
  }

  function DirectSum(l1: Link, l2: Link, s: Sec, r: Reloc, direct: Target): int
    requires Legal(r)
  {
    Destination(Compose(l1, l2), s, r, direct) + r.addend
    - (if PcRelative(r.rtype) then l2.outVma.Of(s) + Compose(l1, l2).offset.Of(s) else 0)
    - (if PcrelOffset(r.rtype) then r.address else 0)
  }

  lemma StagedSum(l1: Link, l2: Link, s: Sec, r: Reloc, direct: Target, first: Target, second: Target)
    requires Legal(r) && Chained(l1, l2) && SameSymbol(r, direct, first, second, l2)
    requires Base(r.rtype) && !r.extern ==> second.entry == MovedEntry(l1, first.entry)
    ensures Wrap(Staged(l1, l2, s, r, first, second))
         == Wrap(Direct(l1, l2, s, r, direct) + Discrepancy(l1, s, r, first))
  {
    var q := Rewrite(l1, s, r, first);
    var adjusted := r.addend + Adjustment(l1, s, r, first);
    var to := SecondDestination(l1, l2, s, r, first, second);
    AddendOf(l1, s, r, first);
    DestinationWraps(l1, l2, s, r, first, second);
    Telescopes(l1, l2, s, r, direct, first, second);
    ModularSum(Destination(l2, s, q, second), to, q.addend, adjusted,
               if PcrelOffset(r.rtype) then q.address else 0,
               if PcrelOffset(r.rtype) then r.address + l1.offset.Of(s) else 0,
               if PcRelative(r.rtype) then l2.outVma.Of(s) + l2.offset.Of(s) else 0,
               DirectSum(l1, l2, s, r, direct), Discrepancy(l1, s, r, first));
    DirectIsSum(l1, l2, s, r, direct);
    StagedIsSum(l1, l2, s, r, first, second);
  }

  lemma DirectIsSum(l1: Link, l2: Link, s: Sec, r: Reloc, direct: Target)
    requires Legal(r)
    ensures Direct(l1, l2, s, r, direct) == Wrap(DirectSum(l1, l2, s, r, direct))
  {
  }

  lemma StagedIsSum(l1: Link, l2: Link, s: Sec, r: Reloc, first: Target, second: Target)
    requires Legal(r)
    ensures var q := Rewrite(l1, s, r, first);
      Staged(l1, l2, s, r, first, second)
      == Wrap(Destination(l2, s, q, second) + q.addend
              - (if PcRelative(r.rtype) then l2.outVma.Of(s) + l2.offset.Of(s) else 0)
              - (if PcrelOffset(r.rtype) then q.address else 0))
  {
  }

  lemma DestinationWraps(l1: Link, l2: Link, s: Sec, r: Reloc, first: Target, second: Target)
    requires Legal(r)
    requires Base(r.rtype) && !r.extern ==> second.entry == MovedEntry(l1, first.entry)
    ensures Wrap(Destination(l2, s, Rewrite(l1, s, r, first), second))
         == Wrap(SecondDestination(l1, l2, s, r, first, second))
    ensures Wrap(Rewrite(l1, s, r, first).address) == Wrap(r.address + l1.offset.Of(s))
  {
    WrapSum(r.address + l1.offset.Of(s), 0);
    if Base(r.rtype) && !r.extern {
      WrapSum(Shift(l1, first.entry.sec) + first.entry.value, Shift(l2, first.entry.sec));
    }
  }

  /** The exact sums differ by the discrepancy: every move cancels against the next link's base. */
  lemma Telescopes(l1: Link, l2: Link, s: Sec, r: Reloc, direct: Target, first: Target, second: Target)
    requires Legal(r) && Chained(l1, l2) && SameSymbol(r, direct, first, second, l2)
    ensures SecondDestination(l1, l2, s, r, first, second) + (r.addend + Adjustment(l1, s, r, first))
            - (if PcRelative(r.rtype) then l2.outVma.Of(s) + l2.offset.Of(s) else 0)
            - (if PcrelOffset(r.rtype) then r.address + l1.offset.Of(s) else 0)
         == DirectSum(l1, l2, s, r, direct) + Discrepancy(l1, s, r, first)
  {
    ShiftsAdd(l1, l2, s);
    if Converted(r, first) {
      IndexRoundTrip(first.hash.sec);
      ShiftsAdd(l1, l2, first.hash.sec);
    } else if r.extern {
      assert Rewrite(l1, s, r, first).extern;
    } else if Base(r.rtype) {
      ShiftsAdd(l1, l2, first.entry.sec);
    } else {
      ShiftsAdd(l1, l2, IndexToSection(r.index));
    }
  }

  /** Shifts of links in a row add up. */
  lemma ShiftsAdd(l1: Link, l2: Link, s: Sec)
    requires Chained(l1, l2)
    ensures Compose(l1, l2).offset.Of(s) == l1.offset.Of(s) + l2.offset.Of(s)
    ensures Compose(l1, l2).outVma.Of(s) == l2.outVma.Of(s) && Compose(l1, l2).vma.Of(s) == l1.vma.Of(s)
    ensures Shift(Compose(l1, l2), s) == Shift(l1, s) + Shift(l2, s)
  {
  }

  lemma ModularSum(to: int, to': int, addend: int, addend': int, at: int, at': int, pc: int, c: int, d: int)
    requires Wrap(to) == Wrap(to') && Wrap(addend) == Wrap(addend') && Wrap(at) == Wrap(at')
    requires to' + addend' - pc - at' == c + d
    ensures Wrap(Wrap(to + addend - pc - at)) == Wrap(Wrap(c) + d)
  {
    Replace(to - pc - at, addend, addend');
    Subtract(to - pc + addend', at, at');
    Replace(addend' - pc - at', to, to');
    WrapSum(c, d);
    WrapSum(to + addend - pc - at, 0);
  }

  lemma Replace(x: int, a: int, b: int)
    requires Wrap(a) == Wrap(b)
    ensures Wrap(x + a) == Wrap(x + b)
  {
    WrapSum(a, x);
    WrapSum(b, x);
  }

  lemma Subtract(x: int, a: int, b: int)
    requires Wrap(a) == Wrap(b)
    ensures Wrap(x - a) == Wrap(x - b)
  {
    assert a - b == WORD * (a / WORD - b / WORD);
    AddMultiple(x - a, a / WORD - b / WORD, WORD);
  }

  /** The cases of `TwoStages`, each with the condition a linker could check beforehand. */
  lemma WhenStagesAgree(l1: Link, l2: Link, s: Sec, r: Reloc, direct: Target, first: Target, second: Target)
    requires Legal(r) && Chained(l1, l2) && SameSymbol(r, direct, first, second, l2)
    requires Base(r.rtype) && !r.extern ==> second.entry == MovedEntry(l1, first.entry)
    ensures var same := Staged(l1, l2, s, r, first, second) == Direct(l1, l2, s, r, direct);
      && (!PcRelative(r.rtype) ==> same)
      && (PcRelative(r.rtype) && !r.extern && !PcrelOffset(r.rtype) ==> same)
      && (PcRelative(r.rtype) && !r.extern && PcrelOffset(r.rtype) ==>
           (same <==> Wrap(l1.outVma.Of(s)) == Wrap(l1.vma.Of(s))))
      && (PcRelative(r.rtype) && Converted(r, first) && !PcrelOffset(r.rtype) ==>
           (same <==> Wrap(l1.vma.Of(s)) == 0))
      && (PcRelative(r.rtype) && Converted(r, first) && PcrelOffset(r.rtype) ==>
           (same <==> Wrap(l1.outVma.Of(s)) == 0))
      && (PcRelative(r.rtype) && r.extern && !Converted(r, first) && !PcrelOffset(r.rtype) ==>
           (same <==> Wrap(l1.vma.Of(s)) == Wrap(l1.outVma.Of(s))))
      && (PcRelative(r.rtype) && r.extern && !Converted(r, first) && PcrelOffset(r.rtype) ==> same)
  {
    TwoStages(l1, l2, s, r, direct, first, second);
    ZeroDifference(l1.outVma.Of(s), l1.vma.Of(s));
    ZeroDifference(l1.vma.Of(s), l1.outVma.Of(s));
  }

  lemma ZeroDifference(a: int, b: int)
    ensures Wrap(a - b) == 0 <==> Wrap(a) == Wrap(b)
  {
    CongruentSums(a, b, a - b);
  }

  // ---- any number of links ----

  predicate AllChained(ls: seq<Link>) {
    forall i :: 0 <= i < |ls| - 1 ==> Chained(ls[i], ls[i + 1])
  }

  function ComposeAll(ls: seq<Link>): Link
    requires 0 < |ls|
  {
    if |ls| == 1 then ls[0] else Compose(ls[0], ComposeAll(ls[1..]))
  }

  const NO_TARGET := Target(NoEntry, Entry(Abs, 0), 0)

  /** A record that names a section needs no symbol table. */
  predicate SectionReloc(r: Reloc) {
    Legal(r) && !r.extern && !Base(r.rtype)
  }

  /** The value a section relocation gets when all links but the last are relocateable ones. */
  function Through(ls: seq<Link>, s: Sec, r: Reloc): int
    requires 0 < |ls| && SectionReloc(r)
  {
    if |ls| == 1 then FinalValue(ls[0], s, r, NO_TARGET) else Through(ls[1..], s, Rewrite(ls[0], s, r, NO_TARGET))
  }

  /** How far the chain's value is from that of one link: RELOC_PC10 and RELOC_PC22 feel the source section move. */
  function Drift(ls: seq<Link>, s: Sec, r: Reloc): int
    requires 0 < |ls|
  {
    if PcRelative(r.rtype) && PcrelOffset(r.rtype) then ls[|ls| - 1].vma.Of(s) - ls[0].vma.Of(s) else 0
  }

  lemma RestChained(ls: seq<Link>)
    requires 0 < |ls| && AllChained(ls)
    ensures AllChained(ls[1..])
  {
    forall i | 0 <= i < |ls[1..]| - 1 ensures Chained(ls[1..][i], ls[1..][i + 1]) {
      assert Chained(ls[i + 1], ls[i + 2]);
    }
  }

  lemma FirstOfRest(ls: seq<Link>)
    requires 1 < |ls|
    ensures ComposeAll(ls[1..]).vma == ls[1].vma
  {
  }

  lemma {:induction false} Drifts(ls: seq<Link>, s: Sec, r: Reloc)
    requires 0 < |ls| && AllChained(ls) && SectionReloc(r)
    ensures Wrap(Through(ls, s, r)) == Wrap(FinalValue(ComposeAll(ls), s, r, NO_TARGET) + Drift(ls, s, r))
    decreases |ls|
  {
    if |ls| > 1 {
      var q, rest := Rewrite(ls[0], s, r, NO_TARGET), ComposeAll(ls[1..]);
      assert Chained(ls[0], ls[1]);
      RestChained(ls);
      Drifts(ls[1..], s, q);
      StagedSum(ls[0], rest, s, r, NO_TARGET, NO_TARGET, NO_TARGET);
      SumsAdd(Through(ls[1..], s, q), FinalValue(rest, s, q, NO_TARGET), Drift(ls[1..], s, q),
              Direct(ls[0], rest, s, r, NO_TARGET), Discrepancy(ls[0], s, r, NO_TARGET));
    }
  }

  lemma SumsAdd(a: int, b: int, d: int, c: int, e: int)
    requires Wrap(a) == Wrap(b + d) && Wrap(b) == Wrap(c + e)
    ensures Wrap(a) == Wrap(c + (e + d))
  {
    Replace(d, b, c + e);
  }

  /** A section relocation survives any number of relocateable links: the final value is that of one link that
      puts everything where the chain puts it; for RELOC_PC10 and RELOC_PC22 if and only if the last link finds
      the source section where the first one did. */
  lemma ManyStages(ls: seq<Link>, s: Sec, r: Reloc)
    requires 0 < |ls| && AllChained(ls) && SectionReloc(r)
    ensures var same := Through(ls, s, r) == FinalValue(ComposeAll(ls), s, r, NO_TARGET);
      && (!PcrelOffset(r.rtype) ==> same)
      && (PcrelOffset(r.rtype) ==> (same <==> Wrap(ls[|ls| - 1].vma.Of(s)) == Wrap(ls[0].vma.Of(s))))
  {
    hide Through, ComposeAll, FinalValue;
    Drifts(ls, s, r);
    ThroughWrapped(ls, s, r);
    CongruentSums(Through(ls, s, r), FinalValue(ComposeAll(ls), s, r, NO_TARGET), Drift(ls, s, r));
    ZeroDifference(ls[|ls| - 1].vma.Of(s), ls[0].vma.Of(s));
  }

  lemma {:induction false} ThroughWrapped(ls: seq<Link>, s: Sec, r: Reloc)
    requires 0 < |ls| && SectionReloc(r)
    ensures Wrap(Through(ls, s, r)) == Through(ls, s, r)
    decreases |ls|
  {
    if |ls| > 1 {
      ThroughWrapped(ls[1..], s, Rewrite(ls[0], s, r, NO_TARGET));
    }
  }

  /** The symbol as one link sees it that puts everything where the chain does. */
  function AtOnce(t: Target, rest: Link): Target
    requires t.hash.Defined?
  {
    t.(hash := Defined(t.hash.value, t.hash.sec, t.hash.offset + rest.offset.Of(t.hash.sec)))
  }

  lemma ConvertedNamesSection(l: Link, s: Sec, r: Reloc, t: Target)
    requires Legal(r) && Converted(r, t)
    ensures SectionReloc(Rewrite(l, s, r, t)) && Rewrite(l, s, r, t).rtype == r.rtype
  {
    IndexRoundTrip(t.hash.sec);
  }

  lemma ConvertedDrift(ls: seq<Link>, s: Sec, r: Reloc, t: Target)
    requires 1 < |ls| && Chained(ls[0], ls[1]) && Legal(r) && Converted(r, t)
    ensures Discrepancy(ls[0], s, r, t) + Drift(ls[1..], s, Rewrite(ls[0], s, r, t))
         == if !PcRelative(r.rtype) then 0 else if PcrelOffset(r.rtype) then ls[|ls| - 1].vma.Of(s) else ls[0].vma.Of(s)
  {
    hide PcRelative, PcrelOffset;
  }

  /** Nor does it matter in how many links a symbol's relocation is resolved, once the first of them defines the
      symbol: not for absolute ones; for PC relative ones if and only if the source section is at vma 0 in the
      first link, for RELOC_PC10 and RELOC_PC22 in the last one. */
  lemma DefinedThenManyStages(ls: seq<Link>, s: Sec, r: Reloc, t: Target)
    requires 1 < |ls| && AllChained(ls) && Legal(r) && Converted(r, t)
    ensures SectionReloc(Rewrite(ls[0], s, r, t))
    ensures var rest := ComposeAll(ls[1..]);
      var staged := Through(ls[1..], s, Rewrite(ls[0], s, r, t));
      var same := staged == FinalValue(Compose(ls[0], rest), s, r, AtOnce(t, rest));
      && (!PcRelative(r.rtype) ==> same)
      && (PcRelative(r.rtype) && !PcrelOffset(r.rtype) ==> (same <==> Wrap(ls[0].vma.Of(s)) == 0))
      && (PcrelOffset(r.rtype) ==> (same <==> Wrap(ls[|ls| - 1].vma.Of(s)) == 0))
  {
    hide Through, ComposeAll, FinalValue, Rewrite, Discrepancy, Drift, Wrap;
    var q, rest := Rewrite(ls[0], s, r, t), ComposeAll(ls[1..]);
    ConvertedNamesSection(ls[0], s, r, t);
    FirstOfRest(ls);
    assert Chained(ls[0], ls[1]);
    RestChained(ls);
    Drifts(ls[1..], s, q);
    ThroughWrapped(ls[1..], s, q);
    StagedSum(ls[0], rest, s, r, AtOnce(t, rest), t, NO_TARGET);
    SumsAdd(Through(ls[1..], s, q), FinalValue(rest, s, q, NO_TARGET), Drift(ls[1..], s, q),
            Direct(ls[0], rest, s, r, AtOnce(t, rest)), Discrepancy(ls[0], s, r, t));
    CongruentSums(Through(ls[1..], s, q), Direct(ls[0], rest, s, r, AtOnce(t, rest)),
                  Discrepancy(ls[0], s, r, t) + Drift(ls[1..], s, q));
    ConvertedDrift(ls, s, r, t);
  }

  // ---- the external records ----

  /** `struct reloc_ext_external`. */
  datatype External = External(address: seq<Byte>, index: seq<Byte>, rtype: Byte, addend: seq<Byte>)

  predicate WellSized(e: External) {
    |e.address| == 4 && |e.index| == 3 && |e.addend| == 4
  }

  const INDEX_MOD := 0x100_0000

  function GetIndex(big: bool, b: seq<Byte>): (i: int)
    requires |b| == 3
    ensures 0 <= i < INDEX_MOD
  {
    if big then 0x1_0000 * (b[0] as int) + 0x100 * (b[1] as int) + b[2] as int
    else 0x1_0000 * (b[2] as int) + 0x100 * (b[1] as int) + b[0] as int
  }

  function PutIndex(big: bool, i: int): (b: seq<Byte>)
    ensures |b| == 3
  {
    if big then [i / 0x1_0000 % 256, i / 0x100 % 256, i % 256] else [i % 256, i / 0x100 % 256, i / 0x1_0000 % 256]
  }

  lemma IndexBytes(big: bool, i: int)
    requires 0 <= i < INDEX_MOD
    ensures GetIndex(big, PutIndex(big, i)) == i
  {
  }

  /** The top bit is `r_extern` in a big endian record and the low five bits the type; in a little endian
      record the low bit and the top five. */
  function GetExtern(big: bool, b: Byte): bool {
    if big then b >= 0x80 else b % 2 == 1
  }

  function GetType(big: bool, b: Byte): int {
    if big then b % 32 else b / 8
  }

  function ClearExtern(big: bool, b: Byte): (c: Byte)
    ensures !GetExtern(big, c) && GetType(big, c) == GetType(big, b)
  {
    if !GetExtern(big, b) then b else if big then b - 0x80 else b - 1
  }

  function Decode(big: bool, e: External): Reloc
    requires WellSized(e)
  {
    Reloc(Get32(big, e.address), GetIndex(big, e.index), GetExtern(big, e.rtype), GetType(big, e.rtype),
          Get32(big, e.addend))
  }

  /** The twelve bytes of a record, in both byte orders. */
  lemma RecordLayout(e: External)
    requires WellSized(e)
    ensures var a: seq<int>, i: seq<int>, d: seq<int> := e.address, e.index, e.addend;
      && Decode(true, e) == Reloc(0x100_0000 * a[0] + 0x1_0000 * a[1] + 0x100 * a[2] + a[3],
                                  0x1_0000 * i[0] + 0x100 * i[1] + i[2],
                                  e.rtype / 0x80 == 1, e.rtype % 0x20,
                                  0x100_0000 * d[0] + 0x1_0000 * d[1] + 0x100 * d[2] + d[3])
      && Decode(false, e) == Reloc(a[0] + 0x100 * a[1] + 0x1_0000 * a[2] + 0x100_0000 * a[3],
                                   i[0] + 0x100 * i[1] + 0x1_0000 * i[2],
                                   e.rtype % 2 == 1, e.rtype / 8,
                                   d[0] + 0x100 * d[1] + 0x1_0000 * d[2] + 0x100_0000 * d[3])
  {
  }

  // ---- the code ----

  /** The tables of an input file, by symbol index. */
  function Find(tables: seq<Target>, r: Reloc): Target
    requires r.extern || Base(r.rtype) ==> 0 <= r.index < |tables|
  {
    if r.extern || Base(r.rtype) then tables[r.index] else NO_TARGET
  }

  predicate Readable(big: bool, e: External, tables: seq<Target>) {
    && WellSized(e) && Legal(Decode(big, e))
    && (Decode(big, e).extern || Base(Decode(big, e).rtype) ==>
         Decode(big, e).index < |tables| && 0 <= tables[Decode(big, e).index].mapped < INDEX_MOD)
  }

  /** Where and how `_bfd_relocate_contents` is called, and with what value. */
  datatype Patch = Patch(rtype: int, address: int, value: int)

  function PatchOf(l: Link, s: Sec, r: Reloc, tables: seq<Target>): Patch
    requires Legal(r) && (r.extern || Base(r.rtype) ==> 0 <= r.index < |tables|)
  {
    Patch(r.rtype, r.address, FinalValue(l, s, r, Find(tables, r)))
  }

  predicate RewrittenAs(big: bool, l: Link, s: Sec, before: External, after: External, tables: seq<Target>) {
    && Readable(big, before, tables) && WellSized(after)
    && Decode(big, after) == Rewrite(l, s, Decode(big, before), Find(tables, Decode(big, before)))
  }

  predicate PatchedAs(big: bool, l: Link, s: Sec, before: External, patch: Patch, tables: seq<Target>) {
    Readable(big, before, tables) && patch == PatchOf(l, s, Decode(big, before), tables)
  }

  /** The new symbol index or section of a record, and how far its target moves. */
  method RewriteTarget(e: External, big: bool, l: Link, tables: seq<Target>) returns (f: External, relocation: int)
    requires Readable(big, e, tables)
    ensures WellSized(f) && f.address == e.address && f.addend == e.addend
    ensures var r := Decode(big, e); var t := Find(tables, r);
      && GetType(big, f.rtype) == r.rtype && GetExtern(big, f.rtype) == (r.extern && !Converted(r, t))
      && GetIndex(big, f.index) == (if Converted(r, t) then SectionToIndex(t.hash.sec)
                                    else if r.extern || Base(r.rtype) then t.mapped else r.index)
      && relocation == (if Converted(r, t) then HashAddress(l, t.hash)
                        else if r.extern || Base(r.rtype) then 0 else Shift(l, IndexToSection(r.index)))
  {
    var r := Decode(big, e);
    f := e;
    if r.extern || Base(r.rtype) {
      var t := Find(tables, r);
      var h := if Base(r.rtype) then NoEntry else t.hash;
      var index: int;
      if h.Defined? {
        f := f.(rtype := ClearExtern(big, f.rtype));
        index := SectionToIndex(h.sec);
        relocation := HashAddress(l, h);
      } else {
        index := t.mapped;
        relocation := 0;
      }
      f := f.(index := PutIndex(big, index));
      IndexBytes(big, index);
    } else {
      relocation := Shift(l, IndexToSection(r.index));
    }
  }

  /** The relocateable branch on one record. */
  method RewriteRecord(e: External, big: bool, l: Link, s: Sec, tables: seq<Target>) returns (f: External)
    requires Readable(big, e, tables)
    ensures RewrittenAs(big, l, s, e, f, tables)
  {
    var r := Decode(big, e);
    var relocation: int;
    f, relocation := RewriteTarget(e, big, l, tables);
    if PcRelative(r.rtype) && !PcrelOffset(r.rtype) {
      relocation := relocation - Shift(l, s);
    }
    // The addend is only stored when it changes.
    var addend := r.addend;
    if Wrap(relocation) != 0 {
      addend := r.addend + relocation;
    }
    Unmoved(r.addend, relocation);
    f := PutAddressAndAddend(f, big, r.address + l.offset.Of(s), addend);
    Fields(l, s, r, Find(tables, r), Decode(big, f), relocation);
  }

  lemma Fields(l: Link, s: Sec, r: Reloc, t: Target, q: Reloc, relocation: int)
    requires Legal(r) && relocation == Adjustment(l, s, r, t)
    requires q.rtype == r.rtype && q.extern == (r.extern && !Converted(r, t))
    requires q.index == if Converted(r, t) then SectionToIndex(t.hash.sec)
                        else if r.extern || Base(r.rtype) then t.mapped else r.index
    requires q.address == Wrap(r.address + l.offset.Of(s)) && q.addend == Wrap(r.addend + relocation)
    ensures q == Rewrite(l, s, r, t)
  {
  }

  lemma Unmoved(x: int, d: int)
    ensures Wrap(d) == 0 ==> Wrap(x) == Wrap(x + d)
  {
    WrapSum(d, x);
  }

  method PutAddressAndAddend(e: External, big: bool, address: int, addend: int) returns (f: External)
    requires WellSized(e)
    ensures WellSized(f) && f.index == e.index && f.rtype == e.rtype
    ensures Get32(big, f.address) == Wrap(address) && Get32(big, f.addend) == Wrap(addend)
  {
    PutGetExact(big, address);
    PutGetExact(big, addend);
    f := e.(address := Put32(big, address), addend := Put32(big, addend));
  }

  lemma PutGetExact(big: bool, x: int)
    ensures Get32(big, Put32(big, x)) == Wrap(x)
  {
    PutGet32(big, x, []);
    assert Put32(big, x) + [] == Put32(big, x);
  }

  /** `relocation` in the final branch. */
  method FinalRelocation(r: Reloc, l: Link, s: Sec, tables: seq<Target>) returns (relocation: int)
    requires Legal(r) && (r.extern || Base(r.rtype) ==> 0 <= r.index < |tables|)
    ensures relocation == Destination(l, s, r, Find(tables, r))
  {
    hide TypeBits, PcRelative;
    if r.extern {
      var h := tables[r.index].hash;
      relocation := if h.Defined? then h.value + l.outVma.Of(h.sec) + h.offset else 0;
    } else if Base(r.rtype) {
      var sym := tables[r.index].entry;
      relocation := l.outVma.Of(sym.sec) + l.offset.Of(sym.sec) + (sym.value - l.vma.Of(sym.sec));
    } else {
      var section := IndexToSection(r.index);
      relocation := l.outVma.Of(section) + l.offset.Of(section) - l.vma.Of(section);
      if PcRelative(r.rtype) {
        relocation := relocation + l.vma.Of(s);
      }
    }
  }

  /** The final branch on one record, with what `_bfd_final_link_relocate` takes off a PC relative value. */
  method FinalPatch(e: External, big: bool, l: Link, s: Sec, tables: seq<Target>) returns (patch: Patch)
    requires Readable(big, e, tables)
    ensures PatchedAs(big, l, s, e, patch, tables)
  {
    hide Destination, Find, Get32, GetIndex, GetExtern, GetType;
    var r := Decode(big, e);
    var relocation := FinalRelocation(r, l, s, tables);
    relocation := relocation + r.addend;
    if PcRelative(r.rtype) {
      relocation := relocation - (l.outVma.Of(s) + l.offset.Of(s));
    }
    if PcrelOffset(r.rtype) {
      relocation := relocation - r.address;
    }
    patch := Patch(r.rtype, r.address, Wrap(relocation));
  }

  /** `aout_link_input_section_ext` over all the relocations of section `s`. */
  method LinkInputSectionExt(relocs: array<External>, big: bool, l: Link, s: Sec, tables: seq<Target>,
                             relocateable: bool)
    returns (patches: seq<Patch>)
    requires forall i :: 0 <= i < relocs.Length ==> Readable(big, relocs[i], tables)
    modifies relocs
    ensures relocateable ==> patches == []
    ensures relocateable ==>
      forall i :: 0 <= i < relocs.Length ==> RewrittenAs(big, l, s, old(relocs[i]), relocs[i], tables)
    ensures !relocateable ==> relocs[..] == old(relocs[..]) && |patches| == relocs.Length
    ensures !relocateable ==>
      forall i :: 0 <= i < relocs.Length ==> PatchedAs(big, l, s, old(relocs[i]), patches[i], tables)
  {
    patches := [];
    var i := 0;
    while i < relocs.Length
      invariant 0 <= i <= relocs.Length
      invariant forall j :: i <= j < relocs.Length ==> relocs[j] == old(relocs[j])
      invariant relocateable ==> patches == []
      invariant relocateable ==> forall j :: 0 <= j < i ==> RewrittenAs(big, l, s, old(relocs[j]), relocs[j], tables)
      invariant !relocateable ==> relocs[..] == old(relocs[..]) && |patches| == i
      invariant !relocateable ==> forall j :: 0 <= j < i ==> PatchedAs(big, l, s, old(relocs[j]), patches[j], tables)
    {
      assert Readable(big, old(relocs[i]), tables);
      if relocateable {
        relocs[i] := RewriteRecord(relocs[i], big, l, s, tables);
      } else {
        var patch := FinalPatch(relocs[i], big, l, s, tables);
        patches := patches + [patch];
      }
      i := i + 1;
    }
  }

  /** A record of a whole section, linked in two stages or at once: the same place in the final output
      section receives the same value by the same relocation type. */
  lemma SamePatch(l1: Link, l2: Link, s: Sec, r: Reloc, first: seq<Target>, second: seq<Target>, direct: seq<Target>)
    requires Legal(r) && Chained(l1, l2)
    requires r.extern || Base(r.rtype) ==> 0 <= r.index < |first| == |direct| && 0 <= first[r.index].mapped < |second|
    requires var q := Rewrite(l1, s, r, Find(first, r));
      && SameSymbol(r, Find(direct, r), Find(first, r), Find(second, q), l2)
      && (Base(r.rtype) && !r.extern ==> Find(second, q).entry == MovedEntry(l1, Find(first, r).entry))
    requires Wrap(Discrepancy(l1, s, r, Find(first, r))) == 0
    ensures var staged := PatchOf(l2, s, Rewrite(l1, s, r, Find(first, r)), second);
            var atOnce := PatchOf(Compose(l1, l2), s, r, direct);
      && staged.rtype == atOnce.rtype && staged.value == atOnce.value
      && Wrap(l2.offset.Of(s) + staged.address) == Wrap(Compose(l1, l2).offset.Of(s) + atOnce.address)
  {
    TwoStages(l1, l2, s, r, Find(direct, r), Find(first, r), Find(second, Rewrite(l1, s, r, Find(first, r))));
    WrapSum(r.address + l1.offset.Of(s), l2.offset.Of(s));
  }
}
