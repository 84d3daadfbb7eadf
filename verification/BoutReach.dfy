/** What relaxation of one section achieves: bytes and symbols move together, padding stays aligned,
    and every call it shortens still reaches its target. */
module BoutReach {
  import opened Words
  import opened BoutRelax
  import opened Layout

  /** One pass over one section; `trace[k]` is the state before relocation `k` is looked at. */
  datatype Input = Input(relocs: seq<Reloc>, syms: seq<Symbol>, base: int, size: int, trace: seq<State>)

  /** First byte the relocation owns: a `callx` starts one word before its address operand. */
  function Start(r: Reloc): int {
    if r.kind.Abs32Code? then r.address - 4 else r.address
  }

  /** First byte after what the relocation owns. */
  function End(r: Reloc, base: int): int
    requires r.kind.Aligner? ==> IsMask(r.mask)
  {
    if r.kind.Aligner? then OldEnd(r.address, base, r.mask) - base else r.address + 4
  }

  predicate Fresh(r: Reloc) {
    !r.kind.AlignDone? && !r.kind.Abs32CodeShrunk?
  }

  const MAX_SECTION := 0x7fff_0000

  /** A section as the assembler leaves it: no relocation is relaxed yet, they are sorted and do not
      overlap, symbols lie in the section, and the section starts on a 16-byte boundary. */
  predicate Assembled(relocs: seq<Reloc>, syms: seq<Symbol>, base: int, size: int) {
    && Loaded(relocs, syms)
    && 0 <= base && base % 16 == 0 && 0 <= size <= MAX_SECTION && base + size < WORD
    && (forall i :: 0 <= i < |relocs| ==> Fresh(relocs[i]))
    && (forall i :: 0 <= i < |relocs| ==> 0 <= Start(relocs[i]) && End(relocs[i], base) <= size)
    && (forall i, j :: 0 <= i < j < |relocs| ==> End(relocs[i], base) <= Start(relocs[j]))
    && (forall s :: 0 <= s < |syms| && syms[s].place.Here? ==> 0 <= syms[s].place.value <= size)
  }

  predicate Traced(x: Input) {
    && Loaded(x.relocs, x.syms) && |x.trace| == |x.relocs| + 1
    && forall k :: 0 <= k <= |x.relocs| ==> TracedAt(x, k)
  }

  predicate TracedAt(x: Input, k: nat)
    requires Loaded(x.relocs, x.syms) && |x.trace| == |x.relocs| + 1 && k <= |x.relocs|
  {
    x.trace[k] == Run(x.relocs, x.syms, x.base, k)
  }

  type Section = x: Input | Assembled(x.relocs, x.syms, x.base, x.size) && Traced(x)
    witness Input([], [], 0, 0, [State([], [], 0)])

  /** The pass over an assembled section. */
  function Pass(relocs: seq<Reloc>, syms: seq<Symbol>, base: int, size: int): (x: Section)
    requires Assembled(relocs, syms, base, size)
    ensures x.relocs == relocs && x.syms == syms && x.base == base && x.size == size
  {
    var n := |relocs|;
    var x := Input(relocs, syms, base, size, seq(n + 1, k requires 0 <= k <= n => Run(relocs, syms, base, k)));
    assert forall k :: 0 <= k <= n ==> TracedAt(x, k);
    x
  }

  function At(x: Section, k: nat): State
    requires k <= |x.relocs|
  {
    x.trace[k]
  }

  lemma Begins(x: Section)
    ensures At(x, 0) == State(x.relocs, x.syms, 0)
  {
    assert TracedAt(x, 0);
  }

  lemma Lengths(x: Section, k: nat)
    requires k <= |x.relocs|
    ensures |At(x, k).relocs| == |x.relocs| && |At(x, k).syms| == |x.syms|
  {
    assert TracedAt(x, k);
  }

  lemma Meets(x: Section, k: nat)
    requires k < |x.relocs|
    ensures |At(x, k).relocs| == |x.relocs| && |At(x, k).syms| == |x.syms|
    ensures At(x, k).relocs[k] == x.relocs[k] && Indexed(At(x, k), k)
    ensures At(x, k + 1) == Step(At(x, k), k, x.base)
  {
    assert TracedAt(x, k) && TracedAt(x, k + 1);
    assert At(x, k).relocs[k] == At(x, k).relocs[k..][0] == x.relocs[k..][0];
  }

  lemma AlignDeltaBounds(st: State, r: Reloc, base: int)
    requires IsMask(r.mask) && base % 16 == 0 && r.kind.Aligner?
    ensures 0 < AlignDelta(st, r, base) < 2 * (r.mask + 1)
    ensures AlignDelta(st, r, base) <= End(r, base) - Start(r)
    ensures End(r, base) - st.shrink - AlignDelta(st, r, base) == Floor(r.address - st.shrink + r.mask, r.mask)
  {
    FloorOfShifted(r.address - st.shrink + r.mask, base, r.mask);
  }

  /** What step `k` does, whichever branch it takes. */
  lemma StepFacts(x: Section, k: nat)
    requires k < |x.relocs|
    ensures |At(x, k).relocs| == |At(x, k + 1).relocs| == |x.relocs|
    ensures |At(x, k).syms| == |At(x, k + 1).syms| == |x.syms|
    ensures var r, st, t := x.relocs[k], At(x, k), At(x, k + 1); var d := t.shrink - st.shrink;
      && 0 <= d <= End(r, x.base) - Start(r)
      && t.syms == (if d > 0 then Slip(st.syms, d, Start(r) - st.shrink) else st.syms)
      && (d == 0 ==> t.relocs[k] == r && !r.kind.Aligner?)
      && (d > 0 && r.kind.Aligner? ==>
           && d < 2 * (r.mask + 1)
           && t.relocs[k] == r.(kind := AlignDone, addend := End(r, x.base))
           && End(r, x.base) - t.shrink == Floor(r.address - st.shrink + r.mask, r.mask))
      && (d > 0 && !r.kind.Aligner? ==>
           && d == 4 && r.kind.Abs32Code? && -0x80_0000 < Gap(st, r, x.base) < 0x80_0000
           && t.relocs[k] == r.(kind := Abs32CodeShrunk, address := Start(r)))
  {
    Meets(x, k);
    assert Fresh(x.relocs[k]);
    if x.relocs[k].kind.Aligner? {
      AlignDeltaBounds(At(x, k), x.relocs[k], x.base);
    }
  }

  function ShapeOf(x: Section): (l: Shape)
    ensures |l.start| == |l.end| == |x.relocs| == |l.shrink| - 1 && l.size == x.size
    ensures forall k :: 0 <= k < |x.relocs| ==> l.start[k] == Start(x.relocs[k]) && l.end[k] == End(x.relocs[k], x.base)
    ensures forall k :: 0 <= k <= |x.relocs| ==> l.shrink[k] == At(x, k).shrink
  {
    var n := |x.relocs|;
    Shape(seq(n, i requires 0 <= i < n => Start(x.relocs[i])),
          seq(n, i requires 0 <= i < n => End(x.relocs[i], x.base)),
          seq(n + 1, i requires 0 <= i <= n => At(x, i).shrink),
          x.size)
  }

  lemma ShapeIsSound(x: Section)
    ensures Sound(ShapeOf(x))
  {
    hide ShapeOf, At, Step, Start, End;
    var l := ShapeOf(x);
    Begins(x);
    forall i | 0 <= i < |l.start| ensures 0 <= Delta(l, i) <= l.end[i] - l.start[i] {
      StepFacts(x, i);
    }
  }

  /** The pieces the pass cuts out of the section. */
  function LayoutOf(x: Section): (l: Cut)
    ensures |l.start| == |x.relocs| && l.size == x.size
    ensures forall k :: 0 <= k < |x.relocs| ==> l.start[k] == Start(x.relocs[k]) && l.end[k] == End(x.relocs[k], x.base)
    ensures forall k :: 0 <= k <= |x.relocs| ==> l.shrink[k] == At(x, k).shrink
  {
    ShapeIsSound(x);
    ShapeOf(x)
  }

  /** Everything about a symbol but its value stays as it was. */
  lemma {:induction false} KindKept(x: Section, s: nat, k: nat)
    requires s < |x.syms| && k <= |x.relocs|
    ensures |At(x, k).syms| == |x.syms|
    ensures var t := At(x, k).syms[s];
      && t.other == x.syms[s].other && t.isSection == x.syms[s].isSection
      && t.place.Here? == x.syms[s].place.Here?
      && (!t.place.Here? ==> t == x.syms[s])
  {
    if k == 0 {
      Begins(x);
    } else {
      KindKept(x, s, k - 1);
      StepFacts(x, k - 1);
    }
  }

  predicate InSection(x: Section, s: nat) {
    s < |x.syms| && x.syms[s].place.Here?
  }

  /** The values a symbol goes through. */
  function Values(x: Section, s: nat): (v: seq<int>)
    requires InSection(x, s)
    ensures |v| == |x.relocs| + 1
    ensures forall k :: 0 <= k <= |x.relocs| ==>
      |At(x, k).syms| == |x.syms| && At(x, k).syms[s].place.Here? && v[k] == At(x, k).syms[s].place.value
  {
    var n := |x.relocs|;
    assert forall k :: 0 <= k <= n ==> |At(x, k).syms| == |x.syms| && At(x, k).syms[s].place.Here? by {
      forall k | 0 <= k <= n ensures |At(x, k).syms| == |x.syms| && At(x, k).syms[s].place.Here? {
        KindKept(x, s, k);
      }
    }
    seq(n + 1, k requires 0 <= k <= n => At(x, k).syms[s].place.value)
  }

  lemma ValuesSlip(x: Section, s: nat)
    requires InSection(x, s)
    ensures Slips(LayoutOf(x), Values(x, s)) && Values(x, s)[0] == x.syms[s].place.value
  {
    var l, v := LayoutOf(x), Values(x, s);
    forall k | 0 <= k < |l.start| ensures SlipStep(l, v, k) {
      ValueStep(x, s, k);
    }
    Begins(x);
  }

  lemma ValueStep(x: Section, s: nat, k: nat)
    requires InSection(x, s) && k < |x.relocs|
    ensures SlipStep(LayoutOf(x), Values(x, s), k)
  {
    StepFacts(x, k);
    var l, v := LayoutOf(x), Values(x, s);
    var d, p := Delta(l, k), At(x, k).syms[s].place;
    assert d > 0 ==> At(x, k + 1).syms[s] == SlipSymbol(At(x, k).syms[s], d, l.start[k] - l.shrink[k]);
  }

  /** Symbols follow their bytes: a symbol outside shortened instructions and padding ends at its old
      value less the shrink of everything before it, and its hash table entry with it. */
  lemma SymbolsFollowBytes(x: Section, s: nat)
    requires InSection(x, s) && Clear(LayoutOf(x), x.syms[s].place.value)
    ensures Values(x, s)[|x.relocs|] == NewPosition(LayoutOf(x), x.syms[s].place.value)
    ensures 0 <= Values(x, s)[|x.relocs|] <= x.size - At(x, |x.relocs|).shrink
  {
    ValuesSlip(x, s);
    SymbolFollows(LayoutOf(x), Values(x, s), 0);
    InsideKept(LayoutOf(x), x.syms[s].place.value);
  }

  /** Symbol order survives the pass. */
  lemma SymbolsKeepOrder(x: Section, s: nat, t: nat)
    requires InSection(x, s) && Clear(LayoutOf(x), x.syms[s].place.value)
    requires InSection(x, t) && Clear(LayoutOf(x), x.syms[t].place.value)
    requires x.syms[s].place.value <= x.syms[t].place.value
    ensures Values(x, s)[|x.relocs|] <= Values(x, t)[|x.relocs|]
  {
    SymbolsFollowBytes(x, s);
    SymbolsFollowBytes(x, t);
    OrderKept(LayoutOf(x), x.syms[s].place.value, x.syms[t].place.value);
  }

  /** The relocations as the pass leaves them. */
  function Relaxed(x: Section): (rs: seq<Reloc>)
    ensures |rs| == |x.relocs|
  {
    Lengths(x, |x.relocs|);
    At(x, |x.relocs|).relocs
  }

  /** Once step `i` is past, its relocation is final. */
  lemma {:induction false} Final(x: Section, i: nat, k: nat)
    requires i < k <= |x.relocs|
    ensures |At(x, k).relocs| == |At(x, i + 1).relocs| == |x.relocs|
    ensures At(x, k).relocs[i] == At(x, i + 1).relocs[i]
  {
    Lengths(x, k);
    if i + 1 < k {
      Final(x, i, k - 1);
      Meets(x, k - 1);
    }
  }

  /** Padding shrinks by less than two alignment units, always by something, and the first byte after it
      lands on an aligned address again, the next one there is. */
  lemma PaddingStaysAligned(x: Section, i: nat)
    requires i < |x.relocs| && x.relocs[i].kind.Aligner?
    ensures 0 < Delta(LayoutOf(x), i) < 2 * (x.relocs[i].mask + 1)
    ensures IsMask(x.relocs[i].mask)
    ensures Aligned(x.base + LayoutOf(x).end[i] - LayoutOf(x).shrink[i + 1], x.relocs[i].mask)
    ensures var l := LayoutOf(x);
      0 <= (l.end[i] - l.shrink[i + 1]) - (x.relocs[i].address - l.shrink[i]) <= x.relocs[i].mask
  {
    StepFacts(x, i);
    var a := x.relocs[i].address - At(x, i).shrink + x.relocs[i].mask;
    FloorOfShifted(a, x.base, x.relocs[i].mask);
    FloorOfShifted(x.base + a, 0, x.relocs[i].mask);
  }

  lemma SignedOfWrapped(a: int, b: int)
    ensures Signed(Wrap(a) - b) == Signed(a - b)
  {
    AddMultiple(a % WORD - b, a / WORD, WORD);
    assert a - b == WORD * (a / WORD) + (a % WORD - b);
  }

  /** A call is shortened, by four bytes, exactly if at its turn the 32-bit distance from the end of the short
      instruction to its symbol is within 24 bits: to one of the section where that then is, to any other where it
      is elsewhere or in the hash table. */
  lemma ShortenedIff(x: Section, i: nat)
    requires i < |x.relocs| && x.relocs[i].kind.Abs32Code?
    ensures x.relocs[i].sym < |x.syms|
    ensures At(x, i + 1).shrink - At(x, i).shrink == if Relaxed(x)[i].kind.Abs32CodeShrunk? then 4 else 0
    ensures var r := x.relocs[i];
      var more := r.addend - (x.base + r.address - At(x, i).shrink);
      var d :=
        match x.syms[r.sym].place
        case Here(_, _) => Signed(x.base + Values(x, r.sym)[i] + more)
        case Elsewhere(address) => Signed(address + more)
        case Undefined(DefinedAt(address)) => Signed(address + more)
        case Undefined(CommonOf(size)) => Signed(size + more)
        case Undefined(Missing) => Signed(more);
      Relaxed(x)[i].kind.Abs32CodeShrunk? <==> -0x80_0000 < d < 0x80_0000
  {
    hide LayoutOf, Signed, Wrap;
    var r, st := x.relocs[i], At(x, i);
    Meets(x, i);
    Final(x, i, |x.relocs|);
    KindKept(x, r.sym, i);
    SignedOfWrapped(Address(st.syms[r.sym], x.base) + r.addend, x.base + r.address - st.shrink);
  }

  lemma ShortenedHere(x: Section, i: nat)
    requires i < |x.relocs| && Relaxed(x)[i].kind.Abs32CodeShrunk?
    ensures Delta(LayoutOf(x), i) == 4 && LayoutOf(x).end[i] == LayoutOf(x).start[i] + 8
    ensures |At(x, i).syms| == |x.syms|
    ensures x.relocs[i].kind.Abs32Code? && -0x80_0000 < Gap(At(x, i), x.relocs[i], x.base) < 0x80_0000
  {
    Final(x, i, |x.relocs|);
    StepFacts(x, i);
    assert Fresh(x.relocs[i]);
  }

  /** Within one section the source's 32-bit test computes the true distance. */
  lemma GapIsExact(x: Section, i: nat, s: nat)
    requires i < |x.relocs| && x.relocs[i].addend == 0 && x.relocs[i].kind.Abs32Code?
    requires Settles(x, s)
    ensures |At(x, i).syms| == |x.syms|
    ensures Gap(At(x, i), x.relocs[i].(sym := s), x.base) == Values(x, s)[i] - (x.relocs[i].address - At(x, i).shrink)
  {
    ValuesSlip(x, s);
    SymbolLands(LayoutOf(x), Values(x, s), i);
    StartsAtZero(LayoutOf(x), i);
    GapOf(At(x, i), x.relocs[i].(sym := s), x.base);
  }

  lemma GapOf(st: State, r: Reloc, base: int)
    requires r.sym < |st.syms| && st.syms[r.sym].place.Here? && r.addend == 0
    requires 0 <= st.syms[r.sym].place.value <= MAX_SECTION && 0 <= r.address - st.shrink <= MAX_SECTION
    requires 0 <= base && base + st.syms[r.sym].place.value < WORD
    ensures Gap(st, r, base) == st.syms[r.sym].place.value - (r.address - st.shrink)
  {
    assert Address(st.syms[r.sym], base) == base + st.syms[r.sym].place.value;
  }

  /** A symbol of the section that the slips do not move below the section's start; inside padding near
      the start that can happen. */
  predicate Settles(x: Section, s: nat) {
    InSection(x, s) && 0 <= Landing(LayoutOf(x), x.syms[s].place.value)
  }

  /** The symbol whose distance the short form of call `i` holds: `callj_callback` takes the symbol behind
      a leaf procedure's call entry, its `bal` entry. */
  function Goal(x: Section, i: nat): (s: nat)
    requires i < |x.relocs|
    ensures s == x.relocs[i].sym || s == x.relocs[i].sym + 1
  {
    var r := x.relocs[i];
    assert r.sym < |x.syms|;
    if x.syms[r.sym].other == N_CALLNAME then r.sym + 1 else r.sym
  }

  /** The short form holds a distance: no system procedure's number, and no section symbol, which the
      source asserts cannot be met here. */
  predicate HoldsDistance(x: Section, i: nat)
    requires i < |x.relocs|
  {
    assert x.relocs[i].sym < |x.syms|;
    var s := x.syms[x.relocs[i].sym];
    s.other == N_CALLNAME || !(0 < s.other <= 32 || s.isSection)
  }

  /** The test of `abs32code` at step `i`, made on the symbol the short form will hold. */
  predicate GoalTested(x: Section, i: nat)
    requires i < |x.relocs| && Goal(x, i) < |x.syms|
  {
    Lengths(x, i);
    -0x80_0000 < Gap(At(x, i), x.relocs[i].(sym := Goal(x, i)), x.base) < 0x80_0000
  }

  /** The displacement from a shortened instruction to a symbol, when the whole pass is over. */
  function Displacement(x: Section, i: nat, s: nat): int
    requires i < |x.relocs| && InSection(x, s)
  {
    Values(x, s)[|x.relocs|] - (LayoutOf(x).start[i] - LayoutOf(x).shrink[i])
  }

  predicate InRange(displacement: int) {
    -0x80_0000 <= displacement < 0x80_0000
  }

  lemma TestedReaches(x: Section, i: nat)
    requires i < |x.relocs| && Relaxed(x)[i].kind.Abs32CodeShrunk? && x.relocs[i].addend == 0
    requires Settles(x, Goal(x, i)) && GoalTested(x, i)
    ensures InRange(Displacement(x, i, Goal(x, i)))
  {
    var l, s := LayoutOf(x), Goal(x, i);
    ShortenedHere(x, i);
    ValuesSlip(x, s);
    GapIsExact(x, i, s);
    forall k | 0 <= k < |l.start| ensures Delta(l, k) <= 0x80_0000 {
      StepFacts(x, k);
    }
    StillInReach(l, Values(x, s), i, 0x80_0000);
  }

  /** A call that the pass shortened still reaches what its short form holds when the pass is over: always
      if that is the symbol the pass tested; a leaf's `bal` entry, which it did not, if it passes the test. */
  lemma ShortCallReaches(x: Section, i: nat)
    requires i < |x.relocs| && Relaxed(x)[i].kind.Abs32CodeShrunk? && x.relocs[i].addend == 0
    requires HoldsDistance(x, i) && Settles(x, Goal(x, i))
    requires Goal(x, i) != x.relocs[i].sym ==> GoalTested(x, i)
    ensures InRange(Displacement(x, i, Goal(x, i)))
  {
    ShortenedHere(x, i);
    if Goal(x, i) == x.relocs[i].sym {
      assert x.relocs[i].(sym := Goal(x, i)) == x.relocs[i];
    }
    TestedReaches(x, i);
  }

  /** The same before the pass begins: what is in reach of the long call stays in reach. */
  lemma InReachFromTheStart(x: Section, i: nat)
    requires i < |x.relocs| && x.relocs[i].kind.Abs32Code? && x.relocs[i].addend == 0
    requires Settles(x, Goal(x, i))
    requires -0x80_0000 < x.syms[Goal(x, i)].place.value - x.relocs[i].address < 0x80_0000
    ensures GoalTested(x, i)
  {
    var l, s := LayoutOf(x), Goal(x, i);
    var v := Values(x, s);
    ValuesSlip(x, s);
    SymbolLands(l, v, i);
    GapIsExact(x, i, s);
    var b := Behind(l, v[0]);
    if b < i {
      StartsInOrder(l, b, i);
      Grows(l, b, i);
    }
  }
}
