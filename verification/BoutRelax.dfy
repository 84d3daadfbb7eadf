/** Relaxation of an i960 b.out section: `b_out_bfd_relax_section` and what it calls. */
module BoutRelax {
  import opened Words

  /** `howto->type` of a relocation. */
  datatype Kind = Abs32Code | Abs32CodeShrunk | Pcrel24 | CallJ | Abs32 | Pcrel13 | Aligner | AlignDone

  /** One `arelent`; `mask` is `howto->size` of an alignment relocation. */
  datatype Reloc = Reloc(kind: Kind, mask: nat, address: int, addend: int, sym: nat)

  /** What the global hash table knows about a name the input file leaves undefined. */
  datatype Lookup = DefinedAt(address: int) | CommonOf(size: int) | Missing

  /** Where a symbol lives: in the section being relaxed, in a section that does not move
      meanwhile, or nowhere in this file. A symbol of this section may be entered in the global
      hash table, whose entry repeats its value. */
  datatype Place = Here(value: int, entry: Entry) | Elsewhere(address: int) | Undefined(found: Lookup)
  datatype Entry = NoEntry | DefinedValue(value: int)

  /** `n_other` of a leaf procedure's call entry; the symbol behind it is the procedure's `bal` entry. */
  const N_CALLNAME := -1

  /** `other` is `n_other`, `isSection` the flag BSF_SECTION_SYM. */
  datatype Symbol = Symbol(place: Place, other: int, isSection: bool)

  /** `output_addr (sec) + symbol->value` or its hash table equivalent, before the addend. */
  function Address(s: Symbol, base: int): int {
    match s.place
    case Here(value, _) => base + value
    case Elsewhere(address) => address
    case Undefined(DefinedAt(address)) => address
    case Undefined(CommonOf(size)) => size
    case Undefined(Missing) => 0
  }

  function GetValue(s: Symbol, addend: int, base: int): int {
    Wrap(Address(s, base) + addend)
  }

  // ---- rounding down to a power of two, the `& ~size` of the source ----

  predicate IsMask(m: int) {
    m == 1 || m == 3 || m == 7 || m == 15
  }

  function Floor(x: int, m: int): (f: int)
    requires IsMask(m)
    ensures x - m <= f <= x
  {
    if m == 1 then x - x % 2 else if m == 3 then x - x % 4 else if m == 7 then x - x % 8 else x - x % 16
  }

  predicate Aligned(x: int, m: int)
    requires IsMask(m)
  {
    if m == 1 then x % 2 == 0 else if m == 3 then x % 4 == 0 else if m == 7 then x % 8 == 0 else x % 16 == 0
  }

  lemma FloorOfShifted(x: int, base: int, m: int)
    requires IsMask(m) && base % 16 == 0
    ensures Floor(base + x, m) == base + Floor(x, m)
    ensures Aligned(Floor(x, m), m)
  {
    var q := base / 16;
    if m == 1 {
      AddMultiple(x, 8 * q, 2);
      AddMultiple(0, x / 2, 2);
    } else if m == 3 {
      AddMultiple(x, 4 * q, 4);
      AddMultiple(0, x / 4, 4);
    } else if m == 7 {
      AddMultiple(x, 2 * q, 8);
      AddMultiple(0, x / 8, 8);
    } else {
      AddMultiple(x, q, 16);
      AddMultiple(0, x / 16, 16);
    }
  }

  // ---- one step ----

  function SlipSymbol(s: Symbol, slip: int, past: int): Symbol {
    match s.place
    case Here(value, entry) =>
      if value > past then
        s.(place := Here(Wrap(value - slip),
                         if entry.NoEntry? then NoEntry else DefinedValue(Wrap(entry.value - slip))))
      else s
    case _ => s
  }

  function Slip(syms: seq<Symbol>, slip: int, past: int): (t: seq<Symbol>)
    ensures |t| == |syms|
    ensures forall i :: 0 <= i < |syms| ==> t[i] == SlipSymbol(syms[i], slip, past)
  {
    seq(|syms|, i requires 0 <= i < |syms| => SlipSymbol(syms[i], slip, past))
  }

  datatype State = State(relocs: seq<Reloc>, syms: seq<Symbol>, shrink: int)

  predicate Indexed(st: State, i: int) {
    0 <= i < |st.relocs| && st.relocs[i].sym < |st.syms|
    && (st.relocs[i].kind.Aligner? ==> IsMask(st.relocs[i].mask))
  }

  /** The displacement `abs32code` tests: from the end of the shortened instruction. */
  function Gap(st: State, r: Reloc, base: int): int
    requires r.sym < |st.syms|
  {
    Signed(GetValue(st.syms[r.sym], r.addend, base) - (base + r.address - st.shrink))
  }

  function Abs32CodeStep(st: State, i: int, base: int): State
    requires Indexed(st, i)
  {
    var r := st.relocs[i];
    if -0x80_0000 < Gap(st, r, base) < 0x80_0000 then
      State(st.relocs[i := r.(kind := Abs32CodeShrunk, address := r.address - 4)],
            Slip(st.syms, 4, r.address - 4 - st.shrink),
            st.shrink + 4)
    else st
  }

  /** First byte after the padding the assembler left at `address`. */
  function OldEnd(address: int, base: int, m: int): int
    requires IsMask(m)
  {
    Floor(base + address + m, m) + m + 1
  }

  function AlignDelta(st: State, r: Reloc, base: int): int
    requires IsMask(r.mask)
  {
    OldEnd(r.address, base, r.mask) - Floor(base + r.address - st.shrink + r.mask, r.mask) - st.shrink
  }

  function AlignStep(st: State, i: int, base: int): State
    requires Indexed(st, i) && IsMask(st.relocs[i].mask)
  {
    var r := st.relocs[i];
    var delta := AlignDelta(st, r, base);
    if delta != 0 then
      State(st.relocs[i := r.(kind := AlignDone, addend := OldEnd(r.address, base, r.mask) - base)],
            Slip(st.syms, delta, r.address - st.shrink),
            st.shrink + delta)
    else st
  }

  function Step(st: State, i: int, base: int): (t: State)
    requires Indexed(st, i)
    ensures |t.relocs| == |st.relocs| && |t.syms| == |st.syms|
    ensures forall j :: 0 <= j < |t.relocs| && j != i ==> t.relocs[j] == st.relocs[j]
  {
    match st.relocs[i].kind
    case Aligner => AlignStep(st, i, base)
    case Abs32Code => Abs32CodeStep(st, i, base)
    case Abs32CodeShrunk => st.(shrink := st.shrink + 4)
    case _ => st
  }

  predicate Loaded(relocs: seq<Reloc>, syms: seq<Symbol>) {
    forall i :: 0 <= i < |relocs| ==>
      relocs[i].sym < |syms| && (relocs[i].kind.Aligner? ==> IsMask(relocs[i].mask))
  }

  /** The state before the `k`th relocation is looked at. */
  function Run(relocs: seq<Reloc>, syms: seq<Symbol>, base: int, k: nat): (st: State)
    requires Loaded(relocs, syms) && k <= |relocs|
    ensures |st.relocs| == |relocs| && |st.syms| == |syms|
    ensures st.relocs[k..] == relocs[k..]
  {
    if k == 0 then State(relocs, syms, 0)
    else
      var st := Run(relocs, syms, base, k - 1);
      assert st.relocs[k - 1] == st.relocs[k - 1..][0] == relocs[k - 1..][0];
      assert st.relocs[k..] == st.relocs[k - 1..][1..] == relocs[k - 1..][1..];
      Step(st, k - 1, base)
  }

  // ---- the code ----

  /** A hash table entry of a symbol of this section holds the symbol's own value. */
  predicate Entered(syms: seq<Symbol>) {
    forall i :: 0 <= i < |syms| ==>
      syms[i].place.Here? && syms[i].place.entry.DefinedValue? ==> syms[i].place.entry.value == syms[i].place.value
  }

  method PerformSlip(syms: array<Symbol>, slip: int, past: int)
    requires Entered(syms[..])
    modifies syms
    ensures syms[..] == Slip(old(syms[..]), slip, past) && Entered(syms[..])
  {
    var i := 0;
    while i < syms.Length
      invariant 0 <= i <= syms.Length
      invariant syms[i..] == old(syms[i..])
      invariant forall j :: 0 <= j < i ==> syms[j] == SlipSymbol(old(syms[j]), slip, past)
    {
      var p := syms[i];
      assert p == syms[i..][0] == old(syms[i..])[0];
      if p.place.Here? && p.place.value > past {
        var value := Wrap(p.place.value - slip);
        var entry := p.place.entry;
        if entry.DefinedValue? {
          entry := DefinedValue(Wrap(entry.value - slip));
          assert p == old(syms[..])[i];
          assert entry.value == value;
        }
        syms[i] := p.(place := Here(value, entry));
      }
      assert syms[i + 1..] == old(syms[i..])[1..];
      i := i + 1;
    }
    EnteredAfterSlip(old(syms[..]), slip, past);
  }

  lemma EnteredAfterSlip(syms: seq<Symbol>, slip: int, past: int)
    requires Entered(syms)
    ensures Entered(Slip(syms, slip, past))
  {
  }

  method ShortenCall(relocs: array<Reloc>, i: nat, syms: array<Symbol>, shrink: int, base: int) returns (newShrink: int)
    requires Entered(syms[..]) && Indexed(State(relocs[..], syms[..], shrink), i)
    modifies relocs, syms
    ensures State(relocs[..], syms[..], newShrink) == Abs32CodeStep(old(State(relocs[..], syms[..], shrink)), i, base)
    ensures Entered(syms[..])
  {
    newShrink := shrink;
    var value := GetValue(syms[relocs[i].sym], relocs[i].addend, base);
    var dot := base + relocs[i].address;
    var gap := Signed(value - (dot - shrink));
    assert gap == Gap(State(relocs[..], syms[..], shrink), relocs[i], base);
    if -0x80_0000 < gap && gap < 0x80_0000 {
      relocs[i] := relocs[i].(kind := Abs32CodeShrunk);
      relocs[i] := relocs[i].(address := relocs[i].address - 4);
      newShrink := newShrink + 4;
      PerformSlip(syms, 4, relocs[i].address - newShrink + 4);
    }
  }

  method ShrinkPadding(relocs: array<Reloc>, i: nat, syms: array<Symbol>, shrink: int, base: int)
    returns (newShrink: int)
    requires Entered(syms[..]) && Indexed(State(relocs[..], syms[..], shrink), i) && IsMask(relocs[i].mask)
    modifies relocs, syms
    ensures State(relocs[..], syms[..], newShrink) == AlignStep(old(State(relocs[..], syms[..], shrink)), i, base)
    ensures Entered(syms[..])
  {
    newShrink := shrink;
    var r := relocs[i];
    var dot := base + r.address;
    var size := r.mask;
    var oldEnd := Floor(dot + size, size) + size + 1;
    var newEnd := Floor(dot - shrink + size, size);
    var delta := (oldEnd - newEnd) - shrink;
    if delta != 0 {
      relocs[i] := r.(kind := AlignDone, addend := oldEnd - dot + r.address);
      PerformSlip(syms, delta, r.address - shrink);
      newShrink := newShrink + delta;
    }
  }

  /** `b_out_bfd_relax_section`: returns the section's `_cooked_size`. */
  method RelaxSection(relocs: array<Reloc>, syms: array<Symbol>, base: int, rawSize: int) returns (cookedSize: int)
    requires Loaded(relocs[..], syms[..]) && Entered(syms[..])
    modifies relocs, syms
    ensures State(relocs[..], syms[..], rawSize - cookedSize)
         == Run(old(relocs[..]), old(syms[..]), base, relocs.Length)
    ensures Entered(syms[..])
  {
    var shrink := 0;
    var i := 0;
    while i < relocs.Length
      invariant 0 <= i <= relocs.Length
      invariant State(relocs[..], syms[..], shrink) == Run(old(relocs[..]), old(syms[..]), base, i)
      invariant Entered(syms[..])
    {
      ghost var st := Run(old(relocs[..]), old(syms[..]), base, i);
      assert relocs[i] == st.relocs[i..][0] == old(relocs[..])[i..][0];
      match relocs[i].kind {
        case Aligner => shrink := ShrinkPadding(relocs, i, syms, shrink, base);
        case Abs32Code => shrink := ShortenCall(relocs, i, syms, shrink, base);
        case Abs32CodeShrunk => shrink := shrink + 4;
        case _ =>
      }
      i := i + 1;
    }
    cookedSize := rawSize - shrink;
  }
}
