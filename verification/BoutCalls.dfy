/** Where the branches of a relaxed section go in the output. Words that hold a distance to their own final
    place land; the others, and calls to leaf procedures, land under exact conditions. */
module BoutCalls {
  import opened Words
  import opened BoutRelax
  import opened Layout
  import opened BoutReach
  import opened BoutCopy
  import opened BoutAgree

  function SignExtend24(x: int): int
    requires 0 <= x < BAL_MOD
  {
    if x < 0x80_0000 then x else x - BAL_MOD
  }

  /** Where an instruction at offset `q` with word `w` goes. */
  function Destination(w: int, q: int): int {
    q + SignExtend24(w % BAL_MOD)
  }

  function SignExtend13(x: int): int
    requires 0 <= x < PCREL13_MOD
  {
    if x < 0x1000 then x else x - PCREL13_MOD
  }

  /** The same for a compare-and-branch instruction. */
  function Destination13(w: int, q: int): int {
    q + SignExtend13(w % PCREL13_MOD)
  }

  predicate InRange13(displacement: int) {
    -0x1000 <= displacement < 0x1000
  }

  lemma Congruent(a: int, b: int, k: int, m: int)
    requires 0 < m && a == m * k + b
    ensures a % m == b % m
  {
    AddMultiple(b, k, m);
  }

  /** A field that holds `d` and a surplus decodes to `d` if and only if `d` fits and the surplus is lost. */
  lemma Decodes24(surplus: int, d: int)
    ensures SignExtend24((surplus + d) % BAL_MOD) == d <==> InRange(d) && surplus % BAL_MOD == 0
  {
    var w := (surplus + d) % BAL_MOD;
    var k := (surplus + d) / BAL_MOD;
    if SignExtend24(w) == d {
      Congruent(surplus, 0, if w < 0x80_0000 then k else k + 1, BAL_MOD);
    }
    if surplus % BAL_MOD == 0 {
      Congruent(surplus + d, d, surplus / BAL_MOD, BAL_MOD);
    }
  }

  lemma Decodes13(surplus: int, d: int)
    ensures SignExtend13((surplus + d) % PCREL13_MOD) == d <==> InRange13(d) && surplus % PCREL13_MOD == 0
  {
    var w := (surplus + d) % PCREL13_MOD;
    var k := (surplus + d) / PCREL13_MOD;
    if SignExtend13(w) == d {
      Congruent(surplus, 0, if w < 0x1000 then k else k + 1, PCREL13_MOD);
    }
    if surplus % PCREL13_MOD == 0 {
      Congruent(surplus + d, d, surplus / PCREL13_MOD, PCREL13_MOD);
    }
  }

  // ---- words that hold a distance ----

  predicate IsCall(x: Section, i: nat) {
    i < |x.relocs| && (Relaxed(x)[i].kind.CallJ? || Relaxed(x)[i].kind.Abs32CodeShrunk?)
  }

  /** A call that becomes a `bal` to the symbol behind its own. */
  predicate IsLeafCall(x: Section, i: nat) {
    IsCall(x, i) && Goal(x, i) != x.relocs[i].sym
  }

  /** The word of relocation `i` holds a 24-bit distance in the output. */
  predicate Holds24(x: Section, i: nat) {
    (IsCall(x, i) && HoldsDistance(x, i)) || (i < |x.relocs| && Relaxed(x)[i].kind.Pcrel24?)
  }

  /** The symbol whose distance it holds. */
  function Aim(x: Section, i: nat): nat
    requires i < |x.relocs|
  {
    if IsCall(x, i) then Goal(x, i) else x.relocs[i].sym
  }

  /** What the field holds besides the distance: its old contents, the addend a second time, and, since
      only a `bal` and a shortened call are made relative to their own place, that place. */
  function Surplus(x: Section, i: nat, word: int): int
    requires i < |x.relocs|
  {
    word + (if IsLeafCall(x, i) then 0 else x.relocs[i].addend)
    + (if IsLeafCall(x, i) || Relaxed(x)[i].kind.Abs32CodeShrunk? then 0 else FinalPlace(x, i))
  }

  /** The opcode of the word: calls get a new one. */
  function Opcode(x: Section, i: nat, word: int): int {
    if IsLeafCall(x, i) then BAL / BAL_MOD else if IsCall(x, i) then CALL / BAL_MOD else word / BAL_MOD
  }

  lemma AddressWraps(s: Symbol, addend: int, base: int)
    ensures exists k :: GetValue(s, addend, base) == Address(s, base) + addend + BAL_MOD * k
  {
    hide Address;
    var a := Address(s, base) + addend;
    assert GetValue(s, addend, base) == a + BAL_MOD * (-(a / WORD) * 0x100);
  }

  /** An opcode with 24 bits `f` that agree with `d`. */
  lemma Composed(op: int, f: int, d: int, k: int)
    requires 0 <= op < 0x100 && f == d + BAL_MOD * k
    ensures var w := BAL_MOD * op + f % BAL_MOD; Wrap(w) == w && w / BAL_MOD == op && w % BAL_MOD == d % BAL_MOD
  {
    Congruent(f, d, k, BAL_MOD);
    DivModUnique(BAL_MOD * op + f % BAL_MOD, op, f % BAL_MOD, BAL_MOD);
  }

  lemma LeafWord(word: int, r: Reloc, syms: seq<Symbol>, base: int, q: int, shrinking: bool)
    requires HasBalEntry(r, syms) && syms[r.sym].other == N_CALLNAME
    ensures var w := Wrap(CallWord(word, r, syms, base, q, shrinking));
      && w / BAL_MOD == BAL / BAL_MOD
      && w % BAL_MOD == (word + (Direct(syms[r.sym + 1], base) - base + r.addend - q)) % BAL_MOD
  {
    hide Direct;
    var d := word + (Direct(syms[r.sym + 1], base) - base + r.addend - q);
    Composed(BAL / BAL_MOD, d, d, 0);
  }

  lemma OrdinaryWord(word: int, r: Reloc, syms: seq<Symbol>, base: int, q: int, shrinking: bool)
    requires HasBalEntry(r, syms)
    requires syms[r.sym].other != N_CALLNAME && !(0 < syms[r.sym].other <= 32 || syms[r.sym].isSection)
    ensures var w := Wrap(CallWord(word, r, syms, base, q, shrinking));
      && w / BAL_MOD == CALL / BAL_MOD
      && w % BAL_MOD
         == (word + Address(syms[r.sym], base) - base + 2 * r.addend - (if shrinking then q else 0)) % BAL_MOD
  {
    hide Address, GetValue;
    var at := if shrinking then q else 0;
    AddressWraps(syms[r.sym], r.addend, base);
    var k :| GetValue(syms[r.sym], r.addend, base) == Address(syms[r.sym], base) + r.addend + BAL_MOD * k;
    var f := word % BAL_MOD + GetValue(syms[r.sym], r.addend, base) + r.addend - at - base;
    Composed(CALL / BAL_MOD, f, word + Address(syms[r.sym], base) - base + 2 * r.addend - at, k - word / BAL_MOD);
  }

  lemma Pcrel24Value(word: int, r: Reloc, syms: seq<Symbol>, base: int)
    requires r.sym < |syms| && 0 <= word < WORD
    ensures var w := Wrap(Pcrel24Word(word, r, syms, base));
      && w / BAL_MOD == word / BAL_MOD
      && w % BAL_MOD == (word + Address(syms[r.sym], base) - base + 2 * r.addend) % BAL_MOD
  {
    hide Address, GetValue;
    AddressWraps(syms[r.sym], r.addend, base);
    var k :| GetValue(syms[r.sym], r.addend, base) == Address(syms[r.sym], base) + r.addend + BAL_MOD * k;
    var f := word % BAL_MOD + GetValue(syms[r.sym], r.addend, base) - base + r.addend;
    Composed(word / BAL_MOD, f, word + Address(syms[r.sym], base) - base + 2 * r.addend, k - word / BAL_MOD);
  }

  /** What the code takes for the address of the symbol that branch `i` aims at: a `bal` does without the hash
      table. */
  function AimedAt(x: Section, i: nat): int
    requires i < |x.relocs| && Aim(x, i) < |x.syms|
  {
    Lengths(x, |x.relocs|);
    var s := At(x, |x.relocs|).syms[Aim(x, i)];
    if IsLeafCall(x, i) then Direct(s, x.base) else Address(s, x.base)
  }

  lemma BranchWord(x: Section, job: Job, i: nat)
    requires CopyOf(job, x) && Holds24(x, i)
    ensures var q := FinalPlace(x, i);
      && Aim(x, i) < |x.syms|
      && 0 <= q && q + 4 <= job.size && 0 <= x.relocs[i].address && x.relocs[i].address + 4 <= |job.orig|
      && var word, w := Word(job.orig, x.relocs[i].address), Word(Relocated(job), q);
      && w / BAL_MOD == Opcode(x, i, word)
      && w % BAL_MOD == (Surplus(x, i, word) + (AimedAt(x, i) - x.base - q + x.relocs[i].addend)) % BAL_MOD
  {
    hide CallWord, Pcrel24Word, Relocated, LayoutOf, Word, Wrap, Address, Direct;
    var n, q, r := |x.relocs|, FinalPlace(x, i), Relaxed(x)[i];
    FieldWord(x, job, i);
    StoredReloc(x, i);
    KindKept(x, r.sym, n);
    KindKept(x, Aim(x, i), n);
    var word := Word(job.orig, x.relocs[i].address);
    if r.kind.Pcrel24? {
      Pcrel24Value(word, r, job.syms, x.base);
    } else if IsLeafCall(x, i) {
      LeafWord(word, r, job.syms, x.base, q, r.kind.Abs32CodeShrunk?);
    } else {
      OrdinaryWord(word, r, job.syms, x.base, q, r.kind.Abs32CodeShrunk?);
    }
  }

  lemma AimedInside(x: Section, i: nat)
    requires i < |x.relocs| && InSection(x, Aim(x, i))
    ensures AimedAt(x, i) == x.base + Values(x, Aim(x, i))[|x.relocs|]
  {
  }

  lemma DistanceWord(x: Section, job: Job, i: nat)
    requires CopyOf(job, x) && Holds24(x, i) && InSection(x, Aim(x, i))
    ensures var q := FinalPlace(x, i);
      && 0 <= q && q + 4 <= job.size && 0 <= x.relocs[i].address && x.relocs[i].address + 4 <= |job.orig|
      && var word, w := Word(job.orig, x.relocs[i].address), Word(Relocated(job), q);
      && w / BAL_MOD == Opcode(x, i, word)
      && w % BAL_MOD == (Surplus(x, i, word) + (Displacement(x, i, Aim(x, i)) + x.relocs[i].addend)) % BAL_MOD
  {
    hide Relocated, LayoutOf, Word, AimedAt;
    BranchWord(x, job, i);
    AimedInside(x, i);
  }

  /** End to end, for every branch with a 24-bit field, shortened or not: in the output it goes to the final value
      of the symbol it aims at if and only if that is within 24 bits and the field holds nothing besides. */
  lemma LandsIff(x: Section, job: Job, i: nat)
    requires CopyOf(job, x) && Holds24(x, i) && InSection(x, Aim(x, i))
    ensures var q := FinalPlace(x, i);
      && 0 <= q && q + 4 <= job.size && 0 <= x.relocs[i].address && x.relocs[i].address + 4 <= |job.orig|
      && var word, w := Word(job.orig, x.relocs[i].address), Word(Relocated(job), q);
         var d := Displacement(x, i, Aim(x, i)) + x.relocs[i].addend;
      && w / BAL_MOD == Opcode(x, i, word)
      && (Destination(w, q) == Values(x, Aim(x, i))[|x.relocs|] + x.relocs[i].addend
          <==> InRange(d) && Surplus(x, i, word) % BAL_MOD == 0)
  {
    hide Relocated, LayoutOf, Word, Surplus, Opcode;
    DistanceWord(x, job, i);
    Decodes24(Surplus(x, i, Word(job.orig, x.relocs[i].address)),
              Displacement(x, i, Aim(x, i)) + x.relocs[i].addend);
  }

  /** The same for a symbol that is not in the section, whose address `goal` stays what it was: the address it has
      elsewhere or in the hash table, the size of a common symbol, and nothing for one that is not found or, in a
      `bal`, not defined in this file. */
  lemma LandsOutsideIff(x: Section, job: Job, i: nat, goal: int)
    requires CopyOf(job, x) && Holds24(x, i) && Aim(x, i) < |x.syms| && !x.syms[Aim(x, i)].place.Here?
    requires match x.syms[Aim(x, i)].place
             case Elsewhere(address) => goal == address
             case Undefined(DefinedAt(address)) => goal == if IsLeafCall(x, i) then 0 else address
             case Undefined(CommonOf(size)) => goal == if IsLeafCall(x, i) then 0 else size
             case Undefined(Missing) => goal == 0
    ensures var q := FinalPlace(x, i);
      && 0 <= q && q + 4 <= job.size && 0 <= x.relocs[i].address && x.relocs[i].address + 4 <= |job.orig|
      && var word, w := Word(job.orig, x.relocs[i].address), Word(Relocated(job), q);
         var d := goal + x.relocs[i].addend - (x.base + q);
      && w / BAL_MOD == Opcode(x, i, word)
      && (x.base + Destination(w, q) == goal + x.relocs[i].addend
          <==> InRange(d) && Surplus(x, i, word) % BAL_MOD == 0)
  {
    hide Relocated, LayoutOf, Word, Surplus, Opcode;
    BranchWord(x, job, i);
    KindKept(x, Aim(x, i), |x.relocs|);
    Decodes24(Surplus(x, i, Word(job.orig, x.relocs[i].address)),
              goal + x.relocs[i].addend - (x.base + FinalPlace(x, i)));
  }

  // ---- shortened calls ----

  /** A shortened call goes to the final value of its goal if and only if that is then within 24 bits and the
      operand of the long call was 0. */
  lemma ShortCallLandsIff(x: Section, job: Job, i: nat)
    requires CopyOf(job, x) && i < |x.relocs| && Relaxed(x)[i].kind.Abs32CodeShrunk? && x.relocs[i].addend == 0
    requires HoldsDistance(x, i) && InSection(x, Goal(x, i))
    ensures var q, out := FinalPlace(x, i), Relocated(job);
      && 0 <= q && q + 4 <= |out| && 0 <= x.relocs[i].address && x.relocs[i].address + 4 <= |job.orig|
      && Word(out, q) / BAL_MOD == (if Goal(x, i) == x.relocs[i].sym then CALL else BAL) / BAL_MOD
      && (Destination(Word(out, q), q) == Values(x, Goal(x, i))[|x.relocs|]
          <==> InRange(Displacement(x, i, Goal(x, i))) && Word(job.orig, x.relocs[i].address) % BAL_MOD == 0)
  {
    LandsIff(x, job, i);
  }

  /** Hence every shortened call to an ordinary symbol lands on it, and one to a leaf procedure if its `bal`
      entry passes the test as well. */
  lemma ShortCallLands(x: Section, job: Job, i: nat)
    requires CopyOf(job, x) && i < |x.relocs| && Relaxed(x)[i].kind.Abs32CodeShrunk? && x.relocs[i].addend == 0
    requires HoldsDistance(x, i) && Settles(x, Goal(x, i))
    requires Goal(x, i) != x.relocs[i].sym ==> GoalTested(x, i)
    requires 0 <= x.relocs[i].address && x.relocs[i].address + 4 <= x.size
    requires Word(job.orig, x.relocs[i].address) % BAL_MOD == 0
    ensures 0 <= FinalPlace(x, i) && FinalPlace(x, i) + 4 <= job.size
    ensures Destination(Word(Relocated(job), FinalPlace(x, i)), FinalPlace(x, i)) == Values(x, Goal(x, i))[|x.relocs|]
  {
    ShortCallReaches(x, i);
    ShortCallLandsIff(x, job, i);
  }

  // ---- branches that were short before ----

  /** A branch whose field the assembler made relative to the section, by its old address, and whose word the copy
      does not make relative to its place. */
  predicate SectionRelative(x: Section, i: nat, word: int) {
    && Holds24(x, i) && !IsLeafCall(x, i) && !Relaxed(x)[i].kind.Abs32CodeShrunk?
    && x.relocs[i].addend == 0 && (word + x.relocs[i].address) % BAL_MOD == 0
  }

  /** Such a branch misses its symbol by the bytes removed before it: in 24 bits it lands if and only if none were. */
  lemma MissesByShrink(x: Section, job: Job, i: nat)
    requires CopyOf(job, x) && i < |x.relocs| && 0 <= x.relocs[i].address && x.relocs[i].address + 4 <= |job.orig|
    requires SectionRelative(x, i, Word(job.orig, x.relocs[i].address)) && InSection(x, Aim(x, i))
    ensures 0 <= FinalPlace(x, i) && FinalPlace(x, i) + 4 <= job.size
    ensures var q, d, s := FinalPlace(x, i), Displacement(x, i, Aim(x, i)), At(x, i).shrink;
      var to := Destination(Word(Relocated(job), q), q);
      && (InRange(d) ==> (to == Values(x, Aim(x, i))[|x.relocs|] <==> s % BAL_MOD == 0))
      && (InRange(d - s) ==> to == Values(x, Aim(x, i))[|x.relocs|] - s)
  {
    hide Relocated, Word;
    var word, d, s := Word(job.orig, x.relocs[i].address), Displacement(x, i, Aim(x, i)), At(x, i).shrink;
    LandsIff(x, job, i);
    DistanceWord(x, job, i);
    StoredReloc(x, i);
    var k := (word + x.relocs[i].address) / BAL_MOD;
    assert Surplus(x, i, word) == BAL_MOD * k - s;
    assert (Surplus(x, i, word) % BAL_MOD == 0 <==> s % BAL_MOD == 0) by {
      Negated(k, s);
    }
    Congruent(Surplus(x, i, word) + d, 0 + (d - s), k, BAL_MOD);
    Decodes24(0, d - s);
  }

  lemma Negated(k: int, s: int)
    ensures (BAL_MOD * k - s) % BAL_MOD == 0 <==> s % BAL_MOD == 0
  {
    if s % BAL_MOD == 0 {
      Congruent(BAL_MOD * k - s, 0, k - s / BAL_MOD, BAL_MOD);
    }
    if (BAL_MOD * k - s) % BAL_MOD == 0 {
      Congruent(s, 0, k - (BAL_MOD * k - s) / BAL_MOD, BAL_MOD);
    }
  }

  /** The word of a compare-and-branch instruction keeps what is above its 13-bit field. */
  lemma Branch13Word(x: Section, job: Job, i: nat)
    requires CopyOf(job, x) && i < |x.relocs| && Relaxed(x)[i].kind.Pcrel13?
    ensures var q, s := FinalPlace(x, i), x.relocs[i].sym;
      && s < |x.syms| == |At(x, |x.relocs|).syms|
      && 0 <= q && q + 4 <= job.size && 0 <= x.relocs[i].address && x.relocs[i].address + 4 <= |job.orig|
      && var word, w := Word(job.orig, x.relocs[i].address), Word(Relocated(job), q);
      && w / PCREL13_MOD == word / PCREL13_MOD
      && w % PCREL13_MOD
         == (word + x.relocs[i].addend + q
             + (Address(At(x, |x.relocs|).syms[s], x.base) - x.base - q + x.relocs[i].addend)) % PCREL13_MOD
  {
    hide Pcrel13Word, Relocated, LayoutOf, Word, Wrap, Address;
    FieldWord(x, job, i);
    StoredReloc(x, i);
    KindKept(x, Relaxed(x)[i].sym, |x.relocs|);
    Pcrel13Value(Word(job.orig, x.relocs[i].address), Relaxed(x)[i], job.syms, x.base);
  }

  /** The same for the 13-bit field of a compare-and-branch instruction, whatever it holds. */
  lemma Lands13Iff(x: Section, job: Job, i: nat)
    requires CopyOf(job, x) && i < |x.relocs| && Relaxed(x)[i].kind.Pcrel13? && InSection(x, x.relocs[i].sym)
    ensures var q := FinalPlace(x, i);
      && 0 <= q && q + 4 <= job.size && 0 <= x.relocs[i].address && x.relocs[i].address + 4 <= |job.orig|
      && var word, w := Word(job.orig, x.relocs[i].address), Word(Relocated(job), q);
         var d := Displacement(x, i, x.relocs[i].sym) + x.relocs[i].addend;
      && w / PCREL13_MOD == word / PCREL13_MOD
      && (Destination13(w, q) == Values(x, x.relocs[i].sym)[|x.relocs|] + x.relocs[i].addend
          <==> InRange13(d) && (word + x.relocs[i].addend + q) % PCREL13_MOD == 0)
  {
    hide Relocated, LayoutOf, Word;
    Branch13Word(x, job, i);
    Decodes13(Word(job.orig, x.relocs[i].address) + x.relocs[i].addend + FinalPlace(x, i),
              Displacement(x, i, x.relocs[i].sym) + x.relocs[i].addend);
  }

  /** And to a symbol that is not in the section. */
  lemma Lands13OutsideIff(x: Section, job: Job, i: nat, goal: int)
    requires CopyOf(job, x) && i < |x.relocs| && Relaxed(x)[i].kind.Pcrel13? && x.relocs[i].sym < |x.syms|
    requires match x.syms[x.relocs[i].sym].place
             case Here(_, _) => false
             case Elsewhere(address) => goal == address
             case Undefined(DefinedAt(address)) => goal == address
             case Undefined(CommonOf(size)) => goal == size
             case Undefined(Missing) => goal == 0
    ensures var q := FinalPlace(x, i);
      && 0 <= q && q + 4 <= job.size && 0 <= x.relocs[i].address && x.relocs[i].address + 4 <= |job.orig|
      && var word, w := Word(job.orig, x.relocs[i].address), Word(Relocated(job), q);
         var d := goal + x.relocs[i].addend - (x.base + q);
      && w / PCREL13_MOD == word / PCREL13_MOD
      && (x.base + Destination13(w, q) == goal + x.relocs[i].addend
          <==> InRange13(d) && (word + x.relocs[i].addend + q) % PCREL13_MOD == 0)
  {
    hide Relocated, LayoutOf, Word;
    Branch13Word(x, job, i);
    KindKept(x, x.relocs[i].sym, |x.relocs|);
    Decodes13(Word(job.orig, x.relocs[i].address) + x.relocs[i].addend + FinalPlace(x, i),
              goal + x.relocs[i].addend - (x.base + FinalPlace(x, i)));
  }

  lemma Pcrel13Value(word: int, r: Reloc, syms: seq<Symbol>, base: int)
    requires r.sym < |syms| && 0 <= word < WORD
    ensures var w := Wrap(Pcrel13Word(word, r, syms, base));
      && w / PCREL13_MOD == word / PCREL13_MOD
      && w % PCREL13_MOD == (word + Address(syms[r.sym], base) - base + 2 * r.addend) % PCREL13_MOD
  {
    hide Address, GetValue;
    AddressWraps(syms[r.sym], r.addend, base);
    var k :| GetValue(syms[r.sym], r.addend, base) == Address(syms[r.sym], base) + r.addend + BAL_MOD * k;
    var f := word % PCREL13_MOD + GetValue(syms[r.sym], r.addend, base) + r.addend - base;
    Congruent(f, word + Address(syms[r.sym], base) - base + 2 * r.addend, 0x800 * k - word / PCREL13_MOD, PCREL13_MOD);
    DivModUnique(word - word % PCREL13_MOD + f % PCREL13_MOD, word / PCREL13_MOD, f % PCREL13_MOD, PCREL13_MOD);
  }

  /** A whole word is what was there plus the addend and the final address of its symbol: one of the section moves
      with it, any other stays where it was or where the hash table has it, a common symbol counts as its size, and
      one that is not found as nothing. */
  lemma AddressWord(x: Section, job: Job, i: nat)
    requires CopyOf(job, x) && i < |x.relocs| && x.relocs[i].kind.Abs32?
    ensures var r, q := x.relocs[i], FinalPlace(x, i);
      && r.sym < |x.syms| && 0 <= r.address && r.address + 4 <= |job.orig| && 0 <= q && q + 4 <= job.size
      && var word, w := Word(job.orig, r.address), Word(Relocated(job), q);
         match x.syms[r.sym].place
         case Here(_, _) => w == (word + x.base + Values(x, r.sym)[|x.relocs|] + r.addend) % WORD
         case Elsewhere(address) => w == (word + address + r.addend) % WORD
         case Undefined(DefinedAt(address)) => w == (word + address + r.addend) % WORD
         case Undefined(CommonOf(size)) => w == (word + size + r.addend) % WORD
         case Undefined(Missing) => w == (word + r.addend) % WORD
  {
    hide Relocated, LayoutOf, Word;
    var r := x.relocs[i];
    StepFacts(x, i);
    Final(x, i, |x.relocs|);
    FieldWord(x, job, i);
    StoredReloc(x, i);
    KindKept(x, r.sym, |x.relocs|);
    var s := job.syms[r.sym];
    WrappedSum(Word(job.orig, r.address), Address(s, x.base) + r.addend);
  }

  lemma WrappedSum(a: int, b: int)
    ensures Wrap(a + Wrap(b)) == Wrap(a + b)
  {
    AddMultiple(a + b % WORD, b / WORD, WORD);
    assert a + b == WORD * (b / WORD) + (a + b % WORD);
  }

  // ---- calls that hold no distance of their own ----

  /** A system procedure's call becomes `calls` with its number. One against a section symbol keeps the word that
      the assembler resolved: if the call was shortened, which the source asserts away, the bare operand. */
  lemma NoDistance(x: Section, job: Job, i: nat)
    requires CopyOf(job, x) && IsCall(x, i) && !HoldsDistance(x, i)
    ensures x.relocs[i].sym < |x.syms| && 0 <= x.relocs[i].address && x.relocs[i].address + 4 <= |job.orig|
    ensures var s, q := x.syms[x.relocs[i].sym], FinalPlace(x, i);
      && 0 <= q && q + 4 <= job.size
      && Word(Relocated(job), q)
         == if 0 < s.other <= 32 then CALLS + (s.other - 1) else Word(job.orig, x.relocs[i].address)
  {
    hide Relocated, LayoutOf, Word, Values;
    FieldWord(x, job, i);
    StoredReloc(x, i);
    KindKept(x, x.relocs[i].sym, |x.relocs|);
  }

  /** A call the assembler resolved goes to where its destination went if and only if as many bytes are removed
      before the one as before the other. */
  lemma ResolvedCallLandsIff(x: Section, job: Job, i: nat)
    requires CopyOf(job, x) && i < |x.relocs| && Relaxed(x)[i].kind.CallJ? && !HoldsDistance(x, i)
    requires x.relocs[i].sym < |x.syms| && !(0 < x.syms[x.relocs[i].sym].other <= 32)
    ensures 0 <= x.relocs[i].address && x.relocs[i].address + 4 <= |job.orig|
    ensures var q := FinalPlace(x, i);
      && 0 <= q && q + 4 <= job.size
      && var p := Destination(Word(job.orig, x.relocs[i].address), x.relocs[i].address);
         (Destination(Word(Relocated(job), q), q) == NewPosition(LayoutOf(x), p)
          <==> At(x, i).shrink == LayoutOf(x).shrink[Before(LayoutOf(x), p)])
  {
    NoDistance(x, job, i);
    StoredReloc(x, i);
  }

  // ---- a leaf procedure just out of reach ----

  const FAR := 0x80_0000

  /** A `callx` at 0 to a leaf procedure whose call entry is just in reach. */
  function FarLeaf(): (x: Section)
    ensures x.relocs == [Reloc(Abs32Code, 0, 4, 0, 0)] && x.base == 0 && x.size == FAR + 0x100
    ensures x.syms == [Symbol(Here(FAR, NoEntry), N_CALLNAME, false), Symbol(Here(FAR + 8, NoEntry), -2, false)]
  {
    Pass([Reloc(Abs32Code, 0, 4, 0, 0)],
         [Symbol(Here(FAR, NoEntry), N_CALLNAME, false), Symbol(Here(FAR + 8, NoEntry), -2, false)], 0, FAR + 0x100)
  }

  lemma FarLeafStep()
    ensures At(FarLeaf(), 0).shrink == 0 && At(FarLeaf(), 1).shrink == 4 && Relaxed(FarLeaf())[0].kind.Abs32CodeShrunk?
    ensures At(FarLeaf(), 1).syms == Slip(FarLeaf().syms, 4, 0)
  {
    hide FarLeaf, Slip, SlipSymbol, Start, End;
    var x := FarLeaf();
    Begins(x);
    Meets(x, 0);
    assert Gap(At(x, 0), x.relocs[0], 0) == FAR - 4;
  }

  lemma FarLeafShortened()
    ensures var x := FarLeaf();
      && Relaxed(x)[0].kind.Abs32CodeShrunk? && HoldsDistance(x, 0) && Goal(x, 0) == 1
      && Settles(x, 0) && Settles(x, 1) && FinalPlace(x, 0) == 0
      && Values(x, 1)[1] == FAR + 4 && InRange(Displacement(x, 0, 0))
  {
    hide FarLeaf, LayoutOf, Relaxed, Values, At;
    var x := FarLeaf();
    FarLeafStep();
    assert LayoutOf(x).shrink[0] == 0 && LayoutOf(x).shrink[1] == 4;
  }

  /** The pass shortens the call, since its tested symbol is in reach, before and after. The `bal` stored goes
      16 megabytes astray, whatever the rest of the section holds. */
  lemma FarLeafMisses(orig: seq<Byte>)
    requires |orig| == FarLeaf().size && Word(orig, 4) == 0
    ensures LeavesPaired(FarLeaf().relocs, FarLeaf().syms)
    ensures var out := Relocated(JobOf(FarLeaf(), orig, true));
      && |out| >= 4 && Word(out, 0) == BAL + 0x80_0004
      && Destination(Word(out, 0), 0) == -0x7f_fffc
      && Values(FarLeaf(), 1)[1] == 0x80_0004
  {
    hide FarLeaf, LayoutOf, Relaxed, Values, CallWord, Relocated, JobOf;
    var x := FarLeaf();
    FarLeafShortened();
    assert LeavesPaired(x.relocs, x.syms);
    var job := JobOf(x, orig, true);
    DistanceWord(x, job, 0);
  }

  // ---- a branch behind a shortened call ----

  /** A `callx` and a branch to the same symbol behind them. */
  function BranchBehindCall(): (x: Section)
    ensures x.relocs == [Reloc(Abs32Code, 0, 4, 0, 0), Reloc(Pcrel24, 0, 8, 0, 0)] && x.base == 0 && x.size == 16
    ensures x.syms == [Symbol(Here(12, NoEntry), 0, false)]
  {
    Pass([Reloc(Abs32Code, 0, 4, 0, 0), Reloc(Pcrel24, 0, 8, 0, 0)], [Symbol(Here(12, NoEntry), 0, false)], 0, 16)
  }

  lemma BranchBehindCallSteps()
    ensures var x := BranchBehindCall();
      && At(x, 0).shrink == 0 && At(x, 1).shrink == At(x, 2).shrink == 4 && Relaxed(x)[1].kind.Pcrel24?
      && InSection(x, 0) && Values(x, 0)[2] == 8
  {
    hide BranchBehindCall, Start, End;
    var x := BranchBehindCall();
    Begins(x);
    Meets(x, 0);
    assert Gap(At(x, 0), x.relocs[0], 0) == 8;
    Meets(x, 1);
    Final(x, 1, 2);
  }

  /** The branch is in reach all the time, and goes four bytes short of its symbol. */
  lemma BranchMisses(orig: seq<Byte>)
    requires |orig| == 16 && Word(orig, 8) == 0x08ff_fff8
    ensures LeavesPaired(BranchBehindCall().relocs, BranchBehindCall().syms)
    ensures FinalPlace(BranchBehindCall(), 1) == 4 && Values(BranchBehindCall(), 0)[2] == 8
    ensures var out := Relocated(JobOf(BranchBehindCall(), orig, true)); |out| >= 8 && Destination(Word(out, 4), 4) == 4
  {
    hide BranchBehindCall, LayoutOf, Relaxed, Values, Relocated, JobOf, Destination;
    var x := BranchBehindCall();
    BranchBehindCallSteps();
    assert LeavesPaired(x.relocs, x.syms);
    assert LayoutOf(x).shrink[1] == 4;
    MissesByShrink(x, JobOf(x, orig, true), 1);
  }
}
