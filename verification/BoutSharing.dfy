/** What copying within one buffer does to the output: nothing, unless a long call to a leaf procedure
    stands where exactly two bytes have been removed. */
module BoutSharing {
  import opened Words
  import opened BoutRelax
  import opened Layout
  import opened BoutReach
  import opened BoutCopy
  import opened BoutAgree
  import opened BoutCalls

  // ---- rereading the instruction word ----

  /** The buffer just before a `callx` operand is relocated: `s` bytes are removed so far, and the finished
      part `out` ends with the instruction word itself. */
  predicate AtOperand(orig: seq<Byte>, out: seq<Byte>, s: nat) {
    4 <= |out| && |out| + s <= |orig| && out[|out| - 4..] == orig[|out| + s - 4..|out| + s]
  }

  /** The instruction word `word` as `calljx_callback` reads it again: with two bytes removed, its lower
      half is overwritten by its upper half. */
  function Seen(word: int, s: nat, shared: bool): int {
    if shared && s == 2 then word / 0x1_0000 * 0x1_0001 else word
  }

  function Reread(orig: seq<Byte>, out: seq<Byte>, shared: bool): (b: seq<Byte>)
    requires |out| <= |orig|
    ensures |b| == |orig|
  {
    if shared then Buffer(orig, out) else orig
  }

  lemma RereadWord(orig: seq<Byte>, out: seq<Byte>, s: nat, shared: bool)
    requires AtOperand(orig, out, s) && s != 1 && s != 3
    ensures Word(Reread(orig, out, shared), |out| + s - 4) == Seen(Word(orig, |out| + s - 4), s, shared)
  {
    var at := |out| + s - 4;
    if shared {
      if s == 2 {
        HalvesRepeat(orig, out);
      } else if s == 0 {
        assert Buffer(orig, out)[at..at + 4] == out[at..];
        SameWord(Buffer(orig, out), orig, at);
      } else {
        assert Buffer(orig, out)[at..at + 4] == orig[|out|..][at - |out|..at - |out| + 4];
        SameWord(Buffer(orig, out), orig, at);
      }
    }
  }

  lemma HalvesRepeat(orig: seq<Byte>, out: seq<Byte>)
    requires AtOperand(orig, out, 2)
    ensures Word(Buffer(orig, out), |out| - 2) == Word(orig, |out| - 2) / 0x1_0000 * 0x1_0001
  {
    var n, b := |out|, Buffer(orig, out);
    WordBytes(b, n - 2);
    WordBytes(orig, n - 2);
    var last := out[n - 4..];
    assert b[n - 2] == last[2] == orig[n - 2..n + 2][2] && b[n - 1] == last[3] == orig[n - 2..n + 2][3];
    assert b[n] == orig[n] && b[n + 1] == orig[n + 1];
  }

  // ---- the two words of a long call ----

  predicate LongCall(x: Section, i: nat) {
    i < |x.relocs| && Relaxed(x)[i].kind.Abs32Code?
  }

  /** Call `i` stays long and leads to a leaf procedure. */
  predicate LongLeafCall(x: Section, i: nat) {
    LongCall(x, i) && (assert x.relocs[i].sym < |x.syms|; x.syms[x.relocs[i].sym].other == N_CALLNAME)
  }

  lemma LongCallPlace(x: Section, job: Job, i: nat)
    requires CopyOf(job, x) && LongCall(x, i)
    ensures Relaxed(x)[i] == x.relocs[i] && x.relocs[i].address == LayoutOf(x).start[i] + 4
    ensures CopyTo(job, i).src <= x.relocs[i].address - 4
    ensures |CopyTo(job, i).out| + x.relocs[i].address - CopyTo(job, i).src == FinalPlace(x, i) + 4
  {
    RelaxationPaces(x);
    CursorsPaced(LayoutOf(x), Relaxed(x), i);
    RelaxedReloc(x, i);
    StepFacts(x, i);
    CursorsAt(job, i);
    OneMore(job, i);
  }

  lemma LongCallOut(orig: seq<Byte>, c: Progress, r: Reloc, syms: seq<Symbol>, base: int, shared: bool)
    requires StepReady(Pair(c.src, |c.out|), r, |orig|) && HasBalEntry(r, syms) && r.kind.Abs32Code?
    ensures var run := c.out + orig[c.src..r.address];
      Emit(orig, c, r, syms, base, shared).out
      == PatchCall(run, Reread(orig, run, shared), r, syms) + PutL32(LongOperand(Word(orig, r.address), r, syms, base))
  {
    hide PatchCall, Buffer;
  }

  /** The last word of `run` and a word behind it, where they are found in `final`. */
  lemma WordsStored(orig: seq<Byte>, run: seq<Byte>, r: Reloc, syms: seq<Symbol>, shared: bool, field: int,
                    final: seq<Byte>, s: nat)
    requires AtOperand(orig, run, s) && s != 1 && s != 3 && r.sym < |syms| && r.address == |run| + s
    requires PatchCall(run, Reread(orig, run, shared), r, syms) + PutL32(field) <= final
    ensures |run| + 4 <= |final| && Word(final, |run|) == Wrap(field)
    ensures var word := Word(orig, r.address - 4);
      Word(final, |run| - 4)
      == if syms[r.sym].other == N_CALLNAME then BALX + Seen(word, s, shared) % BALX_MOD else word
  {
    hide Buffer, Wrap, Word, PutL32, Seen, Reread, LongOperand;
    var patched := PatchCall(run, Reread(orig, run, shared), r, syms);
    WordOf(final, patched, field);
    RereadWord(orig, run, s, shared);
    if syms[r.sym].other == N_CALLNAME {
      var word := BALX + Word(Reread(orig, run, shared), r.address - 4) % BALX_MOD;
      assert patched == run[..|run| - 4] + PutL32(word) <= final;
      WordOf(final, run[..|run| - 4], word);
      SmallWord(word);
    } else {
      SameWordAt(final, run, orig, |run| - 4, r.address - 4);
    }
  }

  lemma SmallWord(w: int)
    requires 0 <= w < WORD
    ensures Wrap(w) == w
  {
  }

  lemma SameWordAt(final: seq<Byte>, run: seq<Byte>, orig: seq<Byte>, at: nat, from: nat)
    requires run <= final && at + 4 == |run| && from + 4 <= |orig| && run[at..] == orig[from..from + 4]
    ensures Word(final, at) == Word(orig, from)
  {
    WordBytes(final, at);
    WordBytes(orig, from);
    var last := run[at..];
    assert final[at] == last[0] && final[at + 1] == last[1] && final[at + 2] == last[2] && final[at + 3] == last[3];
  }

  lemma FloorIsEven(a: int, m: int)
    requires IsMask(m)
    ensures exists h :: Floor(a, m) == 2 * h
  {
    var f := if m == 1 then a / 2 else if m == 3 then 2 * (a / 4) else if m == 7 then 4 * (a / 8) else 8 * (a / 16);
    assert Floor(a, m) == 2 * f;
  }

  lemma PaddingEndIsEven(r: Reloc, base: int)
    requires r.kind.Aligner? && IsMask(r.mask) && base % 16 == 0
    ensures exists h :: End(r, base) == 2 * h
  {
    hide Floor;
    var e := base + r.address + r.mask;
    FloorIsEven(e, r.mask);
    var h :| Floor(e, r.mask) == 2 * h;
    assert End(r, base) == 2 * (h + (r.mask + 1) / 2 - 8 * (base / 16));
  }

  /** Padding starts and ends on even addresses, so the pass removes an even number of bytes. */
  lemma {:induction false} ShrinkIsEven(x: Section, k: nat)
    requires k <= |x.relocs|
    ensures exists h :: At(x, k).shrink == 2 * h
  {
    hide Floor, End, Start;
    if k == 0 {
      Begins(x);
      assert At(x, k).shrink == 2 * 0;
    } else {
      ShrinkIsEven(x, k - 1);
      StepFacts(x, k - 1);
      var r, s, t := x.relocs[k - 1], At(x, k - 1).shrink, At(x, k).shrink;
      var h :| s == 2 * h;
      if r.kind.Aligner? {
        FloorIsEven(r.address - s + r.mask, r.mask);
        PaddingEndIsEven(r, x.base);
        var f, g :| Floor(r.address - s + r.mask, r.mask) == 2 * f && End(r, x.base) == 2 * g;
        assert t == 2 * (g - f);
      } else {
        assert t == 2 * h || t == 2 * (h + 2);
      }
    }
  }

  lemma LongCallStored(job: Job, i: nat, s: nat)
    requires i < |job.relocs| && job.relocs[i].kind.Abs32Code? && s != 1 && s != 3
    requires CopyTo(job, i).src <= job.relocs[i].address - 4 && CopyTo(job, i).src == |CopyTo(job, i).out| + s
    ensures var r, out := job.relocs[i], Relocated(job);
      && HasBalEntry(r, job.syms) && 4 + s <= r.address && r.address + 4 <= |job.orig| && r.address + 4 - s <= |out|
      && Word(out, r.address - s) == Wrap(LongOperand(Word(job.orig, r.address), r, job.syms, job.base))
      && Word(out, r.address - s - 4)
         == (var word := Word(job.orig, r.address - 4);
             if job.syms[r.sym].other == N_CALLNAME then BALX + Seen(word, s, job.shared) % BALX_MOD else word)
  {
    hide Seen, PatchCall, LongOperand, Buffer, Reread, Relocated, Emit, Word, Wrap, PutL32;
    var r, c := job.relocs[i], CopyTo(job, i);
    CursorsAt(job, i);
    EmittedStays(job, i);
    var run := c.out + job.orig[c.src..r.address];
    var field := LongOperand(Word(job.orig, r.address), r, job.syms, job.base);
    LongCallOut(job.orig, c, r, job.syms, job.base, job.shared);
    assert run[|run| - 4..] == job.orig[r.address - 4..r.address];
    WordsStored(job.orig, run, r, job.syms, job.shared, field, Relocated(job), s);
  }

  lemma LongCallFields(x: Section, job: Job, i: nat)
    requires CopyOf(job, x) && LongCall(x, i)
    ensures 4 <= x.relocs[i].address && x.relocs[i].address + 4 <= |job.orig| && HasBalEntry(x.relocs[i], job.syms)
    ensures 0 <= FinalPlace(x, i) && FinalPlace(x, i) + 8 <= job.size && 0 <= At(x, i).shrink
    ensures Word(Relocated(job), FinalPlace(x, i) + 4)
         == Wrap(LongOperand(Word(job.orig, x.relocs[i].address), x.relocs[i], job.syms, x.base))
    ensures var word := Word(job.orig, x.relocs[i].address - 4);
      Word(Relocated(job), FinalPlace(x, i))
      == if LongLeafCall(x, i) then BALX + Seen(word, At(x, i).shrink, job.shared) % BALX_MOD else word
  {
    hide Seen, LongOperand, Word, Wrap, Relocated;
    LongCallPlace(x, job, i);
    ShrinkIsEven(x, i);
    StartsAtZero(LayoutOf(x), i);
    KindKept(x, x.relocs[i].sym, |x.relocs|);
    LongCallStored(job, i, At(x, i).shrink);
  }

  /** What a call that stays long is in the output: before its operand the instruction word, which for a leaf
      procedure is made a `balx` out of what is then left of the original word; in its operand the final address of
      its goal, with what was there and the addend, which counts twice unless the goal is a leaf's `bal` entry. Such
      an entry is not looked up in the hash table. */
  lemma LongCallWords(x: Section, job: Job, i: nat)
    requires CopyOf(job, x) && LongCall(x, i)
    ensures 4 <= x.relocs[i].address && x.relocs[i].address + 4 <= |job.orig| && Goal(x, i) < |x.syms|
    ensures 0 <= FinalPlace(x, i) && FinalPlace(x, i) + 8 <= job.size && 0 <= At(x, i).shrink
    ensures var word := Word(job.orig, x.relocs[i].address - 4);
      Word(Relocated(job), FinalPlace(x, i))
      == if LongLeafCall(x, i) then BALX + Seen(word, At(x, i).shrink, job.shared) % BALX_MOD else word
    ensures var leaf, w := LongLeafCall(x, i), Word(Relocated(job), FinalPlace(x, i) + 4);
      var more := Word(job.orig, x.relocs[i].address) + (if leaf then 1 else 2) * x.relocs[i].addend;
      match x.syms[Goal(x, i)].place
      case Here(_, _) => w == (more + x.base + Values(x, Goal(x, i))[|x.relocs|]) % WORD
      case Elsewhere(address) => w == (more + address) % WORD
      case Undefined(DefinedAt(address)) => w == (more + if leaf then 0 else address) % WORD
      case Undefined(CommonOf(size)) => w == (more + if leaf then 0 else size) % WORD
      case Undefined(Missing) => w == more % WORD
  {
    hide Seen, Word, Wrap, Relocated, LayoutOf, LongOperand;
    LongCallFields(x, job, i);
    KindKept(x, x.relocs[i].sym, |x.relocs|);
    KindKept(x, Goal(x, i), |x.relocs|);
    OperandIs(Word(job.orig, x.relocs[i].address), x.relocs[i], job.syms, x.base);
  }

  lemma OperandIs(word: int, r: Reloc, syms: seq<Symbol>, base: int)
    requires HasBalEntry(r, syms)
    ensures var leaf := syms[r.sym].other == N_CALLNAME;
      Wrap(LongOperand(word, r, syms, base))
      == (word + (if leaf then 1 else 2) * r.addend
          + (if leaf then Direct(syms[r.sym + 1], base) else Address(syms[r.sym], base))) % WORD
  {
    hide Address, Direct;
    WrappedSum(word + r.addend, Address(syms[r.sym], base) + r.addend);
  }

  // ---- one buffer or two ----

  /** Copying in place gives what copying into another buffer gives, whatever the section holds. */
  ghost predicate SharingHarmless(x: Section)
    requires LeavesPaired(x.relocs, x.syms)
  {
    forall orig: seq<Byte> :: |orig| == x.size ==> SameOutput(x, orig)
  }

  predicate SameOutput(x: Section, orig: seq<Byte>)
    requires LeavesPaired(x.relocs, x.syms) && |orig| == x.size
  {
    Relocated(JobOf(x, orig, true)) == Relocated(JobOf(x, orig, false))
  }

  /** Call `i` is a long one to a leaf procedure, and exactly two bytes are removed before it. */
  predicate Exposed(x: Section, i: nat) {
    LongLeafCall(x, i) && At(x, i).shrink == 2
  }

  lemma {:induction false} SameSoFar(x: Section, a: Job, b: Job, k: nat)
    requires CopyOf(a, x) && CopyOf(b, x) && a.orig == b.orig && k <= |x.relocs|
    requires forall i :: 0 <= i < k ==> !Exposed(x, i)
    ensures CopyTo(a, k) == CopyTo(b, k)
  {
    if k == 0 {
      assert CopiedAt(a, 0) && CopiedAt(b, 0);
    } else {
      SameSoFar(x, a, b, k - 1);
      SameStep(x, a, b, k - 1);
    }
  }

  lemma SameStep(x: Section, a: Job, b: Job, i: nat)
    requires CopyOf(a, x) && CopyOf(b, x) && a.orig == b.orig && i < |x.relocs| && !Exposed(x, i)
    requires CopyTo(a, i) == CopyTo(b, i)
    ensures CopyTo(a, i + 1) == CopyTo(b, i + 1)
  {
    OneMore(a, i);
    OneMore(b, i);
    if LongCall(x, i) {
      LongCallPlace(x, a, i);
      KindKept(x, x.relocs[i].sym, |x.relocs|);
      ShrinkIsEven(x, i);
      StartsAtZero(LayoutOf(x), i);
      SamePatch(a.orig, CopyTo(a, i), x.relocs[i], a.syms, x.base, a.shared, b.shared, At(x, i).shrink);
    } else {
      SameEmit(a.orig, CopyTo(a, i), a.relocs[i], a.syms, x.base, a.shared, b.shared);
    }
  }

  lemma SameEmit(orig: seq<Byte>, c: Progress, r: Reloc, syms: seq<Symbol>, base: int, s: bool, t: bool)
    requires StepReady(Pair(c.src, |c.out|), r, |orig|) && HasBalEntry(r, syms) && !r.kind.Abs32Code?
    ensures Emit(orig, c, r, syms, base, s) == Emit(orig, c, r, syms, base, t)
  {
    hide Field, Floor;
  }

  lemma SamePatch(orig: seq<Byte>, c: Progress, r: Reloc, syms: seq<Symbol>, base: int, a: bool, b: bool, s: nat)
    requires StepReady(Pair(c.src, |c.out|), r, |orig|) && HasBalEntry(r, syms) && r.kind.Abs32Code?
    requires c.src <= r.address - 4 && c.src == |c.out| + s && s != 1 && s != 3
    requires syms[r.sym].other != N_CALLNAME || s != 2
    ensures Emit(orig, c, r, syms, base, a) == Emit(orig, c, r, syms, base, b)
  {
    hide Emit, LongOperand, Buffer, Reread;
    var run := c.out + orig[c.src..r.address];
    assert run[|run| - 4..] == orig[r.address - 4..r.address];
    RereadWord(orig, run, s, a);
    RereadWord(orig, run, s, b);
    LongCallOut(orig, c, r, syms, base, a);
    LongCallOut(orig, c, r, syms, base, b);
    assert Emit(orig, c, r, syms, base, a).src == Emit(orig, c, r, syms, base, b).src;
  }

  /** A section of zeros with a 1 at `at`. */
  function Marked(n: nat, at: nat): (orig: seq<Byte>)
    requires at < n
    ensures |orig| == n && orig[at] == 1 && forall i :: 0 <= i < n && i != at ==> orig[i] == 0
  {
    seq(n, i => if i == at then 1 else 0)
  }

  lemma ExposedDiffers(x: Section, i: nat)
    requires LeavesPaired(x.relocs, x.syms) && Exposed(x, i)
    ensures !SharingHarmless(x)
  {
    hide Word, Wrap, Relocated, JobOf, LayoutOf, LongOperand, Relaxed, FinalPlace, SharingHarmless;
    var a := x.relocs[i].address;
    CallInside(x, i);
    var orig := Marked(x.size, a - 4);
    LongCallWords(x, JobOf(x, orig, true), i);
    LongCallWords(x, JobOf(x, orig, false), i);
    assert Word(orig, a - 4) == 1 by {
      hide *;
      WordBytes(orig, a - 4);
    }
    assert !SameOutput(x, orig);
    NotHarmless(x, orig);
  }

  lemma CallInside(x: Section, i: nat)
    requires LongCall(x, i)
    ensures 4 <= x.relocs[i].address <= x.size - 4
  {
    hide Floor, OldEnd;
    RelaxedReloc(x, i);
    StepFacts(x, i);
    assert 0 <= Start(x.relocs[i]) && End(x.relocs[i], x.base) <= x.size;
  }

  lemma NotHarmless(x: Section, orig: seq<Byte>)
    requires LeavesPaired(x.relocs, x.syms) && |orig| == x.size && !SameOutput(x, orig)
    ensures !SharingHarmless(x)
  {
  }

  /** The relocated section does not depend on the shared buffer if and only if no long call to a leaf
      procedure stands behind exactly two removed bytes. */
  lemma SharingHarmlessIff(x: Section)
    requires LeavesPaired(x.relocs, x.syms)
    ensures SharingHarmless(x) <==> forall i :: 0 <= i < |x.relocs| ==> !Exposed(x, i)
  {
    if i :| 0 <= i < |x.relocs| && Exposed(x, i) {
      ExposedDiffers(x, i);
    } else {
      forall orig: seq<Byte> | |orig| == x.size ensures SameOutput(x, orig) {
        SameSoFar(x, JobOf(x, orig, true), JobOf(x, orig, false), |x.relocs|);
      }
    }
  }

  // ---- such a call ----

  /** Two bytes of padding, then a `callx` to a leaf procedure too far away to be shortened. */
  function FarLeafBehindPadding(): (x: Section)
    ensures x.relocs == [Reloc(Aligner, 1, 0, 0, 0), Reloc(Abs32Code, 0, 6, 0, 0)] && x.base == 0 && x.size == 10
    ensures x.syms == [Symbol(Elsewhere(2 * FAR), N_CALLNAME, false), Symbol(Elsewhere(2 * FAR + 8), -2, false)]
  {
    Pass([Reloc(Aligner, 1, 0, 0, 0), Reloc(Abs32Code, 0, 6, 0, 0)],
         [Symbol(Elsewhere(2 * FAR), N_CALLNAME, false), Symbol(Elsewhere(2 * FAR + 8), -2, false)], 0, 10)
  }

  lemma FarLeafPadding()
    ensures At(FarLeafBehindPadding(), 0).shrink == 0 && At(FarLeafBehindPadding(), 1).shrink == 2
  {
    var x := FarLeafBehindPadding();
    Begins(x);
    Meets(x, 0);
    assert AlignDelta(At(x, 0), x.relocs[0], 0) == 2;
  }

  lemma FarLeafStaysLong()
    ensures LongCall(FarLeafBehindPadding(), 1) && At(FarLeafBehindPadding(), 2).shrink == 2
  {
    hide FarLeafBehindPadding, End, Start, Floor;
    var x := FarLeafBehindPadding();
    FarLeafPadding();
    Meets(x, 1);
    KindKept(x, 0, 1);
    assert Gap(At(x, 1), x.relocs[1], 0) == 2 * FAR - 4;
    Final(x, 1, 2);
  }

  lemma FarLeafExposed()
    ensures var x := FarLeafBehindPadding(); Exposed(x, 1) && LongLeafCall(x, 1) && LongCall(x, 1)
    ensures FinalPlace(FarLeafBehindPadding(), 1) == 0
  {
    hide FarLeafBehindPadding, LayoutOf, Relaxed, End, At;
    FarLeafPadding();
    FarLeafStaysLong();
  }

  lemma SeenOfCallx()
    ensures Seen(0x8600_3000, 2, true) % BALX_MOD == 0x0_8600 && Seen(0x8600_3000, 2, false) % BALX_MOD == 0x0_3000
  {
  }

  /** Its instruction word, a `callx` with a 32-bit address, loses the addressing mode when the copy is in
      place, and keeps it otherwise. */
  lemma FarLeafSpoilt(orig: seq<Byte>)
    requires |orig| == 10 && Word(orig, 2) == 0x8600_3000
    ensures LeavesPaired(FarLeafBehindPadding().relocs, FarLeafBehindPadding().syms)
    ensures var there := Relocated(JobOf(FarLeafBehindPadding(), orig, false));
      |there| >= 4 && Word(there, 0) == BALX + 0x0_3000
    ensures var here := Relocated(JobOf(FarLeafBehindPadding(), orig, true));
      |here| >= 4 && Word(here, 0) == BALX + 0x0_8600
  {
    hide FarLeafBehindPadding, Word, Wrap, Relocated, JobOf, LayoutOf, LongOperand, Relaxed, FinalPlace;
    hide LongLeafCall, Seen;
    var x := FarLeafBehindPadding();
    assert LeavesPaired(x.relocs, x.syms);
    FarLeafExposed();
    SeenOfCallx();
    LongCallWords(x, JobOf(x, orig, true), 1);
    LongCallWords(x, JobOf(x, orig, false), 1);
  }
}
