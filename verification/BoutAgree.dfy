/** The relaxing pass and the copying loop agree: the copy reproduces exactly the shrinkage the
    relaxing pass promised, so bytes and symbols match and every field is stored at its final place. */
module BoutAgree {
  import opened Words
  import opened BoutRelax
  import opened Layout
  import opened BoutReach
  import opened BoutCopy

  function CookedSize(x: Section): int {
    x.size - At(x, |x.relocs|).shrink
  }

  /** Where the copy's cursors stand before relocation `k`, if it removes what the layout says. */
  function Expected(l: Cut, k: nat): Pair
    requires k <= |l.start|
  {
    var src := if k == 0 then 0 else l.end[k - 1];
    Pair(src, src - l.shrink[k])
  }

  predicate Paced(l: Cut, relocs: seq<Reloc>) {
    && |relocs| == |l.start| && Masked(relocs)
    && forall k :: 0 <= k < |relocs| ==> PacedAt(l, relocs, k)
  }

  predicate PacedAt(l: Cut, relocs: seq<Reloc>, k: nat)
    requires k < |l.start| == |relocs|
  {
    && StepReady(Expected(l, k), relocs[k], l.size)
    && AfterReloc(Expected(l, k), relocs[k]) == Expected(l, k + 1)
  }

  lemma {:induction false} CursorsPaced(l: Cut, relocs: seq<Reloc>, k: nat)
    requires Paced(l, relocs) && k <= |relocs|
    ensures Cursors(relocs, k) == Expected(l, k)
  {
    if 0 < k {
      CursorsPaced(l, relocs, k - 1);
      assert PacedAt(l, relocs, k - 1);
    }
  }

  lemma PacedIsConsistent(l: Cut, relocs: seq<Reloc>)
    requires Paced(l, relocs)
    ensures Consistent(relocs, l.size, l.size - l.shrink[|relocs|])
  {
    forall k | 0 <= k < |relocs| ensures ReadyAt(relocs, k, l.size) {
      CursorsPaced(l, relocs, k);
      assert PacedAt(l, relocs, k);
    }
    CursorsPaced(l, relocs, |relocs|);
  }

  /** One relocation before and after relaxing, at source position `src` with `s` bytes removed so far. */
  lemma Pace(r: Reloc, q: Reloc, base: int, c: Pair, s: int, d: int, size: int)
    requires Fresh(r) && (r.kind.Aligner? ==> IsMask(r.mask))
    requires 0 <= c.dst == c.src - s <= c.src <= Start(r) && End(r, base) <= size
    requires 0 <= d <= End(r, base) - Start(r)
    requires d == 0 ==> q == r && !r.kind.Aligner?
    requires d > 0 && r.kind.Aligner? ==>
      && q == r.(kind := AlignDone, addend := End(r, base))
      && End(r, base) - (s + d) == Floor(r.address - s + r.mask, r.mask)
    requires d > 0 && !r.kind.Aligner? ==>
      d == 4 && r.kind.Abs32Code? && q == r.(kind := Abs32CodeShrunk, address := Start(r))
    ensures StepReady(c, q, size) && AfterReloc(c, q) == Pair(End(r, base), End(r, base) - (s + d))
  {
  }

  lemma RelaxedReloc(x: Section, k: nat)
    requires k < |x.relocs|
    ensures |At(x, k + 1).relocs| == |x.relocs| && Relaxed(x)[k] == At(x, k + 1).relocs[k]
    ensures Relaxed(x)[k].sym == x.relocs[k].sym
    ensures Relaxed(x)[k].kind.AlignDone? ==> IsMask(Relaxed(x)[k].mask)
  {
    Final(x, k, |x.relocs|);
    StepFacts(x, k);
    assert Fresh(x.relocs[k]);
  }

  lemma ExpectedBounds(l: Cut, k: nat)
    requires k < |l.start|
    ensures 0 <= Expected(l, k).dst <= Expected(l, k).src <= l.start[k]
  {
    StartsAtZero(l, k);
    Grows(l, 0, k);
    if 0 < k {
      StartsInOrder(l, k - 1, k);
    }
  }

  lemma RelaxedPaced(x: Section, k: nat)
    requires k < |x.relocs|
    ensures PacedAt(LayoutOf(x), Relaxed(x), k)
  {
    var l := LayoutOf(x);
    RelaxedReloc(x, k);
    StepFacts(x, k);
    ExpectedBounds(l, k);
    Pace(x.relocs[k], Relaxed(x)[k], x.base, Expected(l, k), l.shrink[k], Delta(l, k), x.size);
  }

  lemma RelaxationPaces(x: Section)
    ensures Paced(LayoutOf(x), Relaxed(x))
  {
    forall k | 0 <= k < |x.relocs|
      ensures PacedAt(LayoutOf(x), Relaxed(x), k)
      ensures Relaxed(x)[k].kind.AlignDone? ==> IsMask(Relaxed(x)[k].mask)
    {
      RelaxedPaced(x, k);
      RelaxedReloc(x, k);
    }
  }

  /** Relaxation and copying agree: when the copy reaches a relocation its read cursor is ahead of its
      write cursor by exactly the shrink the relaxing pass had accumulated there. Hence the source's
      assertions hold, no unread byte is overwritten, and the sizes come out right. */
  lemma CopyAgrees(x: Section)
    ensures Masked(Relaxed(x))
    ensures forall k :: 0 <= k <= |x.relocs| ==>
      Cursors(Relaxed(x), k).src - Cursors(Relaxed(x), k).dst == At(x, k).shrink
    ensures Consistent(Relaxed(x), x.size, CookedSize(x))
  {
    RelaxationPaces(x);
    PacedIsConsistent(LayoutOf(x), Relaxed(x));
    forall k | 0 <= k <= |x.relocs| ensures Cursors(Relaxed(x), k).src - Cursors(Relaxed(x), k).dst == At(x, k).shrink {
      CursorsPaced(LayoutOf(x), Relaxed(x), k);
    }
  }

  /** Every leaf procedure's call entry has its `bal` entry next to it. */
  predicate LeavesPaired(relocs: seq<Reloc>, syms: seq<Symbol>) {
    forall k :: 0 <= k < |relocs| ==> HasBalEntry(relocs[k], syms)
  }

  lemma LeavesStayPaired(x: Section)
    requires LeavesPaired(x.relocs, x.syms)
    ensures LeavesPaired(Relaxed(x), At(x, |x.relocs|).syms)
  {
    forall k | 0 <= k < |x.relocs| ensures HasBalEntry(Relaxed(x)[k], At(x, |x.relocs|).syms) {
      RelaxedReloc(x, k);
      assert HasBalEntry(x.relocs[k], x.syms);
      KindKept(x, x.relocs[k].sym, |x.relocs|);
    }
  }

  /** `job` copies what the pass `x` left. */
  predicate CopyOf(job: Job, x: Section) {
    && |job.orig| == x.size && job.relocs == Relaxed(x) && job.syms == At(x, |x.relocs|).syms
    && job.base == x.base && job.size == CookedSize(x)
  }

  /** The copy of `orig` after relaxation, in place or not. */
  function JobOf(x: Section, orig: seq<Byte>, shared: bool): (job: Job)
    requires |orig| == x.size && LeavesPaired(x.relocs, x.syms)
    ensures CopyOf(job, x) && job.orig == orig && job.shared == shared
  {
    CopyAgrees(x);
    LeavesStayPaired(x);
    Copy(orig, Relaxed(x), At(x, |x.relocs|).syms, x.base, CookedSize(x), shared)
  }

  /** Both passes in a row, on the code's own arrays. */
  method RelaxAndCopy(relocs: array<Reloc>, syms: array<Symbol>, base: int, data: array<Byte>) returns (size: int)
    requires Assembled(relocs[..], syms[..], base, data.Length) && Entered(syms[..])
    requires LeavesPaired(relocs[..], syms[..])
    modifies relocs, syms, data
    ensures var x := Pass(old(relocs[..]), old(syms[..]), base, data.Length);
      && size == CookedSize(x) && 0 <= size <= data.Length
      && relocs[..] == Relaxed(x) && syms[..] == At(x, |x.relocs|).syms
      && data[..size] == Relocated(JobOf(x, old(data[..]), true))
  {
    ghost var x := Pass(relocs[..], syms[..], base, data.Length);
    ghost var job := JobOf(x, data[..], true);
    assert TracedAt(x, |x.relocs|);
    size := RelaxSection(relocs, syms, base, data.Length);
    Begin(job);
    CopySection(data, relocs[..], syms[..], base, size);
  }

  // ---- what the output holds ----

  /** `p` belongs to no relocation. */
  predicate Plain(x: Section, p: int) {
    forall k :: 0 <= k < |x.relocs| ==> p < LayoutOf(x).start[k] || LayoutOf(x).end[k] <= p
  }

  /** Every byte outside relocations is found where relaxation says it went. */
  lemma BytesFollow(x: Section, job: Job, p: int)
    requires CopyOf(job, x) && 0 <= p < x.size && Plain(x, p)
    ensures 0 <= NewPosition(LayoutOf(x), p) < CookedSize(x)
    ensures Relocated(job)[NewPosition(LayoutOf(x), p)] == job.orig[p]
  {
    RelaxationPaces(x);
    var l, k := LayoutOf(x), Before(LayoutOf(x), p);
    if k < |x.relocs| {
      assert p < l.start[k];
      RelaxedReloc(x, k);
      StepFacts(x, k);
    }
    PlainByte(l, job, p);
  }

  lemma PlainByte(l: Cut, job: Job, p: int)
    requires Paced(l, job.relocs) && |job.orig| == l.size && 0 <= p < l.size
    requires var k := Before(l, p); k < |job.relocs| ==>
      p < job.relocs[k].address - (if job.relocs[k].kind.Abs32Code? then 4 else 0)
    ensures 0 <= NewPosition(l, p) < job.size && Relocated(job)[NewPosition(l, p)] == job.orig[p]
  {
    var k := Before(l, p);
    PlainCursor(l, job, p);
    if k < |l.start| {
      RunIsCopied(job, k, p);
    } else {
      LastRun(job, p);
    }
  }

  lemma RunIsCopied(job: Job, k: nat, p: int)
    requires k < |job.relocs| && p < |job.orig|
    requires 0 <= CopyTo(job, k).src <= p < job.relocs[k].address - (if job.relocs[k].kind.Abs32Code? then 4 else 0)
    ensures var q := |CopyTo(job, k).out| + p - CopyTo(job, k).src;
      0 <= q < job.size && Relocated(job)[q] == job.orig[p]
  {
    RunInStep(job, k, p);
    Prefix(job, k + 1);
    PrefixAt(CopyTo(job, k + 1).out, Relocated(job), |CopyTo(job, k).out| + p - CopyTo(job, k).src);
  }

  lemma PlainCursor(l: Cut, job: Job, p: int)
    requires Paced(l, job.relocs)
    ensures Before(l, p) <= |job.relocs|
    ensures var c := CopyTo(job, Before(l, p)); 0 <= p ==> 0 <= c.src <= p && NewPosition(l, p) == |c.out| + p - c.src
  {
    var k := Before(l, p);
    CursorsPaced(l, job.relocs, k);
    CursorsAt(job, k);
  }

  lemma LastRun(job: Job, p: int)
    requires 0 <= CopyTo(job, |job.relocs|).src <= p < |job.orig|
    ensures var c := CopyTo(job, |job.relocs|); var q := |c.out| + p - c.src;
      0 <= q < job.size && Relocated(job)[q] == job.orig[p]
  {
    var c := CopyTo(job, |job.relocs|);
    CursorsAt(job, |job.relocs|);
    assert job.orig[c.src..][p - c.src] == job.orig[p];
  }

  lemma RunInStep(job: Job, k: nat, p: int)
    requires k < |job.relocs| && p < |job.orig|
    requires 0 <= CopyTo(job, k).src <= p < job.relocs[k].address - (if job.relocs[k].kind.Abs32Code? then 4 else 0)
    ensures var q := |CopyTo(job, k).out| + p - CopyTo(job, k).src;
      0 <= q < |CopyTo(job, k + 1).out| && CopyTo(job, k + 1).out[q] == job.orig[p]
  {
    OneMore(job, k);
    RunInEmit(job.orig, CopyTo(job, k), job.relocs[k], job.syms, job.base, job.shared, p);
  }

  lemma PrefixAt(a: seq<Byte>, b: seq<Byte>, q: int)
    requires a <= b && 0 <= q < |a|
    ensures q < |b| && a[q] == b[q]
  {
  }

  lemma RunInEmit(orig: seq<Byte>, c: Progress, r: Reloc, syms: seq<Symbol>, base: int, shared: bool, p: int)
    requires StepReady(Pair(c.src, |c.out|), r, |orig|) && HasBalEntry(r, syms)
    requires c.src <= p < r.address - (if r.kind.Abs32Code? then 4 else 0)
    ensures var q := |c.out| + p - c.src; var out := Emit(orig, c, r, syms, base, shared).out;
      q < |out| && out[q] == orig[p]
  {
    hide Store, PatchCall, Field, Buffer;
    var run := c.out + orig[c.src..r.address];
    var q := |c.out| + p - c.src;
    assert run[q] == orig[p];
    var keep := if r.kind.Abs32Code? then run[..|run| - 4] else run;
    assert keep <= Store(orig, run, r, syms, base, shared);
    assert keep[q] == run[q];
  }

  // ---- relocated words, from source bytes to output bytes ----

  /** The copy stores one word for relocation `i`; long calls are left to their own lemmas. */
  predicate StoresWord(x: Section, i: nat) {
    i < |x.relocs| && !Relaxed(x)[i].kind.AlignDone? && !Relaxed(x)[i].kind.Aligner? && !Relaxed(x)[i].kind.Abs32Code?
  }

  lemma StoredReloc(x: Section, i: nat)
    requires StoresWord(x, i)
    ensures Relaxed(x)[i].address == LayoutOf(x).start[i]
    ensures Relaxed(x)[i].sym == x.relocs[i].sym && Relaxed(x)[i].addend == x.relocs[i].addend
    ensures x.relocs[i].address == LayoutOf(x).start[i] + (if Relaxed(x)[i].kind.Abs32CodeShrunk? then 4 else 0)
    ensures !Relaxed(x)[i].kind.Abs32CodeShrunk? ==> Relaxed(x)[i].kind == x.relocs[i].kind
  {
    RelaxedReloc(x, i);
    StepFacts(x, i);
    assert Fresh(x.relocs[i]);
  }

  /** The first byte of relocation `i`, and where that is in the output. */
  function FinalPlace(x: Section, i: nat): int
    requires i < |x.relocs|
  {
    LayoutOf(x).start[i] - LayoutOf(x).shrink[i]
  }

  /** Every such word stands at its final place in the output, and is what its relocation makes of the original
      word for that place. */
  lemma FieldWord(x: Section, job: Job, i: nat)
    requires CopyOf(job, x) && StoresWord(x, i)
    ensures var r, q := Relaxed(x)[i], FinalPlace(x, i);
      && 0 <= q && q + 4 <= job.size && HasBalEntry(r, job.syms)
      && 0 <= r.address && r.address + (if r.kind.Abs32CodeShrunk? then 8 else 4) <= |job.orig|
      && Word(Relocated(job), q) == Wrap(Field(job.orig, r, job.syms, x.base, q))
  {
    hide Field, Relocated, Emit, Word, Wrap, HasBalEntry;
    RelaxationPaces(x);
    CursorsPaced(LayoutOf(x), Relaxed(x), i);
    StoredReloc(x, i);
    CursorsAt(job, i);
    EmittedStays(job, i);
    FieldEmitted(job.orig, CopyTo(job, i), job.relocs[i], job.syms, job.base, job.shared, Relocated(job));
  }

  lemma EmittedStays(job: Job, i: nat)
    requires i < |job.relocs|
    ensures StepReady(Pair(CopyTo(job, i).src, |CopyTo(job, i).out|), job.relocs[i], |job.orig|)
    ensures HasBalEntry(job.relocs[i], job.syms)
    ensures Emit(job.orig, CopyTo(job, i), job.relocs[i], job.syms, job.base, job.shared).out <= Relocated(job)
  {
    OneMore(job, i);
    Prefix(job, i + 1);
  }

  lemma FieldEmitted(orig: seq<Byte>, c: Progress, r: Reloc, syms: seq<Symbol>, base: int, shared: bool,
                     final: seq<Byte>)
    requires StepReady(Pair(c.src, |c.out|), r, |orig|) && HasBalEntry(r, syms)
    requires !r.kind.AlignDone? && !r.kind.Abs32Code?
    requires Emit(orig, c, r, syms, base, shared).out <= final
    ensures var q := |c.out| + r.address - c.src;
      && 0 <= q && q + 4 <= |final| && 0 <= r.address
      && r.address + (if r.kind.Abs32CodeShrunk? then 8 else 4) <= |orig|
      && Word(final, q) == Wrap(Field(orig, r, syms, base, q))
  {
    hide Field;
    var run := c.out + orig[c.src..r.address];
    var word := Field(orig, r, syms, base, |run|);
    assert Emit(orig, c, r, syms, base, shared).out == run + PutL32(word);
    WordOf(final, run, word);
  }

  lemma WordOf(a: seq<Byte>, run: seq<Byte>, word: int)
    requires run + PutL32(word) <= a
    ensures |run| + 4 <= |a| && Word(a, |run|) == Wrap(word)
  {
    var rest := a[|run| + 4..];
    assert a == (run + PutL32(word)) + rest;
    assert a[|run|..] == PutL32(word) + rest;
    PutGetL32(word, rest);
  }
}
