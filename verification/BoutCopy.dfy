/** The relocating copy of a relaxed b.out section, `b_out_bfd_get_relocated_section_contents`:
    one forward pass inside a single buffer. */
module BoutCopy {
  import opened Words
  import opened BoutRelax

  const CALLS := 0x6600_3800
  const BAL := 0x0b00_0000
  const BALX := 0x85f0_0000
  const CALL := 0x0900_0000
  const BAL_MOD := 0x100_0000
  const BALX_MOD := 0x8_0000
  const PCREL13_MOD := 0x2000

  /** The symbol's own address, as `callj_callback` reads it without the hash table. */
  function Direct(s: Symbol, base: int): int {
    if s.place.Undefined? then 0 else Address(s, base)
  }

  predicate HasBalEntry(r: Reloc, syms: seq<Symbol>) {
    r.sym < |syms| && (syms[r.sym].other == N_CALLNAME ==> r.sym + 1 < |syms|)
  }

  /** `callj_callback`: the instruction word stored at offset `dst`. */
  function CallWord(word: int, r: Reloc, syms: seq<Symbol>, base: int, dst: int, shrinking: bool): int
    requires HasBalEntry(r, syms)
  {
    var s := syms[r.sym];
    if 0 < s.other <= 32 then CALLS + (s.other - 1)
    else if s.other == N_CALLNAME then
      BAL + (word + Direct(syms[r.sym + 1], base) + r.addend - dst - base) % BAL_MOD
    else if s.isSection then word
    else CALL + (word % BAL_MOD + GetValue(s, r.addend, base) + r.addend
                 - (if shrinking then dst else 0) - base) % BAL_MOD
  }

  /** The operand `calljx_callback` stores for a `callx` that stays long. */
  function LongOperand(word: int, r: Reloc, syms: seq<Symbol>, base: int): int
    requires HasBalEntry(r, syms)
  {
    var value := if syms[r.sym].other == N_CALLNAME then Direct(syms[r.sym + 1], base)
                 else GetValue(syms[r.sym], r.addend, base);
    word + value + r.addend
  }

  /** A 24-bit field, PC relative to the section. */
  function Pcrel24Word(word: int, r: Reloc, syms: seq<Symbol>, base: int): int
    requires r.sym < |syms|
  {
    word - word % BAL_MOD
    + (word % BAL_MOD + GetValue(syms[r.sym], r.addend, base) - base + r.addend) % BAL_MOD
  }

  function Pcrel13Word(word: int, r: Reloc, syms: seq<Symbol>, base: int): int
    requires r.sym < |syms|
  {
    word - word % PCREL13_MOD
    + (word % PCREL13_MOD + GetValue(syms[r.sym], r.addend, base) + r.addend - base) % PCREL13_MOD
  }

  // ---- where the two cursors go ----

  datatype Pair = Pair(src: int, dst: int)

  function AfterReloc(c: Pair, r: Reloc): Pair
    requires r.kind.AlignDone? ==> IsMask(r.mask)
  {
    var dst := c.dst + r.address - c.src;
    match r.kind
    case AlignDone => Pair(r.addend, Floor(dst + r.mask, r.mask))
    case Abs32CodeShrunk => Pair(r.address + 8, dst + 4)
    case _ => Pair(r.address + 4, dst + 4)
  }

  predicate Masked(relocs: seq<Reloc>) {
    forall k :: 0 <= k < |relocs| && relocs[k].kind.AlignDone? ==> IsMask(relocs[k].mask)
  }

  function Cursors(relocs: seq<Reloc>, k: nat): Pair
    requires k <= |relocs| && Masked(relocs)
  {
    if k == 0 then Pair(0, 0) else AfterReloc(Cursors(relocs, k - 1), relocs[k - 1])
  }

  /** What relocation `r` needs of the buffer when the cursors stand at `c`: the source's assertions,
      and that the write cursor never overtakes the read cursor. */
  predicate StepReady(c: Pair, r: Reloc, size: int) {
    && 0 <= c.dst <= c.src <= r.address - (if r.kind.Abs32Code? then 4 else 0)
    && !r.kind.Aligner?
    && (r.kind.AlignDone? ==> IsMask(r.mask) && r.address <= r.addend)
    && AfterReloc(c, r).dst <= AfterReloc(c, r).src <= size
  }

  predicate Consistent(relocs: seq<Reloc>, rawSize: int, cookedSize: int) {
    && Masked(relocs)
    && (forall k :: 0 <= k < |relocs| ==> ReadyAt(relocs, k, rawSize))
    && Cursors(relocs, |relocs|).src - Cursors(relocs, |relocs|).dst == rawSize - cookedSize
    && Cursors(relocs, |relocs|).src <= rawSize
  }

  predicate ReadyAt(relocs: seq<Reloc>, k: nat, size: int)
    requires Masked(relocs) && k < |relocs|
  {
    StepReady(Cursors(relocs, k), relocs[k], size)
  }

  // ---- what is written ----

  datatype Progress = Progress(src: int, out: seq<Byte>)

  /** The buffer once the first `|out|` bytes are overwritten. */
  function Buffer(orig: seq<Byte>, out: seq<Byte>): (b: seq<Byte>)
    requires |out| <= |orig|
    ensures |b| == |orig|
  {
    out + orig[|out|..]
  }

  lemma BufferTail(orig: seq<Byte>, out: seq<Byte>, at: nat)
    requires |out| <= at <= |orig|
    ensures Buffer(orig, out)[at..] == orig[at..]
  {
  }

  /** `calljx_callback` turns the `callx` word before the operand into a `balx`. */
  function PatchCall(out: seq<Byte>, buf: seq<Byte>, r: Reloc, syms: seq<Symbol>): (p: seq<Byte>)
    requires r.sym < |syms| && 4 <= |out| && 4 <= r.address <= |buf|
    ensures |p| == |out| && p[..|out| - 4] == out[..|out| - 4]
  {
    if syms[r.sym].other == N_CALLNAME then
      out[..|out| - 4] + PutL32(BALX + Word(buf, r.address - 4) % BALX_MOD)
    else out
  }

  /** The word relocation `r` leaves at offset `dst`, given the section's original bytes. */
  function Field(orig: seq<Byte>, r: Reloc, syms: seq<Symbol>, base: int, dst: int): int
    requires HasBalEntry(r, syms) && 0 <= r.address && r.address + 4 <= |orig|
    requires r.kind.Abs32CodeShrunk? ==> r.address + 8 <= |orig|
  {
    match r.kind
    case Abs32Code => LongOperand(Word(orig, r.address), r, syms, base)
    case Abs32 => Word(orig, r.address) + GetValue(syms[r.sym], r.addend, base)
    case CallJ => CallWord(Word(orig, r.address), r, syms, base, dst, false)
    case Abs32CodeShrunk => CallWord(Word(orig, r.address + 4), r, syms, base, dst, true)
    case Pcrel24 => Pcrel24Word(Word(orig, r.address), r, syms, base)
    case Pcrel13 => Pcrel13Word(Word(orig, r.address), r, syms, base)
    case _ => 0
  }

  /** The output after relocation `r`, given the output `out` after the run before it. Padding keeps the
      section's bytes at its new place. Only the word before a long call's operand depends on whether the
      output shares a buffer with the section, as it does in the source. */
  function Store(orig: seq<Byte>, out: seq<Byte>, r: Reloc, syms: seq<Symbol>, base: int, shared: bool): (o: seq<Byte>)
    requires HasBalEntry(r, syms) && 0 <= r.address <= |orig| && |out| <= r.address
    requires r.kind.Abs32Code? ==> 4 <= |out|
    requires if r.kind.AlignDone? then IsMask(r.mask) && Floor(|out| + r.mask, r.mask) <= |orig|
             else r.address + (if r.kind.Abs32CodeShrunk? then 8 else 4) <= |orig|
    ensures |o| == if r.kind.AlignDone? then Floor(|out| + r.mask, r.mask) else |out| + 4
    ensures if r.kind.Abs32Code? then out[..|out| - 4] <= o else out <= o
  {
    if r.kind.AlignDone? then out + orig[|out|..Floor(|out| + r.mask, r.mask)]
    else (if r.kind.Abs32Code? then PatchCall(out, if shared then Buffer(orig, out) else orig, r, syms) else out)
         + PutL32(Field(orig, r, syms, base, |out|))
  }

  function Emit(orig: seq<Byte>, c: Progress, r: Reloc, syms: seq<Symbol>, base: int, shared: bool): (d: Progress)
    requires StepReady(Pair(c.src, |c.out|), r, |orig|) && HasBalEntry(r, syms)
    ensures Pair(d.src, |d.out|) == AfterReloc(Pair(c.src, |c.out|), r)
    ensures c.out <= d.out
  {
    var run := c.out + orig[c.src..r.address];
    var out := Store(orig, run, r, syms, base, shared);
    assert c.out <= run[..if r.kind.Abs32Code? then |run| - 4 else |run|];
    Progress(AfterReloc(Pair(c.src, |c.out|), r).src, out)
  }

  predicate Copyable(orig: seq<Byte>, relocs: seq<Reloc>, syms: seq<Symbol>, size: int) {
    && Consistent(relocs, |orig|, size)
    && forall k :: 0 <= k < |relocs| ==> HasBalEntry(relocs[k], syms)
  }

  /** The output before relocation `k`. */
  function Copied(orig: seq<Byte>, relocs: seq<Reloc>, syms: seq<Symbol>, base: int, size: int, shared: bool, k: nat)
    : (c: Progress)
    requires Copyable(orig, relocs, syms, size) && k <= |relocs|
    ensures Pair(c.src, |c.out|) == Cursors(relocs, k)
    ensures 0 <= |c.out| <= c.src <= |orig|
  {
    if k == 0 then Progress(0, [])
    else
      var c := Copied(orig, relocs, syms, base, size, shared, k - 1);
      assert ReadyAt(relocs, k - 1, |orig|);
      Emit(orig, c, relocs[k - 1], syms, base, shared)
  }

  lemma CopiedStep(orig: seq<Byte>, relocs: seq<Reloc>, syms: seq<Symbol>, base: int, size: int, shared: bool, i: nat)
    requires Copyable(orig, relocs, syms, size) && i < |relocs|
    ensures StepReady(Cursors(relocs, i), relocs[i], |orig|) && HasBalEntry(relocs[i], syms)
    ensures Copied(orig, relocs, syms, base, size, shared, i + 1)
         == Emit(orig, Copied(orig, relocs, syms, base, size, shared, i), relocs[i], syms, base, shared)
  {
    assert ReadyAt(relocs, i, |orig|);
  }

  /** One copy of one section, in place if `shared`; `trace[k]` is the output before relocation `k`. */
  datatype Task = Task(orig: seq<Byte>, relocs: seq<Reloc>, syms: seq<Symbol>, base: int, size: int, shared: bool,
                       trace: seq<Progress>)

  predicate CopiedAt(x: Task, k: nat)
    requires Copyable(x.orig, x.relocs, x.syms, x.size) && k <= |x.relocs| < |x.trace|
  {
    x.trace[k] == Copied(x.orig, x.relocs, x.syms, x.base, x.size, x.shared, k)
  }

  type Job = x: Task | Copyable(x.orig, x.relocs, x.syms, x.size) && |x.trace| == |x.relocs| + 1
                       && forall k :: 0 <= k <= |x.relocs| ==> CopiedAt(x, k)
    witness Task([], [], [], 0, 0, true, [Progress(0, [])])

  function Copy(orig: seq<Byte>, relocs: seq<Reloc>, syms: seq<Symbol>, base: int, size: int, shared: bool): (x: Job)
    requires Copyable(orig, relocs, syms, size)
    ensures x.orig == orig && x.relocs == relocs && x.syms == syms && x.base == base && x.size == size
    ensures x.shared == shared
  {
    var n := |relocs|;
    var x := Task(orig, relocs, syms, base, size, shared,
                  seq(n + 1, k requires 0 <= k <= n => Copied(orig, relocs, syms, base, size, shared, k)));
    assert forall k :: 0 <= k <= n ==> CopiedAt(x, k);
    x
  }

  function CopyTo(x: Job, k: nat): Progress
    requires k <= |x.relocs|
  {
    x.trace[k]
  }

  lemma CursorsAt(x: Job, k: nat)
    requires k <= |x.relocs|
    ensures Pair(CopyTo(x, k).src, |CopyTo(x, k).out|) == Cursors(x.relocs, k)
    ensures 0 <= |CopyTo(x, k).out| <= CopyTo(x, k).src <= |x.orig|
  {
    assert CopiedAt(x, k);
  }

  /** The relocated section. */
  function Relocated(x: Job): (out: seq<Byte>)
    ensures |out| == x.size
  {
    CursorsAt(x, |x.relocs|);
    CopyTo(x, |x.relocs|).out + x.orig[CopyTo(x, |x.relocs|).src..]
  }

  lemma OneMore(x: Job, i: nat)
    requires i < |x.relocs|
    ensures StepReady(Pair(CopyTo(x, i).src, |CopyTo(x, i).out|), x.relocs[i], |x.orig|)
    ensures HasBalEntry(x.relocs[i], x.syms)
    ensures CopyTo(x, i + 1) == Emit(x.orig, CopyTo(x, i), x.relocs[i], x.syms, x.base, x.shared)
    ensures CopyTo(x, i).out <= CopyTo(x, i + 1).out
  {
    CopiedStep(x.orig, x.relocs, x.syms, x.base, x.size, x.shared, i);
    assert CopiedAt(x, i) && CopiedAt(x, i + 1);
  }

  function Outs(x: Job): (outs: seq<seq<Byte>>)
    ensures |outs| == |x.relocs| + 1
    ensures forall k :: 0 <= k <= |x.relocs| ==> outs[k] == CopyTo(x, k).out
  {
    seq(|x.relocs| + 1, k requires 0 <= k <= |x.relocs| => CopyTo(x, k).out)
  }

  lemma OutsGrow(x: Job)
    ensures forall j {:trigger Outs(x)[j]} :: 0 <= j < |x.relocs| ==> Outs(x)[j] <= Outs(x)[j + 1]
  {
    forall k | 0 <= k < |x.relocs| ensures Outs(x)[k] <= Outs(x)[k + 1] {
      OneMore(x, k);
    }
  }

  /** What is written stays written. */
  lemma Prefix(x: Job, i: nat)
    requires i <= |x.relocs|
    ensures CopyTo(x, i).out <= Relocated(x)
  {
    OutsGrow(x);
    Chain(Outs(x), i, |x.relocs|);
    LastPrefix(x);
    PrefixTrans(Outs(x)[i], Outs(x)[|x.relocs|], Relocated(x));
  }

  lemma LastPrefix(x: Job)
    ensures Outs(x)[|x.relocs|] <= Relocated(x)
  {
  }

  lemma {:induction false} Chain(outs: seq<seq<Byte>>, i: nat, k: nat)
    requires i <= k < |outs| && forall j {:trigger outs[j]} :: 0 <= j < |outs| - 1 ==> outs[j] <= outs[j + 1]
    ensures outs[i] <= outs[k]
  {
    if i < k {
      Chain(outs, i, k - 1);
      PrefixTrans(outs[i], outs[k - 1], outs[k]);
    }
  }

  lemma PrefixTrans(a: seq<Byte>, b: seq<Byte>, c: seq<Byte>)
    requires a <= b && b <= c
    ensures a <= c
  {
    assert a == b[..|a|] == c[..|a|];
  }

  // ---- the code ----

  method CopyRun(data: array<Byte>, src: nat, dst: nat, run: nat)
    requires dst <= src && src + run <= data.Length
    modifies data
    ensures data[..] == old(data[..dst] + data[src..src + run] + data[dst + run..])
  {
    var idx := 0;
    while idx < run
      invariant 0 <= idx <= run
      invariant data[..dst + idx] == old(data[..dst] + data[src..src + idx])
      invariant data[dst + idx..] == old(data[dst + idx..])
    {
      assert data[src + idx] == data[dst + idx..][src - dst] == old(data[dst + idx..])[src - dst];
      ghost var finished := data[..dst + idx];
      data[dst + idx] := data[src + idx];
      assert data[..dst + idx + 1] == finished + [old(data[src + idx])];
      assert data[dst + idx + 1..] == old(data[dst + idx..])[1..];
      idx := idx + 1;
    }
    assert data[..] == data[..dst + run] + data[dst + run..];
  }

  /** Append a word to the finished part `out` of the buffer. */
  method AppendWord(data: array<Byte>, dst: nat, x: int, ghost orig: seq<Byte>, ghost out: seq<Byte>)
    requires |out| == dst && dst + 4 <= |orig| && data[..] == Buffer(orig, out)
    modifies data
    ensures data[..] == Buffer(orig, out + PutL32(x))
  {
    assert data[..dst] == out && data[dst + 4..] == orig[dst + 4..];
    PutWord(data, dst, x);
  }

  /** Overwrite the last word of the finished part. */
  method ReplaceWord(data: array<Byte>, dst: nat, x: int, ghost orig: seq<Byte>, ghost out: seq<Byte>)
    requires |out| == dst && 4 <= dst <= |orig| && data[..] == Buffer(orig, out)
    modifies data
    ensures data[..] == Buffer(orig, out[..dst - 4] + PutL32(x))
  {
    assert data[..dst - 4] == out[..dst - 4] && data[dst..] == orig[dst..];
    PutWord(data, dst - 4, x);
  }

  /** The word is read from the buffer, where it is still the original one. */
  method StoreField(data: array<Byte>, src: nat, dst: nat, r: Reloc, syms: seq<Symbol>, base: int,
                    ghost orig: seq<Byte>, ghost out: seq<Byte>)
    requires HasBalEntry(r, syms) && |out| == dst && r.address == src && dst <= src <= |orig|
    requires !r.kind.Aligner? && !r.kind.AlignDone?
    requires src + (if r.kind.Abs32CodeShrunk? then 8 else 4) <= |orig|
    requires data[..] == Buffer(orig, out)
    modifies data
    ensures data[..] == Buffer(orig, out + PutL32(Field(orig, r, syms, base, dst)))
  {
    var at := if r.kind.Abs32CodeShrunk? then src + 4 else src;
    var word := Word(data[..], at);
    BufferTail(orig, out, at);
    var field: int;
    match r.kind {
      case Abs32Code => field := LongOperand(word, r, syms, base);
      case Abs32 => field := word + GetValue(syms[r.sym], r.addend, base);
      case CallJ => field := CallWord(word, r, syms, base, dst, false);
      case Abs32CodeShrunk => field := CallWord(word, r, syms, base, dst, true);
      case Pcrel24 => field := Pcrel24Word(word, r, syms, base);
      case Pcrel13 => field := Pcrel13Word(word, r, syms, base);
    }
    AppendWord(data, dst, field, orig, out);
  }

  method PatchLongCall(data: array<Byte>, src: nat, dst: nat, r: Reloc, syms: seq<Symbol>,
                       ghost orig: seq<Byte>, ghost out: seq<Byte>)
    requires r.sym < |syms| && |out| == dst && r.address == src && 4 <= dst <= src <= |orig|
    requires data[..] == Buffer(orig, out)
    modifies data
    ensures data[..] == Buffer(orig, PatchCall(out, Buffer(orig, out), r, syms))
  {
    if syms[r.sym].other == N_CALLNAME {
      var inst := Word(data[..], src - 4);
      ReplaceWord(data, dst, BALX + inst % BALX_MOD, orig, out);
    }
  }

  /** What relocation `r` does to the buffer once the run before it is copied. */
  method ApplyReloc(data: array<Byte>, src: nat, dst: nat, r: Reloc, syms: seq<Symbol>, base: int,
                    ghost orig: seq<Byte>, ghost out: seq<Byte>)
    returns (newSrc: nat, newDst: nat)
    requires HasBalEntry(r, syms) && |out| == dst && r.address == src && dst <= src <= |orig|
    requires r.kind.Abs32Code? ==> 4 <= dst
    requires !r.kind.Aligner?
    requires if r.kind.AlignDone? then IsMask(r.mask) && Floor(dst + r.mask, r.mask) <= |orig| && 0 <= r.addend
             else src + (if r.kind.Abs32CodeShrunk? then 8 else 4) <= |orig|
    requires data[..] == Buffer(orig, out)
    modifies data
    ensures newDst == |Store(orig, out, r, syms, base, true)|
    ensures newSrc == AfterReloc(Pair(src, dst), r).src
    ensures data[..] == Buffer(orig, Store(orig, out, r, syms, base, true))
  {
    hide Field, PatchCall, LongOperand;
    newSrc, newDst := src + 4, dst + 4;
    if r.kind.AlignDone? {
      newSrc := r.addend;
      newDst := Floor(dst + r.mask, r.mask);
      assert orig[dst..] == orig[dst..newDst] + orig[newDst..];
    } else if r.kind.Abs32Code? {
      PatchLongCall(data, src, dst, r, syms, orig, out);
      StoreField(data, src, dst, r, syms, base, orig, PatchCall(out, Buffer(orig, out), r, syms));
    } else {
      StoreField(data, src, dst, r, syms, base, orig, out);
      if r.kind.Abs32CodeShrunk? {
        newSrc := src + 8;
      }
    }
  }

  /** One turn of the loop: copy up to relocation `r`, then apply it. */
  method CopyReloc(data: array<Byte>, src: nat, dst: nat, r: Reloc, syms: seq<Symbol>, base: int,
                   ghost orig: seq<Byte>, ghost c: Progress)
    returns (newSrc: nat, newDst: nat)
    requires StepReady(Pair(c.src, |c.out|), r, |orig|) && HasBalEntry(r, syms)
    requires src == c.src && dst == |c.out| && data[..] == Buffer(orig, c.out)
    modifies data
    ensures newSrc == Emit(orig, c, r, syms, base, true).src && newDst == |Emit(orig, c, r, syms, base, true).out|
    ensures data[..] == Buffer(orig, Emit(orig, c, r, syms, base, true).out)
  {
    assert r.address >= src;
    var run := r.address - src;
    CopyRunOf(data, src, dst, run, orig, c.out);
    newSrc, newDst := ApplyReloc(data, src + run, dst + run, r, syms, base, orig, c.out + orig[c.src..r.address]);
  }

  /** Copying a run reads only bytes that are not overwritten yet. */
  method CopyRunOf(data: array<Byte>, src: nat, dst: nat, run: nat, ghost orig: seq<Byte>, ghost out: seq<Byte>)
    requires |out| == dst && dst <= src && src + run <= |orig| && data[..] == Buffer(orig, out)
    modifies data
    ensures data[..] == Buffer(orig, out + orig[src..src + run])
  {
    assert data[..dst] == out && data[src..src + run] == orig[src..src + run] && data[dst + run..] == orig[dst + run..];
    CopyRun(data, src, dst, run);
  }

  /** The state of the buffer between two turns of the loop. */
  ghost predicate Stands(x: Job, i: nat, data: seq<Byte>, src: int, dst: int) {
    && x.shared && i <= |x.relocs|
    && src == CopyTo(x, i).src && dst == |CopyTo(x, i).out|
    && dst <= |x.orig| && data == Buffer(x.orig, CopyTo(x, i).out)
  }

  method NextReloc(data: array<Byte>, src: nat, dst: nat, i: nat, relocs: seq<Reloc>, syms: seq<Symbol>, base: int,
                   ghost x: Job)
    returns (newSrc: nat, newDst: nat)
    requires i < |relocs| && relocs == x.relocs && syms == x.syms && base == x.base
    requires Stands(x, i, data[..], src, dst)
    modifies data
    ensures Stands(x, i + 1, data[..], newSrc, newDst)
    ensures newDst <= newSrc <= data.Length && newDst <= x.size
  {
    OneMore(x, i);
    newSrc, newDst := CopyReloc(data, src, dst, relocs[i], syms, base, x.orig, CopyTo(x, i));
    Prefix(x, i + 1);
    CursorsAt(x, i + 1);
  }

  /** The turn after the last relocation copies what is left. */
  method FinishRun(data: array<Byte>, src: nat, dst: nat, size: nat, ghost x: Job)
    returns (newSrc: nat, newDst: nat)
    requires Stands(x, |x.relocs|, data[..], src, dst) && dst <= size == x.size
    modifies data
    ensures newDst == size && newDst <= newSrc <= data.Length && data[..size] == Relocated(x)
  {
    CursorsAt(x, |x.relocs|);
    var run := size - dst;
    CopyRunOf(data, src, dst, run, x.orig, CopyTo(x, |x.relocs|).out);
    newSrc, newDst := src + run, dst + run;
  }

  lemma Begin(x: Job)
    ensures 0 <= x.size <= |x.orig| && (x.shared ==> Stands(x, 0, x.orig, 0, 0))
    ensures |x.relocs| == 0 ==> x.orig == Relocated(x)
  {
    assert CopiedAt(x, 0);
    CursorsAt(x, |x.relocs|);
    assert x.orig[0..] == x.orig;
    Prefix(x, 0);
  }

  /** The loop's invariant; `tail` once the last run is copied. */
  ghost predicate Turning(x: Job, i: nat, tail: bool, data: seq<Byte>, src: int, dst: int) {
    && i <= |x.relocs| && 0 <= dst <= src <= |data| && dst <= x.size <= |data|
    && if tail then i == |x.relocs| && dst == x.size && data[..x.size] == Relocated(x)
       else Stands(x, i, data, src, dst)
  }

  lemma Stopped(x: Job, i: nat, tail: bool, data: seq<Byte>, src: int, dst: int)
    requires Turning(x, i, tail, data, src, dst) && dst >= x.size
    ensures x.size <= |data| && data[..x.size] == Relocated(x)
  {
    Prefix(x, i);
  }

  method Turn(data: array<Byte>, src: nat, dst: nat, i: nat, relocs: seq<Reloc>, syms: seq<Symbol>, base: int,
              size: nat, ghost x: Job)
    returns (newSrc: nat, newDst: nat, next: nat)
    requires relocs == x.relocs && syms == x.syms && base == x.base && size == x.size
    requires Turning(x, i, false, data[..], src, dst) && dst < size
    modifies data
    ensures next == (if i < |relocs| then i + 1 else i)
    ensures Turning(x, next, i == |relocs|, data[..], newSrc, newDst)
  {
    next := i;
    if i < |relocs| {
      newSrc, newDst := NextReloc(data, src, dst, i, relocs, syms, base, x);
      next := i + 1;
    } else {
      newSrc, newDst := FinishRun(data, src, dst, size, x);
    }
  }

  /** The copy loop. The bytes it leaves in front are the relocated section, although source and
      destination share one buffer. */
  method CopySection(data: array<Byte>, relocs: seq<Reloc>, syms: seq<Symbol>, base: int, size: nat)
    requires Copyable(data[..], relocs, syms, size)
    modifies data
    ensures size <= data.Length
    ensures data[..size] == Relocated(Copy(old(data[..]), relocs, syms, base, size, true))
  {
    ghost var x := Copy(data[..], relocs, syms, base, size, true);
    Begin(x);
    if |relocs| == 0 {
      return;
    }
    var src, dst, i := 0, 0, 0;
    ghost var tail := false;
    while dst < size
      invariant Turning(x, i, tail, data[..], src, dst)
      decreases |relocs| - i, size - dst
    {
      tail := i == |relocs|;
      src, dst, i := Turn(data, src, dst, i, relocs, syms, base, size, x);
    }
    Stopped(x, i, tail, data[..], src, dst);
  }
}
