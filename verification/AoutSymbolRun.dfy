/** One input's symbols on their way to the output: what has to hold while they are handled one by one. */
module AoutSymbolRun {
  import opened Words
  import opened AoutTypes
  import opened AoutIncludes
  import opened AoutSymbolValues

  datatype Strip = StripNone | StripDebugger | StripSome | StripAll

  datatype Discard = DiscardNone | DiscardLocalLabels | DiscardAll

  /** The linker's options; local labels start with `prefix`. */
  datatype Options = Options(strip: Strip, discard: Discard, keep: set<seq<Byte>>, prefix: Byte)

  /** An entry of the linker's hash table. What it stands for is settled when output begins. */
  class HashEntry {
    const name: seq<Byte>
    const kind: Kind
    const link: HashEntry?
    ghost const rank: nat
    var written: bool
    var indx: int

    constructor (name: seq<Byte>, kind: Kind, link: HashEntry?, ghost rank: nat)
      ensures this.name == name && this.kind == kind && this.link == link && this.rank == rank
      ensures !written && indx == -1
    {
      this.name, this.kind, this.link, this.rank := name, kind, link, rank;
      written, indx := false, -1;
    }
  }

  predicate Forwards(k: Kind) {
    k.Indirect? || k.Warning?
  }

  /** Indirect and warning entries lead on, and not in circles. */
  ghost predicate Linked(entries: seq<HashEntry>) {
    forall h :: h in entries && Forwards(h.kind) ==> h.link != null && h.link in entries && h.link.rank < h.rank
  }

  ghost function Base(entries: seq<HashEntry>, h: HashEntry): (b: HashEntry)
    requires Linked(entries) && h in entries
    ensures b in entries && !Forwards(b.kind)
    decreases h.rank
  {
    if Forwards(h.kind) then Base(entries, h.link) else h
  }

  /** `hresolve`. */
  method Resolve(ghost entries: seq<HashEntry>, h: HashEntry) returns (hresolve: HashEntry)
    requires Linked(entries) && h in entries
    ensures hresolve == Base(entries, h)
  {
    hresolve := h;
    if Forwards(h.kind) {
      hresolve := h.link;
      while Forwards(hresolve.kind)
        invariant hresolve in entries && Base(entries, hresolve) == Base(entries, h)
        decreases hresolve.rank
      {
        hresolve := hresolve.link;
      }
    }
  }

  // ---- an input and its output ----

  /** An input: its symbols, the hash entries of the external ones, its sections. */
  datatype Input = Input(filename: seq<Byte>, syms: seq<Sym>, hashes: seq<HashEntry?>, sections: Sections)

  /** As the reader of symbols leaves it: no debugging symbol has an entry. */
  ghost predicate GoodInput(entries: seq<HashEntry>, inp: Input) {
    && Linked(entries) && |inp.hashes| == |inp.syms|
    && forall k :: 0 <= k < |inp.syms| && inp.hashes[k] != null
         ==> inp.hashes[k] in entries && !IsStab(inp.syms[k].type_)
  }

  function Stabs(syms: seq<Sym>): (s: seq<Stab>)
    ensures |s| == |syms|
    ensures forall k :: 0 <= k < |syms| ==> s[k] == Stab(syms[k].type_, syms[k].name)
  {
    seq(|syms|, k requires 0 <= k < |syms| => Stab(syms[k].type_, syms[k].name))
  }

  /** Whom a record of the output belongs to: a file, a symbol of the input without an entry (maybe passed through
      unchanged), an entry. */
  datatype Owner = OfFile | OfLocal(k: nat, raw: bool) | OfEntry(h: HashEntry)

  datatype OutputSlot = OutputSlot(owner: Owner, src: nat, rec: Nlist)

  function RawRecord(s: Sym): Nlist {
    Nlist(s.name, s.type_, s.other, s.desc, Wrap(s.value))
  }

  /** The record of a symbol without an entry. */
  function LocalRecord(inp: Input, dups: set<nat>, k: nat, raw: bool): Nlist
    requires k < |inp.syms|
  {
    var s := inp.syms[k];
    if raw then RawRecord(s)
    else if s.type_ == N_BINCL then
      Nlist(s.name, if k in dups then N_EXCL else N_BINCL, s.other, s.desc, Total(Stabs(inp.syms), k))
    else
      var m := MeaningOf(inp.sections, s, None);
      Nlist(s.name, m.type_, s.other, s.desc, m.val)
  }

  /** The record of a symbol with entry `h`. */
  ghost function GlobalRecord(entries: seq<HashEntry>, inp: Input, k: nat, h: HashEntry): Nlist
    requires GoodInput(entries, inp) && k < |inp.syms| && h in entries
  {
    var s := inp.syms[k];
    var m := MeaningOf(inp.sections, s, Some(Base(entries, h).kind));
    Nlist(h.name, m.type_, s.other, s.desc, m.val)
  }

  ghost predicate RightRecord(entries: seq<HashEntry>, inp: Input, dups: set<nat>, s: OutputSlot)
    requires GoodInput(entries, inp)
  {
    match s.owner
    case OfFile => false
    case OfLocal(k, raw) => s.src == k < |inp.syms| && s.rec == LocalRecord(inp, dups, k, raw)
    case OfEntry(h) =>
      s.src < |inp.syms| && inp.hashes[s.src] == h && s.rec == GlobalRecord(entries, inp, s.src, h)
  }

  /** What a right record says. Its other two fields are the symbol's. An entry's has the entry's name; a header's the
      total of its contents, with another type if it is replaced; one passed through is the symbol's own; all others
      have the type and value their symbol means. */
  lemma RecordSays(entries: seq<HashEntry>, inp: Input, dups: set<nat>, s: OutputSlot)
    requires GoodInput(entries, inp) && RightRecord(entries, inp, dups, s)
    ensures s.src < |inp.syms| && s.rec.other == inp.syms[s.src].other && s.rec.desc == inp.syms[s.src].desc
    ensures s.owner.OfEntry? ==> inp.hashes[s.src] == s.owner.h && s.owner.h in entries
    ensures s.owner.OfEntry? ==>
      var m := MeaningOf(inp.sections, inp.syms[s.src], Some(Base(entries, s.owner.h).kind));
      s.rec.name == s.owner.h.name && s.rec.type_ == m.type_ && s.rec.value == m.val
    ensures !s.owner.OfEntry? ==> s.owner.OfLocal? && s.owner.k == s.src && s.rec.name == inp.syms[s.src].name
    ensures s.owner.OfLocal? ==>
      var y, m := inp.syms[s.src], MeaningOf(inp.sections, inp.syms[s.src], None);
      if s.owner.raw then s.rec.type_ == y.type_ && s.rec.value == y.value % WORD
      else if y.type_ == 0x82 then
        s.rec.type_ == (if s.src in dups then 0xc2 else 0x82) && s.rec.value == Total(Stabs(inp.syms), s.src)
      else s.rec.type_ == m.type_ && s.rec.value == m.val
  {
    hide MeaningOf, Total;
  }

  /** What changes of an entry. */
  datatype Status = Status(written: bool, indx: int)

  /** The part of a run that concerns one input: the symbol map, all records so far, the headers handled, the state of
      the hash entries. */
  datatype Run = Run(map_: seq<int>, slots: seq<OutputSlot>, heads: seq<nat>, dups: set<nat>,
                     st: map<HashEntry, Status>)

  /** Where the symbol map leads for a symbol that was handled. */
  predicate Leads(inp: Input, base: nat, r: Run, j: nat)
    requires j < |r.map_| && j < |inp.hashes|
  {
    var i := r.map_[j];
    i >= 0 ==> i < |r.slots| && var o := r.slots[i].owner;
               (o.OfLocal? && o.k == j && i >= base) || (inp.hashes[j] != null && o == OfEntry(inp.hashes[j]))
  }

  /** A symbol whose successor says what it stands for. */
  predicate Pointing(s: Sym) {
    TypeBits(s.type_) == N_INDR || s.type_ == N_WARNING
  }

  predicate Bracket(s: Sym) {
    s.type_ == N_BINCL || s.type_ == N_EINCL
  }

  /** No bracket is the target of an indirect symbol or a warning. */
  predicate Tidy(syms: seq<Sym>) {
    forall j :: 0 < j < |syms| && Pointing(syms[j - 1]) ==> !Bracket(syms[j])
  }

  predicate KeepsAll(o: Options) {
    o.strip.StripNone? && o.discard.DiscardNone?
  }

  /** A symbol that can be lost only to a header seen before. */
  predicate OnlyHeadersTake(inp: Input, j: nat)
    requires j < |inp.syms| == |inp.hashes|
  {
    inp.hashes[j] == null && !IsTarget(inp, j)
  }

  predicate IsTarget(inp: Input, j: nat)
    requires j < |inp.syms|
  {
    j > 0 && Pointing(inp.syms[j - 1])
  }

  /** The map says of a symbol with an entry what the entry says, which is then taken as written. */
  predicate Answered(inp: Input, r: Run, j: nat)
    requires j < |inp.syms| == |inp.hashes| && j < |r.map_|
  {
    var h := inp.hashes[j];
    h != null && !h.kind.Warning? && !IsTarget(inp, j) && !Dropped(Stabs(inp.syms), r.dups, j) ==>
      h in r.st && r.st[h] == Status(true, r.map_[j])
  }

  /** What became of symbol `j`, if nothing is stripped. */
  predicate Survival(inp: Input, r: Run, j: nat)
    requires j < |inp.syms| == |inp.hashes| && j < |r.map_|
  {
    && (Dropped(Stabs(inp.syms), r.dups, j) ==> r.map_[j] == -1)
    && (OnlyHeadersTake(inp, j) && !Dropped(Stabs(inp.syms), r.dups, j) ==> r.map_[j] >= 0)
    && (OnlyHeadersTake(inp, j) && inp.syms[j].type_ == N_BINCL ==> j in r.heads)
    && Answered(inp, r, j)
  }

  /** The types of the records from `base` on. */
  function TypesFrom(slots: seq<OutputSlot>, base: nat): (t: seq<Byte>)
    requires base <= |slots|
    ensures |t| == |slots| - base
  {
    seq<Byte>(|slots| - base, i requires 0 <= i < |slots| - base => slots[base + i].rec.type_)
  }

  // ---- what holds after `k` symbols ----

  ghost predicate Shape(entries: seq<HashEntry>, inp: Input, base: nat, r: Run, k: nat)
    requires GoodInput(entries, inp)
  {
    && |r.map_| == |inp.syms| && k <= |inp.syms| && base <= |r.slots| <= base + k
    && (forall j :: 0 <= j < k ==> Leads(inp, base, r, j))
    && (forall i :: base <= i < |r.slots| ==> RightRecord(entries, inp, r.dups, r.slots[i]))
  }

  /** Symbols not yet handled are marked exactly if they belong to a header seen before. */
  predicate Marked(inp: Input, r: Run, k: nat) {
    && |r.map_| == |inp.syms|
    && (forall j :: k <= j < |inp.syms| ==>
          r.map_[j] == if Dropped(Stabs(inp.syms), r.dups, j) then -1 else 0)
    && (forall i :: i in r.dups ==> i < k && i < |inp.syms| && inp.syms[i].type_ == N_BINCL)
  }

  predicate Survivals(inp: Input, r: Run, k: nat) {
    |r.map_| == |inp.syms| == |inp.hashes| && k <= |inp.syms| && forall j :: 0 <= j < k ==> Survival(inp, r, j)
  }

  predicate Levels(inp: Input, base: nat, r: Run, k: nat) {
    && base <= |r.slots| && k <= |inp.syms|
    && Level(TypesFrom(r.slots, base)) == Level(Reduced(Stabs(inp.syms), r.dups, k))
  }

  // ---- headers seen ----

  /** For each header name the totals seen with it. */
  type Includes = map<seq<Byte>, seq<int>>

  /** Name and total of a header. */
  datatype Header = Header(name: seq<Byte>, total: int)

  function HeaderOf(syms: seq<Sym>, k: nat): Header
    requires k < |syms|
  {
    Header(syms[k].name, Total(Stabs(syms), k))
  }

  predicate Seen(includes: Includes, h: Header) {
    h.name in includes && h.total in includes[h.name]
  }

  /** One of the first `m` headers has this name and total. */
  predicate Met(syms: seq<Sym>, heads: seq<nat>, m: nat, h: Header)
    requires m <= |heads| && forall i :: 0 <= i < |heads| ==> heads[i] < |syms|
  {
    exists i :: 0 <= i < m && HeaderOf(syms, heads[i]) == h
  }

  predicate HeadsValid(syms: seq<Sym>, heads: seq<nat>, k: nat) {
    k <= |syms| && forall i :: 0 <= i < |heads| ==> heads[i] < k && syms[heads[i]].type_ == N_BINCL
  }

  /** A header is replaced exactly if one with the same name and total came before, in this input or an earlier one. */
  predicate ReplacedRight(before: Includes, syms: seq<Sym>, r: Run, i: nat)
    requires HeadsValid(syms, r.heads, |syms|) && i < |r.heads|
  {
    r.heads[i] in r.dups <==>
      Seen(before, HeaderOf(syms, r.heads[i])) || Met(syms, r.heads, i, HeaderOf(syms, r.heads[i]))
  }

  ghost predicate Heads(before: Includes, now: Includes, syms: seq<Sym>, r: Run, k: nat) {
    && k <= |syms| && HeadsValid(syms, r.heads, k) && HeadsValid(syms, r.heads, |syms|)
    && (forall i :: 0 <= i < |r.heads| ==> ReplacedRight(before, syms, r, i))
    && (forall h :: Seen(now, h) <==> Seen(before, h) || Met(syms, r.heads, |r.heads|, h))
    && (forall i :: i in r.dups ==> i in r.heads)
  }

  // ---- steps ----

  /** Symbol `k` is handled without a record of its own; `v` is what the map says of it. */
  function Passed(r: Run, k: nat, v: int): Run
    requires k < |r.map_|
  {
    r.(map_ := r.map_[k := v])
  }

  /** Symbol `k` gets the next record. */
  function Emitted(r: Run, k: nat, s: OutputSlot): Run
    requires k < |r.map_|
  {
    r.(map_ := r.map_[k := |r.slots|], slots := r.slots + [s],
       st := if s.owner.OfEntry? then r.st[s.owner.h := Status(true, |r.slots|)] else r.st)
  }

  lemma PassedShape(entries: seq<HashEntry>, inp: Input, base: nat, r: Run, k: nat, v: int)
    requires GoodInput(entries, inp) && Shape(entries, inp, base, r, k) && k < |inp.syms|
    requires v >= 0 ==> inp.hashes[k] != null && v < |r.slots| && r.slots[v].owner == OfEntry(inp.hashes[k])
    ensures Shape(entries, inp, base, Passed(r, k, v), k + 1)
  {
    hide RightRecord;
    var t := Passed(r, k, v);
    forall j | 0 <= j < k + 1 ensures Leads(inp, base, t, j) {
      assert j < k ==> Leads(inp, base, r, j);
    }
  }

  lemma EmittedShape(entries: seq<HashEntry>, inp: Input, base: nat, r: Run, k: nat, s: OutputSlot)
    requires GoodInput(entries, inp) && Shape(entries, inp, base, r, k) && k < |inp.syms|
    requires RightRecord(entries, inp, r.dups, s)
    requires (s.owner.OfLocal? && s.owner.k == k)
          || (inp.hashes[k] != null && s.owner == OfEntry(inp.hashes[k]))
    ensures Shape(entries, inp, base, Emitted(r, k, s), k + 1)
  {
    hide RightRecord;
    var t := Emitted(r, k, s);
    forall j | 0 <= j < k + 1 ensures Leads(inp, base, t, j) {
      assert j < k ==> Leads(inp, base, r, j);
    }
    forall i | base <= i < |t.slots| ensures RightRecord(entries, inp, t.dups, t.slots[i]) {
      assert i < |r.slots| ==> RightRecord(entries, inp, r.dups, r.slots[i]);
    }
  }

  lemma StepMarked(inp: Input, r: Run, k: nat, v: int, t: Run)
    requires Marked(inp, r, k) && k < |inp.syms| && t.map_ == r.map_[k := v] && t.dups == r.dups
    ensures Marked(inp, t, k + 1)
  {
    hide Dropped;
  }

  /** Header `k` was seen before: what belongs to it is marked. */
  function Replaced(inp: Input, r: Run, k: nat): Run
    requires k < |inp.syms| == |r.map_|
  {
    r.(map_ := seq(|r.map_|, j requires 0 <= j < |r.map_| =>
                     if k < j && Within(Stabs(inp.syms), k, j) then -1 else r.map_[j]),
       heads := r.heads + [k], dups := r.dups + {k})
  }

  function Learned(r: Run, k: nat): Run {
    r.(heads := r.heads + [k])
  }

  lemma DroppedMore(syms: seq<Stab>, dups: set<nat>, k: nat, j: nat)
    requires j < |syms|
    ensures Dropped(syms, dups + {k}, j) <==> Dropped(syms, dups, j) || Within(syms, k, j)
  {
    if Dropped(syms, dups, j) {
      var i :| i in dups && Within(syms, i, j);
      assert i in dups + {k};
    }
    if Within(syms, k, j) {
      assert k in dups + {k};
    }
  }

  /** A symbol belongs only to headers before it. */
  lemma WithinLater(syms: seq<Stab>, i: nat, j: nat)
    requires j < |syms| && Within(syms, i, j)
    ensures i < j
  {
  }

  lemma ReplacedMarked(inp: Input, r: Run, k: nat)
    requires Marked(inp, r, k + 1) && k < |inp.syms| && inp.syms[k].type_ == N_BINCL
    ensures Marked(inp, Replaced(inp, r, k), k + 1)
  {
    hide Dropped, Within;
    var t := Replaced(inp, r, k);
    var stabs := Stabs(inp.syms);
    forall j | k + 1 <= j < |inp.syms|
      ensures t.map_[j] == if Dropped(stabs, t.dups, j) then -1 else 0 {
      DroppedMore(stabs, r.dups, k, j);
    }
  }

  /** A replaced header does not touch what came before it. */
  lemma DroppedBefore(syms: seq<Stab>, dups: set<nat>, k: nat, j: nat)
    requires j <= k < |syms|
    ensures Dropped(syms, dups + {k}, j) <==> Dropped(syms, dups, j)
  {
    DroppedMore(syms, dups, k, j);
    if Within(syms, k, j) {
      WithinLater(syms, k, j);
    }
  }

  lemma SameRecord(entries: seq<HashEntry>, inp: Input, dups: set<nat>, k: nat, s: OutputSlot)
    requires GoodInput(entries, inp) && RightRecord(entries, inp, dups, s)
    requires s.owner.OfLocal? ==> s.owner.k < k
    ensures RightRecord(entries, inp, dups + {k}, s)
  {
    hide MeaningOf, Total, GlobalRecord;
  }

  /** The records of the symbols before `k` come from them. */
  predicate Earlier(base: nat, slots: seq<OutputSlot>, k: nat) {
    forall i :: base <= i < |slots| && slots[i].owner.OfLocal? ==> slots[i].owner.k < k
  }

  lemma ReplacedShape(entries: seq<HashEntry>, inp: Input, base: nat, r: Run, k: nat)
    requires GoodInput(entries, inp) && Shape(entries, inp, base, r, k) && k < |inp.syms| && Earlier(base, r.slots, k)
    ensures Shape(entries, inp, base, Replaced(inp, r, k), k)
  {
    hide RightRecord, Within;
    var t := Replaced(inp, r, k);
    forall j | 0 <= j < k ensures Leads(inp, base, t, j) {
      assert Leads(inp, base, r, j) && t.map_[j] == r.map_[j];
    }
    forall i | base <= i < |t.slots| ensures RightRecord(entries, inp, t.dups, t.slots[i]) {
      SameRecord(entries, inp, r.dups, k, r.slots[i]);
    }
  }

  lemma ReplacedSurvivals(inp: Input, r: Run, k: nat)
    requires Survivals(inp, r, k) && k < |inp.syms|
    ensures Survivals(inp, Replaced(inp, r, k), k)
  {
    hide Dropped, Within;
    var t := Replaced(inp, r, k);
    forall j | 0 <= j < k ensures Survival(inp, t, j) {
      assert Survival(inp, r, j) && t.map_[j] == r.map_[j];
      DroppedBefore(Stabs(inp.syms), r.dups, k, j);
    }
  }

  lemma LearnedSurvivals(inp: Input, r: Run, k: nat)
    requires Survivals(inp, r, k) && k < |inp.syms|
    ensures Survivals(inp, Learned(r, k), k)
  {
    hide Dropped;
    forall j | 0 <= j < k ensures Survival(inp, Learned(r, k), j) {
      assert Survival(inp, r, j);
    }
  }

  /** What is said of entries already output stays true. */
  predicate StillTrue(before: map<HashEntry, Status>, after: map<HashEntry, Status>) {
    forall h :: h in before && before[h].written && !h.kind.Warning? ==> h in after && after[h] == before[h]
  }

  lemma StepSurvivals(inp: Input, r: Run, k: nat, v: int, t: Run)
    requires Survivals(inp, r, k) && k < |inp.syms|
    requires t.map_ == r.map_[k := v] && t.dups == r.dups && t.heads == r.heads
    requires StillTrue(r.st, t.st) && Survival(inp, t, k)
    ensures Survivals(inp, t, k + 1)
  {
    hide Dropped;
    forall j | 0 <= j < k + 1 ensures Survival(inp, t, j) {
      if j < k {
        assert Survival(inp, r, j) && t.map_[j] == r.map_[j];
      }
    }
  }

  // ---- levels ----

  lemma TypesOneMore(slots: seq<OutputSlot>, base: nat, s: OutputSlot)
    requires base <= |slots|
    ensures TypesFrom(slots + [s], base) == TypesFrom(slots, base) + [s.rec.type_]
  {
  }

  predicate Neutral(t: Byte) {
    t != N_BINCL && t != N_EINCL
  }

  lemma NeutralLevel(types: seq<Byte>, t: Byte)
    requires Neutral(t)
    ensures Level(types + [t]) == Level(types)
  {
    LevelAppend(types, t);
  }

  /** Nothing is output: the symbol was dropped, or it is no bracket. */
  lemma PassedLevels(inp: Input, base: nat, r: Run, k: nat, v: int)
    requires Levels(inp, base, r, k) && k < |inp.syms| == |r.map_|
    requires Dropped(Stabs(inp.syms), r.dups, k) || (!Bracket(inp.syms[k]) && k !in r.dups)
    ensures Levels(inp, base, Passed(r, k, v), k + 1)
  {
    hide Dropped, Level;
    if !Dropped(Stabs(inp.syms), r.dups, k) {
      NeutralLevel(Reduced(Stabs(inp.syms), r.dups, k), inp.syms[k].type_);
    }
  }

  /** A record is output that is a bracket just like what remains of the symbol. */
  lemma EmittedLevels(inp: Input, base: nat, r: Run, k: nat, s: OutputSlot)
    requires Levels(inp, base, r, k) && k < |inp.syms| == |r.map_| && !Dropped(Stabs(inp.syms), r.dups, k)
    requires var t := if k in r.dups then N_EXCL else inp.syms[k].type_;
             s.rec.type_ == t || (Neutral(t) && Neutral(s.rec.type_))
    ensures Levels(inp, base, Emitted(r, k, s), k + 1)
  {
    hide Dropped, Level, TypesFrom;
    var t := if k in r.dups then N_EXCL else inp.syms[k].type_;
    TypesOneMore(r.slots, base, s);
    var out := Reduced(Stabs(inp.syms), r.dups, k);
    assert Reduced(Stabs(inp.syms), r.dups, k + 1) == out + [t];
    LevelAppend(out, t);
    LevelAppend(TypesFrom(r.slots, base), s.rec.type_);
  }

  lemma {:induction false} ReducedBefore(syms: seq<Stab>, dups: set<nat>, k: nat, j: nat)
    requires j <= k < |syms|
    ensures Reduced(syms, dups + {k}, j) == Reduced(syms, dups, j)
    decreases j
  {
    hide Dropped;
    if j > 0 {
      DroppedBefore(syms, dups, k, j - 1);
      ReducedBefore(syms, dups, k, j - 1);
    }
  }

  lemma ReplacedLevels(inp: Input, base: nat, r: Run, k: nat)
    requires Levels(inp, base, r, k) && k < |inp.syms| == |r.map_|
    ensures Levels(inp, base, Replaced(inp, r, k), k)
  {
    hide Reduced, Level, TypesFrom, Within;
    ReducedBefore(Stabs(inp.syms), r.dups, k, k);
  }

  // ---- headers ----

  lemma MetMore(syms: seq<Sym>, heads: seq<nat>, k: nat, m: nat, h: Header)
    requires HeadsValid(syms, heads, |syms|) && k < |syms| && m <= |heads| + 1
    ensures Met(syms, heads + [k], m, h) <==> Met(syms, heads, if m <= |heads| then m else |heads|, h)
                                              || (m == |heads| + 1 && HeaderOf(syms, k) == h)
  {
    hide HeaderOf;
    var more := heads + [k];
    assert forall i :: 0 <= i < |heads| ==> more[i] == heads[i];
    assert more[|heads|] == k;
    if Met(syms, heads, if m <= |heads| then m else |heads|, h) {
      var i :| 0 <= i < |heads| && i < m && HeaderOf(syms, heads[i]) == h;
      assert HeaderOf(syms, more[i]) == h;
    }
    if m == |heads| + 1 && HeaderOf(syms, k) == h {
      assert HeaderOf(syms, more[|heads|]) == h;
    }
  }

  /** Header `k` is looked up, and entered if it is new. */
  lemma NextHead(before: Includes, now: Includes, then_: Includes,
                 syms: seq<Sym>, r: Run, k: nat, t: Run)
    requires Heads(before, now, syms, r, k) && k < |syms| && syms[k].type_ == N_BINCL
    requires t.heads == r.heads + [k] && t.dups == if Seen(now, HeaderOf(syms, k)) then r.dups + {k} else r.dups
    requires forall h :: Seen(then_, h) <==> Seen(now, h) || h == HeaderOf(syms, k)
    ensures Heads(before, then_, syms, t, k + 1)
  {
    hide HeaderOf, Seen;
    forall i | 0 <= i < |t.heads| ensures ReplacedRight(before, syms, t, i) {
      MetMore(syms, r.heads, k, i, HeaderOf(syms, t.heads[i]));
      if i < |r.heads| {
        assert ReplacedRight(before, syms, r, i) && t.heads[i] == r.heads[i] != k;
      } else {
        assert k !in r.heads;
      }
    }
    forall h ensures Seen(then_, h) <==> Seen(before, h) || Met(syms, t.heads, |t.heads|, h) {
      MetMore(syms, r.heads, k, |t.heads|, h);
    }
    forall i | i in t.dups ensures i in t.heads {
      assert t.heads[|r.heads|] == k;
      if i in r.dups {
        var m :| 0 <= m < |r.heads| && r.heads[m] == i;
        assert t.heads[m] == i;
      }
    }
  }

  // ---- all of it ----

  /** While an input's symbols are handled: `carry` tells that the next symbol is passed through or skipped. */
  ghost predicate Progress(entries: seq<HashEntry>, o: Options, inp: Input, base: nat, before: Includes,
                           now: Includes, r: Run, carry: bool, k: nat)
    requires GoodInput(entries, inp)
  {
    && Shape(entries, inp, base, r, k) && Marked(inp, r, k) && Earlier(base, r.slots, k)
    && Heads(before, now, inp.syms, r, k)
    && (Tidy(inp.syms) && KeepsAll(o) ==> Undisturbed(inp, base, r, carry, k))
  }

  /** What holds if nothing is stripped and brackets are no targets. */
  predicate Undisturbed(inp: Input, base: nat, r: Run, carry: bool, k: nat) {
    Survivals(inp, r, k) && Levels(inp, base, r, k) && (carry ==> Carried(inp, r, k))
  }

  predicate Carried(inp: Input, r: Run, k: nat) {
    0 < k <= |inp.syms| && Pointing(inp.syms[k - 1]) && !Dropped(Stabs(inp.syms), r.dups, k - 1)
  }

  lemma NotBracket(s: Sym)
    requires Pointing(s) || !IsStab(s.type_)
    ensures !Bracket(s)
  {
    assert TypeBits(N_BINCL) == 2 && TypeBits(N_EINCL) == 2;
  }

  /** The target of a symbol stands in the same headers. */
  lemma TargetNotDropped(inp: Input, r: Run, k: nat)
    requires Tidy(inp.syms) && k < |inp.syms| && Carried(inp, r, k)
    ensures !Bracket(inp.syms[k]) && !Dropped(Stabs(inp.syms), r.dups, k)
  {
    var stabs := Stabs(inp.syms);
    NotBracket(inp.syms[k - 1]);
    assert !Bracket(inp.syms[k]);
    assert Open(stabs, k) == Open(stabs, k - 1);
    DroppedWhere(stabs, r.dups, k);
    DroppedWhere(stabs, r.dups, k - 1);
  }

  lemma HeadsPassed(before: Includes, now: Includes, syms: seq<Sym>, r: Run, k: nat, t: Run)
    requires Heads(before, now, syms, r, k) && k < |syms| && t.heads == r.heads && t.dups == r.dups
    ensures Heads(before, now, syms, t, k + 1)
  {
    hide HeaderOf, Seen;
    forall i | 0 <= i < |t.heads| ensures ReplacedRight(before, syms, t, i) {
      assert ReplacedRight(before, syms, r, i);
    }
  }

  /** Symbol `k` gets no record. */
  lemma ProgressPassed(entries: seq<HashEntry>, o: Options, inp: Input, base: nat, before: Includes,
                       now: Includes, r: Run, carry: bool, k: nat, v: int, carryOn: bool)
    requires GoodInput(entries, inp) && Progress(entries, o, inp, base, before, now, r, carry, k)
    requires k < |inp.syms| == |r.map_|
    requires v >= 0 ==> inp.hashes[k] != null && v < |r.slots| && r.slots[v].owner == OfEntry(inp.hashes[k])
    requires Tidy(inp.syms) && KeepsAll(o) ==>
      && (carryOn ==> Pointing(inp.syms[k]) && !Dropped(Stabs(inp.syms), r.dups, k))
      && (if Dropped(Stabs(inp.syms), r.dups, k) then v == -1
          else !Bracket(inp.syms[k]) && !OnlyHeadersTake(inp, k) && Answered(inp, Passed(r, k, v), k))
    ensures Progress(entries, o, inp, base, before, now, Passed(r, k, v), carryOn, k + 1)
  {
    hide Shape, Marked, Heads, Survivals, Levels, Dropped, Tidy;
    ShapeLength(entries, inp, base, r, k);
    var t := Passed(r, k, v);
    PassedShape(entries, inp, base, r, k, v);
    StepMarked(inp, r, k, v, t);
    HeadsPassed(before, now, inp.syms, r, k, t);
    if Tidy(inp.syms) && KeepsAll(o) {
      if !Dropped(Stabs(inp.syms), r.dups, k) {
        NoHeadHere(inp, r, k);
      } else {
        DroppedIsNoHead(inp, r, k);
      }
      StepSurvivals(inp, r, k, v, t);
      PassedLevels(inp, base, r, k, v);
    }
  }

  lemma ShapeLength(entries: seq<HashEntry>, inp: Input, base: nat, r: Run, k: nat)
    requires GoodInput(entries, inp) && Shape(entries, inp, base, r, k)
    ensures |r.map_| == |inp.syms| == |inp.hashes| && k <= |inp.syms| && base <= |r.slots| <= base + k
  {
  }

  lemma NoHeadHere(inp: Input, r: Run, k: nat)
    requires Marked(inp, r, k) && k < |inp.syms| && !Bracket(inp.syms[k])
    ensures k !in r.dups && inp.syms[k].type_ != N_BINCL
  {
  }

  lemma DroppedIsNoHead(inp: Input, r: Run, k: nat)
    requires k < |inp.syms| && Dropped(Stabs(inp.syms), r.dups, k)
    ensures inp.syms[k].type_ != N_BINCL
  {
  }

  /** Symbol `k`, which opens no header, gets a record. */
  lemma ProgressEmitted(entries: seq<HashEntry>, o: Options, inp: Input, base: nat, before: Includes,
                        now: Includes, r: Run, carry: bool, k: nat, s: OutputSlot, carryOn: bool)
    requires GoodInput(entries, inp) && Progress(entries, o, inp, base, before, now, r, carry, k) && k < |inp.syms|
    requires RightRecord(entries, inp, r.dups, s) && !Dropped(Stabs(inp.syms), r.dups, k)
    requires (s.owner.OfLocal? && s.owner.k == k)
          || (inp.hashes[k] != null && s.owner == OfEntry(inp.hashes[k])
              && (s.owner.h.kind.Warning? || (s.owner.h in r.st ==> !r.st[s.owner.h].written)))
    requires Tidy(inp.syms) && KeepsAll(o) ==>
      && (carryOn ==> Pointing(inp.syms[k])) && inp.syms[k].type_ != N_BINCL
      && (s.owner.OfLocal? ==> inp.hashes[k] == null || IsTarget(inp, k))
      && (s.rec.type_ == inp.syms[k].type_ || (Neutral(inp.syms[k].type_) && Neutral(s.rec.type_)))
    ensures Progress(entries, o, inp, base, before, now, Emitted(r, k, s), carryOn, k + 1)
  {
    hide Shape, Marked, Heads, Survivals, Levels, Dropped, Tidy, RightRecord;
    ShapeLength(entries, inp, base, r, k);
    var t := Emitted(r, k, s);
    EmittedShape(entries, inp, base, r, k, s);
    StepMarked(inp, r, k, |r.slots|, t);
    HeadsPassed(before, now, inp.syms, r, k, t);
    if Tidy(inp.syms) && KeepsAll(o) {
      NoDupHere(inp, r, k);
      StepSurvivals(inp, r, k, |r.slots|, t);
      EmittedLevels(inp, base, r, k, s);
    }
  }

  lemma NoDupHere(inp: Input, r: Run, k: nat)
    requires Marked(inp, r, k)
    ensures k !in r.dups
  {
  }

  /** Header `k` was handled: the run with it, before its record is output. */
  function Headed(inp: Input, r: Run, k: nat, seen: bool): Run
    requires k < |inp.syms| == |r.map_|
  {
    if seen then Replaced(inp, r, k) else Learned(r, k)
  }

  /** A header gets its record. */
  lemma ProgressHeader(entries: seq<HashEntry>, o: Options, inp: Input, base: nat, before: Includes,
                       now: Includes, then_: Includes, r: Run, k: nat, s: OutputSlot)
    requires GoodInput(entries, inp) && Progress(entries, o, inp, base, before, now, r, false, k)
    requires k < |inp.syms| == |r.map_| && inp.syms[k].type_ == N_BINCL
    requires forall h :: Seen(then_, h) <==> Seen(now, h) || h == HeaderOf(inp.syms, k)
    requires var t := Headed(inp, r, k, Seen(now, HeaderOf(inp.syms, k)));
             s == OutputSlot(OfLocal(k, false), k, LocalRecord(inp, t.dups, k, false))
    ensures var t := Headed(inp, r, k, Seen(now, HeaderOf(inp.syms, k)));
            Progress(entries, o, inp, base, before, then_, Emitted(t, k, s), false, k + 1)
  {
    hide Shape, Marked, Heads, Survivals, Levels, Dropped, Tidy, RightRecord, Seen, HeaderOf, LocalRecord, Replaced;
    var seen := Seen(now, HeaderOf(inp.syms, k));
    var t := Headed(inp, r, k, seen);
    ShapeLength(entries, inp, base, r, k);
    HeadedShape(entries, inp, base, r, k, seen);
    ShapeLength(entries, inp, base, t, k);
    var u := Emitted(t, k, s);
    HeaderRecordRight(entries, inp, t.dups, k, s);
    EmittedShape(entries, inp, base, t, k, s);
    HeadedMarked(inp, r, k, seen, |t.slots|, t.slots + [s]);
    HeadedFields(inp, r, k, seen);
    NextHead(before, now, then_, inp.syms, r, k, u);
    if Tidy(inp.syms) && KeepsAll(o) {
      HeadedSurvivals(inp, r, k, seen);
      HeadedLevels(inp, base, r, k, seen);
      BinclNotDropped(inp, t.dups, k);
      StepSurvivals(inp, t, k, |t.slots|, u);
      HeaderType(inp, t.dups, k);
      EmittedLevels(inp, base, t, k, s);
    }
  }

  lemma HeadedShape(entries: seq<HashEntry>, inp: Input, base: nat, r: Run, k: nat, seen: bool)
    requires GoodInput(entries, inp) && Shape(entries, inp, base, r, k) && k < |inp.syms| && Earlier(base, r.slots, k)
    ensures |r.map_| == |inp.syms| && Shape(entries, inp, base, Headed(inp, r, k, seen), k)
  {
    if seen {
      ReplacedShape(entries, inp, base, r, k);
    } else {
      hide RightRecord;
      forall j | 0 <= j < k ensures Leads(inp, base, Learned(r, k), j) {
        assert Leads(inp, base, r, j);
      }
    }
  }

  lemma HeadedFields(inp: Input, r: Run, k: nat, seen: bool)
    requires k < |inp.syms| == |r.map_|
    ensures var t := Headed(inp, r, k, seen);
            t.heads == r.heads + [k] && t.dups == (if seen then r.dups + {k} else r.dups) && t.slots == r.slots
            && |t.map_| == |r.map_| && t.st == r.st
  {
  }

  lemma HeadedMarked(inp: Input, r: Run, k: nat, seen: bool, v: int, slots: seq<OutputSlot>)
    requires Marked(inp, r, k) && k < |inp.syms| && inp.syms[k].type_ == N_BINCL
    ensures |r.map_| == |inp.syms|
    ensures var t := Headed(inp, r, k, seen); Marked(inp, t.(map_ := t.map_[k := v], slots := slots), k + 1)
  {
    hide Dropped, Within;
    var t := Headed(inp, r, k, seen);
    StepMarked(inp, r, k, v, r.(map_ := r.map_[k := v], slots := slots));
    if seen {
      ReplacedMarked(inp, r.(map_ := r.map_[k := v], slots := slots), k);
      assert Replaced(inp, r.(map_ := r.map_[k := v], slots := slots), k) == t.(map_ := t.map_[k := v], slots := slots);
    }
  }

  lemma HeadedSurvivals(inp: Input, r: Run, k: nat, seen: bool)
    requires Survivals(inp, r, k) && k < |inp.syms|
    ensures |r.map_| == |inp.syms| && Survivals(inp, Headed(inp, r, k, seen), k)
  {
    if seen {
      ReplacedSurvivals(inp, r, k);
    } else {
      LearnedSurvivals(inp, r, k);
    }
  }

  lemma HeadedLevels(inp: Input, base: nat, r: Run, k: nat, seen: bool)
    requires Levels(inp, base, r, k) && k < |inp.syms| == |r.map_|
    ensures Levels(inp, base, Headed(inp, r, k, seen), k)
  {
    hide Level, Reduced, Replaced;
    if seen {
      ReplacedLevels(inp, base, r, k);
    }
  }

  lemma BinclNotDropped(inp: Input, dups: set<nat>, k: nat)
    requires k < |inp.syms| && inp.syms[k].type_ == N_BINCL
    ensures !Dropped(Stabs(inp.syms), dups, k)
  {
  }

  lemma HeaderType(inp: Input, dups: set<nat>, k: nat)
    requires k < |inp.syms| && inp.syms[k].type_ == N_BINCL
    ensures LocalRecord(inp, dups, k, false).type_ == if k in dups then N_EXCL else N_BINCL
  {
    hide Total, MeaningOf;
  }

  lemma HeaderRecordRight(entries: seq<HashEntry>, inp: Input, dups: set<nat>, k: nat, s: OutputSlot)
    requires GoodInput(entries, inp) && k < |inp.syms|
    requires s == OutputSlot(OfLocal(k, false), k, LocalRecord(inp, dups, k, false))
    ensures RightRecord(entries, inp, dups, s)
  {
    hide LocalRecord;
  }

  /** What is said of entries matters only if nothing is stripped. */
  lemma ProgressStatus(entries: seq<HashEntry>, o: Options, inp: Input, base: nat, before: Includes, now: Includes,
                       r: Run, carry: bool, k: nat, st: map<HashEntry, Status>)
    requires GoodInput(entries, inp) && Progress(entries, o, inp, base, before, now, r, carry, k) && !KeepsAll(o)
    ensures Progress(entries, o, inp, base, before, now, r.(st := st), carry, k)
  {
    hide HeaderOf, Seen, RightRecord, Leads;
    var t := r.(st := st);
    forall j | 0 <= j < k ensures Leads(inp, base, t, j) {
      assert Leads(inp, base, r, j);
      LeadsAnyway(inp, base, r, t, j);
    }
    forall i | 0 <= i < |t.heads| ensures ReplacedRight(before, inp.syms, t, i) {
      assert ReplacedRight(before, inp.syms, r, i);
    }
  }

  lemma LeadsAnyway(inp: Input, base: nat, r: Run, t: Run, j: nat)
    requires j < |r.map_| && j < |inp.hashes| && Leads(inp, base, r, j) && t.map_ == r.map_ && t.slots == r.slots
    ensures Leads(inp, base, t, j)
  {
  }
}
