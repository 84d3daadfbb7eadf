/** Which of an input's symbols get a record: what the options strip and discard. */
module AoutStrip {
  import opened Words
  import opened AoutTypes
  import opened AoutIncludes
  import opened AoutSymbolValues
  import opened AoutSymbolRun

  /** `strip`, for a symbol of a type and name. */
  predicate Stripped(o: Options, t: Byte, name: seq<Byte>) {
    match o.strip
    case StripNone => false
    case StripDebugger => IsStab(t)
    case StripSome => name !in o.keep
    case StripAll => true
  }

  /** `discard`, for a symbol without a hash entry. */
  predicate Discarded(o: Options, t: Byte, name: seq<Byte>) {
    var b := TypeBits(t);
    b != N_SETT && b != N_SETD && b != N_SETB && b != N_SETA
    && match o.discard
       case DiscardNone => false
       case DiscardLocalLabels => !IsStab(t) && |name| > 0 && name[0] == o.prefix
       case DiscardAll => true
  }

  /** An input's symbol has a record among those from `base` on. */
  predicate HasRecord(slots: seq<OutputSlot>, base: nat, j: nat) {
    exists i :: base <= i < |slots| && slots[i].src == j
  }

  /** Only headers stand between symbol `j` and a symbol before it that may have it passed through or skipped. */
  predicate Shadowed(inp: Input, dups: set<nat>, j: nat)
    requires j <= |inp.syms|
  {
    j > 0 && (Pointing(inp.syms[j - 1])
              || (Dropped(Stabs(inp.syms), dups, j - 1) && Shadowed(inp, dups, j - 1)))
  }

  /** Symbol `j` is treated on its own account: no replaced header has it, and it is nobody's target. */
  predicate OnItsOwn(inp: Input, dups: set<nat>, j: nat)
    requires j < |inp.syms|
  {
    !Dropped(Stabs(inp.syms), dups, j) && !Shadowed(inp, dups, j)
  }

  /** Symbol `j`'s entry was not taken as written before the symbol's turn: not by the state `first` in which its
      input began, and not by an earlier symbol. */
  predicate Fresh(inp: Input, first: map<HashEntry, Status>, j: nat, h: HashEntry)
    requires j < |inp.hashes|
  {
    h.kind.Warning? || (!(h in first && first[h].written) && forall i :: 0 <= i < j ==> inp.hashes[i] != h)
  }

  /** What becomes of a symbol. */
  predicate Fate(o: Options, inp: Input, first: map<HashEntry, Status>, base: nat, r: Run, j: nat)
    requires j < |inp.syms| == |inp.hashes|
  {
    var s, h := inp.syms[j], inp.hashes[j];
    OnItsOwn(inp, r.dups, j) ==>
      if h == null then
        HasRecord(r.slots, base, j) <==> !Stripped(o, s.type_, s.name) && !Discarded(o, s.type_, s.name)
      else
        Fresh(inp, first, j, h) ==> (HasRecord(r.slots, base, j) <==> !Stripped(o, s.type_, h.name))
  }

  /** A record of an entry or of a symbol is one of a symbol that is not stripped. */
  predicate Spared(o: Options, inp: Input, s: OutputSlot) {
    s.src < |inp.syms|
    && match s.owner
       case OfFile => true
       case OfLocal(k, raw) =>
         var y := inp.syms[s.src]; !raw ==> !Stripped(o, y.type_, y.name) && !Discarded(o, y.type_, y.name)
       case OfEntry(h) => !Stripped(o, inp.syms[s.src].type_, h.name)
  }

  /** An entry's state is the one before the input, or it was taken as written for one of the symbols. */
  predicate WrittenBy(inp: Input, first: map<HashEntry, Status>, r: Run, k: nat, h: HashEntry)
    requires h in r.st && k <= |inp.hashes|
  {
    (h in first && r.st[h] == first[h]) || (r.st[h].written && exists i :: 0 <= i < k && inp.hashes[i] == h)
  }

  /** After `k` symbols. */
  predicate Fates(o: Options, inp: Input, first: map<HashEntry, Status>, base: nat, r: Run, carry: bool, k: nat) {
    && k <= |inp.syms| == |inp.hashes| && base <= |r.slots|
    && (forall j :: 0 <= j < k ==> Fate(o, inp, first, base, r, j))
    && (forall i :: base <= i < |r.slots| ==> r.slots[i].src < k && Spared(o, inp, r.slots[i]))
    && (forall h :: h in r.st ==> WrittenBy(inp, first, r, k, h))
    && (carry ==> Shadowed(inp, r.dups, k))
    && (o.strip.StripAll? ==> |r.slots| == base)
  }

  lemma FatesStart(entries: seq<HashEntry>, o: Options, inp: Input, r: Run)
    requires GoodInput(entries, inp)
    ensures Fates(o, inp, r.st, |r.slots|, r, false, 0)
  {
  }

  lemma NoLaterRecord(slots: seq<OutputSlot>, base: nat, j: nat, s: OutputSlot)
    requires s.src != j
    ensures HasRecord(slots + [s], base, j) <==> HasRecord(slots, base, j)
  {
    var more := slots + [s];
    if HasRecord(slots, base, j) {
      var i :| base <= i < |slots| && slots[i].src == j;
      assert more[i].src == j;
    }
  }

  lemma WrittenLater(inp: Input, first: map<HashEntry, Status>, r: Run, t: Run, k: nat, h: HashEntry)
    requires h in r.st && h in t.st && k < |inp.hashes| && WrittenBy(inp, first, r, k, h)
    requires t.st[h] == r.st[h] || (t.st[h].written && inp.hashes[k] == h)
    ensures WrittenBy(inp, first, t, k + 1, h)
  {
  }

  /** Symbol `k` gets no record: it is no symbol on its own account, or it is lost, or its entry has one. */
  lemma FatesPassed(o: Options, inp: Input, first: map<HashEntry, Status>, base: nat, r: Run, carry: bool, k: nat,
                    t: Run, carryOn: bool)
    requires Fates(o, inp, first, base, r, carry, k) && k < |inp.syms|
    requires t.slots == r.slots && t.dups == r.dups && t.st.Keys == r.st.Keys
    requires forall h :: h in r.st ==> t.st[h] == r.st[h] || (t.st[h].written && inp.hashes[k] == h)
    requires carryOn ==> Pointing(inp.syms[k]) || (carry && Dropped(Stabs(inp.syms), r.dups, k))
    requires var s, h := inp.syms[k], inp.hashes[k];
      || !OnItsOwn(inp, r.dups, k)
      || (if h == null then Stripped(o, s.type_, s.name) || Discarded(o, s.type_, s.name)
          else Stripped(o, s.type_, h.name) || (!h.kind.Warning? && h in r.st && r.st[h].written))
    ensures Fates(o, inp, first, base, t, carryOn, k + 1)
  {
    hide Stripped, Discarded, Dropped, Pointing;
    forall j | 0 <= j < k + 1 ensures Fate(o, inp, first, base, t, j) {
      if j < k {
        assert Fate(o, inp, first, base, r, j);
      } else {
        var h := inp.hashes[k];
        assert !HasRecord(t.slots, base, k);
        if h != null && h in r.st {
          assert WrittenBy(inp, first, r, k, h);
        }
      }
    }
    forall h | h in t.st ensures WrittenBy(inp, first, t, k + 1, h) {
      WrittenLater(inp, first, r, t, k, h);
    }
  }

  /** Symbol `k` gets a record: it is no symbol on its own account, or is not lost. */
  lemma FatesEmitted(o: Options, inp: Input, first: map<HashEntry, Status>, base: nat, r: Run, carry: bool, k: nat,
                     s: OutputSlot, carryOn: bool)
    requires Fates(o, inp, first, base, r, carry, k) && k < |inp.syms| == |r.map_|
    requires s.src == k && Spared(o, inp, s) && !o.strip.StripAll?
    requires s.owner.OfEntry? ==> inp.hashes[k] == s.owner.h
    requires s.owner.OfLocal? && !s.owner.raw ==> inp.hashes[k] == null
    requires s.owner.OfFile? || (s.owner.OfLocal? && s.owner.raw) ==> !OnItsOwn(inp, r.dups, k)
    requires carryOn ==> Pointing(inp.syms[k])
    ensures Fates(o, inp, first, base, Emitted(r, k, s), carryOn, k + 1)
  {
    hide Stripped, Discarded, Dropped, Pointing;
    var t := Emitted(r, k, s);
    forall j | 0 <= j < k + 1 ensures Fate(o, inp, first, base, t, j) {
      if j < k {
        assert Fate(o, inp, first, base, r, j);
        NoLaterRecord(r.slots, base, j, s);
      } else {
        assert t.slots[|r.slots|].src == k;
        assert HasRecord(t.slots, base, k);
      }
    }
    forall h | h in t.st ensures WrittenBy(inp, first, t, k + 1, h) {
      if h in r.st {
        WrittenLater(inp, first, r, t, k, h);
      }
    }
  }

  lemma {:induction false} ShadowedBefore(inp: Input, dups: set<nat>, k: nat, j: nat)
    requires j <= k < |inp.syms|
    ensures Shadowed(inp, dups + {k}, j) <==> Shadowed(inp, dups, j)
  {
    hide Dropped, Pointing;
    if j > 0 {
      ShadowedBefore(inp, dups, k, j - 1);
      DroppedBefore(Stabs(inp.syms), dups, k, j - 1);
    }
  }

  /** A replaced header does not touch what came before it. */
  lemma FatesHeaded(o: Options, inp: Input, first: map<HashEntry, Status>, base: nat, r: Run, k: nat, seen: bool)
    requires Fates(o, inp, first, base, r, false, k) && k < |inp.syms| == |r.map_|
    ensures Fates(o, inp, first, base, Headed(inp, r, k, seen), false, k)
  {
    hide Stripped, Discarded, Dropped, Pointing, Shadowed;
    var t := Headed(inp, r, k, seen);
    HeadedFields(inp, r, k, seen);
    hide Headed;
    forall j | 0 <= j < k ensures Fate(o, inp, first, base, t, j) {
      assert Fate(o, inp, first, base, r, j);
      ShadowedBefore(inp, r.dups, k, j);
      DroppedBefore(Stabs(inp.syms), r.dups, k, j);
    }
    forall h | h in t.st ensures WrittenBy(inp, first, t, k, h) {
      assert WrittenBy(inp, first, r, k, h);
    }
  }

  lemma FatesUncarried(o: Options, inp: Input, first: map<HashEntry, Status>, base: nat, r: Run, carry: bool, k: nat)
    requires Fates(o, inp, first, base, r, carry, k)
    ensures Fates(o, inp, first, base, r, false, k)
  {
  }

  /** The law, by option. Without an entry, a symbol on its own account has a record exactly if no debugging symbol is
      stripped, it is kept by name where only some are, and it is discarded neither as a local label nor like all that
      are no set elements. With an entry not yet written, exactly if the entry's name is kept. If everything is
      stripped, no symbol of the input has a record at all. */
  lemma StripOutcome(o: Options, inp: Input, first: map<HashEntry, Status>, base: nat, r: Run, j: nat)
    requires Fates(o, inp, first, base, r, false, |inp.syms|) && j < |inp.syms| && OnItsOwn(inp, r.dups, j)
    requires inp.hashes[j] != null ==> inp.syms[j].type_ < 0x20
    ensures var s := inp.syms[j];
      inp.hashes[j] == null ==>
        (HasRecord(r.slots, base, j) <==>
         && (o.strip == StripNone || (o.strip == StripDebugger && s.type_ < 0x20)
             || (o.strip == StripSome && s.name in o.keep))
         && (0x14 <= s.type_ % 0x20 <= 0x1b || o.discard == DiscardNone
             || (o.discard == DiscardLocalLabels
                 && (s.type_ >= 0x20 || s.name == [] || s.name[0] != o.prefix))))
    ensures var h := inp.hashes[j];
      h != null && Fresh(inp, first, j, h) ==>
        (HasRecord(r.slots, base, j) <==>
         o.strip == StripNone || o.strip == StripDebugger || (o.strip == StripSome && h.name in o.keep))
    ensures o.strip == StripAll ==> !HasRecord(r.slots, base, j)
  {
    hide Fresh, OnItsOwn, HasRecord;
    assert Fate(o, inp, first, base, r, j);
    SetCodes(inp.syms[j].type_);
    if o.strip == StripAll {
      NoneWithoutSlots(r.slots, base, j);
    }
  }

  lemma SetCodes(t: Byte)
    ensures TypeBits(t) == N_SETA || TypeBits(t) == N_SETT || TypeBits(t) == N_SETD || TypeBits(t) == N_SETB
       <==> 0x14 <= t % 0x20 <= 0x1b
  {
  }

  lemma NoneWithoutSlots(slots: seq<OutputSlot>, base: nat, j: nat)
    requires |slots| == base
    ensures !HasRecord(slots, base, j)
  {
  }

  // ---- one turn, written out ----

  /** What is to happen to the next symbol: it passes through unchanged, or is skipped. */
  datatype Flags = Flags(pass: bool, skip: bool)

  predicate Adds(a: seq<OutputSlot>, b: seq<OutputSlot>, owner: Owner) {
    |b| == |a| + 1 && b[..|a|] == a && b[|a|].owner == owner
  }

  /** One turn of the loop over an input's symbols, from flags `f` and records `a` to flags `g` and records `b`;
      `marked` if a replaced header has the symbol, `written` if its entry is taken as written. A marked symbol changes
      nothing, and a target uses its flag up. A symbol without an entry is output if it is kept and not discarded. If
      its entry has been taken as written, it is not output again, but hides its target; otherwise it is output if the
      entry's name is kept. A warning, or an indirect symbol that leads to no definition, then lets its target pass
      through, and an indirect symbol that leads to one hides it. */
  ghost predicate TurnOf(entries: seq<HashEntry>, o: Options, inp: Input, k: nat, marked: bool, written: bool, f: Flags,
                         g: Flags, a: seq<OutputSlot>, b: seq<OutputSlot>)
    requires GoodInput(entries, inp) && k < |inp.syms|
  {
    var s, h := inp.syms[k], inp.hashes[k];
    var indirect := s.type_ / 2 % 0x10 == 5;
    if marked then g == f && b == a
    else if f.pass then g == Flags(false, false) && Adds(a, b, OfLocal(k, true))
    else if f.skip then g == Flags(false, false) && b == a
    else if h == null then
      if (o.strip == StripNone || (o.strip == StripDebugger && s.type_ < 0x20)
          || (o.strip == StripSome && s.name in o.keep))
         && (0x14 <= s.type_ % 0x20 <= 0x1b || o.discard == DiscardNone
             || (o.discard == DiscardLocalLabels && (s.type_ >= 0x20 || s.name == [] || s.name[0] != o.prefix)))
      then g == Flags(indirect || s.type_ == 0x1e, false) && Adds(a, b, OfLocal(k, false))
      else g == Flags(false, false) && b == a
    else if written && !h.kind.Warning? then g == Flags(false, indirect || s.type_ == 0x1e) && b == a
    else if o.strip == StripNone || o.strip == StripDebugger || (o.strip == StripSome && h.name in o.keep) then
      var base := Base(entries, h).kind;
      var defined := base.Defined? || base.DefWeak? || base.Common?;
      g == Flags((indirect && !defined) || s.type_ == 0x1e, indirect && defined) && Adds(a, b, OfEntry(h))
    else g == Flags(false, false) && b == a
  }

  lemma LocalTurn(entries: seq<HashEntry>, o: Options, inp: Input, k: nat, written: bool, g: Flags,
                  a: seq<OutputSlot>, b: seq<OutputSlot>)
    requires GoodInput(entries, inp) && k < |inp.syms| && inp.hashes[k] == null
    requires var s := inp.syms[k];
      if Stripped(o, s.type_, s.name) || Discarded(o, s.type_, s.name) then g == Flags(false, false) && b == a
      else
        var m := MeaningOf(inp.sections, s, None);
        g == Flags(m.pass, m.skip) && Adds(a, b, OfLocal(k, false))
    ensures TurnOf(entries, o, inp, k, false, written, Flags(false, false), g, a, b)
  {
    hide Adds, Moved;
    SetCodes(inp.syms[k].type_);
  }

  lemma GlobalTurn(entries: seq<HashEntry>, o: Options, inp: Input, k: nat, h: HashEntry, written: bool, g: Flags,
                   a: seq<OutputSlot>, b: seq<OutputSlot>)
    requires GoodInput(entries, inp) && k < |inp.syms| && inp.hashes[k] == h
    requires var s := inp.syms[k];
      if !h.kind.Warning? && written then g == Flags(false, Pointing(s)) && b == a
      else if Stripped(o, s.type_, h.name) then g == Flags(false, false) && b == a
      else
        var m := MeaningOf(inp.sections, s, Some(Base(entries, h).kind));
        g == Flags(m.pass, m.skip) && Adds(a, b, OfEntry(h))
    ensures TurnOf(entries, o, inp, k, false, written, Flags(false, false), g, a, b)
  {
    hide Adds, Moved, DefinedAs, Base;
  }
}
