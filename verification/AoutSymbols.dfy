/** Writing the symbols of an a.out link: every input's, then those of the hash table that no input stood for. */
module AoutSymbols {
  import opened Words
  import opened AoutTypes
  import opened AoutIncludes
  import opened AoutSymbolValues
  import opened AoutSymbolRun
  import opened AoutStrip

  const NLIST_SIZE := 12

  // ---- whom the records belong to ----

  ghost function StatusOf(entries: seq<HashEntry>): (st: map<HashEntry, Status>)
    reads entries
  {
    map h | h in entries :: Status(h.written, h.indx)
  }

  /** An entry with an index has the record there. */
  predicate Indexed(slots: seq<OutputSlot>, st: map<HashEntry, Status>, h: HashEntry)
    requires h in st
  {
    var i := st[h].indx;
    i >= 0 ==> i < |slots| && slots[i].owner == OfEntry(h)
  }

  /** A record of an entry is its only one, unless it is a warning's. */
  predicate Sole(slots: seq<OutputSlot>, st: map<HashEntry, Status>, i: nat)
    requires i < |slots|
  {
    var o := slots[i].owner;
    o.OfEntry? && !o.h.kind.Warning? ==> o.h in st && st[o.h] == Status(true, i)
  }

  /** Whether a symbol of this name is kept when nothing but its entry stands for it. */
  predicate Wanted(o: Options, name: seq<Byte>) {
    !(o.strip.StripAll? || (o.strip.StripSome? && name !in o.keep))
  }

  /** An entry is taken as written without a record only if it is stripped, or of a kind that is not output. */
  predicate Excused(o: Options, h: HashEntry, s: Status) {
    s.written && s.indx < 0 ==> !Wanted(o, h.name) || !Writable(h.kind)
  }

  ghost predicate Owned(options: Options, slots: seq<OutputSlot>, st: map<HashEntry, Status>) {
    && (forall h :: h in st ==> Indexed(slots, st, h))
    && (forall i :: 0 <= i < |slots| ==> Sole(slots, st, i))
    && (forall h :: h in st ==> Excused(options, h, st[h]))
  }

  /** No entry but a warning has two records. */
  lemma AtMostOnce(options: Options, slots: seq<OutputSlot>, st: map<HashEntry, Status>, i: nat, j: nat)
    requires Owned(options, slots, st) && i < |slots| && j < |slots|
    requires slots[i].owner == slots[j].owner && slots[i].owner.OfEntry? && !slots[i].owner.h.kind.Warning?
    ensures i == j
  {
    assert Sole(slots, st, i) && Sole(slots, st, j);
  }

  /** A record for nobody. */
  lemma OwnedAfterOther(options: Options, slots: seq<OutputSlot>, st: map<HashEntry, Status>, s: OutputSlot)
    requires Owned(options, slots, st) && !s.owner.OfEntry?
    ensures Owned(options, slots + [s], st)
  {
    forall h | h in st ensures Indexed(slots + [s], st, h) {
      assert Indexed(slots, st, h);
    }
    forall i | 0 <= i < |slots + [s]| ensures Sole(slots + [s], st, i) {
      assert i < |slots| ==> Sole(slots, st, i);
    }
  }

  /** An entry that has no record, or is a warning. */
  predicate Unclaimed(slots: seq<OutputSlot>, h: HashEntry) {
    h.kind.Warning? || forall i :: 0 <= i < |slots| ==> slots[i].owner != OfEntry(h)
  }

  /** An entry that is not written, or has no index, has no record. */
  lemma NoRecordYet(options: Options, slots: seq<OutputSlot>, st: map<HashEntry, Status>, h: HashEntry)
    requires Owned(options, slots, st) && h in st && (!st[h].written || st[h].indx < 0)
    ensures Unclaimed(slots, h)
  {
    forall i | 0 <= i < |slots| && !h.kind.Warning? ensures slots[i].owner != OfEntry(h) {
      assert Sole(slots, st, i);
    }
  }

  /** An entry that has no record gets one. */
  lemma OwnedAfterClaim(options: Options, slots: seq<OutputSlot>, st: map<HashEntry, Status>, s: OutputSlot,
                        h: HashEntry)
    requires Owned(options, slots, st) && h in st && s.owner == OfEntry(h) && Unclaimed(slots, h)
    ensures Owned(options, slots + [s], st[h := Status(true, |slots|)])
  {
    var after := st[h := Status(true, |slots|)];
    forall e | e in after ensures Indexed(slots + [s], after, e) {
      assert Indexed(slots, st, e);
    }
    forall i | 0 <= i < |slots + [s]| ensures Sole(slots + [s], after, i) {
      assert i < |slots| ==> Sole(slots, st, i);
    }
  }

  /** An entry is marked as written, or, if it has no record, as one to be written in any case. */
  lemma OwnedAfterMark(options: Options, slots: seq<OutputSlot>, st: map<HashEntry, Status>, h: HashEntry, now: Status)
    requires Owned(options, slots, st) && h in st
    requires now == Status(true, st[h].indx) || (Unclaimed(slots, h) && now.indx < 0)
    requires Excused(options, h, now)
    ensures Owned(options, slots, st[h := now])
  {
    var after := st[h := now];
    forall e | e in after ensures Indexed(slots, after, e) {
      assert Indexed(slots, st, e);
    }
    forall i | 0 <= i < |slots| ensures Sole(slots, after, i) {
      assert Sole(slots, st, i);
    }
  }

  // ---- what the records hold ----

  ghost predicate GoodInputs(entries: seq<HashEntry>, inputs: seq<Input>) {
    forall j :: 0 <= j < |inputs| ==> GoodInput(entries, inputs[j])
  }

  /** A record that symbol `k` of an input gives entry `h`: its name, and type and value as its base defines it. */
  ghost predicate StandsFor(entries: seq<HashEntry>, inp: Input, k: nat, h: HashEntry, rec: Nlist)
    requires GoodInput(entries, inp)
  {
    k < |inp.syms| && inp.hashes[k] == h && rec == GlobalRecord(entries, inp, k, h)
  }

  /** The record of an entry: one of its symbols', or the one of its kind. */
  ghost predicate RecordOf(entries: seq<HashEntry>, inputs: seq<Input>, h: HashEntry, rec: Nlist)
    requires GoodInputs(entries, inputs)
  {
    || OtherRecord(h.name, h.kind) == Some(rec)
    || exists j, k :: 0 <= j < |inputs| && StandsFor(entries, inputs[j], k, h, rec)
  }

  /** The record of a symbol without an entry, with its header replaced or not, or passed through. */
  predicate RecordOfLocal(inp: Input, k: nat, raw: bool, rec: Nlist) {
    k < |inp.syms| && (rec == LocalRecord(inp, {}, k, raw) || rec == LocalRecord(inp, {k}, k, raw))
  }

  /** The slot holds what it should: the record of an input file, of a symbol without an entry, or of an entry. */
  ghost predicate Genuine(entries: seq<HashEntry>, inputs: seq<Input>, s: OutputSlot)
    requires GoodInputs(entries, inputs)
  {
    match s.owner
    case OfFile => exists j :: 0 <= j < |inputs| && s.rec == FileRecord(inputs[j])
    case OfLocal(k, raw) => exists j :: 0 <= j < |inputs| && RecordOfLocal(inputs[j], k, raw, s.rec)
    case OfEntry(h) => RecordOf(entries, inputs, h, s.rec)
  }

  ghost predicate AllGenuine(entries: seq<HashEntry>, inputs: seq<Input>, slots: seq<OutputSlot>)
    requires GoodInputs(entries, inputs)
  {
    forall i :: 0 <= i < |slots| ==> Genuine(entries, inputs, slots[i])
  }

  /** The slot of an entry that no input's symbol stands for. */
  predicate OtherSlot(s: OutputSlot) {
    s.owner.OfEntry? && OtherRecord(s.owner.h.name, s.owner.h.kind) == Some(s.rec)
  }

  /** Behind `slots` only such slots were added, of entries whose names are kept or which are `asked` for. */
  predicate OthersBehind(o: Options, asked: seq<HashEntry?>, slots: seq<OutputSlot>, more: seq<OutputSlot>) {
    slots <= more && forall i :: |slots| <= i < |more| ==> OtherSlot(more[i]) && CalledFor(o, asked, more[i])
  }

  predicate CalledFor(o: Options, asked: seq<HashEntry?>, s: OutputSlot) {
    s.owner.OfEntry? && (Wanted(o, s.owner.h.name) || s.owner.h in asked)
  }

  lemma OthersBehindNone(o: Options, asked: seq<HashEntry?>, slots: seq<OutputSlot>)
    ensures OthersBehind(o, asked, slots, slots)
  {
  }

  lemma OthersBehindTrans(o: Options, asked: seq<HashEntry?>, less: seq<HashEntry?>,
                          a: seq<OutputSlot>, b: seq<OutputSlot>, c: seq<OutputSlot>)
    requires OthersBehind(o, asked, a, b) && OthersBehind(o, less, b, c) && forall h :: h in less ==> h in asked
    ensures OthersBehind(o, asked, a, c)
  {
    hide OtherSlot, Wanted;
    assert forall i :: 0 <= i < |a| ==> a[i] == b[i] == c[i];
    forall i | |a| <= i < |c| ensures OtherSlot(c[i]) && CalledFor(o, asked, c[i]) {
      if i < |b| {
        assert c[i] == b[i];
      }
    }
  }

  lemma GenuineWithOthers(entries: seq<HashEntry>, o: Options, asked: seq<HashEntry?>, inputs: seq<Input>,
                          slots: seq<OutputSlot>, more: seq<OutputSlot>)
    requires GoodInputs(entries, inputs) && AllGenuine(entries, inputs, slots) && OthersBehind(o, asked, slots, more)
    ensures AllGenuine(entries, inputs, more)
  {
    forall i | 0 <= i < |more| ensures Genuine(entries, inputs, more[i]) {
      if i < |slots| {
        assert more[i] == slots[i];
      } else {
        assert OtherSlot(more[i]);
      }
    }
  }

  lemma RightIsGenuine(entries: seq<HashEntry>, inputs: seq<Input>, j: nat, dups: set<nat>, s: OutputSlot)
    requires GoodInputs(entries, inputs) && j < |inputs| && RightRecord(entries, inputs[j], dups, s)
    ensures Genuine(entries, inputs, s)
  {
    hide Total, MeaningOf;
    match s.owner
    case OfLocal(k, raw) => assert RecordOfLocal(inputs[j], k, raw, s.rec);
    case OfEntry(h) => assert StandsFor(entries, inputs[j], s.src, h, s.rec);
  }

  /** The records of an input behind those that were there. */
  lemma GenuineWithInput(entries: seq<HashEntry>, o: Options, inputs: seq<Input>, j: nat, slots: seq<OutputSlot>,
                         base: nat, before: Includes, now: Includes, r: Run)
    requires GoodInputs(entries, inputs) && j < |inputs| && AllGenuine(entries, inputs, slots)
    requires slots + FileSlots(o, inputs[j]) <= r.slots && base == |slots| + |FileSlots(o, inputs[j])|
    requires Progress(entries, o, inputs[j], base, before, now, r, false, |inputs[j].syms|)
    ensures AllGenuine(entries, inputs, r.slots)
  {
    hide Genuine, Marked, Heads, Survivals, Levels, Leads, Carried, RightRecord;
    forall i | 0 <= i < |r.slots| ensures Genuine(entries, inputs, r.slots[i]) {
      if i < |slots| {
        assert r.slots[i] == slots[i];
      } else if i < base {
        assert r.slots[i] == FileSlots(o, inputs[j])[i - |slots|];
        FileIsGenuine(entries, o, inputs, j, r.slots[i]);
      } else {
        RightIsGenuine(entries, inputs, j, r.dups, r.slots[i]);
      }
    }
  }

  lemma FileIsGenuine(entries: seq<HashEntry>, o: Options, inputs: seq<Input>, j: nat, s: OutputSlot)
    requires GoodInputs(entries, inputs) && j < |inputs| && s in FileSlots(o, inputs[j])
    ensures Genuine(entries, inputs, s)
  {
    assert s.rec == FileRecord(inputs[j]);
  }

  // ---- why the records are there ----

  /** Some relocation refers to the entry, or to one that leads to it. */
  ghost predicate AskedFor(entries: seq<HashEntry>, inputs: seq<Input>, relocs: seq<seq<nat>>, h: HashEntry)
    requires GoodInputs(entries, inputs)
  {
    exists j, i :: && 0 <= j < |inputs| && j < |relocs| && 0 <= i < |relocs[j]|
                   && Refers(entries, inputs[j], relocs[j][i], h)
  }

  ghost predicate Refers(entries: seq<HashEntry>, inp: Input, k: nat, h: HashEntry)
    requires GoodInput(entries, inp)
  {
    k < |inp.syms| && inp.hashes[k] != null && (h == inp.hashes[k] || h == Base(entries, inp.hashes[k]))
  }

  /** An entry's record is there because its name is kept or a relocation needs it; others only if not everything is
      stripped. */
  ghost predicate Justified(entries: seq<HashEntry>, o: Options, inputs: seq<Input>, relocs: seq<seq<nat>>,
                            s: OutputSlot)
    requires GoodInputs(entries, inputs)
  {
    match s.owner
    case OfEntry(h) =>
      || o.strip == StripNone || o.strip == StripDebugger || (o.strip == StripSome && h.name in o.keep)
      || AskedFor(entries, inputs, relocs, h)
    case _ => !o.strip.StripAll?
  }

  ghost predicate AllJustified(entries: seq<HashEntry>, o: Options, inputs: seq<Input>, relocs: seq<seq<nat>>,
                               slots: seq<OutputSlot>)
    requires GoodInputs(entries, inputs)
  {
    forall i :: 0 <= i < |slots| ==> Justified(entries, o, inputs, relocs, slots[i])
  }

  lemma JustifiedWithOthers(entries: seq<HashEntry>, o: Options, asked: seq<HashEntry?>, inputs: seq<Input>,
                            relocs: seq<seq<nat>>, slots: seq<OutputSlot>, more: seq<OutputSlot>)
    requires GoodInputs(entries, inputs) && AllJustified(entries, o, inputs, relocs, slots)
    requires OthersBehind(o, asked, slots, more)
    requires forall h: HashEntry :: h in asked ==> AskedFor(entries, inputs, relocs, h)
    ensures AllJustified(entries, o, inputs, relocs, more)
  {
    hide AskedFor, OtherSlot;
    forall i | 0 <= i < |more| ensures Justified(entries, o, inputs, relocs, more[i]) {
      if i < |slots| {
        assert more[i] == slots[i];
      } else {
        assert CalledFor(o, asked, more[i]);
      }
    }
  }

  lemma JustifiedWithInput(entries: seq<HashEntry>, o: Options, inputs: seq<Input>, relocs: seq<seq<nat>>, inp: Input,
                           first: map<HashEntry, Status>, base: nat, r: Run, slots: seq<OutputSlot>, k: nat)
    requires GoodInputs(entries, inputs) && AllJustified(entries, o, inputs, relocs, slots)
    requires Fates(o, inp, first, base, r, false, k) && (o.strip.StripAll? ==> r.slots == slots)
    requires slots + FileSlots(o, inp) <= r.slots && base == |slots| + |FileSlots(o, inp)|
    ensures AllJustified(entries, o, inputs, relocs, r.slots)
  {
    hide AskedFor, Fate, WrittenBy, Discarded;
    forall i | 0 <= i < |r.slots| ensures Justified(entries, o, inputs, relocs, r.slots[i]) {
      if i < |slots| {
        assert r.slots[i] == slots[i];
      } else if i < base {
        assert r.slots[i] == FileSlots(o, inp)[i - |slots|];
      } else {
        assert Spared(o, inp, r.slots[i]);
      }
    }
  }

  /** No entry waits to be output in any case. */
  ghost predicate NonePending(entries: seq<HashEntry>)
    reads entries
  {
    forall h :: h in entries ==> h.indx == -2 ==> h.written
  }

  lemma StillNonePending(entries: seq<HashEntry>, o: Options, inp: Input, first: map<HashEntry, Status>, base: nat,
                         r: Run, k: nat)
    requires Fates(o, inp, first, base, r, false, k) && r.st == StatusOf(entries)
    requires forall h :: h in first ==> first[h].indx == -2 ==> first[h].written
    ensures NonePending(entries)
  {
    hide Fate, Spared, Shadowed;
    forall h | h in entries && h.indx == -2 ensures h.written {
      assert WrittenBy(inp, first, r, k, h);
    }
  }

  // ---- what an input's turn leaves behind ----

  /** An input's turn: its first record, with the file's and behind it, the entries before, the headers seen before
      and after, the run. */
  datatype Turn = Turn(start: nat, base: nat, first: map<HashEntry, Status>, before: Includes, after: Includes,
                       run: Run)

  /** Slot `r` is the entry's, or the entry has none since its kind is not output. */
  predicate SlotOf(slots: seq<OutputSlot>, h: HashEntry, r: int) {
    if r < 0 then r == -2 && !Writable(h.kind) else r < |slots| && slots[r].owner == OfEntry(h)
  }

  /** What a relocation against a symbol gets, whose entry is `h` and of which the map says `m`: an entry that is
      defined sends it to a section instead. */
  predicate Given(slots: seq<OutputSlot>, h: HashEntry?, m: int, index: Option<int>) {
    if h != null && (h.kind.Defined? || h.kind.DefWeak?) then index == None
    else
      && index.Some? && (m != -1 ==> index.value == m)
      && (m == -1 ==> if h == null then index.value == 0 else SlotOf(slots, h, index.value))
  }

  /** The record in slot `r` is that of symbol `k` of the input, or of its entry. */
  ghost predicate NamesSymbol(entries: seq<HashEntry>, inp: Input, t: Turn, slots: seq<OutputSlot>, k: nat, r: int)
    requires GoodInput(entries, inp) && k < |inp.syms|
  {
    && 0 <= r < |slots|
    && var o, h := slots[r].owner, inp.hashes[k];
       || (t.base <= r < |t.run.slots| && o.OfLocal? && o.k == k)
       || (h != null && (o == OfEntry(h) || o == OfEntry(Base(entries, h))))
  }

  /** The kind of symbol `k`'s entry, and of what it resolves to. */
  ghost function Kinds(entries: seq<HashEntry>, inp: Input, k: nat): set<Kind>
    requires GoodInput(entries, inp) && k < |inp.syms|
  {
    if inp.hashes[k] == null then {} else {inp.hashes[k].kind, Base(entries, inp.hashes[k]).kind}
  }

  /** The index of a relocation against symbol `k` is right: there is none if the relocation goes to a section. One
      that is not negative names the symbol's record, unless the symbol is lost and has no entry, when the source
      complains and takes 0. A negative one is what the map says, or belongs to a kind that is not output. */
  ghost predicate RightIndex(entries: seq<HashEntry>, inp: Input, t: Turn, slots: seq<OutputSlot>, k: nat,
                             index: Option<int>)
    requires GoodInput(entries, inp)
  {
    && k < |inp.syms| == |t.run.map_|
    && var m := t.run.map_[k];
       match index
       case None => exists kind :: kind in Kinds(entries, inp, k) && (kind.Defined? || kind.DefWeak?)
       case Some(r) =>
         && (m >= 0 ==> r == m)
         && (r >= 0 ==> NamesSymbol(entries, inp, t, slots, k, r) || (r == 0 && m == -1 && inp.hashes[k] == null))
         && (r < 0 ==> (r == m && m != -1)
                       || (r == -2 && exists kind :: kind in Kinds(entries, inp, k) && !Writable(kind)))
  }

  /** The record of the file itself comes first, unless files are stripped or everything is discarded. */
  predicate FileFirst(o: Options, inp: Input, t: Turn) {
    if (o.strip == StripAll || (o.strip == StripSome && inp.filename !in o.keep)) || o.discard == DiscardAll
    then t.base == t.start
    else
      && t.base == t.start + 1 <= |t.run.slots|
      && t.run.slots[t.start].owner == OfFile
      && t.run.slots[t.start].rec
         == Nlist(inp.filename, N_TEXT, 0, 0, (inp.sections.text.outVma + inp.sections.text.outOffset) % WORD)
  }

  lemma FileIsFirst(o: Options, inp: Input, slots: seq<OutputSlot>, t: Turn)
    requires slots + FileSlots(o, inp) <= t.run.slots && t.start == |slots| && t.base == t.start + |FileSlots(o, inp)|
    ensures FileFirst(o, inp, t)
  {
    if |FileSlots(o, inp)| > 0 {
      assert t.run.slots[t.start] == (slots + FileSlots(o, inp))[t.start];
    }
  }

  /** Everything about an input, once its turn is over and for the rest of the link. */
  ghost predicate TurnRight(entries: seq<HashEntry>, o: Options, inp: Input, t: Turn, slots: seq<OutputSlot>,
                            relocs: seq<nat>, indices: seq<Option<int>>)
    requires GoodInput(entries, inp)
  {
    && Progress(entries, o, inp, t.base, t.before, t.after, t.run, false, |inp.syms|)
    && Fates(o, inp, t.first, t.base, t.run, false, |inp.syms|) && FileFirst(o, inp, t)
    && t.run.slots <= slots && |indices| == |relocs|
    && forall i :: 0 <= i < |relocs| ==> RightIndex(entries, inp, t, slots, relocs[i], indices[i])
  }

  lemma GivenStays(slots: seq<OutputSlot>, more: seq<OutputSlot>, h: HashEntry?, m: int, index: Option<int>)
    requires Given(slots, h, m, index) && slots <= more
    ensures Given(more, h, m, index)
  {
  }

  lemma IndexStays(entries: seq<HashEntry>, inp: Input, t: Turn, slots: seq<OutputSlot>, more: seq<OutputSlot>,
                   k: nat, index: Option<int>)
    requires GoodInput(entries, inp) && RightIndex(entries, inp, t, slots, k, index) && slots <= more
    ensures RightIndex(entries, inp, t, more, k, index)
  {
    if index.Some? && 0 <= index.value < |slots| {
      assert more[index.value] == slots[index.value];
    }
  }

  /** An index stays right while later inputs are written. */
  lemma TurnStays(entries: seq<HashEntry>, o: Options, inp: Input, t: Turn, slots: seq<OutputSlot>,
                  more: seq<OutputSlot>, relocs: seq<nat>, indices: seq<Option<int>>)
    requires GoodInput(entries, inp) && TurnRight(entries, o, inp, t, slots, relocs, indices) && slots <= more
    ensures TurnRight(entries, o, inp, t, more, relocs, indices)
  {
    hide Progress, RightIndex, Fates, FileFirst;
    forall i | 0 <= i < |relocs| ensures RightIndex(entries, inp, t, more, relocs[i], indices[i]) {
      IndexStays(entries, inp, t, slots, more, relocs[i], indices[i]);
    }
    assert t.run.slots <= more;
  }

  lemma GivenIsRight(entries: seq<HashEntry>, o: Options, inp: Input, t: Turn, slots: seq<OutputSlot>, k: nat,
                     h: HashEntry?, index: Option<int>)
    requires GoodInput(entries, inp)
    requires Progress(entries, o, inp, t.base, t.before, t.after, t.run, false, |inp.syms|) && t.run.slots <= slots
    requires k < |inp.syms| && Given(slots, h, if k < |t.run.map_| then t.run.map_[k] else 0, index)
    requires h == inp.hashes[k] || (inp.hashes[k] != null && h == Base(entries, inp.hashes[k]))
    ensures RightIndex(entries, inp, t, slots, k, index)
  {
    hide Heads, Marked, Undisturbed, Earlier, RightRecord;
    assert Leads(inp, t.base, t.run, k);
    var m := t.run.map_[k];
    if m >= 0 {
      assert slots[m] == t.run.slots[m];
    }
  }

  // ---- headers over the whole link ----

  /** Each input begins with the headers its predecessor left. */
  predicate InTurn(turns: seq<Turn>, includes: Includes) {
    forall j :: 0 <= j < |turns| ==> Begins(turns, includes, j)
  }

  predicate Begins(turns: seq<Turn>, includes: Includes, j: nat)
    requires j < |turns|
  {
    turns[j].before == if j == 0 then includes else turns[j - 1].after
  }

  /** Input `j` has this header, and came to it. */
  predicate HasHeader(inputs: seq<Input>, turns: seq<Turn>, j: nat, h: Header)
    requires j < |inputs| && j < |turns|
  {
    var heads := turns[j].run.heads;
    HeadsValid(inputs[j].syms, heads, |inputs[j].syms|) && Met(inputs[j].syms, heads, |heads|, h)
  }

  lemma SeenAfter(entries: seq<HashEntry>, o: Options, inputs: seq<Input>, turns: seq<Turn>, j: nat, h: Header)
    requires GoodInputs(entries, inputs) && |turns| == |inputs| && j < |turns|
    requires Progress(entries, o, inputs[j], turns[j].base, turns[j].before, turns[j].after, turns[j].run, false,
                      |inputs[j].syms|)
    ensures Seen(turns[j].after, h) <==> Seen(turns[j].before, h) || HasHeader(inputs, turns, j, h)
  {
    hide Shape, Marked, Earlier, Undisturbed, Met, Seen, ReplacedRight;
  }

  lemma InTurnMore(turns: seq<Turn>, includes: Includes, t: Turn)
    requires InTurn(turns, includes) && t.before == if |turns| == 0 then includes else turns[|turns| - 1].after
    ensures InTurn(turns + [t], includes)
  {
    forall j | 0 <= j < |turns + [t]| ensures Begins(turns + [t], includes, j) {
      assert j < |turns| ==> Begins(turns, includes, j);
    }
  }

  /** What input `j` finds seen are the headers of the inputs before it, and those seen before the link. */
  lemma {:induction false} SeenEarlier(entries: seq<HashEntry>, o: Options, inputs: seq<Input>, turns: seq<Turn>,
                                       includes: Includes, j: nat, h: Header)
    requires GoodInputs(entries, inputs) && |turns| == |inputs| && j < |turns| && InTurn(turns, includes)
    requires forall i :: 0 <= i < |inputs| ==> Progress(entries, o, inputs[i], turns[i].base, turns[i].before,
                                                        turns[i].after, turns[i].run, false, |inputs[i].syms|)
    ensures Seen(turns[j].before, h)
       <==> Seen(includes, h) || exists i :: 0 <= i < j && HasHeader(inputs, turns, i, h)
  {
    hide Progress, Seen, HasHeader;
    assert Begins(turns, includes, j);
    if j > 0 {
      SeenEarlier(entries, o, inputs, turns, includes, j - 1, h);
      SeenAfter(entries, o, inputs, turns, j - 1, h);
      if HasHeader(inputs, turns, j - 1, h) {
        assert exists i :: 0 <= i < j && HasHeader(inputs, turns, i, h);
      } else if i :| 0 <= i < j && HasHeader(inputs, turns, i, h) {
        assert i < j - 1;
      }
    }
  }

  // ---- where the records are ----

  /** OutputSlot `i` of the symbol table. */
  function At(symoff: nat, i: nat): nat {
    symoff + NLIST_SIZE * i
  }

  /** The first `n` records stand in the file, each in its slot. */
  predicate Stored(disk: map<nat, Nlist>, symoff: nat, slots: seq<OutputSlot>, n: nat) {
    n <= |slots| && forall i :: 0 <= i < n ==> At(symoff, i) in disk && disk[At(symoff, i)] == slots[i].rec
  }

  lemma StoredMore(disk: map<nat, Nlist>, symoff: nat, slots: seq<OutputSlot>, n: nat, rec: Nlist)
    requires Stored(disk, symoff, slots, n) && n < |slots| && slots[n].rec == rec
    ensures Stored(disk[At(symoff, n) := rec], symoff, slots, n + 1)
  {
  }

  lemma StoredLonger(disk: map<nat, Nlist>, symoff: nat, slots: seq<OutputSlot>, n: nat, s: OutputSlot)
    requires Stored(disk, symoff, slots, n)
    ensures Stored(disk, symoff, slots + [s], n)
  {
  }

  /** The last `n` records wait in the buffer. */
  predicate Waiting(buffer: seq<Nlist>, slots: seq<OutputSlot>, n: nat) {
    n <= |slots| && n <= |buffer| && forall i :: 0 <= i < n ==> buffer[i] == slots[|slots| - n + i].rec
  }

  /** The records that an entry in this state gets when no input's symbol stands for it. */
  function OtherSlots(o: Options, h: HashEntry, written: bool, indx: int): seq<OutputSlot> {
    var rec := OtherRecord(h.name, h.kind);
    if !written && (indx == -2 || Wanted(o, h.name)) && rec.Some? then [OutputSlot(OfEntry(h), 0, rec.value)] else []
  }

  lemma WaitingMore(buffer: seq<Nlist>, slots: seq<OutputSlot>, n: nat, s: OutputSlot)
    requires Waiting(buffer, slots, n) && n < |buffer|
    ensures Waiting(buffer[n := s.rec], slots + [s], n + 1)
  {
  }

  // ---- the linker ----

  class Linker {
    const entries: seq<HashEntry>
    const options: Options
    const symoff0: nat
    var symoff: nat
    var outCount: nat
    var disk: map<nat, Nlist>
    var includes: Includes
    const symbolMap: array<int>
    const outputSyms: array<Nlist>
    var outsym: nat
    var pass: bool
    var skipNext: bool
    ghost var slots: seq<OutputSlot>
    ghost var heads: seq<nat>
    ghost var dups: set<nat>
    /** The records that were there before this input, and the state of the entries. */
    ghost var kept: seq<OutputSlot>
    ghost var first: map<HashEntry, Status>

    /** `maxSyms` is the largest number of symbols of an input. */
    constructor (entries: seq<HashEntry>, options: Options, symoff: nat, maxSyms: nat)
      requires forall h :: h in entries ==> h.indx == -1 && !h.written
      ensures this.entries == entries && this.options == options && symoff0 == symoff && includes == map[]
      ensures slots == [] && Settled() && Owned(options, slots, StatusOf(entries)) && NonePending(entries)
      ensures symbolMap.Length == maxSyms && outputSyms.Length == maxSyms + 1 && fresh(symbolMap) && fresh(outputSyms)
    {
      this.entries, this.options, symoff0, this.symoff := entries, options, symoff, symoff;
      outCount, disk, includes, outsym, pass, skipNext := 0, map[], map[], 0, false, false;
      slots, heads, dups, kept, first := [], [], {}, [], map[];
      symbolMap := new int[maxSyms](_ => 0);
      outputSyms := new Nlist[maxSyms + 1](_ => Nlist([], 0, 0, 0, 0));
    }

    /** The counters and the file agree with the records made, the last `outsym` of which wait in the buffer. */
    ghost predicate Buffered()
      reads this, outputSyms
    {
      && outCount == |slots| && outsym <= |slots| && symoff == At(symoff0, |slots| - outsym)
      && Stored(disk, symoff0, slots, |slots| - outsym) && Waiting(outputSyms[..], slots, outsym)
    }

    /** Between inputs: slot `i` of the symbol table is at `symoff0 + 12 * i`, and the next one comes behind them. */
    ghost predicate Settled()
      reads this, outputSyms
    {
      Buffered() && outsym == 0 && !pass && !skipNext
    }

    /** Adds a record to the buffer. */
    method Buffer(rec: Nlist, ghost owner: Owner, ghost src: nat)
      requires Buffered() && outsym < outputSyms.Length
      modifies this`outCount, this`outsym, this`slots, outputSyms
      ensures Buffered() && slots == old(slots) + [OutputSlot(owner, src, rec)] && outsym == old(outsym) + 1
    {
      hide Stored, Waiting, At;
      ghost var s := OutputSlot(owner, src, rec);
      WaitingMore(outputSyms[..], slots, outsym, s);
      StoredLonger(disk, symoff0, slots, |slots| - outsym, s);
      ghost var buffer := outputSyms[..];
      outputSyms[outsym] := rec;
      assert outputSyms[..] == buffer[outsym := rec];
      outCount := outCount + 1;
      outsym := outsym + 1;
      slots := slots + [s];
    }

    /** Writes the buffer behind the records already in the file. */
    method Flush()
      requires Buffered()
      modifies this`symoff, this`disk, this`outsym
      ensures Buffered() && outsym == 0
    {
      hide Stored;
      var n := outsym;
      ghost var first := |slots| - n;
      for i := 0 to n
        invariant outsym == n && symoff == old(symoff)
        invariant Stored(disk, symoff0, slots, first + i)
      {
        assert outputSyms[..][i] == slots[first + i].rec;
        StoredMore(disk, symoff0, slots, first + i, outputSyms[i]);
        disk := disk[symoff + NLIST_SIZE * i := outputSyms[i]];
      }
      symoff := symoff + n * NLIST_SIZE;
      outsym := 0;
    }

    /** One record, straight to the file. */
    method WriteRecord(rec: Nlist, ghost s: OutputSlot)
      requires Settled() && s.rec == rec
      modifies this`symoff, this`disk, this`outCount, this`slots
      ensures Settled() && slots == old(slots) + [s]
    {
      hide Stored;
      StoredLonger(disk, symoff0, slots, |slots|, s);
      StoredMore(disk, symoff0, slots + [s], |slots|, rec);
      disk := disk[symoff := rec];
      symoff := symoff + NLIST_SIZE;
      outCount := outCount + 1;
      slots := slots + [s];
    }

    /** `aout_link_write_other_symbol`. */
    method WriteOther(h: HashEntry)
      requires Settled() && Owned(options, slots, StatusOf(entries)) && h in entries
      modifies this`symoff, this`disk, this`outCount, this`slots, h
      ensures Settled() && Owned(options, slots, StatusOf(entries)) && h.written
      ensures slots == old(slots) + OtherSlots(options, h, old(h.written), old(h.indx))
      ensures OthersBehind(options, if old(h.indx) == -2 then [h] else [], old(slots), slots)
      ensures h.indx == if |slots| > |old(slots)| then |old(slots)| else old(h.indx)
    {
      hide Sole, Indexed, Stored, Waiting, At;
      if h.written {
      } else if h.indx != -2 && (options.strip.StripAll? || (options.strip.StripSome? && h.name !in options.keep)) {
        MarkWritten(h);
      } else {
        var rec := FindOther(h.name, h.kind);
        if rec.None? {
          MarkWritten(h);
        } else {
          NoRecordYet(options, slots, StatusOf(entries), h);
          WriteEntry(h, rec.value);
        }
      }
    }

    method MarkWritten(h: HashEntry)
      requires Owned(options, slots, StatusOf(entries)) && h in entries && Excused(options, h, Status(true, h.indx))
      modifies h`written
      ensures Owned(options, slots, StatusOf(entries)) && h.written
    {
      hide Sole, Indexed, Excused;
      ghost var st := StatusOf(entries);
      OwnedAfterMark(options, slots, st, h, Status(true, h.indx));
      h.written := true;
      assert StatusOf(entries) == st[h := Status(true, h.indx)];
    }

    /** A record of an entry, straight to the file. */
    method WriteEntry(h: HashEntry, rec: Nlist)
      requires Settled() && Owned(options, slots, StatusOf(entries)) && h in entries && Unclaimed(slots, h)
      modifies this`symoff, this`disk, this`outCount, this`slots, h
      ensures Settled() && Owned(options, slots, StatusOf(entries))
      ensures slots == old(slots) + [OutputSlot(OfEntry(h), 0, rec)] && h.written && h.indx == |old(slots)|
    {
      hide Sole, Indexed, Stored, Waiting, At;
      ghost var s := OutputSlot(OfEntry(h), 0, rec);
      ghost var st := StatusOf(entries);
      OwnedAfterClaim(options, slots, st, s, h);
      h.written, h.indx := true, outCount;
      ghost var after := StatusOf(entries);
      assert after == st[h := Status(true, |slots|)];
      WriteRecord(rec, s);
      assert StatusOf(entries) == after;
    }

    // ---- one symbol of an input ----

    /** The part of the state that concerns an input of `n` symbols. */
    ghost function Now(n: nat): Run
      requires n <= symbolMap.Length
      reads this, symbolMap, entries
    {
      Run(symbolMap[..n], slots, heads, dups, StatusOf(entries))
    }

    /** The buffer holds this input's records, behind `extra` others; everybody has their record. */
    ghost predicate Holding(n: nat, base: nat, extra: nat)
      reads this, outputSyms, entries
    {
      && n <= symbolMap.Length && n < outputSyms.Length && extra <= 1 && base <= |slots|
      && Buffered() && Owned(options, slots, StatusOf(entries)) && outsym == extra + (|slots| - base)
      && !(pass && skipNext) && kept <= slots
    }

    ghost predicate During(inp: Input, base: nat, before: Includes, extra: nat, k: nat)
      reads this, outputSyms, symbolMap, entries
    {
      && Holding(|inp.syms|, base, extra) && GoodInput(entries, inp)
      && Progress(entries, options, inp, base, before, includes, Now(|inp.syms|), pass || skipNext, k)
      && Fates(options, inp, first, base, Now(|inp.syms|), pass || skipNext, k)
      && (options.strip.StripAll? ==> !pass)
    }

    /** As `During`, with symbol `k` looked at: `r` is the state before. */
    ghost predicate Amid(inp: Input, base: nat, before: Includes, extra: nat, k: nat, r: Run)
      reads this, outputSyms, symbolMap, entries
    {
      && Holding(|inp.syms|, base, extra) && GoodInput(entries, inp) && k < |inp.syms| == |r.map_|
      && Progress(entries, options, inp, base, before, includes, r, pass || skipNext, k)
      && Fates(options, inp, first, base, r, pass || skipNext, k) && (options.strip.StripAll? ==> !pass)
      && Now(|inp.syms|) == r.(map_ := r.map_[k := -1]) && !Dropped(Stabs(inp.syms), r.dups, k)
      && |slots| <= base + k
    }

    /** Gives symbol `k` a record that is no entry's. */
    method EmitLocal(ghost n: nat, ghost base: nat, ghost extra: nat, k: nat, rec: Nlist, ghost raw: bool, ghost r: Run)
      requires Holding(n, base, extra) && k < n == |r.map_| && |slots| < base + n
      requires Now(n) == r.(map_ := r.map_[k := -1])
      modifies this`outCount, this`outsym, this`slots, outputSyms, symbolMap
      ensures Holding(n, base, extra) && Now(n) == Emitted(r, k, OutputSlot(OfLocal(k, raw), k, rec))
    {
      hide Owned, Stored, Waiting, At;
      ghost var st := StatusOf(entries);
      OwnedAfterOther(options, slots, st, OutputSlot(OfLocal(k, raw), k, rec));
      symbolMap[k] := outCount;
      Buffer(rec, OfLocal(k, raw), k);
      assert StatusOf(entries) == st;
      assert symbolMap[..n] == r.map_[k := |r.slots|];
    }

    /** Gives entry `h` a record, for symbol `k`. */
    method EmitEntry(ghost n: nat, ghost base: nat, ghost extra: nat, k: nat, h: HashEntry, rec: Nlist, ghost r: Run)
      requires Holding(n, base, extra) && k < n == |r.map_| && |slots| < base + n
      requires Now(n) == r.(map_ := r.map_[k := -1]) && h in entries && Unclaimed(slots, h)
      modifies this`outCount, this`outsym, this`slots, outputSyms, symbolMap, h
      ensures Holding(n, base, extra) && Now(n) == Emitted(r, k, OutputSlot(OfEntry(h), k, rec))
    {
      hide Owned, Stored, Waiting, At, Unclaimed;
      ghost var st := StatusOf(entries);
      OwnedAfterClaim(options, slots, st, OutputSlot(OfEntry(h), k, rec), h);
      h.written := true;
      h.indx := outCount;
      symbolMap[k] := outCount;
      Buffer(rec, OfEntry(h), k);
      assert StatusOf(entries) == st[h := Status(true, |r.slots|)];
      assert symbolMap[..n] == r.map_[k := |r.slots|];
    }

    /** The target of an indirect symbol or warning passes through. */
    method PassThrough(inp: Input, k: nat, ghost base: nat, ghost before: Includes, ghost extra: nat, ghost r: Run)
      requires Amid(inp, base, before, extra, k, r) && pass
      modifies this`outCount, this`outsym, this`slots, this`pass, outputSyms, symbolMap
      ensures During(inp, base, before, extra, k + 1)
      ensures !pass && !skipNext && Adds(old(slots), slots, OfLocal(k, true))
    {
      hide Progress, Fates, Owned, Dropped;
      ghost var s := OutputSlot(OfLocal(k, true), k, RawRecord(inp.syms[k]));
      RawProgress(entries, options, inp, base, before, includes, r, k, s);
      TargetIsNotItsOwn(options, inp, first, base, r, k);
      FatesEmitted(options, inp, first, base, r, true, k, s, false);
      pass := false;
      EmitLocal(|inp.syms|, base, extra, k, RawRecord(inp.syms[k]), true, r);
    }

    /** The target of an indirect symbol that is output with its definition is skipped. */
    method SkipTarget(inp: Input, k: nat, ghost base: nat, ghost before: Includes, ghost extra: nat, ghost r: Run)
      requires Amid(inp, base, before, extra, k, r) && skipNext
      modifies this`skipNext
      ensures During(inp, base, before, extra, k + 1) && !pass && !skipNext
    {
      hide Progress, Fates, Owned, Dropped, Stored, Waiting;
      SkipProgress(entries, options, inp, base, before, includes, r, k);
      TargetIsNotItsOwn(options, inp, first, base, r, k);
      FatesPassed(options, inp, first, base, r, true, k, Passed(r, k, -1), false);
      ghost var st := StatusOf(entries);
      skipNext := false;
      assert StatusOf(entries) == st;
    }

    /** A header is looked up by name and total; a new one is entered. */
    method LookUpHeader(name: seq<Byte>, total: int) returns (seen: bool)
      modifies this`includes
      ensures seen == Seen(old(includes), Header(name, total))
      ensures forall h :: Seen(includes, h) <==> Seen(old(includes), h) || h == Header(name, total)
    {
      var totals := if name in includes then includes[name] else [];
      var t := 0;
      while t < |totals| && totals[t] != total
        invariant t <= |totals| && total !in totals[..t]
      {
        t := t + 1;
      }
      seen := t < |totals|;
      assert totals[..|totals|] == totals;
      if !seen {
        includes := includes[name := [total] + totals];
      }
    }

    /** Looks up header `k`, and marks what belongs to it if it was seen before. */
    method TreatHeader(inp: Input, k: nat, ghost base: nat, ghost extra: nat, ghost r: Run) returns (type_: Byte,
                       val: int)
      requires Holding(|inp.syms|, base, extra) && k < |inp.syms| == |r.map_| && inp.syms[k].type_ == N_BINCL
      requires Now(|inp.syms|) == r.(map_ := r.map_[k := -1]) && k !in r.dups
      modifies this`includes, this`heads, this`dups, symbolMap
      ensures Holding(|inp.syms|, base, extra)
      ensures forall h :: Seen(includes, h) <==> Seen(old(includes), h) || h == HeaderOf(inp.syms, k)
      ensures var t := Headed(inp, r, k, Seen(old(includes), HeaderOf(inp.syms, k)));
              && Now(|inp.syms|) == t.(map_ := t.map_[k := -1])
              && type_ == (if k in t.dups then N_EXCL else N_BINCL) && val == Total(Stabs(inp.syms), k)
    {
      hide Owned, Dropped, Within, Stored, Waiting, HeaderOf, Seen, Headed, Replaced, Total;
      var stabs := Stabs(inp.syms);
      val := HeaderTotal(stabs, k);
      ghost var st := StatusOf(entries);
      HeaderIs(inp.syms, k);
      var seen := LookUpHeader(inp.syms[k].name, val);
      type_ := N_BINCL;
      if seen {
        type_ := N_EXCL;
        MarkHeader(stabs, k, symbolMap);
        dups := dups + {k};
      }
      heads := heads + [k];
      assert StatusOf(entries) == st;
      HeadedFields(inp, r, k, seen);
      MarkedNow(inp, r, k, seen, symbolMap[..|inp.syms|]);
    }

    /** The first symbol of a header, neither stripped nor discarded. */
    method HeaderSymbol(inp: Input, k: nat, ghost base: nat, ghost before: Includes, ghost extra: nat, ghost r: Run)
      requires Amid(inp, base, before, extra, k, r) && !pass && !skipNext && inp.syms[k].type_ == N_BINCL
      requires inp.hashes[k] == null
      requires !Stripped(options, inp.syms[k].type_, inp.syms[k].name)
      requires !Discarded(options, inp.syms[k].type_, inp.syms[k].name)
      modifies this`outCount, this`outsym, this`slots, this`includes, this`heads, this`dups, outputSyms, symbolMap
      ensures During(inp, base, before, extra, k + 1) && Adds(old(slots), slots, OfLocal(k, false))
    {
      hide Progress, Fates, Owned, Dropped, Stored, Waiting, HeaderOf, Seen, LocalRecord, Replaced, Total;
      var sym := inp.syms[k];
      ghost var now := includes;
      ProgressNoDup(entries, options, inp, base, before, now, r, false, k);
      var type_, val := TreatHeader(inp, k, base, extra, r);
      ghost var t := Headed(inp, r, k, Seen(now, HeaderOf(inp.syms, k)));
      HeadedFields(inp, r, k, Seen(now, HeaderOf(inp.syms, k)));
      HeaderRecord(inp, t.dups, k, type_, val);
      var rec := Nlist(sym.name, type_, sym.other, sym.desc, val);
      ghost var s := OutputSlot(OfLocal(k, false), k, rec);
      ProgressHeader(entries, options, inp, base, before, now, includes, r, k, s);
      FatesHeaded(options, inp, first, base, r, k, Seen(now, HeaderOf(inp.syms, k)));
      FatesEmitted(options, inp, first, base, t, false, k, s, false);
      EmitLocal(|inp.syms|, base, extra, k, rec, false, t);
    }

    /** A symbol without a hash entry. */
    method LocalSymbol(inp: Input, k: nat, ghost base: nat, ghost before: Includes, ghost extra: nat, ghost r: Run)
      requires Amid(inp, base, before, extra, k, r) && !pass && !skipNext && inp.hashes[k] == null
      modifies this`outCount, this`outsym, this`slots, this`includes, this`heads, this`dups, this`pass, this`skipNext
      modifies outputSyms, symbolMap
      ensures During(inp, base, before, extra, k + 1)
      ensures var s := inp.syms[k];
        if Stripped(options, s.type_, s.name) || Discarded(options, s.type_, s.name) then
          !pass && !skipNext && slots == old(slots)
        else
          var m := MeaningOf(inp.sections, s, None);
          pass == m.pass && skipNext == m.skip && Adds(old(slots), slots, OfLocal(k, false))
    {
      hide Progress, Fates, Owned, Dropped, Stored, Waiting, MeaningOf, Stripped, Discarded, OnlyHeadersTake, Bracket;
      var sym := inp.syms[k];
      ghost var st := StatusOf(entries);
      LocalMeaning(inp.sections, sym);
      if Stripped(options, sym.type_, sym.name) {
        LostProgress(entries, options, inp, base, before, includes, r, k);
        FatesPassed(options, inp, first, base, r, false, k, Passed(r, k, -1), false);
        return;
      }
      var type_, val, p, s := FindMeaning(inp.sections, sym, None);
      if Discarded(options, type_, sym.name) {
        LostProgress(entries, options, inp, base, before, includes, r, k);
        FatesPassed(options, inp, first, base, r, false, k, Passed(r, k, -1), false);
        return;
      }
      if type_ == N_BINCL {
        HeaderSymbol(inp, k, base, before, extra, r);
        return;
      }
      PlainLocal(inp, k, type_, val, p, s, base, before, extra, r);
    }

    /** One that is no header, neither stripped nor discarded. */
    method PlainLocal(inp: Input, k: nat, type_: Byte, val: int, p: bool, s: bool, ghost base: nat,
                      ghost before: Includes, ghost extra: nat, ghost r: Run)
      requires Amid(inp, base, before, extra, k, r) && !pass && !skipNext && inp.hashes[k] == null
      requires !Stripped(options, inp.syms[k].type_, inp.syms[k].name)
      requires !Discarded(options, inp.syms[k].type_, inp.syms[k].name) && inp.syms[k].type_ != N_BINCL
      requires MeaningOf(inp.sections, inp.syms[k], None) == Meaning(type_, val, p, s)
      modifies this`outCount, this`outsym, this`slots, this`pass, this`skipNext, outputSyms, symbolMap
      ensures During(inp, base, before, extra, k + 1)
      ensures pass == p && skipNext == s && Adds(old(slots), slots, OfLocal(k, false))
    {
      hide Progress, Fates, Owned, Dropped, Stored, Waiting, MeaningOf, Stripped, Discarded, OnlyHeadersTake, Bracket;
      var sym := inp.syms[k];
      ghost var st := StatusOf(entries);
      LocalMeaning(inp.sections, sym);
      var rec := Nlist(sym.name, type_, sym.other, sym.desc, val);
      ghost var slot := OutputSlot(OfLocal(k, false), k, rec);
      LocalProgress(entries, options, inp, base, before, includes, r, k, slot, p || s);
      NoneUnderStripAll(options, sym.type_, sym.name);
      FatesEmitted(options, inp, first, base, r, false, k, slot, p || s);
      pass, skipNext := p, s;
      assert StatusOf(entries) == st;
      EmitLocal(|inp.syms|, base, extra, k, rec, false, r);
    }

    /** Its entry was taken as written before. */
    method OutputBefore(inp: Input, k: nat, h: HashEntry, ghost base: nat, ghost before: Includes, ghost extra: nat,
                        ghost r: Run)
      requires Amid(inp, base, before, extra, k, r) && !pass && !skipNext && inp.hashes[k] == h
      requires !h.kind.Warning? && h.written
      modifies this`skipNext, symbolMap
      ensures During(inp, base, before, extra, k + 1) && !pass && skipNext == Pointing(inp.syms[k])
    {
      hide Progress, Fates, Owned, Dropped, Stored, Waiting, Pointing;
      ghost var st := StatusOf(entries);
      IndexOwned(options, slots, st, h);
      OldProgress(entries, options, inp, base, before, includes, r, k, h, h.indx, Pointing(inp.syms[k]));
      FatesPassed(options, inp, first, base, r, false, k, Passed(r, k, h.indx), Pointing(inp.syms[k]));
      if Pointing(inp.syms[k]) {
        skipNext := true;
      }
      symbolMap[k] := h.indx;
      assert StatusOf(entries) == st;
      assert symbolMap[..|inp.syms|] == r.map_[k := h.indx];
    }

    /** Its entry is stripped. */
    method StripEntry(inp: Input, k: nat, h: HashEntry, ghost base: nat, ghost before: Includes, ghost extra: nat,
                      ghost r: Run)
      requires Amid(inp, base, before, extra, k, r) && !pass && !skipNext && inp.hashes[k] == h
      requires Stripped(options, inp.syms[k].type_, h.name)
      modifies h`written
      ensures During(inp, base, before, extra, k + 1)
    {
      hide Progress, Fates, Owned, Dropped, Stored, Waiting;
      ghost var st := StatusOf(entries);
      StripProgress(entries, options, inp, base, before, includes, r, k, h, st[h := Status(true, h.indx)]);
      ghost var marked := st[h := Status(true, h.indx)];
      FatesPassed(options, inp, first, base, r, false, k, Passed(r, k, -1).(st := marked), false);
      OwnedAfterMark(options, slots, st, h, Status(true, h.indx));
      h.written := true;
      assert StatusOf(entries) == st[h := Status(true, h.indx)];
    }

    /** Its entry is output now. */
    method OutputEntry(inp: Input, k: nat, h: HashEntry, hresolve: HashEntry, ghost base: nat,
                       ghost before: Includes, ghost extra: nat, ghost r: Run)
      requires Amid(inp, base, before, extra, k, r) && !pass && !skipNext && inp.hashes[k] == h
      requires hresolve == Base(entries, h) && Unclaimed(slots, h)
      requires (h.kind.Warning? || !h.written) && !Stripped(options, inp.syms[k].type_, h.name)
      modifies this`outCount, this`outsym, this`slots, this`pass, this`skipNext, outputSyms, symbolMap, h
      ensures During(inp, base, before, extra, k + 1)
      ensures var m := MeaningOf(inp.sections, inp.syms[k], Some(hresolve.kind));
        pass == m.pass && skipNext == m.skip && Adds(old(slots), slots, OfEntry(h))
    {
      hide Progress, Fates, Owned, Dropped, Stored, Waiting, MeaningOf, Unclaimed, Pointing;
      var sym := inp.syms[k];
      ghost var st := StatusOf(entries);
      var type_, val, p, s := FindMeaning(inp.sections, sym, Some(hresolve.kind));
      GlobalMeaning(inp.sections, sym, hresolve.kind);
      var rec := Nlist(h.name, type_, sym.other, sym.desc, val);
      ghost var slot := OutputSlot(OfEntry(h), k, rec);
      GlobalProgress(entries, options, inp, base, before, includes, r, k, h, slot, p || s);
      NoneUnderStripAll(options, sym.type_, h.name);
      FatesEmitted(options, inp, first, base, r, false, k, slot, p || s);
      pass, skipNext := p, s;
      assert StatusOf(entries) == st;
      EmitEntry(|inp.syms|, base, extra, k, h, rec, r);
    }

    /** A symbol with hash entry `h`. */
    method GlobalSymbol(inp: Input, hashes: array<HashEntry?>, k: nat, h: HashEntry, ghost base: nat,
                        ghost before: Includes, ghost extra: nat, ghost r: Run)
      requires Amid(inp, base, before, extra, k, r) && !pass && !skipNext && inp.hashes[k] == h
      requires k < hashes.Length
      modifies this`outCount, this`outsym, this`slots, this`pass, this`skipNext, outputSyms, symbolMap, hashes, h
      ensures During(inp, base, before, extra, k + 1)
      ensures var s := inp.syms[k];
        if !h.kind.Warning? && old(h.written) then !pass && skipNext == Pointing(s) && slots == old(slots)
        else if Stripped(options, s.type_, h.name) then !pass && !skipNext && slots == old(slots)
        else
          var m := MeaningOf(inp.sections, s, Some(Base(entries, h).kind));
          pass == m.pass && skipNext == m.skip && Adds(old(slots), slots, OfEntry(h))
      ensures hashes[k] == Base(entries, h)
      ensures forall j :: 0 <= j < hashes.Length && j != k ==> hashes[j] == old(hashes[j])
    {
      hide Progress, Fates, Owned, Dropped, Stored, Waiting, Stripped, Unclaimed, MeaningOf, Pointing, Adds;
      ghost var st := StatusOf(entries);
      var hresolve := Resolve(entries, h);
      hashes[k] := hresolve;
      assert StatusOf(entries) == st;
      if !h.kind.Warning? && h.written {
        OutputBefore(inp, k, h, base, before, extra, r);
      } else if Stripped(options, inp.syms[k].type_, h.name) {
        StripEntry(inp, k, h, base, before, extra, r);
      } else {
        MayBeOutput(options, slots, st, h);
        OutputEntry(inp, k, h, hresolve, base, before, extra, r);
      }
    }

    /** One turn of the loop over an input's symbols. */
    method OneSymbol(inp: Input, hashes: array<HashEntry?>, k: nat, ghost base: nat, ghost before: Includes,
                     ghost extra: nat)
      requires During(inp, base, before, extra, k) && k < |inp.syms| == hashes.Length && hashes[k] == inp.hashes[k]
      modifies this`outCount, this`outsym, this`slots, this`includes, this`heads, this`dups, this`pass, this`skipNext
      modifies outputSyms, symbolMap, hashes, entries
      ensures During(inp, base, before, extra, k + 1)
      ensures TurnOf(entries, options, inp, k, old(symbolMap[k]) == -1,
                     inp.hashes[k] != null && old(inp.hashes[k].written), old(Flags(pass, skipNext)),
                     Flags(pass, skipNext), old(slots), slots)
      ensures hashes[k] == inp.hashes[k] || (inp.hashes[k] != null && hashes[k] == Base(entries, inp.hashes[k]))
      ensures forall j :: 0 <= j < hashes.Length && j != k ==> hashes[j] == old(hashes[j])
    {
      hide Progress, Fates, Owned, Dropped, Stored, Waiting, Adds, TypeBits;
      ghost var n := |inp.syms|;
      ghost var r := Now(n);
      LooksAt(entries, options, inp, base, before, includes, r, pass || skipNext, k);
      if symbolMap[k] == -1 {
        MarkedProgress(entries, options, inp, base, before, includes, r, pass || skipNext, k);
        FatesPassed(options, inp, first, base, r, pass || skipNext, k, Passed(r, k, -1), pass || skipNext);
        assert r.map_[k := -1] == r.map_;
        return;
      }
      ghost var st := StatusOf(entries);
      symbolMap[k] := -1;
      assert StatusOf(entries) == st;
      assert symbolMap[..n] == r.map_[k := -1];
      if pass {
        PassThrough(inp, k, base, before, extra, r);
      } else if skipNext {
        SkipTarget(inp, k, base, before, extra, r);
      } else {
        OwnSymbol(inp, hashes, k, base, before, extra, r);
      }
    }

    /** A symbol on its own account. */
    method OwnSymbol(inp: Input, hashes: array<HashEntry?>, k: nat, ghost base: nat, ghost before: Includes,
                     ghost extra: nat, ghost r: Run)
      requires Amid(inp, base, before, extra, k, r) && !pass && !skipNext
      requires |inp.syms| == hashes.Length && hashes[k] == inp.hashes[k]
      modifies this`outCount, this`outsym, this`slots, this`includes, this`heads, this`dups, this`pass, this`skipNext
      modifies outputSyms, symbolMap, hashes, entries
      ensures During(inp, base, before, extra, k + 1)
      ensures TurnOf(entries, options, inp, k, false, inp.hashes[k] != null && old(inp.hashes[k].written),
                     Flags(false, false), Flags(pass, skipNext), old(slots), slots)
      ensures hashes[k] == inp.hashes[k] || (inp.hashes[k] != null && hashes[k] == Base(entries, inp.hashes[k]))
      ensures forall j :: 0 <= j < hashes.Length && j != k ==> hashes[j] == old(hashes[j])
    {
      hide During, Progress, Fates, Owned, Dropped, Stored, Waiting, TurnOf, Adds, MeaningOf, Stripped, Discarded;
      ghost var was := slots;
      var h := hashes[k];
      if h == null {
        LocalSymbol(inp, k, base, before, extra, r);
        LocalTurn(entries, options, inp, k, false, Flags(pass, skipNext), was, slots);
      } else {
        ghost var written := h.written;
        GlobalSymbol(inp, hashes, k, h, base, before, extra, r);
        GlobalTurn(entries, options, inp, k, h, written, Flags(pass, skipNext), was, slots);
      }
    }

    /** The symbol for the input file itself. */
    method FileSymbol(inp: Input) returns (extra: nat)
      requires Settled() && Owned(options, slots, StatusOf(entries)) && outputSyms.Length > 0
      modifies this`outCount, this`outsym, this`slots, outputSyms
      ensures Buffered() && Owned(options, slots, StatusOf(entries)) && outsym == extra <= 1
      ensures slots == old(slots) + FileSlots(options, inp) && extra == |FileSlots(options, inp)|
    {
      hide Owned, Stored, Waiting;
      extra := 0;
      if !options.strip.StripAll? && (!options.strip.StripSome? || inp.filename in options.keep)
         && !options.discard.DiscardAll? {
        ghost var st := StatusOf(entries);
        OwnedAfterOther(options, slots, st, OutputSlot(OfFile, 0, FileRecord(inp)));
        var rec := FileRecord(inp);
        Buffer(rec, OfFile, 0);
        assert StatusOf(entries) == st;
        extra := 1;
      }
    }

    /** `memset`. */
    method ClearMap(n: nat)
      requires n <= symbolMap.Length
      modifies symbolMap
      ensures forall j :: 0 <= j < n ==> symbolMap[j] == 0
    {
      for k := 0 to n
        invariant forall j :: 0 <= j < k ==> symbolMap[j] == 0
      {
        symbolMap[k] := 0;
      }
    }

    /** No symbol is handled yet. */
    method StartRun(inp: Input)
      requires Buffered() && Owned(options, slots, StatusOf(entries)) && GoodInput(entries, inp) && outsym <= 1
      requires |inp.syms| <= symbolMap.Length && |inp.syms| < outputSyms.Length
      modifies this`pass, this`skipNext, this`heads, this`dups, this`kept, this`first, symbolMap
      ensures During(inp, |slots|, includes, outsym, 0) && kept == slots && first == old(StatusOf(entries))
    {
      hide Progress, Fates, Owned, Stored, Waiting, GoodInput, At, Linked;
      ghost var st := StatusOf(entries);
      ClearMap(|inp.syms|);
      pass, skipNext, heads, dups, kept, first := false, false, [], {}, slots, st;
      assert StatusOf(entries) == st;
      assert Holding(|inp.syms|, |slots|, outsym);
      ProgressStart(entries, options, inp, includes, Now(|inp.syms|));
      FatesStart(entries, options, inp, Now(|inp.syms|));
    }

    /** What comes before the loop over the symbols. */
    method Begin(inp: Input) returns (extra: nat, ghost base: nat)
      requires Settled() && Owned(options, slots, StatusOf(entries)) && GoodInput(entries, inp)
      requires |inp.syms| <= symbolMap.Length && |inp.syms| < outputSyms.Length
      modifies this`outCount, this`outsym, this`slots, this`pass, this`skipNext, this`heads, this`dups, this`kept
      modifies this`first
      modifies outputSyms, symbolMap
      ensures During(inp, base, includes, extra, 0)
      ensures kept == slots == old(slots) + FileSlots(options, inp) && base == |slots|
      ensures first == old(StatusOf(entries))
    {
      hide Progress, Owned, Stored, Waiting, GoodInput, FileSlots;
      extra := FileSymbol(inp);
      FileSlotsFew(options, inp);
      base := |slots|;
      StartRun(inp);
    }

    /** What comes behind it. */
    method End()
      requires Buffered() && Owned(options, slots, StatusOf(entries))
      modifies this`symoff, this`disk, this`outsym, this`pass, this`skipNext
      ensures Settled() && Owned(options, slots, StatusOf(entries))
    {
      hide Owned, Stored, Waiting;
      ghost var st := StatusOf(entries);
      pass, skipNext := false, false;
      if outsym > 0 {
        Flush();
      }
      assert StatusOf(entries) == st;
    }

    /** The loop over an input's symbols. */
    method AllSymbols(inp: Input, hashes: array<HashEntry?>, ghost base: nat, ghost before: Includes, ghost extra: nat)
      requires During(inp, base, before, extra, 0) && hashes[..] == inp.hashes
      modifies this`outCount, this`outsym, this`slots, this`includes, this`heads, this`dups, this`pass, this`skipNext
      modifies outputSyms, symbolMap, hashes, entries
      ensures During(inp, base, before, extra, |inp.syms|)
      ensures forall k :: 0 <= k < hashes.Length ==>
        hashes[k] == inp.hashes[k] || (inp.hashes[k] != null && hashes[k] == Base(entries, inp.hashes[k]))
    {
      hide Progress, Fates, Owned, Dropped, Stored, Waiting;
      var n := |inp.syms|;
      for k := 0 to n
        invariant During(inp, base, before, extra, k)
        invariant forall j :: k <= j < n ==> hashes[j] == inp.hashes[j]
        invariant forall j :: 0 <= j < k ==>
          hashes[j] == inp.hashes[j] || (inp.hashes[j] != null && hashes[j] == Base(entries, inp.hashes[j]))
      {
        OneSymbol(inp, hashes, k, base, before, extra);
      }
    }

    lemma Handled(inp: Input, base: nat, before: Includes, extra: nat, was: seq<OutputSlot>)
      requires During(inp, base, before, extra, |inp.syms|) && kept == was + FileSlots(options, inp)
      requires base == |kept|
      ensures Progress(entries, options, inp, base, before, includes, Now(|inp.syms|), false, |inp.syms|)
      ensures Fates(options, inp, first, base, Now(|inp.syms|), false, |inp.syms|)
      ensures options.strip == StripAll ==> slots == was
    {
      hide Progress, Fates, Owned, Stored, Waiting, FileSlots, At;
      var n := |inp.syms|;
      ProgressUncarried(entries, options, inp, base, before, includes, Now(n), pass || skipNext, n);
      FatesUncarried(options, inp, first, base, Now(n), pass || skipNext, n);
      NothingUnderStripAll(options, inp, first, base, Now(n), was, n);
    }

    /** `aout_link_write_symbols`. */
    method WriteSymbols(inp: Input, hashes: array<HashEntry?>) returns (ghost base: nat)
      requires Settled() && Owned(options, slots, StatusOf(entries)) && GoodInput(entries, inp)
      requires |inp.syms| <= symbolMap.Length && |inp.syms| < outputSyms.Length && hashes[..] == inp.hashes
      modifies this, outputSyms, symbolMap, hashes, entries
      ensures Settled() && Owned(options, slots, StatusOf(entries))
      ensures base == |old(slots)| + |FileSlots(options, inp)| <= |slots|
      ensures old(slots) + FileSlots(options, inp) <= slots
      ensures Progress(entries, options, inp, base, old(includes), includes, Now(|inp.syms|), false, |inp.syms|)
      ensures Fates(options, inp, old(StatusOf(entries)), base, Now(|inp.syms|), false, |inp.syms|)
      ensures options.strip == StripAll ==> slots == old(slots)
      ensures forall k :: 0 <= k < hashes.Length ==>
        hashes[k] == inp.hashes[k] || (inp.hashes[k] != null && hashes[k] == Base(entries, inp.hashes[k]))
    {
      hide Progress, Fates, Owned, Dropped, Stored, Waiting, FileSlots, At, GoodInput;
      ghost var before := includes;
      ghost var n := |inp.syms|;
      var extra;
      extra, base := Begin(inp);
      AllSymbols(inp, hashes, base, before, extra);
      Handled(inp, base, before, extra, old(slots));
      ghost var r := Now(n);
      End();
      assert Now(n) == r;
    }

    /** The index for a relocation against symbol `k` of the input just written, whose entry is `h`: a symbol that
        was stripped is output after all. */
    method RelocIndex(k: nat, h: HashEntry?) returns (r: int)
      requires Settled() && Owned(options, slots, StatusOf(entries)) && k < symbolMap.Length
          && (h != null ==> h in entries)
      modifies this`symoff, this`disk, this`outCount, this`slots, entries
      ensures Settled() && Owned(options, slots, StatusOf(entries)) && OthersBehind(options, [h], old(slots), slots)
      ensures old(NonePending(entries)) ==> NonePending(entries)
      ensures symbolMap[k] != -1 ==> r == symbolMap[k]
      ensures symbolMap[k] == -1 && h == null ==> r == 0
      ensures symbolMap[k] == -1 && h != null ==>
        if old(h.indx) >= 0 || Writable(h.kind) then 0 <= r < |slots| && slots[r].owner == OfEntry(h) else r == -2
    {
      hide Stored, Waiting, At;
      r := symbolMap[k];
      if r == -1 {
        if h != null {
          if h.indx < 0 {
            Reset(h);
            WriteOther(h);
          }
          r := h.indx;
          assert Indexed(slots, StatusOf(entries), h);
        } else {
          r := 0;
        }
      }
    }

    /** Marks an entry as one that must be output. */
    method Reset(h: HashEntry)
      requires Owned(options, slots, StatusOf(entries)) && h in entries && h.indx < 0
      modifies h
      ensures Owned(options, slots, StatusOf(entries)) && h.indx == -2 && !h.written
    {
      hide Sole, Indexed;
      ghost var st := StatusOf(entries);
      NoRecordYet(options, slots, st, h);
      OwnedAfterMark(options, slots, st, h, Status(false, -2));
      h.indx := -2;
      h.written := false;
      assert StatusOf(entries) == st[h := Status(false, -2)];
    }

    /** The indices for an input's relocations against symbols. */
    method RelocIndices(hashes: array<HashEntry?>, relocs: seq<nat>) returns (indices: seq<Option<int>>)
      requires Settled() && Owned(options, slots, StatusOf(entries)) && hashes.Length <= symbolMap.Length
      requires forall i :: 0 <= i < |relocs| ==> relocs[i] < hashes.Length
      requires forall k :: 0 <= k < hashes.Length && hashes[k] != null ==> hashes[k] in entries
      requires NonePending(entries)
      modifies this`symoff, this`disk, this`outCount, this`slots, entries
      ensures Settled() && Owned(options, slots, StatusOf(entries)) && NonePending(entries)
      ensures OthersBehind(options, Asked(hashes[..], relocs), old(slots), slots)
      ensures |indices| == |relocs|
      ensures forall i :: 0 <= i < |relocs| ==> Given(slots, hashes[relocs[i]], symbolMap[relocs[i]], indices[i])
    {
      hide Stored, Waiting, At, Owned, OthersBehind, Given, NonePending;
      ghost var asked := Asked(hashes[..], relocs);
      OthersBehindNone(options, asked, slots);
      indices := [];
      for i := 0 to |relocs|
        invariant Settled() && Owned(options, slots, StatusOf(entries)) && NonePending(entries)
        invariant OthersBehind(options, asked, old(slots), slots) && asked == Asked(hashes[..], relocs)
        invariant |indices| == i
        invariant forall j :: 0 <= j < i ==> Given(slots, hashes[relocs[j]], symbolMap[relocs[j]], indices[j])
      {
        var k := relocs[i];
        ghost var before := slots;
        var index := GiveIndex(k, hashes[k]);
        assert asked[i] == hashes[k];
        OthersBehindTrans(options, asked, [hashes[k]], old(slots), before, slots);
        forall j | 0 <= j < i ensures Given(slots, hashes[relocs[j]], symbolMap[relocs[j]], indices[j]) {
          GivenStays(before, slots, hashes[relocs[j]], symbolMap[relocs[j]], indices[j]);
        }
        indices := indices + [index];
      }
    }

    /** One relocation: against a definition it needs no index. */
    method GiveIndex(k: nat, h: HashEntry?) returns (index: Option<int>)
      requires Settled() && Owned(options, slots, StatusOf(entries)) && k < symbolMap.Length
          && (h != null ==> h in entries)
      requires NonePending(entries)
      modifies this`symoff, this`disk, this`outCount, this`slots, entries
      ensures Settled() && Owned(options, slots, StatusOf(entries)) && NonePending(entries)
      ensures OthersBehind(options, [h], old(slots), slots)
      ensures old(slots) <= slots && Given(slots, h, symbolMap[k], index)
    {
      hide Stored, Waiting, At, Owned, NonePending;
      if h != null && (h.kind.Defined? || h.kind.DefWeak?) {
        return None;
      }
      var r := RelocIndex(k, h);
      index := Some(r);
    }

    /** The traversal of the hash table behind the inputs. */
    method WriteOthers()
      requires Settled() && Owned(options, slots, StatusOf(entries)) && NonePending(entries)
      modifies this`symoff, this`disk, this`outCount, this`slots, entries
      ensures Settled() && Owned(options, slots, StatusOf(entries)) && OthersBehind(options, [], old(slots), slots)
      ensures forall h :: h in entries ==> h.written
    {
      hide Stored, Waiting, At, Owned, OthersBehind;
      OthersBehindNone(options, [], slots);
      for i := 0 to |entries|
        invariant Settled() && Owned(options, slots, StatusOf(entries)) && NonePending(entries)
        invariant OthersBehind(options, [], old(slots), slots)
        invariant forall j :: 0 <= j < i ==> entries[j].written
      {
        ghost var before := slots;
        OneOther(entries[i]);
        OthersBehindTrans(options, [], [], old(slots), before, slots);
      }
    }

    /** An entry that is not forced. */
    method OneOther(h: HashEntry)
      requires Settled() && Owned(options, slots, StatusOf(entries)) && NonePending(entries) && h in entries
      modifies this`symoff, this`disk, this`outCount, this`slots, h
      ensures Settled() && Owned(options, slots, StatusOf(entries)) && NonePending(entries) && h.written
      ensures OthersBehind(options, [], old(slots), slots)
    {
      hide Stored, Waiting, At, Owned;
      if h.written {
        OthersBehindNone(options, [], slots);
        return;
      }
      WriteOther(h);
    }

    /** The symbols of a final link: `dynamic` is an entry forced out first, `relocs` lists the symbols that each
        input's relocations refer to, and `indices` what they get. */
    method FinalLink(inputs: seq<Input>, hashes: seq<array<HashEntry?>>, relocs: seq<seq<nat>>, dynamic: HashEntry?)
      returns (indices: seq<seq<Option<int>>>, ghost turns: seq<Turn>)
      requires Settled() && Owned(options, slots, StatusOf(entries)) && slots == []
      requires (dynamic != null ==> dynamic in entries) && GoodInputs(entries, inputs) && NonePending(entries)
      requires |inputs| == |hashes| == |relocs|
      requires forall i, j :: 0 <= i < j < |hashes| ==> hashes[i] != hashes[j]
      requires forall i :: 0 <= i < |inputs| ==> InputReady(inputs[i], hashes[i], relocs[i])
      modifies this, outputSyms, symbolMap, hashes, entries
      ensures Settled() && Owned(options, slots, StatusOf(entries)) && AllGenuine(entries, inputs, slots)
      ensures forall i :: 0 <= i < outCount ==>
        i < |slots| && At(symoff0, i) in disk && disk[At(symoff0, i)] == slots[i].rec
      ensures AllJustified(entries, options, inputs, relocs, slots)
      ensures options.strip == StripAll && (forall j :: 0 <= j < |relocs| ==> relocs[j] == []) ==> outCount == 0
      ensures forall h ::
        (h in entries && Writable(h.kind)
         && (options.strip == StripNone || options.strip == StripDebugger
             || (options.strip == StripSome && h.name in options.keep))) ==>
        && 0 <= h.indx < outCount == |slots| && slots[h.indx].owner == OfEntry(h)
        && At(symoff0, h.indx) in disk && RecordOf(entries, inputs, h, disk[At(symoff0, h.indx)])
      ensures |turns| == |inputs| && InTurn(turns, old(includes)) && AllTurned(inputs, turns, slots, relocs, indices)
    {
      hide Stored, Waiting, At, Owned, Progress, AllGenuine, OthersBehind, FileSlots, GoodInputs, TurnRight;
      hide AllJustified, NonePending;
      NothingYet(inputs, relocs);
      indices, turns := [], [];
      assert InTurn(turns, old(includes)) && AllTurned(inputs, turns, slots, relocs, indices);
      hide InTurn;
      if dynamic != null {
        OneOther(dynamic);
        GenuineWithOthers(entries, options, [], inputs, [], slots);
        JustifiedWithOthers(entries, options, [], inputs, relocs, [], slots);
      }
      for i := 0 to |inputs|
        invariant Settled() && Owned(options, slots, StatusOf(entries)) && AllGenuine(entries, inputs, slots)
        invariant NonePending(entries) && AllJustified(entries, options, inputs, relocs, slots)
        invariant forall j :: i <= j < |inputs| ==> InputReady(inputs[j], hashes[j], relocs[j])
        invariant |indices| == |turns| == i && InTurn(turns, old(includes))
        invariant includes == if i == 0 then old(includes) else turns[i - 1].after
        invariant AllTurned(inputs, turns, slots, relocs, indices)
      {
        assert InputReady(inputs[i], hashes[i], relocs[i]);
        ghost var before := slots;
        ghost var t;
        var given;
        given, t := OneInput(inputs, i, hashes[i], relocs);
        OneMoreTurned(inputs, turns, before, relocs, indices, t, given, slots);
        InTurnMore(turns, old(includes), t);
        indices, turns := indices + [given], turns + [t];
      }
      ghost var before := slots;
      WriteOthers();
      TurnedStay(inputs, turns, before, slots, relocs, indices);
      GenuineWithOthers(entries, options, [], inputs, before, slots);
      JustifiedWithOthers(entries, options, [], inputs, relocs, before, slots);
      EmptyUnderStripAll(inputs, relocs);
      AllOut(entries, inputs, options, slots, StatusOf(entries));
      OnDisk();
    }

    /** The turns taken so far are right. */
    ghost predicate AllTurned(inputs: seq<Input>, turns: seq<Turn>, now: seq<OutputSlot>, relocs: seq<seq<nat>>,
                              indices: seq<seq<Option<int>>>)
      requires GoodInputs(entries, inputs)
    {
      && |turns| == |indices| <= |inputs| == |relocs|
      && forall j :: 0 <= j < |turns| ==>
           TurnRight(entries, options, inputs[j], turns[j], now, relocs[j], indices[j])
    }

    lemma TurnedStay(inputs: seq<Input>, turns: seq<Turn>, now: seq<OutputSlot>, more: seq<OutputSlot>,
                     relocs: seq<seq<nat>>, indices: seq<seq<Option<int>>>)
      requires GoodInputs(entries, inputs) && AllTurned(inputs, turns, now, relocs, indices)
      requires OthersBehind(options, [], now, more)
      ensures AllTurned(inputs, turns, more, relocs, indices)
    {
      hide TurnRight;
      forall j | 0 <= j < |turns|
        ensures TurnRight(entries, options, inputs[j], turns[j], more, relocs[j], indices[j]) {
        TurnStays(entries, options, inputs[j], turns[j], now, more, relocs[j], indices[j]);
      }
    }

    lemma OneMoreTurned(inputs: seq<Input>, turns: seq<Turn>, now: seq<OutputSlot>, relocs: seq<seq<nat>>,
                        indices: seq<seq<Option<int>>>, t: Turn, given: seq<Option<int>>, more: seq<OutputSlot>)
      requires GoodInputs(entries, inputs) && AllTurned(inputs, turns, now, relocs, indices) && now <= more
      requires |turns| < |inputs|
      requires TurnRight(entries, options, inputs[|turns|], t, more, relocs[|turns|], given)
      ensures AllTurned(inputs, turns + [t], more, relocs, indices + [given])
    {
      hide TurnRight;
      forall j | 0 <= j < |turns + [t]|
        ensures TurnRight(entries, options, inputs[j], (turns + [t])[j], more, relocs[j], (indices + [given])[j]) {
        if j < |turns| {
          TurnStays(entries, options, inputs[j], turns[j], now, more, relocs[j], indices[j]);
        }
      }
    }

    /** An input's symbols, and those its relocations bring back. */
    method OneInput(inputs: seq<Input>, i: nat, hashes: array<HashEntry?>, relocs: seq<seq<nat>>)
      returns (indices: seq<Option<int>>, ghost t: Turn)
      requires Settled() && Owned(options, slots, StatusOf(entries))
      requires GoodInputs(entries, inputs) && i < |inputs| == |relocs| && AllGenuine(entries, inputs, slots)
      requires NonePending(entries) && AllJustified(entries, options, inputs, relocs, slots)
      requires InputReady(inputs[i], hashes, relocs[i])
      modifies this, outputSyms, symbolMap, hashes, entries
      ensures Settled() && Owned(options, slots, StatusOf(entries)) && AllGenuine(entries, inputs, slots)
      ensures NonePending(entries) && AllJustified(entries, options, inputs, relocs, slots)
      ensures TurnRight(entries, options, inputs[i], t, slots, relocs[i], indices)
      ensures old(slots) <= slots && t.before == old(includes) && t.after == includes
    {
      hide Stored, Waiting, At, Owned, Progress, AllGenuine, OthersBehind, FileSlots, GoodInputs, Given, RightIndex;
      hide AllJustified, Fates, FileFirst, AskedFor;
      var inp := inputs[i];
      t := OneTurn(inputs, i, hashes, relocs);
      hide NonePending;
      indices := RelocIndices(hashes, relocs[i]);
      ghost var asked := Asked(hashes[..], relocs[i]);
      BehindIsLonger(asked, t.run.slots, slots);
      GenuineWithOthers(entries, options, asked, inputs, t.run.slots, slots);
      AskedByRelocs(inputs, i, hashes[..], relocs);
      JustifiedWithOthers(entries, options, asked, inputs, relocs, t.run.slots, slots);
      forall j | 0 <= j < |relocs[i]| ensures RightIndex(entries, inp, t, slots, relocs[i][j], indices[j]) {
        GivenIsRight(entries, options, inp, t, slots, relocs[i][j], hashes[relocs[i][j]], indices[j]);
      }
      assert old(slots) <= t.run.slots <= slots;
    }

    /** The symbols alone. */
    method OneTurn(inputs: seq<Input>, i: nat, hashes: array<HashEntry?>, ghost relocs: seq<seq<nat>>)
      returns (ghost t: Turn)
      requires Settled() && Owned(options, slots, StatusOf(entries))
      requires GoodInputs(entries, inputs) && i < |inputs| == |relocs| && AllGenuine(entries, inputs, slots)
      requires NonePending(entries) && AllJustified(entries, options, inputs, relocs, slots)
      requires InputReady(inputs[i], hashes, relocs[i])
      modifies this, outputSyms, symbolMap, hashes, entries
      ensures Settled() && Owned(options, slots, StatusOf(entries)) && AllGenuine(entries, inputs, slots)
      ensures NonePending(entries) && AllJustified(entries, options, inputs, relocs, slots)
      ensures var inp := inputs[i];
        && Progress(entries, options, inp, t.base, t.before, t.after, t.run, false, |inp.syms|)
        && Fates(options, inp, t.first, t.base, t.run, false, |inp.syms|) && FileFirst(options, inp, t)
        && symbolMap[..|inp.syms|] == t.run.map_
      ensures old(slots) <= slots == t.run.slots && t.before == old(includes) && t.after == includes
      ensures hashes.Length == |inputs[i].syms|
      ensures forall k :: 0 <= k < hashes.Length ==>
        hashes[k] == inputs[i].hashes[k]
        || (inputs[i].hashes[k] != null && hashes[k] == Base(entries, inputs[i].hashes[k]))
    {
      hide Stored, Waiting, At, Owned, Progress, AllGenuine, FileSlots, GoodInputs, AllJustified, Fates, FileFirst;
      var inp := inputs[i];
      ghost var before, earlier, first := slots, includes, StatusOf(entries);
      assert forall h :: h in first ==> first[h].indx == -2 ==> first[h].written;
      hide NonePending;
      ghost var base := WriteSymbols(inp, hashes);
      t := Turn(|before|, base, first, earlier, includes, Now(|inp.syms|));
      GenuineWithInput(entries, options, inputs, i, before, base, earlier, includes, t.run);
      JustifiedWithInput(entries, options, inputs, relocs, inp, first, base, t.run, before, |inp.syms|);
      StillNonePending(entries, options, inp, first, base, t.run, |inp.syms|);
      FileIsFirst(options, inp, before, t);
    }

    lemma AskedByRelocs(inputs: seq<Input>, i: nat, hashes: seq<HashEntry?>, relocs: seq<seq<nat>>)
      requires GoodInputs(entries, inputs) && i < |inputs| == |relocs| && |hashes| == |inputs[i].syms|
      requires forall j :: 0 <= j < |relocs[i]| ==> relocs[i][j] < |hashes|
      requires forall k :: 0 <= k < |hashes| ==>
        hashes[k] == inputs[i].hashes[k]
        || (inputs[i].hashes[k] != null && hashes[k] == Base(entries, inputs[i].hashes[k]))
      ensures forall h: HashEntry :: h in Asked(hashes, relocs[i]) ==> AskedFor(entries, inputs, relocs, h)
    {
      var asked := Asked(hashes, relocs[i]);
      forall h: HashEntry | h in asked ensures AskedFor(entries, inputs, relocs, h) {
        var j :| 0 <= j < |asked| && asked[j] == h;
        assert Refers(entries, inputs[i], relocs[i][j], h);
      }
    }

    lemma EmptyUnderStripAll(inputs: seq<Input>, relocs: seq<seq<nat>>)
      requires GoodInputs(entries, inputs) && AllJustified(entries, options, inputs, relocs, slots)
      ensures options.strip == StripAll && (forall j :: 0 <= j < |relocs| ==> relocs[j] == []) ==> slots == []
    {
      if options.strip == StripAll && (forall j :: 0 <= j < |relocs| ==> relocs[j] == []) && |slots| > 0 {
        assert Justified(entries, options, inputs, relocs, slots[0]);
      }
    }

    lemma BehindIsLonger(asked: seq<HashEntry?>, now: seq<OutputSlot>, more: seq<OutputSlot>)
      requires OthersBehind(options, asked, now, more)
      ensures now <= more
    {
    }

    lemma NothingYet(inputs: seq<Input>, relocs: seq<seq<nat>>)
      requires GoodInputs(entries, inputs)
      ensures AllGenuine(entries, inputs, []) && AllJustified(entries, options, inputs, relocs, [])
    {
    }

    /** Every record is in its place in the file. */
    lemma OnDisk()
      requires Settled()
      ensures outCount == |slots|
      ensures forall i :: 0 <= i < |slots| ==> At(symoff0, i) in disk && disk[At(symoff0, i)] == slots[i].rec
    {
    }

    /** An input as it is when its turn comes. */
    ghost predicate InputReady(inp: Input, hashes: array<HashEntry?>, relocs: seq<nat>)
      reads hashes
    {
      && GoodInput(entries, inp) && |inp.syms| <= symbolMap.Length && |inp.syms| < outputSyms.Length
      && hashes[..] == inp.hashes && forall i :: 0 <= i < |relocs| ==> relocs[i] < |inp.syms|
    }
  }

  /** The entries that an input's relocations ask for. */
  function Asked(hashes: seq<HashEntry?>, relocs: seq<nat>): (asked: seq<HashEntry?>)
    requires forall i :: 0 <= i < |relocs| ==> relocs[i] < |hashes|
    ensures |asked| == |relocs| && forall i :: 0 <= i < |relocs| ==> asked[i] == hashes[relocs[i]]
  {
    seq(|relocs|, i requires 0 <= i < |relocs| => hashes[relocs[i]])
  }

  /** When everything is taken as written, every entry that is wanted and of a kind that is output has its
      record at its index. */
  lemma AllOut(entries: seq<HashEntry>, inputs: seq<Input>, options: Options, slots: seq<OutputSlot>,
               st: map<HashEntry, Status>)
    requires GoodInputs(entries, inputs) && AllGenuine(entries, inputs, slots)
    requires Owned(options, slots, st) && forall h :: h in st ==> st[h].written
    ensures forall h :: h in st && Writable(h.kind) && Wanted(options, h.name) ==>
      && 0 <= st[h].indx < |slots| && slots[st[h].indx].owner == OfEntry(h)
      && RecordOf(entries, inputs, h, slots[st[h].indx].rec)
  {
    hide RecordOf, GoodInputs;
    forall h | h in st && Writable(h.kind) && Wanted(options, h.name)
      ensures 0 <= st[h].indx < |slots| && slots[st[h].indx].owner == OfEntry(h)
      ensures RecordOf(entries, inputs, h, slots[st[h].indx].rec)
    {
      assert Excused(options, h, st[h]) && Indexed(slots, st, h);
      assert Genuine(entries, inputs, slots[st[h].indx]);
    }
  }

  function FileRecord(inp: Input): Nlist {
    Nlist(inp.filename, N_TEXT, 0, 0, Wrap(inp.sections.text.outVma + inp.sections.text.outOffset))
  }

  /** The record of an input file, unless such symbols are discarded. */
  function FileSlots(o: Options, inp: Input): seq<OutputSlot> {
    if o.strip.StripAll? || (o.strip.StripSome? && inp.filename !in o.keep) || o.discard.DiscardAll? then []
    else [OutputSlot(OfFile, 0, FileRecord(inp))]
  }

  lemma FileSlotsFew(o: Options, inp: Input)
    ensures |FileSlots(o, inp)| <= 1
  {
  }

  /** With everything stripped, an input leaves no record, not even the file's. */
  lemma NothingUnderStripAll(o: Options, inp: Input, first: map<HashEntry, Status>, base: nat, r: Run,
                             before: seq<OutputSlot>, k: nat)
    requires Fates(o, inp, first, base, r, false, k) && base == |before| + |FileSlots(o, inp)|
    requires before + FileSlots(o, inp) <= r.slots
    ensures o.strip == StripAll ==> r.slots == before
  {
    hide Fate, Spared, WrittenBy;
  }

  lemma NoneUnderStripAll(o: Options, t: Byte, name: seq<Byte>)
    requires !Stripped(o, t, name)
    ensures !o.strip.StripAll?
  {
  }

  lemma TargetIsNotItsOwn(o: Options, inp: Input, first: map<HashEntry, Status>, base: nat, r: Run, k: nat)
    requires Fates(o, inp, first, base, r, true, k) && k < |inp.syms|
    ensures !OnItsOwn(inp, r.dups, k)
  {
    hide Fate, Spared, WrittenBy, Dropped, Pointing;
  }

  lemma ProgressStart(entries: seq<HashEntry>, o: Options, inp: Input, now: Includes, r: Run)
    requires GoodInput(entries, inp) && |r.map_| == |inp.syms| && r.heads == [] && r.dups == {}
    requires forall j :: 0 <= j < |r.map_| ==> r.map_[j] == 0
    ensures Progress(entries, o, inp, |r.slots|, now, now, r, false, 0)
  {
  }

  lemma ProgressUncarried(entries: seq<HashEntry>, o: Options, inp: Input, base: nat, before: Includes,
                          now: Includes, r: Run, carry: bool, k: nat)
    requires GoodInput(entries, inp) && Progress(entries, o, inp, base, before, now, r, carry, k)
    ensures Progress(entries, o, inp, base, before, now, r, false, k)
  {
    hide Shape, Marked, Heads, Survivals, Levels, Tidy;
  }

  /** What the map says of the symbol looked at. */
  lemma LooksAt(entries: seq<HashEntry>, o: Options, inp: Input, base: nat, before: Includes,
                now: Includes, r: Run, carry: bool, k: nat)
    requires GoodInput(entries, inp) && Progress(entries, o, inp, base, before, now, r, carry, k) && k < |inp.syms|
    ensures |r.map_| == |inp.syms| && |r.slots| <= base + k
    ensures r.map_[k] == -1 <==> Dropped(Stabs(inp.syms), r.dups, k)
  {
    hide Heads, Survivals, Levels, Tidy, Dropped;
  }

  lemma MarkedProgress(entries: seq<HashEntry>, o: Options, inp: Input, base: nat, before: Includes,
                       now: Includes, r: Run, carry: bool, k: nat)
    requires GoodInput(entries, inp) && Progress(entries, o, inp, base, before, now, r, carry, k)
        && k < |inp.syms| == |r.map_|
    requires Dropped(Stabs(inp.syms), r.dups, k)
    ensures Progress(entries, o, inp, base, before, now, Passed(r, k, -1), carry, k + 1)
  {
    hide Dropped, Tidy, Carried, Shape, Marked, Heads, Survivals, Levels;
    if Tidy(inp.syms) && KeepsAll(o) && carry {
      TargetNotDropped(inp, r, k);
    }
    ProgressPassed(entries, o, inp, base, before, now, r, carry, k, -1, carry);
  }

  lemma MayBeOutput(options: Options, slots: seq<OutputSlot>, st: map<HashEntry, Status>, h: HashEntry)
    requires Owned(options, slots, st) && h in st && (h.kind.Warning? || !st[h].written)
    ensures Unclaimed(slots, h)
  {
    if !h.kind.Warning? {
      NoRecordYet(options, slots, st, h);
    }
  }

  lemma IndexOwned(options: Options, slots: seq<OutputSlot>, st: map<HashEntry, Status>, h: HashEntry)
    requires Owned(options, slots, st) && h in st
    ensures st[h].indx >= 0 ==> st[h].indx < |slots| && slots[st[h].indx].owner == OfEntry(h)
  {
    assert Indexed(slots, st, h);
  }

  /** Without a hash entry a symbol keeps its type, and only one that points to its target lets that pass. */
  lemma LocalMeaning(secs: Sections, sym: Sym)
    ensures var m := MeaningOf(secs, sym, None);
            m.type_ == sym.type_ && !m.skip && (m.pass ==> Pointing(sym))
  {
  }

  lemma GlobalMeaning(secs: Sections, sym: Sym, k: Kind)
    requires !IsStab(sym.type_)
    ensures var m := MeaningOf(secs, sym, Some(k));
            !IsStab(m.type_) && (m.pass || m.skip ==> Pointing(sym)) && !(m.pass && m.skip)
  {
  }

  lemma LostProgress(entries: seq<HashEntry>, o: Options, inp: Input, base: nat, before: Includes,
                     now: Includes, r: Run, k: nat)
    requires GoodInput(entries, inp) && Progress(entries, o, inp, base, before, now, r, false, k)
        && k < |inp.syms| == |r.map_|
    requires Stripped(o, inp.syms[k].type_, inp.syms[k].name) || Discarded(o, inp.syms[k].type_, inp.syms[k].name)
    requires inp.hashes[k] == null
    ensures Progress(entries, o, inp, base, before, now, Passed(r, k, -1), false, k + 1)
  {
    hide Dropped, Tidy, Progress, TypeBits;
    ProgressPassed(entries, o, inp, base, before, now, r, false, k, -1, false);
  }

  /** A symbol whose entry was taken as written before. */
  lemma OldProgress(entries: seq<HashEntry>, o: Options, inp: Input, base: nat, before: Includes, now: Includes,
                    r: Run, k: nat, h: HashEntry, v: int, carryOn: bool)
    requires GoodInput(entries, inp) && Progress(entries, o, inp, base, before, now, r, false, k)
    requires k < |inp.syms| == |r.map_| && inp.hashes[k] == h && h in r.st && r.st[h] == Status(true, v)
    requires !Dropped(Stabs(inp.syms), r.dups, k) && (carryOn ==> Pointing(inp.syms[k]))
    requires v >= 0 ==> v < |r.slots| && r.slots[v].owner == OfEntry(h)
    ensures Progress(entries, o, inp, base, before, now, Passed(r, k, v), carryOn, k + 1)
  {
    hide Dropped, Tidy, Progress, TypeBits, Pointing;
    NotBracket(inp.syms[k]);
    ProgressPassed(entries, o, inp, base, before, now, r, false, k, v, carryOn);
  }

  /** A symbol whose entry is stripped. */
  lemma StripProgress(entries: seq<HashEntry>, o: Options, inp: Input, base: nat, before: Includes, now: Includes,
                      r: Run, k: nat, h: HashEntry, st: map<HashEntry, Status>)
    requires GoodInput(entries, inp) && Progress(entries, o, inp, base, before, now, r, false, k)
    requires k < |inp.syms| == |r.map_| && inp.hashes[k] == h && Stripped(o, inp.syms[k].type_, h.name)
    ensures Progress(entries, o, inp, base, before, now, Passed(r, k, -1).(st := st), false, k + 1)
  {
    hide Dropped, Tidy, Progress, TypeBits, Pointing;
    ProgressPassed(entries, o, inp, base, before, now, r, false, k, -1, false);
    ProgressStatus(entries, o, inp, base, before, now, Passed(r, k, -1), false, k + 1, st);
  }

  lemma LocalProgress(entries: seq<HashEntry>, o: Options, inp: Input, base: nat, before: Includes,
                      now: Includes, r: Run, k: nat, s: OutputSlot, carryOn: bool)
    requires GoodInput(entries, inp) && Progress(entries, o, inp, base, before, now, r, false, k)
        && k < |inp.syms| == |r.map_|
    requires !Dropped(Stabs(inp.syms), r.dups, k) && inp.syms[k].type_ != N_BINCL
    requires s == OutputSlot(OfLocal(k, false), k, LocalRecord(inp, r.dups, k, false))
        && (carryOn ==> Pointing(inp.syms[k]))
    requires inp.hashes[k] == null
    ensures Progress(entries, o, inp, base, before, now, Emitted(r, k, s), carryOn, k + 1)
  {
    hide Dropped, Tidy, Progress, MeaningOf, Pointing;
    LocalMeaning(inp.sections, inp.syms[k]);
    HeaderRecordRight(entries, inp, r.dups, k, s);
    ProgressEmitted(entries, o, inp, base, before, now, r, false, k, s, carryOn);
  }

  lemma GlobalProgress(entries: seq<HashEntry>, o: Options, inp: Input, base: nat, before: Includes,
                       now: Includes, r: Run, k: nat, h: HashEntry, s: OutputSlot, carryOn: bool)
    requires GoodInput(entries, inp) && Progress(entries, o, inp, base, before, now, r, false, k)
        && k < |inp.syms| == |r.map_|
    requires !Dropped(Stabs(inp.syms), r.dups, k) && inp.hashes[k] == h
    requires s == OutputSlot(OfEntry(h), k, GlobalRecord(entries, inp, k, h))
    requires var m := MeaningOf(inp.sections, inp.syms[k], Some(Base(entries, h).kind)); carryOn ==> m.pass || m.skip
    requires h.kind.Warning? || (h in r.st ==> !r.st[h].written)
    ensures Progress(entries, o, inp, base, before, now, Emitted(r, k, s), carryOn, k + 1)
  {
    hide Dropped, Tidy, Progress, MeaningOf, Pointing;
    GlobalMeaning(inp.sections, inp.syms[k], Base(entries, h).kind);
    NotBracket(inp.syms[k]);
    ProgressEmitted(entries, o, inp, base, before, now, r, false, k, s, carryOn);
  }

  lemma ProgressNoDup(entries: seq<HashEntry>, o: Options, inp: Input, base: nat, before: Includes,
                      now: Includes, r: Run, carry: bool, k: nat)
    requires GoodInput(entries, inp) && Progress(entries, o, inp, base, before, now, r, carry, k)
    ensures k !in r.dups
  {
  }

  lemma HeaderIs(syms: seq<Sym>, k: nat)
    requires k < |syms|
    ensures HeaderOf(syms, k) == Header(syms[k].name, Total(Stabs(syms), k))
  {
  }

  lemma HeaderRecord(inp: Input, dups: set<nat>, k: nat, type_: Byte, val: int)
    requires k < |inp.syms| && inp.syms[k].type_ == N_BINCL && type_ == (if k in dups then N_EXCL else N_BINCL)
    requires val == Total(Stabs(inp.syms), k)
    ensures LocalRecord(inp, dups, k, false) == Nlist(inp.syms[k].name, type_, inp.syms[k].other, inp.syms[k].desc, val)
  {
    hide Total, MeaningOf;
  }

  /** The map after a header's contents were marked, or not. */
  lemma MarkedNow(inp: Input, r: Run, k: nat, seen: bool, map_: seq<int>)
    requires k < |inp.syms| == |r.map_| == |map_|
    requires forall j :: 0 <= j < |map_| ==>
      map_[j] == if seen && k < j && Within(Stabs(inp.syms), k, j) then -1 else r.map_[k := -1][j]
    ensures var t := Headed(inp, r, k, seen); map_ == t.map_[k := -1]
  {
    hide Within;
  }

  lemma RawProgress(entries: seq<HashEntry>, o: Options, inp: Input, base: nat, before: Includes,
                    now: Includes, r: Run, k: nat, s: OutputSlot)
    requires GoodInput(entries, inp) && Progress(entries, o, inp, base, before, now, r, true, k)
        && k < |inp.syms| == |r.map_|
    requires !Dropped(Stabs(inp.syms), r.dups, k)
    requires s == OutputSlot(OfLocal(k, true), k, RawRecord(inp.syms[k]))
    ensures Progress(entries, o, inp, base, before, now, Emitted(r, k, s), false, k + 1)
  {
    hide Dropped, Tidy, Carried, Progress;
    TargetPlain(entries, o, inp, base, before, now, r, k);
    RawRight(entries, inp, r.dups, k, s);
    ProgressEmitted(entries, o, inp, base, before, now, r, true, k, s, false);
  }

  lemma TargetPlain(entries: seq<HashEntry>, o: Options, inp: Input, base: nat, before: Includes,
                    now: Includes, r: Run, k: nat)
    requires GoodInput(entries, inp) && Progress(entries, o, inp, base, before, now, r, true, k) && k < |inp.syms|
    ensures Tidy(inp.syms) && KeepsAll(o) ==> !Bracket(inp.syms[k]) && IsTarget(inp, k)
  {
    hide Dropped, Tidy, Shape, Marked, Heads, Survivals, Levels;
    if Tidy(inp.syms) && KeepsAll(o) {
      TargetNotDropped(inp, r, k);
    }
  }

  lemma RawRight(entries: seq<HashEntry>, inp: Input, dups: set<nat>, k: nat, s: OutputSlot)
    requires GoodInput(entries, inp) && k < |inp.syms| && s == OutputSlot(OfLocal(k, true), k, RawRecord(inp.syms[k]))
    ensures RightRecord(entries, inp, dups, s)
  {
  }

  lemma SkipProgress(entries: seq<HashEntry>, o: Options, inp: Input, base: nat, before: Includes,
                     now: Includes, r: Run, k: nat)
    requires GoodInput(entries, inp) && Progress(entries, o, inp, base, before, now, r, true, k)
        && k < |inp.syms| == |r.map_|
    requires !Dropped(Stabs(inp.syms), r.dups, k)
    ensures Progress(entries, o, inp, base, before, now, Passed(r, k, -1), false, k + 1)
  {
    hide Dropped, Tidy, Carried, Progress, Pointing, TypeBits;
    TargetPlain(entries, o, inp, base, before, now, r, k);
    ProgressPassed(entries, o, inp, base, before, now, r, true, k, -1, false);
  }

  /** The switch over the kinds of entries. */
  method FindOther(name: seq<Byte>, k: Kind) returns (rec: Option<Nlist>)
    ensures rec == OtherRecord(name, k)
  {
    var type_: Byte := N_UNDF;
    var val: int;
    if k.New? {
      return None;
    } else if k.Undefined? {
      type_ := N_UNDF + N_EXT;
      val := 0;
    } else if k.Defined? || k.DefWeak? {
      type_ := External(DefinedType(k));
      val := DefinedAt(k);
    } else if k.Common? {
      type_ := N_UNDF + N_EXT;
      val := Wrap(k.size);
    } else if k.UndefWeak? {
      type_ := N_WEAKU;
      val := 0;
      return None;
    } else {
      return None;
    }
    rec := Some(Nlist(name, type_, 0, 0, val));
  }

  // ---- what an input's turn leads to ----

  /** At most a record for each symbol, each right; the map leads from symbols to their records; headers are replaced
      exactly if seen before. If nothing is stripped and no bracket is a target, a symbol that has no entry and is no
      target is lost exactly if it belongs to a replaced header, and balanced brackets stay balanced. */
  lemma Outcome(entries: seq<HashEntry>, o: Options, inp: Input, base: nat, before: Includes,
                now: Includes, r: Run)
    requires GoodInput(entries, inp)
    requires Progress(entries, o, inp, base, before, now, r, false, |inp.syms|)
    ensures |r.map_| == |inp.syms| && base <= |r.slots| <= base + |inp.syms|
    ensures forall k :: 0 <= k < |inp.syms| ==> Leads(inp, base, r, k)
    ensures forall i :: base <= i < |r.slots| ==> RightRecord(entries, inp, r.dups, r.slots[i])
    ensures HeadsValid(inp.syms, r.heads, |inp.syms|)
    ensures forall i :: 0 <= i < |r.heads| ==> ReplacedRight(before, inp.syms, r, i)
    ensures Tidy(inp.syms) && KeepsAll(o) ==> forall k :: 0 <= k < |inp.syms| ==> Survival(inp, r, k)
    ensures Tidy(inp.syms) && KeepsAll(o) && Balanced(Types(Stabs(inp.syms), |inp.syms|)) ==>
      Balanced(TypesFrom(r.slots, base))
  {
    hide RightRecord, Tidy, ReplacedRight, Survival;
    if Tidy(inp.syms) && KeepsAll(o) && Balanced(Types(Stabs(inp.syms), |inp.syms|)) {
      hide Level, Reduced;
      BracketsStayBalanced(Stabs(inp.syms), r.dups);
    }
  }
}
