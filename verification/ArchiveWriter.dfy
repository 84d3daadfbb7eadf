/** Writing an archive: names, symbol map, name table, members. */
module ArchiveWriter {
  import opened Words
  import opened ArchiveFormat
  import opened ArchiveMap
  import opened ArchiveNames

  /** A target's way to write archives. */
  datatype Target = Target(naming: Naming, big: bool)

  // ---- what is written ----

  const MAP_FILE: seq<Byte> := [95, 95, 46, 83, 89, 77, 68, 69, 70]
  const SLASH_NAMES: seq<Byte> := [47, 47]
  const BSD_NAMES: seq<Byte> := [65, 82, 70, 73, 76, 69, 78, 65, 77, 69, 83, 47]

  /** The name field of the symbol map's header. */
  function MapField(): (f: seq<Byte>)
    ensures |f| == NAME_FIELD
  {
    MAP_FILE + Spaces(7)
  }

  /** The name field of the name table's header. */
  function TableField(t: Naming): (f: seq<Byte>)
    ensures |f| == NAME_FIELD
  {
    if t.slash then SLASH_NAMES + Spaces(14) else BSD_NAMES + Spaces(4)
  }

  /** The chain without leading elements named like a symbol map. */
  function DropMaps(ms: seq<Member>): (r: seq<Member>)
    ensures |r| <= |ms| && r == ms[|ms| - |r|..]
    ensures forall i :: 0 <= i < |ms| - |r| ==> ms[i].filename == MAP_FILE
    ensures |r| > 0 ==> r[0].filename != MAP_FILE
  {
    if |ms| > 0 && ms[0].filename == MAP_FILE then
      var r := DropMaps(ms[1..]);
      assert forall i :: 0 < i < |ms| ==> ms[i] == ms[1..][i - 1];
      r
    else ms
  }

  predicate HasObjects(ms: seq<Member>) {
    exists i :: 0 <= i < |ms| && ms[i].isObject
  }

  /** The symbol map as a member, if other members start at `first`. */
  function ArmapBytes(big: bool, stamp: seq<Byte>, ms: seq<Member>, es: seq<Entry>, first: nat): (b: seq<Byte>)
    requires |stamp| == SIZE_AT - NAME_FIELD && MapSize(es) < LIMIT && InOrder(es, |ms|)
    ensures |b| == HEADER + MapSize(es)
  {
    HeaderOf(MapField(), stamp, MapSize(es)) + MapBytes(big, first, ms, es)
  }

  function TablePart(t: Target, table: seq<Byte>): (b: seq<Byte>)
    requires |table| < LIMIT - 1
    ensures |b| == TableRoom(|table|)
  {
    if |table| == 0 then []
    else HeaderOf(TableField(t.naming), Spaces(SIZE_AT - NAME_FIELD), |table| + |table| % 2)
         + table + Padding(|table|)
  }

  /** An archive to be written: the members in final form, the entries of the map, the name table. */
  datatype Plan = Plan(target: Target, stamp: seq<Byte>, members: seq<Member>, entries: seq<Entry>, table: seq<Byte>)

  predicate GoodPlan(p: Plan) {
    && |p.stamp| == SIZE_AT - NAME_FIELD && |p.table| < LIMIT - 1 && InOrder(p.entries, |p.members|)
    && MapSize(p.entries) < LIMIT
  }

  /** Where members start in an archive with a map. */
  function First(p: Plan): nat {
    FirstReal(p.entries, |p.table|)
  }

  /** Everything before the members. */
  function Prelude(p: Plan, map_: bool): (b: seq<Byte>)
    requires GoodPlan(p)
    ensures |b| == if map_ then First(p) else SARMAG + TableRoom(|p.table|)
  {
    ARMAG + (if map_ then ArmapBytes(p.target.big, p.stamp, p.members, p.entries, First(p)) else [])
    + TablePart(p.target, p.table)
  }

  /** Members start at an even position. */
  lemma PreludeEven(p: Plan, map_: bool)
    requires GoodPlan(p)
    ensures |Prelude(p, map_)| % 2 == 0
  {
    hide Strings, ArmapBytes, TablePart, InOrder;
    SumEven(|p.entries|, |Strings(p.entries)|, |p.table|);
  }

  lemma SumEven(n: nat, s: nat, e: nat)
    ensures (SARMAG + (if e == 0 then 0 else HEADER + e + e % 2)) % 2 == 0
    ensures (SYMDEF * n + s + s % 2 + 8 + (if e == 0 then 0 else HEADER + e + e % 2) + HEADER + SARMAG) % 2 == 0
  {
    var room := if e == 0 then 0 else 30 + e / 2 + e % 2;
    Halved(SARMAG + (if e == 0 then 0 else HEADER + e + e % 2), 4 + room);
    Halved(SYMDEF * n + s + s % 2 + 8 + (if e == 0 then 0 else HEADER + e + e % 2) + HEADER + SARMAG,
           4 * n + s / 2 + s % 2 + 4 + room + 34);
  }

  lemma Halved(x: int, half: int)
    requires x == 2 * half
    ensures x % 2 == 0
  {
  }

  function Written(p: Plan, map_: bool): seq<Byte>
    requires GoodPlan(p)
  {
    Prelude(p, map_) + AllBytes(p.members)
  }

  /** The members that will be in the file: whether there is a map is decided before it drops its predecessors. */
  function Final(t: Target, ms: seq<Member>, makemap: bool): seq<Member>
    requires AllHeaders(ms) && |Table(t.naming, ms)| < LIMIT
  {
    if makemap && HasObjects(ms) then DropMaps(Renamed(t.naming, ms)) else Renamed(t.naming, ms)
  }

  /** The chain `after` is `before` with other name fields. If a map is asked for and some element is an object file,
      the leading elements named like a map are gone and the first that is not leads; otherwise none is gone. */
  predicate LosesOldMaps(before: seq<Member>, after: seq<Member>, makemap: bool) {
    && IsTail(before, after)
    && if makemap && exists i :: 0 <= i < |before| && before[i].isObject then OldMapsEnd(before, |before| - |after|)
       else |after| == |before|
  }

  /** The elements of `after` are the last ones of `before`, but for their name fields. */
  predicate IsTail(before: seq<Member>, after: seq<Member>) {
    && AllHeaders(before) && AllHeaders(after) && |after| <= |before|
    && forall k :: 0 <= k < |after| ==> SameButName(before[|before| - |after| + k], after[k])
  }

  predicate SameButName(m: Member, r: Member)
    requires IsHeader(m.header) && IsHeader(r.header)
  {
    r == m.(header := r.header) && r.header[NAME_FIELD..] == m.header[NAME_FIELD..]
  }

  /** The first `n` elements are named like a map, and the next one is not. */
  predicate OldMapsEnd(ms: seq<Member>, n: nat) {
    n <= |ms| && (forall i :: 0 <= i < n ==> ms[i].filename == MAP_FILE) && (n < |ms| ==> ms[n].filename != MAP_FILE)
  }

  lemma OldMapsLost(t: Target, ms: seq<Member>, makemap: bool)
    requires AllHeaders(ms) && |Table(t.naming, ms)| < LIMIT
    ensures LosesOldMaps(ms, Final(t, ms, makemap), makemap)
  {
    hide IsHeader, Table, IsTail, OldMapsEnd, Renamed, DropMaps, SameBut;
    var rs := Renamed(t.naming, ms);
    RenamedSame(t.naming, ms);
    TailSame(ms, rs, rs);
    TailSame(ms, rs, DropMaps(rs));
    OldMapsGone(ms, rs);
  }

  predicate SameBut(ms: seq<Member>, rs: seq<Member>) {
    |ms| == |rs| && AllHeaders(ms) && AllHeaders(rs) && forall i :: 0 <= i < |ms| ==> SameButName(ms[i], rs[i])
  }

  lemma RenamedSame(t: Naming, ms: seq<Member>)
    requires AllHeaders(ms) && |Table(t, ms)| < LIMIT
    ensures SameBut(ms, Renamed(t, ms))
  {
    hide IsHeader, Table;
    forall i | 0 <= i < |ms| ensures SameButName(ms[i], Renamed(t, ms)[i]) {
      assert Renamed(t, ms)[i] == RenameAt(t, ms, i);
    }
  }

  lemma TailSame(ms: seq<Member>, rs: seq<Member>, fs: seq<Member>)
    requires SameBut(ms, rs) && |fs| <= |rs| && fs == rs[|rs| - |fs|..]
    ensures IsTail(ms, fs)
  {
    hide IsHeader;
    var n := |ms| - |fs|;
    forall k | 0 <= k < |fs| ensures IsHeader(fs[k].header) && SameButName(ms[n + k], fs[k]) {
      assert fs[k] == rs[n + k];
    }
  }

  lemma OldMapsGone(ms: seq<Member>, rs: seq<Member>)
    requires SameBut(ms, rs)
    ensures OldMapsEnd(ms, |ms| - |DropMaps(rs)|)
  {
    hide IsHeader, DropMaps;
    var n := |ms| - |DropMaps(rs)|;
    forall i | 0 <= i < |ms| ensures rs[i].filename == ms[i].filename {
      assert SameButName(ms[i], rs[i]);
    }
    if n < |ms| {
      assert DropMaps(rs)[0] == rs[n];
    }
  }

  /** What the caller provides: headers that state the sizes, and sizes that can be printed. */
  predicate Ready(t: Target, ms: seq<Member>, makemap: bool) {
    && GoodNaming(t.naming) && GoodMembers(ms) && AllHeaders(ms) && |Table(t.naming, ms)| < LIMIT - 1
    && var fs := Final(t, ms, makemap); MapSize(Collected(fs, |fs|)) < LIMIT
  }

  /** The archive that the writer makes of a chain. */
  function PlanOf(t: Target, stamp: seq<Byte>, ms: seq<Member>, makemap: bool): (p: Plan)
    requires Ready(t, ms, makemap) && |stamp| == SIZE_AT - NAME_FIELD
    ensures GoodPlan(p)
  {
    var fs := Final(t, ms, makemap);
    CollectedInOrder(fs, |fs|);
    Plan(t, stamp, fs, Collected(fs, |fs|), Table(t.naming, ms))
  }

  // ---- the writer ----

  class Archive {
    const target: Target
    var chain: seq<Member>
    var file: seq<Byte>

    constructor (t: Target, ms: seq<Member>)
      ensures target == t && chain == ms && file == []
    {
      target, chain, file := t, ms, [];
    }

    method Put(b: seq<Byte>)
      modifies this`file
      ensures file == old(file) + b
    {
      file := file + b;
    }

    /** The second pass at element `i`. */
    method FillNext(table: array<Byte>, i: nat, strptr: nat) returns (next: nat)
      requires GoodNaming(target.naming) && !target.naming.traditional && strptr < LIMIT
      requires i < |chain| && IsHeader(chain[i].header)
      requires strptr + |TableEntry(target.naming, chain[i])| <= table.Length
      modifies this`chain, table
      ensures next == strptr + |TableEntry(target.naming, old(chain[i]))|
      ensures table[..next] == old(table[..strptr]) + TableEntry(target.naming, old(chain[i]))
      ensures chain == if IsLong(target.naming, old(chain[i]))
                       then old(chain)[i := Rename(target.naming, old(chain[i]), strptr)] else old(chain)
    {
      var t := target.naming;
      next := strptr;
      var normal := Base(chain[i].filename);
      if |normal| > t.maxname {
        FillEntry(t, table, strptr, normal);
        var f := WriteLongName(t, chain[i].header[..NAME_FIELD], strptr);
        chain := chain[i := chain[i].(header := f + chain[i].header[NAME_FIELD..])];
        next := next + |normal| + |Terminator(t)|;
      }
    }

    /** The second pass fills the table to the last byte, and never writes beyond. */
    method FillTable(table: array<Byte>, ghost ms: seq<Member>)
      requires GoodNaming(target.naming) && !target.naming.traditional && AllHeaders(ms)
      requires table.Length == |Table(target.naming, ms)| < LIMIT && chain == FirstPasses(target.naming, ms)
      modifies this`chain, table
      ensures table[..] == Table(target.naming, ms) && chain == Renamed(target.naming, ms)
    {
      ghost var t := target.naming;
      ghost var parts := TableParts(t, ms);
      ghost var settled := FirstPasses(t, ms);
      ghost var named := Renamed(t, ms);
      var strptr := 0;
      for i := 0 to |chain|
        invariant |chain| == |ms|
        invariant strptr == TableAt(t, ms, i) <= table.Length && table[..strptr] == Concat(parts[..i])
        invariant Halfway(chain, named, settled, i)
      {
        ConcatStep(parts, i);
        NextNamed(t, ms, i);
        SetNext(chain, named, settled, i);
        strptr := FillNext(table, i, strptr);
      }
      PassDone(chain, named, settled);
      assert parts[..|ms|] == parts && table[..table.Length] == table[..];
    }

    /** Both passes over the chain. */
    method ConstructNames() returns (table: array<Byte>)
      requires GoodNaming(target.naming) && AllHeaders(chain) && |Table(target.naming, chain)| < LIMIT
      modifies this`chain
      ensures fresh(table) && table[..] == Table(target.naming, old(chain))
      ensures chain == Renamed(target.naming, old(chain))
    {
      ghost var ms := chain;
      var total, settled := SizeTable(target.naming, chain);
      chain := settled;
      table := new Byte[total];
      if total == 0 {
        NoEntries(target.naming, ms);
      } else {
        LongOnlyIfNotTraditional(target.naming, ms);
        FillTable(table, ms);
      }
    }

    /** The records of the symbol map. `current` walks the chain along with the entries. */
    method WriteEntries(es: seq<Entry>, first: nat)
      requires InOrder(es, |chain|) && first % 2 == 0
      modifies this`file
      ensures file == old(file) + EntryBytes(target.big, first, chain, es)
    {
      ghost var front := file;
      ghost var rs := Records(target.big, first, chain, es);
      var firstreal, current, last := first, 0, 0;
      for count := 0 to |es|
        invariant current == last == (if count == 0 then 0 else es[count - 1].pos)
        invariant current <= |chain| && firstreal == Offset(first, chain, current)
        invariant file == front + Concat(rs[..count])
      {
        RecordAt(target.big, first, chain, es, count);
        if es[count].pos != last {
          firstreal := Advance(chain, first, current, es[count].pos, firstreal);
          current := es[count].pos;
        }
        last := current;
        ConcatStep(rs, count);
        Associate(front, Concat(rs[..count]), rs[count]);
        PutRecord(es[count].namidx, firstreal, rs[count]);
      }
      assert rs[..|es|] == rs;
    }

    method PutRecord(namidx: int, offset: int, ghost rec: seq<Byte>)
      requires rec == Put32(target.big, namidx) + Put32(target.big, offset)
      modifies this`file
      ensures file == old(file) + rec
    {
      Put(Put32(target.big, namidx) + Put32(target.big, offset));
    }

    method WriteStrings(es: seq<Entry>)
      modifies this`file
      ensures file == old(file) + Strings(es)
    {
      ghost var front := file;
      for count := 0 to |es|
        invariant file == front + Strings(es[..count])
      {
        assert es[..count + 1][..count] == es[..count];
        Put(es[count].name + [0]);
      }
      assert es[..|es|] == es;
    }

    method WriteHeader(name: seq<Byte>, stamp: seq<Byte>, size: nat)
      requires |name| == NAME_FIELD && |stamp| == SIZE_AT - NAME_FIELD && size < LIMIT
      modifies this`file
      ensures file == old(file) + HeaderOf(name, stamp, size)
    {
      Put(HeaderOf(name, stamp, size));
    }

    method WriteMapContents(es: seq<Entry>, stridx: nat, firstreal: nat)
      requires InOrder(es, |chain|) && stridx == |Strings(es)| && firstreal % 2 == 0
      modifies this`file
      ensures file == old(file) + MapBytes(target.big, firstreal, chain, es)
    {
      var padit := stridx % 2;
      ghost var front := file;
      var size := Put32(target.big, SYMDEF * |es|);
      Put(size);
      WriteEntries(es, firstreal);
      var strings := Put32(target.big, stridx + padit);
      Put(strings);
      WriteStrings(es);
      ghost var pad: seq<Byte> := [];
      if padit == 1 {
        Put([0]);
        pad := [0];
      }
      FivePiecesBehind(front, size, EntryBytes(target.big, firstreal, chain, es), strings, Strings(es), pad);
    }

    /** `bsd_write_armap`; `elength` is what the name table takes up. */
    method WriteArmap(stamp: seq<Byte>, es: seq<Entry>, stridx: nat, elength: nat, ghost first: nat)
      requires |stamp| == SIZE_AT - NAME_FIELD && InOrder(es, |chain|) && stridx == |Strings(es)|
      requires MapSize(es) < LIMIT && elength % 2 == 0 && first == MapSize(es) + elength + HEADER + SARMAG
      modifies this`file
      ensures file == old(file) + ArmapBytes(target.big, stamp, chain, es, first)
    {
      hide HeaderOf, MapBytes, Strings, MapField;
      var ranlibsize := |es| * SYMDEF;
      var stringsize := stridx + stridx % 2;
      var mapsize := ranlibsize + stringsize + 8;
      var firstreal := mapsize + elength + HEADER + SARMAG;
      SumEven(|es|, stridx, 0);
      ghost var front := file;
      WriteHeader(MapField(), stamp, mapsize);
      WriteMapContents(es, stridx, firstreal);
      Associate(front, HeaderOf(MapField(), stamp, mapsize), MapBytes(target.big, firstreal, chain, es));
    }

    /** Drops the elements that would be mistaken for a map. */
    method DropOldMaps()
      modifies this`chain
      ensures chain == DropMaps(old(chain))
    {
      while |chain| > 0 && chain[0].filename == MAP_FILE
        invariant DropMaps(chain) == DropMaps(old(chain))
        decreases |chain|
      {
        chain := chain[1..];
      }
    }

    /** Collects the symbols and writes the map. */
    method ComputeAndWriteArmap(stamp: seq<Byte>, elength: nat)
      requires |stamp| == SIZE_AT - NAME_FIELD
      requires var ms := DropMaps(chain); MapSize(Collected(ms, |ms|)) < LIMIT
      modifies this`file, this`chain
      ensures chain == DropMaps(old(chain))
      ensures var es := Collected(chain, |chain|);
              && InOrder(es, |chain|)
              && file == old(file) + ArmapBytes(target.big, stamp, chain, es, FirstReal(es, elength))
    {
      var room := ReserveTable(elength);
      DropOldMaps();
      var es, stridx := CollectSymbols(chain);
      CollectedInOrder(chain, |chain|);
      WriteArmap(stamp, es, stridx, room, FirstReal(es, elength));
    }

    method WriteTable(table: array<Byte>)
      requires table.Length < LIMIT - 1
      modifies this`file
      ensures file == old(file) + TablePart(target, table[..])
    {
      ghost var front := file;
      if table.Length != 0 {
        var elength := table.Length;
        var hdr := HeaderOf(TableField(target.naming), Spaces(SIZE_AT - NAME_FIELD), elength + elength % 2);
        Put(hdr);
        Put(table[..]);
        ghost var pad: seq<Byte> := [];
        if elength % 2 == 1 {
          Put([NEWLINE]);
          pad := [NEWLINE];
        }
        FourPieces(front, hdr, table[..], pad);
      }
    }

    /** A member's contents, a buffer at a time. */
    method CopyContents(data: seq<Byte>)
      modifies this`file
      ensures file == old(file) + data
    {
      var remaining := |data|;
      while remaining > 0
        invariant 0 <= remaining <= |data| && file == old(file) + data[..|data| - remaining]
      {
        var amt := if BUFFER_SIZE > remaining then remaining else BUFFER_SIZE;
        var at := |data| - remaining;
        assert data[..at] + data[at..at + amt] == data[..at + amt];
        Associate(old(file), data[..at], data[at..at + amt]);
        Put(data[at..at + amt]);
        remaining := remaining - amt;
      }
      assert data[..|data|] == data;
    }

    method WriteMember(m: Member)
      modifies this`file
      ensures file == old(file) + MemberBytes(m)
    {
      ghost var front := file;
      Put(m.header);
      CopyContents(m.data);
      ghost var pad: seq<Byte> := [];
      if |m.data| % 2 == 1 {
        Put([NEWLINE]);
        pad := [NEWLINE];
      }
      FourPieces(front, m.header, m.data, pad);
    }

    method WriteMembers()
      modifies this`file
      ensures file == old(file) + AllBytes(chain)
    {
      ghost var front := file;
      for current := 0 to |chain|
        invariant file == front + AllBytes(chain[..current])
      {
        assert chain[..current + 1][..current] == chain[..current];
        Associate(front, AllBytes(chain[..current]), MemberBytes(chain[current]));
        WriteMember(chain[current]);
      }
      assert chain[..|chain|] == chain;
    }

    method FindObjects(makemap: bool) returns (hasobjects: bool)
      ensures hasobjects <==> makemap && HasObjects(chain)
    {
      hasobjects := false;
      for i := 0 to |chain|
        invariant hasobjects <==> makemap && HasObjects(chain[..i])
      {
        assert HasObjects(chain[..i + 1]) <==> HasObjects(chain[..i]) || chain[i].isObject by {
          assert forall k :: 0 <= k < i ==> chain[..i + 1][k] == chain[..i][k];
          assert chain[..i + 1][i] == chain[i];
        }
        if makemap && !hasobjects && chain[i].isObject {
          hasobjects := true;
        }
      }
      assert chain[..|chain|] == chain;
    }

    /** `_bfd_write_archive_contents`. */
    method WriteContents(stamp: seq<Byte>, makemap: bool)
      requires Ready(target, chain, makemap) && |stamp| == SIZE_AT - NAME_FIELD
      modifies this`file, this`chain
      ensures chain == Final(target, old(chain), makemap) && LosesOldMaps(old(chain), chain, makemap)
      ensures file == Written(PlanOf(target, stamp, old(chain), makemap), makemap && HasObjects(old(chain)))
    {
      OldMapsLost(target, chain, makemap);
      var hasobjects := FindObjects(makemap);
      var table := ConstructNames();
      file := ARMAG;
      if makemap && hasobjects {
        ComputeAndWriteArmap(stamp, table.Length);
      } else {
        assert ARMAG == ARMAG + [];
      }
      WriteTable(table);
      WriteMembers();
    }
  }

  const BUFFER_SIZE := 8192

  /** What the map writer sets aside for the name table. */
  method ReserveTable(elength: nat) returns (room: nat)
    ensures room == TableRoom(elength) && room % 2 == 0
  {
    room := elength;
    if room != 0 {
      room := room + HEADER;
    }
    room := room + room % 2;
  }

  lemma FourPieces(a: seq<Byte>, b: seq<Byte>, c: seq<Byte>, d: seq<Byte>)
    ensures a + b + c + d == a + (b + c + d)
    ensures a + b + c == a + b + c + []
  {
  }

  lemma Associate(a: seq<Byte>, b: seq<Byte>, c: seq<Byte>)
    ensures a + b + c == a + (b + c)
  {
  }

  lemma FivePiecesBehind(a: seq<Byte>, b: seq<Byte>, c: seq<Byte>, d: seq<Byte>, e: seq<Byte>, f: seq<Byte>)
    ensures a + b + c + d + e + f == a + (b + c + d + e + f)
    ensures a + b + c + d + e == a + b + c + d + e + []
  {
  }

  /** The inner loop of the map writer: from one member to a later one, so that testing before or after a step is
      the same. */
  method Advance(ms: seq<Member>, ghost first: nat, from: nat, to: nat, start: nat) returns (firstreal: nat)
    requires from < to < |ms| && first % 2 == 0 && start == Offset(first, ms, from)
    ensures firstreal == Offset(first, ms, to)
  {
    firstreal := start;
    var current := from;
    OffsetsGrow(first, ms, from, from);
    while current != to
      invariant from <= current <= to && firstreal == Offset(first, ms, current) && firstreal % 2 == 0
    {
      NextOffset(firstreal, |ms[current].data|);
      firstreal := firstreal + |ms[current].data| + HEADER;
      firstreal := firstreal + firstreal % 2;
      current := current + 1;
    }
  }

  lemma NextOffset(at: nat, size: nat)
    requires at % 2 == 0
    ensures at + size + HEADER + (at + size + HEADER) % 2 == at + HEADER + size + size % 2
    ensures (at + HEADER + size + size % 2) % 2 == 0
  {
  }

  /** The first pass: settles the short names and adds up the table's length. */
  method SizeTable(t: Naming, ms: seq<Member>) returns (total: nat, chain: seq<Member>)
    requires GoodNaming(t) && AllHeaders(ms)
    ensures total == |Table(t, ms)| && chain == FirstPasses(t, ms)
  {
    ghost var parts := TableParts(t, ms);
    ghost var settled := FirstPasses(t, ms);
    total, chain := 0, ms;
    for i := 0 to |chain|
      invariant total == |Concat(parts[..i])|
      invariant Halfway(chain, settled, ms, i)
    {
      ConcatStep(parts, i);
      SetNext(chain, settled, ms, i);
      var n, m := FirstVisit(t, chain[i], ms, i);
      total := total + n;
      chain := chain[i := m];
    }
    PassDone(chain, settled, ms);
    assert parts[..|ms|] == parts;
  }

  /** The chain part way through a pass: new elements before `i`, old ones from there on. */
  predicate Halfway(chain: seq<Member>, a: seq<Member>, b: seq<Member>, i: nat) {
    |chain| == |a| == |b| && i <= |a| && chain[..i] == a[..i] && chain[i..] == b[i..]
  }

  lemma SetNext(chain: seq<Member>, a: seq<Member>, b: seq<Member>, i: nat)
    requires Halfway(chain, a, b, i) && i < |a|
    ensures chain[i] == b[i] && Halfway(chain[i := a[i]], a, b, i + 1)
    ensures a[i] == b[i] ==> Halfway(chain, a, b, i + 1)
  {
    assert chain[i..][0] == b[i..][0];
    assert chain[i..][1..] == chain[i + 1..] && b[i..][1..] == b[i + 1..];
    assert a[i] == b[i] ==> chain[i := a[i]] == chain;
  }

  lemma PassDone(chain: seq<Member>, a: seq<Member>, b: seq<Member>)
    requires Halfway(chain, a, b, |a|)
    ensures chain == a
  {
    assert chain[..|a|] == chain && a[..|a|] == a;
  }

  /** What the first pass left is what the second expects. */
  lemma NextNamed(t: Naming, ms: seq<Member>, i: nat)
    requires AllHeaders(ms) && |Table(t, ms)| < LIMIT && i < |ms|
    ensures TableEntry(t, FirstPasses(t, ms)[i]) == TableEntry(t, ms[i]) == TableParts(t, ms)[i]
    ensures TableAt(t, ms, i) + |TableParts(t, ms)[i]| <= |Table(t, ms)|
    ensures var s := FirstPasses(t, ms)[i];
            Renamed(t, ms)[i] == if IsLong(t, s) then Rename(t, s, TableAt(t, ms, i)) else s
  {
    ConcatStep(TableParts(t, ms), i);
    ConcatGrows(TableParts(t, ms), i + 1);
  }

  /** The first pass at one element. */
  method FirstVisit(t: Naming, m: Member, ghost ms: seq<Member>, ghost i: nat) returns (n: nat, r: Member)
    requires GoodNaming(t) && AllHeaders(ms) && i < |ms| && m == ms[i]
    ensures n == |TableParts(t, ms)[i]| && r == FirstPasses(t, ms)[i]
  {
    n, r := 0, m;
    var normal := Base(m.filename);
    var thislen := |normal|;
    if thislen > t.maxname && t.traditional {
      thislen := t.maxname;
    }
    if thislen > t.maxname {
      n := n + thislen + 1;
      if t.slash {
        n := n + 1;
      }
    } else {
      assert normal[..thislen] == Stored(t, m);
      var f := WriteShortName(t, m.header[..NAME_FIELD], normal[..thislen]);
      r := m.(header := f + m.header[NAME_FIELD..]);
    }
  }

  /** `strcpy` and the terminator behind it. */
  method FillEntry(t: Naming, table: array<Byte>, at: nat, name: seq<Byte>)
    requires at + |name| + |Terminator(t)| <= table.Length
    modifies table
    ensures table[..at + |name| + |Terminator(t)|] == old(table[..at]) + (name + Terminator(t))
  {
    ghost var front := table[..at];
    forall k | 0 <= k < |name| {
      table[at + k] := name[k];
    }
    if !t.slash {
      table[at + |name|] := NEWLINE;
    } else {
      table[at + |name|] := SLASH;
      table[at + |name| + 1] := NEWLINE;
    }
    ThreePieces(table[..at + |name| + |Terminator(t)|], front, name, Terminator(t));
  }

  lemma ThreePieces(s: seq<Byte>, a: seq<Byte>, b: seq<Byte>, c: seq<Byte>)
    requires |s| == |a| + |b| + |c|
    requires forall k :: 0 <= k < |a| ==> s[k] == a[k]
    requires forall k :: 0 <= k < |b| ==> s[|a| + k] == b[k]
    requires forall k :: 0 <= k < |c| ==> s[|a| + |b| + k] == c[k]
    ensures s == a + (b + c)
  {
    forall k | 0 <= k < |s| ensures s[k] == (a + (b + c))[k] {
      if |a| + |b| <= k {
        assert s[k] == c[k - |a| - |b|];
      } else if |a| <= k {
        assert s[k] == b[k - |a|];
      }
    }
  }

  lemma NoEntries(t: Naming, ms: seq<Member>)
    requires AllHeaders(ms) && |Table(t, ms)| == 0
    ensures Renamed(t, ms) == FirstPasses(t, ms)
  {
    forall i | 0 <= i < |ms| ensures Renamed(t, ms)[i] == FirstPasses(t, ms)[i] {
      NextNamed(t, ms, i);
    }
  }

  lemma LongOnlyIfNotTraditional(t: Naming, ms: seq<Member>)
    requires |Table(t, ms)| > 0
    ensures !t.traditional
  {
    if t.traditional {
      NoLength(TableParts(t, ms));
    }
  }

  lemma {:induction false} NoLength(parts: seq<seq<Byte>>)
    requires forall i :: 0 <= i < |parts| ==> parts[i] == []
    ensures Concat(parts) == []
  {
    if |parts| > 0 {
      NoLength(parts[..|parts| - 1]);
    }
  }

  // ---- the map predicts the writer ----

  lemma DropMapsGood(ms: seq<Member>)
    requires GoodMembers(ms)
    ensures GoodMembers(DropMaps(ms))
  {
  }

  lemma FinalGood(t: Target, ms: seq<Member>, makemap: bool)
    requires Ready(t, ms, makemap)
    ensures GoodMembers(Final(t, ms, makemap))
  {
    RenamedGood(t.naming, ms);
    DropMapsGood(Renamed(t.naming, ms));
  }

  lemma GoodHeaded(ms: seq<Member>)
    requires GoodMembers(ms)
    ensures Headed(ms)
  {
    forall i | 0 <= i < |ms| ensures |ms[i].header| == HEADER {
      assert GoodMember(ms[i]);
    }
  }

  /** Every member is written at its offset from the end of the prelude. */
  lemma MemberPlaced(p: Plan, map_: bool, k: nat)
    requires GoodPlan(p) && Headed(p.members) && k < |p.members|
    ensures Holds(Written(p, map_), Offset(|Prelude(p, map_)|, p.members, k), MemberBytes(p.members[k]))
  {
    BytesAtOffset(Prelude(p, map_), p.members, k);
  }

  /** Where record `i` of the map is in the file. */
  function RecordPlace(i: nat): nat {
    SARMAG + HEADER + 4 + SYMDEF * i
  }

  function MapHeader(p: Plan): (h: seq<Byte>)
    requires GoodPlan(p)
    ensures |h| == HEADER
  {
    HeaderOf(MapField(), p.stamp, MapSize(p.entries))
  }

  function MapContents(p: Plan): (raw: seq<Byte>)
    requires GoodPlan(p)
    ensures |raw| == MapSize(p.entries)
  {
    MapBytes(p.target.big, First(p), p.members, p.entries)
  }

  lemma WrittenParts(p: Plan)
    requires GoodPlan(p)
    ensures Written(p, true)
            == ARMAG + (MapHeader(p) + MapContents(p)) + TablePart(p.target, p.table) + AllBytes(p.members)
  {
  }

  lemma FivePiecesHeld(a: seq<Byte>, b: seq<Byte>, c: seq<Byte>, d: seq<Byte>, e: seq<Byte>)
    ensures var s := a + (b + c) + d + e;
            Holds(s, 0, a) && Holds(s, |a|, b) && Holds(s, |a| + |b|, c) && Holds(s, |a| + |b| + |c|, d)
  {
  }

  lemma MapInFile(p: Plan, file: seq<Byte>)
    requires GoodPlan(p) && file == Written(p, true)
    ensures Holds(file, SARMAG + HEADER, MapContents(p))
  {
    WrittenParts(p);
    FivePiecesHeld(ARMAG, MapHeader(p), MapContents(p), TablePart(p.target, p.table), AllBytes(p.members));
  }

  lemma RecordInFile(p: Plan, file: seq<Byte>, i: nat)
    requires GoodPlan(p) && file == Written(p, true) && i < |p.entries|
    ensures p.entries[i].pos < |p.members|
    ensures Holds(file, RecordPlace(i), Record(p.target.big, First(p), p.members, p.entries[i]))
  {
    hide Written, Record, Strings, EntryBytes, Holds, MapBytes, InOrder;
    MapInFile(p, file);
    MapParts(p.target.big, First(p), p.members, p.entries);
    RecordInMap(p.target.big, First(p), p.members, p.entries, MapContents(p), i);
    HoldsWithin(file, SARMAG + HEADER, MapContents(p), 4 + SYMDEF * i,
                Record(p.target.big, First(p), p.members, p.entries[i]));
  }

  lemma NumbersFit(p: Plan, i: nat)
    requires GoodPlan(p) && Headed(p.members) && |Written(p, true)| < WORD && i < |p.entries|
    ensures p.entries[i].pos < |p.members|
    ensures p.entries[i].namidx < WORD && Offset(First(p), p.members, p.entries[i].pos) < WORD
  {
    NameAt(p.entries, i, |p.members|);
    assert Follows(p.entries, i, |p.members|);
    MemberPlaced(p, true, p.entries[i].pos);
  }

  lemma StoredOffset(p: Plan, file: seq<Byte>, i: nat)
    requires GoodPlan(p) && Headed(p.members) && file == Written(p, true) && |file| < WORD && i < |p.entries|
    ensures RecordPlace(i) + SYMDEF <= |file| && p.entries[i].pos < |p.members|
    ensures Get32(p.target.big, file[RecordPlace(i) + 4..RecordPlace(i) + 8])
            == Offset(First(p), p.members, p.entries[i].pos)
  {
    hide Record, Written, Offset, GoodPlan;
    NumbersFit(p, i);
    RecordInFile(p, file, i);
    RecordWords(p.target.big, First(p), p.members, p.entries[i], file, RecordPlace(i));
  }

  /** The offset that record `i` of the map stores is the position at which the member that defines the symbol is
      written. */
  lemma MapPredictsWriter(p: Plan, i: nat)
    requires GoodPlan(p) && Headed(p.members) && |Written(p, true)| < WORD && i < |p.entries|
    ensures var file := Written(p, true);
            && RecordPlace(i) + SYMDEF <= |file| && p.entries[i].pos < |p.members|
            && Holds(file, Get32(p.target.big, file[RecordPlace(i) + 4..RecordPlace(i) + 8]),
                     MemberBytes(p.members[p.entries[i].pos]))
  {
    StoredOffset(p, Written(p, true), i);
    MemberPlaced(p, true, p.entries[i].pos);
  }
}
