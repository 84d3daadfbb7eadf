/** What was written is read: the map, the name table, every member with its name and contents, in order. */
module ArchiveRoundTrip {
  import opened Words
  import opened ArchiveFormat
  import opened ArchiveMap
  import opened ArchiveNames
  import opened ArchiveWriter
  import opened ArchiveReader

  /** The header, with a name table at hand or not, gives its member this name. */
  predicate ReadsAs(t: Naming, m: Member, table: Option<seq<Byte>>, name: seq<Byte>)
    requires GoodNaming(t)
  {
    |m.header| == HEADER
    && match NameOf(t, m.header, table.Some?)
       case Extended(index) => table.Some? && InRange(index) && NameInTable(table.value, index) == name
       case Following(_) => false
       case InPlace(n) => n == name
  }

  lemma HeaderRead(t: Naming, file: seq<Byte>, table: Option<seq<Byte>>, at: nat, m: Member, name: seq<Byte>)
    requires GoodNaming(t) && GoodMember(m) && ReadsAs(t, m, table, name) && Holds(file, at, m.header)
    ensures HeaderAt(t, file, table, at) == Header(name, |m.data|, at + HEADER)
  {
    HeldSlice(file, at, m.header);
  }

  lemma MemberHeld(file: seq<Byte>, at: nat, m: Member)
    requires Holds(file, at, MemberBytes(m)) && |m.header| == HEADER
    ensures Holds(file, at, m.header) && Holds(file, at + HEADER, m.data)
  {
    var b := MemberBytes(m);
    HoldsPart(file, at, b, 0, HEADER);
    HoldsPart(file, at, b, HEADER, HEADER + |m.data|);
    assert b[0..HEADER] == m.header && b[HEADER..HEADER + |m.data|] == m.data;
  }

  /** Members one behind the other after `front`, in a file that fits a 32-bit `file_ptr`. */
  predicate Body(front: seq<Byte>, ms: seq<Member>, file: seq<Byte>) {
    && file == front + AllBytes(ms) && |front| % 2 == 0 && |file| < LIMIT
    && GoodMembers(ms) && Headed(ms)
  }

  lemma StopFrom(t: Naming, file: seq<Byte>, table: Option<seq<Byte>>, at: nat, m: Member, name: seq<Byte>)
    requires GoodNaming(t) && GoodMember(m) && ReadsAs(t, m, table, name) && Holds(file, at, MemberBytes(m))
    ensures StopAt(t, file, table, Stop(at, name, m.data))
  {
    MemberHeld(file, at, m);
    HeaderRead(t, file, table, at, m, name);
  }

  /** The header at each member's start reads as that member. */
  lemma MemberRead(t: Naming, front: seq<Byte>, ms: seq<Member>, file: seq<Byte>, table: Option<seq<Byte>>, k: nat,
                   name: seq<Byte>)
    requires GoodNaming(t) && Body(front, ms, file) && k < |ms| && ReadsAs(t, ms[k], table, name)
    ensures StopAt(t, file, table, Stop(Offset(|front|, ms, k), name, ms[k].data))
  {
    BytesAtOffset(front, ms, k);
    assert GoodMember(ms[k]);
    StopFrom(t, file, table, Offset(|front|, ms, k), ms[k], name);
  }

  /** Starts are even, each is further on than the one before, and the last leads to the end of the file. */
  lemma StartsGrow(front: seq<Byte>, ms: seq<Member>, file: seq<Byte>, k: nat)
    requires Body(front, ms, file) && k < |ms|
    ensures Offset(|front|, ms, k) % 2 == 0
    ensures Offset(|front|, ms, k + 1) == Offset(|front|, ms, k) + MemberSize(ms[k]) <= |file|
    ensures Offset(|front|, ms, |ms|) == |file|
  {
    OffsetsGrow(|front|, ms, k, k);
    OffsetsGrow(|front|, ms, k + 1, |ms|);
    AllBytesSize(ms, |front|);
  }

  lemma NextOf(at: nat, m: Member)
    requires at % 2 == 0 && at + MemberSize(m) < LIMIT
    ensures NextStart(at + HEADER, |m.data|) == at + MemberSize(m)
  {
    SignedNear(at + HEADER + |m.data|);
    RoundedStart(at + HEADER + |m.data|);
  }

  // ---- walking ----

  /** A member to be found at a position. */
  datatype Stop = Stop(at: nat, name: seq<Byte>, data: seq<Byte>)

  /** The file has the stop's member at its position. */
  predicate StopAt(t: Naming, file: seq<Byte>, table: Option<seq<Byte>>, s: Stop)
    requires GoodNaming(t)
  {
    && HeaderAt(t, file, table, s.at) == Header(s.name, |s.data|, s.at + HEADER)
    && Holds(file, s.at + HEADER, s.data)
  }

  /** Position `at` is that of stop `k`, or the end of the file if there is none. */
  predicate Leads(file: seq<Byte>, stops: seq<Stop>, at: int, k: nat)
    requires k <= |stops|
  {
    at == if k < |stops| then stops[k].at else |file|
  }

  /** The members of a file, one behind the other up to its end. */
  predicate Route(t: Naming, file: seq<Byte>, table: Option<seq<Byte>>, first: nat, stops: seq<Stop>)
    requires GoodNaming(t)
  {
    && Leads(file, stops, first, 0)
    && forall k :: 0 <= k < |stops| ==> OnRoute(t, file, table, stops, k)
  }

  predicate OnRoute(t: Naming, file: seq<Byte>, table: Option<seq<Byte>>, stops: seq<Stop>, k: nat)
    requires GoodNaming(t) && k < |stops|
  {
    StopAt(t, file, table, stops[k]) && Onward(file, stops, k)
  }

  predicate Onward(file: seq<Byte>, stops: seq<Stop>, k: nat)
    requires k < |stops|
  {
    stops[k].at < |file|
    && Leads(file, stops, NextStart(stops[k].at + HEADER, |stops[k].data|), k + 1)
  }

  lemma NothingAtEnd(t: Naming, file: seq<Byte>, table: Option<seq<Byte>>)
    requires GoodNaming(t)
    ensures HeaderAt(t, file, table, |file|) == NoMore
  {
  }

  predicate Visited(e: Element, s: Stop) {
    e.name == s.name && e.size == |s.data| && e.origin == s.at + HEADER
  }

  /** The elements met so far. */
  predicate Follow(es: seq<Element>, stops: seq<Stop>) {
    |es| <= |stops| && forall k :: 0 <= k < |es| ==> Visited(es[k], stops[k])
  }

  lemma FollowOn(es: seq<Element>, e: Element, stops: seq<Stop>)
    requires Follow(es, stops) && |es| < |stops| && Visited(e, stops[|es|])
    ensures Follow(es + [e], stops)
  {
  }

  /** One step of a walk. */
  method Visit(r: Reader, last: Element?, ghost stops: seq<Stop>, ghost k: nat) returns (e: Element?)
    requires r.Valid() && Route(r.naming, r.file, r.names, r.first, stops) && k <= |stops|
    requires if k == 0 then last == null else last != null && Visited(last, stops[k - 1])
    modifies r`where, r`cache
    ensures r.Valid()
    ensures if k < |stops| then e != null && Visited(e, stops[k]) else e == null
  {
    if k > 0 {
      assert OnRoute(r.naming, r.file, r.names, stops, k - 1);
    }
    if k < |stops| {
      assert OnRoute(r.naming, r.file, r.names, stops, k);
    } else {
      NothingAtEnd(r.naming, r.file, r.names);
    }
    e := r.NextElement(last);
  }

  /** Walking visits every member exactly once, in order, and stops. */
  method Walk(r: Reader, ghost stops: seq<Stop>) returns (es: seq<Element>)
    requires r.Valid() && Route(r.naming, r.file, r.names, r.first, stops)
    modifies r`where, r`cache
    ensures r.Valid() && |es| == |stops| && Follow(es, stops)
  {
    es := [];
    var last: Element? := null;
    while true
      invariant r.Valid()
      invariant last == if |es| == 0 then null else es[|es| - 1]
      invariant Follow(es, stops)
      decreases |stops| - |es|
    {
      var found := Visit(r, last, stops, |es|);
      if found == null {
        return;
      }
      var e: Element := found;
      FollowOn(es, e, stops);
      es := es + [e];
      last := e;
    }
  }

  // ---- the members of a written archive ----

  predicate AllReadAs(t: Naming, ms: seq<Member>, table: Option<seq<Byte>>, names: seq<seq<Byte>>)
    requires GoodNaming(t)
  {
    |names| == |ms| && forall k :: 0 <= k < |ms| ==> ReadsAs(t, ms[k], table, names[k])
  }

  function Stops(first: nat, ms: seq<Member>, names: seq<seq<Byte>>): (stops: seq<Stop>)
    requires |names| == |ms|
    ensures |stops| == |ms|
  {
    seq(|ms|, k requires 0 <= k < |ms| => Stop(Offset(first, ms, k), names[k], ms[k].data))
  }

  lemma OffsetLeads(front: seq<Byte>, ms: seq<Member>, file: seq<Byte>, k: nat)
    requires Body(front, ms, file) && k < |ms|
    ensures Offset(|front|, ms, k) < |file|
    ensures NextStart(Offset(|front|, ms, k) + HEADER, |ms[k].data|)
            == if k + 1 < |ms| then Offset(|front|, ms, k + 1) else |file|
  {
    StartsGrow(front, ms, file, k);
    NextOf(Offset(|front|, ms, k), ms[k]);
  }

  lemma StepOnRoute(t: Naming, front: seq<Byte>, ms: seq<Member>, file: seq<Byte>, names: seq<seq<Byte>>, k: nat)
    requires Body(front, ms, file) && |names| == |ms| && k < |ms|
    ensures Onward(file, Stops(|front|, ms, names), k)
  {
    OffsetLeads(front, ms, file, k);
  }

  lemma MemberOnRoute(t: Naming, front: seq<Byte>, ms: seq<Member>, file: seq<Byte>, table: Option<seq<Byte>>,
                      names: seq<seq<Byte>>, k: nat)
    requires GoodNaming(t) && Body(front, ms, file) && |names| == |ms| && k < |ms| && ReadsAs(t, ms[k], table, names[k])
    ensures OnRoute(t, file, table, Stops(|front|, ms, names), k)
  {
    MemberRead(t, front, ms, file, table, k, names[k]);
    StepOnRoute(t, front, ms, file, names, k);
  }

  /** The written file is a route through its members, in the order of the chain. */
  lemma WrittenRoute(t: Naming, front: seq<Byte>, ms: seq<Member>, file: seq<Byte>, table: Option<seq<Byte>>,
                     names: seq<seq<Byte>>)
    requires GoodNaming(t) && Body(front, ms, file) && AllReadAs(t, ms, table, names)
    ensures Route(t, file, table, |front|, Stops(|front|, ms, names))
  {
    var stops := Stops(|front|, ms, names);
    AllBytesSize(ms, |front|);
    forall k | 0 <= k < |stops| ensures OnRoute(t, file, table, stops, k) {
      MemberOnRoute(t, front, ms, file, table, names, k);
    }
  }

  // ---- opening a written archive ----

  /** A header that names no member. */
  lemma SpecialHeader(t: Naming, file: seq<Byte>, at: nat, field: seq<Byte>, stamp: seq<Byte>, size: nat)
    requires GoodNaming(t) && |field| == NAME_FIELD && |stamp| == SIZE_AT - NAME_FIELD && size < LIMIT
    requires field[0] != 35 && Holds(file, at, HeaderOf(field, stamp, size))
    ensures UpTo(file, at, NAME_FIELD) == field
    ensures var h := HeaderAt(t, file, None, at); h.Header? && h.size == size && h.origin == at + HEADER
  {
    var h := HeaderOf(field, stamp, size);
    HeaderRoundTrip(field, stamp, size);
    HeldSlice(file, at, h);
    HoldsPart(file, at, h, 0, NAME_FIELD);
    HeldSlice(file, at, field);
    assert h[0] == h[..NAME_FIELD][0];
    assert h[0..NAME_FIELD] == h[..NAME_FIELD];
  }

  lemma FieldNames(t: Naming)
    ensures MapField() == MAP_NAME
    ensures TableField(t) == if t.slash then SLASH_TABLE_NAME else BSD_TABLE_NAME
  {
  }

  /** A map of this size and contents stands at the head of the file. */
  predicate MapThere(t: Naming, file: seq<Byte>, raw: seq<Byte>)
    requires GoodNaming(t)
  {
    && UpTo(file, SARMAG, NAME_FIELD) == MAP_NAME && Holds(file, SARMAG + HEADER, raw)
    && var h := HeaderAt(t, file, None, SARMAG);
       h.Header? && h.size == |raw| && h.origin == SARMAG + HEADER
  }

  lemma BsdMapFrom(t: Naming, big: bool, file: seq<Byte>, raw: seq<Byte>, defs: seq<Symdef>)
    requires GoodNaming(t) && MapThere(t, file, raw) && Slurp(big, raw) == Symdefs(defs)
    ensures MapOf(t, big, file) == BsdMap(defs, RoundUp(SARMAG + HEADER + |raw|))
  {
    HeldSlice(file, SARMAG + HEADER, raw);
  }

  lemma MapHeaderRead(p: Plan, file: seq<Byte>)
    requires GoodPlan(p) && GoodNaming(p.target.naming) && file == Written(p, true)
    ensures MapThere(p.target.naming, file, MapContents(p))
  {
    WrittenParts(p);
    FivePiecesHeld(ARMAG, MapHeader(p), MapContents(p), TablePart(p.target, p.table), AllBytes(p.members));
    FieldNames(p.target.naming);
    SpecialHeader(p.target.naming, file, SARMAG, MapField(), p.stamp, MapSize(p.entries));
  }

  /** The map that was written is found, with every symbol at its member's position. */
  lemma MapOfWritten(p: Plan, file: seq<Byte>)
    requires GoodPlan(p) && GoodNaming(p.target.naming) && file == Written(p, true)
    requires Writable(First(p), p.members, p.entries)
    ensures MapOf(p.target.naming, p.target.big, file)
            == BsdMap(Expected(First(p), p.members, p.entries), SARMAG + HEADER + MapSize(p.entries))
  {
    MapHeaderRead(p, file);
    MapContentsRead(p);
    BsdMapFrom(p.target.naming, p.target.big, file, MapContents(p), Expected(First(p), p.members, p.entries));
  }

  lemma MapContentsRead(p: Plan)
    requires GoodPlan(p) && Writable(First(p), p.members, p.entries)
    ensures Slurp(p.target.big, MapContents(p)) == Symdefs(Expected(First(p), p.members, p.entries))
    ensures RoundUp(SARMAG + HEADER + |MapContents(p)|) == SARMAG + HEADER + MapSize(p.entries)
  {
    MapRoundTrip(p.target.big, First(p), p.members, p.entries);
    StartEven(|p.entries|, |Strings(p.entries)|);
  }

  // ---- the name table of a written archive ----

  /** What stands before the name table. */
  function TableStart(p: Plan, map_: bool): nat {
    if map_ then SARMAG + HEADER + MapSize(p.entries) else SARMAG
  }

  function BeforeTable(p: Plan, map_: bool): (b: seq<Byte>)
    requires GoodPlan(p)
    ensures |b| == TableStart(p, map_)
  {
    ARMAG + (if map_ then ArmapBytes(p.target.big, p.stamp, p.members, p.entries, First(p)) else [])
  }

  /** The table with the byte that rounds it up. */
  function TableRaw(p: Plan): seq<Byte> {
    p.table + Padding(|p.table|)
  }

  lemma WrittenFromTable(p: Plan, map_: bool)
    requires GoodPlan(p)
    ensures Written(p, map_) == BeforeTable(p, map_) + TablePart(p.target, p.table) + AllBytes(p.members)
  {
  }

  lemma TwoPiecesHeld(front: seq<Byte>, h: seq<Byte>, a: seq<Byte>, b: seq<Byte>, rest: seq<Byte>)
    ensures var s := front + (h + a + b) + rest;
            Holds(s, |front|, h) && Holds(s, |front| + |h|, a + b)
  {
  }

  lemma TableFrom(t: Naming, file: seq<Byte>, at: nat, stamp: seq<Byte>, raw: seq<Byte>)
    requires GoodNaming(t) && |stamp| == SIZE_AT - NAME_FIELD && |raw| < LIMIT
    requires Holds(file, at, HeaderOf(TableField(t), stamp, |raw|)) && Holds(file, at + HEADER, raw)
    ensures UpTo(file, at, NAME_FIELD) == TableField(t)
    ensures TableOf(t, file, at) == NameTable(raw, RoundUp(at + HEADER + |raw|))
  {
    hide HeaderOf, HeaderAt, RoundUp, UpTo, TableField;
    FieldNames(t);
    SpecialHeader(t, file, at, TableField(t), stamp, |raw|);
    HeldSlice(file, at + HEADER, raw);
  }

  lemma TablePartIs(p: Plan)
    requires 0 < |p.table| < LIMIT - 1
    ensures |TableRaw(p)| < LIMIT
    ensures TablePart(p.target, p.table)
            == HeaderOf(TableField(p.target.naming), Spaces(SIZE_AT - NAME_FIELD), |TableRaw(p)|)
               + p.table + Padding(|p.table|)
  {
    hide HeaderOf;
  }

  /** The name table that was written is found. */
  lemma TableOfWritten(p: Plan, map_: bool, file: seq<Byte>)
    requires GoodPlan(p) && GoodNaming(p.target.naming) && file == Written(p, map_) && |p.table| > 0
    ensures UpTo(file, TableStart(p, map_), NAME_FIELD) == TableField(p.target.naming)
    ensures TableOf(p.target.naming, file, TableStart(p, map_))
            == NameTable(TableRaw(p), RoundUp(TableStart(p, map_) + HEADER + |TableRaw(p)|))
  {
    hide HeaderOf, HeaderAt, TableOf, UpTo, TablePart, Written, BeforeTable, Holds;
    var t := p.target.naming;
    var stamp := Spaces(SIZE_AT - NAME_FIELD);
    WrittenFromTable(p, map_);
    TablePartIs(p);
    TwoPiecesHeld(BeforeTable(p, map_), HeaderOf(TableField(t), stamp, |TableRaw(p)|), p.table, Padding(|p.table|),
                  AllBytes(p.members));
    TableFrom(t, file, TableStart(p, map_), stamp, TableRaw(p));
  }

  lemma TableFillsRoom(p: Plan, map_: bool)
    requires |p.table| > 0
    ensures RoundUp(TableStart(p, map_) + HEADER + |TableRaw(p)|) == TableStart(p, map_) + TableRoom(|p.table|)
  {
    StartEven(|p.entries|, |Strings(p.entries)|);
    RoomEven(TableStart(p, map_), |p.table|);
  }

  lemma StartEven(n: nat, s: nat)
    ensures (SARMAG + HEADER + (SYMDEF * n + s + s % 2 + 8)) % 2 == 0
  {
    Halved(SARMAG + HEADER + (SYMDEF * n + s + s % 2 + 8), 38 + 4 * n + s / 2 + s % 2);
  }

  lemma RoomEven(start: nat, n: nat)
    requires start % 2 == 0
    ensures RoundUp(start + HEADER + (n + n % 2)) == start + HEADER + n + n % 2
  {
  }

  /** The first name field that a reader meets among the members. */
  function FirstField(ms: seq<Member>): seq<Byte> {
    if |ms| == 0 then [] else UpTo(ms[0].header, 0, NAME_FIELD)
  }

  lemma FirstFieldRead(front: seq<Byte>, ms: seq<Member>)
    requires Headed(ms)
    ensures UpTo(front + AllBytes(ms), |front|, NAME_FIELD) == FirstField(ms)
  {
    if |ms| > 0 {
      BytesAtOffset(front, ms, 0);
      MemberHeld(front + AllBytes(ms), |front|, ms[0]);
      HoldsPart(front + AllBytes(ms), |front|, ms[0].header, 0, NAME_FIELD);
      HeldSlice(front + AllBytes(ms), |front|, ms[0].header[0..NAME_FIELD]);
    }
  }

  predicate LikeTable(field: seq<Byte>) {
    field == BSD_TABLE_NAME || field == SLASH_TABLE_NAME
  }

  predicate LikeMap(field: seq<Byte>) {
    field == MAP_NAME || field == OLD_MAP_NAME || field == COFF_MAP_NAME || field == SYM64_NAME
  }

  /** No member is mistaken for a map or a table that the archive lacks. A table is not cleaned up before its first
      byte. */
  predicate Unmistakable(p: Plan, map_: bool) {
    && (|p.table| == 0 ==> !LikeTable(FirstField(p.members)))
    && (|p.table| == 0 && !map_ ==> !LikeMap(FirstField(p.members)))
    && StartsPlain(p.table)
  }

  function NamesOf(p: Plan): Option<seq<Byte>> {
    if |p.table| > 0 then Some(Clean(TableRaw(p))) else None
  }

  lemma NoTableFound(p: Plan, map_: bool, file: seq<Byte>)
    requires GoodPlan(p) && GoodNaming(p.target.naming) && Headed(p.members) && file == Written(p, map_)
    requires |p.table| == 0
    ensures TableOf(p.target.naming, file, TableStart(p, map_)).NoTable? <==> !LikeTable(FirstField(p.members))
    ensures UpTo(file, TableStart(p, map_), NAME_FIELD) == FirstField(p.members)
  {
    WrittenFromTable(p, map_);
    assert BeforeTable(p, map_) + [] == BeforeTable(p, map_);
    FirstFieldRead(BeforeTable(p, map_), p.members);
  }

  /** An archive written without a map is read as one without if and only if what stands first, the name table or
      else a member, is not named like a map; a table never is. */
  lemma NoMapFound(p: Plan, file: seq<Byte>)
    requires GoodPlan(p) && GoodNaming(p.target.naming) && Headed(p.members) && file == Written(p, false)
    ensures MapOf(p.target.naming, p.target.big, file) == NoMap
       <==> |p.table| > 0 || !LikeMap(FirstField(p.members))
  {
    if |p.table| > 0 {
      TableOfWritten(p, false, file);
      FieldNames(p.target.naming);
    } else {
      NoTableFound(p, false, file);
      assert |FirstField(p.members)| == if |p.members| == 0 then 0 else NAME_FIELD;
    }
  }

  lemma MagicRead(p: Plan, map_: bool)
    requires GoodPlan(p)
    ensures UpTo(Written(p, map_), 0, SARMAG) == ARMAG
  {
    WrittenFromTable(p, map_);
    UpToFront(ARMAG, if map_ then ArmapBytes(p.target.big, p.stamp, p.members, p.entries, First(p)) else [],
              TablePart(p.target, p.table), AllBytes(p.members));
  }

  lemma UpToFront(a: seq<Byte>, b: seq<Byte>, c: seq<Byte>, d: seq<Byte>)
    ensures UpTo(a + b + c + d, 0, |a|) == a
  {
  }

  /** Opening a written archive finds its map, its name table, and the first byte behind both. */
  lemma OpenedWritten(p: Plan, map_: bool, file: seq<Byte>)
    requires GoodPlan(p) && GoodNaming(p.target.naming) && Headed(p.members) && file == Written(p, map_)
    requires Unmistakable(p, map_) && (map_ ==> Writable(First(p), p.members, p.entries))
    ensures AfterMap(p.target.naming, p.target.big, file) == TableStart(p, map_)
    ensures StartsWell(TableOf(p.target.naming, file, TableStart(p, map_)))
    ensures OpenedAs(p.target.naming, p.target.big, file) == Recognized(|Prelude(p, map_)|, NamesOf(p))
  {
    hide MapOf, TableOf, Prelude, Written;
    MagicRead(p, map_);
    if map_ {
      MapOfWritten(p, file);
    } else {
      NoMapFound(p, file);
    }
    if |p.table| > 0 {
      TableOfWritten(p, map_, file);
      TableFillsRoom(p, map_);
    } else {
      NoTableFound(p, map_, file);
    }
    PreludeLength(p, map_);
  }

  lemma PreludeLength(p: Plan, map_: bool)
    requires GoodPlan(p)
    ensures |Prelude(p, map_)| == TableStart(p, map_) + TableRoom(|p.table|)
  {
  }

  // ---- names ----

  /** Every entry of the table ends with a newline. */
  lemma {:induction false} TableEndsLines(parts: seq<seq<Byte>>)
    requires forall i :: 0 <= i < |parts| ==> |parts[i]| == 0 || parts[i][|parts[i]| - 1] == NEWLINE
    ensures |Concat(parts)| > 0 ==> Concat(parts)[|Concat(parts)| - 1] == NEWLINE
  {
    if |parts| > 0 {
      TableEndsLines(parts[..|parts| - 1]);
    }
  }

  predicate StartsPlain(table: seq<Byte>) {
    |table| > 0 ==> table[0] != NEWLINE
  }

  lemma EntryHeldInTable(t: Naming, ms: seq<Member>, k: nat)
    requires k < |ms| && IsLong(t, ms[k]) && 0 !in Stored(t, ms[k]) && StartsPlain(Table(t, ms))
    ensures var table := Table(t, ms);
            EntryHeld(t, table + Padding(|table|), TableAt(t, ms, k), Stored(t, ms[k]))
  {
    hide Concat, Stored, Padding;
    var table := Table(t, ms);
    var parts := TableParts(t, ms);
    var at := TableAt(t, ms, k);
    ConcatHolds(parts, k);
    HoldsMore(table, Padding(|table|), at, parts[k]);
    StoredHasNoSlash(t, ms[k]);
    if at > 0 {
      TableEndsLines(parts[..k]);
      ConcatGrows(parts, k);
      assert table[at - 1] == Concat(parts[..k])[at - 1];
    }
  }

  /** A long name is read back exactly when it has no newline and no backslash. */
  lemma LongNameRoundTrip(t: Naming, ms: seq<Member>, k: nat)
    requires GoodNaming(t) && t.pad == SLASH && AllHeaders(ms) && |Table(t, ms)| < LIMIT - 1
    requires k < |ms| && IsLong(t, ms[k]) && 0 !in Stored(t, ms[k]) && StartsPlain(Table(t, ms))
    ensures var table := Table(t, ms);
            ReadsAs(t, RenameAt(t, ms, k), Some(Clean(table + Padding(|table|))), Stored(t, ms[k]))
            <==> Plain(Stored(t, ms[k]))
  {
    var table := Table(t, ms);
    LongFieldReadBack(t, ms[k], TableAt(t, ms, k));
    EntryHeldInTable(t, ms, k);
    TableReadBack(t, table + Padding(|table|), TableAt(t, ms, k), Stored(t, ms[k]));
  }

  /** A name that survives: a C string; if long, without newline and backslash; if short, not empty, without a space
      when it fills the field, and in a header that does not happen to look like one of BSD 4.4. */
  predicate Survives(t: Naming, m: Member, final: Member)
    requires |final.header| == HEADER
  {
    var n := Stored(t, m);
    && 0 !in n
    && if IsLong(t, m) then Plain(n)
       else |n| > 0 && (|n| < t.maxname || SPACE !in n) && !IsBsd44(final.header)
  }

  function TableForReader(table: seq<Byte>): Option<seq<Byte>> {
    if |table| > 0 then Some(Clean(table + Padding(|table|))) else None
  }

  /** To a reader with a name table, a name that fills the field and begins with a space is an index. */
  predicate LooksLikeIndex(t: Naming, n: seq<Byte>, table: Option<seq<Byte>>) {
    table.Some? && |n| == t.maxname > 0 && n[0] == SPACE
  }

  /** The table has this name where the index in the header leads. */
  predicate IndexLeadsTo(h: seq<Byte>, table: seq<Byte>, n: seq<Byte>)
    requires |h| == HEADER
  {
    InRange(Strtol(h[1..])) && NameInTable(table, Strtol(h[1..])) == n
  }

  /** A nonempty name is read back from the settled header and the table if and only if it survives, or is taken
      for an index that happens to lead to it. */
  lemma NameRoundTrip(t: Naming, ms: seq<Member>, k: nat)
    requires GoodNaming(t) && t.pad == SLASH && AllHeaders(ms) && |Table(t, ms)| < LIMIT - 1
    requires k < |ms| && StartsPlain(Table(t, ms)) && |Stored(t, ms[k])| > 0 && 0 !in Stored(t, ms[k])
    ensures var n, m, table := Stored(t, ms[k]), RenameAt(t, ms, k), TableForReader(Table(t, ms));
      ReadsAs(t, m, table, n)
      <==> if LooksLikeIndex(t, n, table) then IndexLeadsTo(m.header, table.value, n) else Survives(t, ms[k], m)
  {
    if IsLong(t, ms[k]) {
      LongNameRoundTrip(t, ms, k);
      ConcatHolds(TableParts(t, ms), k);
    } else if !IsBsd44(RenameAt(t, ms, k).header) {
      ShortNameReadBack(t, ms[k], TableAt(t, ms, k), |Table(t, ms)| > 0);
    } else {
      ShortFieldShape(t, ms[k], TableAt(t, ms, k));
    }
  }

  /** The names with which the members of the archive go to their readers. */
  function StoredNames(t: Naming, ms: seq<Member>): (names: seq<seq<Byte>>)
    ensures |names| == |ms|
  {
    seq(|ms|, k requires 0 <= k < |ms| => Stored(t, ms[k]))
  }

  predicate AllSurvive(t: Naming, ms: seq<Member>)
    requires AllHeaders(ms) && |Table(t, ms)| < LIMIT
  {
    forall k :: 0 <= k < |ms| ==> Survives(t, ms[k], RenameAt(t, ms, k))
  }

  lemma NamesRoundTrip(t: Target, ms: seq<Member>, makemap: bool)
    requires Ready(t, ms, makemap) && t.naming.pad == SLASH && StartsPlain(Table(t.naming, ms))
    requires AllSurvive(t.naming, ms)
    ensures var fs := Final(t, ms, makemap);
            AllReadAs(t.naming, fs, TableForReader(Table(t.naming, ms)), StoredNames(t.naming, fs))
  {
    var fs := Final(t, ms, makemap);
    forall k | 0 <= k < |fs|
      ensures ReadsAs(t.naming, fs[k], TableForReader(Table(t.naming, ms)), StoredNames(t.naming, fs)[k]) {
      var i := FinalIndex(t, ms, makemap, k);
      assert Survives(t.naming, ms[i], RenameAt(t.naming, ms, i));
      NameRoundTrip(t.naming, ms, i);
    }
  }

  /** A member of the archive is one of the chain, renamed. */
  lemma FinalIndex(t: Target, ms: seq<Member>, makemap: bool, k: nat) returns (i: nat)
    requires AllHeaders(ms) && |Table(t.naming, ms)| < LIMIT && k < |Final(t, ms, makemap)|
    ensures i == |ms| - |Final(t, ms, makemap)| + k < |ms|
    ensures Final(t, ms, makemap)[k] == RenameAt(t.naming, ms, i)
    ensures Stored(t.naming, Final(t, ms, makemap)[k]) == Stored(t.naming, ms[i])
  {
    i := |ms| - |Final(t, ms, makemap)| + k;
    assert Renamed(t.naming, ms)[i] == RenameAt(t.naming, ms, i);
  }

  // ---- writing and reading ----

  /** An archive that its readers understand: it fits, nothing is mistaken, all names survive. */
  predicate Faithful(t: Target, stamp: seq<Byte>, ms: seq<Member>, makemap: bool) {
    && Ready(t, ms, makemap) && |stamp| == SIZE_AT - NAME_FIELD && t.naming.pad == SLASH
    && var p := PlanOf(t, stamp, ms, makemap); var map_ := makemap && HasObjects(ms);
       && |Written(p, map_)| < LIMIT && Unmistakable(p, map_) && AllSurvive(t.naming, ms)
       && (map_ ==> Writable(First(p), p.members, p.entries))
  }

  /** Reads back what stands in an archive file: all members in order, with the names and contents that went in. */
  method ReadBack(r: Reader, ghost front: seq<Byte>, ghost ms: seq<Member>, ghost names: seq<seq<Byte>>)
    returns (es: seq<Element>)
    requires r.Valid() && Body(front, ms, r.file) && r.first == |front| && AllReadAs(r.naming, ms, r.names, names)
    modifies r`where, r`cache
    ensures |es| == |ms| && Follow(es, Stops(|front|, ms, names))
    ensures forall k :: 0 <= k < |ms| ==> Holds(r.file, es[k].origin, ms[k].data)
  {
    hide HeaderAt, Body, ReadsAs;
    ghost var stops := Stops(|front|, ms, names);
    WrittenRoute(r.naming, front, ms, r.file, r.names, names);
    es := Walk(r, stops);
    forall k | 0 <= k < |ms| ensures Holds(r.file, es[k].origin, ms[k].data) {
      assert OnRoute(r.naming, r.file, r.names, stops, k);
    }
  }

  /** The plan's file is a body of members behind an even prelude. */
  lemma PlanBody(t: Target, stamp: seq<Byte>, ms: seq<Member>, makemap: bool)
    requires Faithful(t, stamp, ms, makemap)
    ensures var p := PlanOf(t, stamp, ms, makemap); var map_ := makemap && HasObjects(ms);
            Body(Prelude(p, map_), p.members, Written(p, map_)) && TableForReader(p.table) == NamesOf(p)
  {
    FinalGood(t, ms, makemap);
    GoodHeaded(Final(t, ms, makemap));
    PreludeEven(PlanOf(t, stamp, ms, makemap), makemap && HasObjects(ms));
  }

  /** The file opens as an archive of these members under these names. */
  predicate Understood(t: Target, file: seq<Byte>, front: seq<Byte>, ms: seq<Member>, names: seq<seq<Byte>>,
                       table: Option<seq<Byte>>)
  {
    && GoodNaming(t.naming) && StartsWell(TableOf(t.naming, file, AfterMap(t.naming, t.big, file)))
    && OpenedAs(t.naming, t.big, file) == Recognized(|front|, table)
    && Body(front, ms, file) && AllReadAs(t.naming, ms, table, names)
  }

  lemma FaithfulUnderstood(t: Target, stamp: seq<Byte>, ms: seq<Member>, makemap: bool)
    requires Faithful(t, stamp, ms, makemap)
    ensures var p := PlanOf(t, stamp, ms, makemap); var map_ := makemap && HasObjects(ms);
            Understood(t, Written(p, map_), Prelude(p, map_), p.members, StoredNames(t.naming, p.members), NamesOf(p))
  {
    PlanBody(t, stamp, ms, makemap);
    OpenedWritten(PlanOf(t, stamp, ms, makemap), makemap && HasObjects(ms),
                  Written(PlanOf(t, stamp, ms, makemap), makemap && HasObjects(ms)));
    NamesRoundTrip(t, ms, makemap);
  }

  method OpenAndWalk(t: Target, file: seq<Byte>, ghost front: seq<Byte>, ghost ms: seq<Member>,
                     ghost names: seq<seq<Byte>>, ghost table: Option<seq<Byte>>)
    returns (r: Reader, es: seq<Element>)
    requires Understood(t, file, front, ms, names, table)
    ensures r.file == file && |es| == |ms| && Follow(es, Stops(|front|, ms, names))
    ensures forall k :: 0 <= k < |ms| ==> Holds(file, es[k].origin, ms[k].data)
    ensures MapOf(t.naming, t.big, file).BsdMap? ==> r.symdefs == Some(MapOf(t.naming, t.big, file).defs)
  {
    r := new Reader(t.naming, t.big, file);
    var o := r.Open();
    es := ReadBack(r, front, ms, names);
  }

  // ---- in terms of the chain that was to be written ----

  /** An element has the last component of a member's filename, cut off only in the traditional format, and the
      member's contents. */
  predicate CameFrom(t: Naming, file: seq<Byte>, e: Element, m: Member) {
    && e.size == |m.data| && Holds(file, e.origin, m.data)
    && var base := Base(m.filename);
       e.name == if t.traditional && |base| > t.maxname then base[..t.maxname] else base
  }

  /** All members, in order, but for leading ones named like a map, which a new map replaces. */
  predicate GivesBack(t: Naming, ms: seq<Member>, makemap: bool, file: seq<Byte>, es: seq<Element>) {
    && |es| <= |ms|
    && var n := |ms| - |es|;
       && (if makemap && exists i :: 0 <= i < |ms| && ms[i].isObject then OldMapsEnd(ms, n) else n == 0)
       && forall k :: 0 <= k < |es| ==> CameFrom(t, file, es[k], ms[n + k])
  }

  lemma CameFromRenamed(t: Naming, file: seq<Byte>, e: Element, m: Member, r: Member)
    requires r == m.(header := r.header)
    requires e.name == Stored(t, r) && e.size == |r.data| && Holds(file, e.origin, r.data)
    ensures CameFrom(t, file, e, m)
  {
  }

  lemma AllGivenBack(t: Naming, ms: seq<Member>, fs: seq<Member>, makemap: bool, file: seq<Byte>, es: seq<Element>,
                     first: nat)
    requires LosesOldMaps(ms, fs, makemap) && |es| == |fs| && Follow(es, Stops(first, fs, StoredNames(t, fs)))
    requires forall k :: 0 <= k < |es| ==> Holds(file, es[k].origin, fs[k].data)
    ensures GivesBack(t, ms, makemap, file, es)
  {
    hide Holds, OldMapsEnd, IsTail, CameFrom, Follow, Stops, Stored;
    var n := |ms| - |es|;
    IsTailShort(ms, fs);
    forall k | 0 <= k < |es| ensures CameFrom(t, file, es[k], ms[n + k]) {
      OriginOf(first, fs, StoredNames(t, fs), es, k);
      TailMember(ms, fs, k);
      CameFromRenamed(t, file, es[k], ms[n + k], fs[k]);
    }
  }

  lemma IsTailShort(ms: seq<Member>, fs: seq<Member>)
    requires IsTail(ms, fs)
    ensures |fs| <= |ms|
  {
  }

  /** How often a map has a name for the member at a position. */
  function Mentions(defs: seq<Symdef>, at: nat, name: seq<Byte>): nat {
    |(set i: nat | i < |defs| && defs[i].name == name && defs[i].offset == at)|
  }

  /** How many symbols of a name a map is to have for a member. */
  function Exported(m: Member, name: seq<Byte>): nat {
    if !m.isObject then 0
    else
      |(set j: nat | && j < |m.symbols| && m.symbols[j].name == name && !m.symbols[j].undefined
                     && (m.symbols[j].global || m.symbols[j].weak || m.symbols[j].indirect || m.symbols[j].common))|
  }

  /** The map has for each member the symbols it exports, under the position at which the reader finds it. */
  ghost predicate MapLists(defs: seq<Symdef>, ms: seq<Member>, es: seq<Element>) {
    |es| <= |ms| && forall k :: 0 <= k < |es| ==> ListsExported(defs, es[k], ms[|ms| - |es| + k])
  }

  ghost predicate ListsExported(defs: seq<Symdef>, e: Element, m: Member) {
    HEADER <= e.origin && forall name :: Mentions(defs, e.origin - HEADER, name) == Exported(m, name)
  }

  lemma MentionsOf(first: nat, fs: seq<Member>, k: nat, name: seq<Byte>)
    requires first % 2 == 0 && k < |fs| && InOrder(Collected(fs, |fs|), |fs|)
    ensures Mentions(Expected(first, fs, Collected(fs, |fs|)), Offset(first, fs, k), name) == Exported(fs[k], name)
  {
    hide Collected, Offset;
    var es, at := Collected(fs, |fs|), Offset(first, fs, k);
    var defs := Expected(first, fs, es);
    forall i: nat | i < |es| ensures es[i].pos < |fs| && (defs[i].offset == at <==> es[i].pos == k) {
      assert Follows(es, i, |fs|);
      OffsetsGrow(first, fs, if es[i].pos < k then es[i].pos else k, if es[i].pos < k then k else es[i].pos);
    }
    assert (set i: nat | i < |defs| && defs[i].name == name && defs[i].offset == at)
        == (set i: nat | i < |es| && es[i].name == name && es[i].pos == k);
    MapIsComplete(fs, name, k);
  }

  lemma MapListsAll(t: Naming, ms: seq<Member>, fs: seq<Member>, makemap: bool, es: seq<Element>, first: nat)
    requires LosesOldMaps(ms, fs, makemap) && |es| == |fs| && Follow(es, Stops(first, fs, StoredNames(t, fs)))
    requires first % 2 == 0 && InOrder(Collected(fs, |fs|), |fs|)
    ensures MapLists(Expected(first, fs, Collected(fs, |fs|)), ms, es)
  {
    hide Collected, Offset, Expected, ListsExported, IsTail, OldMapsEnd, Follow, Stops, StoredNames;
    IsTailShort(ms, fs);
    forall k | 0 <= k < |es|
      ensures ListsExported(Expected(first, fs, Collected(fs, |fs|)), es[k], ms[|ms| - |es| + k]) {
      OriginOf(first, fs, StoredNames(t, fs), es, k);
      TailMember(ms, fs, k);
      OneListed(first, fs, k, es[k], ms[|ms| - |es| + k]);
    }
  }

  lemma OriginOf(first: nat, fs: seq<Member>, names: seq<seq<Byte>>, es: seq<Element>, k: nat)
    requires |names| == |fs| && Follow(es, Stops(first, fs, names)) && k < |es|
    ensures es[k].origin == Offset(first, fs, k) + HEADER && es[k].size == |fs[k].data| && es[k].name == names[k]
  {
    hide Offset;
    assert Visited(es[k], Stops(first, fs, names)[k]);
  }

  lemma TailMember(ms: seq<Member>, fs: seq<Member>, k: nat)
    requires IsTail(ms, fs) && k < |fs|
    ensures fs[k] == ms[|ms| - |fs| + k].(header := fs[k].header)
  {
    hide IsHeader;
    assert SameButName(ms[|ms| - |fs| + k], fs[k]);
  }

  lemma OneListed(first: nat, fs: seq<Member>, k: nat, e: Element, m: Member)
    requires first % 2 == 0 && k < |fs| && InOrder(Collected(fs, |fs|), |fs|)
    requires e.origin == Offset(first, fs, k) + HEADER && fs[k] == m.(header := fs[k].header)
    ensures ListsExported(Expected(first, fs, Collected(fs, |fs|)), e, m)
  {
    hide Collected, Offset, Expected, Mentions, Exported;
    var defs, at := Expected(first, fs, Collected(fs, |fs|)), Offset(first, fs, k);
    forall name ensures Mentions(defs, at, name) == Exported(m, name) {
      MentionsOf(first, fs, k, name);
      ExportedSame(m, fs[k], name);
    }
    assert at == e.origin - HEADER;
  }

  lemma ExportedSame(m: Member, r: Member, name: seq<Byte>)
    requires r == m.(header := r.header)
    ensures Exported(r, name) == Exported(m, name)
  {
  }

  /** An archive that was written opens, and the walk gives back all members, in order, with the names and contents
      that went in, but for leading members named like a map if there is to be one. The map has, under the position of
      each, the symbols it exports. */
  method WriteAndRead(t: Target, ms: seq<Member>, stamp: seq<Byte>, makemap: bool)
    returns (a: Archive, r: Reader, es: seq<Element>)
    requires Faithful(t, stamp, ms, makemap)
    ensures a.file == r.file == Written(PlanOf(t, stamp, ms, makemap), makemap && HasObjects(ms))
    ensures GivesBack(t.naming, ms, makemap, a.file, es)
    ensures forall i, k :: 0 <= i < k < |es| ==> es[i].origin + es[i].size <= es[k].origin
    ensures makemap && (exists i :: 0 <= i < |ms| && ms[i].isObject) ==>
      r.symdefs.Some? && MapLists(r.symdefs.value, ms, es)
  {
    hide Written, Faithful, PlanOf, LosesOldMaps, GivesBack, MapLists, Expected, Follow, HasObjects;
    ghost var fs, first;
    a, r, es, fs, first := WriteThenRead(t, ms, stamp, makemap);
    AllGivenBack(t.naming, ms, fs, makemap, a.file, es, first);
    InWalkOrder(fs, StoredNames(t.naming, fs), es, first);
    if r.symdefs.Some? {
      MapListsAll(t.naming, ms, fs, makemap, es, first);
    }
  }

  lemma InWalkOrder(fs: seq<Member>, names: seq<seq<Byte>>, es: seq<Element>, first: nat)
    requires |es| == |fs| == |names| && Follow(es, Stops(first, fs, names)) && first % 2 == 0
    ensures forall i, k :: 0 <= i < k < |es| ==> es[i].origin + es[i].size <= es[k].origin
  {
    hide Offset;
    hide Follow, Stops;
    forall i, k | 0 <= i < k < |es| ensures es[i].origin + es[i].size <= es[k].origin {
      OriginOf(first, fs, names, es, i);
      OriginOf(first, fs, names, es, k);
      OffsetStep(first, fs, i);
      OffsetsGrow(first, fs, i + 1, k);
    }
  }

  lemma OffsetStep(first: nat, fs: seq<Member>, i: nat)
    requires i < |fs|
    ensures Offset(first, fs, i + 1) == Offset(first, fs, i) + MemberSize(fs[i])
  {
  }

  /** The same in terms of the archive's members and where they start. */
  method WriteThenRead(t: Target, ms: seq<Member>, stamp: seq<Byte>, makemap: bool)
    returns (a: Archive, r: Reader, es: seq<Element>, ghost fs: seq<Member>, ghost first: nat)
    requires Faithful(t, stamp, ms, makemap)
    ensures a.file == r.file == Written(PlanOf(t, stamp, ms, makemap), makemap && HasObjects(ms))
    ensures LosesOldMaps(ms, fs, makemap) && InOrder(Collected(fs, |fs|), |fs|) && first % 2 == 0
    ensures |es| == |fs| && Follow(es, Stops(first, fs, StoredNames(t.naming, fs)))
    ensures forall k :: 0 <= k < |es| ==> Holds(a.file, es[k].origin, fs[k].data)
    ensures makemap && (exists i :: 0 <= i < |ms| && ms[i].isObject) ==>
      r.symdefs == Some(Expected(first, fs, Collected(fs, |fs|)))
  {
    ghost var p := PlanOf(t, stamp, ms, makemap);
    ghost var map_ := makemap && HasObjects(ms);
    PreludeEven(p, map_);
    fs, first := p.members, |Prelude(p, map_)|;
    a := new Archive(t, ms);
    a.WriteContents(stamp, makemap);
    FaithfulUnderstood(t, stamp, ms, makemap);
    r, es := OpenAndWalk(t, a.file, Prelude(p, map_), fs, StoredNames(t.naming, fs), NamesOf(p));
    if map_ {
      MapOfWritten(p, a.file);
    }
  }
}
