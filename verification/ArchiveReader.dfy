/** Reading an archive: headers, symbol map, name table, elements and their cache. */
module ArchiveReader {
  import opened Words
  import opened ArchiveFormat
  import opened ArchiveMap
  import opened ArchiveNames

  // ---- what is read ----

  /** A member header as read: no more members, a malformed archive, or a member with its name, the `unsigned`
      size of its contents and their position. */
  datatype Header = NoMore | Malformed | Header(name: seq<Byte>, size: nat, origin: nat)

  /** A name of the table; an index before the table leads nowhere here. */
  function NameInTable(table: seq<Byte>, index: int): seq<Byte> {
    if index < 0 then [] else CString(table, index)
  }

  /** `_bfd_generic_read_ar_hdr_mag` at position `at`. */
  function HeaderAt(t: Naming, file: seq<Byte>, table: Option<seq<Byte>>, at: nat): (r: Header)
    requires GoodNaming(t)
    ensures r.Header? ==> at + HEADER <= r.origin <= |file|
  {
    if at + HEADER > |file| then NoMore
    else HeaderFrom(t, file, table, at, file[at..at + HEADER])
  }

  function HeaderFrom(t: Naming, file: seq<Byte>, table: Option<seq<Byte>>, at: nat, h: seq<Byte>): (r: Header)
    requires GoodNaming(t) && |h| == HEADER && at + HEADER <= |file|
    ensures r.Header? ==> at + HEADER <= r.origin <= |file|
  {
    var size := ParsedSize(h);
    if !IsHeader(h) || !InRange(size) then Malformed
    else
      match NameOf(t, h, table.Some?)
      case Extended(index) =>
        if InRange(index) then Header(NameInTable(table.value, index), Wrap(size), at + HEADER) else Malformed
      case Following(count) =>
        if at + HEADER + count > |file| then NoMore
        else Header(CString(file[at + HEADER..at + HEADER + count], 0), Wrap(size - count), at + HEADER + count)
      case InPlace(name) =>
        Header(name, Wrap(size), at + HEADER)
  }

  lemma {:induction false} CStringOf(s: seq<Byte>, at: nat, n: seq<Byte>)
    requires 0 !in n && Holds(s, at, n) && (at + |n| < |s| ==> s[at + |n|] == 0)
    ensures CString(s, at) == n
    decreases |n|
  {
    if |n| > 0 {
      assert s[at] == n[0] && n[0] in n;
      assert Holds(s, at + 1, n[1..]) by {
        assert forall k :: 0 <= k < |n[1..]| ==> n[1..][k] == n[k + 1];
      }
      CStringOf(s, at + 1, n[1..]);
    }
  }

  /** A member as BSD 4.4 writes it: the field has `#1/` and the length of the name, which stands behind the header,
      perhaps with NULs, and counts as part of the size. Its contents are what is behind the name. */
  lemma NameFollows(t: Naming, file: seq<Byte>, table: Option<seq<Byte>>, at: nat, h: seq<Byte>, n: seq<Byte>,
                    nuls: seq<Byte>, size: nat)
    requires GoodNaming(t) && IsHeader(h) && h[..3] == [35, 49, 47] && IsDigit(h[3])
    requires Strtol(h[3..]) == |n| + |nuls| && ParsedSize(h) == |n| + |nuls| + size < LIMIT
    requires 0 !in n && (|nuls| > 0 ==> nuls[0] == 0) && Holds(file, at, h + n + nuls)
    ensures HeaderAt(t, file, table, at) == Header(n, size, at + HEADER + |n| + |nuls|)
  {
    var field := n + nuls;
    var from := at + HEADER;
    assert h + n + nuls == h + field;
    HeldTwo(file, at, h, field);
    HeldSlice(file, at, h);
    HeldSlice(file, from, field);
    assert h[0] == h[..3][0] && h[1] == h[..3][1] && h[2] == h[..3][2];
    assert Holds(field, 0, n);
    CStringOf(field, 0, n);
    assert HeaderAt(t, file, table, at) == HeaderFrom(t, file, table, at, h);
    assert NameOf(t, h, table.Some?) == Following(|field|);
  }

  lemma HeldTwo(file: seq<Byte>, at: nat, a: seq<Byte>, b: seq<Byte>)
    requires Holds(file, at, a + b)
    ensures Holds(file, at, a) && Holds(file, at + |a|, b)
  {
    var s := a + b;
    assert forall k :: 0 <= k < |a| ==> s[k] == a[k];
    assert forall k :: 0 <= k < |b| ==> s[|a| + k] == b[k];
  }

  /** The first even position from `n` on. */
  function RoundUp(n: nat): (r: nat)
    ensures r % 2 == 0 && n <= r <= n + 1
  {
    n + n % 2
  }

  const ARMAGB: seq<Byte> := [33, 60, 98, 111, 117, 116, 62, 10]
  /** The name fields that a reader knows; the writer pads its shorter names to them. */
  const MAP_NAME: seq<Byte> := [95, 95, 46, 83, 89, 77, 68, 69, 70, 32, 32, 32, 32, 32, 32, 32]
  const OLD_MAP_NAME: seq<Byte> := [95, 95, 46, 83, 89, 77, 68, 69, 70, 47, 32, 32, 32, 32, 32, 32]
  const COFF_MAP_NAME: seq<Byte> := [47, 32, 32, 32, 32, 32, 32, 32, 32, 32, 32, 32, 32, 32, 32, 32]
  const SYM64_NAME: seq<Byte> := [47, 83, 89, 77, 54, 52, 47, 32, 32, 32, 32, 32, 32, 32, 32, 32]
  const BSD_TABLE_NAME: seq<Byte> := [65, 82, 70, 73, 76, 69, 78, 65, 77, 69, 83, 47, 32, 32, 32, 32]
  const SLASH_TABLE_NAME: seq<Byte> := [47, 47, 32, 32, 32, 32, 32, 32, 32, 32, 32, 32, 32, 32, 32, 32]

  function UpTo(file: seq<Byte>, at: nat, n: nat): seq<Byte> {
    if at >= |file| then [] else if at + n <= |file| then file[at..at + n] else file[at..]
  }

  /** The symbol map at the head of an archive: none, a refusal, a map of the COFF kind, or symbols and the
      position behind them. */
  datatype MapRead = NoMap | BadMap | CoffMap | BsdMap(defs: seq<Symdef>, end: nat)

  function MapOf(t: Naming, big: bool, file: seq<Byte>): MapRead
    requires GoodNaming(t)
  {
    var name := UpTo(file, SARMAG, 16);
    if |name| == 0 then NoMap
    else if |name| < 16 then BadMap
    else if name == MAP_NAME || name == OLD_MAP_NAME then BsdMapOf(t, big, file)
    else if name == COFF_MAP_NAME then CoffMap
    else if name == SYM64_NAME then BadMap
    else NoMap
  }

  function BsdMapOf(t: Naming, big: bool, file: seq<Byte>): MapRead
    requires GoodNaming(t)
  {
    match HeaderAt(t, file, None, SARMAG)
    case Header(_, size, origin) =>
      if origin + size > |file| then BadMap
      else
        (match Slurp(big, file[origin..origin + size])
         case WrongFormat => BadMap
         case Symdefs(defs) => BsdMap(defs, RoundUp(origin + size)))
    case _ => BadMap
  }

  /** The name table, if one stands at `first`. */
  datatype TableRead = NoTable | BadTable | NameTable(raw: seq<Byte>, end: nat)

  function TableOf(t: Naming, file: seq<Byte>, first: nat): TableRead
    requires GoodNaming(t)
  {
    var name := UpTo(file, first, 16);
    if name != BSD_TABLE_NAME && name != SLASH_TABLE_NAME then NoTable
    else TableContents(file, HeaderAt(t, file, None, first))
  }

  function TableContents(file: seq<Byte>, h: Header): TableRead {
    match h
    case Header(_, size, origin) =>
      if origin + size > |file| then BadTable
      else NameTable(file[origin..origin + size], RoundUp(origin + size))
    case _ => BadTable
  }

  /** The clean-up looks before a newline, so a table must not begin with one. */
  predicate StartsWell(r: TableRead) {
    r.NameTable? && |r.raw| > 0 ==> r.raw[0] != NEWLINE
  }

  /** What opening a file as an archive leads to. */
  datatype Opened = Foreign | Refused | Unmodelled | Recognized(first: nat, names: Option<seq<Byte>>)

  function AfterMap(t: Naming, big: bool, file: seq<Byte>): nat
    requires GoodNaming(t)
  {
    match MapOf(t, big, file)
    case BsdMap(_, end) => end
    case _ => SARMAG
  }

  function OpenedAs(t: Naming, big: bool, file: seq<Byte>): Opened
    requires GoodNaming(t)
  {
    if UpTo(file, 0, SARMAG) != ARMAG && UpTo(file, 0, SARMAG) != ARMAGB then Foreign
    else
      match MapOf(t, big, file)
      case BadMap => Refused
      case CoffMap => Unmodelled
      case _ =>
        (match TableOf(t, file, AfterMap(t, big, file))
         case NoTable => Recognized(AfterMap(t, big, file), None)
         case BadTable => Refused
         case NameTable(raw, end) => Recognized(end, Some(Clean(raw))))
  }

  /** What the first bytes of a file decide: whether it is an archive, and by the first name field of 16 bytes, what
      kind of symbol map it has. */
  lemma HeadDecides(t: Naming, big: bool, file: seq<Byte>)
    requires GoodNaming(t)
    ensures OpenedAs(t, big, file) == Foreign
       <==> !(|file| >= 8 && (file[..8] == [33, 60, 97, 114, 99, 104, 62, 10]
                              || file[..8] == [33, 60, 98, 111, 117, 116, 62, 10]))
    ensures |file| <= 8 ==> MapOf(t, big, file) == NoMap
    ensures 8 < |file| < 24 ==> MapOf(t, big, file) == BadMap
    ensures |file| >= 24 ==>
      var slash, symdef := [47] + seq(15, _ => 32), [95, 95, 46, 83, 89, 77, 68, 69, 70];
      var sym64 := [47, 83, 89, 77, 54, 52, 47] + seq(9, _ => 32);
      var m, name: seq<int> := MapOf(t, big, file), file[8..24];
      if name == symdef + seq(7, _ => 32) || name == symdef + [47] + seq(6, _ => 32) then m.BsdMap? || m.BadMap?
      else if name == slash then m == CoffMap
      else if name == sym64 then m == BadMap
      else m == NoMap
    ensures MapOf(t, big, file) == BadMap && |file| >= 8 && file[..8] == [33, 60, 97, 114, 99, 104, 62, 10]
            ==> OpenedAs(t, big, file) == Refused
  {
    hide TableOf, BsdMapOf;
    BsdMapKind(t, big, file);
  }

  lemma BsdMapKind(t: Naming, big: bool, file: seq<Byte>)
    requires GoodNaming(t)
    ensures BsdMapOf(t, big, file).BsdMap? || BsdMapOf(t, big, file).BadMap?
  {
    hide HeaderAt, Slurp;
  }

  // ---- elements ----

  /** An element opened from an archive. */
  class Element {
    const name: seq<Byte>
    const size: nat
    const origin: nat

    constructor (name: seq<Byte>, size: nat, origin: nat)
      ensures this.name == name && this.size == size && this.origin == origin
    {
      this.name, this.size, this.origin := name, size, origin;
    }
  }

  /** The next member starts beyond this one exactly when the size is not so negative that it leads back, and not
      so large that the position overflows. A walk over an archive with another size field need not end. */
  lemma WalkAdvances(at: nat, size: int)
    requires at % 2 == 0 && at + HEADER < LIMIT && InRange(size)
    ensures NextStart(at + HEADER, Wrap(size)) > at
            <==> -HEADER < size && at + HEADER + size + (at + HEADER + size) % 2 < LIMIT
  {
    var x := at + HEADER + size;
    SignedOf(at + HEADER, size);
    SignedNear(x);
    RoundedStart(x);
  }

  lemma SignedOf(o: nat, size: int)
    ensures Signed(o + Wrap(size)) == Signed(o + size)
  {
    AddMultiple(o + Wrap(size), size / WORD, WORD);
  }

  lemma SignedNear(x: int)
    requires -LIMIT <= x < 2 * LIMIT
    ensures Signed(x) == if x < LIMIT then x else x - WORD
  {
  }

  /** Rounding keeps a start in its half of the range, but for the last odd position. */
  lemma RoundedStart(x: int)
    requires -LIMIT <= x < 2 * LIMIT
    ensures var s := if x < LIMIT then x else x - WORD;
            var r := Signed(s + (if s % 2 == 0 then 0 else if s < 0 then -1 else 1));
            r == if s == LIMIT - 1 then -LIMIT else if s % 2 == 0 then s else if s < 0 then s - 1 else s + 1
  {
  }

  datatype Cached = Cached(at: int, elt: Element)

  /** The element that a search from the head of the cache finds for a position. */
  function Look(cache: seq<Cached>, at: int): Element? {
    if |cache| == 0 then null else if cache[0].at == at then cache[0].elt else Look(cache[1..], at)
  }

  predicate Describes(e: Element, h: Header) {
    h == Header(e.name, e.size, e.origin)
  }

  /** Where the member after `e` starts, as a 32-bit `file_ptr`. */
  function NextStart(origin: nat, size: nat): int {
    var start := Signed(origin + size);
    Signed(start + (if start % 2 == 0 then 0 else if start < 0 then -1 else 1))
  }

  class Reader {
    const naming: Naming
    const big: bool
    const file: seq<Byte>
    var where: nat
    var first: nat
    var symdefs: Option<seq<Symdef>>
    var names: Option<seq<Byte>>
    var cache: seq<Cached>

    constructor (naming: Naming, big: bool, file: seq<Byte>)
      requires GoodNaming(naming)
      ensures this.naming == naming && this.big == big && this.file == file && where == 0
      ensures first == SARMAG && symdefs == None && names == None && cache == []
    {
      this.naming, this.big, this.file, where := naming, big, file, 0;
      first, symdefs, names, cache := SARMAG, None, None, [];
    }

    /** The cache holds at most one element for a position, and the one that would be read there. */
    ghost predicate Valid()
      reads this
    {
      && GoodNaming(naming)
      && (forall i, j :: 0 <= i < j < |cache| ==> cache[i].at != cache[j].at)
      && (forall i :: 0 <= i < |cache| ==> Right(cache[i].elt, cache[i].at))
    }

    ghost predicate Right(e: Element, at: int)
      requires GoodNaming(naming)
      reads this
    {
      at >= 0 && Describes(e, HeaderAt(naming, file, names, at))
    }

    method Read(n: nat) returns (b: seq<Byte>)
      modifies this`where
      ensures b == UpTo(file, old(where), n) && where == old(where) + |b|
    {
      b := UpTo(file, where, n);
      where := where + |b|;
    }

    /** The header at the current position, which ends up before the contents. */
    method ReadHeader() returns (r: Header)
      requires GoodNaming(naming)
      modifies this`where
      ensures r == HeaderAt(naming, file, names, old(where))
      ensures r.Header? ==> where == r.origin
    {
      var h := Read(HEADER);
      if |h| != HEADER {
        return NoMore;
      }
      if h[58..] != ARFMAG {
        return Malformed;
      }
      var size := ParsedSize(h);
      if !InRange(size) {
        return Malformed;
      }
      if (h[0] == SLASH || (h[0] == SPACE && SLASH !in h[..naming.maxname])) && names.Some? {
        var index := Strtol(h[1..]);
        if !InRange(index) {
          return Malformed;
        }
        r := Header(NameInTable(names.value, index), Wrap(size), where);
      } else if IsBsd44(h) {
        var namelen := Strtol(h[3..]);
        var name := Read(namelen);
        if |name| != namelen {
          return NoMore;
        }
        r := Header(CString(name, 0), Wrap(size - namelen), where);
      } else {
        var namelen := ScanName(naming, h);
        r := Header(h[..namelen], Wrap(size), where);
      }
    }

    /** `bfd_slurp_armap`. */
    method SlurpArmap() returns (r: MapRead)
      requires GoodNaming(naming) && where == SARMAG && first == SARMAG && names == None
      modifies this
      ensures r == MapOf(naming, big, file) && names == None && cache == old(cache)
      ensures r.BsdMap? ==> first == r.end && symdefs == Some(r.defs)
      ensures !r.BsdMap? ==> first == SARMAG && symdefs == old(symdefs)
    {
      var nextname := Read(16);
      if |nextname| == 0 {
        return NoMap;
      }
      if |nextname| != 16 {
        return BadMap;
      }
      where := where - 16;
      if nextname == MAP_NAME || nextname == OLD_MAP_NAME {
        r := SlurpBsdMap();
      } else if nextname == COFF_MAP_NAME {
        r := CoffMap;
      } else if nextname == SYM64_NAME {
        r := BadMap;
      } else {
        r := NoMap;
      }
    }

    method SlurpBsdMap() returns (r: MapRead)
      requires GoodNaming(naming) && where == SARMAG && first == SARMAG && names == None
      modifies this
      ensures r == BsdMapOf(naming, big, file) && names == None && cache == old(cache)
      ensures r.BsdMap? ==> first == r.end && symdefs == Some(r.defs)
      ensures !r.BsdMap? ==> first == SARMAG && symdefs == old(symdefs)
    {
      hide HeaderAt, Slurp;
      var mapdata := ReadHeader();
      if !mapdata.Header? {
        return BadMap;
      }
      var raw := Read(mapdata.size);
      if |raw| != mapdata.size {
        return BadMap;
      }
      var s := SlurpMap(big, raw);
      if s.WrongFormat? {
        return BadMap;
      }
      symdefs := Some(s.defs);
      first := where + where % 2;
      r := BsdMap(s.defs, first);
    }

    /** `_bfd_slurp_extended_name_table`. */
    method SlurpTable() returns (r: TableRead)
      requires GoodNaming(naming) && names == None && StartsWell(TableOf(naming, file, first))
      modifies this
      ensures r == TableOf(naming, file, old(first)) && symdefs == old(symdefs) && cache == old(cache)
      ensures r.NameTable? ==> first == r.end && names == Some(Clean(r.raw))
      ensures !r.NameTable? ==> first == old(first) && names == None
    {
      where := first;
      var nextname := Read(16);
      if |nextname| != 16 {
        return NoTable;
      }
      where := where - 16;
      if nextname != BSD_TABLE_NAME && nextname != SLASH_TABLE_NAME {
        return NoTable;
      }
      var namedata := ReadHeader();
      r := ReadTable(namedata);
    }

    method ReadTable(namedata: Header) returns (r: TableRead)
      requires StartsWell(TableContents(file, namedata)) && (namedata.Header? ==> where == namedata.origin <= |file|)
      modifies this`where, this`first, this`names
      ensures r == TableContents(file, namedata)
      ensures r.NameTable? ==> first == r.end && names == Some(Clean(r.raw))
      ensures !r.NameTable? ==> first == old(first) && names == old(names)
    {
      if !namedata.Header? {
        return BadTable;
      }
      var raw := Read(namedata.size);
      if |raw| != namedata.size {
        return BadTable;
      }
      var table := new Byte[|raw|](i requires 0 <= i < |raw| => raw[i]);
      assert table[..] == raw;
      CleanNames(table);
      names := Some(table[..]);
      first := where + where % 2;
      r := NameTable(raw, first);
    }

    /** `bfd_generic_archive_p`, without its look at the first member. */
    method Open() returns (r: Opened)
      requires GoodNaming(naming) && where == 0 && first == SARMAG && names == None && cache == []
      requires StartsWell(TableOf(naming, file, AfterMap(naming, big, file)))
      modifies this
      ensures r == OpenedAs(naming, big, file) && cache == []
      ensures r.Recognized? ==> first == r.first && names == r.names
      ensures r.Recognized? && MapOf(naming, big, file).BsdMap? ==> symdefs == Some(MapOf(naming, big, file).defs)
    {
      var armag := Read(SARMAG);
      if armag != ARMAG && armag != ARMAGB {
        return Foreign;
      }
      var m := SlurpArmap();
      if m.BadMap? || m.CoffMap? {
        return if m.BadMap? then Refused else Unmodelled;
      }
      var t := SlurpTable();
      r := if t.BadTable? then Refused else Recognized(first, names);
    }

    /** `_bfd_look_for_bfd_in_cache`. */
    method LookInCache(filepos: int) returns (e: Element?)
      ensures e == Look(cache, filepos)
    {
      for i := 0 to |cache|
        invariant Look(cache, filepos) == Look(cache[i..], filepos)
      {
        if cache[i].at == filepos {
          return cache[i].elt;
        }
      }
      e := null;
    }

    /** `_bfd_get_elt_at_filepos`: the cached element, or a new one that enters the cache at its end. */
    method GetElement(filepos: int) returns (e: Element?)
      requires Valid()
      modifies this`where, this`cache
      ensures Valid()
      ensures e == Look(cache, filepos)
      ensures e == null <==> filepos < 0 || !HeaderAt(naming, file, names, filepos).Header?
      ensures e != null ==> filepos >= 0 && Describes(e, HeaderAt(naming, file, names, filepos))
      ensures cache == if e == null || Look(old(cache), filepos) != null then old(cache)
                       else old(cache) + [Cached(filepos, e)]
    {
      hide HeaderAt;
      e := LookInCache(filepos);
      if e != null {
        LookFinds(cache, filepos);
        return;
      }
      if filepos < 0 {
        return null;
      }
      where := filepos;
      var hdr := ReadHeader();
      if !hdr.Header? {
        return null;
      }
      e := new Element(hdr.name, hdr.size, hdr.origin);
      NotThere(cache, filepos);
      LookAtEnd(cache, Cached(filepos, e), filepos);
      cache := cache + [Cached(filepos, e)];
    }

    /** `bfd_generic_openr_next_archived_file`. */
    method NextElement(last: Element?) returns (e: Element?)
      requires Valid()
      modifies this`where, this`cache
      ensures Valid() && old(cache) <= cache
      ensures var start := if last == null then first else NextStart(last.origin, last.size);
              && e == Look(cache, start)
              && (e == null <==> start < 0 || !HeaderAt(naming, file, names, start).Header?)
              && (e != null ==> start >= 0 && Describes(e, HeaderAt(naming, file, names, start)))
    {
      if last == null {
        e := GetElement(first);
      } else {
        e := GetElement(NextStart(last.origin, last.size));
      }
    }

    /** Any requests for elements, in any order: the same position always leads to the same element. */
    method GetElements(at: seq<int>) returns (es: seq<Element?>)
      requires Valid()
      modifies this`where, this`cache
      ensures Valid() && |es| == |at|
      ensures forall i, j :: 0 <= i < |at| && 0 <= j < |at| && at[i] == at[j] ==> es[i] == es[j]
      ensures forall i :: 0 <= i < |at| ==> es[i] == Look(cache, at[i])
    {
      hide HeaderAt, Look, Right;
      es := [];
      for i := 0 to |at|
        invariant Valid() && Answers(es, at[..i])
      {
        ghost var before := cache;
        var e := GetElement(at[i]);
        StillAnswers(before, es, at[..i]);
        assert at[..i + 1] == at[..i] + [at[i]];
        es := es + [e];
      }
      assert at[..|at|] == at;
    }

    /** These elements are what the cache has for these positions; there is none only where no header is. */
    ghost predicate Answers(es: seq<Element?>, at: seq<int>)
      requires GoodNaming(naming)
      reads this
    {
      && |es| == |at|
      && (forall k :: 0 <= k < |at| ==> es[k] == Look(cache, at[k]))
      && (forall k :: 0 <= k < |at| ==> (es[k] == null <==> Missing(at[k])))
    }

    lemma StillAnswers(before: seq<Cached>, es: seq<Element?>, at: seq<int>)
      requires Valid() && before <= cache && |es| == |at|
      requires forall k :: 0 <= k < |at| ==> es[k] == Look(before, at[k]) && (es[k] == null <==> Missing(at[k]))
      ensures Answers(es, at)
    {
      forall k | 0 <= k < |at| ensures es[k] == Look(cache, at[k]) {
        if es[k] == null {
          StaysMissing(at[k]);
        } else {
          LookInPrefix(before, cache, at[k]);
        }
      }
    }

    ghost predicate Missing(at: int)
      requires GoodNaming(naming)
      reads this
    {
      at < 0 || !HeaderAt(naming, file, names, at).Header?
    }

    lemma StaysMissing(at: int)
      requires Valid() && Missing(at)
      ensures Look(cache, at) == null
    {
      if Look(cache, at) != null {
        LookFinds(cache, at);
      }
    }
  }

  lemma {:induction false} LookFinds(cache: seq<Cached>, at: int)
    requires Look(cache, at) != null
    ensures exists i :: 0 <= i < |cache| && cache[i] == Cached(at, Look(cache, at))
  {
    if cache[0].at != at {
      LookFinds(cache[1..], at);
      var i :| 0 <= i < |cache[1..]| && cache[1..][i] == Cached(at, Look(cache, at));
      assert cache[i + 1] == Cached(at, Look(cache, at));
    } else {
      assert cache[0] == Cached(at, Look(cache, at));
    }
  }

  lemma {:induction false} NotThere(cache: seq<Cached>, at: int)
    requires Look(cache, at) == null
    ensures forall i :: 0 <= i < |cache| ==> cache[i].at != at
  {
    if |cache| > 0 {
      NotThere(cache[1..], at);
      forall i | 0 <= i < |cache| ensures cache[i].at != at {
        assert i > 0 ==> cache[1..][i - 1] == cache[i];
      }
    }
  }

  lemma {:induction false} LookAtEnd(cache: seq<Cached>, c: Cached, at: int)
    requires Look(cache, at) == null && c.at == at
    ensures Look(cache + [c], at) == c.elt
  {
    if |cache| > 0 {
      assert (cache + [c])[1..] == cache[1..] + [c];
      LookAtEnd(cache[1..], c, at);
    }
  }

  lemma {:induction false} LookInPrefix(a: seq<Cached>, b: seq<Cached>, at: int)
    requires a <= b && Look(a, at) != null
    ensures Look(b, at) == Look(a, at)
  {
    if a[0].at != at {
      LookInPrefix(a[1..], b[1..], at);
    }
  }
}
