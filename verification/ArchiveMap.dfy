/** The BSD symbol map of an archive: collecting the symbols, predicting where members will be written, and
    reading the map back. */
module ArchiveMap {
  import opened Words
  import opened ArchiveFormat

  // ---- collecting the symbols ----

  /** One record of the map under construction; `pos` is the index in the chain of the defining member. */
  datatype Entry = Entry(name: seq<Byte>, pos: nat, namidx: nat)

  predicate Wanted(s: Symbol) {
    (s.global || s.weak || s.indirect || s.common) && !s.undefined
  }

  /** The names with their terminating NULs. */
  function Strings(es: seq<Entry>): seq<Byte> {
    if |es| == 0 then [] else Strings(es[..|es| - 1]) + es[|es| - 1].name + [0]
  }

  function Append(es: seq<Entry>, name: seq<Byte>, pos: nat): seq<Entry> {
    es + [Entry(name, pos, |Strings(es)|)]
  }

  function Pick(es: seq<Entry>, syms: seq<Symbol>, n: nat, pos: nat): seq<Entry>
    requires n <= |syms|
  {
    if n == 0 then es
    else
      var p := Pick(es, syms, n - 1, pos);
      if Wanted(syms[n - 1]) then Append(p, syms[n - 1].name, pos) else p
  }

  function Collected(ms: seq<Member>, k: nat): seq<Entry>
    requires k <= |ms|
  {
    if k == 0 then []
    else if ms[k - 1].isObject then Pick(Collected(ms, k - 1), ms[k - 1].symbols, |ms[k - 1].symbols|, k - 1)
    else Collected(ms, k - 1)
  }

  method CollectSymbols(ms: seq<Member>) returns (map_: seq<Entry>, stridx: nat)
    ensures map_ == Collected(ms, |ms|) && stridx == |Strings(map_)|
  {
    map_, stridx := [], 0;
    for i := 0 to |ms|
      invariant map_ == Collected(ms, i) && stridx == |Strings(map_)|
    {
      if ms[i].isObject {
        var syms := ms[i].symbols;
        for j := 0 to |syms|
          invariant map_ == Pick(Collected(ms, i), syms, j, i) && stridx == |Strings(map_)|
        {
          if Wanted(syms[j]) {
            StringsOfAppend(map_, syms[j].name, i);
            map_ := map_ + [Entry(syms[j].name, i, stridx)];
            stridx := stridx + |syms[j].name| + 1;
          }
        }
      }
    }
  }

  lemma StringsOfAppend(es: seq<Entry>, name: seq<Byte>, pos: nat)
    ensures Strings(Append(es, name, pos)) == Strings(es) + name + [0]
  {
    var t := Append(es, name, pos);
    assert t[..|t| - 1] == es;
  }

  /** Entries come in chain order, know where their name will stand, and belong to members before `k`. */
  predicate InOrder(es: seq<Entry>, k: nat) {
    (forall i :: 0 <= i < |es| ==> Follows(es, i, k)) && (forall i :: 0 <= i < |es| ==> KnowsName(es, i))
  }

  predicate Follows(es: seq<Entry>, i: nat, k: nat)
    requires i < |es|
  {
    es[i].pos < k && (i > 0 ==> es[i - 1].pos <= es[i].pos)
  }

  predicate KnowsName(es: seq<Entry>, i: nat)
    requires i < |es|
  {
    es[i].namidx == |Strings(es[..i])|
  }

  lemma AppendInOrder(es: seq<Entry>, name: seq<Byte>, pos: nat)
    requires InOrder(es, pos + 1)
    ensures InOrder(Append(es, name, pos), pos + 1)
  {
    var t := Append(es, name, pos);
    var k := pos + 1;
    forall i | 0 <= i < |t| ensures Follows(t, i, k) {
      assert i < |es| ==> Follows(es, i, k);
      assert 0 < i ==> Follows(es, i - 1, k);
    }
    forall i | 0 <= i < |t| ensures KnowsName(t, i) {
      assert t[..i] == if i < |es| then es[..i] else es;
      assert i < |es| ==> KnowsName(es, i);
    }
  }

  lemma InOrderWeaker(es: seq<Entry>, k: nat, l: nat)
    requires InOrder(es, k) && k <= l
    ensures InOrder(es, l)
  {
    forall i | 0 <= i < |es| ensures Follows(es, i, l) {
      assert Follows(es, i, k);
    }
  }

  lemma {:induction false} PickInOrder(es: seq<Entry>, syms: seq<Symbol>, n: nat, pos: nat)
    requires n <= |syms| && InOrder(es, pos + 1)
    ensures InOrder(Pick(es, syms, n, pos), pos + 1) && |es| <= |Pick(es, syms, n, pos)|
    ensures forall i :: 0 <= i < |es| ==> Pick(es, syms, n, pos)[i] == es[i]
  {
    if n > 0 {
      PickInOrder(es, syms, n - 1, pos);
      AppendInOrder(Pick(es, syms, n - 1, pos), syms[n - 1].name, pos);
    }
  }

  /** The map lists members in chain order and knows where each name starts. */
  lemma {:induction false} CollectedInOrder(ms: seq<Member>, k: nat)
    requires k <= |ms|
    ensures InOrder(Collected(ms, k), k)
  {
    if k > 0 {
      CollectedInOrder(ms, k - 1);
      InOrderWeaker(Collected(ms, k - 1), k - 1, k);
      if ms[k - 1].isObject {
        PickInOrder(Collected(ms, k - 1), ms[k - 1].symbols, |ms[k - 1].symbols|, k - 1);
      }
    }
  }

  /** The entries that list a name for a member. */
  function Listings(es: seq<Entry>, name: seq<Byte>, pos: nat): set<nat> {
    set i: nat | i < |es| && es[i].name == name && es[i].pos == pos
  }

  /** The wanted symbols of a name among the first `n`. */
  function Definitions(syms: seq<Symbol>, n: nat, name: seq<Byte>): set<nat>
    requires n <= |syms|
  {
    set j: nat | j < n && Wanted(syms[j]) && syms[j].name == name
  }

  lemma ListingsAfterAppend(es: seq<Entry>, name: seq<Byte>, pos: nat, n: seq<Byte>, p: nat)
    ensures |Listings(Append(es, name, pos), n, p)|
         == |Listings(es, n, p)| + if n == name && p == pos then 1 else 0
  {
    var t := Append(es, name, pos);
    assert Listings(t, n, p) == Listings(es, n, p) + if n == name && p == pos then {|es|} else {};
  }

  lemma OneMoreDefinition(syms: seq<Symbol>, n: nat, name: seq<Byte>)
    requires 0 < n <= |syms|
    ensures |Definitions(syms, n, name)|
         == |Definitions(syms, n - 1, name)| + if Wanted(syms[n - 1]) && syms[n - 1].name == name then 1 else 0
  {
    var one: set<nat> := if Wanted(syms[n - 1]) && syms[n - 1].name == name then {n - 1} else {};
    assert Definitions(syms, n, name) == Definitions(syms, n - 1, name) + one;
  }

  lemma {:induction false} PickComplete(es: seq<Entry>, syms: seq<Symbol>, n: nat, pos: nat, name: seq<Byte>, p: nat)
    requires n <= |syms|
    ensures |Listings(Pick(es, syms, n, pos), name, p)|
         == |Listings(es, name, p)| + if p == pos then |Definitions(syms, n, name)| else 0
  {
    hide Wanted, Listings, Append;
    if n > 0 {
      PickComplete(es, syms, n - 1, pos, name, p);
      ListingsAfterAppend(Pick(es, syms, n - 1, pos), syms[n - 1].name, pos, name, p);
      OneMoreDefinition(syms, n, name);
    } else {
      assert Definitions(syms, 0, name) == {};
    }
  }

  lemma {:induction false} AllListed(ms: seq<Member>, k: nat, name: seq<Byte>, p: nat)
    requires k <= |ms|
    ensures |Listings(Collected(ms, k), name, p)|
         == if p < k && ms[p].isObject then |Definitions(ms[p].symbols, |ms[p].symbols|, name)| else 0
  {
    hide Wanted, Definitions, Pick;
    if k > 0 {
      AllListed(ms, k - 1, name, p);
      if ms[k - 1].isObject {
        PickComplete(Collected(ms, k - 1), ms[k - 1].symbols, |ms[k - 1].symbols|, k - 1, name, p);
      }
    } else {
      assert Listings(Collected(ms, 0), name, p) == {};
    }
  }

  /** The map lists a name for a member once for each symbol of that name in it that is global, weak, indirect or
      common and not undefined, and not at all if the member is no object file. */
  lemma MapIsComplete(ms: seq<Member>, name: seq<Byte>, p: nat)
    ensures var es := Collected(ms, |ms|);
      |(set i: nat | i < |es| && es[i].name == name && es[i].pos == p)|
      == if p < |ms| && ms[p].isObject then
           |(set j: nat | && j < |ms[p].symbols| && ms[p].symbols[j].name == name && !ms[p].symbols[j].undefined
                          && (ms[p].symbols[j].global || ms[p].symbols[j].weak
                              || ms[p].symbols[j].indirect || ms[p].symbols[j].common))|
         else 0
  {
    AllListed(ms, |ms|, name, p);
    var es := Collected(ms, |ms|);
    assert (set i: nat | i < |es| && es[i].name == name && es[i].pos == p) == Listings(es, name, p);
    if p < |ms| {
      var syms := ms[p].symbols;
      assert (set j: nat | && j < |syms| && syms[j].name == name && !syms[j].undefined
                           && (syms[j].global || syms[j].weak || syms[j].indirect || syms[j].common))
          == Definitions(syms, |syms|, name);
    }
  }

  // ---- the bytes of the map ----

  const SYMDEF := 8
  const SARMAG := 8

  /** One record of the map, if members are written from `first` on. */
  function Record(big: bool, first: nat, ms: seq<Member>, e: Entry): (r: seq<Byte>)
    requires e.pos < |ms|
    ensures |r| == SYMDEF
  {
    Put32(big, e.namidx) + Put32(big, Offset(first, ms, e.pos))
  }

  function Records(big: bool, first: nat, ms: seq<Member>, es: seq<Entry>): (rs: seq<seq<Byte>>)
    requires InOrder(es, |ms|)
    ensures |rs| == |es|
  {
    seq(|es|, i requires 0 <= i < |es| => (assert Follows(es, i, |ms|); Record(big, first, ms, es[i])))
  }

  lemma RecordAt(big: bool, first: nat, ms: seq<Member>, es: seq<Entry>, i: nat)
    requires InOrder(es, |ms|) && i < |es|
    ensures es[i].pos < |ms| && Records(big, first, ms, es)[i] == Record(big, first, ms, es[i])
    ensures i > 0 ==> es[i - 1].pos <= es[i].pos
  {
    assert Follows(es, i, |ms|);
  }

  function EntryBytes(big: bool, first: nat, ms: seq<Member>, es: seq<Entry>): (b: seq<Byte>)
    requires InOrder(es, |ms|)
    ensures |b| == SYMDEF * |es|
  {
    ConcatUniform(Records(big, first, ms, es), SYMDEF);
    Concat(Records(big, first, ms, es))
  }

  lemma Front(es: seq<Entry>, n: nat, k: nat)
    requires n <= |es| && InOrder(es, k)
    ensures InOrder(es[..n], k)
  {
    forall i | 0 <= i < n ensures Follows(es[..n], i, k) {
      assert Follows(es, i, k);
    }
    forall i | 0 <= i < n ensures KnowsName(es[..n], i) {
      assert es[..n][..i] == es[..i] && KnowsName(es, i);
    }
  }

  function MapSize(es: seq<Entry>): nat {
    SYMDEF * |es| + |Strings(es)| + |Strings(es)| % 2 + 8
  }

  function MapBytes(big: bool, first: nat, ms: seq<Member>, es: seq<Entry>): (b: seq<Byte>)
    requires InOrder(es, |ms|)
    ensures |b| == MapSize(es)
  {
    var pad: seq<Byte> := if |Strings(es)| % 2 == 1 then [0] else [];
    Put32(big, SYMDEF * |es|) + EntryBytes(big, first, ms, es) + Put32(big, |Strings(es)| + |pad|) + Strings(es) + pad
  }

  /** The name table's share of the file: header, contents, padding. */
  function TableRoom(elength: nat): nat {
    if elength == 0 then 0 else HEADER + elength + elength % 2
  }

  /** `firstreal`: where the map says the first member will be. */
  function FirstReal(es: seq<Entry>, elength: nat): nat {
    MapSize(es) + TableRoom(elength) + HEADER + SARMAG
  }

  /** Record `i` of the written map. */
  lemma EntryAt(big: bool, first: nat, ms: seq<Member>, es: seq<Entry>, i: nat)
    requires InOrder(es, |ms|) && i < |es|
    ensures es[i].pos < |ms| && Holds(EntryBytes(big, first, ms, es), SYMDEF * i, Record(big, first, ms, es[i]))
  {
    var rs := Records(big, first, ms, es);
    RecordAt(big, first, ms, es, i);
    ConcatHolds(rs, i);
    ConcatUniform(rs[..i], SYMDEF);
  }

  /** Name `i` and its NUL stand where entry `i` says. */
  lemma {:induction false} NameAt(es: seq<Entry>, i: nat, k: nat)
    requires InOrder(es, k) && i < |es|
    ensures Holds(Strings(es), es[i].namidx, es[i].name + [0])
  {
    var n := |es| - 1;
    var front := Strings(es[..n]);
    assert KnowsName(es, n);
    assert Strings(es) == front + (es[n].name + [0]);
    if i < n {
      Front(es, n, k);
      NameAt(es[..n], i, k);
      HoldsMore(front, es[n].name + [0], es[i].namidx, es[i].name + [0]);
    } else {
      HoldsEnd(front, es[n].name + [0], []);
    }
  }

  // ---- reading the map ----

  /** A C string: the bytes before the first NUL. */
  function CString(s: seq<Byte>, at: nat): seq<Byte>
    decreases |s| - at
  {
    if at >= |s| || s[at] == 0 then [] else [s[at]] + CString(s, at + 1)
  }

  lemma {:induction false} CStringAt(s: seq<Byte>, at: nat, name: seq<Byte>)
    requires Holds(s, at, name + [0]) && 0 !in name
    ensures CString(s, at) == name
    decreases |name|
  {
    var b := name + [0];
    assert s[at] == b[0];
    if |name| > 0 {
      HoldsPart(s, at, b, 1, |b|);
      assert b[1..|b|] == name[1..] + [0];
      CStringAt(s, at + 1, name[1..]);
      assert name == [name[0]] + name[1..];
    }
  }

  datatype Symdef = Symdef(name: seq<Byte>, offset: nat)

  /** The table of symbols in a map's contents, or nothing if the count does not fit the size (as with the wrong
      byte order). Contents too short for a count are refused too. */
  datatype Slurped = WrongFormat | Symdefs(defs: seq<Symdef>)

  function SymdefAt(big: bool, raw: seq<Byte>, count: nat, i: nat): Symdef
    requires i < count && 4 + SYMDEF * count <= |raw|
  {
    var at := 4 + SYMDEF * i;
    var strings := 4 + SYMDEF * count + 4;
    Symdef(CString(raw, strings + Get32(big, raw[at..at + 4])), Get32(big, raw[at + 4..at + 8]))
  }

  function Slurp(big: bool, raw: seq<Byte>): Slurped {
    if |raw| < 4 then WrongFormat
    else
      var count := Get32(big, raw[..4]) / SYMDEF;
      if count * SYMDEF > |raw| - 4 then WrongFormat
      else Symdefs(seq(count, i requires 0 <= i < count => SymdefAt(big, raw, count, i)))
  }

  /** The bytes from a place up to the next NUL, or to the end. */
  predicate ReadsTo(raw: seq<Byte>, at: nat, name: seq<Byte>) {
    && 0 !in name && (at < |raw| ==> Holds(raw, at, name)) && (at >= |raw| ==> name == [])
    && (at + |name| < |raw| ==> raw[at + |name|] == 0)
  }

  lemma {:induction false} CStringReads(raw: seq<Byte>, at: nat)
    ensures ReadsTo(raw, at, CString(raw, at))
    decreases |raw| - at
  {
    if at < |raw| && raw[at] != 0 {
      var rest := CString(raw, at + 1);
      CStringReads(raw, at + 1);
      var name := CString(raw, at);
      assert name == [raw[at]] + rest;
      forall k | 0 <= k < |name| ensures at + k < |raw| && raw[at + k] == name[k] != 0 {
        if k > 0 {
          assert name[k] == rest[k - 1] && rest[k - 1] in rest && at + 1 < |raw|;
        }
      }
    }
  }

  /** Contents are refused exactly if they are too short for their records. Otherwise record `i` gives a position and
      the name that stands behind all records at its index. */
  lemma SlurpMeans(big: bool, raw: seq<Byte>)
    requires |raw| >= 4
    ensures var n := Get32(big, raw[..4]) / 8; var r := Slurp(big, raw);
      && (r.WrongFormat? <==> 4 + 8 * n > |raw|)
      && (r.Symdefs? ==> |r.defs| == n && forall i :: 0 <= i < n ==> IsRecord(big, raw, n, r.defs[i], i))
  {
    hide CString, ReadsTo, Get32;
    var n := Get32(big, raw[..4]) / 8;
    if 4 + 8 * n <= |raw| {
      forall i: nat | i < n ensures IsRecord(big, raw, n, SymdefAt(big, raw, n, i), i) {
        CStringReads(raw, 8 + 8 * n + Get32(big, raw[4 + 8 * i..8 + 8 * i]));
      }
    }
  }

  predicate IsRecord(big: bool, raw: seq<Byte>, n: nat, d: Symdef, i: nat) {
    && 8 * i + 12 <= |raw| && d.offset == Get32(big, raw[8 * i + 8..8 * i + 12])
    && ReadsTo(raw, 8 + 8 * n + Get32(big, raw[8 * i + 4..8 * i + 8]), d.name)
  }

  method SlurpMap(big: bool, raw: seq<Byte>) returns (r: Slurped)
    ensures r == Slurp(big, raw)
  {
    if |raw| < 4 {
      return WrongFormat;
    }
    var count := Get32(big, raw[..4]) / SYMDEF;
    if count * SYMDEF > |raw| - 4 {
      return WrongFormat;
    }
    var rbase := 4;
    var stringbase := rbase + count * SYMDEF + 4;
    var defs := [];
    for counter := 0 to count
      invariant rbase == 4 + SYMDEF * counter
      invariant |defs| == counter && forall i :: 0 <= i < counter ==> defs[i] == SymdefAt(big, raw, count, i)
    {
      var name := CString(raw, stringbase + Get32(big, raw[rbase..rbase + 4]));
      defs := defs + [Symdef(name, Get32(big, raw[rbase + 4..rbase + 8]))];
      rbase := rbase + SYMDEF;
    }
    r := Symdefs(defs);
  }

  /** What the map should say: every wanted symbol with the place of its member. */
  function Expected(first: nat, ms: seq<Member>, es: seq<Entry>): seq<Symdef>
    requires InOrder(es, |ms|)
  {
    seq(|es|, i requires 0 <= i < |es| =>
          (assert Follows(es, i, |ms|); Symdef(es[i].name, Offset(first, ms, es[i].pos))))
  }

  /** Names are C strings, and everything stays in the range of the map's 32-bit fields. */
  predicate Writable(first: nat, ms: seq<Member>, es: seq<Entry>) {
    && Offset(first, ms, |ms|) < WORD && MapSize(es) < WORD && first % 2 == 0
    && forall i :: 0 <= i < |es| ==> 0 !in es[i].name
  }

  /** The word held at a place. */
  lemma WordHeld(big: bool, raw: seq<Byte>, at: nat, x: int)
    requires Holds(raw, at, Put32(big, x)) && 0 <= x < WORD
    ensures at + 4 <= |raw| && Get32(big, raw[at..at + 4]) == x
  {
    hide Put32, Get32;
    HeldSlice(raw, at, Put32(big, x));
    PutGet32(big, x, []);
    assert Put32(big, x) + [] == Put32(big, x);
  }

  lemma FivePieces(a: seq<Byte>, b: seq<Byte>, c: seq<Byte>, d: seq<Byte>, e: seq<Byte>)
    ensures var s := a + b + c + d + e;
            Holds(s, 0, a) && Holds(s, |a|, b) && Holds(s, |a| + |b| + |c|, d)
  {
    var s := a + b + c + d + e;
    assert s[0..|a|] == a;
    assert s[|a|..|a| + |b|] == b;
    assert s[|a| + |b| + |c|..|a| + |b| + |c| + |d|] == d;
  }

  /** `raw` has the parts of the map where they belong. */
  predicate IsMap(big: bool, first: nat, ms: seq<Member>, es: seq<Entry>, raw: seq<Byte>)
    requires InOrder(es, |ms|)
  {
    && Holds(raw, 0, Put32(big, SYMDEF * |es|))
    && Holds(raw, 4, EntryBytes(big, first, ms, es))
    && Holds(raw, 4 + SYMDEF * |es| + 4, Strings(es))
  }

  lemma MapParts(big: bool, first: nat, ms: seq<Member>, es: seq<Entry>)
    requires InOrder(es, |ms|)
    ensures IsMap(big, first, ms, es, MapBytes(big, first, ms, es))
  {
    hide Put32, EntryBytes, Strings, Holds;
    var pad: seq<Byte> := if |Strings(es)| % 2 == 1 then [0] else [];
    FivePieces(Put32(big, SYMDEF * |es|), EntryBytes(big, first, ms, es), Put32(big, |Strings(es)| + |pad|),
               Strings(es), pad);
  }

  lemma RecordInMap(big: bool, first: nat, ms: seq<Member>, es: seq<Entry>, raw: seq<Byte>, i: nat)
    requires InOrder(es, |ms|) && i < |es| && IsMap(big, first, ms, es, raw)
    ensures es[i].pos < |ms| && Holds(raw, 4 + SYMDEF * i, Record(big, first, ms, es[i]))
  {
    EntryAt(big, first, ms, es, i);
    HoldsWithin(raw, 4, EntryBytes(big, first, ms, es), SYMDEF * i, Record(big, first, ms, es[i]));
  }

  /** The two numbers of a record, wherever it stands. */
  lemma RecordWords(big: bool, first: nat, ms: seq<Member>, e: Entry, raw: seq<Byte>, at: nat)
    requires e.pos < |ms| && Holds(raw, at, Record(big, first, ms, e))
    requires e.namidx < WORD && Offset(first, ms, e.pos) < WORD
    ensures at + 8 <= |raw| && Get32(big, raw[at..at + 4]) == e.namidx
    ensures Get32(big, raw[at + 4..at + 8]) == Offset(first, ms, e.pos)
  {
    TwoWords(raw, at, Put32(big, e.namidx), Put32(big, Offset(first, ms, e.pos)));
    WordHeld(big, raw, at, e.namidx);
    WordHeld(big, raw, at + 4, Offset(first, ms, e.pos));
  }

  lemma TwoWords(raw: seq<Byte>, at: nat, x: seq<Byte>, y: seq<Byte>)
    requires Holds(raw, at, x + y) && |x| == 4 && |y| == 4
    ensures Holds(raw, at, x) && Holds(raw, at + 4, y)
  {
    HoldsPart(raw, at, x + y, 0, 4);
    HoldsPart(raw, at, x + y, 4, 8);
    assert (x + y)[0..4] == x && (x + y)[4..8] == y;
  }

  lemma NameInMap(big: bool, first: nat, ms: seq<Member>, es: seq<Entry>, raw: seq<Byte>, i: nat)
    requires InOrder(es, |ms|) && i < |es| && IsMap(big, first, ms, es, raw)
    ensures Holds(raw, 4 + SYMDEF * |es| + 4 + es[i].namidx, es[i].name + [0])
    ensures es[i].namidx <= |Strings(es)|
  {
    NameAt(es, i, |ms|);
    HoldsWithin(raw, 4 + SYMDEF * |es| + 4, Strings(es), es[i].namidx, es[i].name + [0]);
  }

  lemma SymdefReadBack(big: bool, first: nat, ms: seq<Member>, es: seq<Entry>, raw: seq<Byte>, i: nat)
    requires InOrder(es, |ms|) && Writable(first, ms, es) && i < |es| && IsMap(big, first, ms, es, raw)
    requires 4 + SYMDEF * |es| <= |raw|
    ensures es[i].pos < |ms|
    ensures SymdefAt(big, raw, |es|, i) == Symdef(es[i].name, Offset(first, ms, es[i].pos))
  {
    hide EntryBytes, Strings, Offset, Record, Get32, Put32, InOrder;
    RecordInMap(big, first, ms, es, raw, i);
    NameInMap(big, first, ms, es, raw, i);
    OffsetsGrow(first, ms, es[i].pos, |ms|);
    RecordWords(big, first, ms, es[i], raw, 4 + SYMDEF * i);
    CStringAt(raw, 4 + SYMDEF * |es| + 4 + es[i].namidx, es[i].name);
  }

  lemma SlurpFromParts(big: bool, raw: seq<Byte>, count: nat, defs: seq<Symdef>)
    requires Holds(raw, 0, Put32(big, SYMDEF * count)) && SYMDEF * count < WORD && 4 + SYMDEF * count <= |raw|
    requires |defs| == count && forall i :: 0 <= i < count ==> SymdefAt(big, raw, count, i) == defs[i]
    ensures Slurp(big, raw) == Symdefs(defs)
  {
    WordHeld(big, raw, 0, SYMDEF * count);
    assert raw[..4] == raw[0..0 + 4];
  }

  /** Reading what was written gives the same names and offsets in the same order. */
  lemma MapRoundTrip(big: bool, first: nat, ms: seq<Member>, es: seq<Entry>)
    requires InOrder(es, |ms|) && Writable(first, ms, es)
    ensures Slurp(big, MapBytes(big, first, ms, es)) == Symdefs(Expected(first, ms, es))
  {
    var raw := MapBytes(big, first, ms, es);
    MapParts(big, first, ms, es);
    forall i | 0 <= i < |es|
      ensures SymdefAt(big, raw, |es|, i) == Expected(first, ms, es)[i] {
      SymdefReadBack(big, first, ms, es, raw, i);
    }
    SlurpFromParts(big, raw, |es|, Expected(first, ms, es));
  }
}
