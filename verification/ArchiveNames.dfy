/** Member names of an archive: the header's name field, and the table of names that do not fit it. */
module ArchiveNames {
  import opened Words
  import opened ArchiveFormat
  import opened ArchiveMap

  const BACKSLASH: Byte := 92

  /** What of a target the name fields depend on: the longest name stored in place, the padding character, and
      whether table entries end in a slash; and whether the archive is to be in traditional format. */
  datatype Naming = Naming(maxname: nat, pad: Byte, slash: bool, traditional: bool)

  predicate GoodNaming(t: Naming) {
    0 < t.maxname <= NAME_FIELD
  }

  // ---- which name an element gets ----

  /** `normalize`: what follows the last slash. */
  function Base(f: seq<Byte>): seq<Byte> {
    if |f| == 0 || f[|f| - 1] == SLASH then [] else Base(f[..|f| - 1]) + [f[|f| - 1]]
  }

  /** The last component of a path: no slash inside, a slash or nothing before. */
  lemma {:induction false} BaseIsLastComponent(f: seq<Byte>)
    ensures LastComponent(f, Base(f))
  {
    if |f| > 0 && f[|f| - 1] != SLASH {
      BaseIsLastComponent(f[..|f| - 1]);
      OneLonger(f, Base(f[..|f| - 1]));
    }
  }

  predicate LastComponent(f: seq<Byte>, b: seq<Byte>) {
    && SLASH !in b && |b| <= |f|
    && (forall k :: 0 <= k < |b| ==> f[|f| - |b| + k] == b[k])
    && (|b| < |f| ==> f[|f| - |b| - 1] == SLASH)
  }

  lemma OneLonger(f: seq<Byte>, b: seq<Byte>)
    requires |f| > 0 && LastComponent(f[..|f| - 1], b) && f[|f| - 1] != SLASH
    ensures LastComponent(f, b + [f[|f| - 1]])
  {
  }

  lemma StoredHasNoSlash(t: Naming, m: Member)
    ensures SLASH !in Stored(t, m)
  {
    BaseIsLastComponent(m.filename);
  }

  /** The name to be stored; the traditional format truncates. */
  function Stored(t: Naming, m: Member): seq<Byte> {
    var b := Base(m.filename);
    if |b| > t.maxname && t.traditional then b[..t.maxname] else b
  }

  predicate IsLong(t: Naming, m: Member) {
    |Stored(t, m)| > t.maxname
  }

  function Terminator(t: Naming): seq<Byte> {
    if t.slash then [SLASH, NEWLINE] else [NEWLINE]
  }

  /** An element's part of the name table. */
  function TableEntry(t: Naming, m: Member): seq<Byte> {
    if IsLong(t, m) then Stored(t, m) + Terminator(t) else []
  }

  function TableParts(t: Naming, ms: seq<Member>): (parts: seq<seq<Byte>>)
    ensures |parts| == |ms| && forall i :: 0 <= i < |ms| ==> parts[i] == TableEntry(t, ms[i])
  {
    seq(|ms|, i requires 0 <= i < |ms| => TableEntry(t, ms[i]))
  }

  function Table(t: Naming, ms: seq<Member>): seq<Byte> {
    Concat(TableParts(t, ms))
  }

  /** The length of the table before element `i`. */
  function TableAt(t: Naming, ms: seq<Member>, i: nat): (n: nat)
    requires i <= |ms|
    ensures n <= |Table(t, ms)|
  {
    ConcatGrows(TableParts(t, ms), i);
    |Concat(TableParts(t, ms)[..i])|
  }

  // ---- the name field ----

  /** The field of a name stored in place. */
  function ShortField(t: Naming, field: seq<Byte>, name: seq<Byte>): (f: seq<Byte>)
    requires |field| == NAME_FIELD && |name| <= NAME_FIELD
    ensures |f| == NAME_FIELD && name <= f && (|name| < NAME_FIELD ==> f[|name|] == t.pad)
  {
    if |name| == NAME_FIELD then name else name + [t.pad] + field[|name| + 1..]
  }

  /** `sprintf` of the offset behind the padding character, with its NUL. */
  function Printed(t: Naming, field: seq<Byte>, at: nat): (f: seq<Byte>)
    requires |field| == NAME_FIELD && at < LIMIT
    ensures |f| == NAME_FIELD
  {
    SizeFits(at);
    [t.pad] + Digits(at) + [0] + field[|Digits(at)| + 2..]
  }

  /** The field of a name in the table: NULs behind the first digit become spaces. */
  function LongField(t: Naming, field: seq<Byte>, at: nat): (f: seq<Byte>)
    requires |field| == NAME_FIELD && at < LIMIT
    ensures |f| == NAME_FIELD
  {
    var p := Printed(t, field, at);
    seq(NAME_FIELD, k requires 0 <= k < NAME_FIELD => Blanked(t, p[k], k))
  }

  function Blanked(t: Naming, b: Byte, k: nat): Byte {
    if 2 <= k < t.maxname && b == 0 then SPACE else b
  }

  method WriteShortName(t: Naming, field: seq<Byte>, name: seq<Byte>) returns (f: seq<Byte>)
    requires GoodNaming(t) && |field| == NAME_FIELD && |name| <= t.maxname
    ensures f == ShortField(t, field, name)
  {
    f := field;
    if f[..|name|] != name || (|name| < NAME_FIELD && f[|name|] != t.pad) {
      f := name + f[|name|..];
      if |name| < t.maxname || (|name| == t.maxname && |name| < NAME_FIELD) {
        f := f[|name| := t.pad];
      }
    }
  }

  method WriteLongName(t: Naming, field: seq<Byte>, at: nat) returns (f: seq<Byte>)
    requires GoodNaming(t) && |field| == NAME_FIELD && at < LIMIT
    ensures f == LongField(t, field, at)
  {
    SizeFits(at);
    f := field[0 := t.pad];
    f := f[..1] + Digits(at) + [0] + f[|Digits(at)| + 2..];
    ghost var p := f;
    assert p == Printed(t, field, at);
    var temp := 2;
    while temp < t.maxname
      invariant temp >= 2 && |f| == NAME_FIELD
      invariant forall k :: 0 <= k < NAME_FIELD ==> f[k] == if k < temp then Blanked(t, p[k], k) else p[k]
    {
      if f[temp] == 0 {
        f := f[temp := SPACE];
      }
      temp := temp + 1;
    }
  }

  /** The element with its name field in final form, `at` being the length of the table before it. */
  function Rename(t: Naming, m: Member, at: nat): (r: Member)
    requires IsHeader(m.header) && at < LIMIT
    ensures IsHeader(r.header) && r == m.(header := r.header) && r.header[NAME_FIELD..] == m.header[NAME_FIELD..]
  {
    var field := m.header[..NAME_FIELD];
    var f := if IsLong(t, m) then LongField(t, field, at)
             else if t.maxname <= NAME_FIELD then ShortField(t, field, Stored(t, m)) else field;
    var h := f + m.header[NAME_FIELD..];
    assert h[58..] == m.header[58..];
    m.(header := h)
  }

  /** What the first of the two passes leaves: only names stored in place are settled. */
  function FirstPass(t: Naming, m: Member): (r: Member)
    requires IsHeader(m.header)
    ensures IsHeader(r.header)
  {
    if IsLong(t, m) then m else Rename(t, m, 0)
  }

  predicate AllHeaders(ms: seq<Member>) {
    forall i :: 0 <= i < |ms| ==> IsHeader(ms[i].header)
  }

  function FirstPasses(t: Naming, ms: seq<Member>): (rs: seq<Member>)
    requires AllHeaders(ms)
    ensures |rs| == |ms| && AllHeaders(rs)
  {
    seq(|ms|, i requires 0 <= i < |ms| => FirstPass(t, ms[i]))
  }

  /** The chain with all names settled. */
  function Renamed(t: Naming, ms: seq<Member>): (rs: seq<Member>)
    requires AllHeaders(ms) && |Table(t, ms)| < LIMIT
    ensures |rs| == |ms| && AllHeaders(rs)
  {
    seq(|ms|, i requires 0 <= i < |ms| => RenameAt(t, ms, i))
  }

  function RenameAt(t: Naming, ms: seq<Member>, i: nat): (r: Member)
    requires AllHeaders(ms) && |Table(t, ms)| < LIMIT && i < |ms|
    ensures IsHeader(r.header) && r == ms[i].(header := r.header)
    ensures r.header[NAME_FIELD..] == ms[i].header[NAME_FIELD..]
  {
    Rename(t, ms[i], TableAt(t, ms, i))
  }

  /** Renaming leaves sizes and contents alone. */
  lemma RenamedGood(t: Naming, ms: seq<Member>)
    requires GoodMembers(ms) && AllHeaders(ms) && |Table(t, ms)| < LIMIT
    ensures GoodMembers(Renamed(t, ms))
  {
    forall i | 0 <= i < |ms| ensures GoodMember(Renamed(t, ms)[i]) {
      var r := RenameAt(t, ms, i);
      assert r.header[SIZE_AT..] == r.header[NAME_FIELD..][SIZE_AT - NAME_FIELD..];
      assert ms[i].header[SIZE_AT..] == ms[i].header[NAME_FIELD..][SIZE_AT - NAME_FIELD..];
      assert GoodMember(ms[i]);
    }
  }

  // ---- reading the name field ----

  /** How a header names its member: by a place in the name table, by bytes that follow the header, or in place. */
  datatype ArName = Extended(index: int) | Following(count: nat) | InPlace(name: seq<Byte>)

  /** The first place from `n` on that holds one of two bytes. */
  function Find(h: seq<Byte>, a: Byte, b: Byte, n: nat, max: nat): (r: nat)
    requires n <= max <= |h|
    ensures n <= r <= max && (r < max ==> h[r] == a || h[r] == b)
    ensures forall k :: n <= k < r ==> h[k] != a && h[k] != b
    decreases max - n
  {
    if n == max || h[n] == a || h[n] == b then n else Find(h, a, b, n + 1, max)
  }

  function InPlaceLength(t: Naming, h: seq<Byte>): nat
    requires t.maxname <= |h|
  {
    var n := Find(h, 0, SLASH, 0, t.maxname);
    if n < t.maxname then n else Find(h, SPACE, SPACE, 0, t.maxname)
  }

  predicate IsBsd44(h: seq<Byte>)
    requires |h| == HEADER
  {
    h[0] == 35 && h[1] == 49 && h[2] == SLASH && IsDigit(h[3])
  }

  function NameOf(t: Naming, h: seq<Byte>, table: bool): ArName
    requires GoodNaming(t) && |h| == HEADER
  {
    if (h[0] == SLASH || (h[0] == SPACE && SLASH !in h[..t.maxname])) && table then Extended(Strtol(h[1..]))
    else if IsBsd44(h) then Following(Strtol(h[3..]))
    else InPlace(h[..InPlaceLength(t, h)])
  }

  /** The scan for the end of a name stored in place. */
  method ScanName(t: Naming, h: seq<Byte>) returns (namelen: nat)
    requires GoodNaming(t) && |h| == HEADER
    ensures namelen == InPlaceLength(t, h)
  {
    namelen := 0;
    while h[namelen] != 0 && h[namelen] != SLASH
      invariant namelen < t.maxname && Find(h, 0, SLASH, 0, t.maxname) == Find(h, 0, SLASH, namelen, t.maxname)
      decreases t.maxname - namelen
    {
      namelen := namelen + 1;
      if namelen == t.maxname {
        namelen := 0;
        while h[namelen] != SPACE && namelen < t.maxname
          invariant namelen <= t.maxname
          invariant Find(h, SPACE, SPACE, 0, t.maxname) == Find(h, SPACE, SPACE, namelen, t.maxname)
          decreases t.maxname - namelen
        {
          namelen := namelen + 1;
        }
        break;
      }
    }
  }

  lemma FindFirst(h: seq<Byte>, a: Byte, b: Byte, max: nat, r: nat)
    requires r <= max <= |h|
    requires forall k :: 0 <= k < r ==> h[k] != a && h[k] != b
    requires r < max ==> h[r] == a || h[r] == b
    ensures Find(h, a, b, 0, max) == r
  {
    var f := Find(h, a, b, 0, max);
  }

  /** The header whose field holds a name and, if there is room, a slash. */
  lemma ScanFindsName(t: Naming, h: seq<Byte>, n: seq<Byte>)
    requires GoodNaming(t) && |h| == HEADER && 0 < |n| <= t.maxname && 0 !in n && SLASH !in n
    requires n <= h && (|n| < t.maxname ==> h[|n|] == SLASH)
    ensures |n| < t.maxname || SPACE !in n ==> InPlaceLength(t, h) == |n|
    ensures |n| == t.maxname && SPACE in n ==>
      InPlaceLength(t, h) < |n| && n[InPlaceLength(t, h)] == SPACE && SPACE !in n[..InPlaceLength(t, h)]
  {
    assert forall k :: 0 <= k < |n| ==> h[k] == n[k] && n[k] in n;
    FindFirst(h, 0, SLASH, t.maxname, |n|);
    if SPACE in n {
      var k :| 0 <= k < |n| && n[k] == SPACE;
      var c := Find(h, SPACE, SPACE, 0, t.maxname);
      assert c <= k;
    } else if |n| == t.maxname {
      FindFirst(h, SPACE, SPACE, t.maxname, |n|);
    }
  }

  lemma ShortFieldShape(t: Naming, m: Member, at: nat)
    requires GoodNaming(t) && t.pad == SLASH && IsHeader(m.header) && at < LIMIT && !IsLong(t, m)
    ensures var n := Stored(t, m); var h := Rename(t, m, at).header;
            n <= h && (|n| < t.maxname ==> h[|n|] == SLASH && SLASH in h[..t.maxname])
  {
    var n := Stored(t, m);
    var f := ShortField(t, m.header[..NAME_FIELD], n);
    var h := Rename(t, m, at).header;
    assert h == f + m.header[NAME_FIELD..];
    if |n| < t.maxname {
      assert h[..t.maxname][|n|] == SLASH;
    }
  }

  predicate FirstSpace(n: seq<Byte>, c: int) {
    0 <= c < |n| && n[c] == SPACE && SPACE !in n[..c]
  }

  lemma NameFromField(t: Naming, h: seq<Byte>, n: seq<Byte>, table: bool)
    requires GoodNaming(t) && |h| == HEADER && 0 < |n| <= t.maxname && 0 !in n && SLASH !in n && !IsBsd44(h)
    requires n <= h && (|n| < t.maxname ==> h[|n|] == SLASH && SLASH in h[..t.maxname])
    ensures |n| < t.maxname || SPACE !in n ==> NameOf(t, h, table) == InPlace(n)
    ensures |n| == t.maxname && SPACE in n && !(table && n[0] == SPACE)
            ==> exists c :: FirstSpace(n, c) && NameOf(t, h, table) == InPlace(n[..c])
    ensures |n| == t.maxname && n[0] == SPACE && table ==> NameOf(t, h, table) == Extended(Strtol(h[1..]))
  {
    ScanFindsName(t, h, n);
    assert h[0] == n[0] && n[0] in n;
    var c := InPlaceLength(t, h);
    assert h[..c] == n[..c];
    assert n[..|n|] == n;
    assert |n| == t.maxname ==> h[..t.maxname] == n;
  }

  /** A name stored in place with slash padding is read back, except that one filling the field to the last usable
      byte is cut at its first space, or, if it begins with one and there is a name table, taken for an index. */
  lemma ShortNameReadBack(t: Naming, m: Member, at: nat, table: bool)
    requires GoodNaming(t) && t.pad == SLASH && IsHeader(m.header) && at < LIMIT && !IsLong(t, m)
    requires |Stored(t, m)| > 0 && 0 !in Stored(t, m) && !IsBsd44(Rename(t, m, at).header)
    ensures var n := Stored(t, m); var h := Rename(t, m, at).header;
            && (|n| < t.maxname || SPACE !in n ==> NameOf(t, h, table) == InPlace(n))
            && (|n| == t.maxname && SPACE in n && !(table && n[0] == SPACE)
                ==> exists c :: FirstSpace(n, c) && NameOf(t, h, table) == InPlace(n[..c]))
            && (|n| == t.maxname && n[0] == SPACE && table ==> NameOf(t, h, table) == Extended(Strtol(h[1..])))
  {
    ShortFieldShape(t, m, at);
    StoredHasNoSlash(t, m);
    NameFromField(t, Rename(t, m, at).header, Stored(t, m), table);
  }

  lemma NumberFromField(t: Naming, h: seq<Byte>, at: nat)
    requires GoodNaming(t) && |h| == HEADER && h[0] == SLASH && |Digits(at)| <= 10
    requires forall k :: 0 <= k < |Digits(at)| ==> h[1 + k] == Digits(at)[k]
    requires !IsDigit(h[1 + |Digits(at)|])
    ensures NameOf(t, h, true) == Extended(at)
  {
    var d := Digits(at);
    assert h[1..][..|d|] == d;
    assert h[1..] == d + h[1..][|d|..];
    StrtolDigits(at, h[1..][|d|..]);
  }

  lemma LongFieldShape(t: Naming, m: Member, at: nat)
    requires GoodNaming(t) && t.pad == SLASH && IsHeader(m.header) && at < LIMIT && IsLong(t, m)
    ensures var d := Digits(at); var h := Rename(t, m, at).header;
            && |d| <= 10 && h[0] == SLASH && !IsDigit(h[1 + |d|])
            && forall k :: 0 <= k < |d| ==> h[1 + k] == d[k]
  {
    SizeFits(at);
    var d := Digits(at);
    var p := Printed(t, m.header[..NAME_FIELD], at);
    var h := Rename(t, m, at).header;
    assert h[..NAME_FIELD] == LongField(t, m.header[..NAME_FIELD], at);
    assert h[0] == h[..NAME_FIELD][0] && h[1 + |d|] == h[..NAME_FIELD][1 + |d|];
    assert p[1 + |d|] == 0;
    forall k | 0 <= k < |d| ensures h[1 + k] == d[k] {
      assert h[1 + k] == h[..NAME_FIELD][1 + k] && p[1 + k] == d[k] && IsDigit(d[k]);
    }
  }

  /** The field of a long name leads back to the place of its entry. */
  lemma LongFieldReadBack(t: Naming, m: Member, at: nat)
    requires GoodNaming(t) && t.pad == SLASH && IsHeader(m.header) && at < LIMIT && IsLong(t, m)
    ensures NameOf(t, Rename(t, m, at).header, true) == Extended(at)
  {
    LongFieldShape(t, m, at);
    NumberFromField(t, Rename(t, m, at).header, at);
  }

  // ---- the name table as it is read ----

  predicate SlashLike(b: Byte) {
    b == SLASH || b == BACKSLASH
  }

  /** Byte `k` of the table after the clean-up has gone over its first `n` bytes. */
  function CleanByte(s: seq<Byte>, n: nat, k: nat): Byte
    requires k < |s| && n <= |s|
  {
    if k >= n then s[k]
    else if s[k] == NEWLINE then if k > 0 && SlashLike(s[k - 1]) then NEWLINE else 0
    else if SlashLike(s[k]) then if k + 1 < n && s[k + 1] == NEWLINE then 0 else SLASH
    else s[k]
  }

  function Clean(s: seq<Byte>): (c: seq<Byte>)
    ensures |c| == |s|
  {
    seq(|s|, k requires 0 <= k < |s| => CleanByte(s, |s|, k))
  }

  /** The clean-up looks at the byte before a newline, so the table must not begin with one. */
  method CleanNames(a: array<Byte>)
    requires a.Length > 0 ==> a[0] != NEWLINE
    modifies a
    ensures a[..] == Clean(old(a[..]))
  {
    ghost var s := a[..];
    for temp := 0 to a.Length
      invariant forall k :: 0 <= k < a.Length ==> a[k] == CleanByte(s, temp, k)
    {
      if a[temp] == NEWLINE {
        a[if a[temp - 1] == SLASH then temp - 1 else temp] := 0;
      }
      if a[temp] == BACKSLASH {
        a[temp] := SLASH;
      }
    }
  }

  predicate Plain(name: seq<Byte>) {
    NEWLINE !in name && BACKSLASH !in name
  }

  /** Name `name` and its terminator stand at `at`, right behind the previous entry. */
  predicate EntryHeld(t: Naming, s: seq<Byte>, at: nat, name: seq<Byte>) {
    && Holds(s, at, name + Terminator(t)) && |name| > 0 && 0 !in name && SLASH !in name
    && if at == 0 then s[0] != NEWLINE else s[at - 1] == NEWLINE
  }

  /** The entry byte by byte. */
  lemma EntryBytewise(t: Naming, s: seq<Byte>, at: nat, name: seq<Byte>)
    requires EntryHeld(t, s, at, name)
    ensures at + |name| + |Terminator(t)| <= |s|
    ensures forall k :: at <= k < at + |name| ==> s[k] == name[k - at] != 0 && s[k] != SLASH
    ensures if t.slash then s[at + |name|] == SLASH && s[at + |name| + 1] == NEWLINE else s[at + |name|] == NEWLINE
  {
    var e := name + Terminator(t);
    forall k | at <= k < at + |e| ensures s[k] == e[k - at] {
      assert s[at..at + |e|][k - at] == e[k - at];
    }
    forall k | at <= k < at + |name| ensures s[k] == name[k - at] != 0 && s[k] != SLASH {
      assert s[k] == e[k - at] && name[k - at] in name;
    }
    assert s[at + |name|] == e[|name|];
    assert t.slash ==> s[at + |name| + 1] == e[|name| + 1];
  }

  lemma CleanKeepsPlain(t: Naming, s: seq<Byte>, at: nat, name: seq<Byte>)
    requires EntryHeld(t, s, at, name) && Plain(name)
    ensures Holds(Clean(s), at, name + [0])
  {
    EntryBytewise(t, s, at, name);
    var c := Clean(s);
    forall k | at <= k < at + |name| ensures c[k] == name[k - at] {
      assert name[k - at] in name;
    }
    assert name[|name| - 1] in name && s[at + |name| - 1] == name[|name| - 1];
    assert c[at + |name|] == 0;
    assert c[at..at + |name| + 1] == name + [0];
  }

  lemma CleanSpoilsOthers(t: Naming, s: seq<Byte>, at: nat, name: seq<Byte>) returns (k: nat)
    requires EntryHeld(t, s, at, name) && !Plain(name)
    ensures k < |name| && at + k < |s| && Clean(s)[at + k] != name[k]
  {
    EntryBytewise(t, s, at, name);
    if BACKSLASH in name {
      k :| k < |name| && name[k] == BACKSLASH;
      assert s[at + k] == BACKSLASH;
    } else {
      k :| k < |name| && name[k] == NEWLINE;
      assert s[at + k] == NEWLINE;
      assert k > 0 ==> s[at + k - 1] == name[k - 1] && name[k - 1] in name;
    }
  }

  /** An entry of the cleaned-up table reads as the name exactly when the name has no newline and no backslash. */
  lemma TableReadBack(t: Naming, s: seq<Byte>, at: nat, name: seq<Byte>)
    requires EntryHeld(t, s, at, name)
    ensures CString(Clean(s), at) == name <==> Plain(name)
  {
    if Plain(name) {
      CleanKeepsPlain(t, s, at, name);
      CStringAt(Clean(s), at, name);
    } else {
      var k := CleanSpoilsOthers(t, s, at, name);
      CStringByte(Clean(s), at, name, k);
    }
  }

  lemma {:induction false} CStringByte(s: seq<Byte>, at: nat, name: seq<Byte>, k: nat)
    requires k < |name| && at + k < |s| && s[at + k] != name[k]
    ensures CString(s, at) != name
    decreases k
  {
    if k > 0 && s[at] != 0 {
      CStringByte(s, at + 1, name[1..], k - 1);
      assert CString(s, at)[1..] == CString(s, at + 1);
    }
  }
}
