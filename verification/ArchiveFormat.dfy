/** The bytes of an archive: decimal numbers, member headers, and the pieces a written archive consists of. */
module ArchiveFormat {
  import opened Words

  // ---- decimal numbers, as `sprintf` writes and `strtol` reads them ----

  const SPACE: Byte := 32
  const NEWLINE: Byte := 10
  const SLASH: Byte := 47
  const PLUS: Byte := 43
  const MINUS: Byte := 45

  function Digits(n: nat): (s: seq<Byte>)
    ensures |s| > 0 && forall i :: 0 <= i < |s| ==> IsDigit(s[i])
  {
    if n < 10 then [48 + n] else Digits(n / 10) + [48 + n % 10]
  }

  function ReadDigits(s: seq<Byte>, acc: nat): nat {
    if |s| == 0 || !IsDigit(s[0]) then acc else ReadDigits(s[1..], 10 * acc + (s[0] as int - 48))
  }

  predicate IsSpace(b: Byte) {
    b == SPACE || 9 <= b <= 13
  }

  /** `strtol` in base 10, before its range check: spaces, a sign, digits. */
  function Strtol(s: seq<Byte>): int {
    if |s| > 0 && IsSpace(s[0]) then Strtol(s[1..])
    else if |s| > 0 && s[0] == MINUS then -(ReadDigits(s[1..], 0) as int)
    else if |s| > 0 && s[0] == PLUS then ReadDigits(s[1..], 0)
    else ReadDigits(s, 0)
  }

  /** One beyond the largest 32-bit `long`: what `strtol` and the `int` casts of the writer can handle. */
  const LIMIT := 0x8000_0000

  predicate InRange(x: int) {
    -LIMIT <= x < LIMIT
  }

  lemma {:induction false} ReadDigitsAppend(a: seq<Byte>, b: seq<Byte>, acc: nat)
    requires forall i :: 0 <= i < |a| ==> IsDigit(a[i])
    ensures ReadDigits(a + b, acc) == ReadDigits(b, ReadDigits(a, acc))
  {
    if |a| == 0 {
      assert a + b == b;
    } else {
      assert (a + b)[1..] == a[1..] + b;
      ReadDigitsAppend(a[1..], b, 10 * acc + (a[0] as int - 48));
    }
  }

  lemma {:induction false} ReadDigitsOfDigits(n: nat)
    ensures ReadDigits(Digits(n), 0) == n
  {
    if n >= 10 {
      ReadDigitsOfDigits(n / 10);
      ReadDigitsAppend(Digits(n / 10), [48 + n % 10], 0);
      assert [48 + n % 10][1..] == [];
    } else {
      assert Digits(n)[1..] == [];
    }
  }

  /** A printed number is read back, if what follows it is no digit. */
  lemma StrtolDigits(n: nat, rest: seq<Byte>)
    requires |rest| == 0 || !IsDigit(rest[0])
    ensures Strtol(Digits(n) + rest) == n
  {
    ReadDigitsOfDigits(n);
    ReadDigitsAppend(Digits(n), rest, 0);
    assert IsDigit(Digits(n)[0]) && (Digits(n) + rest)[0] == Digits(n)[0];
  }

  lemma {:induction false} DigitCount(n: nat, w: nat, bound: nat)
    requires 0 < w && n < bound && bound == Pow10(w)
    ensures |Digits(n)| <= w
    decreases w
  {
    if n >= 10 {
      assert Pow10(w) == 10 * Pow10(w - 1);
      DigitCount(n / 10, w - 1, Pow10(w - 1));
    }
  }

  function Pow10(w: nat): nat {
    if w == 0 then 1 else 10 * Pow10(w - 1)
  }

  /** Ten digits hold every size. */
  lemma SizeFits(n: nat)
    requires n < LIMIT
    ensures |Digits(n)| <= 10
  {
    assert Pow10(5) == 100000;
    assert Pow10(10) == 100000 * Pow10(5) by {
      assert Pow10(7) == 100 * Pow10(5);
      assert Pow10(9) == 100 * Pow10(7);
    }
    DigitCount(n, 10, Pow10(10));
  }

  // ---- member headers ----

  const HEADER := 60
  const NAME_FIELD := 16
  const SIZE_AT := 48
  const ARFMAG: seq<Byte> := [96, 10]
  const ARMAG: seq<Byte> := [33, 60, 97, 114, 99, 104, 62, 10]

  function Spaces(n: nat): (s: seq<Byte>)
    ensures |s| == n && forall i :: 0 <= i < n ==> s[i] == SPACE
  {
    seq(n, _ => SPACE)
  }

  function PadTo(s: seq<Byte>, w: nat): (t: seq<Byte>)
    requires |s| <= w
    ensures |t| == w && s <= t
  {
    s + Spaces(w - |s|)
  }

  /** A header whose date, owner and mode fields hold `stamp`. */
  function HeaderOf(name: seq<Byte>, stamp: seq<Byte>, size: nat): (h: seq<Byte>)
    requires |name| == NAME_FIELD && |stamp| == SIZE_AT - NAME_FIELD && size < LIMIT
    ensures |h| == HEADER
  {
    SizeFits(size);
    name + stamp + PadTo(Digits(size), 10) + ARFMAG
  }

  predicate IsHeader(h: seq<Byte>) {
    |h| == HEADER && h[58..] == ARFMAG
  }

  /** The size field as a number, which may fill its field: the magic string behind it ends it. */
  function ParsedSize(h: seq<Byte>): int
    requires |h| == HEADER
  {
    Strtol(h[SIZE_AT..])
  }

  lemma HeaderRoundTrip(name: seq<Byte>, stamp: seq<Byte>, size: nat)
    requires |name| == NAME_FIELD && |stamp| == SIZE_AT - NAME_FIELD && size < LIMIT
    ensures var h := HeaderOf(name, stamp, size); IsHeader(h) && ParsedSize(h) == size && h[..NAME_FIELD] == name
  {
    SizeFits(size);
    var d := Digits(size);
    var h := HeaderOf(name, stamp, size);
    var rest := Spaces(10 - |d|) + ARFMAG;
    assert h[SIZE_AT..] == d + rest;
    StrtolDigits(size, rest);
  }

  // ---- members ----

  /** An element of the chain: its file name, its header as it will be written, its contents, whether it is an
      object file, and the symbols of one that has some. */
  datatype Member = Member(filename: seq<Byte>, header: seq<Byte>, data: seq<Byte>, isObject: bool,
                           symbols: seq<Symbol>)

  /** The symbol flags and sections that decide whether a symbol goes into the map. */
  datatype Symbol = Symbol(name: seq<Byte>, global: bool, weak: bool, indirect: bool, common: bool, undefined: bool)

  predicate GoodMember(m: Member) {
    IsHeader(m.header) && ParsedSize(m.header) == |m.data| < LIMIT
  }

  predicate GoodMembers(ms: seq<Member>) {
    forall i :: 0 <= i < |ms| ==> GoodMember(ms[i])
  }

  predicate Headed(ms: seq<Member>) {
    forall i :: 0 <= i < |ms| ==> |ms[i].header| == HEADER
  }

  /** A newline after contents of odd size. */
  function Padding(n: nat): (p: seq<Byte>)
    ensures |p| == n % 2
  {
    if n % 2 == 1 then [NEWLINE] else []
  }

  function MemberBytes(m: Member): seq<Byte> {
    m.header + m.data + Padding(|m.data|)
  }

  function MemberSize(m: Member): nat {
    HEADER + |m.data| + |m.data| % 2
  }

  function AllBytes(ms: seq<Member>): seq<Byte> {
    if |ms| == 0 then [] else AllBytes(ms[..|ms| - 1]) + MemberBytes(ms[|ms| - 1])
  }

  /** Where member `k` starts if the first one starts at `first`. */
  function Offset(first: nat, ms: seq<Member>, k: nat): (o: nat)
    requires k <= |ms|
  {
    if k == 0 then first else Offset(first, ms, k - 1) + MemberSize(ms[k - 1])
  }

  lemma {:induction false} AllBytesSize(ms: seq<Member>, first: nat)
    requires Headed(ms)
    ensures first + |AllBytes(ms)| == Offset(first, ms, |ms|)
  {
    if |ms| > 0 {
      AllBytesSize(ms[..|ms| - 1], first);
      OffsetPrefix(first, ms, |ms| - 1, |ms| - 1);
    }
  }

  lemma {:induction false} OffsetPrefix(first: nat, ms: seq<Member>, n: nat, k: nat)
    requires k <= n <= |ms|
    ensures Offset(first, ms[..n], k) == Offset(first, ms, k)
  {
    if k > 0 {
      OffsetPrefix(first, ms, n, k - 1);
    }
  }

  lemma EvenSize(m: Member)
    ensures MemberSize(m) % 2 == 0 && MemberSize(m) >= HEADER
  {
  }

  /** Offsets of members are even, and each is beyond the one before. */
  lemma {:induction false} OffsetsGrow(first: nat, ms: seq<Member>, i: nat, k: nat)
    requires i <= k <= |ms| && first % 2 == 0
    ensures Offset(first, ms, k) % 2 == 0 && first <= Offset(first, ms, i) <= Offset(first, ms, k)
    ensures i < k ==> Offset(first, ms, i) + HEADER <= Offset(first, ms, k)
    decreases k
  {
    hide MemberSize;
    if 0 < k {
      EvenSize(ms[k - 1]);
      OffsetsGrow(first, ms, if i < k then i else k - 1, k - 1);
    }
  }

  /** Member `k`'s bytes stand at its offset. */
  lemma {:induction false} BytesAtOffset(first: seq<Byte>, ms: seq<Member>, k: nat)
    requires Headed(ms) && k < |ms|
    ensures |MemberBytes(ms[k])| == MemberSize(ms[k])
    ensures Holds(first + AllBytes(ms), Offset(|first|, ms, k), MemberBytes(ms[k]))
  {
    var n := |ms| - 1;
    var front := first + AllBytes(ms[..n]);
    assert first + AllBytes(ms) == front + MemberBytes(ms[n]);
    AllBytesSize(ms[..n], |first|);
    OffsetPrefix(|first|, ms, n, n);
    if k < n {
      BytesAtOffset(first, ms[..n], k);
      OffsetPrefix(|first|, ms, n, k);
      HoldsMore(front, MemberBytes(ms[n]), Offset(|first|, ms, k), MemberBytes(ms[k]));
    } else {
      HoldsEnd(front, MemberBytes(ms[n]), []);
    }
  }

  /** The file holds `b` at position `at`. */
  predicate Holds(file: seq<Byte>, at: nat, b: seq<Byte>) {
    at + |b| <= |file| && forall k {:trigger b[k]} :: 0 <= k < |b| ==> file[at + k] == b[k]
  }

  lemma HeldSlice(file: seq<Byte>, at: nat, b: seq<Byte>)
    requires Holds(file, at, b)
    ensures file[at..at + |b|] == b
  {
  }

  lemma HoldsMore(file: seq<Byte>, more: seq<Byte>, at: nat, b: seq<Byte>)
    requires Holds(file, at, b)
    ensures Holds(file + more, at, b)
  {
  }

  lemma HoldsEnd(front: seq<Byte>, b: seq<Byte>, rest: seq<Byte>)
    ensures Holds(front + b + rest, |front|, b) && Holds(front + b, |front|, b)
  {
  }

  /** A part of what is held is held. */
  lemma HoldsPart(file: seq<Byte>, at: nat, b: seq<Byte>, i: nat, j: nat)
    requires Holds(file, at, b) && i <= j <= |b|
    ensures Holds(file, at + i, b[i..j])
  {
  }

  /** What a held piece holds, the file holds. */
  lemma HoldsWithin(file: seq<Byte>, at: nat, b: seq<Byte>, i: nat, c: seq<Byte>)
    requires Holds(file, at, b) && Holds(b, i, c)
    ensures Holds(file, at + i, c)
  {
  }

  // ---- pieces one behind the other ----

  function Concat(parts: seq<seq<Byte>>): seq<Byte> {
    if |parts| == 0 then [] else Concat(parts[..|parts| - 1]) + parts[|parts| - 1]
  }

  lemma {:induction false} ConcatGrows(parts: seq<seq<Byte>>, i: nat)
    requires i <= |parts|
    ensures Concat(parts[..i]) <= Concat(parts)
    decreases |parts|
  {
    if i == |parts| {
      assert parts[..i] == parts;
    } else {
      var n := |parts| - 1;
      assert parts[..n][..i] == parts[..i];
      ConcatGrows(parts[..n], i);
      PrefixMore(Concat(parts[..i]), Concat(parts[..n]), parts[n]);
    }
  }

  lemma PrefixMore(a: seq<Byte>, b: seq<Byte>, c: seq<Byte>)
    requires a <= b
    ensures a <= b + c
  {
  }

  lemma ConcatStep(parts: seq<seq<Byte>>, i: nat)
    requires i < |parts|
    ensures Concat(parts[..i + 1]) == Concat(parts[..i]) + parts[i]
  {
    assert parts[..i + 1][..i] == parts[..i];
  }

  /** Each part stands where the parts before it end. */
  lemma {:induction false} ConcatHolds(parts: seq<seq<Byte>>, i: nat)
    requires i < |parts|
    ensures Holds(Concat(parts), |Concat(parts[..i])|, parts[i])
    decreases |parts|
  {
    var n := |parts| - 1;
    if i == n {
      HoldsEnd(Concat(parts[..n]), parts[n], []);
    } else {
      assert parts[..n][..i] == parts[..i];
      ConcatHolds(parts[..n], i);
      HoldsMore(Concat(parts[..n]), parts[n], |Concat(parts[..i])|, parts[i]);
    }
  }

  lemma {:induction false} ConcatUniform(parts: seq<seq<Byte>>, w: nat)
    requires forall i :: 0 <= i < |parts| ==> |parts[i]| == w
    ensures |Concat(parts)| == w * |parts|
  {
    if |parts| > 0 {
      ConcatUniform(parts[..|parts| - 1], w);
    }
  }
}
