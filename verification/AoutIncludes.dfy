/** Header brackets among the debugging symbols of an object file: which symbols a header contains, what its
    contents add up to, and what happens when it was seen before. */
module AoutIncludes {
  import opened Words

  const N_BINCL: Byte := 0x82
  const N_EINCL: Byte := 0xa2
  const N_EXCL: Byte := 0xc2
  const PAREN: Byte := 40

  /** A symbol as far as headers are concerned. */
  datatype Stab = Stab(type_: Byte, name: seq<Byte>)

  // ---- brackets ----

  /** The headers that are open before symbol `k`, the innermost last. */
  function Open(syms: seq<Stab>, k: nat): (s: seq<nat>)
    requires k <= |syms|
    ensures forall i :: 0 <= i < |s| ==> s[i] < k && syms[s[i]].type_ == N_BINCL
    ensures forall i, j :: 0 <= i < j < |s| ==> s[i] < s[j]
  {
    if k == 0 then []
    else
      var s := Open(syms, k - 1);
      if syms[k - 1].type_ == N_BINCL then s + [k - 1]
      else if syms[k - 1].type_ == N_EINCL && |s| > 0 then s[..|s| - 1]
      else s
  }

  /** Symbol `j` belongs to header `i`: it closes it or stands in it, but in no header inside. */
  predicate Within(syms: seq<Stab>, i: nat, j: nat)
    requires j < |syms|
  {
    syms[j].type_ != N_BINCL && var s := Open(syms, j); |s| > 0 && s[|s| - 1] == i
  }

  /** A header that is no longer open stays closed. */
  lemma {:induction false} ClosedForGood(syms: seq<Stab>, i: nat, j: nat, k: nat)
    requires i < j <= k <= |syms| && i !in Open(syms, j)
    ensures i !in Open(syms, k)
    decreases k
  {
    if j < k {
      ClosedForGood(syms, i, j, k - 1);
    }
  }

  lemma OutsideForGood(syms: seq<Stab>, i: nat, j: nat, k: nat)
    requires i < j <= k < |syms| && i !in Open(syms, j)
    ensures !Within(syms, i, k)
  {
    ClosedForGood(syms, i, j, k);
  }

  // ---- what a header adds up to ----

  function SkipDigits(s: seq<Byte>): (t: seq<Byte>)
    ensures |t| <= |s| && t == s[|s| - |t|..]
    ensures forall k :: 0 <= k < |s| - |t| ==> IsDigit(s[k])
    ensures |t| > 0 ==> !IsDigit(t[0])
  {
    if |s| > 0 && IsDigit(s[0]) then SkipDigits(s[1..]) else s
  }

  /** A `char` as a number. */
  function CharValue(b: Byte): int {
    if b < 128 then b else b - 256
  }

  /** The characters of a stab string, without the file numbers behind opening parentheses. */
  function Sum(s: seq<Byte>): int
    decreases |s|
  {
    if |s| == 0 then 0
    else CharValue(s[0]) + Sum(if s[0] == PAREN then SkipDigits(s[1..]) else s[1..])
  }

  /** Adds up what symbols `from`..`k - 1` contribute to header `i`. */
  function Contents(syms: seq<Stab>, i: nat, from: nat, k: nat): int
    requires from <= k <= |syms|
  {
    if k == from then 0
    else Contents(syms, i, from, k - 1) + Share(syms, i, k - 1)
  }

  function Share(syms: seq<Stab>, i: nat, j: nat): int
    requires j < |syms|
  {
    if Within(syms, i, j) && syms[j].type_ != N_EINCL then Sum(syms[j].name) else 0
  }

  function Total(syms: seq<Stab>, i: nat): int
    requires i < |syms|
  {
    Wrap(Contents(syms, i, i + 1, |syms|))
  }

  lemma {:induction false} NothingLeft(syms: seq<Stab>, i: nat, from: nat, j: nat, k: nat)
    requires from <= j <= k <= |syms| && i < j && i !in Open(syms, j)
    ensures Contents(syms, i, from, k) == Contents(syms, i, from, j)
    decreases k
  {
    if j < k {
      NothingLeft(syms, i, from, j, k - 1);
      ClosedForGood(syms, i, j, k - 1);
    }
  }

  /** A scan inside header `i` with `nest` further headers open. */
  predicate Inside(syms: seq<Stab>, i: nat, j: nat, nest: nat)
    requires i < j <= |syms|
  {
    var s := Open(syms, j);
    && |Open(syms, i)| + 1 + nest == |s| && s[|s| - 1 - nest] == i
  }

  /** How a scan goes on from symbol `j`. */
  lemma ScanStep(syms: seq<Stab>, i: nat, j: nat, nest: nat)
    requires i < j < |syms| && Inside(syms, i, j, nest)
    ensures nest == 0 ==> (Within(syms, i, j) <==> syms[j].type_ != N_BINCL)
    ensures nest > 0 ==> !Within(syms, i, j)
    ensures syms[j].type_ == N_BINCL ==> Inside(syms, i, j + 1, nest + 1)
    ensures syms[j].type_ == N_EINCL && nest > 0 ==> Inside(syms, i, j + 1, nest - 1)
    ensures syms[j].type_ == N_EINCL && nest == 0 ==> i !in Open(syms, j + 1)
    ensures syms[j].type_ != N_BINCL && syms[j].type_ != N_EINCL ==> Inside(syms, i, j + 1, nest)
  {
  }

  lemma ScanStart(syms: seq<Stab>, i: nat)
    requires i < |syms| && syms[i].type_ == N_BINCL
    ensures Inside(syms, i, i + 1, 0)
  {
  }

  method SumString(name: seq<Byte>) returns (val: int)
    ensures val == Sum(name)
  {
    val := 0;
    var s := name;
    while |s| > 0
      invariant val + Sum(s) == Sum(name)
      decreases |s|
    {
      val := val + CharValue(s[0]);
      if s[0] == PAREN {
        var t := s[1..];
        while |t| > 0 && IsDigit(t[0])
          invariant SkipDigits(t) == SkipDigits(s[1..]) && |t| < |s|
          decreases |t|
        {
          t := t[1..];
        }
        s := t;
      } else {
        s := s[1..];
      }
    }
  }

  /** The first scan from a header: its total. */
  method HeaderTotal(syms: seq<Stab>, i: nat) returns (val: int)
    requires i < |syms| && syms[i].type_ == N_BINCL
    ensures val == Total(syms, i)
  {
    hide Open, Inside, Within, Sum;
    ScanStart(syms, i);
    val := 0;
    var nest: nat := 0;
    var j := i + 1;
    while j < |syms|
      invariant i < j <= |syms| && Inside(syms, i, j, nest) && val == Contents(syms, i, i + 1, j)
    {
      ScanStep(syms, i, j, nest);
      if syms[j].type_ == N_EINCL {
        if nest == 0 {
          NothingLeft(syms, i, i + 1, j + 1, |syms|);
          break;
        }
        nest := nest - 1;
      } else if syms[j].type_ == N_BINCL {
        nest := nest + 1;
      } else if nest == 0 {
        var n := SumString(syms[j].name);
        val := val + n;
      }
      j := j + 1;
    }
    val := Wrap(val);
  }

  /** The second scan, for a header seen before: what belongs to it will not be output. */
  method MarkHeader(syms: seq<Stab>, i: nat, symbolMap: array<int>)
    requires i < |syms| <= symbolMap.Length && syms[i].type_ == N_BINCL
    modifies symbolMap
    ensures forall j :: 0 <= j < symbolMap.Length ==>
      symbolMap[j] == if i < j < |syms| && Within(syms, i, j) then -1 else old(symbolMap[j])
  {
    hide Open, Inside, Within;
    ScanStart(syms, i);
    var nest: nat := 0;
    var j := i + 1;
    while j < |syms|
      invariant i < j <= |syms| && Inside(syms, i, j, nest)
      invariant forall k :: 0 <= k < symbolMap.Length ==>
        symbolMap[k] == if i < k < j && Within(syms, i, k) then -1 else old(symbolMap[k])
    {
      ScanStep(syms, i, j, nest);
      if syms[j].type_ == N_EINCL {
        if nest == 0 {
          symbolMap[j] := -1;
          forall k | j < k < |syms| ensures !Within(syms, i, k) {
            OutsideForGood(syms, i, j + 1, k);
          }
          break;
        }
        nest := nest - 1;
      } else if syms[j].type_ == N_BINCL {
        nest := nest + 1;
      } else if nest == 0 {
        symbolMap[j] := -1;
      }
      j := j + 1;
    }
  }

  // ---- what counts, and that file numbers do not ----

  predicate Digits(s: seq<Byte>) {
    forall k :: 0 <= k < |s| ==> 48 <= s[k] <= 57
  }

  /** A digit behind `a` would belong to a file number: `a` ends in an opening parenthesis and digits. */
  predicate InNumber(a: seq<Byte>) {
    exists j :: 0 <= j < |a| && a[j] == 40 && Digits(a[j + 1..])
  }

  /** What follows does not continue a file number. */
  predicate Separate(a: seq<Byte>, rest: seq<Byte>) {
    rest == [] || !(48 <= rest[0] <= 57) || !InNumber(a)
  }

  lemma {:induction false} SkipAppend(x: seq<Byte>, y: seq<Byte>)
    requires |SkipDigits(x)| > 0 || y == [] || !IsDigit(y[0])
    ensures SkipDigits(x + y) == SkipDigits(x) + y
  {
    if |x| == 0 {
      assert x + y == y;
    } else if IsDigit(x[0]) {
      assert (x + y)[1..] == x[1..] + y;
      SkipAppend(x[1..], y);
    }
  }

  lemma TailInNumber(a: seq<Byte>, n: nat)
    requires n <= |a| && InNumber(a[n..])
    ensures InNumber(a)
  {
    var j :| 0 <= j < |a[n..]| && a[n..][j] == 40 && Digits(a[n..][j + 1..]);
    assert a[n..][j + 1..] == a[n + j + 1..];
    assert a[n + j] == 40;
  }

  /** Strings add up piece by piece, if they are not taken apart inside a file number. */
  lemma {:induction false} SumOfParts(a: seq<Byte>, rest: seq<Byte>)
    requires Separate(a, rest)
    ensures Sum(a + rest) == Sum(a) + Sum(rest)
    decreases |a|
  {
    hide Sum, Separate;
    if |a| == 0 {
      assert a + rest == rest;
      assert Sum(a) == 0 by {
        SumOfNothing(a);
      }
    } else {
      var n := FirstPart(a, rest);
      SumOfParts(a[n..], rest);
    }
  }

  lemma SumOfNothing(a: seq<Byte>)
    requires |a| == 0
    ensures Sum(a) == 0
  {
  }

  /** Where the scan goes on behind the first character, and the number behind that. */
  lemma FirstPart(a: seq<Byte>, rest: seq<Byte>) returns (n: nat)
    requires Separate(a, rest) && |a| > 0
    ensures 0 < n <= |a| && Separate(a[n..], rest)
    ensures Sum(a) == CharValue(a[0]) + Sum(a[n..]) && Sum(a + rest) == CharValue(a[0]) + Sum(a[n..] + rest)
  {
    hide InNumber, Digits, Sum, SkipDigits;
    var t := if a[0] == PAREN then SkipDigits(a[1..]) else a[1..];
    n := |a| - |t|;
    assert t == a[n..];
    assert (a + rest)[1..] == a[1..] + rest;
    if a[0] == PAREN {
      NumberIsOpen(a);
      SkipAppend(a[1..], rest);
    }
    SumStep(a, t);
    SumStep(a + rest, t + rest);
    if InNumber(t) {
      TailInNumber(a, n);
    }
  }

  lemma SumStep(s: seq<Byte>, t: seq<Byte>)
    requires |s| > 0 && t == if s[0] == PAREN then SkipDigits(s[1..]) else s[1..]
    ensures Sum(s) == CharValue(s[0]) + Sum(t)
  {
    hide SkipDigits;
  }

  lemma NumberIsOpen(a: seq<Byte>)
    requires |a| > 0 && a[0] == PAREN
    ensures SkipDigits(a[1..]) == [] ==> InNumber(a)
  {
    if SkipDigits(a[1..]) == [] {
      assert a[0] == 40 && Digits(a[1..]);
    }
  }

  lemma {:induction false} SkipAll(p: seq<Byte>)
    requires Digits(p)
    ensures SkipDigits(p) == []
  {
    if |p| > 0 {
      SkipAll(p[1..]);
    }
  }

  lemma SumOfNumber(p: seq<Byte>)
    requires Digits(p)
    ensures Sum([40] + p) == 40
  {
    SkipAll(p);
    assert ([40] + p)[1..] == p;
  }

  /** Digits behind an opening parenthesis do not count, whatever they are and however many. */
  lemma NumbersDoNotCount(a: seq<Byte>, p: seq<Byte>, q: seq<Byte>, rest: seq<Byte>)
    requires Digits(p) && Digits(q) && (rest == [] || !(48 <= rest[0] <= 57))
    ensures Sum(a + [40] + p + rest) == Sum(a + [40] + q + rest) == Sum(a) + 40 + Sum(rest)
  {
    WithNumber(a, p, rest);
    WithNumber(a, q, rest);
  }

  lemma WithNumber(a: seq<Byte>, p: seq<Byte>, rest: seq<Byte>)
    requires Digits(p) && (rest == [] || !(48 <= rest[0] <= 57))
    ensures Sum(a + [40] + p + rest) == Sum(a) + 40 + Sum(rest)
  {
    hide Sum, InNumber, Digits;
    var middle: seq<Byte> := [40] + p;
    SumOfNumber(p);
    SumOfParts(middle, rest);
    SumOfParts(a, middle + rest);
    assert a + [40] + p + rest == a + (middle + rest);
  }

  /** Every other character counts as the signed number it is, and one for another makes the difference. */
  lemma CharactersCount(a: seq<Byte>, c: Byte, d: Byte, rest: seq<Byte>)
    requires Separate(a, [c]) && Separate([c], rest) && Separate(a, [d]) && Separate([d], rest)
    ensures var was, now := if c < 128 then c as int else c - 256, if d < 128 then d as int else d - 256;
      && Sum(a + [c] + rest) == Sum(a) + was + Sum(rest)
      && Sum(a + [d] + rest) == Sum(a + [c] + rest) + now - was
  {
    OneCharacter(a, c, rest);
    OneCharacter(a, d, rest);
  }

  lemma OneCharacter(a: seq<Byte>, c: Byte, rest: seq<Byte>)
    requires Separate(a, [c]) && Separate([c], rest)
    ensures Sum(a + [c] + rest) == Sum(a) + (if c < 128 then c as int else c - 256) + Sum(rest)
  {
    hide Sum, Separate;
    SumOfOne(c);
    SeparateFromMore(a, c, rest);
    SumOfParts([c], rest);
    SumOfParts(a, [c] + rest);
    assert a + [c] + rest == a + ([c] + rest);
  }

  lemma SumOfOne(c: Byte)
    ensures Sum([c]) == if c < 128 then c as int else c - 256
  {
    if c == PAREN {
      SkipAll([]);
    }
  }

  lemma SeparateFromMore(a: seq<Byte>, c: Byte, rest: seq<Byte>)
    requires Separate(a, [c])
    ensures Separate(a, [c] + rest)
  {
    hide InNumber;
  }

  /** A string made of texts with numbers between them. */
  function Joined(texts: seq<seq<Byte>>, numbers: seq<seq<Byte>>): seq<Byte>
    requires |texts| == |numbers| + 1
  {
    if |numbers| == 0 then texts[0] else texts[0] + numbers[0] + Joined(texts[1..], numbers[1..])
  }

  /** The numbers are the file numbers: an opening parenthesis before each, no digit behind. */
  predicate FileNumbers(texts: seq<seq<Byte>>, numbers: seq<seq<Byte>>) {
    |texts| == |numbers| + 1 && forall i :: 0 <= i < |numbers| ==> FileNumber(texts[i], numbers[i], texts[i + 1])
  }

  predicate FileNumber(before: seq<Byte>, number: seq<Byte>, behind: seq<Byte>) {
    && |before| > 0 && before[|before| - 1] == 40 && Digits(number)
    && (behind == [] || !(48 <= behind[0] <= 57))
  }

  /** Two strings that differ in nothing but their file numbers. */
  ghost predicate Renumbered(x: seq<Byte>, y: seq<Byte>) {
    exists texts, p, q :: && FileNumbers(texts, p) && FileNumbers(texts, q)
                          && x == Joined(texts, p) && y == Joined(texts, q)
  }

  lemma {:induction false} JoinedSums(texts: seq<seq<Byte>>, p: seq<seq<Byte>>, q: seq<seq<Byte>>)
    requires FileNumbers(texts, p) && FileNumbers(texts, q)
    ensures Sum(Joined(texts, p)) == Sum(Joined(texts, q))
    decreases |texts|
  {
    hide Sum, Digits;
    if |p| > 0 {
      assert FileNumber(texts[0], p[0], texts[1]) && FileNumber(texts[0], q[0], texts[1]);
      var t, m := texts[1..], texts[0][..|texts[0]| - 1];
      FileNumbersRest(texts, p);
      FileNumbersRest(texts, q);
      JoinedSums(t, p[1..], q[1..]);
      assert texts[0] == m + [40];
      WithNumber(m, p[0], Joined(t, p[1..]));
      WithNumber(m, q[0], Joined(t, q[1..]));
    }
  }

  lemma FileNumbersRest(texts: seq<seq<Byte>>, p: seq<seq<Byte>>)
    requires FileNumbers(texts, p) && |p| > 0
    ensures FileNumbers(texts[1..], p[1..])
    ensures var j := Joined(texts[1..], p[1..]); j == [] || !(48 <= j[0] <= 57)
  {
    var t, r := texts[1..], p[1..];
    forall i | 0 <= i < |r| ensures FileNumber(t[i], r[i], t[i + 1]) {
      assert FileNumber(texts[i + 1], p[i + 1], texts[i + 2]);
    }
    assert FileNumber(texts[0], p[0], texts[1]);
    assert |p| > 1 ==> FileNumber(texts[1], p[1], texts[2]);
  }

  lemma RenumberedSum(x: seq<Byte>, y: seq<Byte>)
    requires Renumbered(x, y)
    ensures Sum(x) == Sum(y)
  {
    hide Sum, Joined;
    var texts, p, q :| && FileNumbers(texts, p) && FileNumbers(texts, q)
                       && x == Joined(texts, p) && y == Joined(texts, q);
    JoinedSums(texts, p, q);
  }

  /** The same symbols but for the file numbers in their names. */
  ghost predicate SameButNumbers(a: seq<Stab>, b: seq<Stab>) {
    |a| == |b| && forall k :: 0 <= k < |a| ==> a[k].type_ == b[k].type_ && Renumbered(a[k].name, b[k].name)
  }

  lemma {:induction false} SameOpen(a: seq<Stab>, b: seq<Stab>, k: nat)
    requires SameButNumbers(a, b) && k <= |a|
    ensures Open(a, k) == Open(b, k)
  {
    hide Renumbered;
    if k > 0 {
      SameOpen(a, b, k - 1);
    }
  }

  lemma SameShare(a: seq<Stab>, b: seq<Stab>, i: nat, j: nat)
    requires SameButNumbers(a, b) && j < |a|
    ensures Share(a, i, j) == Share(b, i, j)
  {
    hide Open, Sum, Renumbered;
    SameOpen(a, b, j);
    RenumberedSum(a[j].name, b[j].name);
  }

  lemma {:induction false} SameContents(a: seq<Stab>, b: seq<Stab>, i: nat, from: nat, k: nat)
    requires SameButNumbers(a, b) && from <= k <= |a|
    ensures Contents(a, i, from, k) == Contents(b, i, from, k)
    decreases k
  {
    hide Share, SameButNumbers;
    if k > from {
      LengthsAgree(a, b);
      SameContents(a, b, i, from, k - 1);
      SameShare(a, b, i, k - 1);
    }
  }

  lemma LengthsAgree(a: seq<Stab>, b: seq<Stab>)
    requires SameButNumbers(a, b)
    ensures |a| == |b|
  {
  }

  /** The total of a header does not depend on the file numbers in its types. */
  lemma TotalIgnoresFileNumbers(a: seq<Stab>, b: seq<Stab>, i: nat)
    requires SameButNumbers(a, b) && i < |a|
    ensures Total(a, i) == Total(b, i)
  {
    SameContents(a, b, i, i + 1, |a|);
  }

  // ---- brackets in the output ----

  /** How many brackets are open at the end, unless one closes that was not opened. */
  function Level(types: seq<Byte>): int
    ensures Level(types) >= -1
  {
    if |types| == 0 then 0
    else
      LevelStep(Level(types[..|types| - 1]), types[|types| - 1])
  }

  function LevelStep(l: int, t: Byte): (n: int)
    ensures n >= -1
  {
    if l < 0 then -1
    else if t == N_BINCL then l + 1
    else if t == N_EINCL then l - 1
    else l
  }

  lemma LevelAppend(types: seq<Byte>, t: Byte)
    ensures Level(types + [t]) == LevelStep(Level(types), t)
  {
    assert (types + [t])[..|types|] == types;
  }

  predicate Balanced(types: seq<Byte>) {
    Level(types) == 0
  }

  /** The types of the first `k` symbols. */
  function Types(syms: seq<Stab>, k: nat): (t: seq<Byte>)
    requires k <= |syms|
    ensures |t| == k
  {
    seq(k, j requires 0 <= j < k => syms[j].type_)
  }

  /** A symbol that belongs to one of the headers `dups`. */
  predicate Dropped(syms: seq<Stab>, dups: set<nat>, j: nat)
    requires j < |syms|
  {
    exists i :: i in dups && Within(syms, i, j)
  }

  /** The types that remain when the headers `dups` are replaced. */
  function Reduced(syms: seq<Stab>, dups: set<nat>, k: nat): seq<Byte>
    requires k <= |syms|
  {
    if k == 0 then []
    else if Dropped(syms, dups, k - 1) then Reduced(syms, dups, k - 1)
    else Reduced(syms, dups, k - 1) + [if k - 1 in dups then N_EXCL else syms[k - 1].type_]
  }

  /** How many of the open headers are not replaced. */
  function Kept(open: seq<nat>, dups: set<nat>): nat {
    if |open| == 0 then 0
    else Kept(open[..|open| - 1], dups) + if open[|open| - 1] in dups then 0 else 1
  }

  lemma {:induction false} LevelIsOpen(syms: seq<Stab>, k: nat)
    requires k <= |syms| && Level(Types(syms, k)) >= 0
    ensures Level(Types(syms, k)) == |Open(syms, k)|
  {
    if k > 0 {
      assert Types(syms, k)[..k - 1] == Types(syms, k - 1);
      LevelIsOpen(syms, k - 1);
    }
  }

  lemma {:induction false} LevelOfPrefix(syms: seq<Stab>, j: nat, k: nat)
    requires j <= k <= |syms| && Level(Types(syms, k)) >= 0
    ensures Level(Types(syms, j)) >= 0
    decreases k
  {
    if j < k {
      assert Types(syms, k)[..k - 1] == Types(syms, k - 1);
      LevelOfPrefix(syms, j, k - 1);
    }
  }

  lemma {:induction false} ReducedLevel(syms: seq<Stab>, dups: set<nat>, k: nat)
    requires k <= |syms| && Level(Types(syms, k)) >= 0
    requires forall i :: i in dups && i < |syms| ==> syms[i].type_ == N_BINCL
    ensures Level(Reduced(syms, dups, k)) == Kept(Open(syms, k), dups)
  {
    hide Open, Dropped, Level, Types;
    if k == 0 {
      NothingOpen(syms, dups);
    } else {
      var t := syms[k - 1].type_;
      LevelOfPrefix(syms, k - 1, k);
      ReducedLevel(syms, dups, k - 1);
      LevelAppend(Reduced(syms, dups, k - 1), if k - 1 in dups then N_EXCL else t);
      DroppedWhere(syms, dups, k - 1);
      OpenStep(syms, dups, k);
      if t == N_EINCL {
        ClosesSomething(syms, k);
      }
    }
  }

  lemma NothingOpen(syms: seq<Stab>, dups: set<nat>)
    ensures Level([]) == Kept(Open(syms, 0), dups)
  {
  }

  lemma ClosesSomething(syms: seq<Stab>, k: nat)
    requires 0 < k <= |syms| && Level(Types(syms, k)) >= 0 && syms[k - 1].type_ == N_EINCL
    ensures |Open(syms, k - 1)| > 0
  {
    assert Types(syms, k)[..k - 1] == Types(syms, k - 1);
    LevelIsOpen(syms, k - 1);
  }

  /** A symbol is dropped if and only if the innermost open header is replaced, and it opens none itself. */
  lemma DroppedWhere(syms: seq<Stab>, dups: set<nat>, j: nat)
    requires j < |syms|
    ensures var s := Open(syms, j);
            Dropped(syms, dups, j) <==> syms[j].type_ != N_BINCL && |s| > 0 && s[|s| - 1] in dups
  {
    var s := Open(syms, j);
    if syms[j].type_ != N_BINCL && |s| > 0 {
      assert Within(syms, s[|s| - 1], j);
    }
  }

  lemma OpenStep(syms: seq<Stab>, dups: set<nat>, k: nat)
    requires 0 < k <= |syms|
    ensures var s := Open(syms, k - 1); var t := Open(syms, k); var b := syms[k - 1].type_;
            && (b == N_BINCL ==> Kept(t, dups) == Kept(s, dups) + if k - 1 in dups then 0 else 1)
            && (b == N_EINCL && |s| > 0 ==> Kept(t, dups) == Kept(s, dups) - if s[|s| - 1] in dups then 0 else 1)
            && (b != N_BINCL && b != N_EINCL ==> t == s)
  {
    var s := Open(syms, k - 1);
    assert (s + [k - 1])[..|s|] == s;
  }

  /** Whatever headers are replaced, balanced brackets stay balanced. */
  lemma BracketsStayBalanced(syms: seq<Stab>, dups: set<nat>)
    requires Balanced(Types(syms, |syms|))
    requires forall i :: i in dups && i < |syms| ==> syms[i].type_ == N_BINCL
    ensures Balanced(Reduced(syms, dups, |syms|))
  {
    ReducedLevel(syms, dups, |syms|);
    LevelIsOpen(syms, |syms|);
  }
}
