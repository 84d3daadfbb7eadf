/** Pieces cut out of a section, and where everything else moves. Relaxation fills in the numbers. */
module Layout {
  import opened Words

  /** Extent `i` is `start[i] .. end[i]` of the original section; `shrink[i]` is the total number of
      bytes removed by the extents before it. */
  datatype Shape = Shape(start: seq<int>, end: seq<int>, shrink: seq<int>, size: int)

  predicate Sound(l: Shape) {
    && |l.start| == |l.end| && |l.shrink| == |l.start| + 1 && l.shrink[0] == 0
    && 0 <= l.size < WORD
    && (forall i :: 0 <= i < |l.start| ==> 0 <= l.start[i] && l.end[i] <= l.size)
    && (forall i :: 0 <= i < |l.start| ==> 0 <= Delta(l, i) <= l.end[i] - l.start[i])
    && (forall i, j :: 0 <= i < j < |l.start| ==> l.end[i] <= l.start[j])
  }

  function Delta(l: Shape, i: int): int
    requires 0 <= i < |l.start| && |l.shrink| == |l.start| + 1
  {
    l.shrink[i + 1] - l.shrink[i]
  }

  type Cut = l: Shape | Sound(l) witness Shape([], [], [0], 0)

  /** `p` is strictly inside no extent that shrinks. */
  predicate Clear(l: Cut, p: int) {
    forall i :: 0 <= i < |l.start| && Delta(l, i) > 0 ==> p <= l.start[i] || l.end[i] <= p
  }

  /** The number of extents that end at or before `p`, counted from extent `i` on. */
  function Before(l: Cut, p: int, i: nat := 0): (k: nat)
    requires i <= |l.start|
    ensures i <= k <= |l.start|
    ensures forall j :: i <= j < k ==> l.end[j] <= p
    ensures forall j :: k <= j < |l.start| ==> p < l.end[j]
    decreases |l.start| - i
  {
    if i == |l.start| then i
    else if l.end[i] <= p then Before(l, p, i + 1)
    else
      assert forall j :: i < j < |l.start| ==> l.end[i] <= l.start[j] && Delta(l, j) >= 0;
      i
  }

  lemma {:induction false} BeforeGrows(l: Cut, p: int, q: int, i: nat)
    requires p <= q && i <= |l.start|
    ensures Before(l, p, i) <= Before(l, q, i)
    decreases |l.start| - i
  {
    if i < |l.start| && l.end[i] <= p {
      BeforeGrows(l, p, q, i + 1);
    }
  }

  lemma {:induction false} BeforeEnd(l: Cut, i: nat)
    requires i <= |l.start|
    ensures Before(l, l.size, i) == |l.start|
    decreases |l.start| - i
  {
    if i < |l.start| {
      BeforeEnd(l, i + 1);
    }
  }

  /** Where the byte at offset `p` goes. */
  function NewPosition(l: Cut, p: int): int {
    p - l.shrink[Before(l, p)]
  }

  lemma {:induction false} Grows(l: Cut, i: nat, k: nat)
    requires i <= k <= |l.start|
    ensures l.shrink[i] <= l.shrink[k]
  {
    if i < k {
      Grows(l, i, k - 1);
      assert Delta(l, k - 1) >= 0;
    }
  }

  /** What the extents from the `b`th on remove fits between `p`, which they follow, and their end. */
  lemma {:induction false} Removed(l: Cut, p: int, b: nat, c: nat)
    requires Clear(l, p) && b <= c <= |l.start|
    requires forall j :: b <= j < |l.start| ==> p < l.end[j]
    ensures b < c ==> l.shrink[c] - l.shrink[b] <= l.end[c - 1] - p || l.shrink[c] == l.shrink[b]
  {
    if b < c {
      Removed(l, p, b, c - 1);
      assert 0 <= Delta(l, c - 1) <= l.end[c - 1] - l.start[c - 1];
      assert b < c - 1 ==> l.end[c - 2] <= l.start[c - 1];
    }
  }

  /** Positions keep their order, and end up inside the shrunk section. */
  lemma OrderKept(l: Cut, p: int, q: int)
    requires p <= q && Clear(l, p) && Clear(l, q)
    ensures NewPosition(l, p) <= NewPosition(l, q)
  {
    var b, c := Before(l, p), Before(l, q);
    BeforeGrows(l, p, q, 0);
    Removed(l, p, b, c);
  }

  lemma InsideKept(l: Cut, p: int)
    requires 0 <= p <= l.size && Clear(l, p)
    ensures 0 <= NewPosition(l, p) <= l.size - l.shrink[|l.start|]
    ensures NewPosition(l, l.size) == l.size - l.shrink[|l.start|]
  {
    var b := Before(l, 0);
    if 0 < b {
      assert l.end[0] <= 0;
      FlatPrefix(l, b);
    }
    OrderKept(l, 0, p);
    BeforeEnd(l, 0);
    OrderKept(l, p, l.size);
  }

  lemma {:induction false} FlatPrefix(l: Cut, b: nat)
    requires b <= |l.start| && forall j :: 0 <= j < b ==> l.end[j] <= 0
    ensures l.shrink[b] == 0
  {
    if 0 < b {
      FlatPrefix(l, b - 1);
      assert 0 <= Delta(l, b - 1) <= l.end[b - 1] - l.start[b - 1];
    }
  }

  /** The shrunk extents follow one another as the original ones did. */
  lemma StartsInOrder(l: Cut, i: nat, k: nat)
    requires i < k < |l.start|
    ensures 0 <= l.start[i] - l.shrink[i] <= l.end[i] - l.shrink[i + 1] <= l.start[k] - l.shrink[k]
  {
    StartsAtZero(l, i);
    assert 0 <= Delta(l, i) <= l.end[i] - l.start[i];
    Gathered(l, i + 1, k);
  }

  lemma {:induction false} Gathered(l: Cut, i: nat, k: nat)
    requires 1 <= i <= k < |l.start|
    ensures l.end[i - 1] - l.shrink[i] <= l.start[k] - l.shrink[k]
  {
    if i < k {
      Gathered(l, i, k - 1);
      assert 0 <= Delta(l, k - 1) <= l.end[k - 1] - l.start[k - 1];
    }
  }

  lemma {:induction false} StartsAtZero(l: Cut, i: nat)
    requires i < |l.start|
    ensures 0 <= l.shrink[i] && 0 <= l.start[i] - l.shrink[i]
  {
    if 0 < i {
      StartsAtZero(l, i - 1);
      assert 0 <= Delta(l, i - 1) <= l.end[i - 1] - l.start[i - 1];
    }
  }

  // ---- symbols slipped step by step ----

  /** `v[k]` is a symbol's value before step `k`: a step that shrinks slips what lies past its start. */
  predicate Slips(l: Cut, v: seq<int>) {
    |v| == |l.shrink|
    && forall k :: 0 <= k < |l.start| ==> SlipStep(l, v, k)
  }

  predicate SlipStep(l: Cut, v: seq<int>, k: nat)
    requires |v| == |l.shrink| && k < |l.start|
  {
    v[k + 1] == if Delta(l, k) > 0 && v[k] > l.start[k] - l.shrink[k] then Wrap(v[k] - Delta(l, k)) else v[k]
  }

  /** The number of extents that start before `p`, counted from extent `i` on: the ones whose slip a
      symbol at `p` takes part in. */
  function Behind(l: Cut, p: int, i: nat := 0): (k: nat)
    requires i <= |l.start|
    ensures i <= k <= |l.start|
    ensures forall j :: i <= j < k ==> l.start[j] < p
    ensures k < |l.start| ==> p <= l.start[k]
    decreases |l.start| - i
  {
    if i < |l.start| && l.start[i] < p then Behind(l, p, i + 1) else i
  }

  /** Where a symbol at `p` ends, wherever `p` is, unless it slips below the section's start. */
  function Landing(l: Cut, p: int): int {
    p - l.shrink[Behind(l, p)]
  }

  lemma {:induction false} MovedWith(l: Cut, v: seq<int>, k: nat)
    requires Slips(l, v) && k <= |l.start| && 0 <= v[0] <= l.size && l.shrink[k] <= v[0]
    requires forall j :: 0 <= j < k ==> l.start[j] < v[0]
    ensures v[k] == v[0] - l.shrink[k]
  {
    if 0 < k {
      assert Delta(l, k - 1) >= 0;
      MovedWith(l, v, k - 1);
      assert SlipStep(l, v, k - 1);
      Grows(l, 0, k);
    }
  }

  lemma {:induction false} StaysBelow(l: Cut, v: seq<int>, i: nat, k: nat)
    requires Slips(l, v) && i < |l.start| && i <= k <= |l.start|
    requires v[i] <= l.start[i] - l.shrink[i]
    ensures v[k] == v[i]
  {
    if i < k {
      StaysBelow(l, v, i, k - 1);
      assert l.start[i] - l.shrink[i] <= l.start[k - 1] - l.shrink[k - 1] by {
        if i < k - 1 {
          StartsInOrder(l, i, k - 1);
        }
      }
      assert SlipStep(l, v, k - 1);
    }
  }

  /** Any symbol takes part in the slips of the extents that start before it, at every moment of the pass. */
  lemma SymbolLands(l: Cut, v: seq<int>, k: nat)
    requires Slips(l, v) && k <= |l.start| && 0 <= v[0] <= l.size && 0 <= Landing(l, v[0])
    ensures v[k] == v[0] - l.shrink[if k < Behind(l, v[0]) then k else Behind(l, v[0])]
    ensures 0 <= v[k] <= l.size
    ensures v[|l.start|] == Landing(l, v[0])
  {
    var b := Behind(l, v[0]);
    var c := if k < b then k else b;
    Grows(l, 0, c);
    Grows(l, c, b);
    MovedWith(l, v, c);
    MovedWith(l, v, b);
    if b < |l.start| {
      StaysBelow(l, v, b, |l.start|);
      if b < k {
        StaysBelow(l, v, b, k);
      }
    }
  }

  lemma {:induction false} Flat(l: Cut, a: nat, b: nat)
    requires a <= b <= |l.start| && forall j :: a <= j < b ==> Delta(l, j) == 0
    ensures l.shrink[a] == l.shrink[b]
  {
    if a < b {
      Flat(l, a, b - 1);
      assert Delta(l, b - 1) == 0;
    }
  }

  /** Outside the extents that shrink, a symbol ends where its byte does. */
  lemma LandsOnByte(l: Cut, p: int)
    requires 0 <= p <= l.size && Clear(l, p)
    ensures Landing(l, p) == NewPosition(l, p) >= 0
  {
    var a, b := Before(l, p), Behind(l, p);
    if a <= b {
      Flat(l, a, b);
    } else {
      forall j | b <= j < a ensures Delta(l, j) == 0 {
        assert p <= l.start[j];
      }
      Flat(l, b, a);
    }
    InsideKept(l, p);
  }

  /** Symbols follow their bytes. */
  lemma SymbolFollows(l: Cut, v: seq<int>, k: nat)
    requires Slips(l, v) && k <= |l.start| && 0 <= v[0] <= l.size && Clear(l, v[0])
    ensures 0 <= v[k] <= l.size
    ensures v[k] == v[0] - l.shrink[if k < Before(l, v[0]) then k else Before(l, v[0])]
    ensures v[|l.start|] == NewPosition(l, v[0])
  {
    var a, b := Before(l, v[0]), Behind(l, v[0]);
    LandsOnByte(l, v[0]);
    SymbolLands(l, v, k);
    if a < b {
      assert forall j :: a <= j < b ==> Delta(l, j) == 0;
      Flat(l, a, if k < a then a else if k < b then k else b);
    } else if b < a {
      forall j | b <= j < a ensures Delta(l, j) == 0 {
        assert v[0] <= l.start[j];
      }
      Flat(l, b, if k < b then b else if k < a then k else a);
    }
  }

  /** A jump that replaces a longer one over `bound` bytes: if the target was in reach when the step
      measured it from the end of the shortened jump, it is in reach from its start after all steps. */
  lemma StillInReach(l: Cut, v: seq<int>, i: nat, bound: int)
    requires Slips(l, v) && i < |l.start| && Delta(l, i) == 4 && l.end[i] == l.start[i] + 8
    requires 0 <= v[0] <= l.size && 0 <= Landing(l, v[0])
    requires forall k :: 0 <= k < |l.start| ==> Delta(l, k) <= bound
    requires -bound < v[i] - (l.start[i] + 4 - l.shrink[i]) < bound
    ensures -bound <= v[|l.start|] - (l.start[i] - l.shrink[i]) < bound
  {
    var b := Behind(l, v[0]);
    SymbolLands(l, v, i);
    if b <= i {
      if b < i {
        StartsInOrder(l, b, i);
      }
    } else {
      Grows(l, i + 1, b);
      assert Delta(l, b - 1) <= bound;
      if i < b - 1 {
        StartsInOrder(l, i, b - 1);
      }
    }
  }
}
