/** The order in which b.out relocations reach relaxation: `b_out_slurp_reloc_table` inserts each one as it is read. */
module BoutSort {
  import opened BoutRelax

  /** Where a relocation goes among sorted ones: behind the last that is not beyond it. */
  function Slot(s: seq<Reloc>, r: Reloc): (p: nat)
    ensures p <= |s|
    ensures p > 0 ==> s[p - 1].address <= r.address
    ensures forall k :: p <= k < |s| ==> s[k].address > r.address
  {
    if |s| == 0 || s[|s| - 1].address <= r.address then |s| else Slot(s[..|s| - 1], r)
  }

  function Insert(s: seq<Reloc>, r: Reloc): (t: seq<Reloc>)
    ensures |t| == |s| + 1
  {
    s[..Slot(s, r)] + [r] + s[Slot(s, r)..]
  }

  /** The table after the first `k` relocations of the file. */
  function Table(rs: seq<Reloc>, k: nat): (t: seq<Reloc>)
    requires k <= |rs|
    ensures |t| == k
  {
    if k == 0 then [] else Insert(Table(rs, k - 1), rs[k - 1])
  }

  predicate Sorted(s: seq<Reloc>) {
    forall i, j :: 0 <= i < j < |s| ==> s[i].address <= s[j].address
  }

  lemma InsertSorted(s: seq<Reloc>, r: Reloc)
    requires Sorted(s)
    ensures Sorted(Insert(s, r))
  {
  }

  /** The relocations at one address, in order. */
  function AtAddress(s: seq<Reloc>, a: int): seq<Reloc> {
    if |s| == 0 then []
    else AtAddress(s[..|s| - 1], a) + if s[|s| - 1].address == a then [s[|s| - 1]] else []
  }

  lemma {:induction false} AtAddressConcat(s: seq<Reloc>, t: seq<Reloc>, a: int)
    ensures AtAddress(s + t, a) == AtAddress(s, a) + AtAddress(t, a)
    decreases |t|
  {
    if |t| == 0 {
      assert s + t == s;
    } else {
      assert (s + t)[..|s + t| - 1] == s + t[..|t| - 1];
      AtAddressConcat(s, t[..|t| - 1], a);
    }
  }

  lemma {:induction false} NoneAt(s: seq<Reloc>, a: int)
    requires forall k :: 0 <= k < |s| ==> s[k].address != a
    ensures AtAddress(s, a) == []
  {
    if |s| > 0 {
      NoneAt(s[..|s| - 1], a);
    }
  }

  /** A relocation goes behind those at its own address. */
  lemma InsertAtAddress(s: seq<Reloc>, r: Reloc, a: int)
    ensures AtAddress(Insert(s, r), a) == AtAddress(s + [r], a)
  {
    hide AtAddress;
    var p := Slot(s, r);
    AtAddressConcat(s[..p] + [r], s[p..], a);
    AtAddressConcat(s[..p], [r], a);
    AtAddressConcat(s[..p], s[p..], a);
    AtAddressConcat(s, [r], a);
    assert s[..p] + s[p..] == s;
    if a == r.address {
      NoneAt(s[p..], a);
    } else {
      NoneAt([r], a);
    }
  }

  lemma InsertContents(s: seq<Reloc>, r: Reloc)
    ensures multiset(Insert(s, r)) == multiset(s) + multiset{r}
  {
    var p := Slot(s, r);
    assert s[..p] + s[p..] == s;
  }

  /** The table is sorted by address, holds exactly the file's relocations, and keeps the file's order where
      addresses are equal. */
  lemma {:induction false} TableIsStableSort(rs: seq<Reloc>, k: nat, a: int)
    requires k <= |rs|
    ensures Sorted(Table(rs, k)) && multiset(Table(rs, k)) == multiset(rs[..k])
    ensures AtAddress(Table(rs, k), a) == AtAddress(rs[..k], a)
  {
    hide AtAddress, Sorted, Insert;
    if k == 0 {
      NothingSorted(a);
    } else {
      var t := Table(rs, k - 1);
      TableIsStableSort(rs, k - 1, a);
      InsertSorted(t, rs[k - 1]);
      InsertContents(t, rs[k - 1]);
      InsertAtAddress(t, rs[k - 1], a);
      assert rs[..k] == rs[..k - 1] + [rs[k - 1]];
      AtAddressConcat(t, [rs[k - 1]], a);
      AtAddressConcat(rs[..k - 1], [rs[k - 1]], a);
    }
  }

  lemma NothingSorted(a: int)
    ensures Sorted([]) && AtAddress([], a) == []
  {
  }

  /** Makes room for the relocation at `n` among the sorted ones before it. The bound is tested before the address
      here; the outcome is the same, whatever stands before the table. */
  method InsertLast(cache: array<Reloc>, n: nat)
    requires n < cache.Length
    modifies cache
    ensures cache[..n + 1] == Insert(old(cache[..n]), old(cache[n]))
    ensures cache[n + 1..] == old(cache[n + 1..])
  {
    hide Insert, Slot;
    ghost var was := cache[..];
    var tmp := cache[n];
    var cursor := n;
    while cursor > 0 && cache[cursor - 1].address > tmp.address
      invariant cursor <= n && Shifting(cache[..], was, n, cursor)
      invariant forall k :: cursor <= k < n ==> was[k].address > tmp.address
    {
      cache[cursor] := cache[cursor - 1];
      cursor := cursor - 1;
    }
    cache[cursor] := tmp;
    ShiftDone(cache[..], was, n, cursor);
  }

  /** The relocations before `n` that are past `cursor` stand one place further on; place `cursor` is free. */
  predicate Shifting(now: seq<Reloc>, was: seq<Reloc>, n: nat, cursor: nat) {
    && |now| == |was| && cursor <= n < |now|
    && (forall k :: 0 <= k < |now| && (k < cursor || n < k) ==> now[k] == was[k])
    && (forall k :: cursor < k <= n ==> now[k] == was[k - 1])
  }

  lemma ShiftDone(now: seq<Reloc>, was: seq<Reloc>, n: nat, cursor: nat)
    requires Shifting(now, was, n, cursor) && now[cursor] == was[n]
    requires cursor > 0 ==> was[cursor - 1].address <= was[n].address
    requires forall k :: cursor <= k < n ==> was[k].address > was[n].address
    ensures now[..n + 1] == Insert(was[..n], was[n]) && now[n + 1..] == was[n + 1..]
  {
    SlotIs(was[..n], was[n], cursor);
    var t := was[..n][..cursor] + [was[n]] + was[..n][cursor..];
    assert Insert(was[..n], was[n]) == t;
    forall k | 0 <= k < n + 1 ensures now[k] == t[k] {
      assert k > cursor ==> t[k] == was[k - 1];
    }
    assert now[..n + 1] == t;
  }

  lemma SlotIs(s: seq<Reloc>, r: Reloc, p: nat)
    requires p <= |s| && (p > 0 ==> s[p - 1].address <= r.address)
    requires forall k :: p <= k < |s| ==> s[k].address > r.address
    ensures Slot(s, r) == p
  {
  }

  /** The addresses of the file's records are unsigned. */
  predicate Unsigned(rs: seq<Reloc>) {
    forall k :: 0 <= k < |rs| ==> rs[k].address >= 0
  }

  /** The last relocation of the table is the furthest; one that is not before it goes to the end. */
  lemma InsertedLast(rs: seq<Reloc>, k: nat)
    requires 0 < k < |rs|
    ensures var t := Table(rs, k); var last := t[k - 1];
            && (rs[k].address >= last.address ==> Table(rs, k + 1) == t + [rs[k]])
            && (rs[k].address < last.address ==> Table(rs, k + 1)[k] == last)
  {
    var t := Table(rs, k);
    if rs[k].address >= t[k - 1].address {
      assert t[k..] == [];
    }
  }

  /** One relocation read. */
  method TakeIn(cache: array<Reloc>, rs: seq<Reloc>, counter: nat, prevAddress: int) returns (prev: int)
    requires Unsigned(rs) && counter < cache.Length == |rs| && cache[..counter] == Table(rs, counter)
    requires prevAddress == if counter == 0 then 0 else Table(rs, counter)[counter - 1].address
    modifies cache
    ensures cache[..counter + 1] == Table(rs, counter + 1) && prev == Table(rs, counter + 1)[counter].address
  {
    hide Insert, Table;
    TableStep(rs, counter);
    if counter == 0 {
      TableBegins(rs);
    } else {
      InsertedLast(rs, counter);
    }
    cache[counter] := rs[counter];
    assert cache[..counter] == Table(rs, counter);
    if cache[counter].address < prevAddress {
      prev := prevAddress;
      InsertLast(cache, counter);
    } else {
      prev := cache[counter].address;
      assert cache[..counter + 1] == Table(rs, counter) + [rs[counter]];
    }
  }

  /** Reading the file's relocations into the table. */
  method SlurpTable(rs: seq<Reloc>) returns (cache: array<Reloc>)
    requires Unsigned(rs)
    ensures cache[..] == Table(rs, |rs|)
  {
    if |rs| == 0 {
      cache := new Reloc[0];
      return;
    }
    hide Table;
    cache := new Reloc[|rs|](_ => rs[0]);
    var prevAddress := 0;
    TableBegins(rs);
    for counter := 0 to |rs|
      invariant cache.Length == |rs| && cache[..counter] == Table(rs, counter)
      invariant prevAddress == if counter == 0 then 0 else Table(rs, counter)[counter - 1].address
    {
      prevAddress := TakeIn(cache, rs, counter, prevAddress);
    }
    assert cache[..|rs|] == cache[..];
  }

  lemma TableBegins(rs: seq<Reloc>)
    ensures Table(rs, 0) == []
    ensures |rs| > 0 ==> Table(rs, 1) == [rs[0]]
  {
  }

  lemma TableStep(rs: seq<Reloc>, k: nat)
    requires k < |rs|
    ensures Table(rs, k + 1) == Insert(Table(rs, k), rs[k])
  {
  }
}
