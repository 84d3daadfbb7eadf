/** The file descriptor cache: a circular doubly linked ring of the open BFDs, least recently used last. */
module FileCache {
  import opened Words
  import opened CacheSpec

  /** The stream a client of `b` believes to hold. A file that is still to be created is empty. */
  ghost function View(b: Bfd): Ref
    reads b
  {
    Ref(if b.iostream.File? then b.iostream.pos else if b.where >= 0 then b.where else 0,
        if b.Writes() && !b.openedOnce then [] else b.disk)
  }

  function Next(r: seq<Bfd>, i: nat): nat {
    if i + 1 < |r| then i + 1 else 0
  }

  function Prev(r: seq<Bfd>, i: nat): int {
    if 0 < i then i - 1 else |r| - 1
  }

  ghost predicate LinkedAt(r: seq<Bfd>, i: nat)
    requires i < |r|
    reads r[i]
  {
    r[i].lruNext == r[Next(r, i)] && r[i].lruPrev == r[Prev(r, i)]
  }

  /** Ring order: `r[0]` is the most recently used, each `lruNext` is the next, the last's the first. */
  ghost predicate Linked(r: seq<Bfd>)
    reads r
  {
    forall i :: 0 <= i < |r| ==> LinkedAt(r, i)
  }

  ghost predicate Distinct(r: seq<Bfd>) {
    forall i, j :: 0 <= i < j < |r| ==> r[i] != r[j]
  }

  /** An open stream allows what the BFD was opened for. */
  ghost predicate Usable(b: Bfd)
    reads b
  {
    && (b.iostream.File? ==> b.iostream.canWrite == b.Writes() && (b.Writes() || b.iostream.canRead))
    && (b.Writes() && !b.openedOnce ==> b.iostream == Null)
  }

  /** The BFD's stream may be read, or may once it is open again: a file is created write only, and
      reopened for both. */
  ghost predicate Readable(b: Bfd)
    reads b
  {
    b.Writes() ==> b.openedOnce && (b.iostream.File? ==> b.iostream.canRead)
  }

  ghost predicate Located(b: Bfd)
    reads b
  {
    && (b.iostream.File? && !b.isArchive ==> b.where == b.iostream.pos)
    && (b.iostream == Null ==> b.where >= 0)
  }

  /** Whatever happened, the BFD's client sees no difference. */
  twostate predicate Kept(b: Bfd)
    reads b
  {
    View(b) == old(View(b)) && b.cacheable == old(b.cacheable) && (old(Located(b)) ==> Located(b))
  }

  twostate lemma Untouched(b: Bfd)
    requires unchanged(b`cacheable, b`iostream, b`where, b`openedOnce, b`disk)
    ensures Kept(b) && Readable(b) == old(Readable(b))
  {
  }

  ghost function Views(clients: set<Bfd>): map<Bfd, Ref>
    reads clients
  {
    map b | b in clients :: View(b)
  }

  ghost function Readers(clients: set<Bfd>): set<Bfd>
    reads clients
  {
    set b | b in clients && Readable(b)
  }

  // ---- the cache ----

  /** The place of `b` in the ring. */
  ghost function IndexOf(r: seq<Bfd>, b: Bfd): (k: nat)
    requires b in r
    ensures k < |r| && r[k] == b
  {
    var k :| 0 <= k < |r| && r[k] == b;
    k
  }

  ghost function Marked(r: seq<Bfd>): (m: seq<Entry>)
    reads r
    ensures |m| == |r| && forall i :: 0 <= i < |r| ==> m[i] == Entry(r[i], r[i].cacheable)
  {
    seq(|r|, i requires 0 <= i < |r| reads r => Entry(r[i], r[i].cacheable))
  }

  class Cache {
    var lastCache: Bfd?
    var openFiles: int
    ghost var ring: seq<Bfd>

    ghost predicate RingValid()
      reads this, ring
    {
      && Linked(ring) && Distinct(ring)
      && lastCache == (if ring == [] then null else ring[0])
    }

    /** Exactly the open BFDs are in the ring, and a file is created before it is first closed. */
    ghost predicate Consistent(clients: set<Bfd>)
      reads this, ring, clients
    {
      && RingValid() && openFiles == |ring|
      && (forall i :: 0 <= i < |ring| ==> ring[i] in clients)
      && (forall b :: b in clients ==> (b in ring <==> b.iostream.File?))
      && (forall b :: b in clients ==> Usable(b))
    }

    /** Besides, a BFD that is not an archive knows its stream's position, and a closed one knows where
        to go on. */
    ghost predicate Valid(clients: set<Bfd>)
      reads this, ring, clients
    {
      Consistent(clients) && forall b :: b in clients ==> Located(b)
    }

    /** Before any file is open. */
    constructor (ghost clients: set<Bfd>)
      requires forall b :: b in clients ==> b.iostream == Null && b.where >= 0
      ensures ring == [] && Valid(clients)
    {
      lastCache, openFiles, ring := null, 0, [];
    }

    /** `insert`: a new most recently used member. */
    method Insert(abfd: Bfd)
      requires RingValid() && abfd !in ring
      modifies this`lastCache, this`ring, abfd`lruNext, abfd`lruPrev, ring
      ensures RingValid() && ring == [abfd] + old(ring)
      ensures Marked(ring) == [Entry(abfd, abfd.cacheable)] + old(Marked(ring))
      ensures forall b :: b in ring ==> unchanged(b`cacheable, b`iostream, b`where, b`openedOnce, b`disk)
    {
      ghost var r := ring;
      if lastCache == null {
        abfd.lruNext := abfd;
        abfd.lruPrev := abfd;
      } else {
        Splice(abfd, lastCache, ring);
      }
      lastCache := abfd;
      ring := [abfd] + ring;
      MarksKept(r);
    }

    /** `snip`: the `k`th member leaves, the rest keep their order. */
    method Snip(abfd: Bfd, ghost k: nat)
      requires RingValid() && k < |ring| && ring[k] == abfd
      modifies this`lastCache, this`ring, ring
      ensures RingValid() && ring == Without(old(ring), k)
      ensures Marked(ring) == Without(old(Marked(ring)), k)
      ensures forall b :: b in old(ring) ==> unchanged(b`cacheable, b`iostream, b`where, b`openedOnce, b`disk)
    {
      ghost var r := ring;
      Unlink(abfd, ring, k);
      WithoutLinked(ring, k);
      if abfd == lastCache {
        lastCache := abfd.lruNext;
        if abfd == lastCache {
          lastCache := null;
        }
      }
      ring := Without(ring, k);
      MarksKept(r);
    }

    /** `bfd_cache_delete` with a successful `fclose`. */
    method Delete(abfd: Bfd, ghost k: nat, ghost clients: set<Bfd>)
      requires Consistent(clients) && k < |ring| && ring[k] == abfd
      modifies this, ring
      ensures Consistent(clients) && ring == Without(old(ring), k)
      ensures Marked(ring) == Without(old(Marked(ring)), k)
      ensures abfd.iostream == Null && unchanged(abfd`cacheable, abfd`where, abfd`openedOnce, abfd`disk)
      ensures forall b :: b in old(ring) && b != abfd ==>
        unchanged(b`cacheable, b`iostream, b`where, b`openedOnce, b`disk)
    {
      ghost var r := ring;
      Snip(abfd, k);
      WithoutMembers(r, k);
      Forget(abfd);
      forall b | b in clients ensures (b in ring <==> b.iostream.File?) && Usable(b) {
        assert b in r <==> old(b.iostream.File?);
      }
    }

    method Forget(abfd: Bfd)
      requires RingValid() && abfd !in ring
      modifies this`openFiles, abfd`iostream
      ensures RingValid() && abfd.iostream == Null && openFiles == old(openFiles) - 1
      ensures Marked(ring) == old(Marked(ring))
    {
      abfd.iostream := Null;
      openFiles := openFiles - 1;
    }

    /** The search of `close_one`, backwards from the least recently used, once round the ring at most. */
    method FindVictim() returns (kill: Bfd?)
      requires RingValid()
      ensures (kill == null) == (Victim(Marked(ring)) < 0)
      ensures kill != null ==> kill == ring[Victim(Marked(ring))]
    {
      ghost var k := |ring| - 1;
      if lastCache == null {
        kill := null;
      } else {
        assert LinkedAt(ring, 0);
        kill := lastCache.lruPrev;
        while !kill.cacheable
          invariant 0 <= k < |ring| && kill == ring[k]
          invariant forall j :: k < j < |ring| ==> !ring[j].cacheable
          decreases k
        {
          if kill == lastCache {
            kill := null;
            k := -1;
            break;
          }
          assert LinkedAt(ring, k);
          kill := kill.lruPrev;
          k := k - 1;
        }
      }
      VictimIs(Marked(ring), k);
    }

    method NotePosition(abfd: Bfd, ghost clients: set<Bfd>)
      requires Consistent(clients) && abfd in clients && abfd.iostream.File?
      modifies abfd`where
      ensures Consistent(clients) && abfd.where == abfd.iostream.pos && Marked(ring) == old(Marked(ring))
    {
      abfd.where := abfd.iostream.pos;
      forall i | 0 <= i < |ring| ensures LinkedAt(ring, i) {
        assert old(LinkedAt(ring, i));
      }
    }

    /** Close a member so that it can be reopened where it was. */
    method Retire(abfd: Bfd, ghost k: nat, ghost clients: set<Bfd>)
      requires Consistent(clients) && k < |ring| && ring[k] == abfd
      modifies this, ring
      ensures Consistent(clients) && ring == Without(old(ring), k)
      ensures Marked(ring) == Without(old(Marked(ring)), k)
      ensures forall b :: b in clients ==> Kept(b)
      ensures forall b :: b in clients ==> Readable(b) == (old(Readable(b)) || (b in old(ring) && b !in ring))
      ensures forall b :: b in ring ==> b in old(ring)
    {
      ghost var r := ring;
      NotePosition(abfd, clients);
      Delete(abfd, k, clients);
      WithoutMembers(r, k);
    }

    /** `close_one`: closes the least recently used cacheable BFD if there is one, after noting its position. */
    method CloseOne(ghost clients: set<Bfd>)
      requires Consistent(clients)
      modifies this, ring
      ensures Consistent(clients) && Marked(ring) == Evict(old(Marked(ring)))
      ensures forall b :: b in clients ==> Kept(b)
      ensures forall b :: b in clients ==> Readable(b) == (old(Readable(b)) || (b in old(ring) && b !in ring))
      ensures forall b :: b in ring ==> b in old(ring)
    {
      var kill := FindVictim();
      if kill != null {
        Retire(kill, Victim(Marked(ring)), clients);
      }
    }

    /** The test with which `bfd_cache_init` and `bfd_open_file` begin. */
    method CloseIfFull(ghost clients: set<Bfd>)
      requires Consistent(clients)
      modifies this, ring
      ensures Consistent(clients) && Marked(ring) == MakeRoom(old(Marked(ring)))
      ensures forall b :: b in clients ==> Kept(b)
      ensures forall b :: b in clients ==> Readable(b) == (old(Readable(b)) || (b in old(ring) && b !in ring))
      ensures forall b :: b in ring ==> b in old(ring)
    {
      if openFiles >= BFD_CACHE_MAX_OPEN {
        CloseOne(clients);
      }
    }

    method CountOne()
      requires RingValid()
      modifies this`openFiles
      ensures RingValid() && openFiles == old(openFiles) + 1 && Marked(ring) == old(Marked(ring))
    {
      openFiles := openFiles + 1;
    }

    /** A BFD that is open but not yet known to the cache enters the ring. */
    method Enter(abfd: Bfd, ghost clients: set<Bfd>)
      requires Consistent(clients - {abfd}) && abfd in clients && abfd.iostream.File? && Usable(abfd)
      modifies this`lastCache, this`ring, this`openFiles, abfd`lruNext, abfd`lruPrev, ring
      ensures Consistent(clients) && ring == [abfd] + old(ring)
      ensures Marked(ring) == [Entry(abfd, abfd.cacheable)] + old(Marked(ring))
      ensures forall b :: b in clients ==> unchanged(b`cacheable, b`iostream, b`where, b`openedOnce, b`disk)
    {
      Insert(abfd);
      CountOne();
      hide Linked, Distinct, Marked;
      forall b | b in clients ensures (b in ring <==> b.iostream.File?) && Usable(b) {
        assert b == abfd || old(b in ring <==> b.iostream.File?);
      }
    }

    /** `bfd_cache_init`: a newly opened BFD enters the cache. */
    method CacheInit(abfd: Bfd, ghost clients: set<Bfd>)
      requires Consistent(clients - {abfd}) && abfd in clients && abfd.iostream.File? && Usable(abfd)
      modifies this, ring, abfd`lruNext, abfd`lruPrev
      ensures Consistent(clients)
      ensures Marked(ring) == Join(old(Marked(ring)), Entry(abfd, abfd.cacheable))
      ensures forall b :: b in clients ==> Kept(b)
      ensures forall b :: b in clients ==> Readable(b) == (old(Readable(b)) || (b in old(ring) && b !in ring))
      ensures forall b :: b in ring ==> b == abfd || b in old(ring)
    {
      assert abfd.iostream != Null && abfd !in ring;
      hide Linked, Distinct, MakeRoom, View, Located, Readable, Usable;
      CloseIfFull(clients - {abfd});
      label Room:
      Enter(abfd, clients);
      forall b | b in clients ensures Kept@Room(b) && Readable(b) == old@Room(Readable(b)) {
        Untouched@Room(b);
      }
    }

    /** `fopen`, as `bfd_open_file` calls it: a file is created the first time, and never truncated again. */
    method Open(abfd: Bfd)
      modifies abfd`iostream, abfd`openedOnce, abfd`disk
      ensures abfd.iostream.File? && abfd.iostream.pos == 0 && Usable(abfd)
      ensures abfd.disk == if abfd.Writes() && !old(abfd.openedOnce) then [] else old(abfd.disk)
      ensures abfd.openedOnce == (abfd.Writes() || old(abfd.openedOnce))
      ensures abfd.iostream.canRead == (!abfd.Writes() || old(abfd.openedOnce))
    {
      match abfd.direction {
        case ReadDirection => abfd.iostream := File(0, true, false);
        case NoDirection => abfd.iostream := File(0, true, false);
        case _ =>
          if abfd.openedOnce {
            abfd.iostream := File(0, true, true);
          } else {
            abfd.disk := [];
            abfd.iostream := File(0, false, true);
            abfd.openedOnce := true;
          }
      }
    }

    /** `bfd_open_file`. */
    method OpenFile(abfd: Bfd, ghost clients: set<Bfd>)
      requires Consistent(clients) && abfd in clients && abfd.iostream == Null
      modifies this, ring, abfd
      ensures Consistent(clients) && abfd.iostream.File? && abfd.iostream.pos == 0 && unchanged(abfd`where)
      ensures Marked(ring) == Join(MakeRoom(old(Marked(ring))), Entry(abfd, true))
      ensures View(abfd) == old(View(abfd)).(pos := 0)
      ensures forall b :: b in clients && b != abfd ==> Kept(b)
      ensures forall b :: b in clients ==> Readable(b) == (old(Readable(b)) || (b in old(ring) && b !in ring))
      ensures forall b :: b in ring ==> b == abfd || b in old(ring)
    {
      hide Linked, Distinct, MakeRoom, Marked, Located, Usable;
      PrepareOpen(abfd, clients);
      OpenStream(abfd, clients);
      CacheInit(abfd, clients);
    }

    /** Allow the BFD to be closed later, and make room for its stream. */
    method PrepareOpen(abfd: Bfd, ghost clients: set<Bfd>)
      requires Consistent(clients) && abfd in clients && abfd.iostream == Null
      modifies this, ring, abfd`cacheable
      ensures Consistent(clients - {abfd}) && abfd.cacheable && Usable(abfd)
      ensures Marked(ring) == MakeRoom(old(Marked(ring)))
      ensures forall b :: b in clients && b != abfd ==> Kept(b)
      ensures forall b :: b in clients ==> Readable(b) == (old(Readable(b)) || (b in old(ring) && b !in ring))
      ensures forall b :: b in ring ==> b in old(ring)
    {
      ghost var m := Marked(ring);
      assert abfd !in ring && Usable(abfd);
      abfd.cacheable := true;
      ShrinkClients(clients, abfd);
      assert Marked(ring) == m && Usable(abfd) && Readable(abfd) == old(Readable(abfd));
      hide Linked, Distinct, MakeRoom, View, Located, Usable, Readable;
      CloseIfFull(clients - {abfd});
    }

    method OpenStream(abfd: Bfd, ghost clients: set<Bfd>)
      requires Consistent(clients - {abfd}) && abfd.iostream == Null
      modifies abfd`iostream, abfd`openedOnce, abfd`disk
      ensures Consistent(clients - {abfd}) && Usable(abfd) && Marked(ring) == old(Marked(ring))
      ensures abfd.iostream.File? && abfd.iostream.pos == 0
      ensures abfd.disk == old(View(abfd)).bytes && (abfd.Writes() ==> abfd.openedOnce)
      ensures Readable(abfd) == old(Readable(abfd))
    {
      assert abfd !in ring;
      Open(abfd);
    }

    /** Move a member to the front. */
    method Refresh(abfd: Bfd, ghost clients: set<Bfd>)
      requires Consistent(clients) && abfd in ring
      modifies this`lastCache, this`ring, ring
      ensures Consistent(clients) && Marked(ring) == Touch(old(Marked(ring)), abfd)
      ensures forall b :: b in clients ==> unchanged(b`cacheable, b`iostream, b`where, b`openedOnce, b`disk)
      ensures forall b :: b in ring <==> b in old(ring)
    {
      ghost var r := ring;
      ghost var k := Rotate(abfd);
      FrontMembers(r, k);
      forall i | 0 <= i < |ring| ensures ring[i] in clients {
        assert ring[i] in r;
      }
      forall b | b in clients ensures (b in ring <==> b.iostream.File?) && Usable(b) {
        assert b in r <==> old(b.iostream.File?);
      }
    }

    method Rotate(abfd: Bfd) returns (ghost k: nat)
      requires RingValid() && abfd in ring
      modifies this`lastCache, this`ring, ring
      ensures RingValid() && k < |old(ring)| && old(ring)[k] == abfd && ring == [abfd] + Without(old(ring), k)
      ensures Marked(ring) == Touch(old(Marked(ring)), abfd)
      ensures forall b :: b in old(ring) ==> unchanged(b`cacheable, b`iostream, b`where, b`openedOnce, b`disk)
    {
      ghost var r := ring;
      k := Place(Marked(ring), abfd);
      assert Marked(ring)[IndexOf(ring, abfd)].bfd == abfd;
      Snip(abfd, k);
      WithoutMembers(r, k);
      Insert(abfd);
      FrontMembers(r, k);
    }

    /** Move an open stream. */
    method SetPosition(abfd: Bfd, pos: nat, ghost clients: set<Bfd>)
      requires Consistent(clients) && abfd.iostream.File?
      modifies abfd`iostream
      ensures Consistent(clients) && abfd.iostream == old(abfd.iostream).(pos := pos)
      ensures Marked(ring) == old(Marked(ring))
    {
      abfd.iostream := abfd.iostream.(pos := pos);
      forall i | 0 <= i < |ring| ensures LinkedAt(ring, i) {
        assert old(LinkedAt(ring, i));
      }
    }

    /** `bfd_cache_lookup_worker`: whatever is opened or closed, no client sees a difference. */
    method LookupWorker(abfd: Bfd, ghost clients: set<Bfd>)
      requires Valid(clients) && abfd in clients
      modifies this, ring, abfd
      ensures Valid(clients) && abfd.iostream.File? && lastCache == abfd
      ensures Marked(ring) == Touch(old(Marked(ring)), abfd)
      ensures forall b :: b in clients ==> View(b) == old(View(b))
      ensures forall b :: b in clients ==> Readable(b) == (old(Readable(b)) || (b in old(ring) && b !in ring))
    {
      if abfd.iostream != Null {
        if abfd != lastCache {
          Refresh(abfd, clients);
        } else {
          FrontStays(Marked(ring), abfd);
        }
      } else {
        NotPlaced(Marked(ring), abfd);
        OpenFile(abfd, clients);
        SetPosition(abfd, abfd.where, clients);
      }
    }

    /** The macro `bfd_cache_lookup`: the most recently used BFD needs no work. */
    method Lookup(abfd: Bfd, ghost clients: set<Bfd>)
      requires Valid(clients) && abfd in clients
      modifies this, ring, abfd
      ensures Valid(clients) && abfd.iostream.File? && abfd in ring
      ensures forall b :: b in clients ==> View(b) == old(View(b))
      ensures abfd.iostream.canRead == old(Readable(abfd))
      ensures Marked(ring) == Touch(old(Marked(ring)), abfd)
      ensures Readers(clients) == Reopened(old(Readers(clients)), clients, old(Marked(ring)), Marked(ring))
    {
      ghost var r := ring;
      MarkedMembers(ring);
      if abfd != lastCache {
        LookupWorker(abfd, clients);
      } else {
        FrontStays(Marked(ring), abfd);
      }
      MarkedMembers(ring);
      assert ring[0] == abfd;
    }

    /** Give an open stream a new position, and note what the BFD is to know of it. */
    method Move(abfd: Bfd, pos: nat, where: int, ghost clients: set<Bfd>)
      requires Valid(clients) && abfd in clients && abfd.iostream.File? && (!abfd.isArchive ==> where == pos)
      modifies abfd`iostream, abfd`where
      ensures Valid(clients) && View(abfd) == old(View(abfd)).(pos := pos)
      ensures abfd.iostream.File? && abfd.iostream == old(abfd.iostream).(pos := pos)
      ensures Marked(ring) == old(Marked(ring)) && Readers(clients) == old(Readers(clients))
    {
      abfd.iostream := abfd.iostream.(pos := pos);
      abfd.where := where;
      forall i | 0 <= i < |ring| ensures LinkedAt(ring, i) {
        assert old(LinkedAt(ring, i));
      }
    }

    /** What the cache amounts to, before and after each operation. */
    ghost function Now(clients: set<Bfd>): World
      reads this, ring, clients
    {
      World(Views(clients), Marked(ring), Readers(clients))
    }

    /** `bfd_seek`. An element notes its own position, which nothing here depends on. */
    method Seek(h: Handle, position: int, relative: bool, ghost clients: set<Bfd>) returns (ok: bool)
      requires Valid(clients) && Root(h) in clients && FitsHandle(h)
      modifies this, ring, Root(h)
      ensures Valid(clients)
      ensures (View(Root(h)), ok) == RefSeek(old(View(Root(h))), Target(old(View(Root(h))), h, position, relative))
      ensures forall b :: b in clients && b != Root(h) ==> View(b) == old(View(b))
      ensures var op := SeekTo(h, position, relative);
        if NeedsStream(old(View(Root(h))), op) then
          && Marked(ring) == Touch(old(Marked(ring)), Root(h))
          && Readers(clients) == Reopened(old(Readers(clients)), clients, old(Marked(ring)), Marked(ring))
        else Marked(ring) == old(Marked(ring)) && Readers(clients) == old(Readers(clients))
    {
      hide Linked, Touch, Reopened, Readable, Usable, Marked;
      var abfd := Root(h);
      ghost var v := View(abfd);
      assert Located(abfd);
      if relative && position == 0 {
        return true;
      }
      if h.Whole? && !abfd.isArchive && !relative && position == abfd.where {
        return true;
      }
      Lookup(abfd, clients);
      assert abfd.iostream.pos == v.pos;
      var target := if relative then abfd.iostream.pos + position else position + Origin(h);
      ok := target >= 0;
      if ok {
        Move(abfd, target,
             if !abfd.isArchive then target
             else if h.Element? then abfd.where
             else if relative then abfd.where + position else position,
             clients);
      } else if h.Whole? {
        Move(abfd, abfd.iostream.pos, abfd.iostream.pos, clients);
      }
    }

    /** `bfd_read` and `fread`. */
    method Read(h: Handle, n: nat, ghost clients: set<Bfd>) returns (data: seq<Byte>)
      requires Valid(clients) && Root(h) in clients && FitsHandle(h)
      modifies this, ring, Root(h)
      ensures Valid(clients)
      ensures (View(Root(h)), data) == RefRead(old(View(Root(h))), n, old(Readable(Root(h))))
      ensures forall b :: b in clients && b != Root(h) ==> View(b) == old(View(b))
      ensures Marked(ring) == Touch(old(Marked(ring)), Root(h))
      ensures Readers(clients) == Reopened(old(Readers(clients)), clients, old(Marked(ring)), Marked(ring))
    {
      hide Linked, Touch, Reopened, Marked, Readable;
      var abfd := Root(h);
      Lookup(abfd, clients);
      data := [];
      if abfd.iostream.canRead {
        data := Slice(abfd.disk, abfd.iostream.pos, n);
        Move(abfd, abfd.iostream.pos + |data|, if h.Whole? then abfd.where + |data| else abfd.where, clients);
      }
    }

    /** `bfd_write` and `fwrite`. */
    method Write(h: Handle, data: seq<Byte>, ghost clients: set<Bfd>) returns (n: nat)
      requires Valid(clients) && Root(h) in clients && FitsHandle(h)
      modifies this, ring, Root(h)
      ensures Valid(clients)
      ensures Root(h).Writes() ==> (View(Root(h)), n) == RefWrite(old(View(Root(h))), data)
      ensures !Root(h).Writes() ==> n == 0 && View(Root(h)) == old(View(Root(h)))
      ensures forall b :: b in clients && b != Root(h) ==> View(b) == old(View(b))
      ensures Marked(ring) == Touch(old(Marked(ring)), Root(h))
      ensures Readers(clients) == Reopened(old(Readers(clients)), clients, old(Marked(ring)), Marked(ring))
    {
      hide Linked, Touch, Reopened, Marked, Readable, Overwrite;
      var abfd := Root(h);
      Lookup(abfd, clients);
      n := 0;
      if abfd.iostream.canWrite {
        PutDisk(abfd, Overwrite(abfd.disk, abfd.iostream.pos, data), clients);
        n := |data|;
        Move(abfd, abfd.iostream.pos + n, if h.Whole? then abfd.where + n else abfd.where, clients);
      }
    }

    method PutDisk(abfd: Bfd, disk: seq<Byte>, ghost clients: set<Bfd>)
      requires Valid(clients) && abfd in clients
      modifies abfd`disk
      ensures Valid(clients) && abfd.disk == disk
      ensures Marked(ring) == old(Marked(ring)) && Readers(clients) == old(Readers(clients))
    {
      abfd.disk := disk;
      forall i | 0 <= i < |ring| ensures LinkedAt(ring, i) {
        assert old(LinkedAt(ring, i));
      }
    }

    /** `bfd_tell`. */
    method Tell(h: Handle, ghost clients: set<Bfd>) returns (position: int)
      requires Valid(clients) && Root(h) in clients && FitsHandle(h)
      modifies this, ring, Root(h)
      ensures Valid(clients) && position == old(View(Root(h))).pos - Origin(h)
      ensures forall b :: b in clients ==> View(b) == old(View(b))
      ensures Marked(ring) == Touch(old(Marked(ring)), Root(h))
      ensures Readers(clients) == Reopened(old(Readers(clients)), clients, old(Marked(ring)), Marked(ring))
    {
      var abfd := Root(h);
      Lookup(abfd, clients);
      position := abfd.iostream.pos - Origin(h);
      if h.Whole? {
        Move(abfd, abfd.iostream.pos, position, clients);
      }
    }

    /** One client operation. */
    method Do(op: Op, ghost clients: set<Bfd>) returns (answer: Answer)
      requires Valid(clients) && Allowed(op, clients)
      modifies this, ring, Root(op.h)
      ensures Valid(clients)
      ensures (View(Root(op.h)), answer) == RefDo(old(View(Root(op.h))), op, old(Readable(Root(op.h))))
      ensures forall b :: b in clients && b != Root(op.h) ==> View(b) == old(View(b))
      ensures if NeedsStream(old(View(Root(op.h))), op) then
          && Marked(ring) == Touch(old(Marked(ring)), Root(op.h))
          && Readers(clients) == Reopened(old(Readers(clients)), clients, old(Marked(ring)), Marked(ring))
        else Marked(ring) == old(Marked(ring)) && Readers(clients) == old(Readers(clients))
    {
      hide Linked, Touch, Reopened, Marked, Readable, RefSeek, RefRead, RefWrite, Target;
      match op {
        case SeekTo(h, position, relative) =>
          var ok := Seek(h, position, relative, clients);
          answer := Done(ok);
        case ReadUpTo(h, n) =>
          var data := Read(h, n, clients);
          answer := Data(data);
        case WriteAll(h, data) =>
          var n := Write(h, data, clients);
          answer := Count(n);
        case Ask(h) =>
          var position := Tell(h, clients);
          answer := Position(position);
      }
    }

    method DoNext(op: Op, answers: seq<Answer>, ghost clients: set<Bfd>) returns (more: seq<Answer>)
      requires Valid(clients) && Allowed(op, clients)
      modifies this, clients
      ensures Valid(clients)
      ensures var (w, answer) := CacheStep(old(Now(clients)), op); Now(clients) == w && more == answers + [answer]
    {
      hide Linked, Touch, Reopened, Marked, Readable, RefDo, NeedsStream, View, CacheStep, Usable, Located;
      ghost var w, b := Now(clients), Root(op.h);
      var answer := Do(op, clients);
      more := answers + [answer];
      assert Views(clients) == w.refs[b := View(b)] && w.refs.Keys == clients;
      CacheStepIs(w, op, View(b), answer, Marked(ring), Readers(clients));
    }

    /** Whatever sequence of operations clients perform on any number of files, through archives or not, they
        get the answers and leave the bytes of the specified machine, and those are what one permanently open
        stream per file gives if and only if no operation is a revealing read. */
    method Run(ops: seq<Op>, ghost clients: set<Bfd>) returns (answers: seq<Answer>)
      requires Valid(clients) && AllAllowed(ops, clients)
      modifies this, clients
      ensures Valid(clients)
      ensures (Now(clients), answers) == CacheRun(old(Now(clients)), ops)
      ensures (Views(clients), answers) == RefRun(old(Views(clients)), old(Readers(clients)), ops)
          <==> forall i :: 0 <= i < |ops| ==> !Revealed(old(Now(clients)), ops, i)
    {
      ghost var w := Now(clients);
      answers := [];
      var i := 0;
      while i < |ops|
        invariant 0 <= i <= |ops| && Valid(clients) && AllAllowed(ops[..i], clients)
        invariant (Now(clients), answers) == CacheRun(w, ops[..i])
      {
        CacheRunStep(w, ops, i);
        answers := DoNext(ops[i], answers, clients);
        i := i + 1;
      }
      assert ops[..i] == ops;
      InvisibleIff(w, ops);
    }

    /** `bfd_fdopenr`: a BFD on a descriptor that is already open, at its start. The source sets `opened_once`
        only after the BFD has entered the cache; nothing looks at it in between. */
    method FdOpen(abfd: Bfd, ghost clients: set<Bfd>)
      requires Valid(clients - {abfd}) && abfd in clients && !abfd.direction.NoDirection?
      requires abfd.iostream == Null && abfd.where == 0 && !abfd.openedOnce
      modifies this, ring, abfd
      ensures Valid(clients) && View(abfd) == Ref(0, old(abfd.disk))
      ensures Readable(abfd) <==> !abfd.direction.WriteDirection?
      ensures Marked(ring) == Join(old(Marked(ring)), Entry(abfd, abfd.cacheable))
      ensures forall b :: b in clients && b != abfd ==> View(b) == old(View(b))
    {
      assert abfd !in ring;
      match abfd.direction {
        case ReadDirection => abfd.iostream := File(0, true, false);
        case WriteDirection => abfd.iostream := File(0, false, true);
        case BothDirection => abfd.iostream := File(0, true, true);
      }
      abfd.openedOnce := true;
      CacheInit(abfd, clients);
    }

    /** `bfd_cache_close`: the position is not saved, so only a BFD that tracks it itself can be reopened
        where it was. */
    method Close(abfd: Bfd, ghost clients: set<Bfd>)
      requires Valid(clients) && abfd in clients
      modifies this, ring
      ensures Consistent(clients) && abfd.iostream == Null
      ensures ring == if abfd in old(ring) then Without(old(ring), IndexOf(old(ring), abfd)) else old(ring)
      ensures !abfd.isArchive ==> Valid(clients) && forall b :: b in clients ==> View(b) == old(View(b))
    {
      if abfd.iostream == Null {
        return;
      }
      Delete(abfd, IndexOf(ring, abfd), clients);
    }

    lemma ShrinkClients(clients: set<Bfd>, abfd: Bfd)
      requires RingValid() && openFiles == |ring| && abfd !in ring
      requires forall i :: 0 <= i < |ring| ==> ring[i] in clients
      requires forall b :: b in clients && b != abfd ==> (b in ring <==> b.iostream.File?) && Usable(b)
      ensures Consistent(clients - {abfd})
    {
    }
  }

  lemma MarkedMembers(r: seq<Bfd>)
    ensures forall b :: b in r <==> Member(Marked(r), b)
  {
    forall b | b in r ensures Member(Marked(r), b) {
      var i :| 0 <= i < |r| && r[i] == b;
      assert Marked(r)[i].bfd == b;
    }
  }

  lemma FrontMembers(r: seq<Bfd>, k: nat)
    requires Distinct(r) && k < |r|
    ensures var q := [r[k]] + Without(r, k); forall b :: b in q <==> b in r
  {
    WithoutMembers(r, k);
  }

  lemma WithoutMembers(r: seq<Bfd>, k: nat)
    requires Distinct(r) && k < |r|
    ensures forall b :: b in r ==> (b in Without(r, k) <==> b != r[k])
    ensures forall b :: b in Without(r, k) ==> b in r
  {
    var q := Without(r, k);
    forall b | b in r ensures b in q <==> b != r[k] {
      var i :| 0 <= i < |r| && r[i] == b;
      if i < k {
        assert q[i] == b;
      } else if i > k {
        assert q[i - 1] == b;
      }
    }
  }

  /** Eviction sees no difference while nobody's `cacheable` changes. */
  twostate lemma MarksKept(r: seq<Bfd>)
    requires forall b :: b in r ==> unchanged(b`cacheable)
    ensures Marked(r) == old(Marked(r))
  {
    forall i | 0 <= i < |r| ensures Marked(r)[i] == old(Marked(r))[i] {
      assert r[i] in r;
    }
  }

  method Splice(abfd: Bfd, front: Bfd, ghost r: seq<Bfd>)
    requires Linked(r) && Distinct(r) && abfd !in r && |r| > 0 && r[0] == front
    modifies abfd`lruNext, abfd`lruPrev, r
    ensures Linked([abfd] + r)
    ensures forall b :: b in r ==> unchanged(b`cacheable, b`iostream, b`where, b`openedOnce, b`disk)
  {
    assert LinkedAt(r, 0) && LinkedAt(r, |r| - 1);
    abfd.lruNext := front;
    abfd.lruPrev := front.lruPrev;
    abfd.lruPrev.lruNext := abfd;
    abfd.lruNext.lruPrev := abfd;
    forall i | 0 <= i < |[abfd] + r| ensures LinkedAt([abfd] + r, i) {
      assert 0 < i ==> old(LinkedAt(r, i - 1));
    }
  }

  /** The links once the `k`th member is passed over on both sides. */
  ghost predicate SkippedAt(r: seq<Bfd>, k: nat, j: nat)
    requires k < |r| && j < |r|
    reads r[j]
  {
    && r[j].lruNext == r[if j == Prev(r, k) then Next(r, k) else Next(r, j)]
    && r[j].lruPrev == r[if j == Next(r, k) then Prev(r, k) else Prev(r, j)]
  }

  method Unlink(abfd: Bfd, ghost r: seq<Bfd>, ghost k: nat)
    requires Linked(r) && Distinct(r) && k < |r| && r[k] == abfd
    modifies r
    ensures forall j :: 0 <= j < |r| ==> SkippedAt(r, k, j)
    ensures forall b :: b in r ==> unchanged(b`cacheable, b`iostream, b`where, b`openedOnce, b`disk)
  {
    assert LinkedAt(r, k) && LinkedAt(r, Next(r, k)) && LinkedAt(r, Prev(r, k));
    abfd.lruPrev.lruNext := abfd.lruNext;
    abfd.lruNext.lruPrev := abfd.lruPrev;
    forall j | 0 <= j < |r| ensures SkippedAt(r, k, j) {
      assert old(LinkedAt(r, j));
    }
  }

  lemma WithoutLinked(r: seq<Bfd>, k: nat)
    requires Distinct(r) && k < |r| && forall j :: 0 <= j < |r| ==> SkippedAt(r, k, j)
    ensures Linked(Without(r, k)) && Distinct(Without(r, k))
    ensures r[k].lruNext == r[Next(r, k)]
  {
    var q := Without(r, k);
    forall i | 0 <= i < |q| ensures LinkedAt(q, i) {
      assert SkippedAt(r, k, if i < k then i else i + 1);
    }
    assert SkippedAt(r, k, k);
  }
}
