/** The file descriptor cache as its clients and its eviction policy see it: streams, operations on them,
    the order of use, and how far the cache differs from one permanently open stream per file. */
module CacheSpec {
  import opened Words

  const BFD_CACHE_MAX_OPEN := 10

  datatype Direction = NoDirection | ReadDirection | WriteDirection | BothDirection

  /** A `FILE *`: null, or a stream at some position, opened for reading, writing or both. */
  datatype Stream = Null | File(pos: nat, canRead: bool, canWrite: bool)

  /** One `bfd` that has a file of its own. `disk` is what the file system holds under its name. */
  class Bfd {
    var lruNext: Bfd?
    var lruPrev: Bfd?
    var cacheable: bool
    var iostream: Stream
    var where: int
    var openedOnce: bool
    var disk: seq<Byte>
    const direction: Direction
    const isArchive: bool

    constructor (direction: Direction, isArchive: bool, disk: seq<Byte>)
      ensures this.direction == direction && this.isArchive == isArchive && this.disk == disk
      ensures iostream == Null && where == 0 && !openedOnce
    {
      this.direction := direction;
      this.isArchive := isArchive;
      this.disk := disk;
      lruNext, lruPrev := null, null;
      cacheable, openedOnce := false, false;
      iostream, where := Null, 0;
    }

    predicate Writes() {
      direction.WriteDirection? || direction.BothDirection?
    }
  }

  /** A client's stream: its position and the bytes of its file. */
  datatype Ref = Ref(pos: nat, bytes: seq<Byte>)

  // ---- what clients do, and what one stream answers ----

  /** A BFD with a file of its own, or an archive element that starts at `origin` in its archive's file. */
  datatype Handle = Whole(bfd: Bfd) | Element(archive: Bfd, origin: nat)

  function Root(h: Handle): Bfd {
    match h
    case Whole(bfd) => bfd
    case Element(archive, _) => archive
  }

  function Origin(h: Handle): nat {
    match h
    case Whole(_) => 0
    case Element(_, origin) => origin
  }

  predicate FitsHandle(h: Handle) {
    h.Element? ==> h.archive.isArchive
  }

  function Target(v: Ref, h: Handle, position: int, relative: bool): int {
    if relative then v.pos + position else position + Origin(h)
  }

  function RefSeek(v: Ref, target: int): (Ref, bool) {
    if target < 0 then (v, false) else (v.(pos := target), true)
  }

  /** At most `n` bytes from `pos` on. */
  function Slice(bytes: seq<Byte>, pos: nat, n: nat): seq<Byte> {
    if pos >= |bytes| then [] else if pos + n <= |bytes| then bytes[pos..pos + n] else bytes[pos..]
  }

  /** A stream that may not be read yields nothing. */
  function RefRead(v: Ref, n: nat, readable: bool): (Ref, seq<Byte>) {
    var data := if readable then Slice(v.bytes, v.pos, n) else [];
    (v.(pos := v.pos + |data|), data)
  }

  /** Bytes between the old end and `pos` read as zero. */
  function Overwrite(bytes: seq<Byte>, pos: nat, data: seq<Byte>): seq<Byte> {
    if |data| == 0 then bytes
    else
      var padded := if pos <= |bytes| then bytes else bytes + seq(pos - |bytes|, _ => 0);
      padded[..pos] + data + (if pos + |data| <= |padded| then padded[pos + |data|..] else [])
  }

  function RefWrite(v: Ref, data: seq<Byte>): (Ref, nat) {
    (Ref(v.pos + |data|, Overwrite(v.bytes, v.pos, data)), |data|)
  }

  datatype Op =
    | SeekTo(h: Handle, position: int, relative: bool)
    | ReadUpTo(h: Handle, n: nat)
    | WriteAll(h: Handle, data: seq<Byte>)
    | Ask(h: Handle)

  datatype Answer = Done(ok: bool) | Data(data: seq<Byte>) | Count(n: nat) | Position(position: int)

  predicate Allowed(op: Op, clients: set<Bfd>) {
    Root(op.h) in clients && FitsHandle(op.h)
  }

  predicate AllAllowed(ops: seq<Op>, clients: set<Bfd>) {
    forall i :: 0 <= i < |ops| ==> Allowed(ops[i], clients)
  }

  function RefDo(v: Ref, op: Op, readable: bool): (Ref, Answer) {
    match op
    case SeekTo(h, position, relative) =>
      var (w, ok) := RefSeek(v, Target(v, h, position, relative));
      (w, Done(ok))
    case ReadUpTo(h, n) =>
      var (w, data) := RefRead(v, n, readable);
      (w, Data(data))
    case WriteAll(h, data) =>
      if Root(h).Writes() then
        var (w, n) := RefWrite(v, data);
        (w, Count(n))
      else (v, Count(0))
    case Ask(h) => (v, Position(v.pos - Origin(h)))
  }

  /** One permanently open stream per file; the files in `readers` may be read. */
  function RefRun(refs: map<Bfd, Ref>, readers: set<Bfd>, ops: seq<Op>): (r: (map<Bfd, Ref>, seq<Answer>))
    requires AllAllowed(ops, refs.Keys)
    ensures r.0.Keys == refs.Keys && |r.1| == |ops|
  {
    if |ops| == 0 then (refs, [])
    else
      assert Allowed(ops[|ops| - 1], refs.Keys);
      RefStep(RefRun(refs, readers, ops[..|ops| - 1]), readers, ops[|ops| - 1])
  }

  function RefStep(r: (map<Bfd, Ref>, seq<Answer>), readers: set<Bfd>, op: Op): (map<Bfd, Ref>, seq<Answer>)
    requires Root(op.h) in r.0
  {
    var (v, answer) := RefDo(r.0[Root(op.h)], op, Root(op.h) in readers);
    (r.0[Root(op.h) := v], r.1 + [answer])
  }

  lemma RefRunStep(refs: map<Bfd, Ref>, readers: set<Bfd>, ops: seq<Op>, i: nat)
    requires AllAllowed(ops, refs.Keys) && i < |ops|
    ensures AllAllowed(ops[..i], refs.Keys) && AllAllowed(ops[..i + 1], refs.Keys)
    ensures Root(ops[i].h) in RefRun(refs, readers, ops[..i]).0
    ensures RefRun(refs, readers, ops[..i + 1]) == RefStep(RefRun(refs, readers, ops[..i]), readers, ops[i])
  {
    assert Allowed(ops[i], refs.Keys);
    assert ops[..i + 1][..i] == ops[..i];
  }

  // ---- the ring as eviction sees it ----

  /** The ring without its `k`th member. */
  function Without<T>(r: seq<T>, k: nat): (q: seq<T>)
    requires k < |r|
    ensures |q| == |r| - 1
    ensures forall i :: 0 <= i < |q| ==> q[i] == r[if i < k then i else i + 1]
  {
    r[..k] + r[k + 1..]
  }

  /** What eviction looks at: the members in order of use, and which of them may be closed. */
  datatype Entry = Entry(bfd: Bfd, cacheable: bool)

  /** The least recently used cacheable member, or -1. */
  function Victim(m: seq<Entry>): (v: int)
    ensures -1 <= v < |m|
    ensures v >= 0 ==> m[v].cacheable
    ensures forall j :: v < j < |m| ==> !m[j].cacheable
  {
    if |m| == 0 then -1
    else if m[|m| - 1].cacheable then |m| - 1
    else Victim(m[..|m| - 1])
  }

  /** The ring after `close_one`. */
  function Evict(m: seq<Entry>): (n: seq<Entry>)
    ensures |n| == if Victim(m) >= 0 then |m| - 1 else |m|
  {
    if Victim(m) >= 0 then Without(m, Victim(m)) else m
  }

  /** The ring after making room if the cache is full. */
  function MakeRoom(m: seq<Entry>): seq<Entry> {
    if |m| >= BFD_CACHE_MAX_OPEN then Evict(m) else m
  }

  /** The ring after `bfd_cache_init`. */
  function Join(m: seq<Entry>, e: Entry): seq<Entry> {
    [e] + MakeRoom(m)
  }

  /** The place of `b` in the ring, or its length. */
  function Place(m: seq<Entry>, b: Bfd): (k: nat)
    ensures k <= |m| && (k < |m| ==> m[k].bfd == b) && forall j :: 0 <= j < k ==> m[j].bfd != b
  {
    if |m| == 0 || m[0].bfd == b then 0 else 1 + Place(m[1..], b)
  }

  /** The ring after a lookup: a member moves to the front, another BFD enters there. */
  function Touch(m: seq<Entry>, b: Bfd): seq<Entry> {
    var k := Place(m, b);
    if k < |m| then [m[k]] + Without(m, k) else Join(MakeRoom(m), Entry(b, true))
  }

  /** A lookup, or a BFD that enters the cache already open, leaves more files open than the limit, and more
      than before, only if none of those that were open could be closed. */
  lemma OverLimitOnlyWhenStuck(m: seq<Entry>, b: Bfd, e: Entry)
    requires || (|Touch(m, b)| > BFD_CACHE_MAX_OPEN && |Touch(m, b)| > |m|)
             || (|Join(m, e)| > BFD_CACHE_MAX_OPEN && |Join(m, e)| > |m|)
    ensures forall i :: 0 <= i < |m| ==> !m[i].cacheable
  {
    if Victim(m) >= 0 {
      GrowthBound(m, b, e);
    }
  }

  lemma GrowthBound(m: seq<Entry>, b: Bfd, e: Entry)
    requires Victim(m) >= 0
    ensures |Touch(m, b)| <= BFD_CACHE_MAX_OPEN || |Touch(m, b)| <= |m|
    ensures |Join(m, e)| <= BFD_CACHE_MAX_OPEN || |Join(m, e)| <= |m|
  {
    hide Victim, Place, Without;
  }

  /** Eviction takes one member that may be closed, such that none used less recently may, and keeps the
      others in order; if no member may be closed it takes none. */
  lemma EvictsLeastRecentlyUsed(m: seq<Entry>)
    ensures (forall i :: 0 <= i < |m| ==> !m[i].cacheable) ==> Evict(m) == m
    ensures (exists i :: 0 <= i < |m| && m[i].cacheable) ==>
      exists v :: 0 <= v < |m| && m[v].cacheable && (forall j :: v < j < |m| ==> !m[j].cacheable)
               && Evict(m) == m[..v] + m[v + 1..]
  {
    hide Victim;
    var v := Victim(m);
    if v >= 0 {
      assert Evict(m) == m[..v] + m[v + 1..];
    }
  }

  lemma FrontStays(m: seq<Entry>, b: Bfd)
    requires |m| > 0 && m[0].bfd == b
    ensures Touch(m, b) == m
  {
  }

  lemma NotPlaced(m: seq<Entry>, b: Bfd)
    requires forall i :: 0 <= i < |m| ==> m[i].bfd != b
    ensures Touch(m, b) == [Entry(b, true)] + MakeRoom(MakeRoom(m))
  {
  }

  lemma VictimIs(m: seq<Entry>, v: int)
    requires -1 <= v < |m| && (v >= 0 ==> m[v].cacheable) && forall j :: v < j < |m| ==> !m[j].cacheable
    ensures Victim(m) == v
  {
  }

  /** A lookup brings a member to the front and keeps the order of the others. */
  lemma LookedUpComesFirst(m: seq<Entry>, b: Bfd, k: nat)
    requires k < |m| && m[k].bfd == b && forall i :: 0 <= i < k ==> m[i].bfd != b
    ensures Touch(m, b) == [m[k]] + m[..k] + m[k + 1..]
  {
    hide Place;
    assert Place(m, b) == k;
    assert [m[k]] + m[..k] + m[k + 1..] == [m[k]] + (m[..k] + m[k + 1..]);
  }

  /** Any other BFD enters at the front; if ten files are open already, the least recently used of those that may be
      closed, member `v`, makes room. */
  lemma NewcomerMakesRoom(m: seq<Entry>, b: Bfd, v: int)
    requires |m| <= 10 && forall i :: 0 <= i < |m| ==> m[i].bfd != b
    requires -1 <= v < |m| && (v >= 0 ==> m[v].cacheable) && forall j :: v < j < |m| ==> !m[j].cacheable
    ensures Touch(m, b) == [Entry(b, true)] + if |m| < 10 || v < 0 then m else m[..v] + m[v + 1..]
  {
    hide Victim, Place;
    NotPlaced(m, b);
    VictimIs(m, v);
  }

  // ---- the cache as a machine over operations ----

  predicate Member(m: seq<Entry>, b: Bfd) {
    exists i :: 0 <= i < |m| && m[i].bfd == b
  }

  /** What a client could find out: its streams, the order of use, and which streams may be read. */
  datatype World = World(refs: map<Bfd, Ref>, ring: seq<Entry>, readers: set<Bfd>)

  /** A seek that goes nowhere asks for no stream. */
  predicate NeedsStream(v: Ref, op: Op) {
    op.SeekTo? ==>
      && !(op.relative && op.position == 0)
      && !(op.h.Whole? && !op.h.bfd.isArchive && !op.relative && op.position == v.pos)
  }

  /** A stream that was closed is reopened for reading, too. */
  function Reopened(readers: set<Bfd>, clients: set<Bfd>, before: seq<Entry>, after: seq<Entry>): set<Bfd> {
    set b | b in clients && (b in readers || (Member(before, b) && !Member(after, b)))
  }

  function LookedUp(w: World, b: Bfd): World {
    var ring := Touch(w.ring, b);
    World(w.refs, ring, Reopened(w.readers, w.refs.Keys, w.ring, ring))
  }

  function CacheStep(w: World, op: Op): (World, Answer)
    requires Root(op.h) in w.refs
  {
    var b := Root(op.h);
    var u := if NeedsStream(w.refs[b], op) then LookedUp(w, b) else w;
    var (v, answer) := RefDo(w.refs[b], op, b in u.readers);
    (u.(refs := w.refs[b := v]), answer)
  }

  lemma CacheStepIs(w: World, op: Op, v: Ref, answer: Answer, ring: seq<Entry>, readers: set<Bfd>)
    requires Root(op.h) in w.refs && (v, answer) == RefDo(w.refs[Root(op.h)], op, Root(op.h) in w.readers)
    requires if NeedsStream(w.refs[Root(op.h)], op)
             then ring == Touch(w.ring, Root(op.h)) && readers == Reopened(w.readers, w.refs.Keys, w.ring, ring)
             else ring == w.ring && readers == w.readers
    ensures CacheStep(w, op) == (World(w.refs[Root(op.h) := v], ring, readers), answer)
  {
    hide Touch, RefDo, NeedsStream, Reopened;
    OwnStreamStays(w, Root(op.h));
  }

  function CacheRun(w: World, ops: seq<Op>): (r: (World, seq<Answer>))
    requires AllAllowed(ops, w.refs.Keys)
    ensures r.0.refs.Keys == w.refs.Keys && |r.1| == |ops|
  {
    if |ops| == 0 then (w, [])
    else
      assert Allowed(ops[|ops| - 1], w.refs.Keys);
      var r := CacheRun(w, ops[..|ops| - 1]);
      var s := CacheStep(r.0, ops[|ops| - 1]);
      (s.0, r.1 + [s.1])
  }

  lemma CacheRunStep(w: World, ops: seq<Op>, i: nat)
    requires AllAllowed(ops, w.refs.Keys) && i < |ops|
    ensures AllAllowed(ops[..i], w.refs.Keys) && AllAllowed(ops[..i + 1], w.refs.Keys)
    ensures Root(ops[i].h) in CacheRun(w, ops[..i]).0.refs
    ensures var r := CacheRun(w, ops[..i]); var s := CacheStep(r.0, ops[i]);
      CacheRun(w, ops[..i + 1]) == (s.0, r.1 + [s.1])
  {
    assert Allowed(ops[i], w.refs.Keys);
    assert ops[..i + 1][..i] == ops[..i];
  }

  // ---- what the answers mean ----

  /** A seek to a position, counted from the start of a file or archive element, leaves the stream there, and `Ask`
      answers that position; a relative one moves the stream. A seek to before the start of the stream fails and moves
      nothing. No seek touches the bytes or another file. */
  lemma SeekMeans(w: World, h: Handle, position: int, relative: bool)
    requires Root(h) in w.refs
    ensures var b, v := Root(h), w.refs[Root(h)];
      var (u, answer) := CacheStep(w, SeekTo(h, position, relative));
      var (x, told) := CacheStep(u, Ask(h));
      var start := if h.Element? then h.origin else 0;
      var to := if relative then v.pos + position else start + position;
      && u.refs.Keys == w.refs.Keys && (forall c :: c in w.refs && c != b ==> u.refs[c] == w.refs[c])
      && u.refs[b].bytes == v.bytes && u.refs[b].pos == (if to >= 0 then to else v.pos) && answer == Done(to >= 0)
      && x.refs == u.refs && told == Position(u.refs[b].pos - start)
      && (!relative && to >= 0 ==> told == Position(position))
  {
    hide LookedUp;
    assert w.refs[Root(h) := w.refs[Root(h)]] == w.refs;
  }

  /** A read gives the bytes from the stream's position on, as many as asked for or as there are, and moves the
      position behind them; none if the stream may not be read. */
  lemma ReadMeans(w: World, h: Handle, n: nat)
    requires Root(h) in w.refs
    ensures var b, v := Root(h), w.refs[Root(h)];
      var (u, answer) := CacheStep(w, ReadUpTo(h, n));
      && u.refs.Keys == w.refs.Keys && (forall c :: c in w.refs && c != b ==> u.refs[c] == w.refs[c])
      && u.refs[b].bytes == v.bytes && answer.Data? && u.refs[b].pos == v.pos + |answer.data|
      && |answer.data| == (if b !in u.readers || v.pos >= |v.bytes| then 0
                           else if n < |v.bytes| - v.pos then n else |v.bytes| - v.pos)
      && forall k :: 0 <= k < |answer.data| ==> answer.data[k] == v.bytes[v.pos + k]
  {
    hide LookedUp;
  }

  lemma OverwriteMeans(bytes: seq<Byte>, pos: nat, data: seq<Byte>)
    ensures var after := Overwrite(bytes, pos, data);
      && |after| == (if |data| == 0 || pos + |data| <= |bytes| then |bytes| else pos + |data|)
      && forall k :: 0 <= k < |after| ==>
           after[k] == if pos <= k < pos + |data| then data[k - pos] else if k < |bytes| then bytes[k] else 0
  {
  }

  /** A write puts all its bytes at the stream's position, and no other byte of the file changes; bytes between the
      old end and the position are zero. A BFD that is not for writing writes nothing. */
  lemma WriteMeans(w: World, h: Handle, data: seq<Byte>)
    requires Root(h) in w.refs
    ensures var b, v := Root(h), w.refs[Root(h)];
      var (u, answer) := CacheStep(w, WriteAll(h, data));
      var after := u.refs[b].bytes;
      && u.refs.Keys == w.refs.Keys && (forall c :: c in w.refs && c != b ==> u.refs[c] == w.refs[c])
      && (if b.direction.WriteDirection? || b.direction.BothDirection? then
            && answer == Count(|data|) && u.refs[b].pos == v.pos + |data|
            && |after| == (if |data| == 0 || v.pos + |data| <= |v.bytes| then |v.bytes| else v.pos + |data|)
            && forall k :: 0 <= k < |after| ==>
                 after[k] == if v.pos <= k < v.pos + |data| then data[k - v.pos]
                             else if k < |v.bytes| then v.bytes[k] else 0
          else answer == Count(0) && u.refs[b] == v)
  {
    hide LookedUp, Overwrite;
    OverwriteMeans(w.refs[Root(h)].bytes, w.refs[Root(h)].pos, data);
  }

  /** What was written is read back, wherever in a file or an archive element. */
  lemma WrittenIsReadBack(w: World, h: Handle, position: int, data: seq<Byte>)
    requires Root(h) in w.refs && FitsHandle(h) && Root(h).Writes() && Root(h) in w.readers
    requires 0 <= position + if h.Element? then h.origin else 0
    ensures var (w1, a1) := CacheStep(w, SeekTo(h, position, false));
      var (w2, a2) := CacheStep(w1, WriteAll(h, data));
      var (w3, a3) := CacheStep(w2, SeekTo(h, position, false));
      var (w4, a4) := CacheStep(w3, ReadUpTo(h, |data|));
      a1 == Done(true) && a2 == Count(|data|) && a3 == Done(true) && a4 == Data(data)
  {
    hide CacheStep, Overwrite;
    var w1 := CacheStep(w, SeekTo(h, position, false)).0;
    SeekMeans(w, h, position, false);
    ReadersKept(w, SeekTo(h, position, false));
    var w2 := CacheStep(w1, WriteAll(h, data)).0;
    WriteMeans(w1, h, data);
    ReadersKept(w1, WriteAll(h, data));
    var w3 := CacheStep(w2, SeekTo(h, position, false)).0;
    SeekMeans(w2, h, position, false);
    ReadersKept(w2, SeekTo(h, position, false));
    ReadMeans(w3, h, |data|);
    ReadersKept(w3, ReadUpTo(h, |data|));
  }

  lemma ReadersKept(w: World, op: Op)
    requires Root(op.h) in w.refs && Root(op.h) in w.readers
    ensures Root(op.h) in CacheStep(w, op).0.readers
  {
  }

  /** The answers and streams of the cache are those of permanent streams. */
  predicate Invisible(w: World, ops: seq<Op>)
    requires AllAllowed(ops, w.refs.Keys)
  {
    var r, p := CacheRun(w, ops), RefRun(w.refs, w.readers, ops);
    r.0.refs == p.0 && r.1 == p.1
  }

  /** Operation `i` reads a stream that at first may not be read, was closed since, and has bytes to give. */
  predicate Revealed(w: World, ops: seq<Op>, i: nat)
    requires AllAllowed(ops, w.refs.Keys) && i < |ops|
  {
    CacheRunStep(w, ops, i);
    var b := Root(ops[i].h);
    var v := CacheRun(w, ops[..i]).0.refs[b];
    && ops[i].ReadUpTo? && b !in w.readers && b in CacheRun(w, ops[..i]).0.readers
    && ops[i].n > 0 && v.pos < |v.bytes|
  }

  /** A lookup does not close the stream it is for. */
  lemma OwnStreamStays(w: World, b: Bfd)
    requires b in w.refs
    ensures b in LookedUp(w, b).readers <==> b in w.readers
  {
    var m := Touch(w.ring, b);
    assert m[0].bfd == b;
  }

  lemma {:induction false} ReadersGrow(w: World, ops: seq<Op>, i: nat)
    requires AllAllowed(ops, w.refs.Keys) && i <= |ops| && w.readers <= w.refs.Keys
    ensures AllAllowed(ops[..i], w.refs.Keys) && w.readers <= CacheRun(w, ops[..i]).0.readers
  {
    if i > 0 {
      ReadersGrow(w, ops, i - 1);
      CacheRunStep(w, ops, i - 1);
    }
  }

  /** An operation in the cache and on a permanent stream. */
  lemma StepAgrees(w: World, readers: set<Bfd>, op: Op)
    requires Root(op.h) in w.refs && readers <= w.readers
    ensures var b := Root(op.h); var v := w.refs[b];
      RefDo(v, op, b in CacheStep(w, op).0.readers) == RefDo(v, op, b in readers)
      <==> !(op.ReadUpTo? && b !in readers && b in w.readers && op.n > 0 && v.pos < |v.bytes|)
  {
    OwnStreamStays(w, Root(op.h));
  }

  lemma InvisibleStep(w: World, ops: seq<Op>, i: nat)
    requires AllAllowed(ops, w.refs.Keys) && i < |ops| && w.readers <= w.refs.Keys && !Revealed(w, ops, i)
    requires AllAllowed(ops[..i], w.refs.Keys) && Invisible(w, ops[..i])
    ensures AllAllowed(ops[..i + 1], w.refs.Keys) && Invisible(w, ops[..i + 1])
  {
    hide CacheRun, RefRun, RefDo, LookedUp;
    CacheRunStep(w, ops, i);
    RefRunStep(w.refs, w.readers, ops, i);
    ReadersGrow(w, ops, i);
    StepAgrees(CacheRun(w, ops[..i]).0, w.readers, ops[i]);
  }

  lemma {:induction false} InvisibleSoFar(w: World, ops: seq<Op>, i: nat)
    requires AllAllowed(ops, w.refs.Keys) && i <= |ops| && w.readers <= w.refs.Keys
    requires forall j :: 0 <= j < i ==> !Revealed(w, ops, j)
    ensures AllAllowed(ops[..i], w.refs.Keys) && Invisible(w, ops[..i])
  {
    hide RefDo, LookedUp, Revealed;
    if i > 0 {
      InvisibleSoFar(w, ops, i - 1);
      InvisibleStep(w, ops, i - 1);
    }
  }

  lemma {:induction false} AnswersStay(w: World, ops: seq<Op>, i: nat, k: nat)
    requires AllAllowed(ops, w.refs.Keys) && i <= k <= |ops|
    ensures AllAllowed(ops[..i], w.refs.Keys) && AllAllowed(ops[..k], w.refs.Keys)
    ensures CacheRun(w, ops[..k]).1[..i] == CacheRun(w, ops[..i]).1
    ensures RefRun(w.refs, w.readers, ops[..k]).1[..i] == RefRun(w.refs, w.readers, ops[..i]).1
  {
    hide CacheRun, RefRun, CacheStep, RefDo;
    if i < k {
      AnswersStay(w, ops, i, k - 1);
      CacheRunStep(w, ops, k - 1);
      RefRunStep(w.refs, w.readers, ops, k - 1);
    }
  }

  lemma RevealedShows(w: World, ops: seq<Op>, i: nat)
    requires AllAllowed(ops, w.refs.Keys) && i < |ops| && w.readers <= w.refs.Keys
    requires Revealed(w, ops, i) && forall j :: 0 <= j < i ==> !Revealed(w, ops, j)
    ensures !Invisible(w, ops)
  {
    hide CacheRun, RefRun, LookedUp;
    InvisibleSoFar(w, ops, i);
    CacheRunStep(w, ops, i);
    RefRunStep(w.refs, w.readers, ops, i);
    ReadersGrow(w, ops, i);
    OwnStreamStays(CacheRun(w, ops[..i]).0, Root(ops[i].h));
    assert CacheRun(w, ops[..i + 1]).1[i] != RefRun(w.refs, w.readers, ops[..i + 1]).1[i];
    AnswersStay(w, ops, i + 1, |ops|);
    assert ops[..|ops|] == ops;
  }

  lemma FirstRevealed(w: World, ops: seq<Op>, k: nat) returns (i: nat)
    requires AllAllowed(ops, w.refs.Keys) && k < |ops| && Revealed(w, ops, k)
    ensures i < |ops| && Revealed(w, ops, i) && forall j :: 0 <= j < i ==> !Revealed(w, ops, j)
  {
    i := 0;
    while !Revealed(w, ops, i)
      invariant i <= k && forall j :: 0 <= j < i ==> !Revealed(w, ops, j)
      decreases k - i
    {
      i := i + 1;
    }
  }

  /** Descriptor caching is invisible in a run if and only if nobody reads bytes through a stream that was
      created write only and has been closed by the cache since. */
  lemma InvisibleIff(w: World, ops: seq<Op>)
    requires AllAllowed(ops, w.refs.Keys) && w.readers <= w.refs.Keys
    ensures Invisible(w, ops) <==> forall i :: 0 <= i < |ops| ==> !Revealed(w, ops, i)
  {
    if k :| 0 <= k < |ops| && Revealed(w, ops, k) {
      var i := FirstRevealed(w, ops, k);
      RevealedShows(w, ops, i);
    } else {
      InvisibleSoFar(w, ops, |ops|);
      assert ops[..|ops|] == ops;
    }
  }

  /** In particular it is when only streams are read that may be read at first. */
  lemma InvisibleToReaders(w: World, ops: seq<Op>)
    requires AllAllowed(ops, w.refs.Keys) && w.readers <= w.refs.Keys
    requires forall i :: 0 <= i < |ops| && ops[i].ReadUpTo? ==> Root(ops[i].h) in w.readers
    ensures Invisible(w, ops)
  {
    forall i | 0 <= i < |ops| ensures !Revealed(w, ops, i) {
      assert ops[i].ReadUpTo? ==> Root(ops[i].h) in w.readers;
    }
    InvisibleIff(w, ops);
  }

  // ---- a run in which the cache shows ----

  /** Write a byte to a new file, use ten others, and read it back. */
  function WriteLeaveRead(b: Bfd, others: seq<Bfd>): (ops: seq<Op>)
    requires |others| == BFD_CACHE_MAX_OPEN
    ensures |ops| == 13 && ops[0] == WriteAll(Whole(b), [1])
    ensures forall i :: 0 <= i < 10 ==> ops[i + 1] == Ask(Whole(others[i]))
    ensures ops[11] == SeekTo(Whole(b), 0, false) && ops[12] == ReadUpTo(Whole(b), 1)
  {
    [WriteAll(Whole(b), [1])] + seq(10, i requires 0 <= i < 10 => Ask(Whole(others[i])))
    + [SeekTo(Whole(b), 0, false), ReadUpTo(Whole(b), 1)]
  }

  /** An empty cache in front of a file still to be created and ten others. */
  predicate Unused(w: World, b: Bfd, others: seq<Bfd>) {
    && |others| == BFD_CACHE_MAX_OPEN && b !in others
    && (forall i, j :: 0 <= i < j < |others| ==> others[i] != others[j])
    && b in w.refs && (forall i :: 0 <= i < |others| ==> others[i] in w.refs)
    && w.ring == [] && w.readers <= w.refs.Keys && b !in w.readers
    && b.Writes() && w.refs[b] == Ref(0, [])
  }

  /** The ring once `i` of the others are open, too. */
  function Filled(b: Bfd, others: seq<Bfd>, i: nat): (m: seq<Entry>)
    requires i <= |others|
    ensures |m| == i + 1
  {
    if i == 0 then [Entry(b, true)] else [Entry(others[i - 1], true)] + Filled(b, others, i - 1)
  }

  lemma {:induction false} FilledMembers(b: Bfd, others: seq<Bfd>, i: nat)
    requires i <= |others|
    ensures var m := Filled(b, others, i);
      && m[i] == Entry(b, true) && (forall k :: 0 <= k < i ==> m[k] == Entry(others[i - 1 - k], true))
  {
    if i > 0 {
      FilledMembers(b, others, i - 1);
    }
  }

  lemma Enters(m: seq<Entry>, b: Bfd)
    requires |m| < BFD_CACHE_MAX_OPEN && forall i :: 0 <= i < |m| ==> m[i].bfd != b
    ensures Touch(m, b) == [Entry(b, true)] + m
  {
    NotPlaced(m, b);
  }

  lemma NobodyLeft(readers: set<Bfd>, clients: set<Bfd>, m: seq<Entry>, e: Entry)
    requires readers <= clients
    ensures Reopened(readers, clients, m, [e] + m) == readers
  {
    forall b | Member(m, b) ensures Member([e] + m, b) {
      var i :| 0 <= i < |m| && m[i].bfd == b;
      assert ([e] + m)[i + 1].bfd == b;
    }
  }

  lemma {:induction false} OthersOpen(w: World, b: Bfd, others: seq<Bfd>, i: nat)
    requires Unused(w, b, others) && i < BFD_CACHE_MAX_OPEN
    ensures AllAllowed(WriteLeaveRead(b, others), w.refs.Keys)
    ensures CacheRun(w, WriteLeaveRead(b, others)[..i + 1]).0
         == World(w.refs[b := Ref(1, [1])], Filled(b, others, i), w.readers)
  {
    hide CacheRun, Place, MakeRoom;
    var ops := WriteLeaveRead(b, others);
    AllFit(w, b, others);
    CacheRunStep(w, ops, i);
    if i == 0 {
      assert CacheRun(w, ops[..0]).0 == w by {
        NothingRun(w, ops);
      }
      Enters(w.ring, b);
      NobodyLeft(w.readers, w.refs.Keys, w.ring, Entry(b, true));
      assert [Entry(b, true)] + [] == [Entry(b, true)];
      assert Overwrite([], 0, [1]) == [1];
    } else {
      OthersOpen(w, b, others, i - 1);
      FilledMembers(b, others, i - 1);
      var u := CacheRun(w, ops[..i]).0;
      Enters(u.ring, others[i - 1]);
      NobodyLeft(w.readers, u.refs.Keys, u.ring, Entry(others[i - 1], true));
      assert u.refs[others[i - 1] := u.refs[others[i - 1]]] == u.refs;
    }
  }

  lemma AllFit(w: World, b: Bfd, others: seq<Bfd>)
    requires Unused(w, b, others)
    ensures AllAllowed(WriteLeaveRead(b, others), w.refs.Keys)
  {
    var ops := WriteLeaveRead(b, others);
    forall i | 0 <= i < |ops| ensures Allowed(ops[i], w.refs.Keys) {
      if 1 <= i <= 10 {
        assert ops[i - 1 + 1] == Ask(Whole(others[i - 1]));
      } else {
        assert i == 0 || i == 11 || i == 12;
      }
    }
  }

  lemma NothingRun(w: World, ops: seq<Op>)
    requires AllAllowed(ops, w.refs.Keys)
    ensures AllAllowed(ops[..0], w.refs.Keys) && CacheRun(w, ops[..0]).0 == w
  {
  }

  lemma Evicted(m: seq<Entry>, e: Entry)
    requires |m| == BFD_CACHE_MAX_OPEN && m[|m| - 1].cacheable && forall i :: 0 <= i < |m| ==> m[i].bfd != e.bfd
    requires e.cacheable
    ensures Touch(m, e.bfd) == [e] + m[..|m| - 1]
  {
    NotPlaced(m, e.bfd);
    VictimIs(m, |m| - 1);
    assert Without(m, |m| - 1) == m[..|m| - 1];
  }

  /** The tenth of the others takes the place of the first file, whose stream may be read from then on. */
  lemma FirstFileLeaves(w: World, b: Bfd, others: seq<Bfd>)
    requires Unused(w, b, others)
    ensures AllAllowed(WriteLeaveRead(b, others), w.refs.Keys)
    ensures var u := CacheRun(w, WriteLeaveRead(b, others)[..11]).0;
      u.refs == w.refs[b := Ref(1, [1])] && b in u.readers && forall e :: e in u.ring ==> e.bfd != b
  {
    hide CacheRun, Place, MakeRoom, Touch;
    var ops, c := WriteLeaveRead(b, others), others[9];
    OthersOpen(w, b, others, 9);
    CacheRunStep(w, ops, 10);
    FilledMembers(b, others, 9);
    var u := CacheRun(w, ops[..10]).0;
    Evicted(u.ring, Entry(c, true));
    var m := Touch(u.ring, c);
    assert u.ring[9].bfd == b;
    forall e | e in m ensures e.bfd != b {
      var i :| 0 <= i < |m| && m[i] == e;
      assert i > 0 ==> m[i] == u.ring[i - 1];
    }
    assert u.refs[c := u.refs[c]] == u.refs;
  }

  lemma ReadThroughCache(w: World, b: Bfd, others: seq<Bfd>)
    requires Unused(w, b, others)
    ensures AllAllowed(WriteLeaveRead(b, others), w.refs.Keys)
    ensures CacheRun(w, WriteLeaveRead(b, others)).1[12] == Data([1])
  {
    hide CacheRun, Touch, WriteLeaveRead;
    var ops := WriteLeaveRead(b, others);
    FirstFileLeaves(w, b, others);
    CacheRunStep(w, ops, 11);
    OwnStreamStays(CacheRun(w, ops[..11]).0, b);
    CacheRunStep(w, ops, 12);
    OwnStreamStays(CacheRun(w, ops[..12]).0, b);
    assert ops[..13] == ops;
  }

  lemma ReadThroughFirstStream(w: World, b: Bfd, others: seq<Bfd>)
    requires Unused(w, b, others)
    ensures AllAllowed(WriteLeaveRead(b, others), w.refs.Keys)
    ensures RefRun(w.refs, w.readers, WriteLeaveRead(b, others)).1[12] == Data([])
  {
    hide RefRun, WriteLeaveRead, Slice, Overwrite;
    var ops := WriteLeaveRead(b, others);
    AllFit(w, b, others);
    RefRunStep(w.refs, w.readers, ops, 12);
    assert ops[..13] == ops;
  }

  /** A file just written is read back through the cache, but not through the write only stream that created
      it: the cache shows. */
  lemma EvictionShows(w: World, b: Bfd, others: seq<Bfd>)
    requires Unused(w, b, others)
    ensures var ops := WriteLeaveRead(b, others);
      && AllAllowed(ops, w.refs.Keys)
      && CacheRun(w, ops).1[12] == Data([1]) && RefRun(w.refs, w.readers, ops).1[12] == Data([])
  {
    ReadThroughCache(w, b, others);
    ReadThroughFirstStream(w, b, others);
  }
}
