/** Compressed Alpha ECOFF archive elements: each byte is predicted from a hash of the last three, and a
    control byte says which of the next eight predictions hold. */
module AlphaDecode {
  import opened Words

  const DICT_SIZE := 4096
  /** A hash, and with it a place in the dictionary. */
  type Slot = x: int | 0 <= x < 4096

  /** How the hash goes on after a byte. Decoding undoes encoding whatever this is. */
  type Hashing = (Slot, Byte) -> Slot

  /** A hashing, and how many output bytes a control byte manages: 8, but any number up to 8 would do. */
  datatype AnyScheme = AnyScheme(next: Hashing, width: nat)
  type Scheme = s: AnyScheme | 1 <= s.width <= 8 witness AnyScheme((h, n) => h, 8)

  /** The predictor's state: the dictionary, the hash, and the bytes produced so far. */
  datatype State = State(dict: seq<Byte>, h: Slot, out: seq<Byte>)

  predicate Sized(st: State) {
    |st.dict| == DICT_SIZE
  }

  function Prediction(st: State): Byte
    requires Sized(st)
  {
    st.dict[st.h]
  }

  /** The state after the next byte `n`, however it was found. */
  function Next(s: Scheme, st: State, n: Byte): (t: State)
    requires Sized(st)
    ensures Sized(t)
  {
    State(st.dict[st.h := n], s.next(st.h, n), st.out + [n])
  }

  function Start(): (st: State)
    ensures Sized(st)
  {
    State(seq(DICT_SIZE, _ => 0), 0, [])
  }

  // ---- decoding ----

  datatype Result = Complete(out: seq<Byte>) | Short(out: seq<Byte>) | Broken

  datatype Turn = Turn(pos: nat, st: State, ok: bool)

  /** The bytes that the `left` control bits `b` stand for. */
  function Group(s: Scheme, input: seq<Byte>, pos: nat, b: nat, left: nat, st: State, size: nat): (t: Turn)
    requires Sized(st) && |st.out| <= size
    ensures Sized(t.st) && |st.out| <= |t.st.out| <= size
    ensures t.ok && 0 < left && |st.out| < size ==> |st.out| < |t.st.out|
    decreases left
  {
    if left == 0 || |st.out| == size then Turn(pos, st, true)
    else if b % 2 == 0 then Group(s, input, pos, b / 2, left - 1, Next(s, st, Prediction(st)), size)
    else if pos >= |input| then Turn(pos, st, false)
    else Group(s, input, pos + 1, b / 2, left - 1, Next(s, st, input[pos]), size)
  }

  /** Input that ends before a control byte leaves the output short; input that ends before a literal byte
      is an error. */
  function Decode(s: Scheme, input: seq<Byte>, pos: nat, st: State, size: nat): (r: Result)
    requires Sized(st) && |st.out| <= size
    ensures r.Complete? ==> |r.out| == size
    ensures r.Short? ==> |r.out| < size
    decreases size - |st.out|
  {
    if |st.out| == size then Complete(st.out)
    else if pos >= |input| then Short(st.out)
    else
      var t := Group(s, input, pos + 1, input[pos], s.width, st, size);
      if !t.ok then Broken else Decode(s, input, t.pos, t.st, size)
  }

  // ---- a specification encoder ----

  /** Control bits, literal bytes and the resulting state for at most `left` bytes of `data`. */
  datatype Code = Code(bits: nat, literals: seq<Byte>, st: State)

  lemma {:induction false} Pow2Grows(m: nat, n: nat)
    requires m <= n
    ensures Pow2(m) <= Pow2(n) && Pow2(8) == 256
  {
    if m < n {
      Pow2Grows(m, n - 1);
    }
  }

  function EncodeGroup(s: Scheme, data: seq<Byte>, left: nat, st: State): (c: Code)
    requires Sized(st) && |st.out| <= |data|
    ensures Sized(c.st) && |st.out| <= |c.st.out| <= |data| && c.bits < Pow2(left)
    ensures 0 < left && |st.out| < |data| ==> |st.out| < |c.st.out|
    decreases left
  {
    if left == 0 || |st.out| == |data| then Code(0, [], st)
    else
      var n := data[|st.out|];
      var c := EncodeGroup(s, data, left - 1, Next(s, st, n));
      if Prediction(st) == n then Code(2 * c.bits, c.literals, c.st)
      else Code(2 * c.bits + 1, [n] + c.literals, c.st)
  }

  /** A byte is sent as a literal only where the dictionary does not predict it. */
  function Encode(s: Scheme, data: seq<Byte>, st: State): seq<Byte>
    requires Sized(st) && |st.out| <= |data|
    decreases |data| - |st.out|
  {
    if |st.out| == |data| then []
    else
      var c := EncodeGroup(s, data, s.width, st);
      Pow2Grows(s.width, 8);
      [c.bits] + c.literals + Encode(s, data, c.st)
  }

  /** Decoding one control byte's worth of an encoding reproduces the data and consumes the literals. */
  lemma {:induction false} GroupRoundTrip(s: Scheme, data: seq<Byte>, left: nat, st: State, input: seq<Byte>, pos: nat)
    requires Sized(st) && st.out <= data
    requires var c := EncodeGroup(s, data, left, st);
      pos + |c.literals| <= |input| && input[pos..pos + |c.literals|] == c.literals
    ensures var c := EncodeGroup(s, data, left, st);
      Group(s, input, pos, c.bits, left, st, |data|) == Turn(pos + |c.literals|, c.st, true) && c.st.out <= data
    decreases left
  {
    if 0 < left && |st.out| < |data| {
      var n := data[|st.out|];
      var c := EncodeGroup(s, data, left, st);
      var rest := EncodeGroup(s, data, left - 1, Next(s, st, n));
      assert Next(s, st, n).out <= data;
      if Prediction(st) == n {
        GroupRoundTrip(s, data, left - 1, Next(s, st, n), input, pos);
        assert c.bits % 2 == 0 && c.bits / 2 == rest.bits;
      } else {
        assert input[pos] == c.literals[0] == n;
        assert input[pos + 1..pos + 1 + |rest.literals|] == c.literals[1..] == rest.literals;
        GroupRoundTrip(s, data, left - 1, Next(s, st, n), input, pos + 1);
        assert c.bits % 2 == 1 && c.bits / 2 == rest.bits;
      }
    }
  }

  /** The decoder undoes the encoder, for every byte string, wherever in the input the encoding stands. */
  lemma {:induction false} RoundTrip(s: Scheme, data: seq<Byte>, st: State, input: seq<Byte>, pos: nat)
    requires Sized(st) && st.out <= data && pos <= |input|
    requires Encode(s, data, st) <= input[pos..]
    ensures Decode(s, input, pos, st, |data|) == Complete(data)
    decreases |data| - |st.out|
  {
    if |st.out| < |data| {
      var c := EncodeGroup(s, data, s.width, st);
      var after := pos + 1 + |c.literals|;
      SplitCode(s, data, st, input, pos);
      GroupRoundTrip(s, data, s.width, st, input, pos + 1);
      DecodeGroup(s, input, pos, st, |data|, c);
      RoundTrip(s, data, c.st, input, after);
    }
  }

  lemma DecodeGroup(s: Scheme, input: seq<Byte>, pos: nat, st: State, size: nat, c: Code)
    requires Sized(st) && |st.out| < size && pos < |input| && Sized(c.st) && |c.st.out| <= size
    requires Group(s, input, pos + 1, input[pos], s.width, st, size) == Turn(pos + 1 + |c.literals|, c.st, true)
    ensures Decode(s, input, pos, st, size) == Decode(s, input, pos + 1 + |c.literals|, c.st, size)
  {
  }

  lemma SplitCode(s: Scheme, data: seq<Byte>, st: State, input: seq<Byte>, pos: nat)
    requires Sized(st) && |st.out| < |data| && pos <= |input|
    requires Encode(s, data, st) <= input[pos..]
    ensures var c := EncodeGroup(s, data, s.width, st); var after := pos + 1 + |c.literals|;
      && after <= |input| && input[pos] == c.bits && input[pos + 1..after] == c.literals
      && Encode(s, data, c.st) <= input[after..]
  {
    var c := EncodeGroup(s, data, s.width, st);
    var code := Encode(s, data, st);
    var rest := input[pos..];
    var k := 1 + |c.literals|;
    assert code == [c.bits] + c.literals + Encode(s, data, c.st);
    assert rest[..|code|] == code;
    assert input[pos + 1..pos + k] == rest[1..k] == code[1..k] == c.literals;
    assert input[pos + k..] == rest[k..];
    assert rest[k..][..|code| - k] == code[k..] == Encode(s, data, c.st);
  }

  lemma DecodeUndoesEncode(data: seq<Byte>)
    ensures Decode(Alpha(), Encode(Alpha(), data, Start()), 0, Start(), |data|) == Complete(data)
  {
    var code := Encode(Alpha(), data, Start());
    assert code[0..] == code;
    RoundTrip(Alpha(), data, Start(), code, 0);
  }

  // ---- the hash is that of the last three bytes ----

  /** `h <<= 4; h ^= n; h &= sizeof dict - 1`, in as many bits as the mask keeps. */
  function NextHash(h: Slot, n: Byte): Slot {
    (((h as bv12) << 4) ^ (n as bv12)) as int
  }

  function Alpha(): Scheme {
    AnyScheme(NextHash, 8)
  }

  /** The `k`th byte from the end, or 0. */
  function Recent(out: seq<Byte>, k: nat): Byte {
    if k <= |out| && 0 < k then out[|out| - k] else 0
  }

  function Hash3(n3: Byte, n2: Byte, n1: Byte): Slot {
    (((n3 as bv12) << 8) ^ ((n2 as bv12) << 4) ^ (n1 as bv12)) as int
  }

  function HashOfLast3(out: seq<Byte>): Slot {
    Hash3(Recent(out, 3), Recent(out, 2), Recent(out, 1))
  }

  lemma ShiftBits(a: bv12, b: bv12, c: bv12, n: bv12)
    ensures (((a << 8) ^ (b << 4) ^ c) << 4) ^ n == (b << 8) ^ (c << 4) ^ n
  {
  }

  lemma BitsBack(h: bv12)
    ensures (h as int) as bv12 == h
  {
  }

  lemma HashStep(n4: Byte, n3: Byte, n2: Byte, n1: Byte)
    ensures NextHash(Hash3(n4, n3, n2), n1) == Hash3(n3, n2, n1)
  {
    var h := ((n4 as bv12) << 8) ^ ((n3 as bv12) << 4) ^ (n2 as bv12);
    BitsBack(h);
    ShiftBits(n4 as bv12, n3 as bv12, n2 as bv12, n1 as bv12);
  }

  lemma NoBytesHash()
    ensures HashOfLast3([]) == 0
  {
  }

  /** The state after producing `out`. */
  function After(s: Scheme, out: seq<Byte>): (st: State)
    ensures Sized(st) && st.out == out
  {
    if |out| == 0 then Start() else Next(s, After(s, out[..|out| - 1]), out[|out| - 1])
  }

  lemma AfterOneMore(s: Scheme, out: seq<Byte>, n: Byte)
    ensures After(s, out + [n]) == Next(s, After(s, out), n)
  {
    assert (out + [n])[..|out|] == out;
  }

  /** The byte that last followed three bytes with hash `x`, or 0. */
  function LastFollower(hash: seq<Byte> -> Slot, out: seq<Byte>, x: Slot): Byte {
    if |out| == 0 then 0
    else if hash(out[..|out| - 1]) == x then out[|out| - 1]
    else LastFollower(hash, out[..|out| - 1], x)
  }

  ghost predicate Computes(s: Scheme, hash: seq<Byte> -> Slot) {
    hash([]) == 0 && forall out: seq<Byte>, n: Byte :: ComputesStep(s, hash, out, n)
  }

  ghost predicate ComputesStep(s: Scheme, hash: seq<Byte> -> Slot, out: seq<Byte>, n: Byte) {
    hash(out + [n]) == s.next(hash(out), n)
  }

  lemma {:induction false} PredictorFor(s: Scheme, hash: seq<Byte> -> Slot, out: seq<Byte>)
    requires Computes(s, hash)
    ensures After(s, out).h == hash(out)
    ensures forall x: Slot :: After(s, out).dict[x] == LastFollower(hash, out, x)
  {
    if |out| > 0 {
      var front, n := out[..|out| - 1], out[|out| - 1];
      PredictorFor(s, hash, front);
      assert out == front + [n] && ComputesStep(s, hash, front, n);
      var st := After(s, front);
      assert After(s, out) == Next(s, st, n);
      forall x: Slot ensures After(s, out).dict[x] == LastFollower(hash, out, x) {
        assert After(s, out).dict[x] == if st.h == x then n else st.dict[x];
      }
    }
  }

  lemma HashComputes()
    ensures Computes(Alpha(), HashOfLast3)
  {
    NoBytesHash();
    forall out: seq<Byte>, n: Byte ensures ComputesStep(Alpha(), HashOfLast3, out, n) {
      HashOfOneMore(out, n);
    }
  }

  lemma HashOfOneMore(out: seq<Byte>, n: Byte)
    ensures HashOfLast3(out + [n]) == NextHash(HashOfLast3(out), n)
  {
    assert Recent(out + [n], 1) == n && Recent(out + [n], 2) == Recent(out, 1);
    assert Recent(out + [n], 3) == Recent(out, 2);
    HashStep(Recent(out, 3), Recent(out, 2), Recent(out, 1), n);
  }

  /** At every moment the hash is that of the last three bytes produced, and the dictionary predicts, for
      every hash, the byte that last followed it. */
  lemma Predictor(out: seq<Byte>)
    ensures After(Alpha(), out).h == HashOfLast3(out)
    ensures forall x: Slot :: After(Alpha(), out).dict[x] == LastFollower(HashOfLast3, out, x)
  {
    HashComputes();
    PredictorFor(Alpha(), HashOfLast3, out);
  }

  // ---- what a control byte governs ----

  lemma GroupStep(s: Scheme, input: seq<Byte>, pos: nat, b: nat, left: nat, st: State, size: nat)
    requires Sized(st) && |st.out| < size && 0 < left
    ensures var literal := b % 2 == 1;
      if literal && pos >= |input| then Group(s, input, pos, b, left, st, size) == Turn(pos, st, false)
      else
        var n := if literal then input[pos] else Prediction(st);
        Group(s, input, pos, b, left, st, size)
        == Group(s, input, if literal then pos + 1 else pos, b / 2, left - 1, Next(s, st, n), size)
  {
  }

  lemma GroupFull(s: Scheme, input: seq<Byte>, pos: nat, b: nat, left: nat, st: State, size: nat)
    requires |st.out| == size || left == 0
    requires Sized(st) && |st.out| <= size
    ensures Group(s, input, pos, b, left, st, size) == Turn(pos, st, true)
  {
  }

  /** Bit `k` of a control byte, from the low end. */
  predicate Bit(b: nat, k: nat) {
    if k == 0 then b % 2 == 1 else Bit(b / 2, k - 1)
  }

  /** How many of the low `k` bits are set. */
  function Ones(b: nat, k: nat): nat {
    if k == 0 then 0 else (if b % 2 == 1 then 1 else 0) + Ones(b / 2, k - 1)
  }

  /** Byte `k` behind `out` is literal if its bit is set, and otherwise what last followed the same hash. */
  predicate MadeAt(hash: seq<Byte> -> Slot, input: seq<Byte>, pos: nat, b: nat, out: seq<Byte>, made: seq<Byte>, k: nat)
    requires k < |made|
  {
    var sofar := out + made[..k];
    if Bit(b, k) then pos + Ones(b, k) < |input| && made[k] == input[pos + Ones(b, k)]
    else made[k] == LastFollower(hash, sofar, hash(sofar))
  }

  lemma {:induction false} GroupMakes(s: Scheme, hash: seq<Byte> -> Slot, input: seq<Byte>, pos: nat, b: nat, left: nat,
                                      out: seq<Byte>, size: nat)
    returns (made: seq<Byte>)
    requires Computes(s, hash) && |out| <= size
    requires pos + Ones(b, if left < size - |out| then left else size - |out|) <= |input|
    ensures |made| == if left < size - |out| then left else size - |out|
    ensures Group(s, input, pos, b, left, After(s, out), size)
         == Turn(pos + Ones(b, |made|), After(s, out + made), true)
    ensures forall k :: 0 <= k < |made| ==> MadeAt(hash, input, pos, b, out, made, k)
    decreases left
  {
    hide Computes, LastFollower, Group, After, Next, MadeAt;
    if left == 0 || |out| == size {
      made := [];
      assert out + made == out;
      GroupFull(s, input, pos, b, left, After(s, out), size);
    } else {
      PredictorFor(s, hash, out);
      var literal := b % 2 == 1;
      var n := if literal then input[pos] else LastFollower(hash, out, hash(out));
      var next := if literal then pos + 1 else pos;
      AfterOneMore(s, out, n);
      GroupStep(s, input, pos, b, left, After(s, out), size);
      var rest := GroupMakes(s, hash, input, next, b / 2, left - 1, out + [n], size);
      made := [n] + rest;
      assert out + made == out + [n] + rest;
      forall k | 0 <= k < |made| ensures MadeAt(hash, input, pos, b, out, made, k) {
        MadeLater(hash, input, pos, b, out, n, rest, k);
      }
    }
  }

  lemma MadeLater(hash: seq<Byte> -> Slot, input: seq<Byte>, pos: nat, b: nat, out: seq<Byte>, n: Byte,
                  rest: seq<Byte>, k: nat)
    requires k <= |rest| && (b % 2 == 1 ==> pos < |input|)
    requires n == if b % 2 == 1 then input[pos] else LastFollower(hash, out, hash(out))
    requires k > 0 ==> MadeAt(hash, input, if b % 2 == 1 then pos + 1 else pos, b / 2, out + [n], rest, k - 1)
    ensures MadeAt(hash, input, pos, b, out, [n] + rest, k)
  {
    hide LastFollower;
    var made := [n] + rest;
    if k == 0 {
      assert out + made[..0] == out;
    } else {
      assert made[..k] == [n] + rest[..k - 1];
      assert out + made[..k] == out + [n] + rest[..k - 1];
    }
  }

  /** The same for Alpha's hash, the control byte standing at `pos`. */
  predicate Governed(input: seq<Byte>, pos: nat, out: seq<Byte>, made: seq<Byte>, k: nat)
    requires pos < |input| && k < |made|
  {
    MadeAt(HashOfLast3, input, pos + 1, input[pos], out, made, k)
  }

  /** Each control byte governs the next eight bytes of the output, or as many as are missing, from its low bit on: a
      set bit stands for the next literal byte, a clear one for the byte that last followed the same hash of three. */
  lemma ControlByte(input: seq<Byte>, pos: nat, out: seq<Byte>, size: nat) returns (made: seq<Byte>)
    requires |out| < size && pos < |input|
    requires pos + 1 + Ones(input[pos], if 8 < size - |out| then 8 else size - |out|) <= |input|
    ensures |made| == if 8 < size - |out| then 8 else size - |out|
    ensures Decode(Alpha(), input, pos, After(Alpha(), out), size)
         == Decode(Alpha(), input, pos + 1 + Ones(input[pos], |made|), After(Alpha(), out + made), size)
    ensures forall k :: 0 <= k < |made| ==> Governed(input, pos, out, made, k)
  {
    hide HashOfLast3, Group, MadeAt, After, LastFollower, Computes;
    HashComputes();
    made := GroupMakes(Alpha(), HashOfLast3, input, pos + 1, input[pos], 8, out, size);
  }

  /** A control byte of ones and eight literals stand for these eight. */
  lemma AllLiteral(d: seq<Byte>)
    requires |d| == 8
    ensures Decode(Alpha(), [0xff] + d, 0, Start(), 8) == Complete(d)
  {
    hide Alpha, Decode, HashOfLast3, LastFollower;
    var input: seq<Byte> := [0xff] + d;
    Pow2Grows(8, 8);
    AllOnes(0xff, 8, 8);
    var made := ControlByte(input, 0, [], 8);
    forall k | 0 <= k < 8 ensures made[k] == d[k] {
      assert Governed(input, 0, [], made, k);
      AllOnes(0xff, 8, k);
    }
    assert [] + made == d;
    DecodeDone(input, 9, d);
  }

  lemma DecodeDone(input: seq<Byte>, pos: nat, d: seq<Byte>)
    ensures Decode(Alpha(), input, pos, After(Alpha(), d), |d|) == Complete(d)
  {
  }

  lemma {:induction false} AllOnes(b: nat, n: nat, k: nat)
    requires b + 1 == Pow2(n) && k <= n
    ensures Ones(b, k) == k && (k < n ==> Bit(b, k))
  {
    if k > 0 {
      AllOnes(b / 2, n - 1, k - 1);
    }
  }

  // ---- the code ----

  /** What the loop holds between two output bytes: the predictor's state after what is in the buffer. */
  ghost predicate Holds(s: Scheme, st: State, dict: seq<Byte>, h: Slot, out: seq<Byte>) {
    st == State(dict, h, out) && Sized(st) && st == After(s, out)
  }

  /** Fetch the next byte: predicted, or literal and then learned. */
  method NextByte(s: Scheme, input: seq<Byte>, pos: nat, literal: bool, dict: array<Byte>, h: Slot, ghost st: State)
    returns (ok: bool, n: Byte, newPos: nat)
    requires dict.Length == DICT_SIZE && st.dict == dict[..] && st.h == h
    modifies dict
    ensures ok == (!literal || pos < |input|)
    ensures ok ==> n == (if literal then input[pos] else Prediction(st)) && newPos == (if literal then pos + 1 else pos)
    ensures ok ==> dict[..] == Next(s, st, n).dict
  {
    ok, newPos := true, pos;
    if !literal {
      n := dict[h];
    } else {
      if pos >= |input| {
        return false, 0, pos;
      }
      n := input[pos];
      newPos := pos + 1;
      dict[h] := n;
    }
  }

  /** Produce the next byte. */
  method ExpandByte(s: Scheme, input: seq<Byte>, pos: nat, literal: bool, dict: array<Byte>, h: Slot,
                    buf: array<Byte>, p: nat, ghost st: State)
    returns (ok: bool, n: Byte, newPos: nat)
    requires dict != buf && dict.Length == DICT_SIZE && p < buf.Length && Holds(s, st, dict[..], h, buf[..p])
    modifies dict, buf
    ensures ok == (!literal || pos < |input|)
    ensures ok ==> n == (if literal then input[pos] else Prediction(st)) && newPos == (if literal then pos + 1 else pos)
    ensures ok ==> Holds(s, Next(s, st, n), dict[..], s.next(h, n), buf[..p + 1])
  {
    ok, n, newPos := NextByte(s, input, pos, literal, dict, h, st);
    if ok {
      ghost var before := buf[..p];
      buf[p] := n;
      assert buf[..p + 1] == before + [n];
      AfterOneMore(s, before, n);
    }
  }

  /** The loop over one control byte's bits. */
  method ExpandGroup(s: Scheme, input: seq<Byte>, pos: nat, control: Byte, dict: array<Byte>, h: Slot,
                     buf: array<Byte>, p: nat, ghost st: State)
    returns (ok: bool, newPos: nat, newHash: Slot, newP: nat)
    requires dict != buf && dict.Length == DICT_SIZE && p < buf.Length && Holds(s, st, dict[..], h, buf[..p])
    modifies dict, buf
    ensures p <= newP <= buf.Length
    ensures var t := Group(s, input, pos, control, s.width, st, buf.Length);
      && ok == t.ok && (ok ==> newPos == t.pos && buf[..newP] == t.st.out)
      && (ok && newP < buf.Length ==> Holds(s, t.st, dict[..], newHash, buf[..newP]))
  {
    hide Group, Next;
    ghost var goal := Group(s, input, pos, control, s.width, st, buf.Length);
    ghost var cur := st;
    var b: nat := control;
    ok, newPos, newHash, newP := true, pos, h, p;
    var i := 0;
    while i < s.width
      invariant 0 <= i <= s.width && p <= newP < buf.Length && ok
      invariant Holds(s, cur, dict[..], newHash, buf[..newP])
      invariant goal == Group(s, input, newPos, b, s.width - i, cur, buf.Length)
    {
      GroupStep(s, input, newPos, b, s.width - i, cur, buf.Length);
      var n: Byte;
      ok, n, newPos := ExpandByte(s, input, newPos, b % 2 == 1, dict, newHash, buf, newP, cur);
      if !ok {
        return;
      }
      cur := Next(s, cur, n);
      newP := newP + 1;
      b := b / 2;
      i := i + 1;
      if newP == buf.Length {
        GroupFull(s, input, newPos, b, s.width - i, cur, buf.Length);
        return;
      }
      newHash := s.next(newHash, n);
    }
    GroupFull(s, input, newPos, b, 0, cur, buf.Length);
  }

  /** The decompression loop of `alpha_ecoff_get_elt_at_filepos`; `input` starts at the first control byte. */
  method Decompress(s: Scheme, input: seq<Byte>, size: nat) returns (r: Result)
    ensures r == Decode(s, input, 0, Start(), size)
  {
    if size == 0 {
      return Complete([]);
    }
    var buf := new Byte[size];
    var dict := new Byte[DICT_SIZE](_ => 0);
    var h: Slot := 0;
    var p: nat, pos: nat := 0, 0;
    ghost var st := Start();
    assert dict[..] == st.dict && buf[..0] == [];
    while pos < |input|
      invariant p < size == buf.Length && Holds(s, st, dict[..], h, buf[..p])
      invariant Decode(s, input, 0, Start(), size) == Decode(s, input, pos, st, size)
      decreases size - p
    {
      var b := input[pos];
      var ok: bool;
      ghost var t := Group(s, input, pos + 1, b, s.width, st, size);
      ok, pos, h, p := ExpandGroup(s, input, pos + 1, b, dict, h, buf, p, st);
      if !ok {
        return Broken;
      }
      st := t.st;
      if p == size {
        assert buf[..] == buf[..p];
        return Complete(buf[..]);
      }
    }
    r := Short(buf[..p]);
  }
}
