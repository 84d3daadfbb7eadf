/** Bytes, 32-bit words and the two byte orders, shared by the other modules. */
module Words {
  type Byte = x: int | 0 <= x < 256

  datatype Option<T> = None | Some(value: T)

  /** `isdigit`. */
  predicate IsDigit(b: Byte) {
    48 <= b <= 57
  }

  const WORD := 0x1_0000_0000

  /** An unsigned 32-bit `bfd_vma`. */
  function Wrap(x: int): (w: int)
    ensures 0 <= w < WORD
  {
    x % WORD
  }

  /** The cast of a 32-bit `bfd_vma` to `long`. */
  function Signed(x: int): (s: int)
    ensures -0x8000_0000 <= s < 0x8000_0000 && Wrap(s) == Wrap(x)
    ensures -0x8000_0000 <= x < 0x8000_0000 ==> s == x
  {
    if x % WORD < 0x8000_0000 then x % WORD else x % WORD - WORD
  }

  function PutL32(x: int): (s: seq<Byte>)
    ensures |s| == 4
  {
    [x % 256, x / 0x100 % 256, x / 0x1_0000 % 256, x / 0x100_0000 % 256]
  }

  function GetL32(s: seq<Byte>): (x: int)
    requires |s| >= 4
    ensures 0 <= x < WORD
  {
    s[0] as int + 0x100 * (s[1] as int) + 0x1_0000 * (s[2] as int) + 0x100_0000 * (s[3] as int)
  }

  function PutB32(x: int): (s: seq<Byte>)
    ensures |s| == 4
  {
    [x / 0x100_0000 % 256, x / 0x1_0000 % 256, x / 0x100 % 256, x % 256]
  }

  function GetB32(s: seq<Byte>): (x: int)
    requires |s| >= 4
    ensures 0 <= x < WORD
  {
    s[3] as int + 0x100 * (s[2] as int) + 0x1_0000 * (s[1] as int) + 0x100_0000 * (s[0] as int)
  }

  lemma PutGetL32(x: int, rest: seq<Byte>)
    ensures GetL32(PutL32(x) + rest) == Wrap(x)
  {
    BytesOf(x);
  }

  lemma PutGetB32(x: int, rest: seq<Byte>)
    ensures GetB32(PutB32(x) + rest) == Wrap(x)
  {
    BytesOf(x);
  }

  lemma BytesOf(x: int)
    ensures x % WORD == x % 256 + 0x100 * (x / 0x100 % 256)
                        + 0x1_0000 * (x / 0x1_0000 % 256) + 0x100_0000 * (x / 0x100_0000 % 256)
  {
    var a := x / 0x100;
    var b := x / 0x1_0000;
    var c := x / 0x100_0000;
    assert b == a / 0x100 && c == b / 0x100;
    assert x == 256 * a + x % 256 && a == 256 * b + a % 256 && b == 256 * c + b % 256;
    assert c == 256 * (c / 256) + c % 256;
  }

  /** The word at a place of a little endian section. */
  function Word(buf: seq<Byte>, at: int): (x: int)
    requires 0 <= at && at + 4 <= |buf|
    ensures 0 <= x < WORD
  {
    GetL32(buf[at..])
  }

  lemma SameWord(a: seq<Byte>, b: seq<Byte>, at: nat)
    requires at + 4 <= |a| && at + 4 <= |b| && a[at..at + 4] == b[at..at + 4]
    ensures Word(a, at) == Word(b, at)
  {
    assert a[at..] == a[at..at + 4] + a[at + 4..] && b[at..] == b[at..at + 4] + b[at + 4..];
  }

  lemma WordBytes(a: seq<Byte>, at: nat)
    requires at + 4 <= |a|
    ensures Word(a, at) == a[at] as int + 0x100 * (a[at + 1] as int) + 0x1_0000 * (a[at + 2] as int)
                           + 0x100_0000 * (a[at + 3] as int)
  {
    assert a[at..][0] == a[at] && a[at..][1] == a[at + 1] && a[at..][2] == a[at + 2] && a[at..][3] == a[at + 3];
  }

  /** `bfd_put_32` on a little endian target. */
  method PutWord(data: array<Byte>, at: nat, x: int)
    requires at + 4 <= data.Length
    modifies data
    ensures data[..] == old(data[..at]) + PutL32(x) + old(data[at + 4..])
  {
    var b := PutL32(x);
    data[at], data[at + 1], data[at + 2], data[at + 3] := b[0], b[1], b[2], b[3];
  }

  /** The header byte order: `big` as `bfd_header_big_endian` answers. */
  function Put32(big: bool, x: int): (s: seq<Byte>)
    ensures |s| == 4
  {
    if big then PutB32(x) else PutL32(x)
  }

  function Get32(big: bool, s: seq<Byte>): (x: int)
    requires |s| >= 4
    ensures 0 <= x < WORD
  {
    if big then GetB32(s) else GetL32(s)
  }

  lemma PutGet32(big: bool, x: int, rest: seq<Byte>)
    ensures Get32(big, Put32(big, x) + rest) == Wrap(x)
  {
    PutGetL32(x, rest);
    PutGetB32(x, rest);
  }

  lemma DivModUnique(x: int, q: int, r: int, d: int)
    requires 0 <= r < d && x == d * q + r
    ensures x / d == q && x % d == r
  {
    MultipleAtLeast(d, x / d - q);
  }

  lemma MultipleAtLeast(d: int, k: int)
    requires 0 < d
    ensures k >= 1 ==> d * k >= d
    ensures k <= -1 ==> d * k <= -d
  {
  }

  lemma AddMultiple(x: int, q: int, d: int)
    requires 0 < d
    ensures (d * q + x) % d == x % d
  {
    assert d * q + x == d * (q + x / d) + x % d;
    DivModUnique(d * q + x, q + x / d, x % d, d);
  }

  function Pow2(n: nat): (p: nat)
    ensures p >= 1
  {
    if n == 0 then 1 else 2 * Pow2(n - 1)
  }
}
