/** Bytes, fixed-width integers and the concatenations every wire format here is made of. */
module Octets {
  type byte = x: int | 0 <= x < 256
  type Bytes = seq<byte>

  datatype Option<+T> = None | Some(value: T)

  function Min(a: int, b: int): int { if a < b then a else b }

  function Max(a: int, b: int): int { if a < b then b else a }

  /** `n` bytes of zero, as Go's `make([]byte, n)`. */
  function Zeros(n: nat): (r: Bytes)
    ensures |r| == n && forall i :: 0 <= i < n ==> r[i] == 0
  {
    seq(n, _ => 0)
  }

  function Pow2(n: nat): (r: nat)
    ensures r > 0
  {
    if n == 0 then 1 else 2 * Pow2(n - 1)
  }

  /** The low `n` bits of `a ^ b`. */
  function Xor(a: nat, b: nat, n: nat): (r: nat)
    ensures r < Pow2(n)
  {
    if n == 0 then 0 else (if a % 2 == b % 2 then 0 else 1) + 2 * Xor(a / 2, b / 2, n - 1)
  }

  /** Halving undoes the step that `Xor` takes. */
  lemma BitAndRest(bit: nat, rest: nat)
    requires bit < 2
    ensures (bit + 2 * rest) % 2 == bit && (bit + 2 * rest) / 2 == rest
  {
  }

  lemma {:induction false} XorInvolution(a: nat, b: nat, n: nat)
    requires a < Pow2(n)
    ensures Xor(Xor(a, b, n), b, n) == a
  {
    if n > 0 {
      var bit, rest := if a % 2 == b % 2 then 0 else 1, Xor(a / 2, b / 2, n - 1);
      BitAndRest(bit, rest);
      XorInvolution(a / 2, b / 2, n - 1);
    }
  }

  /** Bit `i` of a number, the lowest first. */
  predicate Bit(x: nat, i: nat)
    decreases i
  {
    if i == 0 then x % 2 == 1 else Bit(x / 2, i - 1)
  }

  /** `Xor` is exclusive-or, bit by bit. */
  lemma {:induction false} XorBits(a: nat, b: nat, n: nat, i: nat)
    requires i < n
    ensures Bit(Xor(a, b, n), i) <==> (Bit(a, i) != Bit(b, i))
    decreases n
  {
    var bit, rest := if a % 2 == b % 2 then 0 else 1, Xor(a / 2, b / 2, n - 1);
    BitAndRest(bit, rest);
    if i > 0 { XorBits(a / 2, b / 2, n - 1, i - 1); }
  }

  /** A number of `n` bits is known by them. */
  lemma {:induction false} BitsDetermine(a: nat, b: nat, n: nat)
    requires a < Pow2(n) && b < Pow2(n) && forall i: nat :: i < n ==> Bit(a, i) == Bit(b, i)
    ensures a == b
    decreases n
  {
    if n > 0 {
      assert Bit(a, 0) == Bit(b, 0);
      forall i: nat | i < n - 1 ensures Bit(a / 2, i) == Bit(b / 2, i) {
        assert Bit(a, i + 1) == Bit(b, i + 1);
      }
      BitsDetermine(a / 2, b / 2, n - 1);
    }
  }

  /** Dividing by a power of two shifts right. */
  lemma {:induction false} ShiftRightBits(x: nat, k: nat, m: nat, y: nat, i: nat)
    requires m == Pow2(k) && m > 0 && x / m == y
    ensures Bit(y, i) <==> Bit(x, i + k)
    decreases k
  {
    if k > 0 {
      HalveFirst(x, Pow2(k - 1));
      ShiftRightBits(x / 2, k - 1, Pow2(k - 1), y, i);
    }
  }

  lemma HalveFirst(x: nat, m: nat)
    requires m > 0
    ensures x / (2 * m) == (x / 2) / m
  {
    var h := x / 2;
    var q, r := h / m, h % m;
    assert h == m * q + r && 2 * h == (2 * m) * q + 2 * r;
    DivIs(x, 2 * m, q, x - (2 * m) * q);
  }

  /** Quotient and remainder are unique. */
  lemma DivIs(x: nat, m: nat, q: nat, r: nat)
    requires r < m && x == m * q + r
    ensures x / m == q && x % m == r
  {
    var q', r' := x / m, x % m;
    var d := q - q';
    assert x == m * q' + r';
    assert m * d == m * q - m * q' == r' - r;
    MulOutgrows(m, d);
  }

  lemma MulOutgrows(m: int, d: int)
    requires m >= 0
    ensures d >= 1 ==> m * d >= m
    ensures d <= -1 ==> m * d <= -m
  {
    if d >= 1 {
      assert m * d == m * (d - 1) + m;
    } else if d <= -1 {
      assert m * d == m * (d + 1) - m;
    }
  }

  /** Multiplying by a power of two shifts left. */
  lemma {:induction false} ShiftLeftBits(x: nat, k: nat, i: nat)
    ensures Bit(x * Pow2(k), i) <==> i >= k && Bit(x, i - k)
    decreases k
  {
    if k == 0 {
      assert x * 1 == x;
    } else {
      var y := x * Pow2(k - 1);
      assert x * Pow2(k) == 2 * y;
      if i > 0 { ShiftLeftBits(x, k - 1, i - 1); }
    }
  }

  /** Cutting to `n` bits leaves the low ones. */
  lemma {:induction false} CutBits(x: nat, n: nat, i: nat)
    requires i < n
    ensures Bit(x % Pow2(n), i) <==> Bit(x, i)
    decreases n
  {
    var m := Pow2(n - 1);
    var h := x / 2;
    var q, r := h / m, h % m;
    assert h == m * q + r;
    assert x == (2 * m) * q + (2 * r + x % 2);
    DivIs(x, 2 * m, q, 2 * r + x % 2);
    if i > 0 { CutBits(h, n - 1, i - 1); }
  }

  lemma Widths()
    ensures Pow2(8) == 0x100 && Pow2(16) == 0x1_0000 && Pow2(32) == 0x1_0000_0000
    ensures Pow2(64) == 0x1_0000_0000_0000_0000
  {
    Scale8(0, 1);
    Scale8(8, 0x100);
    Scale8(16, 0x1_0000);
    Scale8(24, 0x100_0000);
    Scale8(32, 0x1_0000_0000);
    Scale8(40, 0x100_0000_0000);
    Scale8(48, 0x1_0000_0000_0000);
    Scale8(56, 0x100_0000_0000_0000);
  }

  lemma Scale8(n: nat, p: nat)
    requires Pow2(n) == p
    ensures Pow2(n + 8) == 256 * p
  {
    assert Pow2(n + 2) == 4 * p;
    assert Pow2(n + 4) == 16 * p;
    assert Pow2(n + 6) == 64 * p;
  }

  function Xor8(a: byte, b: byte): byte {
    Widths();
    Xor(a, b, 8)
  }

  lemma Xor8Involution(a: byte, b: byte)
    ensures Xor8(Xor8(a, b), b) == a
  {
    Widths();
    XorInvolution(a, b, 8);
  }

  type u16 = x: int | 0 <= x < 0x1_0000
  type u32 = x: int | 0 <= x < 0x1_0000_0000

  function Xor16(a: u16, b: u16): u16 {
    Widths();
    Xor(a, b, 16)
  }

  lemma Xor16Involution(a: u16, b: u16)
    ensures Xor16(Xor16(a, b), b) == a
  {
    Widths();
    XorInvolution(a, b, 16);
  }

  function Xor32(a: u32, b: u32): u32 {
    Widths();
    Xor(a, b, 32)
  }

  lemma Xor32Involution(a: u32, b: u32)
    ensures Xor32(Xor32(a, b), b) == a
  {
    Widths();
    XorInvolution(a, b, 32);
  }

  function Inc32(x: u32): u32 { (x + 1) % 0x1_0000_0000 }

  function PutLE16(x: u16): (r: Bytes)
    ensures |r| == 2
  {
    [x % 256, x / 256]
  }

  function LE16(b: Bytes): u16
    requires |b| == 2
  {
    var lo: int, hi: int := b[0], b[1];
    lo + 256 * hi
  }

  function PutBE16(x: u16): (r: Bytes)
    ensures |r| == 2
  {
    [x / 256, x % 256]
  }

  function BE16(b: Bytes): u16
    requires |b| == 2
  {
    var hi: int, lo: int := b[0], b[1];
    256 * hi + lo
  }

  lemma BE16Put(x: u16)
    ensures BE16(PutBE16(x)) == x
  {
  }

  function PutLE32(x: u32): (r: Bytes)
    ensures |r| == 4
  {
    PutLE16(x % 0x1_0000) + PutLE16(x / 0x1_0000)
  }

  function LE32(b: Bytes): u32
    requires |b| == 4
  {
    LE16(b[..2]) + 0x1_0000 * LE16(b[2..])
  }

  function LE64(b: Bytes): (r: nat)
    requires |b| == 8
    ensures r < 0x1_0000_0000_0000_0000
  {
    LE32(b[..4]) + 0x1_0000_0000 * LE32(b[4..])
  }

  // ---- byte order ----

  /** The number that bytes stand for, the lowest byte first. */
  function Value(b: Bytes): nat {
    if b == [] then 0 else b[0] + 256 * Value(b[1..])
  }

  /** The same with the highest byte first. */
  function BigValue(b: Bytes): nat {
    if b == [] then 0 else 256 * BigValue(b[..|b| - 1]) + b[|b| - 1]
  }

  lemma {:induction false} ValueConcat2(a: Bytes, b: Bytes)
    requires |a| == 2
    ensures Value(a) == a[0] as int + 256 * a[1] as int && Value(a + b) == Value(a) + 0x1_0000 * Value(b)
  {
    assert Value(a[1..]) == a[1] as int + 256 * Value(a[1..][1..]) && a[1..][1..] == [];
    assert (a + b)[1..][0] == a[1] && (a + b)[1..][1..] == b;
  }

  lemma LittleEndian16(b: Bytes)
    requires |b| == 2
    ensures LE16(b) == Value(b)
  {
    ValueConcat2(b, []);
  }

  lemma LittleEndian32(b: Bytes)
    requires |b| == 4
    ensures LE32(b) == Value(b)
  {
    assert b == b[..2] + b[2..];
    ValueConcat2(b[..2], b[2..]);
    LittleEndian16(b[..2]);
    LittleEndian16(b[2..]);
  }

  lemma LittleEndian64(b: Bytes)
    requires |b| == 8
    ensures LE64(b) == Value(b)
  {
    var c := b[2..];
    assert b == b[..2] + c && c == c[..2] + c[2..] && c[2..] == b[4..] && b[..4] == b[..2] + c[..2];
    ValueConcat2(b[..2], c);
    ValueConcat2(c[..2], c[2..]);
    ValueConcat2(b[..2], c[..2]);
    LittleEndian32(b[..4]);
    LittleEndian32(b[4..]);
  }

  function Value16(b: Bytes): u16
    requires |b| == 2
  {
    LittleEndian16(b);
    Value(b)
  }

  function Value32(b: Bytes): u32
    requires |b| == 4
  {
    LittleEndian32(b);
    Value(b)
  }

  lemma LittleEndianPut(x: u32, y: u16)
    ensures LE32(PutLE32(x)) == x && Value(PutLE32(x)) == x
    ensures LE16(PutLE16(y)) == y && Value(PutLE16(y)) == y
  {
    var lo, hi := PutLE16(x % 0x1_0000), PutLE16(x / 0x1_0000);
    assert PutLE32(x)[..2] == lo && PutLE32(x)[2..] == hi;
    LittleEndian32(PutLE32(x));
    LittleEndian16(PutLE16(y));
  }

  lemma LittleEndianBack(b: Bytes)
    requires |b| == 4
    ensures PutLE32(LE32(b)) == b
  {
    var lo: int, hi: int := LE16(b[..2]), LE16(b[2..]);
    assert LE32(b) == lo + 0x1_0000 * hi;
    assert LE32(b) % 0x1_0000 == lo && LE32(b) / 0x1_0000 == hi;
    assert PutLE16(lo) == b[..2] && PutLE16(hi) == b[2..];
  }

  lemma BigEndian16(b: Bytes, x: u16)
    requires |b| == 2
    ensures BE16(b) == BigValue(b) && BigValue(PutBE16(x)) == x
  {
    TwoBig(b);
    TwoBig(PutBE16(x));
  }

  lemma TwoBig(b: Bytes)
    requires |b| == 2
    ensures BigValue(b) == 256 * b[0] as int + b[1] as int
  {
    assert b[..1][..0] == [] && BigValue([]) == 0;
    assert BigValue(b[..1]) == 256 * BigValue(b[..1][..0]) + b[..1][0] as int;
  }

  /** Bytes that arrive later do not change a slice of those already there. */
  lemma SlicePrefix(b: Bytes, c: Bytes, i: nat, j: nat)
    requires i <= j <= |b|
    ensures (b + c)[i..j] == b[i..j]
  {
  }

  /** Into how many chunks of at most `size` bytes `n` bytes are cut. */
  function Chunks(n: nat, size: nat): nat
    requires size > 0
  {
    if n == 0 then 0 else (n - 1) / size + 1
  }

  lemma ChunkLess(n: nat, size: nat)
    requires size > 0 && n > 0
    ensures n <= size ==> Chunks(n, size) == 1
    ensures n > size ==> Chunks(n, size) == 1 + Chunks(n - size, size)
  {
    if n > size {
      var q, r := (n - size - 1) / size, (n - size - 1) % size;
      assert n - size - 1 == size * q + r && n - 1 == size * (q + 1) + r;
      DivIs(n - 1, size, q + 1, r);
    } else {
      DivIs(n - 1, size, 0, n - 1);
    }
  }

  lemma NoChunks(size: nat)
    requires size > 0
    ensures Chunks(0, size) == 0
  {
  }

  /** The concatenation of a sequence of pieces, first piece first. */
  function Flatten<T>(ss: seq<seq<T>>): seq<T> {
    if ss == [] then [] else ss[0] + Flatten(ss[1..])
  }

  lemma FlattenCons<T>(s: seq<T>, ss: seq<seq<T>>)
    ensures Flatten([s] + ss) == s + Flatten(ss)
  {
    assert ([s] + ss)[1..] == ss;
  }

  lemma {:induction false} FlattenSnoc<T>(ss: seq<seq<T>>, s: seq<T>)
    ensures Flatten(ss + [s]) == Flatten(ss) + s
  {
    if ss == [] {
      assert ss + [s] == [s];
      FlattenCons(s, []);
      assert s + [] == s;
    } else {
      assert (ss + [s])[1..] == ss[1..] + [s];
      FlattenSnoc(ss[1..], s);
    }
  }

  lemma {:induction false} FlattenConcat<T>(a: seq<seq<T>>, b: seq<seq<T>>)
    ensures Flatten(a + b) == Flatten(a) + Flatten(b)
  {
    if a == [] {
      assert a + b == b;
    } else {
      assert (a + b)[1..] == a[1..] + b;
      FlattenConcat(a[1..], b);
    }
  }

  lemma FlattenNil<T>()
    ensures Flatten<T>([]) == []
  {
  }
}
