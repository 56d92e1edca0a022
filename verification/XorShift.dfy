/** The XorShift128+ generator behind the auth_chain padding (common/ssr/authchain.go). */
module XorShift {
  import opened Octets

  type u64 = x: int | 0 <= x < 0x1_0000_0000_0000_0000

  /** The output of HMAC-MD5, from which the generator is seeded. */
  type Hash = h: Bytes | |h| == 16 witness Zeros(16)

  datatype Prng = Prng(s0: u64, s1: u64)

  function Xor64(a: u64, b: u64): u64 {
    Widths();
    Xor(a, b, 64)
  }

  /** One draw: the next state and the 64-bit output. */
  function Draw(r: Prng): (Prng, u64) {
    var x: int, y: int := r.s0, r.s1;
    var x1 := Xor64(x, (x * 0x80_0000) % 0x1_0000_0000_0000_0000);
    var x2 := Xor64(x1, Xor64(Xor64(y, x1 / 0x2_0000), y / 0x400_0000));
    (Prng(y, x2), (x2 + y) % 0x1_0000_0000_0000_0000)
  }

  /** `x ^ x << 23`, bit by bit. */
  predicate Mixed(x: u64, i: nat) { Bit(x, i) != (i >= 23 && Bit(x, i - 23)) }

  /** What a draw does, bit by bit: the second word moves up and is mixed, shifted by 26, with the first,
      itself mixed with its shifts by 23 and 17; the output is the sum of both new words. */
  lemma DrawBits(r: Prng, i: nat)
    requires i < 64
    ensures var (next, out) := Draw(r);
            && next.s0 == r.s1 && out == (next.s0 + next.s1) % 0x1_0000_0000_0000_0000
            && (Bit(next.s1, i)
                <==> ((Mixed(r.s0, i) != (i + 17 < 64 && Mixed(r.s0, i + 17))) != (Bit(r.s1, i) != Bit(r.s1, i + 26))))
  {
    hide Xor;
    var x: int, y: int := r.s0, r.s1;
    var shl := (x * 0x80_0000) % 0x1_0000_0000_0000_0000;
    var x1 := Xor64(x, shl);
    Shifts();
    Widths();
    MixedBits(x, i);
    if i + 17 < 64 { MixedBits(x, i + 17); } else { HighBit(x1, 64, i + 17); }
    ShiftRightBits(x1, 17, 0x2_0000, x1 / 0x2_0000, i);
    ShiftRightBits(y, 26, 0x400_0000, y / 0x400_0000, i);
    var t := Xor64(y, x1 / 0x2_0000);
    var u := Xor64(t, y / 0x400_0000);
    XorBits(y, x1 / 0x2_0000, 64, i);
    XorBits(t, y / 0x400_0000, 64, i);
    XorBits(x1, u, 64, i);
  }

  lemma MixedBits(x: u64, i: nat)
    requires i < 64
    ensures Bit(Xor64(x, (x * 0x80_0000) % 0x1_0000_0000_0000_0000), i) <==> Mixed(x, i)
  {
    hide Xor;
    Shifts();
    Widths();
    XorBits(x, (x * 0x80_0000) % 0x1_0000_0000_0000_0000, 64, i);
    CutBits(x * 0x80_0000, 64, i);
    ShiftLeftBits(x, 23, i);
  }

  lemma Shifts()
    ensures Pow2(17) == 0x2_0000 && Pow2(23) == 0x80_0000 && Pow2(26) == 0x400_0000
  {
    Scale8(1, 2);
    Scale8(9, 0x200);
    Scale8(2, 4);
    Scale8(10, 0x400);
    Scale8(18, 0x4_0000);
    Scale8(7, 0x80);
    Scale8(15, 0x8000);
  }

  lemma {:induction false} HighBit(x: nat, n: nat, i: nat)
    requires x < Pow2(n) && i >= n
    ensures !Bit(x, i)
    decreases n
  {
    if n == 0 {
      NoBits(i);
    } else {
      HighBit(x / 2, n - 1, i - 1);
    }
  }

  lemma {:induction false} NoBits(i: nat)
    ensures !Bit(0, i)
  {
    if i > 0 { NoBits(i - 1); }
  }

  /** The generator after `k` draws, and the k-th output, counted from 0. */
  function After(r: Prng, k: nat): Prng { if k == 0 then r else Draw(After(r, k - 1)).0 }

  function Output(r: Prng, k: nat): u64 { Draw(After(r, k)).1 }

  lemma {:induction false} SkipIsAfter(r: Prng, n: nat, k: nat)
    ensures Skip(After(r, k), n) == After(r, k + n)
    decreases n
  {
    hide Draw;
    if n > 0 { SkipIsAfter(r, n - 1, k + 1); }
  }

  /** The state that sixteen bytes stand for. */
  function Start(bin: Hash): Prng {
    ValueBelow(bin[..8]);
    ValueBelow(bin[8..]);
    Prng(Value(bin[..8]), Value(bin[8..]))
  }

  lemma ValueBelow(b: Bytes)
    requires |b| == 8
    ensures Value(b) < 0x1_0000_0000_0000_0000
  {
    LittleEndian64(b);
  }

  /** A short seed is filled up with zeros, and the words are read little-endian. */
  lemma SeedIs(bin: Bytes)
    ensures forall i :: 0 <= i < 16 ==> Sixteen(bin)[i] == if i < |bin| then bin[i] else 0
    ensures FromBin(bin) == Start(Sixteen(bin))
  {
    hide Value, LE64;
    var full := Sixteen(bin);
    LittleEndian64(full[..8]);
    LittleEndian64(full[8..]);
  }

  /** The seed of a frame: the hash with the low and the high byte of the length in front. */
  function FrameSeed(hash: Hash, length: nat): Hash { [length % 256, length / 256 % 256] + hash[2..] }

  /** Seeding for a frame throws four outputs away. */
  lemma SeededIs(hash: Hash, length: nat)
    ensures Seeded(hash, length) == After(Start(FrameSeed(hash, length)), 4)
  {
    hide Draw, Value, LE64, Skip, After;
    var seed := FrameSeed(hash, length);
    assert Sixteen(hash) == hash by { WholeHash(hash); }
    assert PutLE16(length % 0x1_0000) == [length % 256, length / 256 % 256] by { LowBytes(length); }
    LittleEndian64(seed[..8]);
    LittleEndian64(seed[8..]);
    SkipIsAfter(Start(seed), 4, 0);
    NoDraws(Start(seed));
  }

  lemma WholeHash(hash: Hash)
    ensures Sixteen(hash) == hash
  {
  }

  lemma LowBytes(length: nat)
    ensures PutLE16(length % 0x1_0000) == [length % 256, length / 256 % 256]
  {
    var q, r := length / 0x1_0000, length % 0x1_0000;
    assert length == 256 * (256 * q + r / 256) + r % 256;
  }

  lemma NoDraws(r: Prng)
    ensures After(r, 0) == r
  {
  }

  /** `bin` cut or zero-padded to 16 bytes. */
  function Sixteen(bin: Bytes): (r: Hash) {
    if |bin| >= 16 then bin[..16] else bin + Zeros(16 - |bin|)
  }

  function FromBin(bin: Bytes): Prng {
    var full := Sixteen(bin);
    Prng(LE64(full[..8]), LE64(full[8..]))
  }

  /** The seed used for a frame of `length` data bytes: the hash with its first two bytes replaced by
      the length, and the first four draws thrown away. */
  function Seeded(bin: Bytes, length: nat): Prng {
    var full := PutLE16(length % 0x1_0000) + Sixteen(bin)[2..];
    Skip(Prng(LE64(full[..8]), LE64(full[8..])), 4)
  }

  function Skip(r: Prng, n: nat): Prng
    decreases n
  {
    if n == 0 then r else Skip(Draw(r).0, n - 1)
  }

  class Generator {
    var s0: u64
    var s1: u64

    ghost function State(): Prng
      reads this
    {
      Prng(s0, s1)
    }

    constructor ()
      ensures State() == Prng(0, 0)
    {
      s0, s1 := 0, 0;
    }

    method Next() returns (out: u64)
      modifies this
      ensures (State(), out) == Draw(old(State()))
    {
      var x: int, y: int := s0, s1;
      s0 := y;
      x := Xor64(x, (x * 0x80_0000) % 0x1_0000_0000_0000_0000);
      x := Xor64(x, Xor64(Xor64(y, x / 0x2_0000), y / 0x400_0000));
      s1 := x;
      out := (x + y) % 0x1_0000_0000_0000_0000;
    }

    method InitFromBin(bin: Bytes)
      modifies this
      ensures State() == FromBin(bin)
    {
      var full := Sixteen(bin);
      s0, s1 := LE64(full[..8]), LE64(full[8..]);
    }

    method InitFromBinAndLength(bin: Bytes, length: nat)
      modifies this
      ensures State() == Seeded(bin, length)
    {
      var full := PutLE16(length % 0x1_0000) + Sixteen(bin)[2..];
      s0, s1 := LE64(full[..8]), LE64(full[8..]);
      for i := 0 to 4
        invariant Skip(State(), 4 - i) == Seeded(bin, length)
      {
        var _ := Next();
      }
    }
  }
}
