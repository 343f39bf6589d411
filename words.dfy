/** The data types the HLS kernels compute on.

    An `ap_uint<512>` word is held as its 16 lanes of 32 bits, lane k being bits
    [32k, 32k+31] of the integer; this is a one-to-one view of the 512-bit value, and
    a bit range `w.range(32(k+1)-1, 32k)` is simply lane k. A 64-bit range
    `w.range(64(k+1)-1, 64k)` spans lanes 2k (low half) and 2k+1 (high half). */
module Words {

  /** A C `int` (32-bit, two's complement). */
  type Int32 = x: int | -0x8000_0000 <= x < 0x8000_0000

  /** An `ap_uint<32>` / `uint32_t` value. */
  type U32 = x: nat | x < 0x1_0000_0000

  /** An `ap_uint<64>` / `uint64_t` value. */
  type U64 = x: nat | x < 0x1_0000_0000_0000_0000

  const DATAWIDTH: nat := 512
  const DATATYPE_SIZE: nat := 32
  const VECTOR_SIZE: nat := 16

  /** `uint512_dt`: 16 lanes of 32 bits, least significant lane first. */
  type Word = s: seq<U32> | |s| == VECTOR_SIZE witness seq(16, _ => 0)

  /** The word `0`. */
  function Zero(): (r: Word)
    ensures forall k :: 0 <= k < VECTOR_SIZE ==> r[k] == 0
  {
    seq(VECTOR_SIZE, _ => 0)
  }

  /** The lanes cover the word exactly: 16 lanes of 32 bits are 512 bits. */
  lemma LanesTileWord()
    ensures VECTOR_SIZE * DATATYPE_SIZE == DATAWIDTH
  {
  }

  /** `w.range(64(k+1)-1, 64k)`: the 64-bit field k, built from lanes 2k and 2k+1. */
  function Field64(w: Word, k: nat): U64
    requires k < VECTOR_SIZE / 2
  {
    w[2 * k] as nat + 0x1_0000_0000 * w[2 * k + 1] as nat
  }

  /** A 64-bit field splits back into its two lanes, so it determines them. */
  lemma Field64Halves(w: Word, k: nat)
    requires k < VECTOR_SIZE / 2
    ensures Field64(w, k) % 0x1_0000_0000 == w[2 * k] as nat
    ensures Field64(w, k) / 0x1_0000_0000 == w[2 * k + 1] as nat
  {
    SplitDigits(w[2 * k] as nat, w[2 * k + 1] as nat);
  }

  lemma SplitDigits(lo: nat, hi: nat)
    requires lo < 0x1_0000_0000
    ensures (lo + 0x1_0000_0000 * hi) % 0x1_0000_0000 == lo
    ensures (lo + 0x1_0000_0000 * hi) / 0x1_0000_0000 == hi
  {
    var x := lo + 0x1_0000_0000 * hi;
    var q, r := x / 0x1_0000_0000, x % 0x1_0000_0000;
    assert 0x1_0000_0000 * (q - hi) == lo - r;
  }

  /** `x | y` on unsigned integers, one bit at a time from the least significant. */
  function BitOr(x: nat, y: nat): nat
    decreases x + y
  {
    if x == 0 && y == 0 then 0
    else (if x % 2 == 1 || y % 2 == 1 then 1 else 0) + 2 * BitOr(x / 2, y / 2)
  }

  /** `x ^ y` on unsigned integers, one bit at a time from the least significant. */
  function BitXor(x: nat, y: nat): nat
    decreases x + y
  {
    if x == 0 && y == 0 then 0
    else (if x % 2 != y % 2 then 1 else 0) + 2 * BitXor(x / 2, y / 2)
  }

  lemma LowBit(b: nat, q: nat)
    requires b < 2
    ensures (b + 2 * q) % 2 == b && (b + 2 * q) / 2 == q
  {
  }

  /** OR with zero changes nothing. */
  lemma {:induction false} BitOrZero(x: nat)
    ensures BitOr(x, 0) == x
  {
    if x != 0 {
      BitOrZero(x / 2);
    }
  }

  /** ORing the same mask in twice is the same as ORing it in once. */
  lemma {:induction false} BitOrIdempotent(x: nat, m: nat)
    ensures BitOr(BitOr(x, m), m) == BitOr(x, m)
  {
    if !(x == 0 && m == 0) {
      LowBit(if x % 2 == 1 || m % 2 == 1 then 1 else 0, BitOr(x / 2, m / 2));
      BitOrIdempotent(x / 2, m / 2);
    }
  }

  /** OR keeps every bit of its first operand: ORing `x` into `x | m` changes nothing. */
  lemma {:induction false} BitOrKeeps(x: nat, m: nat)
    ensures BitOr(x, BitOr(x, m)) == BitOr(x, m)
  {
    if !(x == 0 && m == 0) {
      LowBit(if x % 2 == 1 || m % 2 == 1 then 1 else 0, BitOr(x / 2, m / 2));
      BitOrKeeps(x / 2, m / 2);
    }
  }

  /** Shifting both operands left by one bit shifts their XOR: `(2a) ^ (2b) == 2 (a ^ b)`. */
  lemma BitXorShift(a: nat, b: nat)
    ensures BitXor(2 * a, 2 * b) == 2 * BitXor(a, b)
  {
    if !(a == 0 && b == 0) {
      LowBit(0, a);
      LowBit(0, b);
    }
  }

  /** XOR with the same value twice gives back the original: `a ^ (a ^ b) == b`. */
  lemma {:induction false} BitXorCancel(a: nat, b: nat)
    ensures BitXor(a, BitXor(a, b)) == b
  {
    if !(a == 0 && b == 0) {
      LowBit(if a % 2 != b % 2 then 1 else 0, BitXor(a / 2, b / 2));
      BitXorCancel(a / 2, b / 2);
    }
  }

  function Pow2(n: nat): (r: nat)
    ensures r >= 1
  {
    if n == 0 then 1 else 2 * Pow2(n - 1)
  }

  /** Neither operator sets a bit above the highest bit of its operands. */
  lemma {:induction false} BitOpsBound(x: nat, y: nat, n: nat)
    requires x < Pow2(n) && y < Pow2(n)
    ensures BitOr(x, y) < Pow2(n) && BitXor(x, y) < Pow2(n)
  {
    if n > 0 && !(x == 0 && y == 0) {
      BitOpsBound(x / 2, y / 2, n - 1);
    }
  }

  lemma {:induction false} Pow2Add(a: nat, b: nat)
    ensures Pow2(a + b) == Pow2(a) * Pow2(b)
  {
    if a > 0 {
      Pow2Add(a - 1, b);
    }
  }

  lemma Pow2Of32()
    ensures Pow2(32) == 0x1_0000_0000
  {
    assert Pow2(8) == 0x100;
    Pow2Add(8, 8);
    Pow2Add(16, 16);
  }

  /** `x | y` on 32-bit values. */
  function Or32(x: U32, y: U32): (r: U32)
    ensures r == BitOr(x, y)
  {
    Pow2Of32();
    BitOpsBound(x, y, 32);
    BitOr(x, y)
  }

  /** `x ^ y` on 32-bit values. */
  function Xor32(x: U32, y: U32): (r: U32)
    ensures r == BitXor(x, y)
  {
    Pow2Of32();
    BitOpsBound(x, y, 32);
    BitXor(x, y)
  }

  /** Where a kernel reads its frames from: an input buffer other than its output array,
      or the output array itself (the C pointers `in1` and `out` equal), in which case a
      frame reads whatever earlier frames have written there. */
  datatype Source = Separate(words: seq<Word>) | InPlace

  /** The words a frame reads when the output array holds `current`. */
  function SourceWords(src: Source, current: seq<Word>): seq<Word>
  {
    if src.InPlace? then current else src.words
  }

  /** The length of the source when the output array has `outLength` words. */
  function SourceLength(src: Source, outLength: nat): nat
  {
    if src.InPlace? then outLength else |src.words|
  }

  /** The source of a kernel's frames given its `in1` and `out` arrays. */
  ghost function KernelSource(in1: array<Word>, out: array<Word>): (r: Source)
    reads in1
    ensures SourceLength(r, out.Length) == in1.Length
    ensures r.InPlace? <==> in1 == out
  {
    if in1 == out then InPlace else Separate(in1[..])
  }

  /** C's `/` on `int`: truncates towards zero. The quotient is the multiple of `b`
      nearest `a` on the side of zero: at most `a` for a non-negative `a`, at least `a`
      for a negative one, and less than `b` away from it. */
  function CDiv(a: int, b: int): (r: int)
    requires b > 0
    ensures a >= 0 ==> 0 <= r && r * b <= a < (r + 1) * b
    ensures a < 0 ==> r <= 0 && (r - 1) * b < a <= r * b
    ensures a >= 0 ==> r == a / b
    ensures a < 0 ==> r == -((-a) / b)
  {
    if a >= 0 then
      DivBounds(a, b);
      a / b
    else
      var q := (-a) / b;
      DivBounds(-a, b);
      NegateBounds(a, b, q);
      -q
  }

  /** Euclidean division of a natural number: `b` times the quotient is at most `a`, and
      one more `b` passes it. */
  lemma DivBounds(a: nat, b: int)
    requires b > 0
    ensures 0 <= a / b && (a / b) * b <= a < (a / b + 1) * b
  {
    var q, m := a / b, a % b;
    assert a == q * b + m && 0 <= m < b;
    assert (q + 1) * b == q * b + b;
  }

  /** The bounds of `DivBounds` for `-a`, turned round for `a` and the negated quotient. */
  lemma NegateBounds(a: int, b: int, q: int)
    requires b > 0 && q * b <= -a < (q + 1) * b
    ensures (-q - 1) * b < a <= (-q) * b
  {
    assert (-q) * b == -(q * b);
    assert (-q - 1) * b == -((q + 1) * b);
  }
}
