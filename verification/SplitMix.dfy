/** SplitMix64, the mixing function behind the retry jitter (`crates/core/src/retry.rs`), on words
    written as numbers below 2^64. */
module SplitMix {
  import opened MachineInts
  import opened Arithmetic

  // ---- Bits ----

  function Xor(x: nat, y: nat): nat {
    if x == 0 && y == 0 then 0 else 2 * Xor(x / 2, y / 2) + (x + y) % 2
  }

  function Shr(x: nat, k: nat): nat {
    if k == 0 then x else Shr(x / 2, k - 1)
  }

  function Pow2(k: nat): nat {
    if k == 0 then 1 else 2 * Pow2(k - 1)
  }

  lemma {:induction false} XorCommutes(x: nat, y: nat)
    ensures Xor(x, y) == Xor(y, x)
  {
    if x != 0 || y != 0 { XorCommutes(x / 2, y / 2); }
  }

  /** The last bit and the others. */
  lemma XorBits(x: nat, y: nat)
    ensures Xor(x, y) / 2 == Xor(x / 2, y / 2)
    ensures Xor(x, y) % 2 == (x + y) % 2
  {}

  lemma {:induction false} XorAssociates(x: nat, y: nat, z: nat)
    ensures Xor(Xor(x, y), z) == Xor(x, Xor(y, z))
    decreases x + y + z
  {
    if x == 0 && y == 0 && z == 0 { return; }
    XorAssociates(x / 2, y / 2, z / 2);
    hide Xor;
    XorBits(x, y);
    XorBits(y, z);
    XorBits(Xor(x, y), z);
    XorBits(x, Xor(y, z));
    SameBits(Xor(Xor(x, y), z), Xor(x, Xor(y, z)), Xor(x, y), Xor(y, z), x, y, z);
  }

  lemma SameBits(l: nat, r: nat, xy: nat, yz: nat, x: nat, y: nat, z: nat)
    requires l / 2 == r / 2
    requires xy % 2 == (x + y) % 2 && yz % 2 == (y + z) % 2
    requires l % 2 == (xy + z) % 2 && r % 2 == (x + yz) % 2
    ensures l == r
  {}

  lemma {:induction false} XorCancels(x: nat)
    ensures Xor(x, x) == 0
    ensures Xor(x, 0) == x
  {
    if x != 0 { XorCancels(x / 2); }
  }

  /** A shared middle term drops out. */
  lemma XorTelescopes(x: nat, y: nat, z: nat)
    ensures Xor(Xor(x, y), Xor(y, z)) == Xor(x, z)
  {
    XorAssociates(x, y, Xor(y, z));
    XorAssociates(y, y, z);
    XorCancels(y);
    XorCommutes(0, z);
    XorCancels(z);
  }

  lemma {:induction false} XorBelow(x: nat, y: nat, k: nat)
    requires x < Pow2(k) && y < Pow2(k)
    ensures Xor(x, y) < Pow2(k)
  {
    if k > 0 { XorBelow(x / 2, y / 2, k - 1); }
  }

  lemma {:induction false} ShrXor(x: nat, y: nat, k: nat)
    ensures Shr(Xor(x, y), k) == Xor(Shr(x, k), Shr(y, k))
  {
    if k > 0 {
      ShrXor(x / 2, y / 2, k - 1);
    }
  }

  lemma {:induction false} ShrTwice(x: nat, j: nat, k: nat)
    ensures Shr(Shr(x, j), k) == Shr(x, j + k)
  {
    if j > 0 { ShrTwice(x / 2, j - 1, k); }
  }

  lemma {:induction false} ShrBelow(x: nat, k: nat, bits: nat)
    requires x < Pow2(bits)
    ensures Shr(x, k) <= x && (bits <= k ==> Shr(x, k) == 0)
    decreases k
  {
    if k > 0 { ShrBelow(x / 2, k - 1, if bits == 0 then 0 else bits - 1); }
  }

  lemma PowByte(k: nat)
    ensures Pow2(k + 8) == 0x100 * Pow2(k)
  {
    assert Pow2(k + 2) == 4 * Pow2(k);
    assert Pow2(k + 4) == 4 * Pow2(k + 2);
    assert Pow2(k + 6) == 4 * Pow2(k + 4);
  }

  lemma WordIsBelow(x: u64)
    ensures x < Pow2(64) == TWO_64
  {
    assert Pow2(0) == 1;
    hide Pow2;
    PowByte(0);
    PowByte(8);
    PowByte(16);
    PowByte(24);
    PowByte(32);
    PowByte(40);
    PowByte(48);
    PowByte(56);
  }

  lemma {:induction false} PowSum(j: nat, k: nat)
    ensures Pow2(j + k) == Pow2(j) * Pow2(k)
  {
    if j > 0 { PowSum(j - 1, k); }
  }

  /** The shift is division by a power of two. */
  lemma {:induction false} ShrDivides(x: nat, k: nat)
    ensures Shr(x, k) * Pow2(k) <= x < (Shr(x, k) + 1) * Pow2(k)
  {
    if k > 0 {
      ShrDivides(x / 2, k - 1);
      DoubleProduct(Shr(x / 2, k - 1), Pow2(k - 1));
      DoubleProduct(Shr(x / 2, k - 1) + 1, Pow2(k - 1));
    }
  }

  lemma DoubleProduct(s: nat, p: nat)
    ensures s * (2 * p) == 2 * (s * p)
  {}

  // ---- The three steps, each with its inverse ----

  function WrappingAdd(x: u64, y: u64): u64 {
    (x + y) % TWO_64
  }

  function WrappingMul(x: u64, y: u64): u64 {
    (x * y) % TWO_64
  }

  function XorWords(x: u64, y: u64): u64 {
    WordIsBelow(x);
    WordIsBelow(y);
    XorBelow(x, y, 64);
    Xor(x, y)
  }

  function ShrWord(x: u64, k: nat): u64 {
    WordIsBelow(x);
    ShrBelow(x, k, 64);
    Shr(x, k)
  }

  /** `x ^ (x >> k)`. */
  function XorShift(x: u64, k: nat): u64 {
    XorWords(x, ShrWord(x, k))
  }

  function UndoXorShift(y: u64, k: nat): u64 {
    XorWords(XorWords(y, ShrWord(y, k)), ShrWord(y, 2 * k))
  }

  lemma XorShiftUndone(x: u64, k: nat)
    requires 64 <= 3 * k
    ensures UndoXorShift(XorShift(x, k), k) == x
    ensures XorShift(UndoXorShift(x, k), k) == x
  {
    var a, b, c := Shr(x, k), Shr(x, 2 * k), Shr(x, 3 * k);
    WordIsBelow(x);
    ShrBelow(x, 3 * k, 64);
    ShrTwice(x, k, k);
    ShrTwice(x, k, 2 * k);
    ShrTwice(x, 2 * k, k);
    // Forwards: (x ^ a) ^ (a ^ b) ^ (b ^ c).
    ShrXor(x, a, k);
    ShrXor(x, a, 2 * k);
    XorTelescopes(x, a, b);
    XorTelescopes(x, b, c);
    // Backwards: ((x ^ a) ^ b) ^ ((a ^ b) ^ c).
    ShrXor(Xor(x, a), b, k);
    XorAssociates(x, a, b);
    XorTelescopes(x, Xor(a, b), c);
    XorCancels(x);
  }

  lemma WrappingMulUndone(x: u64, y: u64, inverse: u64)
    requires y * inverse % TWO_64 == 1
    ensures WrappingMul(WrappingMul(x, y), inverse) == x
  {
    var q := x * y / TWO_64;
    var q' := y * inverse / TWO_64;
    var r := WrappingMul(x, y);
    assert r == x * y - q * TWO_64;
    assert y * inverse == q' * TWO_64 + 1;
    assert r * inverse == x * (y * inverse) - q * TWO_64 * inverse;
    assert x * (y * inverse) == x * q' * TWO_64 + x;
    var m := x * q' - q * inverse;
    assert r * inverse == m * TWO_64 + x;
    assert m * TWO_64 <= r * inverse < (m + 1) * TWO_64;
    QuotientUnique(r * inverse, TWO_64, m);
  }

  // ---- SplitMix64 ----

  const GAMMA: u64 := 0x9e37_79b9_7f4a_7c15
  const MIX_1: u64 := 0xbf58_476d_1ce4_e5b9
  const MIX_2: u64 := 0x94d0_49bb_1331_11eb
  const UNMIX_1: u64 := 0x96de_1b17_3f11_9089
  const UNMIX_2: u64 := 0x3196_42b2_d24d_8ec3

  function SplitMix64(seed: u64): u64 {
    var x := WrappingAdd(seed, GAMMA);
    var x := WrappingMul(XorShift(x, 30), MIX_1);
    var x := WrappingMul(XorShift(x, 27), MIX_2);
    XorShift(x, 31)
  }

  function Unmixed(word: u64): u64 {
    var x := UndoXorShift(word, 31);
    var x := UndoXorShift(WrappingMul(x, UNMIX_2), 27);
    var x := UndoXorShift(WrappingMul(x, UNMIX_1), 30);
    WrappingAdd(x, TWO_64 - GAMMA)
  }

  lemma MixInverses()
    ensures MIX_1 * UNMIX_1 % TWO_64 == 1 && UNMIX_1 * MIX_1 % TWO_64 == 1
    ensures MIX_2 * UNMIX_2 % TWO_64 == 1 && UNMIX_2 * MIX_2 % TWO_64 == 1
  {}

  /** SplitMix64 loses nothing: the explicit inverse recovers every seed, and every word has one. */
  lemma SplitMixIsBijective(x: u64)
    ensures Unmixed(SplitMix64(x)) == x
    ensures SplitMix64(Unmixed(x)) == x
  {
    hide XorShift, UndoXorShift, WrappingMul;
    MixInverses();
    // Forwards.
    var a := WrappingAdd(x, GAMMA);
    var b := XorShift(a, 30);
    var c := XorShift(WrappingMul(b, MIX_1), 27);
    XorShiftUndone(a, 30);
    WrappingMulUndone(b, MIX_1, UNMIX_1);
    XorShiftUndone(WrappingMul(b, MIX_1), 27);
    WrappingMulUndone(c, MIX_2, UNMIX_2);
    XorShiftUndone(WrappingMul(c, MIX_2), 31);
    // Backwards.
    var p := UndoXorShift(x, 31);
    var q := UndoXorShift(WrappingMul(p, UNMIX_2), 27);
    var r := UndoXorShift(WrappingMul(q, UNMIX_1), 30);
    XorShiftUndone(x, 31);
    WrappingMulUndone(p, UNMIX_2, MIX_2);
    XorShiftUndone(WrappingMul(p, UNMIX_2), 27);
    WrappingMulUndone(q, UNMIX_1, MIX_1);
    XorShiftUndone(WrappingMul(q, UNMIX_1), 30);
  }
}
