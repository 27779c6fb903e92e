/**
 * The FNV-1a hash that picks a shard for a key (src/hash.rs). Every step is a
 * bijection on 64-bit words, because the prime is odd.
 */
module ShardHash {

  import opened Common

  const OFFSET_BASIS: u64 := 0xcbf29ce484222325
  const PRIME: u64 := 0x0000_0100_0000_01B3
  const WORD: nat := 0x1_0000_0000_0000_0000

  /** The prime's inverse modulo 2^64. */
  const INVERSE: u64 := 0xce965057aff6957b

  /** Bitwise exclusive or. */
  function Xor(a: nat, b: nat): nat {
    if a == 0 && b == 0 then 0 else 2 * Xor(a / 2, b / 2) + if a % 2 == b % 2 then 0 else 1
  }

  lemma {:induction false} XorFits(a: nat, b: nat, k: nat)
    requires a < Pow2(k) && b < Pow2(k)
    ensures Xor(a, b) < Pow2(k)
  {
    if k > 0 {
      XorFits(a / 2, b / 2, k - 1);
    }
  }

  lemma XorHalves(a: nat, b: nat)
    ensures Xor(a, b) / 2 == Xor(a / 2, b / 2) && (Xor(a, b) % 2 == 0 <==> a % 2 == b % 2)
  {
  }

  lemma SameHalves(a: nat, b: nat)
    requires a / 2 == b / 2 && (a % 2 == 0 <==> b % 2 == 0)
    ensures a == b
  {
  }

  lemma {:induction false} XorTwice(a: nat, b: nat)
    ensures Xor(Xor(a, b), b) == a
    decreases a + b
  {
    if a != 0 || b != 0 {
      XorHalves(a, b);
      XorHalves(Xor(a, b), b);
      XorTwice(a / 2, b / 2);
      SameHalves(Xor(Xor(a, b), b), a);
    }
  }

  lemma {:induction false} XorCancels(a: nat, b: nat, c: nat)
    requires Xor(a, b) == Xor(a, c)
    ensures b == c
    decreases a + b + c
  {
    if a != 0 || b != 0 || c != 0 {
      XorHalves(a, b);
      XorHalves(a, c);
      XorCancels(a / 2, b / 2, c / 2);
      SameHalves(b, c);
    }
  }

  lemma WordBits(k: nat)
    requires k == 64
    ensures Pow2(k) == WORD
  {
    assert Pow2(4) == 16;
    hide Pow2;
    Square(4, 8, 0x10);
    Square(8, 16, 0x100);
    Square(16, 32, 0x1_0000);
    Square(32, k, 0x1_0000_0000);
  }

  lemma Square(j: nat, k: nat, v: nat)
    requires Pow2(j) == v && k == j + j
    ensures Pow2(k) == v * v
  {
    Pow2Sum(j, j);
  }

  lemma XorFitsWord(h: u64, b: byte)
    ensures Xor(h, b) <= U64_MAX
  {
    var k :| k == 64;
    WordBits(k);
    XorFits(h, b, k);
  }

  /** `hash ^= u64::from(byte)`. */
  function XorByte(h: u64, b: byte): u64 {
    XorFitsWord(h, b);
    Xor(h, b)
  }

  /** `wrapping_mul`. */
  function WrappingMul(h: u64, k: u64): u64 { h * k % WORD }

  function Mix(h: u64, b: byte): u64 { WrappingMul(XorByte(h, b), PRIME) }

  function Unmix(h: u64, b: byte): u64 { XorByte(WrappingMul(h, INVERSE), b) }

  lemma MulByInverse(h: u64)
    ensures WrappingMul(WrappingMul(h, PRIME), INVERSE) == h
    ensures WrappingMul(WrappingMul(h, INVERSE), PRIME) == h
  {
    CancelFactors(h, PRIME, INVERSE, 0xce9650590f);
    CancelFactors(h, INVERSE, PRIME, 0xce9650590f);
  }

  lemma CancelFactors(h: u64, a: u64, b: u64, q: nat)
    requires a * b == q * WORD + 1
    ensures WrappingMul(WrappingMul(h, a), b) == h
  {
    var k, r := h * a / WORD, h * a % WORD;
    calc {
      r * b;
      (h * a - k * WORD) * b;
      h * (a * b) - k * b * WORD;
      h * (q * WORD + 1) - k * b * WORD;
      h + (h * q - k * b) * WORD;
    }
    Remainder(r * b, h, h * q - k * b);
  }

  lemma Remainder(n: int, r: u64, k: int)
    requires n == r + k * WORD
    ensures n % WORD == r
  {
  }

  lemma MixIsBijective(h: u64, b: byte)
    ensures Unmix(Mix(h, b), b) == h && Mix(Unmix(h, b), b) == h
  {
    hide Xor, WrappingMul;
    MulByInverse(XorByte(h, b));
    XorTwice(h, b);
    MulByInverse(h);
    XorTwice(WrappingMul(h, INVERSE), b);
  }

  lemma MixIsInjectiveInTheByte(h: u64, b: byte, c: byte)
    requires Mix(h, b) == Mix(h, c)
    ensures b == c
  {
    hide Xor, WrappingMul;
    MulByInverse(XorByte(h, b));
    MulByInverse(XorByte(h, c));
    XorCancels(h, b, c);
  }

  /** The hash state after absorbing `input` from state `h`. */
  function Absorb(h: u64, input: seq<byte>): u64
    decreases |input|
  {
    if input == [] then h else Absorb(Mix(h, input[0]), input[1..])
  }

  /** The state from which absorbing `input` leads to `h`. */
  function Rewind(h: u64, input: seq<byte>): u64 {
    if input == [] then h else Unmix(Rewind(h, input[1..]), input[0])
  }

  function Fnv1a(input: seq<byte>): u64 { Absorb(OFFSET_BASIS, input) }

  method DeterministicShardHash(input: seq<byte>) returns (hash: u64)
    ensures hash == Fnv1a(input)
  {
    hash := OFFSET_BASIS;
    for i := 0 to |input|
      invariant Absorb(hash, input[i..]) == Fnv1a(input)
    {
      var b := input[i];
      assert input[i..][1..] == input[i + 1..];
      hash := XorByte(hash, b);
      hash := WrappingMul(hash, PRIME);
    }
  }

  /** Absorbing any input permutes the 64-bit states. */
  lemma {:induction false} AbsorbIsBijective(h: u64, input: seq<byte>)
    ensures Rewind(Absorb(h, input), input) == h && Absorb(Rewind(h, input), input) == h
    decreases |input|
  {
    if input != [] {
      MixIsBijective(h, input[0]);
      MixIsBijective(Rewind(h, input[1..]), input[0]);
      AbsorbIsBijective(Mix(h, input[0]), input[1..]);
      AbsorbIsBijective(h, input[1..]);
    }
  }

  lemma {:induction false} AbsorbConcat(h: u64, a: seq<byte>, b: seq<byte>)
    ensures Absorb(h, a + b) == Absorb(Absorb(h, a), b)
    decreases |a|
  {
    if a == [] {
      assert a + b == b;
    } else {
      assert (a + b)[1..] == a[1..] + b;
      AbsorbConcat(Mix(h, a[0]), a[1..], b);
    }
  }

  /** A common suffix cancels, in both directions. */
  lemma CommonSuffixCancels(a: seq<byte>, b: seq<byte>, suffix: seq<byte>)
    ensures Fnv1a(a + suffix) == Fnv1a(b + suffix) <==> Fnv1a(a) == Fnv1a(b)
  {
    AbsorbConcat(OFFSET_BASIS, a, suffix);
    AbsorbConcat(OFFSET_BASIS, b, suffix);
    AbsorbIsBijective(Fnv1a(a), suffix);
    AbsorbIsBijective(Fnv1a(b), suffix);
  }

  /** Changing one byte always changes the hash. */
  lemma OneByteNeverCollides(input: seq<byte>, k: nat, b: byte)
    requires k < |input|
    ensures Fnv1a(input[k := b]) == Fnv1a(input) <==> b == input[k]
  {
    var prefix, suffix := input[..k], input[k + 1..];
    assert input == prefix + [input[k]] + suffix;
    assert input[k := b] == prefix + [b] + suffix;
    CommonSuffixCancels(prefix + [input[k]], prefix + [b], suffix);
    AbsorbConcat(OFFSET_BASIS, prefix, [input[k]]);
    AbsorbConcat(OFFSET_BASIS, prefix, [b]);
    var h := Fnv1a(prefix);
    OneByte(h, b);
    OneByte(h, input[k]);
    if Mix(h, input[k]) == Mix(h, b) {
      MixIsInjectiveInTheByte(h, input[k], b);
    }
  }

  lemma OneByte(h: u64, b: byte)
    ensures Absorb(h, [b]) == Mix(h, b)
  {
    assert [b][1..] == [];
  }

  // ----- The pinned hash -----

  lemma {:induction false} XorZero(a: nat)
    ensures Xor(a, 0) == a
  {
    if a > 0 {
      XorZero(a / 2);
    }
  }

  function Differ(c: nat, d: nat): nat { if c == d then 0 else 1 }

  lemma XorBit(h: nat, g: nat, c: nat, d: nat, n: nat, m: nat)
    requires c < 2 && d < 2 && n == 2 * h + c && m == 2 * g + d
    ensures Xor(n, m) == 2 * Xor(h, g) + Differ(c, d)
  {
    hide Xor;
    XorHalves(n, m);
    assert n / 2 == h && m / 2 == g && n % 2 == c && m % 2 == d;
  }

  /** Hexadecimal digits are combined one by one. */
  lemma XorDigit(h: nat, g: nat, a: nat, b: nat, n: nat, m: nat)
    requires a < 16 && b < 16 && n == 16 * h + a && m == 16 * g + b
    ensures Xor(n, m) == 16 * Xor(h, g) + Xor(a, b)
  {
    assert Xor(0, 0) == 0;
    hide Xor;
    var a3, a2, a1, a0 := DigitBits(a);
    var b3, b2, b1, b0 := DigitBits(b);
    XorFourBits(h, g, a3, a2, a1, a0, b3, b2, b1, b0, n, m);
    XorFourBits(0, 0, a3, a2, a1, a0, b3, b2, b1, b0, a, b);
  }

  lemma DigitBits(a: nat) returns (a3: nat, a2: nat, a1: nat, a0: nat)
    requires a < 16
    ensures a3 < 2 && a2 < 2 && a1 < 2 && a0 < 2 && a == 8 * a3 + 4 * a2 + 2 * a1 + a0
  {
    a3, a2, a1, a0 := a / 8 % 2, a / 4 % 2, a / 2 % 2, a % 2;
  }

  lemma XorFourBits(h: nat, g: nat, a3: nat, a2: nat, a1: nat, a0: nat, b3: nat, b2: nat, b1: nat, b0: nat,
                    n: nat, m: nat)
    requires a3 < 2 && a2 < 2 && a1 < 2 && a0 < 2 && b3 < 2 && b2 < 2 && b1 < 2 && b0 < 2
    requires n == 16 * h + 8 * a3 + 4 * a2 + 2 * a1 + a0 && m == 16 * g + 8 * b3 + 4 * b2 + 2 * b1 + b0
    ensures Xor(n, m) ==
            16 * Xor(h, g) + 8 * Differ(a3, b3) + 4 * Differ(a2, b2) + 2 * Differ(a1, b1) + Differ(a0, b0)
  {
    hide Xor;
    var n1, m1 := 2 * h + a3, 2 * g + b3;
    var n2, m2 := 2 * n1 + a2, 2 * m1 + b2;
    var n3, m3 := 2 * n2 + a1, 2 * m2 + b1;
    XorBit(h, g, a3, b3, n1, m1);
    XorBit(n1, m1, a2, b2, n2, m2);
    XorBit(n2, m2, a1, b1, n3, m3);
    XorBit(n3, m3, a0, b0, n, m);
  }

  /** One mixing step, with the last two digits of the state and of the byte taken apart. */
  lemma MixIs(h: u64, b: byte, high: nat, x: nat, x': nat, y: nat, y': nat, z: nat, z': nat, next: u64)
    requires x < 16 && x' < 16 && y < 16 && y' < 16
    requires h == 256 * high + 16 * x + x' && b == 16 * y + y'
    requires Xor(x, y) == z && Xor(x', y') == z'
    requires (256 * high + 16 * z + z') * 0x100_0000_01B3 % 0x1_0000_0000_0000_0000 == next
    ensures Mix(h, b) == next
  {
    hide Xor;
    XorDigit(16 * high + x, y, x', y', h, b);
    XorDigit(high, 0, x, y, 16 * high + x, y);
    XorZero(high);
  }

  lemma AbsorbHead(h: u64, input: seq<byte>)
    requires input != []
    ensures Absorb(h, input) == Absorb(Mix(h, input[0]), input[1..])
  {
  }

  lemma PinnedMix0()
    ensures Mix(0xcbf29ce484222325, 116) == 0xaf63e94c860202a3
  {
    assert Xor(2, 7) == 5 && Xor(5, 4) == 1;
    hide Xor, Mix;
    MixIs(0xcbf29ce484222325, 116, 0xcbf29ce4842223, 2, 5, 7, 4, 5, 1, 0xaf63e94c860202a3);
  }

  lemma PinnedMix1()
    ensures Mix(0xaf63e94c860202a3, 101) == 0x8c83307b56ab672
  {
    assert Xor(10, 6) == 12 && Xor(3, 5) == 6;
    hide Xor, Mix;
    MixIs(0xaf63e94c860202a3, 101, 0xaf63e94c860202, 10, 3, 6, 5, 12, 6, 0x8c83307b56ab672);
  }

  lemma PinnedMix2()
    ensures Mix(0x8c83307b56ab672, 115) == 0x56e4b719445343b3
  {
    assert Xor(7, 7) == 0 && Xor(2, 3) == 1;
    hide Xor, Mix;
    MixIs(0x8c83307b56ab672, 115, 0x8c83307b56ab6, 7, 2, 7, 3, 0, 1, 0x56e4b719445343b3);
  }

  lemma PinnedMix3()
    ensures Mix(0x56e4b719445343b3, 116) == 0xf9e6e6ef197c2b25
  {
    assert Xor(11, 7) == 12 && Xor(3, 4) == 7;
    hide Xor, Mix;
    MixIs(0x56e4b719445343b3, 116, 0x56e4b719445343, 11, 3, 7, 4, 12, 7, 0xf9e6e6ef197c2b25);
  }

  /** The repository pins the hash of the text "test". */
  lemma PinnedHash(input: seq<byte>)
    requires |input| == 4 && input[0] == 116 && input[1] == 101 && input[2] == 115 && input[3] == 116
    ensures Fnv1a(input) == 0xf9e6e6ef197c2b25
  {
    assert Absorb(0xf9e6e6ef197c2b25, []) == 0xf9e6e6ef197c2b25;
    hide Absorb, Mix;
    PinnedMix0();
    PinnedMix1();
    PinnedMix2();
    PinnedMix3();
    AbsorbHead(0xcbf29ce484222325, input[0..]);
    AbsorbHead(0xaf63e94c860202a3, input[1..]);
    AbsorbHead(0x8c83307b56ab672, input[2..]);
    AbsorbHead(0x56e4b719445343b3, input[3..]);
    assert input[0..] == input && input[1..][1..] == input[2..];
    assert input[2..][1..] == input[3..] && input[3..][1..] == [];
  }
}
