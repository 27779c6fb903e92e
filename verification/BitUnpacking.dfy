/**
 * Unpacking the blinding bits of a blind issuance request (src/routes.rs):
 * the most significant bit of each byte comes first.
 */
module BitUnpacking {
  import opened Common

  /** `n >> k`. */
  function ShiftRight(n: nat, k: nat): nat {
    if k == 0 then n else ShiftRight(n, k - 1) / 2
  }

  /** `((byte >> (7 - i)) & 1) == 1`. */
  predicate Bit(b: byte, i: nat)
    requires i < 8
  {
    ShiftRight(b, 7 - i) % 2 == 1
  }

  function ByteBits(b: byte): (bits: seq<bool>)
    ensures |bits| == 8
  {
    seq(8, i requires 0 <= i < 8 => Bit(b, i))
  }

  function Unpack(bytes: seq<byte>): seq<bool> {
    if bytes == [] then [] else ByteBits(bytes[0]) + Unpack(bytes[1..])
  }

  /** The integer a bit list denotes, big end first. */
  function BitsValue(bits: seq<bool>): nat {
    if bits == [] then 0 else 2 * BitsValue(bits[..|bits| - 1]) + if bits[|bits| - 1] then 1 else 0
  }

  /** The integer a byte list denotes, big end first. */
  function BytesValue(bytes: seq<byte>): nat {
    if bytes == [] then 0 else 256 * BytesValue(bytes[..|bytes| - 1]) + bytes[|bytes| - 1]
  }

  /** The packer of the client side: eight bits to a byte. */
  function Pack(bits: seq<bool>): seq<byte>
    requires |bits| % 8 == 0
  {
    if bits == [] then [] else PackByte(bits[..8]) + Pack(bits[8..])
  }

  function PackByte(bits: seq<bool>): (r: seq<byte>)
    requires |bits| == 8
  {
    BitsValueFits(bits, 8);
    [BitsValue(bits)]
  }

  lemma {:induction false} BitsValueFits(bits: seq<bool>, k: nat)
    requires |bits| == k
    ensures BitsValue(bits) < Pow2(k)
  {
    if k > 0 {
      BitsValueFits(bits[..k - 1], k - 1);
    }
  }

  // ----- One byte -----

  lemma {:induction false} ShiftFits(n: nat, k: nat, m: nat)
    requires n < Pow2(k + m)
    ensures ShiftRight(n, k) < Pow2(m)
  {
    if k > 0 {
      ShiftFits(n, k - 1, m + 1);
    }
  }

  /** The first i bits of a byte denote its top i bits. */
  lemma {:induction false} PrefixValue(b: byte, i: nat)
    requires i <= 8
    ensures BitsValue(ByteBits(b)[..i]) == ShiftRight(b, 8 - i)
  {
    if i == 0 {
      assert Pow2(8) == 256;
      ShiftFits(b, 8, 0);
    } else {
      PrefixValue(b, i - 1);
      var bits := ByteBits(b)[..i];
      assert bits[..i - 1] == ByteBits(b)[..i - 1];
    }
  }

  lemma ByteValue(b: byte)
    ensures BitsValue(ByteBits(b)) == b
  {
    PrefixValue(b, 8);
    assert ByteBits(b)[..8] == ByteBits(b);
  }

  /** Bit lists of the same length and value are the same. */
  lemma {:induction false} BitsValueInjective(a: seq<bool>, b: seq<bool>)
    requires |a| == |b| && BitsValue(a) == BitsValue(b)
    ensures a == b
  {
    if a != [] {
      var n := |a| - 1;
      BitsValueInjective(a[..n], b[..n]);
      assert a == a[..n] + [a[n]] && b == b[..n] + [b[n]];
    }
  }

  // ----- Byte lists -----

  lemma {:induction false} UnpackLength(bytes: seq<byte>)
    ensures |Unpack(bytes)| == 8 * |bytes|
  {
    if bytes != [] {
      UnpackLength(bytes[1..]);
    }
  }

  /** Where each bit of each byte goes. */
  lemma {:induction false} UnpackAt(bytes: seq<byte>, j: nat, i: nat)
    requires j < |bytes| && i < 8
    ensures 8 * j + i < |Unpack(bytes)| && Unpack(bytes)[8 * j + i] == Bit(bytes[j], i)
  {
    UnpackLength(bytes);
    if j > 0 {
      UnpackAt(bytes[1..], j - 1, i);
    }
  }

  lemma {:induction false} UnpackSnoc(bytes: seq<byte>, last: byte)
    ensures Unpack(bytes + [last]) == Unpack(bytes) + ByteBits(last)
  {
    var all := bytes + [last];
    if bytes == [] {
      assert all[1..] == [];
    } else {
      assert all[1..] == bytes[1..] + [last];
      UnpackSnoc(bytes[1..], last);
    }
  }

  lemma Doubling(v: nat, n: nat, m: nat)
    requires m == n + 1
    ensures v * Pow2(m) == 2 * (v * Pow2(n))
  {
  }

  lemma {:induction false} BitsValueConcat(a: seq<bool>, b: seq<bool>)
    ensures BitsValue(a + b) == BitsValue(a) * Pow2(|b|) + BitsValue(b)
  {
    if b == [] {
      assert a + b == a;
    } else {
      var n := |b| - 1;
      assert (a + b)[..|a| + n] == a + b[..n];
      BitsValueConcat(a, b[..n]);
      Doubling(BitsValue(a), n, |b|);
    }
  }

  /** Unpacking keeps the big-endian integer. */
  lemma {:induction false} UnpackKeepsValue(bytes: seq<byte>)
    ensures BitsValue(Unpack(bytes)) == BytesValue(bytes)
  {
    if bytes != [] {
      var n := |bytes| - 1;
      var init, last := bytes[..n], bytes[n];
      assert bytes == init + [last];
      UnpackKeepsValue(init);
      UnpackSnoc(init, last);
      BitsValueConcat(Unpack(init), ByteBits(last));
      ByteValue(last);
      assert Pow2(8) == 256;
    }
  }

  /** The packer undoes unpacking. */
  lemma {:induction false} PackOfUnpack(bytes: seq<byte>)
    ensures |Unpack(bytes)| % 8 == 0 && Pack(Unpack(bytes)) == bytes
  {
    UnpackLength(bytes);
    if bytes != [] {
      var bits := Unpack(bytes);
      assert bits[..8] == ByteBits(bytes[0]) && bits[8..] == Unpack(bytes[1..]);
      ByteValue(bytes[0]);
      PackOfUnpack(bytes[1..]);
    }
  }

  /** Unpacking undoes the packer. */
  lemma {:induction false} UnpackOfPack(bits: seq<bool>)
    requires |bits| % 8 == 0
    ensures Unpack(Pack(bits)) == bits
  {
    if bits != [] {
      UnpackOfPack(bits[8..]);
      var b := PackByte(bits[..8])[0];
      assert Pack(bits)[0] == b && Pack(bits)[1..] == Pack(bits[8..]);
      ByteValue(b);
      BitsValueInjective(ByteBits(b), bits[..8]);
    }
  }

  /** Two byte lists never unpack to the same bits. */
  lemma UnpackInjective(a: seq<byte>, b: seq<byte>)
    ensures Unpack(a) == Unpack(b) <==> a == b
  {
    PackOfUnpack(a);
    PackOfUnpack(b);
  }
}
