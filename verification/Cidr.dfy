/** Matching an address against the leading bits of a mask.

    Whole bytes are compared until fewer than eight bits are left; of these the
    difference is shifted away. */
module Cidr {
  /** `b >> n`. */
  function Shift(b: bv8, n: nat): bv8
    requires n <= 8
  {
    match n
    case 0 => b
    case 1 => b >> 1
    case 2 => b >> 2
    case 3 => b >> 3
    case 4 => b >> 4
    case 5 => b >> 5
    case 6 => b >> 6
    case 7 => b >> 7
    case _ => 0
  }

  /** Bit `i` of a byte, most significant first. */
  function BitOf(b: bv8, i: nat): bv8
    requires i < 8
  {
    Shift(b, 7 - i) & 1
  }

  predicate SameBits(x: bv8, y: bv8, n: nat)
    requires n <= 8
  {
    forall i :: 0 <= i < n ==> BitOf(x, i) == BitOf(y, i)
  }

  /** Bit `i` of an address. */
  function Bit(a: seq<bv8>, i: nat): bv8
    requires i < 8 * |a|
  {
    BitOf(a[i / 8], i % 8)
  }

  /** The first `n` bits agree. */
  predicate Agree(a: seq<bv8>, m: seq<bv8>, n: nat)
    requires n <= 8 * |a| && |m| == |a|
  {
    forall i: nat :: i < n ==> Bit(a, i) == Bit(m, i)
  }

  lemma HighShift(x: bv8, y: bv8, n: nat)
    requires n < 4
    ensures Shift(x ^ y, 7 - n) == 0 <==> Shift(x ^ y, 8 - n) == 0 && BitOf(x, n) == BitOf(y, n)
  {
  }

  lemma LowShift(x: bv8, y: bv8, n: nat)
    requires 4 <= n < 8
    ensures Shift(x ^ y, 7 - n) == 0 <==> Shift(x ^ y, 8 - n) == 0 && BitOf(x, n) == BitOf(y, n)
  {
  }

  /** One bit more. */
  lemma ShiftNext(x: bv8, y: bv8, n: nat)
    requires n < 8
    ensures Shift(x ^ y, 7 - n) == 0 <==> Shift(x ^ y, 8 - n) == 0 && BitOf(x, n) == BitOf(y, n)
  {
    hide Shift, BitOf;
    if n < 4 {
      HighShift(x, y, n);
    } else {
      LowShift(x, y, n);
    }
  }

  /** Nothing is left of the difference exactly if these bits agree. */
  lemma {:induction false} TopBits(x: bv8, y: bv8, n: nat)
    requires n <= 8
    ensures Shift(x ^ y, 8 - n) == 0 <==> SameBits(x, y, n)
  {
    if n > 0 {
      TopBits(x, y, n - 1);
      ShiftNext(x, y, n - 1);
      hide Shift, BitOf;
      assert SameBits(x, y, n) <==> SameBits(x, y, n - 1) && BitOf(x, n - 1) == BitOf(y, n - 1);
    }
  }

  lemma WholeByte(x: bv8, y: bv8)
    ensures x == y <==> SameBits(x, y, 8)
  {
    TopBits(x, y, 8);
    hide SameBits;
  }

  /** Agreement, byte by byte. */
  lemma AgreeNext(a: seq<bv8>, m: seq<bv8>, k: nat, n: nat)
    requires |a| == |m| && k < |a| && n <= 8 && Agree(a, m, 8 * k)
    ensures Agree(a, m, 8 * k + n) <==> SameBits(a[k], m[k], n)
  {
    hide BitOf;
    forall i: nat | i < n
      ensures Bit(a, 8 * k + i) == BitOf(a[k], i) && Bit(m, 8 * k + i) == BitOf(m[k], i)
    {
      assert (8 * k + i) / 8 == k && (8 * k + i) % 8 == i;
    }
    if SameBits(a[k], m[k], n) {
      forall i: nat | i < 8 * k + n
        ensures Bit(a, i) == Bit(m, i)
      {
        if i >= 8 * k {
          assert Bit(a, 8 * k + (i - 8 * k)) == BitOf(a[k], i - 8 * k);
        }
      }
    }
    if Agree(a, m, 8 * k + n) {
      forall i | 0 <= i < n
        ensures BitOf(a[k], i) == BitOf(m[k], i)
      {
        assert Bit(a, 8 * k + i) == Bit(m, 8 * k + i);
      }
    }
  }

  lemma AgreeFewer(a: seq<bv8>, m: seq<bv8>, k: nat, n: nat)
    requires |a| == |m| && k <= n <= 8 * |a| && Agree(a, m, n)
    ensures Agree(a, m, k)
  {
  }

  lemma AgreeNone(a: seq<bv8>, m: seq<bv8>)
    requires |a| == |m|
    ensures Agree(a, m, 0)
  {
  }

  /** `match_cidr(addr, mask, bits)`: 1 if the first `bits` bits agree, 0 if not; for
      more bits than an address has, -1 takes the place of 1. */
  method MatchCidr(addr: seq<bv8>, mask: seq<bv8>, bits: nat) returns (r: int)
    requires |addr| == 16 == |mask| && bits < 256
    ensures bits <= 128 ==> r == if Agree(addr, mask, bits) then 1 else 0
    ensures bits > 128 ==> r == if Agree(addr, mask, 128) then -1 else 0
  {
    hide Agree, SameBits, Shift, BitOf;
    AgreeNone(addr, mask);
    var left := bits;
    var k: nat := 0;
    while k < 16
      invariant k <= 16 && Agree(addr, mask, 8 * k) && left == bits - 8 * k
      invariant 0 < left || (left == 0 && k == 0)
    {
      AgreeNext(addr, mask, k, 8);
      WholeByte(addr[k], mask[k]);
      if left < 8 {
        AgreeNext(addr, mask, k, left);
        TopBits(addr[k], mask[k], left);
        return if Shift(addr[k] ^ mask[k], 8 - left) == 0 then 1 else 0;
      }
      if addr[k] != mask[k] {
        if Agree(addr, mask, if bits <= 128 then bits else 128) {
          AgreeFewer(addr, mask, 8 * k + 8, if bits <= 128 then bits else 128);
        }
        return 0;
      }
      left := left - 8;
      k := k + 1;
      if left == 0 {
        return 1;
      }
    }
    return -1;
  }
}
