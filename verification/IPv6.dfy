/** IPv6 addresses and prefix masking. */
module IPv6 {
  import opened Spinel

  type Address = s: seq<Byte> | |s| == 16 witness seq(16, _ => 0)

  // The octet with all but its first k bits cleared.
  function KeepBits(b: Byte, k: nat): (r: Byte)
    requires k <= 8
  {
    match k
    case 0 => 0
    case 1 => 128 * (b / 128)
    case 2 => 64 * (b / 64)
    case 3 => 32 * (b / 32)
    case 4 => 16 * (b / 16)
    case 5 => 8 * (b / 8)
    case 6 => 4 * (b / 4)
    case 7 => 2 * (b / 2)
    case 8 => b
  }

  // The first k bits of the octet, as a number.
  function FirstBits(b: Byte, k: nat): nat
    requires k <= 8
  {
    match k
    case 0 => 0
    case 1 => b / 128
    case 2 => b / 64
    case 3 => b / 32
    case 4 => b / 16
    case 5 => b / 8
    case 6 => b / 4
    case 7 => b / 2
    case 8 => b
  }

  // How many of the first `mask` bits fall into octet i.
  function BitsIn(mask: nat, i: nat): (k: nat)
    ensures k <= 8
  {
    if mask >= 8 * i + 8 then 8 else if mask <= 8 * i then 0 else mask - 8 * i
  }

  // in6_addr_apply_mask: the first `mask` bits, the others cleared.
  function Masked(a: Address, mask: nat): Address {
    seq(16, i requires 0 <= i < 16 => KeepBits(a[i], BitsIn(mask, i)))
  }

  // The octets from `first` on.
  method ClearFrom(address: array<Byte>, first: nat)
    requires address.Length == 16 && first <= 16
    modifies address
    ensures forall j :: 0 <= j < 16 ==> address[j] == if first <= j then 0 else old(address[j])
  {
    var i := first;
    while i < 16
      invariant first <= i <= 16
      invariant forall j :: 0 <= j < 16 ==> address[j] == if first <= j < i then 0 else old(address[j])
    {
      address[i] := 0;
      i := i + 1;
    }
  }

  method ApplyMask(address: array<Byte>, mask: nat)
    requires address.Length == 16
    modifies address
    ensures address[..] == Masked(old(address[..]), mask)
  {
    ghost var was: Address := address[..];
    var m := if mask > 128 then 128 else mask;
    ClearFrom(address, (m + 7) / 8);
    if m % 8 != 0 {
      address[m / 8] := KeepBits(address[m / 8], m % 8);
    }
    forall j | 0 <= j < 16 ensures address[j] == KeepBits(was[j], BitsIn(mask, j)) {
      BitsInOctet(mask, m, j);
    }
  }

  lemma BitsInOctet(mask: nat, m: nat, j: nat)
    requires j < 16 && m == if mask > 128 then 128 else mask
    ensures BitsIn(mask, j) == if (m + 7) / 8 <= j then 0 else if m % 8 != 0 && m / 8 == j then m % 8 else 8
  {
  }

  lemma KeepAllOrNone(b: Byte)
    ensures KeepBits(b, 8) == b && KeepBits(b, 0) == 0
  {
  }

  lemma KeepBitsIdempotent(b: Byte, k: nat)
    requires k <= 8
    ensures KeepBits(KeepBits(b, k), k) == KeepBits(b, k)
  {
    match k {
      case 0 =>
      case 1 => Exact(b / 128);
      case 2 => Exact(b / 64);
      case 3 => Exact(b / 32);
      case 4 => Exact(b / 16);
      case 5 => Exact(b / 8);
      case 6 => Exact(b / 4);
      case 7 => Exact(b / 2);
      case 8 =>
    }
  }

  lemma Exact(q: nat)
    ensures 128 * q / 128 == q && 64 * q / 64 == q && 32 * q / 32 == q && 16 * q / 16 == q
    ensures 8 * q / 8 == q && 4 * q / 4 == q && 2 * q / 2 == q
  {
  }

  // Octets agree once masked exactly when their first k bits do.
  lemma KeepBitsAgree(b: Byte, c: Byte, k: nat)
    requires k <= 8
    ensures KeepBits(b, k) == KeepBits(c, k) <==> FirstBits(b, k) == FirstBits(c, k)
  {
    match k { case 0 => case 1 => case 2 => case 3 => case 4 => case 5 => case 6 => case 7 => case 8 => }
  }

  // A mask of 128 bits or more changes nothing.
  lemma MaskedAll(a: Address, mask: nat)
    requires mask >= 128
    ensures Masked(a, mask) == a
  {
    forall i | 0 <= i < 16 ensures Masked(a, mask)[i] == a[i] { KeepAllOrNone(a[i]); }
  }

  lemma MaskedIdempotent(a: Address, mask: nat)
    ensures Masked(Masked(a, mask), mask) == Masked(a, mask)
  {
    forall i | 0 <= i < 16 ensures Masked(Masked(a, mask), mask)[i] == Masked(a, mask)[i] {
      KeepBitsIdempotent(a[i], BitsIn(mask, i));
    }
  }

  ghost predicate SamePrefix(a: Address, b: Address, mask: nat) {
    forall i :: 0 <= i < 16 ==> FirstBits(a[i], BitsIn(mask, i)) == FirstBits(b[i], BitsIn(mask, i))
  }

  // Two addresses are equal once masked exactly when their first `mask` bits agree.
  lemma MaskedAgree(a: Address, b: Address, mask: nat)
    ensures Masked(a, mask) == Masked(b, mask) <==> SamePrefix(a, b, mask)
  {
    forall i | 0 <= i < 16
      ensures Masked(a, mask)[i] == Masked(b, mask)[i]
         <==> FirstBits(a[i], BitsIn(mask, i)) == FirstBits(b[i], BitsIn(mask, i))
    {
      KeepBitsAgree(a[i], b[i], BitsIn(mask, i));
    }
  }

  /* The same, bit by bit: bit 0 is the first one of the first octet. */

  predicate OctetBit(b: Byte, j: nat)
    requires j < 8
  {
    match j
    case 0 => b / 128 % 2 == 1
    case 1 => b / 64 % 2 == 1
    case 2 => b / 32 % 2 == 1
    case 3 => b / 16 % 2 == 1
    case 4 => b / 8 % 2 == 1
    case 5 => b / 4 % 2 == 1
    case 6 => b / 2 % 2 == 1
    case 7 => b % 2 == 1
  }

  predicate AddressBit(a: Address, n: nat)
    requires n < 128
  {
    OctetBit(a[n / 8], n % 8)
  }

  lemma Halves(b: nat)
    ensures b / 2 / 64 == b / 128 && b / 2 / 32 == b / 64 && b / 2 / 16 == b / 32 && b / 2 / 8 == b / 16
    ensures b / 2 / 4 == b / 8 && b / 2 / 2 == b / 4
  {
  }

  // Halving an octet moves its bits one place on.
  lemma HalfBit(b: Byte, j: nat)
    requires j < 7
    ensures OctetBit(b, j) == OctetBit(b / 2, j + 1)
  {
    Halves(b);
    match j { case 0 => case 1 => case 2 => case 3 => case 4 => case 5 => case 6 => }
  }

  lemma KeepLess(b: Byte, k: nat)
    requires k <= 8
    ensures KeepBits(b, k) <= b
  {
    match k { case 0 => case 1 => case 2 => case 3 => case 4 => case 5 => case 6 => case 7 => case 8 => }
  }

  lemma KeepHalf(b: Byte, k: nat)
    requires k < 8
    ensures KeepBits(b / 2, k + 1) < 128 && KeepBits(b, k) == 2 * KeepBits(b / 2, k + 1)
  {
    KeepLess(b / 2, k + 1);
    Halves(b);
    match k {
      case 0 => assert b / 2 / 128 == 0;
      case 1 => case 2 => case 3 => case 4 => case 5 => case 6 => case 7 =>
    }
  }

  // Of an octet the first k bits stay and the others are zero.
  lemma {:induction false} KeepBitsBit(b: Byte, k: nat, j: nat)
    requires k <= 8 && j < 8
    ensures OctetBit(KeepBits(b, k), j) <==> j < k && OctetBit(b, j)
    decreases 8 - k
  {
    if k < 8 {
      KeepHalf(b, k);
      var half := KeepBits(b / 2, k + 1);
      if j < 7 {
        HalfBit(2 * half, j);
        HalfBit(b, j);
        KeepBitsBit(b / 2, k + 1, j + 1);
      }
    }
  }

  lemma {:induction false} OctetFromBits(b: Byte, c: Byte)
    requires forall j :: 0 <= j < 8 ==> OctetBit(b, j) == OctetBit(c, j)
    ensures b == c
    decreases b + c
  {
    if b + c > 0 {
      forall j | 0 <= j < 8 ensures OctetBit(b / 2, j) == OctetBit(c / 2, j) {
        if j > 0 {
          HalfBit(b, j - 1);
          HalfBit(c, j - 1);
        }
      }
      OctetFromBits(b / 2, c / 2);
      assert OctetBit(b, 7) == OctetBit(c, 7);
    }
  }

  // Of an address the first `mask` bits stay and the others are zero.
  lemma MaskedBit(a: Address, mask: nat, n: nat)
    requires n < 128
    ensures AddressBit(Masked(a, mask), n) <==> n < mask && AddressBit(a, n)
  {
    KeepBitsBit(a[n / 8], BitsIn(mask, n / 8), n % 8);
  }

  lemma AddressFromBits(a: Address, b: Address)
    requires forall n :: 0 <= n < 128 ==> AddressBit(a, n) == AddressBit(b, n)
    ensures a == b
  {
    forall i | 0 <= i < 16 ensures a[i] == b[i] {
      forall j | 0 <= j < 8 ensures OctetBit(a[i], j) == OctetBit(b[i], j) {
        assert AddressBit(a, 8 * i + j) == AddressBit(b, 8 * i + j);
      }
      OctetFromBits(a[i], b[i]);
    }
  }

  // Two addresses are equal once masked exactly when they agree in the first `mask` bits.
  lemma MaskedAgreeInBits(a: Address, b: Address, mask: nat)
    ensures Masked(a, mask) == Masked(b, mask) <==>
      forall n :: 0 <= n < 128 && n < mask ==> AddressBit(a, n) == AddressBit(b, n)
  {
    var x, y := Masked(a, mask), Masked(b, mask);
    forall n | 0 <= n < 128
      ensures AddressBit(x, n) <==> n < mask && AddressBit(a, n)
      ensures AddressBit(y, n) <==> n < mask && AddressBit(b, n)
    {
      MaskedBit(a, mask, n);
      MaskedBit(b, mask, n);
    }
    if forall n :: 0 <= n < 128 && n < mask ==> AddressBit(a, n) == AddressBit(b, n) {
      AddressFromBits(x, y);
    }
  }
}
