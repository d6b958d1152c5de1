/** Two published digests, so that the constants are the published ones and not only odd. */
module KnownDigests {
  import opened Prelude
  import opened ProjectIds

  lemma XorHalf(a: nat, b: nat, x: nat)
    requires Xor(a / 2, b / 2) == x / 2 && (a + b) % 2 == x % 2
    ensures Xor(a, b) == x
  {
    XorBits(a, b);
  }

  /** Each of the last `k` bits of `x` is one exactly when one of those of `a` and `b` is, and there are no others. */
  predicate Bits(a: nat, b: nat, x: nat, k: nat) {
    if k == 0 then a == b == x == 0 else (a + b) % 2 == x % 2 && Bits(a / 2, b / 2, x / 2, k - 1)
  }

  lemma {:induction false} XorIs(a: nat, b: nat, x: nat, k: nat)
    requires Bits(a, b, x, k)
    ensures Xor(a, b) == x
  {
    if k > 0 {
      XorIs(a / 2, b / 2, x / 2, k - 1);
      XorHalf(a, b, x);
    }
  }

  lemma {:induction false} XorNothing(a: nat)
    ensures Xor(a, 0) == a
  {
    if a > 0 {
      XorNothing(a / 2);
      XorHalf(a, 0, a);
    }
  }

  function Shifted(high: nat, k: nat): nat {
    if k == 0 then high else 2 * Shifted(high, k - 1)
  }

  /** A byte changes the lowest byte and no other. */
  lemma {:induction false} XorLow(high: nat, low: nat, b: nat, k: nat)
    requires low < Pow2(k) && b < Pow2(k)
    ensures Xor(Shifted(high, k) + low, b) == Shifted(high, k) + Xor(low, b)
  {
    if k == 0 {
      XorNothing(high);
    } else {
      XorLow(high, low / 2, b / 2, k - 1);
      XorHigher(Shifted(high, k - 1), low, b);
    }
  }

  lemma XorHigher(half: nat, low: nat, b: nat)
    requires Xor(half + low / 2, b / 2) == half + Xor(low / 2, b / 2)
    ensures Xor(2 * half + low, b) == 2 * half + Xor(low, b)
  {
    XorBits(low, b);
    Halves(half, low);
    Halves(half, Xor(low, b));
    SameParity(half, low, b);
    XorHalf(2 * half + low, b, 2 * half + Xor(low, b));
  }

  lemma Halves(half: nat, n: nat)
    ensures (2 * half + n) / 2 == half + n / 2 && (2 * half + n) % 2 == n % 2
  {
  }

  lemma SameParity(half: nat, n: nat, b: nat)
    ensures (2 * half + n + b) % 2 == (n + b) % 2
  {
  }

  /** One byte, worked out from the lowest byte of the state. */
  lemma MixIs(high: nat, low: nat, b: Byte, mixed: nat, h: U128, next: U128)
    requires low < 256 && Bits(low, b, mixed, 8) && h == Shifted(high, 8) + low
    requires (Shifted(high, 8) + mixed) * FNV_PRIME % WIDTH == next
    ensures Mix(h, b) == next
  {
    assert Pow2(8) == 256;
    XorLow(high, low, b, 8);
    XorIs(low, b, mixed, 8);
  }

  lemma Shifted8(high: nat)
    ensures Shifted(high, 8) == 256 * high
  {
    assert Shifted(high, 0) == high && Shifted(high, 1) == 2 * high && Shifted(high, 2) == 4 * high;
    assert Shifted(high, 3) == 8 * high && Shifted(high, 4) == 16 * high && Shifted(high, 5) == 32 * high;
    assert Shifted(high, 6) == 64 * high && Shifted(high, 7) == 128 * high;
  }

  /** `8d` and `61` are `ec`. */
  lemma BasisAndA(a: nat, b: nat, x: nat)
    requires a == 0x8d && b == 0x61 && x == 0xec
    ensures Bits(a, b, x, 8)
  {
    assert Bits(a / 64 / 2 / 2, b / 64 / 2 / 2, x / 64 / 2 / 2, 0);
    assert Bits(a / 16 / 2 / 2, b / 16 / 2 / 2, x / 16 / 2 / 2, 2);
    assert Bits(a / 4 / 2 / 2, b / 4 / 2 / 2, x / 4 / 2 / 2, 4);
    assert Bits(a / 2 / 2, b / 2 / 2, x / 2 / 2, 6);
  }

  /** The empty string's digest is the published offset basis, and that of `a` the published one. */
  lemma Known(bytes: seq<Byte>)
    ensures bytes == [] ==> DigestOf(bytes) == 0x6c62272e07bb014262b821756295c58d
    ensures bytes == ['a' as int] ==> DigestOf(bytes) == 0xd228cb696f1a8caf78912b704e4a8964
  {
    if bytes == ['a' as int] {
      BasisAndA(0x8d, 0x61, 0xec);
      Shifted8(0x6c62272e07bb014262b821756295c5);
      MixIs(0x6c62272e07bb014262b821756295c5, 0x8d, bytes[0], 0xec, FNV_OFFSET_BASIS, 0xd228cb696f1a8caf78912b704e4a8964);
      DigestOne(FNV_OFFSET_BASIS, bytes[0]);
    }
  }
}
