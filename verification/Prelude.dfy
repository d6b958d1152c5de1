/** Values every module uses: options, bytes, and 32-bit unsigned integers. */
module Prelude {

  datatype Option<+T> = None | Some(value: T)

  const U32_MAX: int := 0xFFFF_FFFF

  type Byte = b: int | 0 <= b < 256

  type U32 = n: int | 0 <= n <= U32_MAX

  function Min(a: int, b: int): int {
    if a <= b then a else b
  }

  /** `u32::saturating_add`. */
  function SaturatingAdd(a: U32, b: U32): U32 {
    Min(a + b, U32_MAX)
  }

  /** `u32::to_be_bytes`. */
  function ToBE(n: U32): (bs: seq<Byte>)
    ensures |bs| == 4
  {
    [n / 256 / 256 / 256, n / 256 / 256 % 256, n / 256 % 256, n % 256]
  }

  /** `u32::from_be_bytes`. */
  function FromBE(bs: seq<Byte>): U32
    requires |bs| == 4
  {
    ((bs[0] as int * 256 + bs[1]) * 256 + bs[2]) * 256 + bs[3]
  }

  lemma FromToBE(n: U32)
    ensures FromBE(ToBE(n)) == n
  {
    var a := n / 256;
    var b := a / 256;
    assert n == a * 256 + n % 256 && a == b * 256 + a % 256;
  }

  lemma ToFromBE(bs: seq<Byte>)
    requires |bs| == 4
    ensures ToBE(FromBE(bs)) == bs
  {
    var n := FromBE(bs);
    assert n / 256 == (bs[0] as int * 256 + bs[1]) * 256 + bs[2];
    assert n / 256 / 256 == bs[0] as int * 256 + bs[1];
  }

  lemma Slices<T>(s: seq<T>, a: nat, b: nat, c: nat)
    requires a <= b <= c <= |s|
    ensures s[a..b] + s[b..c] == s[a..c]
  {
  }

  lemma SliceOfSlice<T>(s: seq<T>, a: nat, b: nat, i: nat, j: nat)
    requires a <= b <= |s| && i <= j <= b - a
    ensures s[a..b][i..j] == s[a + i..a + j]
  {
    var t := s[a..b];
    forall k | 0 <= k < j - i ensures t[i..j][k] == s[a + i..a + j][k] {
      assert t[i..j][k] == t[i + k] == s[a + (i + k)];
    }
  }
}
