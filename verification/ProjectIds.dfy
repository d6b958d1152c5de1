/** A project's id: the FNV-1a digest of its path in one spelling, 128 bits wide, printed as fixed-width hex. */
module ProjectIds {
  import opened Prelude

  // ----- The digest -----

  const FNV_OFFSET_BASIS := 0x6c62_272e_07bb_0142_62b8_2175_6295_c58d

  const FNV_PRIME := 0x0000_0000_0100_0000_0000_0000_0000_013b

  const WIDTH := 0x1_0000_0000_0000_0000_0000_0000_0000_0000

  type U128 = n: int | 0 <= n < WIDTH

  /** Bit by bit. */
  function Xor(a: nat, b: nat): nat
    decreases a + b
  {
    if a == 0 && b == 0 then 0 else (a + b) % 2 + 2 * Xor(a / 2, b / 2)
  }

  lemma {:induction false} XorBits(a: nat, b: nat)
    ensures Xor(a, b) % 2 == (a + b) % 2 && Xor(a, b) / 2 == Xor(a / 2, b / 2)
  {
    if a != 0 || b != 0 {
      LowBit((a + b) % 2, Xor(a / 2, b / 2));
    }
  }

  lemma LowBit(bit: nat, rest: nat)
    requires bit < 2
    ensures (bit + 2 * rest) % 2 == bit && (bit + 2 * rest) / 2 == rest
  {
  }

  lemma {:induction false} XorCancels(a: nat, b: nat, c: nat)
    ensures Xor(a, b) == Xor(a, c) <==> b == c
    decreases a + b + c
  {
    if a + b + c > 0 {
      XorBits(a, b);
      XorBits(a, c);
      XorCancels(a / 2, b / 2, c / 2);
      Parity(a, b, c);
    }
  }

  lemma Parity(a: nat, b: nat, c: nat)
    ensures (a + b) % 2 == (a + c) % 2 <==> b % 2 == c % 2
    ensures b == c <==> b % 2 == c % 2 && b / 2 == c / 2
  {
  }

  lemma {:induction false} XorCommutes(a: nat, b: nat)
    ensures Xor(a, b) == Xor(b, a)
    decreases a + b
  {
    if a + b > 0 {
      XorCommutes(a / 2, b / 2);
    }
  }

  function Pow2(k: nat): nat {
    if k == 0 then 1 else 2 * Pow2(k - 1)
  }

  lemma {:induction false} XorBelow(a: nat, b: nat, k: nat)
    requires a < Pow2(k) && b < Pow2(k)
    ensures Xor(a, b) < Pow2(k)
  {
    if k > 0 {
      XorBelow(a / 2, b / 2, k - 1);
      XorBits(a, b);
    }
  }

  lemma {:induction false} PowDoubles(j: nat, k: nat)
    ensures Pow2(j + k) == Pow2(j) * Pow2(k)
  {
    if j > 0 {
      PowDoubles(j - 1, k);
    }
  }

  lemma Pow128()
    ensures Pow2(128) == WIDTH
  {
    assert Pow2(8) == 0x100;
    PowDoubles(8, 8);
    assert Pow2(16) == 0x1_0000;
    PowDoubles(16, 16);
    assert Pow2(32) == 0x1_0000_0000;
    PowDoubles(32, 32);
    assert Pow2(64) == 0x1_0000_0000_0000_0000;
    PowDoubles(64, 64);
  }

  /** `hash ^= byte`, then `wrapping_mul`. */
  function Mix(hash: U128, byte: Byte): U128 {
    Xor(hash, byte) * FNV_PRIME % WIDTH
  }

  function DigestFrom(hash: U128, bytes: seq<Byte>): U128
    decreases |bytes|
  {
    if bytes == [] then hash else DigestFrom(Mix(hash, bytes[0]), bytes[1..])
  }

  function DigestOf(bytes: seq<Byte>): U128 {
    DigestFrom(FNV_OFFSET_BASIS, bytes)
  }

  method Digest(bytes: seq<Byte>) returns (hash: U128)
    ensures hash == DigestOf(bytes)
  {
    hash := FNV_OFFSET_BASIS;
    for i := 0 to |bytes|
      invariant DigestFrom(hash, bytes[i..]) == DigestOf(bytes)
    {
      var mixed := Xor(hash, bytes[i]);
      hash := mixed * FNV_PRIME % WIDTH;
    }
  }

  /** The prime is odd, so multiplying by it can be undone. */
  const INVERSE := 0xb104_1ad2_562f_f2ff_2ff2_ff2f_f2ff_2ff3

  lemma Multiplied(x: U128)
    ensures x * FNV_PRIME % WIDTH * INVERSE % WIDTH == x
  {
    var q, r := x * FNV_PRIME / WIDTH, x * FNV_PRIME % WIDTH;
    assert FNV_PRIME * INVERSE == 1 + 0xb1041ad2562ff2ff2ff3d9 * WIDTH;
    assert r * INVERSE == x + (x * 0xb1041ad2562ff2ff2ff3d9 - q * INVERSE) * WIDTH;
    Remainder(x * 0xb1041ad2562ff2ff2ff3d9 - q * INVERSE, x);
  }

  lemma Remainder(k: int, x: U128)
    ensures (x + k * WIDTH) % WIDTH == x
  {
  }

  /** Two different states never meet on one byte, and one state never goes the same way on two. */
  lemma MixInjective(h: U128, k: U128, x: Byte, y: Byte)
    ensures Mix(h, x) == Mix(k, x) <==> h == k
    ensures Mix(h, x) == Mix(h, y) <==> x == y
  {
    Pow128();
    PowDoubles(120, 8);
    assert Pow2(8) == 256;
    assert Pow2(120) >= 1;
    XorBelow(h, x, 128);
    XorBelow(k, x, 128);
    XorBelow(h, y, 128);
    Multiplied(Xor(h, x));
    Multiplied(Xor(k, x));
    Multiplied(Xor(h, y));
    XorCommutes(h, x);
    XorCommutes(k, x);
    XorCancels(x, h, k);
    XorCancels(h, x, y);
  }

  lemma {:induction false} DigestInjective(h: U128, k: U128, bytes: seq<Byte>)
    ensures DigestFrom(h, bytes) == DigestFrom(k, bytes) <==> h == k
    decreases |bytes|
  {
    if bytes != [] {
      MixInjective(h, k, bytes[0], bytes[0]);
      DigestInjective(Mix(h, bytes[0]), Mix(k, bytes[0]), bytes[1..]);
    }
  }

  lemma {:induction false} DigestOn(h: U128, a: seq<Byte>, b: seq<Byte>)
    ensures DigestFrom(h, a + b) == DigestFrom(DigestFrom(h, a), b)
    decreases |a|
  {
    if a == [] {
      assert a + b == b;
    } else {
      assert (a + b)[1..] == a[1..] + b;
      DigestOn(Mix(h, a[0]), a[1..], b);
    }
  }

  /** What two strings end in alike says nothing about whether they collide. */
  lemma SuffixesCancel(a: seq<Byte>, b: seq<Byte>, s: seq<Byte>)
    ensures DigestOf(a + s) == DigestOf(b + s) <==> DigestOf(a) == DigestOf(b)
  {
    DigestOn(FNV_OFFSET_BASIS, a, s);
    DigestOn(FNV_OFFSET_BASIS, b, s);
    DigestInjective(DigestOf(a), DigestOf(b), s);
  }

  /** Strings that differ in one place and nowhere else never collide. */
  lemma OneByteTells(a: seq<Byte>, b: seq<Byte>, i: nat)
    requires i < |a| == |b| && a[i] != b[i] && forall j :: 0 <= j < |a| && j != i ==> a[j] == b[j]
    ensures DigestOf(a) != DigestOf(b)
  {
    var front, back := a[..i], a[i + 1..];
    assert a == front + [a[i]] + back && b == front + [b[i]] + back;
    SuffixesCancel(front + [a[i]], front + [b[i]], back);
    DigestOn(FNV_OFFSET_BASIS, front, [a[i]]);
    DigestOn(FNV_OFFSET_BASIS, front, [b[i]]);
    MixInjective(DigestOf(front), DigestOf(front), a[i], b[i]);
    DigestOne(DigestOf(front), a[i]);
    DigestOne(DigestOf(front), b[i]);
  }

  lemma DigestOne(h: U128, x: Byte)
    ensures DigestFrom(h, [x]) == Mix(h, x)
  {
  }

  // ----- Printing it -----

  const PREFIX := "proj_"

  const DIGITS := 32

  function HexDigit(d: int): char
    requires 0 <= d < 16
  {
    if d < 10 then '0' + d as char else 'a' + (d - 10) as char
  }

  predicate IsHexDigit(c: char) {
    '0' <= c <= '9' || 'a' <= c <= 'f'
  }

  function HexValue(c: char): (d: int)
    requires IsHexDigit(c)
    ensures 0 <= d < 16 && HexDigit(d) == c
  {
    if c <= '9' then (c - '0') as int else (c - 'a') as int + 10
  }

  /** The last `k` hex digits. */
  function Hex(n: nat, k: nat): (s: string)
    ensures |s| == k && forall c :: c in s ==> IsHexDigit(c)
    decreases k
  {
    if k == 0 then "" else Hex(n / 16, k - 1) + [HexDigit(n % 16)]
  }

  function Unhex(s: string): (n: nat)
    requires forall c :: c in s ==> IsHexDigit(c)
  {
    if s == [] then 0 else Unhex(s[..|s| - 1]) * 16 + HexValue(s[|s| - 1])
  }

  lemma Pow16(k: nat)
    ensures Pow2(k + 4) == 16 * Pow2(k)
  {
    assert Pow2(k + 2) == 2 * Pow2(k + 1) == 4 * Pow2(k);
    assert Pow2(k + 4) == 2 * Pow2(k + 3) == 4 * Pow2(k + 2);
  }

  lemma {:induction false} UnhexBelow(s: string)
    requires forall c :: c in s ==> IsHexDigit(c)
    ensures Unhex(s) < Pow2(4 * |s|)
  {
    if s != [] {
      UnhexBelow(s[..|s| - 1]);
      Pow16(4 * (|s| - 1));
    }
  }

  lemma {:induction false} HexUnhex(s: string)
    requires forall c :: c in s ==> IsHexDigit(c)
    ensures Hex(Unhex(s), |s|) == s
  {
    if s != [] {
      HexUnhex(s[..|s| - 1]);
      assert s == s[..|s| - 1] + [s[|s| - 1]];
    }
  }

  lemma {:induction false} UnhexHex(n: nat, k: nat)
    requires n < Pow2(4 * k)
    ensures Unhex(Hex(n, k)) == n
    decreases k
  {
    if k > 0 {
      Pow16(4 * (k - 1));
      UnhexHex(n / 16, k - 1);
      var s := Hex(n, k);
      assert s[..k - 1] == Hex(n / 16, k - 1);
      assert HexValue(HexDigit(n % 16)) == n % 16;
    }
  }

  function Print(digest: U128): string {
    PREFIX + Hex(digest, DIGITS)
  }

  datatype Result = Ok(id: string) | ProjectIdShape(got: string) | PathNotUnicode

  function Parse(s: string): Result {
    if PREFIX <= s && |s| == |PREFIX| + DIGITS && forall c :: c in s[|PREFIX|..] ==> IsHexDigit(c) then Ok(s)
    else ProjectIdShape(s)
  }

  /** Every digest prints to an id that is accepted, as it is; every id that is accepted is one digest's, and one's only. */
  lemma PrintsExactly(s: string, d: U128, e: U128)
    ensures Parse(Print(d)) == Ok(Print(d))
    ensures Print(d) == Print(e) <==> d == e
    ensures Parse(s).Ok? ==> exists x: U128 :: Print(x) == s
  {
    Printed(d);
    Printed(e);
    if Parse(s).Ok? {
      AcceptedPrinted(s);
    }
  }

  lemma Printed(d: U128)
    ensures Parse(Print(d)) == Ok(Print(d)) && Unhex(Print(d)[|PREFIX|..]) == d
  {
    Pow128();
    UnhexHex(d, DIGITS);
    assert Print(d)[|PREFIX|..] == Hex(d, DIGITS);
  }

  lemma AcceptedPrinted(s: string)
    requires Parse(s).Ok?
    ensures exists x: U128 :: Print(x) == s
  {
    Pow128();
    var digits := s[|PREFIX|..];
    UnhexBelow(digits);
    HexUnhex(digits);
    assert s == PREFIX + digits;
    assert Print(Unhex(digits)) == s;
  }

  // ----- One spelling of a path -----

  /** `\\?\`. */
  const VERBATIM := ['\\', '\\', '?', '\\']

  /** `UNC\`. */
  const UNC := ['U', 'N', 'C', '\\']

  function TrimEnd(s: string, c: char): string {
    if s != [] && s[|s| - 1] == c then TrimEnd(s[..|s| - 1], c) else s
  }

  function Strip(path: string): string {
    if !(VERBATIM <= path) then path
    else if UNC <= path[4..] then ['\\', '\\'] + path[8..]
    else path[4..]
  }

  /** One separator, and ASCII letters in lower case. */
  function Fold(c: char): char {
    if c == '/' then '\\' else if 'A' <= c <= 'Z' then c + 32 as char else c
  }

  function FoldAll(s: string): (r: string)
    ensures |r| == |s| && forall i :: 0 <= i < |s| ==> r[i] == Fold(s[i])
  {
    if s == [] then [] else [Fold(s[0])] + FoldAll(s[1..])
  }

  function Normalise(path: string, windows: bool): string {
    if windows then TrimEnd(FoldAll(Strip(path)), '\\') else TrimEnd(path, '/')
  }

  lemma {:induction false} Trimmed(s: string, c: char)
    ensures var t := TrimEnd(s, c);
      && t <= s && (t == [] || t[|t| - 1] != c) && (forall i :: |t| <= i < |s| ==> s[i] == c)
      && (s == [] || s[|s| - 1] != c ==> t == s)
    ensures TrimEnd(s + [c], c) == TrimEnd(s, c)
  {
    assert (s + [c])[..|s|] == s;
    if s != [] && s[|s| - 1] == c {
      Trimmed(s[..|s| - 1], c);
    }
  }

  predicate Separator(c: char) {
    c == '/' || c == '\\'
  }

  /** The verbatim prefix, spelled with either separator, before something that is not one. */
  predicate Disguised(s: string) {
    && |s| > 4 && Separator(s[0]) && Separator(s[1]) && s[2] == '?' && Separator(s[3])
    && exists i :: 4 <= i < |s| && !Separator(s[i])
  }

  /**
    * Normalising a path again changes nothing; except on Windows, exactly when what is left after the verbatim prefix
    * is stripped is itself a verbatim prefix once its separators are folded.
    */
  lemma NormalisedTwice(path: string, windows: bool)
    ensures Normalise(Normalise(path, windows), windows) == Normalise(path, windows)
            <==> !(windows && Disguised(Strip(path)))
  {
    if windows {
      var s := Strip(path);
      NormalForm(s);
      SecondTime(TrimEnd(FoldAll(s), '\\'));
      DisguisedExactly(s);
    } else {
      Trimmed(path, '/');
      Trimmed(TrimEnd(path, '/'), '/');
    }
  }

  lemma NormalForm(s: string)
    ensures var n := TrimEnd(FoldAll(s), '\\');
      FoldAll(n) == n && TrimEnd(n, '\\') == n && (|n| > 4 ==> n[4] != 'U')
  {
    var f := FoldAll(s);
    var n := TrimEnd(f, '\\');
    Trimmed(f, '\\');
    Trimmed(n, '\\');
    forall i | 0 <= i < |n| ensures Fold(n[i]) == n[i] && n[i] != 'U' {
      FoldTwice(s[i]);
    }
    assert FoldAll(n) == n;
  }

  lemma FoldTwice(c: char)
    ensures Fold(Fold(c)) == Fold(c) && Fold(c) != 'U'
  {
  }

  lemma SecondTime(n: string)
    requires FoldAll(n) == n && TrimEnd(n, '\\') == n && (|n| > 4 ==> n[4] != 'U')
    ensures Normalise(n, true) == n <==> !(VERBATIM <= n)
  {
    if VERBATIM <= n {
      assert !(UNC <= n[4..]);
      Trimmed(FoldAll(n[4..]), '\\');
    }
  }

  lemma DisguisedExactly(s: string)
    ensures VERBATIM <= TrimEnd(FoldAll(s), '\\') <==> Disguised(s)
  {
    var f := FoldAll(s);
    var n := TrimEnd(f, '\\');
    Trimmed(f, '\\');
    assert forall i :: 0 <= i < |s| ==> (f[i] == '\\' <==> Separator(s[i])) && (f[i] == '?' <==> s[i] == '?');
    assert VERBATIM <= n <==> |n| >= 4 && n[0] == '\\' && n[1] == '\\' && n[2] == '?' && n[3] == '\\';
    if VERBATIM <= n {
      assert |n| > 4;
      assert !Separator(s[|n| - 1]);
    }
  }

  /** Such a path: its second normal form is not its first. */
  lemma NotIdempotent()
    ensures Normalise(Normalise("//?/C:/x", true), true) != Normalise("//?/C:/x", true)
  {
    var p := "//?/C:/x";
    assert p[0] != VERBATIM[0] && Strip(p) == p;
    assert !Separator(p[4]);
    NormalisedTwice(p, true);
  }

  /** A separator at the end changes nothing, unless it completes the prefix that is stripped. */
  lemma TrailingSeparator(path: string)
    ensures Normalise(path + ['/'], false) == Normalise(path, false)
    ensures Normalise(path + ['/'], true) == Normalise(path, true)
    ensures Normalise(path + ['\\'], true) == Normalise(path, true) <==> path != VERBATIM[..3] && path != VERBATIM + UNC[..3]
  {
    Trimmed(path, '/');
    Trailing(path, '/');
    if path == VERBATIM[..3] || path == VERBATIM + UNC[..3] {
      Completed(path);
    } else {
      Trailing(path, '\\');
    }
  }

  lemma Trailing(path: string, c: char)
    requires Separator(c) && (c == '\\' ==> path != VERBATIM[..3] && path != VERBATIM + UNC[..3])
    ensures Normalise(path + [c], true) == Normalise(path, true)
  {
    StripOn(path, c);
    var f := FoldAll(Strip(path));
    assert FoldAll(Strip(path) + [c]) == f + ['\\'];
    Trimmed(f, '\\');
  }

  lemma StripOn(path: string, c: char)
    requires Separator(c) && (c == '\\' ==> path != VERBATIM[..3] && path != VERBATIM + UNC[..3])
    ensures Strip(path + [c]) == Strip(path) + [c]
  {
    PrefixOn(VERBATIM, path, c);
    if VERBATIM <= path {
      assert path == VERBATIM + path[4..] && (path + [c])[4..] == path[4..] + [c];
      PrefixOn(UNC, path[4..], c);
      if UNC <= path[4..] {
        assert (path + [c])[8..] == path[8..] + [c];
      }
    }
  }

  lemma PrefixOn(p: string, s: string, c: char)
    ensures p <= s + [c] <==> p <= s || p == s + [c]
    ensures p == s + [c] ==> |p| > 0 && s == p[..|p| - 1] && c == p[|p| - 1]
  {
  }

  /** Completing the prefix leaves nothing; not completing it leaves what was there. */
  lemma Completed(path: string)
    requires path == VERBATIM[..3] || path == VERBATIM + UNC[..3]
    ensures Normalise(path + ['\\'], true) == [] != Normalise(path, true)
  {
    var whole := path + ['\\'];
    var f := FoldAll(Strip(path));
    if path == VERBATIM[..3] {
      assert whole == VERBATIM && Strip(whole) == [];
    } else {
      assert whole == VERBATIM + UNC && whole[4..] == UNC && whole[8..] == [];
      assert Strip(whole) == ['\\', '\\'];
      assert path[4..] == UNC[..3];
    }
    Trimmed(FoldAll(Strip(whole)), '\\');
    assert |f| == 3 && f[2] != '\\';
    Trimmed(f, '\\');
  }

  // ----- From a path to its id -----

  /** A string's UTF-8 bytes, spelled as characters. */
  type Text = s: string | forall c :: c in s ==> c as int < 256

  lemma NormaliseText(path: Text, windows: bool)
    ensures forall c :: c in Normalise(path, windows) ==> c as int < 256
  {
    if windows {
      StripText(path);
      var f := FoldAll(Strip(path));
      forall i | 0 <= i < |f| ensures f[i] as int < 256 {
        assert Strip(path)[i] in Strip(path) && f[i] == Fold(Strip(path)[i]);
      }
      Trimmed(f, '\\');
    } else {
      Trimmed(path, '/');
    }
  }

  lemma StripText(path: Text)
    ensures forall c :: c in Strip(path) ==> c as int < 256
  {
    forall c | c in Strip(path) ensures c == '\\' || c in path {
      if c != '\\' && VERBATIM <= path {
        assert c in if UNC <= path[4..] then path[8..] else path[4..];
      }
    }
  }

  function Bytes(s: Text): (bytes: seq<Byte>)
    ensures |bytes| == |s| && forall i :: 0 <= i < |s| ==> bytes[i] == s[i] as int
  {
    if s == [] then [] else [s[0] as int] + Bytes(s[1..])
  }

  function Key(path: Text, windows: bool): seq<Byte> {
    NormaliseText(path, windows);
    Bytes(Normalise(path, windows))
  }

  /** A path that is not Unicode has no text, and no id. */
  function FromCanonicalPath(path: Option<Text>, windows: bool): Result {
    if path.None? then PathNotUnicode else Ok(Print(DigestOf(Key(path.value, windows))))
  }

  /** Every id made is one that can be read; two are the same exactly when the digests are, so never when one byte differs. */
  lemma IdsExactly(a: Text, b: Text, windows: bool)
    ensures var (x, y) := (FromCanonicalPath(Some(a), windows), FromCanonicalPath(Some(b), windows));
      && x.Ok? && Parse(x.id) == x
      && (x == y <==> DigestOf(Key(a, windows)) == DigestOf(Key(b, windows)))
    ensures var (p, q) := (Normalise(a, windows), Normalise(b, windows));
      |p| == |q| && (exists i :: 0 <= i < |p| && p[..i] == q[..i] && p[i] != q[i] && p[i + 1..] == q[i + 1..])
      ==> FromCanonicalPath(Some(a), windows) != FromCanonicalPath(Some(b), windows)
  {
    var p, q := Key(a, windows), Key(b, windows);
    PrintsExactly([], DigestOf(p), DigestOf(q));
    var s, t := Normalise(a, windows), Normalise(b, windows);
    if |s| == |t| && exists i :: 0 <= i < |s| && s[..i] == t[..i] && s[i] != t[i] && s[i + 1..] == t[i + 1..] {
      var i :| 0 <= i < |s| && s[..i] == t[..i] && s[i] != t[i] && s[i + 1..] == t[i + 1..];
      forall j | 0 <= j < |p| && j != i ensures p[j] == q[j] {
        if j < i {
          assert s[..i][j] == t[..i][j];
        } else {
          assert s[i + 1..][j - i - 1] == t[i + 1..][j - i - 1];
        }
      }
      OneByteTells(p, q, i);
    }
  }
}
