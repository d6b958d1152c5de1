/** What normalising a path makes of it, character by character, and how an id is spelled. */
module PathSpellings {
  import opened Prelude
  import opened ProjectIds

  /** On Unix only separators at the end go, and all of them. */
  lemma UnixExactly(path: string)
    ensures var n := Normalise(path, false);
      && n <= path && (n != [] ==> n[|n| - 1] != '/')
      && forall i :: |n| <= i < |path| ==> path[i] == '/'
  {
    Trimmed(path, '/');
  }

  /** ASCII letters in lower case, and nothing else changed. */
  function LowerCase(c: char): char {
    if 'A' <= c <= 'Z' then c + ('a' - 'A') else c
  }

  /** On Windows a separator is a backslash and a letter is in lower case; separators at the end go, and all of them. */
  lemma WindowsExactly(path: string)
    ensures var (n, s) := (Normalise(path, true), Strip(path));
      && |n| <= |s| && (n != [] ==> n[|n| - 1] != '\\')
      && (forall i :: 0 <= i < |n| ==> n[i] == if s[i] == '/' then '\\' else LowerCase(s[i]))
      && forall i :: |n| <= i < |s| ==> s[i] == '/' || s[i] == '\\'
  {
    var f := FoldAll(Strip(path));
    Trimmed(f, '\\');
    assert forall i :: 0 <= i < |f| ==> f[i] == Fold(Strip(path)[i]);
  }

  /** The verbatim prefix goes, once; the share it is spelled for keeps its two separators. */
  lemma StripExactly(path: string, rest: string)
    ensures path == ['\\', '\\', '?', '\\', 'U', 'N', 'C', '\\'] + rest ==> Strip(path) == ['\\', '\\'] + rest
    ensures path == ['\\', '\\', '?', '\\'] + rest && !(['U', 'N', 'C', '\\'] <= rest) ==> Strip(path) == rest
    ensures !(['\\', '\\', '?', '\\'] <= path) ==> Strip(path) == path
  {
    if path == ['\\', '\\', '?', '\\', 'U', 'N', 'C', '\\'] + rest {
      assert path[4..] == UNC + rest && path[8..] == rest;
    } else if path == ['\\', '\\', '?', '\\'] + rest {
      assert path[4..] == rest;
    }
  }

  predicate SameButCase(a: string, b: string) {
    |a| == |b| && forall i :: 0 <= i < |a| ==> LowerCase(a[i]) == LowerCase(b[i])
  }

  predicate ToAShare(path: string) {
    VERBATIM + UNC <= path
  }

  /**
    * Paths that differ in the case of ASCII letters alone are one path on Windows, exactly unless one of them is a
    * verbatim share, spelled in capitals, and the other is not.
    */
  lemma CaseExactly(a: string, b: string)
    requires SameButCase(a, b)
    ensures Normalise(a, true) == Normalise(b, true) <==> (ToAShare(a) <==> ToAShare(b))
  {
    SamePrefix(a, b);
    if ToAShare(a) <==> ToAShare(b) {
      SameStripped(a, b);
    } else if ToAShare(a) {
      ShareIsNot(a, b);
    } else {
      ShareIsNot(b, a);
    }
  }

  /** The prefix has no letter in it. */
  lemma SamePrefix(a: string, b: string)
    requires SameButCase(a, b)
    ensures VERBATIM <= a <==> VERBATIM <= b
  {
    assert forall c :: c in VERBATIM ==> forall d :: LowerCase(d) == LowerCase(c) ==> d == c;
    if VERBATIM <= a {
      assert forall i :: 0 <= i < 4 ==> a[i] == VERBATIM[i];
      assert b[..4] == VERBATIM;
    }
    if VERBATIM <= b {
      assert forall i :: 0 <= i < 4 ==> b[i] == VERBATIM[i];
      assert a[..4] == VERBATIM;
    }
  }

  lemma SameStripped(a: string, b: string)
    requires SameButCase(a, b) && (VERBATIM <= a <==> VERBATIM <= b) && (ToAShare(a) <==> ToAShare(b))
    ensures Normalise(a, true) == Normalise(b, true)
  {
    ShareIs(a);
    ShareIs(b);
    var s, t := Strip(a), Strip(b);
    assert |s| == |t| && forall i :: 0 <= i < |s| ==> LowerCase(s[i]) == LowerCase(t[i]);
    assert forall i :: 0 <= i < |s| ==> Fold(s[i]) == Fold(t[i]);
    assert FoldAll(s) == FoldAll(t);
  }

  lemma ShareIs(path: string)
    ensures ToAShare(path) <==> VERBATIM <= path && UNC <= path[4..]
    ensures ToAShare(path) ==> Strip(path) == ['\\', '\\'] + path[8..]
  {
    if VERBATIM <= path {
      assert path == VERBATIM + path[4..];
      assert ToAShare(path) <==> VERBATIM + UNC <= VERBATIM + path[4..];
      PrefixTwice(VERBATIM, UNC, path[4..]);
    }
    if ToAShare(path) {
      assert path[..4] == (VERBATIM + UNC)[..4];
    }
  }

  lemma PrefixTwice(a: string, b: string, rest: string)
    ensures a + b <= a + rest <==> b <= rest
  {
    if a + b <= a + rest {
      assert (a + rest)[|a|..|a| + |b|] == (a + b)[|a|..];
    }
    if b <= rest {
      assert a + rest == a + b + rest[|b|..];
    }
  }

  lemma ShareIsNot(share: string, path: string)
    requires SameButCase(share, path) && ToAShare(share) && !ToAShare(path) && VERBATIM <= path
    ensures Normalise(share, true) != Normalise(path, true)
  {
    ShareIs(share);
    ShareIs(path);
    var s, p := FoldAll(Strip(share)), FoldAll(Strip(path));
    Trimmed(s, '\\');
    Trimmed(p, '\\');
    assert s[0] == '\\';
    assert Strip(path) == path[4..] && share[4] == 'U' && LowerCase(path[4]) == 'u';
    assert p[0] == 'u' && TrimEnd(p, '\\')[0] == 'u';
  }

  // ----- Hex -----

  function Pow16Of(k: nat): (p: nat)
    ensures p > 0
  {
    if k == 0 then 1 else 16 * Pow16Of(k - 1)
  }

  /** The digits are the usual ones, most significant first. */
  lemma {:induction false} HexAt(n: nat, k: nat, i: nat)
    requires i < k
    ensures Hex(n, k)[i] == "0123456789abcdef"[n / Pow16Of(k - 1 - i) % 16]
    decreases k
  {
    var s := Hex(n, k);
    assert s == Hex(n / 16, k - 1) + [HexDigit(n % 16)];
    if i == k - 1 {
      assert Pow16Of(0) == 1;
      UsualDigit(n % 16);
    } else {
      HexAt(n / 16, k - 1, i);
      DivTwice(n, Pow16Of(k - 2 - i));
    }
  }

  lemma UsualDigit(d: int)
    requires 0 <= d < 16
    ensures HexDigit(d) == "0123456789abcdef"[d]
  {
  }

  lemma DivTwice(n: nat, p: nat)
    requires p > 0
    ensures n / 16 / p == n / (16 * p)
  {
    var q, r := n / 16, n % 16;
    var t, u := q / p, q % p;
    assert n == 16 * (t * p + u) + r == t * (16 * p) + (16 * u + r);
    assert 0 <= 16 * u + r < 16 * p;
    Quotient(n, 16 * p, t, 16 * u + r);
  }

  lemma Quotient(n: nat, d: nat, q: nat, r: nat)
    requires n == q * d + r && r < d
    ensures n / d == q
  {
    var k, m := n / d, n % d;
    assert (q - k) * d == m - r;
    Within(q - k, d, m - r);
  }

  lemma Within(k: int, d: int, x: int)
    requires k * d == x && -d < x < d
    ensures k == 0
  {
  }

  /** An id is the prefix and 32 lower case hex digits, and so is whatever is accepted. */
  lemma IdShape(d: U128, s: string)
    ensures Print(d) == "proj_" + Hex(d, 32)
    ensures Parse(s) == Ok(s) <==>
      |s| == 37 && s[..5] == "proj_" && forall i :: 5 <= i < 37 ==> '0' <= s[i] <= '9' || 'a' <= s[i] <= 'f'
    ensures Parse(s) == Ok(s) || Parse(s) == ProjectIdShape(s)
  {
    if |s| == 37 {
      var digits := s[5..];
      assert PREFIX <= s <==> s[..5] == "proj_";
      forall i | 5 <= i < 37 ensures s[i] == digits[i - 5] && s[i] in digits {
      }
      assert forall c :: c in digits ==> exists i :: 0 <= i < 32 && digits[i] == c && s[i + 5] == c;
    }
  }
}
