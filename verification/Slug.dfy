/** A branch name as one directory component: lossy, because the name is a location and never a key. */
module Slug {
  import opened Prelude

  const MAX_SLUG_BYTES := 60

  /** The 22 names Windows keeps for devices, in lower case. */
  predicate Device(s: string) {
    || s == "con" || s == "prn" || s == "aux" || s == "nul"
    || (|s| == 4 && (s[..3] == "com" || s[..3] == "lpt") && '1' <= s[3] <= '9')
  }

  predicate Upper(c: char) {
    'A' <= c <= 'Z'
  }

  /** What is kept as it is: ASCII letters and digits, and three punctuation marks. */
  predicate Kept(c: char) {
    'a' <= c <= 'z' || Upper(c) || '0' <= c <= '9' || Edge(c) || c == '_'
  }

  /** What is trimmed from both ends. */
  predicate Edge(c: char) {
    c == '-' || c == '.'
  }

  predicate Clean(s: string) {
    forall c :: c in s ==> Kept(c)
  }

  /** One more character of the branch: itself, or a `-` that never doubles. */
  function Push(slug: string, c: char): string {
    if Kept(c) then slug + [c]
    else if slug == [] || slug[|slug| - 1] != '-' then slug + ['-']
    else slug
  }

  /** Push characters until there are none left or the slug is long enough. */
  function Squeeze(branch: string, slug: string): string
    decreases |branch|
  {
    if branch == [] then slug
    else
      var longer := Push(slug, branch[0]);
      if |longer| >= MAX_SLUG_BYTES then longer else Squeeze(branch[1..], longer)
  }

  function TrimStart(s: string): string {
    if s != [] && Edge(s[0]) then TrimStart(s[1..]) else s
  }

  function TrimEnd(s: string): string {
    if s != [] && Edge(s[|s| - 1]) then TrimEnd(s[..|s| - 1]) else s
  }

  /** Nothing to trim at either end. */
  predicate Trimmed(s: string) {
    s != [] ==> !Edge(s[0]) && !Edge(s[|s| - 1])
  }

  function Core(branch: string): string {
    TrimEnd(TrimStart(Squeeze(branch, [])))
  }

  /** Up to the first dot. */
  function Stem(s: string): string {
    if s == [] || s[0] == '.' then [] else [s[0]] + Stem(s[1..])
  }

  function Lower(s: string): string {
    if s == [] then [] else [if Upper(s[0]) then s[0] + 32 as char else s[0]] + Lower(s[1..])
  }

  /** A name Windows keeps for a device, whatever extension it has. */
  predicate Reserved(s: string) {
    Device(Lower(Stem(s)))
  }

  function SlugOf(branch: string): string {
    var core := Core(branch);
    if core == [] then "branch"
    else if Reserved(core) then core + "-branch"
    else core
  }

  method MakeSlug(branch: string) returns (slug: string)
    ensures slug == SlugOf(branch)
  {
    slug := [];
    for i := 0 to |branch|
      invariant i < |branch| ==> Squeeze(branch[i..], slug) == Squeeze(branch, [])
      invariant i == |branch| ==> slug == Squeeze(branch, [])
    {
      assert branch[i..][0] == branch[i] && branch[i..][1..] == branch[i + 1..];
      if Kept(branch[i]) {
        slug := slug + [branch[i]];
      } else if slug == [] || slug[|slug| - 1] != '-' {
        slug := slug + ['-'];
      }
      if |slug| >= MAX_SLUG_BYTES {
        break;
      }
    }
    slug := TrimEnd(TrimStart(slug));
    if slug == [] {
      return "branch";
    }
    if Reserved(slug) {
      return slug + "-branch";
    }
  }

  // ----- What every slug is -----

  lemma {:induction false} SqueezeShape(branch: string, slug: string)
    requires Clean(slug) && |slug| < MAX_SLUG_BYTES
    ensures Clean(Squeeze(branch, slug)) && |Squeeze(branch, slug)| <= MAX_SLUG_BYTES
    decreases |branch|
  {
    if branch != [] {
      var longer := Push(slug, branch[0]);
      if |longer| < MAX_SLUG_BYTES {
        SqueezeShape(branch[1..], longer);
      }
    }
  }

  lemma {:induction false} TrimStartShape(s: string)
    ensures var t := TrimStart(s);
      && |t| <= |s| && t == s[|s| - |t|..] && (t != [] ==> !Edge(t[0])) && (s == [] || !Edge(s[0]) ==> t == s)
  {
    if s != [] && Edge(s[0]) {
      TrimStartShape(s[1..]);
    }
  }

  lemma {:induction false} TrimEndShape(s: string)
    ensures var t := TrimEnd(s);
      && t <= s && (t != [] ==> !Edge(t[|t| - 1])) && (s == [] || !Edge(s[|s| - 1]) ==> t == s)
  {
    if s != [] && Edge(s[|s| - 1]) {
      TrimEndShape(s[..|s| - 1]);
    }
  }

  lemma CoreShape(branch: string)
    ensures Clean(Core(branch)) && Trimmed(Core(branch)) && |Core(branch)| <= MAX_SLUG_BYTES
  {
    var s := Squeeze(branch, []);
    SqueezeShape(branch, []);
    TrimStartShape(s);
    TrimEndShape(TrimStart(s));
  }

  /** One component, never hidden, never `.` or `..`, and bounded whatever the branch is called. */
  lemma SlugShape(branch: string)
    ensures var s := SlugOf(branch);
      && s != [] && Clean(s) && Trimmed(s)
      && |s| <= MAX_SLUG_BYTES + (if Reserved(Core(branch)) then 7 else 0)
    ensures var s := SlugOf(branch);
      && |s| <= 60 + (if Reserved(Core(branch)) then 7 else 0) && s[0] != '.' && s[0] != '-' && s[|s| - 1] != '.' && s[|s| - 1] != '-'
      && forall c :: c in s ==> 'a' <= c <= 'z' || 'A' <= c <= 'Z' || '0' <= c <= '9' || c == '.' || c == '_' || c == '-'
  {
    CoreShape(branch);
  }

  // ----- What is kept and what is not -----

  /** The 22 names. */
  lemma DeviceNames(s: string)
    ensures Device(s) <==> s in ["con", "prn", "aux", "nul"] || s in Numbered("com") || s in Numbered("lpt")
  {
    if |s| == 4 {
      assert s == s[..3] + [s[3]];
    }
    NumberedIs("com", s);
    NumberedIs("lpt", s);
  }

  function Numbered(s: string): seq<string> {
    [s + "1", s + "2", s + "3", s + "4", s + "5", s + "6", s + "7", s + "8", s + "9"]
  }

  lemma NumberedIs(name: string, s: string)
    requires |name| == 3
    ensures s in Numbered(name) <==> |s| == 4 && s[..3] == name && '1' <= s[3] <= '9'
  {
    if |s| == 4 && s[..3] == name && '1' <= s[3] <= '9' {
      assert s == name + [s[3]];
      assert s == Numbered(name)[s[3] as int - '1' as int];
    }
  }

  /** A name of one component's characters, trimmed, short and not a device's is a slug already. */
  lemma KeptAsItIs(name: string)
    requires name != [] && |name| <= 60
    requires forall c :: c in name ==>
      'a' <= c <= 'z' || 'A' <= c <= 'Z' || '0' <= c <= '9' || c == '.' || c == '_' || c == '-'
    requires name[0] != '.' && name[0] != '-' && name[|name| - 1] != '.' && name[|name| - 1] != '-'
    ensures SlugOf(name) == if Device(Lower(Stem(name))) then name + "-branch" else name
  {
    assert Clean(name) && Trimmed(name);
    CoreClean(name);
    CoreIsSlug(name);
  }

  lemma CoreIsSlug(branch: string)
    requires Core(branch) != []
    ensures SlugOf(branch) == if Reserved(Core(branch)) then Core(branch) + "-branch" else Core(branch)
  {
  }

  /** Lower case is what it says, and a stem ends at the first dot. */
  lemma {:induction false} LowerStem(s: string)
    ensures |Lower(s)| == |s|
    ensures forall i :: 0 <= i < |s| ==> Lower(s)[i] == if 'A' <= s[i] <= 'Z' then s[i] + ('a' - 'A') else s[i]
    ensures Stem(s) <= s && '.' !in Stem(s) && (|Stem(s)| < |s| ==> s[|Stem(s)|] == '.')
  {
    if s != [] {
      LowerStem(s[1..]);
    }
  }

  lemma {:induction false} SqueezeRun(run: string, rest: string, slug: string)
    requires slug != [] && slug[|slug| - 1] == '-' && |slug| < MAX_SLUG_BYTES && forall c :: c in run ==> !Kept(c)
    ensures Squeeze(run + rest, slug) == Squeeze(rest, slug)
    decreases |run|
  {
    if run == [] {
      assert run + rest == rest;
    } else {
      assert (run + rest)[1..] == run[1..] + rest;
      SqueezeRun(run[1..], rest, slug);
    }
  }

  /** A run of other characters, however long, is one `-`. */
  lemma RunIsOneDash(a: string, run: string, rest: string)
    requires Clean(a) && |a| < MAX_SLUG_BYTES && (a == [] || a[|a| - 1] != '-')
    requires run != [] && forall c :: c in run ==> !Kept(c)
    ensures SlugOf(a + (run + rest)) == SlugOf(a + (['-'] + rest))
  {
    SqueezeFrom([], a, run + rest);
    SqueezeFrom([], a, ['-'] + rest);
    assert [] + a == a && (run + rest)[0] == run[0] && (run + rest)[1..] == run[1..] + rest;
    assert (['-'] + rest)[1..] == rest;
    if |a| + 1 < MAX_SLUG_BYTES {
      SqueezeRun(run[1..], rest, a + ['-']);
    }
  }

  // ----- A slug of a slug -----

  /** Squeezing a clean string only shortens it. */
  lemma {:induction false} SqueezeClean(rest: string, slug: string)
    requires Clean(rest) && |slug| < MAX_SLUG_BYTES
    ensures Squeeze(rest, slug) == if |slug| + |rest| <= MAX_SLUG_BYTES then slug + rest
                                   else slug + rest[..MAX_SLUG_BYTES - |slug|]
    decreases |rest|
  {
    if rest == [] {
      assert slug + rest == slug;
    } else {
      var longer := slug + [rest[0]];
      assert slug + rest == longer + rest[1..];
      if |longer| < MAX_SLUG_BYTES {
        SqueezeClean(rest[1..], longer);
        if |slug| + |rest| > MAX_SLUG_BYTES {
          assert slug + rest[..MAX_SLUG_BYTES - |slug|] == longer + rest[1..][..MAX_SLUG_BYTES - |longer|];
        }
      } else if |slug| + |rest| > MAX_SLUG_BYTES {
        assert rest[..1] == [rest[0]];
      }
    }
  }

  lemma CoreClean(s: string)
    requires Clean(s)
    ensures Trimmed(s) && |s| <= MAX_SLUG_BYTES ==> Core(s) == s
    ensures |s| > MAX_SLUG_BYTES ==> Core(s) == TrimEnd(TrimStart(s[..MAX_SLUG_BYTES]))
  {
    SqueezeClean(s, []);
    assert [] + s == s;
    if |s| > MAX_SLUG_BYTES {
      assert [] + s[..MAX_SLUG_BYTES] == s[..MAX_SLUG_BYTES];
    } else {
      TrimStartShape(s);
      TrimEndShape(s);
    }
  }

  lemma {:induction false} StemShape(s: string, tail: string)
    ensures '.' in s ==> Stem(s + tail) == Stem(s)
    ensures '.' !in s ==> Stem(s) == s
    ensures |Lower(s)| == |s|
  {
    if s != [] {
      StemShape(s[1..], tail);
      assert (s + tail)[1..] == s[1..] + tail;
    }
  }

  /** Appending to a reserved name frees it exactly when it has no extension. */
  lemma ReservedSuffix(core: string)
    requires Reserved(core) && Clean(core)
    ensures Reserved(core + "-branch") <==> '.' in core
    ensures core != [] && ('.' !in core ==> |core| <= 4)
  {
    StemShape(core, "-branch");
    StemShape(core + "-branch", []);
    assert (core + "-branch") + [] == core + "-branch";
    StemShape(Stem(core), []);
    if '.' !in core {
      assert '.' !in core + "-branch";
    }
  }

  /** The result is still a reserved name exactly when the name it was made from was one with an extension. */
  lemma StillReserved(branch: string)
    ensures Reserved(SlugOf(branch)) <==> Reserved(Core(branch)) && '.' in Core(branch)
  {
    CoreShape(branch);
    if Core(branch) == [] {
      Reserved4("branch");
    } else if Reserved(Core(branch)) {
      ReservedSuffix(Core(branch));
    }
  }

  lemma NulTxt()
    ensures SlugOf("nul.txt") == "nul.txt" + "-branch" && Reserved(SlugOf("nul.txt"))
  {
    NulReserved();
    Suffixed("nul.txt");
  }

  lemma Suffixed(name: string)
    requires Clean(name) && Trimmed(name) && 0 < |name| <= MAX_SLUG_BYTES && Reserved(name) && '.' in name
    ensures SlugOf(name) == name + "-branch" && Reserved(SlugOf(name))
  {
    CoreClean(name);
    StillReserved(name);
  }

  lemma NulReserved()
    ensures Reserved("nul.txt") && Clean("nul.txt") && Trimmed("nul.txt") && '.' in "nul.txt"
  {
    assert "nul.txt"[3] == '.';
    assert Stem("nul.txt") == "nul" && Lower("nul") == "nul";
  }

  /** A clean beginning is squeezed to itself. */
  lemma {:induction false} SqueezeFrom(slug: string, head: string, rest: string)
    requires Clean(head) && |slug| + |head| < MAX_SLUG_BYTES
    ensures Squeeze(head + rest, slug) == Squeeze(rest, slug + head)
    decreases |head|
  {
    if head == [] {
      assert head + rest == rest && slug + head == slug;
    } else {
      assert (head + rest)[1..] == head[1..] + rest && slug + head == slug + [head[0]] + head[1..];
      SqueezeFrom(slug + [head[0]], head[1..], rest);
    }
  }

  /** Two branches, one name: why a worktree is never looked up by its directory. */
  lemma SlashAndDashCollide(a: string, b: string)
    requires Clean(a) && |a| < MAX_SLUG_BYTES && (a == [] || a[|a| - 1] != '-')
    ensures SlugOf(a + (['/'] + b)) == SlugOf(a + (['-'] + b))
  {
    SqueezeFrom([], a, ['/'] + b);
    SqueezeFrom([], a, ['-'] + b);
    assert [] + a == a;
    assert (['/'] + b)[1..] == b && (['-'] + b)[1..] == b;
    assert Push(a, '/') == a + ['-'] == Push(a, '-');
  }

  /** Only short stems are reserved. */
  lemma Reserved4(s: string)
    requires '.' !in s && |s| > 4
    ensures !Reserved(s)
  {
    StemShape(s, []);
  }

  /**
    * Slugging a slug again changes nothing, unless the name was a reserved one with an extension; and then
    * it changes it unless the name is so long that the cut takes the whole suffix off.
    */
  lemma FixedExactly(branch: string)
    ensures var core := Core(branch);
      SlugOf(SlugOf(branch)) == SlugOf(branch) <==> !(Reserved(core) && '.' in core && |core| < MAX_SLUG_BYTES - 1)
  {
    var core := Core(branch);
    CoreShape(branch);
    if core == [] {
      CoreClean("branch");
      Reserved4("branch");
    } else if !Reserved(core) {
      CoreClean(core);
    } else {
      ReservedSuffix(core);
      FixedReserved(core);
    }
  }

  lemma FixedReserved(core: string)
    requires Clean(core) && Trimmed(core) && 0 < |core| <= MAX_SLUG_BYTES && Reserved(core)
    ensures SlugOf(core + "-branch") == core + "-branch" <==> '.' !in core || |core| >= MAX_SLUG_BYTES - 1
  {
    var r := core + "-branch";
    ReservedSuffix(core);
    CoreClean(r);
    if |r| > MAX_SLUG_BYTES {
      var suffix := "-branch"[..MAX_SLUG_BYTES - |core|];
      assert r[..MAX_SLUG_BYTES] == core + suffix;
      SuffixEnds(|suffix|);
      CutCore(core, suffix);
    }
  }

  lemma SuffixEnds(k: nat)
    requires k <= 7
    ensures k > 1 ==> !Edge("-branch"[..k][k - 1])
    ensures k == 1 ==> "-branch"[..k] == "-"
  {
    if k > 1 {
      assert "-branch"[k - 1] in "branch";
    }
  }

  /** What is left of a suffixed name once it has been cut part of the way into the suffix. */
  lemma CutCore(core: string, suffix: string)
    requires Trimmed(core) && 0 < |core| && Reserved(core) && '.' in core
    requires suffix == [] || suffix == "-" || !Edge(suffix[|suffix| - 1])
    ensures var t := TrimEnd(TrimStart(core + suffix));
      t == (if |suffix| == 0 || suffix == "-" then core else core + suffix) && Reserved(t)
  {
    var s := core + suffix;
    StemShape(core, suffix);
    assert s[0] == core[0];
    TrimStartShape(s);
    TrimEndShape(core);
    if suffix == [] {
      assert s == core;
    } else if suffix == "-" {
      assert s[..|s| - 1] == core && s[|s| - 1] == '-';
    } else {
      assert s[|s| - 1] == suffix[|suffix| - 1];
      TrimEndShape(s);
    }
  }
}
