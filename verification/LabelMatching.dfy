/** Which labels compiled blocks give the files a pull request touches. Matching a glob is left to the caller. */
module LabelMatching {
  import opened Prelude
  import opened LabelConfig

  type Matcher = (Yaml, string) -> bool

  // ----- One glob key -----

  /** Whether `find` gives a file that is matched, or is not: the first one, and only if its name is not empty. */
  predicate Finds(m: Matcher, files: seq<string>, g: Yaml, wanted: bool) {
    exists i :: 0 <= i < |files| && m(g, files[i]) == wanted && files[i] != ""
                && forall j :: 0 <= j < i ==> m(g, files[j]) != wanted
  }

  /** What each of the four keys asks of the files. */
  predicate Holds(m: Matcher, files: seq<string>, c: FilesConfig) {
    match c.key
    case AnyGlobToAnyFile => exists g :: g in c.globs && Finds(m, files, g, true)
    case AnyGlobToAllFiles => exists g :: g in c.globs && !Finds(m, files, g, false)
    case AllGlobsToAnyFile => exists f :: f in files && forall g :: g in c.globs ==> m(g, f)
    case AllGlobsToAllFiles => forall f, g :: f in files && g in c.globs ==> m(g, f)
  }

  method FindFile(m: Matcher, files: seq<string>, g: Yaml, wanted: bool) returns (found: bool)
    ensures found == Finds(m, files, g, wanted)
  {
    for i := 0 to |files|
      invariant forall j :: 0 <= j < i ==> m(g, files[j]) != wanted
    {
      if m(g, files[i]) == wanted {
        return files[i] != "";
      }
    }
    return false;
  }

  method FindMismatchedGlob(m: Matcher, globs: seq<Yaml>, file: string) returns (found: bool)
    ensures found <==> exists g :: g in globs && !m(g, file)
  {
    for i := 0 to |globs|
      invariant forall j :: 0 <= j < i ==> m(globs[j], file)
    {
      if !m(globs[i], file) {
        return true;
      }
    }
    return false;
  }

  method AnyGlobMatchesAnyFile(m: Matcher, files: seq<string>, globs: seq<Yaml>) returns (r: bool)
    ensures r == Holds(m, files, FilesConfig(AnyGlobToAnyFile, globs))
  {
    for i := 0 to |globs|
      invariant forall j :: 0 <= j < i ==> !Finds(m, files, globs[j], true)
    {
      var matched := FindFile(m, files, globs[i], true);
      if matched {
        assert globs[i] in globs;
        return true;
      }
    }
    return false;
  }

  method AllGlobsMatchAnyFile(m: Matcher, files: seq<string>, globs: seq<Yaml>) returns (r: bool)
    ensures r == Holds(m, files, FilesConfig(AllGlobsToAnyFile, globs))
  {
    for i := 0 to |files|
      invariant forall j :: 0 <= j < i ==> exists g :: g in globs && !m(g, files[j])
    {
      var mismatched := FindMismatchedGlob(m, globs, files[i]);
      if !mismatched {
        assert files[i] in files;
        return true;
      }
    }
    return false;
  }

  method AnyGlobMatchesAllFiles(m: Matcher, files: seq<string>, globs: seq<Yaml>) returns (r: bool)
    ensures r == Holds(m, files, FilesConfig(AnyGlobToAllFiles, globs))
  {
    for i := 0 to |globs|
      invariant forall j :: 0 <= j < i ==> Finds(m, files, globs[j], false)
    {
      var mismatched := FindFile(m, files, globs[i], false);
      if !mismatched {
        assert globs[i] in globs;
        return true;
      }
    }
    return false;
  }

  method AllGlobsMatchAllFiles(m: Matcher, files: seq<string>, globs: seq<Yaml>) returns (r: bool)
    ensures r == Holds(m, files, FilesConfig(AllGlobsToAllFiles, globs))
  {
    for i := 0 to |files|
      invariant forall j, g :: 0 <= j < i && g in globs ==> m(g, files[j])
    {
      var mismatched := FindMismatchedGlob(m, globs, files[i]);
      if mismatched {
        return false;
      }
    }
    return true;
  }

  /** With no empty file name, the two keys that look for a file mean what they say. */
  lemma PlainMeaning(m: Matcher, files: seq<string>, globs: seq<Yaml>)
    requires "" !in files
    ensures Holds(m, files, FilesConfig(AnyGlobToAnyFile, globs)) <==> exists g, f :: g in globs && f in files && m(g, f)
    ensures Holds(m, files, FilesConfig(AnyGlobToAllFiles, globs)) <==> exists g :: g in globs && forall f :: f in files ==> m(g, f)
  {
    forall g | g in globs
      ensures Finds(m, files, g, true) <==> exists f :: f in files && m(g, f)
      ensures Finds(m, files, g, false) <==> exists f :: f in files && !m(g, f)
    {
      PlainFinds(m, files, g, true);
      PlainFinds(m, files, g, false);
    }
  }

  lemma PlainFinds(m: Matcher, files: seq<string>, g: Yaml, wanted: bool)
    requires "" !in files
    ensures Finds(m, files, g, wanted) <==> exists f :: f in files && m(g, f) == wanted
  {
    if f :| f in files && m(g, f) == wanted {
      var i := First(m, files, g, wanted);
    }
  }

  lemma {:induction false} First(m: Matcher, files: seq<string>, g: Yaml, wanted: bool) returns (i: nat)
    requires exists f :: f in files && m(g, f) == wanted
    ensures i < |files| && m(g, files[i]) == wanted && forall j :: 0 <= j < i ==> m(g, files[j]) != wanted
  {
    i := 0;
    if m(g, files[0]) != wanted {
      var f :| f in files && m(g, f) == wanted;
      assert f in files[1..];
      i := First(m, files[1..], g, wanted);
      i := i + 1;
    }
  }

  /** With one, they need not: a match that is found on the empty name counts as no match, and a mismatch as none. */
  lemma EmptyNames(g: Yaml)
    ensures !Holds((_, _) => true, [""], FilesConfig(AnyGlobToAnyFile, [g]))
    ensures Holds((_, _) => false, [""], FilesConfig(AnyGlobToAllFiles, [g]))
  {
    assert g in [g];
  }

  // ----- Blocks -----

  /** Some condition has a glob key that holds. */
  predicate AnyHolds(m: Matcher, files: seq<string>, ms: seq<BaseMatch>) {
    exists b, c :: b in ms && b.changedFiles.Some? && c in b.changedFiles.value && Holds(m, files, c)
  }

  /** There is a condition, there is a file, and every glob key of every condition holds. */
  predicate AllHolds(m: Matcher, files: seq<string>, ms: seq<BaseMatch>) {
    && files != []
    && (exists b :: b in ms && b.changedFiles.Some?)
    && forall b, c :: b in ms && b.changedFiles.Some? && c in b.changedFiles.value ==> Holds(m, files, c)
  }

  predicate BlockHolds(m: Matcher, files: seq<string>, b: MatchConfig) {
    && (b.all.Some? || b.any.Some?)
    && (b.all.Some? ==> AllHolds(m, files, b.all.value))
    && (b.any.Some? ==> AnyHolds(m, files, b.any.value))
  }

  predicate Applies(m: Matcher, files: seq<string>, configs: seq<MatchConfig>) {
    forall b :: b in configs ==> BlockHolds(m, files, b)
  }

  method Primitive(m: Matcher, files: seq<string>, c: FilesConfig) returns (r: bool)
    ensures r == Holds(m, files, c)
  {
    match c.key
    case AnyGlobToAnyFile => r := AnyGlobMatchesAnyFile(m, files, c.globs);
    case AnyGlobToAllFiles => r := AnyGlobMatchesAllFiles(m, files, c.globs);
    case AllGlobsToAnyFile => r := AllGlobsMatchAnyFile(m, files, c.globs);
    case AllGlobsToAllFiles => r := AllGlobsMatchAllFiles(m, files, c.globs);
  }

  method CheckAnyChangedFiles(m: Matcher, files: seq<string>, configs: seq<FilesConfig>) returns (r: bool)
    ensures r <==> exists c :: c in configs && Holds(m, files, c)
  {
    for i := 0 to |configs|
      invariant forall j :: 0 <= j < i ==> !Holds(m, files, configs[j])
    {
      var holds := Primitive(m, files, configs[i]);
      if holds {
        return true;
      }
    }
    return false;
  }

  method CheckAllChangedFiles(m: Matcher, files: seq<string>, configs: seq<FilesConfig>) returns (r: bool)
    ensures r <==> forall c :: c in configs ==> Holds(m, files, c)
  {
    for i := 0 to |configs|
      invariant forall j :: 0 <= j < i ==> Holds(m, files, configs[j])
    {
      var holds := Primitive(m, files, configs[i]);
      if !holds {
        return false;
      }
    }
    return true;
  }

  method CheckAny(m: Matcher, files: seq<string>, ms: seq<BaseMatch>) returns (r: bool)
    ensures r == AnyHolds(m, files, ms)
  {
    if |ms| == 0 || !exists b :: b in ms && b.changedFiles.Some? {
      return false;
    }
    for i := 0 to |ms|
      invariant !AnyHolds(m, files, ms[..i])
    {
      if ms[i].changedFiles.Some? {
        var holds := CheckAnyChangedFiles(m, files, ms[i].changedFiles.value);
        if holds {
          return true;
        }
      }
      assert ms[..i + 1] == ms[..i] + [ms[i]];
    }
    assert ms[..|ms|] == ms;
    return false;
  }

  method CheckAll(m: Matcher, files: seq<string>, ms: seq<BaseMatch>) returns (r: bool)
    ensures r == AllHolds(m, files, ms)
  {
    if |ms| == 0 || !exists b :: b in ms && b.changedFiles.Some? {
      return false;
    }
    for i := 0 to |ms|
      invariant forall j :: 0 <= j < i && ms[j].changedFiles.Some? ==>
        files != [] && forall c :: c in ms[j].changedFiles.value ==> Holds(m, files, c)
    {
      if ms[i].changedFiles.Some? {
        if |files| == 0 {
          return false;
        }
        var holds := CheckAllChangedFiles(m, files, ms[i].changedFiles.value);
        if !holds {
          return false;
        }
      }
    }
    return true;
  }

  method CheckMatch(m: Matcher, files: seq<string>, b: MatchConfig) returns (r: bool)
    ensures r == BlockHolds(m, files, b)
  {
    if b.all.None? && b.any.None? {
      return false;
    }
    if b.all.Some? {
      var all := CheckAll(m, files, b.all.value);
      if !all {
        return false;
      }
    }
    if b.any.Some? {
      var any := CheckAny(m, files, b.any.value);
      if !any {
        return false;
      }
    }
    return true;
  }

  method CheckMatchConfigs(m: Matcher, files: seq<string>, configs: seq<MatchConfig>) returns (r: bool)
    ensures r == Applies(m, files, configs)
  {
    for i := 0 to |configs|
      invariant forall j :: 0 <= j < i ==> BlockHolds(m, files, configs[j])
    {
      var holds := CheckMatch(m, files, configs[i]);
      if !holds {
        return false;
      }
    }
    return true;
  }

  // ----- Labels, sorted -----

  /** The order strings are sorted in: by their characters, a prefix first. */
  predicate AtMost(a: string, b: string) {
    a == [] || (b != [] && (a[0] < b[0] || (a[0] == b[0] && AtMost(a[1..], b[1..]))))
  }

  lemma {:induction false} AtMostIs(a: string, b: string)
    ensures AtMost(a, b) <==> a <= b || exists i :: 0 <= i < |a| && i < |b| && a[..i] == b[..i] && a[i] < b[i]
  {
    if a != [] && b != [] {
      var s, t := a[1..], b[1..];
      AtMostIs(s, t);
      assert a == [a[0]] + s && b == [b[0]] + t;
      assert forall i :: 0 < i < |a| && i < |b| && a[..i] == b[..i] ==> a[..i][0] == b[..i][0];
      if a[0] == b[0] {
        if i :| 0 <= i < |s| && i < |t| && s[..i] == t[..i] && s[i] < t[i] {
          assert a[..i + 1] == [a[0]] + s[..i] && b[..i + 1] == [b[0]] + t[..i] && a[i + 1] < b[i + 1];
        }
        if i :| 0 <= i < |a| && i < |b| && a[..i] == b[..i] && a[i] < b[i] {
          assert i > 0 && s[..i - 1] == a[..i][1..] && t[..i - 1] == b[..i][1..] && s[i - 1] < t[i - 1];
        }
      } else if a[0] < b[0] {
        assert a[..0] == b[..0];
      }
    }
  }

  lemma {:induction false} AtMostTotal(a: string, b: string)
    ensures AtMost(a, b) || AtMost(b, a)
    ensures AtMost(a, b) && AtMost(b, a) ==> a == b
  {
    if a != [] && b != [] && a[0] == b[0] {
      AtMostTotal(a[1..], b[1..]);
      assert a == [a[0]] + a[1..] && b == [b[0]] + b[1..];
    }
  }

  lemma {:induction false} AtMostTransitive(a: string, b: string, c: string)
    requires AtMost(a, b) && AtMost(b, c)
    ensures AtMost(a, c)
  {
    if a != [] && a[0] == b[0] == c[0] {
      AtMostTransitive(a[1..], b[1..], c[1..]);
    }
  }

  predicate Sorted(s: seq<string>) {
    forall i, j :: 0 <= i < j < |s| ==> AtMost(s[i], s[j])
  }

  function Insert(x: string, s: seq<string>): (r: seq<string>)
    ensures multiset(r) == multiset{x} + multiset(s)
  {
    if s == [] || AtMost(x, s[0]) then [x] + s
    else
      assert s == [s[0]] + s[1..];
      [s[0]] + Insert(x, s[1..])
  }

  function Sort(s: seq<string>): (r: seq<string>)
    ensures multiset(r) == multiset(s)
  {
    if s == [] then []
    else
      assert s == [s[0]] + s[1..];
      Insert(s[0], Sort(s[1..]))
  }

  lemma {:induction false} InsertSorted(x: string, s: seq<string>)
    requires Sorted(s)
    ensures Sorted(Insert(x, s))
  {
    if s != [] && !AtMost(x, s[0]) {
      InsertSorted(x, s[1..]);
      var t := Insert(x, s[1..]);
      AtMostTotal(x, s[0]);
      forall y | y in t ensures AtMost(s[0], y) {
        assert y in multiset(t);
        if y != x {
          assert y in multiset(s[1..]);
        }
      }
    } else if s != [] {
      forall y | y in s ensures AtMost(x, y) {
        if y != s[0] {
          AtMostTransitive(x, s[0], y);
        }
      }
    }
  }

  lemma {:induction false} SortSorted(s: seq<string>)
    ensures Sorted(Sort(s))
  {
    if s != [] {
      SortSorted(s[1..]);
      InsertSorted(s[0], Sort(s[1..]));
    }
  }

  /** A sorted list is settled by what is in it. */
  lemma {:induction false} SortedUnique(s: seq<string>, t: seq<string>)
    requires Sorted(s) && Sorted(t) && multiset(s) == multiset(t)
    ensures s == t
  {
    if s == [] {
      assert |multiset(t)| == 0;
    } else {
      assert s[0] in multiset(t) && t != [];
      assert t[0] in multiset(s);
      AtMostTotal(s[0], t[0]);
      assert s[0] == t[0];
      Tail(s);
      Tail(t);
      SortedUnique(s[1..], t[1..]);
    }
  }

  lemma Tail(s: seq<string>)
    requires s != []
    ensures multiset(s[1..]) == multiset(s) - multiset{s[0]}
  {
    assert s == [s[0]] + s[1..];
  }

  function Applied(m: Matcher, files: seq<string>, labels: seq<Labelled>): (r: seq<string>)
    ensures |r| <= |labels|
  {
    if labels == [] then []
    else
      (if Applies(m, files, labels[0].configs) then [labels[0].name] else []) + Applied(m, files, labels[1..])
  }

  function LabelsOf(m: Matcher, files: seq<string>, labels: seq<Labelled>): seq<string> {
    Sort(Applied(m, files, labels))
  }

  method LabelsFor(m: Matcher, labels: seq<Labelled>, files: seq<string>) returns (applied: seq<string>)
    ensures applied == LabelsOf(m, files, labels)
  {
    applied := [];
    for i := 0 to |labels|
      invariant Applied(m, files, labels) == applied + Applied(m, files, labels[i..])
    {
      var applies := CheckMatchConfigs(m, files, labels[i].configs);
      assert labels[i..][1..] == labels[i + 1..];
      if applies {
        applied := applied + [labels[i].name];
      }
    }
    assert applied + [] == applied;
    applied := Sort(applied);
  }
}
