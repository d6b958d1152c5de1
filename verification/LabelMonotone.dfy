/** A config that asks for more gives fewer labels: what taking one glob out of a list can and cannot do. */
module LabelMonotone {
  import opened Prelude
  import opened LabelConfig
  import opened LabelMatching
  import opened YamlPaths

  // ----- Asking for more -----

  predicate AnyOfThem(key: GlobKey) {
    key.AnyGlobToAnyFile? || key.AnyGlobToAllFiles?
  }

  predicate Within(a: seq<Yaml>, b: seq<Yaml>) {
    forall g :: g in a ==> g in b
  }

  /** Fewer globs of which any will do, or more which all must. */
  predicate StricterGlobs(key: GlobKey, a: seq<Yaml>, b: seq<Yaml>) {
    if AnyOfThem(key) then Within(a, b) else Within(b, a)
  }

  /** The same tree but for the lists under glob keys, where `a` is the stricter. */
  predicate Stricter(under: string, a: Yaml, b: Yaml)
    decreases a
  {
    var key := GlobKeyOf(under);
    || a == b
    || (key.Some? && a.List? && b.List? && StricterGlobs(key.value, a.items, b.items))
    || (key.None? && a.Mapping? && b.Mapping? && |a.pairs| == |b.pairs|
        && forall i :: 0 <= i < |a.pairs| ==>
             a.pairs[i].key == b.pairs[i].key && Stricter(a.pairs[i].key, a.pairs[i].value, b.pairs[i].value))
    || (key.None? && a.List? && b.List? && |a.items| == |b.items|
        && forall i :: 0 <= i < |a.items| ==> Stricter("", a.items[i], b.items[i]))
  }

  predicate StricterAll(a: seq<Yaml>, b: seq<Yaml>) {
    |a| == |b| && forall i :: 0 <= i < |a| ==> Stricter("", a[i], b[i])
  }

  predicate StricterPairs(a: seq<Pair>, b: seq<Pair>) {
    |a| == |b| && forall i :: 0 <= i < |a| ==> a[i].key == b[i].key && Stricter(a[i].key, a[i].value, b[i].value)
  }

  /** A label's name is never a key, whatever it is. */
  predicate StricterConfig(a: Yaml, b: Yaml) {
    && a.Mapping? && b.Mapping? && |a.pairs| == |b.pairs|
    && forall i :: 0 <= i < |a.pairs| ==> a.pairs[i].key == b.pairs[i].key && Stricter("", a.pairs[i].value, b.pairs[i].value)
  }

  // ----- The same, compiled -----

  predicate StricterFiles(a: FilesConfig, b: FilesConfig) {
    a.key == b.key && StricterGlobs(a.key, a.globs, b.globs)
  }

  predicate StricterList(a: seq<FilesConfig>, b: seq<FilesConfig>) {
    |a| == |b| && forall i :: 0 <= i < |a| ==> StricterFiles(a[i], b[i])
  }

  predicate StricterBase(a: BaseMatch, b: BaseMatch) {
    if a.changedFiles.None? then b.changedFiles.None?
    else b.changedFiles.Some? && StricterList(a.changedFiles.value, b.changedFiles.value)
  }

  predicate StricterBases(a: seq<BaseMatch>, b: seq<BaseMatch>) {
    |a| == |b| && forall i :: 0 <= i < |a| ==> StricterBase(a[i], b[i])
  }

  predicate StricterSide(a: Option<seq<BaseMatch>>, b: Option<seq<BaseMatch>>) {
    if a.None? then b.None? else b.Some? && StricterBases(a.value, b.value)
  }

  predicate StricterBlocks(a: seq<MatchConfig>, b: seq<MatchConfig>) {
    |a| == |b| && forall i :: 0 <= i < |a| ==> StricterSide(a[i].all, b[i].all) && StricterSide(a[i].any, b[i].any)
  }

  predicate StricterLabels(a: seq<Labelled>, b: seq<Labelled>) {
    |a| == |b| && forall i :: 0 <= i < |a| ==> a[i].name == b[i].name && StricterBlocks(a[i].configs, b[i].configs)
  }

  lemma OneKeyStricter(key: string, a: Yaml, b: Yaml)
    requires Stricter(key, a, b) && GlobKeyOf(key).Some?
    ensures StricterFiles(FilesConfig(GlobKeyOf(key).value, Globs(a)), FilesConfig(GlobKeyOf(key).value, Globs(b)))
  {
  }

  lemma BothStricter(a: seq<FilesConfig>, b: seq<FilesConfig>, c: seq<FilesConfig>, d: seq<FilesConfig>)
    requires StricterList(a, c) && StricterList(b, d)
    ensures StricterList(a + b, c + d)
  {
  }

  lemma {:induction false} KeyConfigsStricter(a: seq<Pair>, b: seq<Pair>)
    requires StricterPairs(a, b)
    ensures Invalid(a) == Invalid(b) && StricterList(KeyConfigs(a), KeyConfigs(b))
  {
    if a != [] {
      KeyConfigsStricter(a[1..], b[1..]);
      var key := GlobKeyOf(a[0].key);
      if key.Some? {
        OneKeyStricter(a[0].key, a[0].value, b[0].value);
        BothStricter([FilesConfig(key.value, Globs(a[0].value))], KeyConfigs(a[1..]),
                     [FilesConfig(key.value, Globs(b[0].value))], KeyConfigs(b[1..]));
      }
    }
  }

  lemma GlobMappingStricter(a: Yaml, b: Yaml)
    requires Stricter("", a, b)
    ensures var (r, s) := (GlobMapping(a), GlobMapping(b));
      if r.Err? then r == s else s.Ok? && StricterList(r.value, s.value)
  {
    if a.Mapping? && b.Mapping? {
      KeyConfigsStricter(a.pairs, b.pairs);
    }
  }

  lemma {:induction false} GlobMappingsStricter(a: seq<Yaml>, b: seq<Yaml>)
    requires StricterAll(a, b)
    ensures var (r, s) := (GlobMappings(a), GlobMappings(b));
      if r.Err? then r == s else s.Ok? && StricterList(r.value, s.value)
  {
    if a != [] {
      GlobMappingStricter(a[0], b[0]);
      GlobMappingsStricter(a[1..], b[1..]);
      if GlobMappings(a).Ok? {
        BothStricter(GlobMapping(a[0]).value, GlobMappings(a[1..]).value, GlobMapping(b[0]).value, GlobMappings(b[1..]).value);
      }
    }
  }

  lemma {:induction false} LookupStricter(a: seq<Pair>, b: seq<Pair>, key: string)
    requires StricterPairs(a, b)
    ensures var (r, s) := (Lookup(a, key), Lookup(b, key));
      if r.None? then s.None? else s.Some? && Stricter(key, r.value, s.value)
  {
    if a != [] && a[0].key != key {
      LookupStricter(a[1..], b[1..], key);
    }
  }

  lemma ChangedFilesStricter(a: seq<Pair>, b: seq<Pair>)
    requires StricterPairs(a, b)
    ensures var (r, s) := (ChangedFiles(a), ChangedFiles(b));
      if r.Err? then r == s else s.Ok? && StricterBase(r.value, s.value)
  {
    var key := "changed-files";
    LookupStricter(a, b, key);
    var r, s := Lookup(a, key), Lookup(b, key);
    if r.Some? {
      assert GlobKeyOf(key).None?;
      LengthStricter(key, r.value, s.value);
      var x, y := if r.value.List? then r.value.items else [r.value], if s.value.List? then s.value.items else [s.value];
      assert StricterAll(x, y);
      GlobMappingsStricter(x, y);
    }
  }

  lemma LengthStricter(key: string, a: Yaml, b: Yaml)
    requires GlobKeyOf(key).None? && Stricter(key, a, b)
    ensures HasLength(a) == HasLength(b) && a.List? == b.List? && Stricter("", a, b)
  {
    assert GlobKeyOf("").None?;
    if a.Mapping? && b.Mapping? {
      assert StricterPairs(a.pairs, b.pairs);
      LookupStricter(a.pairs, b.pairs, "length");
      assert GlobKeyOf("length").None?;
    }
  }

  lemma MatchEntryStricter(a: Yaml, b: Yaml)
    requires Stricter("", a, b)
    ensures var (r, s) := (MatchEntry(a), MatchEntry(b));
      if r.Err? then r == s else s.Ok? && StricterBase(r.value, s.value)
  {
    if a.Mapping? {
      assert StricterPairs(a.pairs, b.pairs);
      LookupStricter(a.pairs, b.pairs, "head-branch");
      LookupStricter(a.pairs, b.pairs, "base-branch");
      ChangedFilesStricter(a.pairs, b.pairs);
    }
  }

  lemma {:induction false} MatchEntriesStricter(a: seq<Yaml>, b: seq<Yaml>)
    requires StricterAll(a, b)
    ensures var (r, s) := (MatchEntries(a), MatchEntries(b));
      if r.Err? then r == s else s.Ok? && StricterBases(r.value, s.value)
  {
    if a != [] {
      MatchEntryStricter(a[0], b[0]);
      MatchEntriesStricter(a[1..], b[1..]);
    }
  }

  lemma {:induction false} FirstAnyStricter(a: seq<MatchConfig>, b: seq<MatchConfig>)
    requires StricterBlocks(a, b)
    ensures FirstAny(a) == FirstAny(b)
  {
    if a != [] {
      FirstAnyStricter(a[1..], b[1..]);
    }
  }

  lemma TakePairStricter(name: string, a: seq<MatchConfig>, b: seq<MatchConfig>, p: Pair, q: Pair)
    requires StricterBlocks(a, b) && p.key == q.key && Stricter(p.key, p.value, q.value)
    ensures var (r, s) := (TakePair(name, a, p), TakePair(name, b, q));
      if r.Err? then r == s else s.Ok? && StricterBlocks(r.value, s.value)
  {
    if p.key == "any" || p.key == "all" {
      assert GlobKeyOf("any").None? && GlobKeyOf("all").None?;
      if p.value.List? {
        assert StricterAll(p.value.items, q.value.items);
        MatchEntriesStricter(p.value.items, q.value.items);
      }
    } else if p.key == "changed-files" || p.key == "head-branch" || p.key == "base-branch" {
      assert StricterPairs([p], [q]);
      MatchEntryStricter(Mapping([p]), Mapping([q]));
      FirstAnyStricter(a, b);
    }
  }

  lemma {:induction false} TakePairsStricter(name: string, a: seq<MatchConfig>, b: seq<MatchConfig>, ps: seq<Pair>, qs: seq<Pair>)
    requires StricterBlocks(a, b) && StricterPairs(ps, qs)
    ensures var (r, s) := (TakePairs(name, a, ps), TakePairs(name, b, qs));
      if r.Err? then r == s else s.Ok? && StricterBlocks(r.value, s.value)
    decreases |ps|
  {
    if ps != [] {
      TakePairStricter(name, a, b, ps[0], qs[0]);
      var r, s := TakePair(name, a, ps[0]), TakePair(name, b, qs[0]);
      if r.Ok? {
        TakePairsStricter(name, r.value, s.value, ps[1..], qs[1..]);
      }
    }
  }

  lemma {:induction false} TakeEntriesStricter(name: string, a: seq<MatchConfig>, b: seq<MatchConfig>, es: seq<Yaml>, fs: seq<Yaml>)
    requires StricterBlocks(a, b) && StricterAll(es, fs)
    ensures var (r, s) := (TakeEntries(name, a, es), TakeEntries(name, b, fs));
      if r.Err? then r == s else s.Ok? && StricterBlocks(r.value, s.value)
    decreases |es|
  {
    if es != [] {
      var ps, qs := Options(es[0]), Options(fs[0]);
      if es[0].List? && es[0].items != [] {
        assert fs[0].List? && TakePair(name, a, ps[0]) == TakePair(name, b, qs[0]) == Err(UnknownOption(name, "0"));
      } else {
        assert StricterPairs(ps, qs);
        TakePairsStricter(name, a, b, ps, qs);
        var r, s := TakePairs(name, a, ps), TakePairs(name, b, qs);
        if r.Ok? {
          TakeEntriesStricter(name, r.value, s.value, es[1..], fs[1..]);
        }
      }
    }
  }

  lemma RulesStricter(name: string, a: Yaml, b: Yaml)
    requires Stricter("", a, b)
    ensures var (r, s) := (Rules(name, a), Rules(name, b));
      if r.Err? then r == s else s.Ok? && StricterBlocks(r.value, s.value)
  {
    if a.List? {
      assert StricterAll(a.items, b.items);
      TakeEntriesStricter(name, [], [], a.items, b.items);
      forall i | 0 <= i < |a.items| ensures IsObject(a.items[i]) == IsObject(b.items[i]) {
        assert Stricter("", a.items[i], b.items[i]);
      }
    }
  }

  lemma {:induction false} LabelsStricter(a: seq<Pair>, b: seq<Pair>)
    requires StricterConfig(Mapping(a), Mapping(b))
    ensures var (r, s) := (Labels(a), Labels(b));
      if r.Err? then r == s else s.Ok? && StricterLabels(r.value, s.value)
  {
    if a != [] {
      RulesStricter(a[0].key, a[0].value, b[0].value);
      LabelsStricter(a[1..], b[1..]);
    }
  }

  // ----- The same, checked -----

  lemma HoldsStricter(m: Matcher, files: seq<string>, a: FilesConfig, b: FilesConfig)
    requires StricterFiles(a, b) && Holds(m, files, a)
    ensures Holds(m, files, b)
  {
  }

  lemma AnyStricter(m: Matcher, files: seq<string>, a: seq<BaseMatch>, b: seq<BaseMatch>)
    requires StricterBases(a, b) && AnyHolds(m, files, a)
    ensures AnyHolds(m, files, b)
  {
    var x, c :| x in a && x.changedFiles.Some? && c in x.changedFiles.value && Holds(m, files, c);
    var i :| 0 <= i < |a| && a[i] == x;
    var j :| 0 <= j < |x.changedFiles.value| && x.changedFiles.value[j] == c;
    assert StricterBase(a[i], b[i]);
    HoldsStricter(m, files, c, b[i].changedFiles.value[j]);
  }

  lemma AllStricter(m: Matcher, files: seq<string>, a: seq<BaseMatch>, b: seq<BaseMatch>)
    requires StricterBases(a, b) && AllHolds(m, files, a)
    ensures AllHolds(m, files, b)
  {
    var x :| x in a && x.changedFiles.Some?;
    var k :| 0 <= k < |a| && a[k] == x;
    assert StricterBase(a[k], b[k]) && b[k] in b;
    forall y, d | y in b && y.changedFiles.Some? && d in y.changedFiles.value ensures Holds(m, files, d) {
      var i :| 0 <= i < |b| && b[i] == y;
      var j :| 0 <= j < |y.changedFiles.value| && y.changedFiles.value[j] == d;
      assert StricterBase(a[i], b[i]) && a[i] in a;
      HoldsStricter(m, files, a[i].changedFiles.value[j], d);
    }
  }

  lemma AppliesStricter(m: Matcher, files: seq<string>, a: seq<MatchConfig>, b: seq<MatchConfig>)
    requires StricterBlocks(a, b) && Applies(m, files, a)
    ensures Applies(m, files, b)
  {
    forall i | 0 <= i < |b| ensures BlockHolds(m, files, b[i]) {
      assert a[i] in a && StricterSide(a[i].all, b[i].all) && StricterSide(a[i].any, b[i].any);
      if b[i].all.Some? {
        AllStricter(m, files, a[i].all.value, b[i].all.value);
      }
      if b[i].any.Some? {
        AnyStricter(m, files, a[i].any.value, b[i].any.value);
      }
    }
  }

  lemma {:induction false} AppliedStricter(m: Matcher, files: seq<string>, a: seq<Labelled>, b: seq<Labelled>)
    requires StricterLabels(a, b)
    ensures forall name :: name in Applied(m, files, a) ==> name in Applied(m, files, b)
  {
    if a != [] {
      if Applies(m, files, a[0].configs) {
        AppliesStricter(m, files, a[0].configs, b[0].configs);
      }
      AppliedStricter(m, files, a[1..], b[1..]);
    }
  }

  lemma Unsorted(m: Matcher, files: seq<string>, labels: seq<Labelled>, name: string)
    ensures name in LabelsOf(m, files, labels) <==> name in Applied(m, files, labels)
  {
    assert name in multiset(LabelsOf(m, files, labels)) <==> name in multiset(Applied(m, files, labels));
  }

  /** A stricter config is accepted exactly when the other is, and gives no label the other does not. */
  lemma StricterGivesFewer(m: Matcher, files: seq<string>, a: Yaml, b: Yaml)
    requires StricterConfig(a, b)
    ensures var (r, s) := (Compiled(a), Compiled(b));
      && (r.Ok? <==> s.Ok?)
      && (r.Ok? ==> forall name :: name in LabelsOf(m, files, r.value) ==> name in LabelsOf(m, files, s.value))
  {
    LabelsStricter(a.pairs, b.pairs);
    var r, s := Compiled(a), Compiled(b);
    if r.Ok? {
      AppliedStricter(m, files, r.value, s.value);
      forall name | name in LabelsOf(m, files, r.value) ensures name in LabelsOf(m, files, s.value) {
        Unsorted(m, files, r.value, name);
        Unsorted(m, files, s.value, name);
      }
    }
  }

  // ----- Taking one glob out -----

  /** What the last step of a path is taken from: the key above it. */
  function Above(under: string, path: YamlPath): string {
    if |path| < 2 || path[|path| - 2].Index? then under else path[|path| - 2].key
  }

  /** A path to one glob: an index under a glob key, and no glob key above that. */
  predicate ToAGlob(under: string, path: YamlPath) {
    && path != [] && path[|path| - 1].Index?
    && if |path| == 1 then GlobKeyOf(under).Some?
       else
         && GlobKeyOf(under).None?
         && path[|path| - 2].Key? && GlobKeyOf(path[|path| - 2].key).Some?
         && forall i :: 0 <= i < |path| - 2 && path[i].Key? ==> GlobKeyOf(path[i].key).None?
  }

  /** Taking a glob out of one list. */
  lemma ListLess(under: string, node: Yaml, n: nat)
    requires node.List? && n < |node.items| && GlobKeyOf(under).Some?
    ensures var (key, without) := (GlobKeyOf(under).value, Without(node, n));
      if AnyOfThem(key) then Stricter(under, without, node) else Stricter(under, node, without)
  {
  }

  /** A stricter child makes a stricter parent, and a laxer one a laxer. */
  lemma ChildStricter(under: string, node: Yaml, step: Step, child: Yaml)
    requires GlobKeyOf(under).None? && Child(node, step) < Children(node)
    ensures var (n, next) := (Child(node, step), if step.Key? then step.key else "");
      && (Stricter(next, child, At(node, n)) ==> Stricter(under, With(node, n, child), node))
      && (Stricter(next, At(node, n), child) ==> Stricter(under, node, With(node, n, child)))
  {
    var n := Child(node, step);
    assert forall i :: 0 <= i < Children(node) && i != n ==> At(With(node, n, child), i) == At(node, i);
    assert At(With(node, n, child), n) == child;
  }

  lemma {:induction false} OneGlobLess(under: string, node: Yaml, path: YamlPath)
    requires ToAGlob(under, path)
    ensures var (key, without) := (GlobKeyOf(Above(under, path)), RemoveAt(node, path));
      key.Some? && if AnyOfThem(key.value) then Stricter(under, without, node) else Stricter(under, node, without)
    decreases |path|
  {
    var n := Child(node, path[0]);
    if n < Children(node) {
      if |path| == 1 {
        ListLess(under, node, n);
      } else {
        var next := if path[0].Key? then path[0].key else "";
        AboveTail(under, next, path);
        OneGlobLess(next, At(node, n), path[1..]);
        ChildStricter(under, node, path[0], RemoveAt(At(node, n), path[1..]));
      }
    }
  }

  lemma AboveTail(under: string, next: string, path: YamlPath)
    requires ToAGlob(under, path) && |path| > 1 && next == if path[0].Key? then path[0].key else ""
    ensures ToAGlob(next, path[1..]) && Above(next, path[1..]) == Above(under, path)
  {
    var tail := path[1..];
    assert tail[|tail| - 1] == path[|path| - 1];
    if |path| > 2 {
      assert tail[|tail| - 2] == path[|path| - 2];
      assert GlobKeyOf("").None?;
    }
  }

  /** Taking a glob out of a list any of which will do never adds a label; out of one all of which must, never takes one away. */
  lemma OneGlobLessLabels(m: Matcher, files: seq<string>, config: Yaml, name: string, path: YamlPath)
    requires config.Mapping? && ToAGlob("", path)
    ensures var (key, r, s) := (GlobKeyOf(Above("", path)).value, Compiled(config), Compiled(RemoveAt(config, [Key(name)] + path)));
      && (r.Ok? <==> s.Ok?)
      && (r.Ok? && AnyOfThem(key) ==> forall l :: l in LabelsOf(m, files, s.value) ==> l in LabelsOf(m, files, r.value))
      && (r.Ok? && !AnyOfThem(key) ==> forall l :: l in LabelsOf(m, files, r.value) ==> l in LabelsOf(m, files, s.value))
  {
    var n := KeyIndex(config.pairs, name);
    var without := RemoveAt(config, [Key(name)] + path);
    if n < |config.pairs| {
      assert ([Key(name)] + path)[1..] == path;
      OneGlobLess("", config.pairs[n].value, path);
    }
    if AnyOfThem(GlobKeyOf(Above("", path)).value) {
      StricterGivesFewer(m, files, without, config);
    } else {
      StricterGivesFewer(m, files, config, without);
    }
  }
}
