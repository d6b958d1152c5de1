/** Taking a labeler config apart piece by piece, to find the pieces no sample notices the loss of. */
module Liveness {
  import opened Prelude
  import opened LabelConfig
  import opened LabelMatching
  import opened LabelMeaning
  import opened YamlPaths

  // ----- The pieces -----

  datatype Component = Component(place: YamlPath, without: Yaml)

  const FILES := "changed-files"

  predicate Explicit(key: string) {
    key == "any" || key == "all"
  }

  /** Paths under one step. */
  function Under(step: Step, paths: seq<YamlPath>): seq<YamlPath> {
    if paths == [] then [] else [[step] + paths[0]] + Under(step, paths[1..])
  }

  function ChildOr(node: Yaml, step: Step): Yaml {
    var n := Child(node, step);
    if n == Children(node) then Null else At(node, n)
  }

  /** The globs of a glob key. */
  function GlobPaths(node: Yaml, m: nat): seq<YamlPath>
    decreases Children(node) - m
  {
    if !node.List? || m >= |node.items| then [] else [[Index(m)]] + GlobPaths(node, m + 1)
  }

  /** The keys of a glob mapping, and what is under each. */
  function KeyPaths(node: Yaml, j: nat): seq<YamlPath>
    decreases Children(node) - j
  {
    if !node.Mapping? || j >= |node.pairs| then []
    else
      var step := Key(node.pairs[j].key);
      [[step]] + Under(step, GlobPaths(ChildOr(node, step), 0)) + KeyPaths(node, j + 1)
  }

  /** The glob mappings of a `changed-files`, and what is under each. */
  function FilesPaths(node: Yaml, k: nat): seq<YamlPath>
    decreases Children(node) - k
  {
    if !node.List? || k >= |node.items| then []
    else [[Index(k)]] + Under(Index(k), KeyPaths(node.items[k], 0)) + FilesPaths(node, k + 1)
  }

  /** The match entries of an `any` or an `all`, and what is under the `changed-files` of each. */
  function MatchPaths(node: Yaml, j: nat): seq<YamlPath>
    decreases Children(node) - j
  {
    if !node.List? || j >= |node.items| then []
    else
      [[Index(j)]] + Under(Index(j), Under(Key(FILES), FilesPaths(ChildOr(node.items[j], Key(FILES)), 0)))
      + MatchPaths(node, j + 1)
  }

  function OptionPaths(node: Yaml, j: nat): seq<YamlPath>
    decreases Children(node) - j
  {
    if !node.Mapping? || j >= |node.pairs| then []
    else
      var step := Key(node.pairs[j].key);
      [[step]] + Under(step, ValuePaths(step.key, ChildOr(node, step))) + OptionPaths(node, j + 1)
  }

  /** What is under one option of an entry. */
  function ValuePaths(key: string, value: Yaml): seq<YamlPath> {
    if key == FILES then FilesPaths(value, 0) else if Explicit(key) then MatchPaths(value, 0) else []
  }

  /** The entries of a label's rules, and what is under each. */
  function EntryPaths(node: Yaml, i: nat): seq<YamlPath>
    decreases Children(node) - i
  {
    if !node.List? || i >= |node.items| then []
    else [[Index(i)]] + Under(Index(i), OptionPaths(node.items[i], 0)) + EntryPaths(node, i + 1)
  }

  function LabelPaths(pairs: seq<Pair>): seq<YamlPath> {
    if pairs == [] then [] else Under(Key(pairs[0].key), EntryPaths(pairs[0].value, 0)) + LabelPaths(pairs[1..])
  }

  function Paths(config: Yaml): seq<YamlPath> {
    if config.Mapping? then LabelPaths(config.pairs) else []
  }

  // ----- Which pieces those are -----

  predicate GlobShape(t: YamlPath) {
    |t| == 1 && t[0].Index?
  }

  predicate KeyShape(t: YamlPath) {
    t != [] && t[0].Key? && (|t| == 1 || GlobShape(t[1..]))
  }

  predicate FilesShape(t: YamlPath) {
    t != [] && t[0].Index? && (|t| == 1 || KeyShape(t[1..]))
  }

  predicate MatchShape(t: YamlPath) {
    t != [] && t[0].Index? && (|t| == 1 || (t[1] == Key(FILES) && FilesShape(t[2..])))
  }

  predicate OptionShape(t: YamlPath) {
    t != [] && t[0].Key? && (|t| == 1 || ValueShape(t[0].key, t[1..]))
  }

  predicate ValueShape(key: string, t: YamlPath) {
    (key == FILES && FilesShape(t)) || (Explicit(key) && MatchShape(t))
  }

  predicate EntryShape(t: YamlPath) {
    t != [] && t[0].Index? && (|t| == 1 || OptionShape(t[1..]))
  }

  /** A rule entry, an option, a match entry, a glob mapping, a glob key or a glob. */
  predicate Shape(t: YamlPath) {
    |t| > 1 && t[0].Key? && EntryShape(t[1..])
  }

  predicate There(node: Yaml, t: YamlPath) {
    ValueAt(node, t).Some?
  }

  lemma {:induction false} UnderMember(step: Step, paths: seq<YamlPath>, t: YamlPath)
    ensures t in Under(step, paths) <==> t != [] && t[0] == step && t[1..] in paths
  {
    if paths != [] {
      UnderMember(step, paths[1..], t);
      assert paths == [paths[0]] + paths[1..];
      assert ([step] + paths[0])[1..] == paths[0];
      if t != [] {
        assert t == [t[0]] + t[1..];
      }
    }
  }

  /** A child, and what is under it. */
  lemma HeadMember(node: Yaml, step: Step, inner: seq<YamlPath>, t: YamlPath, good: bool)
    requires Child(node, step) < Children(node)
    requires t != [] && t[0] == step ==> (t[1..] in inner <==> good && There(ChildOr(node, step), t[1..]))
    ensures t in [[step]] + Under(step, inner) <==> t != [] && t[0] == step && (|t| == 1 || good) && There(node, t)
  {
    UnderMember(step, inner, t);
    if t != [] && t[0] == step {
      assert There(node, t) <==> There(ChildOr(node, step), t[1..]);
      if |t| == 1 {
        assert t == [step] && t[1..] == [];
      }
    }
  }

  lemma {:induction false} GlobMember(node: Yaml, m: nat, t: YamlPath)
    ensures t in GlobPaths(node, m) <==> GlobShape(t) && There(node, t) && m <= t[0].index
    decreases Children(node) - m
  {
    if node.List? && m < |node.items| {
      GlobMember(node, m + 1, t);
      HeadMember(node, Index(m), [], t, false);
    }
  }

  predicate Has(pairs: seq<Pair>, j: nat, key: string) {
    exists i :: j <= i < |pairs| && pairs[i].key == key
  }

  lemma {:induction false} KeyMember(node: Yaml, j: nat, t: YamlPath)
    ensures t in KeyPaths(node, j) <==> KeyShape(t) && There(node, t) && Has(node.pairs, j, t[0].key)
    decreases Children(node) - j
  {
    if node.Mapping? && j < |node.pairs| {
      KeyMember(node, j + 1, t);
      var step := Key(node.pairs[j].key);
      var value := ChildOr(node, step);
      var tail := if t == [] then [] else t[1..];
      GlobMember(value, 0, tail);
      HeadMember(node, step, GlobPaths(value, 0), t, GlobShape(tail));
    }
  }

  lemma {:induction false} FilesMember(node: Yaml, k: nat, t: YamlPath)
    ensures t in FilesPaths(node, k) <==> FilesShape(t) && There(node, t) && k <= t[0].index
    decreases Children(node) - k
  {
    if node.List? && k < |node.items| {
      FilesMember(node, k + 1, t);
      var tail := if t == [] then [] else t[1..];
      KeyMember(node.items[k], 0, tail);
      HeadMember(node, Index(k), KeyPaths(node.items[k], 0), t, KeyShape(tail));
    }
  }

  lemma EntryFilesMember(entry: Yaml, t: YamlPath)
    ensures t in Under(Key(FILES), FilesPaths(ChildOr(entry, Key(FILES)), 0)) <==>
      t != [] && t[0] == Key(FILES) && FilesShape(t[1..]) && There(entry, t)
  {
    var value := ChildOr(entry, Key(FILES));
    UnderMember(Key(FILES), FilesPaths(value, 0), t);
    if t != [] && t[0] == Key(FILES) {
      FilesMember(value, 0, t[1..]);
      assert FilesShape(t[1..]) ==> (There(entry, t) <==> There(value, t[1..]));
    }
  }

  lemma {:induction false} MatchMember(node: Yaml, j: nat, t: YamlPath)
    ensures t in MatchPaths(node, j) <==> MatchShape(t) && There(node, t) && j <= t[0].index
    decreases Children(node) - j
  {
    if node.List? && j < |node.items| {
      MatchMember(node, j + 1, t);
      var inner := Under(Key(FILES), FilesPaths(ChildOr(node.items[j], Key(FILES)), 0));
      var tail := if t == [] then [] else t[1..];
      EntryFilesMember(node.items[j], tail);
      assert tail != [] ==> tail[1..] == t[2..];
      HeadMember(node, Index(j), inner, t, tail != [] && tail[0] == Key(FILES) && FilesShape(tail[1..]));
    }
  }

  lemma ValueMember(key: string, value: Yaml, t: YamlPath)
    ensures t in ValuePaths(key, value) <==> ValueShape(key, t) && There(value, t)
  {
    FilesMember(value, 0, t);
    MatchMember(value, 0, t);
  }

  lemma {:induction false} OptionMember(node: Yaml, j: nat, t: YamlPath)
    ensures t in OptionPaths(node, j) <==> OptionShape(t) && There(node, t) && Has(node.pairs, j, t[0].key)
    decreases Children(node) - j
  {
    if node.Mapping? && j < |node.pairs| {
      OptionMember(node, j + 1, t);
      var step := Key(node.pairs[j].key);
      var value := ChildOr(node, step);
      var tail := if t == [] then [] else t[1..];
      ValueMember(step.key, value, tail);
      HeadMember(node, step, ValuePaths(step.key, value), t, ValueShape(step.key, tail));
    }
  }

  lemma {:induction false} EntryMember(node: Yaml, i: nat, t: YamlPath)
    ensures t in EntryPaths(node, i) <==> EntryShape(t) && There(node, t) && i <= t[0].index
    decreases Children(node) - i
  {
    if node.List? && i < |node.items| {
      EntryMember(node, i + 1, t);
      var tail := if t == [] then [] else t[1..];
      var inner := OptionPaths(node.items[i], 0);
      var good := OptionShape(tail);
      OptionMember(node.items[i], 0, tail);
      assert tail in inner <==> good && There(node.items[i], tail);
      HeadMember(node, Index(i), inner, t, good);
      assert EntryPaths(node, i) == [[Index(i)]] + Under(Index(i), inner) + EntryPaths(node, i + 1);
    }
  }

  lemma {:induction false} LabelMember(pairs: seq<Pair>, t: YamlPath)
    requires Distinct(pairs)
    ensures t in LabelPaths(pairs) <==> Shape(t) && There(Mapping(pairs), t)
  {
    if pairs != [] {
      LabelMember(pairs[1..], t);
      EntryMember(pairs[0].value, 0, if t == [] then [] else t[1..]);
      UnderMember(Key(pairs[0].key), EntryPaths(pairs[0].value, 0), t);
      if t != [] && t[0].Key? {
        var all, rest := Mapping(pairs), Mapping(pairs[1..]);
        if t[0].key == pairs[0].key {
          assert There(all, t) <==> There(pairs[0].value, t[1..]);
          assert KeyIndex(pairs[1..], t[0].key) == |pairs[1..]|;
        } else {
          assert Child(all, t[0]) == Child(rest, t[0]) + 1;
        }
      }
    }
  }

  /** The pieces taken out are exactly the nodes of the six kinds. */
  lemma PathsExactly(config: Yaml, t: YamlPath)
    requires config.Mapping? ==> Distinct(config.pairs)
    ensures t in Paths(config) <==> config.Mapping? && Shape(t) && There(config, t)
  {
    if config.Mapping? {
      LabelMember(config.pairs, t);
    }
  }

  // ----- The loops -----

  function Take(config: Yaml, path: YamlPath): Component {
    Component(path, RemoveAt(config, path))
  }

  function Taken(config: Yaml, base: YamlPath, paths: seq<YamlPath>): seq<Component> {
    seq(|paths|, i requires 0 <= i < |paths| => Take(config, base + paths[i]))
  }

  function Components(config: Yaml): seq<Component> {
    Taken(config, [], Paths(config))
  }

  lemma {:induction false} TakenUnder(config: Yaml, base: YamlPath, step: Step, paths: seq<YamlPath>)
    ensures |Under(step, paths)| == |paths|
    ensures Taken(config, base, Under(step, paths)) == Taken(config, base + [step], paths)
  {
    if paths != [] {
      TakenUnder(config, base, step, paths[1..]);
      assert base + ([step] + paths[0]) == base + [step] + paths[0];
      var a, b := Taken(config, base, Under(step, paths)), Taken(config, base + [step], paths);
      assert a == [a[0]] + Taken(config, base, Under(step, paths[1..]));
      assert b == [b[0]] + Taken(config, base + [step], paths[1..]);
    }
  }

  lemma TakenHead(config: Yaml, base: YamlPath, step: Step, inner: seq<YamlPath>, rest: seq<YamlPath>)
    ensures Taken(config, base, [[step]] + Under(step, inner) + rest)
            == [Take(config, base + [step])] + Taken(config, base + [step], inner) + Taken(config, base, rest)
  {
    TakenUnder(config, base, step, inner);
  }

  lemma Regroup<T>(a: seq<T>, b: seq<T>, c: seq<T>, d: seq<T>)
    ensures a + (b + c + d) == a + b + c + d && a + [] == a
  {
  }

  method WalkGlobs(config: Yaml, base: YamlPath, globs: Yaml, before: seq<Component>) returns (found: seq<Component>)
    ensures found == before + Taken(config, base, GlobPaths(globs, 0))
  {
    found := before;
    if !globs.List? {
      assert before + [] == before;
      return;
    }
    for m := 0 to |globs.items|
      invariant before + Taken(config, base, GlobPaths(globs, 0)) == found + Taken(config, base, GlobPaths(globs, m))
    {
      TakenHead(config, base, Index(m), [], GlobPaths(globs, m + 1));
      found := found + [Take(config, base + [Index(m)])];
    }
    assert found + [] == found;
  }

  method WalkKeys(config: Yaml, base: YamlPath, globMap: Yaml, before: seq<Component>) returns (found: seq<Component>)
    ensures found == before + Taken(config, base, KeyPaths(globMap, 0))
  {
    found := before;
    if !globMap.Mapping? {
      assert before + [] == before;
      return;
    }
    for j := 0 to |globMap.pairs|
      invariant before + Taken(config, base, KeyPaths(globMap, 0)) == found + Taken(config, base, KeyPaths(globMap, j))
    {
      var step := Key(globMap.pairs[j].key);
      var globs := ChildOr(globMap, step);
      TakenHead(config, base, step, GlobPaths(globs, 0), KeyPaths(globMap, j + 1));
      Regroup(found, [Take(config, base + [step])], Taken(config, base + [step], GlobPaths(globs, 0)),
              Taken(config, base, KeyPaths(globMap, j + 1)));
      found := WalkGlobs(config, base + [step], globs, found + [Take(config, base + [step])]);
    }
    assert found + [] == found;
  }

  method WalkChangedFiles(config: Yaml, base: YamlPath, files: Yaml, before: seq<Component>) returns (found: seq<Component>)
    ensures found == before + Taken(config, base, FilesPaths(files, 0))
  {
    found := before;
    if !files.List? {
      assert before + [] == before;
      return;
    }
    for k := 0 to |files.items|
      invariant before + Taken(config, base, FilesPaths(files, 0)) == found + Taken(config, base, FilesPaths(files, k))
    {
      var step := Index(k);
      TakenHead(config, base, step, KeyPaths(files.items[k], 0), FilesPaths(files, k + 1));
      Regroup(found, [Take(config, base + [step])], Taken(config, base + [step], KeyPaths(files.items[k], 0)),
              Taken(config, base, FilesPaths(files, k + 1)));
      found := WalkKeys(config, base + [step], files.items[k], found + [Take(config, base + [step])]);
    }
    assert found + [] == found;
  }

  method WalkMatchEntries(config: Yaml, base: YamlPath, entries: Yaml, before: seq<Component>) returns (found: seq<Component>)
    ensures found == before + Taken(config, base, MatchPaths(entries, 0))
  {
    found := before;
    if !entries.List? {
      assert before + [] == before;
      return;
    }
    for j := 0 to |entries.items|
      invariant before + Taken(config, base, MatchPaths(entries, 0)) == found + Taken(config, base, MatchPaths(entries, j))
    {
      var step := Index(j);
      var files := ChildOr(entries.items[j], Key(FILES));
      ghost var inner := Under(Key(FILES), FilesPaths(files, 0));
      TakenHead(config, base, step, inner, MatchPaths(entries, j + 1));
      TakenUnder(config, base + [step], Key(FILES), FilesPaths(files, 0));
      Regroup(found, [Take(config, base + [step])], Taken(config, base + [step], inner),
              Taken(config, base, MatchPaths(entries, j + 1)));
      found := WalkChangedFiles(config, base + [step] + [Key(FILES)], files, found + [Take(config, base + [step])]);
    }
    assert found + [] == found;
  }

  method WalkOptions(config: Yaml, base: YamlPath, entry: Yaml, before: seq<Component>) returns (found: seq<Component>)
    ensures found == before + Taken(config, base, OptionPaths(entry, 0))
  {
    found := before;
    if !entry.Mapping? {
      assert before + [] == before;
      return;
    }
    for j := 0 to |entry.pairs|
      invariant before + Taken(config, base, OptionPaths(entry, 0)) == found + Taken(config, base, OptionPaths(entry, j))
    {
      var step := Key(entry.pairs[j].key);
      var value := ChildOr(entry, step);
      ghost var inner := ValuePaths(step.key, value);
      TakenHead(config, base, step, inner, OptionPaths(entry, j + 1));
      Regroup(found, [Take(config, base + [step])], Taken(config, base + [step], inner),
              Taken(config, base, OptionPaths(entry, j + 1)));
      found := found + [Take(config, base + [step])];
      if step.key == FILES {
        found := WalkChangedFiles(config, base + [step], value, found);
      } else if step.key == "any" || step.key == "all" {
        found := WalkMatchEntries(config, base + [step], value, found);
      } else {
        assert found + [] == found;
      }
    }
    assert found + [] == found;
  }

  method WalkEntries(config: Yaml, base: YamlPath, rules: Yaml, before: seq<Component>) returns (found: seq<Component>)
    ensures found == before + Taken(config, base, EntryPaths(rules, 0))
  {
    found := before;
    if !rules.List? {
      assert before + [] == before;
      return;
    }
    for i := 0 to |rules.items|
      invariant before + Taken(config, base, EntryPaths(rules, 0)) == found + Taken(config, base, EntryPaths(rules, i))
    {
      var step := Index(i);
      TakenHead(config, base, step, OptionPaths(rules.items[i], 0), EntryPaths(rules, i + 1));
      Regroup(found, [Take(config, base + [step])], Taken(config, base + [step], OptionPaths(rules.items[i], 0)),
              Taken(config, base, EntryPaths(rules, i + 1)));
      found := WalkOptions(config, base + [step], rules.items[i], found + [Take(config, base + [step])]);
    }
    assert found + [] == found;
  }

  method FindComponents(config: Yaml) returns (found: seq<Component>)
    ensures found == Components(config)
  {
    found := [];
    if !config.Mapping? {
      return;
    }
    for i := 0 to |config.pairs|
      invariant Taken(config, [], LabelPaths(config.pairs)) == found + Taken(config, [], LabelPaths(config.pairs[i..]))
    {
      var p := config.pairs[i];
      TakenLabel(config, config.pairs[i..], found);
      assert config.pairs[i..][1..] == config.pairs[i + 1..];
      found := WalkEntries(config, [Key(p.key)], p.value, found);
    }
    assert found + [] == found;
  }

  lemma TakenLabel(config: Yaml, pairs: seq<Pair>, before: seq<Component>)
    requires pairs != []
    ensures before + Taken(config, [], LabelPaths(pairs))
            == before + Taken(config, [Key(pairs[0].key)], EntryPaths(pairs[0].value, 0)) + Taken(config, [], LabelPaths(pairs[1..]))
  {
    var step := Key(pairs[0].key);
    TakenUnder(config, [], step, EntryPaths(pairs[0].value, 0));
    assert [] + [step] == [step];
    TakenBoth(config, [], Under(step, EntryPaths(pairs[0].value, 0)), LabelPaths(pairs[1..]));
  }

  lemma TakenBoth(config: Yaml, base: YamlPath, a: seq<YamlPath>, b: seq<YamlPath>)
    ensures Taken(config, base, a + b) == Taken(config, base, a) + Taken(config, base, b)
  {
  }
}
