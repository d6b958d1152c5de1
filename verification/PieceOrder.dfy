/** The pieces of a config come in the order the config has them, what is around a piece before it, and each once. */
module PieceOrder {
  import opened Prelude
  import opened LabelConfig
  import opened YamlPaths
  import opened Liveness

  /** No mapping in the tree says a key twice. */
  predicate Sound(node: Yaml) {
    && (node.Mapping? ==> Distinct(node.pairs))
    && forall n :: 0 <= n < Children(node) ==> Sound(At(node, n))
  }

  /** Reading the tree from the front, the node at `a` is met before the node at `b`. */
  predicate Before(node: Yaml, a: YamlPath, b: YamlPath)
    decreases |a|
  {
    && b != []
    && (a == [] ||
        var i, j := Child(node, a[0]), Child(node, b[0]);
        i < j || (i == j < Children(node) && Before(At(node, i), a[1..], b[1..])))
  }

  lemma {:induction false} NeverBeforeItself(node: Yaml, a: YamlPath)
    ensures !Before(node, a, a)
    decreases |a|
  {
    if a != [] && Child(node, a[0]) < Children(node) {
      NeverBeforeItself(At(node, Child(node, a[0])), a[1..]);
    }
  }

  /** The paths are in order, and none goes to a child before `from`. */
  ghost predicate InOrder(node: Yaml, paths: seq<YamlPath>, from: nat) {
    && (forall t :: t in paths ==> t != [] && from <= Child(node, t[0]))
    && forall i, j :: 0 <= i < j < |paths| ==> Before(node, paths[i], paths[j])
  }

  lemma {:induction false} UnderAt(step: Step, paths: seq<YamlPath>)
    ensures |Under(step, paths)| == |paths|
    ensures forall i :: 0 <= i < |paths| ==> Under(step, paths)[i] == [step] + paths[i]
  {
    if paths != [] {
      UnderAt(step, paths[1..]);
    }
  }

  lemma UnderInOrder(node: Yaml, step: Step, inner: seq<YamlPath>)
    requires Child(node, step) < Children(node) && InOrder(At(node, Child(node, step)), inner, 0)
    ensures InOrder(node, Under(step, inner), Child(node, step))
    ensures forall t :: t in Under(step, inner) ==> t[0] == step && t[1..] in inner
  {
    UnderAt(step, inner);
    forall t | t in Under(step, inner) ensures t[0] == step && t[1..] in inner {
      var i :| 0 <= i < |inner| && t == [step] + inner[i];
      assert t[1..] == inner[i];
    }
    forall i, j | 0 <= i < j < |inner| ensures Before(node, [step] + inner[i], [step] + inner[j]) {
      assert ([step] + inner[i])[1..] == inner[i] && ([step] + inner[j])[1..] == inner[j];
    }
  }

  lemma Joined(node: Yaml, a: seq<YamlPath>, b: seq<YamlPath>, n: nat)
    requires InOrder(node, a, n) && InOrder(node, b, n + 1) && forall t :: t in a ==> Child(node, t[0]) == n
    ensures InOrder(node, a + b, n)
  {
    var all := a + b;
    forall i, j | 0 <= i < j < |all| ensures Before(node, all[i], all[j]) {
      if i < |a| <= j {
        assert all[i] in a && all[j] in b;
      }
    }
  }

  /** A child, what is under it, and what comes after it. */
  lemma Level(node: Yaml, step: Step, inner: seq<YamlPath>, rest: seq<YamlPath>)
    requires Child(node, step) < Children(node) && InOrder(At(node, Child(node, step)), inner, 0)
    requires InOrder(node, rest, Child(node, step) + 1)
    ensures InOrder(node, [[step]] + Under(step, inner) + rest, Child(node, step))
  {
    UnderInOrder(node, step, inner);
    var a, b := [[step]], Under(step, inner);
    forall i, j | 0 <= i < j < |a + b| ensures Before(node, (a + b)[i], (a + b)[j]) {
      if i == 0 {
        assert (a + b)[j] in b && [step][1..] == [];
      } else {
        assert (a + b)[i] == b[i - 1] && (a + b)[j] == b[j - 1];
      }
    }
    Joined(node, a + b, rest, Child(node, step));
  }

  lemma KeyAt(node: Yaml, j: nat)
    requires node.Mapping? && Distinct(node.pairs) && j < |node.pairs|
    ensures Child(node, Key(node.pairs[j].key)) == j && ChildOr(node, Key(node.pairs[j].key)) == At(node, j)
  {
  }

  lemma {:induction false} Globs(node: Yaml, m: nat)
    ensures InOrder(node, GlobPaths(node, m), m)
    decreases Children(node) - m
  {
    if node.List? && m < |node.items| {
      Globs(node, m + 1);
      Level(node, Index(m), [], GlobPaths(node, m + 1));
    }
  }

  lemma {:induction false} Keys(node: Yaml, j: nat)
    requires Sound(node)
    ensures InOrder(node, KeyPaths(node, j), j)
    decreases Children(node) - j
  {
    if node.Mapping? && j < |node.pairs| {
      Keys(node, j + 1);
      KeyAt(node, j);
      Globs(At(node, j), 0);
      Level(node, Key(node.pairs[j].key), GlobPaths(At(node, j), 0), KeyPaths(node, j + 1));
    }
  }

  lemma {:induction false} Files(node: Yaml, k: nat)
    requires Sound(node)
    ensures InOrder(node, FilesPaths(node, k), k)
    decreases Children(node) - k
  {
    if node.List? && k < |node.items| {
      Files(node, k + 1);
      Keys(At(node, k), 0);
      Level(node, Index(k), KeyPaths(node.items[k], 0), FilesPaths(node, k + 1));
    }
  }

  lemma FilesOf(entry: Yaml)
    requires Sound(entry)
    ensures InOrder(entry, Under(Key(FILES), FilesPaths(ChildOr(entry, Key(FILES)), 0)), 0)
  {
    var n := Child(entry, Key(FILES));
    if n < Children(entry) {
      Files(At(entry, n), 0);
      UnderInOrder(entry, Key(FILES), FilesPaths(At(entry, n), 0));
    }
  }

  lemma {:induction false} Matches(node: Yaml, j: nat)
    requires Sound(node)
    ensures InOrder(node, MatchPaths(node, j), j)
    decreases Children(node) - j
  {
    if node.List? && j < |node.items| {
      Matches(node, j + 1);
      FilesOf(At(node, j));
      Level(node, Index(j), Under(Key(FILES), FilesPaths(ChildOr(node.items[j], Key(FILES)), 0)), MatchPaths(node, j + 1));
    }
  }

  lemma Values(key: string, value: Yaml)
    requires Sound(value)
    ensures InOrder(value, ValuePaths(key, value), 0)
  {
    Files(value, 0);
    Matches(value, 0);
  }

  lemma {:induction false} Options(node: Yaml, j: nat)
    requires Sound(node)
    ensures InOrder(node, OptionPaths(node, j), j)
    decreases Children(node) - j
  {
    if node.Mapping? && j < |node.pairs| {
      Options(node, j + 1);
      KeyAt(node, j);
      var key := node.pairs[j].key;
      Values(key, At(node, j));
      Level(node, Key(key), ValuePaths(key, At(node, j)), OptionPaths(node, j + 1));
    }
  }

  lemma {:induction false} Entries(node: Yaml, i: nat)
    requires Sound(node)
    ensures InOrder(node, EntryPaths(node, i), i)
    decreases Children(node) - i
  {
    if node.List? && i < |node.items| {
      Entries(node, i + 1);
      Options(At(node, i), 0);
      Level(node, Index(i), OptionPaths(node.items[i], 0), EntryPaths(node, i + 1));
    }
  }

  /** One more label in front: every other is one child further on. */
  lemma Further(pairs: seq<Pair>, paths: seq<YamlPath>)
    requires pairs != [] && InOrder(Mapping(pairs[1..]), paths, 0)
    requires forall t :: t in paths ==> t[0] != Key(pairs[0].key)
    ensures InOrder(Mapping(pairs), paths, 1)
  {
    var all, rest := Mapping(pairs), Mapping(pairs[1..]);
    forall t | t in paths ensures Child(all, t[0]) == Child(rest, t[0]) + 1 {
    }
    forall i, j | 0 <= i < j < |paths| ensures Before(all, paths[i], paths[j]) {
      assert paths[i] in paths && paths[j] in paths && Before(rest, paths[i], paths[j]);
    }
  }

  lemma {:induction false} LabelsInOrder(pairs: seq<Pair>)
    requires Sound(Mapping(pairs))
    ensures InOrder(Mapping(pairs), LabelPaths(pairs), 0)
  {
    if pairs != [] {
      var all, rest := Mapping(pairs), LabelPaths(pairs[1..]);
      SoundRest(pairs);
      LabelsInOrder(pairs[1..]);
      forall t | t in rest ensures t[0] != Key(pairs[0].key) {
        LabelMember(pairs[1..], t);
        assert KeyIndex(pairs[1..], pairs[0].key) == |pairs[1..]|;
      }
      Further(pairs, rest);
      KeyAt(all, 0);
      assert Sound(At(all, 0));
      Entries(pairs[0].value, 0);
      UnderInOrder(all, Key(pairs[0].key), EntryPaths(pairs[0].value, 0));
      Joined(all, Under(Key(pairs[0].key), EntryPaths(pairs[0].value, 0)), rest, 0);
    }
  }

  lemma SoundRest(pairs: seq<Pair>)
    requires pairs != [] && Sound(Mapping(pairs))
    ensures Sound(Mapping(pairs[1..])) && KeyIndex(pairs[1..], pairs[0].key) == |pairs[1..]|
  {
    forall n | 0 <= n < |pairs| - 1 ensures Sound(At(Mapping(pairs[1..]), n)) {
      assert At(Mapping(pairs[1..]), n) == At(Mapping(pairs), n + 1);
    }
  }

  /** The pieces of a config are found in the order it has them, and none is found twice. */
  lemma InOrderAndOnce(config: Yaml, i: nat, j: nat)
    requires Sound(config) && i < j < |Components(config)|
    ensures var found := Components(config);
      Before(config, found[i].place, found[j].place) && found[i].place != found[j].place
  {
    LabelsInOrder(config.pairs);
    var paths := Paths(config);
    assert [] + paths[i] == paths[i] && [] + paths[j] == paths[j];
    NeverBeforeItself(config, paths[i]);
  }
}
