/** Looking at and removing one node of a YAML tree. */
module YamlPaths {
  import opened Prelude
  import opened LabelConfig

  datatype Step = Key(key: string) | Index(index: nat)

  type YamlPath = seq<Step>

  /** Where the first pair with `key` is, or how many pairs there are. */
  function KeyIndex(pairs: seq<Pair>, key: string): (n: nat)
    ensures n <= |pairs|
    ensures n < |pairs| ==> pairs[n].key == key
    ensures forall i :: 0 <= i < n ==> pairs[i].key != key
  {
    if pairs == [] || pairs[0].key == key then 0 else 1 + KeyIndex(pairs[1..], key)
  }

  /** The child a step leads to, or how many children there are when it leads nowhere. */
  function Child(node: Yaml, step: Step): (n: nat)
    ensures n <= Children(node)
  {
    if node.List? && step.Index? && step.index < |node.items| then step.index
    else if node.Mapping? && step.Key? then KeyIndex(node.pairs, step.key)
    else Children(node)
  }

  function Children(node: Yaml): nat {
    if node.List? then |node.items| else if node.Mapping? then |node.pairs| else 0
  }

  function At(node: Yaml, n: nat): (child: Yaml)
    requires n < Children(node)
    ensures child < node
  {
    if node.List? then node.items[n] else node.pairs[n].value
  }

  function With(node: Yaml, n: nat, child: Yaml): Yaml
    requires n < Children(node)
  {
    if node.List? then List(node.items[n := child]) else Mapping(node.pairs[n := node.pairs[n].(value := child)])
  }

  function Without(node: Yaml, n: nat): Yaml
    requires n < Children(node)
  {
    if node.List? then List(node.items[..n] + node.items[n + 1..]) else Mapping(node.pairs[..n] + node.pairs[n + 1..])
  }

  /** `valueAt`: the node at a path, if the tree goes that deep. */
  function ValueAt(node: Yaml, path: YamlPath): Option<Yaml> {
    if path == [] then Some(node)
    else
      var n := Child(node, path[0]);
      if n == Children(node) then None else ValueAt(At(node, n), path[1..])
  }

  /** `removeAt`: the tree without the node at a path; the same tree, when there is no such node. */
  function RemoveAt(node: Yaml, path: YamlPath): Yaml {
    if path == [] then node
    else
      var n := Child(node, path[0]);
      if n == Children(node) then node
      else if |path| == 1 then Without(node, n)
      else With(node, n, RemoveAt(At(node, n), path[1..]))
  }

  // ----- What a removal removes, and what it leaves -----

  lemma {:induction false} KeyIndexSame(a: seq<Pair>, b: seq<Pair>, key: string)
    requires |a| == |b| && forall i :: 0 <= i < |a| ==> a[i].key == b[i].key
    ensures KeyIndex(a, key) == KeyIndex(b, key)
  {
    if a != [] && a[0].key != key {
      KeyIndexSame(a[1..], b[1..], key);
    }
  }

  /** A tree with one child replaced reads as the new child below that one, and as it did everywhere else. */
  lemma Through(node: Yaml, n: nat, child: Yaml, path: YamlPath)
    requires n < Children(node) && path != []
    ensures Child(With(node, n, child), path[0]) == Child(node, path[0])
    ensures ValueAt(With(node, n, child), path)
            == if Child(node, path[0]) == n then ValueAt(child, path[1..]) else ValueAt(node, path)
  {
    if node.Mapping? && path[0].Key? {
      KeyIndexSame(With(node, n, child).pairs, node.pairs, path[0].key);
    }
  }

  function Parent(path: YamlPath): YamlPath
    requires path != []
  {
    path[..|path| - 1]
  }

  function Last(path: YamlPath): Step
    requires path != []
  {
    path[|path| - 1]
  }

  /** A path below the root goes through its first step, and so does its parent. */
  lemma ParentTail(path: YamlPath)
    requires |path| > 1
    ensures Parent(path)[0] == path[0] && Parent(path)[1..] == Parent(path[1..]) && Last(path[1..]) == Last(path)
  {
  }

  /** Removing what is not there changes nothing. */
  lemma {:induction false} NothingRemoved(node: Yaml, path: YamlPath)
    requires ValueAt(node, path).None?
    ensures RemoveAt(node, path) == node
  {
    var n := Child(node, path[0]);
    if n < Children(node) && |path| > 1 {
      NothingRemoved(At(node, n), path[1..]);
    }
  }

  /** An element removed from a list leaves the list without it, one shorter, and the others in their order. */
  lemma {:induction false} RemovedFromList(node: Yaml, path: YamlPath)
    requires path != [] && ValueAt(node, path).Some? && Last(path).Index?
    ensures var list := ValueAt(node, Parent(path));
      && list.Some? && list.value.List? && Last(path).index < |list.value.items|
      && var items, n := list.value.items, Last(path).index;
      ValueAt(RemoveAt(node, path), Parent(path)) == Some(List(items[..n] + items[n + 1..]))
    decreases |path|
  {
    var n := Child(node, path[0]);
    if |path| > 1 {
      RemovedFromList(At(node, n), path[1..]);
      ParentTail(path);
      Through(node, n, RemoveAt(At(node, n), path[1..]), Parent(path));
    }
  }

  /** The parent of a key that is there is a mapping. */
  lemma {:induction false} InMapping(node: Yaml, path: YamlPath)
    requires path != [] && ValueAt(node, path).Some? && Last(path).Key?
    ensures var mapping := ValueAt(node, Parent(path)); mapping.Some? && mapping.value.Mapping?
    decreases |path|
  {
    if |path| > 1 {
      ParentTail(path);
      InMapping(At(node, Child(node, path[0])), path[1..]);
    }
  }

  /** A key removed from a mapping is gone. */
  lemma {:induction false} RemovedKey(node: Yaml, path: YamlPath)
    requires path != [] && ValueAt(node, path).Some? && Last(path).Key?
    requires ValueAt(node, Parent(path)).Some? && ValueAt(node, Parent(path)).value.Mapping?
    requires Distinct(ValueAt(node, Parent(path)).value.pairs)
    ensures ValueAt(RemoveAt(node, path), path).None?
    decreases |path|
  {
    var n := Child(node, path[0]);
    if |path| == 1 {
      KeyRemoved(node.pairs, n, "");
    } else {
      ParentTail(path);
      RemovedKey(At(node, n), path[1..]);
      Through(node, n, RemoveAt(At(node, n), path[1..]), path);
    }
  }

  /** And every other key of that mapping has the value it had. */
  lemma {:induction false} OtherKeysStay(node: Yaml, path: YamlPath, other: string)
    requires path != [] && ValueAt(node, path).Some? && Last(path).Key? && other != Last(path).key
    ensures ValueAt(RemoveAt(node, path), Parent(path) + [Key(other)]) == ValueAt(node, Parent(path) + [Key(other)])
    decreases |path|
  {
    var n := Child(node, path[0]);
    var there := Parent(path) + [Key(other)];
    if |path| == 1 {
      assert there == [Key(other)] && there[1..] == [];
      KeyRemoved(node.pairs, n, other);
    } else {
      ParentTail(path);
      OtherKeysStay(At(node, n), path[1..], other);
      assert there[0] == path[0] && there[1..] == Parent(path[1..]) + [Key(other)];
      Through(node, n, RemoveAt(At(node, n), path[1..]), there);
    }
  }

  /** No key twice. */
  predicate Distinct(pairs: seq<Pair>) {
    forall i, j :: 0 <= i < j < |pairs| ==> pairs[i].key != pairs[j].key
  }

  lemma KeyRemoved(pairs: seq<Pair>, n: nat, other: string)
    requires n < |pairs|
    ensures var rest := pairs[..n] + pairs[n + 1..];
      && (Distinct(pairs) ==> KeyIndex(rest, pairs[n].key) == |rest|)
      && (other != pairs[n].key ==>
            var i, j := KeyIndex(pairs, other), KeyIndex(rest, other);
            (i == |pairs| <==> j == |rest|) && (i < |pairs| ==> rest[j] == pairs[i]))
  {
    var rest := pairs[..n] + pairs[n + 1..];
    assert forall j :: 0 <= j < |rest| ==> rest[j] == pairs[if j < n then j else j + 1];
    if other != pairs[n].key {
      var i, j := KeyIndex(pairs, other), KeyIndex(rest, other);
      if i < |pairs| {
        assert rest[if i < n then i else i - 1] == pairs[i];
      }
    }
  }

  /** And whatever is neither above the place it is removed from nor below it reads as it did. */
  lemma {:induction false} RemovedNowhereElse(node: Yaml, path: YamlPath, elsewhere: YamlPath)
    requires path != [] && !(Parent(path) <= elsewhere) && !(elsewhere <= Parent(path))
    ensures ValueAt(RemoveAt(node, path), elsewhere) == ValueAt(node, elsewhere)
    decreases |path|
  {
    var n := Child(node, path[0]);
    assert elsewhere != [] && |path| > 1;
    if n < Children(node) {
      ParentTail(path);
      Through(node, n, RemoveAt(At(node, n), path[1..]), elsewhere);
      if Child(node, elsewhere[0]) == n {
        SameStep(node, path[0], elsewhere[0]);
        assert Parent(path) == [path[0]] + Parent(path[1..]) && elsewhere == [elsewhere[0]] + elsewhere[1..];
        RemovedNowhereElse(At(node, n), path[1..], elsewhere[1..]);
      }
    }
  }

  /** Two steps that lead to one child are one step. */
  lemma SameStep(node: Yaml, a: Step, b: Step)
    requires Child(node, a) == Child(node, b) < Children(node)
    ensures a == b
  {
  }
}
