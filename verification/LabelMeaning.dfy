/** What a label's rules mean, said without compiling them, and that compiling and checking them comes to that. */
module LabelMeaning {
  import opened Prelude
  import opened LabelConfig
  import opened LabelMatching

  /** What a rule says: a condition that stands on its own, or an explicit block. */
  datatype Item = Bare(m: BaseMatch) | AnyOf(ms: seq<BaseMatch>) | AllOf(ms: seq<BaseMatch>)

  predicate ItemHolds(m: Matcher, files: seq<string>, item: Item) {
    match item
    case Bare(b) => AnyHolds(m, files, [b])
    case AnyOf(ms) => AnyHolds(m, files, ms)
    case AllOf(ms) => AllHolds(m, files, ms)
  }

  /** The first item that is not an `all`, or how many items there are. */
  function FirstOpen(items: seq<Item>): (n: nat)
    ensures n <= |items|
    ensures n < |items| ==> !items[n].AllOf?
    ensures forall i :: 0 <= i < n ==> items[i].AllOf?
  {
    if items == [] || !items[0].AllOf? then 0 else 1 + FirstOpen(items[1..])
  }

  /**
    * The first item that is not an `all` and every condition standing on its own are one choice, of which one must
    * hold; every other block must hold.
    */
  predicate Meaning(m: Matcher, files: seq<string>, items: seq<Item>) {
    var f := FirstOpen(items);
    && (forall i :: 0 <= i < |items| && i != f && !items[i].Bare? ==> ItemHolds(m, files, items[i]))
    && (f < |items| ==>
          exists i :: f <= i < |items| && (i == f || items[i].Bare?) && ItemHolds(m, files, items[i]))
  }

  // ----- What is written is placed in order -----

  function ItemOf(p: Pair): seq<Item> {
    if p.key == "any" || p.key == "all" then
      if !p.value.List? || MatchEntries(p.value.items).Err? then []
      else
        var ms := MatchEntries(p.value.items).value;
        [if p.key == "any" then AnyOf(ms) else AllOf(ms)]
    else
      var m := MatchEntry(Mapping([p]));
      if m.Err? then [] else [Bare(m.value)]
  }

  function PairItems(pairs: seq<Pair>): seq<Item> {
    if pairs == [] then [] else ItemOf(pairs[0]) + PairItems(pairs[1..])
  }

  function Items(entries: seq<Yaml>): seq<Item> {
    if entries == [] then [] else PairItems(Options(entries[0])) + Items(entries[1..])
  }

  function Place(blocks: seq<MatchConfig>, item: Item): seq<MatchConfig> {
    match item
    case Bare(m) => Join(blocks, m)
    case AnyOf(ms) => blocks + [MatchConfig(None, Some(ms))]
    case AllOf(ms) => blocks + [MatchConfig(Some(ms), None)]
  }

  function PlaceAll(blocks: seq<MatchConfig>, items: seq<Item>): seq<MatchConfig>
    decreases |items|
  {
    if items == [] then blocks else PlaceAll(Place(blocks, items[0]), items[1..])
  }

  lemma {:induction false} PlaceMore(blocks: seq<MatchConfig>, items: seq<Item>, more: seq<Item>)
    ensures PlaceAll(blocks, items + more) == PlaceAll(PlaceAll(blocks, items), more)
    decreases |items|
  {
    if items == [] {
      assert items + more == more;
    } else {
      assert (items + more)[1..] == items[1..] + more;
      PlaceMore(Place(blocks, items[0]), items[1..], more);
    }
  }

  lemma {:induction false} PairsPlaced(name: string, blocks: seq<MatchConfig>, pairs: seq<Pair>)
    requires TakePairs(name, blocks, pairs).Ok?
    ensures TakePairs(name, blocks, pairs).value == PlaceAll(blocks, PairItems(pairs))
    decreases |pairs|
  {
    if pairs != [] {
      var next := TakePair(name, blocks, pairs[0]).value;
      PairsPlaced(name, next, pairs[1..]);
      PlaceMore(blocks, ItemOf(pairs[0]), PairItems(pairs[1..]));
      assert next == PlaceAll(blocks, ItemOf(pairs[0]));
    }
  }

  lemma {:induction false} EntriesPlaced(name: string, blocks: seq<MatchConfig>, entries: seq<Yaml>)
    requires TakeEntries(name, blocks, entries).Ok?
    ensures TakeEntries(name, blocks, entries).value == PlaceAll(blocks, Items(entries))
    decreases |entries|
  {
    if entries != [] {
      var options := Options(entries[0]);
      PairsPlaced(name, blocks, options);
      EntriesPlaced(name, TakePairs(name, blocks, options).value, entries[1..]);
      PlaceMore(blocks, PairItems(options), Items(entries[1..]));
    }
  }

  // ----- What is placed means what is written -----

  predicate SomeBare(m: Matcher, files: seq<string>, items: seq<Item>) {
    exists i :: 0 <= i < |items| && items[i].Bare? && ItemHolds(m, files, items[i])
  }

  predicate EveryBlock(m: Matcher, files: seq<string>, items: seq<Item>) {
    forall i :: 0 <= i < |items| && !items[i].Bare? ==> ItemHolds(m, files, items[i])
  }

  lemma Unfold(m: Matcher, files: seq<string>, items: seq<Item>)
    requires items != []
    ensures var (x, rest) := (items[0], items[1..]);
      && (SomeBare(m, files, items) <==> (x.Bare? && ItemHolds(m, files, x)) || SomeBare(m, files, rest))
      && (EveryBlock(m, files, items) <==> (x.Bare? || ItemHolds(m, files, x)) && EveryBlock(m, files, rest))
  {
    var x, rest := items[0], items[1..];
    assert items == [x] + rest;
    if SomeBare(m, files, rest) {
      var i :| 0 <= i < |rest| && rest[i].Bare? && ItemHolds(m, files, rest[i]);
      assert items[i + 1] == rest[i];
    }
    if EveryBlock(m, files, items) {
      forall i | 0 <= i < |rest| && !rest[i].Bare? ensures ItemHolds(m, files, rest[i]) {
        assert items[i + 1] == rest[i];
      }
    }
  }

  lemma UnfoldMeaning(m: Matcher, files: seq<string>, items: seq<Item>)
    requires items != []
    ensures var (x, rest) := (items[0], items[1..]);
      Meaning(m, files, items) <==>
        if x.AllOf? then ItemHolds(m, files, x) && Meaning(m, files, rest)
        else (ItemHolds(m, files, x) || SomeBare(m, files, rest)) && EveryBlock(m, files, rest)
  {
    var x, rest := items[0], items[1..];
    assert items == [x] + rest;
    assert forall i :: 0 <= i < |rest| ==> rest[i] == items[i + 1];
    assert forall i :: 0 < i < |items| ==> items[i] == rest[i - 1];
    if x.AllOf? {
      assert FirstOpen(items) == FirstOpen(rest) + 1;
    } else {
      assert FirstOpen(items) == 0;
    }
  }

  lemma AnyMore(m: Matcher, files: seq<string>, ms: seq<BaseMatch>, b: BaseMatch)
    ensures AnyHolds(m, files, ms + [b]) <==> AnyHolds(m, files, ms) || AnyHolds(m, files, [b])
  {
  }

  predicate Others(m: Matcher, files: seq<string>, blocks: seq<MatchConfig>, n: nat) {
    forall k :: 0 <= k < |blocks| && k != n ==> BlockHolds(m, files, blocks[k])
  }

  predicate OneKind(blocks: seq<MatchConfig>) {
    forall b :: b in blocks ==> (b.all.Some? <==> b.any.None?)
  }

  lemma {:induction false} FirstAnyIs(blocks: seq<MatchConfig>, n: nat)
    requires n <= |blocks| && (forall i :: 0 <= i < n ==> blocks[i].any.None?) && (n < |blocks| ==> blocks[n].any.Some?)
    ensures FirstAny(blocks) == n
  {
    if n > 0 {
      FirstAnyIs(blocks[1..], n - 1);
    }
  }

  /** Once there is an `any`, what stands on its own goes into it and everything else is one more demand. */
  lemma {:induction false} PlacedIntoAny(m: Matcher, files: seq<string>, blocks: seq<MatchConfig>, items: seq<Item>)
    requires OneKind(blocks) && FirstAny(blocks) < |blocks|
    ensures var n := FirstAny(blocks);
      Applies(m, files, PlaceAll(blocks, items)) <==>
        && Others(m, files, blocks, n)
        && (AnyHolds(m, files, blocks[n].any.value) || SomeBare(m, files, items))
        && EveryBlock(m, files, items)
    decreases |items|
  {
    var n := FirstAny(blocks);
    if items == [] {
      assert blocks[n] in blocks;
    } else {
      var next := Place(blocks, items[0]);
      FirstAnyIs(next, n);
      PlacedIntoAny(m, files, next, items[1..]);
      Unfold(m, files, items);
      if items[0].Bare? {
        AnyMore(m, files, blocks[n].any.value, items[0].m);
      } else {
        assert next[|blocks|].all.Some? || next[|blocks|].any.Some?;
        assert BlockHolds(m, files, next[|blocks|]) <==> ItemHolds(m, files, items[0]);
      }
      OthersPlaced(m, files, blocks, items[0]);
    }
  }

  lemma OthersPlaced(m: Matcher, files: seq<string>, blocks: seq<MatchConfig>, item: Item)
    requires FirstAny(blocks) < |blocks|
    ensures var n := FirstAny(blocks);
      Others(m, files, Place(blocks, item), n) <==>
        Others(m, files, blocks, n) && (item.Bare? || ItemHolds(m, files, item))
  {
    var n, next := FirstAny(blocks), Place(blocks, item);
    assert forall k :: 0 <= k < |blocks| && k != n ==> next[k] == blocks[k];
    if !item.Bare? {
      assert BlockHolds(m, files, next[|blocks|]) <==> ItemHolds(m, files, item);
    }
  }

  lemma {:induction false} Placed(m: Matcher, files: seq<string>, blocks: seq<MatchConfig>, items: seq<Item>)
    requires OneKind(blocks) && FirstAny(blocks) == |blocks|
    ensures Applies(m, files, PlaceAll(blocks, items)) <==> Applies(m, files, blocks) && Meaning(m, files, items)
    decreases |items|
  {
    if items != [] {
      var next := Place(blocks, items[0]);
      UnfoldMeaning(m, files, items);
      assert next[..|blocks|] == blocks && |next| == |blocks| + 1;
      var last := next[|blocks|];
      assert last in next && forall b :: b in next <==> b in blocks || b == last;
      if items[0].AllOf? {
        FirstAnyIs(next, |next|);
        Placed(m, files, next, items[1..]);
      } else {
        FirstAnyIs(next, |blocks|);
        PlacedIntoAny(m, files, next, items[1..]);
        assert Others(m, files, next, |blocks|) <==> Applies(m, files, blocks) by {
          assert forall b :: b in blocks ==> exists k :: 0 <= k < |blocks| && next[k] == b;
        }
      }
    }
  }

  lemma {:induction false} PlaceGrows(blocks: seq<MatchConfig>, items: seq<Item>)
    ensures PlaceAll(blocks, items) == [] <==> blocks == [] && items == []
    decreases |items|
  {
    if items != [] {
      PlaceGrows(Place(blocks, items[0]), items[1..]);
    }
  }

  // ----- Which labels a config gives -----

  /** The rules say something, and what they say is so. */
  predicate Earned(m: Matcher, files: seq<string>, p: Pair) {
    p.value.List? && Items(p.value.items) != [] && Meaning(m, files, Items(p.value.items))
  }

  lemma RulesMean(m: Matcher, files: seq<string>, p: Pair)
    requires Rules(p.key, p.value).Ok?
    ensures var blocks := Rules(p.key, p.value).value;
      blocks != [] && Applies(m, files, blocks) <==> Earned(m, files, p)
  {
    var items := Items(p.value.items);
    EntriesPlaced(p.key, [], p.value.items);
    PlaceGrows([], items);
    Placed(m, files, [], items);
  }

  lemma {:induction false} AppliedMean(m: Matcher, files: seq<string>, pairs: seq<Pair>)
    requires Labels(pairs).Ok?
    ensures Applied(m, files, Labels(pairs).value) == Names(m, files, pairs)
  {
    if pairs != [] {
      AppliedMean(m, files, pairs[1..]);
      RulesMean(m, files, pairs[0]);
      var blocks := Rules(pairs[0].key, pairs[0].value).value;
      if blocks != [] {
        assert Labels(pairs).value == [Labelled(pairs[0].key, blocks)] + Labels(pairs[1..]).value;
      } else {
        assert Labels(pairs).value == Labels(pairs[1..]).value;
      }
    }
  }

  /** The labels that are earned, as they are written. */
  function Names(m: Matcher, files: seq<string>, pairs: seq<Pair>): seq<string> {
    if pairs == [] then []
    else (if Earned(m, files, pairs[0]) then [pairs[0].key] else []) + Names(m, files, pairs[1..])
  }

  lemma {:induction false} NamesMember(m: Matcher, files: seq<string>, pairs: seq<Pair>, name: string)
    ensures name in Names(m, files, pairs) <==> exists p :: p in pairs && p.key == name && Earned(m, files, p)
  {
    if pairs != [] {
      NamesMember(m, files, pairs[1..], name);
      assert pairs == [pairs[0]] + pairs[1..];
    }
  }

  /** The labels of a pull request are exactly those whose rules, as they are written, hold of its files; in order. */
  lemma LabelsMean(m: Matcher, files: seq<string>, config: Yaml, name: string)
    requires Compiled(config).Ok?
    ensures var labels := LabelsOf(m, files, Compiled(config).value);
      && Sorted(labels)
      && (name in labels <==> exists p :: p in config.pairs && p.key == name && Earned(m, files, p))
  {
    var applied := Applied(m, files, Compiled(config).value);
    AppliedMean(m, files, config.pairs);
    NamesMember(m, files, config.pairs, name);
    SortSorted(applied);
    assert name in applied <==> name in multiset(applied);
  }

  // ----- What that makes of a few lists -----

  /** Conditions that all stand on their own are a choice. */
  lemma BareAreOred(m: Matcher, files: seq<string>, items: seq<Item>)
    requires items != [] && forall i :: 0 <= i < |items| ==> items[i].Bare?
    ensures Meaning(m, files, items) <==> exists i :: 0 <= i < |items| && ItemHolds(m, files, items[i])
  {
  }

  /** A condition and an `any` are two demands in one order, and one choice in the other. */
  lemma OrderDecides(m: Matcher, files: seq<string>, b: BaseMatch, ms: seq<BaseMatch>)
    ensures Meaning(m, files, [Bare(b), AnyOf(ms)]) <==> AnyHolds(m, files, [b]) && AnyHolds(m, files, ms)
    ensures Meaning(m, files, [AnyOf(ms), Bare(b)]) <==> AnyHolds(m, files, [b]) || AnyHolds(m, files, ms)
  {
    UnfoldMeaning(m, files, [Bare(b), AnyOf(ms)]);
    UnfoldMeaning(m, files, [AnyOf(ms), Bare(b)]);
    assert [Bare(b), AnyOf(ms)][1..] == [AnyOf(ms)] && [AnyOf(ms), Bare(b)][1..] == [Bare(b)];
    Unfold(m, files, [AnyOf(ms)]);
    Unfold(m, files, [Bare(b)]);
  }

  // ----- What one `changed-files` asks, key by key -----

  /** The four keys, as their names read. */
  predicate Says(m: Matcher, files: seq<string>, p: Pair) {
    var globs := Globs(p.value);
    if p.key == "any-glob-to-any-file" then exists g, f :: g in globs && f in files && m(g, f)
    else if p.key == "any-glob-to-all-files" then exists g :: g in globs && forall f :: f in files ==> m(g, f)
    else if p.key == "all-globs-to-any-file" then exists f :: f in files && forall g :: g in globs ==> m(g, f)
    else forall f, g :: f in files && g in globs ==> m(g, f)
  }

  lemma KeySays(m: Matcher, files: seq<string>, p: Pair)
    requires "" !in files && GlobKeyOf(p.key).Some?
    ensures Holds(m, files, FilesConfig(GlobKeyOf(p.key).value, Globs(p.value))) <==> Says(m, files, p)
  {
    PlainMeaning(m, files, Globs(p.value));
  }

  predicate SomeKey(m: Matcher, files: seq<string>, pairs: seq<Pair>) {
    exists p :: p in pairs && Says(m, files, p)
  }

  predicate EveryKey(m: Matcher, files: seq<string>, pairs: seq<Pair>) {
    forall p :: p in pairs ==> Says(m, files, p)
  }

  lemma {:induction false} KeysSay(m: Matcher, files: seq<string>, pairs: seq<Pair>)
    requires "" !in files && Invalid(pairs) == []
    ensures (exists c :: c in KeyConfigs(pairs) && Holds(m, files, c)) <==> SomeKey(m, files, pairs)
    ensures (forall c :: c in KeyConfigs(pairs) ==> Holds(m, files, c)) <==> EveryKey(m, files, pairs)
  {
    if pairs != [] {
      KeysSay(m, files, pairs[1..]);
      KeySays(m, files, pairs[0]);
      var first := FilesConfig(GlobKeyOf(pairs[0].key).value, Globs(pairs[0].value));
      assert forall c :: c in KeyConfigs(pairs) <==> c == first || c in KeyConfigs(pairs[1..]);
      assert forall p :: p in pairs <==> p == pairs[0] || p in pairs[1..];
    }
  }

  lemma {:induction false} MappingsSay(m: Matcher, files: seq<string>, entries: seq<Yaml>)
    requires "" !in files && GlobMappings(entries).Ok?
    ensures forall e :: e in entries ==> e.Mapping?
    ensures (exists c :: c in GlobMappings(entries).value && Holds(m, files, c))
            <==> exists e :: e in entries && SomeKey(m, files, e.pairs)
    ensures (forall c :: c in GlobMappings(entries).value ==> Holds(m, files, c))
            <==> forall e :: e in entries ==> EveryKey(m, files, e.pairs)
  {
    if entries != [] {
      MappingsSay(m, files, entries[1..]);
      KeysSay(m, files, entries[0].pairs);
      var first, rest := KeyConfigs(entries[0].pairs), GlobMappings(entries[1..]).value;
      assert forall c :: c in GlobMappings(entries).value <==> c in first || c in rest;
      assert forall e :: e in entries <==> e == entries[0] || e in entries[1..];
    }
  }

  /**
    * A list under `changed-files` that is accepted asks, on its own or under `any`, that some key of some mapping
    * holds; under `all`, that there is a file and every key of every mapping holds. Two keys of one mapping are no
    * more joined than two mappings.
    */
  lemma ChangedFilesSay(m: Matcher, files: seq<string>, entries: seq<Yaml>)
    requires "" !in files && entries != [] && GlobMappings(entries).Ok?
    ensures var condition := Mapping([Pair("changed-files", List(entries))]);
      && (forall e :: e in entries ==> e.Mapping?)
      && MatchEntry(condition).Ok?
      && (AnyHolds(m, files, [MatchEntry(condition).value]) <==> exists e :: e in entries && SomeKey(m, files, e.pairs))
      && (AllHolds(m, files, [MatchEntry(condition).value]) <==>
            files != [] && forall e :: e in entries ==> EveryKey(m, files, e.pairs))
  {
    ConditionIs(entries);
    MappingsSay(m, files, entries);
    OneCondition(m, files, GlobMappings(entries).value);
  }

  lemma ConditionIs(entries: seq<Yaml>)
    requires entries != [] && GlobMappings(entries).Ok?
    ensures MatchEntry(Mapping([Pair("changed-files", List(entries))])) == Ok(BaseMatch(Some(GlobMappings(entries).value)))
  {
    var pairs := [Pair("changed-files", List(entries))];
    LookupOne("changed-files", List(entries), "changed-files");
    LookupOne("changed-files", List(entries), "head-branch");
    LookupOne("changed-files", List(entries), "base-branch");
  }

  lemma LookupOne(key: string, value: Yaml, wanted: string)
    ensures Lookup([Pair(key, value)], wanted) == if key == wanted then Some(value) else None
  {
    assert [Pair(key, value)][1..] == [];
  }

  lemma OneCondition(m: Matcher, files: seq<string>, configs: seq<FilesConfig>)
    ensures var b := BaseMatch(Some(configs));
      && (AnyHolds(m, files, [b]) <==> exists c :: c in configs && Holds(m, files, c))
      && (AllHolds(m, files, [b]) <==> files != [] && forall c :: c in configs ==> Holds(m, files, c))
  {
    var b := BaseMatch(Some(configs));
    assert b in [b];
  }
}
