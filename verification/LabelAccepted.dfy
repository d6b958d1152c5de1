/** Which configs are accepted, said of the YAML, and what an accepted option asks, said of the YAML too. */
module LabelAccepted {
  import opened Prelude
  import opened LabelConfig
  import opened LabelMatching
  import opened LabelMeaning

  predicate IsGlobKey(key: string) {
    || key == "any-glob-to-any-file" || key == "any-glob-to-all-files"
    || key == "all-globs-to-any-file" || key == "all-globs-to-all-files"
  }

  /** A mapping of glob keys and of nothing else. */
  predicate GoodGlobs(e: Yaml) {
    e.Mapping? && forall p :: p in e.pairs ==> IsGlobKey(p.key)
  }

  /** A list of those, with something in it. */
  predicate GoodFiles(raw: Yaml) {
    raw.List? && raw.items != [] && forall e :: e in raw.items ==> GoodGlobs(e)
  }

  /** A mapping that asks nothing of branches, and whose `changed-files`, if it has one, is such a list. */
  predicate GoodMatch(e: Yaml) {
    && e.Mapping?
    && (forall p :: p in e.pairs ==> p.key != "head-branch" && p.key != "base-branch")
    && (Lookup(e.pairs, "changed-files").Some? ==> GoodFiles(Lookup(e.pairs, "changed-files").value))
  }

  /** A list under `any` or `all` is a list of those; anything else under them is passed over. */
  predicate GoodOption(p: Pair) {
    if p.key == "any" || p.key == "all" then p.value.List? ==> forall e :: e in p.value.items ==> GoodMatch(e)
    else p.key == "changed-files" && GoodFiles(p.value)
  }

  predicate GoodEntry(o: Yaml) {
    o.Null? || o == List([]) || (o.Mapping? && forall p :: p in o.pairs ==> GoodOption(p))
  }

  predicate GoodRules(rules: Yaml) {
    rules.List? && forall o :: o in rules.items ==> GoodEntry(o)
  }

  predicate GoodConfig(config: Yaml) {
    config.Mapping? && forall p :: p in config.pairs ==> GoodRules(p.value)
  }

  lemma {:induction false} InvalidExactly(pairs: seq<Pair>)
    ensures Invalid(pairs) == [] <==> forall p :: p in pairs ==> IsGlobKey(p.key)
  {
    if pairs != [] {
      InvalidExactly(pairs[1..]);
      assert pairs == [pairs[0]] + pairs[1..];
      assert GlobKeyOf(pairs[0].key).Some? <==> IsGlobKey(pairs[0].key);
    }
  }

  lemma {:induction false} MappingsOk(entries: seq<Yaml>)
    ensures GlobMappings(entries).Ok? <==> forall e :: e in entries ==> GoodGlobs(e)
  {
    if entries != [] {
      MappingsOk(entries[1..]);
      assert entries == [entries[0]] + entries[1..];
      if entries[0].Mapping? {
        InvalidExactly(entries[0].pairs);
      }
      assert GlobMapping(entries[0]).Ok? <==> GoodGlobs(entries[0]);
    }
  }

  lemma {:induction false} LookupExactly(pairs: seq<Pair>, key: string)
    ensures Lookup(pairs, key).None? <==> forall p :: p in pairs ==> p.key != key
  {
    if pairs != [] {
      LookupExactly(pairs[1..], key);
      assert pairs == [pairs[0]] + pairs[1..];
    }
  }

  lemma FilesOk(pairs: seq<Pair>)
    ensures var raw := Lookup(pairs, "changed-files");
      ChangedFiles(pairs).Ok? <==> (raw.Some? ==> GoodFiles(raw.value))
  {
    var raw := Lookup(pairs, "changed-files");
    if raw.Some? && HasLength(raw.value) {
      if raw.value.List? {
        MappingsOk(raw.value.items);
      } else {
        MappingsOk([raw.value]);
        NoLengthKey(raw.value);
        assert raw.value in [raw.value];
      }
    }
  }

  /** A mapping that has a `length` is none of glob keys. */
  lemma NoLengthKey(raw: Yaml)
    requires HasLength(raw) && !raw.List?
    ensures !GoodGlobs(raw)
  {
    if raw.Mapping? {
      LookupExactly(raw.pairs, "length");
      assert !IsGlobKey("length");
    }
  }

  lemma MatchOk(e: Yaml)
    ensures MatchEntry(e).Ok? <==> GoodMatch(e)
  {
    if e.Mapping? {
      LookupExactly(e.pairs, "head-branch");
      LookupExactly(e.pairs, "base-branch");
      FilesOk(e.pairs);
    }
  }

  lemma {:induction false} MatchesOk(entries: seq<Yaml>)
    ensures MatchEntries(entries).Ok? <==> forall e :: e in entries ==> GoodMatch(e)
  {
    if entries != [] {
      MatchOk(entries[0]);
      MatchesOk(entries[1..]);
      assert entries == [entries[0]] + entries[1..];
    }
  }

  lemma PairOk(name: string, blocks: seq<MatchConfig>, p: Pair)
    ensures TakePair(name, blocks, p).Ok? <==> GoodOption(p)
  {
    if p.key == "any" || p.key == "all" {
      if p.value.List? {
        MatchesOk(p.value.items);
      }
    } else if p.key == "changed-files" || p.key == "head-branch" || p.key == "base-branch" {
      MatchOk(Mapping([p]));
      LookupOne(p.key, p.value, "changed-files");
      assert p in [p];
    }
  }

  lemma {:induction false} PairsOk(name: string, blocks: seq<MatchConfig>, pairs: seq<Pair>)
    ensures TakePairs(name, blocks, pairs).Ok? <==> forall p :: p in pairs ==> GoodOption(p)
    decreases |pairs|
  {
    if pairs != [] {
      PairOk(name, blocks, pairs[0]);
      assert pairs == [pairs[0]] + pairs[1..];
      if TakePair(name, blocks, pairs[0]).Ok? {
        PairsOk(name, TakePair(name, blocks, pairs[0]).value, pairs[1..]);
      }
    }
  }

  lemma EntryOk(name: string, blocks: seq<MatchConfig>, o: Yaml)
    requires IsObject(o)
    ensures TakePairs(name, blocks, Options(o)).Ok? <==> GoodEntry(o)
  {
    PairsOk(name, blocks, Options(o));
    if o.List? && o.items != [] {
      assert Options(o)[0] in Options(o) && !GoodOption(Options(o)[0]);
    }
  }

  lemma {:induction false} EntriesOk(name: string, blocks: seq<MatchConfig>, entries: seq<Yaml>)
    requires forall o :: o in entries ==> IsObject(o)
    ensures TakeEntries(name, blocks, entries).Ok? <==> forall o :: o in entries ==> GoodEntry(o)
    decreases |entries|
  {
    if entries != [] {
      var taken := TakePairs(name, blocks, Options(entries[0]));
      EntryOk(name, blocks, entries[0]);
      assert entries == [entries[0]] + entries[1..];
      if taken.Ok? {
        EntriesOk(name, taken.value, entries[1..]);
      }
    }
  }

  lemma RulesOk(name: string, rules: Yaml)
    ensures Rules(name, rules).Ok? <==> GoodRules(rules)
  {
    if rules.List? && forall o :: o in rules.items ==> IsObject(o) {
      EntriesOk(name, [], rules.items);
    }
  }

  lemma {:induction false} LabelsOk(pairs: seq<Pair>)
    ensures Labels(pairs).Ok? <==> forall p :: p in pairs ==> GoodRules(p.value)
  {
    if pairs != [] {
      RulesOk(pairs[0].key, pairs[0].value);
      LabelsOk(pairs[1..]);
      assert pairs == [pairs[0]] + pairs[1..];
    }
  }

  /** A config is accepted exactly when it is well formed all the way down; everything else is refused. */
  lemma AcceptedExactly(config: Yaml)
    ensures Compiled(config).Ok? <==> GoodConfig(config)
  {
    if config.Mapping? {
      LabelsOk(config.pairs);
    }
  }

  /** So nothing that asks about branches is accepted, wherever it asks. */
  lemma BranchesAreRefused(key: string, value: Yaml, others: seq<Pair>)
    requires key == "head-branch" || key == "base-branch"
    ensures !GoodOption(Pair(key, value)) && !GoodMatch(Mapping([Pair(key, value)] + others))
    ensures MatchEntry(Mapping([Pair(key, value)] + others)) == Err(BranchKey)
  {
    var pairs := [Pair(key, value)] + others;
    assert Pair(key, value) in pairs;
    LookupExactly(pairs, key);
  }

  // ----- What an accepted option asks -----

  lemma {:induction false} MatchesAre(entries: seq<Yaml>)
    requires MatchEntries(entries).Ok?
    ensures |MatchEntries(entries).value| == |entries|
    ensures forall i :: 0 <= i < |entries| ==> MatchEntry(entries[i]) == Ok(MatchEntries(entries).value[i])
  {
    if entries != [] {
      MatchesAre(entries[1..]);
    }
  }

  /** The `changed-files` of a match entry, or nothing. */
  function FilesOf(e: Yaml): seq<Yaml> {
    if !e.Mapping? then []
    else
      var raw := Lookup(e.pairs, "changed-files");
      if raw.Some? && raw.value.List? then raw.value.items else []
  }

  /** Some key of some mapping of the entry's `changed-files` holds. */
  predicate SomeSays(m: Matcher, files: seq<string>, e: Yaml) {
    exists g :: g in FilesOf(e) && g.Mapping? && SomeKey(m, files, g.pairs)
  }

  /** Every key of every mapping does. */
  predicate EverySays(m: Matcher, files: seq<string>, e: Yaml) {
    forall g :: g in FilesOf(e) && g.Mapping? ==> EveryKey(m, files, g.pairs)
  }

  lemma EntrySays(m: Matcher, files: seq<string>, e: Yaml)
    requires "" !in files && GoodMatch(e)
    ensures MatchEntry(e).Ok? && (MatchEntry(e).value.changedFiles.Some? <==> FilesOf(e) != [])
    ensures AnyHolds(m, files, [MatchEntry(e).value]) <==> SomeSays(m, files, e)
    ensures AllHolds(m, files, [MatchEntry(e).value]) <==> files != [] && FilesOf(e) != [] && EverySays(m, files, e)
  {
    MatchOk(e);
    var b := MatchEntry(e).value;
    assert b in [b];
    if b.changedFiles.Some? {
      MappingsOk(FilesOf(e));
      MappingsSay(m, files, FilesOf(e));
      OneCondition(m, files, b.changedFiles.value);
    }
  }

  lemma {:induction false} AnyIsSome(m: Matcher, files: seq<string>, ms: seq<BaseMatch>)
    ensures AnyHolds(m, files, ms) <==> exists i :: 0 <= i < |ms| && AnyHolds(m, files, [ms[i]])
  {
    if i :| 0 <= i < |ms| && AnyHolds(m, files, [ms[i]]) {
      assert ms[i] in ms;
    }
    if AnyHolds(m, files, ms) {
      var b, c :| b in ms && b.changedFiles.Some? && c in b.changedFiles.value && Holds(m, files, c);
      var i :| 0 <= i < |ms| && ms[i] == b;
      assert b in [ms[i]];
    }
  }

  /** An `any` asks that some entry's `changed-files` says so; an `all` that there is one and a file, and all of them do. */
  lemma OptionSays(m: Matcher, files: seq<string>, entries: seq<Yaml>)
    requires "" !in files && forall e :: e in entries ==> GoodMatch(e)
    ensures MatchEntries(entries).Ok?
    ensures AnyHolds(m, files, MatchEntries(entries).value) <==> exists e :: e in entries && SomeSays(m, files, e)
    ensures AllHolds(m, files, MatchEntries(entries).value) <==>
      && files != [] && (exists e :: e in entries && FilesOf(e) != [])
      && forall e :: e in entries ==> EverySays(m, files, e)
  {
    MatchesOk(entries);
    MatchesAre(entries);
    var ms := MatchEntries(entries).value;
    forall i | 0 <= i < |entries|
      ensures AnyHolds(m, files, [ms[i]]) <==> SomeSays(m, files, entries[i])
      ensures ms[i].changedFiles.Some? <==> FilesOf(entries[i]) != []
      ensures Keeps(m, files, ms[i]) <==> EverySays(m, files, entries[i])
    {
      EntrySays(m, files, entries[i]);
      EntryKeeps(m, files, entries[i]);
    }
    AnyIsSome(m, files, ms);
    AllIsEvery(m, files, ms);
    Transferred(m, files, entries, ms);
  }

  predicate Keeps(m: Matcher, files: seq<string>, b: BaseMatch) {
    b.changedFiles.Some? ==> forall c :: c in b.changedFiles.value ==> Holds(m, files, c)
  }

  lemma EntryKeeps(m: Matcher, files: seq<string>, e: Yaml)
    requires "" !in files && GoodMatch(e)
    ensures MatchEntry(e).Ok? && (Keeps(m, files, MatchEntry(e).value) <==> EverySays(m, files, e))
  {
    MatchOk(e);
    if MatchEntry(e).value.changedFiles.Some? {
      MappingsOk(FilesOf(e));
      MappingsSay(m, files, FilesOf(e));
    }
  }

  lemma AllIsEvery(m: Matcher, files: seq<string>, ms: seq<BaseMatch>)
    ensures AllHolds(m, files, ms) <==>
      && files != [] && (exists i :: 0 <= i < |ms| && ms[i].changedFiles.Some?)
      && forall i :: 0 <= i < |ms| ==> Keeps(m, files, ms[i])
  {
    if forall i :: 0 <= i < |ms| ==> Keeps(m, files, ms[i]) {
      forall b, c | b in ms && b.changedFiles.Some? && c in b.changedFiles.value ensures Holds(m, files, c) {
        var i :| 0 <= i < |ms| && ms[i] == b;
        assert Keeps(m, files, ms[i]);
      }
    }
  }

  /** What is so of each entry and its condition is so of some and of all of them. */
  lemma Transferred(m: Matcher, files: seq<string>, entries: seq<Yaml>, ms: seq<BaseMatch>)
    requires |entries| == |ms|
    requires forall i :: 0 <= i < |ms| ==>
      && (AnyHolds(m, files, [ms[i]]) <==> SomeSays(m, files, entries[i]))
      && (ms[i].changedFiles.Some? <==> FilesOf(entries[i]) != [])
      && (Keeps(m, files, ms[i]) <==> EverySays(m, files, entries[i]))
    ensures (exists i :: 0 <= i < |ms| && AnyHolds(m, files, [ms[i]])) <==> exists e :: e in entries && SomeSays(m, files, e)
    ensures (exists i :: 0 <= i < |ms| && ms[i].changedFiles.Some?) <==> exists e :: e in entries && FilesOf(e) != []
    ensures (forall i :: 0 <= i < |ms| ==> Keeps(m, files, ms[i])) <==> forall e :: e in entries ==> EverySays(m, files, e)
  {
    assert forall e :: e in entries <==> exists i :: 0 <= i < |ms| && entries[i] == e;
  }
}
