/** Which error a config is refused with: that of the first thing in it that is wrong, and what that error says. */
module LabelErrors {
  import opened Prelude
  import opened LabelConfig
  import opened LabelMeaning
  import opened LabelAccepted

  // ----- One wrong thing -----

  /** An option that nothing is known of, that asks about branches, or whose `changed-files` is wrong. */
  lemma OptionRefusedFor(name: string, blocks: seq<MatchConfig>, p: Pair)
    ensures p.key !in {"any", "all", "changed-files", "head-branch", "base-branch"} ==>
      TakePair(name, blocks, p) == Err(UnknownOption(name, p.key))
    ensures p.key == "head-branch" || p.key == "base-branch" ==> TakePair(name, blocks, p) == Err(BranchKey)
    ensures p.key == "changed-files" && MatchEntry(Mapping([p])).Err? ==>
      TakePair(name, blocks, p) == Err(MatchEntry(Mapping([p])).error)
  {
    LookupOne(p.key, p.value, "head-branch");
    LookupOne(p.key, p.value, "base-branch");
  }

  /** A `changed-files` that is no list is refused for that, unless JavaScript finds a `length` on it, as on text. */
  lemma NoListRefusedFor(raw: Yaml, length: Yaml)
    ensures raw in {Null, Zero, Scalar, Text(""), List([])} ==> RefusedFiles(raw) == Some(BadChangedFiles)
    ensures raw.Text? && raw.text != "" ==> RefusedFiles(raw) == Some(BadGlobMapping)
    ensures raw.Mapping? && (forall p :: p in raw.pairs ==> p.key != "length") ==> RefusedFiles(raw) == Some(BadChangedFiles)
    ensures raw.Mapping? && Pair("length", length) in raw.pairs
            && (forall p :: p in raw.pairs && p.key == "length" ==> p.value == length) ==>
      RefusedFiles(raw) == Some(if length == Zero then BadChangedFiles else UnknownGlobKeys(Invalid(raw.pairs)))
  {
    if raw.Mapping? {
      LookupExactly(raw.pairs, "length");
      LookupIn(raw.pairs, "length");
      InvalidExactly(raw.pairs);
      assert !IsGlobKey("length");
    }
    LookupOne("changed-files", raw, "head-branch");
    LookupOne("changed-files", raw, "base-branch");
  }

  /** A list is refused for the first thing in it that is no mapping, or that has keys that are no glob keys. */
  lemma FilesRefusedFor(good: seq<Yaml>, bad: Yaml, more: seq<Yaml>)
    requires !GoodGlobs(bad) && forall e :: e in good ==> GoodGlobs(e)
    ensures RefusedFiles(List(good + [bad] + more))
            == Some(if bad.Mapping? then UnknownGlobKeys(Invalid(bad.pairs)) else BadGlobMapping)
  {
    if bad.Mapping? {
      InvalidExactly(bad.pairs);
    }
    MappingsFirst(good, bad, more);
    LookupOne("changed-files", List(good + [bad] + more), "head-branch");
    LookupOne("changed-files", List(good + [bad] + more), "base-branch");
  }

  lemma {:induction false} LookupIn(pairs: seq<Pair>, key: string)
    ensures Lookup(pairs, key).Some? ==> Pair(key, Lookup(pairs, key).value) in pairs
  {
    if pairs != [] {
      LookupIn(pairs[1..], key);
    }
  }

  function RefusedFiles(raw: Yaml): Option<Error> {
    var m := MatchEntry(Mapping([Pair("changed-files", raw)]));
    if m.Err? then Some(m.error) else None
  }

  lemma {:induction false} MappingsFirst(good: seq<Yaml>, bad: Yaml, more: seq<Yaml>)
    requires GlobMapping(bad).Err? && forall e :: e in good ==> GoodGlobs(e)
    ensures GlobMappings(good + [bad] + more) == Err(GlobMapping(bad).error)
  {
    var all := good + [bad] + more;
    if good != [] {
      assert good[0] in good && all[1..] == good[1..] + [bad] + more;
      InvalidExactly(good[0].pairs);
      MappingsFirst(good[1..], bad, more);
    } else {
      assert all == [bad] + more;
    }
  }

  /** The keys an error names are those of the mapping that are no glob keys, in the order they are written. */
  lemma {:induction false} InvalidSplit(a: seq<Pair>, b: seq<Pair>)
    ensures Invalid(a + b) == Invalid(a) + Invalid(b)
  {
    if a == [] {
      assert a + b == b && Invalid(a) + Invalid(b) == Invalid(b);
    } else {
      assert (a + b)[0] == a[0] && (a + b)[1..] == a[1..] + b;
      InvalidSplit(a[1..], b);
      var first := if GlobKeyOf(a[0].key).None? then [a[0].key] else [];
      assert first + (Invalid(a[1..]) + Invalid(b)) == first + Invalid(a[1..]) + Invalid(b);
    }
  }

  lemma InvalidOne(p: Pair)
    ensures Invalid([p]) == if IsGlobKey(p.key) then [] else [p.key]
  {
  }

  /** Under an `any` or an `all`, the first entry that is wrong. */
  lemma {:induction false} EntriesFirst(good: seq<Yaml>, bad: Yaml, more: seq<Yaml>)
    requires MatchEntry(bad).Err? && forall e :: e in good ==> GoodMatch(e)
    ensures MatchEntries(good + [bad] + more) == Err(MatchEntry(bad).error)
  {
    var all := good + [bad] + more;
    if good != [] {
      assert good[0] in good && all[1..] == good[1..] + [bad] + more;
      MatchOk(good[0]);
      EntriesFirst(good[1..], bad, more);
    } else {
      assert all == [bad] + more;
    }
  }

  // ----- The first wrong thing of a config -----

  /** Whatever blocks there are already, this option is refused with `e`. */
  ghost predicate Refuses(name: string, p: Pair, e: Error) {
    forall blocks :: TakePair(name, blocks, p) == Err(e)
  }

  lemma {:induction false} PairsFirst(name: string, blocks: seq<MatchConfig>, good: seq<Pair>, p: Pair, more: seq<Pair>, e: Error)
    requires (forall q :: q in good ==> GoodOption(q)) && Refuses(name, p, e)
    ensures TakePairs(name, blocks, good + [p] + more) == Err(e)
    decreases |good|
  {
    var all := good + [p] + more;
    if good != [] {
      assert good[0] in good && all[1..] == good[1..] + [p] + more;
      PairOk(name, blocks, good[0]);
      PairsFirst(name, TakePair(name, blocks, good[0]).value, good[1..], p, more, e);
    } else {
      assert all == [p] + more;
    }
  }

  lemma {:induction false} RuleFirst(name: string, blocks: seq<MatchConfig>, good: seq<Yaml>, bad: Yaml, more: seq<Yaml>, e: Error)
    requires (forall o :: o in good ==> GoodEntry(o)) && forall bs :: TakePairs(name, bs, Options(bad)) == Err(e)
    ensures TakeEntries(name, blocks, good + [bad] + more) == Err(e)
    decreases |good|
  {
    var all := good + [bad] + more;
    if good != [] {
      assert good[0] in good && all[1..] == good[1..] + [bad] + more;
      EntryOk(name, blocks, good[0]);
      RuleFirst(name, TakePairs(name, blocks, Options(good[0])).value, good[1..], bad, more, e);
    } else {
      assert all == [bad] + more;
    }
  }

  lemma {:induction false} LabelFirst(good: seq<Pair>, bad: Pair, more: seq<Pair>)
    requires (forall l :: l in good ==> GoodRules(l.value)) && Rules(bad.key, bad.value).Err?
    ensures Labels(good + [bad] + more) == Err(Rules(bad.key, bad.value).error)
  {
    var all := good + [bad] + more;
    if good != [] {
      assert good[0] in good && all[1..] == good[1..] + [bad] + more;
      RulesOk(good[0].key, good[0].value);
      LabelFirst(good[1..], bad, more);
    } else {
      assert all == [bad] + more;
    }
  }

  /**
    * A config is refused for the first option in it that is refused, whatever comes behind: of the first label that is
    * not well formed, the first entry that is not, the first option that is not. Only what is no object among a label's
    * entries is seen before any option is.
    */
  lemma FirstErrorWins(labels: seq<Pair>, name: string, entries: seq<Yaml>, options: seq<Pair>, p: Pair, e: Error,
                       moreOptions: seq<Pair>, moreEntries: seq<Yaml>, moreLabels: seq<Pair>)
    requires (forall l :: l in labels ==> GoodRules(l.value)) && (forall o :: o in entries ==> GoodEntry(o))
    requires (forall q :: q in options ==> GoodOption(q)) && Refuses(name, p, e)
    ensures var all := entries + [Mapping(options + [p] + moreOptions)] + moreEntries;
      var config := Mapping(labels + [Pair(name, List(all))] + moreLabels);
      Compiled(config) == Err(if forall o :: o in moreEntries ==> IsObject(o) then e else UnexpectedType(name))
  {
    var bad := Mapping(options + [p] + moreOptions);
    var all := entries + [bad] + moreEntries;
    assert forall o :: o in entries ==> IsObject(o);
    assert forall o :: o in moreEntries ==> o in all;
    forall bs ensures TakePairs(name, bs, Options(bad)) == Err(e) {
      PairsFirst(name, bs, options, p, moreOptions, e);
    }
    RuleFirst(name, [], entries, bad, moreEntries, e);
    LabelFirst(labels, Pair(name, List(all)), moreLabels);
  }
}
