/** Which pieces of a config are reported dead: those no sample's labels change without, whatever the labels are called. */
module DeadPieces {
  import opened Prelude
  import opened LabelConfig
  import opened LabelMatching
  import opened LabelMeaning
  import opened YamlPaths
  import opened Liveness

  datatype Sample = Sample(what: string, files: seq<string>, expected: seq<string>)

  const UNPARSEABLE := "unparseable"

  function JoinWith(ss: seq<string>, sep: char): string {
    if ss == [] then "" else if |ss| == 1 then ss[0] else ss[0] + [sep] + JoinWith(ss[1..], sep)
  }

  function Row(m: Matcher, files: seq<string>, labels: seq<Labelled>): string {
    JoinWith(LabelsOf(m, files, labels), '+')
  }

  function Rows(m: Matcher, samples: seq<Sample>, labels: seq<Labelled>): (rows: seq<string>)
    ensures |rows| == |samples|
  {
    if samples == [] then [] else [Row(m, samples[0].files, labels)] + Rows(m, samples[1..], labels)
  }

  function Outcome(m: Matcher, config: Yaml, samples: seq<Sample>): string {
    match Compiled(config)
    case Err(_) => UNPARSEABLE
    case Ok(labels) => JoinWith(Rows(m, samples, labels), '|')
  }

  function Unnoticed(m: Matcher, found: seq<Component>, samples: seq<Sample>, baseline: string): seq<YamlPath> {
    if found == [] then []
    else
      (if Outcome(m, found[0].without, samples) == baseline then [found[0].place] else [])
      + Unnoticed(m, found[1..], samples, baseline)
  }

  function DeadComponents(m: Matcher, config: Yaml, samples: seq<Sample>): seq<YamlPath> {
    Unnoticed(m, Components(config), samples, Outcome(m, config, samples))
  }

  // ----- Joining -----

  lemma FirstBreak(a: string, s: string, b: string, t: string, sep: char)
    requires a + [sep] + s == b + [sep] + t && sep !in a && sep !in b
    ensures a == b && s == t
  {
    var x, y := a + [sep] + s, b + [sep] + t;
    assert x[|a|] == sep && y[|b|] == sep;
    assert forall i :: 0 <= i < |a| ==> x[i] == a[i];
    assert forall i :: 0 <= i < |b| ==> y[i] == b[i];
    assert |a| == |b|;
    assert x[..|a|] == a && y[..|a|] == b;
    assert x[|a| + 1..] == s && y[|a| + 1..] == t;
  }

  /** As many rows as there are samples can be read back, if none has the separator in it. */
  lemma {:induction false} JoinInjective(ss: seq<string>, ts: seq<string>, sep: char)
    requires |ss| == |ts| && (forall s :: s in ss ==> sep !in s) && (forall t :: t in ts ==> sep !in t)
    requires JoinWith(ss, sep) == JoinWith(ts, sep)
    ensures ss == ts
  {
    if |ss| > 1 {
      FirstBreak(ss[0], JoinWith(ss[1..], sep), ts[0], JoinWith(ts[1..], sep), sep);
      JoinInjective(ss[1..], ts[1..], sep);
    }
    if ss != [] {
      assert ss == [ss[0]] + ss[1..] && ts == [ts[0]] + ts[1..];
    }
  }

  lemma {:induction false} JoinWithout(ss: seq<string>, sep: char, c: char)
    requires c != sep && forall s :: s in ss ==> c !in s
    ensures c !in JoinWith(ss, sep)
  {
    if |ss| > 1 {
      JoinWithout(ss[1..], sep, c);
    }
  }

  lemma JoinHas(ss: seq<string>, sep: char)
    ensures |ss| > 1 ==> sep in JoinWith(ss, sep)
  {
  }

  /** Only a list of one joins to something without the separator. */
  lemma JoinOne(ss: seq<string>, sep: char, word: string)
    requires JoinWith(ss, sep) == word && word != "" && sep !in word
    ensures ss == [word]
  {
    JoinHas(ss, sep);
  }

  function Weight(ss: seq<string>): nat {
    if ss == [] then 0 else |ss[0]| + 1 + Weight(ss[1..])
  }

  lemma {:induction false} JoinLength(ss: seq<string>, sep: char)
    ensures |JoinWith(ss, sep)| == if ss == [] then 0 else Weight(ss) - 1
  {
    if |ss| > 1 {
      JoinLength(ss[1..], sep);
    }
  }

  lemma {:induction false} InsertWeight(x: string, ss: seq<string>)
    ensures Weight(Insert(x, ss)) == |x| + 1 + Weight(ss)
  {
    if ss == [] || AtMost(x, ss[0]) {
      assert ([x] + ss)[1..] == ss;
    } else {
      InsertWeight(x, ss[1..]);
      assert ([ss[0]] + Insert(x, ss[1..]))[1..] == Insert(x, ss[1..]);
    }
  }

  lemma {:induction false} SortWeight(ss: seq<string>)
    ensures Weight(Sort(ss)) == Weight(ss)
  {
    if ss != [] {
      SortWeight(ss[1..]);
      InsertWeight(ss[0], Sort(ss[1..]));
    }
  }

  lemma {:induction false} WeightBoth(ss: seq<string>, ts: seq<string>)
    ensures Weight(ss + ts) == Weight(ss) + Weight(ts)
  {
    if ss == [] {
      assert ss + ts == ts;
    } else {
      assert (ss + ts)[1..] == ss[1..] + ts;
      WeightBoth(ss[1..], ts);
    }
  }

  lemma RowLength(ss: seq<string>)
    ensures |JoinWith(Sort(ss), '+')| == if ss == [] then 0 else Weight(ss) - 1
  {
    SortWeight(ss);
    JoinLength(Sort(ss), '+');
    assert |multiset(Sort(ss))| == |multiset(ss)|;
  }

  // ----- One label's rules changed -----

  lemma {:induction false} NamesBoth(m: Matcher, files: seq<string>, ps: seq<Pair>, qs: seq<Pair>)
    ensures Names(m, files, ps + qs) == Names(m, files, ps) + Names(m, files, qs)
  {
    if ps == [] {
      assert ps + qs == qs;
    } else {
      assert (ps + qs)[1..] == ps[1..] + qs;
      NamesBoth(m, files, ps[1..], qs);
    }
  }

  lemma NamesAround(m: Matcher, files: seq<string>, pairs: seq<Pair>, n: nat)
    requires n < |pairs|
    ensures Names(m, files, pairs) == Names(m, files, pairs[..n])
                                      + (if Earned(m, files, pairs[n]) then [pairs[n].key] else [])
                                      + Names(m, files, pairs[n + 1..])
  {
    assert pairs == pairs[..n] + ([pairs[n]] + pairs[n + 1..]);
    NamesBoth(m, files, pairs[..n], [pairs[n]] + pairs[n + 1..]);
    NamesBoth(m, files, [pairs[n]], pairs[n + 1..]);
    assert Names(m, files, [pairs[n]]) == if Earned(m, files, pairs[n]) then [pairs[n].key] else [];
  }

  /** Then one sample's row tells: it is longer with the label than without it. */
  lemma RowTells(m: Matcher, files: seq<string>, pairs: seq<Pair>, n: nat, rules: Yaml)
    requires n < |pairs| && pairs[n].key != ""
    ensures var (a, b) := (Names(m, files, pairs), Names(m, files, pairs[n := Pair(pairs[n].key, rules)]));
      JoinWith(Sort(a), '+') == JoinWith(Sort(b), '+') ==> a == b
  {
    var others := pairs[n := Pair(pairs[n].key, rules)];
    var a, b := Names(m, files, pairs), Names(m, files, others);
    var front, back := Names(m, files, pairs[..n]), Names(m, files, pairs[n + 1..]);
    NamesAround(m, files, pairs, n);
    NamesAround(m, files, others, n);
    assert others[..n] == pairs[..n] && others[n + 1..] == pairs[n + 1..];
    var more, less := front + [pairs[n].key] + back, front + [] + back;
    WeightBoth(front + [pairs[n].key], back);
    WeightBoth(front, [pairs[n].key]);
    WeightBoth(front + [], back);
    assert front + [] == front;
    RowLength(more);
    RowLength(less);
  }

  /** No row has a bar in it, when no label does. */
  lemma RowPlain(m: Matcher, files: seq<string>, pairs: seq<Pair>)
    requires Labels(pairs).Ok? && forall p :: p in pairs ==> '|' !in p.key
    ensures '|' !in Row(m, files, Labels(pairs).value)
  {
    var labels := LabelsOf(m, files, Labels(pairs).value);
    forall name | name in labels ensures '|' !in name {
      LabelsMean(m, files, Mapping(pairs), name);
    }
    JoinWithout(labels, '+', '|');
  }

  lemma {:induction false} RowsAt(m: Matcher, samples: seq<Sample>, labels: seq<Labelled>)
    ensures forall i :: 0 <= i < |samples| ==> Rows(m, samples, labels)[i] == Row(m, samples[i].files, labels)
  {
    if samples != [] {
      RowsAt(m, samples[1..], labels);
    }
  }

  /** What an accepted config gives is never taken for a refusal. */
  lemma NotUnparseable(m: Matcher, samples: seq<Sample>, pairs: seq<Pair>)
    requires Labels(pairs).Ok? && forall p :: p in pairs ==> p.key != UNPARSEABLE
    ensures Outcome(m, Mapping(pairs), samples) != UNPARSEABLE
  {
    if Outcome(m, Mapping(pairs), samples) == UNPARSEABLE {
      var labels := Labels(pairs).value;
      PlainWord();
      JoinOne(Rows(m, samples, labels), '|', UNPARSEABLE);
      RowsAt(m, samples, labels);
      JoinOne(LabelsOf(m, samples[0].files, labels), '+', UNPARSEABLE);
      LabelsMean(m, samples[0].files, Mapping(pairs), UNPARSEABLE);
    }
  }

  lemma PlainWord()
    ensures UNPARSEABLE != "" && '|' !in UNPARSEABLE && '+' !in UNPARSEABLE
  {
  }

  /** No sample can tell them apart: both are refused, or both are accepted and give every sample the same labels. */
  ghost predicate Same(m: Matcher, a: Yaml, b: Yaml, samples: seq<Sample>) {
    var (r, s) := (Compiled(a), Compiled(b));
    && (r.Ok? <==> s.Ok?)
    && (r.Ok? ==> forall i, name :: 0 <= i < |samples| ==>
          (name in LabelsOf(m, samples[i].files, r.value) <==> name in LabelsOf(m, samples[i].files, s.value)))
  }

  lemma {:induction false} NamesOnce(m: Matcher, files: seq<string>, pairs: seq<Pair>, name: string)
    requires Distinct(pairs)
    ensures multiset(Names(m, files, pairs))[name] <= 1
  {
    if pairs != [] {
      NamesOnce(m, files, pairs[1..], name);
      NamesMember(m, files, pairs[1..], pairs[0].key);
    }
  }

  /** A list of labels is settled by which labels are in it. */
  lemma SameListExactly(m: Matcher, files: seq<string>, a: seq<Pair>, b: seq<Pair>)
    requires Distinct(a) && Distinct(b) && Labels(a).Ok? && Labels(b).Ok?
    ensures var (x, y) := (LabelsOf(m, files, Labels(a).value), LabelsOf(m, files, Labels(b).value));
      x == y <==> forall name :: name in x <==> name in y
  {
    var x, y := LabelsOf(m, files, Labels(a).value), LabelsOf(m, files, Labels(b).value);
    if forall name :: name in x <==> name in y {
      AppliedMean(m, files, a);
      AppliedMean(m, files, b);
      forall name ensures multiset(x)[name] == multiset(y)[name] {
        NamesOnce(m, files, a, name);
        NamesOnce(m, files, b, name);
        assert name in x <==> name in multiset(x);
        assert name in y <==> name in multiset(y);
      }
      SortSorted(Names(m, files, a));
      SortSorted(Names(m, files, b));
      SortedUnique(x, y);
    }
  }

  predicate Sound(pairs: seq<Pair>) {
    && Distinct(pairs)
    && forall p :: p in pairs ==> p.key != "" && '|' !in p.key && p.key != UNPARSEABLE
  }

  /** Changing one label's rules changes the outcome exactly when it changes what some sample is given. */
  lemma OutcomeExactly(m: Matcher, pairs: seq<Pair>, n: nat, rules: Yaml, samples: seq<Sample>)
    requires n < |pairs| && Sound(pairs)
    ensures var (a, b) := (Mapping(pairs), Mapping(pairs[n := Pair(pairs[n].key, rules)]));
      Outcome(m, a, samples) == Outcome(m, b, samples) <==> Same(m, a, b, samples)
  {
    var others := pairs[n := Pair(pairs[n].key, rules)];
    assert Sound(others);
    if Labels(pairs).Ok? {
      NotUnparseable(m, samples, pairs);
    }
    if Labels(others).Ok? {
      NotUnparseable(m, samples, others);
    }
    if Labels(pairs).Ok? && Labels(others).Ok? {
      RowsExactly(m, pairs, n, rules, samples);
    }
  }

  lemma RowsExactly(m: Matcher, pairs: seq<Pair>, n: nat, rules: Yaml, samples: seq<Sample>)
    requires n < |pairs| && Sound(pairs) && Sound(pairs[n := Pair(pairs[n].key, rules)])
    requires Labels(pairs).Ok? && Labels(pairs[n := Pair(pairs[n].key, rules)]).Ok?
    ensures var (a, b) := (Mapping(pairs), Mapping(pairs[n := Pair(pairs[n].key, rules)]));
      Outcome(m, a, samples) == Outcome(m, b, samples) <==> Same(m, a, b, samples)
  {
    var others := pairs[n := Pair(pairs[n].key, rules)];
    var r, s := Labels(pairs).value, Labels(others).value;
    var x, y := Rows(m, samples, r), Rows(m, samples, s);
    RowsAt(m, samples, r);
    RowsAt(m, samples, s);
    forall i | 0 <= i < |samples|
      ensures '|' !in x[i] && '|' !in y[i]
      ensures x[i] == y[i] <==> forall name ::
        name in LabelsOf(m, samples[i].files, r) <==> name in LabelsOf(m, samples[i].files, s)
    {
      RowExactly(m, samples[i].files, pairs, n, rules);
    }
    TableTells(x, y);
  }

  lemma TableTells(x: seq<string>, y: seq<string>)
    requires |x| == |y| && forall i :: 0 <= i < |x| ==> '|' !in x[i] && '|' !in y[i]
    ensures JoinWith(x, '|') == JoinWith(y, '|') <==> forall i :: 0 <= i < |x| ==> x[i] == y[i]
  {
    if JoinWith(x, '|') == JoinWith(y, '|') {
      JoinInjective(x, y, '|');
    }
    if forall i :: 0 <= i < |x| ==> x[i] == y[i] {
      assert x == y;
    }
  }

  lemma RowExactly(m: Matcher, files: seq<string>, pairs: seq<Pair>, n: nat, rules: Yaml)
    requires n < |pairs| && Sound(pairs) && Sound(pairs[n := Pair(pairs[n].key, rules)])
    requires Labels(pairs).Ok? && Labels(pairs[n := Pair(pairs[n].key, rules)]).Ok?
    ensures var (r, s) := (Labels(pairs).value, Labels(pairs[n := Pair(pairs[n].key, rules)]).value);
      && '|' !in Row(m, files, r) && '|' !in Row(m, files, s)
      && (Row(m, files, r) == Row(m, files, s) <==>
            forall name :: name in LabelsOf(m, files, r) <==> name in LabelsOf(m, files, s))
  {
    var others := pairs[n := Pair(pairs[n].key, rules)];
    RowPlain(m, files, pairs);
    RowPlain(m, files, others);
    RowTells(m, files, pairs, n, rules);
    AppliedMean(m, files, pairs);
    AppliedMean(m, files, others);
    SameListExactly(m, files, pairs, others);
  }

  lemma {:induction false} UnnoticedMember(m: Matcher, config: Yaml, base: YamlPath, paths: seq<YamlPath>, samples: seq<Sample>, baseline: string, t: YamlPath)
    ensures t in Unnoticed(m, Taken(config, base, paths), samples, baseline) <==>
      exists p :: p in paths && base + p == t && Outcome(m, RemoveAt(config, t), samples) == baseline
  {
    var found := Taken(config, base, paths);
    if paths != [] {
      assert found[1..] == Taken(config, base, paths[1..]);
      UnnoticedMember(m, config, base, paths[1..], samples, baseline, t);
      assert found[0] == Take(config, base + paths[0]);
      assert forall p :: p in paths <==> p == paths[0] || p in paths[1..];
    }
  }

  /** A piece is reported dead exactly when it can be taken out and no sample's labels are any different without it. */
  lemma DeadExactly(m: Matcher, config: Yaml, samples: seq<Sample>, t: YamlPath)
    requires config.Mapping? && Sound(config.pairs)
    ensures t in DeadComponents(m, config, samples) <==>
      Shape(t) && There(config, t) && Same(m, config, RemoveAt(config, t), samples)
  {
    UnnoticedMember(m, config, [], Paths(config), samples, Outcome(m, config, samples), t);
    PathsExactly(config, t);
    assert [] + t == t && forall p: YamlPath :: [] + p == p;
    if Shape(t) && There(config, t) {
      var n := Child(config, t[0]);
      var rules := RemoveAt(config.pairs[n].value, t[1..]);
      OutcomeExactly(m, config.pairs, n, rules, samples);
      assert RemoveAt(config, t) == Mapping(config.pairs[n := Pair(config.pairs[n].key, rules)]);
    }
  }

  // ----- Labels whose names hide a difference -----

  /** A nameless label shows nowhere: taking its rules apart never changes anything but whether they are accepted. */
  lemma NamelessHides(m: Matcher, rules: Yaml, others: Yaml, samples: seq<Sample>)
    requires Rules("", rules).Ok? && Rules("", others).Ok?
    ensures Outcome(m, Mapping([Pair("", rules)]), samples) == Outcome(m, Mapping([Pair("", others)]), samples)
  {
    NamelessRows(m, rules, samples);
    NamelessRows(m, others, samples);
    var x, y := Compiled(Mapping([Pair("", rules)])).value, Compiled(Mapping([Pair("", others)])).value;
    EmptyAlike(Rows(m, samples, x), Rows(m, samples, y));
  }

  predicate AllEmpty(rows: seq<string>) {
    forall i :: 0 <= i < |rows| ==> rows[i] == ""
  }

  lemma EmptyAlike(x: seq<string>, y: seq<string>)
    requires |x| == |y| && AllEmpty(x) && AllEmpty(y)
    ensures x == y
  {
  }

  lemma {:induction false} NamelessRows(m: Matcher, rules: Yaml, samples: seq<Sample>)
    requires Rules("", rules).Ok?
    ensures var labels := Compiled(Mapping([Pair("", rules)]));
      labels.Ok? && AllEmpty(Rows(m, samples, labels.value))
  {
    var pairs := [Pair("", rules)];
    assert Labels(pairs[1..]) == Ok([]);
    if samples != [] {
      NamelessRows(m, rules, samples[1..]);
      NamelessRow(m, samples[0].files, pairs);
    }
  }

  lemma NamelessRow(m: Matcher, files: seq<string>, pairs: seq<Pair>)
    requires |pairs| == 1 && pairs[0].key == "" && Labels(pairs).Ok?
    ensures Row(m, files, Labels(pairs).value) == ""
  {
    AppliedMean(m, files, pairs);
    assert Names(m, files, pairs[1..]) == [];
    RowLength(Names(m, files, pairs));
  }

  /** A config of one label, given to any file that is called `glob`. */
  function OneGlob(name: string, glob: Yaml): Yaml {
    var mapping := Mapping([Pair("any-glob-to-any-file", glob)]);
    Mapping([Pair(name, List([Mapping([Pair("changed-files", List([mapping]))])]))])
  }

  lemma OneKey(pair: Pair, key: GlobKey)
    requires GlobKeyOf(pair.key) == Some(key)
    ensures GlobMapping(Mapping([pair])) == Ok([FilesConfig(key, Globs(pair.value))])
  {
    var pairs, config := [pair], FilesConfig(key, Globs(pair.value));
    assert pairs[1..] == [] && Invalid(pairs) == [];
    assert KeyConfigs(pairs) == [config] + KeyConfigs(pairs[1..]) == [config];
  }

  lemma OneEntry(name: string, key: string, mapping: Yaml, config: FilesConfig)
    requires key == "changed-files" && GlobMapping(mapping) == Ok([config])
    ensures var entry := Mapping([Pair(key, List([mapping]))]);
      && Rules(name, List([entry])).Ok?
      && Items([entry]) == [Bare(BaseMatch(Some([config])))]
  {
    var entry := Mapping([Pair(key, List([mapping]))]);
    assert [mapping][1..] == [] && GlobMappings([]) == Ok([]);
    assert [config] + [] == [config] && GlobMappings([mapping]) == Ok([config]);
    ConditionIs([mapping]);
    assert entry.pairs[1..] == [] && PairItems(entry.pairs) == [Bare(BaseMatch(Some([config])))];
    assert [entry][1..] == [] && Items([entry]) == PairItems(entry.pairs);
    assert TakePair(name, [], entry.pairs[0]).Ok? && TakePairs(name, [], entry.pairs).Ok?;
    assert Options(entry) == entry.pairs && TakeEntries(name, [], [entry]).Ok?;
    assert forall o :: o in [entry] ==> IsObject(o);
  }

  lemma OneGlobRow(m: Matcher, name: string, glob: Yaml, file: string)
    requires !glob.List? && file != ""
    ensures var labels := Compiled(OneGlob(name, glob));
      && labels.Ok?
      && LabelsOf(m, [file], labels.value) == (if m(glob, file) then [name] else [])
      && Row(m, [file], labels.value) == (if m(glob, file) then name else "")
  {
    var pairs := OneGlob(name, glob).pairs;
    var b := BaseMatch(Some([FilesConfig(AnyGlobToAnyFile, [glob])]));
    var pair := Pair("any-glob-to-any-file", glob);
    OneKey(pair, AnyGlobToAnyFile);
    OneEntry(name, "changed-files", Mapping([pair]), b.changedFiles.value[0]);
    assert pairs[1..] == [] && Labels(pairs).Ok?;
    OneCondition(m, [file], b.changedFiles.value);
    PlainMeaning(m, [file], [glob]);
    assert Holds(m, [file], FilesConfig(AnyGlobToAnyFile, [glob])) <==> m(glob, file) by {
      assert glob in [glob] && file in [file];
    }
    BareAreOred(m, [file], [Bare(b)]);
    assert Earned(m, [file], pairs[0]) <==> m(glob, file) by {
      assert ItemHolds(m, [file], [Bare(b)][0]) <==> m(glob, file);
    }
    AppliedMean(m, [file], pairs);
    assert Names(m, [file], pairs) == if m(glob, file) then [name] else [];
  }

  /**
    * A bar in a name can stand for the one between two samples: the label is given to one file in one config and to
    * the other in the other, and the outcome is the same.
    */
  lemma BarHides(m: Matcher, bar: string, one: string, two: string)
    requires bar == ['|'] && one != "" && two != "" && one != two
    requires m(Text(one), one) && m(Text(two), two) && !m(Text(one), two) && !m(Text(two), one)
    ensures var (a, b) := (OneGlob(bar, Text(one)), OneGlob(bar, Text(two)));
      !Same(m, a, b, Two(one, two)) && Outcome(m, a, Two(one, two)) == Outcome(m, b, Two(one, two))
  {
    var a, b := OneGlob(bar, Text(one)), OneGlob(bar, Text(two));
    OneGlobOutcome(m, bar, Text(one), one, two);
    OneGlobOutcome(m, bar, Text(two), one, two);
    assert bar + ['|'] + [] == [] + ['|'] + bar;
    OneGlobRow(m, bar, Text(one), one);
    OneGlobRow(m, bar, Text(two), one);
    assert Two(one, two)[0].files == [one];
    assert bar in LabelsOf(m, [one], Compiled(a).value) && bar !in LabelsOf(m, [one], Compiled(b).value);
  }

  /** A pull request for each of two files. */
  function Two(one: string, two: string): seq<Sample> {
    [Sample("one", [one], []), Sample("two", [two], [])]
  }

  lemma OneGlobOutcome(m: Matcher, name: string, glob: Yaml, one: string, two: string)
    requires !glob.List? && one != "" && two != ""
    ensures Outcome(m, OneGlob(name, glob), Two(one, two))
            == (if m(glob, one) then name else []) + ['|'] + (if m(glob, two) then name else [])
  {
    OneGlobRow(m, name, glob, one);
    OneGlobRow(m, name, glob, two);
    TwoRows(m, Two(one, two), Compiled(OneGlob(name, glob)).value,
            if m(glob, one) then name else [], if m(glob, two) then name else []);
  }

  lemma TwoRows(m: Matcher, samples: seq<Sample>, labels: seq<Labelled>, first: string, second: string)
    requires |samples| == 2
    requires Row(m, samples[0].files, labels) == first && Row(m, samples[1].files, labels) == second
    ensures JoinWith(Rows(m, samples, labels), '|') == first + ['|'] + second
  {
    RowsAt(m, samples, labels);
    assert Rows(m, samples, labels) == [first, second];
    assert [first, second][1..] == [second];
  }

  /** And a name can be the word for a refusal. */
  lemma NameOfRefusalHides(m: Matcher, config: Yaml, other: Yaml, sample: Sample)
    requires Compiled(config).Ok? && LabelsOf(m, sample.files, Compiled(config).value) == [UNPARSEABLE]
    requires Compiled(other).Err?
    ensures Outcome(m, config, [sample]) == Outcome(m, other, [sample])
  {
    assert [sample][1..] == [];
    assert Rows(m, [sample], Compiled(config).value) == [UNPARSEABLE];
  }
}
