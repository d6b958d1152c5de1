/** Compiling a labeler config, as read from YAML, into blocks of conditions. */
module LabelConfig {
  import opened Prelude

  /** A YAML value. A mapping's keys are distinct, and in the order they are enumerated in. A number is told from zero. */
  datatype Yaml = Null | Text(text: string) | Zero | Scalar | List(items: seq<Yaml>) | Mapping(pairs: seq<Pair>)

  datatype Pair = Pair(key: string, value: Yaml)

  datatype GlobKey = AnyGlobToAnyFile | AnyGlobToAllFiles | AllGlobsToAnyFile | AllGlobsToAllFiles

  /** One glob key and its globs; two keys of one mapping are two of these. */
  datatype FilesConfig = FilesConfig(key: GlobKey, globs: seq<Yaml>)

  datatype BaseMatch = BaseMatch(changedFiles: Option<seq<FilesConfig>>)

  datatype MatchConfig = MatchConfig(all: Option<seq<BaseMatch>>, any: Option<seq<BaseMatch>>)

  datatype Labelled = Labelled(name: string, configs: seq<MatchConfig>)

  datatype Error =
    | NotAMapping
    | UnexpectedType(name: string)
    | UnknownOption(name: string, key: string)
    | NotAMatchEntry
    | BranchKey
    | BadChangedFiles
    | BadGlobMapping
    | UnknownGlobKeys(keys: seq<string>)

  datatype Result<T> = Ok(value: T) | Err(error: Error)

  function Append<T>(first: Result<seq<T>>, rest: Result<seq<T>>): Result<seq<T>> {
    if first.Err? then first else if rest.Err? then rest else Ok(first.value + rest.value)
  }

  function Lookup(pairs: seq<Pair>, key: string): Option<Yaml> {
    if pairs == [] then None else if pairs[0].key == key then Some(pairs[0].value) else Lookup(pairs[1..], key)
  }

  function GlobKeyOf(key: string): Option<GlobKey> {
    if key == "any-glob-to-any-file" then Some(AnyGlobToAnyFile)
    else if key == "any-glob-to-all-files" then Some(AnyGlobToAllFiles)
    else if key == "all-globs-to-any-file" then Some(AllGlobsToAnyFile)
    else if key == "all-globs-to-all-files" then Some(AllGlobsToAllFiles)
    else None
  }

  /** A glob that is not in a list is a list of one. */
  function Globs(value: Yaml): seq<Yaml> {
    if value.List? then value.items else [value]
  }

  function Invalid(pairs: seq<Pair>): seq<string> {
    if pairs == [] then []
    else (if GlobKeyOf(pairs[0].key).None? then [pairs[0].key] else []) + Invalid(pairs[1..])
  }

  function KeyConfigs(pairs: seq<Pair>): seq<FilesConfig> {
    if pairs == [] then []
    else
      var key := GlobKeyOf(pairs[0].key);
      (if key.Some? then [FilesConfig(key.value, Globs(pairs[0].value))] else []) + KeyConfigs(pairs[1..])
  }

  function GlobMapping(entry: Yaml): Result<seq<FilesConfig>> {
    if !entry.Mapping? then Err(BadGlobMapping)
    else if Invalid(entry.pairs) != [] then Err(UnknownGlobKeys(Invalid(entry.pairs)))
    else Ok(KeyConfigs(entry.pairs))
  }

  function GlobMappings(entries: seq<Yaml>): Result<seq<FilesConfig>> {
    if entries == [] then Ok([]) else Append(GlobMapping(entries[0]), GlobMappings(entries[1..]))
  }

  /** Whether JavaScript finds a `length` on it that is not zero. A mapping has the one it is written with. */
  predicate HasLength(raw: Yaml) {
    match raw
    case List(items) => items != []
    case Text(text) => text != []
    case Mapping(pairs) => Lookup(pairs, "length").Some? && Lookup(pairs, "length") != Some(Zero)
    case _ => false
  }

  function ChangedFiles(pairs: seq<Pair>): Result<BaseMatch> {
    match Lookup(pairs, "changed-files")
    case None => Ok(BaseMatch(None))
    case Some(raw) =>
      if HasLength(raw) then
        var valid := GlobMappings(if raw.List? then raw.items else [raw]);
        if valid.Err? then Err(valid.error) else Ok(BaseMatch(Some(valid.value)))
      else Err(BadChangedFiles)
  }

  function MatchEntry(entry: Yaml): Result<BaseMatch> {
    if !entry.Mapping? then Err(NotAMatchEntry)
    else if Lookup(entry.pairs, "head-branch").Some? || Lookup(entry.pairs, "base-branch").Some? then Err(BranchKey)
    else ChangedFiles(entry.pairs)
  }

  function MatchEntries(entries: seq<Yaml>): Result<seq<BaseMatch>> {
    if entries == [] then Ok([])
    else
      var first := MatchEntry(entries[0]);
      if first.Err? then Err(first.error) else Append(Ok([first.value]), MatchEntries(entries[1..]))
  }

  /** The first block with an `any`, or how many blocks there are. */
  function FirstAny(blocks: seq<MatchConfig>): (n: nat)
    ensures n <= |blocks|
    ensures n < |blocks| ==> blocks[n].any.Some?
    ensures forall i :: 0 <= i < n ==> blocks[i].any.None?
  {
    if blocks == [] || blocks[0].any.Some? then 0 else 1 + FirstAny(blocks[1..])
  }

  /** A condition that stands on its own joins the first `any` there is, or starts one. */
  function Join(blocks: seq<MatchConfig>, m: BaseMatch): seq<MatchConfig> {
    var n := FirstAny(blocks);
    if n < |blocks| then blocks[n := blocks[n].(any := Some(blocks[n].any.value + [m]))]
    else blocks + [MatchConfig(None, Some([m]))]
  }

  function TakePair(name: string, blocks: seq<MatchConfig>, p: Pair): Result<seq<MatchConfig>> {
    if p.key == "any" || p.key == "all" then
      if !p.value.List? then Ok(blocks)
      else
        var ms := MatchEntries(p.value.items);
        if ms.Err? then Err(ms.error)
        else Ok(blocks + [if p.key == "any" then MatchConfig(None, Some(ms.value)) else MatchConfig(Some(ms.value), None)])
    else if p.key == "changed-files" || p.key == "head-branch" || p.key == "base-branch" then
      var m := MatchEntry(Mapping([p]));
      if m.Err? then Err(m.error) else Ok(Join(blocks, m.value))
    else Err(UnknownOption(name, p.key))
  }

  function TakePairs(name: string, blocks: seq<MatchConfig>, pairs: seq<Pair>): Result<seq<MatchConfig>>
    decreases |pairs|
  {
    if pairs == [] then Ok(blocks)
    else
      var r := TakePair(name, blocks, pairs[0]);
      if r.Err? then r else TakePairs(name, r.value, pairs[1..])
  }

  /** What is enumerated of a rule entry: a list's keys are its indices, the first of which is already unknown. */
  function Options(entry: Yaml): seq<Pair> {
    if entry.Mapping? then entry.pairs
    else if entry.List? && entry.items != [] then [Pair("0", entry.items[0])]
    else []
  }

  function TakeEntries(name: string, blocks: seq<MatchConfig>, entries: seq<Yaml>): Result<seq<MatchConfig>>
    decreases |entries|
  {
    if entries == [] then Ok(blocks)
    else
      var r := TakePairs(name, blocks, Options(entries[0]));
      if r.Err? then r else TakeEntries(name, r.value, entries[1..])
  }

  /** What JavaScript calls an object. */
  predicate IsObject(value: Yaml) {
    value.Null? || value.List? || value.Mapping?
  }

  /** The blocks of one label. */
  function Rules(name: string, rules: Yaml): Result<seq<MatchConfig>> {
    if !rules.List? || exists o :: o in rules.items && !IsObject(o) then Err(UnexpectedType(name))
    else TakeEntries(name, [], rules.items)
  }

  /** A label without any block is not in the result. */
  function Labels(pairs: seq<Pair>): Result<seq<Labelled>> {
    if pairs == [] then Ok([])
    else
      var r := Rules(pairs[0].key, pairs[0].value);
      if r.Err? then Err(r.error)
      else Append(Ok(if r.value == [] then [] else [Labelled(pairs[0].key, r.value)]), Labels(pairs[1..]))
  }

  function Compiled(config: Yaml): Result<seq<Labelled>> {
    if !config.Mapping? then Err(NotAMapping) else Labels(config.pairs)
  }

  // ----- The loops -----

  lemma AppendTwice<T>(done: seq<T>, more: seq<T>, rest: Result<seq<T>>)
    ensures Append(Ok(done), Append(Ok(more), rest)) == Append(Ok(done + more), rest)
    ensures Append(Ok([]), rest) == rest && done + [] == done
  {
    if rest.Ok? {
      assert done + more + rest.value == done + (more + rest.value) && [] + rest.value == rest.value;
    }
  }

  method ToChangedFiles(pairs: seq<Pair>) returns (r: Result<BaseMatch>)
    ensures r == ChangedFiles(pairs)
  {
    var raw := Lookup(pairs, "changed-files");
    if raw.None? {
      return Ok(BaseMatch(None));
    }
    if !HasLength(raw.value) {
      return Err(BadChangedFiles);
    }
    var entries := if raw.value.List? then raw.value.items else [raw.value];
    var valid: seq<FilesConfig> := [];
    AppendTwice(valid, [], GlobMappings(entries));
    for i := 0 to |entries|
      invariant GlobMappings(entries) == Append(Ok(valid), GlobMappings(entries[i..]))
    {
      var entry := entries[i];
      if !entry.Mapping? {
        return Err(BadGlobMapping);
      }
      if Invalid(entry.pairs) != [] {
        return Err(UnknownGlobKeys(Invalid(entry.pairs)));
      }
      ghost var before := valid;
      for j := 0 to |entry.pairs|
        invariant before + KeyConfigs(entry.pairs) == valid + KeyConfigs(entry.pairs[j..])
      {
        var key := GlobKeyOf(entry.pairs[j].key);
        InvalidAt(entry.pairs, j);
        valid := valid + [FilesConfig(key.value, Globs(entry.pairs[j].value))];
      }
      assert valid + [] == valid;
      AppendTwice(before, KeyConfigs(entry.pairs), GlobMappings(entries[i + 1..]));
    }
    assert valid + [] == valid;
    return Ok(BaseMatch(Some(valid)));
  }

  lemma {:induction false} InvalidAt(pairs: seq<Pair>, j: nat)
    requires j < |pairs| && Invalid(pairs) == []
    ensures GlobKeyOf(pairs[j].key).Some?
  {
    if j > 0 {
      InvalidAt(pairs[1..], j - 1);
    }
  }

  method ToMatchConfig(entry: Yaml) returns (r: Result<BaseMatch>)
    ensures r == MatchEntry(entry)
  {
    if !entry.Mapping? {
      return Err(NotAMatchEntry);
    }
    if Lookup(entry.pairs, "head-branch").Some? || Lookup(entry.pairs, "base-branch").Some? {
      return Err(BranchKey);
    }
    r := ToChangedFiles(entry.pairs);
  }

  method ToMatchConfigs(entries: seq<Yaml>) returns (r: Result<seq<BaseMatch>>)
    ensures r == MatchEntries(entries)
  {
    var done: seq<BaseMatch> := [];
    AppendTwice(done, [], MatchEntries(entries));
    for i := 0 to |entries|
      invariant MatchEntries(entries) == Append(Ok(done), MatchEntries(entries[i..]))
    {
      var m := ToMatchConfig(entries[i]);
      if m.Err? {
        return Err(m.error);
      }
      AppendTwice(done, [m.value], MatchEntries(entries[i + 1..]));
      done := done + [m.value];
    }
    assert done + [] == done;
    return Ok(done);
  }

  method TakeOption(name: string, blocks: seq<MatchConfig>, key: string, value: Yaml) returns (r: Result<seq<MatchConfig>>)
    ensures r == TakePair(name, blocks, Pair(key, value))
  {
    if key == "any" || key == "all" {
      if !value.List? {
        return Ok(blocks);
      }
      var ms := ToMatchConfigs(value.items);
      if ms.Err? {
        return Err(ms.error);
      }
      return Ok(blocks + [if key == "any" then MatchConfig(None, Some(ms.value)) else MatchConfig(Some(ms.value), None)]);
    }
    if key == "changed-files" || key == "head-branch" || key == "base-branch" {
      var m := ToMatchConfig(Mapping([Pair(key, value)]));
      if m.Err? {
        return Err(m.error);
      }
      var i := 0;
      while i < |blocks| && blocks[i].any.None?
        invariant i <= |blocks| && FirstAny(blocks) == i + FirstAny(blocks[i..])
      {
        i := i + 1;
      }
      if i < |blocks| {
        return Ok(blocks[i := blocks[i].(any := Some(blocks[i].any.value + [m.value]))]);
      }
      return Ok(blocks + [MatchConfig(None, Some([m.value]))]);
    }
    return Err(UnknownOption(name, key));
  }

  method CompileRules(name: string, entries: seq<Yaml>) returns (r: Result<seq<MatchConfig>>)
    ensures r == TakeEntries(name, [], entries)
  {
    var blocks: seq<MatchConfig> := [];
    for i := 0 to |entries|
      invariant TakeEntries(name, [], entries) == TakeEntries(name, blocks, entries[i..])
    {
      var options := Options(entries[i]);
      ghost var before := blocks;
      for j := 0 to |options|
        invariant TakePairs(name, before, options) == TakePairs(name, blocks, options[j..])
      {
        var taken := TakeOption(name, blocks, options[j].key, options[j].value);
        if taken.Err? {
          return Err(taken.error);
        }
        blocks := taken.value;
      }
    }
    return Ok(blocks);
  }

  method GetLabelConfigMap(config: Yaml) returns (r: Result<seq<Labelled>>)
    ensures r == Compiled(config)
  {
    if !config.Mapping? {
      return Err(NotAMapping);
    }
    var labels: seq<Labelled> := [];
    AppendTwice(labels, [], Labels(config.pairs));
    for i := 0 to |config.pairs|
      invariant Labels(config.pairs) == Append(Ok(labels), Labels(config.pairs[i..]))
    {
      var p := config.pairs[i];
      if !p.value.List? || exists o :: o in p.value.items && !IsObject(o) {
        return Err(UnexpectedType(p.key));
      }
      var blocks := CompileRules(p.key, p.value.items);
      if blocks.Err? {
        return Err(blocks.error);
      }
      AppendTwice(labels, if blocks.value == [] then [] else [Labelled(p.key, blocks.value)], Labels(config.pairs[i + 1..]));
      if blocks.value != [] {
        labels := labels + [Labelled(p.key, blocks.value)];
      }
    }
    assert labels + [] == labels;
    return Ok(labels);
  }
}
