/** Reading `git worktree list --porcelain -z`. Bytes are spelled as characters, and a path by its components. */
module Porcelain {
  import opened Prelude

  type Path = seq<string>

  const NUL := '\0'
  const UNBORN_OID := "0000000000000000000000000000000000000000"
  const HEADS_PREFIX := "refs/heads/"

  datatype Head = Branch(name: string, commit: string) | Unborn(name: string) | Detached(commit: string) | Bare {
    /** The branch this head is on, whether or not it has a commit. */
    function OnBranch(): Option<string> {
      match this
      case Branch(name, _) => Some(name)
      case Unborn(name) => Some(name)
      case Detached(_) => None
      case Bare => None
    }
  }

  datatype Worktree = Worktree(
    path: string,
    canonical: Option<Path>,
    head: Head,
    isMain: bool,
    isPrimary: bool,
    prunable: Option<string>,
    locked: Option<string>
  )

  datatype ParseError = Orphan(key: string) | NoHead(branch: string) | Nothing(path: string)

  datatype Result<T> = Ok(value: T) | Err(error: ParseError)

  /** `refs/heads/main` as `main`, and anything else whole. */
  function ShortBranch(full: string): string {
    if HEADS_PREFIX <= full then full[|HEADS_PREFIX|..] else full
  }

  /** Among local branches the short name is the branch; outside them it can be mistaken for one. */
  lemma ShortBranchInjective(a: string, b: string)
    ensures HEADS_PREFIX <= a && HEADS_PREFIX <= b && ShortBranch(a) == ShortBranch(b) ==> a == b
    ensures HEADS_PREFIX <= a && !(HEADS_PREFIX <= b) && ShortBranch(a) == ShortBranch(b) <==>
            a == HEADS_PREFIX + b && !(HEADS_PREFIX <= b)
  {
    if HEADS_PREFIX <= a {
      assert a == HEADS_PREFIX + a[|HEADS_PREFIX|..];
    }
    if HEADS_PREFIX <= b {
      assert b == HEADS_PREFIX + b[|HEADS_PREFIX|..];
    }
  }

  // ----- Entries -----

  /** The index of the first `c`, or the length. */
  function Find(s: string, c: char): (n: nat)
    ensures n <= |s| && c !in s[..n] && (n < |s| ==> s[n] == c)
  {
    if s == [] || s[0] == c then 0 else 1 + Find(s[1..], c)
  }

  /** `split(|byte| byte == 0)`: always at least one entry. */
  function Split(s: string): (entries: seq<string>)
    ensures entries != []
    decreases |s|
  {
    var n := Find(s, NUL);
    if n == |s| then [s] else [s[..n]] + Split(s[n + 1..])
  }

  /** `key value` at the first space; an entry with no space is all key. */
  function SplitEntry(entry: string): (string, string) {
    var n := Find(entry, ' ');
    if n == |entry| then (entry, []) else (entry[..n], entry[n + 1..])
  }

  function Key(entry: string): string {
    SplitEntry(entry).0
  }

  predicate Opens(entry: string) {
    Key(entry) == "worktree"
  }

  // ----- Records -----

  datatype Record = Record(
    path: string,
    commit: Option<string>,
    branch: Option<string>,
    detached: bool,
    bare: bool,
    prunable: Option<string>,
    locked: Option<string>
  ) {
    /** Take one attribute. One this build does not know is ignored. */
    function Attribute(entry: string): Record {
      var (key, value) := SplitEntry(entry);
      if key == "HEAD" then this.(commit := Some(value))
      else if key == "branch" then this.(branch := Some(value))
      else if key == "detached" then this.(detached := true)
      else if key == "bare" then this.(bare := true)
      else if key == "prunable" then this.(prunable := Some(value))
      else if key == "locked" then this.(locked := Some(value))
      else this
    }

    /** The worktree this record is, deciding which head it has. */
    function Finish(canon: string -> Option<Path>): Result<Worktree> {
      if !bare && commit.None? then Err(if branch.Some? then NoHead(branch.value) else Nothing(path))
      else
        var head :=
          if bare then Bare
          else if branch.None? then Detached(commit.value)
          else if commit.value == UNBORN_OID then Unborn(ShortBranch(branch.value))
          else Branch(ShortBranch(branch.value), commit.value);
        Ok(Worktree(path, canon(path), head, false, false, prunable, locked))
    }
  }

  function Open(entry: string): Record {
    Record(SplitEntry(entry).1, None, None, false, false, None, None)
  }

  // ----- The parser -----

  function Then(first: Result<Worktree>, rest: Result<seq<Worktree>>): Result<seq<Worktree>> {
    if first.Err? then Err(first.error)
    else if rest.Err? then rest
    else Ok([first.value] + rest.value)
  }

  /** What a list of entries means with a record open, or none. */
  function Meaning(entries: seq<string>, current: Option<Record>, canon: string -> Option<Path>): Result<seq<Worktree>> {
    if entries == [] then
      if current.None? then Ok([]) else Then(current.value.Finish(canon), Ok([]))
    else
      var e, rest := entries[0], entries[1..];
      if e == [] || Opens(e) then
        var next := if e == [] then None else Some(Open(e));
        if current.None? then Meaning(rest, next, canon)
        else Then(current.value.Finish(canon), Meaning(rest, next, canon))
      else if current.None? then Err(Orphan(Key(e)))
      else Meaning(rest, Some(current.value.Attribute(e)), canon)
  }

  function MainFirst(worktrees: seq<Worktree>): seq<Worktree> {
    if worktrees == [] then [] else [worktrees[0].(isMain := true)] + worktrees[1..]
  }

  function ParseMeaning(stdout: string, canon: string -> Option<Path>): Result<seq<Worktree>> {
    match Meaning(Split(stdout), None, canon)
    case Err(e) => Err(e)
    case Ok(ws) => Ok(MainFirst(ws))
  }

  method Parse(stdout: string, canon: string -> Option<Path>) returns (r: Result<seq<Worktree>>)
    ensures r == ParseMeaning(stdout, canon)
  {
    var worktrees: seq<Worktree>, current: Option<Record> := [], None;
    var entries := Split(stdout);
    ghost var whole := Meaning(entries, None, canon);
    assert entries[0..] == entries && (whole.Ok? ==> [] + whole.value == whole.value);
    for i := 0 to |entries|
      invariant whole == Prefixed(worktrees, Meaning(entries[i..], current, canon))
    {
      var entry := entries[i];
      assert entries[i..][0] == entry && entries[i..][1..] == entries[i + 1..];
      if entry == [] || Opens(entry) {
        if current.Some? {
          var done := current.value.Finish(canon);
          if done.Err? {
            return Err(done.error);
          }
          ghost var rest := Meaning(entries[i + 1..], if entry == [] then None else Some(Open(entry)), canon);
          PrefixedThen(worktrees, done.value, rest);
          worktrees := worktrees + [done.value];
        }
        current := if entry == [] then None else Some(Open(entry));
        continue;
      }
      if current.None? {
        return Err(Orphan(Key(entry)));
      }
      current := Some(current.value.Attribute(entry));
    }
    assert entries[|entries|..] == [];
    if current.Some? {
      var done := current.value.Finish(canon);
      if done.Err? {
        return Err(done.error);
      }
      PrefixedThen(worktrees, done.value, Ok([]));
      worktrees := worktrees + [done.value];
    } else {
      assert worktrees + [] == worktrees;
    }
    if worktrees != [] {
      assert MainFirst(worktrees) == worktrees[0 := worktrees[0].(isMain := true)];
      worktrees := worktrees[0 := worktrees[0].(isMain := true)];
    }
    return Ok(worktrees);
  }

  ghost function Prefixed(done: seq<Worktree>, rest: Result<seq<Worktree>>): Result<seq<Worktree>> {
    if rest.Err? then rest else Ok(done + rest.value)
  }

  lemma PrefixedThen(done: seq<Worktree>, next: Worktree, rest: Result<seq<Worktree>>)
    ensures Prefixed(done, Then(Ok(next), rest)) == Prefixed(done + [next], rest)
    ensures Prefixed(done + [next], Ok([])) == Ok(done + [next])
  {
    assert done + [next] + [] == done + [next];
    if rest.Ok? {
      assert done + ([next] + rest.value) == done + [next] + rest.value;
    }
  }

  // ----- The printer, and what parsing makes of it -----

  /** One record as git writes it: where the worktree is, and an entry for each thing said about it. */
  datatype Raw = Raw(path: string, attributes: seq<string>) {
    predicate WellFormed() {
      && NUL !in path
      && forall a :: a in attributes ==> a != [] && NUL !in a && !Opens(a)
    }

    function Entries(): seq<string> {
      ["worktree " + path] + attributes
    }

    function Collect(): Record {
      Attributes(Record(path, None, None, false, false, None, None), attributes)
    }
  }

  function Attributes(r: Record, attributes: seq<string>): Record
    decreases |attributes|
  {
    if attributes == [] then r else Attributes(r.Attribute(attributes[0]), attributes[1..])
  }

  function FinishAll(raws: seq<Raw>, canon: string -> Option<Path>): Result<seq<Worktree>> {
    if raws == [] then Ok([]) else Then(raws[0].Collect().Finish(canon), FinishAll(raws[1..], canon))
  }

  function EntriesOf(raws: seq<Raw>): seq<string> {
    if raws == [] then [] else raws[0].Entries() + [[]] + EntriesOf(raws[1..])
  }

  /** Every entry followed by a NUL. */
  function Terminate(entries: seq<string>): string {
    if entries == [] then [] else entries[0] + ([NUL] + Terminate(entries[1..]))
  }

  /** Every entry NUL-terminated, and an empty entry after each record. */
  function Print(raws: seq<Raw>): string {
    Terminate(EntriesOf(raws))
  }

  /** Splitting undoes printing, with one empty piece after the last NUL. */
  lemma {:induction false} SplitTerminate(entries: seq<string>, tail: string)
    requires forall e :: e in entries ==> NUL !in e
    ensures Split(Terminate(entries) + tail) == entries + Split(tail)
  {
    if entries == [] {
      assert Terminate(entries) + tail == tail && entries + Split(tail) == Split(tail);
    } else {
      var e, more := entries[0], Terminate(entries[1..]);
      assert e in entries;
      SplitTerminate(entries[1..], tail);
      SplitFirst(e, more + tail);
      Regroup(e, [NUL] + more, tail);
      Regroup([NUL], more, tail);
      Regroup([e], entries[1..], Split(tail));
      assert [e] + entries[1..] == entries;
    }
  }

  lemma Regroup<T>(a: seq<T>, b: seq<T>, c: seq<T>)
    ensures a + b + c == a + (b + c)
  {
  }

  lemma SplitFirst(e: string, rest: string)
    requires NUL !in e
    ensures Split(e + ([NUL] + rest)) == [e] + Split(rest)
  {
    var whole := e + ([NUL] + rest);
    FindAt(e, rest, NUL);
    assert whole[..|e|] == e && whole[|e| + 1..] == rest;
  }

  lemma {:induction false} FindAt(e: string, rest: string, c: char)
    requires c !in e
    ensures Find(e + ([c] + rest), c) == |e|
  {
    if e == [] {
      assert e + ([c] + rest) == [c] + rest;
    } else {
      assert (e + ([c] + rest))[1..] == e[1..] + ([c] + rest);
      FindAt(e[1..], rest, c);
    }
  }

  lemma OpensPath(path: string)
    ensures SplitEntry("worktree " + path) == ("worktree", path)
  {
    FindAt("worktree", path, ' ');
    assert "worktree " + path == "worktree" + ([' '] + path);
    assert ("worktree" + ([' '] + path))[9..] == path;
  }

  /** The attributes of an open record are taken in order, and then whatever follows. */
  lemma {:induction false} MeaningAttributes(attributes: seq<string>, rest: seq<string>, r: Record, canon: string -> Option<Path>)
    requires forall a :: a in attributes ==> a != [] && !Opens(a)
    ensures Meaning(attributes + rest, Some(r), canon) == Meaning(rest, Some(Attributes(r, attributes)), canon)
  {
    if attributes == [] {
      assert attributes + rest == rest;
    } else {
      assert attributes[0] in attributes && forall a :: a in attributes[1..] ==> a in attributes;
      assert (attributes + rest)[0] == attributes[0] && (attributes + rest)[1..] == attributes[1..] + rest;
      MeaningAttributes(attributes[1..], rest, r.Attribute(attributes[0]), canon);
    }
  }

  /** One whole record, and then whatever follows it. */
  lemma MeaningRecord(raw: Raw, rest: seq<string>, canon: string -> Option<Path>)
    requires raw.WellFormed()
    ensures Meaning(raw.Entries() + [[]] + rest, None, canon) == Then(raw.Collect().Finish(canon), Meaning(rest, None, canon))
    ensures Meaning(raw.Entries(), None, canon) == Then(raw.Collect().Finish(canon), Ok([]))
  {
    OpensPath(raw.path);
    var first := Open("worktree " + raw.path);
    var all := raw.Entries() + [[]] + rest;
    assert all[1..] == raw.attributes + ([[]] + rest);
    MeaningAttributes(raw.attributes, [[]] + rest, first, canon);
    assert ([[]] + rest)[1..] == rest;
    assert raw.Entries()[1..] == raw.attributes + [];
    MeaningAttributes(raw.attributes, [], first, canon);
  }

  lemma {:induction false} MeaningEntries(raws: seq<Raw>, last: seq<string>, canon: string -> Option<Path>)
    requires forall r :: r in raws ==> r.WellFormed()
    requires last == [] || last == [[]]
    ensures Meaning(EntriesOf(raws) + last, None, canon) == FinishAll(raws, canon)
  {
    if raws == [] {
      assert EntriesOf(raws) + last == last;
      assert last != [] ==> last[1..] == [];
    } else {
      MeaningEntries(raws[1..], last, canon);
      MeaningRecord(raws[0], EntriesOf(raws[1..]) + last, canon);
      assert EntriesOf(raws) + last == raws[0].Entries() + [[]] + (EntriesOf(raws[1..]) + last);
    }
  }

  lemma {:induction false} EntriesClean(raws: seq<Raw>)
    requires forall r :: r in raws ==> r.WellFormed()
    ensures forall e :: e in EntriesOf(raws) ==> NUL !in e
  {
    if raws != [] {
      assert raws[0] in raws && NUL !in "worktree " + raws[0].path;
      EntriesClean(raws[1..]);
    }
  }

  function Parsed(raws: seq<Raw>, canon: string -> Option<Path>): Result<seq<Worktree>> {
    match FinishAll(raws, canon)
    case Err(e) => Err(e)
    case Ok(ws) => Ok(MainFirst(ws))
  }

  /** The stream git writes for any list of records means exactly those records, in order, the first one main. */
  lemma ParsePrint(raws: seq<Raw>, canon: string -> Option<Path>)
    requires forall r :: r in raws ==> r.WellFormed()
    ensures ParseMeaning(Print(raws), canon) == Parsed(raws, canon)
  {
    EntriesClean(raws);
    SplitTerminate(EntriesOf(raws), []);
    assert Terminate(EntriesOf(raws)) + [] == Print(raws);
    MeaningEntries(raws, [[]], canon);
  }

  /** So does a stream without the empty entry that should close its last record. */
  lemma ParseUnclosed(raws: seq<Raw>, raw: Raw, canon: string -> Option<Path>)
    requires raw.WellFormed() && forall r :: r in raws ==> r.WellFormed()
    ensures ParseMeaning(Print(raws) + Terminate(raw.Entries()), canon) == Parsed(raws + [raw], canon)
  {
    var entries := raw.Entries();
    assert NUL !in "worktree " + raw.path;
    EntriesClean(raws);
    SplitTerminate(EntriesOf(raws), Terminate(entries));
    SplitTerminate(entries, []);
    assert Terminate(entries) + [] == Terminate(entries);
    MeaningLast(raws, raw, [[]], canon);
  }

  /** And a stream cut off before its very last NUL. */
  lemma ParseCutShort(raws: seq<Raw>, raw: Raw, most: seq<string>, last: string, canon: string -> Option<Path>)
    requires raw.WellFormed() && (forall r :: r in raws ==> r.WellFormed()) && raw.Entries() == most + [last]
    ensures ParseMeaning(Print(raws) + (Terminate(most) + last), canon) == Parsed(raws + [raw], canon)
  {
    assert NUL !in "worktree " + raw.path;
    assert forall e :: e in most + [last] ==> NUL !in e;
    EntriesClean(raws);
    SplitTerminate(EntriesOf(raws), Terminate(most) + last);
    SplitTerminate(most, last);
    NoNul(last);
    assert raw.Entries() + [] == most + [last];
    MeaningLast(raws, raw, [], canon);
  }

  lemma NoNul(s: string)
    requires NUL !in s
    ensures Split(s) == [s]
  {
  }

  lemma {:induction false} MeaningLast(raws: seq<Raw>, raw: Raw, end: seq<string>, canon: string -> Option<Path>)
    requires raw.WellFormed() && forall r :: r in raws ==> r.WellFormed()
    requires end == [] || end == [[]]
    ensures Meaning(EntriesOf(raws) + (raw.Entries() + end), None, canon) == FinishAll(raws + [raw], canon)
  {
    var last := raw.Entries() + end;
    if raws == [] {
      MeaningOnly(raw, end, canon);
      assert EntriesOf(raws) + last == last;
      assert (raws + [raw])[1..] == [];
    } else {
      MeaningLast(raws[1..], raw, end, canon);
      MeaningRecord(raws[0], EntriesOf(raws[1..]) + last, canon);
      Regroup(raws[0].Entries() + [[]], EntriesOf(raws[1..]), last);
      assert (raws + [raw])[1..] == raws[1..] + [raw];
    }
  }

  lemma MeaningOnly(raw: Raw, end: seq<string>, canon: string -> Option<Path>)
    requires raw.WellFormed() && (end == [] || end == [[]])
    ensures Meaning(raw.Entries() + end, None, canon) == Then(raw.Collect().Finish(canon), Ok([]))
  {
    MeaningRecord(raw, [], canon);
    assert raw.Entries() + [[]] + [] == raw.Entries() + [[]];
    assert raw.Entries() + [] == raw.Entries();
  }

  function Opening(entries: seq<string>): nat {
    if entries == [] then 0 else (if entries[0] != [] && Opens(entries[0]) then 1 else 0) + Opening(entries[1..])
  }

  /** Nothing is dropped and nothing invented on any input that parses, well-formed or not. */
  lemma {:induction false} MeaningCounts(entries: seq<string>, current: Option<Record>, canon: string -> Option<Path>)
    requires Meaning(entries, current, canon).Ok?
    ensures |Meaning(entries, current, canon).value| == Opening(entries) + if current.Some? then 1 else 0
    ensures forall w :: w in Meaning(entries, current, canon).value ==> !w.isMain && !w.isPrimary
    decreases |entries|
  {
    if entries != [] {
      var e, rest := entries[0], entries[1..];
      if e == [] || Opens(e) {
        MeaningCounts(rest, if e == [] then None else Some(Open(e)), canon);
      } else {
        MeaningCounts(rest, Some(current.value.Attribute(e)), canon);
      }
    }
  }

  lemma ParseCounts(stdout: string, canon: string -> Option<Path>)
    requires ParseMeaning(stdout, canon).Ok?
    ensures var ws := ParseMeaning(stdout, canon).value;
      && |ws| == Opening(Split(stdout))
      && (forall i :: 0 <= i < |ws| ==> (ws[i].isMain <==> i == 0) && !ws[i].isPrimary)
  {
    MeaningCounts(Split(stdout), None, canon);
  }

  // ----- Attributes this build does not know -----

  predicate Known(entry: string) {
    Key(entry) in {"HEAD", "branch", "detached", "bare", "prunable", "locked"}
  }

  function Recognised(attributes: seq<string>): seq<string> {
    if attributes == [] then []
    else (if Known(attributes[0]) then [attributes[0]] else []) + Recognised(attributes[1..])
  }

  function WithoutUnknown(raws: seq<Raw>): seq<Raw> {
    if raws == [] then [] else [Raw(raws[0].path, Recognised(raws[0].attributes))] + WithoutUnknown(raws[1..])
  }

  lemma {:induction false} UnknownSkipped(r: Record, attributes: seq<string>)
    ensures Attributes(r, Recognised(attributes)) == Attributes(r, attributes)
    decreases |attributes|
  {
    if attributes != [] {
      UnknownSkipped(r.Attribute(attributes[0]), attributes[1..]);
      if Known(attributes[0]) {
        assert Recognised(attributes)[1..] == Recognised(attributes[1..]);
      } else {
        assert Recognised(attributes) == Recognised(attributes[1..]);
      }
    }
  }

  /** Whatever git adds to a record in later versions, the answer is the same. */
  lemma {:induction false} UnknownIgnored(raws: seq<Raw>, canon: string -> Option<Path>)
    ensures Parsed(WithoutUnknown(raws), canon) == Parsed(raws, canon)
    ensures FinishAll(WithoutUnknown(raws), canon) == FinishAll(raws, canon)
  {
    if raws != [] {
      UnknownSkipped(Record(raws[0].path, None, None, false, false, None, None), raws[0].attributes);
      UnknownIgnored(raws[1..], canon);
      assert WithoutUnknown(raws)[1..] == WithoutUnknown(raws[1..]);
    }
  }

  lemma {:induction false} StillWellFormed(raws: seq<Raw>)
    requires forall r :: r in raws ==> r.WellFormed()
    ensures forall r :: r in WithoutUnknown(raws) ==> r.WellFormed()
  {
    if raws != [] {
      StillWellFormed(raws[1..]);
      RecognisedAmong(raws[0].attributes);
      assert raws[0] in raws;
    }
  }

  lemma {:induction false} RecognisedAmong(attributes: seq<string>)
    ensures forall a :: a in Recognised(attributes) ==> a in attributes
  {
    if attributes != [] {
      RecognisedAmong(attributes[1..]);
    }
  }

  /** So the stream with them and the stream without them are read as the same worktrees, or the same error. */
  lemma UnknownUnread(raws: seq<Raw>, canon: string -> Option<Path>)
    requires forall r :: r in raws ==> r.WellFormed()
    ensures ParseMeaning(Print(WithoutUnknown(raws)), canon) == ParseMeaning(Print(raws), canon)
  {
    StillWellFormed(raws);
    ParsePrint(raws, canon);
    ParsePrint(WithoutUnknown(raws), canon);
    UnknownIgnored(raws, canon);
  }

  // ----- What each attribute comes back as -----

  lemma Entry(key: string, value: string)
    requires ' ' !in key
    ensures SplitEntry(key + ([' '] + value)) == (key, value)
  {
    FindAt(key, value, ' ');
    assert (key + ([' '] + value))[|key| + 1..] == value;
  }

  /** A key and a value with a space between are taken for what the key names; a key alone for an empty value. */
  lemma AttributeMeans(r: Record, value: string)
    ensures r.Attribute("HEAD " + value) == r.(commit := Some(value))
    ensures r.Attribute("branch " + value) == r.(branch := Some(value))
    ensures r.Attribute("prunable " + value) == r.(prunable := Some(value))
    ensures r.Attribute("locked " + value) == r.(locked := Some(value))
  {
    Spaced("HEAD", "HEAD ", value);
    Spaced("branch", "branch ", value);
    Spaced("prunable", "prunable ", value);
    Spaced("locked", "locked ", value);
  }

  lemma Spaced(key: string, spaced: string, value: string)
    requires ' ' !in key && spaced == key + [' ']
    ensures SplitEntry(spaced + value) == (key, value)
  {
    Entry(key, value);
    assert spaced + value == key + ([' '] + value);
  }

  lemma HeadMeans(r: Record)
    ensures r.Attribute("detached") == r.(detached := true) && r.Attribute("bare") == r.(bare := true)
  {
    Unspaced("detached");
    Unspaced("bare");
  }

  /** A worktree may be held back without a reason. */
  lemma LockedMeans(r: Record)
    ensures r.Attribute("locked") == r.(locked := Some(""))
  {
    Unspaced("locked");
  }

  lemma PrunableMeans(r: Record)
    ensures r.Attribute("prunable") == r.(prunable := Some(""))
  {
    Unspaced("prunable");
  }

  lemma {:induction false} Unspaced(key: string)
    requires ' ' !in key
    ensures SplitEntry(key) == (key, "")
  {
  }

  /** A record with a head and a branch, held back by both of what git holds worktrees back with. */
  lemma OnABranch(path: string, oid: string, name: string, why: string, gone: string, canon: string -> Option<Path>)
    ensures var raw := Raw(path, ["HEAD " + oid, "branch refs/heads/" + name, "locked " + why, "prunable " + gone]);
      raw.Collect().Finish(canon)
      == Ok(Worktree(path, canon(path), if oid == seq(40, _ => '0') then Unborn(name) else Branch(name, oid),
                     false, false, Some(gone), Some(why)))
  {
    var start := Record(path, None, None, false, false, None, None);
    var ref := "refs/heads/" + name;
    assert "branch " + ref == "branch refs/heads/" + name;
    Four(start, "HEAD " + oid, "branch " + ref, "locked " + why, "prunable " + gone);
    FourMean(start, oid, ref, why, gone);
    FinishOnABranch(start.(commit := Some(oid), branch := Some(ref), locked := Some(why), prunable := Some(gone)), oid, name, canon);
  }

  lemma FourMean(r: Record, oid: string, ref: string, why: string, gone: string)
    ensures r.Attribute("HEAD " + oid).Attribute("branch " + ref).Attribute("locked " + why).Attribute("prunable " + gone)
            == r.(commit := Some(oid), branch := Some(ref), locked := Some(why), prunable := Some(gone))
  {
    AttributeMeans(r, oid);
    AttributeMeans(r.(commit := Some(oid)), ref);
    AttributeMeans(r.(commit := Some(oid), branch := Some(ref)), why);
    AttributeMeans(r.(commit := Some(oid), branch := Some(ref), locked := Some(why)), gone);
  }

  lemma FinishOnABranch(r: Record, oid: string, name: string, canon: string -> Option<Path>)
    requires !r.bare && r.commit == Some(oid) && r.branch == Some("refs/heads/" + name)
    ensures r.Finish(canon)
            == Ok(Worktree(r.path, canon(r.path), if oid == seq(40, _ => '0') then Unborn(name) else Branch(name, oid),
                           false, false, r.prunable, r.locked))
  {
    assert ShortBranch("refs/heads/" + name) == name;
    assert UNBORN_OID == seq(40, _ => '0');
  }

  lemma Four(r: Record, a: string, b: string, c: string, d: string)
    ensures Attributes(r, [a, b, c, d]) == r.Attribute(a).Attribute(b).Attribute(c).Attribute(d)
    ensures Attributes(r, [a, b]) == r.Attribute(a).Attribute(b)
    ensures Attributes(r, [a]) == r.Attribute(a) && Attributes(r, []) == r
  {
    assert [a][1..] == [] && [a, b][1..] == [b] && [b][1..] == [] && [a, b, c, d][1..] == [b, c, d];
    assert [b, c, d][1..] == [c, d] && [c, d][1..] == [d] && [d][1..] == [];
    assert Attributes(r.Attribute(a).Attribute(b).Attribute(c), [d]) == r.Attribute(a).Attribute(b).Attribute(c).Attribute(d);
    assert Attributes(r.Attribute(a).Attribute(b), [c, d]) == r.Attribute(a).Attribute(b).Attribute(c).Attribute(d);
    assert Attributes(r.Attribute(a), [b]) == r.Attribute(a).Attribute(b);
  }

  /** Off any branch, with no working tree, and the two records there is nothing to be made of. */
  lemma OffABranch(path: string, oid: string, ref: string, canon: string -> Option<Path>)
    ensures Raw(path, ["HEAD " + oid, "detached"]).Collect().Finish(canon)
            == Ok(Worktree(path, canon(path), Detached(oid), false, false, None, None))
    ensures Raw(path, ["bare"]).Collect().Finish(canon) == Ok(Worktree(path, canon(path), Bare, false, false, None, None))
    ensures Raw(path, ["branch " + ref]).Collect().Finish(canon) == Err(NoHead(ref))
    ensures Raw(path, []).Collect().Finish(canon) == Err(Nothing(path))
  {
    var start := Record(path, None, None, false, false, None, None);
    AttributeMeans(start, oid);
    AttributeMeans(start, ref);
    HeadMeans(start);
    HeadMeans(start.(commit := Some(oid)));
    Four(start, "HEAD " + oid, "detached", "", "");
    Four(start, "bare", "", "", "");
    Four(start, "branch " + ref, "", "", "");
  }

  predicate BareSaid(attributes: seq<string>) {
    exists a :: a in attributes && Key(a) == "bare"
  }

  lemma {:induction false} SaysBare(r: Record, attributes: seq<string>)
    ensures Attributes(r, attributes).bare <==> r.bare || BareSaid(attributes)
    ensures Attributes(r, attributes).path == r.path
    decreases |attributes|
  {
    if attributes != [] {
      var first, rest := attributes[0], attributes[1..];
      SaysBare(r.Attribute(first), rest);
      assert attributes == [first] + rest;
      assert BareSaid(attributes) <==> Key(first) == "bare" || BareSaid(rest);
      assert r.Attribute(first).bare <==> r.bare || Key(first) == "bare";
    }
  }

  /** A record that says it is bare is that, whatever else it says and in whatever order; no other record is. */
  lemma BareExactly(raw: Raw, canon: string -> Option<Path>)
    ensures var r := raw.Collect().Finish(canon);
      BareSaid(raw.attributes) <==>
        r.Ok? && r.value.head == Bare && r.value.path == raw.path && r.value.canonical == canon(raw.path)
  {
    SaysBare(Record(raw.path, None, None, false, false, None, None), raw.attributes);
  }

  /** Something said before any worktree is named refuses the whole stream. */
  lemma OrphanRefused(entry: string, rest: string, canon: string -> Option<Path>)
    requires entry != [] && NUL !in entry && !Opens(entry)
    ensures ParseMeaning(entry + ([NUL] + rest), canon) == Err(Orphan(Key(entry)))
  {
    SplitFirst(entry, rest);
  }
}
