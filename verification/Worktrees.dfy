/** Worktrees keyed by branch: marking the one somebody is in, and finding or making the one for a branch. */
module Worktrees {
  import opened Prelude
  import Porcelain
  import opened Slug

  type Path = Porcelain.Path

  // ----- Which worktree a folder is in -----

  /** `contains`: whole components, so a path contains itself and what is under it. */
  predicate Holds(w: Porcelain.Worktree, at: Path) {
    w.canonical.Some? && w.canonical.value <= at
  }

  function Depth(w: Porcelain.Worktree): nat {
    if w.canonical.Some? then |w.canonical.value| else 0
  }

  /** Mark the deepest worktree `at` is in, and nothing else; the others it is in are all around that one. */
  method MarkPrimary(worktrees: array<Porcelain.Worktree>, at: Path)
    modifies worktrees
    ensures (forall i :: 0 <= i < worktrees.Length ==> !Holds(old(worktrees[i]), at)) ==> worktrees[..] == old(worktrees[..])
    ensures (exists i :: 0 <= i < worktrees.Length && Holds(old(worktrees[i]), at)) ==>
      exists k :: 0 <= k < worktrees.Length
        && worktrees[..] == old(worktrees[..])[k := old(worktrees[k]).(isPrimary := true)]
        && Holds(worktrees[k], at)
        && forall i :: 0 <= i < worktrees.Length && Holds(worktrees[i], at) ==>
             worktrees[i].canonical.value <= worktrees[k].canonical.value
             && (k < i ==> worktrees[i].canonical.value != worktrees[k].canonical.value)
  {
    var deepest: Option<nat> := None;
    for i := 0 to worktrees.Length
      invariant deepest.None? ==> forall j :: 0 <= j < i ==> !Holds(worktrees[j], at)
      invariant deepest.Some? ==>
        && deepest.value < i && Holds(worktrees[deepest.value], at)
        && forall j :: 0 <= j < i && Holds(worktrees[j], at) ==>
             Depth(worktrees[j]) <= Depth(worktrees[deepest.value])
             && (deepest.value < j ==> Depth(worktrees[j]) < Depth(worktrees[deepest.value]))
    {
      if Holds(worktrees[i], at) && (deepest.None? || Depth(worktrees[deepest.value]) <= Depth(worktrees[i])) {
        deepest := Some(i);
      }
    }
    if deepest.Some? {
      var k := deepest.value;
      worktrees[k] := worktrees[k].(isPrimary := true);
      forall i | 0 <= i < worktrees.Length && Holds(worktrees[i], at)
        ensures worktrees[i].canonical.value <= worktrees[k].canonical.value
      {
        PrefixesNest(worktrees[i].canonical.value, worktrees[k].canonical.value, at);
      }
      assert worktrees[..] == old(worktrees[..])[k := old(worktrees[k]).(isPrimary := true)];
    }
  }

  /** Two prefixes of one path are prefixes of each other, the shorter of the longer. */
  lemma PrefixesNest(a: Path, b: Path, at: Path)
    requires a <= at && b <= at && |a| <= |b|
    ensures a <= b && (|a| == |b| ==> a == b)
  {
  }

  // ----- A repository and the disk it is on -----

  /** A worktree as git has it registered: where, and the ref it has checked out, if it is on one. */
  datatype Registration = Registration(path: Path, ref: Option<string>) {
    function Branch(): Option<string> {
      if ref.Some? then Some(Porcelain.ShortBranch(ref.value)) else None
    }
  }

  datatype Repo = Repo(refs: set<string>, registered: seq<Registration>, disk: set<Path>, at: Path)

  function Ref(branch: string): string {
    Porcelain.HEADS_PREFIX + branch
  }

  /** `for-each-ref`: git matches a pattern at `/` boundaries. */
  function ForEachRef(refs: set<string>, wanted: string): set<string> {
    set r | r in refs && (r == wanted || wanted + "/" <= r)
  }

  /** The first registration on `branch`, or how many there are. */
  function Holding(registered: seq<Registration>, branch: string): (n: nat)
    ensures n <= |registered|
    ensures n < |registered| ==> registered[n].Branch() == Some(branch)
    ensures forall i :: 0 <= i < n ==> registered[i].Branch() != Some(branch)
  {
    if registered == [] || registered[0].Branch() == Some(branch) then 0 else 1 + Holding(registered[1..], branch)
  }

  /** The main worktree's root, whichever checkout was looked at; that one, when the main one has no directory. */
  function NysiaDir(r: Repo): Path {
    (if r.registered != [] && r.registered[0].path in r.disk then r.registered[0].path else r.at) + [".nysia"]
  }

  function Base(r: Repo): Path {
    NysiaDir(r) + ["worktrees"]
  }

  // ----- A free directory -----

  const MAX_DIRECTORY_ATTEMPTS := 9

  function Candidate(base: Path, slug: string, attempt: nat): Path
    requires 1 <= attempt <= MAX_DIRECTORY_ATTEMPTS
  {
    base + [if attempt == 1 then slug else slug + ['-', ('0' as int + attempt) as char]]
  }

  lemma CandidatesDiffer(base: Path, slug: string, i: nat, j: nat)
    requires 1 <= i < j <= MAX_DIRECTORY_ATTEMPTS
    ensures Candidate(base, slug, i) != Candidate(base, slug, j)
  {
    var a, b := Candidate(base, slug, i), Candidate(base, slug, j);
    assert a[|base|] != b[|base|] by {
      if i > 1 {
        assert a[|base|][|slug| + 1] != b[|base|][|slug| + 1];
      }
    }
  }

  function FreeFrom(base: Path, slug: string, disk: set<Path>, attempt: nat): (found: Option<Path>)
    requires 1 <= attempt <= MAX_DIRECTORY_ATTEMPTS + 1
    ensures found.Some? ==> found.value !in disk
    ensures found.Some? ==> exists k :: attempt <= k <= MAX_DIRECTORY_ATTEMPTS && found.value == Candidate(base, slug, k)
    ensures found.None? <==> forall k :: attempt <= k <= MAX_DIRECTORY_ATTEMPTS ==> Candidate(base, slug, k) in disk
    decreases MAX_DIRECTORY_ATTEMPTS + 1 - attempt
  {
    if attempt > MAX_DIRECTORY_ATTEMPTS then None
    else if Candidate(base, slug, attempt) !in disk then Some(Candidate(base, slug, attempt))
    else FreeFrom(base, slug, disk, attempt + 1)
  }

  // ----- Finding or making the worktree for a branch -----

  datatype Outcome =
    | Created(made: Registration)
    | Adopted(found: Registration)
    | BranchRefused
    | BranchPrunable
    | NoDirectory
    | GitFailed

  /** What git and the disk answer: whether the name is legal, what could be hidden, whether the add went through. */
  datatype Answers = Answers(legal: bool, made: bool, hidden: bool, added: bool)

  /** A path and everything it is inside. */
  function Along(path: Path): set<Path> {
    set k | 0 <= k <= |path| :: path[..k]
  }

  /** The directory Nysia makes, and the file that keeps git from seeing it. Both are best effort. */
  function Concealed(r: Repo, a: Answers): Repo {
    if !a.made then r
    else r.(disk := r.disk + Along(NysiaDir(r)) + if a.hidden then {NysiaDir(r) + [".gitignore"]} else {})
  }

  /** A ref is a path, so git keeps none beside another that would have to be a directory on the way to it. */
  predicate InTheWay(refs: set<string>, ref: string) {
    exists r :: r in refs && (ref + "/" <= r || r + "/" <= ref)
  }

  /**
    * When `worktree add` may succeed at all: git never takes a path that exists or that it has registered, makes
    * only a branch that is not there and has room, and checks out only one that is there.
    */
  predicate Addable(r: Repo, path: Path, branch: string, make: bool) {
    && path !in r.disk
    && (forall g :: g in r.registered ==> g.path != path)
    && (make <==> Ref(branch) !in r.refs)
    && (make ==> !InTheWay(r.refs, Ref(branch)))
  }

  function Added(r: Repo, path: Path, branch: string): Repo {
    r.(refs := r.refs + {Ref(branch)},
       registered := r.registered + [Registration(path, Some(Ref(branch)))],
       disk := r.disk + Along(path))
  }

  function Ensured(r: Repo, branch: string, a: Answers): (Repo, Outcome) {
    if branch == [] || branch[0] == '-' || !a.legal then (r, BranchRefused)
    else
      var n := Holding(r.registered, branch);
      if n < |r.registered| then
        (r, if r.registered[n].path in r.disk then Adopted(r.registered[n]) else BranchPrunable)
      else
        var free := FreeFrom(Base(r), SlugOf(branch), r.disk, 1);
        if free.None? then (r, NoDirectory)
        else if !a.added || !Addable(Concealed(r, a), free.value, branch, Ref(branch) !in r.refs) then
          (Concealed(r, a), GitFailed)
        else
          (Added(Concealed(r, a), free.value, branch), Created(Registration(free.value, Some(Ref(branch)))))
  }

  class Repository {
    var refs: set<string>
    var registered: seq<Registration>
    var disk: set<Path>
    const at: Path

    constructor (r: Repo)
      ensures View() == r
    {
      refs, registered, disk, at := r.refs, r.registered, r.disk, r.at;
    }

    ghost function View(): Repo
      reads this
    {
      Repo(refs, registered, disk, at)
    }

    method FreeDirectory(base: Path, branch: string) returns (found: Option<Path>)
      ensures found == FreeFrom(base, SlugOf(branch), disk, 1)
    {
      var slug := MakeSlug(branch);
      for attempt := 1 to MAX_DIRECTORY_ATTEMPTS + 1
        invariant FreeFrom(base, slug, disk, 1) == FreeFrom(base, slug, disk, attempt)
      {
        if Candidate(base, slug, attempt) !in disk {
          return Some(Candidate(base, slug, attempt));
        }
      }
      return None;
    }

    /** git lists `wanted` and everything below it; only the exact name is the branch. */
    method Exists(branch: string) returns (found: bool)
      ensures found <==> Ref(branch) in refs
    {
      var lines := ForEachRef(refs, Ref(branch));
      found := Ref(branch) in lines;
    }

    method Conceal(dir: Path, a: Answers)
      requires dir == NysiaDir(View())
      modifies this`disk
      ensures View() == Concealed(old(View()), a)
    {
      if !a.made {
        return;
      }
      disk := disk + Along(dir);
      var ignore := dir + [".gitignore"];
      if a.hidden && ignore !in disk {
        disk := disk + {ignore};
      }
    }

    /** `worktree add`, with `-b` when the branch is to be made. */
    method WorktreeAdd(path: Path, branch: string, make: bool, a: Answers) returns (ok: bool)
      modifies this
      ensures ok <==> a.added && Addable(old(View()), path, branch, make)
      ensures View() == if ok then Added(old(View()), path, branch) else old(View())
    {
      ok := a.added && path !in disk && (forall g :: g in registered ==> g.path != path)
            && make == (Ref(branch) !in refs) && (make ==> !InTheWay(refs, Ref(branch)));
      if ok {
        if make {
          refs := refs + {Ref(branch)};
        }
        registered := registered + [Registration(path, Some(Ref(branch)))];
        disk := disk + Along(path);
      }
    }

    /** `list` and `find`. */
    method OnBranch(branch: string) returns (n: nat)
      ensures n == Holding(registered, branch)
    {
      n := 0;
      while n < |registered| && registered[n].Branch() != Some(branch)
        invariant n <= |registered|
        invariant Holding(registered, branch) == n + Holding(registered[n..], branch)
      {
        n := n + 1;
      }
    }

    method Ensure(branch: string, a: Answers) returns (outcome: Outcome)
      modifies this
      ensures (View(), outcome) == Ensured(old(View()), branch, a)
    {
      if branch == [] || branch[0] == '-' || !a.legal {
        return BranchRefused;
      }
      var n := OnBranch(branch);
      if n < |registered| {
        return if registered[n].path in disk then Adopted(registered[n]) else BranchPrunable;
      }
      ghost var was := View();
      var dir := if registered != [] && registered[0].path in disk then registered[0].path else at;
      dir := dir + [".nysia"];
      var free := FreeDirectory(dir + ["worktrees"], branch);
      if free.None? {
        return NoDirectory;
      }
      var there := Exists(branch);
      Conceal(dir, a);
      var ok := WorktreeAdd(free.value, branch, !there, a);
      if !ok {
        return GitFailed;
      }
      HoldingSnoc(was.registered, Registration(free.value, Some(Ref(branch))), branch);
      n := OnBranch(branch);
      return if n < |registered| then Created(registered[n]) else GitFailed;
    }
  }

  lemma RefShort(branch: string)
    ensures Porcelain.ShortBranch(Ref(branch)) == branch
  {
  }

  lemma {:induction false} HoldingSnoc(registered: seq<Registration>, made: Registration, branch: string)
    requires Holding(registered, branch) == |registered| && made.ref == Some(Ref(branch))
    ensures Holding(registered + [made], branch) == |registered|
  {
    RefShort(branch);
    if registered != [] {
      HoldingSnoc(registered[1..], made, branch);
      assert (registered + [made])[1..] == registered[1..] + [made];
    }
  }
}
