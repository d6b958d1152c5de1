/** Calls of `Ensure` between whatever else is done to a repository, and what no order of them can bring about. */
module WorktreeRuns {
  import opened Prelude
  import opened Slug
  import opened Worktrees
  import Porcelain

  // ----- One call -----

  predicate Succeeds(outcome: Outcome) {
    outcome.Created? || outcome.Adopted?
  }

  function Given(outcome: Outcome): Registration
    requires Succeeds(outcome)
  {
    if outcome.Created? then outcome.made else outcome.found
  }

  /** A branch that has a worktree keeps exactly that one; one that has none gets at most one. */
  lemma NeverASecond(r: Repo, branch: string, a: Answers)
    ensures var (after, outcome) := Ensured(r, branch, a);
      if exists g :: g in r.registered && g.Branch() == Some(branch)
      then after == r && !outcome.Created?
      else
        && !outcome.Adopted?
        && after.registered == r.registered + (if outcome.Created? then [outcome.made] else [])
        && (outcome.Created? ==> outcome.made.ref == Some(Ref(branch)) && outcome.made.Branch() == Some(branch))
  {
    RefShort(branch);
    var n := Holding(r.registered, branch);
    if n < |r.registered| {
      assert r.registered[n] in r.registered;
    }
  }

  /** Every way of not getting a worktree but one leaves nothing behind; that one leaves Nysia's own directory. */
  lemma WhatIsLeftBehind(r: Repo, branch: string, a: Answers)
    ensures var (after, outcome) := Ensured(r, branch, a);
      && (outcome.BranchRefused? || outcome.BranchPrunable? || outcome.NoDirectory? || outcome.Adopted? ==> after == r)
      && (outcome.GitFailed? ==>
            && after.refs == r.refs && after.registered == r.registered && r.disk <= after.disk
            && forall p :: p in after.disk - r.disk ==> p <= NysiaDir(r) || p == NysiaDir(r) + [".gitignore"])
  {
  }

  /** A made worktree is somewhere nothing was, directly under the base, under one of nine names that all differ. */
  lemma WhereItIsMade(r: Repo, branch: string, a: Answers)
    ensures var (after, outcome) := Ensured(r, branch, a);
      && (outcome.Created? ==>
            && outcome.made.path !in r.disk && outcome.made.path in after.disk
            && (forall g :: g in r.registered ==> g.path != outcome.made.path)
            && (exists k :: 1 <= k <= MAX_DIRECTORY_ATTEMPTS && outcome.made.path == Candidate(Base(r), SlugOf(branch), k)
                            && forall j :: 1 <= j < k ==> Candidate(Base(r), SlugOf(branch), j) in r.disk)
            && |outcome.made.path| == |Base(r)| + 1 && Base(r) <= outcome.made.path)
      && (outcome.NoDirectory? ==>
            forall k :: 1 <= k <= MAX_DIRECTORY_ATTEMPTS ==> Candidate(Base(r), SlugOf(branch), k) in r.disk)
    ensures forall i, j :: 1 <= i < j <= MAX_DIRECTORY_ATTEMPTS ==>
      Candidate(Base(r), SlugOf(branch), i) != Candidate(Base(r), SlugOf(branch), j)
  {
    forall i, j | 1 <= i < j <= MAX_DIRECTORY_ATTEMPTS
      ensures Candidate(Base(r), SlugOf(branch), i) != Candidate(Base(r), SlugOf(branch), j)
    {
      CandidatesDiffer(Base(r), SlugOf(branch), i, j);
    }
    var outcome := Ensured(r, branch, a).1;
    if outcome.Created? {
      var k := FirstFree(Base(r), SlugOf(branch), r.disk, 1);
      var path := outcome.made.path;
      assert path in Along(path) by { assert path == path[..|path|]; }
    }
  }

  /** The main worktree's directory, or the folder that was looked at when it has none. */
  function Root(r: Repo): Path {
    if r.registered != [] && r.registered[0].path in r.disk then r.registered[0].path else r.at
  }

  /** A worktree Nysia makes is at `<main worktree>/.nysia/worktrees/<slug>`, or the same with a number from 2 to 9. */
  lemma MadeUnderTheMainOne(r: Repo, branch: string, a: Answers)
    ensures var (after, outcome) := Ensured(r, branch, a);
      outcome.Created? ==>
        && (exists k :: 1 <= k <= 9 && outcome.made.path == Root(r) + [".nysia", "worktrees", Numbered(SlugOf(branch), k)])
        && after.refs == r.refs + {"refs/heads/" + branch}
        && outcome.made.ref == Some("refs/heads/" + branch)
        && (forall n :: 0 <= n <= |outcome.made.path| ==> outcome.made.path[..n] in after.disk)
        && (a.made && a.hidden ==> Root(r) + [".nysia", ".gitignore"] in after.disk)
    ensures var (after, outcome) := Ensured(r, branch, a);
      outcome.GitFailed? && a.made ==>
        Root(r) + [".nysia"] in after.disk && (a.hidden ==> Root(r) + [".nysia", ".gitignore"] in after.disk)
  {
    var (after, outcome) := Ensured(r, branch, a);
    assert NysiaDir(r) == Root(r) + [".nysia"];
    if a.made {
      assert NysiaDir(r)[..|NysiaDir(r)|] in Along(NysiaDir(r));
      assert NysiaDir(r)[..|NysiaDir(r)|] == NysiaDir(r);
      assert NysiaDir(r) + [".gitignore"] == Root(r) + [".nysia", ".gitignore"];
    }
    if outcome.Created? {
      var k := FirstFree(Base(r), SlugOf(branch), r.disk, 1);
      Spelled(Root(r), SlugOf(branch), k);
    }
  }

  /** The slug, and from the second on the slug and a number. */
  function Numbered(slug: string, k: nat): string
    requires 1 <= k <= 9
  {
    if k == 1 then slug else slug + ["-2", "-3", "-4", "-5", "-6", "-7", "-8", "-9"][k - 2]
  }

  lemma Spelled(root: Path, slug: string, k: nat)
    requires 1 <= k <= 9
    ensures Candidate(root + [".nysia"] + ["worktrees"], slug, k) == root + [".nysia", "worktrees", Numbered(slug, k)]
  {
    if k > 1 {
      assert ['-', ('0' as int + k) as char] == ["-2", "-3", "-4", "-5", "-6", "-7", "-8", "-9"][k - 2];
    }
  }

  /** From whichever of its folders a repository is looked at, the answer is the same, once its main worktree is on disk. */
  lemma LookedAtFromAnywhere(r: Repo, at: Path, branch: string, a: Answers)
    requires r.registered != [] && r.registered[0].path in r.disk
    ensures var (after, outcome) := Ensured(r, branch, a);
      Ensured(r.(at := at), branch, a) == (after.(at := at), outcome)
  {
  }

  /** Which answer it is, exactly, but for what git may refuse. */
  lemma OutcomeExactly(r: Repo, branch: string, a: Answers)
    ensures var outcome := Ensured(r, branch, a).1;
      var named := branch != [] && branch[0] != '-' && a.legal;
      var free := exists k :: 1 <= k <= 9 && Root(r) + [".nysia", "worktrees", Numbered(SlugOf(branch), k)] !in r.disk;
      && (outcome.BranchRefused? <==> !named)
      && (outcome.Adopted? || outcome.BranchPrunable? <==> named && exists g :: g in r.registered && g.Branch() == Some(branch))
      && (outcome.Adopted? ==> outcome.found in r.registered && outcome.found.Branch() == Some(branch) && outcome.found.path in r.disk)
      && (outcome.BranchPrunable? ==> exists g :: g in r.registered && g.Branch() == Some(branch) && g.path !in r.disk)
      && (outcome.NoDirectory? <==> named && (forall g :: g in r.registered ==> g.Branch() != Some(branch)) && !free)
  {
    var n := Holding(r.registered, branch);
    if n < |r.registered| {
      assert r.registered[n] in r.registered;
    }
    forall k | 1 <= k <= 9
      ensures Candidate(Base(r), SlugOf(branch), k) == Root(r) + [".nysia", "worktrees", Numbered(SlugOf(branch), k)]
    {
      Spelled(Root(r), SlugOf(branch), k);
    }
  }

  lemma {:induction false} FirstFree(base: Path, slug: string, disk: set<Path>, attempt: nat) returns (k: nat)
    requires 1 <= attempt <= MAX_DIRECTORY_ATTEMPTS + 1 && FreeFrom(base, slug, disk, attempt).Some?
    ensures attempt <= k <= MAX_DIRECTORY_ATTEMPTS
    ensures FreeFrom(base, slug, disk, attempt) == Some(Candidate(base, slug, k))
    ensures forall j :: attempt <= j < k ==> Candidate(base, slug, j) in disk
    decreases MAX_DIRECTORY_ATTEMPTS + 1 - attempt
  {
    k := attempt;
    if Candidate(base, slug, attempt) in disk {
      k := FirstFree(base, slug, disk, attempt + 1);
    }
  }

  /**
    * A legal branch without a worktree can be given one exactly when it is there or nothing is in the way of making
    * it, and the first name that is free on disk is not still registered to a worktree whose directory is gone. The
    * other names are not tried.
    */
  lemma CanBeGivenExactly(r: Repo, branch: string)
    requires branch != [] && branch[0] != '-' && Holding(r.registered, branch) == |r.registered|
    ensures var free := FreeFrom(Base(r), SlugOf(branch), r.disk, 1);
      (exists a: Answers :: a.legal && Ensured(r, branch, a).1.Created?)
      <==> && free.Some? && (forall g :: g in r.registered ==> g.path != free.value)
           && (Ref(branch) in r.refs || !InTheWay(r.refs, Ref(branch)))
  {
    var free := FreeFrom(Base(r), SlugOf(branch), r.disk, 1);
    var a := Answers(true, true, true, true);
    if free.Some? && (forall g :: g in r.registered ==> g.path != free.value)
       && (Ref(branch) in r.refs || !InTheWay(r.refs, Ref(branch))) {
      assert |free.value| == |Base(r)| + 1;
      assert Addable(Concealed(r, a), free.value, branch, Ref(branch) !in r.refs);
      assert Ensured(r, branch, a).1.Created?;
    }
  }

  /**
    * So a branch below another that is there, or above one, is never given a worktree: it is not there, whatever
    * else git lists for its name, and making it fails, with Nysia's directory left behind.
    */
  lemma BranchBelowBlocks(r: Repo, branch: string, below: string, a: Answers)
    requires branch != [] && branch[0] != '-' && Holding(r.registered, branch) == |r.registered|
    requires Ref(branch) !in r.refs && Ref(branch + ("/" + below)) in r.refs
    ensures Ref(branch + ("/" + below)) in ForEachRef(r.refs, Ref(branch))
    ensures !Ensured(r, branch, a).1.Created?
    ensures a.legal && FreeFrom(Base(r), SlugOf(branch), r.disk, 1).Some? ==> Ensured(r, branch, a) == (Concealed(r, a), GitFailed)
  {
    assert Ref(branch + ("/" + below)) == Ref(branch) + "/" + below;
    assert InTheWay(r.refs, Ref(branch));
  }

  /** So deleting one worktree's directory blocks every other branch of the same slug, until git is told to prune. */
  lemma MissingDirectoryBlocks(r: Repo, first: string, a: Answers, second: string)
    requires r.registered != [] && r.registered[0].path in r.disk
    requires second != [] && second[0] != '-' && first != second && SlugOf(first) == SlugOf(second)
    requires Holding(r.registered, second) == |r.registered|
    requires Ensured(r, first, a).1.Created?
    ensures var made := Ensured(r, first, a).1.made;
      forall b: Answers :: b.legal ==> Ensured(After(Ensured(r, first, a).0, Delete(made.path)), second, b).1.GitFailed?
  {
    var (after, outcome) := Ensured(r, first, a);
    var gone := After(after, Delete(outcome.made.path));
    RefShort(first);
    HoldingNot(r.registered, outcome.made, second);
    assert Base(gone) == Base(r);
    FreeAgain(Base(r), SlugOf(first), r.disk, outcome.made.path, gone.disk, 1);
    var g := outcome.made;
    assert g in gone.registered;
  }

  lemma {:induction false} HoldingNot(registered: seq<Registration>, made: Registration, branch: string)
    requires Holding(registered, branch) == |registered| && made.Branch() != Some(branch)
    ensures Holding(registered + [made], branch) == |registered| + 1
  {
    if registered != [] {
      HoldingNot(registered[1..], made, branch);
      assert (registered + [made])[1..] == registered[1..] + [made];
    }
  }

  /** A disk with the same names taken as before has the same first free name. */
  lemma {:induction false} FreeAgain(base: Path, slug: string, disk: set<Path>, path: Path, later: set<Path>, attempt: nat)
    requires 1 <= attempt <= MAX_DIRECTORY_ATTEMPTS + 1
    requires FreeFrom(base, slug, disk, attempt) == Some(path) && path !in later
    requires forall p :: p in disk && |p| == |base| + 1 && p != path ==> p in later
    ensures FreeFrom(base, slug, later, attempt) == Some(path)
    decreases MAX_DIRECTORY_ATTEMPTS + 1 - attempt
  {
    if Candidate(base, slug, attempt) in disk {
      FreeAgain(base, slug, disk, path, later, attempt + 1);
    }
  }

  // ----- Calls with nothing in between -----

  datatype Call = Call(branch: string, a: Answers)

  function Calls(r: Repo, calls: seq<Call>): Repo
    decreases |calls|
  {
    if calls == [] then r else Calls(Ensured(r, calls[0].branch, calls[0].a).0, calls[1..])
  }

  lemma {:induction false} HoldingStays(registered: seq<Registration>, more: seq<Registration>, branch: string)
    requires Holding(registered, branch) < |registered|
    ensures Holding(registered + more, branch) == Holding(registered, branch)
  {
    assert (registered + more)[0] == registered[0];
    if registered[0].Branch() != Some(branch) {
      HoldingStays(registered[1..], more, branch);
      assert (registered + more)[1..] == registered[1..] + more;
    }
  }

  lemma {:induction false} CallsOnlyAdd(r: Repo, calls: seq<Call>)
    ensures r.registered <= Calls(r, calls).registered && r.disk <= Calls(r, calls).disk
    decreases |calls|
  {
    if calls != [] {
      NeverASecond(r, calls[0].branch, calls[0].a);
      CallsOnlyAdd(Ensured(r, calls[0].branch, calls[0].a).0, calls[1..]);
    }
  }

  lemma SuccessHolds(r: Repo, branch: string, a: Answers)
    requires Succeeds(Ensured(r, branch, a).1)
    ensures var (after, outcome) := Ensured(r, branch, a);
      var n := Holding(after.registered, branch);
      n < |after.registered| && after.registered[n] == Given(outcome) && Given(outcome).path in after.disk
  {
    var outcome := Ensured(r, branch, a).1;
    if outcome.Created? {
      HoldingSnoc(r.registered, outcome.made, branch);
      WhereItIsMade(r, branch, a);
    }
  }

  /** Whatever branches are asked for in between, asking for the same one again adopts the same worktree and does nothing. */
  lemma AdoptedFromThenOn(r: Repo, branch: string, a: Answers, between: seq<Call>, again: Answers)
    requires Succeeds(Ensured(r, branch, a).1) && again.legal
    ensures var (first, outcome) := Ensured(r, branch, a);
      var later := Calls(first, between);
      Ensured(later, branch, again) == (later, Adopted(Given(outcome)))
  {
    SuccessHolds(r, branch, a);
    var first := Ensured(r, branch, a).0;
    CallsOnlyAdd(first, between);
    var later := Calls(first, between);
    assert later.registered == first.registered + later.registered[|first.registered|..];
    HoldingStays(first.registered, later.registered[|first.registered|..], branch);
  }

  /** Two branches are never in one directory, whatever their names are reduced to. */
  lemma NeverOneDirectory(r: Repo, one: Call, between: seq<Call>, two: Call)
    requires OneEach(r) && one.branch != two.branch
    requires Succeeds(Ensured(r, one.branch, one.a).1)
    requires Succeeds(Ensured(Calls(Ensured(r, one.branch, one.a).0, between), two.branch, two.a).1)
    ensures Given(Ensured(r, one.branch, one.a).1).path
            != Given(Ensured(Calls(Ensured(r, one.branch, one.a).0, between), two.branch, two.a).1).path
  {
    var (first, outcome) := Ensured(r, one.branch, one.a);
    var middle := Calls(first, between);
    var (last, second) := Ensured(middle, two.branch, two.a);
    SuccessHolds(r, one.branch, one.a);
    SuccessHolds(middle, two.branch, two.a);
    CallKeeps(r, one.branch, one.a);
    CallsKeep(first, between);
    CallKeeps(middle, two.branch, two.a);
    CallsOnlyAdd(first, between);
    NeverASecond(middle, two.branch, two.a);
    assert first.registered <= last.registered;
    var i, j := Holding(first.registered, one.branch), Holding(last.registered, two.branch);
    assert last.registered[i] == Given(outcome) && last.registered[j] == Given(second);
    assert i != j;
  }

  // ----- Runs with everything else in between -----

  /** One directory a worktree, and one worktree a branch. */
  predicate OneEach(r: Repo) {
    && Unshared(r.registered)
    && forall i, j :: 0 <= i < j < |r.registered| && r.registered[i].Branch().Some? ==>
         r.registered[i].Branch() != r.registered[j].Branch()
  }

  predicate Unshared(registered: seq<Registration>) {
    forall i, j :: 0 <= i < j < |registered| ==> registered[i].path != registered[j].path
  }

  /** Every ref checked out is a local branch. */
  predicate Local(r: Repo) {
    forall g :: g in r.registered && g.ref.Some? ==> Porcelain.HEADS_PREFIX <= g.ref.value
  }

  datatype Step =
    | Ask(branch: string, a: Answers)
    | Add(path: Path, ref: Option<string>)
    | Switch(i: nat, ref: Option<string>)
    | Forget(i: nat)
    | Delete(path: Path)
    | Make(path: Path)
    | SetRefs(refs: set<string>)

  /** What git allows anybody: no path twice, no branch twice, and no forgetting a worktree that is still there. */
  predicate Allowed(r: Repo, s: Step) {
    match s
    case Add(path, ref) =>
      && (forall g :: g in r.registered ==> g.path != path)
      && (ref.Some? ==>
            && Porcelain.HEADS_PREFIX <= ref.value
            && forall g :: g in r.registered ==> g.ref != ref)
    case Switch(i, ref) =>
      && i < |r.registered|
      && (ref.Some? ==>
            && Porcelain.HEADS_PREFIX <= ref.value
            && forall j :: 0 <= j < |r.registered| && j != i ==> r.registered[j].ref != ref)
    case Forget(i) => 0 < i < |r.registered| && r.registered[i].path !in r.disk
    case _ => true
  }

  function After(r: Repo, s: Step): Repo {
    match s
    case Ask(branch, a) => Ensured(r, branch, a).0
    case Add(path, ref) => r.(registered := r.registered + [Registration(path, ref)], disk := r.disk + Along(path))
    case Switch(i, ref) =>
      if i < |r.registered| then r.(registered := r.registered[i := r.registered[i].(ref := ref)]) else r
    case Forget(i) =>
      if i < |r.registered| then r.(registered := r.registered[..i] + r.registered[i + 1..]) else r
    case Delete(path) => r.(disk := set p | p in r.disk && !(path <= p))
    case Make(path) => r.(disk := r.disk + Along(path))
    case SetRefs(refs) => r.(refs := refs)
  }

  predicate Run(r: Repo, steps: seq<Step>)
    decreases |steps|
  {
    steps == [] || (Allowed(r, steps[0]) && Run(After(r, steps[0]), steps[1..]))
  }

  function End(r: Repo, steps: seq<Step>): Repo
    decreases |steps|
  {
    if steps == [] then r else End(After(r, steps[0]), steps[1..])
  }

  lemma CallKeeps(r: Repo, branch: string, a: Answers)
    requires OneEach(r)
    ensures OneEach(Ensured(r, branch, a).0)
    ensures Local(r) ==> Local(Ensured(r, branch, a).0)
  {
    NeverASecond(r, branch, a);
    WhereItIsMade(r, branch, a);
    var n := Holding(r.registered, branch);
    if n == |r.registered| {
      assert forall i :: 0 <= i < n ==> r.registered[i].Branch() != Some(branch);
      RefShort(branch);
    }
  }

  lemma {:induction false} CallsKeep(r: Repo, calls: seq<Call>)
    requires OneEach(r)
    ensures OneEach(Calls(r, calls))
    decreases |calls|
  {
    if calls != [] {
      CallKeeps(r, calls[0].branch, calls[0].a);
      CallsKeep(Ensured(r, calls[0].branch, calls[0].a).0, calls[1..]);
    }
  }

  lemma StepKeeps(r: Repo, s: Step)
    requires OneEach(r) && Local(r) && Allowed(r, s)
    ensures OneEach(After(r, s)) && Local(After(r, s))
  {
    match s
    case Ask(branch, a) => CallKeeps(r, branch, a);
    case Add(path, ref) =>
      if ref.Some? {
        forall g | g in r.registered && g.ref.Some? ensures g.Branch() != Some(Porcelain.ShortBranch(ref.value)) {
          Porcelain.ShortBranchInjective(g.ref.value, ref.value);
        }
      }
    case Switch(i, ref) =>
      if ref.Some? {
        forall j | 0 <= j < |r.registered| && j != i && r.registered[j].ref.Some?
          ensures r.registered[j].Branch() != Some(Porcelain.ShortBranch(ref.value))
        {
          assert r.registered[j] in r.registered;
          Porcelain.ShortBranchInjective(r.registered[j].ref.value, ref.value);
        }
      }
    case Forget(_) =>
    case Delete(_) =>
    case Make(_) =>
    case SetRefs(_) =>
  }

  /** No order of calls and of everything git allows anybody gives a branch two worktrees, or two branches one directory. */
  lemma {:induction false} RunKeeps(r: Repo, steps: seq<Step>)
    requires OneEach(r) && Local(r) && Run(r, steps)
    ensures OneEach(End(r, steps)) && Local(End(r, steps))
    decreases |steps|
  {
    if steps != [] {
      StepKeeps(r, steps[0]);
      RunKeeps(After(r, steps[0]), steps[1..]);
    }
  }

  // ----- Refs that are not local branches -----

  /** An adopted worktree is on the branch that was asked for exactly when the ref it has is a local branch. */
  lemma AdoptedExactly(r: Repo, branch: string, a: Answers)
    requires Ensured(r, branch, a).1.Adopted?
    ensures var g := Ensured(r, branch, a).1.found;
      g.ref.Some? && (g.ref.value == Ref(branch) <==> Porcelain.HEADS_PREFIX <= g.ref.value)
  {
    var g := Ensured(r, branch, a).1.found;
    if Porcelain.HEADS_PREFIX <= g.ref.value {
      assert g.ref.value == Porcelain.HEADS_PREFIX + g.ref.value[|Porcelain.HEADS_PREFIX|..];
    }
  }

  /** Without that, the wrong worktree is adopted: one on a remote ref, for the branch with the ref's whole name. */
  lemma AdoptsTheWrongOne(a: Answers)
    requires a.legal
    ensures var remote := Registration(["w"], Some("refs/remotes/main"));
      var r := Repo({Ref("refs/remotes/main")}, [remote], {["w"]}, ["w"]);
      OneEach(r) && Ensured(r, "refs/remotes/main", a) == (r, Adopted(remote)) && remote.ref != Some(Ref("refs/remotes/main"))
  {
    assert "refs/remotes/main"[5] != Porcelain.HEADS_PREFIX[5];
    assert Ref("refs/remotes/main")[5] == 'h';
  }

  // ----- What git prints for such a repository -----

  /** The records git lists: a head that has a commit, on a branch or detached. */
  function Listing(registered: seq<Registration>, spell: Path -> string): seq<Porcelain.Raw> {
    if registered == [] then [] else [Listed(registered[0], spell)] + Listing(registered[1..], spell)
  }

  function Listed(g: Registration, spell: Path -> string): Porcelain.Raw {
    Porcelain.Raw(spell(g.path), ["HEAD" + ([' '] + "1"), if g.ref.Some? then "branch" + ([' '] + g.ref.value) else "detached"])
  }

  predicate Printable(g: Registration, spell: Path -> string) {
    Porcelain.NUL !in spell(g.path) && (g.ref.Some? ==> Porcelain.NUL !in g.ref.value)
  }

  /** Looking for a branch among what was read is looking for it among what is registered, and so is its directory. */
  lemma ReadingIsLooking(r: Repo, spell: Path -> string, canon: string -> Option<Path>)
    requires forall g :: g in r.registered ==> Printable(g, spell)
    requires forall g :: g in r.registered ==> canon(spell(g.path)) == if g.path in r.disk then Some(g.path) else None
    ensures var read := Porcelain.ParseMeaning(Porcelain.Print(Listing(r.registered, spell)), canon);
      && read.Ok? && |read.value| == |r.registered|
      && forall i :: 0 <= i < |r.registered| ==>
           && read.value[i].head.OnBranch() == r.registered[i].Branch()
           && (read.value[i].canonical.Some? <==> r.registered[i].path in r.disk)
           && (read.value[i].canonical.Some? ==> read.value[i].canonical.value == r.registered[i].path)
           && (read.value[i].isMain <==> i == 0)
  {
    FinishListing(r.registered, spell, canon);
    Porcelain.ParsePrint(Listing(r.registered, spell), canon);
  }

  lemma FinishListed(g: Registration, spell: Path -> string, canon: string -> Option<Path>)
    requires Printable(g, spell)
    ensures var w := Listed(g, spell).Collect().Finish(canon);
      && w.Ok? && w.value.canonical == canon(spell(g.path)) && w.value.head.OnBranch() == g.Branch() && !w.value.isMain
  {
    var head, last := "HEAD" + ([' '] + "1"), Listed(g, spell).attributes[1];
    Porcelain.Entry("HEAD", "1");
    LastEntry(g, spell);
    AttributesTwo(Porcelain.Record(spell(g.path), None, None, false, false, None, None), head, last);
  }

  lemma AttributesTwo(start: Porcelain.Record, head: string, last: string)
    ensures Porcelain.Attributes(start, [head, last]) == start.Attribute(head).Attribute(last)
  {
    assert [head, last][1..] == [last] && [last][1..] == [];
    assert Porcelain.Attributes(start.Attribute(head), [last]) == start.Attribute(head).Attribute(last);
  }

  lemma LastEntry(g: Registration, spell: Path -> string)
    ensures Porcelain.SplitEntry(Listed(g, spell).attributes[1])
            == if g.ref.Some? then ("branch", g.ref.value) else ("detached", [])
  {
    if g.ref.Some? {
      Porcelain.Entry("branch", g.ref.value);
    } else {
      assert Porcelain.Find("detached", ' ') == |"detached"|;
    }
  }

  lemma ListedWellFormed(g: Registration, spell: Path -> string)
    requires Printable(g, spell)
    ensures Listed(g, spell).WellFormed()
  {
    EntryFine("HEAD", "1");
    LastEntryFine(g, spell);
    TwoFine(spell(g.path), "HEAD" + ([' '] + "1"), Listed(g, spell).attributes[1]);
  }

  lemma LastEntryFine(g: Registration, spell: Path -> string)
    requires Printable(g, spell)
    ensures var e := Listed(g, spell).attributes[1];
      e != [] && Porcelain.NUL !in e && !Porcelain.Opens(e)
  {
    LastEntry(g, spell);
    if g.ref.Some? {
      EntryFine("branch", g.ref.value);
    }
  }

  lemma TwoFine(path: string, a: string, b: string)
    requires Porcelain.NUL !in path
    requires a != [] && Porcelain.NUL !in a && !Porcelain.Opens(a) && b != [] && Porcelain.NUL !in b && !Porcelain.Opens(b)
    ensures Porcelain.Raw(path, [a, b]).WellFormed()
  {
  }

  lemma EntryFine(key: string, value: string)
    requires ' ' !in key && key != "worktree" && Porcelain.NUL !in key && Porcelain.NUL !in value
    ensures var e := key + ([' '] + value);
      e != [] && Porcelain.NUL !in e && !Porcelain.Opens(e)
  {
    Porcelain.Entry(key, value);
  }

  lemma {:induction false} FinishListing(registered: seq<Registration>, spell: Path -> string, canon: string -> Option<Path>)
    requires forall g :: g in registered ==> Printable(g, spell)
    ensures forall raw :: raw in Listing(registered, spell) ==> raw.WellFormed()
    ensures var all := Porcelain.FinishAll(Listing(registered, spell), canon);
      && all.Ok? && |all.value| == |registered|
      && forall i :: 0 <= i < |registered| ==>
           && all.value[i].head.OnBranch() == registered[i].Branch()
           && all.value[i].canonical == canon(spell(registered[i].path))
           && !all.value[i].isMain
  {
    if registered != [] {
      FinishListed(registered[0], spell, canon);
      ListedWellFormed(registered[0], spell);
      FinishListing(registered[1..], spell, canon);
      assert Listing(registered, spell)[1..] == Listing(registered[1..], spell);
    }
  }
}
