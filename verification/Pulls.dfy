/**
 Pull requests and their heads: `createPull` of internal/api/pulls.go and the pull
 refresh of `onRefUpdated` in internal/api/hooks.go, over several repositories.

 `Forge` is everything a handler reads and writes; the class `Server` holds it in
 fields, as the program does, and its methods are proved against the functions here.
 Pulls are kept in id order, so a pull's index is its id. Statements succeed.
 */
module Pulls {
  import opened Wrappers
  import opened Text
  import opened GitStore
  import opened ScanQueue

  datatype PullState = Open | Merged | Closed

  datatype Pull = Pull(repo: int, number: nat, title: string, author: int, head: string, base: string,
                       headSha: Sha, baseSha: Option<Sha>, state: PullState)

  datatype Forge = Forge(repos: map<int, Repo>, pulls: seq<Pull>, jobs: seq<Job>, wake: bool)

  /** merge-base of two ref names, as git answers it. */
  type MergeBase = (Repo, string, string) -> Option<Sha>

  function RevParseIn(repos: map<int, Repo>, repo: int, name: string): Option<Sha> {
    if repo in repos then RevParse(repos[repo], name) else None
  }

  /** The merge base, or the base branch itself when there is none. */
  function BaseOf(repos: map<int, Repo>, repo: int, mb: MergeBase, base: string, head: string): Option<Sha> {
    if repo !in repos then None
    else match mb(repos[repo], base, head)
      case Some(sha) => Some(sha)
      case None => RevParse(repos[repo], base)
  }

  // ---- Numbering ----

  function MaxNumber(pulls: seq<Pull>, repo: int): nat {
    if pulls == [] then 0
    else
      var m := MaxNumber(pulls[..|pulls| - 1], repo);
      var last := pulls[|pulls| - 1];
      if last.repo == repo && last.number > m then last.number else m
  }

  function CountIn(pulls: seq<Pull>, repo: int): nat {
    if pulls == [] then 0
    else CountIn(pulls[..|pulls| - 1], repo) + (if pulls[|pulls| - 1].repo == repo then 1 else 0)
  }

  /** The k-th pull of a repository carries number k. */
  ghost predicate Numbered(pulls: seq<Pull>) {
    forall i: nat | i < |pulls| :: pulls[i].number == CountIn(pulls[..i], pulls[i].repo) + 1
  }

  lemma {:induction false} NumberedMax(pulls: seq<Pull>, repo: int)
    requires Numbered(pulls)
    ensures MaxNumber(pulls, repo) == CountIn(pulls, repo)
  {
    if pulls != [] {
      var n := |pulls| - 1;
      var init := pulls[..n];
      forall i: nat | i < |init| ensures init[i].number == CountIn(init[..i], init[i].repo) + 1 {
        assert init[..i] == pulls[..i];
      }
      NumberedMax(init, repo);
      assert pulls[n].number == CountIn(pulls[..n], pulls[n].repo) + 1;
    }
  }

  lemma {:induction false} CountInMonotone(pulls: seq<Pull>, i: nat, j: nat, repo: int)
    requires i < j <= |pulls|
    ensures CountIn(pulls[..i], repo) + (if pulls[i].repo == repo then 1 else 0) <= CountIn(pulls[..j], repo)
  {
    assert pulls[..j][..j - 1] == pulls[..j - 1];
    if i < j - 1 {
      CountInMonotone(pulls, i, j - 1, repo);
    }
  }

  /** So within one repository a number names one pull. */
  lemma NumbersUnique(pulls: seq<Pull>, i: nat, j: nat)
    requires Numbered(pulls) && i < j < |pulls| && pulls[i].repo == pulls[j].repo
    ensures pulls[i].number < pulls[j].number
  {
    CountInMonotone(pulls, i, j, pulls[i].repo);
  }

  // ---- createPull ----

  datatype NewPull = NewPull(repo: int, title: string, author: int, head: string, base: string)

  /** An empty base means the repository's default branch. */
  function BaseBranch(np: NewPull, defaultBranch: string): string {
    if np.base == "" then defaultBranch else np.base
  }

  predicate CanCreate(f: Forge, np: NewPull) {
    np.title != "" && np.head != "" && RevParseIn(f.repos, np.repo, np.head).Some?
  }

  function PullRow(f: Forge, np: NewPull, defaultBranch: string, mb: MergeBase): Pull
    requires CanCreate(f, np)
  {
    var base := BaseBranch(np, defaultBranch);
    Pull(np.repo, MaxNumber(f.pulls, np.repo) + 1, np.title, np.author, np.head, base,
         RevParseIn(f.repos, np.repo, np.head).value, BaseOf(f.repos, np.repo, mb, base, np.head), Open)
  }

  function WithJob(f: Forge, pull: int, repo: int, sha: Sha): Forge {
    f.(jobs := Enqueued(f.jobs, pull, repo, sha), wake := f.wake || !HasActive(f.jobs, pull, sha))
  }

  function Created(f: Forge, np: NewPull, defaultBranch: string, mb: MergeBase): Forge {
    if !CanCreate(f, np) then f
    else
      var row := PullRow(f, np, defaultBranch, mb);
      WithJob(f.(pulls := f.pulls + [row]), |f.pulls|, np.repo, row.headSha)
  }

  // ---- onRefUpdated ----

  /** The pull's head branch resolves to something else than its recorded head. */
  predicate Moved(repos: map<int, Repo>, repo: int, p: Pull) {
    && p.repo == repo && p.state.Open?
    && RevParseIn(repos, repo, p.head).Some? && RevParseIn(repos, repo, p.head).value != p.headSha
  }

  function RefreshedPull(repos: map<int, Repo>, repo: int, mb: MergeBase, p: Pull): Pull {
    if Moved(repos, repo, p)
    then p.(headSha := RevParseIn(repos, repo, p.head).value, baseSha := BaseOf(repos, repo, mb, p.base, p.head))
    else p
  }

  /** The pulls from `from` on, refreshed one after another, each enqueuing its new head. */
  function RefreshFrom(f: Forge, repo: int, mb: MergeBase, from: nat): Forge
    requires from <= |f.pulls|
    decreases |f.pulls| - from
  {
    if from == |f.pulls| then f
    else
      var p := f.pulls[from];
      var f1 :=
        if Moved(f.repos, repo, p)
        then WithJob(f.(pulls := f.pulls[from := RefreshedPull(f.repos, repo, mb, p)]), from, repo,
                     RevParseIn(f.repos, repo, p.head).value)
        else f;
      RefreshFrom(f1, repo, mb, from + 1)
  }

  function Refreshed(f: Forge, repo: int, mb: MergeBase): Forge {
    RefreshFrom(f, repo, mb, 0)
  }

  // ---- The server ----

  class Server {
    const git: Store
    const scan: Worker
    var pulls: seq<Pull>

    constructor (git: Store, scan: Worker)
      ensures pulls == [] && this.git == git && this.scan == scan
    {
      this.git, this.scan := git, scan;
      pulls := [];
    }

    ghost function State(): Forge
      reads this, git, scan
    {
      Forge(git.repos, pulls, scan.jobs, scan.wake)
    }

    /** The largest number of the repository's pulls, and one more. */
    method NextNumber(repo: int) returns (number: nat)
      ensures number == MaxNumber(pulls, repo) + 1
    {
      var max := 0;
      for i := 0 to |pulls|
        invariant max == MaxNumber(pulls[..i], repo)
      {
        assert pulls[..i + 1][..i] == pulls[..i];
        if pulls[i].repo == repo && pulls[i].number > max {
          max := pulls[i].number;
        }
      }
      assert pulls[..|pulls|] == pulls;
      number := max + 1;
    }

    /** The new pull's id and number, or None when the head cannot be resolved. */
    method CreatePull(np: NewPull, defaultBranch: string, mb: MergeBase) returns (res: Option<(nat, nat)>)
      modifies this`pulls, scan`jobs, scan`wake
      ensures State() == Created(old(State()), np, defaultBranch, mb)
      ensures res.Some? <==> CanCreate(old(State()), np)
      ensures res.Some? ==> res.value == (|old(pulls)|, MaxNumber(old(pulls), np.repo) + 1)
      ensures res.Some? <==>
        np.title != "" && np.head != "" && np.repo in git.repos && RevParse(git.repos[np.repo], np.head).Some?
      ensures res.None? ==> pulls == old(pulls)
      ensures res.Some? ==>
        var r, base := git.repos[np.repo], if np.base == "" then defaultBranch else np.base;
        pulls == old(pulls) +
          [Pull(np.repo, res.value.1, np.title, np.author, np.head, base, RevParse(r, np.head).value,
                if mb(r, base, np.head).Some? then mb(r, base, np.head) else RevParse(r, base), Open)]
    {
      hide RevParse, MaxNumber, Enqueued, HasActive;
      if np.title == "" || np.head == "" {
        return None;
      }
      var base := if np.base == "" then defaultBranch else np.base;
      var headSha := RevParseIn(git.repos, np.repo, np.head);
      if headSha.None? {
        return None;
      }
      var baseSha := BaseOf(git.repos, np.repo, mb, base, np.head);
      var number := NextNumber(np.repo);
      var id := |pulls|;
      pulls := pulls + [Pull(np.repo, number, np.title, np.author, np.head, base, headSha.value, baseSha, Open)];
      scan.Enqueue(id, np.repo, headSha.value);
      return Some((id, number));
    }

    /** The pull refresh of the post-push fan-out. */
    method OnRefUpdated(repo: int, mb: MergeBase)
      modifies this`pulls, scan`jobs, scan`wake
      ensures State() == Refreshed(old(State()), repo, mb)
    {
      for i := 0 to |pulls|
        invariant |pulls| == |old(pulls)| && git.repos == old(git.repos)
        invariant RefreshFrom(State(), repo, mb, i) == Refreshed(old(State()), repo, mb)
      {
        var p := pulls[i];
        if p.repo != repo || p.state != Open {
          continue;
        }
        var newHead := RevParseIn(git.repos, repo, p.head);
        if newHead.None? || newHead.value == p.headSha {
          continue;
        }
        var baseSha := BaseOf(git.repos, repo, mb, p.base, p.head);
        pulls := pulls[i := p.(headSha := newHead.value, baseSha := baseSha)];
        scan.Enqueue(i, repo, newHead.value);
      }
    }
  }

  // ---- What a refresh does ----

  /** Every pull is refreshed against the same refs, on its own. */
  lemma {:induction false} RefreshPointwise(f: Forge, repo: int, mb: MergeBase, from: nat)
    requires from <= |f.pulls|
    ensures
      var f' := RefreshFrom(f, repo, mb, from);
      && f'.repos == f.repos && |f'.pulls| == |f.pulls|
      && (forall i: nat | i < |f.pulls| ::
            f'.pulls[i] == if i < from then f.pulls[i] else RefreshedPull(f.repos, repo, mb, f.pulls[i]))
    decreases |f.pulls| - from
  {
    if from < |f.pulls| {
      var p := f.pulls[from];
      var f1 :=
        if Moved(f.repos, repo, p)
        then WithJob(f.(pulls := f.pulls[from := RefreshedPull(f.repos, repo, mb, p)]), from, repo,
                     RevParseIn(f.repos, repo, p.head).value)
        else f;
      RefreshPointwise(f1, repo, mb, from + 1);
    }
  }

  lemma RefreshKeepsCount(f: Forge, repo: int, mb: MergeBase)
    ensures |Refreshed(f, repo, mb).pulls| == |f.pulls|
  {
    RefreshPointwise(f, repo, mb, 0);
  }

  /** After the fan-out every open pull of the repository whose head resolves records what
      it resolves to, with the merge base (or else the base branch) as its base, and every other
      pull is as it was. */
  lemma RefreshTracksHeads(f: Forge, repo: int, mb: MergeBase, i: nat)
    requires i < |f.pulls|
    ensures |Refreshed(f, repo, mb).pulls| == |f.pulls| && Refreshed(f, repo, mb).repos == f.repos
    ensures
      var p, p' := f.pulls[i], Refreshed(f, repo, mb).pulls[i];
      && (p.repo == repo && p.state.Open? && RevParseIn(f.repos, repo, p.head).Some? ==>
            RevParseIn(f.repos, repo, p.head) == Some(p'.headSha))
      && (p.repo != repo || !p.state.Open? || RevParseIn(f.repos, repo, p.head).None? ==> p' == p)
      && p' == p.(headSha := p'.headSha, baseSha := p'.baseSha)
      && (p'.headSha == p.headSha ==> p' == p)
      && (p'.headSha != p.headSha ==>
            repo in f.repos &&
            var r := f.repos[repo];
            p'.baseSha == if mb(r, p.base, p.head).Some? then mb(r, p.base, p.head) else RevParse(r, p.base))
  {
    RefreshPointwise(f, repo, mb, 0);
  }

  /** The name never gets rev-parse as far as the branch: it spells an object id or an option, or "@",
      or a ref that is tried first has it. */
  predicate Shadowed(r: Repo, branch: string) {
    IsFullId(branch) || IsOption(branch) || branch == "@" || FirstIn(r.refs, Candidates(r, branch)[..3]).Some?
  }

  lemma {:induction false} FirstInConcat(refs: map<string, Sha>, a: seq<string>, b: seq<string>)
    ensures FirstIn(refs, a + b) == if FirstIn(refs, a).Some? then FirstIn(refs, a) else FirstIn(refs, b)
  {
    if a == [] {
      assert a + b == b;
    } else {
      assert (a + b)[1..] == a[1..] + b;
      FirstInConcat(refs, a[1..], b);
    }
  }

  /** rev-parse on a branch's bare name finds the branch unless the name is shadowed. */
  lemma BareNameResolves(r: Repo, branch: string)
    requires BranchExists(r, branch) && !Shadowed(r, branch)
    ensures RevParse(r, branch) == Some(r.refs[BranchRef(branch)])
  {
    var c := Candidates(r, branch);
    assert c == c[..3] + c[3..];
    FirstInConcat(r.refs, c[..3], c[3..]);
    assert c[3..][0] == BranchRef(branch);
  }

  /** A pull's head is resolved by its bare name, so after the fan-out an open pull stands at its
      branch's tip, whatever the branch is called, exactly when the name is not shadowed, or what
      rev-parse answers happens to be the same commit, or it answers nothing and the pull stood there
      before. */
  lemma RefreshedHeadIsTipIff(f: Forge, repo: int, mb: MergeBase, i: nat)
    requires i < |f.pulls| && f.pulls[i].repo == repo && f.pulls[i].state.Open? && repo in f.repos
    requires BranchExists(f.repos[repo], f.pulls[i].head)
    ensures |Refreshed(f, repo, mb).pulls| == |f.pulls|
    ensures
      var r, branch := f.repos[repo], f.pulls[i].head;
      var tip, answer := r.refs[BranchRef(branch)], RevParse(r, branch);
      Refreshed(f, repo, mb).pulls[i].headSha == tip
      <==> !Shadowed(r, branch) || answer == Some(tip) || (answer.None? && f.pulls[i].headSha == tip)
  {
    if !Shadowed(f.repos[repo], f.pulls[i].head) {
      BareNameResolves(f.repos[repo], f.pulls[i].head);
    }
    RefreshTracksHeads(f, repo, mb, i);
    RefreshPointwise(f, repo, mb, 0);
  }

  /** With a tag of the branch's name, the refresh records the tag's commit as the head. */
  lemma TagShadowsBranch(tip: Sha, tagged: Sha, p: Pull, mb: MergeBase)
    requires tip != tagged && p.repo == 1 && p.state.Open? && p.head == "v1" && p.headSha == tip
    ensures
      var repo := Repo(map[BranchRef("v1") := tip, "refs/tags/" + "v1" := tagged], "refs/heads/main", _ => tip, _ => None);
      var f := Forge(map[1 := repo], [p], [], false);
      && |Refreshed(f, 1, mb).pulls| == 1
      && Refreshed(f, 1, mb).pulls[0].headSha == tagged
  {
    var repo := Repo(map[BranchRef("v1") := tip, "refs/tags/" + "v1" := tagged], "refs/heads/main", _ => tip, _ => None);
    var f := Forge(map[1 := repo], [p], [], false);
    var names := ["v1", "refs/" + "v1", "refs/tags/" + "v1"];
    assert |names[0]| == 2 && |names[1]| == 7 && |names[2]| == 12 && |BranchRef("v1")| == 13;
    assert names[0] !in repo.refs && names[1] !in repo.refs && names[2] in repo.refs;
    assert FirstIn(repo.refs, names[2..]) == Some(tagged);
    assert FirstIn(repo.refs, names[1..]) == Some(tagged) by { assert names[1..][1..] == names[2..]; }
    var c := Candidates(repo, "v1");
    assert c[..3] == names && c == c[..3] + c[3..];
    FirstInConcat(repo.refs, c[..3], c[3..]);
    RefreshTracksHeads(f, 1, mb, 0);
  }

  /** A branch may be named with 40 hexadecimal digits; the refresh then records the object they
      spell, whatever the branch's tip is and whatever tags there are. */
  lemma HexNameShadowsBranch(f: Forge, repo: int, mb: MergeBase, i: nat)
    requires i < |f.pulls| && f.pulls[i].repo == repo && f.pulls[i].state.Open? && repo in f.repos
    requires |f.pulls[i].head| == 40
    requires forall c <- f.pulls[i].head :: '0' <= c <= '9' || 'a' <= c <= 'f' || 'A' <= c <= 'F'
    ensures ValidRefName(f.pulls[i].head)
    ensures |Refreshed(f, repo, mb).pulls| == |f.pulls|
    ensures Refreshed(f, repo, mb).pulls[i].headSha == f.repos[repo].ids(f.pulls[i].head)
  {
    RefreshTracksHeads(f, repo, mb, i);
    LettersAreValid(f.pulls[i].head);
  }

  /** A branch named HEAD, which the plumbing lets a commit create, or "@", which a push can: the
      refresh records the commit HEAD points at. */
  lemma HeadShadowsBranch(f: Forge, repo: int, mb: MergeBase, i: nat)
    requires i < |f.pulls| && f.pulls[i].repo == repo && f.pulls[i].state.Open? && repo in f.repos
    requires (f.pulls[i].head == "HEAD" || f.pulls[i].head == "@") && !IsEmpty(f.repos[repo])
    ensures ValidRefName("HEAD")
    ensures |Refreshed(f, repo, mb).pulls| == |f.pulls|
    ensures Refreshed(f, repo, mb).pulls[i].headSha == f.repos[repo].refs[f.repos[repo].head]
  {
    var r := f.repos[repo];
    assert Candidates(r, "HEAD")[0] == r.head;
    RefreshTracksHeads(f, repo, mb, i);
    LettersAreValid("HEAD");
  }

  /** A branch pushed under a name with a leading dash: the refresh records whatever rev-parse makes
      of the option, if only the text itself. */
  lemma OptionNameShadowsBranch(f: Forge, repo: int, mb: MergeBase, i: nat)
    requires i < |f.pulls| && f.pulls[i].repo == repo && f.pulls[i].state.Open? && repo in f.repos
    requires f.pulls[i].head != "" && f.pulls[i].head[0] == '-' && f.repos[repo].other(f.pulls[i].head).Some?
    ensures |Refreshed(f, repo, mb).pulls| == |f.pulls|
    ensures Some(Refreshed(f, repo, mb).pulls[i].headSha) == f.repos[repo].other(f.pulls[i].head)
  {
    assert !IsHex('-');
    assert f.pulls[i].head[0] in f.pulls[i].head;
    RefreshTracksHeads(f, repo, mb, i);
  }

  // ---- Scan coverage over every run ----

  /** Some job row was made for the pull at that commit. */
  ghost predicate Covered(jobs: seq<Job>, pull: int, sha: Sha) {
    exists j <- jobs :: j.pull == pull && j.sha == sha
  }

  ghost predicate Inv(f: Forge) {
    && (forall i: nat | i < |f.pulls| :: Covered(f.jobs, i, f.pulls[i].headSha))
    && Deduplicated(f.jobs)
    && Numbered(f.pulls)
  }

  /** Handlers one at a time: a pull is opened, refs change (by a push, a browser commit, a
      merge) and the fan-out runs, a pull is closed, a rescan is asked for, the worker moves
      a job from one status to another. */
  datatype Event =
    | CreatePull(np: NewPull, defaultBranch: string, mb: MergeBase)
    | RefUpdate(repo: int, after: Repo, mb2: MergeBase)
    | RefsOnly(repo: int, after: Repo)
    | Settle(id: nat, state: PullState)
    | Rescan(id: nat)
    | JobStep(job: nat, status: Status)

  /** The worker's own order of statuses. */
  predicate StatusStep(a: Status, b: Status) {
    (a.Queued? && !b.Queued?) || (a.Running? && (b.Done? || b.Error?))
  }

  function Next(f: Forge, ev: Event): Forge {
    match ev
    case CreatePull(np, defaultBranch, mb) => Created(f, np, defaultBranch, mb)
    case RefUpdate(repo, after, mb) => Refreshed(f.(repos := f.repos[repo := after]), repo, mb)
    case RefsOnly(repo, after) => f.(repos := f.repos[repo := after])
    case Settle(id, state) =>
      if id < |f.pulls| then f.(pulls := f.pulls[id := f.pulls[id].(state := state)]) else f
    case Rescan(id) =>
      if id < |f.pulls| then WithJob(f, id, f.pulls[id].repo, f.pulls[id].headSha) else f
    case JobStep(job, status) =>
      if job < |f.jobs| && StatusStep(f.jobs[job].status, status)
      then f.(jobs := f.jobs[job := f.jobs[job].(status := status)]) else f
  }

  function Run(f: Forge, evs: seq<Event>): Forge
    decreases |evs|
  {
    if evs == [] then f else Run(Next(f, evs[0]), evs[1..])
  }

  /** What the handlers other than these two do: each changes the one row or map it is about. */
  lemma OtherHandlers(f: Forge, repo: int, after: Repo, id: nat, state: PullState, status: Status)
    ensures Next(f, RefsOnly(repo, after)) == f.(repos := f.repos[repo := after])
    ensures id < |f.pulls| ==>
      && Next(f, Settle(id, state)) == f.(pulls := f.pulls[id := f.pulls[id].(state := state)])
      && Next(f, Rescan(id)).pulls == f.pulls && HasActive(Next(f, Rescan(id)).jobs, id, f.pulls[id].headSha)
      && f.jobs <= Next(f, Rescan(id)).jobs
    ensures id < |f.jobs| && (if f.jobs[id].status.Queued? then !status.Queued?
                              else f.jobs[id].status.Running? && (status.Done? || status.Error?)) ==>
      Next(f, JobStep(id, status)) == f.(jobs := f.jobs[id := f.jobs[id].(status := status)])
  {
    if id < |f.pulls| {
      var jobs' := Enqueued(f.jobs, id, f.pulls[id].repo, f.pulls[id].headSha);
      if !HasActive(f.jobs, id, f.pulls[id].headSha) {
        assert jobs'[|f.jobs|] in jobs';
      }
    }
  }

  lemma StepFreezes(f: Forge, ev: Event, id: nat)
    requires id < |f.pulls| && !f.pulls[id].state.Open? && !(ev.Settle? && ev.id == id)
    ensures id < |Next(f, ev).pulls| && Next(f, ev).pulls[id] == f.pulls[id]
  {
    hide RevParseIn, BaseOf, MaxNumber, Enqueued, HasActive;
    if ev.RefUpdate? {
      RefreshPointwise(f.(repos := f.repos[ev.repo := ev.after]), ev.repo, ev.mb2, 0);
    }
  }

  /** Once merged or closed, a pull's row is never touched again, whatever is pushed, unless it is
      settled anew: it keeps the head and the base it was settled with. */
  lemma SettledPullFrozen(f: Forge, evs: seq<Event>, id: nat, state: PullState)
    requires id < |f.pulls| && (state == Merged || state == Closed)
    requires forall ev <- evs :: !(ev.Settle? && ev.id == id)
    ensures id < |Run(Next(f, Settle(id, state)), evs).pulls|
    ensures Run(Next(f, Settle(id, state)), evs).pulls[id] == f.pulls[id].(state := state)
  {
    FrozenRun(Next(f, Settle(id, state)), evs, id);
  }

  lemma {:induction false} FrozenRun(f: Forge, evs: seq<Event>, id: nat)
    requires id < |f.pulls| && !f.pulls[id].state.Open?
    requires forall ev <- evs :: !(ev.Settle? && ev.id == id)
    ensures id < |Run(f, evs).pulls| && Run(f, evs).pulls[id] == f.pulls[id]
    decreases |evs|
  {
    hide Next;
    if evs != [] {
      StepFreezes(f, evs[0], id);
      FrozenRun(Next(f, evs[0]), evs[1..], id);
    }
  }

  lemma EnqueueCovers(jobs: seq<Job>, pull: int, repo: int, sha: Sha)
    ensures Covered(Enqueued(jobs, pull, repo, sha), pull, sha)
    ensures forall p, s :: Covered(jobs, p, s) ==> Covered(Enqueued(jobs, pull, repo, sha), p, s)
  {
    var jobs' := Enqueued(jobs, pull, repo, sha);
    if HasActive(jobs, pull, sha) {
      var j :| j in jobs && Active(j, pull, sha);
    } else {
      assert jobs'[|jobs|] in jobs';
    }
    forall p, s | Covered(jobs, p, s) ensures Covered(jobs', p, s) {
      var j :| j in jobs && j.pull == p && j.sha == s;
      assert j in jobs';
    }
  }

  lemma WithJobKeepsInv(f: Forge, pull: nat, repo: int, sha: Sha)
    requires Deduplicated(f.jobs) && Numbered(f.pulls)
    requires forall i: nat | i < |f.pulls| && i != pull :: Covered(f.jobs, i, f.pulls[i].headSha)
    requires pull < |f.pulls| && f.pulls[pull].headSha == sha
    ensures Inv(WithJob(f, pull, repo, sha))
  {
    hide Deduplicated, Covered, Enqueued;
    EnqueueCovers(f.jobs, pull, repo, sha);
    EnqueueKeepsDeduplicated(f.jobs, pull, repo, sha);
  }

  lemma CreateKeepsInv(f: Forge, np: NewPull, defaultBranch: string, mb: MergeBase)
    requires Inv(f)
    ensures Inv(Created(f, np, defaultBranch, mb))
  {
    hide Covered, WithJob, MaxNumber, CountIn;
    if CanCreate(f, np) {
      var row := PullRow(f, np, defaultBranch, mb);
      var pulls' := f.pulls + [row];
      NumberedMax(f.pulls, np.repo);
      forall i: nat | i < |pulls'| ensures pulls'[i].number == CountIn(pulls'[..i], pulls'[i].repo) + 1 {
        if i < |f.pulls| {
          assert pulls'[..i] == f.pulls[..i];
        } else {
          assert pulls'[..i] == f.pulls;
        }
      }
      WithJobKeepsInv(f.(pulls := pulls'), |f.pulls|, np.repo, row.headSha);
    }
  }

  /** Rows keep their repository and number, so numbering survives. */
  lemma NumberingUnaffected(a: seq<Pull>, b: seq<Pull>)
    requires Numbered(a) && |a| == |b|
    requires forall i: nat | i < |a| :: a[i].repo == b[i].repo && a[i].number == b[i].number
    ensures Numbered(b)
  {
    forall i: nat | i < |b| ensures b[i].number == CountIn(b[..i], b[i].repo) + 1 {
      SameCounts(a[..i], b[..i], b[i].repo);
    }
  }

  lemma {:induction false} SameCounts(a: seq<Pull>, b: seq<Pull>, repo: int)
    requires |a| == |b|
    requires forall i: nat | i < |a| :: a[i].repo == b[i].repo
    ensures CountIn(a, repo) == CountIn(b, repo)
  {
    if a != [] {
      SameCounts(a[..|a| - 1], b[..|b| - 1], repo);
    }
  }

  lemma {:induction false} RefreshKeepsInv(f: Forge, repo: int, mb: MergeBase, from: nat)
    requires Inv(f) && from <= |f.pulls|
    ensures Inv(RefreshFrom(f, repo, mb, from))
    decreases |f.pulls| - from
  {
    hide Covered, Deduplicated, Numbered, WithJob;
    if from < |f.pulls| {
      var p := f.pulls[from];
      if Moved(f.repos, repo, p) {
        var f0 := f.(pulls := f.pulls[from := RefreshedPull(f.repos, repo, mb, p)]);
        NumberingUnaffected(f.pulls, f0.pulls);
        var sha := RevParseIn(f.repos, repo, p.head).value;
        WithJobKeepsInv(f0, from, repo, sha);
        WithJobFrame(f0, from, repo, sha);
        RefreshKeepsInv(WithJob(f0, from, repo, sha), repo, mb, from + 1);
      } else {
        RefreshKeepsInv(f, repo, mb, from + 1);
      }
    }
  }

  lemma WithJobFrame(f: Forge, pull: int, repo: int, sha: Sha)
    ensures WithJob(f, pull, repo, sha).pulls == f.pulls && WithJob(f, pull, repo, sha).repos == f.repos
  {}

  lemma JobStepKeepsInv(f: Forge, job: nat, status: Status)
    requires Inv(f) && job < |f.jobs| && StatusStep(f.jobs[job].status, status)
    ensures Inv(f.(jobs := f.jobs[job := f.jobs[job].(status := status)]))
  {
    var jobs' := f.jobs[job := f.jobs[job].(status := status)];
    forall i: nat | i < |f.pulls| ensures Covered(jobs', i, f.pulls[i].headSha) {
      assert Covered(f.jobs, i, f.pulls[i].headSha);
      var j :| j in f.jobs && j.pull == i && j.sha == f.pulls[i].headSha;
      var k :| 0 <= k < |f.jobs| && f.jobs[k] == j;
      assert jobs'[k] in jobs';
    }
    forall i: nat, j: nat | i < j < |jobs'| && Active(jobs'[i], jobs'[i].pull, jobs'[i].sha)
      ensures !Active(jobs'[j], jobs'[i].pull, jobs'[i].sha)
    {
      assert Active(f.jobs[i], f.jobs[i].pull, f.jobs[i].sha);
      assert !Active(f.jobs[j], f.jobs[i].pull, f.jobs[i].sha);
    }
  }

  lemma StepKeepsInv(f: Forge, ev: Event)
    requires Inv(f)
    ensures Inv(Next(f, ev))
  {
    hide Covered, Deduplicated, Numbered;
    match ev
    case CreatePull(np, defaultBranch, mb) => CreateKeepsInv(f, np, defaultBranch, mb);
    case RefUpdate(repo, after, mb) => RefreshKeepsInv(f.(repos := f.repos[repo := after]), repo, mb, 0);
    case RefsOnly(repo, after) =>
    case Settle(id, state) =>
      if id < |f.pulls| {
        NumberingUnaffected(f.pulls, f.pulls[id := f.pulls[id].(state := state)]);
      }
    case Rescan(id) =>
      if id < |f.pulls| {
        WithJobKeepsInv(f, id, f.pulls[id].repo, f.pulls[id].headSha);
      }
    case JobStep(job, status) =>
      if job < |f.jobs| && StatusStep(f.jobs[job].status, status) {
        JobStepKeepsInv(f, job, status);
      }
  }

  /** At every handler boundary of every run: each pull's current head has a job row, no
      two jobs are active for the same pull and commit, and a repository's pulls are
      numbered 1, 2, 3, ... in order of creation. */
  lemma {:induction false} CoverageInvariant(f: Forge, evs: seq<Event>)
    requires Inv(f)
    ensures Inv(Run(f, evs))
    decreases |evs|
  {
    if evs != [] {
      StepKeepsInv(f, evs[0]);
      CoverageInvariant(Next(f, evs[0]), evs[1..]);
    }
  }

  lemma FreshForgeCovered(repos: map<int, Repo>, evs: seq<Event>)
    ensures Inv(Run(Forge(repos, [], [], false), evs))
  {
    CoverageInvariant(Forge(repos, [], [], false), evs);
  }
}
