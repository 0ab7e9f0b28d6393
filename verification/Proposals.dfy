/**
 The change-proposal gate of internal/api/proposals.go: a proposal is stored pending,
 and only a human's accept turns it into a commit on a feature branch and a pull
 request. Proposals are kept in id order, so a proposal's index is its id.
 */
module Proposals {
  import opened Wrappers
  import opened Text
  import opened GitStore
  import opened ScanQueue
  import opened Pulls

  datatype ProposalStatus = Pending | Accepted | Rejected

  datatype Proposal = Proposal(repo: int, title: string, summary: string, base: Base, target: string,
                               patch: string, changes: seq<FileChange>,
                               status: ProposalStatus, appliedSha: Option<Sha>, pullNumber: Option<nat>)

  datatype Draft = Draft(title: string, summary: string, base: Base, target: string, patch: string, changes: seq<FileChange>)

  datatype Reply = NotFound | BadRequest | Conflict | Saved(id: nat) | Applied(sha: Sha, pullNumber: Option<nat>) | Dropped

  /** `git apply`, as a function of the patch and the index. */
  type Applier = (string, Tree) -> Option<Tree>

  /** What an accept depends on besides the tables: the repository's default branch, who
      accepts and when, and how git behaves. */
  datatype Env = Env(defaultBranch: string, user: int, author: Identity, stamp: nat, faults: set<Fault>, mb: MergeBase)

  datatype Site = Site(forge: Forge, proposals: seq<Proposal>)

  // ---- Create ----

  predicate CanSave(d: Draft) {
    !IsBlank(d.title) && (!IsBlank(d.patch) || d.changes != [])
  }

  function AfterCreate(s: Site, repo: int, d: Draft): Site {
    if !CanSave(d) then s
    else s.(proposals := s.proposals +
              [Proposal(repo, d.title, d.summary, d.base, d.target, d.patch, d.changes, Pending, None, None)])
  }

  // ---- Accept ----

  function FeatureBranch(id: nat): string {
    "ai/proposal-" + Decimal(id)
  }

  /** Never the default branch, unless the default branch has the feature branch's name. */
  function TargetBranch(p: Proposal, id: nat, defaultBranch: string): string {
    if p.target == "" || p.target == defaultBranch then FeatureBranch(id) else p.target
  }

  function EditOf(p: Proposal, apply: Applier): Edit {
    if p.changes != [] then Files(p.changes) else Patch(p.patch, t => apply(p.patch, t))
  }

  function Message(p: Proposal): string {
    p.title + if p.summary != "" then "\n\n" + p.summary else ""
  }

  function RequestOf(p: Proposal, id: nat, env: Env, apply: Applier): Request {
    Request(TargetBranch(p, id, env.defaultBranch), p.base, EditOf(p, apply), Message(p), env.author, env.stamp)
  }

  predicate IsPending(s: Site, repo: int, id: nat) {
    id < |s.proposals| && s.proposals[id].repo == repo && s.proposals[id].status.Pending?
  }

  /** The commit a request makes in a forge, or None when nothing is applied. */
  ghost function CommitOn(f: Forge, repo: int, req: Request, env: Env): Option<Sha> {
    if repo in f.repos then Attempt(f.repos[repo], req, env.faults) else None
  }

  /** The forge once the commit has landed: the ref has moved and the fan-out has run. */
  ghost function LandOn(f: Forge, repo: int, req: Request, env: Env): Forge
    requires repo in f.repos
  {
    Refreshed(f.(repos := f.repos[repo := AfterWrite(f.repos[repo], req, env.faults)]), repo, env.mb)
  }

  ghost function ApplyOn(f: Forge, repo: int, req: Request, np: NewPull, env: Env): Forge {
    if CommitOn(f, repo, req, env).None? then f
    else Created(LandOn(f, repo, req, env), np, env.defaultBranch, env.mb)
  }

  /** The number of the pull that is opened, if one can be. */
  ghost function NumberOn(f: Forge, repo: int, req: Request, np: NewPull, env: Env): Option<nat>
    requires repo in f.repos
  {
    var landed := LandOn(f, repo, req, env);
    if CanCreate(landed, np) then Some(MaxNumber(landed.pulls, np.repo) + 1) else None
  }

  function PullOf(p: Proposal, id: nat, env: Env): NewPull {
    NewPull(p.repo, p.title, env.user, TargetBranch(p, id, env.defaultBranch), env.defaultBranch)
  }

  ghost function AcceptCommit(s: Site, repo: int, id: nat, env: Env, apply: Applier): Option<Sha> {
    if !IsPending(s, repo, id) then None
    else CommitOn(s.forge, repo, RequestOf(s.proposals[id], id, env, apply), env)
  }

  ghost function AfterAccept(s: Site, repo: int, id: nat, env: Env, apply: Applier): Site {
    match AcceptCommit(s, repo, id, env, apply)
    case None => s
    case Some(sha) =>
      var p := s.proposals[id];
      var req, np := RequestOf(p, id, env, apply), PullOf(p, id, env);
      var number := NumberOn(s.forge, repo, req, np, env);
      Site(ApplyOn(s.forge, repo, req, np, env),
           s.proposals[id := p.(status := Accepted, appliedSha := Some(sha),
                                pullNumber := if number.Some? then number else p.pullNumber)])
  }

  // ---- Reject ----

  function AfterReject(s: Site, repo: int, id: nat): Site {
    if IsPending(s, repo, id) then s.(proposals := s.proposals[id := s.proposals[id].(status := Rejected)]) else s
  }

  // ---- The handlers ----

  /** The number is that of the pull added at the end, if there is one. */
  predicate NumberOfNew(before: seq<Pull>, after: seq<Pull>, number: Option<nat>) {
    match number
    case None => |after| == |before|
    case Some(n) => |after| == |before| + 1 && after[|before|].number == n
  }

  class Gate {
    const server: Server
    var proposals: seq<Proposal>

    constructor (server: Server)
      ensures this.server == server && proposals == []
    {
      this.server := server;
      proposals := [];
    }

    ghost function State(): Site
      reads this, server, server.git, server.scan
    {
      Site(server.State(), proposals)
    }

    method Create(repo: int, d: Draft) returns (reply: Reply)
      modifies this`proposals
      ensures State() == AfterCreate(old(State()), repo, d)
      ensures reply == if CanSave(d) then Saved(|old(proposals)|) else BadRequest
      ensures CanSave(d) <==> !IsBlank(d.title) && (!IsBlank(d.patch) || d.changes != [])
      ensures !CanSave(d) ==> proposals == old(proposals)
      ensures CanSave(d) ==>
        proposals == old(proposals) + [Proposal(repo, d.title, d.summary, d.base, d.target, d.patch, d.changes,
                                                Pending, None, None)]
    {
      if IsBlank(d.title) {
        return BadRequest;
      }
      if IsBlank(d.patch) && |d.changes| == 0 {
        return BadRequest;
      }
      var id := |proposals|;
      proposals := proposals +
        [Proposal(repo, d.title, d.summary, d.base, d.target, d.patch, d.changes, Pending, None, None)];
      return Saved(id);
    }

    /** Applies the request, runs the fan-out, and opens the pull request. */
    method ApplyAndOpen(repo: int, req: Request, np: NewPull, env: Env) returns (res: Option<(Sha, Option<nat>)>)
      modifies server`pulls, server.git, server.scan`jobs, server.scan`wake
      ensures server.State() == ApplyOn(old(server.State()), repo, req, np, env)
      ensures res.Some? <==> CommitOn(old(server.State()), repo, req, env).Some?
      ensures res.Some? ==>
        && repo in old(server.State()).repos
        && Some(res.value.0) == CommitOn(old(server.State()), repo, req, env)
        && res.value.1 == NumberOn(old(server.State()), repo, req, np, env)
        && NumberOfNew(old(server.pulls), server.pulls, res.value.1)
    {
      hide Attempt, Refreshed, Created, MaxNumber, AfterWrite, RevParseIn, BaseOf;
      ghost var f := server.State();
      var written: Result<Written, Failure>;
      if req.edit.Files? {
        written := server.git.CommitFiles(repo, req, env.faults);
      } else {
        written := server.git.ApplyPatchCommit(repo, req, env.faults);
      }
      if written.Err? {
        return None;
      }
      server.OnRefUpdated(repo, env.mb);
      RefreshKeepsCount(f.(repos := server.git.repos), repo, env.mb);
      assert server.State() == LandOn(f, repo, req, env);
      var created := server.CreatePull(np, env.defaultBranch, env.mb);
      return Some((written.value.newSha, if created.Some? then Some(created.value.1) else None));
    }

    method Accept(repo: int, id: nat, env: Env, apply: Applier) returns (reply: Reply)
      modifies this`proposals, server`pulls, server.git, server.scan`jobs, server.scan`wake
      ensures State() == AfterAccept(old(State()), repo, id, env, apply)
      ensures reply.NotFound? <==> id >= |old(proposals)| || old(proposals)[id].repo != repo
      ensures !reply.NotFound? ==>
        && (reply.Conflict? <==> !old(proposals)[id].status.Pending?)
        && (reply.Applied? <==> AcceptCommit(old(State()), repo, id, env, apply).Some?)
        && (reply.Applied? ==> Some(reply.sha) == AcceptCommit(old(State()), repo, id, env, apply))
      ensures reply.Applied? ==>
        && NumberOfNew(old(server.pulls), server.pulls, reply.pullNumber)
        && var p := old(proposals)[id];
        && proposals == old(proposals)[id := p.(status := Accepted, appliedSha := Some(reply.sha),
             pullNumber := if reply.pullNumber.Some? then reply.pullNumber else p.pullNumber)]
      ensures State() == old(State()) <==> !reply.Applied?
    {
      hide CommitOn, NumberOn, LandOn, Created;
      if id >= |proposals| || proposals[id].repo != repo {
        return NotFound;
      }
      var p := proposals[id];
      if p.status != ProposalStatus.Pending {
        return Conflict;
      }
      FailedApplyChangesNothing(State(), repo, id, env, apply);
      var branch := p.target;
      if branch == "" || branch == env.defaultBranch {
        branch := "ai/proposal-" + Decimal(id);
      }
      var msg := p.title;
      if p.summary != "" {
        msg := msg + ("\n\n" + p.summary);
      }
      var req := Request(branch, p.base, EditOf(p, apply), msg, env.author, env.stamp);
      var np := NewPull(repo, p.title, env.user, branch, env.defaultBranch);
      assert req == RequestOf(p, id, env, apply) && np == PullOf(p, id, env);
      var res := ApplyAndOpen(repo, req, np, env);
      if res.None? {
        return BadRequest;
      }
      var (sha, number) := res.value;
      if number.Some? {
        proposals := proposals[id := p.(status := Accepted, appliedSha := Some(sha), pullNumber := number)];
      } else {
        proposals := proposals[id := p.(status := Accepted, appliedSha := Some(sha))];
      }
      return Applied(sha, number);
    }

    method Reject(repo: int, id: nat) returns (reply: Reply)
      modifies this`proposals
      ensures State() == AfterReject(old(State()), repo, id)
      ensures reply == if id >= |old(proposals)| || old(proposals)[id].repo != repo then NotFound
                       else if !old(proposals)[id].status.Pending? then Conflict else Dropped
      ensures proposals == if reply == Dropped then old(proposals)[id := old(proposals)[id].(status := Rejected)]
                           else old(proposals)
    {
      if id >= |proposals| || proposals[id].repo != repo {
        return NotFound;
      }
      if proposals[id].status != Pending {
        return Conflict;
      }
      proposals := proposals[id := proposals[id].(status := Rejected)];
      return Dropped;
    }
  }

  // ---- Runs ----

  /** `Other` is any handler of the pull requests module: pushes, merges, rescans, jobs. */
  datatype GateEvent =
    | Create(repo: int, draft: Draft)
    | Accept(repo: int, id: nat, env: Env)
    | Reject(repo: int, id: nat)
    | Other(ev: Pulls.Event)

  ghost function NextSite(s: Site, ev: GateEvent, apply: Applier): Site {
    match ev
    case Create(repo, draft) => AfterCreate(s, repo, draft)
    case Accept(repo, id, env) => AfterAccept(s, repo, id, env, apply)
    case Reject(repo, id) => AfterReject(s, repo, id)
    case Other(e) => s.(forge := Pulls.Next(s.forge, e))
  }

  ghost function RunSite(s: Site, evs: seq<GateEvent>, apply: Applier): Site
    decreases |evs|
  {
    if evs == [] then s else RunSite(NextSite(s, evs[0], apply), evs[1..], apply)
  }

  // ---- The default branch stays put ----

  function TipOf(f: Forge, repo: int, branch: string): Option<Sha> {
    if repo in f.repos && BranchExists(f.repos[repo], branch) then Some(f.repos[repo].refs[BranchRef(branch)]) else None
  }

  /** The branch an accept writes is the default branch exactly when the default branch
      carries the feature branch's own name and the proposal did not name another. */
  lemma TargetsDefaultIff(p: Proposal, id: nat, defaultBranch: string)
    ensures TargetBranch(p, id, defaultBranch) == defaultBranch
      <==> defaultBranch == FeatureBranch(id) && (p.target == "" || p.target == defaultBranch)
  {}

  lemma CreateKeepsRepos(s: Site, repo: int, id: nat, env: Env, apply: Applier)
    ensures AcceptCommit(s, repo, id, env, apply).Some? ==>
      AfterAccept(s, repo, id, env, apply).forge.repos
        == s.forge.repos[repo := AfterWrite(s.forge.repos[repo], RequestOf(s.proposals[id], id, env, apply), env.faults)]
  {
    hide Attempt, RefreshedPull;
    if AcceptCommit(s, repo, id, env, apply).Some? {
      var req := RequestOf(s.proposals[id], id, env, apply);
      var f := s.forge.(repos := s.forge.repos[repo := AfterWrite(s.forge.repos[repo], req, env.faults)]);
      RefreshPointwise(f, repo, env.mb, 0);
    }
  }

  /** An accept moves its own target branch to the new commit and no other branch. */
  lemma AcceptMovesOnlyTarget(s: Site, repo: int, id: nat, env: Env, apply: Applier, repo2: int, branch: string)
    ensures
      var target := if id < |s.proposals| then TargetBranch(s.proposals[id], id, env.defaultBranch) else "";
      var c := AcceptCommit(s, repo, id, env, apply);
      TipOf(AfterAccept(s, repo, id, env, apply).forge, repo2, branch) ==
        if c.Some? && repo2 == repo && branch == target then c else TipOf(s.forge, repo2, branch)
  {
    hide Attempt, BranchRef, Created, Refreshed, RefreshedPull;
    CreateKeepsRepos(s, repo, id, env, apply);
    if AcceptCommit(s, repo, id, env, apply).Some? {
      var req := RequestOf(s.proposals[id], id, env, apply);
      BranchRefInjective(req.branch, branch);
    }
  }

  ghost predicate GateOnly(evs: seq<GateEvent>, repo: int, defaultBranch: string) {
    forall ev <- evs :: !ev.Other? && (ev.Accept? && ev.repo == repo ==> ev.env.defaultBranch == defaultBranch)
  }

  /** Over every run of create, accept and reject, with any faults, the default branch's
      tip never moves, provided it is not named like a proposal's feature branch. */
  lemma {:induction false} DefaultBranchUntouched(s: Site, evs: seq<GateEvent>, apply: Applier, repo: int, defaultBranch: string)
    requires GateOnly(evs, repo, defaultBranch)
    requires forall id: nat :: defaultBranch != FeatureBranch(id)
    ensures TipOf(RunSite(s, evs, apply).forge, repo, defaultBranch) == TipOf(s.forge, repo, defaultBranch)
    decreases |evs|
  {
    hide AfterAccept, FeatureBranch, TipOf;
    if evs != [] {
      var ev := evs[0];
      assert ev in evs;
      if ev.Accept? {
        AcceptMovesOnlyTarget(s, ev.repo, ev.id, ev.env, apply, repo, defaultBranch);
        if ev.id < |s.proposals| {
          TargetsDefaultIff(s.proposals[ev.id], ev.id, defaultBranch);
        } else {
          assert AcceptCommit(s, ev.repo, ev.id, ev.env, apply).None?;
        }
      }
      DefaultBranchUntouched(NextSite(s, ev, apply), evs[1..], apply, repo, defaultBranch);
    }
  }

  /** Exactly when an accept moves the default branch: it commits, the default branch is named like
      this proposal's feature branch, and the proposal names no other. Only a commit made without
      sight of the branch could be the very commit that is there already. */
  lemma DefaultMovesIff(s: Site, repo: int, id: nat, env: Env, apply: Applier)
    ensures
      var c := AcceptCommit(s, repo, id, env, apply);
      var before := TipOf(s.forge, repo, env.defaultBranch);
      var blind := OpenFails in env.faults || RevParseFails in env.faults;
      TipOf(AfterAccept(s, repo, id, env, apply).forge, repo, env.defaultBranch) != before <==>
        && c.Some? && (blind ==> c != before)
        && env.defaultBranch == FeatureBranch(id)
        && (s.proposals[id].target == "" || s.proposals[id].target == env.defaultBranch)
  {
    hide AfterAccept;
    AcceptMovesOnlyTarget(s, repo, id, env, apply, repo, env.defaultBranch);
    if id < |s.proposals| {
      TargetsDefaultIff(s.proposals[id], id, env.defaultBranch);
      if AcceptCommit(s, repo, id, env, apply).Some? {
        SightedCommitIsNew(s.forge.repos[repo], RequestOf(s.proposals[id], id, env, apply), env.faults);
      }
    }
  }

  /** A commit made on the tip of its branch is not that tip. */
  lemma SightedCommitIsNew(r: Repo, req: Request, faults: set<Fault>)
    ensures
      Attempt(r, req, faults).Some? && OpenFails !in faults && RevParseFails !in faults && BranchExists(r, req.branch) ==>
        Attempt(r, req, faults).value != r.refs[BranchRef(req.branch)]
  {
    if Attempt(r, req, faults).Some? {
      WriteMovesOneRef(r, req, faults, "");
      NotOwnParent(Attempt(r, req, faults).value);
    }
  }

  lemma NotOwnParent(c: Sha)
    ensures c.parent != Some(c)
  {}

  /** With the default branch named like proposal 0's feature branch, a successful accept of
      proposal 0 that names no other branch lands on it. */
  lemma ClashingDefaultMoves(s: Site, repo: int, env: Env, apply: Applier)
    requires |s.proposals| > 0 && s.proposals[0].target == "" && env.defaultBranch == FeatureBranch(0)
    requires AcceptCommit(s, repo, 0, env, apply).Some?
    ensures TipOf(AfterAccept(s, repo, 0, env, apply).forge, repo, env.defaultBranch) == AcceptCommit(s, repo, 0, env, apply)
  {
    AcceptMovesOnlyTarget(s, repo, 0, env, apply, repo, env.defaultBranch);
  }

  // ---- Proposals only ever settle ----

  ghost predicate Settled(p: Proposal) {
    p.status.Accepted? || p.status.Rejected?
  }

  /** Accepted and rejected are terminal: the row never changes again, whatever runs. */
  lemma {:induction false} SettledForEver(s: Site, evs: seq<GateEvent>, apply: Applier, id: nat)
    requires id < |s.proposals| && Settled(s.proposals[id])
    ensures id < |RunSite(s, evs, apply).proposals| && RunSite(s, evs, apply).proposals[id] == s.proposals[id]
    decreases |evs|
  {
    if evs != [] {
      SettledForEver(NextSite(s, evs[0], apply), evs[1..], apply, id);
    }
  }

  /** A failed apply leaves everything as it was: the proposal pending, refs, pulls, jobs. */
  lemma FailedApplyChangesNothing(s: Site, repo: int, id: nat, env: Env, apply: Applier)
    requires IsPending(s, repo, id)
    ensures AfterAccept(s, repo, id, env, apply) == s <==> AcceptCommit(s, repo, id, env, apply).None?
  {
    if AcceptCommit(s, repo, id, env, apply).Some? {
      assert AfterAccept(s, repo, id, env, apply).proposals[id].status.Accepted?;
    }
  }

  /** Rejecting settles a pending proposal of the repository and touches nothing else; any other
      request to reject changes nothing at all. */
  lemma RejectIs(s: Site, repo: int, id: nat)
    ensures id < |s.proposals| && s.proposals[id].repo == repo && s.proposals[id].status == Pending ==>
      AfterReject(s, repo, id) == Site(s.forge, s.proposals[id := s.proposals[id].(status := Rejected)])
    ensures !(id < |s.proposals| && s.proposals[id].repo == repo && s.proposals[id].status == Pending) ==>
      AfterReject(s, repo, id) == s
  {}

  /** Once rejected or accepted, a proposal never makes a commit again, whatever runs in between. */
  lemma DecidedOnce(s: Site, repo: int, id: nat, decision: GateEvent, evs: seq<GateEvent>, apply: Applier,
                    repo2: int, env: Env)
    requires id < |s.proposals| && s.proposals[id].repo == repo && s.proposals[id].status == Pending
    requires decision == Reject(repo, id)
      || (decision.Accept? && decision.repo == repo && decision.id == id
          && AcceptCommit(s, repo, id, decision.env, apply).Some?)
    ensures AcceptCommit(RunSite(NextSite(s, decision, apply), evs, apply), repo2, id, env, apply) == None
    ensures AfterAccept(RunSite(NextSite(s, decision, apply), evs, apply), repo2, id, env, apply)
      == RunSite(NextSite(s, decision, apply), evs, apply)
  {
    hide Attempt;
    if decision.Reject? {
      RejectIs(s, repo, id);
    }
    var s' := NextSite(s, decision, apply);
    assert Settled(s'.proposals[id]);
    SettledForEver(s', evs, apply, id);
  }

  // ---- What an accepted proposal records ----

  /** The commit an accept makes, in the proposal's own terms: its title and summary, its changes or
      else its patch, applied to what is on the branch it names, or on a branch of its own. */
  lemma AcceptedCommit(s: Site, repo: int, id: nat, env: Env, apply: Applier)
    requires AcceptCommit(s, repo, id, env, apply).Some?
    ensures
      var p, c := s.proposals[id], AcceptCommit(s, repo, id, env, apply).value;
      var before: Tree := if c.parent.Some? then c.parent.value.tree else map[];
      var branch := if p.target != "" && p.target != env.defaultBranch then p.target else "ai/proposal-" + Decimal(id);
      && p.repo == repo && p.status == Pending && repo in s.forge.repos
      && c.message == (if p.summary == "" then p.title else p.title + "\n\n" + p.summary)
      && (p.changes != [] ==> ApplyChanges(before, p.changes) == Some(c.tree))
      && (p.changes == [] ==> apply(p.patch, before) == Some(c.tree))
      && c.stamp == env.stamp
      && (env.author.name != "" ==> c.author.name == env.author.name)
      && (env.author.email != "" ==> c.author.email == env.author.email)
      && var r := s.forge.repos[repo];
      && (OpenFails !in env.faults && RevParseFails !in env.faults && BranchRef(branch) in r.refs ==>
            c.parent == Some(r.refs[BranchRef(branch)]))
      && (RevParseFails !in env.faults && BranchRef(branch) !in r.refs ==>
            c.parent == match p.base
              case Name(ref) => RevParse(r, ref)
              case Id(sha) => Some(sha)
              case Unset => if r.head in r.refs then Some(r.refs[r.head]) else None)
  {
    hide Attempt, RevParse;
    var req := RequestOf(s.proposals[id], id, env, apply);
    CommitParent(s.forge.repos[repo], req, env.faults);
    CommitContents(s.forge.repos[repo], req, env.faults, "");
  }

  /** Every proposal has a feature branch of its own, under a name the writers take. */
  lemma FeatureBranches(i: nat, j: nat)
    ensures FeatureBranch(i) == "ai/proposal-" + Decimal(i)
    ensures FeatureBranch(i) == FeatureBranch(j) <==> i == j
    ensures i <= MAX_INT ==> ValidRefName(FeatureBranch(i))
  {
    DecimalInjective(i, j);
    assert FeatureBranch(i)[12..] == Decimal(i) && FeatureBranch(j)[12..] == Decimal(j);
    if i <= MAX_INT {
      IntFits();
      DecimalLength(i, 19);
      FeatureBranchValid(Decimal(i));
    }
  }

  lemma FeatureBranchValid(digits: string)
    requires AllDigits(digits) && 1 <= |digits| <= 19
    ensures ValidRefName("ai/proposal-" + digits)
  {
    var prefix := "ai/proposal-";
    var name := prefix + digits;
    forall i: nat | i < |name| ensures RefChar(name[i]) && name[i] != '.' {
      if i < |prefix| {
        assert name[i] == prefix[i];
      } else {
        assert name[i] == digits[i - |prefix|] && IsDigit(name[i]);
      }
    }
    forall i | 0 <= i <= |name| ensures !(".." <= name[i..]) {
      if i < |name| {
        assert name[i..][0] == name[i];
      }
    }
    assert IsDigit(name[|name| - 1]);
    assert name[|name| - 1..][0] == name[|name| - 1];
    assert name[|name| - 5..][0] == name[|name| - 5];
  }

  /** The recorded commit is the proposal's own: its message, and its parent's tree with the
      proposal's edit applied. */
  ghost predicate Recorded(p: Proposal, apply: Applier) {
    && !IsBlank(p.title)
    && (p.status.Accepted? <==> p.appliedSha.Some?)
    && (p.status.Accepted? ==>
          var c := p.appliedSha.value;
          && c.message == Message(p)
          && ApplyEdit(TreeOf(c.parent), EditOf(p, apply)) == Some(c.tree))
  }

  ghost predicate AllRecorded(s: Site, apply: Applier) {
    forall p <- s.proposals :: Recorded(p, apply)
  }

  lemma AcceptRecords(s: Site, repo: int, id: nat, env: Env, apply: Applier)
    requires AllRecorded(s, apply)
    ensures AllRecorded(AfterAccept(s, repo, id, env, apply), apply)
  {
    if AcceptCommit(s, repo, id, env, apply).Some? {
      var s' := AfterAccept(s, repo, id, env, apply);
      var p, p' := s.proposals[id], s'.proposals[id];
      assert Recorded(p, apply) && Message(p') == Message(p);
      SameEdit(p, p', apply, TreeOf(p'.appliedSha.value.parent));
      forall q | q in s'.proposals ensures Recorded(q, apply) {
        assert q == p' || q in s.proposals;
      }
    }
  }

  lemma SameEdit(p: Proposal, q: Proposal, apply: Applier, t: Tree)
    requires p.patch == q.patch && p.changes == q.changes
    ensures ApplyEdit(t, EditOf(p, apply)) == ApplyEdit(t, EditOf(q, apply))
  {}

  lemma RejectRecords(s: Site, repo: int, id: nat, apply: Applier)
    requires AllRecorded(s, apply)
    ensures AllRecorded(AfterReject(s, repo, id), apply)
  {
    if IsPending(s, repo, id) {
      assert Recorded(s.proposals[id], apply);
      var s' := AfterReject(s, repo, id);
      forall q | q in s'.proposals ensures Recorded(q, apply) {
        assert q == s'.proposals[id] || q in s.proposals;
      }
    }
  }

  /** Over every run: each accepted proposal records the commit its accept created, no other
      proposal records one, and every pull's head keeps its scan job. */
  lemma {:induction false} EveryAcceptIsRecorded(s: Site, evs: seq<GateEvent>, apply: Applier)
    requires AllRecorded(s, apply) && Pulls.Inv(s.forge)
    ensures AllRecorded(RunSite(s, evs, apply), apply) && Pulls.Inv(RunSite(s, evs, apply).forge)
    decreases |evs|
  {
    hide AllRecorded, Pulls.Inv, AfterAccept, AfterReject;
    if evs != [] {
      match evs[0] {
        case Create(repo, draft) => CreateRecords(s, repo, draft, apply);
        case Accept(repo, id, env) =>
          AcceptRecords(s, repo, id, env, apply);
          AcceptKeepsCoverage(s, repo, id, env, apply);
        case Reject(repo, id) =>
          RejectRecords(s, repo, id, apply);
          RejectKeepsForge(s, repo, id);
        case Other(e) =>
          Pulls.StepKeepsInv(s.forge, e);
          SameProposals(s, s.(forge := Pulls.Next(s.forge, e)), apply);
      }
      EveryAcceptIsRecorded(NextSite(s, evs[0], apply), evs[1..], apply);
    }
  }

  lemma CreateRecords(s: Site, repo: int, d: Draft, apply: Applier)
    requires AllRecorded(s, apply)
    ensures AllRecorded(AfterCreate(s, repo, d), apply)
    ensures AfterCreate(s, repo, d).forge == s.forge
  {}

  lemma RejectKeepsForge(s: Site, repo: int, id: nat)
    ensures AfterReject(s, repo, id).forge == s.forge
  {}

  lemma SameProposals(s: Site, t: Site, apply: Applier)
    requires s.proposals == t.proposals && AllRecorded(s, apply)
    ensures AllRecorded(t, apply)
  {}

  /** Moving refs alone does not touch the coverage of heads. */
  lemma RefsDoNotMatter(f: Forge, repos: map<int, Repo>)
    requires Pulls.Inv(f)
    ensures Pulls.Inv(f.(repos := repos))
  {}

  lemma AcceptKeepsCoverage(s: Site, repo: int, id: nat, env: Env, apply: Applier)
    requires Pulls.Inv(s.forge)
    ensures Pulls.Inv(AfterAccept(s, repo, id, env, apply).forge)
  {
    hide Pulls.Inv, Refreshed, Created, Attempt;
    if AcceptCommit(s, repo, id, env, apply).Some? {
      var req := RequestOf(s.proposals[id], id, env, apply);
      var f := s.forge.(repos := s.forge.repos[repo := AfterWrite(s.forge.repos[repo], req, env.faults)]);
      RefsDoNotMatter(s.forge, f.repos);
      RefreshAllKeepsInv(f, repo, env.mb);
      CreateKeepsInv(Refreshed(f, repo, env.mb), PullOf(s.proposals[id], id, env), env.defaultBranch, env.mb);
    }
  }

  lemma RefreshAllKeepsInv(f: Forge, repo: int, mb: MergeBase)
    requires Pulls.Inv(f)
    ensures Pulls.Inv(Refreshed(f, repo, mb))
  {
    RefreshKeepsInv(f, repo, mb, 0);
  }

  /** A successful accept opens a pull request from the branch it wrote to the default branch, and
      its recorded number is that pull's. The pull stands at the applied commit exactly when the
      branch's name is not shadowed, or what rev-parse answers is that very commit. */
  lemma AcceptOpensPull(s: Site, repo: int, id: nat, env: Env, apply: Applier)
    requires AcceptCommit(s, repo, id, env, apply).Some?
    requires AllRecorded(s, apply)
    ensures
      var s' := AfterAccept(s, repo, id, env, apply);
      var branch := TargetBranch(s.proposals[id], id, env.defaultBranch);
      && |s'.forge.pulls| == |s.forge.pulls| + 1
      && var pull := s'.forge.pulls[|s.forge.pulls|];
      && pull.repo == repo && pull.head == branch && pull.base == env.defaultBranch && pull.state.Open?
      && pull.title == s.proposals[id].title && pull.author == env.user
      && s'.proposals[id].pullNumber == Some(pull.number)
      && repo in s'.forge.repos
      && var r := s'.forge.repos[repo];
      && (Some(pull.headSha) == s'.proposals[id].appliedSha
          <==> !Shadowed(r, branch) || RevParse(r, branch) == s'.proposals[id].appliedSha)
  {
    hide Shadowed, RevParse, Attempt, MaxNumber, CountIn;
    var req := RequestOf(s.proposals[id], id, env, apply);
    var f := s.forge.(repos := s.forge.repos[repo := AfterWrite(s.forge.repos[repo], req, env.faults)]);
    RefreshPointwise(f, repo, env.mb, 0);
    assert Recorded(s.proposals[id], apply);
    AttemptIsWellFormed(s.forge.repos[repo], req, env.faults);
    ValidNameResolves(f.repos[repo], req.branch);
    if !Shadowed(f.repos[repo], req.branch) {
      BareNameResolves(f.repos[repo], req.branch);
    }
    assert CanCreate(Refreshed(f, repo, env.mb), PullOf(s.proposals[id], id, env));
  }

  lemma AttemptIsWellFormed(r: Repo, req: Request, faults: set<Fault>)
    requires Attempt(r, req, faults).Some?
    ensures req.branch != "" && ValidRefName(req.branch) && BranchExists(AfterWrite(r, req, faults), req.branch)
    ensures AfterWrite(r, req, faults).refs[BranchRef(req.branch)] == Attempt(r, req, faults).value
  {}

  /** A branch that a write made is always found under its bare name, if not as itself. */
  lemma ValidNameResolves(r: Repo, branch: string)
    requires BranchExists(r, branch) && ValidRefName(branch)
    ensures RevParse(r, branch).Some?
  {
    assert branch[0] in branch && RefChar(branch[0]);
    if !Shadowed(r, branch) {
      BareNameResolves(r, branch);
    } else if !IsFullId(branch) {
      var c := Candidates(r, branch);
      assert c == c[..3] + c[3..];
      FirstInConcat(r.refs, c[..3], c[3..]);
    }
  }
}
