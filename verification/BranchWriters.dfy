/**
 Any number of CommitFiles / ApplyPatchCommit calls on one repository, interleaved.

 Each writer of internal/git/write.go is cut into its git commands: look for the
 branch, resolve the parent, seed the private index, apply the changes one by one,
 write the commit, move the ref with the expected old value. A schedule is a list of
 events, each naming a writer and whether its next command fails; the next state is
 a function of the event, so a statement about every schedule is about every run.
 */
module BranchWriters {
  import opened Wrappers
  import opened GitStore

  datatype Pc =
    | Start
    | Looked(found: bool)
    | Resolved(parent: Option<Sha>, want: Option<Sha>)
    | Indexing(parent: Option<Sha>, want: Option<Sha>, index: Tree, next: nat)
    | Ready(want: Option<Sha>, commit: Sha)
    | Published(want: Option<Sha>, commit: Sha)
    | Failed

  datatype Writer = Writer(req: Request, pc: Pc)

  datatype Sys = Sys(repo: Repo, writers: seq<Writer>)

  datatype Event = Arrive(req: Request) | Step(w: nat, fails: bool)

  // ---- One writer, one command ----

  function EditSteps(e: Edit): nat {
    match e case Files(cs) => |cs| case Patch(_, _) => 1
  }

  function EditStep(t: Tree, e: Edit, k: nat): Option<Tree>
    requires k < EditSteps(e)
  {
    match e case Files(cs) => ApplyChange(t, cs[k]) case Patch(_, apply) => apply(t)
  }

  /** The compare-and-swap: without an expected value the ref is overwritten. */
  predicate SwapAllowed(r: Repo, branch: string, want: Option<Sha>) {
    want.Some? ==> RefIs(r, BranchRef(branch), want)
  }

  ghost function NextPc(r: Repo, wr: Writer, fails: bool): Pc {
    match wr.pc
    case Start =>
      if WellFormed(wr.req) then Looked(!fails && BranchExists(r, wr.req.branch)) else Failed
    case Looked(found) =>
      var parent := Parent(r, wr.req, found, fails);
      Resolved(parent, if found then parent else None)
    case Resolved(parent, want) =>
      if fails then Failed else Indexing(parent, want, TreeOf(parent), 0)
    case Indexing(parent, want, index, next) =>
      if fails then Failed
      else if next < EditSteps(wr.req.edit) then
        (match EditStep(index, wr.req.edit, next)
         case None => Failed
         case Some(index') => Indexing(parent, want, index', next + 1))
      else Ready(want, NewCommit(wr.req, parent, index))
    case Ready(want, commit) =>
      if fails || !SwapAllowed(r, wr.req.branch, want) then Failed else Published(want, commit)
    case Published(_, _) => wr.pc
    case Failed => wr.pc
  }

  // ---- The system ----

  /** The event makes writer `ev.w` succeed in moving its branch. */
  ghost predicate Publishes(s: Sys, ev: Event) {
    && ev.Step? && ev.w < |s.writers| && !ev.fails
    && s.writers[ev.w].pc.Ready?
    && SwapAllowed(s.repo, s.writers[ev.w].req.branch, s.writers[ev.w].pc.want)
  }

  ghost function Next(s: Sys, ev: Event): Sys {
    match ev
    case Arrive(req) => s.(writers := s.writers + [Writer(req, Start)])
    case Step(w, fails) =>
      if w >= |s.writers| then s
      else
        var wr := s.writers[w];
        var repo := if Publishes(s, ev) then MoveRef(s.repo, BranchRef(wr.req.branch), wr.pc.commit) else s.repo;
        Sys(repo, s.writers[w := wr.(pc := NextPc(s.repo, wr, fails))])
  }

  ghost function Run(s: Sys, evs: seq<Event>): Sys
    decreases |evs|
  {
    if evs == [] then s else Run(Next(s, evs[0]), evs[1..])
  }

  ghost predicate PublishesOn(s: Sys, ev: Event, branch: string) {
    Publishes(s, ev) && s.writers[ev.w].req.branch == branch
  }

  /** The writers whose swap on `branch` succeeds during the run, in that order. */
  ghost function Wins(s: Sys, evs: seq<Event>, branch: string): seq<nat>
    decreases |evs|
  {
    if evs == [] then []
    else
      var rest := Wins(Next(s, evs[0]), evs[1..], branch);
      if PublishesOn(s, evs[0], branch) then [evs[0].w] + rest else rest
  }

  /** A writer on `branch` that fails to see the branch or its tip. It then carries no
      expected value into the swap. */
  ghost predicate Blind(s: Sys, ev: Event, branch: string) {
    && ev.Step? && ev.w < |s.writers| && ev.fails
    && s.writers[ev.w].req.branch == branch
    && (s.writers[ev.w].pc.Start? || s.writers[ev.w].pc.Looked?)
  }

  ghost predicate NeverBlind(s: Sys, evs: seq<Event>, branch: string)
    decreases |evs|
  {
    evs == [] || (!Blind(s, evs[0], branch) && NeverBlind(Next(s, evs[0]), evs[1..], branch))
  }

  /** In particular nobody is ever blind while git does not fail. */
  lemma {:induction false} NoFaultNeverBlind(s: Sys, evs: seq<Event>, branch: string)
    requires forall ev <- evs :: ev.Step? ==> !ev.fails
    ensures NeverBlind(s, evs, branch)
    decreases |evs|
  {
    hide Next;
    if evs != [] {
      NoFaultNeverBlind(Next(s, evs[0]), evs[1..], branch);
    }
  }

  // ---- Histories ----

  /** A commit's parent chain, root first. */
  function Lineage(c: Sha): seq<Sha> {
    (if c.parent.None? then [] else Lineage(c.parent.value)) + [c]
  }

  function FoldEdits(t: Tree, edits: seq<Edit>): Option<Tree>
    decreases |edits|
  {
    if edits == [] then Some(t)
    else match ApplyEdit(t, edits[0])
      case None => None
      case Some(t') => FoldEdits(t', edits[1..])
  }

  ghost predicate Won(s: Sys, w: nat, branch: string) {
    w < |s.writers| && s.writers[w].req.branch == branch && s.writers[w].pc.Published?
  }

  ghost function CommitsOf(s: Sys, ws: seq<nat>, branch: string): seq<Sha>
    requires forall w <- ws :: Won(s, w, branch)
  {
    if ws == [] then [] else
      assert Won(s, ws[0], branch);
      [s.writers[ws[0]].pc.commit] + CommitsOf(s, ws[1..], branch)
  }

  ghost function EditsOf(s: Sys, ws: seq<nat>, branch: string): seq<Edit>
    requires forall w <- ws :: Won(s, w, branch)
  {
    if ws == [] then [] else
      assert Won(s, ws[0], branch);
      [s.writers[ws[0]].req.edit] + EditsOf(s, ws[1..], branch)
  }

  // ---- The invariant ----

  ghost predicate IndexedSoFar(t: Tree, e: Edit, k: nat, index: Tree) {
    && k <= EditSteps(e)
    && match e
       case Files(cs) => ApplyChanges(t, cs[..k]) == Some(index)
       case Patch(_, apply) => if k == 0 then index == t else apply(t) == Some(index)
  }

  /** What a writer on an existing branch knows: its expected value is its parent,
      and its commit is that parent's tree with its own edit applied. */
  ghost predicate WriterOk(wr: Writer, tip: Sha) {
    match wr.pc
    case Start => true
    case Looked(found) => found
    case Resolved(parent, want) => want.Some? && parent == want
    case Indexing(parent, want, index, next) =>
      want.Some? && parent == want && IndexedSoFar(want.value.tree, wr.req.edit, next, index)
    case Ready(want, commit) =>
      want.Some? && commit.parent == want && ApplyEdit(want.value.tree, wr.req.edit) == Some(commit.tree)
    case Published(want, commit) =>
      want.Some? && commit.parent == want && commit in Lineage(tip)
    case Failed => true
  }

  ghost predicate Inv(s: Sys, branch: string) {
    && BranchExists(s.repo, branch)
    && forall wr <- s.writers :: wr.req.branch == branch ==> WriterOk(wr, Tip(s, branch))
  }

  ghost function Tip(s: Sys, branch: string): Sha
    requires BranchExists(s.repo, branch)
  {
    s.repo.refs[BranchRef(branch)]
  }

  lemma WriterStep(r: Repo, wr: Writer, fails: bool)
    requires BranchExists(r, wr.req.branch)
    requires WriterOk(wr, r.refs[BranchRef(wr.req.branch)])
    requires fails ==> !wr.pc.Start? && !wr.pc.Looked?
    requires !wr.pc.Ready?
    ensures WriterOk(wr.(pc := NextPc(r, wr, fails)), r.refs[BranchRef(wr.req.branch)])
  {
    FirstCandidate(r, wr.req.branch);
    match wr.pc
    case Indexing(parent, want, index, next) =>
      match wr.req.edit {
        case Files(cs) =>
          if next < |cs| {
            ApplyChangesSnoc(want.value.tree, cs[..next], cs[next]);
            assert cs[..next + 1] == cs[..next] + [cs[next]];
          } else {
            assert cs[..next] == cs;
          }
        case Patch(_, _) =>
      }
    case _ =>
  }

  /** One event keeps the invariant, and moves the tip only to its own child. */
  lemma StepKeepsInv(s: Sys, ev: Event, branch: string)
    requires Inv(s, branch) && !Blind(s, ev, branch)
    ensures Inv(Next(s, ev), branch)
    ensures PublishesOn(s, ev, branch) ==>
      && Tip(Next(s, ev), branch) == s.writers[ev.w].pc.commit
      && Tip(Next(s, ev), branch).parent == Some(Tip(s, branch))
      && ApplyEdit(Tip(s, branch).tree, s.writers[ev.w].req.edit) == Some(Tip(Next(s, ev), branch).tree)
    ensures !PublishesOn(s, ev, branch) ==> Tip(Next(s, ev), branch) == Tip(s, branch)
  {
    var s' := Next(s, ev);
    if ev.Step? && ev.w < |s.writers| {
      var wr := s.writers[ev.w];
      BranchRefInjective(wr.req.branch, branch);
      if wr.req.branch == branch && !wr.pc.Ready? {
        WriterStep(s.repo, wr, ev.fails);
      }
      forall w: nat | w < |s'.writers| && s'.writers[w].req.branch == branch
        ensures WriterOk(s'.writers[w], Tip(s', branch))
      {
        assert WriterOk(s.writers[w], Tip(s, branch));
      }
    }
  }

  lemma StepFrame(s: Sys, ev: Event, w: nat, branch: string)
    ensures Won(s, w, branch) ==> Won(Next(s, ev), w, branch) && Next(s, ev).writers[w] == s.writers[w]
    ensures Won(Next(s, ev), w, branch) && !Won(s, w, branch) <==> PublishesOn(s, ev, branch) && ev.w == w
    ensures PublishesOn(s, ev, branch) && ev.w == w ==>
      var wr := s.writers[w];
      Next(s, ev).writers[w] == wr.(pc := Published(wr.pc.want, wr.pc.commit))
  {}

  lemma {:induction false} RunFrame(s: Sys, evs: seq<Event>, w: nat, branch: string)
    ensures Won(s, w, branch) ==> Won(Run(s, evs), w, branch) && Run(s, evs).writers[w] == s.writers[w]
    decreases |evs|
  {
    if evs != [] {
      StepFrame(s, evs[0], w, branch);
      RunFrame(Next(s, evs[0]), evs[1..], w, branch);
    }
  }

  /** The winners of a run are exactly the writers that come to report success in it. */
  lemma {:induction false} WinsAreNewlyWon(s: Sys, evs: seq<Event>, branch: string, w: nat)
    ensures w in Wins(s, evs, branch) <==> Won(Run(s, evs), w, branch) && !Won(s, w, branch)
    decreases |evs|
  {
    if evs != [] {
      var s' := Next(s, evs[0]);
      StepFrame(s, evs[0], w, branch);
      RunFrame(s', evs[1..], w, branch);
      WinsAreNewlyWon(s', evs[1..], branch, w);
    }
  }

  lemma AllWinsWon(s: Sys, evs: seq<Event>, branch: string)
    ensures forall w <- Wins(s, evs, branch) :: Won(Run(s, evs), w, branch)
  {
    forall w | w in Wins(s, evs, branch) ensures Won(Run(s, evs), w, branch) {
      WinsAreNewlyWon(s, evs, branch, w);
    }
  }

  // ---- Every run ----

  ghost predicate Serialised(s: Sys, evs: seq<Event>, branch: string)
    requires BranchExists(s.repo, branch)
  {
    var s', wins := Run(s, evs), Wins(s, evs, branch);
    && BranchExists(s'.repo, branch)
    && (forall w <- wins :: Won(s', w, branch))
    && Lineage(Tip(s', branch)) == Lineage(Tip(s, branch)) + CommitsOf(s', wins, branch)
    && FoldEdits(Tip(s, branch).tree, EditsOf(s', wins, branch)) == Some(Tip(s', branch).tree)
  }

  lemma {:induction false} RunSerialises(s: Sys, evs: seq<Event>, branch: string)
    requires Inv(s, branch) && NeverBlind(s, evs, branch)
    ensures Inv(Run(s, evs), branch) && Serialised(s, evs, branch)
    decreases |evs|
  {
    hide Next, WriterOk, ApplyEdit;
    AllWinsWon(s, evs, branch);
    if evs != [] {
      var s1, rest := Next(s, evs[0]), evs[1..];
      StepKeepsInv(s, evs[0], branch);
      RunSerialises(s1, rest, branch);
      if PublishesOn(s, evs[0], branch) {
        var w := evs[0].w;
        StepFrame(s, evs[0], w, branch);
        RunFrame(s1, rest, w, branch);
        assert Wins(s, evs, branch)[1..] == Wins(s1, rest, branch);
        assert EditsOf(Run(s, evs), Wins(s, evs, branch), branch)[1..]
            == EditsOf(Run(s, evs), Wins(s1, rest, branch), branch);
      }
    }
  }

  ghost predicate AllStarting(s: Sys) {
    forall wr <- s.writers :: wr.pc.Start?
  }

  /**
   Serialisability and the shape of history. From any state with the branch present and
   its writers not yet started, whatever the interleaving: the tip's tree is the initial
   tree with the successful writers' edits applied one after another in the order their
   swaps succeeded, the tip's parent chain is those writers' commits in that order on top
   of the initial chain, and the successful writers are exactly those reporting success.
   */
  lemma Serialisability(s: Sys, evs: seq<Event>, branch: string)
    requires BranchExists(s.repo, branch) && AllStarting(s) && NeverBlind(s, evs, branch)
    ensures Serialised(s, evs, branch)
    ensures forall w: nat :: w in Wins(s, evs, branch) <==> Won(Run(s, evs), w, branch)
  {
    RunSerialises(s, evs, branch);
    forall w: nat ensures w in Wins(s, evs, branch) <==> Won(Run(s, evs), w, branch) {
      WinsAreNewlyWon(s, evs, branch, w);
    }
  }

  lemma {:induction false} RunConcat(s: Sys, a: seq<Event>, b: seq<Event>, branch: string)
    ensures Run(s, a + b) == Run(Run(s, a), b)
    ensures NeverBlind(s, a + b, branch) <==> NeverBlind(s, a, branch) && NeverBlind(Run(s, a), b, branch)
    decreases |a|
  {
    if a == [] {
      assert a + b == b;
    } else {
      assert (a + b)[1..] == a[1..] + b;
      RunConcat(Next(s, a[0]), a[1..], b, branch);
    }
  }

  /** No lost update: once a writer reports success its commit stays in the tip's history
      for ever, and its parent is the value its swap replaced. */
  lemma NoLostUpdate(s: Sys, a: seq<Event>, b: seq<Event>, branch: string, w: nat)
    requires BranchExists(s.repo, branch) && AllStarting(s) && NeverBlind(s, a + b, branch)
    requires Won(Run(s, a), w, branch)
    ensures BranchExists(Run(s, a + b).repo, branch)
    ensures Run(s, a).writers[w].pc.commit in Lineage(Tip(Run(s, a + b), branch))
    ensures Run(s, a).writers[w].pc.commit.parent == Run(s, a).writers[w].pc.want
  {
    RunConcat(s, a, b, branch);
    RunSerialises(s, a, branch);
    RunSerialises(Run(s, a), b, branch);
  }

  /** A swap that succeeds with an expected value replaced exactly that value. */
  lemma SwapReplacesParent(s: Sys, a: seq<Event>, ev: Event, branch: string)
    requires BranchExists(s.repo, branch) && AllStarting(s) && NeverBlind(s, a + [ev], branch)
    requires PublishesOn(Run(s, a), ev, branch)
    ensures BranchExists(Run(s, a).repo, branch)
    ensures Next(Run(s, a), ev).repo.refs
         == Run(s, a).repo.refs[BranchRef(branch) := Run(s, a).writers[ev.w].pc.commit]
    ensures Run(s, a).writers[ev.w].pc.commit.parent == Some(Tip(Run(s, a), branch))
  {
    RunConcat(s, a, [ev], branch);
    RunSerialises(s, a, branch);
    StepKeepsInv(Run(s, a), ev, branch);
  }

  // ---- Where the guarantee stops ----

  ghost predicate Unguarded(pc: Pc) {
    match pc
    case Start => false
    case Looked(found) => !found
    case Resolved(_, want) => want.None?
    case Indexing(_, want, _, _) => want.None?
    case Ready(want, _) => want.None?
    case Published(want, _) => want.None?
    case Failed => false
  }

  ghost predicate WasBlind(s: Sys, evs: seq<Event>, w: nat, branch: string)
    decreases |evs|
  {
    evs != [] && ((Blind(s, evs[0], branch) && evs[0].w == w) || WasBlind(Next(s, evs[0]), evs[1..], w, branch))
  }

  ghost function PcOf(s: Sys, w: nat): Pc {
    if w < |s.writers| then s.writers[w].pc else Start
  }

  /** A writer that carries an expected value built its commit on that value. */
  ghost predicate BuiltOnExpected(pc: Pc) {
    match pc
    case Resolved(parent, want) => want.Some? ==> parent == want
    case Indexing(parent, want, _, _) => want.Some? ==> parent == want
    case Ready(want, commit) => want.Some? ==> commit.parent == want
    case Published(want, commit) => want.Some? ==> commit.parent == want
    case _ => true
  }

  /** In every run on an existing branch, with any faults at all: a writer reaches its swap
      without an expected value exactly when it was blind. */
  lemma {:induction false} UnguardedIffBlind(s: Sys, evs: seq<Event>, w: nat, branch: string)
    requires BranchExists(s.repo, branch)
    requires w < |Run(s, evs).writers| && Run(s, evs).writers[w].req.branch == branch
    requires BuiltOnExpected(PcOf(s, w))
    ensures BranchExists(Run(s, evs).repo, branch)
    ensures BuiltOnExpected(PcOf(Run(s, evs), w))
    ensures !PcOf(Run(s, evs), w).Failed? ==>
      (Unguarded(PcOf(Run(s, evs), w)) <==> Unguarded(PcOf(s, w)) || WasBlind(s, evs, w, branch))
    decreases |evs|
  {
    if evs != [] {
      var s1 := Next(s, evs[0]);
      BranchOf(s1, evs[1..], w);
      FirstCandidate(s.repo, branch);
      if PcOf(s, w).Failed? {
        assert PcOf(s1, w).Failed?;
        FailedForEver(s1, evs[1..], w);
      }
      UnguardedIffBlind(s1, evs[1..], w, branch);
      if PcOf(s1, w).Failed? {
        FailedForEver(s1, evs[1..], w);
      }
    }
  }

  lemma {:induction false} BranchOf(s: Sys, evs: seq<Event>, w: nat)
    ensures w < |s.writers| ==> w < |Run(s, evs).writers| && Run(s, evs).writers[w].req == s.writers[w].req
    decreases |evs|
  {
    if evs != [] {
      BranchOf(Next(s, evs[0]), evs[1..], w);
    }
  }

  lemma {:induction false} FailedForEver(s: Sys, evs: seq<Event>, w: nat)
    requires PcOf(s, w).Failed?
    ensures PcOf(Run(s, evs), w).Failed?
    decreases |evs|
  {
    if evs != [] {
      FailedForEver(Next(s, evs[0]), evs[1..], w);
    }
  }

  /** So in every run, whatever the others do, a writer that was never blind only ever
      replaces the tip it built on: no successful swap of its own loses an update. */
  lemma SightedSwapKeepsTip(s: Sys, evs: seq<Event>, ev: Event, branch: string)
    requires BranchExists(s.repo, branch) && AllStarting(s)
    requires PublishesOn(Run(s, evs), ev, branch) && !WasBlind(s, evs, ev.w, branch)
    ensures BranchExists(Run(s, evs).repo, branch) && BranchExists(Next(Run(s, evs), ev).repo, branch)
    ensures Tip(Next(Run(s, evs), ev), branch).parent == Some(Tip(Run(s, evs), branch))
    ensures Tip(Run(s, evs), branch) in Lineage(Tip(Next(Run(s, evs), ev), branch))
  {
    UnguardedIffBlind(s, evs, ev.w, branch);
    var t := Tip(Run(s, evs), branch);
    assert t in Lineage(t);
  }

  /** What the writer's rev-parse answered during the run: nothing if it failed, and the request's
      base if the branch was not seen. */
  ghost function Answer(s: Sys, evs: seq<Event>, w: nat): Option<Sha>
    decreases |evs|
  {
    if evs == [] then None
    else if evs[0].Step? && evs[0].w == w && PcOf(s, w).Looked? && w < |s.writers|
    then Parent(s.repo, s.writers[w].req, s.writers[w].pc.found, evs[0].fails)
    else Answer(Next(s, evs[0]), evs[1..], w)
  }

  /** The writer builds, or has built, on `parent`. */
  ghost predicate BuildsOn(pc: Pc, parent: Option<Sha>) {
    match pc
    case Resolved(p, _) => p == parent
    case Indexing(p, _, _, _) => p == parent
    case Ready(_, commit) => commit.parent == parent
    case Published(_, commit) => commit.parent == parent
    case Failed => true
    case _ => false
  }

  lemma {:induction false} BuildsOnStays(s: Sys, evs: seq<Event>, w: nat, parent: Option<Sha>)
    requires BuildsOn(PcOf(s, w), parent)
    ensures BuildsOn(PcOf(Run(s, evs), w), parent)
    decreases |evs|
  {
    hide ApplyEdit, ApplyChange, Parent, WellFormed;
    if evs != [] {
      BuildsOnStays(Next(s, evs[0]), evs[1..], w, parent);
    }
  }

  lemma {:induction false} BuildsOnAnswer(s: Sys, evs: seq<Event>, w: nat)
    requires PcOf(s, w).Start? || PcOf(s, w).Looked?
    ensures
      var pc := PcOf(Run(s, evs), w);
      pc.Start? || pc.Looked? || BuildsOn(pc, Answer(s, evs, w))
    decreases |evs|
  {
    hide Parent, WellFormed, ApplyChange;
    if evs != [] {
      var s1 := Next(s, evs[0]);
      if PcOf(s1, w).Start? || PcOf(s1, w).Looked? {
        BuildsOnAnswer(s1, evs[1..], w);
      } else {
        BuildsOnStays(s1, evs[1..], w, Answer(s, evs, w));
      }
    }
  }

  /** Exactly which swaps keep the tip they replace in the history, in every run with any faults and
      any number of writers: those of a writer that was never blind, and of a blind one only when the
      commit it made is the tip again, or when what its rev-parse answered has the tip in its history;
      so never, but for that, when the rev-parse failed. */
  lemma SwapKeepsTipIff(s: Sys, evs: seq<Event>, ev: Event, branch: string)
    requires BranchExists(s.repo, branch) && AllStarting(s)
    requires PublishesOn(Run(s, evs), ev, branch)
    ensures BranchExists(Run(s, evs).repo, branch) && BranchExists(Next(Run(s, evs), ev).repo, branch)
    ensures
      var before, after := Tip(Run(s, evs), branch), Tip(Next(Run(s, evs), ev), branch);
      var base := Answer(s, evs, ev.w);
      && after == Run(s, evs).writers[ev.w].pc.commit && after.parent == base
      && (before in Lineage(after) <==>
            !WasBlind(s, evs, ev.w, branch) || after == before || (base.Some? && before in Lineage(base.value)))
  {
    hide Run, WasBlind, Unguarded, Answer;
    UnguardedIffBlind(s, evs, ev.w, branch);
    BuildsOnAnswer(s, evs, ev.w);
    if !WasBlind(s, evs, ev.w, branch) {
      SightedSwapKeepsTip(s, evs, ev, branch);
    }
  }

  // ---- What the files are, after every run ----

  ghost predicate AllFiles(edits: seq<Edit>) {
    forall e <- edits :: e.Files?
  }

  /** The changes of all the edits, in order. */
  function ChangesOf(edits: seq<Edit>): seq<FileChange> {
    if edits == [] then []
    else (match edits[0] case Files(cs) => cs case Patch(_, _) => []) + ChangesOf(edits[1..])
  }

  lemma {:induction false} ApplyConcat(t: Tree, a: seq<FileChange>, b: seq<FileChange>)
    ensures ApplyChanges(t, a + b) ==
      match ApplyChanges(t, a) case None => None case Some(t') => ApplyChanges(t', b)
    decreases |a|
  {
    hide ApplyChange;
    if a == [] {
      assert a + b == b;
    } else {
      assert (a + b)[1..] == a[1..] + b;
      if ApplyChange(t, a[0]).Some? {
        ApplyConcat(ApplyChange(t, a[0]).value, a[1..], b);
      }
    }
  }

  lemma {:induction false} FoldIsApply(t: Tree, edits: seq<Edit>)
    requires AllFiles(edits)
    ensures FoldEdits(t, edits) == ApplyChanges(t, ChangesOf(edits))
    decreases |edits|
  {
    if edits != [] {
      assert edits[0] in edits;
      ApplyConcat(t, edits[0].changes, ChangesOf(edits[1..]));
      if ApplyChanges(t, edits[0].changes).Some? {
        FoldIsApply(ApplyChanges(t, edits[0].changes).value, edits[1..]);
      }
    }
  }

  /** The edits of a run's successful writers, in the order of their swaps. */
  ghost function WinnersEdits(s: Sys, evs: seq<Event>, branch: string): seq<Edit> {
    AllWinsWon(s, evs, branch);
    EditsOf(Run(s, evs), Wins(s, evs, branch), branch)
  }

  /** The tip's files, whatever the interleaving: at each path the last change that names it among
      those of all the successful writers, in the order of their swaps, and else what was there first;
      provided no delete among them names a path that git takes for an option. */
  lemma TipHasLastChange(s: Sys, evs: seq<Event>, branch: string, p: string)
    requires BranchExists(s.repo, branch) && AllStarting(s) && NeverBlind(s, evs, branch)
    requires AllFiles(WinnersEdits(s, evs, branch))
    requires NoOptionDeletes(ChangesOf(WinnersEdits(s, evs, branch)))
    requires p in Tip(s, branch).tree ==> !Protected(p)
    ensures BranchExists(Run(s, evs).repo, branch)
    ensures
      var changes := ChangesOf(WinnersEdits(s, evs, branch));
      Lookup(Tip(Run(s, evs), branch).tree, p) ==
        if Touches(changes, p) then LastChange(changes, p) else Lookup(Tip(s, branch).tree, p)
  {
    hide Run, Wins, NeverBlind, EditsOf, ChangesOf, FoldEdits, Lineage, ApplyChanges, Protected, NoOptionDeletes,
      Touches, Lookup;
    Serialisability(s, evs, branch);
    var edits := WinnersEdits(s, evs, branch);
    FoldIsApply(Tip(s, branch).tree, edits);
    CommitLookup(Tip(s, branch).tree, ChangesOf(edits), p);
  }

  function OldTip(req: Request): Sha {
    Commit(map["kept" := "x"], None, "first", Identity("a", "b"), req.stamp + 1)
  }

  ghost function Before(req: Request): Sys {
    Sys(Repo(map[BranchRef(req.branch) := OldTip(req)], BranchRef(req.branch), _ => OldTip(req), _ => None), [])
  }

  /** A rev-parse that fails on an existing branch does lose the branch's history: the
      commit has no parent and the ref is overwritten. */
  lemma BlindWriterLosesHistory(req: Request)
    requires WellFormed(req) && req.edit.Files? && |req.edit.changes| == 1
    requires !req.edit.changes[0].delete && !Protected(req.edit.changes[0].path)
    ensures
      var s' := Run(Before(req), BlindSchedule(req));
      Won(s', 0, req.branch) && BranchExists(s'.repo, req.branch) && OldTip(req) !in Lineage(Tip(s', req.branch))
  {
    var evs := BlindSchedule(req);
    var r := Before(req).repo;
    var c := req.edit.changes[0];
    var index: Tree := map[c.path := c.content];
    var commit := NewCommit(req, None, index);
    BlindSteps(req);
    var s6 := Sys(r, [Writer(req, Ready(None, commit))]);
    assert Run(Before(req), evs) == Run(s6, [evs[6]]);
    assert [evs[6]][1..] == [];
    assert Run(s6, [evs[6]]) == Next(s6, evs[6]);
    assert Lineage(commit) == [commit];
  }

  /** Its first six steps: it arrives, finds the branch, fails to read the tip, starts from an
      empty index, adds its change, and writes a commit without parent. */
  lemma BlindSteps(req: Request)
    requires WellFormed(req) && req.edit.Files? && |req.edit.changes| == 1
    requires !req.edit.changes[0].delete && !Protected(req.edit.changes[0].path)
    ensures
      var c := req.edit.changes[0];
      var commit := NewCommit(req, None, map[c.path := c.content]);
      Run(Before(req), BlindSchedule(req))
        == Run(Sys(Before(req).repo, [Writer(req, Ready(None, commit))]), [BlindSchedule(req)[6]])
  {
    var evs := BlindSchedule(req);
    var r := Before(req).repo;
    var c := req.edit.changes[0];
    var index: Tree := map[c.path := c.content];
    BlindAt(Before(req), evs, 0, Sys(r, [Writer(req, Start)]));
    BlindAt(Sys(r, [Writer(req, Start)]), evs, 1, Sys(r, [Writer(req, Looked(true))]));
    BlindAt(Sys(r, [Writer(req, Looked(true))]), evs, 2, Sys(r, [Writer(req, Resolved(None, None))]));
    BlindAt(Sys(r, [Writer(req, Resolved(None, None))]), evs, 3, Sys(r, [Writer(req, Indexing(None, None, map[], 0))]));
    BlindAt(Sys(r, [Writer(req, Indexing(None, None, map[], 0))]), evs, 4,
            Sys(r, [Writer(req, Indexing(None, None, index, 1))]));
    BlindAt(Sys(r, [Writer(req, Indexing(None, None, index, 1))]), evs, 5,
            Sys(r, [Writer(req, Ready(None, NewCommit(req, None, index)))]));
    assert evs[0..] == evs && evs[6..] == [evs[6]];
  }

  lemma BlindAt(s: Sys, evs: seq<Event>, k: nat, next: Sys)
    requires k < |evs| && Next(s, evs[k]) == next
    ensures Run(s, evs[k..]) == Run(next, evs[k + 1..])
  {
    assert evs[k..][1..] == evs[k + 1..];
  }

  function BlindSchedule(req: Request): seq<Event> {
    [Arrive(req), Step(0, false), Step(0, true), Step(0, false), Step(0, false), Step(0, false), Step(0, false)]
  }

  // ---- One writer alone ----

  /** The schedule of a lone writer whose commands fail as `faults` says. */
  ghost function SoloTail(req: Request, k: nat, faults: set<Fault>): seq<Event>
    requires k <= EditSteps(req.edit)
    decreases EditSteps(req.edit) - k
  {
    if k < EditSteps(req.edit) then [Step(0, EditFault(req.edit, k, faults))] + SoloTail(req, k + 1, faults)
    else [Step(0, WriteTree in faults || CommitTree in faults), Step(0, UpdateRef in faults)]
  }

  ghost predicate EditFault(e: Edit, k: nat, faults: set<Fault>)
    requires k < EditSteps(e)
  {
    match e
    case Files(cs) => UpdateIndex(k) in faults || (HashObject(k) in faults && !cs[k].delete)
    case Patch(_, _) => Apply in faults
  }

  ghost function Solo(r: Repo, req: Request, faults: set<Fault>): seq<Event> {
    var seed := TempIndex in faults || TempDir in faults
                || (ParentUnder(r, req, faults).Some? && ReadTree in faults);
    [Arrive(req), Step(0, OpenFails in faults), Step(0, RevParseFails in faults), Step(0, seed)] + SoloTail(req, 0, faults)
  }

  lemma {:induction false} FailedStays(r: Repo, req: Request, evs: seq<Event>)
    requires forall ev <- evs :: ev.Step? && ev.w == 0
    ensures Run(Sys(r, [Writer(req, Failed)]), evs) == Sys(r, [Writer(req, Failed)])
  {
    if evs != [] {
      assert evs[0] in evs;
      assert Next(Sys(r, [Writer(req, Failed)]), evs[0]) == Sys(r, [Writer(req, Failed)]);
      FailedStays(r, req, evs[1..]);
    }
  }

  lemma {:induction false} SoloTailSteps(req: Request, k: nat, faults: set<Fault>)
    requires k <= EditSteps(req.edit)
    ensures forall ev <- SoloTail(req, k, faults) :: ev.Step? && ev.w == 0
    decreases EditSteps(req.edit) - k
  {
    if k < EditSteps(req.edit) {
      SoloTailSteps(req, k + 1, faults);
    }
  }

  ghost function EditFrom(t: Tree, e: Edit, k: nat): Option<Tree>
    requires k <= EditSteps(e)
  {
    match e
    case Files(cs) => ApplyChanges(t, cs[k..])
    case Patch(_, apply) => if k == 0 then apply(t) else Some(t)
  }

  ghost predicate LaterFault(e: Edit, k: nat, faults: set<Fault>) {
    exists i | k <= i < EditSteps(e) :: EditFault(e, i, faults)
  }

  /** From the seeded index on, the steps compute the edit and publish its commit. */
  lemma {:induction false} SoloIndexing(r: Repo, req: Request, parent: Option<Sha>, want: Option<Sha>,
                                        index: Tree, k: nat, faults: set<Fault>)
    requires k <= EditSteps(req.edit)
    requires SwapAllowed(r, req.branch, want)
    ensures
      var s' := Run(Sys(r, [Writer(req, Indexing(parent, want, index, k))]), SoloTail(req, k, faults));
      s'.repo ==
        if LaterFault(req.edit, k, faults) || WriteTree in faults || CommitTree in faults || UpdateRef in faults
           || EditFrom(index, req.edit, k).None?
        then r
        else MoveRef(r, BranchRef(req.branch), NewCommit(req, parent, EditFrom(index, req.edit, k).value))
    decreases EditSteps(req.edit) - k
  {
    hide ApplyChange, NewCommit, WellFormed, Found;
    var s := Sys(r, [Writer(req, Indexing(parent, want, index, k))]);
    var evs := SoloTail(req, k, faults);
    var s1 := Next(s, evs[0]);
    SoloTailSteps(req, k, faults);
    if k < EditSteps(req.edit) {
      assert evs[1..] == SoloTail(req, k + 1, faults);
      if req.edit.Files? {
        assert req.edit.changes[k..][1..] == req.edit.changes[k + 1..];
      }
      if EditFault(req.edit, k, faults) || EditStep(index, req.edit, k).None? {
        assert s1 == Sys(r, [Writer(req, Failed)]);
        FailedStays(r, req, evs[1..]);
      } else {
        var index' := EditStep(index, req.edit, k).value;
        assert s1 == Sys(r, [Writer(req, Indexing(parent, want, index', k + 1))]);
        SoloIndexing(r, req, parent, want, index', k + 1, faults);
      }
    } else {
      assert EditFrom(index, req.edit, k) == Some(index);
      if evs[0].fails {
        assert s1 == Sys(r, [Writer(req, Failed)]);
        FailedStays(r, req, evs[1..]);
      } else {
        assert s1 == Sys(r, [Writer(req, Ready(want, NewCommit(req, parent, index)))]);
        assert evs[1..][1..] == [];
        assert Run(s1, evs[1..]) == Next(s1, evs[1]);
      }
    }
  }

  /** The state a lone writer reaches after its first four steps. */
  ghost function SoloOpened(r: Repo, req: Request, faults: set<Fault>): Sys {
    if !WellFormed(req) || Solo(r, req, faults)[3].fails then Sys(r, [Writer(req, Failed)])
    else
      var found, parent := Found(r, req, faults), ParentUnder(r, req, faults);
      Sys(r, [Writer(req, Indexing(parent, if found then parent else None, TreeOf(parent), 0))])
  }

  lemma SoloOpening(r: Repo, req: Request, faults: set<Fault>)
    ensures Run(Sys(r, []), Solo(r, req, faults)) == Run(SoloOpened(r, req, faults), SoloTail(req, 0, faults))
  {
    hide SoloTail, ParentUnder;
    var evs := Solo(r, req, faults);
    var s1 := Sys(r, [Writer(req, Start)]);
    assert Next(Sys(r, []), evs[0]) == s1;
    assert Run(Sys(r, []), evs) == Run(s1, evs[1..]);
    var s2 := Next(s1, evs[1]);
    assert Run(s1, evs[1..]) == Run(s2, evs[2..]) by { assert evs[1..][1..] == evs[2..]; }
    var s3 := Next(s2, evs[2]);
    assert Run(s2, evs[2..]) == Run(s3, evs[3..]) by { assert evs[2..][1..] == evs[3..]; }
    var s4 := Next(s3, evs[3]);
    assert Run(s3, evs[3..]) == Run(s4, evs[4..]) by { assert evs[3..][1..] == evs[4..]; }
    assert evs[4..] == SoloTail(req, 0, faults);
    assert s4 == SoloOpened(r, req, faults) by {
      SoloResolves(r, req, faults);
    }
  }

  lemma SoloResolves(r: Repo, req: Request, faults: set<Fault>)
    ensures
      var evs := Solo(r, req, faults);
      Next(Next(Next(Sys(r, [Writer(req, Start)]), evs[1]), evs[2]), evs[3]) == SoloOpened(r, req, faults)
  {
    hide SoloTail;
    var evs := Solo(r, req, faults);
    var s2 := Next(Sys(r, [Writer(req, Start)]), evs[1]);
    if WellFormed(req) {
      var found, parent := Found(r, req, faults), ParentUnder(r, req, faults);
      assert s2 == Sys(r, [Writer(req, Looked(found))]);
      assert Next(s2, evs[2]) == Sys(r, [Writer(req, Resolved(parent, if found then parent else None))]);
    } else {
      assert s2 == Sys(r, [Writer(req, Failed)]);
      assert Next(s2, evs[2]) == s2;
    }
  }

  /** Run alone, the interleaved steps are exactly the store's CommitFiles / ApplyPatchCommit. */
  lemma SoloRunIsAttempt(r: Repo, req: Request, faults: set<Fault>)
    ensures Run(Sys(r, []), Solo(r, req, faults)).repo == AfterWrite(r, req, faults)
  {
    var tail := SoloTail(req, 0, faults);
    SoloOpening(r, req, faults);
    SoloTailSteps(req, 0, faults);
    hide Run, Next, SoloTail;
    if SoloOpened(r, req, faults) == Sys(r, [Writer(req, Failed)]) {
      FailedStays(r, req, tail);
    } else {
      var found, parent := Found(r, req, faults), ParentUnder(r, req, faults);
      if found {
        FirstCandidate(r, req.branch);
      }
      SoloIndexing(r, req, parent, if found then parent else None, TreeOf(parent), 0, faults);
      FaultsAgree(req.edit, faults);
      EditFromStart(TreeOf(parent), req.edit);
    }
  }

  lemma EditFromStart(t: Tree, e: Edit)
    ensures EditFrom(t, e, 0) == ApplyEdit(t, e)
  {
    if e.Files? {
      assert e.changes[0..] == e.changes;
    }
  }

  lemma FaultsAgree(e: Edit, faults: set<Fault>)
    ensures LaterFault(e, 0, faults) <==>
      match e case Patch(_, _) => Apply in faults case Files(cs) => ChangeFault(cs, 0, faults)
  {
    match e
    case Patch(_, _) =>
      if Apply in faults {
        assert EditFault(e, 0, faults);
      }
    case Files(cs) =>
      if ChangeFault(cs, 0, faults) {
        var i :| 0 <= i < |cs| && (UpdateIndex(i) in faults || (HashObject(i) in faults && !cs[i].delete));
        assert EditFault(e, i, faults);
      }
      if LaterFault(e, 0, faults) {
        var i :| 0 <= i < EditSteps(e) && EditFault(e, i, faults);
        assert UpdateIndex(i) in faults || HashObject(i) in faults;
      }
  }
}
