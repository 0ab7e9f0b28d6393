/**
 The scan worker of internal/scan/worker.go beside any number of Enqueue calls.

 Enqueue is cut into its duplicate check, its insert and its wake; the worker into
 poll, mark running, finish, park and wake. A schedule is a list of events; each event
 also says whether its database statement succeeds. At any point the process may die and
 start again: only the table survives. The next state is a function of the event, so a
 statement about every schedule is about every interleaving.
 */
module ScanRuns {
  import opened Wrappers
  import opened GitStore
  import opened ScanQueue

  datatype CallPc = Checking | Inserting | Waking | Returned

  datatype Call = Call(pull: int, repo: int, sha: Sha, pc: CallPc)

  /** `pollFailed` tells apart the two ways a drain ends. */
  datatype WorkerPc =
    | Polling
    | Picked(id: nat)
    | Working(id: nat)
    | Parked(pollFailed: bool)
    | Stopped

  datatype Sys = Sys(jobs: seq<Job>, wake: bool, calls: seq<Call>, worker: WorkerPc)

  datatype Event =
    | Arrive(pull: int, repo: int, sha: Sha)
    | CallStep(c: nat, ok: bool)
    | Poll(ok: bool)
    | MarkRunning(ok: bool)
    | Finish(verdict: Verdict, empty: bool, ok: bool)
    | TakeWake
    | Tick
    | Cancel
    | Restart

  function SetStatus(jobs: seq<Job>, id: nat, status: Status): seq<Job> {
    if id < |jobs| then jobs[id := jobs[id].(status := status)] else jobs
  }

  /** A failed count reads as zero; a failed insert ends the call without a wake. */
  function StepCall(s: Sys, c: nat, ok: bool): Sys
    requires c < |s.calls|
  {
    var call := s.calls[c];
    match call.pc
    case Checking =>
      var pc := if ok && HasActive(s.jobs, call.pull, call.sha) then Returned else Inserting;
      s.(calls := s.calls[c := call.(pc := pc)])
    case Inserting =>
      if ok then
        s.(jobs := s.jobs + [Job(call.pull, call.repo, call.sha, Queued)], calls := s.calls[c := call.(pc := Waking)])
      else s.(calls := s.calls[c := call.(pc := Returned)])
    case Waking => s.(wake := true, calls := s.calls[c := call.(pc := Returned)])
    case Returned => s
  }

  function Next(s: Sys, ev: Event): Sys {
    match ev
    case Arrive(pull, repo, sha) => s.(calls := s.calls + [Call(pull, repo, sha, Checking)])
    case CallStep(c, ok) => if c < |s.calls| then StepCall(s, c, ok) else s
    case Poll(ok) =>
      if !s.worker.Polling? then s
      else if !ok then s.(worker := Parked(true))
      else
        var k := FirstQueued(s.jobs);
        s.(worker := if k < |s.jobs| then Picked(k) else Parked(false))
    case MarkRunning(ok) =>
      if !s.worker.Picked? then s
      else s.(jobs := if ok then SetStatus(s.jobs, s.worker.id, Running) else s.jobs, worker := Working(s.worker.id))
    case Finish(v, empty, ok) =>
      if !s.worker.Working? then s
      else s.(jobs := if ok then SetStatus(s.jobs, s.worker.id, FinalStatus(v, empty)) else s.jobs, worker := Polling)
    case TakeWake => if s.worker.Parked? && s.wake then s.(wake := false, worker := Polling) else s
    case Tick => if s.worker.Parked? then s.(worker := Polling) else s
    case Cancel => if s.worker.Parked? then s.(worker := Stopped) else s
    case Restart => s.(wake := false, calls := [], worker := Polling)
  }

  function Run(s: Sys, evs: seq<Event>): Sys
    decreases |evs|
  {
    if evs == [] then s else Run(Next(s, evs[0]), evs[1..])
  }

  /** What a starting process finds: some job table, and a worker about to drain it. */
  predicate Initial(s: Sys) {
    s.worker.Polling? && !s.wake && s.calls == []
  }

  // ---- No lost wakeup ----

  predicate SomeQueued(jobs: seq<Job>) {
    exists j <- jobs :: j.status.Queued?
  }

  predicate SomeWaking(calls: seq<Call>) {
    exists c <- calls :: c.pc.Waking?
  }

  ghost predicate NoLostWakeup(s: Sys) {
    s.worker.Parked? && !s.worker.pollFailed && SomeQueued(s.jobs) ==> s.wake || SomeWaking(s.calls)
  }

  lemma StepKeepsWakeup(s: Sys, ev: Event)
    requires NoLostWakeup(s)
    ensures NoLostWakeup(Next(s, ev))
  {
    var s' := Next(s, ev);
    match ev
    case Arrive(pull, repo, sha) =>
      assert forall c <- s.calls :: c in s'.calls;
    case CallStep(c, ok) =>
      if c < |s.calls| {
        if s.calls[c].pc.Inserting? && ok {
          assert s'.calls[c].pc.Waking? && s'.calls[c] in s'.calls;
        } else {
          forall w | w in s.calls && w.pc.Waking? ensures w in s'.calls || s'.wake {
            var i :| 0 <= i < |s.calls| && s.calls[i] == w;
            if i != c {
              assert s'.calls[i] == w;
            }
          }
        }
      }
    case Poll(ok) =>
      if s.worker.Polling? && ok && s'.worker.Parked? {
        forall j | j in s'.jobs ensures !j.status.Queued? {}
      }
    case _ =>
  }

  /** In every interleaving, with any statements failing: a worker parked after a clean
      drain while a job is queued has a full wake slot, or some enqueuer is between its
      insert and its wake. */
  lemma {:induction false} WakeupInvariant(s: Sys, evs: seq<Event>)
    requires NoLostWakeup(s)
    ensures NoLostWakeup(Run(s, evs))
    decreases |evs|
  {
    if evs != [] {
      StepKeepsWakeup(s, evs[0]);
      WakeupInvariant(Next(s, evs[0]), evs[1..]);
    }
  }

  lemma EveryRunKeepsWakeup(s: Sys, evs: seq<Event>)
    requires Initial(s)
    ensures NoLostWakeup(Run(s, evs))
  {
    WakeupInvariant(s, evs);
  }

  /** So no queued job waits for the 30-second tick unless the poll itself failed: at most
      one enqueuer step and the wake bring the worker back to polling. */
  lemma WakeWithoutTick(s: Sys, evs: seq<Event>)
    requires Initial(s)
    requires Run(s, evs).worker == Parked(false) && SomeQueued(Run(s, evs).jobs)
    ensures Run(Run(s, evs), [TakeWake]).worker.Polling?
      || exists c: nat :: c < |Run(s, evs).calls| && Run(Run(s, evs), [CallStep(c, true), TakeWake]).worker.Polling?
  {
    EveryRunKeepsWakeup(s, evs);
    var t := Run(s, evs);
    assert [TakeWake][1..] == [];
    assert Run(t, [TakeWake]) == Next(t, TakeWake);
    if !t.wake {
      var w :| w in t.calls && w.pc.Waking?;
      var c: nat :| c < |t.calls| && t.calls[c] == w;
      var two := [CallStep(c, true), TakeWake];
      assert two[1..] == [TakeWake];
      var t1 := Next(t, two[0]);
      assert Run(t, two) == Run(t1, [TakeWake]);
      assert Run(t1, [TakeWake]) == Next(t1, TakeWake);
      assert Run(t, [CallStep(c, true), TakeWake]).worker.Polling?;
    }
  }

  /** And when the poll has failed, or a wake was lost to a restart, the tick brings the worker back:
      it polls again, takes the first queued job and starts it. */
  lemma TickRecovers(s: Sys, k: nat)
    requires s.worker.Parked? && k < |s.jobs| && s.jobs[k].status.Queued?
    requires forall i: nat | i < k :: !s.jobs[i].status.Queued?
    ensures Run(s, [Tick, Poll(true)]) == s.(worker := Picked(k))
    ensures Run(s, [Tick, Poll(false)]) == s.(worker := Parked(true))
    ensures Run(s, [Tick, Poll(true), MarkRunning(true)]) ==
      s.(worker := Working(k), jobs := s.jobs[k := s.jobs[k].(status := Running)])
  {
    var polling, picked := s.(worker := Polling), s.(worker := Picked(k));
    TickStep(s);
    PollStep(polling, k);
    MarkStep(picked);
    hide Next, Run;
    RunTwo(s, Tick, Poll(true));
    RunTwo(s, Tick, Poll(false));
    RunConcat(s, [Tick, Poll(true)], [MarkRunning(true)]);
    assert [Tick, Poll(true)] + [MarkRunning(true)] == [Tick, Poll(true), MarkRunning(true)];
    RunOne(picked, MarkRunning(true));
  }

  lemma RunTwo(s: Sys, ev: Event, ev2: Event)
    ensures Run(s, [ev, ev2]) == Next(Next(s, ev), ev2)
  {
    hide Next, Run;
    assert [ev] + [ev2] == [ev, ev2];
    RunConcat(s, [ev], [ev2]);
    RunOne(s, ev);
    RunOne(Next(s, ev), ev2);
  }

  lemma TickStep(s: Sys)
    requires s.worker.Parked?
    ensures Next(s, Tick) == s.(worker := Polling)
  {}

  lemma PollStep(s: Sys, k: nat)
    requires s.worker.Polling? && k < |s.jobs| && s.jobs[k].status.Queued?
    requires forall i: nat | i < k :: !s.jobs[i].status.Queued?
    ensures Next(s, Poll(true)) == s.(worker := Picked(k))
    ensures Next(s, Poll(false)) == s.(worker := Parked(true))
  {
    assert FirstQueued(s.jobs) == k;
  }

  lemma MarkStep(s: Sys)
    requires s.worker.Picked? && s.worker.id < |s.jobs|
    ensures Next(s, MarkRunning(true)) ==
      var k := s.worker.id;
      s.(worker := Working(k), jobs := s.jobs[k := s.jobs[k].(status := Running)])
  {}

  /** A cancelled worker starts nothing any more, until the process does. */
  lemma CancelStops(s: Sys, evs: seq<Event>)
    requires s.worker.Parked? && forall ev <- evs :: !ev.Restart?
    ensures Started(Next(s, Cancel), evs) == [] && Run(Next(s, Cancel), evs).worker == Stopped
  {
    StoppedRun(Next(s, Cancel), evs);
  }

  lemma {:induction false} StoppedRun(s: Sys, evs: seq<Event>)
    requires s.worker == Stopped && forall ev <- evs :: !ev.Restart?
    ensures Started(s, evs) == [] && Run(s, evs).worker == Stopped
    decreases |evs|
  {
    if evs != [] {
      assert Next(s, evs[0]).worker == Stopped;
      StoppedRun(Next(s, evs[0]), evs[1..]);
    }
  }

  /** A call whose insert fails ends there: no job, no wake, and no further step of it does anything. */
  lemma FailedInsertEndsCall(s: Sys, c: nat, ok: bool)
    requires c < |s.calls| && s.calls[c].pc.Inserting?
    ensures
      var s' := Next(s, CallStep(c, false));
      s' == s.(calls := s.calls[c := s.calls[c].(pc := Returned)]) && Next(s', CallStep(c, ok)) == s'
  {}

  // ---- Queue discipline ----

  /** The rows below `p` have left `queued`, the row in hand aside; the others are queued. The
      worker's next job is row `p`, the one in hand row `p - 1`. */
  ghost predicate Shape(s: Sys, p: nat) {
    && p <= |s.jobs|
    && (forall i: nat | p <= i < |s.jobs| :: s.jobs[i].status.Queued?)
    && (forall i: nat | i < p && s.worker != Working(i) :: !s.jobs[i].status.Queued?)
    && (s.worker.Picked? ==> s.worker.id == p && p < |s.jobs|)
    && (s.worker.Working? ==> s.worker.id == p - 1 && (s.jobs[p - 1].status.Queued? || s.jobs[p - 1].status.Running?))
  }

  /** The event starts processing a job. */
  predicate Starts(s: Sys, ev: Event) {
    ev.MarkRunning? && s.worker.Picked?
  }

  /** The jobs whose processing starts during a run, in order. */
  function Started(s: Sys, evs: seq<Event>): seq<nat>
    decreases |evs|
  {
    if evs == [] then []
    else
      var rest := Started(Next(s, evs[0]), evs[1..]);
      if Starts(s, evs[0]) then [s.worker.id] + rest else rest
  }

  /** The worker drops its job unfinished: the last update fails, or the process dies. */
  predicate Abandons(s: Sys, ev: Event) {
    s.worker.Working? && s.worker.id < |s.jobs| && (ev.Restart? || (ev.Finish? && !ev.ok))
  }

  /** It had failed to mark the row, too: the job is back in the queue. */
  predicate Requeues(s: Sys, ev: Event) {
    Abandons(s, ev) && s.jobs[s.worker.id].status.Queued?
  }

  /** The row was marked running: it stays so, with nobody working on it. */
  predicate Sticks(s: Sys, ev: Event) {
    Abandons(s, ev) && s.jobs[s.worker.id].status.Running?
  }

  function Front(s: Sys, ev: Event, p: nat): int {
    if Starts(s, ev) then p + 1 else if Requeues(s, ev) then p - 1 else p
  }

  lemma FirstQueuedIs(jobs: seq<Job>, p: nat)
    requires p <= |jobs|
    requires forall i: nat | i < p :: !jobs[i].status.Queued?
    requires forall i: nat | p <= i < |jobs| :: jobs[i].status.Queued?
    ensures FirstQueued(jobs) == p
  {
    assert p < |jobs| ==> jobs[p].status.Queued?;
    assert FirstQueued(jobs) < |jobs| ==> jobs[FirstQueued(jobs)].status.Queued?;
  }

  lemma CallStepKeepsShape(s: Sys, c: nat, ok: bool, p: nat)
    requires c < |s.calls| && Shape(s, p)
    ensures Shape(StepCall(s, c, ok), p)
  {
    hide HasActive;
  }

  lemma StepKeepsShape(s: Sys, ev: Event, p: nat)
    requires Shape(s, p)
    ensures 0 <= Front(s, ev, p) && Shape(Next(s, ev), Front(s, ev, p))
    ensures Starts(s, ev) ==> s.worker.id == p
  {
    hide FirstQueued, HasActive, StepCall;
    if ev.CallStep? && ev.c < |s.calls| {
      CallStepKeepsShape(s, ev.c, ev.ok, p);
    } else if ev.Poll? && s.worker.Polling? && ev.ok {
      FirstQueuedIs(s.jobs, p);
    }
  }

  /** Where the queue's front stands after a run. */
  ghost function FrontAfter(s: Sys, evs: seq<Event>, p: nat): nat
    requires Shape(s, p)
    decreases |evs|
  {
    if evs == [] then p
    else
      StepKeepsShape(s, evs[0], p);
      FrontAfter(Next(s, evs[0]), evs[1..], Front(s, evs[0], p))
  }

  lemma {:induction false} RunKeepsShape(s: Sys, evs: seq<Event>, p: nat)
    requires Shape(s, p)
    ensures Shape(Run(s, evs), FrontAfter(s, evs, p))
    decreases |evs|
  {
    hide Shape, Next, Front;
    if evs != [] {
      StepKeepsShape(s, evs[0], p);
      RunKeepsShape(Next(s, evs[0]), evs[1..], Front(s, evs[0], p));
    }
  }

  // ---- The order of starts ----

  /** Each element is the one before it, or the next number. */
  ghost predicate Steady(ids: seq<nat>) {
    forall i: nat | i + 1 < |ids| :: ids[i] <= ids[i + 1] <= ids[i] + 1
  }

  /** In every run, with anything failing: no start skips a job or goes back beyond the last one. */
  lemma {:induction false} StartsSteady(s: Sys, evs: seq<Event>, p: nat)
    requires Shape(s, p)
    ensures Steady(Started(s, evs))
    ensures Started(s, evs) != [] ==>
      Started(s, evs)[0] == p || (s.worker.Working? && Started(s, evs)[0] == p - 1)
    decreases |evs|
  {
    hide Shape;
    if evs != [] {
      StepKeepsShape(s, evs[0], p);
      StartsSteady(Next(s, evs[0]), evs[1..], Front(s, evs[0], p));
    }
  }

  function Iota(from: nat, n: nat): seq<nat> {
    seq(n, i requires 0 <= i < n => from + i)
  }

  /** A job goes back to the queue, and a job is started after that. */
  predicate Restarts(s: Sys, evs: seq<Event>)
    decreases |evs|
  {
    evs != [] && ((Requeues(s, evs[0]) && Started(Next(s, evs[0]), evs[1..]) != []) || Restarts(Next(s, evs[0]), evs[1..]))
  }

  lemma {:induction false} RestartsStart(s: Sys, evs: seq<Event>)
    ensures Restarts(s, evs) ==> Started(s, evs) != []
    decreases |evs|
  {
    hide Next, Starts, Requeues;
    if evs != [] {
      RestartsStart(Next(s, evs[0]), evs[1..]);
    }
  }

  lemma AbandonFrees(s: Sys, ev: Event)
    requires Abandons(s, ev)
    ensures Next(s, ev).worker.Polling? && !Starts(s, ev)
  {}

  /** The starts of a run are consecutive exactly when no requeue is followed by a start. */
  lemma {:induction false} ConsecutiveIff(s: Sys, evs: seq<Event>, p: nat)
    requires Shape(s, p)
    ensures Started(s, evs) == Iota(p, |Started(s, evs)|) <==> !Restarts(s, evs)
    decreases |evs|
  {
    hide Shape, Next, Starts, Abandons;
    if evs != [] {
      var s1, rest, q := Next(s, evs[0]), evs[1..], Front(s, evs[0], p);
      StepKeepsShape(s, evs[0], p);
      ConsecutiveIff(s1, rest, q);
      StartsSteady(s1, rest, q);
      RestartsStart(s1, rest);
      if Abandons(s, evs[0]) {
        AbandonFrees(s, evs[0]);
      }
      var n := |Started(s1, rest)|;
      if Starts(s, evs[0]) {
        assert [p] + Iota(p + 1, n) == Iota(p, n + 1);
        assert Started(s, evs) == [p] + Started(s1, rest);
        assert Started(s, evs)[1..] == Started(s1, rest) && Iota(p, n + 1)[1..] == Iota(p + 1, n);
      } else if Requeues(s, evs[0]) && n > 0 {
        assert Iota(p, n)[0] == p && Started(s1, rest)[0] == p - 1;
      }
    }
  }

  ghost predicate NoRepeat(ids: seq<nat>) {
    forall i: nat, j: nat | i < j < |ids| :: ids[i] != ids[j]
  }

  lemma {:induction false} SteadyNoRepeat(ids: seq<nat>, p: nat)
    requires Steady(ids) && (ids != [] ==> ids[0] == p)
    ensures NoRepeat(ids) <==> ids == Iota(p, |ids|)
  {
    if NoRepeat(ids) && ids != [] {
      forall k: nat | k + 1 < |ids| ensures ids[1..][k] == ids[k + 1] {}
      if |ids| > 1 {
        assert ids[0] != ids[1];
      }
      SteadyNoRepeat(ids[1..], p + 1);
      assert ids == [p] + ids[1..] && [p] + Iota(p + 1, |ids| - 1) == Iota(p, |ids|);
    }
  }

  // ---- At most one running ----

  predicate OneRunning(jobs: seq<Job>) {
    forall i: nat, j: nat | i < |jobs| && j < |jobs| && jobs[i].status.Running? && jobs[j].status.Running? :: i == j
  }

  /** Throughout the run. */
  predicate OneRunningAlong(s: Sys, evs: seq<Event>)
    decreases |evs|
  {
    OneRunning(s.jobs) && (evs != [] ==> OneRunningAlong(Next(s, evs[0]), evs[1..]))
  }

  /** Only the job in hand is marked running. */
  ghost predicate Clean(s: Sys) {
    forall i: nat | i < |s.jobs| && s.jobs[i].status.Running? :: s.worker == Working(i)
  }

  /** Row `k` is marked running with nobody working on it. */
  predicate Stuck(s: Sys, k: nat) {
    k < |s.jobs| && s.jobs[k].status.Running? && s.worker != Working(k)
  }

  predicate Marks(s: Sys, ev: Event) {
    Starts(s, ev) && ev.ok
  }

  predicate SomeMark(s: Sys, evs: seq<Event>)
    decreases |evs|
  {
    evs != [] && (Marks(s, evs[0]) || SomeMark(Next(s, evs[0]), evs[1..]))
  }

  predicate StuckThenMarked(s: Sys, evs: seq<Event>)
    decreases |evs|
  {
    evs != [] && ((Sticks(s, evs[0]) && SomeMark(Next(s, evs[0]), evs[1..])) || StuckThenMarked(Next(s, evs[0]), evs[1..]))
  }

  lemma CleanStep(s: Sys, ev: Event, p: nat)
    requires Shape(s, p) && Clean(s)
    ensures !Sticks(s, ev) ==> Clean(Next(s, ev))
    ensures Sticks(s, ev) ==> Stuck(Next(s, ev), p - 1) && OneRunning(Next(s, ev).jobs)
  {
    hide FirstQueued;
  }

  lemma StuckStep(s: Sys, ev: Event, p: nat, k: nat)
    requires Shape(s, p) && Stuck(s, k)
    ensures Stuck(Next(s, ev), k) && Next(s, ev).jobs[k] == s.jobs[k]
    ensures OneRunning(s.jobs) ==> (OneRunning(Next(s, ev).jobs) <==> !Marks(s, ev))
  {
    hide FirstQueued;
    if Marks(s, ev) {
      assert Next(s, ev).jobs[p].status.Running?;
    }
  }

  lemma {:induction false} StuckRun(s: Sys, evs: seq<Event>, p: nat, k: nat)
    requires Shape(s, p) && Stuck(s, k) && OneRunning(s.jobs)
    ensures OneRunningAlong(s, evs) <==> !SomeMark(s, evs)
    decreases |evs|
  {
    hide Shape, Stuck, OneRunning, Marks;
    if evs != [] {
      StepKeepsShape(s, evs[0], p);
      StuckStep(s, evs[0], p, k);
      var s1 := Next(s, evs[0]);
      hide Next;
      if Marks(s, evs[0]) {
        assert !OneRunningAlong(s1, evs[1..]);
      } else {
        StuckRun(s1, evs[1..], Front(s, evs[0], p), k);
      }
    }
  }

  /** At every moment of a run at most one job is running, exactly when no row is left running by a
      failed update before another is marked. */
  lemma {:induction false} OneRunningIff(s: Sys, evs: seq<Event>, p: nat)
    requires Shape(s, p) && Clean(s)
    ensures OneRunningAlong(s, evs) <==> !StuckThenMarked(s, evs)
    decreases |evs|
  {
    assert OneRunning(s.jobs);
    hide Shape, Clean, OneRunning, Stuck;
    if evs != [] {
      StepKeepsShape(s, evs[0], p);
      CleanStep(s, evs[0], p);
      var s1 := Next(s, evs[0]);
      hide Next;
      if Sticks(s, evs[0]) {
        StuckRun(s1, evs[1..], Front(s, evs[0], p), p - 1);
        StuckThenMarkedMarks(s1, evs[1..]);
      } else {
        OneRunningIff(s1, evs[1..], Front(s, evs[0], p));
      }
    }
  }

  lemma {:induction false} StuckThenMarkedMarks(s: Sys, evs: seq<Event>)
    ensures StuckThenMarked(s, evs) ==> SomeMark(s, evs)
    decreases |evs|
  {
    hide Next, Sticks, Marks;
    if evs != [] {
      StuckThenMarkedMarks(Next(s, evs[0]), evs[1..]);
    }
  }

  /** A failed update, and the next job's mark: two rows are running. */
  lemma TwoRunning(a: Job, b: Job)
    requires a.status.Queued? && b.status.Queued?
    ensures
      var evs := [Poll(true), MarkRunning(true), Finish(NotEnabled, true, false), Poll(true), MarkRunning(true)];
      !OneRunning(Run(Sys([a, b], false, [], Polling), evs).jobs)
  {
    var evs := [Poll(true), MarkRunning(true), Finish(NotEnabled, true, false), Poll(true), MarkRunning(true)];
    var a', b' := a.(status := Running), b.(status := Running);
    var s := Sys([a, b], false, [], Polling);
    FirstQueuedIs([a, b], 0);
    FirstQueuedIs([a', b], 1);
    StepTo(s, evs, 0, Sys([a, b], false, [], Picked(0)));
    StepTo(Sys([a, b], false, [], Picked(0)), evs, 1, Sys([a', b], false, [], Working(0)));
    StepTo(Sys([a', b], false, [], Working(0)), evs, 2, Sys([a', b], false, [], Polling));
    StepTo(Sys([a', b], false, [], Polling), evs, 3, Sys([a', b], false, [], Picked(1)));
    StepTo(Sys([a', b], false, [], Picked(1)), evs, 4, Sys([a', b'], false, [], Working(1)));
    assert evs[0..] == evs && evs[5..] == [];
    assert Run(s, evs).jobs == [a', b'];
    assert [a', b'][0].status.Running? && [a', b'][1].status.Running?;
  }

  lemma StepTo(s: Sys, evs: seq<Event>, k: nat, next: Sys)
    requires k < |evs| && Next(s, evs[k]) == next
    ensures Run(s, evs[k..]) == Run(next, evs[k + 1..])
  {
    assert evs[k..][1..] == evs[k + 1..];
  }

  // ---- Started jobs finish ----

  ghost predicate AllFinished(s: Sys, p: nat) {
    forall i: nat | i < p && i < |s.jobs| && s.worker != Working(i) :: Finished(s.jobs[i])
  }

  predicate SomeStick(s: Sys, evs: seq<Event>)
    decreases |evs|
  {
    evs != [] && (Sticks(s, evs[0]) || SomeStick(Next(s, evs[0]), evs[1..]))
  }

  /** A stuck row is stuck for ever. */
  lemma {:induction false} StuckForEver(s: Sys, evs: seq<Event>, p: nat, k: nat)
    requires Shape(s, p) && Stuck(s, k)
    ensures Stuck(Run(s, evs), k) && Run(s, evs).jobs[k] == s.jobs[k]
    decreases |evs|
  {
    hide Shape, Next;
    if evs != [] {
      StepKeepsShape(s, evs[0], p);
      StuckStep(s, evs[0], p, k);
      StuckForEver(Next(s, evs[0]), evs[1..], Front(s, evs[0], p), k);
    }
  }

  /** So its pull and commit can never be queued again: no uninterrupted Enqueue adds a job, and a
      call whose check succeeds returns at once, in every later state. */
  lemma StuckBlocksEnqueue(s: Sys, evs: seq<Event>, p: nat, k: nat, repo: int, c: nat)
    requires Shape(s, p) && Stuck(s, k)
    requires c < |Run(s, evs).calls| && Run(s, evs).calls[c] == Call(s.jobs[k].pull, repo, s.jobs[k].sha, Checking)
    ensures Enqueued(Run(s, evs).jobs, s.jobs[k].pull, repo, s.jobs[k].sha) == Run(s, evs).jobs
    ensures Next(Run(s, evs), CallStep(c, true)).jobs == Run(s, evs).jobs
    ensures Next(Run(s, evs), CallStep(c, true)).calls[c].pc.Returned?
  {
    StuckForEver(s, evs, p, k);
    var t := Run(s, evs);
    assert t.jobs[k] in t.jobs && Active(t.jobs[k], s.jobs[k].pull, s.jobs[k].sha);
  }

  lemma FinishedStep(s: Sys, ev: Event, p: nat)
    requires Shape(s, p) && AllFinished(s, p) && 0 <= Front(s, ev, p)
    ensures !Sticks(s, ev) ==> AllFinished(Next(s, ev), Front(s, ev, p))
    ensures Sticks(s, ev) ==> Stuck(Next(s, ev), p - 1)
  {
    hide FirstQueued;
  }

  /** Every job that has left the queue has ended in done or error, but for the one in hand, exactly
      when no row marked running was abandoned. */
  lemma {:induction false} FinishedIff(s: Sys, evs: seq<Event>, p: nat)
    requires Shape(s, p) && AllFinished(s, p)
    ensures AllFinished(Run(s, evs), FrontAfter(s, evs, p)) <==> !SomeStick(s, evs)
    decreases |evs|
  {
    if evs != [] {
      var s1, rest := Next(s, evs[0]), evs[1..];
      StepKeepsShape(s, evs[0], p);
      FinishedStep(s, evs[0], p);
      var q := Front(s, evs[0], p);
      if Sticks(s, evs[0]) {
        StuckForEver(s1, rest, q, p - 1);
        RunKeepsShape(s1, rest, q);
        StuckUnfinished(Run(s1, rest), FrontAfter(s1, rest, q), p - 1);
      } else {
        FinishedIff(s1, rest, q);
      }
    }
  }

  lemma StuckUnfinished(s: Sys, p: nat, k: nat)
    requires Shape(s, p) && Stuck(s, k)
    ensures !AllFinished(s, p)
  {
    assert k < p;
  }

  lemma UnfinishedIsStuck(s: Sys, p: nat) returns (k: nat)
    requires Shape(s, p) && !s.worker.Working? && !AllFinished(s, p)
    ensures Stuck(s, k)
  {
    k :| k < p && k < |s.jobs| && !Finished(s.jobs[k]);
    assert !s.jobs[k].status.Queued?;
  }

  /** From any table whose queued rows are the last ones, over every run, with any statement failing,
      any interleaving and any restarts:
      the rows that have left `queued` stay a prefix in id order (the one in hand aside), so the next
      process finds such a table again;
      starts follow id order and never skip; no job is started twice iff no requeue is followed by a
      start; at most one row is ever marked running iff at most one was at first and none is stuck
      before another is marked; and every job out of the queue and not in hand has ended in done or
      error iff those had at first and none is stuck in the run. */
  lemma QueueDiscipline(s: Sys, evs: seq<Event>, p: nat)
    requires Initial(s) && Shape(s, p)
    ensures Shape(Run(s, evs), FrontAfter(s, evs, p))
    ensures Steady(Started(s, evs)) && (Started(s, evs) != [] ==> Started(s, evs)[0] == p)
    ensures Started(s, evs) == Iota(p, |Started(s, evs)|) <==> !Restarts(s, evs)
    ensures NoRepeat(Started(s, evs)) <==> !Restarts(s, evs)
    ensures OneRunningAlong(s, evs) <==>
      OneRunning(s.jobs) && !StuckThenMarked(s, evs) && (Clean(s) || !SomeMark(s, evs))
    ensures AllFinished(Run(s, evs), FrontAfter(s, evs, p)) <==> AllFinished(s, p) && !SomeStick(s, evs)
  {
    hide Shape, Steady, NoRepeat, Next;
    RunKeepsShape(s, evs, p);
    StartsSteady(s, evs, p);
    ConsecutiveIff(s, evs, p);
    SteadyNoRepeat(Started(s, evs), p);
    RunningFromTable(s, evs, p);
    FinishedFromTable(s, evs, p);
  }

  lemma RunningFromTable(s: Sys, evs: seq<Event>, p: nat)
    requires Initial(s) && Shape(s, p)
    ensures OneRunningAlong(s, evs) <==>
      OneRunning(s.jobs) && !StuckThenMarked(s, evs) && (Clean(s) || !SomeMark(s, evs))
  {
    hide Shape, Next;
    if Clean(s) {
      OneRunningIff(s, evs, p);
    } else if OneRunning(s.jobs) {
      var k: nat :| k < |s.jobs| && s.jobs[k].status.Running? && s.worker != Working(k);
      StuckRun(s, evs, p, k);
      StuckThenMarkedMarks(s, evs);
    }
  }

  lemma FinishedFromTable(s: Sys, evs: seq<Event>, p: nat)
    requires Initial(s) && Shape(s, p)
    ensures AllFinished(Run(s, evs), FrontAfter(s, evs, p)) <==> AllFinished(s, p) && !SomeStick(s, evs)
  {
    hide Next;
    if AllFinished(s, p) {
      FinishedIff(s, evs, p);
    } else {
      var k := UnfinishedIsStuck(s, p);
      StuckForEver(s, evs, p, k);
      RunKeepsShape(s, evs, p);
      StuckUnfinished(Run(s, evs), FrontAfter(s, evs, p), k);
    }
  }

  // ---- One processing ----

  lemma {:induction false} PickedStays(s: Sys, evs: seq<Event>, p: nat)
    requires Shape(s, p) && s.worker == Picked(p)
    requires forall ev <- evs :: !ev.MarkRunning? && !ev.Restart?
    ensures Shape(Run(s, evs), p) && Run(s, evs).worker == Picked(p)
    decreases |evs|
  {
    hide Shape;
    if evs != [] {
      assert evs[0] in evs;
      StepKeepsShape(s, evs[0], p);
      PickedStays(Next(s, evs[0]), evs[1..], p);
    }
  }

  lemma {:induction false} WorkingStays(s: Sys, evs: seq<Event>, k: nat)
    requires k < |s.jobs| && s.worker == Working(k)
    requires forall ev <- evs :: !ev.Finish? && !ev.Restart?
    ensures k < |Run(s, evs).jobs| && Run(s, evs).jobs[k] == s.jobs[k] && Run(s, evs).worker == Working(k)
    decreases |evs|
  {
    if evs != [] {
      assert evs[0] in evs;
      WorkingStays(Next(s, evs[0]), evs[1..], k);
    }
  }

  lemma {:induction false} RunConcat(s: Sys, a: seq<Event>, b: seq<Event>)
    ensures Run(s, a + b) == Run(Run(s, a), b)
    decreases |a|
  {
    hide Next;
    if a == [] {
      assert a + b == b;
    } else {
      assert (a + b)[1..] == a[1..] + b;
      RunConcat(Next(s, a[0]), a[1..], b);
    }
  }

  lemma RunOne(s: Sys, ev: Event)
    ensures Run(s, [ev]) == Next(s, ev)
  {
    assert [ev][1..] == [];
  }

  /** What one processing leaves behind, whatever else happens meanwhile, depends on its two updates
      and nothing else: the job is finished exactly when the second succeeds, left running exactly
      when only the first does, and back in the queue exactly when both fail. */
  lemma ProcessedJob(s: Sys, before: seq<Event>, markOk: bool, during: seq<Event>, v: Verdict, empty: bool,
                     finishOk: bool, p: nat)
    requires Shape(s, p) && s.worker == Picked(p)
    requires forall ev <- before :: !ev.MarkRunning? && !ev.Restart?
    requires forall ev <- during :: !ev.Finish? && !ev.Restart?
    ensures
      var s' := Run(s, before + [MarkRunning(markOk)] + during + [Finish(v, empty, finishOk)]);
      && s'.worker.Polling? && p < |s'.jobs|
      && (Finished(s'.jobs[p]) <==> finishOk)
      && (finishOk ==>
            s'.jobs[p].status == if v == NoOwner || (v == ScanFailed && !empty) then Error else Done)
      && (s'.jobs[p].status.Running? <==> markOk && !finishOk)
      && (s'.jobs[p].status.Queued? <==> !markOk && !finishOk)
  {
    var mark, finish := MarkRunning(markOk), Finish(v, empty, finishOk);
    RunConcat(s, before + [mark] + during, [finish]);
    RunConcat(s, before + [mark], during);
    RunConcat(s, before, [mark]);
    PickedStays(s, before, p);
    var s1 := Run(s, before);
    RunOne(s1, mark);
    var s2 := Next(s1, mark);
    WorkingStays(s2, during, p);
    RunOne(Run(s2, during), finish);
  }

  /** With both updates failing a job is processed twice. */
  lemma FailedUpdatesRepeatJob(j: Job)
    requires j.status.Queued?
    ensures
      var round := [Poll(true), MarkRunning(false), Finish(NotEnabled, true, false)];
      Started(Sys([j], false, [], Polling), round + round) == [0, 0]
  {
    var s := Sys([j], false, [], Polling);
    var round := [Poll(true), MarkRunning(false), Finish(NotEnabled, true, false)];
    var evs := round + round;
    FirstQueuedIs([j], 0);
    var picked, working := s.(worker := Picked(0)), s.(worker := Working(0));
    assert Next(s, evs[0]) == picked && Next(picked, evs[1]) == working && Next(working, evs[2]) == s;
    assert evs[3] == evs[0] && evs[4] == evs[1] && evs[5] == evs[2];
    assert evs[1..][1..] == evs[2..] && evs[2..][1..] == evs[3..] && evs[3..][1..] == evs[4..];
    assert evs[4..][1..] == evs[5..] && evs[5..][1..] == [];
    assert Started(working, evs[5..]) == [];
    assert Started(picked, evs[4..]) == [0];
    assert Started(s, evs[3..]) == [0];
    assert Started(working, evs[2..]) == [0];
    assert Started(picked, evs[1..]) == [0, 0];
  }

  // ---- Duplicate jobs ----

  /** The worker's pick is a queued row. */
  ghost predicate PickIsQueued(s: Sys) {
    s.worker.Picked? ==> s.worker.id < |s.jobs| && s.jobs[s.worker.id].status.Queued?
  }

  lemma {:induction false} RunKeepsPick(s: Sys, evs: seq<Event>)
    requires PickIsQueued(s)
    ensures PickIsQueued(Run(s, evs))
    decreases |evs|
  {
    if evs != [] {
      RunKeepsPick(Next(s, evs[0]), evs[1..]);
    }
  }

  /** A call inserts although a job for its pull and commit is active by now. */
  predicate Duplicates(s: Sys, ev: Event) {
    && ev.CallStep? && ev.ok && ev.c < |s.calls| && s.calls[ev.c].pc.Inserting?
    && HasActive(s.jobs, s.calls[ev.c].pull, s.calls[ev.c].sha)
  }

  /** No event but such an insert ever makes a duplicate, and such an insert always does. */
  lemma DuplicateStepIff(s: Sys, ev: Event)
    requires Deduplicated(s.jobs) && PickIsQueued(s)
    ensures Deduplicated(Next(s, ev).jobs) <==> !Duplicates(s, ev)
  {
    match ev
    case CallStep(c, ok) =>
      if c < |s.calls| && s.calls[c].pc.Inserting? && ok {
        InsertDeduplicatedIff(s.jobs, s.calls[c].pull, s.calls[c].repo, s.calls[c].sha);
      }
    case MarkRunning(ok) =>
      if s.worker.Picked? && ok {
        StatusKeepsDeduplicated(s.jobs, s.worker.id, Running);
      }
    case Finish(v, empty, ok) =>
      if s.worker.Working? && s.worker.id < |s.jobs| && ok {
        StatusKeepsDeduplicated(s.jobs, s.worker.id, FinalStatus(v, empty));
      }
    case _ =>
  }

  lemma InsertDeduplicatedIff(jobs: seq<Job>, pull: int, repo: int, sha: Sha)
    requires Deduplicated(jobs)
    ensures Deduplicated(jobs + [Job(pull, repo, sha, Queued)]) <==> !HasActive(jobs, pull, sha)
  {
    var jobs' := jobs + [Job(pull, repo, sha, Queued)];
    if HasActive(jobs, pull, sha) {
      var j :| j in jobs && Active(j, pull, sha);
      var i: nat :| i < |jobs| && jobs[i] == j;
      assert Active(jobs'[i], jobs'[i].pull, jobs'[i].sha) && Active(jobs'[|jobs|], jobs'[i].pull, jobs'[i].sha);
    } else {
      EnqueueKeepsDeduplicated(jobs, pull, repo, sha);
    }
  }

  lemma StatusKeepsDeduplicated(jobs: seq<Job>, id: nat, status: Status)
    requires Deduplicated(jobs) && id < |jobs|
    requires status.Running? ==> jobs[id].status.Queued?
    requires !status.Queued?
    ensures Deduplicated(jobs[id := jobs[id].(status := status)])
  {
    var jobs' := jobs[id := jobs[id].(status := status)];
    forall i: nat, j: nat | i < j < |jobs'| && Active(jobs'[i], jobs'[i].pull, jobs'[i].sha)
      ensures !Active(jobs'[j], jobs'[i].pull, jobs'[i].sha)
    {
      assert Active(jobs[i], jobs[i].pull, jobs[i].sha);
      assert !Active(jobs[j], jobs[i].pull, jobs[i].sha);
    }
  }

  ghost predicate DeduplicatedAlong(s: Sys, evs: seq<Event>)
    decreases |evs|
  {
    Deduplicated(s.jobs) && (evs != [] ==> DeduplicatedAlong(Next(s, evs[0]), evs[1..]))
  }

  predicate SomeDuplicate(s: Sys, evs: seq<Event>)
    decreases |evs|
  {
    evs != [] && (Duplicates(s, evs[0]) || SomeDuplicate(Next(s, evs[0]), evs[1..]))
  }

  lemma {:induction false} DuplicateRunIff(s: Sys, evs: seq<Event>)
    requires PickIsQueued(s) && Deduplicated(s.jobs)
    ensures DeduplicatedAlong(s, evs) <==> !SomeDuplicate(s, evs)
    decreases |evs|
  {
    if evs != [] {
      DuplicateStepIff(s, evs[0]);
      RunKeepsPick(s, [evs[0]]);
      RunOne(s, evs[0]);
      hide Next, Duplicates;
      if !Duplicates(s, evs[0]) {
        DuplicateRunIff(Next(s, evs[0]), evs[1..]);
      }
    }
  }

  /** In every run of a starting process, with any statement failing: at every moment there is at
      most one active job per pull and commit, exactly when no call inserts while one is active. */
  lemma OneActiveJobIff(s: Sys, evs: seq<Event>)
    requires Initial(s) && Deduplicated(s.jobs)
    ensures DeduplicatedAlong(s, evs) <==> !SomeDuplicate(s, evs)
  {
    DuplicateRunIff(s, evs);
  }

  /** A failed count reads as zero, so even calls that do not overlap leave a duplicate. */
  lemma FailedCountDuplicates(pull: int, repo: int, sha: Sha)
    ensures
      var job := Job(pull, repo, sha, Queued);
      var evs := [Arrive(pull, repo, sha), CallStep(0, false), CallStep(0, true), CallStep(0, true)];
      Run(Sys([job], true, [], Polling), evs).jobs == [job, job] && !Deduplicated([job, job])
  {
    var job := Job(pull, repo, sha, Queued);
    var evs := [Arrive(pull, repo, sha), CallStep(0, false), CallStep(0, true), CallStep(0, true)];
    var s := Sys([job], true, [], Polling);
    var call := Call(pull, repo, sha, Checking);
    StepTo(s, evs, 0, s.(calls := [call]));
    StepTo(s.(calls := [call]), evs, 1, s.(calls := [call.(pc := Inserting)]));
    StepTo(s.(calls := [call.(pc := Inserting)]), evs, 2, s.(jobs := [job, job], calls := [call.(pc := Waking)]));
    StepTo(s.(jobs := [job, job], calls := [call.(pc := Waking)]), evs, 3,
           s.(jobs := [job, job], calls := [call.(pc := Returned)]));
    assert evs[0..] == evs && evs[4..] == [];
    assert Active([job, job][0], pull, sha) && Active([job, job][1], pull, sha);
  }

  // ---- Enqueue calls that overlap ----

  /** Two overlapping calls both pass the check and insert: the check and the insert are
      not atomic. */
  lemma OverlappingCallsDuplicate(pull: int, repo: int, sha: Sha)
    ensures
      var s := Sys([], false, [], Polling);
      var evs := [Arrive(pull, repo, sha), Arrive(pull, repo, sha), CallStep(0, true), CallStep(1, true),
                  CallStep(0, true), CallStep(1, true)];
      !Deduplicated(Run(s, evs).jobs)
  {
    var s := Sys([], false, [], Polling);
    var evs := [Arrive(pull, repo, sha), Arrive(pull, repo, sha), CallStep(0, true), CallStep(1, true),
                CallStep(0, true), CallStep(1, true)];
    var s1 := Next(s, evs[0]);
    var s2 := Next(s1, evs[1]);
    var s3 := Next(s2, evs[2]);
    var s4 := Next(s3, evs[3]);
    var s5 := Next(s4, evs[4]);
    var s6 := Next(s5, evs[5]);
    var job := Job(pull, repo, sha, Queued);
    assert s6.jobs == [job, job];
    assert Active(s6.jobs[0], pull, sha) && Active(s6.jobs[1], pull, sha);
    assert Run(s, evs) == Run(s1, evs[1..]);
    assert Run(s1, evs[1..]) == Run(s2, evs[2..]) by { assert evs[1..][1..] == evs[2..]; }
    assert Run(s2, evs[2..]) == Run(s3, evs[3..]) by { assert evs[2..][1..] == evs[3..]; }
    assert Run(s3, evs[3..]) == Run(s4, evs[4..]) by { assert evs[3..][1..] == evs[4..]; }
    assert Run(s4, evs[4..]) == Run(s5, evs[5..]) by { assert evs[4..][1..] == evs[5..]; }
    assert Run(s5, evs[5..]) == s6 by { assert evs[5..][1..] == []; }
  }

  /** A call that runs its three steps without interruption is the queue's Enqueue. */
  lemma SoloCallIsEnqueue(s: Sys, pull: int, repo: int, sha: Sha)
    ensures
      var c := |s.calls|;
      var s' := Run(s, [Arrive(pull, repo, sha), CallStep(c, true), CallStep(c, true), CallStep(c, true)]);
      && s'.jobs == Enqueued(s.jobs, pull, repo, sha)
      && s'.wake == (s.wake || !HasActive(s.jobs, pull, sha))
      && s'.worker == s.worker
      && |s'.calls| == c + 1 && s'.calls[..c] == s.calls && s'.calls[c].pc.Returned?
  {
    var c := |s.calls|;
    var evs := [Arrive(pull, repo, sha), CallStep(c, true), CallStep(c, true), CallStep(c, true)];
    var s1 := Next(s, evs[0]);
    var s2 := Next(s1, evs[1]);
    var s3 := Next(s2, evs[2]);
    var s4 := Next(s3, evs[3]);
    assert Run(s, evs) == Run(s1, evs[1..]);
    assert Run(s1, evs[1..]) == Run(s2, evs[2..]) by { assert evs[1..][1..] == evs[2..]; }
    assert Run(s2, evs[2..]) == Run(s3, evs[3..]) by { assert evs[2..][1..] == evs[3..]; }
    assert Run(s3, evs[3..]) == s4 by { assert evs[3..][1..] == []; }
  }
}
