/**
 The scan queue of internal/scan/worker.go as its own code runs it, one call at a
 time: `Enqueue`, `drain` and `process` over the scan_jobs table, the checks table and
 the one-slot wake channel. Rows are kept in id order, so a row's index stands for its
 id. Statements are taken to succeed here; what their failure does is in ScanRuns.
 */
module ScanQueue {
  import opened Wrappers
  import opened GitStore
  import opened Diff
  import opened DiffRender

  datatype Status = Queued | Running | Done | Error

  datatype Job = Job(pull: int, repo: int, sha: Sha, status: Status)

  datatype CheckStatus = CheckPending | CheckOk | CheckFail | CheckCancelled

  type Checks = map<(int, Sha), CheckStatus>

  predicate Active(j: Job, pull: int, sha: Sha) {
    j.pull == pull && j.sha == sha && (j.status.Queued? || j.status.Running?)
  }

  predicate HasActive(jobs: seq<Job>, pull: int, sha: Sha) {
    exists j <- jobs :: Active(j, pull, sha)
  }

  // ---- Enqueue ----

  function Enqueued(jobs: seq<Job>, pull: int, repo: int, sha: Sha): seq<Job> {
    if HasActive(jobs, pull, sha) then jobs else jobs + [Job(pull, repo, sha, Queued)]
  }

  /** At most one queued or running job per pull and commit. */
  ghost predicate Deduplicated(jobs: seq<Job>) {
    forall i: nat, j: nat | i < j < |jobs| && Active(jobs[i], jobs[i].pull, jobs[i].sha) ::
      !Active(jobs[j], jobs[i].pull, jobs[i].sha)
  }

  lemma EnqueueKeepsDeduplicated(jobs: seq<Job>, pull: int, repo: int, sha: Sha)
    requires Deduplicated(jobs)
    ensures Deduplicated(Enqueued(jobs, pull, repo, sha))
    ensures HasActive(Enqueued(jobs, pull, repo, sha), pull, sha)
  {
    var jobs' := Enqueued(jobs, pull, repo, sha);
    if !HasActive(jobs, pull, sha) {
      assert Active(jobs'[|jobs|], pull, sha);
      forall i: nat, j: nat | i < j < |jobs'| && Active(jobs'[i], jobs'[i].pull, jobs'[i].sha)
        ensures !Active(jobs'[j], jobs'[i].pull, jobs'[i].sha)
      {
        assert jobs'[i] == jobs[i] && jobs[i] in jobs;
      }
    }
  }

  // ---- What processing a job does ----

  /** What `process` finds out about a job besides its diff. */
  datatype Verdict = NoOwner | NotEnabled | ScanFailed | Scanned(overall: string)

  /** A diff without files leaves nothing to scan. */
  function FinalStatus(v: Verdict, empty: bool): Status {
    if v.NoOwner? || (v.ScanFailed? && !empty) then Error else Done
  }

  function FinalCheck(v: Verdict, empty: bool): CheckStatus {
    if v.NoOwner? || v.NotEnabled? then CheckCancelled
    else if empty then CheckOk
    else if v.ScanFailed? then CheckCancelled
    else if v.overall == "clean" then CheckOk
    else if v.overall == "block" then CheckFail
    else CheckPending
  }

  predicate Finished(j: Job) {
    j.status.Done? || j.status.Error?
  }

  /** Index of the first queued job, or the table's length. */
  function FirstQueued(jobs: seq<Job>): (k: nat)
    ensures k <= |jobs|
    ensures forall i | 0 <= i < k :: !jobs[i].status.Queued?
    ensures k < |jobs| ==> jobs[k].status.Queued?
  {
    if jobs == [] || jobs[0].status.Queued? then 0
    else
      var k := 1 + FirstQueued(jobs[1..]);
      assert forall i | 1 <= i < k :: jobs[i] == jobs[1..][i - 1];
      k
  }

  function QueuedCount(jobs: seq<Job>): nat {
    if jobs == [] then 0 else (if jobs[0].status.Queued? then 1 else 0) + QueuedCount(jobs[1..])
  }

  lemma {:induction false} FinishingLowersCount(jobs: seq<Job>, k: nat, status: Status)
    requires k < |jobs| && jobs[k].status.Queued? && !status.Queued?
    ensures QueuedCount(jobs[k := jobs[k].(status := status)]) == QueuedCount(jobs) - 1
  {
    var jobs' := jobs[k := jobs[k].(status := status)];
    if k == 0 {
      assert jobs'[1..] == jobs[1..];
    } else {
      FinishingLowersCount(jobs[1..], k - 1, status);
      assert jobs'[1..] == jobs[1..][k - 1 := jobs[k].(status := status)];
    }
  }

  /** The table after a whole drain, given each job's verdict. */
  function Drained(jobs: seq<Job>, verdicts: nat -> Verdict, diffs: nat -> seq<FileDiff>): seq<Job> {
    seq(|jobs|, i requires 0 <= i < |jobs| => DrainedJob(jobs[i], verdicts(i), diffs(i)))
  }

  function DrainedJob(j: Job, v: Verdict, diffs: seq<FileDiff>): Job {
    if j.status.Queued? then j.(status := FinalStatus(v, diffs == [])) else j
  }

  class Worker {
    var jobs: seq<Job>
    var checks: Checks
    var wake: bool

    constructor ()
      ensures jobs == [] && checks == map[] && !wake
    {
      jobs, checks, wake := [], map[], false;
    }

    /** Adds a job unless one is active for the pull and commit, and fills the wake slot
        if it did. */
    method Enqueue(pull: int, repo: int, sha: Sha)
      modifies this`jobs, this`wake
      ensures jobs == Enqueued(old(jobs), pull, repo, sha)
      ensures wake == (old(wake) || !HasActive(old(jobs), pull, sha))
    {
      var n := 0;
      for i := 0 to |jobs|
        invariant jobs == old(jobs) && wake == old(wake)
        invariant n > 0 <==> exists k | 0 <= k < i :: Active(jobs[k], pull, sha)
      {
        if Active(jobs[i], pull, sha) {
          n := n + 1;
        }
      }
      if n > 0 {
        return;
      }
      jobs := jobs + [Job(pull, repo, sha, Queued)];
      if !wake {
        wake := true;
      }
    }

    /** The job ends in `error` when the repository has no owner or the scan of something fails, and
        in `done` otherwise; its commit's check row, and no other, says how it went. */
    method Process(id: nat, v: Verdict, diffs: seq<FileDiff>)
      requires id < |jobs|
      modifies this`jobs, this`checks
      ensures jobs == old(jobs)[id := old(jobs)[id].(status := FinalStatus(v, diffs == []))]
      ensures Finished(jobs[id])
      ensures checks == old(checks)[(old(jobs)[id].repo, old(jobs)[id].sha) := FinalCheck(v, diffs == [])]
      ensures jobs[id].status == if v == NoOwner || (v == ScanFailed && diffs != []) then Error else Done
      ensures
        var check := checks[(old(jobs)[id].repo, old(jobs)[id].sha)];
        && (v == NoOwner || v == NotEnabled ==> check == CheckCancelled)
        && (v != NoOwner && v != NotEnabled && diffs == [] ==> check == CheckOk)
        && (v == ScanFailed && diffs != [] ==> check == CheckCancelled)
        && (v == Scanned("clean") && diffs != [] ==> check == CheckOk)
        && (v == Scanned("block") && diffs != [] ==> check == CheckFail)
        && (v.Scanned? && v.overall != "clean" && v.overall != "block" && diffs != [] ==> check == CheckPending)
    {
      var repo, sha := jobs[id].repo, jobs[id].sha;
      jobs := jobs[id := jobs[id].(status := Running)];
      checks := checks[(repo, sha) := CheckPending];
      if v.NoOwner? {
        jobs := jobs[id := jobs[id].(status := Error)];
        checks := checks[(repo, sha) := CheckCancelled];
        return;
      }
      if v.NotEnabled? {
        jobs := jobs[id := jobs[id].(status := Done)];
        checks := checks[(repo, sha) := CheckCancelled];
        return;
      }
      var raw := WriteFiles(diffs);
      RenderEmpty(diffs);
      if raw == "" {
        jobs := jobs[id := jobs[id].(status := Done)];
        checks := checks[(repo, sha) := CheckOk];
        return;
      }
      if v.ScanFailed? {
        jobs := jobs[id := jobs[id].(status := Error)];
        checks := checks[(repo, sha) := CheckCancelled];
        return;
      }
      var status := if v.overall == "clean" then CheckOk else if v.overall == "block" then CheckFail else CheckPending;
      checks := checks[(repo, sha) := status];
      jobs := jobs[id := jobs[id].(status := Done)];
    }

    /** Takes the queued jobs in id order until none is left. */
    method Drain(verdicts: nat -> Verdict, diffs: nat -> seq<FileDiff>) returns (order: seq<nat>)
      modifies this`jobs, this`checks
      ensures jobs == Drained(old(jobs), verdicts, diffs)
      ensures forall i: nat, j: nat | i < j < |order| :: order[i] < order[j]
      ensures forall id: nat :: id in order <==> id < |old(jobs)| && old(jobs)[id].status.Queued?
      ensures forall j <- jobs :: !j.status.Queued?
    {
      hide FirstQueued, QueuedCount;
      order := [];
      var k := FirstQueued(jobs);
      while k < |jobs|
        invariant k == FirstQueued(jobs) && |jobs| == |old(jobs)| && wake == old(wake)
        invariant forall i: nat | i < |jobs| ::
          jobs[i] == if i < k then DrainedJob(old(jobs)[i], verdicts(i), diffs(i)) else old(jobs)[i]
        invariant forall i: nat | i < |order| :: order[i] < k
        invariant forall i: nat, j: nat | i < j < |order| :: order[i] < order[j]
        invariant forall id: nat :: id in order <==> id < k && old(jobs)[id].status.Queued?
        decreases QueuedCount(jobs)
      {
        FinishingLowersCount(jobs, k, FinalStatus(verdicts(k), diffs(k) == []));
        Process(k, verdicts(k), diffs(k));
        assert forall i: nat | i <= k :: !jobs[i].status.Queued?;
        order := order + [k];
        k := FirstQueued(jobs);
      }
    }
  }

  lemma RenderEmpty(files: seq<FileDiff>)
    ensures Render(files) == "" <==> files == []
  {
    if files != [] {
      FileLinesCons(files, 0);
      assert files[0..] == files;
    }
  }
}
