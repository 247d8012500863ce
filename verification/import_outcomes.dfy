/** What the job's counts, failures and store entries are, in terms of the rows tried
    and of the entries stored before. */
module ImportOutcomes {
  import opened Options
  import opened ImportJob

  /** What one attempt adds to the failures: the line of a refused row in the file,
      and after a refusal that stops the run a general entry. */
  function Lines(t: Try): seq<nat> {
    match t.outcome
    case Issued => []
    case Refused(stop) => if stop then [t.row + 2, 0] else [t.row + 2]
  }

  function AllLines(tries: seq<Try>): seq<nat>
    decreases |tries|
  {
    if tries == [] then [] else AllLines(tries[..|tries| - 1]) + Lines(tries[|tries| - 1])
  }

  /** A job that attempts have brought along counts each issued and each refused row
      once, lists the lines of the refused ones, and is stopped exactly by a refusal
      that stops. */
  lemma {:induction false} ReplayExact(first: Job, tries: seq<Try>)
    requires first.status.Running?
    ensures var job := Replay(first, tries);
            && job.done == first.done + IssuedCount(tries)
            && job.failed == first.failed + |tries| - IssuedCount(tries)
            && job.failures == first.failures + AllLines(tries)
            && (job.status.Running? || job.status.Failed?)
            && (job.status.Failed? <==> exists i :: 0 <= i < |tries| && tries[i].outcome == Refused(true))
            && job == first.(done := job.done, failed := job.failed, failures := job.failures, status := job.status)
    decreases |tries|
  {
    if tries == [] {
      assert first.failures + [] == first.failures;
    } else {
      var n := |tries| - 1;
      var front, last := tries[..n], tries[n];
      var before := Replay(first, front);
      assert tries == front + [last];
      assert Replay(first, tries) == Attempted(before, last.row, last.outcome);
      assert AllLines(tries) == AllLines(front) + Lines(last);
      assert IssuedCount(tries) == IssuedCount(front) + (if last.outcome.Issued? then 1 else 0);
      hide *;
      ReplayExact(first, front);
      OneMore(before, last);
      Regroup(first.failures, AllLines(front), Lines(last));
    }
  }

  lemma Regroup(a: seq<nat>, b: seq<nat>, c: seq<nat>)
    ensures a + b + c == a + (b + c)
  {
  }

  lemma OneMore(job: Job, t: Try)
    ensures var next := Attempted(job, t.row, t.outcome);
            && next.done == job.done + (if t.outcome.Issued? then 1 else 0)
            && next.failed == job.failed + (if t.outcome.Issued? then 0 else 1)
            && next.failures == job.failures + Lines(t)
            && next.status == (if t.outcome == Refused(true) then Failed else job.status)
            && next == job.(done := next.done, failed := next.failed, failures := next.failures, status := next.status)
  {
  }

  /** A run that ends keeps its counts, notes the time, and is completed, with errors
      or without, unless it was stopped. */
  lemma FinishedExact(job: Job, now: int)
    ensures var last := Finished(job, now);
            && last == job.(status := last.status, finishedAt := Some(now))
            && (!job.status.Running? ==> last.status == job.status)
            && (job.status.Running? && job.failed == 0 ==> last.status.Completed?)
            && (job.status.Running? && job.failed > 0 ==> last.status.CompletedWithErrors?)
  {
  }

  /** Listing ends exactly the running jobs that this process did not start, with a
      general failure, and changes no other. */
  lemma ListedExact(jobs: seq<Job>, startedHere: set<string>, now: int, i: nat)
    requires i < |jobs|
    ensures |Listed(jobs, startedHere, now)| == |jobs|
    ensures var job, shown := jobs[i], Listed(jobs, startedHere, now)[i];
            if job.status.Running? && job.id !in startedHere then
              shown == Job(job.id, job.workspaceId, Interrupted, job.total, job.done, job.failed, job.failures + [0],
                           job.createdAt, Some(now))
            else shown == job
  {
  }

  /** A saved job takes the place of the first entry under its id or comes last. */
  lemma {:induction false} ReplacedExact(jobs: seq<Job>, job: Job) returns (i: nat)
    ensures i <= |jobs| && forall k :: 0 <= k < i ==> jobs[k].id != job.id
    ensures if i < |jobs| then jobs[i].id == job.id && Replaced(jobs, job) == jobs[i := job]
            else Replaced(jobs, job) == jobs + [job]
  {
    i := 0;
    if jobs != [] && jobs[0].id != job.id {
      i := ReplacedExact(jobs[1..], job);
      i := i + 1;
      assert jobs == [jobs[0]] + jobs[1..];
    }
  }

  /** Entry by entry: a save drops what was finished a week ago or earlier, in place. */
  lemma {:induction false} DropOldExact(a: seq<Job>, b: seq<Job>, now: int)
    ensures DropOld(a + b, now) == DropOld(a, now) + DropOld(b, now)
    ensures |a| == 1 ==> DropOld(a, now) == if Old(a[0], now) then [] else a
  {
    hide *;
    if a == [] {
      NothingDropped(now);
      assert a + b == b;
      assert DropOld([], now) + DropOld(b, now) == DropOld(b, now);
    } else {
      assert a == [a[0]] + a[1..] && a + b == [a[0]] + (a[1..] + b);
      DropOldExact(a[1..], b, now);
      FirstDropped(a[0], a[1..], now);
      FirstDropped(a[0], a[1..] + b, now);
      NothingDropped(now);
    }
  }

  predicate Old(job: Job, now: int) { job.finishedAt.Some? && job.finishedAt.value + 7 * 86400 * 1000 <= now }

  lemma NothingDropped(now: int)
    ensures DropOld([], now) == []
  {
  }

  lemma FirstDropped(job: Job, rest: seq<Job>, now: int)
    ensures DropOld([job] + rest, now) == (if Old(job, now) then [] else [job]) + DropOld(rest, now)
  {
    assert ([job] + rest)[1..] == rest;
  }

  /** Entry by entry: a workspace is shown its own jobs. */
  lemma {:induction false} OfWorkspaceExact(a: seq<Job>, b: seq<Job>, workspaceId: string)
    ensures OfWorkspace(a + b, workspaceId) == OfWorkspace(a, workspaceId) + OfWorkspace(b, workspaceId)
    ensures |a| == 1 ==> OfWorkspace(a, workspaceId) == if a[0].workspaceId == workspaceId then a else []
  {
    hide *;
    if a == [] {
      NothingShown(workspaceId);
      assert a + b == b;
      assert OfWorkspace([], workspaceId) + OfWorkspace(b, workspaceId) == OfWorkspace(b, workspaceId);
    } else {
      assert a == [a[0]] + a[1..] && a + b == [a[0]] + (a[1..] + b);
      OfWorkspaceExact(a[1..], b, workspaceId);
      FirstShown(a[0], a[1..], workspaceId);
      FirstShown(a[0], a[1..] + b, workspaceId);
      NothingShown(workspaceId);
    }
  }

  lemma NothingShown(workspaceId: string)
    ensures OfWorkspace([], workspaceId) == []
  {
  }

  lemma FirstShown(job: Job, rest: seq<Job>, workspaceId: string)
    ensures OfWorkspace([job] + rest, workspaceId) ==
            (if job.workspaceId == workspaceId then [job] else []) + OfWorkspace(rest, workspaceId)
  {
    assert ([job] + rest)[1..] == rest;
  }
}
