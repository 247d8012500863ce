/** The background job that issues the rows of an accepted import. It runs inside
    one process, saves its progress after each row and can die between any two
    steps. */
module ImportJob {
  import opened Options
  import opened StableSort

  datatype Status = Running | Failed | Completed | CompletedWithErrors | Interrupted

  /** `failures` holds the line of each entry, 0 for a general one. Lines count the
      rows of the file that are not blank, the header being 1. */
  datatype Job = Job(
    id: string,
    workspaceId: string,
    status: Status,
    total: nat,
    done: nat,
    failed: nat,
    failures: seq<nat>,
    createdAt: int,
    finishedAt: Option<int>)

  /** What issuing one row came to; a plan or policy refusal stops the run. */
  datatype Outcome = Issued | Refused(stop: bool)

  const RETENTION_MS := 7 * 24 * 60 * 60 * 1000

  function NewJob(id: string, workspaceId: string, total: nat, now: int): Job {
    Job(id, workspaceId, Running, total, 0, 0, [], now, None)
  }

  /** The job after attempting the row at this index. */
  function Attempted(job: Job, row: nat, outcome: Outcome): Job {
    match outcome
    case Issued => job.(done := job.done + 1)
    case Refused(stop) =>
      var counted := job.(failed := job.failed + 1, failures := job.failures + [row + 2]);
      if stop then counted.(status := Failed, failures := counted.failures + [0]) else counted
  }

  function Finished(job: Job, now: int): Job {
    var status :=
      if !job.status.Running? then job.status else if job.failed > 0 then CompletedWithErrors else Completed;
    job.(status := status, finishedAt := Some(now))
  }

  function InterruptedJob(job: Job, now: int): Job {
    job.(status := Interrupted, finishedAt := Some(now), failures := job.failures + [0])
  }

  // ---------------------------------------------------------------------
  // The job store

  function Replaced(jobs: seq<Job>, job: Job): (r: seq<Job>)
    ensures forall x :: x in r ==> x == job || x in jobs
    ensures job in r
  {
    if jobs == [] then [job]
    else if jobs[0].id == job.id then [job] + jobs[1..]
    else
      assert jobs == [jobs[0]] + jobs[1..];
      [jobs[0]] + Replaced(jobs[1..], job)
  }

  predicate Kept(job: Job, now: int) {
    job.finishedAt.None? || job.finishedAt.value > now - RETENTION_MS
  }

  function DropOld(jobs: seq<Job>, now: int): (r: seq<Job>)
    ensures forall x :: x in r <==> x in jobs && Kept(x, now)
  {
    if jobs == [] then []
    else
      assert jobs == [jobs[0]] + jobs[1..];
      (if Kept(jobs[0], now) then [jobs[0]] else []) + DropOld(jobs[1..], now)
  }

  /** The store after saving a job: replaced or added, old finished jobs dropped. */
  function Saved(jobs: seq<Job>, job: Job, now: int): seq<Job> {
    DropOld(Replaced(jobs, job), now)
  }

  /** Listing marks the jobs that another process left running. */
  function Listed(jobs: seq<Job>, startedHere: set<string>, now: int): (r: seq<Job>)
    ensures |r| == |jobs|
    ensures forall i :: 0 <= i < |jobs| ==> r[i] == Marked(jobs[i], startedHere, now)
  {
    seq(|jobs|, i requires 0 <= i < |jobs| => Marked(jobs[i], startedHere, now))
  }

  function Marked(job: Job, startedHere: set<string>, now: int): Job {
    if job.status.Running? && job.id !in startedHere then InterruptedJob(job, now) else job
  }

  function OfWorkspace(jobs: seq<Job>, workspaceId: string): (r: seq<Job>)
    ensures forall x :: x in r <==> x in jobs && x.workspaceId == workspaceId
  {
    if jobs == [] then []
    else
      assert jobs == [jobs[0]] + jobs[1..];
      (if jobs[0].workspaceId == workspaceId then [jobs[0]] else []) + OfWorkspace(jobs[1..], workspaceId)
  }

  predicate NotOlder(a: Job, b: Job) { a.createdAt >= b.createdAt }

  /** The sort of the listing, newest job first. */
  function NewestFirst(jobs: seq<Job>): seq<Job> { Sort(jobs, NotOlder) }

  /** What is shown is every given job once, newest first, and jobs of one moment in
      stored order. */
  lemma NewestFirstSorts(jobs: seq<Job>)
    ensures var shown := NewestFirst(jobs);
            && multiset(shown) == multiset(jobs) && (forall x :: x in shown <==> x in jobs)
            && (forall i, j :: 0 <= i < j < |shown| ==> shown[i].createdAt >= shown[j].createdAt)
            && forall x :: Alike(shown, x, NotOlder) == Alike(jobs, x, NotOlder)
  {
    assert TotalPreorder(NotOlder);
    SortIsStable(jobs, NotOlder);
    SortMembers(jobs, NotOlder);
    hide Sort;
    var shown := NewestFirst(jobs);
    assert forall i, j :: 0 <= i < j < |shown| ==> NotOlder(shown[i], shown[j]);
  }

  predicate HasActive(jobs: seq<Job>, workspaceId: string) {
    exists i :: 0 <= i < |jobs| && jobs[i].workspaceId == workspaceId && jobs[i].status.Running?
  }

  /** `find`: the first running job of a list. */
  function FirstRunning(jobs: seq<Job>): (r: Option<Job>)
    ensures r.Some? ==> r.value in jobs && r.value.status.Running?
    ensures r.None? ==> forall x :: x in jobs ==> !x.status.Running?
  {
    if jobs == [] then None
    else if jobs[0].status.Running? then Some(jobs[0])
    else
      assert jobs == [jobs[0]] + jobs[1..];
      FirstRunning(jobs[1..])
  }

  /** The listing of a workspace shows a running job exactly if one is stored. */
  lemma ActiveShown(jobs: seq<Job>, workspaceId: string)
    ensures FirstRunning(NewestFirst(OfWorkspace(jobs, workspaceId))).Some? <==> HasActive(jobs, workspaceId)
  {
    var own := OfWorkspace(jobs, workspaceId);
    NewestFirstSorts(own);
    if HasActive(jobs, workspaceId) {
      var i :| 0 <= i < |jobs| && jobs[i].workspaceId == workspaceId && jobs[i].status.Running?;
      assert jobs[i] in NewestFirst(own);
    }
  }

  ghost predicate DistinctIds(jobs: seq<Job>) {
    forall i, j :: 0 <= i < j < |jobs| ==> jobs[i].id != jobs[j].id
  }

  lemma {:induction false} ReplacedIds(jobs: seq<Job>, job: Job)
    requires DistinctIds(jobs)
    ensures DistinctIds(Replaced(jobs, job))
    ensures forall x :: x in Replaced(jobs, job) <==> x == job || (x in jobs && x.id != job.id)
  {
    var r := Replaced(jobs, job);
    if jobs != [] {
      var head, tail := jobs[0], jobs[1..];
      assert jobs == [head] + tail;
      HeadIdDiffers(jobs);
      ReplacedIds(tail, job);
      if head.id == job.id {
        DistinctCons(job, tail);
      } else {
        forall x | x in Replaced(tail, job)
          ensures x.id != head.id
        {
        }
        DistinctCons(head, Replaced(tail, job));
      }
    }
  }

  lemma HeadIdDiffers(jobs: seq<Job>)
    requires DistinctIds(jobs) && jobs != []
    ensures DistinctIds(jobs[1..]) && forall x :: x in jobs[1..] ==> x.id != jobs[0].id
  {
    forall x | x in jobs[1..]
      ensures x.id != jobs[0].id
    {
      var i :| 0 <= i < |jobs| - 1 && jobs[1..][i] == x;
      assert jobs[i + 1] == x;
    }
  }

  lemma DistinctCons(job: Job, rest: seq<Job>)
    requires DistinctIds(rest) && forall x :: x in rest ==> x.id != job.id
    ensures DistinctIds([job] + rest)
  {
    var all := [job] + rest;
    forall i, j | 0 <= i < j < |all|
      ensures all[i].id != all[j].id
    {
      assert all[j] == rest[j - 1] && all[j] in rest;
      if i > 0 {
        assert all[i] == rest[i - 1];
      }
    }
  }

  lemma {:induction false} DropOldIds(jobs: seq<Job>, now: int)
    requires DistinctIds(jobs)
    ensures DistinctIds(DropOld(jobs, now))
  {
    if jobs != [] {
      HeadIdDiffers(jobs);
      DropOldIds(jobs[1..], now);
      DistinctCons(jobs[0], DropOld(jobs[1..], now));
      assert [] + DropOld(jobs[1..], now) == DropOld(jobs[1..], now);
    }
  }

  /** Saving keeps ids distinct; the store then holds the job if it is still to be
      kept, and of the others those it held and keeps. */
  lemma SavedJobs(jobs: seq<Job>, job: Job, now: int)
    requires DistinctIds(jobs)
    ensures DistinctIds(Saved(jobs, job, now))
    ensures forall x :: x in Saved(jobs, job, now) <==> (x == job || (x in jobs && x.id != job.id)) && Kept(x, now)
  {
    ReplacedIds(jobs, job);
    DropOldIds(Replaced(jobs, job), now);
  }

  // ---------------------------------------------------------------------
  // An undisturbed run

  /** The store and the job at the end of the loop over the rows from `row` on. */
  function RunRows(jobs: seq<Job>, job: Job, row: nat, outcomes: seq<Outcome>, now: int): (seq<Job>, Job)
    requires row <= |outcomes|
    decreases |outcomes| - row
  {
    if row == |outcomes| then (jobs, job)
    else
      var next := Attempted(job, row, outcomes[row]);
      if !next.status.Running? then (jobs, next)
      else RunRows(Saved(jobs, next, now), next, row + 1, outcomes, now)
  }

  class JobRunner {
    var jobs: seq<Job>
    var startedHere: set<string>

    constructor (stored: seq<Job>)
      ensures jobs == stored && startedHere == {}
    {
      jobs, startedHere := stored, {};
    }

    method SaveJob(job: Job, now: int)
      modifies this`jobs
      ensures jobs == Saved(old(jobs), job, now)
      ensures DistinctIds(old(jobs)) ==>
                && DistinctIds(jobs)
                && forall x :: x in jobs <==> (x == job || (x in old(jobs) && x.id != job.id)) && Kept(x, now)
    {
      ghost var before := jobs;
      jobs := DropOld(Replaced(jobs, job), now);
      if DistinctIds(before) {
        SavedJobs(before, job, now);
      }
    }

    method RunJob(initial: Job, outcomes: seq<Outcome>, now: int) returns (job: Job)
      requires initial.status.Running?
      modifies this`jobs
      ensures var r := RunRows(old(jobs), initial, 0, outcomes, now);
              job == Finished(r.1, now) && jobs == Saved(r.0, job, now)
    {
      job := initial;
      var row := 0;
      while row < |outcomes|
        invariant 0 <= row <= |outcomes| && job.status.Running?
        invariant RunRows(jobs, job, row, outcomes, now) == RunRows(old(jobs), initial, 0, outcomes, now)
      {
        job := Attempted(job, row, outcomes[row]);
        if !job.status.Running? {
          break;
        }
        SaveJob(job, now);
        row := row + 1;
      }
      job := Finished(job, now);
      SaveJob(job, now);
    }

    method ListJobs(workspaceId: string, now: int) returns (shown: seq<Job>)
      modifies this`jobs
      ensures jobs == Listed(old(jobs), startedHere, now)
      ensures shown == NewestFirst(OfWorkspace(jobs, workspaceId))
    {
      var marked := [];
      for i := 0 to |jobs|
        invariant |marked| == i && marked == Listed(jobs, startedHere, now)[..i]
      {
        var job := jobs[i];
        if job.status == Running && job.id !in startedHere {
          job := InterruptedJob(job, now);
        }
        marked := marked + [job];
      }
      jobs := marked;
      shown := NewestFirst(OfWorkspace(jobs, workspaceId));
    }

    /** An import of so many accepted rows; none while another one is running. */
    method StartImport(id: string, workspaceId: string, total: nat, now: int) returns (started: Option<Job>)
      modifies this
      ensures var listed := Listed(old(jobs), old(startedHere), now);
              if HasActive(listed, workspaceId) then
                started == None && jobs == listed && startedHere == old(startedHere)
              else
                var job := NewJob(id, workspaceId, total, now);
                started == Some(job) && jobs == Saved(listed, job, now) && startedHere == old(startedHere) + {id}
      ensures started.Some? ==> started.value in jobs && started.value.id == id && started.value.total == total
      ensures started.Some? ==>
                var job := started.value;
                && job.workspaceId == workspaceId && job.status.Running? && job.done == 0 && job.failed == 0
                && job.failures == [] && job.createdAt == now && job.finishedAt.None?
    {
      var shown := ListJobs(workspaceId, now);
      ActiveShown(jobs, workspaceId);
      if FirstRunning(shown).Some? {
        return None;
      }
      var job := NewJob(id, workspaceId, total, now);
      startedHere := startedHere + {id};
      SaveJob(job, now);
      return Some(job);
    }
  }

  /** The counts agree with the status: all three ways to end, and interrupted. */
  ghost predicate Consistent(job: Job) {
    && job.done + job.failed <= job.total
    && (job.finishedAt.None? <==> job.status.Running?)
    && match job.status
       case Running => |job.failures| == job.failed
       case Completed => job.failed == 0 && job.done == job.total && job.failures == []
       case CompletedWithErrors => job.failed > 0 && job.done + job.failed == job.total && |job.failures| == job.failed
       case Failed => job.failed > 0 && |job.failures| == job.failed + 1
       case Interrupted => |job.failures| == job.failed + 1
  }

  /** The in-memory job between two rows or after the stopping one. */
  ghost predicate InProgress(job: Job, attempts: nat) {
    && job.finishedAt.None?
    && job.done + job.failed == attempts <= job.total
    && (job.status.Running? || job.status.Failed?)
    && |job.failures| == (if job.status.Running? then job.failed else job.failed + 1)
    && (job.status.Failed? ==> job.failed > 0)
  }

  /** Normal termination in all three outcomes: the run attempts a prefix of the
      rows, all of them unless it stopped, and the counts agree. */
  lemma {:induction false} RunRowsOutcome(jobs: seq<Job>, job: Job, row: nat, outcomes: seq<Outcome>, now: int)
    requires InProgress(job, row) && job.status.Running? && row <= |outcomes| == job.total
    ensures var last := RunRows(jobs, job, row, outcomes, now).1;
            var attempts := last.done + last.failed;
            && InProgress(last, attempts) && row <= attempts
            && (last.status.Running? ==> attempts == last.total)
            && (last.status.Failed? <==> exists k :: row <= k < |outcomes| && outcomes[k] == Refused(true))
            && Consistent(Finished(last, now))
    decreases |outcomes| - row
  {
    hide Saved;
    if row < |outcomes| {
      var next := Attempted(job, row, outcomes[row]);
      if next.status.Running? {
        RunRowsOutcome(Saved(jobs, next, now), next, row + 1, outcomes, now);
      } else {
        assert outcomes[row] == Refused(true);
      }
    }
  }

  /** After an undisturbed run the store holds the finished job, once. */
  lemma RunIsStored(jobs: seq<Job>, job: Job, outcomes: seq<Outcome>, now: int)
    requires DistinctIds(jobs) && job.status.Running?
    ensures var r := RunRows(jobs, job, 0, outcomes, now);
            var last := Finished(r.1, now);
            && last.id == job.id && last in Saved(r.0, last, now)
            && forall x :: x in Saved(r.0, last, now) && x.id == job.id ==> x == last
  {
    RunRowsStore(jobs, job, 0, outcomes, now);
    var r := RunRows(jobs, job, 0, outcomes, now);
    SavedJobs(r.0, Finished(r.1, now), now);
  }

  lemma {:induction false} RunRowsStore(jobs: seq<Job>, job: Job, row: nat, outcomes: seq<Outcome>, now: int)
    requires DistinctIds(jobs) && row <= |outcomes|
    ensures var r := RunRows(jobs, job, row, outcomes, now); DistinctIds(r.0) && r.1.id == job.id
    decreases |outcomes| - row
  {
    hide Saved;
    if row < |outcomes| {
      var next := Attempted(job, row, outcomes[row]);
      if next.status.Running? {
        SavedJobs(jobs, next, now);
        RunRowsStore(Saved(jobs, next, now), next, row + 1, outcomes, now);
      }
    }
  }

  // ---------------------------------------------------------------------
  // Runs that can crash: every step of every job, restarts included

  datatype Phase = AtRow | ToSave | ToFinish

  /** A job object in memory, the position of its loop and where it stands there. */
  datatype Live = Live(job: Job, next: nat, phase: Phase)

  /** One attempt to issue a row. */
  datatype Try = Try(row: nat, outcome: Outcome)

  /** What happened to a job: how it began, the rows tried, in order, and whether
      the last attempt still waits for a save. */
  datatype History = History(first: Job, tries: seq<Try>, unsaved: bool)

  datatype State = State(
    stored: seq<Job>,
    live: map<string, Live>,
    startedHere: set<string>,
    drawn: set<string>,  // the random ids handed out so far
    now: int,
    history: map<string, History>)  // of every job ever started; no step depends on it

  datatype Step =
    | Start(id: string, workspaceId: string, total: nat)
    | Attempt(run: string, outcome: Outcome)
    | Save(run: string)
    | Finish(run: string)
    | Abandon(run: string)   // a save throws and the detached run ends
    | Crash                  // the process restarts
    | List
    | Advance(elapsed: nat)

  predicate AtEnd(l: Live) { l.phase.AtRow? && l.next == l.job.total }

  predicate Enabled(s: State, step: Step) {
    match step
    case Start(id, workspaceId, total) =>
      id !in s.drawn && !HasActive(Listed(s.stored, s.startedHere, s.now), workspaceId)
    case Attempt(id, _) => id in s.live && s.live[id].phase.AtRow? && s.live[id].next < s.live[id].job.total
    case Save(id) => id in s.live && s.live[id].phase.ToSave?
    case Finish(id) => id in s.live && (s.live[id].phase.ToFinish? || AtEnd(s.live[id]))
    case Abandon(id) => id in s.live && (!s.live[id].phase.AtRow? || AtEnd(s.live[id]))
    case _ => true
  }

  function NoteTry(history: map<string, History>, id: string, t: Try): map<string, History> {
    if id !in history then history
    else history[id := history[id].(tries := history[id].tries + [t], unsaved := true)]
  }

  function NoteSave(history: map<string, History>, id: string): map<string, History> {
    if id !in history then history else history[id := history[id].(unsaved := false)]
  }

  function Next(s: State, step: Step): State
    requires Enabled(s, step)
  {
    match step
    case Start(id, workspaceId, total) =>
      var job := NewJob(id, workspaceId, total, s.now);
      s.(stored := Saved(Listed(s.stored, s.startedHere, s.now), job, s.now), live := s.live[id := Live(job, 0, AtRow)],
         startedHere := s.startedHere + {id}, drawn := s.drawn + {id},
         history := s.history[id := History(job, [], false)])
    case Attempt(id, outcome) =>
      var l := s.live[id];
      var job := Attempted(l.job, l.next, outcome);
      s.(live := s.live[id := Live(job, l.next + 1, if job.status.Running? then ToSave else ToFinish)],
         history := NoteTry(s.history, id, Try(l.next, outcome)))
    case Save(id) =>
      s.(stored := Saved(s.stored, s.live[id].job, s.now), live := s.live[id := s.live[id].(phase := AtRow)],
         history := NoteSave(s.history, id))
    case Finish(id) =>
      s.(stored := Saved(s.stored, Finished(s.live[id].job, s.now), s.now), live := s.live - {id},
         history := NoteSave(s.history, id))
    case Abandon(id) => s.(live := s.live - {id})
    case Crash => s.(live := map[], startedHere := {})
    case List => s.(stored := Listed(s.stored, s.startedHere, s.now))
    case Advance(elapsed) => s.(now := s.now + elapsed)
  }

  function Initial(now: int): State { State([], map[], {}, {}, now, map[]) }

  ghost predicate ValidRun(s: State, steps: seq<Step>)
    decreases |steps|
  {
    steps != [] ==> Enabled(s, steps[0]) && ValidRun(Next(s, steps[0]), steps[1..])
  }

  ghost function Run(s: State, steps: seq<Step>): State
    requires ValidRun(s, steps)
    decreases |steps|
  {
    if steps == [] then s else Run(Next(s, steps[0]), steps[1..])
  }

  // ---------------------------------------------------------------------
  // What every step keeps

  /** The job that these attempts make of the one that began. */
  function Replay(first: Job, tries: seq<Try>): Job
    decreases |tries|
  {
    if tries == [] then first
    else
      var n := |tries| - 1;
      Attempted(Replay(first, tries[..n]), tries[n].row, tries[n].outcome)
  }

  function IssuedCount(tries: seq<Try>): (n: nat)
    ensures n <= |tries|
    decreases |tries|
  {
    if tries == [] then 0
    else IssuedCount(tries[..|tries| - 1]) + (if tries[|tries| - 1].outcome.Issued? then 1 else 0)
  }

  ghost predicate Begun(id: string, first: Job) {
    && first.id == id && first.status.Running? && first.finishedAt.None?
    && first.done == 0 && first.failed == 0 && first.failures == []
  }

  /** Rows were tried in file order, as a prefix, none twice. */
  ghost predicate InOrder(tries: seq<Try>) {
    forall i :: 0 <= i < |tries| ==> tries[i].row == i
  }

  ghost predicate HistoryOk(id: string, h: History) {
    && Begun(id, h.first)
    && |h.tries| <= h.first.total
    && InOrder(h.tries)
    && (h.unsaved ==> h.tries != [])
    && (h.tries != [] ==> Replay(h.first, h.tries[..|h.tries| - 1]).status.Running?)
  }

  /** The attempts that the stored job knows of. */
  function Counted(h: History): seq<Try> {
    if h.unsaved && h.tries != [] then h.tries[..|h.tries| - 1] else h.tries
  }

  /** What the store says of a job, as a function of its history. */
  ghost predicate Tells(job: Job, h: History) {
    var known := Replay(h.first, Counted(h));
    match job.status
    case Running => job == known
    case Interrupted =>
      job.finishedAt.Some? && known.status.Running? && job == InterruptedJob(known, job.finishedAt.value)
    case _ =>
      && job.finishedAt.Some? && job == Finished(known, job.finishedAt.value)
      && !h.unsaved && (known.status.Running? ==> |h.tries| == h.first.total)
  }

  ghost predicate StoredOk(s: State, job: Job) {
    job.id in s.history && Tells(job, s.history[job.id])
  }

  /** A job in memory is what its attempts made of it, its loop is past them, and
      it waits for a save exactly while the last one is not stored. */
  ghost predicate MemoryOk(s: State, id: string)
    requires id in s.live
  {
    && id in s.startedHere && id in s.history
    && var l, h := s.live[id], s.history[id];
       && l.job == Replay(h.first, h.tries) && l.next == |h.tries|
       && (l.phase.AtRow? <==> !h.unsaved)
       && (l.phase.ToFinish? <==> l.job.status.Failed?)
  }

  ghost predicate LiveOk(s: State, id: string)
    requires id in s.live
  {
    MemoryOk(s, id) && Replay(s.history[id].first, Counted(s.history[id])) in s.stored
  }

  ghost predicate Stores(s: State) {
    DistinctIds(s.stored) && forall job :: job in s.stored ==> StoredOk(s, job)
  }

  ghost predicate Histories(s: State) {
    forall id :: (id in s.history <==> id in s.drawn) && (id in s.history ==> HistoryOk(id, s.history[id]))
  }

  ghost predicate Lives(s: State) {
    forall id :: id in s.live ==> LiveOk(s, id)
  }

  ghost predicate Inv(s: State) { Stores(s) && Histories(s) && Lives(s) }

  lemma {:induction false} ReplayCounts(id: string, first: Job, tries: seq<Try>)
    requires Begun(id, first) && |tries| <= first.total
    requires tries != [] ==> Replay(first, tries[..|tries| - 1]).status.Running?
    ensures var job := Replay(first, tries);
            && InProgress(job, |tries|)
            && job.id == id && job.total == first.total && job.workspaceId == first.workspaceId
            && job.done == IssuedCount(tries)
    decreases |tries|
  {
    if tries != [] {
      var n := |tries| - 1;
      if n > 0 {
        RunningBefore(first, tries[..n]);
      }
      ReplayCounts(id, first, tries[..n]);
    }
  }

  /** Only the last attempt can have stopped a job. */
  lemma RunningBefore(first: Job, tries: seq<Try>)
    requires Replay(first, tries).status.Running? && tries != []
    ensures Replay(first, tries[..|tries| - 1]).status.Running?
  {
  }

  /** What the store knows of a job is a running job in progress, unless the job
      was stopped and that is stored. */
  lemma KnownCounts(id: string, h: History)
    requires HistoryOk(id, h)
    ensures var known := Replay(h.first, Counted(h));
            && InProgress(known, |Counted(h)|) && known.id == id && known.total == h.first.total
            && known.done == IssuedCount(Counted(h))
            && (h.unsaved ==> known.status.Running?)
  {
    var known := Counted(h);
    if h.unsaved && known != [] {
      RunningBefore(h.first, known);
    }
    ReplayCounts(id, h.first, known);
  }

  lemma ListKeepsInv(s: State)
    requires Inv(s)
    ensures Inv(s.(stored := Listed(s.stored, s.startedHere, s.now)))
  {
    hide HistoryOk, Replay;
    var s' := s.(stored := Listed(s.stored, s.startedHere, s.now));
    forall job | job in s'.stored
      ensures StoredOk(s', job)
    {
      var i :| 0 <= i < |s'.stored| && s'.stored[i] == job;
      assert s.stored[i] in s.stored && StoredOk(s, s.stored[i]);
    }
    forall id | id in s.live
      ensures LiveOk(s', id)
    {
      KnownRuns(s, id);
      var job := Replay(s.history[id].first, Counted(s.history[id]));
      var i :| 0 <= i < |s.stored| && s.stored[i] == job;
      assert s'.stored[i] == job && job in s'.stored;
    }
  }

  /** A job in memory is stored as the running job that its saved attempts make. */
  lemma KnownRuns(s: State, id: string)
    requires Inv(s) && id in s.live
    ensures LiveOk(s, id) && HistoryOk(id, s.history[id])
    ensures var known := Replay(s.history[id].first, Counted(s.history[id]));
            known in s.stored && known.id == id && known.status.Running? && known.finishedAt.None?
  {
    assert LiveOk(s, id);
    KnownCounts(id, s.history[id]);
    hide Stores, Replay;
  }

  lemma StoredById(jobs: seq<Job>, a: Job, b: Job)
    requires DistinctIds(jobs) && a in jobs && b in jobs && a.id == b.id
    ensures a == b
  {
    var i :| 0 <= i < |jobs| && jobs[i] == a;
    var j :| 0 <= j < |jobs| && jobs[j] == b;
  }

  /** A step on one job leaves the others alone. */
  ghost predicate OthersSame(s: State, s': State, id: string) {
    && s.startedHere <= s'.startedHere
    && forall x :: x != id ==>
         && (x in s'.live ==> x in s.live && s'.live[x] == s.live[x])
         && (x in s'.history <==> x in s.history) && (x in s.history ==> s'.history[x] == s.history[x])
         && (x in s'.drawn <==> x in s.drawn)
  }

  lemma HistoriesKept(s: State, s': State, id: string)
    requires Histories(s) && OthersSame(s, s', id)
    requires id in s'.history && id in s'.drawn && HistoryOk(id, s'.history[id])
    ensures Histories(s')
  {
    hide HistoryOk;
  }

  lemma SavedStores(s: State, s': State, job: Job)
    requires Stores(s) && OthersSame(s, s', job.id) && s'.stored == Saved(s.stored, job, s.now)
    requires job.id in s'.history && Tells(job, s'.history[job.id])
    ensures Stores(s')
  {
    hide Tells, Saved;
    SavedJobs(s.stored, job, s.now);
    forall x | x in s'.stored
      ensures StoredOk(s', x)
    {
      assert x != job ==> StoredOk(s, x);
    }
  }

  lemma SavedLives(s: State, s': State, job: Job)
    requires Inv(s) && OthersSame(s, s', job.id) && s'.stored == Saved(s.stored, job, s.now)
    requires job.id in s'.live ==> MemoryOk(s', job.id) && job.status.Running? && job.finishedAt.None?
    requires job.id in s'.live ==> job == Replay(s'.history[job.id].first, Counted(s'.history[job.id]))
    ensures Lives(s')
  {
    hide Saved, HistoryOk, Replay, Counted;
    SavedJobs(s.stored, job, s.now) by {
      hide StoredOk;
    }
    forall id | id in s'.live
      ensures LiveOk(s', id)
    {
      if id != job.id {
        KnownRuns(s, id);
        LiveFrame(s, s', job.id, id);
      }
    }
  }

  lemma LiveFrame(s: State, s': State, id: string, x: string)
    requires x != id && x in s.live && x in s'.live && LiveOk(s, x) && OthersSame(s, s', id)
    requires var known := Replay(s.history[x].first, Counted(s.history[x])); known in s.stored ==> known in s'.stored
    ensures LiveOk(s', x)
  {
    hide Replay, Counted;
  }

  /** Once every attempt is saved, the store may hold the job as it is in memory. */
  lemma SavedHistory(s: State, id: string)
    requires Inv(s) && id in s.live
    ensures id in s.history && id in s.drawn && HistoryOk(id, s.history[id].(unsaved := false)) && MemoryOk(s, id)
    ensures var l, h := s.live[id], s.history[id].(unsaved := false);
            && l.job.id == id && l.job == Replay(h.first, Counted(h)) && InProgress(l.job, |h.tries|)
               && l.job.total == h.first.total
  {
    hide Stores;
    assert LiveOk(s, id);
    var h := s.history[id];
    ReplayCounts(id, h.first, h.tries);
    hide Replay;
  }

  lemma SaveOthers(s: State, step: Step, id: string)
    requires Enabled(s, step) && (step == Save(id) || step == Finish(id))
    ensures OthersSame(s, Next(s, step), id)
  {
    hide Saved, Finished, AtEnd;
  }

  /** A running job in progress, saved, tells its history. */
  lemma TellsInMemory(job: Job, h: History)
    requires job == Replay(h.first, Counted(h)) && job.status.Running?
    ensures Tells(job, h)
  {
  }

  lemma TellsFinished(job: Job, h: History, now: int)
    requires job == Replay(h.first, Counted(h)) && !h.unsaved && (job.status.Running? || job.status.Failed?)
    requires job.status.Running? ==> |h.tries| == h.first.total
    ensures Tells(Finished(job, now), h)
  {
    hide Replay, Counted;
  }

  lemma SaveMemory(s: State, id: string)
    requires Enabled(s, Save(id)) && MemoryOk(s, id) && InProgress(s.live[id].job, |s.history[id].tries|)
    ensures var s' := Next(s, Save(id));
            && s'.history[id] == s.history[id].(unsaved := false)
            && s'.live[id] == s.live[id].(phase := AtRow) && MemoryOk(s', id) && s.live[id].job.status.Running?
  {
    hide Replay, Saved;
  }

  lemma SaveKeepsInv(s: State, id: string)
    requires Inv(s) && Enabled(s, Save(id))
    ensures Inv(Next(s, Save(id)))
  {
    var s', l := Next(s, Save(id)), s.live[id];
    SavedHistory(s, id);
    SaveOthers(s, Save(id), id);
    hide HistoryOk, Replay, Counted, Stores, Histories, Lives, Saved, OthersSame;
    SaveMemory(s, id);
    hide MemoryOk;
    TellsInMemory(l.job, s'.history[id]);
    hide Tells;
    HistoriesKept(s, s', id);
    SavedStores(s, s', l.job);
    SavedLives(s, s', l.job);
  }

  lemma FinishKeepsInv(s: State, id: string)
    requires Inv(s) && Enabled(s, Finish(id))
    ensures Inv(Next(s, Finish(id)))
  {
    var s', l := Next(s, Finish(id)), s.live[id];
    SavedHistory(s, id);
    SaveOthers(s, Finish(id), id);
    hide HistoryOk, Replay, Counted, Stores, Histories, Lives, Saved, OthersSame;
    var h := s.history[id].(unsaved := false);
    assert s'.history[id] == h && id !in s'.live;
    TellsFinished(l.job, h, s.now);
    hide Tells, Next;
    HistoriesKept(s, s', id);
    SavedStores(s, s', Finished(l.job, s.now));
    SavedLives(s, s', Finished(l.job, s.now));
  }

  lemma StartKeepsInv(s: State, step: Step)
    requires Inv(s) && Enabled(s, step) && step.Start?
    ensures Inv(Next(s, step))
  {
    var listed := s.(stored := Listed(s.stored, s.startedHere, s.now));
    var job := NewJob(step.id, step.workspaceId, step.total, s.now);
    var s' := Next(s, step);
    ListKeepsInv(s);
    StartOthers(s, step);
    NewJobTells(job);
    assert Inv(listed) ==> Stores(listed) && Histories(listed);
    assert Stores(s') && Histories(s') && Lives(s') ==> Inv(s');
    hide *;
    HistoriesKept(listed, s', step.id);
    SavedStores(listed, s', job);
    SavedLives(listed, s', job);
  }

  lemma StartOthers(s: State, step: Step)
    requires Enabled(s, step) && step.Start?
    ensures var listed := s.(stored := Listed(s.stored, s.startedHere, s.now));
            var job := NewJob(step.id, step.workspaceId, step.total, s.now);
            var s' := Next(s, step);
            && OthersSame(listed, s', step.id) && MemoryOk(s', step.id)
            && s'.stored == Saved(listed.stored, job, listed.now)
            && step.id in s'.live && step.id in s'.drawn && s'.history[step.id] == History(job, [], false)
            && job.id == step.id && job.status.Running? && job.finishedAt.None?
  {
    hide Saved, Listed, HasActive;
  }

  lemma NewJobTells(job: Job)
    requires Begun(job.id, job)
    ensures HistoryOk(job.id, History(job, [], false)) && Tells(job, History(job, [], false))
    ensures Replay(job, Counted(History(job, [], false))) == job
  {
  }

  lemma AttemptKeepsInv(s: State, id: string, outcome: Outcome)
    requires Inv(s) && Enabled(s, Attempt(id, outcome))
    ensures Inv(Next(s, Attempt(id, outcome)))
  {
    var s' := Next(s, Attempt(id, outcome));
    KnownRuns(s, id);
    AttemptHistory(s, id, outcome);
    hide HistoryOk, Replay, Attempted, Counted, Stores, Histories;
    assert OthersSame(s, s', id);
    hide OthersSame;
    HistoriesKept(s, s', id);
    AttemptStored(s, s', id);
    forall x | x in s'.live
      ensures LiveOk(s', x)
    {
      if x != id {
        LiveFrame(s, s', id, x);
      }
    }
  }

  /** An attempt tells the store nothing. */
  lemma AttemptStored(s: State, s': State, id: string)
    requires Inv(s) && id in s.live && s'.stored == s.stored && OthersSame(s, s', id)
    requires id in s.history && id in s'.history && s'.history[id].first == s.history[id].first
    requires Counted(s'.history[id]) == Counted(s.history[id])
    ensures Stores(s')
  {
    KnownRuns(s, id);
    hide HistoryOk, Lives, Replay, Counted;
    var known := Replay(s.history[id].first, Counted(s.history[id]));
    forall job | job in s.stored
      ensures StoredOk(s', job)
    {
      assert StoredOk(s, job);
      if job.id == id {
        StoredById(s.stored, job, known);
      }
    }
  }

  lemma AttemptHistory(s: State, id: string, outcome: Outcome)
    requires id in s.live && LiveOk(s, id) && HistoryOk(id, s.history[id]) && Enabled(s, Attempt(id, outcome))
    ensures var s' := Next(s, Attempt(id, outcome));
            && id in s'.history && HistoryOk(id, s'.history[id]) && MemoryOk(s', id)
            && s'.history[id].first == s.history[id].first && Counted(s'.history[id]) == Counted(s.history[id])
  {
    var s', h, l := Next(s, Attempt(id, outcome)), s.history[id], s.live[id];
    var t := Try(l.next, outcome);
    assert s'.history[id] == h.(tries := h.tries + [t], unsaved := true);
    ReplayCounts(id, h.first, h.tries);
    hide Replay;
    TriedOnce(id, h, t);
  }

  /** One more attempt at the next row of a running job. */
  lemma TriedOnce(id: string, h: History, t: Try)
    requires HistoryOk(id, h) && !h.unsaved && t.row == |h.tries| < h.first.total
    requires Replay(h.first, h.tries).status.Running?
    ensures var h' := h.(tries := h.tries + [t], unsaved := true);
            && HistoryOk(id, h') && Counted(h') == Counted(h)
            && Replay(h'.first, h'.tries) == Attempted(Replay(h.first, h.tries), t.row, t.outcome)
            && var job := Replay(h'.first, h'.tries); job.status.Running? || job.status.Failed?
  {
    var tries := h.tries + [t];
    assert tries[..|tries| - 1] == h.tries;
  }

  lemma DropLiveKeepsInv(s: State, s': State)
    requires Inv(s) && s'.stored == s.stored && s'.history == s.history && s'.drawn == s.drawn
    requires forall id :: id in s'.live ==> id in s.live && s'.live[id] == s.live[id] && id in s'.startedHere
    ensures Inv(s')
  {
    hide HistoryOk, Tells, Replay;
    forall job | job in s'.stored
      ensures StoredOk(s', job)
    {
      assert StoredOk(s, job);
    }
    forall id | id in s'.live
      ensures LiveOk(s', id)
    {
      assert LiveOk(s, id);
    }
  }

  lemma NextKeepsInv(s: State, step: Step)
    requires Inv(s) && Enabled(s, step)
    ensures Inv(Next(s, step))
  {
    match step
    case Start(_, _, _) => StartKeepsInv(s, step);
    case Attempt(id, outcome) => AttemptKeepsInv(s, id, outcome);
    case Save(id) => SaveKeepsInv(s, id);
    case Finish(id) => FinishKeepsInv(s, id);
    case List => ListKeepsInv(s);
    case _ =>
      assert forall id :: id in s.live ==> LiveOk(s, id);
      DropLiveKeepsInv(s, Next(s, step));
  }

  // ---------------------------------------------------------------------
  // Over every run

  lemma {:induction false} RunKeepsInv(s: State, steps: seq<Step>)
    requires Inv(s) && ValidRun(s, steps)
    ensures Inv(Run(s, steps))
    decreases |steps|
  {
    hide Inv, Next, Enabled;
    if steps != [] {
      NextKeepsInv(s, steps[0]);
      RunKeepsInv(Next(s, steps[0]), steps[1..]);
    }
  }

  /** What a stored job says of the attempts behind it: its counts agree with its
      status, they are those of the attempts that were saved, and they are the
      counts of all attempts exactly when none waits for its save. */
  ghost predicate Accounts(job: Job, h: History) {
    && Consistent(job) && job.total == h.first.total
    && job.done == IssuedCount(Counted(h)) && job.done + job.failed == |Counted(h)|
    && (job.done + job.failed == |h.tries| <==> !h.unsaved)
    && (h.unsaved ==> job.done + job.failed == |h.tries| - 1 && (job.status.Running? || job.status.Interrupted?))
    && (job.done == IssuedCount(h.tries) <==> !(h.unsaved && h.tries[|h.tries| - 1].outcome.Issued?))
  }

  lemma StoredAccounts(s: State, job: Job)
    requires Inv(s) && job in s.stored
    ensures job.id in s.history && (s.history[job.id].unsaved ==> s.history[job.id].tries != [])
    ensures Accounts(job, s.history[job.id])
  {
    assert StoredOk(s, job) && HistoryOk(job.id, s.history[job.id]);
    KnownCounts(job.id, s.history[job.id]);
    hide Replay, Inv;
  }

  /** At every point of every run, crashes, failed saves and restarts included:
      the rows of each job were tried in file order, as a prefix, none twice, and
      each stored job accounts for all of them but an attempt that no save has
      followed. A job in memory has such an attempt exactly between its attempt
      and its save. */
  lemma CrashSafe(now: int, steps: seq<Step>)
    requires ValidRun(Initial(now), steps)
    ensures var s := Run(Initial(now), steps);
            && (forall id :: id in s.history ==>
                InOrder(s.history[id].tries) && |s.history[id].tries| <= s.history[id].first.total)
            && (forall job :: job in s.stored ==> job.id in s.history && Accounts(job, s.history[job.id]))
            && (forall id :: id in s.live ==> id in s.history && (s.live[id].phase.AtRow? <==> !s.history[id].unsaved))
  {
    RunKeepsInv(Initial(now), steps);
    var s := Run(Initial(now), steps);
    assert forall id :: id in s.live ==> LiveOk(s, id);
    forall job | job in s.stored
      ensures job.id in s.history && Accounts(job, s.history[job.id])
    {
      StoredAccounts(s, job);
    }
  }

  /** The count that an interrupted job carries can be one short: the process
      restarts after a row was issued and before that was saved. */
  lemma InterruptedOneBehind(now: int)
    ensures var steps := [Start("job", "org", 2), Attempt("job", Issued), Crash, List];
            && ValidRun(Initial(now), steps)
            && var s := Run(Initial(now), steps);
               && |s.stored| == 1 && s.stored[0].status.Interrupted? && s.stored[0].done == 0
               && "job" in s.history && s.history["job"].tries == [Try(0, Issued)]
  {
    var s0 := Initial(now);
    var s1 := Next(s0, Start("job", "org", 2));
    var s2 := Next(s1, Attempt("job", Issued));
    var s3 := Next(s2, Crash);
    var s4 := Next(s3, List);
    var job := NewJob("job", "org", 2, now);
    assert Listed([], {}, now) == [] && Replaced([], job) == [job];
    assert [job][1..] == [] && DropOld([], now) == [];
    assert DropOld([job], now) == [job];
    assert s1.stored == [job];
    var steps := [Start("job", "org", 2), Attempt("job", Issued), Crash, List];
    assert steps[1..] == [Attempt("job", Issued), Crash, List];
    assert steps[1..][1..] == [Crash, List];
    assert steps[1..][1..][1..] == [List];
    hide Next, Enabled;
    assert ValidRun(s4, []) && Run(s4, []) == s4;
    assert ValidRun(s3, [List]) && Run(s3, [List]) == s4;
    assert ValidRun(s2, [Crash, List]) && Run(s2, [Crash, List]) == s4;
  }

  lemma DeadStep(s: State, step: Step, id: string)
    requires Enabled(s, step) && id in s.drawn && id in s.history && id !in s.live
    ensures var s' := Next(s, step); id !in s'.live && id in s'.history && s'.history[id] == s.history[id]
  {
    hide Saved, Listed, HasActive;
  }

  // ---------------------------------------------------------------------
  // What an interrupted job tells the administrator to remove

  ghost predicate IssuedRow(tries: seq<Try>, row: nat) { row < |tries| && tries[row].outcome.Issued? }

  /** The first `done` rows of the file are the issued ones. */
  ghost predicate FirstRowsIssued(job: Job, h: History) {
    forall row: nat :: IssuedRow(h.tries, row) <==> row < job.done
  }

  /** No refusal comes before an issue. */
  ghost predicate IssuesFirst(tries: seq<Try>) {
    forall i, j :: 0 <= i < j < |tries| && tries[j].outcome.Issued? ==> tries[i].outcome.Issued?
  }

  lemma {:induction false} IssuedPrefix(tries: seq<Try>)
    requires IssuesFirst(tries)
    ensures forall row: nat :: IssuedRow(tries, row) <==> row < IssuedCount(tries)
    decreases |tries|
  {
    if tries != [] {
      var n := |tries| - 1;
      var front := tries[..n];
      IssuedPrefix(front);
      assert forall row: nat :: row < n ==> (IssuedRow(tries, row) <==> IssuedRow(front, row));
      if tries[n].outcome.Issued? {
        AllIssued(front);
      }
    }
  }

  lemma {:induction false} AllIssued(tries: seq<Try>)
    requires forall i :: 0 <= i < |tries| ==> tries[i].outcome.Issued?
    ensures IssuedCount(tries) == |tries|
    decreases |tries|
  {
    if tries != [] {
      AllIssued(tries[..|tries| - 1]);
    }
  }

  /** The rows that the stored count tells to remove are the issued ones exactly if no
      refusal came before an issue and the last attempt is not an issue that no
      save has followed. */
  lemma FirstRowsExact(job: Job, h: History)
    requires Accounts(job, h) && (h.unsaved ==> h.tries != [])
    ensures FirstRowsIssued(job, h) <==>
              IssuesFirst(h.tries) && !(h.unsaved && h.tries[|h.tries| - 1].outcome.Issued?)
  {
    if FirstRowsIssued(job, h) {
      FirstRowsMeanFirst(job, h);
      IssuedPrefix(h.tries);
      var count := IssuedCount(h.tries);
      assert job.done < count ==> IssuedRow(h.tries, job.done);
    } else if IssuesFirst(h.tries) {
      IssuedPrefix(h.tries);
    }
  }

  lemma FirstRowsMeanFirst(job: Job, h: History)
    requires FirstRowsIssued(job, h)
    ensures IssuesFirst(h.tries)
  {
    forall i, j | 0 <= i < j < |h.tries| && h.tries[j].outcome.Issued?
      ensures h.tries[i].outcome.Issued?
    {
      assert IssuedRow(h.tries, j) && IssuedRow(h.tries, i);
    }
  }

  /** The same over every run, for every stored job. */
  lemma AdviceExact(now: int, steps: seq<Step>, job: Job)
    requires ValidRun(Initial(now), steps) && job in Run(Initial(now), steps).stored
    ensures var s := Run(Initial(now), steps);
            && job.id in s.history
            && var h := s.history[job.id];
               && (h.unsaved ==> h.tries != [])
               && (FirstRowsIssued(job, h) <==>
                     IssuesFirst(h.tries) && !(h.unsaved && h.tries[|h.tries| - 1].outcome.Issued?))
  {
    RunKeepsInv(Initial(now), steps);
    var s := Run(Initial(now), steps);
    StoredAccounts(s, job);
    hide *;
    FirstRowsExact(job, s.history[job.id]);
  }

  /** A concrete run whose interrupted job carries its exact counts and yet names the
      wrong row: the first one was refused and the second one issued. */
  lemma RefusedRowNamed(now: int)
    ensures var steps := [Start("job", "org", 2), Attempt("job", Refused(false)), Save("job"), Attempt("job", Issued),
                          Save("job"), Crash, List];
            && ValidRun(Initial(now), steps)
            && var s := Run(Initial(now), steps);
               && |s.stored| == 1 && s.stored[0].status.Interrupted? && s.stored[0].done == 1 && s.stored[0].failed == 1
               && "job" in s.history && s.history["job"].tries == [Try(0, Refused(false)), Try(1, Issued)]
               && !s.history["job"].unsaved && !FirstRowsIssued(s.stored[0], s.history["job"])
  {
    hide *;
    var job := NewJob("job", "org", 2, now);
    var refused := Attempted(job, 0, Refused(false));
    var issued := Attempted(refused, 1, Issued);
    var a, b := Try(0, Refused(false)), Try(1, Issued);
    RefusedThenIssued(now, job, refused, issued, a, b);
    var s1 := OneJob(now, job, map["job" := Live(job, 0, AtRow)], History(job, [], false));
    var s3 := OneJob(now, refused, map["job" := Live(refused, 1, AtRow)], History(job, [a], false));
    var s5 := OneJob(now, issued, map["job" := Live(issued, 2, AtRow)], History(job, [a, b], false));
    StartAlone(now, "job", "org", 2);
    AttemptAndSave(now, job, 0, History(job, [], false), Refused(false));
    AttemptAndSave(now, refused, 1, History(job, [a], false), Issued);
    CrashAndList(now, issued, map["job" := Live(issued, 2, AtRow)], History(job, [a, b], false));
    var second := [Attempt("job", Issued), Save("job")] + [Crash, List];
    var first := [Attempt("job", Refused(false)), Save("job")] + second;
    RunTwo(s3, Attempt("job", Issued), Save("job"), [Crash, List]);
    RunTwo(s1, Attempt("job", Refused(false)), Save("job"), second);
    RunOne(Initial(now), Start("job", "org", 2), first);
    assert [Start("job", "org", 2)] + first ==
           [Start("job", "org", 2), Attempt("job", Refused(false)), Save("job"), Attempt("job", Issued),
            Save("job"), Crash, List];
  }

  lemma RefusedThenIssued(now: int, job: Job, refused: Job, issued: Job, a: Try, b: Try)
    requires job == NewJob("job", "org", 2, now) && a == Try(0, Refused(false)) && b == Try(1, Issued)
    requires refused == Attempted(job, 0, Refused(false)) && issued == Attempted(refused, 1, Issued)
    ensures [] + [a] == [a] && [a] + [b] == [a, b]
    ensures job.id == "job" && job.status.Running? && job.finishedAt.None? && job.total == 2
    ensures refused == job.(failed := 1, failures := [2]) && issued == refused.(done := 1)
    ensures var told := InterruptedJob(issued, now);
            && told.status.Interrupted? && told.done == 1 && told.failed == 1
            && !FirstRowsIssued(told, History(job, [a, b], false))
  {
    assert !IssuedRow([a, b], 0);
  }

  /** The state of a process that holds one job. */
  function OneJob(now: int, stored: Job, live: map<string, Live>, h: History): State {
    State([stored], live, {stored.id}, {stored.id}, now, map[stored.id := h])
  }

  lemma StartAlone(now: int, id: string, workspaceId: string, total: nat)
    ensures var job := NewJob(id, workspaceId, total, now);
            && Enabled(Initial(now), Start(id, workspaceId, total))
            && Next(Initial(now), Start(id, workspaceId, total)) ==
               OneJob(now, job, map[id := Live(job, 0, AtRow)], History(job, [], false))
  {
    SavedFirst(NewJob(id, workspaceId, total, now), now);
    hide Saved;
    assert Listed([], {}, now) == [];
  }

  /** A row that does not stop the job, tried and saved. */
  lemma AttemptAndSave(now: int, job: Job, next: nat, h: History, outcome: Outcome)
    requires next < job.total && job.status.Running? && job.finishedAt.None? && !h.unsaved && outcome != Refused(true)
    ensures var s := OneJob(now, job, map[job.id := Live(job, next, AtRow)], h);
            var after := Attempted(job, next, outcome);
            && Enabled(s, Attempt(job.id, outcome)) && Enabled(Next(s, Attempt(job.id, outcome)), Save(job.id))
            && Next(Next(s, Attempt(job.id, outcome)), Save(job.id)) ==
               OneJob(now, after, map[job.id := Live(after, next + 1, AtRow)],
                      h.(tries := h.tries + [Try(next, outcome)]))
  {
    var after := Attempted(job, next, outcome);
    assert after.id == job.id && after.status.Running? && after.finishedAt.None?;
    SavedAlone(job, after, now);
    hide Saved, Attempted;
  }

  lemma CrashAndList(now: int, job: Job, live: map<string, Live>, h: History)
    requires job.status.Running?
    ensures var s := OneJob(now, job, live, h);
            && ValidRun(s, [Crash, List])
            && Run(s, [Crash, List]).stored == [InterruptedJob(job, now)]
               && Run(s, [Crash, List]).history == map[job.id := h]
  {
    var s := OneJob(now, job, live, h);
    var crashed := Next(s, Crash);
    var told := Next(crashed, List);
    assert told.stored == [InterruptedJob(job, now)];
    assert Enabled(s, Crash) && Enabled(crashed, List);
    hide Next, Enabled;
    RunTwo(s, Crash, List, []);
    assert [Crash, List] + [] == [Crash, List];
  }

  lemma SavedAlone(before: Job, job: Job, now: int)
    requires before.id == job.id && job.finishedAt.None?
    ensures Saved([before], job, now) == [job]
  {
    assert [before][1..] == [] && [job] + [] == [job];
    assert Replaced([before], job) == [job];
    assert [job][1..] == [] && DropOld([], now) == [];
  }

  lemma SavedFirst(job: Job, now: int)
    requires job.finishedAt.None?
    ensures Saved([], job, now) == [job]
  {
    assert Replaced([], job) == [job];
    assert [job][1..] == [] && DropOld([], now) == [];
  }

  // ---------------------------------------------------------------------
  // One import at a time

  predicate IsRunning(job: Job) { job.status.Running? }

  /** No two running jobs of one workspace are stored. */
  ghost predicate OneRunning(jobs: seq<Job>) {
    forall a, b :: a in jobs && b in jobs && IsRunning(a) && IsRunning(b) && a.workspaceId == b.workspaceId ==> a == b
  }

  lemma NextKeepsOneRunning(s: State, step: Step)
    requires Inv(s) && Enabled(s, step) && OneRunning(s.stored)
    ensures OneRunning(Next(s, step).stored)
  {
    hide OneRunning, Saved, Listed, HasActive;
    match step
    case Start(id, workspaceId, total) =>
      var listed := Listed(s.stored, s.startedHere, s.now);
      ListKeepsInv(s);
      ListedOneRunning(s.stored, s.startedHere, s.now);
      NoneActive(listed, workspaceId);
      SavedOneRunning(listed, NewJob(id, workspaceId, total, s.now), s.now);
    case Save(id) =>
      SavedHistory(s, id);
      SameWorkspace(s, id);
      hide Histories, Lives, MemoryOk, HistoryOk, StoredOk;
      SavedOneRunning(s.stored, s.live[id].job, s.now);
    case Finish(id) =>
      SavedHistory(s, id);
      hide Histories, Lives, MemoryOk, HistoryOk, StoredOk;
      SavedOneRunning(s.stored, Finished(s.live[id].job, s.now), s.now);
    case List => ListedOneRunning(s.stored, s.startedHere, s.now);
    case _ =>
  }

  /** What is saved is no running job, or the only one of its workspace apart from
      the job that it replaces. */
  lemma SavedOneRunning(jobs: seq<Job>, job: Job, now: int)
    requires DistinctIds(jobs) && OneRunning(jobs)
    requires job.status.Running? ==>
               forall x :: x in jobs && x.status.Running? && x.workspaceId == job.workspaceId ==> x.id == job.id
    ensures OneRunning(Saved(jobs, job, now))
  {
    hide Saved;
    SavedJobs(jobs, job, now);
  }

  lemma ListedOneRunning(jobs: seq<Job>, startedHere: set<string>, now: int)
    requires OneRunning(jobs)
    ensures OneRunning(Listed(jobs, startedHere, now))
  {
    var listed := Listed(jobs, startedHere, now);
    forall a | a in listed && a.status.Running?
      ensures a in jobs
    {
      var i :| 0 <= i < |listed| && listed[i] == a;
      assert jobs[i] in jobs;
    }
  }

  lemma NoneActive(jobs: seq<Job>, workspaceId: string)
    requires !HasActive(jobs, workspaceId)
    ensures forall x :: x in jobs && x.status.Running? ==> x.workspaceId != workspaceId
  {
  }

  /** A job in memory is of the workspace that its stored form names. */
  lemma SameWorkspace(s: State, id: string)
    requires Inv(s) && OneRunning(s.stored) && id in s.live
    ensures forall x :: x in s.stored && x.status.Running? && x.workspaceId == s.live[id].job.workspaceId ==> x.id == id
  {
    KnownRuns(s, id);
    var h := s.history[id];
    ReplayCounts(id, h.first, h.tries);
    KnownWorkspace(id, h);
    hide Replay;
  }

  lemma KnownWorkspace(id: string, h: History)
    requires HistoryOk(id, h)
    ensures Replay(h.first, Counted(h)).workspaceId == h.first.workspaceId
  {
    KnownCounts(id, h);
    ReplayWorkspace(h.first, Counted(h));
  }

  lemma {:induction false} ReplayWorkspace(first: Job, tries: seq<Try>)
    ensures Replay(first, tries).workspaceId == first.workspaceId
    decreases |tries|
  {
    if tries != [] {
      ReplayWorkspace(first, tries[..|tries| - 1]);
    }
  }

  lemma {:induction false} RunKeepsOneRunning(s: State, steps: seq<Step>)
    requires Inv(s) && OneRunning(s.stored) && ValidRun(s, steps)
    ensures OneRunning(Run(s, steps).stored)
    decreases |steps|
  {
    hide Inv, Next, Enabled, OneRunning;
    if steps != [] {
      NextKeepsInv(s, steps[0]);
      NextKeepsOneRunning(s, steps[0]);
      RunKeepsOneRunning(Next(s, steps[0]), steps[1..]);
    }
  }

  /** Over every run at most one running job of a workspace is stored. */
  lemma OneImportAtATime(now: int, steps: seq<Step>)
    requires ValidRun(Initial(now), steps)
    ensures OneRunning(Run(Initial(now), steps).stored)
  {
    RunKeepsOneRunning(Initial(now), steps);
  }

  /** A job of this process whose run ended without its last save. */
  ghost predicate Abandoned(s: State, job: Job) {
    job in s.stored && job.status.Running? && job.id in s.startedHere && job.id in s.drawn && job.id !in s.live
  }

  lemma NextKeepsAbandoned(s: State, step: Step, job: Job)
    requires Inv(s) && Enabled(s, step) && !step.Crash? && Abandoned(s, job)
    ensures Abandoned(Next(s, step), job)
  {
    AbandonedIsOpen(s, job);
    match step
    case Start(id, workspaceId, total) =>
      var listed := Listed(s.stored, s.startedHere, s.now);
      ListKeepsInv(s);
      ListedKeeps(s.stored, s.startedHere, s.now, job);
      hide Inv, Saved, Listed, HasActive;
      SavedKeeps(listed, NewJob(id, workspaceId, total, s.now), s.now, job);
    case Save(id) =>
      SavedHistory(s, id);
      hide Saved, MemoryOk, HistoryOk;
      SavedKeeps(s.stored, s.live[id].job, s.now, job);
    case Finish(id) =>
      SavedHistory(s, id);
      hide Saved, MemoryOk, HistoryOk;
      SavedKeeps(s.stored, Finished(s.live[id].job, s.now), s.now, job);
    case List => ListedKeeps(s.stored, s.startedHere, s.now, job);
    case _ =>
  }

  lemma AbandonedIsOpen(s: State, job: Job)
    requires Inv(s) && job in s.stored && job.status.Running?
    ensures DistinctIds(s.stored) && job.finishedAt.None?
  {
    assert StoredOk(s, job) && HistoryOk(job.id, s.history[job.id]);
    KnownCounts(job.id, s.history[job.id]);
  }

  lemma SavedKeeps(jobs: seq<Job>, saved: Job, now: int, job: Job)
    requires DistinctIds(jobs) && job in jobs && job.id != saved.id && job.finishedAt.None?
    ensures job in Saved(jobs, saved, now)
  {
    hide Saved;
    SavedJobs(jobs, saved, now);
  }

  lemma ListedKeeps(jobs: seq<Job>, startedHere: set<string>, now: int, job: Job)
    requires job in jobs && job.id in startedHere
    ensures job in Listed(jobs, startedHere, now)
  {
    var i :| 0 <= i < |jobs| && jobs[i] == job;
    assert Listed(jobs, startedHere, now)[i] == job;
  }

  /** An abandoned job keeps its workspace from importing until the process restarts. */
  lemma {:induction false} AbandonedBlocks(s: State, steps: seq<Step>, job: Job)
    requires Inv(s) && ValidRun(s, steps) && Abandoned(s, job) && Crash !in steps
    ensures var s' := Run(s, steps);
            && Abandoned(s', job)
            && forall id, total :: !Enabled(s', Start(id, job.workspaceId, total))
    decreases |steps|
  {
    if steps == [] {
      ListedKeeps(s.stored, s.startedHere, s.now, job);
      var listed := Listed(s.stored, s.startedHere, s.now);
      var i :| 0 <= i < |listed| && listed[i] == job;
      assert HasActive(listed, job.workspaceId);
    } else {
      hide Inv, Next, Enabled, Abandoned;
      assert steps[0] in steps;
      NextKeepsInv(s, steps[0]);
      NextKeepsAbandoned(s, steps[0], job);
      AbandonedBlocks(Next(s, steps[0]), steps[1..], job);
    }
  }

  /** A failed save abandons its job, which stays stored as running. */
  lemma FailedSaveAbandons(s: State, id: string)
    requires Inv(s) && Enabled(s, Abandon(id))
    ensures var known := Replay(s.history[id].first, Counted(s.history[id]));
            known.id == id && Abandoned(Next(s, Abandon(id)), known)
  {
    KnownRuns(s, id);
    hide Replay, Counted, Stores;
  }

  // ---------------------------------------------------------------------
  // After the run

  /** A job that is not in memory is never attempted again, however the process
      goes on, and what its stored counts miss stays missed. */
  lemma {:induction false} DeadStaysDead(s: State, steps: seq<Step>, id: string)
    requires Inv(s) && ValidRun(s, steps) && id in s.history && id !in s.live
    ensures var s' := Run(s, steps); id !in s'.live && id in s'.history && s'.history[id] == s.history[id]
    decreases |steps|
  {
    if steps != [] {
      hide HistoryOk, StoredOk, LiveOk, Next, Enabled;
      DeadStep(s, steps[0], id);
      hide Inv;
      NextKeepsInv(s, steps[0]);
      DeadStaysDead(Next(s, steps[0]), steps[1..], id);
    }
  }

  /** After a restart, listing turns every job left running into an interrupted
      one, with the counts it had. */
  lemma RestartInterrupts(s: State)
    requires Inv(s)
    ensures var after := Next(Next(s, Crash), List);
            && after.live == map[]
            && |after.stored| == |s.stored|
            && forall i :: 0 <= i < |s.stored| ==>
                 var a, b := s.stored[i], after.stored[i];
                 && !b.status.Running? && b.done == a.done && b.failed == a.failed
                 && (if a.status.Running? then b.status.Interrupted? else b == a)
  {
  }

  // ---------------------------------------------------------------------
  // The undisturbed run is a run of the steps

  /** The steps that the loop takes from this row on when nothing comes between. */
  function LoopSteps(id: string, outcomes: seq<Outcome>, row: nat): seq<Step>
    requires row <= |outcomes|
    decreases |outcomes| - row
  {
    if row == |outcomes| then [Finish(id)]
    else if outcomes[row] == Refused(true) then [Attempt(id, outcomes[row]), Finish(id)]
    else [Attempt(id, outcomes[row]), Save(id)] + LoopSteps(id, outcomes, row + 1)
  }

  /** Two states that differ in their histories only. */
  ghost predicate SameButHistory(a: State, b: State) { a.(history := b.history) == b }

  lemma RunTwo(s: State, a: Step, b: Step, rest: seq<Step>)
    requires Enabled(s, a) && Enabled(Next(s, a), b) && ValidRun(Next(Next(s, a), b), rest)
    ensures ValidRun(s, [a, b] + rest) && Run(s, [a, b] + rest) == Run(Next(Next(s, a), b), rest)
  {
    hide *;
    RunOne(Next(s, a), b, rest);
    RunOne(s, a, [b] + rest);
    assert [a] + ([b] + rest) == [a, b] + rest;
  }

  lemma {:induction false} LoopStepsRun(s: State, id: string, outcomes: seq<Outcome>, row: nat)
    requires row <= |outcomes| && id in s.live
    requires var l := s.live[id];
             && l.phase.AtRow? && l.next == row && l.job.id == id && l.job.status.Running? && l.job.total == |outcomes|
    ensures var r := RunRows(s.stored, s.live[id].job, row, outcomes, s.now);
            var steps := LoopSteps(id, outcomes, row);
            && ValidRun(s, steps)
            && SameButHistory(Run(s, steps),
                              s.(stored := Saved(r.0, Finished(r.1, s.now), s.now), live := s.live - {id}))
    decreases |outcomes| - row
  {
    hide Saved, Finished;
    if row == |outcomes| {
      assert [Finish(id)][1..] == [];
    } else {
      var a := Attempt(id, outcomes[row]);
      var s1 := Next(s, a);
      if outcomes[row] == Refused(true) {
        var s2 := Next(s1, Finish(id));
        assert s2.live == s.live - {id};
        RunTwo(s, a, Finish(id), []);
        assert [a, Finish(id)] + [] == [a, Finish(id)];
      } else {
        var s2 := Next(s1, Save(id));
        LoopStepsRun(s2, id, outcomes, row + 1);
        assert s2.live - {id} == s.live - {id};
        RunTwo(s, a, Save(id), LoopSteps(id, outcomes, row + 1));
      }
    }
  }

  /** A run that nothing disturbs, taken step by step from its start, leaves the
      store that the loop computes and the rest as it was. */
  lemma UndisturbedRun(s: State, id: string, workspaceId: string, outcomes: seq<Outcome>)
    requires Inv(s) && Enabled(s, Start(id, workspaceId, |outcomes|))
    ensures var job := NewJob(id, workspaceId, |outcomes|, s.now);
            var r := RunRows(Saved(Listed(s.stored, s.startedHere, s.now), job, s.now), job, 0, outcomes, s.now);
            var steps := [Start(id, workspaceId, |outcomes|)] + LoopSteps(id, outcomes, 0);
            && ValidRun(s, steps)
            && SameButHistory(Run(s, steps),
                              s.(stored := Saved(r.0, Finished(r.1, s.now), s.now), startedHere := s.startedHere + {id},
                                 drawn := s.drawn + {id}))
  {
    var start := Start(id, workspaceId, |outcomes|);
    StartFrame(s, start);
    hide Next, Enabled, Inv, RunRows, LoopSteps;
    LoopStepsRun(Next(s, start), id, outcomes, 0);
    RunOne(s, start, LoopSteps(id, outcomes, 0));
  }

  lemma StartFrame(s: State, start: Step)
    requires Inv(s) && start.Start? && Enabled(s, start)
    ensures var job := NewJob(start.id, start.workspaceId, start.total, s.now);
            var begun := Next(s, start);
            && start.id in begun.live && begun.live[start.id] == Live(job, 0, AtRow)
               && begun.live - {start.id} == s.live
            && SameButHistory(begun, s.(stored := Saved(Listed(s.stored, s.startedHere, s.now), job, s.now),
                                        live := s.live[start.id := Live(job, 0, AtRow)],
                                        startedHere := s.startedHere + {start.id}, drawn := s.drawn + {start.id}))
  {
    hide Saved, Listed, HasActive;
    assert start.id !in s.live by {
      assert start.id in s.live ==> LiveOk(s, start.id);
    }
  }

  lemma RunOne(s: State, a: Step, rest: seq<Step>)
    requires Enabled(s, a) && ValidRun(Next(s, a), rest)
    ensures ValidRun(s, [a] + rest) && Run(s, [a] + rest) == Run(Next(s, a), rest)
  {
    hide Next, Enabled;
    assert ([a] + rest)[1..] == rest;
  }

  /** No step depends on the histories: with other ones it is enabled alike and
      does the same. */
  lemma HistoryUnread(a: State, b: State, step: Step)
    requires SameButHistory(a, b)
    ensures Enabled(a, step) <==> Enabled(b, step)
    ensures Enabled(a, step) ==> SameButHistory(Next(a, step), Next(b, step))
  {
  }
}
