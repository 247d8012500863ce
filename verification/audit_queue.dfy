/** The promise queue that serializes appends. Reading and writing the store are
    separate steps, any number of calls may overlap, and any step may fail. */
module AuditQueue {
  import opened Options
  import opened CodeUnits
  import opened Json
  import opened JsonStore
  import opened EvidenceChain
  import opened AuditService

  datatype Phase =
    | Waiting                          // queued behind the promise in `after`
    | HasRead(snapshot: seq<Record>)   // between its read and its write
    | HasWritten                       // stored, not yet settled
    | Settled(ok: bool)

  /** One call: `after` is the task whose promise was in `queue` when it was made. */
  datatype Task = Task(after: Option<nat>, typ: Text, data: Json, phase: Phase, wrote: Option<Core>)

  datatype State = State(store: seq<Record>, tasks: seq<Task>, queue: Option<nat>)

  datatype Step =
    | Call(typ: Text, data: Json)
    | Read(i: nat)
    | ReadFails(i: nat)
    | Write(i: nat, id: Text, createdAt: Text)
    | WriteFails(i: nat)
    | Settle(i: nat, ok: bool)         // what follows the write may still reject

  /** `queue.then(task, task)`: a task starts once its predecessor has settled,
      whether that one succeeded or not. */
  predicate Ready(s: State, i: nat)
    requires i < |s.tasks|
  {
    var t := s.tasks[i];
    t.phase.Waiting? && (t.after.None? || (t.after.value < |s.tasks| && s.tasks[t.after.value].phase.Settled?))
  }

  predicate Enabled(s: State, step: Step) {
    match step
    case Call(_, _) => true
    case Read(i) => i < |s.tasks| && Ready(s, i)
    case ReadFails(i) => i < |s.tasks| && Ready(s, i)
    case Write(i, _, _) => i < |s.tasks| && s.tasks[i].phase.HasRead?
    case WriteFails(i) => i < |s.tasks| && s.tasks[i].phase.HasRead?
    case Settle(i, _) => i < |s.tasks| && s.tasks[i].phase.HasWritten?
  }

  function Move(s: State, i: nat, phase: Phase): State
    requires i < |s.tasks|
  {
    s.(tasks := s.tasks[i := s.tasks[i].(phase := phase)])
  }

  function Next(h: HashFunction, s: State, step: Step): State
    requires Enabled(s, step)
  {
    match step
    case Call(typ, data) =>
      State(s.store, s.tasks + [Task(s.queue, typ, data, Waiting, None)], Some(|s.tasks|))
    case Read(i) => Move(s, i, HasRead(s.store))
    case ReadFails(i) => Move(s, i, Settled(false))
    case Write(i, id, createdAt) =>
      var t := s.tasks[i];
      var c := EventCore(id, t.typ, t.data, createdAt);
      s.(store := Commit(h, t.phase.snapshot, c), tasks := s.tasks[i := t.(phase := HasWritten, wrote := Some(c))])
    case WriteFails(i) => Move(s, i, Settled(false))
    case Settle(i, ok) => Move(s, i, Settled(ok))
  }

  function Initial(store: seq<Record>): State { State(store, [], None) }

  ghost predicate ValidRun(h: HashFunction, s: State, steps: seq<Step>)
    decreases |steps|
  {
    steps != [] ==> Enabled(s, steps[0]) && ValidRun(h, Next(h, s, steps[0]), steps[1..])
  }

  ghost function Run(h: HashFunction, s: State, steps: seq<Step>): State
    requires ValidRun(h, s, steps)
    decreases |steps|
  {
    if steps == [] then s else Run(h, Next(h, s, steps[0]), steps[1..])
  }

  // ---------------------------------------------------------------------
  // The object that the service keeps: the shared store and the queue variable

  class Queue {
    const h: HashFunction
    var store: seq<Record>
    var tasks: seq<Task>
    var queue: Option<nat>

    ghost function View(): State
      reads this
    {
      State(store, tasks, queue)
    }

    constructor (h: HashFunction, initial: seq<Record>)
      ensures this.h == h && View() == Initial(initial)
    {
      this.h := h;
      store, tasks, queue := initial, [], None;
    }

    method Enqueue(typ: Text, data: Json) returns (run: nat)
      modifies this
      ensures View() == Next(h, old(View()), Call(typ, data)) && run == old(|tasks|)
    {
      run := |tasks|;
      tasks := tasks + [Task(queue, typ, data, Waiting, None)];
      queue := Some(run);
    }

    method ReadStore(i: nat, fails: bool)
      requires i < |tasks| && Ready(View(), i)
      modifies this
      ensures View() == Next(h, old(View()), if fails then ReadFails(i) else Read(i))
    {
      tasks := tasks[i := tasks[i].(phase := if fails then Settled(false) else HasRead(store))];
    }

    method WriteStore(i: nat, id: Text, createdAt: Text, fails: bool)
      requires i < |tasks| && tasks[i].phase.HasRead?
      modifies this
      ensures View() == Next(h, old(View()), if fails then WriteFails(i) else Write(i, id, createdAt))
    {
      var t := tasks[i];
      if fails {
        tasks := tasks[i := t.(phase := Settled(false))];
      } else {
        var c := EventCore(id, t.typ, t.data, createdAt);
        store := Commit(h, t.phase.snapshot, c);
        tasks := tasks[i := t.(phase := HasWritten, wrote := Some(c))];
      }
    }

    /** The promise of the run settles, which lets the next one start. */
    method SettleRun(i: nat, ok: bool)
      requires i < |tasks| && tasks[i].phase.HasWritten?
      modifies this
      ensures View() == Next(h, old(View()), Settle(i, ok))
    {
      tasks := tasks[i := tasks[i].(phase := Settled(ok))];
    }
  }

  // ---------------------------------------------------------------------
  // What every step keeps

  function LastBefore(n: nat): Option<nat> {
    if n == 0 then None else Some(n - 1)
  }

  /** The store after the tasks that wrote, applied in call order. */
  ghost function Replay(h: HashFunction, init: seq<Record>, tasks: seq<Task>): seq<Record>
    decreases |tasks|
  {
    if tasks == [] then init
    else
      var before := Replay(h, init, tasks[..|tasks| - 1]);
      match tasks[|tasks| - 1].wrote
      case Some(c) => Commit(h, before, c)
      case None => before
  }

  /** A task has left the queue only when every earlier call has settled. */
  ghost predicate InCallOrder(s: State) {
    forall i, j :: 0 <= i < j < |s.tasks| && !s.tasks[j].phase.Waiting? ==> s.tasks[i].phase.Settled?
  }

  ghost predicate QueueLinked(s: State) {
    s.queue == LastBefore(|s.tasks|) && forall i :: 0 <= i < |s.tasks| ==> s.tasks[i].after == LastBefore(i)
  }

  ghost predicate TaskOk(s: State, i: nat)
    requires i < |s.tasks|
  {
    var t := s.tasks[i];
    && (t.phase.Waiting? ==> t.wrote.None?)
    && (t.phase.HasRead? ==> t.wrote.None? && t.phase.snapshot == s.store)
    && (t.phase.HasWritten? || t.phase == Settled(true) ==> t.wrote.Some?)
    && (t.wrote.Some? ==> exists id, createdAt :: t.wrote.value == EventCore(id, t.typ, t.data, createdAt))
  }

  ghost predicate Inv(h: HashFunction, init: seq<Record>, s: State) {
    && QueueLinked(s)
    && InCallOrder(s)
    && (forall i :: 0 <= i < |s.tasks| ==> TaskOk(s, i))
    && s.store == Replay(h, init, s.tasks)
  }

  /** Tasks that have not written do not change the replay. */
  lemma {:induction false} ReplayIgnoresUnwritten(h: HashFunction, init: seq<Record>, tasks: seq<Task>, n: nat)
    requires n <= |tasks|
    requires forall i :: n <= i < |tasks| ==> tasks[i].wrote.None?
    ensures Replay(h, init, tasks) == Replay(h, init, tasks[..n])
    decreases |tasks|
  {
    if n == |tasks| {
      assert tasks[..n] == tasks;
    } else {
      var front := tasks[..|tasks| - 1];
      ReplayIgnoresUnwritten(h, init, front, n);
      assert front[..n] == tasks[..n];
    }
  }

  /** The replay depends on what was written and on nothing else of the tasks. */
  lemma {:induction false} ReplaySameWrites(h: HashFunction, init: seq<Record>, a: seq<Task>, b: seq<Task>)
    requires |a| == |b| && forall i :: 0 <= i < |a| ==> a[i].wrote == b[i].wrote
    ensures Replay(h, init, a) == Replay(h, init, b)
    decreases |a|
  {
    if a != [] {
      ReplaySameWrites(h, init, a[..|a| - 1], b[..|b| - 1]);
    }
  }

  lemma NextKeepsInv(h: HashFunction, init: seq<Record>, s: State, step: Step)
    requires Inv(h, init, s) && Enabled(s, step)
    ensures Inv(h, init, Next(h, s, step))
  {
    match step
    case Call(_, _) => CallKeepsInv(h, init, s, step);
    case Write(_, _, _) => WriteKeepsInv(h, init, s, step);
    case _ => MoveKeepsInv(h, init, s, step);
  }

  lemma CallKeepsInv(h: HashFunction, init: seq<Record>, s: State, step: Step)
    requires Inv(h, init, s) && step.Call?
    ensures Inv(h, init, Next(h, s, step))
  {
    hide Commit, EventCore;
    var s' := Next(h, s, step);
    ReplayIgnoresUnwritten(h, init, s'.tasks, |s.tasks|);
    assert s'.tasks[..|s.tasks|] == s.tasks;
    forall i | 0 <= i < |s'.tasks|
      ensures TaskOk(s', i)
    {
      if i < |s.tasks| {
        assert TaskOk(s, i);
      }
    }
  }

  lemma MoveKeepsInv(h: HashFunction, init: seq<Record>, s: State, step: Step)
    requires Inv(h, init, s) && Enabled(s, step) && !step.Call? && !step.Write?
    ensures Inv(h, init, Next(h, s, step))
  {
    hide Commit, EventCore;
    var s' := Next(h, s, step);
    PredecessorsSettled(h, init, s, step);
    ReplaySameWrites(h, init, s.tasks, s'.tasks);
    forall i | 0 <= i < |s'.tasks|
      ensures TaskOk(s', i)
    {
      assert TaskOk(s, i);
    }
  }

  lemma WriteKeepsInv(h: HashFunction, init: seq<Record>, s: State, step: Step)
    requires Inv(h, init, s) && Enabled(s, step) && step.Write?
    ensures Inv(h, init, Next(h, s, step))
  {
    hide Commit, EventCore;
    var s', i := Next(h, s, step), step.i;
    PredecessorsSettled(h, init, s, step);
    assert TaskOk(s, i);
    LaterHaveNotWritten(h, init, s, i);
    ReplayOneWrite(h, init, s.tasks, s'.tasks, i);
    forall k | 0 <= k < |s'.tasks|
      ensures TaskOk(s', k)
    {
      assert TaskOk(s, k);
    }
  }

  /** The last call to write decides the replay. */
  lemma ReplayOneWrite(h: HashFunction, init: seq<Record>, a: seq<Task>, b: seq<Task>, i: nat)
    requires |a| == |b| && i < |a| && b[i].wrote.Some?
    requires forall k :: 0 <= k < |a| && k != i ==> b[k] == a[k]
    requires forall k :: i <= k < |a| ==> a[k].wrote.None?
    ensures Replay(h, init, b) == Commit(h, Replay(h, init, a), b[i].wrote.value)
  {
    hide Commit, EventCore;
    ReplayIgnoresUnwritten(h, init, a, i);
    ReplayIgnoresUnwritten(h, init, b, i + 1);
    assert b[..i + 1][..i] == a[..i];
  }

  /** The task that steps is preceded by settled tasks and followed by waiting ones. */
  lemma PredecessorsSettled(h: HashFunction, init: seq<Record>, s: State, step: Step)
    requires Inv(h, init, s) && Enabled(s, step) && !step.Call?
    ensures step.i < |s.tasks|
    ensures forall k :: 0 <= k < step.i ==> s.tasks[k].phase.Settled?
    ensures forall k :: step.i < k < |s.tasks| ==> s.tasks[k].phase.Waiting?
  {
    hide Commit, EventCore;
    var i := step.i;
    if step.Read? || step.ReadFails? {
      assert s.tasks[i].after == LastBefore(i);
    }
  }

  lemma LaterHaveNotWritten(h: HashFunction, init: seq<Record>, s: State, i: nat)
    requires Inv(h, init, s) && i < |s.tasks| && s.tasks[i].phase.HasRead?
    ensures forall k :: i <= k < |s.tasks| ==> s.tasks[k].wrote.None?
  {
    hide Commit, EventCore, Replay, QueueLinked;
    forall k | i <= k < |s.tasks|
      ensures s.tasks[k].wrote.None?
    {
      assert TaskOk(s, k);
    }
  }

  // ---------------------------------------------------------------------
  // Over every run

  /** Appends are linearizable in call order: in every reachable state the store
      is the one the writing calls would have produced one after another. */
  lemma {:induction false} Linearizable(h: HashFunction, init: seq<Record>, s: State, steps: seq<Step>)
    requires Inv(h, init, s) && ValidRun(h, s, steps)
    ensures Inv(h, init, Run(h, s, steps))
    decreases |steps|
  {
    if steps != [] {
      NextKeepsInv(h, init, s, steps[0]);
      Linearizable(h, init, Next(h, s, steps[0]), steps[1..]);
    }
  }

  predicate InFlight(t: Task) { t.phase.HasRead? || t.phase.HasWritten? }

  ghost function WrittenCores(tasks: seq<Task>): seq<Core>
    decreases |tasks|
  {
    if tasks == [] then []
    else
      WrittenCores(tasks[..|tasks| - 1]) +
      (match tasks[|tasks| - 1].wrote case Some(c) => [StoredCore(c)] case None => [])
  }

  lemma {:induction false} ReplayKeepsCores(h: HashFunction, init: seq<Record>, tasks: seq<Task>)
    requires AsRead(init)
    ensures AsRead(Replay(h, init, tasks))
    ensures CoresOf(Replay(h, init, tasks)) == CoresOf(init) + WrittenCores(tasks)
    decreases |tasks|
  {
    if tasks != [] {
      var front, last := tasks[..|tasks| - 1], tasks[|tasks| - 1];
      ReplayKeepsCores(h, init, front);
      if last.wrote.Some? {
        CommitAddsCore(h, Replay(h, init, front), last.wrote.value);
      }
    }
  }

  lemma CommitAddsCore(h: HashFunction, store: seq<Record>, c: Core)
    requires AsRead(store)
    ensures AsRead(Commit(h, store, c))
    ensures CoresOf(Commit(h, store, c)) == CoresOf(store) + [StoredCore(c)]
  {
    hide Commit, EventCore, AppendEvent, StoredCore;
    CommitIsEdit(h, store, c);
    AppendOutcome(h, store, c);
    var all, n := AppendEvent(h, store, c), |store|;
    forall i | 0 <= i < n
      ensures Commit(h, store, c)[i].core == store[i].core
    {
      assert CoresOf(all)[i] == store[i].core;
    }
  }

  /** From an initial store, over every run: at most one call is between its read
      and its settling, and the stored cores are the initial ones followed by
      exactly the ones written, in call order. */
  lemma NothingLost(h: HashFunction, init: seq<Record>, steps: seq<Step>)
    requires AsRead(init) && ValidRun(h, Initial(init), steps)
    ensures var s := Run(h, Initial(init), steps);
            && (forall i, j :: 0 <= i < j < |s.tasks| ==> !(InFlight(s.tasks[i]) && InFlight(s.tasks[j])))
            && CoresOf(s.store) == CoresOf(init) + WrittenCores(s.tasks)
            && (forall i :: 0 <= i < |s.tasks| && s.tasks[i].phase == Settled(true) ==>
                              s.tasks[i].wrote.Some? && StoredCore(s.tasks[i].wrote.value) in CoresOf(s.store))
  {
    var s := Run(h, Initial(init), steps);
    Linearizable(h, init, Initial(init), steps);
    ReplayKeepsCores(h, init, s.tasks);
    forall i | 0 <= i < |s.tasks| && s.tasks[i].phase == Settled(true)
      ensures s.tasks[i].wrote.Some? && StoredCore(s.tasks[i].wrote.value) in CoresOf(s.store)
    {
      assert TaskOk(s, i);
      WrittenIsListed(s.tasks, i);
    }
  }

  lemma {:induction false} WrittenIsListed(tasks: seq<Task>, i: nat)
    requires i < |tasks| && tasks[i].wrote.Some?
    ensures StoredCore(tasks[i].wrote.value) in WrittenCores(tasks)
    decreases |tasks|
  {
    hide StoredCore;
    if i < |tasks| - 1 {
      WrittenIsListed(tasks[..|tasks| - 1], i);
    }
  }

  /** The events that the calls of a run brought, in call order. */
  ghost function Called(steps: seq<Step>): seq<(Text, Json)> {
    if steps == [] then []
    else (if steps[0].Call? then [(steps[0].typ, steps[0].data)] else []) + Called(steps[1..])
  }

  ghost function Brought(tasks: seq<Task>): (r: seq<(Text, Json)>)
    ensures |r| == |tasks|
  {
    seq(|tasks|, i requires 0 <= i < |tasks| => (tasks[i].typ, tasks[i].data))
  }

  /** Every call has one task, in call order, with the type and data it brought;
      what a task has written is an event of that type and data. */
  lemma {:induction false} TasksAreCalls(h: HashFunction, s: State, steps: seq<Step>)
    requires ValidRun(h, s, steps)
    ensures Brought(Run(h, s, steps).tasks) == Brought(s.tasks) + Called(steps)
    decreases |steps|
  {
    hide Commit, EventCore;
    if steps != [] {
      var s' := Next(h, s, steps[0]);
      TasksAreCalls(h, s', steps[1..]);
      assert Brought(s'.tasks) == Brought(s.tasks) + if steps[0].Call? then [(steps[0].typ, steps[0].data)] else [];
    }
  }

  function NextStep(s: State, f: nat): Step
    requires f < |s.tasks|
  {
    match s.tasks[f].phase
    case HasRead(_) => Write(f, [], [])
    case HasWritten => Settle(f, true)
    case _ => Read(f)
  }

  /** The first call that has not settled can always take a step, whatever the
      calls before it came to: a failed call blocks none after it. */
  lemma FirstUnsettledCanStep(h: HashFunction, init: seq<Record>, s: State, f: nat)
    requires Inv(h, init, s) && f < |s.tasks| && !s.tasks[f].phase.Settled?
    requires forall k :: 0 <= k < f ==> s.tasks[k].phase.Settled?
    ensures Enabled(s, NextStep(s, f))
    ensures forall step :: Enabled(s, step) && !step.Call? ==> step.i == f
  {
    hide Commit, EventCore;
    assert s.tasks[f].after == LastBefore(f);
    forall step: Step | Enabled(s, step) && !step.Call?
      ensures step.i == f
    {
      PredecessorsSettled(h, init, s, step);
    }
  }

  ghost function Remaining(tasks: seq<Task>): nat
    decreases |tasks|
  {
    if tasks == [] then 0
    else
      Remaining(tasks[..|tasks| - 1]) +
      match tasks[|tasks| - 1].phase
      case Waiting => 3
      case HasRead(_) => 2
      case HasWritten => 1
      case Settled(_) => 0
  }

  /** Every step other than a new call brings the run closer to all settled. */
  lemma StepsRunOut(h: HashFunction, s: State, step: Step)
    requires Enabled(s, step) && !step.Call?
    ensures Remaining(Next(h, s, step).tasks) < Remaining(s.tasks)
  {
    RemainingDrops(s.tasks, Next(h, s, step).tasks, step.i);
  }

  lemma {:induction false} RemainingDrops(a: seq<Task>, b: seq<Task>, i: nat)
    requires |a| == |b| && i < |a|
    requires forall k :: 0 <= k < |a| && k != i ==> b[k] == a[k]
    requires Remaining([b[i]]) < Remaining([a[i]])
    ensures Remaining(b) < Remaining(a)
    decreases |a|
  {
    var n := |a| - 1;
    if i < n {
      RemainingDrops(a[..n], b[..n], i);
    } else {
      assert a[..n] == b[..n];
      assert [a[i]][..0] == [] == [b[i]][..0];
    }
  }

  /** Over every run whose events lose no member in the file: once a call has
      written, the ledger verifies in every reachable state. */
  lemma LedgerVerifies(h: HashFunction, init: seq<Record>, steps: seq<Step>)
    requires Extendable(h, init) && ValidRun(h, Initial(init), steps)
    requires forall i :: 0 <= i < |Run(h, Initial(init), steps).tasks| ==>
                           var t := Run(h, Initial(init), steps).tasks[i];
                           WellFormed(t.data) && OnlySensitiveUndefined(t.data)
    ensures var s := Run(h, Initial(init), steps);
            ChainOk(h, s.store) || (s.store == init && WrittenCores(s.tasks) == [])
  {
    var s := Run(h, Initial(init), steps);
    Linearizable(h, init, Initial(init), steps);
    forall i | 0 <= i < |s.tasks| && s.tasks[i].wrote.Some?
      ensures WellFormedCore(s.tasks[i].wrote.value) && NoUndefinedInCore(s.tasks[i].wrote.value)
    {
      var t := s.tasks[i];
      assert TaskOk(s, i);
      var id, createdAt :| t.wrote.value == EventCore(id, t.typ, t.data, createdAt);
      EventCoreKeepsUndefined(id, t.typ, t.data, createdAt);
    }
    ReplayVerifies(h, init, s.tasks);
  }

  lemma {:induction false} ReplayVerifies(h: HashFunction, init: seq<Record>, tasks: seq<Task>)
    requires Extendable(h, init)
    requires forall i :: 0 <= i < |tasks| && tasks[i].wrote.Some? ==>
                           WellFormedCore(tasks[i].wrote.value) && NoUndefinedInCore(tasks[i].wrote.value)
    ensures var r := Replay(h, init, tasks);
            && AsRead(r)
            && (ChainOk(h, r) || (r == init && WrittenCores(tasks) == []))
    decreases |tasks|
  {
    hide WellFormedCore, NoUndefinedInCore, AsRead, ChainOk, Commit;
    if tasks != [] {
      var n := |tasks| - 1;
      ReplayVerifies(h, init, tasks[..n]);
      if tasks[n].wrote.Some? {
        var r, c := Replay(h, init, tasks[..n]), tasks[n].wrote.value;
        CommitVerifies(h, r, c);
        CommitIsEdit(h, r, c);
        VerdictExact(h, Commit(h, r, c));
      }
    }
  }
}
