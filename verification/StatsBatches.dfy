/**
 Batches of accounting events: actions with their CPU readings, and job snapshots.  A batch is
 one transaction over the action, buffer, CPU and job tables.
 */
module StatsBatches {
  import opened Basics
  import opened JobSnapshots
  import opened JobRollups
  import opened JobReplay
  import opened CpuAccounting

  /** A finished action; detail stands for the recorded fields that no rollup uses. */
  datatype Action = Action(
    id: string, queue: string, user: string, kind: string, operation: string, outcome: string,
    finishedAt: Instant, duration: int, clientBytes: int, upstreamBytes: int, outputBytes: int,
    bufferPeak: int, components: map<string, int>, tempPeak: int, tempWritten: int,
    concurrency: int, userConcurrency: int, detail: string)

  datatype ActionKey = ActionKey(day: int, queue: string, user: string, kind: string, operation: string, outcome: string)

  datatype ActionTotals = ActionTotals(
    count: int, duration: int, durationMax: int, clientBytes: int, upstreamBytes: int, outputBytes: int,
    bufferPeak: int, tempPeak: int, tempWritten: int, concurrencyMax: int, userConcurrencyMax: int)
  {
    function Plus(t: ActionTotals): ActionTotals {
      ActionTotals(
        count + t.count, duration + t.duration, Max(durationMax, t.durationMax),
        clientBytes + t.clientBytes, upstreamBytes + t.upstreamBytes, outputBytes + t.outputBytes,
        Max(bufferPeak, t.bufferPeak), Max(tempPeak, t.tempPeak), tempWritten + t.tempWritten,
        Max(concurrencyMax, t.concurrencyMax), Max(userConcurrencyMax, t.userConcurrencyMax))
    }
  }

  datatype BufferKey = BufferKey(day: int, queue: string, user: string, kind: string, component: string)

  datatype BufferTotals = BufferTotals(count: int, peak: int)

  datatype ActionTables = ActionTables(
    actions: map<string, Action>,
    rollups: map<ActionKey, ActionTotals>,
    buffers: map<BufferKey, BufferTotals>)

  function ActionKeyOf(a: Action): ActionKey {
    ActionKey(Day(a.finishedAt), a.queue, a.user, a.kind, a.operation, a.outcome)
  }

  function TotalsOf(a: Action): ActionTotals {
    ActionTotals(1, a.duration, a.duration, a.clientBytes, a.upstreamBytes, a.outputBytes, a.bufferPeak,
                 a.tempPeak, a.tempWritten, a.concurrency, a.userConcurrency)
  }

  function AddAction(rollups: map<ActionKey, ActionTotals>, a: Action): map<ActionKey, ActionTotals> {
    var key := ActionKeyOf(a);
    rollups[key := if key in rollups then rollups[key].Plus(TotalsOf(a)) else TotalsOf(a)]
  }

  function BufferKeyOf(a: Action, component: string): BufferKey {
    BufferKey(Day(a.finishedAt), a.queue, a.user, a.kind, component)
  }

  function BumpBuffer(buffers: map<BufferKey, BufferTotals>, key: BufferKey, peak: int): BufferTotals {
    if key in buffers then BufferTotals(buffers[key].count + 1, Max(buffers[key].peak, peak)) else BufferTotals(1, peak)
  }

  /** The buffer rows after the given components of an action have been added, in whatever order. */
  function AddBuffers(buffers: map<BufferKey, BufferTotals>, a: Action, parts: set<string>): map<BufferKey, BufferTotals> {
    buffers + map component | component in parts && component in a.components ::
      BufferKeyOf(a, component) := BumpBuffer(buffers, BufferKeyOf(a, component), a.components[component])
  }

  function PersistAction(t: ActionTables, a: Action): ActionTables {
    if a.id in t.actions then t
    else ActionTables(t.actions[a.id := a], AddAction(t.rollups, a), AddBuffers(t.buffers, a, a.components.Keys))
  }

  datatype Event = JobEvent(snapshot: Snapshot, register: bool) | ActionEvent(action: Action, cpu: Option<Reading>)

  datatype Tables = Tables(jobs: JobTables, actions: ActionTables, cpu: CpuTables)

  function ApplyEvent(t: Tables, run: string, e: Event, config: Config, now: Instant): Tables {
    match e
    case JobEvent(n, register) => t.(jobs := Persist(t.jobs, n, register, config, now))
    case ActionEvent(a, cpu) =>
      t.(actions := PersistAction(t.actions, a), cpu := if cpu.Some? then PersistCpu(t.cpu, run, cpu.value) else t.cpu)
  }

  function ApplyBatch(t: Tables, run: string, batch: seq<Event>, config: Config, times: seq<Instant>): Tables
    requires |times| == |batch|
  {
    if batch == [] then t
    else
      var n := |batch| - 1;
      ApplyEvent(ApplyBatch(t, run, batch[..n], config, times[..n]), run, batch[n], config, times[n])
  }

  function JobStep(e: Event, now: Instant): seq<Step> {
    if e.JobEvent? then [Observe(e.snapshot, e.register, now)] else []
  }

  /** The job snapshots of a batch, as steps of the job tables. */
  function JobSteps(batch: seq<Event>, times: seq<Instant>): (steps: seq<Step>)
    requires |times| == |batch|
    ensures forall i :: 0 <= i < |steps| ==> steps[i].Observe?
  {
    if batch == [] then []
    else
      var n := |batch| - 1;
      JobSteps(batch[..n], times[..n]) + JobStep(batch[n], times[n])
  }

  lemma {:induction false} RunAppends(t: JobTables, steps: seq<Step>, step: Step, config: Config)
    ensures Run(t, steps + [step], config) == Apply(Run(t, steps, config), step, config)
    decreases |steps|
  {
    hide Apply;
    if steps == [] {
      assert ([] + [step])[1..] == [];
      assert Run(t, [] + [step], config) == Run(Apply(t, step, config), [], config);
    } else {
      assert (steps + [step])[1..] == steps[1..] + [step];
      RunAppends(Apply(t, steps[0], config), steps[1..], step, config);
    }
  }

  lemma {:induction false} BatchRunsJobs(t: Tables, run: string, batch: seq<Event>, config: Config, times: seq<Instant>)
    requires |times| == |batch|
    ensures ApplyBatch(t, run, batch, config, times).jobs == Run(t.jobs, JobSteps(batch, times), config)
    decreases |batch|
  {
    hide Persist, PersistAction, PersistCpu;
    if batch == [] {
      assert Run(t.jobs, [], config) == t.jobs;
    } else {
      var n := |batch| - 1;
      BatchRunsJobs(t, run, batch[..n], config, times[..n]);
      if batch[n].JobEvent? {
        RunAppends(t.jobs, JobSteps(batch[..n], times[..n]), JobStep(batch[n], times[n])[0], config);
      } else {
        var steps := JobSteps(batch[..n], times[..n]);
        assert steps + [] == steps;
      }
    }
  }

  /** The same batch at other times: the same snapshots. */
  lemma {:induction false} SameSteps(batch: seq<Event>, times: seq<Instant>, again: seq<Instant>)
    requires |times| == |batch| == |again|
    ensures SameEvents(JobSteps(batch, times), JobSteps(batch, again))
    decreases |batch|
  {
    if batch != [] {
      var n := |batch| - 1;
      SameSteps(batch[..n], times[..n], again[..n]);
    }
  }

  ghost predicate Rising(times: seq<Instant>, clock: Instant) {
    && (forall i :: 0 <= i < |times| ==> clock <= times[i])
    && (forall i, j :: 0 <= i < j < |times| ==> times[i] <= times[j])
  }

  function LastOf(times: seq<Instant>, clock: Instant): Instant {
    if times == [] then clock else times[|times| - 1]
  }

  lemma {:induction false} TickingAppends(steps: seq<Step>, step: Step, clock: Instant)
    requires Ticking(steps, clock) && Clock(steps, clock) <= step.now
    ensures Ticking(steps + [step], clock) && Clock(steps + [step], clock) == step.now
    decreases |steps|
  {
    if steps == [] {
      assert ([] + [step])[1..] == [];
      assert Ticking([], step.now);
    } else {
      assert (steps + [step])[1..] == steps[1..] + [step];
      TickingAppends(steps[1..], step, steps[0].now);
    }
  }

  lemma {:induction false} BatchTicks(batch: seq<Event>, times: seq<Instant>, clock: Instant)
    requires |times| == |batch| && Rising(times, clock)
    ensures Ticking(JobSteps(batch, times), clock)
    ensures clock <= Clock(JobSteps(batch, times), clock) <= LastOf(times, clock)
    decreases |batch|
  {
    if batch == [] {
      assert Ticking([], clock);
    } else {
      var n := |batch| - 1;
      BatchTicks(batch[..n], times[..n], clock);
      if batch[n].JobEvent? {
        TickingAppends(JobSteps(batch[..n], times[..n]), JobStep(batch[n], times[n])[0], clock);
      } else {
        var steps := JobSteps(batch[..n], times[..n]);
        assert steps + [] == steps;
      }
    }
  }

  // Actions and CPU readings settle once written.

  predicate ReadingSettled(t: CpuTables, run: string, r: Reading) {
    r.available ==> SampleKey(run, r.at) in t.samples && run in t.cursors && !Advances(t.cursors[run], r)
  }

  predicate EventSettled(t: Tables, run: string, e: Event) {
    e.ActionEvent? ==> e.action.id in t.actions.actions && (e.cpu.Some? ==> ReadingSettled(t.cpu, run, e.cpu.value))
  }

  lemma WrittenSettles(t: Tables, run: string, e: Event, config: Config, now: Instant)
    ensures EventSettled(ApplyEvent(t, run, e, config, now), run, e)
  {
    hide Persist;
  }

  lemma SettledStays(t: Tables, run: string, e: Event, other: Event, config: Config, now: Instant)
    requires EventSettled(t, run, e)
    ensures EventSettled(ApplyEvent(t, run, other, config, now), run, e)
  {
    hide Persist;
  }

  /** A settled event changes neither the actions nor the CPU tables. */
  lemma SettledIsIgnored(t: Tables, run: string, e: Event, config: Config, now: Instant)
    requires EventSettled(t, run, e)
    ensures ApplyEvent(t, run, e, config, now).actions == t.actions && ApplyEvent(t, run, e, config, now).cpu == t.cpu
  {
    hide Persist;
  }

  lemma {:induction false} BatchSettles(t: Tables, run: string, batch: seq<Event>, config: Config, times: seq<Instant>)
    requires |times| == |batch|
    ensures forall i :: 0 <= i < |batch| ==> EventSettled(ApplyBatch(t, run, batch, config, times), run, batch[i])
    decreases |batch|
  {
    hide ApplyEvent, EventSettled;
    if batch != [] {
      var n := |batch| - 1;
      var u := ApplyBatch(t, run, batch[..n], config, times[..n]);
      BatchSettles(t, run, batch[..n], config, times[..n]);
      WrittenSettles(u, run, batch[n], config, times[n]);
      forall i | 0 <= i < n
        ensures EventSettled(ApplyEvent(u, run, batch[n], config, times[n]), run, batch[i])
      {
        assert batch[..n][i] == batch[i];
        SettledStays(u, run, batch[i], batch[n], config, times[n]);
      }
    }
  }

  lemma {:induction false} SettledBatchIsIgnored(t: Tables, run: string, batch: seq<Event>, config: Config, times: seq<Instant>)
    requires |times| == |batch| && forall i :: 0 <= i < |batch| ==> EventSettled(t, run, batch[i])
    ensures ApplyBatch(t, run, batch, config, times).actions == t.actions
    ensures ApplyBatch(t, run, batch, config, times).cpu == t.cpu
    decreases |batch|
  {
    hide ApplyEvent, EventSettled;
    if batch != [] {
      var n := |batch| - 1;
      var u := ApplyBatch(t, run, batch[..n], config, times[..n]);
      SettledBatchIsIgnored(t, run, batch[..n], config, times[..n]);
      SettledAlike(t, u, run, batch[n]);
      SettledIsIgnored(u, run, batch[n], config, times[n]);
    }
  }

  lemma SettledAlike(t: Tables, u: Tables, run: string, e: Event)
    requires EventSettled(t, run, e) && u.actions == t.actions && u.cpu == t.cpu
    ensures EventSettled(u, run, e)
  {
  }

  // The result of retries.

  /** Everything equal, except rollup and settings cells of days that fell out of the window between two instants. */
  ghost predicate SameKept(t: Tables, u: Tables, config: Config, first: Instant, last: Instant) {
    && t.actions == u.actions && t.cpu == u.cpu
    && t.jobs.checkpoints == u.jobs.checkpoints && t.jobs.jobs == u.jobs.jobs
    && forall k: RowKey, c: Column :: Steady(k.day, config, first, last) ==> Cell(t.jobs, k, c) == Cell(u.jobs, k, c)
  }

  /** A batch that has been written: writing it again would change nothing that is kept. */
  ghost predicate Written(t: Tables, run: string, batch: seq<Event>, times: seq<Instant>)
    requires |times| == |batch|
  {
    && Absorbed(t.jobs, JobSteps(batch, times))
    && forall i :: 0 <= i < |batch| ==> EventSettled(t, run, batch[i])
  }

  lemma FirstAttempt(t: Tables, l: Ledger, run: string, batch: seq<Event>, config: Config, clock: Instant, times: seq<Instant>)
    requires |times| == |batch| && Rising(times, clock) && Reachable(t.jobs, l, config, clock)
    requires NoneRegisteredAgain(l, JobSteps(batch, times)) && RegisteredFirst(t.jobs.checkpoints, JobSteps(batch, times))
    ensures var u := ApplyBatch(t, run, batch, config, times);
            && Written(u, run, batch, times)
            && Reachable(u.jobs, Books(l, JobSteps(batch, times), config), config, LastOf(times, clock))
  {
    hide Reachable, Absorbed, EventSettled, RegisteredFirst, NoneRegisteredAgain, Orderly, Keyed, Run, ApplyBatch, JobSteps, Books;
    var steps := JobSteps(batch, times);
    BatchTicks(batch, times, clock);
    BatchRunsJobs(t, run, batch, config, times);
    BatchSettles(t, run, batch, config, times);
    ReachableKeyed(t.jobs, l, config, clock);
    PassAbsorbs(t.jobs, steps, config);
    BatchOrderly(l, steps, config, clock);
    RunReachable(t.jobs, l, steps, config, clock);
    LaterStillReachable(Run(t.jobs, steps, config), Books(l, steps, config), config, Clock(steps, clock), LastOf(times, clock));
  }

  lemma LaterAttempt(t: Tables, l: Ledger, run: string, batch: seq<Event>, config: Config, clock: Instant, times: seq<Instant>)
    requires |times| == |batch| && Rising(times, clock) && Reachable(t.jobs, l, config, clock)
    requires Written(t, run, batch, times)
    ensures var u := ApplyBatch(t, run, batch, config, times);
            && Written(u, run, batch, times)
            && Reachable(u.jobs, Books(l, JobSteps(batch, times), config), config, LastOf(times, clock))
            && SameKept(t, u, config, clock, LastOf(times, clock))
  {
    hide Reachable, Absorbed, EventSettled, Keyed, Run, ApplyBatch, JobSteps, Books, Retained, Cell;
    var steps, u := JobSteps(batch, times), ApplyBatch(t, run, batch, config, times);
    BatchTicks(batch, times, clock);
    BatchRunsJobs(t, run, batch, config, times);
    BatchSettles(t, run, batch, config, times);
    SettledBatchIsIgnored(t, run, batch, config, times);
    ReachableKeyed(t.jobs, l, config, clock);
    AbsorbedDetails(t.jobs, steps, config);
    AbsorbedLedger(t.jobs, l, steps, config, clock);
    LaterStillReachable(u.jobs, Books(l, steps, config), config, Clock(steps, clock), LastOf(times, clock));
    forall k: RowKey, c: Column | Steady(k.day, config, clock, LastOf(times, clock))
      ensures Cell(t.jobs, k, c) == Cell(u.jobs, k, c)
    {
      SteadyWithin(k.day, config, clock, Start(steps, clock), Clock(steps, clock), LastOf(times, clock));
      AbsorbedStays(t.jobs, l, steps, config, clock, k, c);
    }
  }

  lemma WrittenAtAnyTime(t: Tables, run: string, batch: seq<Event>, times: seq<Instant>, again: seq<Instant>)
    requires |times| == |batch| == |again| && Written(t, run, batch, times)
    ensures Written(t, run, batch, again)
  {
    hide Absorbed, EventSettled, JobSteps;
    SameSteps(batch, times, again);
    AbsorbedAlike(t.jobs, JobSteps(batch, times), JobSteps(batch, again));
  }

  lemma SteadyWithin(day: int, config: Config, before: Instant, first: Instant, last: Instant, after: Instant)
    requires before <= first && last <= after && Steady(day, config, before, after)
    ensures Steady(day, config, first, last)
  {
  }

  lemma SameKeptChains(t: Tables, u: Tables, v: Tables, config: Config, first: Instant, before: Instant, now: Instant)
    requires first <= before <= now && SameKept(t, u, config, first, before) && SameKept(u, v, config, before, now)
    ensures SameKept(t, v, config, first, now)
  {
    hide Cell, Retained, Steady;
    forall k: RowKey, c: Column | Steady(k.day, config, first, now)
      ensures Cell(t.jobs, k, c) == Cell(v.jobs, k, c)
    {
      SteadyWithin(k.day, config, first, first, before, now);
      SteadyWithin(k.day, config, first, before, now, now);
    }
  }
}
