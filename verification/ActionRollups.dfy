/**
 What the rows of the action and buffer rollups hold after any run of writes and retention passes:
 sums and maxima over the actions that entered them.
 */
module ActionRollups {
  import opened Basics
  import opened JobRollups
  import opened SnapshotMerging
  import opened CpuAccounting
  import opened StatsBatches

  function CleanActions(t: ActionTables, config: Config, now: Instant): ActionTables {
    ActionTables(
      map id | id in t.actions && (config.detailRetention == 0 || t.actions[id].finishedAt >= now - config.detailRetention) :: t.actions[id],
      map key | key in t.rollups && Retained(key.day, config, now) :: t.rollups[key],
      map key | key in t.buffers && Retained(key.day, config, now) :: t.buffers[key])
  }

  datatype ActionStep = Wrote(action: Action) | Cleaned(now: Instant)

  function ApplyStep(t: ActionTables, step: ActionStep, config: Config): ActionTables {
    match step
    case Wrote(a) => PersistAction(t, a)
    case Cleaned(now) => CleanActions(t, config, now)
  }

  function ApplySteps(t: ActionTables, steps: seq<ActionStep>, config: Config): ActionTables {
    if steps == [] then t else ApplyStep(ApplySteps(t, steps[..|steps| - 1], config), steps[|steps| - 1], config)
  }

  ghost predicate InOrder(steps: seq<ActionStep>, clock: Instant) {
    && (forall i :: 0 <= i < |steps| && steps[i].Cleaned? ==> steps[i].now <= clock)
    && (forall i, j :: 0 <= i < j < |steps| && steps[i].Cleaned? && steps[j].Cleaned? ==> steps[i].now <= steps[j].now)
  }

  // The reference: the actions that entered the rollups.

  /** The action on record under an id: the first written since a retention pass dropped the one before. */
  function Record(steps: seq<ActionStep>, id: string, config: Config): Option<Action> {
    if steps == [] then None
    else
      var r, step := Record(steps[..|steps| - 1], id, config), steps[|steps| - 1];
      match step
      case Wrote(a) => if r.None? && a.id == id then Some(a) else r
      case Cleaned(now) =>
        if r.Some? && config.detailRetention > 0 && r.value.finishedAt < now - config.detailRetention then None else r
  }

  function EnteredBy(steps: seq<ActionStep>, step: ActionStep, config: Config): seq<Action> {
    if step.Wrote? && Record(steps, step.action.id, config).None? then [step.action] else []
  }

  /** Every action written while its id was not on record. */
  function Entered(steps: seq<ActionStep>, config: Config): seq<Action> {
    if steps == [] then []
    else
      var init := steps[..|steps| - 1];
      Entered(init, config) + EnteredBy(init, steps[|steps| - 1], config)
  }

  predicate Under(a: Action, k: ActionKey) {
    && a.finishedAt / 86_400_000_000_000 == k.day && a.queue == k.queue && a.user == k.user
    && a.kind == k.kind && a.operation == k.operation && a.outcome == k.outcome
  }

  predicate UsesBuffer(a: Action, k: BufferKey) {
    && a.finishedAt / 86_400_000_000_000 == k.day && a.queue == k.queue && a.user == k.user
    && a.kind == k.kind && k.component in a.components
  }

  function AllUnder(actions: seq<Action>, k: ActionKey): seq<Action> {
    if actions == [] then []
    else
      var n := |actions| - 1;
      AllUnder(actions[..n], k) + if Under(actions[n], k) then [actions[n]] else []
  }

  function PeaksOf(actions: seq<Action>, k: BufferKey): seq<int> {
    if actions == [] then []
    else
      var n := |actions| - 1;
      PeaksOf(actions[..n], k) + if UsesBuffer(actions[n], k) then [actions[n].components[k.component]] else []
  }

  ghost predicate SumsOfActions(actions: seq<Action>, r: ActionTotals) {
    && r.count == |actions|
    && r.duration == Sum(Values(actions, (a: Action) => a.duration))
    && r.clientBytes == Sum(Values(actions, (a: Action) => a.clientBytes))
    && r.upstreamBytes == Sum(Values(actions, (a: Action) => a.upstreamBytes))
    && r.outputBytes == Sum(Values(actions, (a: Action) => a.outputBytes))
    && r.tempWritten == Sum(Values(actions, (a: Action) => a.tempWritten))
  }

  ghost predicate PeaksOfActions(actions: seq<Action>, r: ActionTotals) {
    && IsLargest(Values(actions, (a: Action) => a.duration), r.durationMax)
    && IsLargest(Values(actions, (a: Action) => a.bufferPeak), r.bufferPeak)
    && IsLargest(Values(actions, (a: Action) => a.tempPeak), r.tempPeak)
    && IsLargest(Values(actions, (a: Action) => a.concurrency), r.concurrencyMax)
    && IsLargest(Values(actions, (a: Action) => a.userConcurrency), r.userConcurrencyMax)
  }

  /** A row counts its actions, adds up times and sizes, and keeps the largest time, peaks and concurrencies. */
  ghost predicate RowOfActions(actions: seq<Action>, r: ActionTotals) {
    SumsOfActions(actions, r) && PeaksOfActions(actions, r)
  }

  ghost predicate RowOfPeaks(peaks: seq<int>, r: BufferTotals) {
    r.count == |peaks| && IsLargest(peaks, r.peak)
  }

  ghost predicate RowsHold(t: ActionTables, entered: seq<Action>, k: ActionKey) {
    && (k in t.rollups <==> AllUnder(entered, k) != [])
    && (k in t.rollups ==> RowOfActions(AllUnder(entered, k), t.rollups[k]))
  }

  ghost predicate BuffersHold(t: ActionTables, entered: seq<Action>, k: BufferKey) {
    && (k in t.buffers <==> PeaksOf(entered, k) != [])
    && (k in t.buffers ==> RowOfPeaks(PeaksOf(entered, k), t.buffers[k]))
  }

  /** The recorded actions are those on record, and every retained row is what its actions amount to. */
  ghost predicate ActionsAgree(t: ActionTables, steps: seq<ActionStep>, config: Config, clock: Instant) {
    && (forall id :: (id in t.actions <==> Record(steps, id, config).Some?) && (id in t.actions ==> Record(steps, id, config) == Some(t.actions[id])))
    && (forall k: ActionKey :: Retained(k.day, config, clock) ==> RowsHold(t, Entered(steps, config), k))
    && (forall k: BufferKey :: Retained(k.day, config, clock) ==> BuffersHold(t, Entered(steps, config), k))
  }

  // One step.

  lemma PeakGrows(actions: seq<Action>, a: Action, f: Action -> int, r: int)
    requires IsLargest(Values(actions, f), r)
    ensures IsLargest(Values(actions + [a], f), Max(r, f(a)))
  {
    ValuesGrow(actions, a, f);
    LargestGrows(Values(actions, f), r, f(a));
  }

  lemma AloneIsLargest(v: int)
    ensures IsLargest([v], v)
  {
    assert [v][0] == v;
  }

  lemma FirstOfRow(a: Action)
    ensures RowOfActions([a], TotalsOf(a))
  {
    hide IsLargest;
    AloneIsLargest(a.duration);
    AloneIsLargest(a.bufferPeak);
    AloneIsLargest(a.tempPeak);
    AloneIsLargest(a.concurrency);
    AloneIsLargest(a.userConcurrency);
    forall f: Action -> int
      ensures Values([a], f) == [f(a)]
    {
    }
    forall v: int
      ensures Sum([v]) == v
    {
      assert [v][..0] == [];
    }
  }

  lemma SumsGrow(actions: seq<Action>, r: ActionTotals, a: Action)
    requires SumsOfActions(actions, r)
    ensures SumsOfActions(actions + [a], r.Plus(TotalsOf(a)))
  {
    hide Sum, Values, Max;
    SumGrows(actions, a, (x: Action) => x.duration);
    SumGrows(actions, a, (x: Action) => x.clientBytes);
    SumGrows(actions, a, (x: Action) => x.upstreamBytes);
    SumGrows(actions, a, (x: Action) => x.outputBytes);
    SumGrows(actions, a, (x: Action) => x.tempWritten);
  }

  lemma PeaksGrow(actions: seq<Action>, r: ActionTotals, a: Action)
    requires PeaksOfActions(actions, r)
    ensures PeaksOfActions(actions + [a], r.Plus(TotalsOf(a)))
  {
    hide IsLargest, Values, Max;
    PeakGrows(actions, a, (x: Action) => x.duration, r.durationMax);
    PeakGrows(actions, a, (x: Action) => x.bufferPeak, r.bufferPeak);
    PeakGrows(actions, a, (x: Action) => x.tempPeak, r.tempPeak);
    PeakGrows(actions, a, (x: Action) => x.concurrency, r.concurrencyMax);
    PeakGrows(actions, a, (x: Action) => x.userConcurrency, r.userConcurrencyMax);
  }

  lemma RowGrows(actions: seq<Action>, r: ActionTotals, a: Action)
    requires RowOfActions(actions, r)
    ensures RowOfActions(actions + [a], r.Plus(TotalsOf(a)))
  {
    hide SumsOfActions, PeaksOfActions;
    SumsGrow(actions, r, a);
    PeaksGrow(actions, r, a);
  }

  lemma UnderItsKey(a: Action, k: ActionKey)
    ensures Under(a, k) <==> k == ActionKeyOf(a)
  {
  }

  lemma WrittenRow(t: ActionTables, entered: seq<Action>, a: Action, k: ActionKey)
    requires RowsHold(t, entered, k) && a.id !in t.actions
    ensures RowsHold(PersistAction(t, a), entered + [a], k)
  {
    hide RowOfActions, ActionTotals.Plus, TotalsOf, ActionKeyOf, AddBuffers;
    assert (entered + [a])[..|entered|] == entered;
    UnderItsKey(a, k);
    if Under(a, k) {
      if k in t.rollups {
        RowGrows(AllUnder(entered, k), t.rollups[k], a);
      } else {
        FirstOfRow(a);
        assert AllUnder(entered, k) + [a] == [a];
      }
    } else {
      assert AllUnder(entered, k) + [] == AllUnder(entered, k);
    }
  }

  lemma WrittenBuffer(t: ActionTables, entered: seq<Action>, a: Action, k: BufferKey)
    requires BuffersHold(t, entered, k) && a.id !in t.actions
    ensures BuffersHold(PersistAction(t, a), entered + [a], k)
  {
    hide IsLargest, AddAction;
    assert (entered + [a])[..|entered|] == entered;
    var peaks := PeaksOf(entered, k);
    if UsesBuffer(a, k) {
      var peak := a.components[k.component];
      assert k == BufferKeyOf(a, k.component);
      if k in t.buffers {
        LargestGrows(peaks, t.buffers[k].peak, peak);
      } else {
        AloneIsLargest(peak);
        assert peaks + [peak] == [peak];
      }
    } else {
      assert peaks + [] == peaks;
    }
  }

  lemma RecordGrows(steps: seq<ActionStep>, step: ActionStep, id: string, config: Config)
    ensures Record(steps + [step], id, config)
         == var r := Record(steps, id, config);
            match step
            case Wrote(a) => if r.None? && a.id == id then Some(a) else r
            case Cleaned(now) =>
              if r.Some? && config.detailRetention > 0 && r.value.finishedAt < now - config.detailRetention then None else r
    ensures Entered(steps + [step], config) == Entered(steps, config) + EnteredBy(steps, step, config)
  {
    assert (steps + [step])[..|steps|] == steps;
  }

  lemma WriteAgrees(t: ActionTables, steps: seq<ActionStep>, a: Action, config: Config, clock: Instant)
    requires ActionsAgree(t, steps, config, clock)
    ensures ActionsAgree(PersistAction(t, a), steps + [Wrote(a)], config, clock)
  {
    hide Retained, RowsHold, BuffersHold, Record, Entered, AddAction, AddBuffers;
    var u, more, entered := PersistAction(t, a), steps + [Wrote(a)], Entered(steps, config);
    forall id: string
      ensures (id in u.actions <==> Record(more, id, config).Some?) && (id in u.actions ==> Record(more, id, config) == Some(u.actions[id]))
    {
      RecordGrows(steps, Wrote(a), id, config);
    }
    RecordGrows(steps, Wrote(a), a.id, config);
    if a.id in t.actions {
      assert entered + [] == entered;
    } else {
      forall k: ActionKey | Retained(k.day, config, clock)
        ensures RowsHold(u, entered + [a], k)
      {
        WrittenRow(t, entered, a, k);
      }
      forall k: BufferKey | Retained(k.day, config, clock)
        ensures BuffersHold(u, entered + [a], k)
      {
        WrittenBuffer(t, entered, a, k);
      }
    }
  }

  lemma CleanedAgrees(t: ActionTables, steps: seq<ActionStep>, config: Config, before: Instant, now: Instant)
    requires ActionsAgree(t, steps, config, before) && before <= now
    ensures ActionsAgree(CleanActions(t, config, now), steps + [Cleaned(now)], config, now)
  {
    hide Retained, Record, Entered, RowOfActions, RowOfPeaks;
    var u, more, entered := CleanActions(t, config, now), steps + [Cleaned(now)], Entered(steps, config);
    forall id: string
      ensures (id in u.actions <==> Record(more, id, config).Some?) && (id in u.actions ==> Record(more, id, config) == Some(u.actions[id]))
    {
      RecordGrows(steps, Cleaned(now), id, config);
    }
    RecordGrows(steps, Cleaned(now), "", config);
    assert entered + [] == entered;
    forall k: ActionKey | Retained(k.day, config, now)
      ensures RowsHold(u, entered, k)
    {
      RetainedEarlier(k.day, config, before, now);
      assert RowsHold(t, entered, k);
    }
    forall k: BufferKey | Retained(k.day, config, now)
      ensures BuffersHold(u, entered, k)
    {
      RetainedEarlier(k.day, config, before, now);
      assert BuffersHold(t, entered, k);
    }
  }

  lemma LaterStillAgrees(t: ActionTables, steps: seq<ActionStep>, config: Config, before: Instant, now: Instant)
    requires ActionsAgree(t, steps, config, before) && before <= now
    ensures ActionsAgree(t, steps, config, now)
  {
    hide Retained, RowsHold, BuffersHold, Record, Entered;
    forall day | Retained(day, config, now)
      ensures Retained(day, config, before)
    {
      RetainedEarlier(day, config, before, now);
    }
  }

  const NO_ACTIONS: ActionTables := ActionTables(map[], map[], map[])

  /**
   After any run of writes and retention passes, every retained row holds, column by column, the sum or
   the maximum over the actions that entered it, and there is a row for every such action.
   */
  lemma {:induction false} RowsAreSums(steps: seq<ActionStep>, config: Config, clock: Instant)
    requires InOrder(steps, clock)
    ensures ActionsAgree(ApplySteps(NO_ACTIONS, steps, config), steps, config, clock)
    decreases |steps|
  {
    hide ActionsAgree, PersistAction, CleanActions;
    if steps == [] {
      NothingAgrees(config, clock);
    } else {
      var n := |steps| - 1;
      var init := steps[..n];
      assert init + [steps[n]] == steps;
      match steps[n]
      case Wrote(a) =>
        RowsAreSums(init, config, clock);
        WriteAgrees(ApplySteps(NO_ACTIONS, init, config), init, a, config, clock);
      case Cleaned(now) =>
        RowsAreSums(init, config, now);
        CleanedAgrees(ApplySteps(NO_ACTIONS, init, config), init, config, now, now);
        LaterStillAgrees(ApplySteps(NO_ACTIONS, steps, config), steps, config, now, clock);
    }
  }

  lemma NothingAgrees(config: Config, clock: Instant)
    ensures ActionsAgree(NO_ACTIONS, [], config, clock)
  {
  }

  /** The actions of a batch, as steps. */
  function WritesOf(batch: seq<Event>): seq<ActionStep> {
    if batch == [] then []
    else
      var n := |batch| - 1;
      WritesOf(batch[..n]) + if batch[n].ActionEvent? then [Wrote(batch[n].action)] else []
  }

  lemma {:induction false} BatchEnters(t: Tables, steps: seq<ActionStep>, run: string, batch: seq<Event>, config: Config, times: seq<Instant>, clock: Instant)
    requires |times| == |batch| && ActionsAgree(t.actions, steps, config, clock)
    ensures ActionsAgree(ApplyBatch(t, run, batch, config, times).actions, steps + WritesOf(batch), config, clock)
    decreases |batch|
  {
    hide ActionsAgree, PersistAction, Persist, PersistCpu;
    if batch == [] {
      assert steps + [] == steps;
    } else {
      var n := |batch| - 1;
      BatchEnters(t, steps, run, batch[..n], config, times[..n], clock);
      if batch[n].ActionEvent? {
        var u, more := ApplyBatch(t, run, batch[..n], config, times[..n]), steps + WritesOf(batch[..n]);
        WriteAgrees(u.actions, more, batch[n].action, config, clock);
        assert more + [Wrote(batch[n].action)] == steps + WritesOf(batch);
      } else {
        assert WritesOf(batch[..n]) + [] == WritesOf(batch[..n]);
      }
    }
  }

  function ReadingsOf(batch: seq<Event>, run: string, times: seq<Instant>): seq<CpuStep>
    requires |times| == |batch|
  {
    if batch == [] then []
    else
      var n := |batch| - 1;
      ReadingsOf(batch[..n], run, times[..n])
      + if batch[n].ActionEvent? && batch[n].cpu.Some? then [Sample(run, batch[n].cpu.value, times[n])] else []
  }

  lemma {:induction false} BatchReads(t: Tables, steps: seq<CpuStep>, run: string, batch: seq<Event>, config: Config, times: seq<Instant>, clock: Instant)
    requires |times| == |batch| && ReadingsAgree(t.cpu, steps, config, clock)
    ensures ReadingsAgree(ApplyBatch(t, run, batch, config, times).cpu, steps + ReadingsOf(batch, run, times), config, clock)
    decreases |batch|
  {
    hide ReadingsAgree, PersistAction, Persist, PersistCpu;
    if batch == [] {
      assert steps + [] == steps;
    } else {
      var n := |batch| - 1;
      BatchReads(t, steps, run, batch[..n], config, times[..n], clock);
      var u, most := ApplyBatch(t, run, batch[..n], config, times[..n]), ReadingsOf(batch[..n], run, times[..n]);
      if batch[n].ActionEvent? && batch[n].cpu.Some? {
        var step := Sample(run, batch[n].cpu.value, times[n]);
        ReadingAgrees(u.cpu, steps + most, step, config, clock);
        assert steps + most + [step] == steps + ReadingsOf(batch, run, times);
      } else {
        assert most + [] == most;
      }
    }
  }

  /** Everything that entered the action, buffer and CPU tables, and when they were cleaned. */
  datatype Past = Past(actions: seq<ActionStep>, readings: seq<CpuStep>)

  function Lived(past: Past, run: string, batch: seq<Event>, times: seq<Instant>): Past
    requires |times| == |batch|
  {
    Past(past.actions + WritesOf(batch), past.readings + ReadingsOf(batch, run, times))
  }

  function PastCleaned(past: Past, now: Instant): Past {
    Past(past.actions + [Cleaned(now)], past.readings + [Drop(now)])
  }

  ghost predicate PastAgrees(t: ActionTables, cpu: CpuTables, past: Past, config: Config, clock: Instant) {
    ActionsAgree(t, past.actions, config, clock) && ReadingsAgree(cpu, past.readings, config, clock)
  }

  lemma PastAgreesLater(t: ActionTables, cpu: CpuTables, past: Past, config: Config, before: Instant, now: Instant)
    requires PastAgrees(t, cpu, past, config, before) && before <= now
    ensures PastAgrees(t, cpu, past, config, now)
  {
    hide ActionsAgree, ReadingsAgree;
    LaterStillAgrees(t, past.actions, config, before, now);
    ReadingsAgreeLater(cpu, past.readings, config, before, now);
  }

  lemma BatchLived(t: Tables, past: Past, run: string, batch: seq<Event>, config: Config, times: seq<Instant>, clock: Instant)
    requires |times| == |batch| && PastAgrees(t.actions, t.cpu, past, config, clock)
    ensures var u := ApplyBatch(t, run, batch, config, times);
            PastAgrees(u.actions, u.cpu, Lived(past, run, batch, times), config, clock)
  {
    hide ActionsAgree, ReadingsAgree;
    BatchEnters(t, past.actions, run, batch, config, times, clock);
    BatchReads(t, past.readings, run, batch, config, times, clock);
  }

  lemma PastCleanedAgrees(t: ActionTables, cpu: CpuTables, past: Past, config: Config, now: Instant)
    requires PastAgrees(t, cpu, past, config, now)
    ensures PastAgrees(CleanActions(t, config, now), CleanCpu(cpu, config, now), PastCleaned(past, now), config, now)
  {
    hide ActionsAgree, ReadingsAgree;
    CleanedAgrees(t, past.actions, config, now, now);
    DropAgrees(cpu, past.readings, config, now, now);
  }

  // Each action counts once, unless its detail is dropped before it is written again.

  /** The action is the first written with its id. */
  predicate IsFirstWrite(steps: seq<ActionStep>, i: nat) {
    i < |steps| && steps[i].Wrote? && forall j :: 0 <= j < i && steps[j].Wrote? ==> steps[j].action.id != steps[i].action.id
  }

  /** Every action once, as first written. */
  function FirstWrites(steps: seq<ActionStep>): seq<Action> {
    if steps == [] then []
    else
      var n := |steps| - 1;
      FirstWrites(steps[..n]) + if IsFirstWrite(steps, n) then [steps[n].action] else []
  }

  /** No action is written again after its detail was dropped. */
  ghost predicate NoneWrittenAgain(steps: seq<ActionStep>, config: Config) {
    forall i: nat :: i < |steps| && steps[i].Wrote? && !IsFirstWrite(steps, i) ==> Record(steps[..i], steps[i].action.id, config).Some?
  }

  lemma {:induction false} UnwrittenHasNoRecord(steps: seq<ActionStep>, id: string, config: Config)
    requires forall j :: 0 <= j < |steps| && steps[j].Wrote? ==> steps[j].action.id != id
    ensures Record(steps, id, config).None?
  {
    if steps != [] {
      UnwrittenHasNoRecord(steps[..|steps| - 1], id, config);
    }
  }

  lemma FirstWriteEnters(steps: seq<ActionStep>, config: Config)
    requires steps != []
    ensures var n := |steps| - 1;
            IsFirstWrite(steps, n) ==> EnteredBy(steps[..n], steps[n], config) == [steps[n].action]
  {
    var n := |steps| - 1;
    if IsFirstWrite(steps, n) {
      UnwrittenHasNoRecord(steps[..n], steps[n].action.id, config);
    }
  }

  lemma {:induction false} EnteredAtLeastOnce(steps: seq<ActionStep>, config: Config)
    ensures |FirstWrites(steps)| <= |Entered(steps, config)|
  {
    if steps != [] {
      EnteredAtLeastOnce(steps[..|steps| - 1], config);
      FirstWriteEnters(steps, config);
    }
  }

  /** The rows count every action ever written exactly once if and only if none is written again after its detail was dropped. */
  lemma {:induction false} CountedOnceExactly(steps: seq<ActionStep>, config: Config)
    ensures Entered(steps, config) == FirstWrites(steps) <==> NoneWrittenAgain(steps, config)
  {
    hide Record;
    if steps != [] {
      var n := |steps| - 1;
      var init := steps[..n];
      CountedOnceExactly(init, config);
      FirstWriteEnters(steps, config);
      EnteredAtLeastOnce(init, config);
      PrefixWrittenAgain(steps, config);
      var e, f := Entered(init, config), FirstWrites(init);
      if IsFirstWrite(steps, n) {
        assert e + [steps[n].action] == f + [steps[n].action] <==> e == f by {
          assert (e + [steps[n].action])[..|e|] == e && (f + [steps[n].action])[..|f|] == f;
        }
      } else {
        assert f + [] == f && e + [] == e;
      }
    }
  }

  lemma PrefixWrittenAgain(steps: seq<ActionStep>, config: Config)
    requires steps != []
    ensures var n := |steps| - 1;
            NoneWrittenAgain(steps, config) <==>
              && NoneWrittenAgain(steps[..n], config)
              && (steps[n].Wrote? && !IsFirstWrite(steps, n) ==> Record(steps[..n], steps[n].action.id, config).Some?)
  {
    hide Record;
    var n := |steps| - 1;
    var init := steps[..n];
    forall i: nat | i < n
      ensures init[..i] == steps[..i] && (IsFirstWrite(init, i) <==> IsFirstWrite(steps, i))
    {
    }
  }
}
