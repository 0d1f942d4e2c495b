/**
 The job rollups from the reports alone: which reports reach a job, what they amount to, and what
 the columns of a row say about the jobs of its day, queue and user.
 */
module JobHistories {
  import opened Basics
  import opened JobSnapshots
  import opened SnapshotMerging
  import opened JobRollups

  /** What all reports of a job amount to; SnapshotMerging says it field by field. */
  function Merged(heard: seq<Snapshot>): Snapshot
    requires heard != []
  {
    MergeAll(Next(None, heard[0]), heard[1..])
  }

  /** The printer ended the job, or the program failed or rejected it. */
  predicate Settled(s: Snapshot) {
    s.observed in {Completed, Canceled, Aborted, Failed, Rejected} || s.state in {Failed, Rejected}
  }

  /** The reports of a job from the one that registered it on, until its checkpoint is dropped. */
  function Heard(steps: seq<Step>, key: JobKey, config: Config): seq<Snapshot> {
    if steps == [] then []
    else
      var init, step := steps[..|steps| - 1], steps[|steps| - 1];
      var heard := Heard(init, key, config);
      match step
      case Observe(n, register, _) =>
        if n.key == key && key.registry != "" && key.id >= 1 && (if heard == [] then register else !Dropped(init, key, config))
        then heard + [n] else heard
      case Cleanup(_) => heard
  }

  /** A retention pass came when the job was settled and not reported for longer than details are kept. */
  predicate Dropped(steps: seq<Step>, key: JobKey, config: Config) {
    steps != [] &&
    var init, step := steps[..|steps| - 1], steps[|steps| - 1];
    || Dropped(init, key, config)
    || (&& step.Cleanup? && config.detailRetention > 0 && Heard(init, key, config) != []
        && Settled(Merged(Heard(init, key, config)))
        && Merged(Heard(init, key, config)).updatedAt < step.now - config.detailRetention)
  }

  predicate JobHolds(l: Ledger, steps: seq<Step>, key: JobKey, config: Config) {
    var heard := Heard(steps, key, config);
    && (key in l.latest <==> heard != [])
    && (key in l.latest ==> l.latest[key] == Merged(heard))
    && (key in l.open <==> heard != [] && !Dropped(steps, key, config))
    && (Dropped(steps, key, config) ==> heard != [])
  }

  /** The ledger knows exactly the reported jobs, each with what its reports amount to. */
  ghost predicate ReportsAgree(l: Ledger, steps: seq<Step>, config: Config) {
    forall key :: JobHolds(l, steps, key, config)
  }

  lemma MergedGrows(heard: seq<Snapshot>, n: Snapshot)
    requires heard != []
    ensures Merged(heard + [n]) == Next(Some(Merged(heard)), n)
  {
    hide Next;
    assert (heard + [n])[1..] == heard[1..] + [n];
    assert (heard[1..] + [n])[..|heard| - 1] == heard[1..];
  }

  lemma MergedAlone(n: Snapshot)
    ensures Merged([n]) == Next(None, n)
  {
    hide Next;
  }

  lemma ObservedHolds(l: Ledger, steps: seq<Step>, n: Snapshot, register: bool, now: Instant, config: Config, key: JobKey)
    requires JobHolds(l, steps, key, config) && SingleRegistration(l, n, register)
    ensures JobHolds(Observed(l, n, register, config, now), steps + [Observe(n, register, now)], key, config)
  {
    hide Next, Merged, Settled, RowOf, Retained;
    var more, heard := steps + [Observe(n, register, now)], Heard(steps, key, config);
    assert more[..|steps|] == steps;
    MergedAlone(n);
    if heard != [] {
      MergedGrows(heard, n);
    } else {
      assert [] + [n] == [n];
    }
  }

  lemma ResolvedExactly(s: Snapshot, cutoff: Instant)
    ensures Droppable(s, cutoff) <==> Settled(s) && s.updatedAt < cutoff
  {
  }

  lemma ExpiredHolds(l: Ledger, steps: seq<Step>, now: Instant, config: Config, key: JobKey)
    requires JobHolds(l, steps, key, config)
    ensures JobHolds(Expired(l, config, now), steps + [Cleanup(now)], key, config)
  {
    hide Merged, Settled, Droppable;
    var heard := Heard(steps, key, config);
    assert (steps + [Cleanup(now)])[..|steps|] == steps;
    if heard != [] {
      ResolvedExactly(Merged(heard), now - config.detailRetention);
    }
  }

  lemma {:induction false} BooksHold(l: Ledger, done: seq<Step>, steps: seq<Step>, config: Config, clock: Instant)
    requires ReportsAgree(l, done, config) && Orderly(l, steps, config, clock)
    ensures ReportsAgree(Books(l, steps, config), done + steps, config)
    decreases |steps|
  {
    hide JobHolds, Observed, Expired, SingleRegistration;
    if steps == [] {
      assert done + [] == done;
    } else {
      var step := steps[0];
      forall key: JobKey
        ensures JobHolds(Account(l, step, config), done + [step], key, config)
      {
        match step
        case Observe(n, register, now) => ObservedHolds(l, done, n, register, now, config, key);
        case Cleanup(now) => ExpiredHolds(l, done, now, config, key);
      }
      BooksHold(Account(l, step, config), done + [step], steps[1..], config, step.now);
      assert done + [step] + steps[1..] == done + steps;
    }
  }

  lemma NothingReported(config: Config)
    ensures ReportsAgree(EMPTY_LEDGER, [], config)
  {
  }

  /** After any run the ledger, which the rollups follow, is what the reports amount to. */
  lemma LedgerFromReports(steps: seq<Step>, config: Config, clock: Instant)
    requires Orderly(EMPTY_LEDGER, steps, config, clock)
    ensures ReportsAgree(Books(EMPTY_LEDGER, steps, config), steps, config)
  {
    hide ReportsAgree;
    NothingReported(config);
    BooksHold(EMPTY_LEDGER, [], steps, config, clock);
    assert [] + steps == steps;
  }

  // What the columns of a row say.

  predicate InRow(s: Snapshot, k: RowKey) {
    s.createdAt / 86_400_000_000_000 == k.day && s.queue == k.queue && s.user == k.user
  }

  /** The jobs of a row, in registration order. */
  function JobsIn(order: seq<JobKey>, latest: map<JobKey, Snapshot>, k: RowKey): seq<Snapshot> {
    if order == [] then []
    else
      var key := order[|order| - 1];
      JobsIn(order[..|order| - 1], latest, k) + if key in latest && InRow(latest[key], k) then [latest[key]] else []
  }

  function HowMany(jobs: seq<Snapshot>, p: Snapshot -> bool): int {
    Sum(Values(jobs, (s: Snapshot) => if p(s) then 1 else 0))
  }

  lemma {:induction false} FoldIsSum(order: seq<JobKey>, latest: map<JobKey, Snapshot>, k: RowKey, c: Column, f: Snapshot -> int)
    requires !c.MaxTime? && forall s: Snapshot {:trigger Contribution(s, c)} :: Contribution(s, c) == f(s)
    ensures Fold(order, latest, k, c) == Sum(Values(JobsIn(order, latest, k), f))
  {
    hide Contribution;
    if order != [] {
      var n := |order| - 1;
      FoldIsSum(order[..n], latest, k, c, f);
      var init := JobsIn(order[..n], latest, k);
      if order[n] in latest && InRow(latest[order[n]], k) {
        SumGrows(init, latest[order[n]], f);
      } else {
        assert init + [] == init;
      }
    }
  }

  lemma {:induction false} FoldIsHowMany(order: seq<JobKey>, latest: map<JobKey, Snapshot>, k: RowKey, c: Column, p: Snapshot -> bool)
    requires !c.MaxTime? && forall s: Snapshot {:trigger Contribution(s, c)} :: Contribution(s, c) == if p(s) then 1 else 0
    ensures Fold(order, latest, k, c) == HowMany(JobsIn(order, latest, k), p)
  {
    hide Contribution;
    FoldIsSum(order, latest, k, c, (s: Snapshot) => if p(s) then 1 else 0);
  }

  lemma {:induction false} FoldIsLargest(order: seq<JobKey>, latest: map<JobKey, Snapshot>, k: RowKey, c: Column, f: Snapshot -> int)
    requires c.MaxTime? && forall s: Snapshot {:trigger Contribution(s, c)} :: Contribution(s, c) == f(s)
    ensures IsLargest([0] + Values(JobsIn(order, latest, k), f), Fold(order, latest, k, c))
  {
    hide Contribution, IsLargest;
    if order == [] {
      LargestOfOne();
      assert [0] + Values(JobsIn(order, latest, k), f) == [0];
    } else {
      var n := |order| - 1;
      FoldIsLargest(order[..n], latest, k, c, f);
      var init, key := JobsIn(order[..n], latest, k), order[n];
      if key in latest && InRow(latest[key], k) {
        ValuesGrow(init, latest[key], f);
        LargestGrows([0] + Values(init, f), Fold(order[..n], latest, k, c), f(latest[key]));
        assert [0] + Values(init, f) + [f(latest[key])] == [0] + Values(JobsIn(order, latest, k), f);
      } else {
        assert init + [] == init;
        LargestOfMore(Values(init, f), Fold(order[..n], latest, k, c));
      }
    }
  }

  lemma LargestOfOne()
    ensures IsLargest([0], 0)
  {
    assert [0][0] == 0;
  }

  lemma LargestOfMore(values: seq<int>, r: int)
    requires IsLargest([0] + values, r)
    ensures r >= 0
  {
    assert ([0] + values)[0] <= r;
  }

  predicate PrinterEnded(s: Snapshot) {
    s.observed in {Completed, Canceled, Aborted, Failed, Rejected}
  }

  predicate EndedHere(s: Snapshot) {
    !PrinterEnded(s) && s.state in {Failed, Rejected}
  }

  function KnownOr0(m: Option<int>): int {
    if m.Some? && m.value >= 0 then m.value else 0
  }

  predicate IsKnown(m: Option<int>) {
    m.Some? && m.value >= 0
  }

  predicate Follows(at: Option<Instant>, created: Instant) {
    at.Some? && at.value >= created
  }

  function Delay(at: Option<Instant>, created: Instant): int {
    if Follows(at, created) then at.value - created else 0
  }

  /** A row counts its jobs and adds up documents, copies and payload. */
  lemma CounterColumns(order: seq<JobKey>, latest: map<JobKey, Snapshot>, k: RowKey)
    ensures var jobs := JobsIn(order, latest, k);
            && Fold(order, latest, k, JobCount) == Sum(Values(jobs, (s: Snapshot) => 1))
            && Fold(order, latest, k, AcceptedCount) == HowMany(jobs, (s: Snapshot) => s.accepted)
            && Fold(order, latest, k, CancelAcceptedCount) == HowMany(jobs, (s: Snapshot) => s.cancelAccepted)
            && Fold(order, latest, k, DocumentCount) == Sum(Values(jobs, (s: Snapshot) => s.documents))
            && Fold(order, latest, k, Copies) == Sum(Values(jobs, (s: Snapshot) => s.copies))
            && Fold(order, latest, k, PayloadBytes) == Sum(Values(jobs, (s: Snapshot) => s.payload))
  {
    hide Fold, JobsIn, HowMany, Sum, Values;
    FoldIsSum(order, latest, k, JobCount, (s: Snapshot) => 1);
    FoldIsHowMany(order, latest, k, AcceptedCount, (s: Snapshot) => s.accepted);
    FoldIsHowMany(order, latest, k, CancelAcceptedCount, (s: Snapshot) => s.cancelAccepted);
    FoldIsSum(order, latest, k, DocumentCount, (s: Snapshot) => s.documents);
    FoldIsSum(order, latest, k, Copies, (s: Snapshot) => s.copies);
    FoldIsSum(order, latest, k, PayloadBytes, (s: Snapshot) => s.payload);
  }

  /** Each job counts under the end the printer reported, or failed or rejected here, or is unresolved. */
  lemma OutcomeColumns(order: seq<JobKey>, latest: map<JobKey, Snapshot>, k: RowKey)
    ensures var jobs := JobsIn(order, latest, k);
            && Fold(order, latest, k, OutcomeCount(WasCompleted)) == HowMany(jobs, (s: Snapshot) => s.observed == Completed)
            && Fold(order, latest, k, OutcomeCount(WasCanceled)) == HowMany(jobs, (s: Snapshot) => s.observed == Canceled)
            && Fold(order, latest, k, OutcomeCount(WasAborted)) == HowMany(jobs, (s: Snapshot) => s.observed == Aborted)
            && Fold(order, latest, k, OutcomeCount(WasFailed)) == HowMany(jobs, (s: Snapshot) => s.observed == Failed || (EndedHere(s) && s.accepted))
            && Fold(order, latest, k, OutcomeCount(WasRejected)) == HowMany(jobs, (s: Snapshot) => s.observed == Rejected || (EndedHere(s) && !s.accepted))
            && Fold(order, latest, k, OutcomeCount(Unresolved)) == HowMany(jobs, (s: Snapshot) => !PrinterEnded(s) && !EndedHere(s))
  {
    hide Fold, JobsIn, HowMany;
    FoldIsHowMany(order, latest, k, OutcomeCount(WasCompleted), (s: Snapshot) => s.observed == Completed);
    FoldIsHowMany(order, latest, k, OutcomeCount(WasCanceled), (s: Snapshot) => s.observed == Canceled);
    FoldIsHowMany(order, latest, k, OutcomeCount(WasAborted), (s: Snapshot) => s.observed == Aborted);
    FoldIsHowMany(order, latest, k, OutcomeCount(WasFailed), (s: Snapshot) => s.observed == Failed || (EndedHere(s) && s.accepted));
    FoldIsHowMany(order, latest, k, OutcomeCount(WasRejected), (s: Snapshot) => s.observed == Rejected || (EndedHere(s) && !s.accepted));
    FoldIsHowMany(order, latest, k, OutcomeCount(Unresolved), (s: Snapshot) => !PrinterEnded(s) && !EndedHere(s));
  }

  /** Measurements are added up where they are known, and it is counted how often they are. */
  lemma MeasureColumns(order: seq<JobKey>, latest: map<JobKey, Snapshot>, k: RowKey)
    ensures var jobs := JobsIn(order, latest, k);
            && Fold(order, latest, k, Total(Pages)) == Sum(Values(jobs, (s: Snapshot) => KnownOr0(s.measures.pages)))
            && Fold(order, latest, k, Total(Estimated)) == Sum(Values(jobs, (s: Snapshot) => KnownOr0(s.measures.estimated)))
            && Fold(order, latest, k, Total(Impressions)) == Sum(Values(jobs, (s: Snapshot) => KnownOr0(s.measures.impressions)))
            && Fold(order, latest, k, Total(Sheets)) == Sum(Values(jobs, (s: Snapshot) => KnownOr0(s.measures.sheets)))
            && Fold(order, latest, k, KnownCount(Pages)) == HowMany(jobs, (s: Snapshot) => IsKnown(s.measures.pages))
            && Fold(order, latest, k, KnownCount(Estimated)) == HowMany(jobs, (s: Snapshot) => IsKnown(s.measures.estimated))
            && Fold(order, latest, k, KnownCount(Impressions)) == HowMany(jobs, (s: Snapshot) => IsKnown(s.measures.impressions))
            && Fold(order, latest, k, KnownCount(Sheets)) == HowMany(jobs, (s: Snapshot) => IsKnown(s.measures.sheets))
  {
    hide Fold, JobsIn, HowMany, Sum, Values;
    FoldIsSum(order, latest, k, Total(Pages), (s: Snapshot) => KnownOr0(s.measures.pages));
    FoldIsSum(order, latest, k, Total(Estimated), (s: Snapshot) => KnownOr0(s.measures.estimated));
    FoldIsSum(order, latest, k, Total(Impressions), (s: Snapshot) => KnownOr0(s.measures.impressions));
    FoldIsSum(order, latest, k, Total(Sheets), (s: Snapshot) => KnownOr0(s.measures.sheets));
    FoldIsHowMany(order, latest, k, KnownCount(Pages), (s: Snapshot) => IsKnown(s.measures.pages));
    FoldIsHowMany(order, latest, k, KnownCount(Estimated), (s: Snapshot) => IsKnown(s.measures.estimated));
    FoldIsHowMany(order, latest, k, KnownCount(Impressions), (s: Snapshot) => IsKnown(s.measures.impressions));
    FoldIsHowMany(order, latest, k, KnownCount(Sheets), (s: Snapshot) => IsKnown(s.measures.sheets));
  }

  /** Times until processing and until the end: how often known and not before the submission, their sum and the largest. */
  lemma TimeColumns(order: seq<JobKey>, latest: map<JobKey, Snapshot>, k: RowKey)
    ensures var jobs := JobsIn(order, latest, k);
            && Fold(order, latest, k, Observations(Processing)) == HowMany(jobs, (s: Snapshot) => Follows(s.processingAt, s.createdAt))
            && Fold(order, latest, k, Observations(Completion)) == HowMany(jobs, (s: Snapshot) => Follows(s.terminalAt, s.createdAt))
            && Fold(order, latest, k, TotalTime(Processing)) == Sum(Values(jobs, (s: Snapshot) => Delay(s.processingAt, s.createdAt)))
            && Fold(order, latest, k, TotalTime(Completion)) == Sum(Values(jobs, (s: Snapshot) => Delay(s.terminalAt, s.createdAt)))
            && IsLargest([0] + Values(jobs, (s: Snapshot) => Delay(s.processingAt, s.createdAt)), Fold(order, latest, k, MaxTime(Processing)))
            && IsLargest([0] + Values(jobs, (s: Snapshot) => Delay(s.terminalAt, s.createdAt)), Fold(order, latest, k, MaxTime(Completion)))
  {
    hide Fold, JobsIn, HowMany, Sum, Values, IsLargest;
    FoldIsHowMany(order, latest, k, Observations(Processing), (s: Snapshot) => Follows(s.processingAt, s.createdAt));
    FoldIsHowMany(order, latest, k, Observations(Completion), (s: Snapshot) => Follows(s.terminalAt, s.createdAt));
    FoldIsSum(order, latest, k, TotalTime(Processing), (s: Snapshot) => Delay(s.processingAt, s.createdAt));
    FoldIsSum(order, latest, k, TotalTime(Completion), (s: Snapshot) => Delay(s.terminalAt, s.createdAt));
    FoldIsLargest(order, latest, k, MaxTime(Processing), (s: Snapshot) => Delay(s.processingAt, s.createdAt));
    FoldIsLargest(order, latest, k, MaxTime(Completion), (s: Snapshot) => Delay(s.terminalAt, s.createdAt));
  }

  /** A cell of the settings table counts the jobs with these settings. */
  lemma SettingColumn(order: seq<JobKey>, latest: map<JobKey, Snapshot>, k: RowKey, settings: Settings)
    ensures Fold(order, latest, k, Pinned(settings)) == HowMany(JobsIn(order, latest, k), (s: Snapshot) => s.settings == settings)
  {
    FoldIsHowMany(order, latest, k, Pinned(settings), (s: Snapshot) => s.settings == settings);
  }

  /**
   After any run every retained cell is the column of the jobs whose reports were heard: their keys
   without repetition, each job with what its reports amount to.
   */
  lemma CellsFromReports(steps: seq<Step>, config: Config, clock: Instant, k: RowKey, c: Column)
    requires Orderly(EMPTY_LEDGER, steps, config, clock)
    requires config.rollupRetention == 0 || Clock(steps, clock) - config.rollupRetention < (k.day + 1) * 86_400_000_000_000
    ensures var l := Books(EMPTY_LEDGER, steps, config);
            && Distinct(l.order)
            && (forall key :: key in l.order <==> Heard(steps, key, config) != [])
            && (forall key :: key in l.latest <==> Heard(steps, key, config) != [])
            && (forall key :: key in l.latest ==> l.latest[key] == Merged(Heard(steps, key, config)))
            && Cell(Run(EMPTY_TABLES, steps, config), k, c) == Fold(l.order, l.latest, k, c)
  {
    hide Run, Books, Orderly, Retained, Fold, Heard, Merged, Dropped;
    RetainedExactly(k.day, config, Clock(steps, clock));
    RollupsAreFolds(steps, config, clock, k, c);
    RunReachable(EMPTY_TABLES, EMPTY_LEDGER, steps, config, clock);
    LedgerFromReports(steps, config, clock);
    var l := Books(EMPTY_LEDGER, steps, config);
    forall key: JobKey
      ensures key in l.latest <==> Heard(steps, key, config) != []
      ensures key in l.latest ==> l.latest[key] == Merged(Heard(steps, key, config))
    {
      assert JobHolds(l, steps, key, config);
    }
  }
}
