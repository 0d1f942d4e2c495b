/**
 The job tables and the transactions that change them.  Rollup rows are kept up to date by
 adding differences; the ledger is what they must agree with: every job ever registered, with
 its latest snapshot, folded afresh.
 */
module JobRollups {
  import opened Basics
  import opened JobSnapshots

  datatype Config = Config(detailRetention: nat, cpuRetention: nat, rollupRetention: nat)

  datatype SettingKey = SettingKey(row: RowKey, settings: Settings)

  type Row = map<Column, int>

  datatype JobTables = JobTables(
    checkpoints: map<JobKey, Snapshot>,
    jobs: map<JobKey, Snapshot>,
    rollups: map<RowKey, Row>,
    settings: map<SettingKey, int>)

  function Columns(): set<Column> {
    {JobCount, AcceptedCount, CancelAcceptedCount, DocumentCount, Copies, PayloadBytes,
     OutcomeCount(Unresolved), OutcomeCount(WasCompleted), OutcomeCount(WasCanceled), OutcomeCount(WasAborted),
     OutcomeCount(WasFailed), OutcomeCount(WasRejected), OutcomeCount(WasStopped),
     Total(Pages), KnownCount(Pages), Total(Estimated), KnownCount(Estimated),
     Total(Impressions), KnownCount(Impressions), Total(Sheets), KnownCount(Sheets),
     Observations(Processing), TotalTime(Processing), MaxTime(Processing),
     Observations(Completion), TotalTime(Completion), MaxTime(Completion)}
  }

  /** A day is kept while it is not older than the retention window; zero keeps everything. */
  predicate Retained(day: int, config: Config, now: Instant) {
    config.rollupRetention == 0 || day >= Day(now - config.rollupRetention)
  }

  /** A day is retained exactly while some instant of it is within the window. */
  lemma RetainedExactly(day: int, config: Config, now: Instant)
    ensures Retained(day, config, now) <==> config.rollupRetention == 0 || now - config.rollupRetention < (day + 1) * 86_400_000_000_000
  {
  }

  /** What is stored for a snapshot: nothing for an invalid key, or for an unknown job that it does not register. */
  function Stored(checkpoints: map<JobKey, Snapshot>, n: Snapshot, register: bool): Option<Snapshot> {
    if !n.key.Valid() then None
    else if n.key in checkpoints then Some(Next(Some(checkpoints[n.key]), n))
    else if register then Some(Next(None, n))
    else None
  }

  function Prior(checkpoints: map<JobKey, Snapshot>, key: JobKey): Option<Snapshot> {
    if key in checkpoints then Some(checkpoints[key]) else None
  }

  function Delta(prior: Option<Snapshot>, next: Snapshot, c: Column): int {
    Contribution(next, c) - if prior.Some? && !c.MaxTime? then Contribution(prior.value, c) else 0
  }

  function Accumulate(c: Column, total: int, more: int): int {
    if c.MaxTime? then Max(total, more) else total + more
  }

  function Bump(rollups: map<RowKey, Row>, k: RowKey, prior: Option<Snapshot>, next: Snapshot): Row {
    map c | c in Columns() ::
      if k in rollups && c in rollups[k] then Accumulate(c, rollups[k][c], Delta(prior, next, c)) else Delta(prior, next, c)
  }

  function SettingCount(settings: map<SettingKey, int>, key: SettingKey): int {
    if key in settings then settings[key] else 0
  }

  function AddSetting(settings: map<SettingKey, int>, s: Snapshot, n: int): map<SettingKey, int> {
    var key := SettingKey(RowOf(s), s.settings);
    settings[key := SettingCount(settings, key) + n]
  }

  function MoveSetting(settings: map<SettingKey, int>, prior: Option<Snapshot>, next: Snapshot): map<SettingKey, int> {
    AddSetting(if prior.Some? then AddSetting(settings, prior.value, -1) else settings, next, 1)
  }

  /** The rollup part of the transaction, for a day that is retained. */
  function Rolled(t: JobTables, prior: Option<Snapshot>, next: Snapshot): JobTables {
    var k := RowOf(next);
    t.(rollups := t.rollups[k := Bump(t.rollups, k, prior, next)], settings := MoveSetting(t.settings, prior, next))
  }

  function Persist(t: JobTables, n: Snapshot, register: bool, config: Config, now: Instant): JobTables {
    var stored := Stored(t.checkpoints, n, register);
    if stored.None? then t
    else
      var next := stored.value;
      var u := if Retained(RowOf(next).day, config, now) then Rolled(t, Prior(t.checkpoints, n.key), next) else t;
      u.(checkpoints := t.checkpoints[n.key := next], jobs := t.jobs[n.key := next])
  }

  /** A checkpoint that retention may drop: a resolved job not updated since the cutoff. */
  predicate Droppable(s: Snapshot, cutoff: Instant) {
    !OutcomeOf(s).Unresolved? && s.updatedAt < cutoff
  }

  function CleanDetails(t: JobTables, cutoff: Instant): JobTables {
    t.(jobs := map key | key in t.jobs && t.jobs[key].createdAt >= cutoff :: t.jobs[key],
       checkpoints := map key | key in t.checkpoints && !Droppable(t.checkpoints[key], cutoff) :: t.checkpoints[key])
  }

  function CleanRollups(t: JobTables, cutoff: int): JobTables {
    t.(rollups := map k | k in t.rollups && k.day >= cutoff :: t.rollups[k],
       settings := map key | key in t.settings && key.row.day >= cutoff :: t.settings[key])
  }

  function CleanZeroSettings(t: JobTables): JobTables {
    t.(settings := map key | key in t.settings && t.settings[key] != 0 :: t.settings[key])
  }

  function Clean(t: JobTables, config: Config, now: Instant): JobTables {
    var u := if config.detailRetention > 0 then CleanDetails(t, now - config.detailRetention) else t;
    var v := if config.rollupRetention > 0 then CleanRollups(u, Day(now - config.rollupRetention)) else u;
    CleanZeroSettings(v)
  }

  // The reference: every registered job, in registration order, with its latest snapshot.

  /**
   open holds the jobs that still accept snapshots; counted holds the snapshot of each job that
   was the latest while its day was retained.
   */
  datatype Ledger = Ledger(
    order: seq<JobKey>, latest: map<JobKey, Snapshot>, counted: map<JobKey, Snapshot>, open: set<JobKey>)

  function Live(l: Ledger, key: JobKey): Option<Snapshot> {
    if key in l.open && key in l.latest then Some(l.latest[key]) else None
  }

  /** A ledger in which one job's latest snapshot is replaced, or a new job is added. */
  function Entered(l: Ledger, key: JobKey, next: Snapshot, counted: bool): Ledger {
    Ledger(
      if key in l.latest then l.order else l.order + [key],
      l.latest[key := next],
      if counted then l.counted[key := next] else l.counted,
      l.open + {key})
  }

  function Observed(l: Ledger, n: Snapshot, register: bool, config: Config, now: Instant): Ledger {
    var prior := Live(l, n.key);
    if !n.key.Valid() || (prior.None? && !register) then l
    else
      var next := Next(prior, n);
      Entered(l, n.key, next, Retained(RowOf(next).day, config, now))
  }

  function Expired(l: Ledger, config: Config, now: Instant): Ledger {
    if config.detailRetention == 0 then l
    else l.(open := set key | key in l.open && key in l.latest && !Droppable(l.latest[key], now - config.detailRetention))
  }

  function Share(jobs: map<JobKey, Snapshot>, key: JobKey, k: RowKey, c: Column): int {
    if key in jobs && RowOf(jobs[key]) == k then Contribution(jobs[key], c) else 0
  }

  /** The fresh fold: the sum, or the maximum for the largest times, over the jobs of a row. */
  function Fold(order: seq<JobKey>, jobs: map<JobKey, Snapshot>, k: RowKey, c: Column): int {
    if order == [] then 0
    else Accumulate(c, Fold(order[..|order| - 1], jobs, k, c), Share(jobs, order[|order| - 1], k, c))
  }

  lemma {:induction false} FoldElsewhere(order: seq<JobKey>, jobs: map<JobKey, Snapshot>, key: JobKey, next: Snapshot, k: RowKey, c: Column)
    requires key !in order || (RowOf(next) != k && Share(jobs, key, k, c) == 0)
    ensures Fold(order, jobs[key := next], k, c) == Fold(order, jobs, k, c)
    decreases |order|
  {
    if order != [] {
      FoldElsewhere(order[..|order| - 1], jobs, key, next, k, c);
    }
  }

  /** Replacing the snapshot of one job moves the fold by the difference of its contributions. */
  lemma {:induction false} FoldChange(order: seq<JobKey>, jobs: map<JobKey, Snapshot>, key: JobKey, next: Snapshot, c: Column)
    requires Distinct(order) && key in order
    requires c.MaxTime? ==> 0 <= Share(jobs, key, RowOf(next), c) <= Contribution(next, c)
    ensures Fold(order, jobs[key := next], RowOf(next), c)
         == Accumulate(c, Fold(order, jobs, RowOf(next), c),
                       Contribution(next, c) - if c.MaxTime? then 0 else Share(jobs, key, RowOf(next), c))
    decreases |order|
  {
    var n := |order| - 1;
    var init, k := order[..n], RowOf(next);
    if order[n] == key {
      assert key !in init;
      FoldElsewhere(init, jobs, key, next, k, c);
    } else {
      FoldChange(init, jobs, key, next, c);
    }
  }

  lemma {:induction false} FoldNothing(order: seq<JobKey>, jobs: map<JobKey, Snapshot>, k: RowKey, c: Column)
    requires forall key :: key in jobs ==> RowOf(jobs[key]) != k
    ensures Fold(order, jobs, k, c) == 0
    decreases |order|
  {
    if order != [] {
      FoldNothing(order[..|order| - 1], jobs, k, c);
    }
  }

  lemma {:induction false} FoldAlike(order: seq<JobKey>, jobs: map<JobKey, Snapshot>, other: map<JobKey, Snapshot>, k: RowKey, c: Column)
    requires forall key :: key in order ==> Share(jobs, key, k, c) == Share(other, key, k, c)
    ensures Fold(order, jobs, k, c) == Fold(order, other, k, c)
    decreases |order|
  {
    if order != [] {
      FoldAlike(order[..|order| - 1], jobs, other, k, c);
    }
  }

  // The invariant of every run.

  ghost predicate RowAgrees(t: JobTables, l: Ledger, k: RowKey) {
    && k in t.rollups
    && (forall c :: c in Columns() ==> c in t.rollups[k] && t.rollups[k][c] == Fold(l.order, l.counted, k, c))
    && (forall s: Settings :: SettingCount(t.settings, SettingKey(k, s)) == Fold(l.order, l.counted, k, Pinned(s)))
  }

  ghost predicate OrderSound(l: Ledger) {
    && Distinct(l.order)
    && (forall key :: key in l.order <==> key in l.latest)
    && l.open <= l.latest.Keys
  }

  ghost predicate SnapshotsSound(l: Ledger, config: Config, now: Instant) {
    && (forall key :: key in l.latest ==> key.Valid() && l.latest[key].key == key && Nonnegative(l.latest[key].measures))
    && (forall key :: key in l.counted ==> key in l.latest && RowOf(l.counted[key]) == RowOf(l.latest[key]))
    && (forall key :: key in l.latest && Retained(RowOf(l.latest[key]).day, config, now) ==>
          key in l.counted && l.counted[key] == l.latest[key])
  }

  ghost predicate LedgerSound(l: Ledger, config: Config, now: Instant) {
    OrderSound(l) && SnapshotsSound(l, config, now)
  }

  ghost predicate TablesAgree(t: JobTables, l: Ledger, config: Config, now: Instant) {
    && t.checkpoints.Keys == l.open
    && (forall key :: key in l.open && key in l.latest ==> t.checkpoints[key] == l.latest[key])
    && (forall k :: k in t.rollups ==> RowAgrees(t, l, k))
    && (forall key :: key in t.settings ==> key.row in t.rollups)
    && (forall key :: key in l.counted && Retained(RowOf(l.counted[key]).day, config, now) ==> RowOf(l.counted[key]) in t.rollups)
  }

  ghost predicate Reachable(t: JobTables, l: Ledger, config: Config, now: Instant) {
    LedgerSound(l, config, now) && TablesAgree(t, l, config, now)
  }

  lemma RetainedEarlier(day: int, config: Config, before: Instant, now: Instant)
    requires before <= now && Retained(day, config, now)
    ensures Retained(day, config, before)
  {
  }

  lemma LaterStillReachable(t: JobTables, l: Ledger, config: Config, before: Instant, now: Instant)
    requires Reachable(t, l, config, before) && before <= now
    ensures Reachable(t, l, config, now)
  {
    hide RowAgrees, Retained;
    forall day | Retained(day, config, now)
      ensures Retained(day, config, before)
    {
      RetainedEarlier(day, config, before, now);
    }
  }

  /** One registration per key: only a job that still accepts snapshots may be registered again. */
  predicate SingleRegistration(l: Ledger, n: Snapshot, register: bool) {
    register && n.key in l.latest ==> n.key in l.open
  }

  lemma EnteredOrder(l: Ledger, key: JobKey, next: Snapshot, counted: bool)
    requires OrderSound(l)
    ensures OrderSound(Entered(l, key, next, counted))
  {
  }

  lemma EnteredSnapshots(l: Ledger, next: Snapshot, config: Config, now: Instant)
    requires SnapshotsSound(l, config, now) && next.key.Valid() && Nonnegative(next.measures)
    requires next.key in l.latest ==> RowOf(l.latest[next.key]) == RowOf(next)
    ensures SnapshotsSound(Entered(l, next.key, next, Retained(RowOf(next).day, config, now)), config, now)
  {
    hide RowOf, Retained, Nonnegative, JobKey.Valid;
  }

  lemma ObservedSound(l: Ledger, n: Snapshot, register: bool, config: Config, now: Instant)
    requires LedgerSound(l, config, now) && SingleRegistration(l, n, register)
    ensures LedgerSound(Observed(l, n, register, config, now), config, now)
  {
    hide Next, RowOf, Retained, Nonnegative;
    var prior := Live(l, n.key);
    if n.key.Valid() && (prior.Some? || register) {
      NextIsSound(prior, n);
      EnteredOrder(l, n.key, Next(prior, n), Retained(RowOf(Next(prior, n)).day, config, now));
      EnteredSnapshots(l, Next(prior, n), config, now);
    }
  }

  lemma NextIsSound(prior: Option<Snapshot>, n: Snapshot)
    requires prior.Some? ==> Nonnegative(prior.value.measures) && prior.value.key == n.key
    ensures Next(prior, n).key == n.key && Nonnegative(Next(prior, n).measures)
    ensures prior.Some? ==> RowOf(Next(prior, n)) == RowOf(prior.value)
  {
    NextAbsorbs(prior, n);
  }

  lemma {:induction false} FoldNonnegative(order: seq<JobKey>, jobs: map<JobKey, Snapshot>, k: RowKey, c: Column)
    requires c.MaxTime? || c.Pinned?
    ensures Fold(order, jobs, k, c) >= 0
    decreases |order|
  {
    if order != [] {
      FoldNonnegative(order[..|order| - 1], jobs, k, c);
    }
  }

  lemma FoldGrown(order: seq<JobKey>, key: JobKey, jobs: map<JobKey, Snapshot>, k: RowKey, c: Column)
    ensures Fold(order + [key], jobs, k, c) == Accumulate(c, Fold(order, jobs, k, c), Share(jobs, key, k, c))
    ensures Share(jobs, key, k, c) == 0 ==> Fold(order + [key], jobs, k, c) == Fold(order, jobs, k, c)
  {
    assert (order + [key])[..|order|] == order;
    if c.MaxTime? {
      FoldNonnegative(order, jobs, k, c);
    }
  }

  function Grown(order: seq<JobKey>, key: JobKey, known: bool): seq<JobKey> {
    if known then order else order + [key]
  }

  /** What one counted snapshot does to the fold of every row. */
  lemma FoldAfter(order: seq<JobKey>, counted: map<JobKey, Snapshot>, prior: Option<Snapshot>, next: Snapshot, k: RowKey, c: Column)
    requires Distinct(order) && (prior.Some? <==> next.key in order) && (prior.Some? <==> next.key in counted)
    requires prior.Some? ==> counted[next.key] == prior.value && RowOf(prior.value) == RowOf(next)
    requires prior.Some? && c.MaxTime? ==> 0 <= Contribution(prior.value, c) <= Contribution(next, c)
    ensures Fold(Grown(order, next.key, prior.Some?), counted[next.key := next], k, c)
         == if k == RowOf(next) then Accumulate(c, Fold(order, counted, k, c), Delta(prior, next, c)) else Fold(order, counted, k, c)
  {
    hide Contribution, RowOf, Fold;
    var jobs := counted[next.key := next];
    if k != RowOf(next) {
      FoldElsewhere(order, counted, next.key, next, k, c);
      FoldGrown(order, next.key, jobs, k, c);
    } else if prior.Some? {
      FoldChange(order, counted, next.key, next, c);
    } else {
      FoldElsewhere(order, counted, next.key, next, k, c);
      FoldGrown(order, next.key, jobs, k, c);
    }
  }

  lemma MovedSetting(settings: map<SettingKey, int>, prior: Option<Snapshot>, next: Snapshot, key: SettingKey)
    requires prior.Some? ==> RowOf(prior.value) == RowOf(next)
    ensures SettingCount(MoveSetting(settings, prior, next), key)
         == SettingCount(settings, key) + if key.row == RowOf(next) then Delta(prior, next, Pinned(key.settings)) else 0
    ensures key in MoveSetting(settings, prior, next) ==> key in settings || key.row == RowOf(next)
    ensures key in settings ==> key in MoveSetting(settings, prior, next)
  {
    hide RowOf;
  }

  /** What the transaction needs to know about the job it counts. */
  ghost predicate Countable(l: Ledger, prior: Option<Snapshot>, next: Snapshot) {
    && Distinct(l.order)
    && (prior.Some? <==> next.key in l.order) && (prior.Some? <==> next.key in l.counted)
    && (prior.Some? ==> l.counted[next.key] == prior.value && RowOf(prior.value) == RowOf(next))
    && (prior.Some? ==> forall c: Column :: c.MaxTime? ==> 0 <= Contribution(prior.value, c) <= Contribution(next, c))
  }

  function CountedLedger(l: Ledger, prior: Option<Snapshot>, next: Snapshot): Ledger {
    Ledger(Grown(l.order, next.key, prior.Some?), l.latest[next.key := next], l.counted[next.key := next], l.open + {next.key})
  }

  lemma RowBumped(t: JobTables, l: Ledger, prior: Option<Snapshot>, next: Snapshot)
    requires Countable(l, prior, next)
    requires RowOf(next) in t.rollups ==> RowAgrees(t, l, RowOf(next))
    requires RowOf(next) !in t.rollups ==> prior.None?
    requires RowOf(next) !in t.rollups ==> forall key :: key in l.counted ==> RowOf(l.counted[key]) != RowOf(next)
    requires forall key :: key in t.settings ==> key.row in t.rollups
    ensures RowAgrees(Rolled(t, prior, next), CountedLedger(l, prior, next), RowOf(next))
  {
    hide Contribution, RowOf, Fold, Columns, MoveSetting;
    var k := RowOf(next);
    var u, m := Rolled(t, prior, next), CountedLedger(l, prior, next);
    forall c | c in Columns()
      ensures c in u.rollups[k] && u.rollups[k][c] == Fold(m.order, m.counted, k, c)
    {
      FoldAfter(l.order, l.counted, prior, next, k, c);
      if k !in t.rollups {
        FoldNothing(l.order, l.counted, k, c);
        MaxTimeNonnegative(next, c);
      }
    }
    forall s: Settings
      ensures SettingCount(u.settings, SettingKey(k, s)) == Fold(m.order, m.counted, k, Pinned(s))
    {
      FoldAfter(l.order, l.counted, prior, next, k, Pinned(s));
      MovedSetting(t.settings, prior, next, SettingKey(k, s));
      if k !in t.rollups {
        FoldNothing(l.order, l.counted, k, Pinned(s));
      }
    }
  }

  lemma MaxTimeNonnegative(s: Snapshot, c: Column)
    ensures c.MaxTime? ==> Contribution(s, c) >= 0
  {
  }

  lemma RowKept(t: JobTables, l: Ledger, prior: Option<Snapshot>, next: Snapshot, k: RowKey)
    requires Countable(l, prior, next) && k != RowOf(next) && RowAgrees(t, l, k)
    ensures RowAgrees(Rolled(t, prior, next), CountedLedger(l, prior, next), k)
  {
    hide Contribution, RowOf, Fold, Columns, MoveSetting, Bump;
    var u, m := Rolled(t, prior, next), CountedLedger(l, prior, next);
    forall c: Column
      ensures Fold(m.order, m.counted, k, c) == Fold(l.order, l.counted, k, c)
    {
      FoldAfter(l.order, l.counted, prior, next, k, c);
    }
    forall s: Settings
      ensures SettingCount(u.settings, SettingKey(k, s)) == SettingCount(t.settings, SettingKey(k, s))
    {
      MovedSetting(t.settings, prior, next, SettingKey(k, s));
    }
  }

  /** A registered job outside the window changes no fold, because it is never counted. */
  lemma RowUncounted(t: JobTables, l: Ledger, key: JobKey, u: JobTables, m: Ledger, k: RowKey)
    requires RowAgrees(t, l, k) && u.rollups == t.rollups && u.settings == t.settings
    requires m.counted == l.counted
    requires m.order == l.order || (m.order == l.order + [key] && key !in l.counted)
    ensures RowAgrees(u, m, k)
  {
    hide Contribution, RowOf, Fold, Columns;
    forall c: Column
      ensures Fold(m.order, m.counted, k, c) == Fold(l.order, l.counted, k, c)
    {
      FoldGrown(l.order, key, l.counted, k, c);
    }
  }

  /** One snapshot, whether counted or not, keeps every row equal to the fresh fold. */
  lemma PersistKeepsRows(t: JobTables, l: Ledger, n: Snapshot, register: bool, config: Config, now: Instant, k: RowKey)
    requires Reachable(t, l, config, now) && SingleRegistration(l, n, register)
    requires k in Persist(t, n, register, config, now).rollups
    ensures RowAgrees(Persist(t, n, register, config, now), Observed(l, n, register, config, now), k)
  {
    hide RowAgrees, Retained, RowOf, Next, Bump, MoveSetting, Nonnegative, JobKey.Valid;
    var prior := Live(l, n.key);
    var stored := Stored(t.checkpoints, n, register);
    assert prior == Prior(t.checkpoints, n.key);
    if stored.Some? {
      var next := stored.value;
      NextIsSound(prior, n);
      var u, m := Persist(t, n, register, config, now), Observed(l, n, register, config, now);
      if Retained(RowOf(next).day, config, now) {
        CountedIsCountable(l, n, prior, config, now);
        var r := Rolled(t, prior, next);
        assert m == CountedLedger(l, prior, next);
        if k == RowOf(next) {
          RowBumped(t, l, prior, next);
        } else {
          RowKept(t, l, prior, next, k);
        }
        SameRows(r, m, u, k);
      } else {
        RowUncounted(t, l, n.key, u, m, k);
      }
    }
  }

  lemma SameRows(t: JobTables, l: Ledger, u: JobTables, k: RowKey)
    requires RowAgrees(t, l, k) && u.rollups == t.rollups && u.settings == t.settings
    ensures RowAgrees(u, l, k)
  {
  }

  lemma CountedIsCountable(l: Ledger, n: Snapshot, prior: Option<Snapshot>, config: Config, now: Instant)
    requires LedgerSound(l, config, now) && prior == Live(l, n.key)
    requires prior.None? ==> n.key !in l.latest
    requires Retained(RowOf(Next(prior, n)).day, config, now)
    ensures Countable(l, prior, Next(prior, n)) && Next(prior, n).key == n.key
  {
    hide Retained, Nonnegative;
    NextIsSound(prior, n);
    hide Next;
    if prior.Some? {
      forall c: Column | c.MaxTime?
        ensures 0 <= Contribution(prior.value, c) <= Contribution(Next(prior, n), c)
      {
        NextKeepsRow(prior.value, n, c);
      }
    }
  }

  lemma PersistAgrees(t: JobTables, l: Ledger, n: Snapshot, register: bool, config: Config, now: Instant)
    requires Reachable(t, l, config, now) && SingleRegistration(l, n, register)
    ensures Reachable(Persist(t, n, register, config, now), Observed(l, n, register, config, now), config, now)
  {
    var u, m := Persist(t, n, register, config, now), Observed(l, n, register, config, now);
    forall k | k in u.rollups
      ensures RowAgrees(u, m, k)
    {
      PersistKeepsRows(t, l, n, register, config, now, k);
    }
    ObservedSound(l, n, register, config, now);
    PersistCheckpoints(t, l, n, register, config, now);
    PersistSettingRows(t, l, n, register, config, now);
    PersistCountedRows(t, l, n, register, config, now);
  }

  lemma PersistCheckpoints(t: JobTables, l: Ledger, n: Snapshot, register: bool, config: Config, now: Instant)
    requires Reachable(t, l, config, now)
    ensures var u, m := Persist(t, n, register, config, now), Observed(l, n, register, config, now);
            && u.checkpoints.Keys == m.open
            && (forall key :: key in m.open && key in m.latest ==> u.checkpoints[key] == m.latest[key])
  {
    hide RowAgrees, Retained, RowOf, Bump, MoveSetting, Nonnegative, Next, JobKey.Valid;
    var prior := Live(l, n.key);
    assert prior == Prior(t.checkpoints, n.key);
    NextIsSound(prior, n);
  }

  lemma PersistSettingRows(t: JobTables, l: Ledger, n: Snapshot, register: bool, config: Config, now: Instant)
    requires Reachable(t, l, config, now)
    ensures var u := Persist(t, n, register, config, now);
            forall key :: key in u.settings ==> key.row in u.rollups
  {
    hide RowAgrees, Retained, RowOf, Bump, MoveSetting, Nonnegative, Next, JobKey.Valid;
    var prior, stored := Prior(t.checkpoints, n.key), Stored(t.checkpoints, n, register);
    NextIsSound(prior, n);
    if stored.Some? {
      forall key
        ensures key in MoveSetting(t.settings, prior, stored.value) ==> key in t.settings || key.row == RowOf(stored.value)
      {
        MovedSetting(t.settings, prior, stored.value, key);
      }
    }
  }

  lemma PersistCountedRows(t: JobTables, l: Ledger, n: Snapshot, register: bool, config: Config, now: Instant)
    requires Reachable(t, l, config, now)
    ensures var u, m := Persist(t, n, register, config, now), Observed(l, n, register, config, now);
            forall key :: key in m.counted && Retained(RowOf(m.counted[key]).day, config, now) ==>
                            RowOf(m.counted[key]) in u.rollups
  {
    hide RowAgrees, Retained, RowOf, Bump, MoveSetting, Nonnegative, Next, JobKey.Valid;
    var prior := Live(l, n.key);
    assert prior == Prior(t.checkpoints, n.key);
    NextIsSound(prior, n);
  }

  // Retention.

  lemma CleanedSetting(t: JobTables, config: Config, now: Instant, key: SettingKey)
    ensures Retained(key.row.day, config, now) ==>
              SettingCount(Clean(t, config, now).settings, key) == SettingCount(t.settings, key)
    ensures key in Clean(t, config, now).settings ==> key in t.settings && Retained(key.row.day, config, now)
  {
  }

  lemma CleanedRow(t: JobTables, config: Config, now: Instant, k: RowKey)
    ensures k in Clean(t, config, now).rollups <==> k in t.rollups && Retained(k.day, config, now)
    ensures k in Clean(t, config, now).rollups ==> Clean(t, config, now).rollups[k] == t.rollups[k]
  {
  }

  lemma CleanKeepsRows(t: JobTables, l: Ledger, config: Config, now: Instant, k: RowKey)
    requires Reachable(t, l, config, now) && k in Clean(t, config, now).rollups
    ensures RowAgrees(Clean(t, config, now), Expired(l, config, now), k)
  {
    hide Clean, Retained, Fold;
    CleanedRow(t, config, now, k);
    assert RowAgrees(t, l, k);
    forall s: Settings
      ensures SettingCount(Clean(t, config, now).settings, SettingKey(k, s)) == SettingCount(t.settings, SettingKey(k, s))
    {
      CleanedSetting(t, config, now, SettingKey(k, s));
    }
  }

  /** Retention drops whole days and finished checkpoints; what stays still agrees with the ledger. */
  lemma CleanAgrees(t: JobTables, l: Ledger, config: Config, now: Instant)
    requires Reachable(t, l, config, now)
    ensures Reachable(Clean(t, config, now), Expired(l, config, now), config, now)
  {
    hide Clean, Retained, RowOf, Nonnegative, JobKey.Valid, Droppable, RowAgrees;
    var u, m := Clean(t, config, now), Expired(l, config, now);
    forall k | k in u.rollups
      ensures RowAgrees(u, m, k)
    {
      CleanKeepsRows(t, l, config, now, k);
    }
    CleanSettingRows(t, l, config, now);
    CleanCheckpoints(t, l, config, now);
  }

  lemma CleanSettingRows(t: JobTables, l: Ledger, config: Config, now: Instant)
    requires Reachable(t, l, config, now)
    ensures var u := Clean(t, config, now);
            && (forall key :: key in u.settings ==> key.row in u.rollups)
            && (forall key :: key in l.counted && Retained(RowOf(l.counted[key]).day, config, now) ==>
                  RowOf(l.counted[key]) in u.rollups)
  {
    hide Clean, Retained, RowAgrees, RowOf;
    var u := Clean(t, config, now);
    forall key | key in u.settings
      ensures key.row in u.rollups
    {
      CleanedSetting(t, config, now, key);
      CleanedRow(t, config, now, key.row);
    }
    forall key | key in l.counted && Retained(RowOf(l.counted[key]).day, config, now)
      ensures RowOf(l.counted[key]) in u.rollups
    {
      CleanedRow(t, config, now, RowOf(l.counted[key]));
    }
  }

  lemma CleanedCheckpoint(t: JobTables, config: Config, now: Instant, key: JobKey)
    ensures key in Clean(t, config, now).checkpoints
       <==> key in t.checkpoints && !(config.detailRetention > 0 && Droppable(t.checkpoints[key], now - config.detailRetention))
    ensures key in Clean(t, config, now).checkpoints ==> Clean(t, config, now).checkpoints[key] == t.checkpoints[key]
  {
    hide Droppable;
  }

  lemma CleanCheckpoints(t: JobTables, l: Ledger, config: Config, now: Instant)
    requires Reachable(t, l, config, now)
    ensures Clean(t, config, now).checkpoints.Keys == Expired(l, config, now).open <= l.open
    ensures forall key :: key in Expired(l, config, now).open && key in l.latest ==>
                            Clean(t, config, now).checkpoints[key] == l.latest[key]
  {
    hide Retained, RowAgrees, RowOf, Droppable, Clean, Nonnegative, JobKey.Valid;
    var u, m := Clean(t, config, now), Expired(l, config, now);
    forall key
      ensures key in u.checkpoints <==> key in m.open
      ensures key in u.checkpoints ==> key in t.checkpoints && u.checkpoints[key] == t.checkpoints[key]
    {
      CleanedCheckpoint(t, config, now, key);
    }
  }

  // Whole runs.

  datatype Step = Observe(snapshot: Snapshot, register: bool, now: Instant) | Cleanup(now: Instant)

  function Apply(t: JobTables, step: Step, config: Config): JobTables {
    match step
    case Observe(n, register, now) => Persist(t, n, register, config, now)
    case Cleanup(now) => Clean(t, config, now)
  }

  function Account(l: Ledger, step: Step, config: Config): Ledger {
    match step
    case Observe(n, register, now) => Observed(l, n, register, config, now)
    case Cleanup(now) => Expired(l, config, now)
  }

  function Run(t: JobTables, steps: seq<Step>, config: Config): JobTables
    decreases |steps|
  {
    if steps == [] then t else Run(Apply(t, steps[0], config), steps[1..], config)
  }

  function Books(l: Ledger, steps: seq<Step>, config: Config): Ledger
    decreases |steps|
  {
    if steps == [] then l else Books(Account(l, steps[0], config), steps[1..], config)
  }

  /** The clock never goes back, and no key is registered again after its job was forgotten. */
  ghost predicate Orderly(l: Ledger, steps: seq<Step>, config: Config, clock: Instant)
    decreases |steps|
  {
    steps != [] ==>
      && clock <= steps[0].now
      && (steps[0].Observe? ==> SingleRegistration(l, steps[0].snapshot, steps[0].register))
      && Orderly(Account(l, steps[0], config), steps[1..], config, steps[0].now)
  }

  function Clock(steps: seq<Step>, clock: Instant): Instant {
    if steps == [] then clock else steps[|steps| - 1].now
  }

  lemma {:induction false} RunReachable(t: JobTables, l: Ledger, steps: seq<Step>, config: Config, clock: Instant)
    requires Reachable(t, l, config, clock) && Orderly(l, steps, config, clock)
    ensures Reachable(Run(t, steps, config), Books(l, steps, config), config, Clock(steps, clock))
    decreases |steps|
  {
    hide Reachable, Persist, Observed, Clean, Expired, SingleRegistration;
    if steps != [] {
      var step := steps[0];
      LaterStillReachable(t, l, config, clock, step.now);
      match step {
        case Observe(n, register, now) => PersistAgrees(t, l, n, register, config, now);
        case Cleanup(now) => CleanAgrees(t, l, config, now);
      }
      RunReachable(Apply(t, step, config), Account(l, step, config), steps[1..], config, step.now);
    }
  }

  const EMPTY_TABLES: JobTables := JobTables(map[], map[], map[], map[])

  const EMPTY_LEDGER: Ledger := Ledger([], map[], map[], {})

  function Cell(t: JobTables, k: RowKey, c: Column): int {
    if c.Pinned? then SettingCount(t.settings, SettingKey(k, c.settings))
    else if k in t.rollups && c in t.rollups[k] then t.rollups[k][c]
    else 0
  }

  lemma AllColumns(c: Column)
    ensures c in Columns() <==> !c.Pinned?
  {
    match c {
      case OutcomeCount(Unresolved) | OutcomeCount(WasCompleted) | OutcomeCount(WasCanceled) =>
      case OutcomeCount(WasAborted) | OutcomeCount(WasFailed) | OutcomeCount(WasRejected) | OutcomeCount(WasStopped) =>
      case Total(Pages) | Total(Estimated) | Total(Impressions) | Total(Sheets) =>
      case KnownCount(Pages) | KnownCount(Estimated) | KnownCount(Impressions) | KnownCount(Sheets) =>
      case Observations(Processing) | Observations(Completion) =>
      case TotalTime(Processing) | TotalTime(Completion) =>
      case MaxTime(Processing) | MaxTime(Completion) =>
      case _ =>
    }
  }

  lemma CellIsFold(t: JobTables, l: Ledger, config: Config, now: Instant, k: RowKey, c: Column)
    requires Reachable(t, l, config, now)
    ensures k in t.rollups ==> Cell(t, k, c) == Fold(l.order, l.counted, k, c)
    ensures Retained(k.day, config, now) ==> Cell(t, k, c) == Fold(l.order, l.latest, k, c)
  {
    hide Contribution, Columns, RowOf, Retained, Nonnegative;
    AllColumns(c);
    if k in t.rollups {
      assert RowAgrees(t, l, k);
    }
    if Retained(k.day, config, now) {
      FoldAlike(l.order, l.latest, l.counted, k, c);
      if k !in t.rollups {
        FoldNothing(l.order, l.counted, k, c);
      }
    }
  }

  /**
   After any run, every retained cell of both rollup tables is the fresh fold over the latest
   snapshot of every job ever registered, also of those whose checkpoint retention dropped.
   */
  lemma RollupsAreFolds(steps: seq<Step>, config: Config, clock: Instant, k: RowKey, c: Column)
    requires Orderly(EMPTY_LEDGER, steps, config, clock)
    requires Retained(k.day, config, Clock(steps, clock))
    ensures Cell(Run(EMPTY_TABLES, steps, config), k, c)
         == Fold(Books(EMPTY_LEDGER, steps, config).order, Books(EMPTY_LEDGER, steps, config).latest, k, c)
  {
    hide Run, Books, Orderly, Retained, Fold;
    RunReachable(EMPTY_TABLES, EMPTY_LEDGER, steps, config, clock);
    CellIsFold(Run(EMPTY_TABLES, steps, config), Books(EMPTY_LEDGER, steps, config), config, Clock(steps, clock), k, c);
  }

  // Conservation inside a row.

  lemma {:induction false} OutcomesSum(order: seq<JobKey>, jobs: map<JobKey, Snapshot>, k: RowKey)
    ensures Fold(order, jobs, k, OutcomeCount(Unresolved)) + Fold(order, jobs, k, OutcomeCount(WasCompleted))
          + Fold(order, jobs, k, OutcomeCount(WasCanceled)) + Fold(order, jobs, k, OutcomeCount(WasAborted))
          + Fold(order, jobs, k, OutcomeCount(WasFailed)) + Fold(order, jobs, k, OutcomeCount(WasRejected))
          + Fold(order, jobs, k, OutcomeCount(WasStopped)) == Fold(order, jobs, k, JobCount)
    ensures Fold(order, jobs, k, OutcomeCount(WasStopped)) == 0
    decreases |order|
  {
    hide RowOf, Contribution;
    if order != [] {
      var n := |order| - 1;
      OutcomesSum(order[..n], jobs, k);
      if order[n] in jobs {
        OneOutcome(jobs[order[n]]);
        NeverStopped(jobs[order[n]]);
      }
    }
  }

  lemma NeverStopped(s: Snapshot)
    ensures Contribution(s, OutcomeCount(WasStopped)) == 0
  {
  }

  function SumSettings(settings: map<SettingKey, int>, k: RowKey, listed: seq<Settings>): int {
    if listed == [] then 0
    else SumSettings(settings, k, listed[..|listed| - 1]) + SettingCount(settings, SettingKey(k, listed[|listed| - 1]))
  }

  function SumFolds(order: seq<JobKey>, jobs: map<JobKey, Snapshot>, k: RowKey, listed: seq<Settings>): int {
    if listed == [] then 0
    else SumFolds(order, jobs, k, listed[..|listed| - 1]) + Fold(order, jobs, k, Pinned(listed[|listed| - 1]))
  }

  lemma {:induction false} SumFoldsStep(order: seq<JobKey>, jobs: map<JobKey, Snapshot>, k: RowKey, listed: seq<Settings>)
    requires order != [] && Distinct(listed)
    ensures SumFolds(order, jobs, k, listed)
         == SumFolds(order[..|order| - 1], jobs, k, listed)
          + if Share(jobs, order[|order| - 1], k, JobCount) == 1 && jobs[order[|order| - 1]].settings in listed then 1 else 0
    decreases |listed|
  {
    hide RowOf;
    if listed != [] {
      var n := |listed| - 1;
      SumFoldsStep(order, jobs, k, listed[..n]);
      assert listed == listed[..n] + [listed[n]];
      assert listed[n] !in listed[..n];
    }
  }

  /** Every job of the row is counted under exactly one of the listed settings. */
  lemma {:induction false} SettingsPartition(order: seq<JobKey>, jobs: map<JobKey, Snapshot>, k: RowKey, listed: seq<Settings>)
    requires Distinct(listed)
    requires forall key :: key in order && Share(jobs, key, k, JobCount) == 1 ==> jobs[key].settings in listed
    ensures SumFolds(order, jobs, k, listed) == Fold(order, jobs, k, JobCount)
    decreases |order|
  {
    hide RowOf;
    if order == [] {
      NoFolds(jobs, k, listed);
    } else {
      var n := |order| - 1;
      SettingsPartition(order[..n], jobs, k, listed);
      SumFoldsStep(order, jobs, k, listed);
    }
  }

  lemma {:induction false} NoFolds(jobs: map<JobKey, Snapshot>, k: RowKey, listed: seq<Settings>)
    ensures SumFolds([], jobs, k, listed) == 0
    decreases |listed|
  {
    if listed != [] {
      NoFolds(jobs, k, listed[..|listed| - 1]);
    }
  }

  lemma {:induction false} CountedOnce(order: seq<JobKey>, jobs: map<JobKey, Snapshot>, k: RowKey, key: JobKey)
    requires key in order && key in jobs && RowOf(jobs[key]) == k
    ensures Fold(order, jobs, k, Pinned(jobs[key].settings)) >= 1
    decreases |order|
  {
    hide RowOf;
    var n := |order| - 1;
    var c := Pinned(jobs[key].settings);
    FoldNonnegative(order[..n], jobs, k, c);
    if order[n] != key {
      CountedOnce(order[..n], jobs, k, key);
    }
  }

  lemma {:induction false} SumsAgree(t: JobTables, l: Ledger, k: RowKey, listed: seq<Settings>)
    requires RowAgrees(t, l, k)
    ensures SumSettings(t.settings, k, listed) == SumFolds(l.order, l.counted, k, listed)
    decreases |listed|
  {
    hide Fold, Columns;
    if listed != [] {
      SumsAgree(t, l, k, listed[..|listed| - 1]);
    }
  }

  /**
   In every rollup row of every reachable state the outcome columns sum to the job count, no
   settings cell is negative, and the settings cells of the row, listed once each, sum to it too.
   */
  lemma RowConserves(t: JobTables, l: Ledger, config: Config, now: Instant, k: RowKey, listed: seq<Settings>)
    requires Reachable(t, l, config, now) && k in t.rollups
    requires Distinct(listed) && forall s :: s in listed <==> SettingKey(k, s) in t.settings
    ensures Cell(t, k, OutcomeCount(Unresolved)) + Cell(t, k, OutcomeCount(WasCompleted))
          + Cell(t, k, OutcomeCount(WasCanceled)) + Cell(t, k, OutcomeCount(WasAborted))
          + Cell(t, k, OutcomeCount(WasFailed)) + Cell(t, k, OutcomeCount(WasRejected)) == Cell(t, k, JobCount)
    ensures forall s :: s in listed ==> t.settings[SettingKey(k, s)] >= 0
    ensures SumSettings(t.settings, k, listed) == Cell(t, k, JobCount)
  {
    hide Cell, Fold, Columns, RowOf, Contribution, Retained, Nonnegative, RowAgrees;
    OutcomesSum(l.order, l.counted, k);
    forall c: Column
      ensures Cell(t, k, c) == Fold(l.order, l.counted, k, c)
    {
      CellIsFold(t, l, config, now, k, c);
    }
    forall s | s in listed
      ensures t.settings[SettingKey(k, s)] >= 0
    {
      FoldNonnegative(l.order, l.counted, k, Pinned(s));
      CellIsCount(t, k, s);
    }
    ListedCoversJobs(t, l, k, listed);
    SettingsPartition(l.order, l.counted, k, listed);
    SumsAgree(t, l, k, listed);
  }

  lemma CellIsCount(t: JobTables, k: RowKey, s: Settings)
    ensures Cell(t, k, Pinned(s)) == SettingCount(t.settings, SettingKey(k, s))
  {
  }

  lemma ListedCoversJobs(t: JobTables, l: Ledger, k: RowKey, listed: seq<Settings>)
    requires RowAgrees(t, l, k)
    requires forall s :: s in listed <==> SettingKey(k, s) in t.settings
    ensures forall key :: key in l.order && Share(l.counted, key, k, JobCount) == 1 ==> l.counted[key].settings in listed
  {
    hide Fold, Columns, RowOf;
    forall key | key in l.order && Share(l.counted, key, k, JobCount) == 1
      ensures l.counted[key].settings in listed
    {
      CountedOnce(l.order, l.counted, k, key);
    }
  }

  // A second registration.

  /** What the registration of a job without a checkpoint does to every cell. */
  lemma RegistrationCell(t: JobTables, l: Ledger, n: Snapshot, config: Config, now: Instant, k: RowKey, c: Column)
    requires Reachable(t, l, config, now) && n.key.Valid() && n.key !in l.open
    ensures Cell(Persist(t, n, true, config, now), k, c)
         == if k == RowOf(n) && Retained(k.day, config, now) then Accumulate(c, Cell(t, k, c), Contribution(Next(None, n), c))
            else Cell(t, k, c)
  {
    NormaliseKeepsRow(n);
    CheckpointsAreOpen(t, l, config, now);
    RowHasCells(t, l, config, now, k, c);
    hide Reachable, RowOf, Retained, Normalise, Contribution, Rolled, Cell, JobKey.Valid, Persist, Accumulate;
    RolledCell(t, Next(None, n), k, c);
    RegistrationTables(t, n, config, now);
    SameCell(Rolled(t, None, Next(None, n)), Persist(t, n, true, config, now), k, c);
    SameCell(t, Persist(t, n, true, config, now), k, c);
  }

  lemma RegistrationTables(t: JobTables, n: Snapshot, config: Config, now: Instant)
    requires n.key.Valid() && n.key !in t.checkpoints
    ensures var next := Next(None, n);
            var u := if Retained(RowOf(next).day, config, now) then Rolled(t, None, next) else t;
            Persist(t, n, true, config, now).rollups == u.rollups && Persist(t, n, true, config, now).settings == u.settings
  {
    hide RowOf, Retained, Next, Rolled;
  }

  lemma CheckpointsAreOpen(t: JobTables, l: Ledger, config: Config, now: Instant)
    requires Reachable(t, l, config, now)
    ensures t.checkpoints.Keys == l.open
  {
    hide RowAgrees, LedgerSound;
  }

  lemma RowHasCells(t: JobTables, l: Ledger, config: Config, now: Instant, k: RowKey, c: Column)
    requires Reachable(t, l, config, now)
    ensures k in t.rollups && !c.Pinned? ==> c in t.rollups[k]
  {
    hide LedgerSound, Columns;
    AllColumns(c);
  }

  lemma SameCell(t: JobTables, u: JobTables, k: RowKey, c: Column)
    ensures t.rollups == u.rollups && t.settings == u.settings ==> Cell(t, k, c) == Cell(u, k, c)
  {
  }

  lemma RolledCell(t: JobTables, next: Snapshot, k: RowKey, c: Column)
    requires k in t.rollups && !c.Pinned? ==> c in t.rollups[k]
    ensures Cell(Rolled(t, None, next), k, c)
         == if k == RowOf(next) then Accumulate(c, Cell(t, k, c), Contribution(next, c)) else Cell(t, k, c)
  {
    hide Columns, RowOf, Contribution, MoveSetting;
    AllColumns(c);
    MaxTimeNonnegative(next, c);
    if c.Pinned? {
      MovedSetting(t.settings, None, next, SettingKey(k, c.settings));
    }
  }

  lemma {:induction false} FoldWithout(order: seq<JobKey>, jobs: map<JobKey, Snapshot>, key: JobKey, next: Snapshot, k: RowKey, c: Column)
    requires Distinct(order) && key in order && RowOf(next) != k && !c.MaxTime?
    ensures Fold(order, jobs[key := next], k, c) == Fold(order, jobs, k, c) - Share(jobs, key, k, c)
    decreases |order|
  {
    hide Contribution, RowOf;
    var n := |order| - 1;
    if order[n] == key {
      assert key !in order[..n];
      FoldElsewhere(order[..n], jobs, key, next, k, c);
    } else {
      FoldWithout(order[..n], jobs, key, next, k, c);
    }
  }

  /**
   Why one registration per key is needed: registering a job again after its checkpoint was dropped
   leaves the row of its first registration one job too high, whichever row it is registered into now.
   */
  lemma RegisteredAgainCountsTwice(t: JobTables, l: Ledger, n: Snapshot, config: Config, now: Instant)
    requires Reachable(t, l, config, now) && n.key.Valid() && n.key in l.latest && n.key !in l.open
    requires Retained(RowOf(l.latest[n.key]).day, config, now)
    ensures var k, m := RowOf(l.latest[n.key]), Observed(l, n, true, config, now);
            Cell(Persist(t, n, true, config, now), k, JobCount) == Fold(m.order, m.latest, k, JobCount) + 1
  {
    NormaliseKeepsRow(n);
    hide Fold, Columns, RowOf, Retained, Nonnegative, RowAgrees, Persist, Cell;
    var k, next := RowOf(l.latest[n.key]), Next(None, n);
    RegistrationCell(t, l, n, config, now, k, JobCount);
    CellIsFold(t, l, config, now, k, JobCount);
    if RowOf(n) == k {
      FoldChange(l.order, l.latest, n.key, next, JobCount);
    } else {
      FoldWithout(l.order, l.latest, n.key, next, k, JobCount);
    }
  }

  /** A second registration of a job whose first row is out of the window by now miscounts nothing that is kept. */
  lemma LateRegistrationAgrees(t: JobTables, l: Ledger, n: Snapshot, config: Config, now: Instant, k: RowKey, c: Column)
    requires Reachable(t, l, config, now) && n.key.Valid() && n.key in l.latest && n.key !in l.open
    requires !Retained(RowOf(l.latest[n.key]).day, config, now) && Retained(k.day, config, now)
    ensures var m := Observed(l, n, true, config, now);
            Cell(Persist(t, n, true, config, now), k, c) == Fold(m.order, m.latest, k, c)
  {
    NormaliseKeepsRow(n);
    hide Fold, Columns, RowOf, Retained, Nonnegative, RowAgrees, Persist, Cell, Contribution, Normalise;
    var next := Next(None, n);
    RegistrationCell(t, l, n, config, now, k, c);
    CellIsFold(t, l, config, now, k, c);
    MaxTimeNonnegative(next, c);
    if RowOf(n) == k {
      FoldChange(l.order, l.latest, n.key, next, c);
    } else {
      FoldElsewhere(l.order, l.latest, n.key, next, k, c);
    }
  }

  /**
   When one more snapshot leaves every retained cell the fresh fold: if and only if it does not register
   a job again whose checkpoint was dropped, or the job's row is out of the window.
   */
  lemma RegistrationExactly(t: JobTables, l: Ledger, n: Snapshot, register: bool, config: Config, now: Instant)
    requires Reachable(t, l, config, now)
    ensures var u, m := Persist(t, n, register, config, now), Observed(l, n, register, config, now);
            (forall k: RowKey, c: Column :: Retained(k.day, config, now) ==> Cell(u, k, c) == Fold(m.order, m.latest, k, c)) <==>
              !n.key.Valid() || SingleRegistration(l, n, register) || !Retained(RowOf(l.latest[n.key]).day, config, now)
  {
    hide Fold, RowOf, Retained, Nonnegative, RowAgrees, Cell, Next, Bump, MoveSetting;
    var u, m := Persist(t, n, register, config, now), Observed(l, n, register, config, now);
    if !n.key.Valid() {
      forall k: RowKey, c: Column | Retained(k.day, config, now)
        ensures Cell(u, k, c) == Fold(m.order, m.latest, k, c)
      {
        CellIsFold(t, l, config, now, k, c);
      }
    } else if SingleRegistration(l, n, register) {
      PersistAgrees(t, l, n, register, config, now);
      forall k: RowKey, c: Column | Retained(k.day, config, now)
        ensures Cell(u, k, c) == Fold(m.order, m.latest, k, c)
      {
        CellIsFold(u, m, config, now, k, c);
      }
    } else if !Retained(RowOf(l.latest[n.key]).day, config, now) {
      forall k: RowKey, c: Column | Retained(k.day, config, now)
        ensures Cell(u, k, c) == Fold(m.order, m.latest, k, c)
      {
        LateRegistrationAgrees(t, l, n, config, now, k, c);
      }
    } else {
      RegisteredAgainCountsTwice(t, l, n, config, now);
    }
  }

  lemma NormaliseKeepsRow(n: Snapshot)
    ensures RowOf(Normalise(n)) == RowOf(n)
  {
  }

  lemma RowHasColumns(t: JobTables, l: Ledger, k: RowKey, c: Column)
    requires RowAgrees(t, l, k) && c in Columns()
    ensures c in t.rollups[k]
  {
  }

  /** Over any run, a job whose observed state is terminal never changes its outcome again. */
  lemma {:induction false} OutcomeSettled(l: Ledger, steps: seq<Step>, config: Config, clock: Instant, key: JobKey)
    requires LedgerSound(l, config, clock) && Orderly(l, steps, config, clock)
    requires key in l.latest && l.latest[key].observed.Terminal()
    ensures key in Books(l, steps, config).latest
    ensures OutcomeOf(Books(l, steps, config).latest[key]) == OutcomeOf(l.latest[key])
    ensures Books(l, steps, config).latest[key].observed == l.latest[key].observed
    decreases |steps|
  {
    hide LedgerSound, OutcomeOf, Retained, RowOf;
    if steps != [] {
      var step := steps[0];
      var m := Account(l, step, config);
      SoundLater(l, config, clock, step.now);
      AccountSettles(l, step, config, key);
      OutcomeSettled(m, steps[1..], config, step.now, key);
    }
  }

  lemma SoundLater(l: Ledger, config: Config, before: Instant, now: Instant)
    requires LedgerSound(l, config, before) && before <= now
    ensures LedgerSound(l, config, now)
  {
    hide Retained, Nonnegative;
    forall day | Retained(day, config, now)
      ensures Retained(day, config, before)
    {
      RetainedEarlier(day, config, before, now);
    }
  }

  lemma AccountSettles(l: Ledger, step: Step, config: Config, key: JobKey)
    requires LedgerSound(l, config, step.now)
    requires step.Observe? ==> SingleRegistration(l, step.snapshot, step.register)
    requires key in l.latest && l.latest[key].observed.Terminal()
    ensures LedgerSound(Account(l, step, config), config, step.now)
    ensures key in Account(l, step, config).latest
    ensures Account(l, step, config).latest[key].observed == l.latest[key].observed
    ensures OutcomeOf(Account(l, step, config).latest[key]) == OutcomeOf(l.latest[key])
  {
    hide LedgerSound, Retained, RowOf, Next, OutcomeOf, JobKey.Valid, Droppable;
    match step {
      case Observe(n, register, now) =>
        ObservedSound(l, n, register, config, now);
        if n.key == key && Live(l, key).Some? {
          TerminalOutcomeStays(l.latest[key], [n]);
          MergeOne(l.latest[key], n);
        }
      case Cleanup(now) =>
        ExpiredSound(l, config, now);
    }
  }

  lemma ExpiredSound(l: Ledger, config: Config, now: Instant)
    requires LedgerSound(l, config, now)
    ensures LedgerSound(Expired(l, config, now), config, now)
  {
    hide Retained, RowOf, Nonnegative, JobKey.Valid, Droppable;
  }

  lemma MergeOne(s: Snapshot, n: Snapshot)
    ensures MergeAll(s, [n]) == Next(Some(s), n)
  {
    assert [n][..0] == [];
    assert MergeAll(s, []) == s;
  }
}
