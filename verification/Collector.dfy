/**
 The collector's writer: the tables as fields, one batch as one transaction whose commit may be
 reported wrongly, retries, and the retention pass.
 */
module CollectorWriter {
  import opened Basics
  import opened JobSnapshots
  import opened JobRollups
  import opened JobReplay
  import opened CpuAccounting
  import opened StatsBatches
  import opened ActionRollups
  import JobHistories

  /** How a transaction ends.  A lost commit took effect, but the writer is told that it failed. */
  datatype Attempt = Committed | RolledBack | Lost

  /** The times of an attempt that took effect, if one did. */
  datatype Effect = NoEffect | WrittenAt(times: seq<Instant>)

  function CleanAll(t: Tables, config: Config, now: Instant): Tables {
    Tables(Clean(t.jobs, config, now), CleanActions(t.actions, config, now), CleanCpu(t.cpu, config, now))
  }

  /** u is t without the entries that p refuses. */
  ghost predicate Keeps<K(!new), V>(t: map<K, V>, u: map<K, V>, p: (K, V) -> bool) {
    forall k :: (k in u <==> k in t && p(k, t[k])) && (k in u ==> u[k] == t[k])
  }

  predicate Within(retention: nat, at: Instant, now: Instant) {
    retention == 0 || at >= now - retention
  }

  /** Some instant of the day is within the window. */
  predicate DayWithin(retention: nat, day: int, now: Instant) {
    retention == 0 || (day + 1) * 86_400_000_000_000 > now - retention
  }

  /** What the retention pass keeps of the job tables: settled checkpoints go by their last report, */
  lemma CheckpointRetention(t: JobTables, config: Config, now: Instant)
    ensures Keeps(t.checkpoints, Clean(t, config, now).checkpoints,
                  (key: JobKey, s: Snapshot) => !JobHistories.Settled(s) || Within(config.detailRetention, s.updatedAt, now))
  {
    hide Droppable, Clean, JobHistories.Settled;
    forall key: JobKey
      ensures key in Clean(t, config, now).checkpoints
         <==> key in t.checkpoints && (!JobHistories.Settled(t.checkpoints[key]) || Within(config.detailRetention, t.checkpoints[key].updatedAt, now))
      ensures key in Clean(t, config, now).checkpoints ==> Clean(t, config, now).checkpoints[key] == t.checkpoints[key]
    {
      CleanedCheckpoint(t, config, now, key);
      if key in t.checkpoints {
        JobHistories.ResolvedExactly(t.checkpoints[key], now - config.detailRetention);
      }
    }
  }

  /** details by submission, */
  lemma DetailRetention(t: JobTables, config: Config, now: Instant)
    ensures Keeps(t.jobs, Clean(t, config, now).jobs, (key: JobKey, s: Snapshot) => Within(config.detailRetention, s.createdAt, now))
  {
    hide Droppable;
  }

  /** and rows by day, and so do settings unless their count is zero. */
  lemma RowRetention(t: JobTables, config: Config, now: Instant)
    ensures var u, days := Clean(t, config, now), config.rollupRetention;
            && Keeps(t.rollups, u.rollups, (k: RowKey, row: Row) => DayWithin(days, k.day, now))
            && Keeps(t.settings, u.settings, (k: SettingKey, n: int) => n != 0 && DayWithin(days, k.row.day, now))
  {
    hide Clean, Retained;
    var u := Clean(t, config, now);
    forall k: RowKey
      ensures k in u.rollups <==> k in t.rollups && DayWithin(config.rollupRetention, k.day, now)
      ensures k in u.rollups ==> u.rollups[k] == t.rollups[k]
    {
      CleanedRow(t, config, now, k);
      RetainedExactly(k.day, config, now);
    }
    forall k: SettingKey
      ensures k in u.settings <==> k in t.settings && t.settings[k] != 0 && DayWithin(config.rollupRetention, k.row.day, now)
      ensures k in u.settings ==> u.settings[k] == t.settings[k]
    {
      SettingCleaned(t, config, now, k);
      RetainedExactly(k.row.day, config, now);
    }
  }

  lemma SettingCleaned(t: JobTables, config: Config, now: Instant, k: SettingKey)
    ensures var u := Clean(t, config, now);
            && (k in u.settings <==> k in t.settings && t.settings[k] != 0 && Retained(k.row.day, config, now))
            && (k in u.settings ==> u.settings[k] == t.settings[k])
  {
    hide Droppable;
  }

  /** The same of the other tables: actions go by their end, readings by their instant, rows by day; no cursor goes. */
  lemma OtherRetention(t: ActionTables, cpu: CpuTables, config: Config, now: Instant)
    ensures var u, days := CleanActions(t, config, now), config.rollupRetention;
            && Keeps(t.actions, u.actions, (id: string, a: Action) => Within(config.detailRetention, a.finishedAt, now))
            && Keeps(t.rollups, u.rollups, (k: ActionKey, row: ActionTotals) => DayWithin(days, k.day, now))
            && Keeps(t.buffers, u.buffers, (k: BufferKey, row: BufferTotals) => DayWithin(days, k.day, now))
    ensures var u := CleanCpu(cpu, config, now);
            && Keeps(cpu.samples, u.samples, (key: SampleKey, x: Times) => Within(config.cpuRetention, key.at, now))
            && Keeps(cpu.daily, u.daily, (day: int, x: CpuDay) => DayWithin(config.rollupRetention, day, now))
            && u.cursors == cpu.cursors
  {
  }

  /** Times at which the steps of a batch may be checked; their values do not matter there. */
  function Untimed(batch: seq<Event>): (times: seq<Instant>)
    ensures |times| == |batch|
  {
    seq(|batch|, _ => 0)
  }

  lemma {:induction false} RegisteredFirstAtAnyTime(cp: map<JobKey, Snapshot>, steps: seq<Step>, again: seq<Step>)
    requires SameEvents(steps, again) && RegisteredFirst(cp, steps)
    ensures RegisteredFirst(cp, again)
    decreases |steps|
  {
    hide Checkpoint;
    if steps != [] {
      if steps[0].snapshot.key.Valid() && steps[0].snapshot.key !in cp && !steps[0].register {
        forall i | 0 <= i < |again| - 1 && again[1..][i].snapshot.key == steps[0].snapshot.key
          ensures !again[1..][i].register
        {
          assert steps[1..][i].snapshot == again[1..][i].snapshot;
        }
      }
      RegisteredFirstAtAnyTime(Checkpoint(cp, steps[0].snapshot, steps[0].register), steps[1..], again[1..]);
    }
  }

  lemma AcceptableAtAnyTime(l: Ledger, cp: map<JobKey, Snapshot>, batch: seq<Event>, times: seq<Instant>)
    requires |times| == |batch|
    requires NoneRegisteredAgain(l, JobSteps(batch, Untimed(batch))) && RegisteredFirst(cp, JobSteps(batch, Untimed(batch)))
    ensures NoneRegisteredAgain(l, JobSteps(batch, times)) && RegisteredFirst(cp, JobSteps(batch, times))
  {
    hide JobSteps, RegisteredFirst;
    SameSteps(batch, Untimed(batch), times);
    RegisteredFirstAtAnyTime(cp, JobSteps(batch, Untimed(batch)), JobSteps(batch, times));
    forall i | 0 <= i < |JobSteps(batch, times)|
      ensures SingleRegistration(l, JobSteps(batch, times)[i].snapshot, JobSteps(batch, times)[i].register)
    {
      assert JobSteps(batch, Untimed(batch))[i].snapshot == JobSteps(batch, times)[i].snapshot;
    }
  }

  class Collector {
    const run: string
    const config: Config
    var checkpoints: map<JobKey, Snapshot>
    var jobs: map<JobKey, Snapshot>
    var jobRollups: map<RowKey, Row>
    var settingRollups: map<SettingKey, int>
    var actions: map<string, Action>
    var actionRollups: map<ActionKey, ActionTotals>
    var bufferRollups: map<BufferKey, BufferTotals>
    var samples: map<SampleKey, Times>
    var cursors: map<string, Cursor>
    var daily: map<int, CpuDay>
    var errors: nat
    var clock: Instant
    ghost var ledger: Ledger
    ghost var past: Past

    constructor (run: string, config: Config, start: Instant)
      ensures Valid() && Contents() == Tables(EMPTY_TABLES, ActionTables(map[], map[], map[]), CpuTables(map[], map[], map[]))
      ensures this.run == run && this.config == config && clock == start && ledger == EMPTY_LEDGER && past == Past([], [])
    {
      this.run, this.config, clock, errors := run, config, start, 0;
      checkpoints, jobs, jobRollups, settingRollups := map[], map[], map[], map[];
      actions, actionRollups, bufferRollups := map[], map[], map[];
      samples, cursors, daily := map[], map[], map[];
      ledger, past := EMPTY_LEDGER, Past([], []);
    }

    function JobContents(): JobTables
      reads this
    {
      JobTables(checkpoints, jobs, jobRollups, settingRollups)
    }

    function ActionContents(): ActionTables
      reads this
    {
      ActionTables(actions, actionRollups, bufferRollups)
    }

    function CpuContents(): CpuTables
      reads this
    {
      CpuTables(samples, cursors, daily)
    }

    function Contents(): Tables
      reads this
    {
      Tables(JobContents(), ActionContents(), CpuContents())
    }

    /** The tables agree with the ledger of everything that was ever registered, and with everything the other tables were given. */
    ghost predicate Valid()
      reads this
    {
      Reachable(JobContents(), ledger, config, clock) && PastAgrees(ActionContents(), CpuContents(), past, config, clock)
    }

    /** What the source relies on: no forgotten job is registered again, and registration comes first. */
    ghost predicate Acceptable(batch: seq<Event>)
      reads this
    {
      && NoneRegisteredAgain(ledger, JobSteps(batch, Untimed(batch)))
      && RegisteredFirst(checkpoints, JobSteps(batch, Untimed(batch)))
    }

    /** The wall clock, which does not go back. */
    method Now() returns (now: Instant)
      modifies `clock
      ensures clock == now >= old(clock)
    {
      now := *;
      if now < clock {
        now := clock;
      }
      clock := now;
    }

    method AddToSettings(s: Snapshot, n: int)
      modifies `settingRollups
      ensures settingRollups == AddSetting(old(settingRollups), s, n)
    {
      var key := SettingKey(RowOf(s), s.settings);
      settingRollups := settingRollups[key := SettingCount(settingRollups, key) + n];
    }

    method PersistJob(next: Snapshot, register: bool, now: Instant)
      modifies `checkpoints, `jobs, `jobRollups, `settingRollups
      ensures JobContents() == Persist(old(JobContents()), next, register, config, now)
    {
      hide Next, Bump, RowOf, Contribution, Columns;
      if !next.key.Valid() {
        return;
      }
      var prior := Prior(checkpoints, next.key);
      if prior.None? && !register {
        return;
      }
      var stored := Next(prior, next);
      if Retained(RowOf(stored).day, config, now) {
        jobRollups := jobRollups[RowOf(stored) := Bump(jobRollups, RowOf(stored), prior, stored)];
        if prior.Some? {
          AddToSettings(prior.value, -1);
        }
        AddToSettings(stored, 1);
      }
      checkpoints := checkpoints[next.key := stored];
      jobs := jobs[next.key := stored];
    }

    method AddToBuffers(a: Action)
      modifies `bufferRollups
      ensures bufferRollups == AddBuffers(old(bufferRollups), a, a.components.Keys)
    {
      ghost var before := bufferRollups;
      var left := a.components.Keys;
      AddNoBuffers(before, a);
      while left != {}
        invariant left <= a.components.Keys
        invariant bufferRollups == AddBuffers(before, a, a.components.Keys - left)
        decreases |left|
      {
        var component :| component in left;
        AddOneBuffer(before, a, a.components.Keys - left, component);
        assert a.components.Keys - left + {component} == a.components.Keys - (left - {component});
        var key := BufferKeyOf(a, component);
        bufferRollups := bufferRollups[key := BumpBuffer(bufferRollups, key, a.components[component])];
        left := left - {component};
      }
      assert a.components.Keys - {} == a.components.Keys;
    }

    method PersistAction(a: Action)
      modifies `actions, `actionRollups, `bufferRollups
      ensures ActionContents() == StatsBatches.PersistAction(old(ActionContents()), a)
    {
      hide AddBuffers, AddAction;
      if a.id in actions {
        return;
      }
      actions := actions[a.id := a];
      AddToBuffers(a);
      actionRollups := AddAction(actionRollups, a);
    }

    method PersistCpu(r: Reading)
      modifies `samples, `cursors, `daily
      ensures CpuContents() == CpuAccounting.PersistCpu(old(CpuContents()), run, r)
    {
      if !r.available {
        return;
      }
      var key := SampleKey(run, r.at);
      if key !in samples {
        samples := samples[key := r.times];
      }
      if run !in cursors {
        cursors := cursors[run := Cursor(r.at, r.times)];
        return;
      }
      var last := cursors[run];
      if r.at <= last.at {
        return;
      }
      var growth := r.times.Minus(last.times);
      if growth.user < 0.0 || growth.system < 0.0 {
        return;
      }
      daily := AddDay(daily, Day(r.at), growth);
      cursors := cursors[run := Cursor(r.at, r.times)];
    }

    method PersistEvent(e: Event, now: Instant)
      modifies `checkpoints, `jobs, `jobRollups, `settingRollups, `actions, `actionRollups, `bufferRollups, `samples, `cursors, `daily
      ensures Contents() == ApplyEvent(old(Contents()), run, e, config, now)
    {
      hide Persist, StatsBatches.PersistAction, CpuAccounting.PersistCpu;
      match e {
        case ActionEvent(a, cpu) =>
          PersistAction(a);
          if cpu.Some? {
            PersistCpu(cpu.value);
          }
        case JobEvent(n, register) =>
          PersistJob(n, register, now);
      }
    }

    method Rollback(t: Tables)
      modifies `checkpoints, `jobs, `jobRollups, `settingRollups, `actions, `actionRollups, `bufferRollups, `samples, `cursors, `daily
      ensures Contents() == t
    {
      checkpoints, jobs, jobRollups, settingRollups := t.jobs.checkpoints, t.jobs.jobs, t.jobs.rollups, t.jobs.settings;
      actions, actionRollups, bufferRollups := t.actions.actions, t.actions.rollups, t.actions.buffers;
      samples, cursors, daily := t.cpu.samples, t.cpu.cursors, t.cpu.daily;
    }

    /** One transaction: every event applied at the time it is written, or nothing. */
    method WriteBatch(batch: seq<Event>) returns (attempt: Attempt, ghost times: seq<Instant>)
      modifies this
      ensures errors == old(errors) && ledger == old(ledger) && past == old(past)
      ensures |times| == |batch| && Rising(times, old(clock)) && clock == LastOf(times, old(clock))
      ensures Contents() == if attempt.RolledBack? then old(Contents()) else ApplyBatch(old(Contents()), run, batch, config, times)
    {
      hide ApplyEvent;
      var saved := Contents();
      times := [];
      for i := 0 to |batch|
        invariant errors == old(errors) && ledger == old(ledger) && past == old(past)
        invariant |times| == i && Rising(times, old(clock)) && clock == LastOf(times, old(clock))
        invariant Contents() == ApplyBatch(old(Contents()), run, batch[..i], config, times)
      {
        var now := Now();
        PersistEvent(batch[i], now);
        assert batch[..i + 1][..i] == batch[..i] && (times + [now])[..i] == times;
        times := times + [now];
      }
      assert batch[..|batch|] == batch;
      attempt := *;
      if attempt.RolledBack? {
        Rollback(saved);
      }
    }

    /**
     Up to three attempts.  If the writer reports success, everything is as one application of the batch
     left it, however many attempts took effect, except for days that fell out of the window since; if
     it reports failure, the tables are as before or as after one application, in the same sense.
     */
    method WriteBatchWithRetry(batch: seq<Event>) returns (ok: bool, ghost effect: Effect)
      requires Valid() && Acceptable(batch)
      modifies this
      ensures Valid()
      ensures ok ==> effect.WrittenAt?
      ensures effect.NoEffect? ==> Contents() == old(Contents()) && ledger == old(ledger)
      ensures effect.NoEffect? ==> past == old(past)
      ensures effect.WrittenAt? ==>
                && |effect.times| == |batch| && past == Lived(old(past), run, batch, effect.times)
                && SameKept(ApplyBatch(old(Contents()), run, batch, config, effect.times), Contents(), config, LastOf(effect.times, old(clock)), clock)
      ensures old(clock) <= clock && errors <= old(errors) + 3
    {
      hide Reachable, PastAgrees, RegisteredFirst, NoneRegisteredAgain, JobSteps, Lived, ApplyBatch, SameKept, StatsBatches.Written, Books;
      ok, effect := false, NoEffect;
      for attempts := 0 to 3
        invariant Valid() && old(clock) <= clock && errors <= old(errors) + attempts && !ok
        invariant effect.NoEffect? ==> Contents() == old(Contents()) && ledger == old(ledger)
        invariant effect.NoEffect? ==> past == old(past)
        invariant effect.WrittenAt? ==>
                    && |effect.times| == |batch| && past == Lived(old(past), run, batch, effect.times)
                    && LastOf(effect.times, old(clock)) <= clock
                    && SameKept(ApplyBatch(old(Contents()), run, batch, config, effect.times), Contents(), config, LastOf(effect.times, old(clock)), clock)
                    && StatsBatches.Written(Contents(), run, batch, effect.times)
      {
        ghost var was, before := Contents(), clock;
        ghost var times;
        var attempt;
        attempt, times := WriteBatch(batch);
        PastAgreesLater(was.actions, was.cpu, past, config, before, clock);
        if attempt.RolledBack? {
          LaterStillReachable(JobContents(), ledger, config, before, clock);
          if effect.WrittenAt? {
            SameKeptSelf(was, config, before, clock);
            SameKeptChains(ApplyBatch(old(Contents()), run, batch, config, effect.times), was, Contents(), config,
                           LastOf(effect.times, old(clock)), before, clock);
          }
        } else {
          if effect.NoEffect? {
            AcceptableAtAnyTime(ledger, was.jobs.checkpoints, batch, times);
            FirstAttempt(was, ledger, run, batch, config, before, times);
            effect := WrittenAt(times);
            BatchLived(was, past, run, batch, config, times, clock);
            past := Lived(past, run, batch, times);
            SameKeptSelf(Contents(), config, LastOf(times, old(clock)), clock);
          } else {
            WrittenAtAnyTime(was, run, batch, effect.times, times);
            LaterAttempt(was, ledger, run, batch, config, before, times);
            SameKeptPast(was, Contents(), config, before, clock);
            SameKeptChains(ApplyBatch(old(Contents()), run, batch, config, effect.times), was, Contents(), config,
                           LastOf(effect.times, old(clock)), before, clock);
            WrittenAtAnyTime(Contents(), run, batch, times, effect.times);
          }
          ledger := Books(ledger, JobSteps(batch, times), config);
        }
        if attempt.Committed? {
          ok := true;
          return;
        }
        errors := errors + 1;
      }
    }

    /** The retention pass: one transaction, skipped when a writer is busy. */
    method Cleanup(now: Instant) returns (done: bool)
      requires Valid() && now >= clock
      modifies this
      ensures Valid() && clock == now
      ensures Contents() == if done then CleanAll(old(Contents()), config, now) else old(Contents())
      ensures ledger == if done then Expired(old(ledger), config, now) else old(ledger)
      ensures past == if done then PastCleaned(old(past), now) else old(past)
    {
      hide Reachable, PastAgrees, PastCleaned, Expired, Clean, CleanActions, CleanCpu;
      ghost var before := clock;
      clock := now;
      LaterStillReachable(JobContents(), ledger, config, before, now);
      PastAgreesLater(ActionContents(), CpuContents(), past, config, before, now);
      done := *;
      if done {
        var jobTables := Clean(JobContents(), config, now);
        var actionTables := CleanActions(ActionContents(), config, now);
        var cpuTables := CleanCpu(CpuContents(), config, now);
        CleanAgrees(JobContents(), ledger, config, now);
        PastCleanedAgrees(ActionContents(), CpuContents(), past, config, now);
        ledger, past := Expired(ledger, config, now), PastCleaned(past, now);
        Rollback(Tables(jobTables, actionTables, cpuTables));
      }
    }
  }

  lemma AddNoBuffers(buffers: map<BufferKey, BufferTotals>, a: Action)
    ensures AddBuffers(buffers, a, a.components.Keys - a.components.Keys) == buffers
  {
  }

  predicate Feeds(a: Action, parts: set<string>, key: BufferKey) {
    key == BufferKeyOf(a, key.component) && key.component in parts && key.component in a.components
  }

  lemma AddBuffersAt(buffers: map<BufferKey, BufferTotals>, a: Action, parts: set<string>, key: BufferKey)
    ensures key in AddBuffers(buffers, a, parts) <==> key in buffers || Feeds(a, parts, key)
    ensures Feeds(a, parts, key) ==> AddBuffers(buffers, a, parts)[key] == BumpBuffer(buffers, key, a.components[key.component])
    ensures key in buffers && !Feeds(a, parts, key) ==> AddBuffers(buffers, a, parts)[key] == buffers[key]
  {
    hide BumpBuffer;
  }

  lemma AddOneBuffer(buffers: map<BufferKey, BufferTotals>, a: Action, done: set<string>, component: string)
    requires component in a.components && component !in done
    ensures AddBuffers(buffers, a, done + {component})
         == var b := AddBuffers(buffers, a, done);
            b[BufferKeyOf(a, component) := BumpBuffer(b, BufferKeyOf(a, component), a.components[component])]
  {
    hide AddBuffers;
    var b, key, peak := AddBuffers(buffers, a, done), BufferKeyOf(a, component), a.components[component];
    var all, one := AddBuffers(buffers, a, done + {component}), b[key := BumpBuffer(b, key, peak)];
    AddBuffersAt(buffers, a, done, key);
    forall k
      ensures k in all <==> k in one
      ensures k in all ==> all[k] == one[k]
    {
      AddBuffersAt(buffers, a, done, k);
      AddBuffersAt(buffers, a, done + {component}, k);
    }
    assert all == one;
  }

  lemma SameKeptPast(t: Tables, u: Tables, config: Config, first: Instant, last: Instant)
    requires SameKept(t, u, config, first, last)
    ensures t.actions == u.actions && t.cpu == u.cpu
  {
  }

  lemma SameKeptSelf(t: Tables, config: Config, first: Instant, last: Instant)
    ensures SameKept(t, t, config, first, last)
  {
  }
}
