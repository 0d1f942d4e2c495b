/**
 Process CPU accounting: a cursor for every run of the program and the daily growth of the two
 counters.  Readings may arrive late, twice, or with counters that went back.
 */
module CpuAccounting {
  import opened Basics
  import opened JobSnapshots
  import opened JobRollups

  /** User and system seconds, as exact reals. */
  datatype Times = Times(user: real, system: real) {
    function Plus(t: Times): Times {
      Times(user + t.user, system + t.system)
    }

    function Minus(t: Times): Times {
      Times(user - t.user, system - t.system)
    }

    predicate AtMost(t: Times) {
      user <= t.user && system <= t.system
    }
  }

  const NO_TIME := Times(0.0, 0.0)

  datatype Reading = Reading(available: bool, times: Times, at: Instant)

  datatype Cursor = Cursor(at: Instant, times: Times)

  datatype CpuDay = CpuDay(times: Times, samples: nat)

  datatype SampleKey = SampleKey(run: string, at: Instant)

  datatype CpuTables = CpuTables(
    samples: map<SampleKey, Times>,
    cursors: map<string, Cursor>,
    daily: map<int, CpuDay>)

  function AddDay(daily: map<int, CpuDay>, day: int, growth: Times): map<int, CpuDay> {
    daily[day := if day in daily then CpuDay(daily[day].times.Plus(growth), daily[day].samples + 1) else CpuDay(growth, 1)]
  }

  /** A reading moves a cursor forward in time and in both counters, or not at all. */
  predicate Advances(c: Cursor, r: Reading) {
    r.at > c.at && c.times.AtMost(r.times)
  }

  function PersistCpu(t: CpuTables, run: string, r: Reading): CpuTables {
    if !r.available then t
    else
      var key := SampleKey(run, r.at);
      var u := t.(samples := if key in t.samples then t.samples else t.samples[key := r.times]);
      var moved := Cursor(r.at, r.times);
      if run !in t.cursors then u.(cursors := t.cursors[run := moved])
      else if !Advances(t.cursors[run], r) then u
      else u.(cursors := t.cursors[run := moved],
              daily := AddDay(t.daily, Day(r.at), r.times.Minus(t.cursors[run].times)))
  }

  function CleanDays(t: CpuTables, config: Config, now: Instant): CpuTables {
    t.(daily := map day | day in t.daily && Retained(day, config, now) :: t.daily[day])
  }

  function CleanSamples(t: CpuTables, config: Config, now: Instant): CpuTables {
    t.(samples := map key | key in t.samples && (config.cpuRetention == 0 || key.at >= now - config.cpuRetention) :: t.samples[key])
  }

  function CleanCpu(t: CpuTables, config: Config, now: Instant): CpuTables {
    CleanDays(CleanSamples(t, config, now), config, now)
  }

  /** What was ever added: the first cursor of every run, and the days as if nothing were dropped. */
  datatype History = History(runs: seq<string>, first: map<string, Cursor>, days: seq<int>, added: map<int, CpuDay>)

  function Recorded(h: History, t: CpuTables, run: string, r: Reading): History {
    if !r.available then h
    else if run !in t.cursors then h.(runs := h.runs + [run], first := h.first[run := Cursor(r.at, r.times)])
    else if !Advances(t.cursors[run], r) then h
    else
      var day := Day(r.at);
      h.(days := if day in h.added then h.days else h.days + [day],
         added := AddDay(h.added, day, r.times.Minus(t.cursors[run].times)))
  }

  function AddedOn(added: map<int, CpuDay>, day: int): Times {
    if day in added then added[day].times else NO_TIME
  }

  function GrowthOf(cursors: map<string, Cursor>, first: map<string, Cursor>, run: string): Times {
    if run in cursors && run in first then cursors[run].times.Minus(first[run].times) else NO_TIME
  }

  function TotalAdded(days: seq<int>, added: map<int, CpuDay>): Times {
    if days == [] then NO_TIME
    else TotalAdded(days[..|days| - 1], added).Plus(AddedOn(added, days[|days| - 1]))
  }

  function TotalGrowth(runs: seq<string>, cursors: map<string, Cursor>, first: map<string, Cursor>): Times {
    if runs == [] then NO_TIME
    else TotalGrowth(runs[..|runs| - 1], cursors, first).Plus(GrowthOf(cursors, first, runs[|runs| - 1]))
  }

  lemma PlusSwaps(a: Times, b: Times, c: Times)
    ensures a.Plus(b).Plus(c) == a.Plus(c).Plus(b) == a.Plus(b.Plus(c))
  {
  }

  lemma PlusNothing(a: Times)
    ensures a.Plus(NO_TIME) == a == NO_TIME.Plus(a) && a.Minus(a) == NO_TIME
  {
  }

  lemma AddedOnAfter(added: map<int, CpuDay>, day: int, growth: Times, other: int)
    ensures AddedOn(AddDay(added, day, growth), other)
         == if other == day then AddedOn(added, day).Plus(growth) else AddedOn(added, other)
  {
  }

  lemma GrowthOfAfter(cursors: map<string, Cursor>, first: map<string, Cursor>, run: string, c: Cursor, other: string)
    requires run in cursors && run in first
    ensures GrowthOf(cursors[run := c], first, other)
         == if other == run then GrowthOf(cursors, first, run).Plus(c.times.Minus(cursors[run].times)) else GrowthOf(cursors, first, other)
  {
  }

  lemma {:induction false} AddedMore(days: seq<int>, added: map<int, CpuDay>, day: int, growth: Times)
    requires Distinct(days)
    ensures TotalAdded(days, AddDay(added, day, growth))
         == if day in days then TotalAdded(days, added).Plus(growth) else TotalAdded(days, added)
    decreases |days|
  {
    hide Times.Plus, AddDay, AddedOn;
    if days != [] {
      var n := |days| - 1;
      AddedMore(days[..n], added, day, growth);
      AddedOnAfter(added, day, growth, days[n]);
      PlusSwaps(TotalAdded(days[..n], added), growth, AddedOn(added, days[n]));
      PlusSwaps(TotalAdded(days[..n], added), AddedOn(added, days[n]), growth);
      assert days == days[..n] + [days[n]];
    }
  }

  lemma {:induction false} GrowthMoves(runs: seq<string>, cursors: map<string, Cursor>, first: map<string, Cursor>, run: string, c: Cursor)
    requires Distinct(runs) && run in cursors && run in first
    ensures TotalGrowth(runs, cursors[run := c], first)
         == if run in runs then TotalGrowth(runs, cursors, first).Plus(c.times.Minus(cursors[run].times))
            else TotalGrowth(runs, cursors, first)
    decreases |runs|
  {
    hide Times.Plus, Times.Minus, GrowthOf;
    if runs != [] {
      var n := |runs| - 1;
      var moved := c.times.Minus(cursors[run].times);
      GrowthMoves(runs[..n], cursors, first, run, c);
      GrowthOfAfter(cursors, first, run, c, runs[n]);
      PlusSwaps(TotalGrowth(runs[..n], cursors, first), moved, GrowthOf(cursors, first, runs[n]));
      PlusSwaps(TotalGrowth(runs[..n], cursors, first), GrowthOf(cursors, first, runs[n]), moved);
      assert runs == runs[..n] + [runs[n]];
    }
  }

  lemma {:induction false} GrowthAlike(runs: seq<string>, cursors: map<string, Cursor>, first: map<string, Cursor>, run: string, c: Cursor)
    requires run !in runs
    ensures TotalGrowth(runs, cursors[run := c], first[run := c]) == TotalGrowth(runs, cursors, first)
    decreases |runs|
  {
    if runs != [] {
      var n := |runs| - 1;
      GrowthAlike(runs[..n], cursors, first, run, c);
      assert runs == runs[..n] + [runs[n]];
    }
  }

  ghost predicate Accounted(t: CpuTables, h: History, config: Config, now: Instant) {
    && Distinct(h.runs) && (forall run :: run in h.runs <==> run in t.cursors) && h.first.Keys == t.cursors.Keys
    && Distinct(h.days) && (forall day :: day in h.days <==> day in h.added)
    && TotalAdded(h.days, h.added) == TotalGrowth(h.runs, t.cursors, h.first)
    && (forall day :: Retained(day, config, now) ==>
          (day in t.daily <==> day in h.added) && (day in t.daily ==> t.daily[day] == h.added[day]))
  }

  datatype CpuStep = Sample(run: string, reading: Reading, now: Instant) | Drop(now: Instant)

  function ApplyCpu(t: CpuTables, step: CpuStep, config: Config): CpuTables {
    if step.Sample? then PersistCpu(t, step.run, step.reading) else CleanCpu(t, config, step.now)
  }

  function Record(h: History, t: CpuTables, step: CpuStep): History {
    if step.Sample? then Recorded(h, t, step.run, step.reading) else h
  }

  function RunCpu(t: CpuTables, steps: seq<CpuStep>, config: Config): CpuTables
    decreases |steps|
  {
    if steps == [] then t else RunCpu(ApplyCpu(t, steps[0], config), steps[1..], config)
  }

  function RecordAll(h: History, t: CpuTables, steps: seq<CpuStep>, config: Config): History
    decreases |steps|
  {
    if steps == [] then h else RecordAll(Record(h, t, steps[0]), ApplyCpu(t, steps[0], config), steps[1..], config)
  }

  ghost predicate Monotone(steps: seq<CpuStep>, clock: Instant)
    decreases |steps|
  {
    steps != [] ==> clock <= steps[0].now && Monotone(steps[1..], steps[0].now)
  }

  function LastTime(steps: seq<CpuStep>, clock: Instant): Instant {
    if steps == [] then clock else steps[|steps| - 1].now
  }

  lemma AccountedLater(t: CpuTables, h: History, config: Config, before: Instant, now: Instant)
    requires Accounted(t, h, config, before) && before <= now
    ensures Accounted(t, h, config, now)
  {
    hide Retained, TotalAdded, TotalGrowth;
    forall day | Retained(day, config, now)
      ensures Retained(day, config, before)
    {
      RetainedEarlier(day, config, before, now);
    }
  }

  lemma SampleAccounted(t: CpuTables, h: History, run: string, r: Reading, config: Config, now: Instant)
    requires Accounted(t, h, config, now)
    ensures Accounted(PersistCpu(t, run, r), Recorded(h, t, run, r), config, now)
  {
    hide Retained, TotalAdded, TotalGrowth, Day, Times.Plus, Advances;
    if r.available {
      var moved := Cursor(r.at, r.times);
      if run !in t.cursors {
        GrowthAlike(h.runs, t.cursors, h.first, run, moved);
        RunAppended(h.runs, t.cursors[run := moved], h.first[run := moved], run);
        PlusNothing(TotalAdded(h.days, h.added));
        PlusNothing(r.times);
      } else if Advances(t.cursors[run], r) {
        var day, growth := Day(r.at), r.times.Minus(t.cursors[run].times);
        GrowthMoves(h.runs, t.cursors, h.first, run, moved);
        AddedMore(h.days, h.added, day, growth);
        if day !in h.added {
          DayAppended(h.days, AddDay(h.added, day, growth), day);
          AddedOnAfter(h.added, day, growth, day);
          PlusNothing(growth);
        }
      }
    }
  }

  lemma RunAppended(runs: seq<string>, cursors: map<string, Cursor>, first: map<string, Cursor>, run: string)
    ensures TotalGrowth(runs + [run], cursors, first) == TotalGrowth(runs, cursors, first).Plus(GrowthOf(cursors, first, run))
  {
    assert (runs + [run])[..|runs|] == runs;
  }

  lemma DayAppended(days: seq<int>, added: map<int, CpuDay>, day: int)
    ensures TotalAdded(days + [day], added) == TotalAdded(days, added).Plus(AddedOn(added, day))
  {
    assert (days + [day])[..|days|] == days;
  }

  lemma {:induction false} CpuRunAccounted(t: CpuTables, h: History, steps: seq<CpuStep>, config: Config, clock: Instant)
    requires Accounted(t, h, config, clock) && Monotone(steps, clock)
    ensures Accounted(RunCpu(t, steps, config), RecordAll(h, t, steps, config), config, LastTime(steps, clock))
    decreases |steps|
  {
    hide Accounted, PersistCpu, Recorded;
    if steps != [] {
      var step := steps[0];
      AccountedLater(t, h, config, clock, step.now);
      if step.Sample? {
        SampleAccounted(t, h, step.run, step.reading, config, step.now);
      } else {
        DropAccounted(t, h, config, step.now);
      }
      CpuRunAccounted(ApplyCpu(t, step, config), Record(h, t, step), steps[1..], config, step.now);
    }
  }

  lemma DropAccounted(t: CpuTables, h: History, config: Config, now: Instant)
    requires Accounted(t, h, config, now)
    ensures Accounted(CleanCpu(t, config, now), h, config, now)
  {
    hide Retained, TotalAdded, TotalGrowth;
  }

  /**
   For all interleavings of late, repeated and decreasing readings from any number of runs: all
   time ever added to days equals the growth of every run from its first cursor to its current
   one, and every retained day holds exactly what was added to it, if anything was.
   */
  lemma CpuConserved(steps: seq<CpuStep>, config: Config, clock: Instant, day: int)
    requires Monotone(steps, clock)
    ensures var t := RunCpu(CpuTables(map[], map[], map[]), steps, config);
            var h := RecordAll(History([], map[], [], map[]), CpuTables(map[], map[], map[]), steps, config);
            && Distinct(h.runs) && (forall run :: run in h.runs <==> run in t.cursors)
            && TotalAdded(h.days, h.added) == TotalGrowth(h.runs, t.cursors, h.first)
            && (Retained(day, config, LastTime(steps, clock)) ==>
                  (day in t.daily <==> day in h.added) && (day in h.added ==> t.daily[day] == h.added[day]))
  {
    hide RunCpu, RecordAll, Monotone, Retained, TotalAdded, TotalGrowth;
    NothingAdded();
    CpuRunAccounted(CpuTables(map[], map[], map[]), History([], map[], [], map[]), steps, config, clock);
  }

  lemma NothingAdded()
    ensures TotalAdded([], map[]) == TotalGrowth([], map[], map[])
  {
  }

  /** Cursors never go back: not in time, and in neither counter. */
  lemma {:induction false} CursorsMonotone(t: CpuTables, steps: seq<CpuStep>, config: Config, run: string)
    requires run in t.cursors
    ensures run in RunCpu(t, steps, config).cursors
    ensures t.cursors[run].at <= RunCpu(t, steps, config).cursors[run].at
    ensures t.cursors[run].times.AtMost(RunCpu(t, steps, config).cursors[run].times)
    decreases |steps|
  {
    if steps != [] {
      CursorsMonotone(ApplyCpu(t, steps[0], config), steps[1..], config, run);
    }
  }

  // The tables from the readings alone.

  /** The first available reading of a run, or one later in time with neither counter lower. */
  predicate GoesForward(last: Option<Cursor>, r: Reading) {
    && r.available
    && (last.Some? ==> r.at > last.value.at && r.times.user >= last.value.times.user && r.times.system >= last.value.times.system)
  }

  /** The newest reading of a run that went forward. */
  function Lead(steps: seq<CpuStep>, run: string): Option<Cursor> {
    if steps == [] then None
    else
      var last, step := Lead(steps[..|steps| - 1], run), steps[|steps| - 1];
      if step.Sample? && step.run == run && GoesForward(last, step.reading) then Some(Cursor(step.reading.at, step.reading.times)) else last
  }

  /** What the last step adds to a day: the growth since the run's leading reading before it. */
  function DayShare(steps: seq<CpuStep>, day: int): Option<Times>
    requires steps != []
  {
    var init, step := steps[..|steps| - 1], steps[|steps| - 1];
    if step.Drop? || step.reading.at / 86_400_000_000_000 != day then None
    else
      var r, last := step.reading, Lead(init, step.run);
      if last.None? || !GoesForward(last, r) then None
      else Some(Times(r.times.user - last.value.times.user, r.times.system - last.value.times.system))
  }

  function DayShares(steps: seq<CpuStep>, day: int): seq<Times> {
    if steps == [] then []
    else
      var share := DayShare(steps, day);
      DayShares(steps[..|steps| - 1], day) + if share.Some? then [share.value] else []
  }

  function SumUser(shares: seq<Times>): real {
    if shares == [] then 0.0 else SumUser(shares[..|shares| - 1]) + shares[|shares| - 1].user
  }

  function SumSystem(shares: seq<Times>): real {
    if shares == [] then 0.0 else SumSystem(shares[..|shares| - 1]) + shares[|shares| - 1].system
  }

  /** The sample on record for a run and instant: the first available since retention dropped the one before. */
  function SampleOn(steps: seq<CpuStep>, key: SampleKey, config: Config): Option<Times> {
    if steps == [] then None
    else
      var kept, step := SampleOn(steps[..|steps| - 1], key, config), steps[|steps| - 1];
      match step
      case Sample(run, r, _) =>
        if kept.None? && r.available && run == key.run && r.at == key.at then Some(r.times) else kept
      case Drop(now) => if config.cpuRetention > 0 && key.at < now - config.cpuRetention then None else kept
  }

  ghost predicate DayHolds(t: CpuTables, steps: seq<CpuStep>, day: int) {
    var shares := DayShares(steps, day);
    && (day in t.daily <==> shares != [])
    && (day in t.daily ==> t.daily[day].samples == |shares| && t.daily[day].times.user == SumUser(shares) && t.daily[day].times.system == SumSystem(shares))
  }

  predicate CursorHolds(t: CpuTables, steps: seq<CpuStep>, run: string) {
    Lead(steps, run) == if run in t.cursors then Some(t.cursors[run]) else None
  }

  predicate SampleHolds(t: CpuTables, steps: seq<CpuStep>, key: SampleKey, config: Config) {
    SampleOn(steps, key, config) == if key in t.samples then Some(t.samples[key]) else None
  }

  /** Cursors, samples and retained days are those of the readings. */
  ghost predicate ReadingsAgree(t: CpuTables, steps: seq<CpuStep>, config: Config, clock: Instant) {
    && (forall run :: CursorHolds(t, steps, run))
    && (forall key :: SampleHolds(t, steps, key, config))
    && (forall day :: Retained(day, config, clock) ==> DayHolds(t, steps, day))
  }

  lemma ReadingCursor(t: CpuTables, steps: seq<CpuStep>, step: CpuStep, run: string)
    requires step.Sample? && CursorHolds(t, steps, run)
    ensures CursorHolds(PersistCpu(t, step.run, step.reading), steps + [step], run)
  {
    hide AddDay, Times.Minus;
    assert (steps + [step])[..|steps|] == steps;
  }

  lemma ReadingSample(t: CpuTables, steps: seq<CpuStep>, step: CpuStep, key: SampleKey, config: Config)
    requires step.Sample? && SampleHolds(t, steps, key, config)
    ensures SampleHolds(PersistCpu(t, step.run, step.reading), steps + [step], key, config)
  {
    hide AddDay, Times.Minus, Advances;
    assert (steps + [step])[..|steps|] == steps;
  }

  lemma SharesSum(shares: seq<Times>, share: Times)
    ensures SumUser(shares + [share]) == SumUser(shares) + share.user
    ensures SumSystem(shares + [share]) == SumSystem(shares) + share.system
  {
    assert (shares + [share])[..|shares|] == shares;
  }

  lemma ReadingDay(t: CpuTables, steps: seq<CpuStep>, step: CpuStep, day: int)
    requires step.Sample? && CursorHolds(t, steps, step.run) && DayHolds(t, steps, day)
    ensures DayHolds(PersistCpu(t, step.run, step.reading), steps + [step], day)
  {
    hide SumUser, SumSystem, Lead;
    var more, shares := steps + [step], DayShares(steps, day);
    assert more[..|steps|] == steps;
    var share := DayShare(more, day);
    if share.Some? {
      SharesSum(shares, share.value);
      if shares == [] {
        NoShares();
      }
    } else {
      assert shares + [] == shares;
    }
  }

  lemma NoShares()
    ensures SumUser([]) == 0.0 && SumSystem([]) == 0.0
  {
  }

  lemma ReadingAgrees(t: CpuTables, steps: seq<CpuStep>, step: CpuStep, config: Config, clock: Instant)
    requires step.Sample? && ReadingsAgree(t, steps, config, clock)
    ensures ReadingsAgree(PersistCpu(t, step.run, step.reading), steps + [step], config, clock)
  {
    hide PersistCpu, CursorHolds, SampleHolds, DayHolds, Retained;
    var u, more := PersistCpu(t, step.run, step.reading), steps + [step];
    forall run: string
      ensures CursorHolds(u, more, run)
    {
      ReadingCursor(t, steps, step, run);
    }
    forall key: SampleKey
      ensures SampleHolds(u, more, key, config)
    {
      ReadingSample(t, steps, step, key, config);
    }
    forall day: int | Retained(day, config, clock)
      ensures DayHolds(u, more, day)
    {
      assert CursorHolds(t, steps, step.run);
      ReadingDay(t, steps, step, day);
    }
  }

  lemma DropAgrees(t: CpuTables, steps: seq<CpuStep>, config: Config, before: Instant, now: Instant)
    requires ReadingsAgree(t, steps, config, before) && before <= now
    ensures ReadingsAgree(CleanCpu(t, config, now), steps + [Drop(now)], config, now)
  {
    hide Lead, SumUser, SumSystem, Retained, DayShares, SampleOn;
    var u, more := CleanCpu(t, config, now), steps + [Drop(now)];
    forall run: string
      ensures CursorHolds(u, more, run)
    {
      assert CursorHolds(t, steps, run);
      DroppedLead(steps, now, run);
    }
    forall key: SampleKey
      ensures SampleHolds(u, more, key, config)
    {
      assert SampleHolds(t, steps, key, config);
      DroppedSample(steps, now, key, config);
    }
    forall day: int | Retained(day, config, now)
      ensures DayHolds(u, more, day)
    {
      RetainedEarlier(day, config, before, now);
      assert DayHolds(t, steps, day);
      DroppedShares(steps, now, day);
    }
  }

  lemma DroppedLead(steps: seq<CpuStep>, now: Instant, run: string)
    ensures Lead(steps + [Drop(now)], run) == Lead(steps, run)
  {
    assert (steps + [Drop(now)])[..|steps|] == steps;
  }

  lemma DroppedSample(steps: seq<CpuStep>, now: Instant, key: SampleKey, config: Config)
    ensures SampleOn(steps + [Drop(now)], key, config)
         == if config.cpuRetention > 0 && key.at < now - config.cpuRetention then None else SampleOn(steps, key, config)
  {
    assert (steps + [Drop(now)])[..|steps|] == steps;
  }

  lemma DroppedShares(steps: seq<CpuStep>, now: Instant, day: int)
    ensures DayShares(steps + [Drop(now)], day) == DayShares(steps, day)
  {
    assert (steps + [Drop(now)])[..|steps|] == steps;
    assert DayShares(steps, day) + [] == DayShares(steps, day);
  }

  lemma ReadingsAgreeLater(t: CpuTables, steps: seq<CpuStep>, config: Config, before: Instant, now: Instant)
    requires ReadingsAgree(t, steps, config, before) && before <= now
    ensures ReadingsAgree(t, steps, config, now)
  {
    hide Retained, CursorHolds, SampleHolds, DayHolds;
    forall day | Retained(day, config, now)
      ensures Retained(day, config, before)
    {
      RetainedEarlier(day, config, before, now);
    }
  }

  lemma {:induction false} ReadingsRun(t: CpuTables, done: seq<CpuStep>, steps: seq<CpuStep>, config: Config, clock: Instant)
    requires ReadingsAgree(t, done, config, clock) && Monotone(steps, clock)
    ensures ReadingsAgree(RunCpu(t, steps, config), done + steps, config, LastTime(steps, clock))
    decreases |steps|
  {
    hide ReadingsAgree, PersistCpu, CleanCpu;
    if steps == [] {
      assert done + [] == done;
    } else {
      var step := steps[0];
      ReadingsAgreeLater(t, done, config, clock, step.now);
      if step.Sample? {
        ReadingAgrees(t, done, step, config, step.now);
      } else {
        DropAgrees(t, done, config, step.now, step.now);
      }
      ReadingsRun(ApplyCpu(t, step, config), done + [step], steps[1..], config, step.now);
      assert done + [step] + steps[1..] == done + steps;
    }
  }

  /**
   After any run the cursor of every run of the program is its newest reading that went forward, every
   sample on record is the first of its instant, and every retained day holds the number and the sum of
   the steps forward taken on it.
   */
  lemma CpuFromReadings(steps: seq<CpuStep>, config: Config, clock: Instant)
    requires Monotone(steps, clock)
    ensures ReadingsAgree(RunCpu(CpuTables(map[], map[], map[]), steps, config), steps, config, LastTime(steps, clock))
  {
    hide ReadingsAgree;
    NothingRead(config, clock);
    ReadingsRun(CpuTables(map[], map[], map[]), [], steps, config, clock);
    assert [] + steps == steps;
  }

  lemma NothingRead(config: Config, clock: Instant)
    ensures ReadingsAgree(CpuTables(map[], map[], map[]), [], config, clock)
  {
  }
}
