/**
 Replaying a batch of job snapshots.  A commit whose reply is lost leaves the writer unable to
 tell whether the batch took effect; writing it again must change nothing that is still kept.
 */
module JobReplay {
  import opened Basics
  import opened JobSnapshots
  import opened JobRollups

  /** The snapshots of a batch, each with the time at which it is written. */
  ghost predicate Observations(steps: seq<Step>) {
    forall i :: 0 <= i < |steps| ==> steps[i].Observe?
  }

  ghost predicate SameEvents(steps: seq<Step>, again: seq<Step>) {
    && Observations(steps) && Observations(again) && |steps| == |again|
    && forall i :: 0 <= i < |steps| ==> steps[i].snapshot == again[i].snapshot && steps[i].register == again[i].register
  }

  ghost predicate Ticking(steps: seq<Step>, clock: Instant)
    decreases |steps|
  {
    steps != [] ==> clock <= steps[0].now && Ticking(steps[1..], steps[0].now)
  }

  /** No snapshot registers a job that the ledger has forgotten. */
  ghost predicate NoneRegisteredAgain(l: Ledger, steps: seq<Step>) {
    forall i :: 0 <= i < |steps| && steps[i].Observe? ==> SingleRegistration(l, steps[i].snapshot, steps[i].register)
  }

  function Checkpoint(cp: map<JobKey, Snapshot>, n: Snapshot, register: bool): map<JobKey, Snapshot> {
    var s := Stored(cp, n, register);
    if s.None? then cp else cp[n.key := s.value]
  }

  function Checkpoints(cp: map<JobKey, Snapshot>, steps: seq<Step>): map<JobKey, Snapshot>
    decreases |steps|
  {
    if steps == [] then cp
    else Checkpoints(if steps[0].Observe? then Checkpoint(cp, steps[0].snapshot, steps[0].register) else cp, steps[1..])
  }

  /**
   In the batch, the snapshot that registers an unknown job comes before its other snapshots:
   one that is ignored because its job is unknown is not followed by that job's registration.
   */
  ghost predicate RegisteredFirst(cp: map<JobKey, Snapshot>, steps: seq<Step>)
    decreases |steps|
  {
    steps != [] && steps[0].Observe? ==>
      && (steps[0].snapshot.key.Valid() && steps[0].snapshot.key !in cp && !steps[0].register ==>
            NeverRegisters(steps[1..], steps[0].snapshot.key))
      && RegisteredFirst(Checkpoint(cp, steps[0].snapshot, steps[0].register), steps[1..])
  }

  ghost predicate NeverRegisters(steps: seq<Step>, key: JobKey) {
    forall i :: 0 <= i < |steps| && steps[i].Observe? && steps[i].snapshot.key == key ==> !steps[i].register
  }

  ghost predicate Keyed(cp: map<JobKey, Snapshot>) {
    forall key :: key in cp ==> key.Valid() && cp[key].key == key && Nonnegative(cp[key].measures)
  }

  lemma CheckpointKeyed(cp: map<JobKey, Snapshot>, n: Snapshot, register: bool)
    requires Keyed(cp)
    ensures Keyed(Checkpoint(cp, n, register))
    ensures Stored(cp, n, register).Some? ==> Stored(cp, n, register).value.key == n.key
  {
    hide Next, Nonnegative;
    NextIsSound(Prior(cp, n.key), n);
  }

  lemma {:induction false} NeverRegistered(cp: map<JobKey, Snapshot>, steps: seq<Step>, key: JobKey)
    requires Observations(steps) && key !in cp && NeverRegisters(steps, key)
    ensures key !in Checkpoints(cp, steps)
    decreases |steps|
  {
    hide Next;
    if steps != [] {
      NeverRegistered(Checkpoint(cp, steps[0].snapshot, steps[0].register), steps[1..], key);
    }
  }

  /** What the rest of a batch makes of a stored job: it absorbs it, and keeps a terminal observation. */
  ghost predicate Settles(f: map<JobKey, Snapshot>, s: Snapshot) {
    && s.key in f && f[s.key].key == s.key
    && Absorbs(f[s.key], s)
    && (s.observed.Terminal() ==> f[s.key].observed == s.observed)
  }

  lemma NextSettles(s: Snapshot, n: Snapshot, g: Snapshot)
    requires Nonnegative(s.measures) && Absorbs(g, Next(Some(s), n))
    requires Next(Some(s), n).observed.Terminal() ==> g.observed == Next(Some(s), n).observed
    ensures Absorbs(g, s) && (s.observed.Terminal() ==> g.observed == s.observed)
  {
    NextAbsorbs(Some(s), n);
    AbsorbsChain(g, Next(Some(s), n), s);
  }

  lemma SelfAbsorbs(s: Snapshot)
    requires Nonnegative(s.measures)
    ensures Absorbs(s, s)
  {
  }

  lemma {:induction false} FinalSettles(cp: map<JobKey, Snapshot>, steps: seq<Step>, key: JobKey)
    requires Observations(steps) && Keyed(cp) && key in cp
    ensures Settles(Checkpoints(cp, steps), cp[key])
    decreases |steps|
  {
    hide Next, Absorbs, Nonnegative;
    if steps == [] {
      SelfAbsorbs(cp[key]);
    } else {
      var n := steps[0].snapshot;
      CheckpointKeyed(cp, n, steps[0].register);
      var after := Checkpoint(cp, n, steps[0].register);
      FinalSettles(after, steps[1..], key);
      if n.key == key && Stored(cp, n, steps[0].register).Some? {
        NextSettles(cp[key], n, Checkpoints(after, steps[1..])[key]);
      }
    }
  }

  /** A replay b of checkpoints chases the first pass a towards their common end f. */
  ghost predicate Replaying(a: map<JobKey, Snapshot>, b: map<JobKey, Snapshot>, f: map<JobKey, Snapshot>) {
    && b.Keys == f.Keys && a.Keys <= f.Keys
    && (forall key :: key in a ==> Chases(a[key], b[key], f[key]))
    && (forall key :: key in f && key !in a ==> b[key] == f[key])
  }

  lemma ReplayingStep(a: map<JobKey, Snapshot>, b: map<JobKey, Snapshot>, f: map<JobKey, Snapshot>, n: Snapshot, register: bool)
    requires Keyed(a) && Keyed(b) && Keyed(f) && Replaying(a, b, f)
    requires Stored(a, n, register).None? ==> !n.key.Valid() || n.key !in f
    requires Stored(a, n, register).Some? ==> Settles(f, Stored(a, n, register).value)
    ensures Replaying(Checkpoint(a, n, register), Checkpoint(b, n, register), f)
  {
    hide Next, Absorbs, Nonnegative, Chases;
    var s := Stored(a, n, register);
    if s.Some? {
      CheckpointKeyed(a, n, register);
      var key := n.key;
      SettledAbsorbs(Prior(a, key), n, f[key]);
      if key in a {
        ChasesStep(a[key], b[key], f[key], n);
      } else {
        NewObserved(n);
        ChasesStart(b[key], f[key], n);
      }
    }
  }

  lemma NewObserved(n: Snapshot)
    ensures Next(None, n).observed == n.observed
  {
  }

  lemma SettledAbsorbs(prior: Option<Snapshot>, n: Snapshot, g: Snapshot)
    requires prior.Some? ==> Nonnegative(prior.value.measures)
    requires Absorbs(g, Next(prior, n))
    ensures Absorbs(g, n)
  {
    NextAbsorbs(prior, n);
    AbsorbsChain(g, Next(prior, n), n);
  }

  /** However far the first pass has come, the replay of the rest ends where it ends. */
  lemma {:induction false} ReplayCatchesUp(a: map<JobKey, Snapshot>, b: map<JobKey, Snapshot>, steps: seq<Step>)
    requires Observations(steps) && Keyed(a) && Keyed(b)
    requires RegisteredFirst(a, steps) && Replaying(a, b, Checkpoints(a, steps))
    ensures Checkpoints(b, steps) == Checkpoints(a, steps)
    decreases |steps|
  {
    hide Next, Stored, Checkpoint;
    var f := Checkpoints(a, steps);
    if steps != [] {
      hide Chases, Absorbs, Nonnegative;
      var n, register := steps[0].snapshot, steps[0].register;
      var after := Checkpoint(a, n, register);
      CheckpointKeyed(a, n, register);
      CheckpointKeyed(b, n, register);
      FinalKeyed(a, steps);
      StoredStays(a, n, register, steps[1..]);
      ReplayingStep(a, b, f, n, register);
      ReplayCatchesUp(after, Checkpoint(b, n, register), steps[1..]);
    }
  }

  lemma {:induction false} FinalKeyed(cp: map<JobKey, Snapshot>, steps: seq<Step>)
    requires Observations(steps) && Keyed(cp)
    ensures Keyed(Checkpoints(cp, steps))
    decreases |steps|
  {
    hide Checkpoint, Keyed;
    if steps != [] {
      CheckpointKeyed(cp, steps[0].snapshot, steps[0].register);
      FinalKeyed(Checkpoint(cp, steps[0].snapshot, steps[0].register), steps[1..]);
    }
  }

  lemma StoredStays(a: map<JobKey, Snapshot>, n: Snapshot, register: bool, rest: seq<Step>)
    requires Observations(rest) && Keyed(a)
    requires n.key.Valid() && n.key !in a && !register ==> NeverRegisters(rest, n.key)
    ensures var f := Checkpoints(Checkpoint(a, n, register), rest);
            && (Stored(a, n, register).None? ==> !n.key.Valid() || n.key !in f)
            && (Stored(a, n, register).Some? ==> Settles(f, Stored(a, n, register).value))
  {
    hide Next, Absorbs, Nonnegative, Checkpoints;
    CheckpointKeyed(a, n, register);
    if Stored(a, n, register).Some? {
      FinalSettles(Checkpoint(a, n, register), rest, n.key);
    } else if n.key.Valid() {
      NeverRegistered(a, rest, n.key);
    }
  }

  /** Writing the batch again leaves every checkpoint as it is. */
  lemma CheckpointsReplay(cp: map<JobKey, Snapshot>, steps: seq<Step>)
    requires Observations(steps) && Keyed(cp) && RegisteredFirst(cp, steps)
    ensures Checkpoints(Checkpoints(cp, steps), steps) == Checkpoints(cp, steps)
  {
    var f := Checkpoints(cp, steps);
    FinalKeyed(cp, steps);
    forall key | key in cp
      ensures key in f && Chases(cp[key], f[key], f[key])
    {
      FinalSettles(cp, steps, key);
      SelfChases(cp[key], f[key]);
    }
    ReplayCatchesUp(cp, f, steps);
  }

  lemma SelfChases(s: Snapshot, g: Snapshot)
    requires Absorbs(g, s) && (s.observed.Terminal() ==> g.observed == s.observed)
    ensures Chases(s, g, g)
  {
  }

  /**
   Why the registering snapshot must come first: an ignored snapshot that knows more documents
   than the registration behind it is merged by the replay.
   */
  lemma IgnoredFirstIsMergedLater(n: Snapshot, r: Snapshot, now: Instant)
    requires n.key.Valid() && r.key == n.key && n.documents > r.documents
    ensures var steps := [Observe(n, false, now), Observe(r, true, now)];
            && !RegisteredFirst(map[], steps)
            && Checkpoints(Checkpoints(map[], steps), steps) != Checkpoints(map[], steps)
  {
    var steps := [Observe(n, false, now), Observe(r, true, now)];
    assert steps[1..] == [Observe(r, true, now)] && steps[1..][1..] == [];
    assert !NeverRegisters(steps[1..], n.key) by {
      assert steps[1..][0].snapshot.key == n.key;
    }
    var once := map[n.key := Next(None, r)];
    assert Checkpoint(map[], n, false) == map[];
    assert Checkpoints(map[], steps) == Checkpoints(map[], steps[1..]) == Checkpoints(once, []) == once;
    var mid := Checkpoint(once, n, false);
    assert mid[n.key].documents == n.documents;
    var end := Checkpoint(mid, r, true);
    assert Checkpoints(once, steps) == Checkpoints(mid, steps[1..]) == Checkpoints(end, []) == end;
    assert end[n.key].documents == n.documents && once[n.key].documents == r.documents;
  }

  // The other job tables.

  lemma ApplyCheckpoints(t: JobTables, step: Step, config: Config)
    requires step.Observe? && Keyed(t.checkpoints)
    ensures Apply(t, step, config).checkpoints == Checkpoint(t.checkpoints, step.snapshot, step.register)
    ensures Keyed(Apply(t, step, config).checkpoints)
  {
    hide Next, Rolled, Retained, RowOf, Nonnegative;
    CheckpointKeyed(t.checkpoints, step.snapshot, step.register);
  }

  lemma {:induction false} RunCheckpoints(t: JobTables, steps: seq<Step>, config: Config)
    requires Observations(steps) && Keyed(t.checkpoints)
    ensures Run(t, steps, config).checkpoints == Checkpoints(t.checkpoints, steps)
    decreases |steps|
  {
    hide Apply, Checkpoint, Keyed;
    if steps != [] {
      ApplyCheckpoints(t, steps[0], config);
      RunCheckpoints(Apply(t, steps[0], config), steps[1..], config);
    }
  }

  ghost predicate Mentions(steps: seq<Step>, key: JobKey) {
    exists i :: 0 <= i < |steps| && steps[i].Observe? && steps[i].snapshot.key == key
  }

  predicate Mirrors(t: JobTables, key: JobKey) {
    key in t.checkpoints && key in t.jobs && t.jobs[key] == t.checkpoints[key]
  }

  predicate SameJob(t: JobTables, u: JobTables, key: JobKey) {
    (key in t.jobs <==> key in u.jobs) && (key in t.jobs ==> t.jobs[key] == u.jobs[key])
  }

  lemma ApplyJob(t: JobTables, step: Step, config: Config, key: JobKey)
    requires step.Observe? && Keyed(t.checkpoints)
    ensures key in t.checkpoints ==> key in Apply(t, step, config).checkpoints
    ensures key == step.snapshot.key && key in Apply(t, step, config).checkpoints ==> Mirrors(Apply(t, step, config), key)
    ensures key != step.snapshot.key || key !in Apply(t, step, config).checkpoints ==> SameJob(t, Apply(t, step, config), key)
    ensures key != step.snapshot.key && Mirrors(t, key) ==> Mirrors(Apply(t, step, config), key)
  {
    hide Next, Rolled, Retained, RowOf, Nonnegative;
    CheckpointKeyed(t.checkpoints, step.snapshot, step.register);
  }

  /** After a batch the detail row of every stored job it mentions equals its checkpoint. */
  lemma {:induction false} BatchMirrors(t: JobTables, steps: seq<Step>, config: Config, key: JobKey)
    requires Observations(steps) && Keyed(t.checkpoints) && RegisteredFirst(t.checkpoints, steps)
    requires key in Run(t, steps, config).checkpoints && (Mentions(steps, key) || Mirrors(t, key))
    ensures Mirrors(Run(t, steps, config), key)
    decreases |steps|
  {
    hide Apply, Checkpoint, Keyed, Mirrors, SameJob;
    if steps != [] {
      var u := Apply(t, steps[0], config);
      ApplyCheckpoints(t, steps[0], config);
      ApplyJob(t, steps[0], config, key);
      if !Mirrors(u, key) && !Mentions(steps[1..], key) {
        assert key == steps[0].snapshot.key by {
          assert Mentions(steps, key);
        }
        UnmentionedStays(u, steps[1..], config, key);
      }
      BatchMirrors(u, steps[1..], config, key);
    }
  }

  lemma {:induction false} UnmentionedStays(t: JobTables, steps: seq<Step>, config: Config, key: JobKey)
    requires Observations(steps) && Keyed(t.checkpoints)
    requires !Mentions(steps, key) || key !in Run(t, steps, config).checkpoints
    ensures SameJob(t, Run(t, steps, config), key)
    ensures key in t.checkpoints ==> key in Run(t, steps, config).checkpoints
    ensures !Mentions(steps, key) && key in Run(t, steps, config).checkpoints ==> key in t.checkpoints
    decreases |steps|
  {
    hide Apply, Checkpoint, Keyed, Mirrors;
    if steps != [] {
      var u := Apply(t, steps[0], config);
      ApplyCheckpoints(t, steps[0], config);
      ApplyJob(t, steps[0], config, key);
      StoredOnlyItsKey(t.checkpoints, steps[0].snapshot, steps[0].register, key);
      if !Mentions(steps, key) {
        assert steps[0].snapshot.key != key;
        forall i | 0 <= i < |steps| - 1
          ensures steps[1..][i].snapshot.key != key
        {
          assert steps[i + 1].snapshot.key != key;
        }
      }
      if key in u.checkpoints {
        CheckpointsGrow(u, steps[1..], config, key);
      }
      UnmentionedStays(u, steps[1..], config, key);
    }
  }

  lemma StoredOnlyItsKey(cp: map<JobKey, Snapshot>, n: Snapshot, register: bool, key: JobKey)
    ensures key != n.key && key in Checkpoint(cp, n, register) ==> key in cp
  {
    hide Next;
  }

  lemma {:induction false} CheckpointsGrow(t: JobTables, steps: seq<Step>, config: Config, key: JobKey)
    requires Observations(steps) && Keyed(t.checkpoints) && key in t.checkpoints
    ensures key in Run(t, steps, config).checkpoints
    decreases |steps|
  {
    hide Apply, Keyed;
    if steps != [] {
      ApplyCheckpoints(t, steps[0], config);
      ApplyJob(t, steps[0], config, key);
      CheckpointsGrow(Apply(t, steps[0], config), steps[1..], config, key);
    }
  }

  /** A replayed batch knows every job it can know, so nothing in it precedes a registration. */
  lemma {:induction false} ReplayRegistersFirst(cp: map<JobKey, Snapshot>, steps: seq<Step>)
    requires Observations(steps)
    requires forall i :: 0 <= i < |steps| && steps[i].register && steps[i].snapshot.key.Valid() ==> steps[i].snapshot.key in cp
    ensures RegisteredFirst(cp, steps)
    decreases |steps|
  {
    hide Next;
    if steps != [] {
      var n, register := steps[0].snapshot, steps[0].register;
      forall key | key in cp
        ensures key in Checkpoint(cp, n, register)
      {
      }
      ReplayRegistersFirst(Checkpoint(cp, n, register), steps[1..]);
    }
  }

  // The ledger of a replay, and the main result.

  lemma {:induction false} BatchOrderly(l: Ledger, steps: seq<Step>, config: Config, clock: Instant)
    requires Observations(steps) && Ticking(steps, clock) && NoneRegisteredAgain(l, steps)
    ensures Orderly(l, steps, config, clock)
    decreases |steps|
  {
    hide Next, Retained, RowOf;
    if steps != [] {
      var m := Account(l, steps[0], config);
      forall i | 0 <= i < |steps| - 1
        ensures SingleRegistration(m, steps[1..][i].snapshot, steps[1..][i].register)
      {
        assert SingleRegistration(l, steps[i + 1].snapshot, steps[i + 1].register);
        EnteredOpens(l, steps[0], config, steps[i + 1].snapshot.key);
      }
      BatchOrderly(m, steps[1..], config, steps[0].now);
    }
  }

  lemma EnteredOpens(l: Ledger, step: Step, config: Config, key: JobKey)
    requires step.Observe?
    ensures var m := Account(l, step, config);
            && (key in l.open ==> key in m.open)
            && (key in m.latest ==> key in l.latest || key in m.open)
            && (key in l.latest ==> key in m.latest)
            && (key !in l.open && key in m.open ==> step.register && step.snapshot.key == key && key.Valid())
  {
    hide Next, Retained, RowOf, JobKey.Valid;
  }

  /** Every job the batch registers is stored, the batch changes no checkpoint, and details mirror them. */
  ghost predicate Absorbed(t: JobTables, steps: seq<Step>) {
    && Checkpoints(t.checkpoints, steps) == t.checkpoints
    && (forall i :: 0 <= i < |steps| && steps[i].Observe? && steps[i].register && steps[i].snapshot.key.Valid() ==>
          steps[i].snapshot.key in t.checkpoints)
    && (forall key :: key in t.checkpoints && Mentions(steps, key) ==> Mirrors(t, key))
  }

  lemma {:induction false} SameCheckpoints(cp: map<JobKey, Snapshot>, steps: seq<Step>, again: seq<Step>)
    requires SameEvents(steps, again)
    ensures Checkpoints(cp, steps) == Checkpoints(cp, again)
    decreases |steps|
  {
    hide Checkpoint;
    if steps != [] {
      SameCheckpoints(Checkpoint(cp, steps[0].snapshot, steps[0].register), steps[1..], again[1..]);
    }
  }

  lemma SameMentions(steps: seq<Step>, again: seq<Step>, key: JobKey)
    requires SameEvents(steps, again) && Mentions(again, key)
    ensures Mentions(steps, key)
  {
    var i :| 0 <= i < |again| && again[i].Observe? && again[i].snapshot.key == key;
    assert steps[i].snapshot.key == key;
  }

  lemma AbsorbedAlike(t: JobTables, steps: seq<Step>, again: seq<Step>)
    requires SameEvents(steps, again) && Absorbed(t, steps)
    ensures Absorbed(t, again)
  {
    hide Mirrors, Mentions;
    SameCheckpoints(t.checkpoints, steps, again);
    forall key | key in t.checkpoints && Mentions(again, key)
      ensures Mirrors(t, key)
    {
      SameMentions(steps, again, key);
    }
  }

  lemma {:induction false} RegisteredStored(t: JobTables, steps: seq<Step>, config: Config, i: nat)
    requires Observations(steps) && Keyed(t.checkpoints)
    requires i < |steps| && steps[i].register && steps[i].snapshot.key.Valid()
    ensures steps[i].snapshot.key in Run(t, steps, config).checkpoints
    decreases |steps|
  {
    hide Apply, Keyed, Next;
    var u := Apply(t, steps[0], config);
    ApplyCheckpoints(t, steps[0], config);
    if i == 0 {
      CheckpointsGrow(u, steps[1..], config, steps[0].snapshot.key);
    } else {
      RegisteredStored(u, steps[1..], config, i - 1);
    }
  }

  lemma PassAbsorbs(t: JobTables, steps: seq<Step>, config: Config)
    requires Observations(steps) && Keyed(t.checkpoints) && RegisteredFirst(t.checkpoints, steps)
    ensures Absorbed(Run(t, steps, config), steps)
  {
    hide Keyed, RegisteredFirst, Run, Checkpoints, Mirrors, Mentions, JobKey.Valid;
    var u := Run(t, steps, config);
    RunCheckpoints(t, steps, config);
    CheckpointsReplay(t.checkpoints, steps);
    forall i | 0 <= i < |steps| && steps[i].register && steps[i].snapshot.key.Valid()
      ensures steps[i].snapshot.key in u.checkpoints
    {
      RegisteredStored(t, steps, config, i);
    }
    forall key | key in u.checkpoints && Mentions(steps, key)
      ensures Mirrors(u, key)
    {
      BatchMirrors(t, steps, config, key);
    }
  }

  lemma SameJobs(t: JobTables, u: JobTables)
    requires forall key :: SameJob(t, u, key)
    ensures t.jobs == u.jobs
  {
    forall key
      ensures key in t.jobs <==> key in u.jobs
      ensures key in t.jobs ==> t.jobs[key] == u.jobs[key]
    {
      assert SameJob(t, u, key);
    }
  }

  /** Nothing an absorbed batch writes to the detail tables differs from what is there. */
  lemma AbsorbedDetails(t: JobTables, steps: seq<Step>, config: Config)
    requires Observations(steps) && Keyed(t.checkpoints) && Absorbed(t, steps)
    ensures Run(t, steps, config).checkpoints == t.checkpoints
    ensures Run(t, steps, config).jobs == t.jobs
    ensures Absorbed(Run(t, steps, config), steps)
  {
    hide Keyed, Run, Checkpoints, Mentions, JobKey.Valid;
    var u := Run(t, steps, config);
    RunCheckpoints(t, steps, config);
    AbsorbedRegistersFirst(t.checkpoints, steps);
    forall key
      ensures SameJob(t, u, key)
      ensures key in t.checkpoints && Mentions(steps, key) ==> Mirrors(u, key)
    {
      if Mentions(steps, key) && key in t.checkpoints {
        BatchMirrors(t, steps, config, key);
      } else {
        UnmentionedStays(t, steps, config, key);
      }
    }
    SameJobs(t, u);
  }

  lemma AbsorbedRegistersFirst(cp: map<JobKey, Snapshot>, steps: seq<Step>)
    requires Observations(steps)
    requires forall i :: 0 <= i < |steps| && steps[i].Observe? && steps[i].register && steps[i].snapshot.key.Valid() ==>
                           steps[i].snapshot.key in cp
    ensures RegisteredFirst(cp, steps)
  {
    hide JobKey.Valid;
    ReplayRegistersFirst(cp, steps);
  }

  /** When every job a batch registers is open already, the ledger gains no job and forgets none. */
  lemma {:induction false} QuietLedger(l: Ledger, steps: seq<Step>, config: Config)
    requires Observations(steps) && l.open <= l.latest.Keys
    requires forall i :: 0 <= i < |steps| && steps[i].register && steps[i].snapshot.key.Valid() ==> steps[i].snapshot.key in l.open
    ensures var m := Books(l, steps, config);
            && m.order == l.order && m.open == l.open && m.latest.Keys == l.latest.Keys
            && (forall key :: key in l.latest && key !in l.open ==> m.latest[key] == l.latest[key])
    decreases |steps|
  {
    hide Next, Retained, RowOf, JobKey.Valid;
    if steps != [] {
      var m := Account(l, steps[0], config);
      QuietStep(l, steps[0], config);
      forall i | 0 <= i < |steps| - 1 && steps[1..][i].register && steps[1..][i].snapshot.key.Valid()
        ensures steps[1..][i].snapshot.key in m.open
      {
        assert steps[1..][i] == steps[i + 1];
      }
      hide Account;
      QuietLedger(m, steps[1..], config);
    }
  }

  lemma QuietStep(l: Ledger, step: Step, config: Config)
    requires step.Observe? && l.open <= l.latest.Keys
    requires step.register && step.snapshot.key.Valid() ==> step.snapshot.key in l.open
    ensures var m := Account(l, step, config);
            && m.order == l.order && m.open == l.open && m.latest.Keys == l.latest.Keys
            && (forall key :: key in l.latest && key !in l.open ==> m.latest[key] == l.latest[key])
  {
    hide Next, Retained, RowOf, JobKey.Valid;
  }

  lemma AbsorbedLedger(t: JobTables, l: Ledger, steps: seq<Step>, config: Config, clock: Instant)
    requires Reachable(t, l, config, clock) && Observations(steps) && Ticking(steps, clock) && Absorbed(t, steps)
    ensures var m := Books(l, steps, config);
            m.order == l.order && m.latest == l.latest && Reachable(Run(t, steps, config), m, config, Clock(steps, clock))
  {
    hide Run, Checkpoints, Mirrors, Mentions, JobKey.Valid, RowAgrees, Nonnegative, Retained, RowOf, Books, Orderly;
    ReachableKeyed(t, l, config, clock);
    QuietLedger(l, steps, config);
    BatchOrderly(l, steps, config, clock);
    RunReachable(t, l, steps, config, clock);
    AbsorbedDetails(t, steps, config);
    var m := Books(l, steps, config);
    forall key | key in l.latest
      ensures key in m.latest && m.latest[key] == l.latest[key]
    {
      if key in l.open {
        assert Run(t, steps, config).checkpoints[key] == t.checkpoints[key];
      }
    }
    assert m.latest == l.latest;
  }

  lemma ReachableKeyed(t: JobTables, l: Ledger, config: Config, now: Instant)
    requires Reachable(t, l, config, now)
    ensures Keyed(t.checkpoints)
  {
    hide RowAgrees, Nonnegative, Retained, RowOf;
  }

  /** A day that does not fall out of the window between two instants: it is kept still, or was out of it before. */
  predicate Steady(day: int, config: Config, first: Instant, last: Instant) {
    Retained(day, config, first) ==> Retained(day, config, last)
  }

  lemma NotRetainedLater(day: int, config: Config, before: Instant, now: Instant)
    requires before <= now && !Retained(day, config, before)
    ensures !Retained(day, config, now)
  {
  }

  lemma PersistElsewhere(t: JobTables, n: Snapshot, register: bool, config: Config, now: Instant, k: RowKey, c: Column)
    requires Keyed(t.checkpoints) && !Retained(k.day, config, now)
    ensures Cell(Persist(t, n, register, config, now), k, c) == Cell(t, k, c)
  {
    hide Nonnegative, Merge, Normalise, Retained;
    if n.key in t.checkpoints {
      NextKeepsRow(t.checkpoints[n.key], n, c);
    }
  }

  /** Snapshots do not touch the rows of a day that is out of the window. */
  lemma {:induction false} OutOfWindow(t: JobTables, steps: seq<Step>, config: Config, clock: Instant, k: RowKey, c: Column)
    requires Observations(steps) && Ticking(steps, clock) && Keyed(t.checkpoints) && !Retained(k.day, config, clock)
    ensures Cell(Run(t, steps, config), k, c) == Cell(t, k, c)
    decreases |steps|
  {
    hide Keyed, Persist, Retained, Cell, Checkpoint;
    if steps != [] {
      NotRetainedLater(k.day, config, clock, steps[0].now);
      PersistElsewhere(t, steps[0].snapshot, steps[0].register, config, steps[0].now, k, c);
      ApplyCheckpoints(t, steps[0], config);
      OutOfWindow(Apply(t, steps[0], config), steps[1..], config, steps[0].now, k, c);
    }
  }

  /** When the first snapshot of a batch is written. */
  function Start(steps: seq<Step>, clock: Instant): Instant {
    if steps == [] then clock else steps[0].now
  }

  /** An absorbed batch, written again at any later time, changes no cell of a day that stays in or out of the window. */
  lemma AbsorbedStays(t: JobTables, l: Ledger, steps: seq<Step>, config: Config, clock: Instant, k: RowKey, c: Column)
    requires Reachable(t, l, config, clock) && Observations(steps) && Ticking(steps, clock) && Absorbed(t, steps)
    ensures Steady(k.day, config, Start(steps, clock), Clock(steps, clock)) ==> Cell(Run(t, steps, config), k, c) == Cell(t, k, c)
  {
    hide Run, Checkpoints, Books, Reachable, Absorbed, Retained, Cell, Fold, Keyed;
    if Retained(k.day, config, Clock(steps, clock)) {
      AbsorbedLedger(t, l, steps, config, clock);
      TickingForward(steps, clock);
      LaterStillReachable(t, l, config, clock, Clock(steps, clock));
      CellIsFold(t, l, config, Clock(steps, clock), k, c);
      CellIsFold(Run(t, steps, config), Books(l, steps, config), config, Clock(steps, clock), k, c);
    } else if !Retained(k.day, config, Start(steps, clock)) {
      ReachableKeyed(t, l, config, clock);
      assert Ticking(steps, Start(steps, clock));
      OutOfWindow(t, steps, config, Start(steps, clock), k, c);
    }
  }

  lemma {:induction false} TickingForward(steps: seq<Step>, clock: Instant)
    requires Ticking(steps, clock)
    ensures clock <= Clock(steps, clock)
    decreases |steps|
  {
    if steps != [] {
      TickingForward(steps[1..], steps[0].now);
    }
  }

  /**
   Replaying a whole batch of snapshots after an ambiguous commit leaves checkpoints and details
   exactly, and every rollup and settings cell of a day that does not fall out of the window during
   the replay, as one application left them.
   */
  lemma BatchReplays(t: JobTables, l: Ledger, steps: seq<Step>, again: seq<Step>, config: Config, clock: Instant, k: RowKey, c: Column)
    requires Reachable(t, l, config, clock) && SameEvents(steps, again)
    requires Ticking(steps, clock) && Ticking(again, Clock(steps, clock))
    requires NoneRegisteredAgain(l, steps) && RegisteredFirst(t.checkpoints, steps)
    ensures Run(Run(t, steps, config), again, config).checkpoints == Run(t, steps, config).checkpoints
    ensures Run(Run(t, steps, config), again, config).jobs == Run(t, steps, config).jobs
    ensures Steady(k.day, config, Start(again, Clock(steps, clock)), Clock(again, Clock(steps, clock))) ==>
              Cell(Run(Run(t, steps, config), again, config), k, c) == Cell(Run(t, steps, config), k, c)
  {
    hide Run, Checkpoints, Books, Reachable, Absorbed, Retained, Cell, RegisteredFirst, Keyed;
    var u, m := Run(t, steps, config), Books(l, steps, config);
    ReachableKeyed(t, l, config, clock);
    PassAbsorbs(t, steps, config);
    BatchOrderly(l, steps, config, clock);
    RunReachable(t, l, steps, config, clock);
    ReachableKeyed(u, m, config, Clock(steps, clock));
    AbsorbedAlike(u, steps, again);
    AbsorbedDetails(u, again, config);
    AbsorbedStays(u, m, again, config, Clock(steps, clock), k, c);
  }

  // A day that falls out of the window during a replay.

  lemma PersistMoves(t: JobTables, n: Snapshot, register: bool, config: Config, now: Instant, c: Column)
    requires Stored(t.checkpoints, n, register).Some? && c in Columns() && !c.MaxTime? && !c.Pinned?
    requires RowOf(Stored(t.checkpoints, n, register).value) == RowOf(n)
    requires RowOf(n) in t.rollups ==> c in t.rollups[RowOf(n)]
    ensures var u, next := Persist(t, n, register, config, now), Stored(t.checkpoints, n, register).value;
      && u.checkpoints == t.checkpoints[n.key := next]
      && (RowOf(n) in u.rollups ==> c in u.rollups[RowOf(n)])
      && Cell(u, RowOf(n), c)
           == Cell(t, RowOf(n), c)
              + if Retained(RowOf(n).day, config, now) then Delta(Prior(t.checkpoints, n.key), next, c) else 0
  {
    hide Stored, Delta, Columns, Retained, RowOf;
  }

  /** The stored job has the given state, and its row counts so many failures. */
  ghost predicate Shows(t: JobTables, n: Snapshot, state: State, failures: int) {
    && n.key in t.checkpoints
    && (var s := t.checkpoints[n.key];
        && s.state == state && !s.observed.Terminal() && s.accepted && s.updatedAt == n.updatedAt
        && RowOf(s) == RowOf(n) && s.key == n.key)
    && (RowOf(n) in t.rollups ==> OutcomeCount(WasFailed) in t.rollups[RowOf(n)])
    && Cell(t, RowOf(n), OutcomeCount(WasFailed)) == failures
  }

  lemma Observing(t: JobTables, n: Snapshot, was: State, failures: int, state: State, register: bool, config: Config, now: Instant)
    requires Shows(t, n, was, failures) && n.key.Valid() && n.accepted && !n.observed.Terminal()
    requires (was.Failed? || was.Other?) && (state.Failed? || state.Other?)
    ensures Shows(Persist(t, n.(state := state), register, config, now), n, state,
                  failures + if Retained(RowOf(n).day, config, now) then Count(state.Failed?) - Count(was.Failed?) else 0)
  {
    AllColumns(OutcomeCount(WasFailed));
    PersistMoves(t, n.(state := state), register, config, now, OutcomeCount(WasFailed));
    hide Persist, Retained, Cell, Columns;
  }

  lemma Registering(n: Snapshot, config: Config, now: Instant)
    requires n.key.Valid() && n.accepted && !n.observed.Terminal() && n.state.Other?
    ensures Shows(Persist(JobTables(map[], map[], map[], map[]), n, true, config, now), n, n.state, 0)
  {
    AllColumns(OutcomeCount(WasFailed));
    PersistMoves(JobTables(map[], map[], map[], map[]), n, true, config, now, OutcomeCount(WasFailed));
    hide Persist, Retained, Columns;
  }

  /**
   Why the window matters: a job is reported pending and then failed at the same instant.  When its day
   falls out of the window between the two snapshots of a replay, the row counts it as unresolved again.
   */
  lemma IntermediateStays(n: Snapshot, config: Config, t0: Instant, t1: Instant, t2: Instant)
    requires n.key.Valid() && n.accepted && n.state.Other? && !n.observed.Terminal()
    requires Retained(RowOf(n).day, config, t0) && Retained(RowOf(n).day, config, t1) && !Retained(RowOf(n).day, config, t2)
    ensures var failed := n.(state := Failed);
      var once := Run(JobTables(map[], map[], map[], map[]), [Observe(n, true, t0), Observe(failed, false, t0)], config);
      var twice := Run(once, [Observe(n, true, t1), Observe(failed, false, t2)], config);
      && Cell(once, RowOf(n), OutcomeCount(WasFailed)) == 1
      && Cell(twice, RowOf(n), OutcomeCount(WasFailed)) == 0
  {
    var failed := n.(state := Failed);
    hide Run, Persist, Shows, Retained, RowOf, JobKey.Valid, Cell;
    var start := JobTables(map[], map[], map[], map[]);
    var one := Persist(start, n, true, config, t0);
    var once := Persist(one, failed, false, config, t0);
    var three := Persist(once, n, true, config, t1);
    var twice := Persist(three, failed, false, config, t2);
    TwoSteps(start, Observe(n, true, t0), Observe(failed, false, t0), config);
    TwoSteps(once, Observe(n, true, t1), Observe(failed, false, t2), config);
    assert n == n.(state := n.state);
    Registering(n, config, t0);
    Observing(one, n, n.state, 0, Failed, false, config, t0);
    Observing(once, n, Failed, 1, n.state, true, config, t1);
    Observing(three, n, n.state, 0, Failed, false, config, t2);
    ShownCell(once, n, Failed, 1);
    ShownCell(twice, n, Failed, 0);
  }

  lemma TwoSteps(t: JobTables, x: Step, y: Step, config: Config)
    ensures Run(t, [x, y], config) == Apply(Apply(t, x, config), y, config)
  {
    hide Apply;
    assert [x, y][1..] == [y] && [y][1..] == [];
    assert Run(Apply(t, x, config), [y], config) == Run(Apply(Apply(t, x, config), y, config), [], config);
  }

  lemma ShownCell(t: JobTables, n: Snapshot, state: State, failures: int)
    requires Shows(t, n, state, failures)
    ensures Cell(t, RowOf(n), OutcomeCount(WasFailed)) == failures
  {
  }
}
