/**
 The publisher of one printer.  A TXT change goes to every service of the entry group, with a
 rollback when a call fails; the publisher believes in a publication only when the daemon has it.
 */
module AvahiPublisher {
  import opened Basics
  import opened TxtAdmission
  import opened AvahiDaemon
  import opened Publications

  datatype Status = Published(name: string) | Degraded | Withdrawn | Disabled

  datatype Publication = Publication(name: string, input: Input, records: seq<Record>)

  /** What an update is to publish: the records of an input, and the input as it is remembered. */
  datatype Plan = Plan(input: Input, records: seq<Record>)

  /**
   How an update of all TXT records ends: stale tells that some call found the group gone, clean that
   the rollback, if any, went through.
   */
  datatype UpdateResult = Updated | NotUpdated(stale: bool, clean: bool)

  const DEFAULT_RETRIES := 3

  /** Two groups that agree on everything except the given services. */
  ghost predicate AgreeExcept(s: Services, t: Services, keys: set<ServiceKey>) {
    s.Keys == t.Keys && forall key :: key in s && key !in keys ==> s[key] == t[key]
  }

  ghost function KeysOf(records: seq<Record>): set<ServiceKey> {
    set i | 0 <= i < |records| :: records[i].Key()
  }

  lemma KeysOfRest(records: seq<Record>, i: nat)
    requires i < |records|
    ensures KeysOf(records[i..]) == KeysOf(records[i + 1..]) + {records[i].Key()}
  {
    var a, b := records[i..], records[i + 1..];
    forall key
      ensures key in KeysOf(a) <==> key in KeysOf(b) || key == records[i].Key()
    {
      if key in KeysOf(a) {
        var j :| 0 <= j < |a| && a[j].Key() == key;
        if j > 0 {
          assert b[j - 1] == a[j];
        }
      }
      if key in KeysOf(b) {
        var j :| 0 <= j < |b| && b[j].Key() == key;
        assert a[j + 1] == b[j];
      }
      assert a[0] == records[i];
    }
  }

  lemma KeysOfMore(records: seq<Record>, r: Record)
    ensures KeysOf(records + [r]) == KeysOf(records) + {r.Key()}
  {
    var more := records + [r];
    forall key
      ensures key in KeysOf(more) <==> key in KeysOf(records) || key == r.Key()
    {
      if key in KeysOf(more) {
        var j :| 0 <= j < |more| && more[j].Key() == key;
        if j < |records| {
          assert records[j] == more[j];
        }
      }
      if key in KeysOf(records) {
        var j :| 0 <= j < |records| && records[j].Key() == key;
        assert more[j] == records[j];
      }
      assert more[|records|] == r;
    }
  }

  /** The services whose TXT an update may change. */
  ghost function CarriedKeys(records: seq<Record>): set<ServiceKey> {
    set i | 0 <= i < |records| && records[i].CarriesTxt() :: records[i].Key()
  }

  /** The right services, though perhaps with other TXT where it is carried. */
  ghost predicate Near(s: Services, records: seq<Record>) {
    AgreeExcept(s, ServicesOf(records), CarriedKeys(records))
  }

  lemma AgreeMore(s: Services, t: Services, u: Services, keys: set<ServiceKey>, key: ServiceKey, txt: Txt)
    requires AgreeExcept(s, t, keys)
    requires u == s || (key in s && u == s[key := txt])
    ensures AgreeExcept(u, t, keys + {key})
    ensures key in keys ==> AgreeExcept(u, t, keys)
    ensures key in t && u == s[key := t[key]] ==> AgreeExcept(u, t, keys - {key})
  {
  }

  lemma AgreeLess(s: Services, t: Services, keys: set<ServiceKey>, key: ServiceKey)
    requires AgreeExcept(s, t, keys + {key}) && key in s && s[key] == t[key]
    ensures AgreeExcept(s, t, keys)
  {
  }

  lemma AgreeOnAll(s: Services, t: Services)
    ensures AgreeExcept(s, t, {}) <==> s == t
    ensures s == t ==> forall keys :: AgreeExcept(s, t, keys)
  {
  }

  lemma NoKeys()
    ensures KeysOf([]) == {}
  {
  }

  /** The services after the first n records have been sent: the new TXT where it is carried. */
  ghost predicate Sent(s: Services, records: seq<Record>, n: nat)
    requires n <= |records|
  {
    forall i :: 0 <= i < n && records[i].CarriesTxt() ==> records[i].Key() in s && s[records[i].Key()] == records[i].txt
  }

  lemma SentOne(s: Services, t: Services, records: seq<Record>, n: nat)
    requires n < |records| && WellFormed(records) && Sent(s, records, n)
    requires records[n].CarriesTxt() ==> records[n].Key() in t && t[records[n].Key()] == records[n].txt
    requires t == s || (records[n].CarriesTxt() && records[n].Key() in s && t == s[records[n].Key() := records[n].txt])
    ensures Sent(t, records, n + 1)
  {
  }

  /** Sending every record of the same structure gives exactly the new services. */
  lemma SentAll(s: Services, current: seq<Record>, records: seq<Record>)
    requires WellFormed(current) && WellFormed(records) && SameStructure(current, records)
    requires Near(s, current) && Sent(s, records, |records|)
    ensures s == ServicesOf(records)
  {
    hide ServicesOf, WellFormed;
    var was, now := ServicesOf(current), ServicesOf(records);
    forall key
      ensures key in s <==> key in now
      ensures key in s && key in now ==> s[key] == now[key]
    {
      if key in s {
        var i := ServiceHasRecord(current, key);
        assert SameShape(current[i], records[i]);
        ServiceOfRecord(records, i);
        ServiceOfRecord(current, i);
        SentAt(s, current, records, i);
      }
      if key in now {
        var i := ServiceHasRecord(records, key);
        assert SameShape(current[i], records[i]);
        ServiceOfRecord(current, i);
      }
    }
    assert s == now;
  }

  lemma SentAt(s: Services, current: seq<Record>, records: seq<Record>, i: nat)
    requires WellFormed(current) && WellFormed(records) && SameStructure(current, records)
    requires Near(s, current) && Sent(s, records, |records|) && i < |records| && records[i].subtype == ""
    requires records[i].Key() in ServicesOf(current) && ServicesOf(current)[records[i].Key()] == current[i].txt
    ensures records[i].Key() in s && s[records[i].Key()] == records[i].txt
  {
    hide ServicesOf;
    assert SameShape(current[i], records[i]);
    if !records[i].CarriesTxt() {
      assert current[i].txt == records[i].txt;
      assert records[i].Key() !in CarriedKeys(current) by {
        forall j | 0 <= j < |current| && current[j].CarriesTxt()
          ensures current[j].Key() != current[i].Key()
        {
        }
      }
    }
  }

  class Publisher {
    const daemon: Daemon
    const off: bool
    const hostname: string
    const interface: string
    var group: Option<int>
    var current: Option<Publication>
    var closed: bool
    // Set while a rollback and the removal of its group have both failed.
    ghost var doubtful: bool

    constructor (daemon: Daemon, off: bool, hostname: string, interface: string)
      ensures Valid() && this.daemon == daemon && group.None? && current.None? && !closed && !doubtful
    {
      this.daemon, this.off, this.hostname, this.interface := daemon, off, hostname, interface;
      group, current, closed, doubtful := None, None, false, false;
    }

    /** What the daemon holds, if it still has the group: the current publication, unless in doubt. */
    ghost predicate InSync()
      reads this, daemon
    {
      group.Some? && current.Some? && group.value in daemon.groups ==>
        && Near(daemon.groups[group.value], current.value.records)
        && (!doubtful ==> daemon.groups[group.value] == ServicesOf(current.value.records))
    }

    ghost predicate Valid()
      reads this, daemon
    {
      && (group.Some? <==> current.Some?)
      && (current.Some? ==> WellFormed(current.value.records))
      && (closed ==> group.None?) && (doubtful ==> group.Some?)
      && (group.Some? ==> group.value < daemon.nextHandle)
      && InSync()
    }

    /** What the status Published promises. */
    ghost predicate Live(records: seq<Record>)
      reads this, daemon
    {
      && group.Some? && current.Some? && current.value.records == records
      && group.value in daemon.groups && daemon.groups[group.value] == ServicesOf(records)
    }

    method Forget()
      modifies this`group, this`current, this`doubtful
      ensures group.None? && current.None? && !doubtful
    {
      group, current, doubtful := None, None, false;
    }

    /** The record that the current publication has for the same service type. */
    method Previous(service: Service) returns (record: Option<Record>)
      requires current.Some?
      ensures record.Some? ==> record.value in current.value.records && record.value.subtype == "" && record.value.service == service
      ensures record.None? ==> forall r :: r in current.value.records && r.subtype == "" ==> r.service != service
    {
      record := None;
      var records := current.value.records;
      for i := 0 to |records|
        invariant record.Some? ==> record.value in records && record.value.subtype == "" && record.value.service == service
        invariant record.None? ==> forall j :: 0 <= j < i && records[j].subtype == "" ==> records[j].service != service
      {
        if records[i].subtype == "" && records[i].service == service {
          record := Some(records[i]);
        }
      }
    }

    /** Puts the current publication's TXT back for every service that was touched, until a call fails. */
    method RollbackTxt(touched: seq<Record>) returns (ok: bool, stale: bool)
      requires group.Some? && current.Some? && WellFormed(current.value.records)
      requires forall r :: r in touched ==> r.CarriesTxt() && HasShape(current.value.records, r)
      modifies daemon`groups, daemon`log
      ensures daemon.groups.Keys <= old(daemon.groups.Keys)
      ensures group.value in daemon.groups && Near(old(daemon.groups)[group.value], current.value.records)
              ==> Near(daemon.groups[group.value], current.value.records)
      ensures ok && group.value in daemon.groups
              && AgreeExcept(old(daemon.groups)[group.value], ServicesOf(current.value.records), KeysOf(touched))
              ==> daemon.groups[group.value] == ServicesOf(current.value.records)
      ensures Failures(daemon.log) == old(Failures(daemon.log)) + if ok then 0 else 1
      ensures Goodbyes(daemon.log) == old(Goodbyes(daemon.log)) + if stale then 1 else 0
      ensures stale ==> !ok && group.value !in daemon.groups
    {
      hide ServicesOf, WellFormed, KeysOf, CarriedKeys, AgreeExcept, Failures, Goodbyes;
      ghost var records := current.value.records;
      ghost var wanted := ServicesOf(records);
      assert touched[0..] == touched;
      for i := 0 to |touched|
        invariant daemon.groups.Keys <= old(daemon.groups.Keys)
        invariant group.value in daemon.groups && Near(old(daemon.groups)[group.value], records)
                  ==> Near(daemon.groups[group.value], records)
        invariant group.value in daemon.groups && AgreeExcept(old(daemon.groups)[group.value], wanted, KeysOf(touched))
                  ==> AgreeExcept(daemon.groups[group.value], wanted, KeysOf(touched[i..]))
        invariant Failures(daemon.log) == old(Failures(daemon.log)) && Goodbyes(daemon.log) == old(Goodbyes(daemon.log))
      {
        ghost var was, log := if group.value in daemon.groups then daemon.groups[group.value] else map[], daemon.log;
        var record := Previous(touched[i].service);
        if record.None? {
          NoPrevious(records, touched[i]);
          assert false;
        }
        var key := record.value.Key();
        PreviousIsWanted(records, touched[i], record.value);
        var outcome := daemon.UpdateServiceTxt(group.value, key, record.value.txt);
        Logged(log, UpdateTxt(group.value, key, record.value.txt, outcome));
        if group.value in daemon.groups && Near(was, records) {
          AgreeMore(was, wanted, daemon.groups[group.value], CarriedKeys(records), key, record.value.txt);
        }
        if !outcome.Ok? {
          return false, outcome.Stale?;
        }
        KeysOfRest(touched, i);
        if AgreeExcept(was, wanted, KeysOf(touched[i..])) {
          AgreeMore(was, wanted, daemon.groups[group.value], KeysOf(touched[i..]), key, record.value.txt);
          AgreeLess(daemon.groups[group.value], wanted, KeysOf(touched[i + 1..]), key);
        }
      }
      assert touched[|touched|..] == [];
      NoKeys();
      if group.value in daemon.groups {
        AgreeOnAll(daemon.groups[group.value], wanted);
      }
      return true, false;
    }

    /**
     Rolls back.  When a restoring call fails, the group is freed; it is given up if and only if that
     succeeds, and otherwise it is in doubt.
     */
    method Recover(touched: seq<Record>) returns (restored: bool, stale: bool)
      requires group.Some? && current.Some? && WellFormed(current.value.records) && !closed && group.value < daemon.nextHandle
      requires forall r :: r in touched ==> r.CarriesTxt() && HasShape(current.value.records, r)
      requires group.value in daemon.groups ==>
                 && Near(daemon.groups[group.value], current.value.records)
                 && (!doubtful ==> AgreeExcept(daemon.groups[group.value], ServicesOf(current.value.records), KeysOf(touched)))
      modifies this`group, this`current, this`doubtful, daemon`groups, daemon`log
      ensures daemon.groups.Keys <= old(daemon.groups.Keys)
      ensures Valid() && ((group == old(group) && current == old(current)) || group.None?)
      ensures restored ==> group.Some? && doubtful == old(doubtful) && Failures(daemon.log) == old(Failures(daemon.log))
      ensures !restored ==>
                && Failures(daemon.log) == old(Failures(daemon.log)) + 1
                && daemon.log != [] && daemon.log[|daemon.log| - 1].FreeGroup? && daemon.log[|daemon.log| - 1].handle == old(group).value
                && (group.None? <==> daemon.log[|daemon.log| - 1].outcome.Ok?) && (doubtful <==> group.Some?)
      ensures Goodbyes(daemon.log) >= old(Goodbyes(daemon.log))
      ensures stale || group.None? <==> Goodbyes(daemon.log) > old(Goodbyes(daemon.log))
      ensures stale || group.None? ==> old(group).value !in daemon.groups
    {
      hide ServicesOf, WellFormed, KeysOf, AgreeExcept, Near, Failures, Goodbyes;
      restored, stale := RollbackTxt(touched);
      if !restored {
        ghost var log := daemon.log;
        var freed := daemon.Free(group.value);
        Logged(log, FreeGroup(group.value, freed));
        stale := stale || freed.Stale?;
        if freed.Ok? {
          Forget();
        } else {
          doubtful := true;
        }
      }
    }

    /**
     While TXT is being sent, where the daemon still has the group: the first i records are in place,
     and besides the touched services everything is as the current publication shows it.
     */
    ghost predicate Sending(records: seq<Record>, i: nat, touched: seq<Record>)
      requires group.Some? && current.Some? && i <= |records|
      reads this, daemon
    {
      var shown := current.value.records;
      && (forall r :: r in touched ==> r.CarriesTxt() && HasShape(shown, r))
      && (group.value in daemon.groups ==>
            && Sent(daemon.groups[group.value], records, i) && Near(daemon.groups[group.value], shown)
            && (!doubtful ==> AgreeExcept(daemon.groups[group.value], ServicesOf(shown), KeysOf(touched))))
    }

    lemma SendingFirst(records: seq<Record>)
      requires Valid() && group.Some?
      ensures Sending(records, 0, [])
    {
      hide ServicesOf, WellFormed, KeysOf, Sent, AgreeExcept, CarriedKeys;
      SentNothing(records);
      NoKeys();
      if group.value in daemon.groups {
        AgreeOnAll(daemon.groups[group.value], ServicesOf(current.value.records));
      }
    }

    lemma SkipTxt(records: seq<Record>, i: nat, touched: seq<Record>)
      requires group.Some? && current.Some? && i < |records| && WellFormed(records) && !records[i].CarriesTxt()
      requires Sending(records, i, touched)
      ensures Sending(records, i + 1, touched)
    {
      hide ServicesOf, KeysOf, AgreeExcept, CarriedKeys, Near;
    }

    lemma SendingAll(records: seq<Record>, touched: seq<Record>)
      requires group.Some? && current.Some? && group.value in daemon.groups && Sending(records, |records|, touched)
      requires WellFormed(current.value.records) && WellFormed(records) && SameStructure(current.value.records, records)
      ensures daemon.groups[group.value] == ServicesOf(records)
    {
      hide ServicesOf, WellFormed, KeysOf, Sent, AgreeExcept, Near, SameStructure;
      SentAll(daemon.groups[group.value], current.value.records, records);
    }

    /** Sends the TXT of record i. */
    method SendTxt(record: Record, ghost records: seq<Record>, ghost i: nat, ghost touched: seq<Record>) returns (outcome: Outcome)
      requires group.Some? && current.Some? && WellFormed(records) && SameStructure(current.value.records, records)
      requires i < |records| && record == records[i] && record.CarriesTxt() && Sending(records, i, touched)
      modifies daemon`groups, daemon`log
      ensures daemon.log == old(daemon.log) + [UpdateTxt(group.value, record.Key(), record.txt, outcome)]
      ensures Failures(daemon.log) == old(Failures(daemon.log)) + if outcome.Ok? then 0 else 1
      ensures Goodbyes(daemon.log) == old(Goodbyes(daemon.log)) + if outcome.Stale? then 1 else 0
      ensures daemon.groups.Keys <= old(daemon.groups.Keys)
      ensures outcome.Ok? ==> group.value in daemon.groups && Sending(records, i + 1, touched + [record])
      ensures outcome.Stale? ==> group.value !in daemon.groups
      ensures forall r :: r in touched + [record] ==> r.CarriesTxt() && HasShape(current.value.records, r)
      ensures group.value in daemon.groups ==>
                && Near(daemon.groups[group.value], current.value.records)
                && (!doubtful ==> AgreeExcept(daemon.groups[group.value], ServicesOf(current.value.records), KeysOf(touched + [record])))
    {
      hide ServicesOf, WellFormed, KeysOf, Sent, AgreeExcept, CarriedKeys, Failures, Goodbyes, HasShape, SameStructure;
      ghost var shown, log := current.value.records, daemon.log;
      ghost var was := if group.value in daemon.groups then daemon.groups[group.value] else map[];
      ghost var before := ServicesOf(shown);
      ShapeAt(shown, records, i);
      outcome := daemon.UpdateServiceTxt(group.value, record.Key(), record.txt);
      Logged(log, UpdateTxt(group.value, record.Key(), record.txt, outcome));
      KeysOfMore(touched, record);
      if group.value in daemon.groups {
        AgreeMore(was, before, daemon.groups[group.value], CarriedKeys(shown), record.Key(), record.txt);
        if !doubtful {
          AgreeMore(was, before, daemon.groups[group.value], KeysOf(touched), record.Key(), record.txt);
        }
        if outcome.Ok? {
          SentOne(was, daemon.groups[group.value], records, i);
        }
      }
    }

    /**
     Sends the new TXT of every service.  After a clean failure, with at most one failed call, the
     daemon is back at the current publication; after a second one, in the rollback, the group was
     given up or is in doubt.
     */
    method UpdateGroupTxt(records: seq<Record>) returns (result: UpdateResult)
      requires Valid() && group.Some? && WellFormed(records) && SameStructure(current.value.records, records)
      requires records != [] && records[0].CarriesTxt()
      modifies this`group, this`current, this`doubtful, daemon`groups, daemon`log
      ensures daemon.groups.Keys <= old(daemon.groups.Keys)
      ensures result.Updated? ==>
                && group == old(group) && current == old(current) && !doubtful
                && group.value in daemon.groups && daemon.groups[group.value] == ServicesOf(records)
                && Failures(daemon.log) == old(Failures(daemon.log)) && Goodbyes(daemon.log) == old(Goodbyes(daemon.log))
      ensures result.NotUpdated? ==> Valid() && ((group == old(group) && current == old(current)) || group.None?)
      ensures result.NotUpdated? && result.clean ==>
                && group.Some? && doubtful == old(doubtful)
                && (daemon.log == old(daemon.log) || Failures(daemon.log) == old(Failures(daemon.log)) + 1)
      ensures result.NotUpdated? && !result.clean ==>
                && Failures(daemon.log) == old(Failures(daemon.log)) + 2
                && daemon.log != [] && daemon.log[|daemon.log| - 1].FreeGroup? && daemon.log[|daemon.log| - 1].handle == old(group).value
                && (group.None? <==> daemon.log[|daemon.log| - 1].outcome.Ok?) && (doubtful <==> group.Some?)
      ensures result.NotUpdated? ==> Goodbyes(daemon.log) >= old(Goodbyes(daemon.log))
      ensures result.NotUpdated? ==> (result.stale || group.None? <==> Goodbyes(daemon.log) > old(Goodbyes(daemon.log)))
      ensures result.NotUpdated? && (result.stale || group.None?) ==> old(group).value !in daemon.groups
    {
      hide ServicesOf, WellFormed, KeysOf, Near, Sent, Sending, AgreeExcept, CarriedKeys, Failures, Goodbyes, SameStructure, HasShape;
      ghost var shown := current.value.records;
      var interfaceKnown: bool := *;
      if !interfaceKnown {
        return NotUpdated(false, true);
      }
      var touched: seq<Record> := [];
      SendingFirst(records);
      for i := 0 to |records|
        invariant group == old(group) && current == old(current) && doubtful == old(doubtful)
        invariant daemon.groups.Keys <= old(daemon.groups.Keys)
        invariant Sending(records, i, touched)
        invariant i > 0 ==> group.value in daemon.groups
        invariant Failures(daemon.log) == old(Failures(daemon.log)) && Goodbyes(daemon.log) == old(Goodbyes(daemon.log))
      {
        var record := records[i];
        if record.CarriesTxt() {
          var outcome := SendTxt(record, records, i, touched);
          touched := touched + [record];
          if !outcome.Ok? {
            var restored, stale := Recover(touched);
            return NotUpdated(outcome.Stale? || stale, restored);
          }
        } else {
          SkipTxt(records, i, touched);
        }
      }
      SendingAll(records, touched);
      doubtful := false;
      return Updated;
    }

    /** Gives up the current group; what remains of it at the daemon does not matter any more. */
    method Drop() returns (outcome: Outcome)
      requires Valid() && group.Some?
      modifies this`group, this`current, this`doubtful, daemon`groups, daemon`log
      ensures Valid()
      ensures daemon.log == old(daemon.log) + [FreeGroup(old(group).value, outcome)]
      ensures outcome.Failed? ==> group == old(group) && current == old(current) && doubtful == old(doubtful)
      ensures !outcome.Failed? ==> group.None? && old(group).value !in daemon.groups
    {
      hide Near, ServicesOf, WellFormed;
      outcome := daemon.Free(group.value);
      if !outcome.Failed? {
        Forget();
      }
    }

    /**
     After a failed update: a group that is not established any more is freed.  It is given up if and
     only if an answer tells that it is gone; it is kept only if it is established, or freeing failed.
     */
    method CheckState()
      requires Valid() && group.Some?
      modifies this`group, this`current, this`doubtful, daemon`groups, daemon`log
      ensures Valid() && ((group == old(group) && current == old(current)) || group.None?)
      ensures doubtful <==> group.Some? && old(doubtful)
      ensures |daemon.log| > |old(daemon.log)| && daemon.log[|old(daemon.log)|].AskState? && daemon.log[|old(daemon.log)|].handle == old(group).value
      ensures |daemon.log| == |old(daemon.log)| + if daemon.log[|old(daemon.log)|].established then 1 else 2
      ensures group.Some? ==>
                || daemon.log[|daemon.log| - 1] == AskState(group.value, true, false)
                || daemon.log[|daemon.log| - 1] == FreeGroup(group.value, Failed)
      ensures Failures(daemon.log) == old(Failures(daemon.log)) && Goodbyes(daemon.log) >= old(Goodbyes(daemon.log))
      ensures group.None? <==> Goodbyes(daemon.log) > old(Goodbyes(daemon.log))
      ensures group.None? ==> old(group).value !in daemon.groups
    {
      hide Near, ServicesOf, WellFormed, Failures, Goodbyes;
      ghost var log := daemon.log;
      var established, stale := daemon.GetState(group.value);
      Logged(log, AskState(group.value, established, stale));
      if !established {
        log := daemon.log;
        var freed := daemon.Free(group.value);
        Logged(log, FreeGroup(group.value, freed));
        if !freed.Failed? || stale {
          Forget();
        }
      }
    }

    /**
     A new group under the first candidate name that the daemon does not refuse: the log shows a
     collision for each of the tried names before it.
     */
    method CreateNew(input: Input, records: seq<Record>) returns (status: Status, ghost tried: nat)
      requires Valid() && !closed && group.None? && WellFormed(records) && input.retries >= 0
      modifies this`group, this`current, this`doubtful, daemon
      ensures Valid() && (status.Published? || status.Degraded?)
      ensures tried <= Attempts(input.retries) == if input.retries == 0 then 3 else input.retries + 1
      ensures status.Published? ==>
                && tried < Attempts(input.retries) && status.name == AlternateName(input.name, tried)
                && Live(Renamed(records, status.name)) && current == Some(NamedPublication(Plan(input, records), status.name)) && !doubtful
                && group.value >= old(daemon.nextHandle)
                && daemon.log == old(daemon.log) + Collisions(input.name, records, tried)
                                 + [CreateGroup(ServicesOf(Renamed(records, status.name)), Created(group.value))]
      ensures status.Degraded? ==>
                && group.None?
                && daemon.log == old(daemon.log) + Collisions(input.name, records, tried)
                                 + if tried == Attempts(input.retries) then []
                                   else [CreateGroup(ServicesOf(Renamed(records, AlternateName(input.name, tried))), CreateFailed)]
      ensures Failures(daemon.log) == old(Failures(daemon.log)) && Goodbyes(daemon.log) == old(Goodbyes(daemon.log))
      ensures forall g :: g in daemon.groups && g !in old(daemon.groups) ==> g >= old(daemon.nextHandle)
    {
      hide Near, ServicesOf, WellFormed, Failures, Goodbyes;
      tried := 0;
      assert daemon.log + [] == daemon.log;
      for attempt := 0 to Attempts(input.retries)
        invariant Valid() && group.None? && tried == attempt && daemon.nextHandle >= old(daemon.nextHandle)
        invariant daemon.log == old(daemon.log) + Collisions(input.name, records, attempt)
        invariant Failures(daemon.log) == old(Failures(daemon.log)) && Goodbyes(daemon.log) == old(Goodbyes(daemon.log))
        invariant daemon.groups.Keys <= old(daemon.groups.Keys)
      {
        var candidate := AlternateName(input.name, attempt);
        var named := Renamed(records, candidate);
        ghost var log := daemon.log;
        var creation := daemon.Create(ServicesOf(named));
        Logged(log, CreateGroup(ServicesOf(named), creation));
        if creation.CreateFailed? {
          return Degraded, tried;
        }
        if creation.Created? {
          RenamedWellFormed(records, candidate);
          NearItself(named);
          group, doubtful := Some(creation.handle), false;
          current := Some(Publication(candidate, input.(name := candidate), named));
          assert current == Some(NamedPublication(Plan(input, records), candidate));
          return Published(candidate), tried;
        }
        tried := tried + 1;
        assert daemon.log == old(daemon.log) + Collisions(input.name, records, tried);
      }
      assert daemon.log + [] == daemon.log;
      return Degraded, tried;
    }

    /** Applies the fields that stay fixed while a publication lives. */
    method Pinned(input: Input) returns (pinned: Input)
      requires current.Some?
      ensures pinned == PinnedTo(input, current.value)
    {
      var shown := current.value.input;
      pinned := input.(name := current.value.name, hostname := shown.hostname, port := shown.port, ipps := shown.ipps,
                       interface := shown.interface, geo := shown.geo, geoOk := shown.geoOk);
    }

    /** Rebuilds the records for the pinned input, and gives up a group of another structure. */
    method Reshape(input: Input) returns (ready: bool, next: Input, records: seq<Record>)
      requires Valid() && current.Some?
      modifies this`group, this`current, this`doubtful, daemon`groups, daemon`log
      ensures Valid() && ((group == old(group) && current == old(current) && doubtful == old(doubtful)) || group.None?)
      ensures Failures(daemon.log) == old(Failures(daemon.log)) && Goodbyes(daemon.log) >= old(Goodbyes(daemon.log))
      ensures group.None? <==> Goodbyes(daemon.log) > old(Goodbyes(daemon.log))
      ensures group.None? ==> ready && old(group).value !in daemon.groups
      ensures ready ==>
                && next.txt == input.txt && next.retries == input.retries
                && RecordsFor(next.(profiles := input.profiles)) == Some(records)
                && WellFormed(records)
                && (group.Some? <==> SameStructure(old(current).value.records, records))
      ensures ready ==> Replanned(input, old(current).value) == Some(Plan(next, records))
    {
      hide Near, ServicesOf, WellFormed, RecordsFor, ProfilesOf, SameStructure, Failures, Goodbyes;
      next := Pinned(input);
      var built := BuildRecords(next);
      if built.None? {
        return false, next, [];
      }
      records := built.value;
      RecordsWellFormed(next);
      if !SameStructure(current.value.records, records) {
        ghost var handle, log := group.value, daemon.log;
        var outcome := Drop();
        Logged(log, FreeGroup(handle, outcome));
        if outcome.Failed? {
          return false, next, records;
        }
      }
      if input.profiles.Some? {
        ghost var pinned := next;
        next := next.(profiles := Some(ProfilesOf(records)));
        assert next.(profiles := input.profiles) == pinned;
      } else {
        assert next.(profiles := input.profiles) == next;
      }
      ready := true;
    }

    /**
     Replaces the TXT data of the current group.  After a failure the group is given up if and only if
     an answer told that it is gone; it is kept in doubt if and only if an update and its rollback
     failed, and no answer told that.
     */
    method Refresh(input: Input, records: seq<Record>) returns (status: Status)
      requires Valid() && group.Some? && WellFormed(records) && SameStructure(current.value.records, records)
      requires records != [] && records[0].CarriesTxt()
      modifies this`group, this`current, this`doubtful, daemon`groups, daemon`log
      ensures Valid() && (status.Published? || status.Degraded?)
      ensures status.Published? ==>
                group == old(group) && Live(records) && current == Some(Publication(input.name, input, records)) && status.name == input.name
      ensures status.Published? ==> !doubtful && Failures(daemon.log) == old(Failures(daemon.log)) && Goodbyes(daemon.log) == old(Goodbyes(daemon.log))
      ensures status.Degraded? ==> (group == old(group) && current == old(current)) || group.None?
      ensures Goodbyes(daemon.log) >= old(Goodbyes(daemon.log))
      ensures status.Degraded? ==> (group.None? <==> Goodbyes(daemon.log) > old(Goodbyes(daemon.log)))
      ensures status.Degraded? ==>
                (doubtful <==> group.Some? && (old(doubtful) || Failures(daemon.log) == old(Failures(daemon.log)) + 2))
      ensures status.Degraded? && group.None? ==> old(group).value !in daemon.groups
      ensures status.Degraded? && group.Some? ==>
                && daemon.log != []
                && (daemon.log[|daemon.log| - 1] == AskState(group.value, true, false) || daemon.log[|daemon.log| - 1] == FreeGroup(group.value, Failed))
    {
      hide Near, ServicesOf, WellFormed, Failures, Goodbyes;
      var result := UpdateGroupTxt(records);
      if result.Updated? {
        current := Some(Publication(input.name, input, records));
        NearItself(records);
        return Published(input.name);
      }
      if result.stale {
        Forget();
      } else if group.Some? {
        CheckState();
      }
      return Degraded;
    }

    /**
     Publishes the input, or changes what is published.  Whatever calls fail and whatever groups
     vanish: when the status is Published, the current publication is the one planned for this input,
     in the same group if the structure allows it and in a new one otherwise; the daemon holds exactly
     its services, with the TXT data admitted for the input, and not the group it may have replaced.
     Otherwise the publication is the old one, or, if and only if an answer told that its group is
     gone, there is none; and where the daemon still has the group, its services have their old TXT,
     unless an update and its rollback both failed.
     */
    method Update(input: Input, cancelled: bool) returns (status: Status)
      requires Valid()
      modifies this, daemon
      ensures Valid()
      ensures status.Published? ==>
                && current.Some? && Live(current.value.records) && current.value.name == status.name
                && CarriesAdmitted(current.value.records, input) && !doubtful
      ensures status.Published? ==>
                && !cancelled && !closed && !off && (input.profiles.Some? ==> input.profiles.value.ordinary)
                && Planned(WithDefaults(input), old(current)).Some?
                && Shows(current.value, Planned(WithDefaults(input), old(current)).value, old(current), daemon.log, group.value)
                && (group == old(group) <==> Reusable(Planned(WithDefaults(input), old(current)).value, old(current)))
      ensures cancelled || old(closed) || RecordsFor(WithDefaults(input)).None? ==>
                status.Degraded? && group == old(group) && current == old(current)
      ensures status.Withdrawn? ==> input.profiles.Some? && !input.profiles.value.ordinary
      ensures status.Disabled? ==> off
      ensures !status.Published? ==> (group == old(group) && current == old(current)) || group.None?
      ensures !status.Published? && old(group).Some? ==> (group.None? <==> Goodbyes(daemon.log) > old(Goodbyes(daemon.log)))
      ensures !status.Published? ==>
                (doubtful <==> group.Some? && (old(doubtful) || Failures(daemon.log) == old(Failures(daemon.log)) + 2))
      ensures !status.Published? && group.Some? && !doubtful && group.value in daemon.groups ==>
                daemon.groups[group.value] == ServicesOf(current.value.records)
      ensures old(group).Some? && group != old(group) ==> old(group).value !in daemon.groups
      ensures status.Withdrawn? || status.Disabled? ==> group.None? && (old(group).Some? ==> old(group).value !in daemon.groups)
    {
      hide Near, ServicesOf, WellFormed, RecordsFor, ProfilesOf, CarriesAdmitted, BasicallyValid, Failures, Goodbyes, Admitted,
           WantedTxt, SameStructure, Live, Shows, Reusable, Replanned;
      if cancelled {
        return Degraded;
      }
      var next := WithDefaults(input);
      var built := BuildRecords(next);
      if built.None? {
        return Degraded;
      }
      var records := built.value;
      RecordsWellFormed(next);
      FirstAdmission(next, input);
      if next.profiles.Some? && next.profiles.value.ordinary {
        next := next.(profiles := Some(ProfilesOf(records)));
      }
      if closed {
        return Degraded;
      }
      if next.profiles.Some? && !next.profiles.value.ordinary {
        status := Unpublish(Withdrawn);
        return;
      }
      if off {
        status := Unpublish(Disabled);
        return;
      }
      status := Replace(next, records, input);
    }

    /** The input with the publisher's own host name and interface where it names none. */
    function WithDefaults(input: Input): Input {
      input.(hostname := if input.hostname == "" then hostname else input.hostname,
             interface := if input.interface == "" then interface else input.interface)
    }

    /** Rebuilds the records for what stays fixed while a publication lives, and publishes them. */
    method Replace(wanted: Input, built: seq<Record>, ghost input: Input) returns (status: Status)
      requires Valid() && !closed && WellFormed(built) && CarriesAdmitted(built, input) && wanted.retries >= 0
      requires built != [] && built[0].CarriesTxt()
      requires wanted.txt == input.txt && (input.profiles.None? <==> wanted.profiles.None?)
      requires input.profiles.Some? ==>
                 && wanted.profiles.value.ordinary && Admitted(input.txt, input.profiles.value).Fit?
                 && wanted.profiles.value == Admitted(input.txt, input.profiles.value).profiles
      modifies this`group, this`current, this`doubtful, daemon
      ensures Valid() && (status.Published? || status.Degraded?)
      ensures status.Published? ==>
                && current.Some? && Live(current.value.records) && current.value.name == status.name
                && CarriesAdmitted(current.value.records, input) && !doubtful
      ensures status.Published? ==>
                var plan := if old(current).None? then Some(Plan(wanted, built)) else Replanned(wanted, old(current).value);
                plan.Some? && Shows(current.value, plan.value, old(current), daemon.log, group.value) && (group == old(group) <==> Reusable(plan.value, old(current)))
      ensures status.Degraded? ==> (group == old(group) && current == old(current)) || group.None?
      ensures status.Degraded? && old(group).Some? ==> (group.None? <==> Goodbyes(daemon.log) > old(Goodbyes(daemon.log)))
      ensures status.Degraded? ==>
                (doubtful <==> group.Some? && (old(doubtful) || Failures(daemon.log) == old(Failures(daemon.log)) + 2))
      ensures old(group).Some? && group != old(group) ==> old(group).value !in daemon.groups
    {
      hide Near, ServicesOf, WellFormed, RecordsFor, ProfilesOf, CarriesAdmitted, Failures, Goodbyes, Admitted, WantedTxt,
           SameStructure, Live, InSync, Replanned, FirstFree;
      var next, records := wanted, built;
      if current.Some? {
        var ready: bool;
        ready, next, records := Reshape(wanted);
        if !ready {
          return Degraded;
        }
        SecondAdmission(wanted, next, records, input);
      }
      var connected: bool := *;
      if !connected {
        return Degraded;
      }
      status := Install(next, records, input);
    }

    /** Changes the TXT of the group, or creates one. */
    method Install(next: Input, records: seq<Record>, ghost input: Input) returns (status: Status)
      requires Valid() && !closed && WellFormed(records) && next.retries >= 0 && CarriesAdmitted(records, input)
      requires records != [] && records[0].CarriesTxt()
      requires group.Some? ==> SameStructure(current.value.records, records)
      modifies this`group, this`current, this`doubtful, daemon
      ensures Valid() && (status.Published? || status.Degraded?)
      ensures status.Published? ==>
                && current.Some? && Live(current.value.records) && current.value.name == status.name
                && CarriesAdmitted(current.value.records, input) && !doubtful
                && (if old(group).Some? then group == old(group) && current == Some(Publication(next.name, next, records))
                    else group.value >= old(daemon.nextHandle) && FirstFree(current.value, Plan(next, records), daemon.log, group.value))
      ensures status.Degraded? ==> (group == old(group) && current == old(current)) || group.None?
      ensures status.Degraded? && old(group).Some? ==> (group.None? <==> Goodbyes(daemon.log) > old(Goodbyes(daemon.log)))
      ensures Goodbyes(daemon.log) >= old(Goodbyes(daemon.log))
      ensures old(group).None? ==> Goodbyes(daemon.log) == old(Goodbyes(daemon.log))
      ensures status.Degraded? ==>
                (doubtful <==> group.Some? && (old(doubtful) || Failures(daemon.log) == old(Failures(daemon.log)) + 2))
      ensures status.Degraded? && old(group).Some? && group.None? ==> old(group).value !in daemon.groups
      ensures old(group).None? ==> forall g :: g in daemon.groups && g !in old(daemon.groups) ==> g >= old(daemon.nextHandle)
    {
      hide Near, ServicesOf, WellFormed, CarriesAdmitted, Failures, Goodbyes, SameStructure, Collisions, Renamed;
      if group.Some? {
        status := Refresh(next, records);
      } else {
        ghost var tried;
        status, tried := CreateNew(next, records);
        if status.Published? {
          LogEnds(old(daemon.log), next.name, records, tried, CreateGroup(ServicesOf(current.value.records), Created(group.value)));
          assert FreeAt(current.value, Plan(next, records), daemon.log, group.value, tried);
          RenamedCarries(records, status.name, input);
        }
      }
    }

    /** The ends that leave nothing published; a group that is gone already counts as removed. */
    method Unpublish(done: Status) returns (status: Status)
      requires Valid() && !done.Published?
      modifies this`group, this`current, this`doubtful, daemon`groups, daemon`log
      ensures Valid() && (status == done || status.Degraded?)
      ensures status == done && !done.Degraded? ==> group.None? && (old(group).Some? ==> old(group).value !in daemon.groups)
      ensures status != done ==> group == old(group) && current == old(current) && doubtful == old(doubtful)
      ensures status != done ==> group.Some? && daemon.log == old(daemon.log) + [FreeGroup(group.value, Failed)]
      ensures !done.Degraded? && old(group).Some? ==> (group.None? <==> Goodbyes(daemon.log) > old(Goodbyes(daemon.log)))
      ensures Failures(daemon.log) == old(Failures(daemon.log))
    {
      hide Near, ServicesOf, WellFormed, Failures, Goodbyes;
      if group.Some? {
        ghost var handle, log := group.value, daemon.log;
        var outcome := Drop();
        Logged(log, FreeGroup(handle, outcome));
        if outcome.Failed? {
          return Degraded;
        }
      }
      Forget();
      return done;
    }

    /** Withdrawal: afterwards the daemon does not have the group any more, or the publication is kept. */
    method Withdraw(cancelled: bool) returns (status: Status)
      requires Valid()
      modifies this`group, this`current, this`doubtful, daemon`groups, daemon`log
      ensures Valid() && (status.Withdrawn? || status.Degraded?)
      ensures status.Withdrawn? ==> group.None? && (old(group).Some? ==> old(group).value !in daemon.groups)
      ensures status.Degraded? ==> group == old(group) && current == old(current)
      ensures status.Degraded? ==> cancelled || (group.Some? && daemon.log == old(daemon.log) + [FreeGroup(group.value, Failed)])
    {
      if cancelled {
        return Degraded;
      }
      status := Unpublish(Withdrawn);
    }

    /** Closing succeeds only when the daemon does not have the group any more; it may be repeated. */
    method Close() returns (ok: bool)
      requires Valid()
      modifies this, daemon
      ensures Valid() && (ok <==> closed)
      ensures ok ==> group.None? && (old(group).Some? ==> old(group).value !in daemon.groups)
      ensures !ok ==> group == old(group) && current == old(current)
      ensures !ok ==> group.Some? && daemon.log == old(daemon.log) + [FreeGroup(group.value, Failed)]
    {
      hide Near, ServicesOf, WellFormed;
      if closed {
        return true;
      }
      if group.Some? {
        var outcome := Drop();
        if outcome.Failed? {
          return false;
        }
      }
      Forget();
      closed := true;
      return true;
    }
  }

  function Digits(n: nat): string {
    var d := [(n % 10 + 48) as char];
    if n < 10 then d else Digits(n / 10) + d
  }

  /** The name itself first, then "name (2)", "name (3)" and so on. */
  function AlternateName(name: string, attempt: nat): string {
    if attempt == 0 then name else name + " (" + Digits(attempt + 1) + ")"
  }

  function Attempts(retries: nat): nat {
    if retries == 0 then DEFAULT_RETRIES else retries + 1
  }

  /** The log of n candidate names that all collide. */
  function Collisions(name: string, records: seq<Record>, n: nat): (log: seq<Call>)
    ensures |log| == n
  {
    if n == 0 then []
    else Collisions(name, records, n - 1) + [CreateGroup(ServicesOf(Renamed(records, AlternateName(name, n - 1))), Collision)]
  }

  /** The fields that stay fixed while a publication lives. */
  function PinnedTo(input: Input, shown: Publication): Input {
    input.(name := shown.name, hostname := shown.input.hostname, port := shown.input.port, ipps := shown.input.ipps,
           interface := shown.input.interface, geo := shown.input.geo, geoOk := shown.input.geoOk)
  }

  /** A first plan: the input's own records, and the profiles that admission left. */
  ghost function FirstPlan(input: Input): Option<Plan> {
    var built := RecordsFor(input);
    if built.None? then None
    else if input.profiles.Some? && input.profiles.value.ordinary then
      Some(Plan(input.(profiles := Some(ProfilesOf(built.value))), built.value))
    else Some(Plan(input, built.value))
  }

  /** The plan while a publication lives: the records for the pinned input. */
  ghost function Replanned(wanted: Input, shown: Publication): Option<Plan> {
    var pinned := PinnedTo(wanted, shown);
    var built := RecordsFor(pinned);
    if built.None? then None
    else if wanted.profiles.Some? then Some(Plan(pinned.(profiles := Some(ProfilesOf(built.value))), built.value))
    else Some(Plan(pinned, built.value))
  }

  ghost function Planned(input: Input, shown: Option<Publication>): Option<Plan> {
    var first := FirstPlan(input);
    if first.None? || shown.None? then first else Replanned(first.value.input, shown.value)
  }

  /** A plan under a name of its own. */
  function NamedPublication(plan: Plan, name: string): Publication {
    Publication(name, plan.input.(name := name), Renamed(plan.records, name))
  }

  /** The plan under candidate name n: the log ends with the collisions of the names before it and with the new group. */
  ghost predicate FreeAt(now: Publication, plan: Plan, log: seq<Call>, handle: int, n: nat) {
    && 0 <= plan.input.retries && n < Attempts(plan.input.retries)
    && now == NamedPublication(plan, AlternateName(plan.input.name, n))
    && n < |log| && log[|log| - n - 1..] == Collisions(plan.input.name, plan.records, n) + [CreateGroup(ServicesOf(now.records), Created(handle))]
  }

  /** The plan under the first candidate name that does not collide. */
  ghost predicate FirstFree(now: Publication, plan: Plan, log: seq<Call>, handle: int) {
    exists n: nat :: FreeAt(now, plan, log, handle, n)
  }

  /** Only TXT data changes, so the group can stay. */
  predicate Reusable(plan: Plan, was: Option<Publication>) {
    was.Some? && SameStructure(was.value.records, plan.records)
  }

  /** The plan as it is, when the group can stay, or else under its first free name; never empty. */
  ghost predicate Shows(now: Publication, plan: Plan, was: Option<Publication>, log: seq<Call>, handle: int) {
    && plan.records != [] && plan.records[0].CarriesTxt()
    && if Reusable(plan, was) then now == Publication(plan.input.name, plan.input, plan.records) else FirstFree(now, plan, log, handle)
  }

  // What a plan holds, from the input alone.

  /** The input at the place where a publication lives: name, host, port, interface and location are its own. */
  function Moved(input: Input, shown: Option<Publication>): Input {
    if shown.None? then input
    else Input(shown.value.name, shown.value.input.hostname, shown.value.input.port, shown.value.input.ipps, shown.value.input.interface,
               input.txt, shown.value.input.geo, shown.value.input.geoOk, input.profiles, input.retries)
  }

  /**
   A plan holds the records of the input's own place, or of the place where the publication lives, with
   the TXT data and profiles of the first admission or, while a publication lives, of the second one.
   */
  lemma PlannedExactly(input: Input, shown: Option<Publication>)
    requires Planned(input, shown).Some? && (input.profiles.Some? ==> input.profiles.value.ordinary)
    ensures var plan, place := Planned(input, shown).value, Moved(input, shown);
            if input.profiles.None? then plan.input == place && Describes(plan.records, place, input.txt, PLAIN)
            else
              var first := Admitted(input.txt, input.profiles.value);
              && first.Fit?
              && var r := if shown.None? then first else Admitted(input.txt, first.profiles);
                 r.Fit? && plan.input == place.(profiles := Some(r.profiles)) && Describes(plan.records, place, r.txt, r.profiles)
  {
    hide RecordsFor, Admitted, Describes, ProfilesOf;
    RecordsExactly(input);
    if input.profiles.None? {
      if shown.Some? {
        RecordsExactly(PinnedTo(input, shown.value));
      }
    } else {
      var first := Admitted(input.txt, input.profiles.value);
      AdmittedOrdinary(input.txt, input.profiles.value);
      PublishedProfiles(input);
      if shown.Some? {
        var left := input.(profiles := Some(first.profiles));
        var pinned := PinnedTo(left, shown.value);
        RecordsExactly(pinned);
        PublishedProfiles(pinned);
        DescribesAlike(RecordsFor(pinned).value, pinned, Moved(input, shown), Admitted(input.txt, first.profiles));
      }
    }
  }

  lemma DescribesAlike(records: seq<Record>, input: Input, other: Input, r: Fit)
    requires r.Fit? && Describes(records, input, r.txt, r.profiles) && input.profiles.Some? && other.profiles.Some?
    requires other == input.(profiles := other.profiles)
    ensures Describes(records, other, r.txt, r.profiles)
  {
    hide Registered, OnceEach;
    forall service, subtype
      ensures Registered(records, service, subtype) <==> Listed(other, r.profiles, service, subtype)
    {
      assert Registered(records, service, subtype) <==> Listed(input, r.profiles, service, subtype);
    }
  }

  lemma PublishedProfiles(input: Input)
    requires input.profiles.Some? && input.profiles.value.ordinary && RecordsFor(input).Some?
    ensures var r := Admitted(input.txt, input.profiles.value);
            r.Fit? && ProfilesOf(RecordsFor(input).value) == r.profiles
  {
    hide Admitted, BasicallyValid, ProfileRecords, ProfilesOf;
    var r := Admitted(input.txt, input.profiles.value);
    AdmittedOrdinary(input.txt, input.profiles.value);
    ProfilesOfRecords(input, r.txt, r.profiles);
  }

  /** What is shown are the planned records under the name that was found. */
  lemma ShownExactly(now: Publication, plan: Plan, was: Option<Publication>, log: seq<Call>, handle: int, place: Input, txt: Txt, left: Profiles)
    requires Shows(now, plan, was, log, handle) && Describes(plan.records, place, txt, left) && plan.input == place.(profiles := plan.input.profiles)
    ensures now.input == plan.input.(name := now.name) && Describes(now.records, place.(name := now.name), txt, left)
  {
    hide Collisions, ServicesOf, Listed;
    if Reusable(plan, was) {
      assert place.(name := now.name) == place;
    } else {
      RenamedDescribes(plan.records, now.name, place, txt, left);
    }
  }

  /**
   What an update publishes first: every listed service once, under the name that was found, on the
   input's host and port, and on the publisher's own host if the input names none.
   */
  lemma FirstPublished(publisher: Publisher, input: Input, now: Publication, log: seq<Call>, handle: int)
    requires Planned(publisher.WithDefaults(input), None).Some? && (input.profiles.Some? ==> input.profiles.value.ordinary)
    requires Shows(now, Planned(publisher.WithDefaults(input), None).value, None, log, handle)
    ensures var host := if input.hostname == "" then publisher.hostname else input.hostname;
            var interface := if input.interface == "" then publisher.interface else input.interface;
            var place := Input(now.name, host, input.port, input.ipps, interface, input.txt, input.geo, input.geoOk, input.profiles, input.retries);
            if input.profiles.None? then now.input == place && Describes(now.records, place, input.txt, PLAIN)
            else
              var r := Admitted(input.txt, input.profiles.value);
              r.Fit? && now.input == place.(profiles := Some(r.profiles)) && Describes(now.records, place, r.txt, r.profiles)
  {
    hide Planned, Admitted, Describes, Shows;
    var given := publisher.WithDefaults(input);
    var plan := Planned(given, None).value;
    PlannedExactly(given, None);
    if input.profiles.None? {
      ShownExactly(now, plan, None, log, handle, given, input.txt, PLAIN);
    } else {
      var r := Admitted(input.txt, input.profiles.value);
      ShownExactly(now, plan, None, log, handle, given, r.txt, r.profiles);
    }
  }

  lemma RenamedDescribes(records: seq<Record>, name: string, place: Input, txt: Txt, left: Profiles)
    requires Describes(records, place, txt, left)
    ensures Describes(Renamed(records, name), place.(name := name), txt, left)
  {
    hide OnceEach, Listed;
    var named, moved := Renamed(records, name), place.(name := name);
    forall service, subtype
      ensures Registered(named, service, subtype) <==> Listed(moved, left, service, subtype)
    {
      assert Registered(records, service, subtype) <==> Listed(place, left, service, subtype);
      ListedAlike(place, moved, left, service, subtype);
      if i :| 0 <= i < |records| && records[i].service == service && records[i].subtype == subtype {
        assert named[i] == Named(records[i], name);
      }
    }
    RenamedOnce(records, name);
  }

  lemma ListedAlike(input: Input, other: Input, left: Profiles, service: Service, subtype: string)
    requires input.profiles == other.profiles && input.ipps == other.ipps
    ensures Listed(input, left, service, subtype) <==> Listed(other, left, service, subtype)
  {
  }

  lemma RenamedOnce(records: seq<Record>, name: string)
    requires OnceEach(records)
    ensures OnceEach(Renamed(records, name))
  {
  }

  /** The number that a string of digits stands for. */
  function Decimal(digits: string): int {
    if digits == "" then 0 else 10 * Decimal(digits[..|digits| - 1]) + (digits[|digits| - 1] as int - '0' as int)
  }

  lemma {:induction false} DigitsRead(n: nat)
    ensures Decimal(Digits(n)) == n && Digits(n) != ""
    ensures forall i :: 0 <= i < |Digits(n)| ==> '0' <= Digits(n)[i] <= '9'
    ensures n > 0 ==> Digits(n)[0] != '0'
  {
    var d := Digits(n);
    if n < 10 {
      assert d[..0] == "";
    } else {
      DigitsRead(n / 10);
      assert d[..|d| - 1] == Digits(n / 10);
    }
  }

  /** The later candidates count in decimal, from 2 on, and all differ. */
  lemma CandidateNames(name: string, n: nat)
    ensures AlternateName(name, 0) == name
    ensures n > 0 ==>
              exists digits: string :: AlternateName(name, n) == name + " (" + digits + ")" && Decimal(digits) == n + 1
                && digits != "" && digits[0] != '0' && forall i :: 0 <= i < |digits| ==> '0' <= digits[i] <= '9'
    ensures forall m: nat :: m != n ==> AlternateName(name, m) != AlternateName(name, n)
  {
    DigitsRead(n + 1);
    forall m: nat | m != n
      ensures AlternateName(name, m) != AlternateName(name, n)
    {
      DigitsRead(m + 1);
      NamesDiffer(name, m, n);
    }
  }

  lemma NamesDiffer(name: string, m: nat, n: nat)
    requires m != n && Decimal(Digits(m + 1)) == m + 1 && Decimal(Digits(n + 1)) == n + 1
    ensures AlternateName(name, m) != AlternateName(name, n)
  {
    hide Digits, Decimal;
    SameNumber(name, Digits(m + 1), Digits(n + 1));
  }

  lemma SameNumber(name: string, d: string, e: string)
    ensures name + " (" + d + ")" == name + " (" + e + ")" ==> d == e
  {
    var a, b := name + " (" + d + ")", name + " (" + e + ")";
    if a == b {
      assert |d| == |e|;
      assert a[|name| + 2..|a| - 1] == d && b[|name| + 2..|b| - 1] == e;
    }
  }

  lemma LogEnds(before: seq<Call>, name: string, records: seq<Record>, n: nat, call: Call)
    ensures var log := before + Collisions(name, records, n) + [call];
            n < |log| && log[|log| - n - 1..] == Collisions(name, records, n) + [call]
  {
    hide Collisions;
  }

  lemma NearItself(records: seq<Record>)
    ensures Near(ServicesOf(records), records)
  {
    AgreeOnAll(ServicesOf(records), ServicesOf(records));
  }

  /**
   The TXT data that an input may get: its own without profiles, otherwise what admission gives
   for the requested profiles or, while a publication lives, for the profiles that were left.
   */
  ghost predicate WantedTxt(txt: Txt, input: Input) {
    if input.profiles.None? then txt == input.txt
    else
      var first := Admitted(input.txt, input.profiles.value);
      first.Fit? && (txt == first.txt || (var again := Admitted(input.txt, first.profiles); again.Fit? && txt == again.txt))
  }

  ghost predicate CarriesAdmitted(records: seq<Record>, input: Input) {
    forall i :: 0 <= i < |records| && records[i].CarriesTxt() ==> WantedTxt(records[i].txt, input)
  }

  /** Records for an input carry the TXT data admitted for it. */
  lemma FirstAdmission(next: Input, input: Input)
    requires next.txt == input.txt && next.profiles == input.profiles
    requires RecordsFor(next).Some?
    ensures CarriesAdmitted(RecordsFor(next).value, input)
    ensures next.retries >= 0
    ensures input.profiles.None? || input.profiles.value.ordinary ==>
              RecordsFor(next).value != [] && RecordsFor(next).value[0].CarriesTxt()
    ensures input.profiles.Some? && input.profiles.value.ordinary ==>
              && Admitted(input.txt, input.profiles.value).Fit?
              && Admitted(input.txt, input.profiles.value).profiles.ordinary
              && ProfilesOf(RecordsFor(next).value) == Admitted(input.txt, input.profiles.value).profiles
  {
    assert next.retries >= 0;
    hide Admitted, BasicallyValid, Fits, WantedTxt, ProfileRecords, LegacyRecords, ProfilesOf, CarriesAdmitted;
    LegacyIsWanted(input);
    if input.profiles.None? {
      LegacyCarries(next, input);
    } else if input.profiles.value.ordinary {
      AdmittedOrdinary(input.txt, input.profiles.value);
      var r := Admitted(input.txt, input.profiles.value);
      ProfilesOfRecords(next, r.txt, r.profiles);
      ProfilesCarry(next, r.txt, r.profiles, input);
    } else {
      NoneCarry(input);
    }
  }

  lemma LegacyCarries(next: Input, input: Input)
    requires next.txt == input.txt && WantedTxt(input.txt, input)
    ensures CarriesAdmitted(LegacyRecords(next), input)
    ensures LegacyRecords(next) != [] && LegacyRecords(next)[0].CarriesTxt()
  {
    hide WantedTxt;
  }

  lemma ProfilesCarry(next: Input, txt: Txt, p: Profiles, input: Input)
    requires WantedTxt(txt, input)
    ensures CarriesAdmitted(ProfileRecords(next, txt, p), input)
    ensures ProfileRecords(next, txt, p) != [] && ProfileRecords(next, txt, p)[0].CarriesTxt()
  {
    hide WantedTxt, Subtypes;
  }

  lemma NoneCarry(input: Input)
    ensures CarriesAdmitted([], input)
  {
  }

  lemma LegacyIsWanted(input: Input)
    ensures input.profiles.None? ==> WantedTxt(input.txt, input)
    ensures input.profiles.Some? && Admitted(input.txt, input.profiles.value).Fit? ==>
              WantedTxt(Admitted(input.txt, input.profiles.value).txt, input)
  {
    hide Admitted;
  }

  lemma AdmittedOrdinary(txt: Txt, p: Profiles)
    ensures Admitted(txt, p).Fit? ==> Admitted(txt, p).profiles.ordinary == p.ordinary
  {
    hide Fits, Essential, Fitted;
    ProfilesForReady(Base(txt, p), p);
    FittedExactly(Base(txt, p), ProfilesFor(Base(txt, p), p));
  }

  lemma SecondAdmission(reduced: Input, next: Input, records: seq<Record>, input: Input)
    requires reduced.txt == next.txt == input.txt && RecordsFor(next.(profiles := reduced.profiles)) == Some(records)
    requires input.profiles.None? <==> reduced.profiles.None?
    requires input.profiles.Some? ==>
               && reduced.profiles.value.ordinary && Admitted(input.txt, input.profiles.value).Fit?
               && reduced.profiles.value == Admitted(input.txt, input.profiles.value).profiles
    ensures CarriesAdmitted(records, input)
    ensures records != [] && records[0].CarriesTxt()
  {
    hide Admitted, BasicallyValid, Fits;
  }

  lemma RenamedCarries(records: seq<Record>, name: string, input: Input)
    requires CarriesAdmitted(records, input)
    ensures CarriesAdmitted(Renamed(records, name), input)
  {
    hide WantedTxt;
  }

  /** Some record of the list differs from r at most in its TXT. */
  predicate HasShape(records: seq<Record>, r: Record) {
    exists i :: 0 <= i < |records| && SameShape(records[i], r)
  }

  // ---- a group that is kept though only part of it was restored ----

  /** The groups before and after every call of a log. */
  predicate Plays(states: seq<Groups>, log: seq<Call>) {
    |states| == |log| + 1 && forall i :: 0 <= i < |log| ==> Effect(states[i], log[i], states[i + 1])
  }

  function TwoServices(name: string, txt: Txt): seq<Record> {
    [Record(name, (name, 631), Ipp, "", txt, ""), Record(name, (name, 631), Ipps, "", txt, "")]
  }

  /** An update of two services that fails at the second one, as does its rollback and the removal of the group. */
  function PartialUpdate(name: string, was: Txt, now: Txt): seq<Call> {
    [UpdateTxt(1, ServiceKey(name, Ipp), now, Ok), UpdateTxt(1, ServiceKey(name, Ipps), now, Failed),
     UpdateTxt(1, ServiceKey(name, Ipp), was, Failed), FreeGroup(1, Failed), AskState(1, true, false)]
  }

  /**
   The daemon can answer like that, and no answer tells that the group is gone, so the publisher keeps
   it: then the daemon has neither the old services nor the new ones.
   */
  lemma PartialGroupCanStay(name: string, was: Txt, now: Txt) returns (states: seq<Groups>)
    requires was != now
    ensures WellFormed(TwoServices(name, was)) && WellFormed(TwoServices(name, now))
    ensures SameStructure(TwoServices(name, was), TwoServices(name, now))
    ensures Plays(states, PartialUpdate(name, was, now)) && states[0] == map[1 := ServicesOf(TwoServices(name, was))]
    ensures Failures(PartialUpdate(name, was, now)) == 2 && Goodbyes(PartialUpdate(name, was, now)) == 0
    ensures 1 in states[5] && states[5][1] != ServicesOf(TwoServices(name, was)) && states[5][1] != ServicesOf(TwoServices(name, now))
  {
    var ipp, ipps := ServiceKey(name, Ipp), ServiceKey(name, Ipps);
    TwoServicesOf(name, was);
    TwoServicesOf(name, now);
    var before: Groups := map[1 := map[ipp := was, ipps := was]];
    var after: Groups := map[1 := map[ipp := now, ipps := was]];
    states := [before, after, after, after, after, after];
    CountPartial(name, was, now);
    hide ServicesOf, Failures, Goodbyes;
    assert before[1][ipp := now] == after[1];
    assert after[1][ipps] == was && after[1][ipp] == now;
  }

  lemma TwoServicesOf(name: string, txt: Txt)
    ensures ServicesOf(TwoServices(name, txt)) == map[ServiceKey(name, Ipp) := txt, ServiceKey(name, Ipps) := txt]
  {
    var records := TwoServices(name, txt);
    assert records[..1] == [records[0]];
    assert [records[0]][..0] == [];
    assert ServicesOf([records[0]]) == map[ServiceKey(name, Ipp) := txt];
  }

  lemma CountPartial(name: string, was: Txt, now: Txt)
    ensures Failures(PartialUpdate(name, was, now)) == 2 && Goodbyes(PartialUpdate(name, was, now)) == 0
  {
    var log := PartialUpdate(name, was, now);
    hide Failures, Goodbyes;
    assert log[..0] == [];
    NothingLogged();
    for n := 0 to |log|
      invariant Failures(log[..n]) == (if n < 2 then 0 else if n == 2 then 1 else 2) && Goodbyes(log[..n]) == 0
    {
      Logged(log[..n], log[n]);
      assert log[..n + 1] == log[..n] + [log[n]];
    }
    assert log[..|log|] == log;
  }

  lemma NothingLogged()
    ensures Failures([]) == 0 && Goodbyes([]) == 0
  {
  }

  lemma NoPrevious(records: seq<Record>, r: Record)
    requires r.CarriesTxt() && HasShape(records, r)
    ensures exists found :: found in records && found.subtype == "" && found.service == r.service
  {
    var i :| 0 <= i < |records| && SameShape(records[i], r);
    assert records[i] in records;
  }

  lemma SentNothing(records: seq<Record>)
    ensures forall s :: Sent(s, records, 0)
  {
  }

  lemma ShapeAt(shown: seq<Record>, records: seq<Record>, i: nat)
    requires SameStructure(shown, records) && i < |records|
    ensures HasShape(shown, records[i])
    ensures records[i].CarriesTxt() ==> records[i].Key() in CarriedKeys(shown)
  {
    assert SameShape(shown[i], records[i]);
  }

  /** The previous record of a touched service is the one that the current publication shows. */
  lemma PreviousIsWanted(records: seq<Record>, r: Record, found: Record)
    requires WellFormed(records) && r.CarriesTxt() && HasShape(records, r)
    requires found in records && found.subtype == "" && found.service == r.service
    ensures found.Key() == r.Key() && found.Key() in CarriedKeys(records)
    ensures found.Key() in ServicesOf(records) && ServicesOf(records)[found.Key()] == found.txt
  {
    hide ServicesOf;
    var i :| 0 <= i < |records| && records[i] == found;
    ServiceOfRecord(records, i);
  }
}
