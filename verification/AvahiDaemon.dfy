/**
 The service daemon as a publisher sees it: entry groups that may vanish at any moment, and calls
 that succeed, fail without effect, or fail after taking effect.  It keeps a log of its answers.
 */
module AvahiDaemon {
  import opened TxtAdmission

  datatype Service = Ipp | Ipps | Printer

  /** A registered service instance. */
  datatype ServiceKey = ServiceKey(name: string, service: Service)

  type Services = map<ServiceKey, Txt>

  type Groups = map<int, Services>

  /** Stale tells that the daemon no longer knows the group. */
  datatype Outcome = Ok | Failed | Stale

  datatype Creation = Created(handle: int) | Collision | CreateFailed

  /** A call with its answer. */
  datatype Call =
    | UpdateTxt(handle: int, key: ServiceKey, txt: Txt, outcome: Outcome)
    | FreeGroup(handle: int, outcome: Outcome)
    | AskState(handle: int, established: bool, stale: bool)
    | CreateGroup(services: Services, creation: Creation)
  {
    /** The answer tells that the group is not there, or not there any more. */
    predicate TellsGone() {
      match this
      case UpdateTxt(_, _, _, outcome) => outcome.Stale?
      case FreeGroup(_, outcome) => !outcome.Failed?
      case AskState(_, _, stale) => stale
      case CreateGroup(_, _) => false
    }

    predicate FailedUpdate() {
      UpdateTxt? && !outcome.Ok?
    }
  }

  /** How many TXT updates have failed. */
  function Failures(log: seq<Call>): nat {
    if log == [] then 0
    else Failures(log[..|log| - 1]) + if log[|log| - 1].FailedUpdate() then 1 else 0
  }

  /** How many answers told that a group is gone. */
  function Goodbyes(log: seq<Call>): nat {
    if log == [] then 0
    else Goodbyes(log[..|log| - 1]) + if log[|log| - 1].TellsGone() then 1 else 0
  }

  lemma Logged(log: seq<Call>, call: Call)
    ensures Failures(log + [call]) == Failures(log) + if call.FailedUpdate() then 1 else 0
    ensures Goodbyes(log + [call]) == Goodbyes(log) + if call.TellsGone() then 1 else 0
  {
    assert (log + [call])[..|log|] == log;
  }

  /** Groups may get lost, and no group changes by itself. */
  predicate Lost(was: Groups, now: Groups) {
    now.Keys <= was.Keys && forall g :: g in now ==> now[g] == was[g]
  }

  /** What an answered call may have done to the groups. */
  predicate Effect(was: Groups, call: Call, now: Groups) {
    match call
    case UpdateTxt(handle, key, txt, outcome) =>
      && now.Keys <= was.Keys
      && (forall g :: g in now && g != handle ==> now[g] == was[g])
      && (handle in now ==>
            now[handle] == was[handle] || (key in was[handle] && now[handle] == was[handle][key := txt]))
      && (outcome.Ok? ==> handle in now && key in now[handle] && now[handle][key] == txt)
      && (outcome.Stale? ==> handle !in now)
    case FreeGroup(handle, outcome) =>
      Lost(was, now) && (!outcome.Failed? ==> handle !in now)
    case AskState(handle, established, stale) =>
      Lost(was, now) && (established ==> handle in now) && (stale ==> handle !in now)
    case CreateGroup(services, creation) =>
      if creation.Created? then creation.handle in now && now[creation.handle] == services && Lost(was, now - {creation.handle})
      else Lost(was, now)
  }

  class Daemon {
    var groups: Groups
    var nextHandle: int
    ghost var log: seq<Call>

    constructor ()
      ensures groups == map[] && log == []
    {
      groups, nextHandle, log := map[], 0, [];
    }

    /** Groups get lost: the daemon restarts, or another host takes the name. */
    method Lose()
      modifies this`groups
      ensures Lost(old(groups), groups)
    {
      var kept: set<int> := *;
      groups := map g | g in groups && g in kept :: groups[g];
    }

    /** UpdateServiceTxt: a failure may hide that the new TXT is already in place. */
    method UpdateServiceTxt(handle: int, key: ServiceKey, txt: Txt) returns (outcome: Outcome)
      modifies this`groups, this`log
      ensures log == old(log) + [UpdateTxt(handle, key, txt, outcome)]
      ensures Effect(old(groups), UpdateTxt(handle, key, txt, outcome), groups)
    {
      Lose();
      var effect, reply: bool := *, *;
      if handle !in groups {
        outcome := if reply then Stale else Failed;
      } else if key !in groups[handle] || !effect {
        outcome := Failed;
      } else {
        groups := groups[handle := groups[handle][key := txt]];
        outcome := if reply then Ok else Failed;
      }
      log := log + [UpdateTxt(handle, key, txt, outcome)];
    }

    method Free(handle: int) returns (outcome: Outcome)
      modifies this`groups, this`log
      ensures log == old(log) + [FreeGroup(handle, outcome)]
      ensures Effect(old(groups), FreeGroup(handle, outcome), groups)
    {
      Lose();
      var effect, reply: bool := *, *;
      if handle !in groups {
        outcome := if reply then Stale else Failed;
      } else if !effect {
        outcome := Failed;
      } else {
        groups := map g | g in groups && g != handle :: groups[g];
        outcome := if reply then Ok else Failed;
      }
      log := log + [FreeGroup(handle, outcome)];
    }

    /** Whether the group is established; false also when the question failed. */
    method GetState(handle: int) returns (established: bool, stale: bool)
      modifies this`groups, this`log
      ensures log == old(log) + [AskState(handle, established, stale)]
      ensures Effect(old(groups), AskState(handle, established, stale), groups)
    {
      Lose();
      established, stale := *, *;
      established := established && handle in groups;
      stale := stale && handle !in groups;
      log := log + [AskState(handle, established, stale)];
    }

    /** A new group with the given services and a handle of its own, or none. */
    method Create(services: Services) returns (creation: Creation)
      modifies this
      ensures log == old(log) + [CreateGroup(services, creation)]
      ensures Effect(old(groups), CreateGroup(services, creation), groups)
      ensures creation.Created? ==> old(nextHandle) <= creation.handle < nextHandle
      ensures nextHandle >= old(nextHandle)
    {
      Lose();
      creation := *;
      if creation.Created? {
        creation := Created(nextHandle);
        nextHandle := nextHandle + 1;
        groups := groups[creation.handle := services];
      }
      log := log + [CreateGroup(services, creation)];
    }
  }
}
