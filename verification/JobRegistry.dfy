/**
 The durable registry of proxy jobs: one row for each job, and the requests that change it.
 State names are strings that three different tests compare: a trimmed and lower-cased one, a
 lower-cased one inside SQL guards, and an exact one in the retention query.
 */
module JobRegistry {
  import opened Basics
  import opened Texts

  const RESERVED := "reserved"
  const MAPPED := "mapped"
  const UNCERTAIN := "uncertain"
  const TERMINAL := "terminal"

  function TerminalNames(): set<string> {
    {TERMINAL, "completed", "canceled", "cancelled", "aborted", "failed", "stopped"}
  }

  /** The test that every guard written in Go uses. */
  predicate IsTerminal(state: string) {
    Lower(Trimmed(state)) in TerminalNames()
  }

  /** The guard inside SQL updates. */
  predicate SqlTerminal(state: string) {
    Lower(state) in TerminalNames()
  }

  /** The test of the retention query. */
  predicate Spelled(state: string) {
    state in TerminalNames()
  }

  /** Each test is stricter than the one before. */
  lemma TestsOrdered(state: string)
    ensures Spelled(state) ==> SqlTerminal(state)
    ensures SqlTerminal(state) ==> IsTerminal(state)
  {
    if Spelled(state) {
      NamesAreLetters(state);
      assert Lower(state) == state;
    }
    if SqlTerminal(state) {
      var name := Lower(state);
      NamesAreLetters(name);
      assert name[0] == LowerChar(state[0]) && name[|name| - 1] == LowerChar(state[|name| - 1]);
      assert TrimLeft(state) == state && TrimRight(state) == state;
    }
  }

  lemma NamesAreLetters(name: string)
    requires name in TerminalNames()
    ensures name != "" && forall i :: 0 <= i < |name| ==> 'a' <= name[i] <= 'z'
  {
  }

  lemma ActiveNames()
    ensures !IsTerminal(RESERVED) && !IsTerminal(MAPPED) && !IsTerminal(UNCERTAIN) && IsTerminal(TERMINAL)
  {
    forall state | state in {RESERVED, MAPPED, UNCERTAIN, TERMINAL}
      ensures IsTerminal(state) <==> state == TERMINAL
    {
      assert Lower(state) == state;
      assert TrimLeft(state) == state && TrimRight(state) == state;
    }
  }

  datatype Document = Document(format: string, payload: int, pages: Option<int>, copies: int, impressions: Option<int>, last: bool)

  datatype Row = Row(
    queue: string, owner: string, route: string,
    upstreamId: Option<int>, upstreamUri: Option<string>,
    state: string, observedState: string, observedError: string,
    format: string, payload: int, pages: Option<int>, copies: int, impressions: Option<int>,
    documents: int, lastDocument: bool,
    createdAt: Instant, updatedAt: Instant, terminalAt: Option<Instant>,
    reconcileAt: Option<Instant>, lastReconcileAt: Option<Instant>, nextReconcileAt: Option<Instant>)

  datatype Registry = Registry(rows: map<int, Row>, nextId: int)

  datatype Error = NoRows | InvalidTransition | MappingConflict

  datatype Reply = Reserved(id: int) | Done | Deleted | Failed(error: Error)

  /** What a caller hands to a reservation.  The lifecycle fields are overwritten, the times are not. */
  datatype Reservation = Reservation(
    queue: string, owner: string, route: string, format: string, copies: int,
    createdAt: Option<Instant>, updatedAt: Option<Instant>, terminalAt: Option<Instant>,
    reconcileAt: Option<Instant>, lastReconcileAt: Option<Instant>, nextReconcileAt: Option<Instant>)

  datatype Request =
    | Reserve(reservation: Reservation, now: Instant)
    | MarkMapped(queue: string, id: int, upstreamId: int, upstreamUri: string, now: Instant)
    | MarkUncertain(queue: string, id: int, reason: string, now: Instant)
    | UpdateObserved(queue: string, id: int, state: string, error: string, now: Instant)
    | MarkTerminal(queue: string, id: int, terminal: string, observed: string, error: string, now: Instant)
    | UpdateState(queue: string, id: int, state: string, now: Instant)
    | UpdateDocument(queue: string, id: int, document: Document, now: Instant)
    | UpdateRoute(queue: string, id: int, clientFormat: string, route: string, now: Instant)
    | MarkReconcileAttempt(id: int, now: Instant)
    | CleanupTerminalBefore(cutoff: Instant)

  function OrElse(t: Option<Instant>, u: Instant): Instant {
    if t.Some? then t.value else u
  }

  /** A row by its id, and by its queue when the caller names one. */
  predicate Found(r: Registry, queue: string, id: int) {
    id in r.rows && (queue == "" || r.rows[id].queue == queue)
  }

  function NewRow(v: Reservation, now: Instant): Row {
    Row(
      v.queue, v.owner, v.route, None, None,
      RESERVED, "", "",
      v.format, 0, None, if v.copies == 0 then 1 else v.copies, None,
      0, false,
      OrElse(v.createdAt, now), OrElse(v.updatedAt, now), v.terminalAt,
      v.reconcileAt, v.lastReconcileAt, v.nextReconcileAt)
  }

  function Put(r: Registry, id: int, row: Row): Registry {
    r.(rows := r.rows[id := row])
  }

  predicate IdTaken(r: Registry, id: int, upstreamId: int)
    requires id in r.rows
  {
    exists other :: other in r.rows && other != id && r.rows[other].queue == r.rows[id].queue && r.rows[other].upstreamId == Some(upstreamId)
  }

  /** The row's own mapping contradicts the new one; zero and the empty URI claim nothing. */
  predicate Contradicts(row: Row, upstreamId: int, upstreamUri: string) {
    || (row.upstreamId.Some? && upstreamId != 0 && row.upstreamId.value != upstreamId)
    || (row.upstreamUri.Some? && upstreamUri != "" && row.upstreamUri.value != upstreamUri)
  }

  function Mapped(row: Row, upstreamId: int, upstreamUri: string, now: Instant): Row {
    row.(upstreamId := if upstreamId == 0 then None else Some(upstreamId),
         upstreamUri := if upstreamUri == "" then None else Some(upstreamUri),
         state := MAPPED, observedError := "", updatedAt := now, reconcileAt := None, nextReconcileAt := None)
  }

  function Doubtful(row: Row, reason: string, now: Instant): Row {
    row.(state := UNCERTAIN, observedError := reason, updatedAt := now, reconcileAt := Some(now), nextReconcileAt := Some(now))
  }

  function Ended(row: Row, state: string, observed: string, error: string, now: Instant): Row {
    row.(state := state, observedState := observed, observedError := error,
         terminalAt := Some(OrElse(row.terminalAt, now)), updatedAt := now, reconcileAt := None, nextReconcileAt := None)
  }

  /** The guard of the updates that must not touch a terminal row. */
  predicate Guarded(row: Row) {
    row.terminalAt.Some? || SqlTerminal(row.state)
  }

  function AddKnown(total: Option<int>, more: Option<int>): Option<int> {
    if more.None? then total else if total.None? then more else Some(total.value + more.value)
  }

  function WithDocument(row: Row, d: Document, now: Instant): Row {
    row.(format := if d.format == "" then row.format else d.format,
         payload := row.payload + d.payload, pages := AddKnown(row.pages, d.pages),
         copies := if d.copies == 0 then 1 else d.copies,
         impressions := AddKnown(row.impressions, d.impressions),
         documents := row.documents + if d.payload > 0 then 1 else 0,
         lastDocument := row.lastDocument || d.last, updatedAt := now)
  }

  /** A route that names the client's format overwrites the stored one. */
  function Routed(row: Row, clientFormat: string, route: string, now: Instant): Row {
    row.(format := if clientFormat != "" then clientFormat else row.format, route := route, updatedAt := now)
  }

  const MINUTE: int := 60_000_000_000
  const HOUR: int := 60 * MINUTE

  /** The next delay: a minute at first, then twice the last one, at most an hour. */
  function Backoff(reconcileAt: Option<Instant>, nextReconcileAt: Option<Instant>): int {
    if reconcileAt.None? || nextReconcileAt.None? || nextReconcileAt.value <= reconcileAt.value then MINUTE
    else
      var previous := nextReconcileAt.value - reconcileAt.value;
      if previous >= HOUR || previous > HOUR / 2 then HOUR else Min(Max(2 * previous, MINUTE), HOUR)
  }

  function Attempted(row: Row, now: Instant): Row {
    row.(reconcileAt := Some(now), lastReconcileAt := Some(now),
         nextReconcileAt := Some(now + Backoff(row.reconcileAt, row.nextReconcileAt)), updatedAt := now)
  }

  predicate Retryable(row: Row) {
    row.state == UNCERTAIN && row.terminalAt.None?
  }

  predicate Expired(row: Row, cutoff: Instant) {
    Spelled(row.state) && OrElse(row.terminalAt, row.updatedAt) < cutoff
  }

  /** A terminal mark keeps the printer's own terminal state as the observation. */
  function Observation(terminal: string, observed: string): string {
    if observed == "" && terminal != "" && terminal != TERMINAL then terminal else observed
  }

  function Serve(r: Registry, q: Request): (Registry, Reply) {
    match q
    case Reserve(v, now) => (Registry(r.rows[r.nextId := NewRow(v, now)], r.nextId + 1), Reserved(r.nextId))
    case MarkMapped(queue, id, upstreamId, upstreamUri, now) =>
      if !Found(r, queue, id) then (r, Failed(NoRows))
      else if IsTerminal(r.rows[id].state) then (r, Failed(InvalidTransition))
      else if Contradicts(r.rows[id], upstreamId, upstreamUri) || (upstreamId != 0 && IdTaken(r, id, upstreamId)) then (r, Failed(MappingConflict))
      else (Put(r, id, Mapped(r.rows[id], upstreamId, upstreamUri, now)), Done)
    case MarkUncertain(queue, id, reason, now) =>
      if !Found(r, queue, id) then (r, Failed(NoRows))
      else if IsTerminal(r.rows[id].state) then (r, Failed(InvalidTransition))
      else (Put(r, id, Doubtful(r.rows[id], reason, now)), Done)
    case UpdateObserved(queue, id, state, error, now) =>
      if !Found(r, queue, id) then (r, Failed(NoRows))
      else if IsTerminal(state) then (Put(r, id, Ended(r.rows[id], TERMINAL, state, error, now)), Done)
      else if Guarded(r.rows[id]) then (r, Failed(InvalidTransition))
      else (Put(r, id, r.rows[id].(observedState := state, observedError := error, updatedAt := now)), Done)
    case MarkTerminal(queue, id, terminal, observed, error, now) =>
      if !Found(r, queue, id) then (r, Failed(NoRows))
      else (Put(r, id, Ended(r.rows[id], TERMINAL, Observation(terminal, observed), error, now)), Done)
    case UpdateState(queue, id, state, now) =>
      if id !in r.rows || r.rows[id].queue != queue then (r, Failed(NoRows))
      else if IsTerminal(state) then
        var row := r.rows[id];
        (Put(r, id, Ended(row, state, if state == "" then row.observedState else state, row.observedError, now)), Done)
      else if Guarded(r.rows[id]) then (r, Failed(InvalidTransition))
      else (Put(r, id, r.rows[id].(state := state, updatedAt := now)), Done)
    case UpdateDocument(queue, id, d, now) =>
      if !Found(r, queue, id) then (r, Failed(NoRows))
      else (Put(r, id, WithDocument(r.rows[id], d, now)), Done)
    case UpdateRoute(queue, id, clientFormat, route, now) =>
      if !Found(r, queue, id) then (r, Failed(NoRows))
      else if IsTerminal(r.rows[id].state) then (r, Failed(InvalidTransition))
      else (Put(r, id, Routed(r.rows[id], clientFormat, route, now)), Done)
    case MarkReconcileAttempt(id, now) =>
      if id !in r.rows then (r, Failed(NoRows))
      else if Retryable(r.rows[id]) then (Put(r, id, Attempted(r.rows[id], now)), Done)
      else (r, Failed(InvalidTransition))
    case CleanupTerminalBefore(cutoff) =>
      (r.(rows := map id | id in r.rows && !Expired(r.rows[id], cutoff) :: r.rows[id]), Deleted)
  }

  // What every run keeps.

  /** terminal_at is set exactly on terminal rows, and those wait for no reconciliation. */
  predicate RowSound(row: Row) {
    && (IsTerminal(row.state) <==> row.terminalAt.Some?)
    && (row.terminalAt.Some? ==> row.reconcileAt.None? && row.nextReconcileAt.None?)
    && (row.upstreamId.Some? ==> row.upstreamId.value != 0)
  }

  ghost predicate Unshared(r: Registry) {
    forall i, j :: i in r.rows && j in r.rows && i != j && r.rows[i].queue == r.rows[j].queue && r.rows[i].upstreamId.Some? ==>
      r.rows[i].upstreamId != r.rows[j].upstreamId
  }

  ghost predicate Sound(r: Registry) {
    && (forall id :: id in r.rows ==> id < r.nextId && RowSound(r.rows[id]))
    && Unshared(r)
  }

  /** Callers leave the terminal time of a reservation empty and map to a real upstream job. */
  predicate Admissible(q: Request) {
    && (q.Reserve? ==> q.reservation.terminalAt.None?)
    && (q.MarkMapped? ==> q.upstreamId > 0)
  }

  /** How a row may change: identity stays, a terminal row stays terminal since the same instant, a mapping stays. */
  predicate RowSteps(row: Row, next: Row) {
    && next.queue == row.queue && next.owner == row.owner && next.createdAt == row.createdAt
    && (row.terminalAt.Some? ==> next.terminalAt == row.terminalAt && IsTerminal(next.state))
    && (row.upstreamId.Some? ==> next.upstreamId == row.upstreamId)
  }

  /** How the registry may change: every surviving row steps, and no id is given out twice. */
  ghost predicate Steps(r: Registry, next: Registry) {
    && r.nextId <= next.nextId
    && (forall id :: id in r.rows && id in next.rows ==> RowSteps(r.rows[id], next.rows[id]))
    && (forall id :: id < r.nextId && id !in r.rows ==> id !in next.rows)
  }

  lemma StepsChain(a: Registry, b: Registry, c: Registry)
    requires Steps(a, b) && Steps(b, c) && forall id :: id in a.rows ==> id < a.nextId
    ensures Steps(a, c)
  {
    hide IsTerminal;
  }

  lemma StepsSelf(r: Registry)
    requires Sound(r)
    ensures Steps(r, r)
  {
    hide IsTerminal;
  }

  /** Replacing one row by a permitted successor. */
  lemma PutSound(r: Registry, id: int, row: Row)
    requires Sound(r) && id in r.rows && RowSound(row) && RowSteps(r.rows[id], row)
    requires row.upstreamId.Some? && row.upstreamId != r.rows[id].upstreamId ==> !IdTaken(r, id, row.upstreamId.value)
    ensures Sound(Put(r, id, row)) && Steps(r, Put(r, id, row))
    ensures Put(r, id, row).rows.Keys == r.rows.Keys
  {
    hide IsTerminal;
    var u := Put(r, id, row);
    forall i, j | i in u.rows && j in u.rows && i != j && u.rows[i].queue == u.rows[j].queue && u.rows[i].upstreamId.Some?
      ensures u.rows[i].upstreamId != u.rows[j].upstreamId
    {
      assert r.rows[id].queue == row.queue;
      if row.upstreamId.Some? && row.upstreamId != r.rows[id].upstreamId {
        if i == id {
          assert r.rows[j].upstreamId != Some(row.upstreamId.value);
        }
        if j == id {
          assert r.rows[i].upstreamId != Some(row.upstreamId.value);
        }
      }
    }
  }

  lemma NewRowSound(v: Reservation, now: Instant)
    ensures RowSound(NewRow(v, now)) <==> v.terminalAt.None?
  {
    ActiveNames();
    hide IsTerminal;
  }

  lemma ReserveSound(r: Registry, v: Reservation, now: Instant)
    requires Sound(r) && v.terminalAt.None?
    ensures Sound(Serve(r, Reserve(v, now)).0) && Steps(r, Serve(r, Reserve(v, now)).0)
  {
    NewRowSound(v, now);
    hide IsTerminal;
  }

  /** The row that an accepted request leaves behind. */
  lemma EndedSteps(row: Row, state: string, observed: string, error: string, now: Instant)
    requires RowSound(row) && IsTerminal(state)
    ensures RowSound(Ended(row, state, observed, error, now)) && RowSteps(row, Ended(row, state, observed, error, now))
  {
    hide IsTerminal;
  }

  lemma GuardedRow(row: Row)
    requires RowSound(row)
    ensures Guarded(row) <==> IsTerminal(row.state)
  {
    TestsOrdered(row.state);
    hide IsTerminal, SqlTerminal;
  }

  lemma CleanupSound(r: Registry, cutoff: Instant)
    requires Sound(r)
    ensures Sound(Serve(r, CleanupTerminalBefore(cutoff)).0) && Steps(r, Serve(r, CleanupTerminalBefore(cutoff)).0)
  {
    hide IsTerminal, Expired;
  }

  lemma MapSound(r: Registry, q: Request)
    requires Sound(r) && q.MarkMapped? && q.upstreamId > 0 && Serve(r, q).1.Done?
    ensures Sound(Serve(r, q).0) && Steps(r, Serve(r, q).0)
  {
    hide IsTerminal, Sound, Steps, Mapped, IdTaken, Contradicts, RowSound, RowSteps;
    SoundRow(r, q.id);
    MappedSteps(r, q.id, q.upstreamId, q.upstreamUri, q.now);
    PutSound(r, q.id, Mapped(r.rows[q.id], q.upstreamId, q.upstreamUri, q.now));
  }

  lemma UncertainSound(r: Registry, q: Request)
    requires Sound(r) && q.MarkUncertain? && Serve(r, q).1.Done?
    ensures Sound(Serve(r, q).0) && Steps(r, Serve(r, q).0)
  {
    hide IsTerminal, Sound, Steps, Doubtful, RowSound, RowSteps;
    SoundRow(r, q.id);
    DoubtfulSteps(r.rows[q.id], q.reason, q.now);
    PutSound(r, q.id, Doubtful(r.rows[q.id], q.reason, q.now));
  }

  lemma AttemptSound(r: Registry, q: Request)
    requires Sound(r) && q.MarkReconcileAttempt? && Serve(r, q).1.Done?
    ensures Sound(Serve(r, q).0) && Steps(r, Serve(r, q).0)
  {
    hide IsTerminal, Sound, Steps, Attempted, RowSound, RowSteps;
    SoundRow(r, q.id);
    AttemptedSteps(r.rows[q.id], q.now);
    PutSound(r, q.id, Attempted(r.rows[q.id], q.now));
  }

  /** A request that fails changes nothing. */
  lemma RefusedChangesNothing(r: Registry, q: Request)
    ensures Serve(r, q).1.Failed? ==> Serve(r, q).0 == r
    ensures Serve(r, q).1.Done? || Serve(r, q).1.Failed? || q.Reserve? || q.CleanupTerminalBefore?
    ensures Serve(r, q).1.Done? && !q.Reserve? && !q.CleanupTerminalBefore? ==> q.id in r.rows
  {
    hide IsTerminal, SqlTerminal, IdTaken;
  }

  /** Every request a caller may send keeps the registry sound and every row on its way. */
  lemma ServeSound(r: Registry, q: Request)
    requires Sound(r) && Admissible(q)
    ensures Sound(Serve(r, q).0) && Steps(r, Serve(r, q).0)
  {
    hide Serve, Sound, Steps, RowSound;
    StepsSelf(r);
    RefusedChangesNothing(r, q);
    if q.Reserve? {
      ReserveSound(r, q.reservation, q.now);
    } else if q.CleanupTerminalBefore? {
      CleanupSound(r, q.cutoff);
    } else if Serve(r, q).1.Done? {
      SoundRow(r, q.id);
      match q {
        case MarkMapped(_, _, _, _, _) => MapSound(r, q);
        case MarkUncertain(_, _, _, _) => UncertainSound(r, q);
        case MarkReconcileAttempt(_, _) => AttemptSound(r, q);
        case _ => UpdatedSteps(r, q);
      }
    }
  }

  lemma SoundRow(r: Registry, id: int)
    requires Sound(r) && id in r.rows
    ensures RowSound(r.rows[id]) && id < r.nextId
  {
  }

  lemma MappedSteps(r: Registry, id: int, upstreamId: int, upstreamUri: string, now: Instant)
    requires id in r.rows && RowSound(r.rows[id]) && !IsTerminal(r.rows[id].state) && upstreamId != 0
    requires !Contradicts(r.rows[id], upstreamId, upstreamUri) && !IdTaken(r, id, upstreamId)
    ensures var row := Mapped(r.rows[id], upstreamId, upstreamUri, now);
            && RowSound(row) && RowSteps(r.rows[id], row)
            && (row.upstreamId.Some? && row.upstreamId != r.rows[id].upstreamId ==> !IdTaken(r, id, row.upstreamId.value))
  {
    ActiveNames();
    hide IsTerminal;
  }

  lemma DoubtfulSteps(row: Row, reason: string, now: Instant)
    requires RowSound(row) && !IsTerminal(row.state)
    ensures RowSound(Doubtful(row, reason, now)) && RowSteps(row, Doubtful(row, reason, now))
    ensures Doubtful(row, reason, now).upstreamId == row.upstreamId
  {
    ActiveNames();
    hide IsTerminal;
  }

  lemma AttemptedSteps(row: Row, now: Instant)
    requires RowSound(row) && Retryable(row)
    ensures RowSound(Attempted(row, now)) && RowSteps(row, Attempted(row, now)) && Attempted(row, now).upstreamId == row.upstreamId
  {
    hide IsTerminal, Backoff;
  }

  lemma UpdatedSteps(r: Registry, q: Request)
    requires q.UpdateObserved? || q.MarkTerminal? || q.UpdateState? || q.UpdateDocument? || q.UpdateRoute?
    requires Sound(r) && Serve(r, q).1.Done? && q.id in r.rows && RowSound(r.rows[q.id])
    ensures Sound(Serve(r, q).0) && Steps(r, Serve(r, q).0)
  {
    ActiveNames();
    hide IsTerminal, Sound, Steps, SqlTerminal, Found, Guarded, IdTaken;
    var row, next := r.rows[q.id], Serve(r, q).0.rows[q.id];
    GuardedRow(row);
    if q.MarkTerminal? || (q.UpdateObserved? && IsTerminal(q.state)) {
      EndedSteps(row, TERMINAL, next.observedState, q.error, q.now);
    } else if q.UpdateState? && IsTerminal(q.state) {
      EndedSteps(row, q.state, next.observedState, row.observedError, q.now);
    }
    assert Serve(r, q).0 == Put(r, q.id, next);
    PutSound(r, q.id, next);
  }

  function ServeAll(r: Registry, requests: seq<Request>): Registry
    decreases |requests|
  {
    if requests == [] then r else ServeAll(Serve(r, requests[0]).0, requests[1..])
  }

  /**
   Over all runs of requests: the registry stays sound, a terminal row never becomes active again
   and keeps its terminal time, a mapping is written once, and ids are never reused.
   */
  lemma {:induction false} RunSound(r: Registry, requests: seq<Request>)
    requires Sound(r) && forall i :: 0 <= i < |requests| ==> Admissible(requests[i])
    ensures Sound(ServeAll(r, requests)) && Steps(r, ServeAll(r, requests))
    decreases |requests|
  {
    hide Serve, Steps, Admissible, RowSound, Unshared;
    if requests == [] {
      StepsSelf(r);
    } else {
      var next := Serve(r, requests[0]).0;
      ServeSound(r, requests[0]);
      RunSound(next, requests[1..]);
      StepsChain(r, next, ServeAll(next, requests[1..]));
    }
  }

  const EMPTY: Registry := Registry(map[], 1)

  /** The promises of the registry, spelled out for a run from the empty registry. */
  lemma RegistryPromises(before: seq<Request>, after: seq<Request>, id: int)
    requires forall i :: 0 <= i < |before| ==> Admissible(before[i])
    requires forall i :: 0 <= i < |after| ==> Admissible(after[i])
    requires id in ServeAll(EMPTY, before).rows && id in ServeAll(ServeAll(EMPTY, before), after).rows
    ensures var row := ServeAll(EMPTY, before).rows[id];
            var next := ServeAll(ServeAll(EMPTY, before), after).rows[id];
            && (IsTerminal(row.state) ==> IsTerminal(next.state) && next.terminalAt == row.terminalAt)
            && (IsTerminal(next.state) <==> next.terminalAt.Some?)
            && (IsTerminal(next.state) ==> next.nextReconcileAt.None?)
            && (row.upstreamId.Some? ==> next.upstreamId == row.upstreamId)
    ensures Unshared(ServeAll(ServeAll(EMPTY, before), after))
  {
    hide IsTerminal, ServeAll, Unshared;
    EmptySound();
    RunSound(EMPTY, before);
    RunSound(ServeAll(EMPTY, before), after);
  }

  lemma EmptySound()
    ensures Sound(EMPTY)
  {
  }

  /** Retention deletes exactly the old rows whose state is spelled as the query lists it, all of them terminal. */
  lemma CleanupDeletes(r: Registry, cutoff: Instant, id: int)
    requires Sound(r) && id in r.rows
    ensures id !in Serve(r, CleanupTerminalBefore(cutoff)).0.rows
       <==> Spelled(r.rows[id].state) && r.rows[id].terminalAt.Some? && r.rows[id].terminalAt.value < cutoff
    ensures id in Serve(r, CleanupTerminalBefore(cutoff)).0.rows ==> Serve(r, CleanupTerminalBefore(cutoff)).0.rows[id] == r.rows[id]
  {
    TestsOrdered(r.rows[id].state);
    hide IsTerminal, SqlTerminal, Spelled;
    SoundRow(r, id);
  }

  /** A terminal row whose state the retention query does not list. */
  ghost predicate OddlySpelled(r: Registry, id: int) {
    id in r.rows && IsTerminal(r.rows[id].state) && !Spelled(r.rows[id].state)
  }

  /** A terminal request that stores a listed spelling. */
  predicate Respells(r: Registry, q: Request, id: int) {
    || (q.MarkTerminal? && q.id == id && Found(r, q.queue, id))
    || (q.UpdateObserved? && q.id == id && Found(r, q.queue, id) && IsTerminal(q.state))
    || (q.UpdateState? && q.id == id && id in r.rows && r.rows[id].queue == q.queue && Spelled(q.state))
  }

  /** An oddly spelled terminal row is neither deleted nor respelled, except by a terminal request in a listed spelling. */
  lemma OddSpellingStays(r: Registry, q: Request, id: int)
    requires Sound(r) && Admissible(q) && OddlySpelled(r, id)
    ensures OddlySpelled(Serve(r, q).0, id) <==> !Respells(r, q, id)
    ensures id in Serve(r, q).0.rows
  {
    hide IsTerminal, SqlTerminal, Spelled, Guarded, IdTaken, Contradicts, Sound;
    SoundRow(r, id);
    GuardedRow(r.rows[id]);
    SpelledIsTerminal();
  }

  lemma SpelledIsTerminal()
    ensures Spelled(TERMINAL) && IsTerminal(TERMINAL)
    ensures forall state :: Spelled(state) ==> IsTerminal(state)
  {
    ActiveNames();
    forall state | Spelled(state)
      ensures IsTerminal(state)
    {
      TestsOrdered(state);
    }
  }

  ghost predicate NeverRespelled(r: Registry, requests: seq<Request>, id: int)
    decreases |requests|
  {
    requests != [] ==> !Respells(r, requests[0], id) && NeverRespelled(Serve(r, requests[0]).0, requests[1..], id)
  }

  /** So over any run, whatever its cleanups, such a row is there until a terminal request respells it. */
  lemma {:induction false} OddSpellingIsNeverDeleted(r: Registry, requests: seq<Request>, id: int)
    requires Sound(r) && OddlySpelled(r, id) && NeverRespelled(r, requests, id)
    requires forall i :: 0 <= i < |requests| ==> Admissible(requests[i])
    ensures OddlySpelled(ServeAll(r, requests), id)
    decreases |requests|
  {
    hide Serve, Admissible, Sound, OddlySpelled, Respells;
    if requests != [] {
      OddSpellingStays(r, requests[0], id);
      ServeSound(r, requests[0]);
      OddSpellingIsNeverDeleted(Serve(r, requests[0]).0, requests[1..], id);
    }
  }

  /** A state with a capital is an example. */
  lemma CapitalIsOdd(r: Registry, queue: string, id: int, now: Instant)
    requires id in r.rows && r.rows[id].queue == queue
    ensures OddlySpelled(Serve(r, UpdateState(queue, id, "Completed", now)).0, id)
  {
    var state := "Completed";
    assert Lower(state) == "completed";
    assert TrimLeft(state) == state && TrimRight(state) == state;
    assert !Spelled(state);
  }

  /** Reserve keeps the caller's terminal time, so the new row is sound exactly when that is empty. */
  lemma ReserveKeepsTerminalTime(r: Registry, v: Reservation, now: Instant)
    requires Sound(r)
    ensures Sound(Serve(r, Reserve(v, now)).0) <==> v.terminalAt.None?
  {
    NewRowSound(v, now);
    if v.terminalAt.None? {
      ReserveSound(r, v, now);
    } else {
      hide RowSound, NewRow;
      assert Serve(r, Reserve(v, now)).0.rows[r.nextId] == NewRow(v, now);
    }
  }

  /** A mapping without an upstream id clears the stored one: write-once needs an id, or nothing stored. */
  lemma MappingIsWrittenOnce(r: Registry, q: Request)
    requires Sound(r) && q.MarkMapped? && Serve(r, q).1.Done?
    ensures RowSteps(r.rows[q.id], Serve(r, q).0.rows[q.id]) <==> q.upstreamId != 0 || r.rows[q.id].upstreamId.None?
  {
    SoundRow(r, q.id);
    ActiveNames();
    hide IsTerminal;
  }
}
