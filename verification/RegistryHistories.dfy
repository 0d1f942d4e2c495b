/**
 The registry from its requests alone: which requests are answered, and what every field of a row
 says about the reservation and the requests that were accepted for it since.
 */
module RegistryHistories {
  import opened Basics
  import opened Texts
  import opened JobRegistry

  // Which requests are answered.

  /** The request names a row that is not there, or one of another queue. */
  predicate Missing(r: Registry, q: Request) {
    match q
    case Reserve(_, _) | CleanupTerminalBefore(_) => false
    case MarkReconcileAttempt(id, _) => id !in r.rows
    case UpdateState(queue, id, _, _) => id !in r.rows || r.rows[id].queue != queue
    case _ => q.id !in r.rows || (q.queue != "" && r.rows[q.id].queue != q.queue)
  }

  /** The request ends the job. */
  predicate Ends(q: Request) {
    q.MarkTerminal? || ((q.UpdateObserved? || q.UpdateState?) && IsTerminal(q.state))
  }

  /** The job is over and the request may not touch it, or the row does not wait for a retry. */
  predicate Forbidden(r: Registry, q: Request) {
    && !q.Reserve? && !q.CleanupTerminalBefore? && q.id in r.rows
    && var row := r.rows[q.id];
       if q.MarkReconcileAttempt? then row.state != "uncertain" || row.terminalAt.Some?
       else row.terminalAt.Some? && !q.UpdateDocument? && !Ends(q)
  }

  predicate MappedElsewhere(r: Registry, id: int, upstreamId: int)
    requires id in r.rows
  {
    exists other :: other in r.rows && other != id && r.rows[other].queue == r.rows[id].queue && r.rows[other].upstreamId == Some(upstreamId)
  }

  /** The row is mapped to something else, or another row of the queue is mapped to this job. */
  predicate Conflicting(r: Registry, q: Request) {
    && q.MarkMapped? && q.id in r.rows
    && var row := r.rows[q.id];
       || (row.upstreamId.Some? && q.upstreamId != 0 && row.upstreamId != Some(q.upstreamId))
       || (row.upstreamUri.Some? && q.upstreamUri != "" && row.upstreamUri != Some(q.upstreamUri))
       || (q.upstreamId != 0 && MappedElsewhere(r, q.id, q.upstreamId))
  }

  /** Every request is refused for exactly one of these reasons, in this order, and answered otherwise. */
  lemma AnswersExactly(r: Registry, q: Request)
    requires Sound(r)
    ensures Serve(r, q).1 ==
              if q.Reserve? then Reserved(r.nextId)
              else if q.CleanupTerminalBefore? then Deleted
              else if Missing(r, q) then Failed(NoRows)
              else if Forbidden(r, q) then Failed(InvalidTransition)
              else if Conflicting(r, q) then Failed(MappingConflict)
              else Done
  {
    hide IsTerminal, SqlTerminal;
    if !q.Reserve? && !q.CleanupTerminalBefore? && q.id in r.rows {
      SoundRow(r, q.id);
      GuardedRow(r.rows[q.id]);
    }
  }

  // What a row says.

  /** The value of the last request that says one. */
  function LastSaid<T>(log: seq<Request>, says: Request -> Option<T>, before: T): T {
    if log == [] then before
    else
      var said := says(log[|log| - 1]);
      if said.Some? then said.value else LastSaid(log[..|log| - 1], says, before)
  }

  function FirstSaid<T>(log: seq<Request>, says: Request -> Option<T>): Option<T> {
    if log == [] then None
    else
      var first := FirstSaid(log[..|log| - 1], says);
      if first.Some? then first else says(log[|log| - 1])
  }

  function Documents(log: seq<Request>): seq<Document> {
    if log == [] then []
    else
      var q := log[|log| - 1];
      Documents(log[..|log| - 1]) + if q.UpdateDocument? then [q.document] else []
  }

  function SaysUpstreamId(q: Request): Option<Option<int>> {
    if q.MarkMapped? then Some(if q.upstreamId != 0 then Some(q.upstreamId) else None) else None
  }

  function SaysUpstreamUri(q: Request): Option<Option<string>> {
    if q.MarkMapped? then Some(if q.upstreamUri != "" then Some(q.upstreamUri) else None) else None
  }

  function SaysState(q: Request): Option<string> {
    match q
    case MarkMapped(_, _, _, _, _) => Some("mapped")
    case MarkUncertain(_, _, _, _) => Some("uncertain")
    case MarkTerminal(_, _, _, _, _, _) => Some("terminal")
    case UpdateObserved(_, _, state, _, _) => if IsTerminal(state) then Some("terminal") else None
    case UpdateState(_, _, state, _) => Some(state)
    case _ => None
  }

  /** A terminal mark without an observation keeps the terminal state, unless that is the general one. */
  function SaysObserved(q: Request): Option<string> {
    match q
    case UpdateObserved(_, _, state, _, _) => Some(state)
    case UpdateState(_, _, state, _) => if IsTerminal(state) then Some(state) else None
    case MarkTerminal(_, _, terminal, observed, _, _) => Some(if observed != "" then observed else if terminal != "terminal" then terminal else "")
    case _ => None
  }

  function SaysError(q: Request): Option<string> {
    match q
    case MarkMapped(_, _, _, _, _) => Some("")
    case MarkUncertain(_, _, reason, _) => Some(reason)
    case UpdateObserved(_, _, _, error, _) => Some(error)
    case MarkTerminal(_, _, _, _, error, _) => Some(error)
    case _ => None
  }

  function SaysFormat(q: Request): Option<string> {
    if q.UpdateRoute? && q.clientFormat != "" then Some(q.clientFormat)
    else if q.UpdateDocument? && q.document.format != "" then Some(q.document.format)
    else None
  }

  function SaysRoute(q: Request): Option<string> {
    if q.UpdateRoute? then Some(q.route) else None
  }

  function SaysCopies(q: Request): Option<int> {
    if q.UpdateDocument? then Some(if q.document.copies != 0 then q.document.copies else 1) else None
  }

  function SaysNow(q: Request): Option<Instant> {
    if q.Reserve? || q.CleanupTerminalBefore? then None else Some(q.now)
  }

  function SaysEnd(q: Request): Option<Instant> {
    if Ends(q) then SaysNow(q) else None
  }

  /** A mapping and an end stop the reconciliation, a doubt starts it and an attempt goes on with it. */
  function SaysReconcile(q: Request): Option<Option<Instant>> {
    if q.MarkMapped? || Ends(q) then Some(None)
    else if q.MarkUncertain? || q.MarkReconcileAttempt? then Some(Some(q.now))
    else None
  }

  function SaysLastReconcile(q: Request): Option<Option<Instant>> {
    if q.MarkReconcileAttempt? then Some(Some(q.now)) else None
  }

  /** A sum over what is known, or nothing when nothing is. */
  function KnownSum(values: seq<Option<int>>): Option<int> {
    if values == [] then None
    else
      var sum, last := KnownSum(values[..|values| - 1]), values[|values| - 1];
      if sum.Some? && last.Some? then Some(sum.value + last.value) else if sum.Some? then sum else last
  }

  /** Where the job comes from, where it goes and how far it is. */
  predicate CourseTold(row: Row, v: Reservation, log: seq<Request>) {
    && row.queue == v.queue && row.owner == v.owner
    && row.route == LastSaid(log, SaysRoute, v.route)
    && row.upstreamId == LastSaid(log, SaysUpstreamId, None)
    && row.upstreamUri == LastSaid(log, SaysUpstreamUri, None)
    && row.state == LastSaid(log, SaysState, "reserved")
    && row.observedState == LastSaid(log, SaysObserved, "")
    && row.observedError == LastSaid(log, SaysError, "")
  }

  /** What was sent for it: sizes and counts add up over the documents. */
  ghost predicate DocumentsTold(row: Row, v: Reservation, log: seq<Request>) {
    && row.format == LastSaid(log, SaysFormat, v.format)
    && row.copies == LastSaid(log, SaysCopies, if v.copies != 0 then v.copies else 1)
    && row.payload == Sum(Values(Documents(log), (d: Document) => d.payload))
    && row.documents == Sum(Values(Documents(log), (d: Document) => if d.payload > 0 then 1 else 0))
    && row.pages == KnownSum(Values(Documents(log), (d: Document) => d.pages))
    && row.impressions == KnownSum(Values(Documents(log), (d: Document) => d.impressions))
    && (row.lastDocument <==> exists d :: d in Documents(log) && d.last)
  }

  /** When all that happened; the first end stays the end. */
  predicate TimesTold(row: Row, v: Reservation, at: Instant, log: seq<Request>) {
    && row.createdAt == (if v.createdAt.Some? then v.createdAt.value else at)
    && row.updatedAt == LastSaid(log, SaysNow, if v.updatedAt.Some? then v.updatedAt.value else at)
    && row.terminalAt == (if v.terminalAt.Some? then v.terminalAt else FirstSaid(log, SaysEnd))
    && row.reconcileAt == LastSaid(log, SaysReconcile, v.reconcileAt)
    && row.lastReconcileAt == LastSaid(log, SaysLastReconcile, v.lastReconcileAt)
  }

  /** When the next retry is due: at the instant of a doubt, and after an attempt between a minute and an hour later. */
  ghost predicate RetryTold(row: Row, v: Reservation, log: seq<Request>) {
    if log == [] then row.nextReconcileAt == v.nextReconcileAt
    else
      var q, says := log[|log| - 1], SaysReconcile(log[|log| - 1]);
      if says.None? then RetryTold(row, v, log[..|log| - 1])
      else if q.MarkReconcileAttempt? then
        row.nextReconcileAt.Some? && 60_000_000_000 <= row.nextReconcileAt.value - q.now <= 3_600_000_000_000
      else row.nextReconcileAt == says.value
  }

  ghost predicate Told(row: Row, v: Reservation, at: Instant, log: seq<Request>) {
    CourseTold(row, v, log) && DocumentsTold(row, v, log) && TimesTold(row, v, at, log) && RetryTold(row, v, log)
  }

  lemma SaidMore<T>(log: seq<Request>, q: Request, says: Request -> Option<T>, before: T)
    ensures LastSaid(log + [q], says, before) == if says(q).Some? then says(q).value else LastSaid(log, says, before)
    ensures FirstSaid(log + [q], says) == if FirstSaid(log, says).Some? then FirstSaid(log, says) else says(q)
  {
    assert (log + [q])[..|log|] == log;
  }

  lemma DocumentsMore(log: seq<Request>, q: Request)
    ensures Documents(log + [q]) == Documents(log) + if q.UpdateDocument? then [q.document] else []
  {
    assert (log + [q])[..|log|] == log;
  }

  lemma KnownSumMore(values: seq<Option<int>>, v: Option<int>)
    ensures KnownSum(values + [v]) == if v.None? then KnownSum(values) else if KnownSum(values).None? then v else Some(KnownSum(values).value + v.value)
  {
    assert (values + [v])[..|values|] == values;
  }

  /** The row after an accepted request for it. */
  ghost predicate Accepts(r: Registry, q: Request, next: Row) {
    !q.Reserve? && !q.CleanupTerminalBefore? && Serve(r, q).1.Done? && q.id in Serve(r, q).0.rows && next == Serve(r, q).0.rows[q.id]
  }

  lemma CourseStep(r: Registry, q: Request, next: Row, v: Reservation, log: seq<Request>)
    requires Accepts(r, q, next) && q.id in r.rows && CourseTold(r.rows[q.id], v, log)
    ensures CourseTold(next, v, log + [q])
  {
    BlankIsNotTerminal();
    hide IsTerminal, Backoff, IdTaken, Contradicts, AddKnown, Guarded, LastSaid;
    SaidMore(log, q, SaysRoute, v.route);
    SaidMore(log, q, SaysUpstreamId, None);
    SaidMore(log, q, SaysUpstreamUri, None);
    SaidMore(log, q, SaysState, "reserved");
    SaidMore(log, q, SaysObserved, "");
    SaidMore(log, q, SaysError, "");
  }

  lemma BlankIsNotTerminal()
    ensures !IsTerminal("")
  {
    assert TrimLeft("") == "" && TrimRight("") == "";
    assert Lower("") == "";
  }

  lemma DocumentFields(r: Registry, q: Request, next: Row)
    requires Accepts(r, q, next) && q.id in r.rows
    ensures var row := r.rows[q.id];
            && next.format == (if SaysFormat(q).Some? then SaysFormat(q).value else row.format)
            && next.copies == (if SaysCopies(q).Some? then SaysCopies(q).value else row.copies)
            && (if q.UpdateDocument? then
                  var d := q.document;
                  && next.payload == row.payload + d.payload
                  && next.documents == row.documents + (if d.payload > 0 then 1 else 0)
                  && next.pages == (if d.pages.None? then row.pages else if row.pages.None? then d.pages else Some(row.pages.value + d.pages.value))
                  && next.impressions == (if d.impressions.None? then row.impressions else if row.impressions.None? then d.impressions
                                          else Some(row.impressions.value + d.impressions.value))
                  && next.lastDocument == (row.lastDocument || d.last)
                else
                  && next.payload == row.payload && next.documents == row.documents && next.pages == row.pages
                  && next.impressions == row.impressions && next.lastDocument == row.lastDocument)
  {
    hide IsTerminal, SqlTerminal, Backoff, IdTaken, Contradicts, Retryable, Found;
  }

  lemma DocumentsStep(r: Registry, q: Request, next: Row, v: Reservation, log: seq<Request>)
    requires Accepts(r, q, next) && q.id in r.rows && DocumentsTold(r.rows[q.id], v, log)
    ensures DocumentsTold(next, v, log + [q])
  {
    hide Serve, LastSaid, Documents, Sum, Values, KnownSum, SaysFormat, SaysCopies;
    DocumentFields(r, q, next);
    SaidMore(log, q, SaysFormat, v.format);
    SaidMore(log, q, SaysCopies, if v.copies != 0 then v.copies else 1);
    DocumentsMore(log, q);
    var documents := Documents(log);
    if q.UpdateDocument? {
      var d := q.document;
      SumGrows(documents, d, (d: Document) => d.payload);
      SumGrows(documents, d, (d: Document) => if d.payload > 0 then 1 else 0);
      ValuesGrow(documents, d, (d: Document) => d.pages);
      ValuesGrow(documents, d, (d: Document) => d.impressions);
      KnownSumMore(Values(documents, (d: Document) => d.pages), d.pages);
      KnownSumMore(Values(documents, (d: Document) => d.impressions), d.impressions);
    } else {
      assert documents + [] == documents;
    }
  }

  lemma TimesStep(r: Registry, q: Request, next: Row, v: Reservation, at: Instant, log: seq<Request>)
    requires Accepts(r, q, next) && q.id in r.rows && TimesTold(r.rows[q.id], v, at, log)
    ensures TimesTold(next, v, at, log + [q])
  {
    hide IsTerminal, Backoff, IdTaken, Contradicts, AddKnown, Guarded, LastSaid, FirstSaid;
    SaidMore(log, q, SaysNow, if v.updatedAt.Some? then v.updatedAt.value else at);
    SaidMore(log, q, SaysEnd, at);
    SaidMore(log, q, SaysReconcile, v.reconcileAt);
    SaidMore(log, q, SaysLastReconcile, v.lastReconcileAt);
  }

  lemma RetryStep(r: Registry, q: Request, next: Row, v: Reservation, log: seq<Request>)
    requires Accepts(r, q, next) && q.id in r.rows && RetryTold(r.rows[q.id], v, log)
    ensures RetryTold(next, v, log + [q])
  {
    hide IsTerminal, IdTaken, Contradicts, AddKnown, Guarded;
    assert (log + [q])[..|log|] == log;
    if SaysReconcile(q).None? {
      SameRetry(r.rows[q.id], next, v, log);
    }
  }

  lemma {:induction false} SameRetry(row: Row, next: Row, v: Reservation, log: seq<Request>)
    requires RetryTold(row, v, log) && next.nextReconcileAt == row.nextReconcileAt
    ensures RetryTold(next, v, log)
  {
    if log != [] {
      if SaysReconcile(log[|log| - 1]).None? {
        SameRetry(row, next, v, log[..|log| - 1]);
      }
    }
  }

  // Whole runs.

  /** The reservations of a run; the k-th one gets the id k. */
  function Reservations(requests: seq<Request>): seq<Request> {
    if requests == [] then []
    else
      var q := requests[|requests| - 1];
      Reservations(requests[..|requests| - 1]) + if q.Reserve? then [q] else []
  }

  /** The requests of a run that were accepted for a row. */
  function Accepted(requests: seq<Request>, id: int): seq<Request> {
    if requests == [] then []
    else
      var init, q := requests[..|requests| - 1], requests[|requests| - 1];
      Accepted(init, id)
      + if !q.Reserve? && !q.CleanupTerminalBefore? && q.id == id && Serve(ServeAll(EMPTY, init), q).1.Done? then [q] else []
  }

  lemma {:induction false} ServeOneMore(r: Registry, requests: seq<Request>, q: Request)
    ensures ServeAll(r, requests + [q]) == Serve(ServeAll(r, requests), q).0
    decreases |requests|
  {
    hide Serve;
    if requests == [] {
      assert ([] + [q])[1..] == [];
      assert ServeAll(r, [] + [q]) == ServeAll(Serve(r, q).0, []);
    } else {
      assert (requests + [q])[1..] == requests[1..] + [q];
      ServeOneMore(Serve(r, requests[0]).0, requests[1..], q);
    }
  }

  ghost predicate RowTold(r: Registry, requests: seq<Request>, id: int) {
    var given := Reservations(requests);
    && (id > |given| ==> Accepted(requests, id) == [])
    && (id in r.rows ==>
          && 1 <= id <= |given| && given[id - 1].Reserve?
          && Told(r.rows[id], given[id - 1].reservation, given[id - 1].now, Accepted(requests, id)))
  }

  lemma NewRowTold(v: Reservation, now: Instant)
    ensures Told(NewRow(v, now), v, now, [])
  {
  }

  lemma ToldStep(r: Registry, q: Request, next: Row, v: Reservation, at: Instant, log: seq<Request>)
    requires Accepts(r, q, next) && q.id in r.rows && Told(r.rows[q.id], v, at, log)
    ensures Told(next, v, at, log + [q])
  {
    hide Serve, CourseTold, DocumentsTold, TimesTold, RetryTold;
    CourseStep(r, q, next, v, log);
    DocumentsStep(r, q, next, v, log);
    TimesStep(r, q, next, v, at, log);
    RetryStep(r, q, next, v, log);
  }

  /** A request changes no row but its own. */
  lemma OtherRows(r: Registry, q: Request, id: int)
    ensures id in Serve(r, q).0.rows && id !in r.rows ==> q.Reserve? && id == r.nextId && Serve(r, q).0.rows[id] == NewRow(q.reservation, q.now)
    ensures id in Serve(r, q).0.rows && id in r.rows && Serve(r, q).0.rows[id] != r.rows[id] ==>
              (q.Reserve? && id == r.nextId) || (!q.Reserve? && !q.CleanupTerminalBefore? && q.id == id && Serve(r, q).1.Done?)
    ensures Serve(r, q).0.nextId == r.nextId + if q.Reserve? then 1 else 0
  {
    hide IsTerminal, SqlTerminal, IdTaken, Contradicts, Expired, NewRow, Mapped, Doubtful, Ended, WithDocument, Routed, Attempted;
  }

  lemma HistoryMore(requests: seq<Request>, q: Request, id: int)
    ensures Reservations(requests + [q]) == Reservations(requests) + if q.Reserve? then [q] else []
    ensures Accepted(requests + [q], id) == Accepted(requests, id)
            + if !q.Reserve? && !q.CleanupTerminalBefore? && q.id == id && Serve(ServeAll(EMPTY, requests), q).1.Done? then [q] else []
  {
    hide Serve, ServeAll;
    assert (requests + [q])[..|requests|] == requests;
  }

  lemma RowToldStep(requests: seq<Request>, q: Request, id: int)
    requires var r := ServeAll(EMPTY, requests); RowTold(r, requests, id) && r.nextId == 1 + |Reservations(requests)|
    ensures RowTold(Serve(ServeAll(EMPTY, requests), q).0, requests + [q], id)
  {
    hide Serve, ServeAll, NewRow, Told, Accepted, Reservations;
    var r := ServeAll(EMPTY, requests);
    HistoryMore(requests, q, id);
    var given, log := Reservations(requests), Accepted(requests, id);
    assert given + [] == given && log + [] == log;
    OtherRows(r, q, id);
    RefusedChangesNothing(r, q);
    var next := Serve(r, q).0;
    if q.Reserve? && id == r.nextId {
      NewRowTold(q.reservation, q.now);
    }
    if id in next.rows && id in r.rows && !q.Reserve? && !q.CleanupTerminalBefore? && q.id == id && Serve(r, q).1.Done? {
      ToldStep(r, q, next.rows[id], given[id - 1].reservation, given[id - 1].now, log);
    }
  }

  /**
   After any run of requests, every row says what its own reservation and the requests accepted for it
   said, field by field, and the k-th reservation has the id k.
   */
  lemma {:induction false} RowsFromRequests(requests: seq<Request>, id: int)
    ensures RowTold(ServeAll(EMPTY, requests), requests, id)
    ensures ServeAll(EMPTY, requests).nextId == 1 + |Reservations(requests)|
  {
    hide Serve, RowTold, Told;
    if requests == [] {
      NothingTold(id);
    } else {
      var n := |requests| - 1;
      var init, q := requests[..n], requests[n];
      assert requests == init + [q];
      RowsFromRequests(init, id);
      RowToldStep(init, q, id);
      ServeOneMore(EMPTY, init, q);
      OtherRows(ServeAll(EMPTY, init), q, id);
    }
  }

  lemma NothingTold(id: int)
    ensures RowTold(ServeAll(EMPTY, []), [], id)
  {
  }

  /** An accepted mapping is what the row then says; nothing else of it changes. */
  lemma MappingIsStored(r: Registry, q: Request)
    requires q.MarkMapped? && q.upstreamId > 0 && Serve(r, q).1.Done?
    ensures q.id in r.rows && q.id in Serve(r, q).0.rows
    ensures var row, next := r.rows[q.id], Serve(r, q).0.rows[q.id];
            && next.upstreamId == Some(q.upstreamId)
            && next.upstreamUri == (if q.upstreamUri == "" then None else Some(q.upstreamUri))
            && next.state == "mapped" && next.observedError == "" && next.updatedAt == q.now
            && next.reconcileAt.None? && next.nextReconcileAt.None?
            && row == next.(upstreamId := row.upstreamId, upstreamUri := row.upstreamUri, state := row.state, observedError := row.observedError,
                            updatedAt := row.updatedAt, reconcileAt := row.reconcileAt, nextReconcileAt := row.nextReconcileAt)
  {
    hide IsTerminal, IdTaken, Contradicts;
  }

  /** And it stays for as long as there is the row, whatever requests follow. */
  lemma MappingLasts(before: seq<Request>, q: Request, after: seq<Request>)
    requires forall i :: 0 <= i < |before| ==> Admissible(before[i])
    requires forall i :: 0 <= i < |after| ==> Admissible(after[i])
    requires q.MarkMapped? && q.upstreamId > 0 && Serve(ServeAll(EMPTY, before), q).1.Done?
    ensures var last := ServeAll(Serve(ServeAll(EMPTY, before), q).0, after);
            q.id in last.rows ==> last.rows[q.id].upstreamId == Some(q.upstreamId)
  {
    hide Serve, ServeAll, Sound, IsTerminal;
    EmptySound();
    RunSound(EMPTY, before);
    ServeSound(ServeAll(EMPTY, before), q);
    RunSound(Serve(ServeAll(EMPTY, before), q).0, after);
    MappingIsStored(ServeAll(EMPTY, before), q);
  }

  // Which states are terminal.

  predicate IsEndName(s: string) {
    s in {"terminal", "completed", "canceled", "cancelled", "aborted", "failed", "stopped"}
  }

  /** A state is terminal exactly if it is one of seven names, in any case and surrounded by any white space; */
  lemma TerminalExactly(state: string)
    ensures IsTerminal(state) <==> exists i, j :: Surrounded(state, i, j) && IsEndName(Lower(state[i..j]))
  {
    hide IsSpace, Lower, IsEndName;
    if IsTerminal(state) {
      TrimmedName(state);
    }
    if i, j :| Surrounded(state, i, j) && IsEndName(Lower(state[i..j])) {
      NameTrimmed(state, i, j);
    }
  }

  /** SQL trims nothing, and retention lowers nothing. */
  lemma SpelledExactly(state: string)
    ensures SqlTerminal(state) <==> IsEndName(Lower(state))
    ensures Spelled(state) <==> IsEndName(state)
  {
  }

  lemma TrimmedName(state: string)
    requires IsTerminal(state)
    ensures exists i, j :: Surrounded(state, i, j) && IsEndName(Lower(state[i..j]))
  {
    hide IsSpace, Lower;
    var i := TrimsLeft(state);
    var j := TrimsRight(state[i..]);
    assert state[i..][..j] == state[i..i + j];
    forall k | i + j <= k < |state|
      ensures IsSpace(state[k])
    {
      assert state[k] == state[i..][k - i];
    }
    assert Surrounded(state, i, i + j) && IsEndName(Lower(state[i..i + j]));
  }

  lemma NameTrimmed(state: string, i: int, j: int)
    requires Surrounded(state, i, j) && IsEndName(Lower(state[i..j]))
    ensures IsTerminal(state)
  {
    hide IsSpace, Lower;
    LettersInside(state[i..j]);
    assert state[i] == state[i..j][0] && state[j - 1] == state[i..j][j - i - 1];
    TrimmedExactly(state, i, j);
  }

  lemma LettersInside(s: string)
    requires IsEndName(Lower(s))
    ensures s != "" && !IsSpace(s[0]) && !IsSpace(s[|s| - 1])
  {
    NamesAreLetters(Lower(s));
    assert Lower(s)[0] == LowerChar(s[0]) && Lower(s)[|s| - 1] == LowerChar(s[|s| - 1]);
  }
}
