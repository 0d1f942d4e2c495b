/**
 The store over the jobs table: each request reads the row, checks its guard and updates the row
 in one transaction.
 */
module RegistryStore {
  import opened Basics
  import opened Texts
  import opened JobRegistry
  import opened Reconciliation

  class Store {
    var rows: map<int, Row>
    var nextId: int

    constructor ()
      ensures Contents() == EMPTY && Sound(Contents())
    {
      rows, nextId := map[], 1;
      new;
      EmptySound();
    }

    function Contents(): Registry
      reads this
    {
      Registry(rows, nextId)
    }

    /** The row a transaction selects, if the caller's queue owns it. */
    method Select(queue: string, id: int) returns (row: Option<Row>)
      ensures row == if Found(Contents(), queue, id) then Some(rows[id]) else None
    {
      if id !in rows || (queue != "" && rows[id].queue != queue) {
        return None;
      }
      return Some(rows[id]);
    }

    method Insert(v: Reservation, copies: int, createdAt: Instant, updatedAt: Instant) returns (id: int)
      modifies this
      ensures id == old(nextId) && nextId == id + 1
      ensures rows == old(rows)[id := Row(v.queue, v.owner, v.route, None, None, RESERVED, "", "", v.format, 0, None, copies, None, 0, false,
                                          createdAt, updatedAt, v.terminalAt, v.reconcileAt, v.lastReconcileAt, v.nextReconcileAt)]
    {
      id := nextId;
      nextId := nextId + 1;
      rows := rows[id := Row(v.queue, v.owner, v.route, None, None, RESERVED, "", "", v.format, 0, None, copies, None, 0, false,
                             createdAt, updatedAt, v.terminalAt, v.reconcileAt, v.lastReconcileAt, v.nextReconcileAt)];
    }

    method Reserve(v: Reservation, now: Instant) returns (reply: Reply)
      modifies this
      ensures (Contents(), reply) == Serve(old(Contents()), Request.Reserve(v, now))
      ensures old(Sound(Contents())) && v.terminalAt.None? ==> Sound(Contents())
    {
      ghost var before := Contents();
      var createdAt, updatedAt, copies := now, now, v.copies;
      if v.createdAt.Some? {
        createdAt := v.createdAt.value;
      }
      if v.updatedAt.Some? {
        updatedAt := v.updatedAt.value;
      }
      if copies == 0 {
        copies := 1;
      }
      var id := Insert(v, copies, createdAt, updatedAt);
      reply := Reserved(id);
      if Sound(before) && v.terminalAt.None? {
        ReserveSound(before, v, now);
      }
    }

    /** Whether another row of the same queue holds the upstream id. */
    method HasDuplicate(id: int, upstreamId: int) returns (taken: bool)
      requires id in rows
      ensures taken <==> IdTaken(Contents(), id, upstreamId)
    {
      taken := exists other :: other in rows && other != id && rows[other].queue == rows[id].queue && rows[other].upstreamId == Some(upstreamId);
    }

    method MarkMapped(queue: string, id: int, upstreamId: int, upstreamUri: string, now: Instant) returns (reply: Reply)
      modifies this
      ensures (Contents(), reply) == Serve(old(Contents()), Request.MarkMapped(queue, id, upstreamId, upstreamUri, now))
      ensures old(Sound(Contents())) && upstreamId > 0 ==> Sound(Contents())
    {
      ghost var before := Contents();
      ghost var q := Request.MarkMapped(queue, id, upstreamId, upstreamUri, now);
      hide IsTerminal, IdTaken, Sound, Steps;
      if Sound(before) && upstreamId > 0 {
        ServeSound(before, q);
      }
      var row := Select(queue, id);
      if row.None? {
        return Failed(NoRows);
      }
      if IsTerminal(row.value.state) {
        return Failed(InvalidTransition);
      }
      var currentId, currentUri := row.value.upstreamId, row.value.upstreamUri;
      if currentId.Some? && upstreamId != 0 && currentId.value != upstreamId {
        return Failed(MappingConflict);
      }
      if currentUri.Some? && upstreamUri != "" && currentUri.value != upstreamUri {
        return Failed(MappingConflict);
      }
      if upstreamId != 0 {
        var taken := HasDuplicate(id, upstreamId);
        if taken {
          return Failed(MappingConflict);
        }
      }
      rows := rows[id := row.value.(
        upstreamId := if upstreamId == 0 then None else Some(upstreamId),
        upstreamUri := if upstreamUri == "" then None else Some(upstreamUri),
        state := MAPPED, observedError := "", updatedAt := now, reconcileAt := None, nextReconcileAt := None)];
      reply := Done;
    }

    method MarkUncertain(queue: string, id: int, reason: string, now: Instant) returns (reply: Reply)
      modifies this
      ensures (Contents(), reply) == Serve(old(Contents()), Request.MarkUncertain(queue, id, reason, now))
      ensures old(Sound(Contents())) ==> Sound(Contents())
    {
      hide IsTerminal, Sound, Steps;
      if Sound(Contents()) {
        ServeSound(Contents(), Request.MarkUncertain(queue, id, reason, now));
      }
      var row := Select(queue, id);
      if row.None? {
        return Failed(NoRows);
      }
      if IsTerminal(row.value.state) {
        return Failed(InvalidTransition);
      }
      rows := rows[id := row.value.(
        state := UNCERTAIN, observedError := reason, updatedAt := now, reconcileAt := Some(now), nextReconcileAt := Some(now))];
      reply := Done;
    }

    method MarkTerminal(queue: string, id: int, terminal: string, observed: string, error: string, now: Instant) returns (reply: Reply)
      modifies this
      ensures (Contents(), reply) == Serve(old(Contents()), Request.MarkTerminal(queue, id, terminal, observed, error, now))
      ensures old(Sound(Contents())) ==> Sound(Contents())
    {
      hide IsTerminal, Sound, Steps;
      if Sound(Contents()) {
        ServeSound(Contents(), Request.MarkTerminal(queue, id, terminal, observed, error, now));
      }
      var observation := observed;
      if observed == "" && terminal != "" && terminal != TERMINAL {
        observation := terminal;
      }
      var row := Select(queue, id);
      if row.None? {
        return Failed(NoRows);
      }
      var terminalAt := if row.value.terminalAt.Some? then row.value.terminalAt.value else now;
      rows := rows[id := row.value.(
        state := TERMINAL, observedState := observation, observedError := error,
        terminalAt := Some(terminalAt), updatedAt := now, reconcileAt := None, nextReconcileAt := None)];
      reply := Done;
    }

    method UpdateObserved(queue: string, id: int, state: string, error: string, now: Instant) returns (reply: Reply)
      modifies this
      ensures (Contents(), reply) == Serve(old(Contents()), Request.UpdateObserved(queue, id, state, error, now))
      ensures old(Sound(Contents())) ==> Sound(Contents())
    {
      hide IsTerminal, SqlTerminal, Sound, Steps;
      if Sound(Contents()) {
        ServeSound(Contents(), Request.UpdateObserved(queue, id, state, error, now));
      }
      if IsTerminal(state) {
        BlankIsActive();
        reply := MarkTerminal(queue, id, state, state, error, now);
        return;
      }
      var row := Select(queue, id);
      if row.None? {
        return Failed(NoRows);
      }
      if row.value.terminalAt.Some? || SqlTerminal(row.value.state) {
        return Failed(InvalidTransition);
      }
      rows := rows[id := row.value.(observedState := state, observedError := error, updatedAt := now)];
      reply := Done;
    }

    method UpdateState(queue: string, id: int, state: string, now: Instant) returns (reply: Reply)
      modifies this
      ensures (Contents(), reply) == Serve(old(Contents()), Request.UpdateState(queue, id, state, now))
      ensures old(Sound(Contents())) ==> Sound(Contents())
    {
      hide IsTerminal, SqlTerminal, Sound, Steps;
      if Sound(Contents()) {
        ServeSound(Contents(), Request.UpdateState(queue, id, state, now));
      }
      if id !in rows || rows[id].queue != queue {
        return Failed(NoRows);
      }
      var row := rows[id];
      if IsTerminal(state) {
        var terminalAt := if row.terminalAt.Some? then row.terminalAt.value else now;
        rows := rows[id := row.(
          state := state, observedState := if state == "" then row.observedState else state,
          terminalAt := Some(terminalAt), updatedAt := now, reconcileAt := None, nextReconcileAt := None)];
        return Done;
      }
      if row.terminalAt.Some? || SqlTerminal(row.state) {
        return Failed(InvalidTransition);
      }
      rows := rows[id := row.(state := state, updatedAt := now)];
      reply := Done;
    }

    method UpdateDocument(queue: string, id: int, d: Document, now: Instant) returns (reply: Reply)
      modifies this
      ensures (Contents(), reply) == Serve(old(Contents()), Request.UpdateDocument(queue, id, d, now))
      ensures old(Sound(Contents())) ==> Sound(Contents())
    {
      hide Sound, Steps;
      if Sound(Contents()) {
        ServeSound(Contents(), Request.UpdateDocument(queue, id, d, now));
      }
      var row := Select(queue, id);
      if row.None? {
        return Failed(NoRows);
      }
      rows := rows[id := WithDocument(row.value, d, now)];
      reply := Done;
    }

    method UpdateRoute(queue: string, id: int, clientFormat: string, route: string, now: Instant) returns (reply: Reply)
      modifies this
      ensures (Contents(), reply) == Serve(old(Contents()), Request.UpdateRoute(queue, id, clientFormat, route, now))
      ensures old(Sound(Contents())) ==> Sound(Contents())
    {
      hide IsTerminal, Sound, Steps;
      if Sound(Contents()) {
        ServeSound(Contents(), Request.UpdateRoute(queue, id, clientFormat, route, now));
      }
      var row := Select(queue, id);
      if row.None? {
        return Failed(NoRows);
      }
      if IsTerminal(row.value.state) {
        return Failed(InvalidTransition);
      }
      var format := if clientFormat != "" then clientFormat else row.value.format;
      rows := rows[id := row.value.(format := format, route := route, updatedAt := now)];
      reply := Done;
    }

    /** One page of due uncertain rows, in the order of their retry times and ids. */
    method ReconciliationCandidates(queue: string, now: Instant, limit: int) returns (page: seq<int>)
      ensures page == Page(Contents(), queue, now, limit)
    {
      hide Before, DueIds, IsLeast, First;
      DueWithin(Contents(), queue, now);
      var due := DueIds(Contents(), queue, now);
      var n := if limit > 0 then limit else |due|;
      page := [];
      while due != {} && |page| < n
        invariant due <= rows.Keys && |page| <= n
        invariant page + First(Contents(), due, n - |page|) == Page(Contents(), queue, now, limit)
        decreases |due|
      {
        LeastExists(Contents(), due);
        var least :| least in due && forall id :: id in due && id != least ==> Before(Contents(), least, id);
        NextOfPage(Contents(), due, least, page, n - |page|);
        page := page + [least];
        due := due - {least};
      }
      FirstOfNone(Contents(), due, n - |page|);
    }

    method MarkReconcileAttempt(id: int, now: Instant) returns (reply: Reply)
      modifies this
      ensures (Contents(), reply) == Serve(old(Contents()), Request.MarkReconcileAttempt(id, now))
      ensures old(Sound(Contents())) ==> Sound(Contents())
    {
      hide Sound, Steps;
      if Sound(Contents()) {
        ServeSound(Contents(), Request.MarkReconcileAttempt(id, now));
      }
      if id !in rows {
        return Failed(NoRows);
      }
      var row := rows[id];
      var next := now + Backoff(row.reconcileAt, row.nextReconcileAt);
      if row.state != UNCERTAIN || row.terminalAt.Some? {
        return Failed(InvalidTransition);
      }
      rows := rows[id := row.(reconcileAt := Some(now), lastReconcileAt := Some(now), nextReconcileAt := Some(next), updatedAt := now)];
      reply := Done;
    }

    method CleanupTerminalBefore(cutoff: Instant) returns (reply: Reply)
      modifies this
      ensures (Contents(), reply) == Serve(old(Contents()), Request.CleanupTerminalBefore(cutoff))
      ensures old(Sound(Contents())) ==> Sound(Contents())
    {
      hide Sound, Steps;
      if Sound(Contents()) {
        ServeSound(Contents(), Request.CleanupTerminalBefore(cutoff));
      }
      rows := map id | id in rows && !Expired(rows[id], cutoff) :: rows[id];
      reply := Deleted;
      assert rows == Serve(old(Contents()), Request.CleanupTerminalBefore(cutoff)).0.rows;
    }

    /**
     A reconciliation pass that finds no match: queue by queue, in any order, the rows of the page whose
     printer answers are marked, each at the instant of its own attempt.
     */
    method ReconcileUnmatched(queue: string, now: Instant, limit: int, answers: set<string>) returns (page: seq<int>, ghost marks: seq<Mark>)
      requires Sound(Contents())
      modifies this
      ensures page == old(Page(Contents(), queue, now, limit))
      ensures Passed(old(Contents()), page, answers, now, marks)
      ensures Contents() == MarkAll(old(Contents()), marks) && Sound(Contents())
    {
      hide Sound, Serve, Page;
      ghost var before := Contents();
      page := ReconciliationCandidates(queue, now, limit);
      PageInRows(before, queue, now, limit);
      marks := [];
      MarkNone(before);
      var left := set k | 0 <= k < |page| :: rows[page[k]].queue;
      AskedNone(before, page, answers, now, left);
      var at := now;
      while left != {}
        invariant Asked(before, page, answers, now, marks, left) && Contents() == MarkAll(before, marks) && now <= at
        invariant SameQueues(before, Contents(), page)
        decreases |left|
      {
        var q :| q in left;
        left := left - {q};
        if q in answers {
          at, marks := ReconcileQueue(q, page, at, before, marks, answers, left, now);
        } else {
          SkippedQueue(before, page, answers, now, marks, left, q);
        }
      }
      MarkSound(before, marks);
      AskedAll(before, page, answers, now, marks);
    }

    /** The rows of one queue whose printer answers. */
    method ReconcileQueue(q: string, page: seq<int>, start: Instant, ghost before: Registry, ghost done: seq<Mark>, ghost answers: set<string>,
                          ghost left: set<string>, ghost now: Instant) returns (at: Instant, ghost marks: seq<Mark>)
      requires Asked(before, page, answers, now, done, left + {q}) && q !in left && q in answers && now <= start
      requires Contents() == MarkAll(before, done)
      requires SameQueues(before, Contents(), page)
      modifies this
      ensures Asked(before, page, answers, now, marks, left) && Contents() == MarkAll(before, marks) && now <= at
      ensures SameQueues(before, Contents(), page)
    {
      hide Serve, Asked, MarkAll;
      at, marks := start, done;
      AskingFirst(before, page, answers, now, marks, left, q);
      for k := 0 to |page|
        invariant Asking(before, page, answers, now, marks, left, q, k) && Contents() == MarkAll(before, marks) && now <= at
        invariant SameQueues(before, Contents(), page)
      {
        ghost var was := Contents();
        if rows[page[k]].queue == q {
          var later := *;
          at := if later > at then later else at;
          var reply := MarkReconcileAttempt(page[k], at);
          MarkMore(before, marks, Mark(page[k], at));
          ServeKeepsQueues(before, was, page, page[k], at);
          assert Contents() == Serve(was, Request.MarkReconcileAttempt(page[k], at)).0;
          AskingMore(before, page, answers, now, marks, left, q, k, at);
          marks := marks + [Mark(page[k], at)];
        } else {
          AskingSkip(before, page, answers, now, marks, left, q, k);
        }
      }
      AskingLast(before, page, answers, now, marks, left, q);
    }
  }

  predicate SameQueues(r: Registry, u: Registry, page: seq<int>) {
    forall k :: 0 <= k < |page| ==> page[k] in r.rows && page[k] in u.rows && u.rows[page[k]].queue == r.rows[page[k]].queue
  }

  /** Some queues are still left to be asked; the rows of the others are marked as they answered. */
  ghost predicate Asked(r: Registry, page: seq<int>, answers: set<string>, now: Instant, marks: seq<Mark>, left: set<string>) {
    && Distinct(page) && (forall id :: id in page ==> id in r.rows)
    && Once(marks) && (forall k :: 0 <= k < |marks| ==> marks[k].at >= now)
    && (forall id :: Marks(marks, id) <==> id in page && id in r.rows && r.rows[id].queue in answers && r.rows[id].queue !in left)
  }

  /** Of queue q, the rows before position k are marked. */
  ghost predicate Asking(r: Registry, page: seq<int>, answers: set<string>, now: Instant, marks: seq<Mark>, left: set<string>, q: string, k: nat) {
    && q !in left && q in answers && k <= |page|
    && Distinct(page) && (forall id :: id in page ==> id in r.rows)
    && Once(marks) && (forall i :: 0 <= i < |marks| ==> marks[i].at >= now)
    && (forall id :: Marks(marks, id) <==>
          id in page && id in r.rows && r.rows[id].queue in answers && r.rows[id].queue !in left && (r.rows[id].queue == q ==> id in page[..k]))
  }

  lemma AskedNone(r: Registry, page: seq<int>, answers: set<string>, now: Instant, left: set<string>)
    requires Distinct(page) && SameQueues(r, r, page) && forall k :: 0 <= k < |page| ==> r.rows[page[k]].queue in left
    ensures Asked(r, page, answers, now, [], left)
  {
  }

  lemma AskingFirst(r: Registry, page: seq<int>, answers: set<string>, now: Instant, marks: seq<Mark>, left: set<string>, q: string)
    requires Asked(r, page, answers, now, marks, left + {q}) && q !in left && q in answers
    ensures Asking(r, page, answers, now, marks, left, q, 0)
  {
    hide Marks;
  }

  lemma AskingLast(r: Registry, page: seq<int>, answers: set<string>, now: Instant, marks: seq<Mark>, left: set<string>, q: string)
    requires Asking(r, page, answers, now, marks, left, q, |page|)
    ensures Asked(r, page, answers, now, marks, left)
  {
    hide Marks;
    assert page[..|page|] == page;
  }

  lemma AskingSkip(r: Registry, page: seq<int>, answers: set<string>, now: Instant, marks: seq<Mark>, left: set<string>, q: string, k: nat)
    requires Asking(r, page, answers, now, marks, left, q, k) && k < |page| && page[k] in r.rows && r.rows[page[k]].queue != q
    ensures Asking(r, page, answers, now, marks, left, q, k + 1)
  {
    hide Marks;
    assert page[..k + 1] == page[..k] + [page[k]];
  }

  lemma AskingMore(r: Registry, page: seq<int>, answers: set<string>, now: Instant, marks: seq<Mark>, left: set<string>, q: string, k: nat, at: Instant)
    requires Asking(r, page, answers, now, marks, left, q, k) && k < |page| && page[k] in r.rows && r.rows[page[k]].queue == q && now <= at
    ensures Asking(r, page, answers, now, marks + [Mark(page[k], at)], left, q, k + 1)
  {
    var more := marks + [Mark(page[k], at)];
    assert page[..k + 1] == page[..k] + [page[k]];
    assert page[k] !in page[..k];
    assert !Marks(marks, page[k]);
    forall id
      ensures Marks(more, id) <==> Marks(marks, id) || id == page[k]
    {
      MarksMore(marks, Mark(page[k], at), id);
    }
    assert Once(more) by {
      forall i, j | 0 <= i < j < |more|
        ensures more[i].id != more[j].id
      {
        if j == |marks| {
          assert Marks(marks, marks[i].id);
        }
      }
    }
    hide Marks;
  }

  lemma MarksMore(marks: seq<Mark>, m: Mark, id: int)
    ensures Marks(marks + [m], id) <==> Marks(marks, id) || id == m.id
  {
    var more := marks + [m];
    if Marks(marks, id) {
      var k :| 0 <= k < |marks| && marks[k].id == id;
      assert more[k].id == id;
    }
    assert more[|marks|] == m;
  }

  lemma SkippedQueue(r: Registry, page: seq<int>, answers: set<string>, now: Instant, marks: seq<Mark>, left: set<string>, q: string)
    requires Asked(r, page, answers, now, marks, left + {q}) && q !in answers
    ensures Asked(r, page, answers, now, marks, left)
  {
    hide Marks;
  }

  lemma AskedAll(r: Registry, page: seq<int>, answers: set<string>, now: Instant, marks: seq<Mark>)
    requires Asked(r, page, answers, now, marks, {})
    ensures Passed(r, page, answers, now, marks)
  {
    hide Marks;
  }

  lemma PageInRows(r: Registry, queue: string, now: Instant, limit: int)
    ensures Distinct(Page(r, queue, now, limit)) && SameQueues(r, r, Page(r, queue, now, limit))
  {
    hide First;
    DueWithin(r, queue, now);
    var n := if limit > 0 then limit else |DueIds(r, queue, now)|;
    FirstAreFirst(r, DueIds(r, queue, now), n, 0);
    var page := Page(r, queue, now, limit);
    forall k | 0 <= k < |page|
      ensures page[k] in r.rows
    {
      assert page[k] in page && page == First(r, DueIds(r, queue, now), n);
    }
  }

  lemma {:induction false} MarkMore(r: Registry, marks: seq<Mark>, m: Mark)
    ensures MarkAll(r, marks + [m]) == Serve(MarkAll(r, marks), MarkReconcileAttempt(m.id, m.at)).0
    decreases |marks|
  {
    hide Serve;
    if marks == [] {
      assert ([] + [m])[1..] == [];
    } else {
      MarkMore(Serve(r, MarkReconcileAttempt(marks[0].id, marks[0].at)).0, marks[1..], m);
      assert (marks + [m])[1..] == marks[1..] + [m];
    }
  }

  lemma ServeKeepsQueues(before: Registry, r: Registry, page: seq<int>, id: int, at: Instant)
    requires SameQueues(before, r, page)
    ensures SameQueues(before, Serve(r, MarkReconcileAttempt(id, at)).0, page)
  {
    hide Backoff;
  }

  lemma DueWithin(r: Registry, queue: string, now: Instant)
    ensures DueIds(r, queue, now) <= r.rows.Keys
  {
  }

  lemma MarkNone(r: Registry)
    ensures MarkAll(r, []) == r
  {
  }

  lemma BlankIsActive()
    ensures !IsTerminal("")
  {
    assert TrimRight(TrimLeft("")) == "";
    assert Lower("") == "";
  }

  /** Any row that precedes all others of the set is the least one. */
  lemma LeastExists(r: Registry, ids: set<int>)
    requires ids <= r.rows.Keys && ids != {}
    ensures Least(r, ids) in ids && forall id :: id in ids && id != Least(r, ids) ==> Before(r, Least(r, ids), id)
  {
  }

  /** Whoever picks a row before all others picks the next one of the page. */
  lemma NextOfPage(r: Registry, due: set<int>, least: int, page: seq<int>, n: nat)
    requires due <= r.rows.Keys && n > 0
    requires least in due && forall id :: id in due && id != least ==> Before(r, least, id)
    ensures page + First(r, due, n) == page + [least] + First(r, due - {least}, n - 1)
  {
    OnlyLeast(r, due, least, Least(r, due));
    FirstUnfolds(r, due, n);
    hide Before, IsLeast, First;
    assert page + ([least] + First(r, due - {least}, n - 1)) == page + [least] + First(r, due - {least}, n - 1);
  }

  lemma OnlyLeast(r: Registry, due: set<int>, x: int, y: int)
    requires due <= r.rows.Keys && IsLeast(r, due, x) && IsLeast(r, due, y)
    ensures x == y
  {
  }

  lemma FirstUnfolds(r: Registry, due: set<int>, n: nat)
    requires due <= r.rows.Keys && n > 0 && due != {}
    ensures First(r, due, n) == [Least(r, due)] + First(r, due - {Least(r, due)}, n - 1)
  {
    hide IsLeast;
  }

  lemma FirstOfNone(r: Registry, due: set<int>, n: nat)
    requires due <= r.rows.Keys && (n == 0 || due == {})
    ensures First(r, due, n) == []
  {
  }
}
