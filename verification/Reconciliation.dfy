/**
 The reconciliation scheduler: pages of due uncertain rows, oldest first, each marked when its printer
 was asked.  However many rows never match, every due row has its turn, unless rows of printers that
 do not answer fill the page.
 */
module Reconciliation {
  import opened Basics
  import opened JobRegistry

  /** The sort key of a row: when it is next due. */
  function DueAt(row: Row): Instant {
    OrElse(row.nextReconcileAt, OrElse(row.reconcileAt, row.updatedAt))
  }

  predicate Waits(r: Registry, queue: string, id: int) {
    id in r.rows && r.rows[id].state == UNCERTAIN && (queue == "" || r.rows[id].queue == queue)
  }

  predicate Due(r: Registry, queue: string, id: int, now: Instant) {
    Waits(r, queue, id) && (r.rows[id].nextReconcileAt.None? || r.rows[id].nextReconcileAt.value <= now)
  }

  predicate Before(r: Registry, i: int, j: int)
    requires i in r.rows && j in r.rows
  {
    DueAt(r.rows[i]) < DueAt(r.rows[j]) || (DueAt(r.rows[i]) == DueAt(r.rows[j]) && i < j)
  }

  function DueIds(r: Registry, queue: string, now: Instant): set<int> {
    set id | id in r.rows && Due(r, queue, id, now)
  }

  ghost predicate IsLeast(r: Registry, ids: set<int>, least: int)
    requires ids <= r.rows.Keys
  {
    least in ids && forall id :: id in ids && id != least ==> Before(r, least, id)
  }

  lemma {:induction false} FindLeast(r: Registry, ids: set<int>) returns (least: int)
    requires ids <= r.rows.Keys && ids != {}
    ensures IsLeast(r, ids, least)
    decreases |ids|
  {
    var id := Pick(ids);
    var others := ids - {id};
    assert ids == others + {id};
    least := id;
    if others == {} {
      OnlyOne(ids, id);
    } else {
      var other := FindLeast(r, others);
      if !Before(r, id, other) {
        least := other;
      }
    }
  }

  /** The least row of a nonempty set, in the order of the query. */
  ghost function Least(r: Registry, ids: set<int>): (least: int)
    requires ids <= r.rows.Keys && ids != {}
    ensures IsLeast(r, ids, least)
  {
    assert exists least :: IsLeast(r, ids, least) by {
      var found := FindLeast(r, ids);
      assert IsLeast(r, ids, found);
    }
    var least :| IsLeast(r, ids, least);
    least
  }

  /** The first n rows of a set, in the order of the query. */
  ghost function First(r: Registry, ids: set<int>, n: nat): seq<int>
    requires ids <= r.rows.Keys
  {
    if n == 0 || ids == {} then []
    else
      var least := Least(r, ids);
      [least] + First(r, ids - {least}, n - 1)
  }

  /** One page of candidates; without a positive limit, all of them. */
  ghost function Page(r: Registry, queue: string, now: Instant, limit: int): seq<int> {
    var ids := DueIds(r, queue, now);
    First(r, ids, if limit > 0 then limit else |ids|)
  }

  /** A page lists due rows once each; a due row that is missing comes after a full page of others. */
  lemma {:induction false} FirstAreFirst(r: Registry, ids: set<int>, n: nat, id: int)
    requires ids <= r.rows.Keys
    ensures |First(r, ids, n)| <= n
    ensures forall y :: y in First(r, ids, n) ==> y in ids
    ensures forall i, j :: 0 <= i < j < |First(r, ids, n)| ==> First(r, ids, n)[i] != First(r, ids, n)[j]
    ensures id in ids && id !in First(r, ids, n) ==>
              |First(r, ids, n)| == n && forall y :: y in First(r, ids, n) ==> Before(r, y, id)
    decreases n
  {
    hide Before;
    if n > 0 && ids != {} {
      var least := Least(r, ids);
      FirstAreFirst(r, ids - {least}, n - 1, id);
      LeastComesFirst(r, ids, id);
    }
  }

  // What a page is, from the rows alone.

  /** An uncertain row of the queue that is not in backoff. */
  predicate IsDue(r: Registry, queue: string, id: int, now: Instant) {
    && id in r.rows && r.rows[id].state == "uncertain" && (queue == "" || r.rows[id].queue == queue)
    && (r.rows[id].nextReconcileAt.None? || r.rows[id].nextReconcileAt.value <= now)
  }

  /** When a row asked for its retry: at the time set for it, else at its last attempt, else at its last change. */
  function RetryTime(row: Row): Instant {
    if row.nextReconcileAt.Some? then row.nextReconcileAt.value
    else if row.reconcileAt.Some? then row.reconcileAt.value
    else row.updatedAt
  }

  predicate Sooner(r: Registry, i: int, j: int)
    requires i in r.rows && j in r.rows
  {
    RetryTime(r.rows[i]) < RetryTime(r.rows[j]) || (RetryTime(r.rows[i]) == RetryTime(r.rows[j]) && i < j)
  }

  function SoonerRows(r: Registry, ids: set<int>, id: int): set<int>
    requires ids <= r.rows.Keys && id in r.rows
  {
    set y | y in ids && Sooner(r, y, id)
  }

  lemma SoonerIsBefore(r: Registry, i: int, j: int)
    requires i in r.rows && j in r.rows
    ensures Sooner(r, i, j) <==> Before(r, i, j)
  {
  }

  lemma {:induction false} FirstByRank(r: Registry, ids: set<int>, n: nat, id: int)
    requires ids <= r.rows.Keys && id in ids
    ensures id in First(r, ids, n) <==> |SoonerRows(r, ids, id)| < n
    decreases n
  {
    hide Sooner, Before;
    if n > 0 {
      var least := Least(r, ids);
      LeastComesFirst(r, ids, id);
      if id == least {
        assert SoonerRows(r, ids, id) == {} by {
          forall y | y in ids
            ensures !Sooner(r, y, id)
          {
            NotSooner(r, ids, y);
          }
        }
      } else {
        SoonerIsBefore(r, least, id);
        FirstByRank(r, ids - {least}, n - 1, id);
        assert SoonerRows(r, ids, id) == SoonerRows(r, ids - {least}, id) + {least};
      }
    }
  }

  lemma NotSooner(r: Registry, ids: set<int>, y: int)
    requires ids <= r.rows.Keys && y in ids
    ensures !Sooner(r, y, Least(r, ids))
  {
    LeastComesFirst(r, ids, y);
  }

  ghost predicate SoonestFirst(r: Registry, page: seq<int>) {
    forall i, j {:trigger page[i], page[j]} :: 0 <= i < j < |page| ==> page[i] in r.rows && page[j] in r.rows && Sooner(r, page[i], page[j])
  }

  lemma {:induction false} FirstInOrder(r: Registry, ids: set<int>, n: nat)
    requires ids <= r.rows.Keys
    ensures SoonestFirst(r, First(r, ids, n))
    decreases n
  {
    hide RetryTime, DueAt;
    if n > 0 && ids != {} {
      var least := Least(r, ids);
      var rest := First(r, ids - {least}, n - 1);
      FirstInOrder(r, ids - {least}, n - 1);
      FirstAreFirst(r, ids - {least}, n - 1, least);
      forall y | y in rest
        ensures y in ids && Sooner(r, least, y)
      {
        LeastComesFirst(r, ids, y);
        SoonerIsBefore(r, least, y);
      }
      SoonestGrows(r, least, rest);
    }
  }

  lemma SoonestGrows(r: Registry, least: int, rest: seq<int>)
    requires least in r.rows && SoonestFirst(r, rest) && forall y :: y in rest ==> y in r.rows && Sooner(r, least, y)
    ensures SoonestFirst(r, [least] + rest)
  {
    var page := [least] + rest;
    assert forall k :: 0 < k < |page| ==> page[k] == rest[k - 1] && page[k] in rest;
    assert page[0] == least;
  }

  /** A row is on the page exactly when it is due and, under a limit, fewer due rows than that come sooner; the soonest is first. */
  lemma PageExactly(r: Registry, queue: string, now: Instant, limit: int, id: int)
    ensures var page, due := Page(r, queue, now, limit), set y | y in r.rows && IsDue(r, queue, y, now);
            && (id in page <==> IsDue(r, queue, id, now) && (limit > 0 ==> |SoonerRows(r, due, id)| < limit))
            && SoonestFirst(r, page)
  {
    hide Sooner, Before, First, SoonestFirst;
    var due := set y | y in r.rows && IsDue(r, queue, y, now);
    assert due == DueIds(r, queue, now);
    var n := if limit > 0 then limit else |due|;
    FirstAreFirst(r, due, n, id);
    FirstInOrder(r, due, n);
    if id in due {
      FirstByRank(r, due, n, id);
      var sooner := SoonerRows(r, due, id);
      NotItself(r, id);
      assert id !in sooner;
      CountWithin(sooner + {id}, due);
    }
  }

  lemma NotItself(r: Registry, id: int)
    requires id in r.rows
    ensures !Sooner(r, id, id)
  {
  }

  lemma LeastComesFirst(r: Registry, ids: set<int>, id: int)
    requires ids <= r.rows.Keys && ids != {}
    ensures id in ids && id != Least(r, ids) ==> Before(r, Least(r, ids), id)
  {
  }

  /** The attempt on one row, at its own instant. */
  datatype Mark = Mark(id: int, at: Instant)

  function MarkAll(r: Registry, marks: seq<Mark>): Registry
    decreases |marks|
  {
    if marks == [] then r else MarkAll(Serve(r, MarkReconcileAttempt(marks[0].id, marks[0].at)).0, marks[1..])
  }

  ghost predicate Marks(marks: seq<Mark>, id: int) {
    exists k :: 0 <= k < |marks| && marks[k].id == id
  }

  ghost predicate Once(marks: seq<Mark>) {
    forall i, j :: 0 <= i < j < |marks| ==> marks[i].id != marks[j].id
  }

  /** A pass at a time: of its page, the rows whose queue answers are marked, once each, in any order, not before that time. */
  ghost predicate Passed(r: Registry, page: seq<int>, answers: set<string>, now: Instant, marks: seq<Mark>) {
    && Once(marks)
    && (forall k :: 0 <= k < |marks| ==> marks[k].at >= now)
    && (forall id :: Marks(marks, id) <==> id in page && id in r.rows && r.rows[id].queue in answers)
  }

  lemma BackoffBounds(reconcileAt: Option<Instant>, nextReconcileAt: Option<Instant>)
    ensures MINUTE <= Backoff(reconcileAt, nextReconcileAt) <= HOUR
  {
  }

  /** After some marks, exactly the marked rows have changed, each as its own attempt says. */
  lemma {:induction false} MarkedRows(r: Registry, marks: seq<Mark>)
    requires Once(marks) && forall k :: 0 <= k < |marks| ==> marks[k].id in r.rows && Retryable(r.rows[marks[k].id])
    ensures MarkAll(r, marks).rows.Keys == r.rows.Keys
    ensures MarkAll(r, marks).nextId == r.nextId
    ensures forall k :: 0 <= k < |marks| ==> MarkAll(r, marks).rows[marks[k].id] == Attempted(r.rows[marks[k].id], marks[k].at)
    ensures forall id :: id in r.rows && !Marks(marks, id) ==> MarkAll(r, marks).rows[id] == r.rows[id]
    decreases |marks|
  {
    hide Attempted, Retryable;
    if marks != [] {
      var m := marks[0];
      var u := Serve(r, MarkReconcileAttempt(m.id, m.at)).0;
      assert u == Put(r, m.id, Attempted(r.rows[m.id], m.at));
      MarkedRows(u, marks[1..]);
      var v := MarkAll(u, marks[1..]);
      forall id
        ensures Marks(marks[1..], id) ==> Marks(marks, id) && id != m.id
      {
        MarksOfRest(marks, id);
      }
      forall k | 0 <= k < |marks|
        ensures v.rows[marks[k].id] == Attempted(r.rows[marks[k].id], marks[k].at)
      {
        if k > 0 {
          assert marks[1..][k - 1] == marks[k];
        }
      }
    }
  }

  lemma MarksOfRest(marks: seq<Mark>, id: int)
    requires Once(marks) && marks != []
    ensures Marks(marks[1..], id) ==> Marks(marks, id) && id != marks[0].id
  {
    if Marks(marks[1..], id) {
      var k :| 0 <= k < |marks[1..]| && marks[1..][k].id == id;
      assert marks[k + 1] == marks[1..][k];
    }
  }

  /** The waiting rows that sort before a row. */
  function Ahead(r: Registry, queue: string, id: int): set<int>
    requires id in r.rows
  {
    set other | other in r.rows && other != id && Waits(r, queue, other) && Before(r, other, id)
  }

  lemma AttemptedLater(row: Row, now: Instant)
    ensures DueAt(Attempted(row, now)) >= now + MINUTE
    ensures Attempted(row, now).state == row.state && Attempted(row, now).queue == row.queue
  {
    BackoffBounds(row.reconcileAt, row.nextReconcileAt);
  }

  lemma {:induction false} PageSize<T>(page: seq<T>, ids: set<T>)
    requires Distinct(page) && forall id :: id in page <==> id in ids
    ensures |ids| == |page|
    decreases |page|
  {
    if page == [] {
      assert ids == {};
    } else {
      var n := |page| - 1;
      assert page == page[..n] + [page[n]];
      assert page[n] !in page[..n];
      assert page[n] in ids;
      PageSize(page[..n], ids - {page[n]});
    }
  }

  lemma WaitingIsRetryable(r: Registry, queue: string, id: int)
    requires Sound(r) && Waits(r, queue, id)
    ensures Retryable(r.rows[id])
  {
    ActiveNames();
    hide IsTerminal;
    SoundRow(r, id);
  }

  lemma PageOf(r: Registry, queue: string, now: Instant, limit: int, id: int)
    requires Sound(r) && limit > 0 && id in r.rows
    ensures Distinct(Page(r, queue, now, limit))
    ensures forall y :: y in Page(r, queue, now, limit) ==> Due(r, queue, y, now) && Retryable(r.rows[y])
    ensures Due(r, queue, id, now) && id !in Page(r, queue, now, limit) ==>
              && |Page(r, queue, now, limit)| == limit
              && forall y :: y in Page(r, queue, now, limit) ==> y in r.rows && Before(r, y, id)
  {
    hide First, Before, Sound, Retryable;
    var page := Page(r, queue, now, limit);
    FirstAreFirst(r, DueIds(r, queue, now), limit, id);
    forall y | y in page
      ensures Due(r, queue, y, now) && Retryable(r.rows[y])
    {
      assert y in DueIds(r, queue, now);
      WaitingIsRetryable(r, queue, y);
    }
  }

  /** The rows ahead whose queue is not among those that answer. */
  function Stuck(r: Registry, queue: string, id: int, live: set<string>): set<int>
    requires id in r.rows
  {
    set other | other in Ahead(r, queue, id) && other in r.rows && r.rows[other].queue !in live
  }

  lemma MarksOfPage(r: Registry, queue: string, now: Instant, limit: int, id: int, answers: set<string>, marks: seq<Mark>)
    requires Sound(r) && limit > 0 && id in r.rows && Passed(r, Page(r, queue, now, limit), answers, now, marks)
    ensures forall k :: 0 <= k < |marks| ==>
              marks[k].id in r.rows && Retryable(r.rows[marks[k].id]) && marks[k].id in Page(r, queue, now, limit)
  {
    hide Page, Sound, Retryable;
    PageOf(r, queue, now, limit, id);
    forall k | 0 <= k < |marks|
      ensures marks[k].id in r.rows && Retryable(r.rows[marks[k].id]) && marks[k].id in Page(r, queue, now, limit)
    {
      assert Marks(marks, marks[k].id);
    }
  }

  /** The ids of some marks. */
  ghost function Marked(marks: seq<Mark>): set<int> {
    set k | 0 <= k < |marks| :: marks[k].id
  }

  lemma {:induction false} MarkedSize(marks: seq<Mark>)
    requires Once(marks)
    ensures |Marked(marks)| == |marks|
    ensures forall id :: id in Marked(marks) <==> Marks(marks, id)
    decreases |marks|
  {
    if marks == [] {
      assert Marked(marks) == {};
    } else {
      var n := |marks| - 1;
      MarkedSize(marks[..n]);
      assert Marked(marks) == Marked(marks[..n]) + {marks[n].id};
      assert marks[n].id !in Marked(marks[..n]);
    }
  }

  /**
   A pass that does not return a due row returns a full page of rows ahead of it.  Those whose printer
   answers move behind it, which are all but the stuck ones; the row itself stays as it is.
   */
  lemma PassMovesAhead(r: Registry, queue: string, now: Instant, limit: int, id: int, answers: set<string>, marks: seq<Mark>)
    requires Sound(r) && limit > 0 && Waits(r, queue, id) && DueAt(r.rows[id]) <= now
    requires id !in Page(r, queue, now, limit) && Passed(r, Page(r, queue, now, limit), answers, now, marks)
    ensures var u := MarkAll(r, marks);
            && Sound(u) && id in u.rows && u.rows[id] == r.rows[id]
            && Ahead(u, queue, id) == Ahead(r, queue, id) - Marked(marks)
            && |Ahead(u, queue, id)| == |Ahead(r, queue, id)| - |marks|
            && |marks| >= limit - |Stuck(r, queue, id, answers)|
            && forall other :: other in Ahead(u, queue, id) ==> u.rows[other] == r.rows[other]
  {
    hide Page, MarkAll, Attempted, Sound, Retryable, Before, Waits, DueAt;
    var page := Page(r, queue, now, limit);
    var u := MarkAll(r, marks);
    DueNow(r, queue, id, now);
    PageOf(r, queue, now, limit, id);
    MarksOfPage(r, queue, now, limit, id, answers, marks);
    MarkedRows(r, marks);
    MarkSound(r, marks);
    MarkedSize(marks);
    forall y | y in page
      ensures y in Ahead(r, queue, id)
    {
      DueWaits(r, queue, y, now);
    }
    forall y | y in r.rows
      ensures y in Ahead(u, queue, id) <==> y in Ahead(r, queue, id) && y !in Marked(marks)
    {
      if Marks(marks, y) {
        var k :| 0 <= k < |marks| && marks[k].id == y;
        MarkedIsBehind(r, u, queue, y, id, marks[k].at);
      } else {
        SameIsAhead(r, u, queue, y, id);
      }
    }
    assert Ahead(u, queue, id) == Ahead(r, queue, id) - Marked(marks);
    assert Marked(marks) <= Ahead(r, queue, id);
    var rows := set y | y in page;
    assert forall y :: y in page <==> y in rows;
    PageSize(page, rows);
    assert rows <= Marked(marks) + Stuck(r, queue, id, answers);
    CountWithin(rows, Marked(marks) + Stuck(r, queue, id, answers));
    CountUnion(Marked(marks), Stuck(r, queue, id, answers));
  }

  lemma CountUnion(a: set<int>, b: set<int>)
    ensures |a + b| <= |a| + |b|
  {
    CountWithin(b - a, b);
    assert a + b == a + (b - a);
  }

  lemma DueNow(r: Registry, queue: string, id: int, now: Instant)
    requires Waits(r, queue, id) && DueAt(r.rows[id]) <= now
    ensures id in r.rows && Due(r, queue, id, now)
  {
  }

  lemma DueWaits(r: Registry, queue: string, id: int, now: Instant)
    requires Due(r, queue, id, now)
    ensures Waits(r, queue, id) && id in r.rows
  {
  }

  lemma MarkedIsBehind(r: Registry, u: Registry, queue: string, y: int, id: int, at: Instant)
    requires y in r.rows && id in r.rows && y in u.rows && id in u.rows && u.rows[id] == r.rows[id]
    requires u.rows[y] == Attempted(r.rows[y], at) && DueAt(r.rows[id]) <= at
    ensures y !in Ahead(u, queue, id)
  {
    AttemptedLater(r.rows[y], at);
  }

  lemma SameIsAhead(r: Registry, u: Registry, queue: string, y: int, id: int)
    requires y in r.rows && id in r.rows && y in u.rows && id in u.rows && u.rows[id] == r.rows[id] && u.rows[y] == r.rows[y]
    ensures y in Ahead(u, queue, id) <==> y in Ahead(r, queue, id)
  {
  }

  lemma {:induction false} MarkSound(r: Registry, marks: seq<Mark>)
    requires Sound(r)
    ensures Sound(MarkAll(r, marks))
    decreases |marks|
  {
    hide Sound, Serve, Steps;
    if marks != [] {
      ServeSound(r, MarkReconcileAttempt(marks[0].id, marks[0].at));
      MarkSound(Serve(r, MarkReconcileAttempt(marks[0].id, marks[0].at)).0, marks[1..]);
    }
  }

  // Requests between the passes.

  /**
   The one request that can put a row ahead of one that has waited longer: the plain state update
   to "uncertain" keeps the old retry time of a row that was not waiting.
   */
  predicate Overtakes(r: Registry, q: Request, queue: string, id: int)
    requires id in r.rows
  {
    && q.UpdateState? && q.state == UNCERTAIN && q.id in r.rows && r.rows[q.id].queue == q.queue
    && var row, due := r.rows[q.id], DueAt(r.rows[id]);
       var at := OrElse(row.nextReconcileAt, OrElse(row.reconcileAt, q.now));
    && !Guarded(row) && row.state != UNCERTAIN && (queue == "" || row.queue == queue)
    && (at < due || (at == due && q.id < id))
  }

  /** A request that leaves a waiting row alone and comes after the row was due. */
  predicate Elsewhere(r: Registry, q: Request, id: int)
    requires id in r.rows
  {
    Admissible(q) && (q.Reserve? || q.CleanupTerminalBefore? || (q.id != id && q.now > DueAt(r.rows[id])))
  }

  /** A changed row is not due earlier than it was, or only after the given time. */
  predicate NotEarlier(row: Row, next: Row, due: Instant) {
    next.state == UNCERTAIN ==>
      next.queue == row.queue && (DueAt(next) > due || (row.state == UNCERTAIN && DueAt(next) >= DueAt(row)))
  }

  lemma AttemptNotEarlier(row: Row, now: Instant, due: Instant)
    requires now > due
    ensures NotEarlier(row, Attempted(row, now), due)
  {
    AttemptedLater(row, now);
    hide Attempted;
  }

  lemma EndNotEarlier(row: Row, state: string, observed: string, error: string, now: Instant, due: Instant)
    requires IsTerminal(state)
    ensures NotEarlier(row, Ended(row, state, observed, error, now), due)
  {
    ActiveNames();
    hide IsTerminal;
  }

  lemma ChangeNotEarlier(r: Registry, q: Request, due: Instant)
    requires !q.Reserve? && !q.CleanupTerminalBefore? && Serve(r, q).1.Done?
    requires q.now > due && (q.UpdateState? ==> q.state != UNCERTAIN)
    ensures q.id in r.rows && q.id in Serve(r, q).0.rows
    ensures Serve(r, q).0 == Put(r, q.id, Serve(r, q).0.rows[q.id])
    ensures NotEarlier(r.rows[q.id], Serve(r, q).0.rows[q.id], due)
  {
    ActiveNames();
    hide IsTerminal, SqlTerminal, IdTaken, Contradicts, Attempted, Ended;
    var row, next := r.rows[q.id], Serve(r, q).0.rows[q.id];
    if q.MarkReconcileAttempt? {
      AttemptNotEarlier(row, q.now, due);
    } else if q.MarkTerminal? || (q.UpdateObserved? && IsTerminal(q.state)) {
      EndNotEarlier(row, TERMINAL, if q.MarkTerminal? then Observation(q.terminal, q.observed) else q.state, q.error, q.now, due);
    } else if q.UpdateState? && IsTerminal(q.state) {
      EndNotEarlier(row, q.state, if q.state == "" then row.observedState else q.state, row.observedError, q.now, due);
    }
  }

  lemma RowAfter(r: Registry, q: Request, id: int, other: int)
    requires Sound(r) && id in r.rows && r.rows[id].state == UNCERTAIN && Elsewhere(r, q, id)
    requires q.UpdateState? ==> q.state != UNCERTAIN
    ensures id in Serve(r, q).0.rows && Serve(r, q).0.rows[id] == r.rows[id]
    ensures other in Serve(r, q).0.rows && Serve(r, q).0.rows[other].state == UNCERTAIN ==>
              other in r.rows && NotEarlier(r.rows[other], Serve(r, q).0.rows[other], DueAt(r.rows[id]))
  {
    SoundRow(r, id);
    RefusedChangesNothing(r, q);
    UncertainIsNotSpelled();
    hide RowSound, Spelled, Unshared, DueAt;
    if q.Reserve? || q.CleanupTerminalBefore? {
    } else {
      hide Serve;
      if Serve(r, q).1.Done? {
        ChangeNotEarlier(r, q, DueAt(r.rows[id]));
      }
    }
  }

  lemma UncertainIsNotSpelled()
    ensures !Spelled(UNCERTAIN)
  {
    ActiveNames();
    TestsOrdered(UNCERTAIN);
  }

  lemma PlainKeepsTurn(r: Registry, q: Request, queue: string, id: int)
    requires Sound(r) && Waits(r, queue, id) && Elsewhere(r, q, id) && (q.UpdateState? ==> q.state != UNCERTAIN)
    ensures id in Serve(r, q).0.rows && Serve(r, q).0.rows[id] == r.rows[id]
    ensures Ahead(Serve(r, q).0, queue, id) <= Ahead(r, queue, id)
  {
    hide Serve, Sound, DueAt, Admissible;
    RowAfter(r, q, id, id);
    forall other | other in Ahead(Serve(r, q).0, queue, id)
      ensures other in Ahead(r, queue, id)
    {
      RowAfter(r, q, id, other);
    }
  }

  lemma UncertainKeepsTurn(r: Registry, q: Request, queue: string, id: int)
    requires Waits(r, queue, id) && q.UpdateState? && q.state == UNCERTAIN && q.id != id && q.now > DueAt(r.rows[id])
    ensures id in Serve(r, q).0.rows && Serve(r, q).0.rows[id] == r.rows[id]
    ensures Ahead(Serve(r, q).0, queue, id) <= Ahead(r, queue, id) <==> !Overtakes(r, q, queue, id)
  {
    ActiveNames();
    hide IsTerminal, SqlTerminal;
    var u := Serve(r, q).0;
    if q.id in r.rows && r.rows[q.id].queue == q.queue && !Guarded(r.rows[q.id]) {
      var next := r.rows[q.id].(state := UNCERTAIN, updatedAt := q.now);
      assert u == Put(r, q.id, next);
      hide Guarded;
      forall other | other != q.id
        ensures other in Ahead(u, queue, id) <==> other in Ahead(r, queue, id)
      {
      }
      assert Ahead(u, queue, id) <= Ahead(r, queue, id) <==> (q.id in Ahead(u, queue, id) ==> q.id in Ahead(r, queue, id));
    } else {
      assert u == r;
    }
  }

  /**
   A request elsewhere, after a waiting row was due, leaves that row as it is, and adds something
   ahead of it if and only if it overtakes.
   */
  lemma RequestKeepsTurn(r: Registry, q: Request, queue: string, id: int)
    requires Sound(r) && Waits(r, queue, id) && Elsewhere(r, q, id)
    ensures Sound(Serve(r, q).0) && id in Serve(r, q).0.rows && Serve(r, q).0.rows[id] == r.rows[id]
    ensures Ahead(Serve(r, q).0, queue, id) <= Ahead(r, queue, id) <==> !Overtakes(r, q, queue, id)
  {
    hide Serve, Sound, Steps, DueAt, Admissible, Ahead, Guarded;
    ServeSound(r, q);
    if q.UpdateState? && q.state == UNCERTAIN {
      UncertainKeepsTurn(r, q, queue, id);
    } else {
      PlainKeepsTurn(r, q, queue, id);
    }
  }

  /** Two reserved rows that became uncertain at 100 and at 50; the second was mapped since. */
  const OVERTAKING: seq<Request> := [
    Reserve(Reservation("q", "", "", "", 1, None, None, None, None, None, None), 10),
    Reserve(Reservation("q", "", "", "", 1, None, None, None, None, None, None), 20),
    MarkUncertain("q", 1, "", 100), MarkUncertain("q", 2, "", 50), UpdateState("q", 2, MAPPED, 150)]

  /** Declaring the second row uncertain again, at 200, puts it ahead of the first, which has waited since 100. */
  lemma UncertainOvertakes()
    ensures var r, q := ServeAll(EMPTY, OVERTAKING), UpdateState("q", 2, UNCERTAIN, 200);
            && Sound(r) && Waits(r, "q", 1) && Elsewhere(r, q, 1) && Overtakes(r, q, "q", 1)
            && Ahead(r, "q", 1) == {} && Ahead(Serve(r, q).0, "q", 1) == {2}
  {
    ActiveNames();
    TestsOrdered(MAPPED);
    TestsOrdered(UNCERTAIN);
    TestsOrdered(RESERVED);
    hide IsTerminal, SqlTerminal, Spelled;
    var v := Reservation("q", "", "", "", 1, None, None, None, None, None, None);
    var first := Doubtful(NewRow(v, 10), "", 100);
    var second := Doubtful(NewRow(v, 20), "", 50).(state := MAPPED, updatedAt := 150);
    assert ServeAll(EMPTY, OVERTAKING) == Registry(map[1 := first, 2 := second], 3) by {
      OvertakingRun(v);
    }
    var r, q := Registry(map[1 := first, 2 := second], 3), UpdateState("q", 2, UNCERTAIN, 200);
    assert RowSound(first) && RowSound(second);
    assert Serve(r, q).0 == Put(r, 2, second.(state := UNCERTAIN, updatedAt := 200));
  }

  lemma OvertakingRun(v: Reservation)
    requires v == Reservation("q", "", "", "", 1, None, None, None, None, None, None)
    ensures ServeAll(EMPTY, OVERTAKING)
         == Registry(map[1 := Doubtful(NewRow(v, 10), "", 100),
                         2 := Doubtful(NewRow(v, 20), "", 50).(state := MAPPED, updatedAt := 150)], 3)
  {
    ActiveNames();
    TestsOrdered(UNCERTAIN);
    hide IsTerminal, SqlTerminal;
    var a, b := NewRow(v, 10), NewRow(v, 20);
    var r1, r2 := Registry(map[1 := a], 2), Registry(map[1 := a, 2 := b], 3);
    var r3 := Registry(map[1 := Doubtful(a, "", 100), 2 := b], 3);
    var r4 := Registry(map[1 := Doubtful(a, "", 100), 2 := Doubtful(b, "", 50)], 3);
    OneMore(EMPTY, OVERTAKING);
    assert Serve(EMPTY, OVERTAKING[0]).0 == r1;
    OneMore(r1, OVERTAKING[1..]);
    assert Serve(r1, OVERTAKING[1]).0 == r2;
    OneMore(r2, OVERTAKING[2..]);
    assert Serve(r2, OVERTAKING[2]).0 == r3;
    OneMore(r3, OVERTAKING[3..]);
    assert Serve(r3, OVERTAKING[3]).0 == r4;
    OneMore(r4, OVERTAKING[4..]);
    OneMore(Serve(r4, OVERTAKING[4]).0, []);
    assert OVERTAKING[4..][1..] == [];
  }

  lemma OneMore(r: Registry, requests: seq<Request>)
    ensures requests == [] ==> ServeAll(r, requests) == r
    ensures requests != [] ==> ServeAll(r, requests) == ServeAll(Serve(r, requests[0]).0, requests[1..])
  {
  }

  /** Requests elsewhere, none of which overtakes. */
  ghost predicate Harmless(r: Registry, requests: seq<Request>, queue: string, id: int)
    requires id in r.rows
    decreases |requests|
  {
    requests != [] ==>
      && Elsewhere(r, requests[0], id) && !Overtakes(r, requests[0], queue, id)
      && id in Serve(r, requests[0]).0.rows && Harmless(Serve(r, requests[0]).0, requests[1..], queue, id)
  }

  lemma {:induction false} RequestsKeepTurn(r: Registry, requests: seq<Request>, queue: string, id: int)
    requires Sound(r) && Waits(r, queue, id) && Harmless(r, requests, queue, id)
    ensures Sound(ServeAll(r, requests)) && id in ServeAll(r, requests).rows && ServeAll(r, requests).rows[id] == r.rows[id]
    ensures Ahead(ServeAll(r, requests), queue, id) <= Ahead(r, queue, id)
    decreases |requests|
  {
    hide Serve, Sound, Ahead, Elsewhere, Overtakes, DueAt;
    if requests != [] {
      RequestKeepsTurn(r, requests[0], queue, id);
      RequestsKeepTurn(Serve(r, requests[0]).0, requests[1..], queue, id);
    }
  }

  /** A round: some requests, then a reconciliation pass that finds no match and marks the rows of the queues that answer. */
  datatype Round = Round(requests: seq<Request>, at: Instant, answers: set<string>, marks: seq<Mark>)

  /** The number of the round whose page first holds the row; the number of rounds if none does. */
  ghost function Turn(r: Registry, rounds: seq<Round>, queue: string, limit: int, id: int): nat
    decreases |rounds|
  {
    if rounds == [] then 0
    else
      var u := ServeAll(r, rounds[0].requests);
      if id in Page(u, queue, rounds[0].at, limit) then 0
      else 1 + Turn(MarkAll(u, rounds[0].marks), rounds[1..], queue, limit, id)
  }

  /**
   Rounds after the row is due, without overtaking, in which at least some queues always answer; each
   round's requests meet what the rounds before left.
   */
  ghost predicate HarmlessRounds(r: Registry, rounds: seq<Round>, queue: string, limit: int, id: int, live: set<string>)
    requires id in r.rows
    decreases |rounds|
  {
    rounds != [] ==>
      && DueAt(r.rows[id]) <= rounds[0].at && Harmless(r, rounds[0].requests, queue, id) && live <= rounds[0].answers
      && var u := ServeAll(r, rounds[0].requests);
         var page := Page(u, queue, rounds[0].at, limit);
         && Passed(u, page, rounds[0].answers, rounds[0].at, rounds[0].marks)
         && (id !in page && id in MarkAll(u, rounds[0].marks).rows ==>
               HarmlessRounds(MarkAll(u, rounds[0].marks), rounds[1..], queue, limit, id, live))
  }

  /** Requests and passes add no stuck row. */
  lemma StuckShrinks(r: Registry, u: Registry, queue: string, id: int, live: set<string>)
    requires Steps(r, u) && id in r.rows && id in u.rows && Ahead(u, queue, id) <= Ahead(r, queue, id)
    ensures |Stuck(u, queue, id, live)| <= |Stuck(r, queue, id, live)|
  {
    hide Ahead, IsTerminal;
    forall other | other in Stuck(u, queue, id, live)
      ensures other in Stuck(r, queue, id, live)
    {
      assert other in r.rows by {
        AheadIsRow(r, queue, id, other);
      }
      assert RowSteps(r.rows[other], u.rows[other]);
    }
    CountWithin(Stuck(u, queue, id, live), Stuck(r, queue, id, live));
  }

  lemma AheadIsRow(r: Registry, queue: string, id: int, other: int)
    requires id in r.rows && other in Ahead(r, queue, id)
    ensures other in r.rows
  {
  }

  lemma FewerStuck(r: Registry, queue: string, id: int, live: set<string>, answers: set<string>)
    requires id in r.rows && live <= answers
    ensures |Stuck(r, queue, id, answers)| <= |Stuck(r, queue, id, live)|
  {
    hide Ahead;
    CountWithin(Stuck(r, queue, id, answers), Stuck(r, queue, id, live));
  }

  lemma {:induction false} MarkSteps(r: Registry, marks: seq<Mark>)
    requires Sound(r)
    ensures Steps(r, MarkAll(r, marks))
    decreases |marks|
  {
    hide Sound, Serve, Steps;
    if marks == [] {
      StepsSelf(r);
    } else {
      var u := Serve(r, MarkReconcileAttempt(marks[0].id, marks[0].at)).0;
      ServeSound(r, MarkReconcileAttempt(marks[0].id, marks[0].at));
      MarkSteps(u, marks[1..]);
      IdsBelow(r);
      StepsChain(r, u, MarkAll(u, marks[1..]));
    }
  }

  lemma IdsBelow(r: Registry)
    requires Sound(r)
    ensures forall id :: id in r.rows ==> id < r.nextId
  {
  }

  lemma {:induction false} HarmlessAdmissible(r: Registry, requests: seq<Request>, queue: string, id: int)
    requires id in r.rows && Harmless(r, requests, queue, id)
    ensures forall i :: 0 <= i < |requests| ==> Admissible(requests[i])
    decreases |requests|
  {
    hide Serve, Overtakes, DueAt;
    if requests != [] {
      HarmlessAdmissible(Serve(r, requests[0]).0, requests[1..], queue, id);
      forall i | 0 <= i < |requests|
        ensures Admissible(requests[i])
      {
        assert i > 0 ==> requests[i] == requests[1..][i - 1];
      }
    }
  }

  /**
   Fairness: with n rows ahead of a due row, k of them of queues that may be silent, and k below the page
   size, the row is returned in a round t, counted from zero, with t * (limit - k) <= n, however many of
   the rows never match and whatever requests that do not overtake come in between.
   */
  lemma {:induction false} TurnComes(r: Registry, rounds: seq<Round>, queue: string, limit: int, id: int, live: set<string>, k: nat)
    requires Sound(r) && Waits(r, queue, id) && |Stuck(r, queue, id, live)| <= k < limit
    requires HarmlessRounds(r, rounds, queue, limit, id, live)
    requires |rounds| * (limit - k) > |Ahead(r, queue, id)|
    ensures Turn(r, rounds, queue, limit, id) < |rounds|
    ensures Turn(r, rounds, queue, limit, id) * (limit - k) <= |Ahead(r, queue, id)|
    decreases |rounds|
  {
    hide Sound, Page, MarkAll, ServeAll, Ahead, Stuck, DueAt, Harmless, Passed, Steps;
    if rounds != [] {
      var round := rounds[0];
      var u := ServeAll(r, round.requests);
      RequestsKeepTurn(r, round.requests, queue, id);
      CountWithin(Ahead(u, queue, id), Ahead(r, queue, id));
      HarmlessAdmissible(r, round.requests, queue, id);
      RunSound(r, round.requests);
      StuckShrinks(r, u, queue, id, live);
      var page := Page(u, queue, round.at, limit);
      if id !in page {
        PassMovesAhead(u, queue, round.at, limit, id, round.answers, round.marks);
        FewerStuck(u, queue, id, live, round.answers);
        var v := MarkAll(u, round.marks);
        MarkSteps(u, round.marks);
        StuckShrinks(u, v, queue, id, live);
        OnePageLess(|rounds|, limit - k);
        TurnComes(v, rounds[1..], queue, limit, id, live, k);
        OnePageLess(Turn(v, rounds[1..], queue, limit, id) + 1, limit - k);
      }
    }
  }

  // When the turn never comes.

  /** Requests that leave some waiting rows alone. */
  predicate Apart(q: Request, ids: set<int>) {
    Admissible(q) && (q.Reserve? || q.CleanupTerminalBefore? || q.id !in ids)
  }

  /** Rounds in which the queues that answer are never those of the given rows, and which otherwise leave these rows alone. */
  ghost predicate SilentRounds(r: Registry, rounds: seq<Round>, queue: string, limit: int, ids: set<int>, silent: set<int>, id: int)
    requires id in r.rows
    decreases |rounds|
  {
    rounds != [] ==>
      && DueAt(r.rows[id]) <= rounds[0].at
      && (forall i :: 0 <= i < |rounds[0].requests| ==> Apart(rounds[0].requests[i], ids))
      && (forall y :: y in silent && y in r.rows ==> r.rows[y].queue !in rounds[0].answers)
      && var u := ServeAll(r, rounds[0].requests);
         && Passed(u, Page(u, queue, rounds[0].at, limit), rounds[0].answers, rounds[0].at, rounds[0].marks)
         && (id in MarkAll(u, rounds[0].marks).rows ==>
               SilentRounds(MarkAll(u, rounds[0].marks), rounds[1..], queue, limit, ids, silent, id))
  }

  lemma RowApart(r: Registry, q: Request, y: int, ids: set<int>)
    requires Sound(r) && y in r.rows && r.rows[y].state == UNCERTAIN && y in ids && Apart(q, ids)
    ensures y in Serve(r, q).0.rows && Serve(r, q).0.rows[y] == r.rows[y]
  {
    SoundRow(r, y);
    RefusedChangesNothing(r, q);
    UncertainIsNotSpelled();
    hide RowSound, Spelled, Unshared, IsTerminal, SqlTerminal, IdTaken, Contradicts;
  }

  lemma {:induction false} RowsApart(r: Registry, requests: seq<Request>, y: int, ids: set<int>)
    requires Sound(r) && y in r.rows && r.rows[y].state == UNCERTAIN && y in ids
    requires forall i :: 0 <= i < |requests| ==> Apart(requests[i], ids)
    ensures y in ServeAll(r, requests).rows && ServeAll(r, requests).rows[y] == r.rows[y]
    decreases |requests|
  {
    hide Serve, Sound, Apart, Steps, Admissible;
    if requests != [] {
      RowApart(r, requests[0], y, ids);
      ApartAdmissible(requests[0], ids);
      ServeSound(r, requests[0]);
      RowsApart(Serve(r, requests[0]).0, requests[1..], y, ids);
    }
  }

  lemma ApartAdmissible(q: Request, ids: set<int>)
    requires Apart(q, ids)
    ensures Admissible(q)
  {
  }

  /** A page holds, with a row, every due row before it. */
  lemma PageIsPrefix(r: Registry, queue: string, now: Instant, limit: int, id: int, y: int)
    requires Sound(r) && limit > 0 && id in Page(r, queue, now, limit)
    requires Due(r, queue, y, now) && y in r.rows && id in r.rows && Before(r, y, id)
    ensures y in Page(r, queue, now, limit)
  {
    PageOf(r, queue, now, limit, y);
    hide Page, Sound;
  }

  /** With a full page of silent rows before it, a row is not on the page. */
  lemma CrowdedOut(r: Registry, queue: string, now: Instant, limit: int, silent: set<int>, id: int)
    requires Sound(r) && limit > 0 && Waits(r, queue, id) && DueAt(r.rows[id]) <= now
    requires silent <= Ahead(r, queue, id) && |silent| >= limit
    ensures id !in Page(r, queue, now, limit)
  {
    hide Page, Sound, Before;
    var page := Page(r, queue, now, limit);
    if id in page {
      PageOf(r, queue, now, limit, id);
      forall y | y in silent
        ensures y in page
      {
        AheadIsDue(r, queue, now, id, y);
        PageIsPrefix(r, queue, now, limit, id, y);
      }
      var rows := set y | y in page;
      assert forall y :: y in page <==> y in rows;
      PageSize(page, rows);
      PageFits(r, queue, now, limit);
      assert id !in silent;
      CountWithin(silent + {id}, rows);
    }
  }

  lemma AheadIsDue(r: Registry, queue: string, now: Instant, id: int, y: int)
    requires id in r.rows && DueAt(r.rows[id]) <= now && y in Ahead(r, queue, id)
    ensures y in r.rows && Due(r, queue, y, now) && Before(r, y, id)
  {
  }

  lemma PageFits(r: Registry, queue: string, now: Instant, limit: int)
    requires limit > 0
    ensures |Page(r, queue, now, limit)| <= limit
  {
    FirstAreFirst(r, DueIds(r, queue, now), limit, 0);
  }

  /** As long as a page of rows before it belongs to queues that never answer, a row never has its turn. */
  lemma {:induction false} TurnNeverComes(r: Registry, rounds: seq<Round>, queue: string, limit: int, silent: set<int>, id: int)
    requires Sound(r) && limit > 0 && Waits(r, queue, id)
    requires silent <= Ahead(r, queue, id) && |silent| >= limit
    requires SilentRounds(r, rounds, queue, limit, silent + {id}, silent, id)
    ensures Turn(r, rounds, queue, limit, id) == |rounds|
    decreases |rounds|
  {
    hide Sound, Page, MarkAll, ServeAll, Before, DueAt, Passed, Apart;
    if rounds != [] {
      var round := rounds[0];
      var u := ServeAll(r, round.requests);
      forall i | 0 <= i < |round.requests|
        ensures Admissible(round.requests[i])
      {
        ApartAdmissible(round.requests[i], silent + {id});
      }
      RunSound(r, round.requests);
      RowsApart(r, round.requests, id, silent + {id});
      forall y | y in silent
        ensures y in u.rows && u.rows[y] == r.rows[y]
      {
        RowsApart(r, round.requests, y, silent + {id});
      }
      StillAhead(r, u, queue, silent, id);
      CrowdedOut(u, queue, round.at, limit, silent, id);
      var v := MarkAll(u, round.marks);
      SilentUnmarked(u, queue, limit, round, silent, id);
      StillAhead(u, v, queue, silent, id);
      MarkSound(u, round.marks);
      TurnNeverComes(v, rounds[1..], queue, limit, silent, id);
    }
  }

  lemma StillAhead(r: Registry, u: Registry, queue: string, silent: set<int>, id: int)
    requires Waits(r, queue, id) && silent <= Ahead(r, queue, id) && id in u.rows && u.rows[id] == r.rows[id]
    requires forall y :: y in silent ==> y in r.rows && y in u.rows && u.rows[y] == r.rows[y]
    ensures Waits(u, queue, id) && silent <= Ahead(u, queue, id)
  {
    forall y | y in silent
      ensures y in Ahead(u, queue, id)
    {
      assert y in Ahead(r, queue, id);
    }
  }

  lemma SilentUnmarked(u: Registry, queue: string, limit: int, round: Round, silent: set<int>, id: int)
    requires Sound(u) && limit > 0 && id in u.rows && silent <= u.rows.Keys
    requires Passed(u, Page(u, queue, round.at, limit), round.answers, round.at, round.marks)
    requires id !in Page(u, queue, round.at, limit)
    requires forall y :: y in silent ==> u.rows[y].queue !in round.answers
    ensures var v := MarkAll(u, round.marks);
            && id in v.rows && v.rows[id] == u.rows[id]
            && forall y :: y in silent ==> y in v.rows && v.rows[y] == u.rows[y]
  {
    hide Page, Sound, MarkAll, Retryable;
    MarksOfPage(u, queue, round.at, limit, id, round.answers, round.marks);
    MarkedRows(u, round.marks);
  }

  /** Rounds without other requests, in each of which the same queues answer. */
  ghost predicate QuietRounds(r: Registry, rounds: seq<Round>, queue: string, limit: int, id: int, live: set<string>)
    requires id in r.rows
    decreases |rounds|
  {
    rounds != [] ==>
      && rounds[0].requests == [] && rounds[0].answers == live && DueAt(r.rows[id]) <= rounds[0].at
      && Passed(r, Page(r, queue, rounds[0].at, limit), live, rounds[0].at, rounds[0].marks)
      && (id in MarkAll(r, rounds[0].marks).rows ==>
            QuietRounds(MarkAll(r, rounds[0].marks), rounds[1..], queue, limit, id, live))
  }

  lemma {:induction false} QuietIsHarmless(r: Registry, rounds: seq<Round>, queue: string, limit: int, id: int, live: set<string>)
    requires id in r.rows && QuietRounds(r, rounds, queue, limit, id, live)
    ensures HarmlessRounds(r, rounds, queue, limit, id, live)
    decreases |rounds|
  {
    hide Page, MarkAll, DueAt, Passed;
    if rounds != [] {
      NoRequests(r, rounds[0].requests, queue, id);
      hide Harmless, ServeAll;
      if id in MarkAll(r, rounds[0].marks).rows {
        QuietIsHarmless(MarkAll(r, rounds[0].marks), rounds[1..], queue, limit, id, live);
      }
    }
  }

  lemma NoRequests(r: Registry, requests: seq<Request>, queue: string, id: int)
    requires id in r.rows && requests == []
    ensures ServeAll(r, requests) == r && Harmless(r, requests, queue, id)
  {
  }

  lemma {:induction false} QuietIsSilent(r: Registry, rounds: seq<Round>, queue: string, limit: int, id: int, live: set<string>, silent: set<int>)
    requires Sound(r) && id in r.rows && QuietRounds(r, rounds, queue, limit, id, live)
    requires forall y :: y in silent ==> y in r.rows && r.rows[y].queue !in live
    ensures SilentRounds(r, rounds, queue, limit, silent + {id}, silent, id)
    decreases |rounds|
  {
    hide Page, MarkAll, DueAt, Passed, Sound, Steps, IsTerminal;
    if rounds != [] {
      NoRequests(r, rounds[0].requests, queue, id);
      hide ServeAll;
      var v := MarkAll(r, rounds[0].marks);
      if id in v.rows {
        MarkSound(r, rounds[0].marks);
        forall y | y in silent
          ensures y in v.rows && v.rows[y].queue !in live
        {
          MarkKeepsQueue(r, rounds[0].marks, y);
        }
        QuietIsSilent(v, rounds[1..], queue, limit, id, live, silent);
      }
    }
  }

  lemma {:induction false} MarkKeepsQueue(r: Registry, marks: seq<Mark>, y: int)
    requires y in r.rows
    ensures y in MarkAll(r, marks).rows && MarkAll(r, marks).rows[y].queue == r.rows[y].queue
    decreases |marks|
  {
    hide Backoff;
    if marks != [] {
      MarkKeepsQueue(Serve(r, MarkReconcileAttempt(marks[0].id, marks[0].at)).0, marks[1..], y);
    }
  }

  /**
   When the same queues answer in every one of enough rounds, a due row has its turn if and only if
   fewer rows of the other queues are ahead of it than a page holds.
   */
  lemma TurnExactly(r: Registry, rounds: seq<Round>, queue: string, limit: int, id: int, live: set<string>)
    requires Sound(r) && limit > 0 && Waits(r, queue, id) && QuietRounds(r, rounds, queue, limit, id, live)
    requires |rounds| > |Ahead(r, queue, id)|
    ensures Turn(r, rounds, queue, limit, id) < |rounds| <==> |Stuck(r, queue, id, live)| < limit
  {
    var stuck := Stuck(r, queue, id, live);
    if |stuck| < limit {
      QuietIsHarmless(r, rounds, queue, limit, id, live);
      EnoughRounds(|rounds|, |Ahead(r, queue, id)|, limit - |stuck|);
      TurnComes(r, rounds, queue, limit, id, live, |stuck|);
    } else {
      QuietIsSilent(r, rounds, queue, limit, id, live, stuck);
      TurnNeverComes(r, rounds, queue, limit, stuck, id);
    }
  }

  lemma EnoughRounds(rounds: nat, ahead: nat, n: nat)
    requires rounds > ahead && n > 0
    ensures rounds * n > ahead
  {
    assert rounds * n >= rounds;
  }

  lemma OnePageLess(n: int, limit: int)
    ensures n * limit == (n - 1) * limit + limit
  {
  }

  // The pace of one row.

  function PowerOfTwo(n: nat): nat {
    if n == 0 then 1 else 2 * PowerOfTwo(n - 1)
  }

  /** The k-th consecutive delay. */
  function Delay(k: nat): int
    requires k > 0
  {
    Min(PowerOfTwo(k - 1) * MINUTE, HOUR)
  }

  /** Consecutive attempts on one row, at whatever times they come. */
  function AttemptAll(row: Row, times: seq<Instant>): Row {
    if times == [] then row else Attempted(AttemptAll(row, times[..|times| - 1]), times[|times| - 1])
  }

  /** After a row becomes uncertain, its k-th attempt waits min(2^(k-1) minutes, one hour). */
  lemma {:induction false} DelaysDouble(row: Row, reason: string, at: Instant, times: seq<Instant>)
    requires times != []
    ensures var next := AttemptAll(Doubtful(row, reason, at), times);
            && next.reconcileAt == Some(times[|times| - 1])
            && next.nextReconcileAt == Some(times[|times| - 1] + Delay(|times|))
    decreases |times|
  {
    hide Backoff, PowerOfTwo;
    var n := |times| - 1;
    var init := Doubtful(row, reason, at);
    if n == 0 {
      assert AttemptAll(init, times[..0]) == init;
      FirstDelay(at);
    } else {
      DelaysDouble(row, reason, at, times[..n]);
      NextDelay(times[n - 1], n);
    }
  }

  lemma FirstDelay(at: Instant)
    ensures Backoff(Some(at), Some(at)) == Delay(1)
  {
    assert PowerOfTwo(0) == 1;
  }

  lemma NextDelay(at: Instant, k: nat)
    requires k > 0
    ensures Backoff(Some(at), Some(at + Delay(k))) == Delay(k + 1)
  {
    PowerPositive(k - 1);
    var p := PowerOfTwo(k - 1);
    assert PowerOfTwo(k) == 2 * p;
    if p <= 30 {
      assert Delay(k) == p * MINUTE;
    } else if p < 60 {
      assert Delay(k) == p * MINUTE > HOUR / 2;
    }
  }

  lemma {:induction false} PowerPositive(n: nat)
    ensures PowerOfTwo(n) >= 1
  {
    if n > 0 {
      PowerPositive(n - 1);
    }
  }
}
