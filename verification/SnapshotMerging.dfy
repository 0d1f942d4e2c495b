/**
 What merging a run of snapshots amounts to, field by field, without going through the merge: the
 largest value, the first known one, any, or the latest of the newest.
 */
module SnapshotMerging {
  import opened Basics
  import opened JobSnapshots

  function UpdatedAt(s: Snapshot): Instant {
    s.updatedAt
  }

  /** A field over the stored snapshot and all later ones, in order. */
  function Each<T>(s: Snapshot, rest: seq<Snapshot>, f: Snapshot -> T): (r: seq<T>)
    ensures |r| == |rest| + 1 && r[0] == f(s) && forall i :: 0 <= i < |rest| ==> r[i + 1] == f(rest[i])
  {
    [f(s)] + seq(|rest|, i requires 0 <= i < |rest| => f(rest[i]))
  }

  lemma EachGrows<T>(s: Snapshot, rest: seq<Snapshot>, f: Snapshot -> T)
    requires rest != []
    ensures Each(s, rest, f) == Each(s, rest[..|rest| - 1], f) + [f(rest[|rest| - 1])]
  {
    var init := rest[..|rest| - 1];
    var all, most := Each(s, rest, f), Each(s, init, f);
    forall i | 0 <= i < |all|
      ensures all[i] == (most + [f(rest[|rest| - 1])])[i]
    {
      if 0 < i < |rest| {
        assert rest[i - 1] == init[i - 1];
      }
    }
  }

  ghost predicate IsLargest(values: seq<int>, r: int) {
    (forall i :: 0 <= i < |values| ==> values[i] <= r) && exists i :: 0 <= i < |values| && values[i] == r
  }

  ghost predicate IsAny(values: seq<bool>, r: bool) {
    r <==> exists i :: 0 <= i < |values| && values[i]
  }

  /** The first that is not blank, or blank when all are. */
  ghost predicate IsFirst<T(!new)>(values: seq<T>, blank: T, r: T) {
    || (r == blank && forall i :: 0 <= i < |values| ==> values[i] == blank)
    || (r != blank && exists i :: 0 <= i < |values| && values[i] == r && forall j :: 0 <= j < i ==> values[j] == blank)
  }

  /** The largest that is known and not negative, or unknown when there is none. */
  ghost predicate IsLargestKnown(values: seq<Option<int>>, r: Option<int>) {
    && (r.None? <==> forall i :: 0 <= i < |values| ==> values[i].None? || values[i].value < 0)
    && (r.Some? ==> r in values && r.value >= 0 && forall i :: 0 <= i < |values| && values[i].Some? ==> values[i].value <= r.value)
  }

  /** A snapshot at least as new as all before it. */
  ghost predicate IsNewest(times: seq<Instant>, i: nat) {
    i < |times| && forall j :: 0 <= j < i ==> times[j] <= times[i]
  }

  /** What the last of the newest snapshots says that says anything; the stored value if none does. */
  ghost predicate IsLatest<T(!new)>(times: seq<Instant>, values: seq<T>, blank: T, r: T) {
    |times| == |values| &&
    exists i: nat :: i < |values| && IsNewest(times, i) && values[i] == r && (i == 0 || r != blank)
                     && forall j: nat :: i < j < |values| && IsNewest(times, j) ==> values[j] == blank
  }

  lemma {:induction false} LargestField(s: Snapshot, rest: seq<Snapshot>, f: Snapshot -> int)
    requires forall a: Snapshot, b: Snapshot {:trigger Next(Some(a), b)} :: f(Next(Some(a), b)) == Max(f(a), f(b))
    ensures IsLargest(Each(s, rest, f), f(MergeAll(s, rest)))
  {
    hide Next;
    if rest == [] {
      assert Each(s, rest, f)[0] == f(s);
    } else {
      var n := |rest| - 1;
      LargestField(s, rest[..n], f);
      EachGrows(s, rest, f);
      LargestGrows(Each(s, rest[..n], f), f(MergeAll(s, rest[..n])), f(rest[n]));
    }
  }

  lemma LargestGrows(values: seq<int>, r: int, v: int)
    requires IsLargest(values, r)
    ensures IsLargest(values + [v], Max(r, v))
  {
    var all := values + [v];
    assert all[|values|] == v;
    var i :| 0 <= i < |values| && values[i] == r;
    assert all[i] == r;
  }

  lemma {:induction false} AnyField(s: Snapshot, rest: seq<Snapshot>, f: Snapshot -> bool)
    requires forall a: Snapshot, b: Snapshot {:trigger Next(Some(a), b)} :: f(Next(Some(a), b)) == (f(a) || f(b))
    ensures IsAny(Each(s, rest, f), f(MergeAll(s, rest)))
  {
    hide Next;
    var all := Each(s, rest, f);
    if rest == [] {
      assert all[0] == f(s);
    } else {
      var n := |rest| - 1;
      AnyField(s, rest[..n], f);
      EachGrows(s, rest, f);
      var most := Each(s, rest[..n], f);
      assert all[|most|] == f(rest[n]);
      forall i | 0 <= i < |most|
        ensures all[i] == most[i]
      {
      }
      if f(MergeAll(s, rest[..n])) {
        var i :| 0 <= i < |most| && most[i];
        assert all[i];
      }
    }
  }

  lemma {:induction false} FirstField<T(!new)>(s: Snapshot, rest: seq<Snapshot>, f: Snapshot -> T, blank: T)
    requires forall a: Snapshot, b: Snapshot {:trigger Next(Some(a), b)} :: f(Next(Some(a), b)) == if f(a) != blank then f(a) else f(b)
    ensures IsFirst(Each(s, rest, f), blank, f(MergeAll(s, rest)))
  {
    hide Next;
    var all := Each(s, rest, f);
    if rest == [] {
      assert all[0] == f(s);
    } else {
      var n := |rest| - 1;
      FirstField(s, rest[..n], f, blank);
      EachGrows(s, rest, f);
      var most := Each(s, rest[..n], f);
      assert all[|most|] == f(rest[n]);
      forall i | 0 <= i < |most|
        ensures all[i] == most[i]
      {
      }
      if f(MergeAll(s, rest[..n])) != blank {
        var i :| 0 <= i < |most| && most[i] == f(MergeAll(s, rest[..n])) && forall j :: 0 <= j < i ==> most[j] == blank;
        assert all[i] == most[i];
      }
    }
  }

  lemma {:induction false} LargestKnownField(s: Snapshot, rest: seq<Snapshot>, f: Snapshot -> Option<int>)
    requires JobSnapshots.Known(f(s)) == f(s)
    requires forall a: Snapshot, b: Snapshot {:trigger Next(Some(a), b)} :: f(Next(Some(a), b)) == JobSnapshots.Known(MaxKnown(f(a), f(b)))
    ensures IsLargestKnown(Each(s, rest, f), f(MergeAll(s, rest)))
  {
    hide Next;
    var all := Each(s, rest, f);
    if rest == [] {
      assert all == [f(s)];
    } else {
      var n := |rest| - 1;
      LargestKnownField(s, rest[..n], f);
      EachGrows(s, rest, f);
      KnownGrows(Each(s, rest[..n], f), f(MergeAll(s, rest[..n])), f(rest[n]));
    }
  }

  lemma KnownGrows(values: seq<Option<int>>, r: Option<int>, v: Option<int>)
    requires IsLargestKnown(values, r)
    ensures IsLargestKnown(values + [v], JobSnapshots.Known(MaxKnown(r, v)))
  {
    var all := values + [v];
    assert all[|values|] == v;
    assert forall i :: 0 <= i < |values| ==> all[i] == values[i];
  }

  lemma {:induction false} LatestField<T(!new)>(s: Snapshot, rest: seq<Snapshot>, f: Snapshot -> T, blank: T)
    requires forall a: Snapshot, b: Snapshot {:trigger Next(Some(a), b)} ::
               f(Next(Some(a), b)) == if b.updatedAt >= a.updatedAt && f(b) != blank then f(b) else f(a)
    ensures IsLatest(Each(s, rest, UpdatedAt), Each(s, rest, f), blank, f(MergeAll(s, rest)))
  {
    hide Next, IsLatest, IsLargest;
    if rest == [] {
      LatestAlone(Each(s, rest, UpdatedAt), Each(s, rest, f), blank);
    } else {
      var n := |rest| - 1;
      LatestField(s, rest[..n], f, blank);
      EachGrows(s, rest, UpdatedAt);
      EachGrows(s, rest, f);
      NewestTime(s, rest[..n]);
      LatestGrows(Each(s, rest[..n], UpdatedAt), Each(s, rest[..n], f), blank, f(MergeAll(s, rest[..n])),
                  MergeAll(s, rest[..n]).updatedAt, rest[n].updatedAt, f(rest[n]));
    }
  }

  lemma LatestAlone<T(!new)>(times: seq<Instant>, values: seq<T>, blank: T)
    requires |times| == |values| == 1
    ensures IsLatest(times, values, blank, values[0])
  {
    assert IsNewest(times, 0);
  }

  lemma NewestTime(s: Snapshot, rest: seq<Snapshot>)
    ensures IsLargest(Each(s, rest, UpdatedAt), MergeAll(s, rest).updatedAt)
  {
    LargestField(s, rest, UpdatedAt);
  }

  lemma LatestGrows<T(!new)>(times: seq<Instant>, values: seq<T>, blank: T, r: T, newest: Instant, t: Instant, v: T)
    requires IsLatest(times, values, blank, r) && IsLargest(times, newest)
    ensures IsLatest(times + [t], values + [v], blank, if t >= newest && v != blank then v else r)
  {
    var moreTimes, moreValues := times + [t], values + [v];
    var n := |values|;
    assert moreTimes[n] == t && moreValues[n] == v;
    assert forall i :: 0 <= i < n ==> moreTimes[i] == times[i] && moreValues[i] == values[i];
    assert IsNewest(moreTimes, n) <==> t >= newest;
    forall i: nat | i < n
      ensures IsNewest(moreTimes, i) <==> IsNewest(times, i)
    {
    }
    if t < newest || v == blank {
      var i: nat :| i < n && IsNewest(times, i) && values[i] == r && (i == 0 || r != blank)
                    && forall j: nat :: i < j < n && IsNewest(times, j) ==> values[j] == blank;
      assert IsNewest(moreTimes, i) && moreValues[i] == r;
    }
  }

  /** Counters are the largest reported, flags are any, and the newest report time wins. */
  lemma MergedCounters(s: Snapshot, rest: seq<Snapshot>)
    ensures IsLargest(Each(s, rest, (x: Snapshot) => x.documents), MergeAll(s, rest).documents)
    ensures IsLargest(Each(s, rest, (x: Snapshot) => x.copies), MergeAll(s, rest).copies)
    ensures IsLargest(Each(s, rest, (x: Snapshot) => x.payload), MergeAll(s, rest).payload)
    ensures IsLargest(Each(s, rest, UpdatedAt), MergeAll(s, rest).updatedAt)
    ensures IsAny(Each(s, rest, (x: Snapshot) => x.accepted), MergeAll(s, rest).accepted)
    ensures IsAny(Each(s, rest, (x: Snapshot) => x.cancelAccepted), MergeAll(s, rest).cancelAccepted)
  {
    LargestField(s, rest, (x: Snapshot) => x.documents);
    LargestField(s, rest, (x: Snapshot) => x.copies);
    LargestField(s, rest, (x: Snapshot) => x.payload);
    NewestTime(s, rest);
    AnyField(s, rest, (x: Snapshot) => x.accepted);
    AnyField(s, rest, (x: Snapshot) => x.cancelAccepted);
  }

  /** Each measurement is the largest ever known. */
  lemma MergedMeasures(s: Snapshot, rest: seq<Snapshot>)
    requires Nonnegative(s.measures)
    ensures IsLargestKnown(Each(s, rest, (x: Snapshot) => x.measures.pages), MergeAll(s, rest).measures.pages)
    ensures IsLargestKnown(Each(s, rest, (x: Snapshot) => x.measures.estimated), MergeAll(s, rest).measures.estimated)
    ensures IsLargestKnown(Each(s, rest, (x: Snapshot) => x.measures.impressions), MergeAll(s, rest).measures.impressions)
    ensures IsLargestKnown(Each(s, rest, (x: Snapshot) => x.measures.sheets), MergeAll(s, rest).measures.sheets)
  {
    LargestKnownField(s, rest, (x: Snapshot) => x.measures.pages);
    LargestKnownField(s, rest, (x: Snapshot) => x.measures.estimated);
    LargestKnownField(s, rest, (x: Snapshot) => x.measures.impressions);
    LargestKnownField(s, rest, (x: Snapshot) => x.measures.sheets);
  }

  /** Phase times are the first known. */
  lemma MergedPhases(s: Snapshot, rest: seq<Snapshot>)
    ensures IsFirst(Each(s, rest, (x: Snapshot) => x.processingAt), None, MergeAll(s, rest).processingAt)
    ensures IsFirst(Each(s, rest, (x: Snapshot) => x.terminalAt), None, MergeAll(s, rest).terminalAt)
  {
    hide IsFirst;
    FirstField(s, rest, (x: Snapshot) => x.processingAt, None);
    FirstField(s, rest, (x: Snapshot) => x.terminalAt, None);
  }

  /** Settings are the first given, each from its own field: formats and route, */
  lemma MergedRoutes(s: Snapshot, rest: seq<Snapshot>)
    ensures IsFirst(Each(s, rest, (x: Snapshot) => x.settings.documentFormat), "", MergeAll(s, rest).settings.documentFormat)
    ensures IsFirst(Each(s, rest, (x: Snapshot) => x.settings.upstreamFormat), "", MergeAll(s, rest).settings.upstreamFormat)
    ensures IsFirst(Each(s, rest, (x: Snapshot) => x.settings.route), "", MergeAll(s, rest).settings.route)
  {
    hide IsFirst;
    FirstField(s, rest, (x: Snapshot) => x.settings.documentFormat, "");
    FirstField(s, rest, (x: Snapshot) => x.settings.upstreamFormat, "");
    FirstField(s, rest, (x: Snapshot) => x.settings.route, "");
  }

  /** colour, sides and media as requested, */
  lemma MergedRequests(s: Snapshot, rest: seq<Snapshot>)
    ensures IsFirst(Each(s, rest, (x: Snapshot) => x.settings.requestedColor), "", MergeAll(s, rest).settings.requestedColor)
    ensures IsFirst(Each(s, rest, (x: Snapshot) => x.settings.requestedSides), "", MergeAll(s, rest).settings.requestedSides)
    ensures IsFirst(Each(s, rest, (x: Snapshot) => x.settings.requestedMedia), "", MergeAll(s, rest).settings.requestedMedia)
  {
    hide IsFirst;
    FirstField(s, rest, (x: Snapshot) => x.settings.requestedColor, "");
    FirstField(s, rest, (x: Snapshot) => x.settings.requestedSides, "");
    FirstField(s, rest, (x: Snapshot) => x.settings.requestedMedia, "");
  }

  /** and as they took effect. */
  lemma MergedEffects(s: Snapshot, rest: seq<Snapshot>)
    ensures IsFirst(Each(s, rest, (x: Snapshot) => x.settings.effectiveColor), "", MergeAll(s, rest).settings.effectiveColor)
    ensures IsFirst(Each(s, rest, (x: Snapshot) => x.settings.effectiveSides), "", MergeAll(s, rest).settings.effectiveSides)
    ensures IsFirst(Each(s, rest, (x: Snapshot) => x.settings.effectiveMedia), "", MergeAll(s, rest).settings.effectiveMedia)
  {
    hide IsFirst;
    FirstField(s, rest, (x: Snapshot) => x.settings.effectiveColor, "");
    FirstField(s, rest, (x: Snapshot) => x.settings.effectiveSides, "");
    FirstField(s, rest, (x: Snapshot) => x.settings.effectiveMedia, "");
  }

  function StateOf(s: Snapshot): State {
    s.state
  }

  function ReasonsOf(s: Snapshot): string {
    s.reasons
  }

  lemma NextStates(a: Snapshot, b: Snapshot)
    ensures Next(Some(a), b).state == if b.updatedAt >= a.updatedAt && b.state != Blank then b.state else a.state
    ensures Next(Some(a), b).reasons == if b.updatedAt >= a.updatedAt && b.reasons != "" then b.reasons else a.reasons
  {
  }

  /** The state is that of the latest snapshot that was the newest when it came, and so are the reasons. */
  lemma MergedStates(s: Snapshot, rest: seq<Snapshot>)
    ensures IsLatest(Each(s, rest, UpdatedAt), Each(s, rest, StateOf), Blank, MergeAll(s, rest).state)
    ensures IsLatest(Each(s, rest, UpdatedAt), Each(s, rest, ReasonsOf), "", MergeAll(s, rest).reasons)
  {
    hide IsLatest, Next;
    forall a: Snapshot, b: Snapshot {:trigger Next(Some(a), b)}
      ensures StateOf(Next(Some(a), b)) == if b.updatedAt >= a.updatedAt && StateOf(b) != Blank then StateOf(b) else StateOf(a)
      ensures ReasonsOf(Next(Some(a), b)) == if b.updatedAt >= a.updatedAt && ReasonsOf(b) != "" then ReasonsOf(b) else ReasonsOf(a)
    {
      NextStates(a, b);
    }
    LatestField(s, rest, StateOf, Blank);
    LatestField(s, rest, ReasonsOf, "");
  }

  // The observed printer state, where a terminal one ends the search.

  predicate Ended(s: State) {
    s in {Completed, Canceled, Aborted, Failed, Rejected}
  }

  /** A terminal state said by a snapshot that was the newest when it came. */
  ghost predicate IsEnding(times: seq<Instant>, values: seq<State>, i: nat) {
    |times| == |values| && IsNewest(times, i) && Ended(values[i])
  }

  /** The first ending if there is one, and otherwise the latest state. */
  ghost predicate IsObserved(times: seq<Instant>, values: seq<State>, r: State) {
    if exists i: nat :: IsEnding(times, values, i) then
      exists i: nat :: IsEnding(times, values, i) && values[i] == r && forall j :: 0 <= j < i ==> !IsEnding(times, values, j)
    else IsLatest(times, values, Blank, r)
  }

  lemma ObservedGrows(times: seq<Instant>, values: seq<State>, r: State, newest: Instant, t: Instant, v: State)
    requires IsObserved(times, values, r) && IsLargest(times, newest) && |times| == |values|
    ensures IsObserved(times + [t], values + [v], if t >= newest && v != Blank && !Ended(r) then v else r)
  {
    hide IsLatest;
    var moreTimes, moreValues := times + [t], values + [v];
    var n := |values|;
    assert moreTimes[n] == t && moreValues[n] == v;
    assert forall i :: 0 <= i < n ==> moreTimes[i] == times[i] && moreValues[i] == values[i];
    assert IsNewest(moreTimes, n) <==> t >= newest;
    forall i: nat | i < n
      ensures IsNewest(moreTimes, i) <==> IsNewest(times, i)
      ensures IsEnding(moreTimes, moreValues, i) <==> IsEnding(times, values, i)
    {
    }
    assert IsEnding(moreTimes, moreValues, n) <==> t >= newest && Ended(v);
    if exists i: nat :: IsEnding(times, values, i) {
      var i: nat :| IsEnding(times, values, i) && values[i] == r && forall j :: 0 <= j < i ==> !IsEnding(times, values, j);
      assert IsEnding(moreTimes, moreValues, i);
    } else {
      LatestIsSaid(times, values, r);
      LatestGrows(times, values, Blank, r, newest, t, v);
      if t >= newest && Ended(v) {
        assert IsEnding(moreTimes, moreValues, n);
      }
    }
  }

  lemma LatestIsSaid(times: seq<Instant>, values: seq<State>, r: State)
    requires IsLatest(times, values, Blank, r)
    ensures Ended(r) ==> exists i: nat :: IsEnding(times, values, i)
  {
    var i: nat :| i < |values| && IsNewest(times, i) && values[i] == r;
    assert Ended(r) ==> IsEnding(times, values, i);
  }

  function ObservedOf(s: Snapshot): State {
    s.observed
  }

  /**
   The observed state is the first terminal one said by a snapshot that was the newest when it came,
   and otherwise that of the latest such snapshot that says anything.
   */
  lemma {:induction false} MergedObserved(s: Snapshot, rest: seq<Snapshot>)
    ensures IsObserved(Each(s, rest, UpdatedAt), Each(s, rest, ObservedOf), MergeAll(s, rest).observed)
  {
    hide IsLatest, IsObserved, IsLargest;
    if rest == [] {
      ObservedAlone(s);
    } else {
      var n := |rest| - 1;
      MergedObserved(s, rest[..n]);
      EachGrows(s, rest, UpdatedAt);
      EachGrows(s, rest, ObservedOf);
      NewestTime(s, rest[..n]);
      ObservedGrows(Each(s, rest[..n], UpdatedAt), Each(s, rest[..n], ObservedOf), MergeAll(s, rest[..n]).observed,
                    MergeAll(s, rest[..n]).updatedAt, rest[n].updatedAt, rest[n].observed);
    }
  }

  lemma ObservedAlone(s: Snapshot)
    ensures IsObserved(Each(s, [], UpdatedAt), Each(s, [], ObservedOf), s.observed)
  {
    hide IsLatest;
    var times, values := Each(s, [], UpdatedAt), Each(s, [], ObservedOf);
    LatestAlone(times, values, Blank);
    if Ended(s.observed) {
      assert IsEnding(times, values, 0);
    }
  }

  /** Whoever submitted the job, and where and when, stays as first reported. */
  lemma {:induction false} MergedIdentity(s: Snapshot, rest: seq<Snapshot>)
    ensures var r := MergeAll(s, rest);
            r.key == s.key && r.queue == s.queue && r.user == s.user && r.createdAt == s.createdAt
  {
    if rest != [] {
      MergedIdentity(s, rest[..|rest| - 1]);
    }
  }

  /** The first report of a job is stored as it is, except that a negative measurement is unknown. */
  lemma FirstReport(n: Snapshot)
    ensures var r := Next(None, n);
            && r == n.(measures := r.measures)
            && IsLargestKnown([n.measures.pages], r.measures.pages) && IsLargestKnown([n.measures.estimated], r.measures.estimated)
            && IsLargestKnown([n.measures.impressions], r.measures.impressions) && IsLargestKnown([n.measures.sheets], r.measures.sheets)
  {
    var m := n.measures;
    KnownAlone(m.pages);
    KnownAlone(m.estimated);
    KnownAlone(m.impressions);
    KnownAlone(m.sheets);
  }

  lemma KnownAlone(m: Option<int>)
    ensures IsLargestKnown([m], JobSnapshots.Known(m))
  {
    assert [m][0] == m;
  }
}
