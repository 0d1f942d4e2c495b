/**
 The leases of a program from its steps alone: which steps take out a lease, how large it is and
 whether it is still live, and which spans are above which.
 */
module SpanHistories {
  import opened Basics
  import opened SpanResources

  /** The parents of the spans that were begun, in order. */
  function Begun(steps: seq<Step>): seq<Option<nat>> {
    if steps == [] then []
    else
      var last := steps[|steps| - 1];
      Begun(steps[..|steps| - 1]) + if last.Begin? then [last.parent] else []
  }

  predicate Takes(step: Step) {
    step.AcquireTemp? || (step.AcquireBuffer? && step.capacity > 0)
  }

  /** The steps that took out a lease, in order; the h-th one is handle h. */
  function Taken(steps: seq<Step>): (r: seq<Step>)
    ensures forall h :: 0 <= h < |r| ==> Takes(r[h])
  {
    if steps == [] then []
    else
      var last := steps[|steps| - 1];
      Taken(steps[..|steps| - 1]) + if Takes(last) then [last] else []
  }

  /** The last size that was set for a handle. */
  function LastSize(steps: seq<Step>, h: nat, first: int): int {
    if steps == [] then first
    else
      var last := steps[|steps| - 1];
      if last == SetSize(h, if last.SetSize? then last.size else 0) then last.size else LastSize(steps[..|steps| - 1], h, first)
  }

  /** A lease is live until it is released; a buffer keeps its size, a file has the last one set, never less than zero. */
  predicate HandleTold(handle: Handle, taken: Step, steps: seq<Step>, h: nat)
    requires Takes(taken)
  {
    && handle.span == taken.span
    && handle.kind == (if taken.AcquireBuffer? then Buffer else Temp)
    && handle.component == (if taken.component == "" then "unspecified" else taken.component)
    && (handle.live <==> Release(h) !in steps)
    && (handle.live ==> handle.size == if taken.AcquireBuffer? then taken.capacity else Max(LastSize(steps, h, taken.logicalSize), 0))
  }

  ghost predicate Told(st: State, steps: seq<Step>) {
    && st.parents == Begun(steps)
    && |st.handles| == |Taken(steps)|
    && (forall h :: 0 <= h < |st.handles| ==> HandleTold(st.handles[h], Taken(steps)[h], steps, h))
    && (forall step :: step in steps && (step.Release? || step.SetSize?) ==> step.handle < |st.handles|)
  }

  lemma More(steps: seq<Step>, step: Step)
    ensures Begun(steps + [step]) == Begun(steps) + if step.Begin? then [step.parent] else []
    ensures Taken(steps + [step]) == Taken(steps) + if Takes(step) then [step] else []
    ensures forall h: nat, first :: LastSize(steps + [step], h, first)
              == if step.SetSize? && step.handle == h then step.size else LastSize(steps, h, first)
  {
    assert (steps + [step])[..|steps|] == steps;
  }

  lemma {:induction false} NeverSet(steps: seq<Step>, h: nat, first: int)
    requires forall step :: step in steps && step.SetSize? ==> step.handle != h
    ensures LastSize(steps, h, first) == first
  {
    if steps != [] {
      NeverSet(steps[..|steps| - 1], h, first);
    }
  }

  lemma ToldStep(st: State, steps: seq<Step>, step: Step)
    requires Sound(st) && Possible(st, step) && Told(st, steps)
    ensures Told(Apply(st, step), steps + [step])
  {
    hide Raise, Lower, Resized, LastSize, Begun, Taken, Rooted;
    More(steps, step);
    var u, more := Apply(st, step), steps + [step];
    assert Begun(steps) + [] == Begun(steps) && Taken(steps) + [] == Taken(steps);
    forall h: nat | h < |u.handles|
      ensures HandleTold(u.handles[h], Taken(more)[h], more, h)
    {
      if h < |st.handles| {
        assert HandleTold(st.handles[h], Taken(steps)[h], steps, h);
      } else {
        if step.AcquireTemp? {
          NeverSet(steps, h, step.logicalSize);
        }
      }
    }
  }

  lemma {:induction false} ToldRun(st: State, done: seq<Step>, steps: seq<Step>)
    requires Told(st, done) && Runs(st, steps)
    ensures Told(After(st, steps), done + steps)
    decreases |steps|
  {
    hide Apply, Told, Possible, BelowLimit;
    if steps == [] {
      assert done + [] == done;
    } else {
      ToldStep(st, done, steps[0]);
      ToldRun(Apply(st, steps[0]), done + [steps[0]], steps[1..]);
      assert done + [steps[0]] + steps[1..] == done + steps;
    }
  }

  /** After any program the leases are exactly those that its steps took out, with the sizes and the ends that its steps gave them. */
  lemma LeasesFromSteps(steps: seq<Step>)
    requires Runs(START, steps)
    ensures Told(After(START, steps), steps)
  {
    hide Told;
    NothingTold();
    ToldRun(START, [], steps);
    assert [] + steps == steps;
  }

  lemma NothingTold()
    ensures Told(START, [])
  {
  }

  /** A way up from one span to another, parent by parent. */
  ghost predicate Path(parents: Parents, path: seq<nat>, s: nat, t: nat) {
    && path != [] && path[0] == t && path[|path| - 1] == s
    && (forall i :: 0 <= i < |path| ==> path[i] < |parents|)
    && forall i :: 0 <= i < |path| - 1 ==> parents[path[i]] == Some(path[i + 1])
  }

  /** The spans at which a lease counts are those on the way up from its own. */
  lemma {:induction false} CoversExactly(parents: Parents, s: nat, t: nat)
    requires t < |parents|
    ensures Covers(parents, s, t) <==> exists path :: Path(parents, path, s, t)
    decreases t
  {
    if s == t {
      assert Path(parents, [t], s, t);
    } else {
      if parents[t].Some? {
        CoversExactly(parents, s, parents[t].value);
      }
      if Covers(parents, s, t) {
        var path :| Path(parents, path, s, parents[t].value);
        assert Path(parents, [t] + path, s, t);
      }
      if path :| Path(parents, path, s, t) {
        PathRest(parents, path, s, t);
      }
    }
  }

  lemma PathRest(parents: Parents, path: seq<nat>, s: nat, t: nat)
    requires Path(parents, path, s, t) && s != t
    ensures parents[t].Some? && Path(parents, path[1..], s, parents[t].value)
  {
    assert parents[path[0]] == Some(path[1]);
    var rest := path[1..];
    forall i | 0 <= i < |rest| - 1
      ensures parents[rest[i]] == Some(rest[i + 1])
    {
      assert parents[path[i + 1]] == Some(path[i + 2]);
    }
  }

  /** A component stands among those in use exactly while it holds something, and among those ever used from then on. */
  predicate OnlyUsed(s: Span) {
    && (forall component :: component in s.buffers ==> s.buffers[component] > 0)
    && (forall component :: component in s.bufferPeaks ==> s.bufferPeaks[component] > 0)
  }

  lemma RaiseUsed(s: Span, kind: Kind, component: string, size: int)
    requires OnlyUsed(s) && (kind.Buffer? ==> size > 0)
    ensures OnlyUsed(Raise(s, kind, component, size))
  {
  }

  lemma LowerUsed(s: Span, kind: Kind, component: string, size: int)
    requires OnlyUsed(s)
    ensures OnlyUsed(Lower(s, kind, component, size))
  {
  }

  lemma StepUsed(st: State, step: Step)
    requires Sound(st) && Possible(st, step) && forall s :: 0 <= s < |st.spans| ==> OnlyUsed(st.spans[s])
    ensures forall s :: 0 <= s < |Apply(st, step).spans| ==> OnlyUsed(Apply(st, step).spans[s])
  {
    hide Raise, Lower, OnlyUsed, Covers;
    NothingUsed();
    forall s | 0 <= s < |st.spans|
      ensures OnlyUsed(Apply(st, step).spans[s])
    {
      match step {
        case Begin(parent) =>
        case AcquireBuffer(span, component, capacity) =>
          if capacity > 0 {
            RaiseUsed(st.spans[s], Buffer, ComponentName(component), capacity);
          }
        case AcquireTemp(span, component, logicalSize) =>
          RaiseUsed(st.spans[s], Temp, ComponentName(component), Max(logicalSize, 0));
        case SetSize(handle, size) =>
          var h := st.handles[handle];
          if h.kind.Temp? {
            RaiseUsed(st.spans[s], Temp, h.component, Max(size, 0) - h.size);
            LowerUsed(st.spans[s], Temp, h.component, h.size - Max(size, 0));
          }
        case Release(handle) =>
          LowerUsed(st.spans[s], st.handles[handle].kind, st.handles[handle].component, st.handles[handle].size);
      }
    }
  }

  lemma NothingUsed()
    ensures OnlyUsed(FRESH_SPAN)
  {
  }

  /** In every state of a program, no component is listed that holds nothing. */
  lemma {:induction false} ComponentsInUse(st: State, steps: seq<Step>)
    requires Runs(st, steps) && forall s :: 0 <= s < |st.spans| ==> OnlyUsed(st.spans[s])
    ensures forall s :: 0 <= s < |After(st, steps).spans| ==> OnlyUsed(After(st, steps).spans[s])
    decreases |steps|
  {
    hide Apply, OnlyUsed, Possible, BelowLimit;
    if steps != [] {
      StepUsed(st, steps[0]);
      ComponentsInUse(Apply(st, steps[0]), steps[1..]);
    }
  }
}
