/**
 Resource accounting of nested actions.  A lease counts at its own span and at every span above;
 each span keeps its current totals and the highest value they ever had.
 */
module SpanResources {
  import opened Basics

  const MAX_INT64: int := 0x7fff_ffff_ffff_ffff

  datatype Kind = Buffer | Temp

  /** buffers holds the components in use, bufferPeaks those ever used. */
  datatype Span = Span(
    bufferCurrent: int, bufferPeak: int, buffers: map<string, int>, bufferPeaks: map<string, int>,
    tempCurrent: int, tempPeak: int)

  const FRESH_SPAN := Span(0, 0, map[], map[], 0, 0)

  /** What a caller holds: a lease taken out at one span. */
  datatype Handle = Handle(span: nat, kind: Kind, component: string, size: int, live: bool)

  type Parents = parents: seq<Option<nat>> | Rooted(parents) witness []

  /** Every span was begun after its parent. */
  predicate Rooted(parents: seq<Option<nat>>) {
    forall i :: 0 <= i < |parents| && parents[i].Some? ==> parents[i].value < i
  }

  datatype State = State(parents: Parents, spans: seq<Span>, handles: seq<Handle>)

  datatype Step =
    | Begin(parent: Option<nat>)
    | AcquireBuffer(span: nat, component: string, capacity: int)
    | AcquireTemp(span: nat, component: string, logicalSize: int)
    | SetSize(handle: nat, size: int)
    | Release(handle: nat)

  /** The totals of a span: all buffers, one component's buffers, all temporary files. */
  datatype Cell = Buffers | Component(name: string) | Temps

  function Get(m: map<string, int>, key: string): int {
    if key in m then m[key] else 0
  }

  function Current(s: Span, c: Cell): int {
    match c
    case Buffers => s.bufferCurrent
    case Component(name) => Get(s.buffers, name)
    case Temps => s.tempCurrent
  }

  function Peak(s: Span, c: Cell): int {
    match c
    case Buffers => s.bufferPeak
    case Component(name) => Get(s.bufferPeaks, name)
    case Temps => s.tempPeak
  }

  predicate Feeds(kind: Kind, component: string, c: Cell) {
    match c
    case Buffers => kind.Buffer?
    case Component(name) => kind.Buffer? && component == name
    case Temps => kind.Temp?
  }

  /** Addition of a non-negative amount that stays within 64 bits. */
  function AddSaturating(a: int, b: int): int {
    if b == 0 then a else Min(a + b, MAX_INT64)
  }

  function RaisePeaks(peaks: map<string, int>, component: string, total: int): map<string, int> {
    if total > Get(peaks, component) then peaks[component := total] else peaks
  }

  function Raise(s: Span, kind: Kind, component: string, size: int): Span {
    match kind
    case Buffer =>
      var total, part := AddSaturating(s.bufferCurrent, size), AddSaturating(Get(s.buffers, component), size);
      s.(bufferCurrent := total, bufferPeak := Max(s.bufferPeak, total),
         buffers := s.buffers[component := part], bufferPeaks := RaisePeaks(s.bufferPeaks, component, part))
    case Temp =>
      var total := AddSaturating(s.tempCurrent, size);
      s.(tempCurrent := total, tempPeak := Max(s.tempPeak, total))
  }

  function Lower(s: Span, kind: Kind, component: string, size: int): Span {
    match kind
    case Buffer =>
      var part := Get(s.buffers, component) - size;
      s.(bufferCurrent := Max(s.bufferCurrent - size, 0),
         buffers := if part <= 0 then s.buffers - {component} else s.buffers[component := part])
    case Temp => s.(tempCurrent := Max(s.tempCurrent - size, 0))
  }

  function Resized(s: Span, kind: Kind, component: string, before: int, size: int): Span {
    if size > before then Raise(s, kind, component, size - before) else Lower(s, kind, component, before - size)
  }

  /** Whether span s is span t or one above it. */
  predicate Covers(parents: Parents, s: nat, t: nat)
    requires t < |parents|
    decreases t
  {
    s == t || (parents[t].Some? && Covers(parents, s, parents[t].value))
  }

  lemma {:induction false} CoversBelow(parents: Parents, s: nat, t: nat)
    requires t < |parents| && Covers(parents, s, t)
    ensures s <= t
    decreases t
  {
    if s != t {
      CoversBelow(parents, s, parents[t].value);
    }
  }

  lemma {:induction false} CoversGrown(parents: Parents, more: Parents, s: nat, t: nat)
    requires t < |parents| <= |more| && more[..|parents|] == parents
    ensures Covers(more, s, t) == Covers(parents, s, t)
    decreases t
  {
    assert more[t] == parents[t] by {
      assert more[..|parents|][t] == more[t];
    }
    if parents[t].Some? {
      CoversGrown(parents, more, s, parents[t].value);
    }
  }

  /** A change applied to a span and everything above it. */
  function Upwards(parents: Parents, spans: seq<Span>, t: nat, change: Span -> Span): (r: seq<Span>)
    requires |spans| == |parents| && t < |parents|
    ensures |r| == |spans|
    ensures forall s :: 0 <= s < |r| ==> r[s] == if Covers(parents, s, t) then change(spans[s]) else spans[s]
  {
    seq(|spans|, s requires 0 <= s < |spans| => if Covers(parents, s, t) then change(spans[s]) else spans[s])
  }

  predicate Sound(st: State) {
    && |st.spans| == |st.parents|
    && forall h :: 0 <= h < |st.handles| ==> st.handles[h].span < |st.parents| && st.handles[h].size >= 0
  }

  /** Steps of a program that uses its own spans and handles. */
  predicate Possible(st: State, step: Step) {
    match step
    case Begin(parent) => parent.Some? ==> parent.value < |st.parents|
    case AcquireBuffer(span, _, _) => span < |st.parents|
    case AcquireTemp(span, _, _) => span < |st.parents|
    case SetSize(handle, _) => handle < |st.handles|
    case Release(handle) => handle < |st.handles|
  }

  function ComponentName(component: string): string {
    if component == "" then "unspecified" else component
  }

  function Acquired(st: State, span: nat, kind: Kind, component: string, size: int): State
    requires Sound(st) && span < |st.parents|
  {
    st.(spans := Upwards(st.parents, st.spans, span, s => Raise(s, kind, component, size)),
        handles := st.handles + [Handle(span, kind, component, size, true)])
  }

  function Apply(st: State, step: Step): State
    requires Sound(st) && Possible(st, step)
  {
    match step
    case Begin(parent) => State(st.parents + [parent], st.spans + [FRESH_SPAN], st.handles)
    case AcquireBuffer(span, component, capacity) =>
      if capacity <= 0 then st else Acquired(st, span, Buffer, ComponentName(component), capacity)
    case AcquireTemp(span, component, logicalSize) =>
      Acquired(st, span, Temp, ComponentName(component), Max(logicalSize, 0))
    case SetSize(handle, size) =>
      var h := st.handles[handle];
      if h.kind.Buffer? || !h.live then st
      else
        st.(spans := Upwards(st.parents, st.spans, h.span, s => Resized(s, h.kind, h.component, h.size, Max(size, 0))),
            handles := st.handles[handle := h.(size := Max(size, 0))])
    case Release(handle) =>
      var h := st.handles[handle];
      if !h.live then st
      else
        st.(spans := Upwards(st.parents, st.spans, h.span, s => Lower(s, h.kind, h.component, h.size)),
            handles := st.handles[handle := h.(live := false)])
  }

  lemma ApplySound(st: State, step: Step)
    requires Sound(st) && Possible(st, step)
    ensures Sound(Apply(st, step))
    ensures |Apply(st, step).parents| >= |st.parents| && Apply(st, step).parents[..|st.parents|] == st.parents
  {
  }

  // The reference: the leases that are live at a span or below it.

  function Share(parents: Parents, h: Handle, s: nat, c: Cell): int
    requires h.span < |parents|
  {
    if h.live && Covers(parents, s, h.span) && Feeds(h.kind, h.component, c) then h.size else 0
  }

  function Held(parents: Parents, handles: seq<Handle>, s: nat, c: Cell): int
    requires forall h :: 0 <= h < |handles| ==> handles[h].span < |parents|
  {
    if handles == [] then 0
    else Held(parents, handles[..|handles| - 1], s, c) + Share(parents, handles[|handles| - 1], s, c)
  }

  lemma {:induction false} HeldChange(parents: Parents, handles: seq<Handle>, i: nat, h: Handle, s: nat, c: Cell)
    requires i < |handles| && h.span < |parents| && forall j :: 0 <= j < |handles| ==> handles[j].span < |parents|
    ensures Held(parents, handles[i := h], s, c) == Held(parents, handles, s, c) - Share(parents, handles[i], s, c) + Share(parents, h, s, c)
    decreases |handles|
  {
    var n := |handles| - 1;
    if i == n {
      assert handles[i := h][..n] == handles[..n];
    } else {
      HeldChange(parents, handles[..n], i, h, s, c);
      assert handles[i := h][..n] == handles[..n][i := h];
    }
  }

  lemma HeldMore(parents: Parents, handles: seq<Handle>, h: Handle, s: nat, c: Cell)
    requires h.span < |parents| && forall j :: 0 <= j < |handles| ==> handles[j].span < |parents|
    ensures Held(parents, handles + [h], s, c) == Held(parents, handles, s, c) + Share(parents, h, s, c)
  {
    assert (handles + [h])[..|handles|] == handles;
  }

  lemma {:induction false} HeldGrown(parents: Parents, more: Parents, handles: seq<Handle>, s: nat, c: Cell)
    requires |parents| <= |more| && more[..|parents|] == parents
    requires forall j :: 0 <= j < |handles| ==> handles[j].span < |parents|
    ensures Held(more, handles, s, c) == if s < |parents| then Held(parents, handles, s, c) else 0
    decreases |handles|
  {
    if handles != [] {
      var n := |handles| - 1;
      HeldGrown(parents, more, handles[..n], s, c);
      CoversGrown(parents, more, s, handles[n].span);
      if Covers(parents, s, handles[n].span) {
        CoversBelow(parents, s, handles[n].span);
      }
    }
  }

  lemma {:induction false} HeldAtLeast(parents: Parents, handles: seq<Handle>, i: nat, s: nat, c: Cell)
    requires forall j :: 0 <= j < |handles| ==> handles[j].span < |parents| && handles[j].size >= 0
    ensures Held(parents, handles, s, c) >= 0
    ensures i < |handles| ==> Held(parents, handles, s, c) >= Share(parents, handles[i], s, c)
    decreases |handles|
  {
    if handles != [] {
      HeldAtLeast(parents, handles[..|handles| - 1], i, s, c);
    }
  }

  /** Every current total of every span is the sum of the live leases at and below it. */
  ghost predicate Balanced(st: State) {
    && Sound(st)
    && forall s, c :: 0 <= s < |st.spans| ==> Current(st.spans[s], c) == Held(st.parents, st.handles, s, c)
  }

  ghost predicate BelowLimit(st: State) {
    Sound(st) && forall s, c :: 0 <= s < |st.spans| ==> Held(st.parents, st.handles, s, c) <= MAX_INT64
  }

  lemma RaiseCell(s: Span, kind: Kind, component: string, size: int, c: Cell)
    requires size >= 0
    ensures Current(Raise(s, kind, component, size), c)
         == if Feeds(kind, component, c) then AddSaturating(Current(s, c), size) else Current(s, c)
    ensures Current(s, c) <= Peak(s, c) ==>
              Peak(Raise(s, kind, component, size), c) == Max(Peak(s, c), Current(Raise(s, kind, component, size), c))
  {
  }

  lemma LowerCell(s: Span, kind: Kind, component: string, size: int, c: Cell)
    requires size >= 0
    ensures Current(Lower(s, kind, component, size), c)
         == if Feeds(kind, component, c) then Max(Current(s, c) - size, 0) else Current(s, c)
    ensures Peak(Lower(s, kind, component, size), c) == Peak(s, c)
  {
  }

  ghost predicate Peaked(st: State) {
    forall s, c :: 0 <= s < |st.spans| ==> 0 <= Current(st.spans[s], c) <= Peak(st.spans[s], c)
  }

  /** One cell after a step, for a span that existed before it. */
  ghost predicate CellSteps(st: State, u: State, s: nat, c: Cell)
    requires Sound(st) && Sound(u) && s < |st.spans| <= |u.spans|
  {
    && Current(u.spans[s], c) == Held(u.parents, u.handles, s, c)
    && Peak(u.spans[s], c) == Max(Peak(st.spans[s], c), Current(u.spans[s], c))
    && Current(u.spans[s], c) >= 0
  }

  lemma AcquireCell(st: State, span: nat, kind: Kind, component: string, size: int, s: nat, c: Cell)
    requires Balanced(st) && Peaked(st) && span < |st.parents| && size >= 0 && s < |st.spans|
    requires Sound(Acquired(st, span, kind, component, size))
    requires Held(st.parents, Acquired(st, span, kind, component, size).handles, s, c) <= MAX_INT64
    ensures CellSteps(st, Acquired(st, span, kind, component, size), s, c)
  {
    hide Current, Peak, Raise, Feeds, Held;
    HeldMore(st.parents, st.handles, Handle(span, kind, component, size, true), s, c);
    HeldAtLeast(st.parents, st.handles, 0, s, c);
    RaiseCell(st.spans[s], kind, component, size, c);
  }

  lemma ResizeCell(st: State, i: nat, size: int, s: nat, c: Cell)
    requires Balanced(st) && Peaked(st) && i < |st.handles| && st.handles[i].live && size >= 0 && s < |st.spans|
    requires Held(st.parents, st.handles[i := st.handles[i].(size := size)], s, c) <= MAX_INT64
    ensures var h := st.handles[i];
            var spans := Upwards(st.parents, st.spans, h.span, t => Resized(t, h.kind, h.component, h.size, size));
            && Current(spans[s], c) == Held(st.parents, st.handles[i := h.(size := size)], s, c) >= 0
            && Peak(spans[s], c) == Max(Peak(st.spans[s], c), Current(spans[s], c))
  {
    hide Current, Peak, Raise, Lower, Feeds, Held;
    var h := st.handles[i];
    HeldChange(st.parents, st.handles, i, h.(size := size), s, c);
    HeldAtLeast(st.parents, st.handles, i, s, c);
    HeldAtLeast(st.parents, st.handles[i := h.(size := size)], i, s, c);
    if size > h.size {
      RaiseCell(st.spans[s], h.kind, h.component, size - h.size, c);
    } else {
      LowerCell(st.spans[s], h.kind, h.component, h.size - size, c);
    }
  }

  lemma ReleaseCell(st: State, i: nat, s: nat, c: Cell)
    requires Balanced(st) && Peaked(st) && i < |st.handles| && st.handles[i].live && s < |st.spans|
    ensures var h := st.handles[i];
            var spans := Upwards(st.parents, st.spans, h.span, t => Lower(t, h.kind, h.component, h.size));
            && Current(spans[s], c) == Held(st.parents, st.handles[i := h.(live := false)], s, c) >= 0
            && Peak(spans[s], c) == Max(Peak(st.spans[s], c), Current(spans[s], c))
  {
    hide Current, Peak, Lower, Feeds, Held;
    var h := st.handles[i];
    HeldChange(st.parents, st.handles, i, h.(live := false), s, c);
    HeldAtLeast(st.parents, st.handles, i, s, c);
    HeldAtLeast(st.parents, st.handles[i := h.(live := false)], i, s, c);
    LowerCell(st.spans[s], h.kind, h.component, h.size, c);
  }

  lemma StepCell(st: State, step: Step, s: nat, c: Cell)
    requires Balanced(st) && Peaked(st) && Possible(st, step) && BelowLimit(Apply(st, step)) && s < |st.spans|
    ensures |st.spans| <= |Apply(st, step).spans|
    ensures CellSteps(st, Apply(st, step), s, c)
  {
    hide Current, Peak, Raise, Lower, Resized, Feeds, Held, Balanced, Peaked;
    BalancedCell(st, s, c);
    match step {
      case Begin(parent) =>
        assert (st.parents + [parent])[..|st.parents|] == st.parents;
        HeldGrown(st.parents, st.parents + [parent], st.handles, s, c);
      case AcquireBuffer(span, component, capacity) =>
        if capacity > 0 {
          AcquireCell(st, span, Buffer, ComponentName(component), capacity, s, c);
        }
      case AcquireTemp(span, component, logicalSize) =>
        AcquireCell(st, span, Temp, ComponentName(component), Max(logicalSize, 0), s, c);
      case SetSize(handle, size) =>
        if st.handles[handle].kind.Temp? && st.handles[handle].live {
          ResizeCell(st, handle, Max(size, 0), s, c);
        }
      case Release(handle) =>
        if st.handles[handle].live {
          ReleaseCell(st, handle, s, c);
        }
    }
  }

  lemma BalancedCell(st: State, s: nat, c: Cell)
    requires Balanced(st) && Peaked(st) && s < |st.spans|
    ensures Sound(st) && CellSteps(st, st, s, c)
  {
  }

  /** A span that was just begun holds nothing yet. */
  lemma FreshCell(st: State, parent: Option<nat>, c: Cell)
    requires Sound(st) && (parent.Some? ==> parent.value < |st.parents|)
    ensures var u := Apply(st, Begin(parent));
            Current(u.spans[|st.spans|], c) == Peak(u.spans[|st.spans|], c) == Held(u.parents, u.handles, |st.spans|, c) == 0
  {
    HeldGrown(st.parents, st.parents + [parent], st.handles, |st.spans|, c);
  }

  lemma SpansAfter(st: State, step: Step)
    requires Sound(st) && Possible(st, step)
    ensures |Apply(st, step).spans| == |st.spans| + if step.Begin? then 1 else 0
  {
  }

  lemma StepBalanced(st: State, step: Step)
    requires Balanced(st) && Peaked(st) && Possible(st, step) && BelowLimit(Apply(st, step))
    ensures Balanced(Apply(st, step)) && Peaked(Apply(st, step))
  {
    hide Current, Peak, Held, Possible;
    SpansAfter(st, step);
    ApplySound(st, step);
    forall s: nat, c | s < |Apply(st, step).spans|
      ensures Current(Apply(st, step).spans[s], c) == Held(Apply(st, step).parents, Apply(st, step).handles, s, c)
      ensures 0 <= Current(Apply(st, step).spans[s], c) <= Peak(Apply(st, step).spans[s], c)
    {
      if s < |st.spans| {
        StepCell(st, step, s, c);
      } else {
        PossibleBegin(st, step);
        FreshCell(st, step.parent, c);
      }
    }
  }

  /** Totals are 64-bit numbers, and stay so. */
  ghost predicate Within(st: State) {
    forall s, c :: 0 <= s < |st.spans| ==> Current(st.spans[s], c) <= MAX_INT64
  }

  lemma ChangeWithin(s: Span, kind: Kind, component: string, before: int, size: int, c: Cell)
    requires before >= 0 && size >= 0 && Current(s, c) <= MAX_INT64
    ensures Current(Raise(s, kind, component, size), c) <= MAX_INT64
    ensures Current(Lower(s, kind, component, size), c) <= MAX_INT64
    ensures Current(Resized(s, kind, component, before, size), c) <= MAX_INT64
  {
    hide Current, Feeds, Raise, Lower;
    RaiseCell(s, kind, component, size, c);
    LowerCell(s, kind, component, size, c);
    if size > before {
      RaiseCell(s, kind, component, size - before, c);
    } else {
      LowerCell(s, kind, component, before - size, c);
    }
  }

  lemma StepWithin(st: State, step: Step)
    requires Sound(st) && Within(st) && Possible(st, step)
    ensures Within(Apply(st, step))
  {
    hide Raise, Lower, Resized, Covers;
    var u := Apply(st, step);
    forall s, c | 0 <= s < |u.spans|
      ensures Current(u.spans[s], c) <= MAX_INT64
    {
      if s < |st.spans| {
        assert Current(st.spans[s], c) <= MAX_INT64;
        hide Current;
        match step {
          case Begin(parent) =>
          case AcquireBuffer(span, component, capacity) =>
            if capacity > 0 {
              ChangeWithin(st.spans[s], Buffer, ComponentName(component), 0, capacity, c);
            }
          case AcquireTemp(span, component, logicalSize) =>
            ChangeWithin(st.spans[s], Temp, ComponentName(component), 0, Max(logicalSize, 0), c);
          case SetSize(handle, size) =>
            var h := st.handles[handle];
            ChangeWithin(st.spans[s], h.kind, h.component, h.size, Max(size, 0), c);
          case Release(handle) =>
            var h := st.handles[handle];
            ChangeWithin(st.spans[s], h.kind, h.component, 0, h.size, c);
        }
      }
    }
  }

  /** The totals after a step are the sums of the live leases if and only if these sums fit into 64 bits. */
  lemma BalancedBelowLimit(st: State, step: Step)
    requires Balanced(st) && Peaked(st) && Within(st) && Possible(st, step)
    ensures Balanced(Apply(st, step)) <==> BelowLimit(Apply(st, step))
  {
    StepWithin(st, step);
    if BelowLimit(Apply(st, step)) {
      StepBalanced(st, step);
    } else if Balanced(Apply(st, step)) {
      SumsFit(Apply(st, step));
    }
  }

  lemma SumsFit(st: State)
    requires Balanced(st) && Within(st)
    ensures BelowLimit(st)
  {
    hide Current, Held;
  }

  lemma PossibleBegin(st: State, step: Step)
    requires Possible(st, step) && step.Begin?
    ensures step.parent.Some? ==> step.parent.value < |st.parents|
  {
  }

  // Runs.

  /** Steps a program may take, during which no total passes the 64-bit limit. */
  ghost predicate Runs(st: State, steps: seq<Step>)
    decreases |steps|
  {
    steps != [] ==>
      && Sound(st) && Possible(st, steps[0]) && BelowLimit(Apply(st, steps[0]))
      && Runs(Apply(st, steps[0]), steps[1..])
  }

  ghost function After(st: State, steps: seq<Step>): State
    requires Runs(st, steps)
    decreases |steps|
  {
    if steps == [] then st else After(Apply(st, steps[0]), steps[1..])
  }

  /** The highest value that a total has in any state of the run; a span has nothing before it is begun. */
  ghost function HighWater(st: State, steps: seq<Step>, s: nat, c: Cell): int
    requires Runs(st, steps)
    decreases |steps|
  {
    var now := if s < |st.spans| then Current(st.spans[s], c) else 0;
    if steps == [] then now else Max(now, HighWater(Apply(st, steps[0]), steps[1..], s, c))
  }

  /** Steps a program may take, after each of which every total is the sum of the live leases. */
  ghost predicate StaysBalanced(st: State, steps: seq<Step>)
    decreases |steps|
  {
    steps != [] ==>
      && Sound(st) && Possible(st, steps[0]) && Balanced(Apply(st, steps[0]))
      && StaysBalanced(Apply(st, steps[0]), steps[1..])
  }

  /** Over a whole run the totals stay sums if and only if no sum ever passes the limit. */
  lemma {:induction false} BalancedRuns(st: State, steps: seq<Step>)
    requires Balanced(st) && Peaked(st) && Within(st)
    ensures Runs(st, steps) <==> StaysBalanced(st, steps)
    decreases |steps|
  {
    hide Apply, Balanced, Peaked, Within, BelowLimit, Possible;
    BalancedSound(st);
    if steps != [] && Possible(st, steps[0]) {
      BalancedBelowLimit(st, steps[0]);
      StepWithin(st, steps[0]);
      if BelowLimit(Apply(st, steps[0])) {
        StepBalanced(st, steps[0]);
        BalancedRuns(Apply(st, steps[0]), steps[1..]);
      }
    }
  }

  lemma BalancedSound(st: State)
    requires Balanced(st)
    ensures Sound(st)
  {
  }

  /** The peak that a span brings into a run; one that is begun in the run brings none. */
  function PeakBefore(st: State, s: nat, c: Cell): int {
    if s < |st.spans| then Peak(st.spans[s], c) else 0
  }

  lemma StepPeak(st: State, step: Step, s: nat, c: Cell)
    requires Balanced(st) && Peaked(st) && Possible(st, step) && BelowLimit(Apply(st, step))
    ensures |st.spans| <= |Apply(st, step).spans|
    ensures s < |Apply(st, step).spans| ==>
              PeakBefore(Apply(st, step), s, c) == Max(PeakBefore(st, s, c), Current(Apply(st, step).spans[s], c))
  {
    hide Current, Peak, Held, Balanced, Peaked, BelowLimit, Possible, Apply;
    BalancedSound(st);
    SpansAfter(st, step);
    if s < |st.spans| {
      StepCell(st, step, s, c);
    } else if s < |Apply(st, step).spans| {
      PossibleBegin(st, step);
      FreshCell(st, step.parent, c);
    }
  }

  /**
   After any run, every total of every span, also of those begun in the run, is the sum of the live
   leases at and below it, and every peak is the highest value that the total ever had.
   */
  lemma {:induction false} TotalsAndPeaks(st: State, steps: seq<Step>, s: nat, c: Cell)
    requires Balanced(st) && Peaked(st) && Runs(st, steps)
    ensures Balanced(After(st, steps)) && |st.spans| <= |After(st, steps).spans|
    ensures s < |After(st, steps).spans| ==>
              && Current(After(st, steps).spans[s], c) == Held(After(st, steps).parents, After(st, steps).handles, s, c)
              && Peak(After(st, steps).spans[s], c) == Max(PeakBefore(st, s, c), HighWater(st, steps, s, c))
    decreases |steps|
  {
    hide Current, Peak, Held, Apply, Possible, Balanced, BelowLimit, Peaked;
    if s < |st.spans| {
      BalancedCell(st, s, c);
    }
    if steps != [] {
      var u := Apply(st, steps[0]);
      StepBalanced(st, steps[0]);
      StepPeak(st, steps[0], s, c);
      TotalsAndPeaks(u, steps[1..], s, c);
    }
  }

  /** When every lease has been released, in whatever order, every total of every span is zero again. */
  lemma AllReleased(st: State, steps: seq<Step>, s: nat, c: Cell)
    requires Balanced(st) && Peaked(st) && Runs(st, steps) && s < |After(st, steps).spans|
    requires forall h :: 0 <= h < |After(st, steps).handles| ==> !After(st, steps).handles[h].live
    ensures Current(After(st, steps).spans[s], c) == 0
  {
    TotalsAndPeaks(st, steps, s, c);
    var u := After(st, steps);
    NothingHeld(u.parents, u.handles, s, c);
  }

  const START: State := State([], [], [])

  /** A program starts with no spans, balanced and within the limit. */
  lemma StartsBalanced()
    ensures Balanced(START) && Peaked(START) && Within(START)
  {
  }

  /**
   A whole program, from the start: every total is the sum of the live leases, hence zero when all are
   released, and every peak is the highest value that the total ever had.
   */
  lemma ProgramTotals(steps: seq<Step>, s: nat, c: Cell)
    requires Runs(START, steps) && s < |After(START, steps).spans|
    ensures Sound(After(START, steps))
    ensures Current(After(START, steps).spans[s], c) == Held(After(START, steps).parents, After(START, steps).handles, s, c)
    ensures Peak(After(START, steps).spans[s], c) == HighWater(START, steps, s, c)
    ensures (forall h :: 0 <= h < |After(START, steps).handles| ==> !After(START, steps).handles[h].live) ==>
              Current(After(START, steps).spans[s], c) == 0
  {
    hide Current, Held, Runs, After, Balanced, Peaked;
    StartsBalanced();
    TotalsAndPeaks(START, steps, s, c);
    BalancedSound(After(START, steps));
    NeverNegative(START, steps, s, c);
    if forall h :: 0 <= h < |After(START, steps).handles| ==> !After(START, steps).handles[h].live {
      AllReleased(START, steps, s, c);
    }
  }

  lemma {:induction false} NeverNegative(st: State, steps: seq<Step>, s: nat, c: Cell)
    requires Balanced(st) && Peaked(st) && Runs(st, steps)
    ensures HighWater(st, steps, s, c) >= 0
    decreases |steps|
  {
    hide Current, Peak, Held, Apply, Possible, Balanced, BelowLimit, Peaked;
    if s < |st.spans| {
      BalancedCell(st, s, c);
    }
    if steps != [] {
      StepBalanced(st, steps[0]);
      NeverNegative(Apply(st, steps[0]), steps[1..], s, c);
    }
  }

  lemma {:induction false} NothingHeld(parents: Parents, handles: seq<Handle>, s: nat, c: Cell)
    requires forall h :: 0 <= h < |handles| ==> handles[h].span < |parents| && !handles[h].live
    ensures Held(parents, handles, s, c) == 0
    decreases |handles|
  {
    if handles != [] {
      NothingHeld(parents, handles[..|handles| - 1], s, c);
    }
  }

  /** Releasing a lease again changes nothing. */
  lemma ReleasedOnce(st: State, handle: nat)
    requires Sound(st) && handle < |st.handles|
    ensures Apply(Apply(st, Release(handle)), Release(handle)) == Apply(st, Release(handle))
  {
  }

  /**
   Past the limit the totals are no longer sums, nor need they become so again: with a full total already held, one byte more is
   not counted, and releasing the large lease leaves a live lease that no total shows.
   */
  lemma SaturationForgets(component: string)
    requires component != ""
    ensures var st := Apply(State([], [], []), Begin(None));
            var full := Apply(Apply(st, AcquireBuffer(0, component, MAX_INT64)), AcquireBuffer(0, component, 1));
            var left := Apply(full, Release(0));
            left.spans[0].bufferCurrent == 0 && Held(left.parents, left.handles, 0, Buffers) == 1
  {
    var st := Apply(State([], [], []), Begin(None));
    assert st == State([None], [FRESH_SPAN], []);
    RootAcquires(FRESH_SPAN, [], component, MAX_INT64);
    var large, small := Handle(0, Buffer, component, MAX_INT64, true), Handle(0, Buffer, component, 1, true);
    assert [] + [large] == [large];
    var raised := Raise(FRESH_SPAN, Buffer, component, MAX_INT64);
    RootAcquires(raised, [large], component, 1);
    assert [large] + [small] == [large, small];
    RootReleases(Raise(raised, Buffer, component, 1), large, small);
    TwoHeld(large.(live := false), small);
  }

  lemma RootAcquires(s: Span, handles: seq<Handle>, component: string, capacity: int)
    requires component != "" && capacity > 0 && Sound(State([None], [s], handles))
    ensures Apply(State([None], [s], handles), AcquireBuffer(0, component, capacity))
         == State([None], [Raise(s, Buffer, component, capacity)], handles + [Handle(0, Buffer, component, capacity, true)])
  {
    hide Raise;
    var parents: Parents := [None];
    assert Covers(parents, 0, 0);
  }

  lemma RootReleases(s: Span, first: Handle, second: Handle)
    requires first.live && first.span == 0 && second.span == 0 && first.size >= 0 && second.size >= 0
    ensures Sound(State([None], [s], [first, second]))
    ensures Apply(State([None], [s], [first, second]), Release(0))
         == State([None], [Lower(s, first.kind, first.component, first.size)], [first.(live := false), second])
  {
    hide Lower;
    var parents: Parents := [None];
    assert Covers(parents, 0, 0);
    assert [first, second][0 := first.(live := false)] == [first.(live := false), second];
  }

  lemma TwoHeld(first: Handle, second: Handle)
    requires first.span == 0 && second.span == 0 && !first.live && second.live && second.kind.Buffer?
    ensures Held([None], [first, second], 0, Buffers) == second.size
  {
    var parents: Parents := [None];
    assert Covers(parents, 0, 0);
    assert [first, second][..1] == [first] && [first][..0] == [];
    assert Held(parents, [first], 0, Buffers) == Held(parents, [], 0, Buffers) + Share(parents, first, 0, Buffers);
  }
}
