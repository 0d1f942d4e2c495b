/**
 The leases behind the accounting: a lease at a span carries a lease at the parent span, and each
 operation walks that chain.
 */
module SpanTracker {
  import opened Basics
  import opened SpanResources

  datatype Lease = Lease(span: nat, kind: Kind, component: string, current: int, parent: Option<nat>, released: bool)

  /** Lease id stands for handle number h at the given span, and its parent lease does so above. */
  ghost predicate Linked(parents: Parents, leases: seq<Lease>, owner: seq<nat>, id: nat, span: nat, h: nat, handle: Handle)
    requires span < |parents| && |owner| == |leases|
    decreases span
  {
    && id < |leases| && owner[id] == h
    && leases[id].span == span && leases[id].kind == handle.kind && leases[id].component == handle.component
    && leases[id].released == !handle.live && leases[id].current == (if handle.live then handle.size else 0)
    && (leases[id].parent.Some? <==> parents[span].Some?)
    && (parents[span].Some? ==> Linked(parents, leases, owner, leases[id].parent.value, parents[span].value, h, handle))
  }

  /** A chain is not affected by changes to other handles' leases, by new leases, or by new spans. */
  lemma {:induction false} LinkedStays(parents: Parents, leases: seq<Lease>, owner: seq<nat>,
                                       more: Parents, after: seq<Lease>, owners: seq<nat>,
                                       id: nat, span: nat, h: nat, handle: Handle)
    requires span < |parents| <= |more| && |owner| == |leases| <= |owners| == |after|
    requires more[..|parents|] == parents && owners[..|owner|] == owner
    requires forall i :: 0 <= i < |leases| && owner[i] == h ==> after[i] == leases[i]
    requires Linked(parents, leases, owner, id, span, h, handle)
    ensures Linked(more, after, owners, id, span, h, handle)
    decreases span
  {
    assert more[span] == more[..|parents|][span];
    assert owners[id] == owners[..|owner|][id];
    if parents[span].Some? {
      LinkedStays(parents, leases, owner, more, after, owners, leases[id].parent.value, parents[span].value, h, handle);
    }
  }

  class Tracker {
    var parents: Parents
    var spans: seq<Span>
    var leases: seq<Lease>
    ghost var handles: seq<Handle>
    // The lease that each handle's holder has, and the handle that each lease belongs to.
    ghost var top: seq<nat>
    ghost var owner: seq<nat>

    constructor ()
      ensures Valid() && Model() == State([], [], [])
    {
      parents, spans, leases := [], [], [];
      handles, top, owner := [], [], [];
    }

    ghost function Model(): State
      reads this
    {
      State(parents, spans, handles)
    }

    ghost predicate Valid()
      reads this
    {
      && Sound(Model())
      && |top| == |handles| && |owner| == |leases|
      && (forall i :: 0 <= i < |owner| ==> owner[i] < |handles|)
      && (forall h :: 0 <= h < |handles| ==> Linked(parents, leases, owner, top[h], handles[h].span, h, handles[h]))
    }

    method Begin(parent: Option<nat>) returns (span: nat)
      requires Valid() && (parent.Some? ==> parent.value < |parents|)
      modifies this
      ensures Valid() && span == old(|spans|)
      ensures Model() == Apply(old(Model()), Step.Begin(parent))
    {
      ghost var before := parents;
      span := |spans|;
      parents := parents + [parent];
      spans := spans + [FRESH_SPAN];
      assert parents[..|before|] == before;
      forall h | 0 <= h < |handles|
        ensures Linked(parents, leases, owner, top[h], handles[h].span, h, handles[h])
      {
        assert owner[..|owner|] == owner;
        LinkedStays(before, leases, owner, parents, leases, owner, top[h], handles[h].span, h, handles[h]);
      }
    }

    /** The recursive part of taking out a lease: this span, then everything above it. */
    method Acquire(span: nat, kind: Kind, component: string, size: int, ghost h: nat) returns (id: nat)
      requires span < |parents| == |spans| && |owner| == |leases| && size >= 0
      modifies `spans, `leases, `owner
      ensures |spans| == |parents| && |owner| == |leases| > id == old(|leases|)
      ensures leases[..old(|leases|)] == old(leases) && owner[..old(|owner|)] == old(owner)
      ensures forall i :: old(|owner|) <= i < |owner| ==> owner[i] == h
      ensures forall s :: 0 <= s < |spans| ==>
                spans[s] == if Covers(parents, s, span) then Raise(old(spans)[s], kind, component, size) else old(spans)[s]
      ensures Linked(parents, leases, owner, id, span, h, Handle(span, kind, component, size, true))
      decreases span
    {
      hide Raise;
      id := |leases|;
      leases := leases + [Lease(span, kind, component, size, None, false)];
      owner := owner + [h];
      spans := spans[span := Raise(spans[span], kind, component, size)];
      if parents[span].Some? {
        NotAbove(parents, span);
        var up := Acquire(parents[span].value, kind, component, size, h);
        assert leases[..id + 1][id] == leases[id] && owner[..id + 1][id] == owner[id];
        ghost var linked := leases;
        leases := leases[id := leases[id].(parent := Some(up))];
        LinkedBehind(parents, linked, owner, leases, up, parents[span].value, h, Handle(parents[span].value, kind, component, size, true), id);
        LinkedAnySpan(parents, leases, owner, up, parents[span].value, h, Handle(parents[span].value, kind, component, size, true), span);
      }
    }

    /** A lease that its caller holds, counted at the span and above. */
    method Take(span: nat, kind: Kind, component: string, size: int) returns (id: nat)
      requires Valid() && span < |parents| && size >= 0
      modifies this
      ensures Valid() && top == old(top) + [id]
      ensures Model() == Acquired(old(Model()), span, kind, ComponentName(component), size)
    {
      hide Raise;
      var name := if component == "" then "unspecified" else component;
      ghost var h, was, owned := |handles|, leases, owner;
      id := Acquire(span, kind, name, size, h);
      handles := handles + [Handle(span, kind, name, size, true)];
      top := top + [id];
      forall g | 0 <= g < |handles|
        ensures Linked(parents, leases, owner, top[g], handles[g].span, g, handles[g])
      {
        if g < h {
          assert forall i :: 0 <= i < |was| ==> leases[i] == leases[..|was|][i];
          LinkedStays(parents, was, owned, parents, leases, owner, top[g], handles[g].span, g, handles[g]);
        }
      }
      assert forall i :: 0 <= i < |owned| ==> owner[i] == owner[..|owned|][i];
      assert spans == Acquired(old(Model()), span, kind, ComponentName(component), size).spans;
    }

    method AcquireBuffer(span: nat, component: string, capacity: int) returns (id: Option<nat>)
      requires Valid() && span < |parents|
      modifies this
      ensures Valid() && Model() == Apply(old(Model()), Step.AcquireBuffer(span, component, capacity))
      ensures id.Some? ==> top == old(top) + [id.value]
      ensures id.None? ==> top == old(top)
    {
      if capacity <= 0 {
        return None;
      }
      var taken := Take(span, Buffer, component, capacity);
      return Some(taken);
    }

    method AcquireTemp(span: nat, component: string, logicalSize: int) returns (id: nat)
      requires Valid() && span < |parents|
      modifies this
      ensures Valid() && Model() == Apply(old(Model()), Step.AcquireTemp(span, component, logicalSize))
      ensures top == old(top) + [id]
    {
      var size := if logicalSize < 0 then 0 else logicalSize;
      id := Take(span, Temp, component, size);
    }

    /** The recursive part of giving a lease back. */
    method Free(id: nat, ghost span: nat, ghost h: nat, ghost handle: Handle)
      requires span < |parents| == |spans| && |owner| == |leases|
      requires handle.live && Linked(parents, leases, owner, id, span, h, handle)
      modifies `spans, `leases
      ensures |spans| == |parents| && |leases| == |old(leases)|
      ensures forall i :: 0 <= i < |leases| && (owner[i] != h || old(leases)[i].span > span) ==> leases[i] == old(leases)[i]
      ensures forall s :: 0 <= s < |spans| ==>
                spans[s] == if Covers(parents, s, span) then Lower(old(spans)[s], handle.kind, handle.component, handle.size) else old(spans)[s]
      ensures Linked(parents, leases, owner, id, span, h, handle.(live := false))
      decreases span
    {
      hide Lower;
      var lease := leases[id];
      spans := spans[lease.span := Lower(spans[lease.span], lease.kind, lease.component, lease.current)];
      leases := leases[id := lease.(released := true, current := 0)];
      if lease.parent.Some? {
        NotAbove(parents, span);
        ghost var above := parents[span].value;
        LinkedBehind(parents, old(leases), owner, leases, lease.parent.value, above, h, handle, id);
        Free(lease.parent.value, above, h, handle);
      }
    }

    /** Gives a lease back once; a second time does nothing. */
    method Release(id: nat, ghost h: nat)
      requires Valid() && h < |top| && top[h] == id
      modifies this
      ensures Valid() && top == old(top) && Model() == Apply(old(Model()), Step.Release(h))
    {
      hide Lower;
      if leases[id].released {
        return;
      }
      ghost var was, handle := leases, handles[h];
      Free(id, handle.span, h, handle);
      handles := handles[h := handle.(live := false)];
      KeepOthers(was, h);
      assert spans == Apply(old(Model()), Step.Release(h)).spans;
    }

    /** The chains of all other handles stand as they did. */
    ghost method KeepOthers(was: seq<Lease>, h: nat)
      requires |owner| == |leases| == |was| && |top| == |handles| && h < |handles| && |spans| == |parents|
      requires forall g :: 0 <= g < |handles| ==> handles[g].span < |parents| && handles[g].size >= 0
      requires forall i :: 0 <= i < |owner| ==> owner[i] < |handles|
      requires forall i :: 0 <= i < |leases| && owner[i] != h ==> leases[i] == was[i]
      requires forall g :: 0 <= g < |handles| && g != h ==> Linked(parents, was, owner, top[g], handles[g].span, g, handles[g])
      requires Linked(parents, leases, owner, top[h], handles[h].span, h, handles[h])
      ensures Valid()
    {
      forall g | 0 <= g < |handles| && g != h
        ensures Linked(parents, leases, owner, top[g], handles[g].span, g, handles[g])
      {
        assert parents[..|parents|] == parents && owner[..|owner|] == owner;
        LinkedStays(parents, was, owner, parents, leases, owner, top[g], handles[g].span, g, handles[g]);
      }
    }

    /** The recursive part of a new size. */
    method Resize(id: nat, size: int, ghost span: nat, ghost h: nat, ghost handle: Handle)
      requires span < |parents| == |spans| && |owner| == |leases| && size >= 0
      requires handle.live && handle.kind.Temp? && Linked(parents, leases, owner, id, span, h, handle)
      modifies `spans, `leases
      ensures |spans| == |parents| && |leases| == |old(leases)|
      ensures forall i :: 0 <= i < |leases| && (owner[i] != h || old(leases)[i].span > span) ==> leases[i] == old(leases)[i]
      ensures forall s :: 0 <= s < |spans| ==>
                spans[s] == if Covers(parents, s, span) then Resized(old(spans)[s], Temp, handle.component, handle.size, size) else old(spans)[s]
      ensures Linked(parents, leases, owner, id, span, h, handle.(size := size))
      decreases span
    {
      hide Resized;
      var lease := leases[id];
      spans := spans[lease.span := ResizeSpan(spans[lease.span], lease, size)];
      leases := leases[id := lease.(current := size)];
      if lease.parent.Some? {
        NotAbove(parents, span);
        ghost var above := parents[span].value;
        LinkedBehind(parents, old(leases), owner, leases, lease.parent.value, above, h, handle, id);
        Resize(lease.parent.value, size, above, h, handle);
      }
    }

    /** A temporary file's new size; nothing happens for buffers and for released leases. */
    method SetSize(id: nat, size: int, ghost h: nat)
      requires Valid() && h < |top| && top[h] == id
      modifies this
      ensures Valid() && top == old(top) && Model() == Apply(old(Model()), Step.SetSize(h, size))
    {
      hide Resized;
      if leases[id].kind.Buffer? || leases[id].released {
        return;
      }
      var wanted := if size < 0 then 0 else size;
      ghost var was, handle := leases, handles[h];
      Resize(id, wanted, handle.span, h, handle);
      handles := handles[h := handle.(size := wanted)];
      KeepOthers(was, h);
      assert spans == Apply(old(Model()), Step.SetSize(h, size)).spans;
    }
  }

  /** One span's share of a new size: more is added with its peak, less is taken off. */
  function ResizeSpan(s: Span, lease: Lease, size: int): (r: Span)
    requires lease.kind.Temp?
    ensures r == Resized(s, Temp, lease.component, lease.current, size)
  {
    if size > lease.current then
      var total := AddSaturating(s.tempCurrent, size - lease.current);
      s.(tempCurrent := total, tempPeak := Max(s.tempPeak, total))
    else s.(tempCurrent := Max(s.tempCurrent - (lease.current - size), 0))
  }

  /** A span is not above its own parent. */
  lemma NotAbove(parents: Parents, span: nat)
    requires span < |parents| && parents[span].Some?
    ensures !Covers(parents, span, parents[span].value)
  {
    if Covers(parents, span, parents[span].value) {
      CoversBelow(parents, span, parents[span].value);
    }
  }

  /** Every lease of a chain was taken out after the lease below it. */
  lemma {:induction false} LinkedBehind(parents: Parents, leases: seq<Lease>, owner: seq<nat>, after: seq<Lease>,
                                        id: nat, span: nat, h: nat, handle: Handle, below: nat)
    requires span < |parents| && |owner| == |leases| == |after| && below < |leases|
    requires Linked(parents, leases, owner, id, span, h, handle)
    requires forall i :: 0 <= i < |leases| && i != below ==> after[i] == leases[i]
    requires leases[below].span > span
    ensures Linked(parents, after, owner, id, span, h, handle)
    decreases span
  {
    if parents[span].Some? {
      LinkedBehind(parents, leases, owner, after, leases[id].parent.value, parents[span].value, h, handle, below);
    }
  }

  lemma {:induction false} LinkedAnySpan(parents: Parents, leases: seq<Lease>, owner: seq<nat>,
                                         id: nat, span: nat, h: nat, handle: Handle, other: nat)
    requires span < |parents| && |owner| == |leases|
    requires Linked(parents, leases, owner, id, span, h, handle)
    ensures Linked(parents, leases, owner, id, span, h, handle.(span := other))
    decreases span
  {
    if parents[span].Some? {
      LinkedAnySpan(parents, leases, owner, leases[id].parent.value, parents[span].value, h, handle, other);
    }
  }
}
