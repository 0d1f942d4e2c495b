/**
 Trees of job attributes, and the removal of every name that the queue's policy controls, at any
 depth of an overrides collection.  Names are lower-cased already.
 */
module JobAttributes {
  datatype Tag = KeywordTag | IntegerTag | RangeTag | CollectionTag | OtherTag(code: int)

  datatype Content = Text(text: string) | Number(n: int) | Bounds(lower: int, upper: int) | Members(attrs: seq<Attr>) | Raw(bytes: string)

  datatype Value = Value(tag: Tag, content: Content)

  datatype Attr = Attr(name: string, values: seq<Value>)

  function PolicyNames(): set<string> {
    {"media", "media-col", "media-type", "media-source", "media-weight-metric", "media-color",
     "media-pre-printed", "media-hole-count", "media-order-count", "media-recycled", "media-tooth",
     "print-color-mode", "output-mode"}
  }

  const OVERRIDES := "overrides"

  /** dropNestedPolicyAttrs: members with a controlled name go, and so do those inside what stays. */
  function Kept(attrs: seq<Attr>, drop: set<string>): seq<Attr>
    decreases attrs
  {
    if attrs == [] then []
    else if attrs[0].name in drop then Kept(attrs[1..], drop)
    else [Attr(attrs[0].name, KeptValues(attrs[0].values, drop))] + Kept(attrs[1..], drop)
  }

  function KeptValues(values: seq<Value>, drop: set<string>): seq<Value>
    decreases values
  {
    if values == [] then []
    else [KeptValue(values[0], drop)] + KeptValues(values[1..], drop)
  }

  function KeptValue(v: Value, drop: set<string>): Value
    decreases v
  {
    if v.content.Members? then Value(v.tag, Members(Kept(v.content.attrs, drop))) else v
  }

  /** No controlled name anywhere in the tree. */
  predicate Clean(attrs: seq<Attr>, drop: set<string>)
    decreases attrs
  {
    attrs != [] ==> attrs[0].name !in drop && CleanValues(attrs[0].values, drop) && Clean(attrs[1..], drop)
  }

  predicate CleanValues(values: seq<Value>, drop: set<string>)
    decreases values
  {
    values != [] ==> CleanValue(values[0], drop) && CleanValues(values[1..], drop)
  }

  predicate CleanValue(v: Value, drop: set<string>)
    decreases v
  {
    v.content.Members? ==> Clean(v.content.attrs, drop)
  }

  /** One node of a tree, named by its path: an attribute, one of its plain values, or the bounds of a collection. */
  datatype Item = Node(path: seq<string>) | Leaf(path: seq<string>, value: Value) | Open(path: seq<string>, tag: Tag) | Close(path: seq<string>)

  /** The nodes and values of a tree in order, without the subtrees under controlled names. */
  function Trace(attrs: seq<Attr>, path: seq<string>, drop: set<string>): seq<Item>
    decreases attrs
  {
    if attrs == [] then []
    else if attrs[0].name in drop then Trace(attrs[1..], path, drop)
    else
      var here := path + [attrs[0].name];
      [Node(here)] + TraceValues(attrs[0].values, here, drop) + Trace(attrs[1..], path, drop)
  }

  function TraceValues(values: seq<Value>, path: seq<string>, drop: set<string>): seq<Item>
    decreases values
  {
    if values == [] then []
    else TraceValue(values[0], path, drop) + TraceValues(values[1..], path, drop)
  }

  function TraceValue(v: Value, path: seq<string>, drop: set<string>): seq<Item>
    decreases v
  {
    if v.content.Members? then [Open(path, v.tag)] + Trace(v.content.attrs, path, drop) + [Close(path)] else [Leaf(path, v)]
  }

  lemma {:induction false} KeptIsClean(attrs: seq<Attr>, drop: set<string>)
    ensures Clean(Kept(attrs, drop), drop)
    decreases attrs
  {
    if attrs != [] {
      KeptIsClean(attrs[1..], drop);
      if attrs[0].name !in drop {
        KeptValuesAreClean(attrs[0].values, drop);
        var rest := Kept(attrs[1..], drop);
        assert Kept(attrs, drop)[1..] == rest;
      }
    }
  }

  lemma {:induction false} KeptValuesAreClean(values: seq<Value>, drop: set<string>)
    ensures CleanValues(KeptValues(values, drop), drop)
    decreases values
  {
    if values != [] {
      KeptValueIsClean(values[0], drop);
      KeptValuesAreClean(values[1..], drop);
      assert KeptValues(values, drop)[1..] == KeptValues(values[1..], drop);
    }
  }

  lemma {:induction false} KeptValueIsClean(v: Value, drop: set<string>)
    ensures CleanValue(KeptValue(v, drop), drop)
    decreases v
  {
    if v.content.Members? {
      KeptIsClean(v.content.attrs, drop);
    }
  }

  /** Every allowed member and value survives, at its place and in its order, and nothing else does. */
  lemma {:induction false} AllowedSurvive(attrs: seq<Attr>, path: seq<string>, drop: set<string>)
    ensures Trace(Kept(attrs, drop), path, {}) == Trace(attrs, path, drop)
    decreases attrs
  {
    if attrs != [] {
      AllowedSurvive(attrs[1..], path, drop);
      if attrs[0].name !in drop {
        AllowedValuesSurvive(attrs[0].values, path + [attrs[0].name], drop);
        assert Kept(attrs, drop)[1..] == Kept(attrs[1..], drop);
      }
    }
  }

  lemma {:induction false} AllowedValuesSurvive(values: seq<Value>, path: seq<string>, drop: set<string>)
    ensures TraceValues(KeptValues(values, drop), path, {}) == TraceValues(values, path, drop)
    decreases values
  {
    if values != [] {
      AllowedValueSurvives(values[0], path, drop);
      AllowedValuesSurvive(values[1..], path, drop);
      assert KeptValues(values, drop)[1..] == KeptValues(values[1..], drop);
    }
  }

  lemma {:induction false} AllowedValueSurvives(v: Value, path: seq<string>, drop: set<string>)
    ensures TraceValue(KeptValue(v, drop), path, {}) == TraceValue(v, path, drop)
    decreases v
  {
    if v.content.Members? {
      AllowedSurvive(v.content.attrs, path, drop);
    }
  }

  /** What is clean already is left exactly as it is. */
  lemma {:induction false} CleanIsKept(attrs: seq<Attr>, drop: set<string>)
    requires Clean(attrs, drop)
    ensures Kept(attrs, drop) == attrs
    decreases attrs
  {
    if attrs != [] {
      CleanIsKept(attrs[1..], drop);
      CleanValuesAreKept(attrs[0].values, drop);
      assert attrs == [attrs[0]] + attrs[1..];
    }
  }

  lemma {:induction false} CleanValuesAreKept(values: seq<Value>, drop: set<string>)
    requires CleanValues(values, drop)
    ensures KeptValues(values, drop) == values
    decreases values
  {
    if values != [] {
      CleanValueIsKept(values[0], drop);
      CleanValuesAreKept(values[1..], drop);
      assert values == [values[0]] + values[1..];
    }
  }

  lemma {:induction false} CleanValueIsKept(v: Value, drop: set<string>)
    requires CleanValue(v, drop)
    ensures KeptValue(v, drop) == v
    decreases v
  {
    if v.content.Members? {
      CleanIsKept(v.content.attrs, drop);
    }
  }

  predicate Selects(name: string) {
    name in {"document-number", "document-numbers", "page-ranges", "pages", "document-copies", "copy-numbers"}
  }

  /** An override that does more than name its target. */
  predicate HasPayload(attrs: seq<Attr>) {
    exists i :: 0 <= i < |attrs| && !Selects(attrs[i].name)
  }

  /** The values of one overrides attribute: clean collections that still change a job. */
  function SafeValues(values: seq<Value>, drop: set<string>): seq<Value> {
    if values == [] then []
    else
      var rest := SafeValues(values[1..], drop);
      if !values[0].content.Members? then rest
      else
        var filtered := Kept(values[0].content.attrs, drop);
        if HasPayload(filtered) then [Value(CollectionTag, Members(filtered))] + rest else rest
  }

  function Sanitized(attrs: seq<Attr>, drop: set<string>): seq<Attr> {
    if attrs == [] then []
    else
      var rest := Sanitized(attrs[1..], drop);
      if attrs[0].name != OVERRIDES then [attrs[0]] + rest
      else
        var values := SafeValues(attrs[0].values, drop);
        if values == [] then rest else [Attr(OVERRIDES, values)] + rest
  }

  /** A safe value is one kept collection of the input, without controlled names and with a payload. */
  lemma {:induction false} SafeValuesAreSafe(values: seq<Value>, drop: set<string>, k: nat)
    requires k < |SafeValues(values, drop)|
    ensures var v := SafeValues(values, drop)[k];
            && v.tag.CollectionTag? && v.content.Members? && Clean(v.content.attrs, drop) && HasPayload(v.content.attrs)
            && exists i :: 0 <= i < |values| && values[i].content.Members? && Kept(values[i].content.attrs, drop) == v.content.attrs
  {
    hide HasPayload, Clean, Kept;
    var rest := SafeValues(values[1..], drop);
    var here := |SafeValues(values, drop)| - |rest|;
    if k < here {
      KeptIsClean(values[0].content.attrs, drop);
    } else {
      SafeValuesAreSafe(values[1..], drop, k - here);
      var i :| 0 <= i < |values[1..]| && values[1..][i].content.Members? && Kept(values[1..][i].content.attrs, drop) == rest[k - here].content.attrs;
      assert values[i + 1] == values[1..][i];
    }
  }

  /** Every override that still does something is forwarded. */
  lemma {:induction false} EffectiveOverridesStay(values: seq<Value>, drop: set<string>, i: nat)
    requires i < |values| && values[i].content.Members? && HasPayload(Kept(values[i].content.attrs, drop))
    ensures Value(CollectionTag, Members(Kept(values[i].content.attrs, drop))) in SafeValues(values, drop)
  {
    hide HasPayload, Kept;
    if i > 0 {
      EffectiveOverridesStay(values[1..], drop, i - 1);
    }
  }

  function Without(attrs: seq<Attr>, names: set<string>): seq<Attr> {
    if attrs == [] then []
    else if attrs[0].name in names then Without(attrs[1..], names)
    else [attrs[0]] + Without(attrs[1..], names)
  }

  /** Attributes other than overrides pass unchanged and in order. */
  lemma {:induction false} OthersPass(attrs: seq<Attr>, drop: set<string>)
    ensures Without(Sanitized(attrs, drop), {OVERRIDES}) == Without(attrs, {OVERRIDES})
  {
    hide SafeValues;
    if attrs != [] {
      OthersPass(attrs[1..], drop);
      var rest := Sanitized(attrs[1..], drop);
      if attrs[0].name != OVERRIDES {
        assert Sanitized(attrs, drop)[1..] == rest;
      } else if SafeValues(attrs[0].values, drop) != [] {
        assert Sanitized(attrs, drop)[1..] == rest;
      }
    }
  }

  ghost predicate SafeOverrides(a: Attr, drop: set<string>) {
    a.name == OVERRIDES ==>
      a.values != [] && forall k :: 0 <= k < |a.values| ==>
        a.values[k].content.Members? && Clean(a.values[k].content.attrs, drop) && HasPayload(a.values[k].content.attrs)
  }

  /** Whatever a client nests, no overrides attribute keeps a controlled name at any depth. */
  lemma {:induction false} SanitizedIsSafe(attrs: seq<Attr>, drop: set<string>, i: nat)
    requires i < |Sanitized(attrs, drop)|
    ensures SafeOverrides(Sanitized(attrs, drop)[i], drop)
    ensures Sanitized(attrs, drop)[i].name in (set j | 0 <= j < |attrs| :: attrs[j].name)
  {
    hide SafeValues, Clean, HasPayload;
    var rest := Sanitized(attrs[1..], drop);
    var here := |Sanitized(attrs, drop)| - |rest|;
    if i < here {
      var values := SafeValues(attrs[0].values, drop);
      forall k | attrs[0].name == OVERRIDES && 0 <= k < |values|
        ensures values[k].content.Members? && Clean(values[k].content.attrs, drop) && HasPayload(values[k].content.attrs)
      {
        SafeValuesAreSafe(attrs[0].values, drop, k);
      }
      assert attrs[0].name in (set j | 0 <= j < |attrs| :: attrs[j].name);
    } else {
      SanitizedIsSafe(attrs[1..], drop, i - here);
      var j :| 0 <= j < |attrs[1..]| && attrs[1..][j].name == rest[i - here].name;
      assert attrs[j + 1] == attrs[1..][j];
    }
  }

  // What the overrides of a list of attributes do, from the trees alone.

  /** Some allowed member besides those that name the target. */
  predicate DoesSomething(attrs: seq<Attr>, drop: set<string>) {
    exists i :: 0 <= i < |attrs| && attrs[i].name !in drop
                && attrs[i].name !in {"document-number", "document-numbers", "page-ranges", "pages", "document-copies", "copy-numbers"}
  }

  /** The collections of an overrides attribute that do something, each as its trace. */
  function EffectsOf(values: seq<Value>, drop: set<string>): seq<seq<Item>> {
    if values == [] then []
    else
      var here := if values[0].content.Members? && DoesSomething(values[0].content.attrs, drop) then [Trace(values[0].content.attrs, [], drop)] else [];
      here + EffectsOf(values[1..], drop)
  }

  function Effects(attrs: seq<Attr>, drop: set<string>): seq<seq<Item>> {
    if attrs == [] then []
    else (if attrs[0].name == "overrides" then EffectsOf(attrs[0].values, drop) else []) + Effects(attrs[1..], drop)
  }

  lemma {:induction false} PayloadExactly(attrs: seq<Attr>, drop: set<string>)
    ensures HasPayload(Kept(attrs, drop)) <==> DoesSomething(attrs, drop)
    ensures HasPayload(attrs) <==> DoesSomething(attrs, {})
    decreases attrs
  {
    if attrs != [] {
      PayloadExactly(attrs[1..], drop);
      PayloadOfFirst(attrs, drop);
      var kept := Kept(attrs, drop);
      if attrs[0].name !in drop {
        assert kept[1..] == Kept(attrs[1..], drop);
        PayloadOfFirst(kept, {});
        PayloadSame(kept);
        PayloadSame(kept[1..]);
      }
    }
  }

  lemma PayloadSame(attrs: seq<Attr>)
    ensures HasPayload(attrs) <==> DoesSomething(attrs, {})
  {
  }

  lemma PayloadOfFirst(attrs: seq<Attr>, drop: set<string>)
    requires attrs != []
    ensures DoesSomething(attrs, drop) <==> (attrs[0].name !in drop && !Selects(attrs[0].name)) || DoesSomething(attrs[1..], drop)
  {
    if DoesSomething(attrs, drop) {
      var i :| 0 <= i < |attrs| && attrs[i].name !in drop && !Selects(attrs[i].name);
      assert i > 0 ==> attrs[1..][i - 1] == attrs[i];
    }
    if DoesSomething(attrs[1..], drop) {
      var i :| 0 <= i < |attrs[1..]| && attrs[1..][i].name !in drop && !Selects(attrs[1..][i].name);
      assert attrs[1..][i] == attrs[i + 1];
    }
  }

  lemma {:induction false} SafeValuesEffects(values: seq<Value>, drop: set<string>)
    ensures EffectsOf(SafeValues(values, drop), {}) == EffectsOf(values, drop)
    ensures SafeValues(values, drop) == [] ==> EffectsOf(values, drop) == []
  {
    hide DoesSomething, HasPayload, Trace, Kept;
    if values != [] {
      SafeValuesEffects(values[1..], drop);
      var rest := SafeValues(values[1..], drop);
      if values[0].content.Members? {
        var members := values[0].content.attrs;
        PayloadExactly(members, drop);
        PayloadSame(Kept(members, drop));
        AllowedSurvive(members, [], drop);
        if HasPayload(Kept(members, drop)) {
          assert ([Value(CollectionTag, Members(Kept(members, drop)))] + rest)[1..] == rest;
        }
      }
    }
  }

  /**
   Sanitising leaves of the overrides exactly what they do: every collection that still does something
   without the controlled names, in order, with all its allowed members, and nothing else.
   */
  lemma {:induction false} OverridesExactly(attrs: seq<Attr>, drop: set<string>)
    ensures Effects(Sanitized(attrs, drop), {}) == Effects(attrs, drop)
  {
    hide SafeValues, EffectsOf;
    if attrs != [] {
      OverridesExactly(attrs[1..], drop);
      var rest := Sanitized(attrs[1..], drop);
      SafeValuesEffects(attrs[0].values, drop);
      NoEffects();
      if attrs[0].name != OVERRIDES {
        assert ([attrs[0]] + rest)[1..] == rest;
      } else if SafeValues(attrs[0].values, drop) != [] {
        assert ([Attr(OVERRIDES, SafeValues(attrs[0].values, drop))] + rest)[1..] == rest;
      } else {
        assert [] + Effects(attrs[1..], drop) == Effects(attrs[1..], drop);
      }
    }
  }

  lemma NoEffects()
    ensures EffectsOf([], {}) == []
  {
  }

  lemma {:induction false} EffectsAppend(a: seq<Attr>, b: seq<Attr>, drop: set<string>)
    ensures Effects(a + b, drop) == Effects(a, drop) + Effects(b, drop)
  {
    hide EffectsOf;
    if a == [] {
      assert a + b == b;
    } else {
      EffectsAppend(a[1..], b, drop);
      assert (a + b)[1..] == a[1..] + b;
      Associates(if a[0].name == "overrides" then EffectsOf(a[0].values, drop) else [], Effects(a[1..], drop), Effects(b, drop));
    }
  }

  lemma Associates<T>(a: seq<T>, b: seq<T>, c: seq<T>)
    ensures a + b + c == a + (b + c)
  {
  }

  lemma {:induction false} EffectsWithout(attrs: seq<Attr>, names: set<string>, drop: set<string>)
    requires OVERRIDES !in names
    ensures Effects(Without(attrs, names), drop) == Effects(attrs, drop)
  {
    hide EffectsOf;
    if attrs != [] {
      EffectsWithout(attrs[1..], names, drop);
      if attrs[0].name !in names {
        assert Without(attrs, names)[1..] == Without(attrs[1..], names);
      }
    }
  }

  lemma {:induction false} EffectsOfNone(attrs: seq<Attr>, drop: set<string>)
    requires forall a :: a in attrs ==> a.name != OVERRIDES
    ensures Effects(attrs, drop) == []
  {
    hide EffectsOf;
    if attrs != [] {
      EffectsOfNone(attrs[1..], drop);
    }
  }
}
