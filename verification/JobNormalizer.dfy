/**
 The policy boundary for job attributes: whatever the client sends, the upstream printer gets the
 queue's colour mode and a medium of the queue's catalog, and no override undoes that.
 */
module JobNormalizer {
  import opened Basics
  import opened JobAttributes
  import opened MediaSelection

  datatype Policy = Policy(
    useMediaCol: bool, mediaDefault: string, mediaType: string, mediaSource: string,
    printScaling: Option<string>, printColorMode: string)

  function Keyword(name: string, value: string): Attr {
    Attr(name, [Value(KeywordTag, Text(value))])
  }

  function Integer(name: string, n: int): Attr {
    Attr(name, [Value(IntegerTag, Number(n))])
  }

  /** The media-col attribute that the policy sends for a size. */
  function MediaColOf(s: Size, p: Policy): Attr {
    var dimensions :=
      if s.hasDimension then
        [Attr("media-size", [Value(CollectionTag, Members([Integer("x-dimension", s.x), Integer("y-dimension", s.y)]))])]
      else [];
    var kind := if p.mediaType != "" then [Keyword("media-type", p.mediaType)] else [];
    var source := if p.mediaSource != "" then [Keyword("media-source", p.mediaSource)] else [];
    Attr("media-col", [Value(CollectionTag, Members(dimensions + kind + source))])
  }

  function Find(attrs: seq<Attr>, name: string): Option<Attr> {
    if attrs == [] then None else if attrs[0].name == name then Some(attrs[0]) else Find(attrs[1..], name)
  }

  function Count(attrs: seq<Attr>, name: string): nat {
    if attrs == [] then 0 else (if attrs[0].name == name then 1 else 0) + Count(attrs[1..], name)
  }

  /** Replaces an attribute in its place, or adds it at the end; duplicates go. */
  function Set(attrs: seq<Attr>, a: Attr, done: bool): seq<Attr> {
    if attrs == [] then if done then [] else [a]
    else if attrs[0].name != a.name then [attrs[0]] + Set(attrs[1..], a, done)
    else if done then Set(attrs[1..], a, true)
    else [a] + Set(attrs[1..], a, true)
  }

  lemma {:induction false} CountAppend(a: seq<Attr>, b: seq<Attr>, name: string)
    ensures Count(a + b, name) == Count(a, name) + Count(b, name)
  {
    if a == [] {
      assert a + b == b;
    } else {
      CountAppend(a[1..], b, name);
      assert (a + b)[1..] == a[1..] + b;
    }
  }

  lemma {:induction false} SetCounts(attrs: seq<Attr>, a: Attr, done: bool, name: string)
    ensures Count(Set(attrs, a, done), name) == if name == a.name then (if done then 0 else 1) else Count(attrs, name)
  {
    if attrs != [] {
      var next := done || attrs[0].name == a.name;
      SetCounts(attrs[1..], a, next, name);
      if attrs[0].name != a.name {
        assert Set(attrs, a, done)[1..] == Set(attrs[1..], a, done);
      } else if !done {
        assert Set(attrs, a, done)[1..] == Set(attrs[1..], a, true);
      }
    }
  }

  lemma {:induction false} SetKeeps(attrs: seq<Attr>, a: Attr, done: bool, k: nat)
    requires k < |Set(attrs, a, done)|
    ensures Set(attrs, a, done)[k] == a || Set(attrs, a, done)[k] in attrs
  {
    if attrs != [] {
      if attrs[0].name != a.name {
        if k > 0 {
          SetKeeps(attrs[1..], a, done, k - 1);
        }
      } else if done {
        SetKeeps(attrs[1..], a, true, k);
      } else if k > 0 {
        SetKeeps(attrs[1..], a, true, k - 1);
      }
    }
  }

  /** A name that was dropped does not come back through sanitising. */
  lemma {:induction false} DroppedIsGone(attrs: seq<Attr>, drop: set<string>, name: string)
    requires name in drop
    ensures Count(Sanitized(Without(attrs, drop), drop), name) == 0
  {
    hide SafeValues;
    if attrs != [] {
      DroppedIsGone(attrs[1..], drop, name);
      if attrs[0].name !in drop {
        var rest := Sanitized(Without(attrs[1..], drop), drop);
        var all := Sanitized(Without(attrs, drop), drop);
        assert Without(attrs, drop)[1..] == Without(attrs[1..], drop);
        assert |all| > |rest| ==> all[1..] == rest && all[0].name == attrs[0].name;
      }
    }
  }

  /** The attributes that the policy itself adds. */
  function PolicyAttrs(selected: Size, p: Policy): seq<Attr> {
    (if p.useMediaCol then [MediaColOf(selected, p)]
     else [Keyword("media", selected.name)] + if p.mediaType != "" then [Keyword("media-type", p.mediaType)] else [])
    + if !p.useMediaCol && p.mediaSource != "" then [Keyword("media-source", p.mediaSource)] else []
  }

  function ColourAttrs(p: Policy): seq<Attr> {
    [Keyword("print-color-mode", p.printColorMode)]
    + if p.printColorMode == "monochrome" then [Keyword("output-mode", "monochrome")] else []
  }

  predicate Scales(p: Policy) {
    p.printScaling.Some? && p.printScaling.value != ""
  }

  function Scaled(attrs: seq<Attr>, p: Policy): seq<Attr> {
    if Scales(p) then Set(attrs, Keyword("print-scaling", p.printScaling.value), false) else attrs
  }

  function Normalised(attrs: seq<Attr>, drop: set<string>, selected: Size, p: Policy): seq<Attr> {
    Scaled(Sanitized(Without(attrs, drop), drop) + PolicyAttrs(selected, p), p) + ColourAttrs(p)
  }

  /** The names that the policy decides. */
  function Decided(drop: set<string>, p: Policy): set<string> {
    drop + {OVERRIDES} + if Scales(p) then {"print-scaling"} else {}
  }

  /** One attribute of the name, with one keyword. */
  predicate One(attrs: seq<Attr>, name: string, text: string) {
    Count(attrs, name) == 1 && Find(attrs, name) == Some(Attr(name, [Value(KeywordTag, Text(text))]))
  }

  /** One such attribute, or none when there is nothing to say. */
  predicate OneIfAny(attrs: seq<Attr>, name: string, text: string) {
    if text != "" then One(attrs, name, text) else Count(attrs, name) == 0
  }

  /** A collection from which a printer reads the dimensions of the medium, and the policy's type and source. */
  ghost predicate ShowsMedium(a: Attr, selected: Size, p: Policy) {
    && |a.values| == 1 && a.values[0].tag == CollectionTag && a.values[0].content.Members?
    && var members := a.values[0].content.attrs;
       && Collect(members, NO_SELECTOR)
          == Selector([], if selected.hasDimension then Some(selected.x) else None, if selected.hasDimension then Some(selected.y) else None, false)
       && OneIfAny(members, "media-type", p.mediaType) && OneIfAny(members, "media-source", p.mediaSource)
       && forall m :: m in members ==> m.name in {"media-size", "media-type", "media-source"}
  }

  ghost predicate MediumSent(out: seq<Attr>, selected: Size, p: Policy) {
    if p.useMediaCol then
      && Count(out, "media-col") == 1 && Find(out, "media-col").Some? && ShowsMedium(Find(out, "media-col").value, selected, p)
      && Count(out, "media") == Count(out, "media-type") == Count(out, "media-source") == 0
    else
      && One(out, "media", selected.name) && Count(out, "media-col") == 0
      && OneIfAny(out, "media-type", p.mediaType) && OneIfAny(out, "media-source", p.mediaSource)
  }

  predicate ColourSent(out: seq<Attr>, p: Policy) {
    One(out, "print-color-mode", p.printColorMode) && OneIfAny(out, "output-mode", if p.printColorMode == "monochrome" then "monochrome" else "")
  }

  /**
   What reaches the printer: the policy's colour mode, medium and scaling, nothing else of a dropped
   name, overrides that are clean and do exactly what they did besides, and all other attributes of the
   client unchanged and in order.
   */
  ghost predicate Enforced(out: seq<Attr>, attrs: seq<Attr>, drop: set<string>, selected: Size, p: Policy) {
    && ColourSent(out, p) && MediumSent(out, selected, p)
    && (p.printScaling.Some? && p.printScaling.value != "" ==> One(out, "print-scaling", p.printScaling.value))
    && (forall name :: name in drop && name !in {"media", "media-col", "media-type", "media-source", "print-color-mode", "output-mode", "print-scaling"} ==>
          Count(out, name) == 0)
    && (var decided := drop + {"overrides"} + if p.printScaling.Some? && p.printScaling.value != "" then {"print-scaling"} else {};
        Without(out, decided) == Without(attrs, decided))
    && (forall a :: a in out ==> SafeOverrides(a, drop))
    && (OVERRIDES !in drop ==> Effects(out, {}) == Effects(attrs, drop))
  }

  function Scalings(p: Policy, name: string): nat {
    if name == "print-scaling" && Scales(p) then 1 else 0
  }

  lemma {:induction false} FoundOnce(attrs: seq<Attr>, a: Attr)
    requires a in attrs && Count(attrs, a.name) == 1
    ensures Find(attrs, a.name) == Some(a)
  {
    if attrs[0].name == a.name {
      if attrs[0] != a {
        CountIn(attrs[1..], a);
      }
    } else {
      FoundOnce(attrs[1..], a);
    }
  }

  lemma {:induction false} CountIn(attrs: seq<Attr>, a: Attr)
    requires a in attrs
    ensures Count(attrs, a.name) >= 1
  {
    if attrs[0] != a {
      CountIn(attrs[1..], a);
    }
  }

  lemma OneCount(a: Attr, name: string)
    ensures Count([a], name) == if a.name == name then 1 else 0
  {
    assert [a][1..] == [];
  }

  /** A medium's own attributes, in the plain form. */
  lemma PlainCounts(selected: Size, p: Policy, name: string)
    requires !p.useMediaCol
    ensures Count(PolicyAttrs(selected, p), name)
         == if name == "media" || (name == "media-type" && p.mediaType != "") || (name == "media-source" && p.mediaSource != "") then 1 else 0
    ensures Keyword("media", selected.name) in PolicyAttrs(selected, p)
    ensures p.mediaType != "" ==> Keyword("media-type", p.mediaType) in PolicyAttrs(selected, p)
    ensures p.mediaSource != "" ==> Keyword("media-source", p.mediaSource) in PolicyAttrs(selected, p)
    ensures forall a :: a in PolicyAttrs(selected, p) ==> a.name == "media" || a.name == "media-type" || a.name == "media-source"
  {
    hide Count;
    var medium := Keyword("media", selected.name);
    var kind := if p.mediaType != "" then [Keyword("media-type", p.mediaType)] else [];
    var source := if p.mediaSource != "" then [Keyword("media-source", p.mediaSource)] else [];
    assert PolicyAttrs(selected, p) == [medium] + kind + source;
    OneCount(medium, name);
    OneCount(Keyword("media-type", p.mediaType), name);
    OneCount(Keyword("media-source", p.mediaSource), name);
    EmptyCount(name);
    CountAppend([medium], kind, name);
    CountAppend([medium] + kind, source, name);
  }

  lemma EmptyCount(name: string)
    ensures Count([], name) == 0
  {
  }

  lemma PolicyCounts(selected: Size, p: Policy, name: string)
    ensures Count(PolicyAttrs(selected, p), name)
         == if p.useMediaCol then (if name == "media-col" then 1 else 0)
            else if name == "media" || (name == "media-type" && p.mediaType != "") || (name == "media-source" && p.mediaSource != "") then 1 else 0
  {
    if p.useMediaCol {
      MediumName(selected, p);
      hide Count, MediaColOf;
      assert PolicyAttrs(selected, p) == [MediaColOf(selected, p)];
      OneCount(MediaColOf(selected, p), name);
    } else {
      hide Count, PolicyAttrs;
      PlainCounts(selected, p, name);
    }
  }

  lemma PolicyMembers(selected: Size, p: Policy)
    ensures forall a :: a in PolicyAttrs(selected, p) ==> a.name in {"media", "media-col", "media-type", "media-source"}
    ensures p.useMediaCol ==> MediaColOf(selected, p) in PolicyAttrs(selected, p)
    ensures !p.useMediaCol ==> Keyword("media", selected.name) in PolicyAttrs(selected, p)
    ensures !p.useMediaCol && p.mediaType != "" ==> Keyword("media-type", p.mediaType) in PolicyAttrs(selected, p)
    ensures !p.useMediaCol && p.mediaSource != "" ==> Keyword("media-source", p.mediaSource) in PolicyAttrs(selected, p)
  {
    if p.useMediaCol {
      MediumName(selected, p);
      hide MediaColOf;
      assert PolicyAttrs(selected, p) == [MediaColOf(selected, p)];
    } else {
      hide PolicyAttrs;
      PlainCounts(selected, p, "");
    }
  }

  lemma ScaledCounts(attrs: seq<Attr>, p: Policy, name: string)
    ensures Count(Scaled(attrs, p), name) == if name == "print-scaling" && Scales(p) then 1 else Count(attrs, name)
  {
    if Scales(p) {
      SetCounts(attrs, Keyword("print-scaling", p.printScaling.value), false, name);
    }
  }

  lemma ScaledKeeps(attrs: seq<Attr>, p: Policy, a: Attr)
    ensures a in Scaled(attrs, p) ==> a in attrs || a.name == "print-scaling"
    ensures a in attrs && a.name != "print-scaling" ==> a in Scaled(attrs, p)
  {
    if Scales(p) {
      var scaling := Keyword("print-scaling", p.printScaling.value);
      if a in Scaled(attrs, p) {
        var k :| 0 <= k < |Scaled(attrs, p)| && Scaled(attrs, p)[k] == a;
        SetKeeps(attrs, scaling, false, k);
      }
      if a in attrs && a.name != "print-scaling" {
        SetKeepsOthers(attrs, scaling, false, a);
      }
    }
  }

  lemma {:induction false} SetKeepsOthers(attrs: seq<Attr>, s: Attr, done: bool, a: Attr)
    requires a in attrs && a.name != s.name
    ensures a in Set(attrs, s, done)
  {
    if attrs[0] != a {
      SetKeepsOthers(attrs[1..], s, done || attrs[0].name == s.name, a);
    }
  }

  lemma ColourCounts(p: Policy, name: string)
    ensures Count(ColourAttrs(p), name)
         == (if name == "print-color-mode" then 1 else if name == "output-mode" && p.printColorMode == "monochrome" then 1 else 0)
    ensures Keyword("print-color-mode", p.printColorMode) in ColourAttrs(p)
    ensures p.printColorMode == "monochrome" ==> Keyword("output-mode", "monochrome") in ColourAttrs(p)
    ensures forall a :: a in ColourAttrs(p) ==> a.name == "print-color-mode" || a.name == "output-mode"
  {
    var mode := Keyword("print-color-mode", p.printColorMode);
    var output := if p.printColorMode == "monochrome" then [Keyword("output-mode", "monochrome")] else [];
    CountAppend([mode], output, name);
  }

  lemma NormalisedCounts(attrs: seq<Attr>, drop: set<string>, selected: Size, p: Policy, name: string)
    requires name in drop
    ensures Count(Normalised(attrs, drop, selected, p), name)
         == Count(PolicyAttrs(selected, p), name) + Count(ColourAttrs(p), name) + Scalings(p, name)
  {
    NoScaling(selected, p);
    hide Sanitized, Without, PolicyAttrs, ColourAttrs, Scaled, Count;
    var client := Sanitized(Without(attrs, drop), drop);
    DroppedIsGone(attrs, drop, name);
    CountAppend(client, PolicyAttrs(selected, p), name);
    ScaledCounts(client + PolicyAttrs(selected, p), p, name);
    CountAppend(Scaled(client + PolicyAttrs(selected, p), p), ColourAttrs(p), name);
  }

  lemma NoScaling(selected: Size, p: Policy)
    ensures Count(PolicyAttrs(selected, p), "print-scaling") == Count(ColourAttrs(p), "print-scaling") == 0
  {
    PolicyCounts(selected, p, "print-scaling");
    ColourCounts(p, "print-scaling");
  }

  // The attributes that the policy does not decide.

  lemma {:induction false} WithoutAppend(a: seq<Attr>, b: seq<Attr>, names: set<string>)
    ensures Without(a + b, names) == Without(a, names) + Without(b, names)
  {
    if a == [] {
      assert a + b == b;
    } else {
      WithoutAppend(a[1..], b, names);
      assert (a + b)[1..] == a[1..] + b;
    }
  }

  lemma {:induction false} WithoutAll(attrs: seq<Attr>, names: set<string>)
    requires forall a :: a in attrs ==> a.name in names
    ensures Without(attrs, names) == []
  {
    if attrs != [] {
      WithoutAll(attrs[1..], names);
    }
  }

  lemma {:induction false} WithoutTwice(attrs: seq<Attr>, some: set<string>, names: set<string>)
    requires some <= names
    ensures Without(Without(attrs, some), names) == Without(attrs, names)
  {
    if attrs != [] {
      WithoutTwice(attrs[1..], some, names);
      if attrs[0].name !in some {
        assert Without(attrs, some)[1..] == Without(attrs[1..], some);
      }
    }
  }

  lemma {:induction false} WithoutSet(attrs: seq<Attr>, a: Attr, done: bool, names: set<string>)
    requires a.name in names
    ensures Without(Set(attrs, a, done), names) == Without(attrs, names)
  {
    if attrs == [] {
      assert [a][1..] == [];
    } else {
      var next := done || attrs[0].name == a.name;
      WithoutSet(attrs[1..], a, next, names);
      var rest := Set(attrs[1..], a, next);
      if attrs[0].name != a.name || !done {
        assert Set(attrs, a, done)[1..] == rest;
      }
    }
  }

  /** Every attribute that the policy does not decide passes, unchanged and in order. */
  lemma UndecidedPass(attrs: seq<Attr>, drop: set<string>, selected: Size, p: Policy)
    requires PolicyNames() <= drop
    ensures Without(Normalised(attrs, drop, selected, p), Decided(drop, p)) == Without(attrs, Decided(drop, p))
  {
    PolicyNamesOnly(selected, p);
    hide Sanitized, PolicyAttrs, ColourAttrs, Without, PolicyNames;
    var names := Decided(drop, p);
    var kept := Without(attrs, drop);
    var client := Sanitized(kept, drop);
    var media, colour := PolicyAttrs(selected, p), ColourAttrs(p);
    WithoutAll(media, names);
    WithoutAll(colour, names);
    WithoutAppend(client, media, names);
    WithoutAppend(Scaled(client + media, p), colour, names);
    if Scales(p) {
      WithoutSet(client + media, Keyword("print-scaling", p.printScaling.value), false, names);
    }
    OthersPass(kept, drop);
    WithoutTwice(client, {OVERRIDES}, names);
    WithoutTwice(kept, {OVERRIDES}, names);
    WithoutTwice(attrs, drop, names);
  }

  lemma PolicyNamesOnly(selected: Size, p: Policy)
    ensures forall a :: a in PolicyAttrs(selected, p) ==> a.name in PolicyNames()
    ensures forall a :: a in ColourAttrs(p) ==> a.name in PolicyNames()
  {
    MediumName(selected, p);
    hide MediaColOf;
  }

  lemma NormalisedOverrides(attrs: seq<Attr>, drop: set<string>, selected: Size, p: Policy, a: Attr)
    requires a in Normalised(attrs, drop, selected, p)
    ensures SafeOverrides(a, drop)
  {
    hide Sanitized, Without, PolicyAttrs, ColourAttrs, Scaled, SafeOverrides;
    PolicyMembers(selected, p);
    ColourCounts(p, "");
    var client := Sanitized(Without(attrs, drop), drop);
    ScaledKeeps(client + PolicyAttrs(selected, p), p, a);
    if a.name != OVERRIDES {
      OtherIsSafe(a, drop);
    } else {
      assert a in client;
      var i :| 0 <= i < |client| && client[i] == a;
      SanitizedIsSafe(Without(attrs, drop), drop, i);
    }
  }

  lemma OtherIsSafe(a: Attr, drop: set<string>)
    requires a.name != OVERRIDES
    ensures SafeOverrides(a, drop)
  {
  }

  /** Everything the policy adds is sent. */
  lemma PolicySent(attrs: seq<Attr>, drop: set<string>, selected: Size, p: Policy, a: Attr)
    requires a in PolicyAttrs(selected, p) || a in ColourAttrs(p)
    ensures a in Normalised(attrs, drop, selected, p)
  {
    PolicyMembers(selected, p);
    hide PolicyAttrs, ColourAttrs, Scaled, Sanitized, Without;
    var client := Sanitized(Without(attrs, drop), drop);
    if a in PolicyAttrs(selected, p) {
      ScaledKeeps(client + PolicyAttrs(selected, p), p, a);
    }
  }

  lemma ColourIsSent(attrs: seq<Attr>, drop: set<string>, selected: Size, p: Policy)
    requires {"print-color-mode", "output-mode"} <= drop
    ensures ColourSent(Normalised(attrs, drop, selected, p), p)
  {
    hide Count, Find, PolicyAttrs, ColourAttrs, Normalised;
    var out := Normalised(attrs, drop, selected, p);
    PolicyCounts(selected, p, "print-color-mode");
    PolicyCounts(selected, p, "output-mode");
    ColourCounts(p, "print-color-mode");
    ColourCounts(p, "output-mode");
    NormalisedCounts(attrs, drop, selected, p, "print-color-mode");
    NormalisedCounts(attrs, drop, selected, p, "output-mode");
    PolicySent(attrs, drop, selected, p, Keyword("print-color-mode", p.printColorMode));
    FoundOnce(out, Keyword("print-color-mode", p.printColorMode));
    if p.printColorMode == "monochrome" {
      PolicySent(attrs, drop, selected, p, Keyword("output-mode", "monochrome"));
      FoundOnce(out, Keyword("output-mode", "monochrome"));
    }
  }

  lemma MediumIsSent(attrs: seq<Attr>, drop: set<string>, selected: Size, p: Policy)
    requires {"media", "media-col", "media-type", "media-source"} <= drop
    ensures MediumSent(Normalised(attrs, drop, selected, p), selected, p)
  {
    hide Count, Find, PolicyAttrs, ColourAttrs, Normalised, ShowsMedium, MediaColOf;
    var out := Normalised(attrs, drop, selected, p);
    forall name | name in {"media", "media-col", "media-type", "media-source"}
      ensures Count(out, name) == Count(PolicyAttrs(selected, p), name)
    {
      ColourCounts(p, name);
      NormalisedCounts(attrs, drop, selected, p, name);
    }
    PolicyMembers(selected, p);
    PolicyCounts(selected, p, "media");
    PolicyCounts(selected, p, "media-col");
    PolicyCounts(selected, p, "media-type");
    PolicyCounts(selected, p, "media-source");
    if p.useMediaCol {
      MediumName(selected, p);
      PolicySent(attrs, drop, selected, p, MediaColOf(selected, p));
      FoundOnce(out, MediaColOf(selected, p));
      MediaColReads(selected, p);
    } else {
      PolicySent(attrs, drop, selected, p, Keyword("media", selected.name));
      FoundOnce(out, Keyword("media", selected.name));
      if p.mediaType != "" {
        PolicySent(attrs, drop, selected, p, Keyword("media-type", p.mediaType));
        FoundOnce(out, Keyword("media-type", p.mediaType));
      }
      if p.mediaSource != "" {
        PolicySent(attrs, drop, selected, p, Keyword("media-source", p.mediaSource));
        FoundOnce(out, Keyword("media-source", p.mediaSource));
      }
    }
  }

  lemma ScalingIsSent(attrs: seq<Attr>, drop: set<string>, selected: Size, p: Policy)
    requires Scales(p)
    ensures One(Normalised(attrs, drop, selected, p), "print-scaling", p.printScaling.value)
  {
    hide Count, Find, PolicyAttrs, ColourAttrs, Scaled, Sanitized, Without, Set;
    var before := Sanitized(Without(attrs, drop), drop) + PolicyAttrs(selected, p);
    var scaling := Keyword("print-scaling", p.printScaling.value);
    ColourCounts(p, "print-scaling");
    ScaledCounts(before, p, "print-scaling");
    CountAppend(Scaled(before, p), ColourAttrs(p), "print-scaling");
    ScalingIsIn(before, p);
    FoundOnce(Normalised(attrs, drop, selected, p), scaling);
  }

  lemma ScalingIsIn(attrs: seq<Attr>, p: Policy)
    requires Scales(p)
    ensures Keyword("print-scaling", p.printScaling.value) in Scaled(attrs, p)
  {
    SetIsIn(attrs, Keyword("print-scaling", p.printScaling.value));
  }

  lemma {:induction false} SetIsIn(attrs: seq<Attr>, a: Attr)
    ensures a in Set(attrs, a, false)
  {
    if attrs != [] && attrs[0].name != a.name {
      SetIsIn(attrs[1..], a);
    }
  }

  /** An attribute that is set takes the place of the first of its name, or the end. */
  lemma {:induction false} SetInPlace(attrs: seq<Attr>, a: Attr, k: nat)
    requires k <= |attrs| && (forall i :: 0 <= i < k ==> attrs[i].name != a.name) && (k < |attrs| ==> attrs[k].name == a.name)
    ensures Set(attrs, a, false) == attrs[..k] + [a] + Without(attrs[k..], {a.name})
  {
    if k == 0 {
      if attrs != [] {
        SetDone(attrs[1..], a);
      }
    } else {
      SetInPlace(attrs[1..], a, k - 1);
      assert attrs[1..][k - 1..] == attrs[k..] && [attrs[0]] + attrs[1..][..k - 1] == attrs[..k];
    }
  }

  lemma {:induction false} SetDone(attrs: seq<Attr>, a: Attr)
    ensures Set(attrs, a, true) == Without(attrs, {a.name})
  {
    if attrs != [] {
      SetDone(attrs[1..], a);
    }
  }

  lemma {:induction false} EffectsSet(attrs: seq<Attr>, a: Attr, done: bool)
    requires a.name != OVERRIDES
    ensures Effects(Set(attrs, a, done), {}) == Effects(attrs, {})
  {
    hide EffectsOf;
    if attrs == [] {
      EffectsOfNone([a], {});
    } else {
      var next := done || attrs[0].name == a.name;
      EffectsSet(attrs[1..], a, next);
      var rest := Set(attrs[1..], a, next);
      if attrs[0].name != a.name || !done {
        assert Set(attrs, a, done)[1..] == rest;
      }
    }
  }

  /** The overrides that reach the printer do what the client's did, without the controlled names. */
  lemma OverridesSent(attrs: seq<Attr>, drop: set<string>, selected: Size, p: Policy)
    requires OVERRIDES !in drop
    ensures Effects(Normalised(attrs, drop, selected, p), {}) == Effects(attrs, drop)
  {
    PolicyMembers(selected, p);
    ColourCounts(p, "");
    hide PolicyAttrs, ColourAttrs, Sanitized, Without, Effects, Set, Count;
    var client, media := Sanitized(Without(attrs, drop), drop), PolicyAttrs(selected, p);
    OverridesExactly(Without(attrs, drop), drop);
    EffectsWithout(attrs, drop, drop);
    EffectsOfNone(media, {});
    EffectsOfNone(ColourAttrs(p), {});
    EffectsAppend(client, media, {});
    EffectsAppend(Scaled(client + media, p), ColourAttrs(p), {});
    assert Effects(client, {}) + [] == Effects(client, {});
    if Scales(p) {
      EffectsSet(client + media, Keyword("print-scaling", p.printScaling.value), false);
    }
  }

  /** For every client input and policy, the policy's medium and colour mode are all that is left of them. */
  lemma PolicyIsEnforced(attrs: seq<Attr>, drop: set<string>, selected: Size, p: Policy)
    requires PolicyNames() <= drop
    ensures Enforced(Normalised(attrs, drop, selected, p), attrs, drop, selected, p)
  {
    UndecidedPass(attrs, drop, selected, p);
    hide Count, Find, SafeOverrides, Sanitized, Without, PolicyAttrs, ColourAttrs, Normalised, ColourSent, MediumSent, One, Effects;
    var out := Normalised(attrs, drop, selected, p);
    ColourIsSent(attrs, drop, selected, p);
    MediumIsSent(attrs, drop, selected, p);
    if Scales(p) {
      ScalingIsSent(attrs, drop, selected, p);
    }
    forall name | name in drop && name !in {"media", "media-col", "media-type", "media-source", "print-color-mode", "output-mode", "print-scaling"}
      ensures Count(out, name) == 0
    {
      NormalisedCounts(attrs, drop, selected, p, name);
      PolicyCounts(selected, p, name);
      ColourCounts(p, name);
    }
    forall a | a in out
      ensures SafeOverrides(a, drop)
    {
      NormalisedOverrides(attrs, drop, selected, p, a);
    }
    if OVERRIDES !in drop {
      OverridesSent(attrs, drop, selected, p);
    }
  }

  lemma CollectSingle(v: Value, sel: Selector)
    ensures CollectValues([v], sel) == CollectValue(v, sel)
  {
    assert [v][1..] == [];
  }

  lemma SizeReads(selected: Size)
    requires selected.hasDimension
    ensures var size := Attr("media-size", [Value(CollectionTag, Members([Integer("x-dimension", selected.x), Integer("y-dimension", selected.y)]))]);
            CollectValues(size.values, Noted(size, NO_SELECTOR)) == Selector([], Some(selected.x), Some(selected.y), false)
  {
    var x, y := Integer("x-dimension", selected.x), Integer("y-dimension", selected.y);
    var size := Attr("media-size", [Value(CollectionTag, Members([x, y]))]);
    var withX := NO_SELECTOR.(x := Some(selected.x));
    CollectSingle(size.values[0], NO_SELECTOR);
    CollectSingle(x.values[0], withX);
    CollectSingle(y.values[0], withX.(y := Some(selected.y)));
    assert Noted(x, NO_SELECTOR) == withX && Noted(y, withX) == withX.(y := Some(selected.y));
    CollectSome([x], [y], NO_SELECTOR, withX);
    CollectSome([y], [], withX, withX.(y := Some(selected.y)));
    assert [x] + [y] == [x, y] && [y] + [] == [y];
  }

  lemma KeywordAddsNothing(name: string, text: string, sel: Selector)
    requires name == "media-type" || name == "media-source"
    ensures CollectValues(Keyword(name, text).values, Noted(Keyword(name, text), sel)) == sel
  {
    assert Keyword(name, text).values[1..] == [];
  }

  /** Reading the policy's media-col gives the medium's dimensions, and the policy's type and source. */
  lemma MediaColReads(selected: Size, p: Policy)
    ensures MediaColOf(selected, p).name == "media-col" && ShowsMedium(MediaColOf(selected, p), selected, p)
  {
    var size := Attr("media-size", [Value(CollectionTag, Members([Integer("x-dimension", selected.x), Integer("y-dimension", selected.y)]))]);
    var dimensions := if selected.hasDimension then [size] else [];
    var kind := if p.mediaType != "" then [Keyword("media-type", p.mediaType)] else [];
    var source := if p.mediaSource != "" then [Keyword("media-source", p.mediaSource)] else [];
    var members := dimensions + kind + source;
    var start := if selected.hasDimension then Selector([], Some(selected.x), Some(selected.y), false) else NO_SELECTOR;
    if selected.hasDimension {
      SizeReads(selected);
    }
    CollectSome(dimensions, kind + source, NO_SELECTOR, start);
    CollectKeyword(kind, source, "media-type", p.mediaType, start);
    CollectKeyword(source, [], "media-source", p.mediaSource, start);
    assert members == dimensions + (kind + source) && source + [] == source;
    MembersOnce(dimensions, p);
  }

  lemma CollectSome(first: seq<Attr>, rest: seq<Attr>, sel: Selector, next: Selector)
    requires first == [] ==> next == sel
    requires |first| == 1 ==> next == CollectValues(first[0].values, Noted(first[0], sel))
    requires |first| <= 1
    ensures Collect(first + rest, sel) == Collect(rest, next)
  {
    if first == [] {
      assert first + rest == rest;
    } else {
      assert (first + rest)[1..] == rest;
    }
  }

  lemma CollectKeyword(first: seq<Attr>, rest: seq<Attr>, name: string, text: string, sel: Selector)
    requires name == "media-type" || name == "media-source"
    requires first == if text != "" then [Keyword(name, text)] else []
    ensures Collect(first + rest, sel) == Collect(rest, sel)
  {
    KeywordAddsNothing(name, text, sel);
    CollectSome(first, rest, sel, sel);
  }

  lemma MembersOnce(dimensions: seq<Attr>, p: Policy)
    requires |dimensions| <= 1 && forall a :: a in dimensions ==> a.name == "media-size"
    ensures var kind := if p.mediaType != "" then [Keyword("media-type", p.mediaType)] else [];
            var source := if p.mediaSource != "" then [Keyword("media-source", p.mediaSource)] else [];
            OneIfAny(dimensions + kind + source, "media-type", p.mediaType) && OneIfAny(dimensions + kind + source, "media-source", p.mediaSource)
  {
    hide Count, Find;
    var kind := if p.mediaType != "" then [Keyword("media-type", p.mediaType)] else [];
    var source := if p.mediaSource != "" then [Keyword("media-source", p.mediaSource)] else [];
    var all := dimensions + kind + source;
    forall name | name == "media-type" || name == "media-source"
      ensures Count(all, name) == Count(kind, name) + Count(source, name)
    {
      CountAppend(dimensions, kind, name);
      CountAppend(dimensions + kind, source, name);
      EmptyCount(name);
      if dimensions != [] {
        assert dimensions == [dimensions[0]];
        OneCount(dimensions[0], name);
      }
    }
    forall name | name == "media-type" || name == "media-source"
      ensures Count(kind, name) == (if p.mediaType != "" && name == "media-type" then 1 else 0)
      ensures Count(source, name) == (if p.mediaSource != "" && name == "media-source" then 1 else 0)
    {
      KeywordCounts("media-type", p.mediaType, name);
      KeywordCounts("media-source", p.mediaSource, name);
    }
    if p.mediaType != "" {
      assert Keyword("media-type", p.mediaType) in all;
      FoundOnce(all, Keyword("media-type", p.mediaType));
    }
    if p.mediaSource != "" {
      assert Keyword("media-source", p.mediaSource) in all;
      FoundOnce(all, Keyword("media-source", p.mediaSource));
    }
  }

  lemma KeywordCounts(name: string, text: string, other: string)
    ensures Count(if text != "" then [Keyword(name, text)] else [], other) == if text != "" && other == name then 1 else 0
  {
    hide Count;
    OneCount(Keyword(name, text), other);
    EmptyCount(other);
  }

  lemma MediumName(selected: Size, p: Policy)
    ensures MediaColOf(selected, p).name == "media-col"
  {
  }

  /** The selector of a media-col attribute with one collection. */
  function SelectorOf(a: Attr): Option<Selector> {
    if |a.values| == 1 && a.values[0].content.Members? then Some(Collect(a.values[0].content.attrs, NO_SELECTOR)) else None
  }

  /** The one name of a media attribute. */
  function NameOf(a: Attr): Option<string> {
    if |a.values| == 1 && a.values[0].content.Text? then Some(a.values[0].content.text) else None
  }

  /** The catalog has what the client asks for; a media-col hides any media attribute. */
  ghost predicate Answerable(attrs: seq<Attr>, c: Catalog) {
    var mediaCol, media := Find(attrs, "media-col"), Find(attrs, "media");
    if mediaCol.Some? then SelectorOf(mediaCol.value).Some? && Resolvable(SelectorOf(mediaCol.value).value, c)
    else media.Some? && NameOf(media.value).Some? && NameKey(NameOf(media.value).value) in c.byName
  }

  /** The medium is what the client asks for. */
  ghost predicate Answering(selected: Size, attrs: seq<Attr>, c: Catalog) {
    var mediaCol, media := Find(attrs, "media-col"), Find(attrs, "media");
    if mediaCol.Some? then SelectorOf(mediaCol.value).Some? && Answers(selected, SelectorOf(mediaCol.value).value, c)
    else
      && media.Some? && NameOf(media.value).Some? && NameKey(NameOf(media.value).value) in c.byName
      && selected == c.byName[NameKey(NameOf(media.value).value)]
  }

  /** The policy's own medium: the one of its default name, or the first of the catalog. */
  ghost predicate IsDefault(selected: Size, c: Catalog, p: Policy)
    requires c.sizes != []
  {
    if NameKey(p.mediaDefault) in c.byName then selected == c.byName[NameKey(p.mediaDefault)] && NameKey(selected.name) == NameKey(p.mediaDefault)
    else selected == c.sizes[0]
  }

  /** The medium for a request: what the client asked for if and only if the catalog has it, else the default. */
  method SelectMedia(attrs: seq<Attr>, c: Catalog, p: Policy) returns (selected: Size, fallback: bool)
    requires Built(c)
    ensures selected in c.sizes
    ensures fallback <==> !Answerable(attrs, c)
    ensures if fallback then IsDefault(selected, c, p) else Answering(selected, attrs, c)
  {
    hide NameKey, Answers, Resolvable, Collect;
    var standard := if NameKey(p.mediaDefault) in c.byName then c.byName[NameKey(p.mediaDefault)] else c.sizes[0];
    var mediaCol, media := Find(attrs, "media-col"), Find(attrs, "media");
    if mediaCol.Some? {
      var resolved := ResolveMediaCol(mediaCol.value, c);
      if resolved.Some? {
        AnswerIsListed(resolved.value, Collect(mediaCol.value.values[0].content.attrs, NO_SELECTOR), c);
        return resolved.value, false;
      }
      return standard, true;
    }
    if media.Some? {
      var values := media.value.values;
      if |values| == 1 && values[0].content.Text? && NameKey(values[0].content.text) in c.byName {
        return c.byName[NameKey(values[0].content.text)], false;
      }
    }
    return standard, true;
  }

  lemma AnswerIsListed(s: Size, sel: Selector, c: Catalog)
    requires Answers(s, sel, c)
    ensures s in c.sizes
  {
  }

  /**
   Normalisation of a client's job attributes: one colour mode, the policy's; one medium, from the
   policy's catalog, which is the client's if and only if the catalog has that; and no controlled name
   at any depth of an override.
   */
  method NormalizeJobAttrs(attrs: seq<Attr>, p: Policy, vendorDrop: set<string>, c: Catalog) returns (out: seq<Attr>, selected: Size, fallback: bool)
    requires Built(c)
    ensures selected in c.sizes
    ensures fallback <==> !Answerable(attrs, c)
    ensures if fallback then IsDefault(selected, c, p) else Answering(selected, attrs, c)
    ensures Enforced(out, attrs, {"media", "media-col", "media-type", "media-source", "media-weight-metric", "media-color",
                                  "media-pre-printed", "media-hole-count", "media-order-count", "media-recycled", "media-tooth",
                                  "print-color-mode", "output-mode"} + vendorDrop, selected, p)
    ensures out == Normalised(attrs, PolicyNames() + vendorDrop, selected, p)
  {
    hide Enforced, Sanitized, Without, MediaColOf, NameKey, Answerable, Answering, IsDefault;
    selected, fallback := SelectMedia(attrs, c, p);
    var drops := PolicyNames() + vendorDrop;
    out := Sanitized(Without(attrs, drops), drops);
    ghost var client := out;
    if p.useMediaCol {
      out := out + [MediaColOf(selected, p)];
    } else {
      out := out + [Keyword("media", selected.name)];
      if p.mediaType != "" {
        out := out + [Keyword("media-type", p.mediaType)];
      }
    }
    if !p.useMediaCol && p.mediaSource != "" {
      out := out + [Keyword("media-source", p.mediaSource)];
    }
    assert out == client + PolicyAttrs(selected, p);
    out := Scaled(out, p);
    ghost var scaled := out;
    out := out + [Keyword("print-color-mode", p.printColorMode)];
    if p.printColorMode == "monochrome" {
      out := out + [Keyword("output-mode", "monochrome")];
    }
    assert out == scaled + ColourAttrs(p);
    PolicyIsEnforced(attrs, drops, selected, p);
  }
}
