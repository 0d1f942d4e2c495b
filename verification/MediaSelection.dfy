/**
 The media a client asks for: the syntax check of media-col, the selector collected from it, and
 its resolution against the policy's catalog.
 */
module MediaSelection {
  import opened Basics
  import opened Texts
  import opened JobAttributes

  // The recursive syntax check.

  /** What the check has seen so far, over the whole tree; Bad once something is wrong. */
  datatype Scan = Scan(seen: set<string>, selector: bool, x: bool, y: bool) | Bad

  predicate IsKeyword(a: Attr) {
    && |a.values| == 1 && a.values[0].tag.KeywordTag? && a.values[0].content.Text?
    && Trimmed(a.values[0].content.text) != ""
  }

  predicate IsIntegerFrom(a: Attr, least: int) {
    && |a.values| == 1 && a.values[0].tag.IntegerTag? && a.values[0].content.Number?
    && a.values[0].content.n >= least
  }

  predicate IsCollection(a: Attr) {
    |a.values| == 1 && a.values[0].tag.CollectionTag? && a.values[0].content.Members?
  }

  function CheckMembers(attrs: seq<Attr>, s: Scan, inSize: bool): Scan
    decreases attrs
  {
    if attrs == [] || s.Bad? then s else CheckMembers(attrs[1..], CheckMember(attrs[0], s, inSize), inSize)
  }

  function CheckMember(a: Attr, s: Scan, inSize: bool): Scan
    requires s.Scan?
    decreases a
  {
    if a.name == "" || a.name in s.seen then Bad
    else
      var t := s.(seen := s.seen + {a.name});
      if a.name == "media-size-name" || a.name == "media-key" then
        if IsKeyword(a) then t.(selector := true) else Bad
      else if a.name == "media-size" then
        if inSize || !IsCollection(a) then Bad
        else
          var inner := CheckMembers(a.values[0].content.attrs, Scan(t.seen, t.selector, false, false), true);
          if inner.Bad? || !inner.x || !inner.y then Bad else Scan(inner.seen, true, t.x, t.y)
      else if a.name == "x-dimension" then
        if inSize && IsIntegerFrom(a, 1) then t.(x := true) else Bad
      else if a.name == "y-dimension" then
        if inSize && IsIntegerFrom(a, 1) then t.(y := true) else Bad
      else if a.name == "media-type" || a.name == "media-source" || a.name == "media-color" then
        if IsKeyword(a) then t else Bad
      else if a.name == "media-bottom-margin" || a.name == "media-left-margin" || a.name == "media-right-margin" || a.name == "media-top-margin" then
        if IsIntegerFrom(a, 0) then t else Bad
      else Bad
  }

  const NOTHING_SEEN := Scan({}, false, false, false)

  predicate ValidMediaCol(a: Attr) {
    && IsCollection(a)
    && CheckMembers(a.values[0].content.attrs, NOTHING_SEEN, false).Scan?
    && CheckMembers(a.values[0].content.attrs, NOTHING_SEEN, false).selector
  }

  // The selector.

  datatype Selector = Selector(names: seq<string>, x: Option<int>, y: Option<int>, invalid: bool)

  const NO_SELECTOR := Selector([], None, None, false)

  /** The single integer of an attribute; a range counts when its ends are equal. */
  function FixedInteger(values: seq<Value>): Option<int> {
    if |values| != 1 then None
    else
      match values[0].content
      case Number(n) => Some(n)
      case Bounds(lower, upper) => if lower == upper then Some(lower) else None
      case _ => None
  }

  function SingleText(values: seq<Value>): Option<string> {
    if |values| == 1 && values[0].content.Text? && Trimmed(values[0].content.text) != "" then Some(Trimmed(values[0].content.text)) else None
  }

  /** What one attribute itself adds to the selector. */
  function Noted(a: Attr, sel: Selector): Selector {
    if a.name == "media-key" || a.name == "media-size-name" then
      var text := SingleText(a.values);
      if text.None? then sel.(invalid := true) else sel.(names := sel.names + [text.value])
    else if a.name == "x-dimension" then
      if FixedInteger(a.values).None? || sel.x.Some? then sel.(invalid := true) else sel.(x := FixedInteger(a.values))
    else if a.name == "y-dimension" then
      if FixedInteger(a.values).None? || sel.y.Some? then sel.(invalid := true) else sel.(y := FixedInteger(a.values))
    else sel
  }

  function Collect(attrs: seq<Attr>, sel: Selector): Selector
    decreases attrs
  {
    if attrs == [] then sel
    else Collect(attrs[1..], CollectValues(attrs[0].values, Noted(attrs[0], sel)))
  }

  function CollectValues(values: seq<Value>, sel: Selector): Selector
    decreases values
  {
    if values == [] then sel else CollectValues(values[1..], CollectValue(values[0], sel))
  }

  function CollectValue(v: Value, sel: Selector): Selector
    decreases v
  {
    if v.content.Members? then Collect(v.content.attrs, sel) else sel
  }

  /** The check and the collection have met the same dimensions, and nothing invalid. */
  predicate Matches(s: Scan, sel: Selector) {
    && s.Scan? && !sel.invalid
    && (sel.x.Some? <==> "x-dimension" in s.seen) && (sel.y.Some? <==> "y-dimension" in s.seen)
    && (sel.x.Some? ==> sel.x.value > 0) && (sel.y.Some? ==> sel.y.value > 0)
    && (s.x ==> "x-dimension" in s.seen) && (s.y ==> "y-dimension" in s.seen)
    && (s.selector ==> sel.names != [] || sel.x.Some?)
  }

  /** Outside media-size, dimensions come in pairs. */
  predicate Paired(s: Scan, inSize: bool) {
    s.Scan? && !inSize ==> ("x-dimension" in s.seen <==> "y-dimension" in s.seen)
  }

  lemma {:induction false} MembersMatch(attrs: seq<Attr>, s: Scan, inSize: bool, sel: Selector)
    requires Matches(s, sel) && Paired(s, inSize) && CheckMembers(attrs, s, inSize).Scan?
    ensures Matches(CheckMembers(attrs, s, inSize), Collect(attrs, sel)) && Paired(CheckMembers(attrs, s, inSize), inSize)
    decreases attrs
  {
    hide Matches, Paired, CheckMember, CollectValues, Noted;
    if attrs != [] {
      MatchedScans(s, sel);
      BadStays(attrs[1..], CheckMember(attrs[0], s, inSize), inSize);
      MemberMatches(attrs[0], s, inSize, sel);
      MembersMatch(attrs[1..], CheckMember(attrs[0], s, inSize), inSize, CollectValues(attrs[0].values, Noted(attrs[0], sel)));
    }
  }

  lemma MatchedScans(s: Scan, sel: Selector)
    requires Matches(s, sel)
    ensures s.Scan?
  {
  }

  lemma BadStays(attrs: seq<Attr>, s: Scan, inSize: bool)
    ensures CheckMembers(attrs, s, inSize).Scan? ==> s.Scan?
  {
  }

  lemma {:induction false} MemberMatches(a: Attr, s: Scan, inSize: bool, sel: Selector)
    requires Matches(s, sel) && Paired(s, inSize) && CheckMember(a, s, inSize).Scan?
    ensures Matches(CheckMember(a, s, inSize), CollectValues(a.values, Noted(a, sel))) && Paired(CheckMember(a, s, inSize), inSize)
    decreases a
  {
    hide CheckMembers, Collect, Trimmed, PolicyNames;
    assert |a.values| == 1 && a.values[1..] == [];
    assert CollectValues(a.values, Noted(a, sel)) == CollectValue(a.values[0], Noted(a, sel));
    if a.name == "media-size" {
      var members := a.values[0].content.attrs;
      var inner := Scan(s.seen + {a.name}, s.selector, false, false);
      MembersMatch(members, inner, true, sel);
    }
  }

  /**
   A media-col that the syntax check accepts gives a usable selector: nothing in it is invalid, it
   has both dimensions, both positive, or neither, and it names a medium or gives its dimensions.
   */
  lemma AcceptedIsUsable(a: Attr)
    requires ValidMediaCol(a)
    ensures var sel := Collect(a.values[0].content.attrs, NO_SELECTOR);
            && !sel.invalid && (sel.x.Some? <==> sel.y.Some?)
            && (sel.x.Some? ==> sel.x.value > 0 && sel.y.value > 0)
            && (sel.names != [] || sel.x.Some?)
  {
    MembersMatch(a.values[0].content.attrs, NOTHING_SEEN, false, NO_SELECTOR);
  }

  /** The check as the source runs it: a seen-set shared by the whole tree, flags for each collection. */
  class SyntaxState {
    var seen: set<string>
    var hasSelector: bool

    constructor ()
      ensures seen == {} && !hasSelector
    {
      seen, hasSelector := {}, false;
    }

    method ValidMembers(attrs: seq<Attr>, inSize: bool) returns (ok: bool, x: bool, y: bool)
      modifies this
      ensures var r := CheckMembers(attrs, Scan(old(seen), old(hasSelector), false, false), inSize);
              && (ok <==> r.Scan? && (inSize ==> r.x && r.y))
              && (ok ==> r == Scan(seen, hasSelector, x, y))
      decreases attrs
    {
      hide IsKeyword, IsIntegerFrom, IsCollection;
      ghost var start := Scan(seen, hasSelector, false, false);
      x, y := false, false;
      assert attrs[0..] == attrs;
      for i := 0 to |attrs|
        invariant CheckMembers(attrs[i..], Scan(seen, hasSelector, x, y), inSize) == CheckMembers(attrs, start, inSize)
      {
        assert attrs[i..][0] == attrs[i] && attrs[i..][1..] == attrs[i + 1..];
        ghost var now := Scan(seen, hasSelector, x, y);
        BadEnds(attrs[i + 1..], inSize);
        var valid: bool;
        valid, x, y := ValidMember(attrs[i], inSize, x, y);
        if !valid {
          return false, x, y;
        }
      }
      assert attrs[|attrs|..] == [];
      ok := !inSize || (x && y);
    }

    method ValidMember(a: Attr, inSize: bool, hasX: bool, hasY: bool) returns (ok: bool, x: bool, y: bool)
      modifies this
      ensures var r := CheckMember(a, Scan(old(seen), old(hasSelector), hasX, hasY), inSize);
              && (ok <==> r.Scan?) && (ok ==> r == Scan(seen, hasSelector, x, y))
      decreases a
    {
      x, y := hasX, hasY;
      if a.name == "" || a.name in seen {
        return false, x, y;
      }
      seen := seen + {a.name};
      match a.name {
        case "media-size-name" | "media-key" =>
          ok := IsKeyword(a);
          hasSelector := hasSelector || ok;
        case "media-size" =>
          if inSize || !IsCollection(a) {
            return false, x, y;
          }
          var innerX, innerY;
          ok, innerX, innerY := ValidMembers(a.values[0].content.attrs, true);
          hasSelector := hasSelector || ok;
        case "x-dimension" =>
          ok := inSize && IsIntegerFrom(a, 1);
          x := x || ok;
        case "y-dimension" =>
          ok := inSize && IsIntegerFrom(a, 1);
          y := y || ok;
        case "media-type" | "media-source" | "media-color" =>
          ok := IsKeyword(a);
        case "media-bottom-margin" | "media-left-margin" | "media-right-margin" | "media-top-margin" =>
          ok := IsIntegerFrom(a, 0);
        case _ =>
          ok := false;
      }
    }
  }

  lemma BadEnds(attrs: seq<Attr>, inSize: bool)
    ensures CheckMembers(attrs, Bad, inSize) == Bad
  {
  }

  method ValidMediaColSyntax(a: Attr) returns (ok: bool)
    ensures ok <==> ValidMediaCol(a)
  {
    hide CheckMembers;
    if |a.values| != 1 || !a.values[0].tag.CollectionTag? || !a.values[0].content.Members? {
      return false;
    }
    var state := new SyntaxState();
    var x, y;
    ok, x, y := state.ValidMembers(a.values[0].content.attrs, false);
    ok := ok && state.hasSelector;
  }

  /** The selector that the collection fills in place. */
  class MediaColSelector {
    var names: seq<string>
    var x: Option<int>
    var y: Option<int>
    var invalid: bool

    constructor ()
      ensures Contents() == NO_SELECTOR
    {
      names, x, y, invalid := [], None, None, false;
    }

    function Contents(): Selector
      reads this
    {
      Selector(names, x, y, invalid)
    }

    method Note(a: Attr)
      modifies this
      ensures Contents() == Noted(a, old(Contents()))
    {
      match a.name {
        case "media-key" | "media-size-name" =>
          var text := SingleText(a.values);
          if text.None? {
            invalid := true;
          } else {
            names := names + [text.value];
          }
        case "x-dimension" =>
          var value := FixedInteger(a.values);
          if value.None? || x.Some? {
            invalid := true;
          } else {
            x := value;
          }
        case "y-dimension" =>
          var value := FixedInteger(a.values);
          if value.None? || y.Some? {
            invalid := true;
          } else {
            y := value;
          }
        case _ =>
      }
    }

    method CollectFrom(attrs: seq<Attr>)
      modifies this
      ensures Contents() == Collect(attrs, old(Contents()))
      decreases attrs
    {
      hide Noted, CollectValues;
      assert attrs[0..] == attrs;
      for i := 0 to |attrs|
        invariant Collect(attrs[i..], Contents()) == Collect(attrs, old(Contents()))
      {
        assert attrs[i..][0] == attrs[i] && attrs[i..][1..] == attrs[i + 1..];
        Note(attrs[i]);
        CollectNested(attrs[i]);
      }
      assert attrs[|attrs|..] == [];
    }

    method CollectNested(a: Attr)
      modifies this
      ensures Contents() == CollectValues(a.values, old(Contents()))
      decreases a, 0
    {
      hide Noted, Collect;
      var values := a.values;
      assert values[0..] == values;
      for k := 0 to |values|
        invariant CollectValues(values[k..], Contents()) == CollectValues(values, old(Contents()))
      {
        assert values[k..][0] == values[k] && values[k..][1..] == values[k + 1..];
        if values[k].content.Members? {
          CollectFrom(values[k].content.attrs);
        }
      }
      assert values[|values|..] == [];
    }
  }

  // The catalog and the resolution.

  /** A medium of the policy; stock stands for its type, source, margins and aliases. */
  datatype Size = Size(name: string, x: int, y: int, hasDimension: bool, ready: bool, nonZeroMargin: bool, stock: string)

  datatype Catalog = Catalog(sizes: seq<Size>, byName: map<string, Size>)

  function NameKey(name: string): string {
    Lower(Trimmed(name))
  }

  /** Equal up to orientation. */
  predicate SameDimensions(a: Size, b: Size) {
    a.hasDimension && b.hasDimension && ((a.x == b.x && a.y == b.y) || (a.x == b.y && a.y == b.x))
  }

  /** A catalog as the policy builds it: every name leads to one of its sizes, under that size's own name. */
  ghost predicate Built(c: Catalog) {
    && c.sizes != []
    && forall key :: key in c.byName ==> c.byName[key] in c.sizes && NameKey(c.byName[key].name) == key
  }

  function Preference(s: Size): int {
    (if s.ready then 100 else 0) + if s.nonZeroMargin then 10 else 0
  }

  /** The first instance of the highest preference. */
  ghost predicate IsPreferred(instances: seq<Size>, best: Size) {
    exists i :: 0 <= i < |instances| && instances[i] == best
                && (forall j :: 0 <= j < |instances| ==> Preference(instances[j]) <= Preference(best))
                && (forall j :: 0 <= j < i ==> Preference(instances[j]) < Preference(best))
  }

  method Preferred(instances: seq<Size>) returns (best: Size)
    requires instances != []
    ensures IsPreferred(instances, best) && best in instances
  {
    best := instances[0];
    ghost var at := 0;
    for i := 1 to |instances|
      invariant 0 <= at < i && instances[at] == best
      invariant forall j :: 0 <= j < i ==> Preference(instances[j]) <= Preference(best)
      invariant forall j :: 0 <= j < at ==> Preference(instances[j]) < Preference(best)
    {
      if Preference(instances[i]) > Preference(best) {
        best, at := instances[i], i;
      }
    }
  }

  function Joined(instances: seq<seq<Size>>): seq<Size> {
    if instances == [] then [] else Joined(instances[..|instances| - 1]) + instances[|instances| - 1]
  }

  /** No later name has the same key. */
  predicate LastOfKey(names: seq<string>, i: nat)
    requires i < |names|
  {
    forall j :: i < j < |names| ==> NameKey(names[j]) != NameKey(names[i])
  }

  /**
   The catalog of the policy's names, each with the instances that the printer has of it: all of them
   in order, and under each key the preferred instance of the last name with that key.
   */
  method BuildCatalog(names: seq<string>, instances: seq<seq<Size>>) returns (c: Catalog)
    requires names != [] && |names| == |instances|
    requires forall i :: 0 <= i < |names| ==> instances[i] != [] && forall s :: s in instances[i] ==> s.name == names[i]
    ensures Built(c)
    ensures c.sizes == Joined(instances)
    ensures forall i :: 0 <= i < |names| ==> NameKey(names[i]) in c.byName
    ensures forall i :: 0 <= i < |names| && LastOfKey(names, i) ==> IsPreferred(instances[i], c.byName[NameKey(names[i])])
  {
    hide Preference, NameKey, IsPreferred;
    c := Catalog([], map[]);
    for i := 0 to |names|
      invariant i > 0 ==> c.sizes != []
      invariant forall key :: key in c.byName ==> c.byName[key] in c.sizes && NameKey(c.byName[key].name) == key
      invariant c.sizes == Joined(instances[..i])
      invariant forall j :: 0 <= j < i ==> NameKey(names[j]) in c.byName
      invariant forall j :: 0 <= j < i && (forall k :: j < k < i ==> NameKey(names[k]) != NameKey(names[j])) ==>
                  IsPreferred(instances[j], c.byName[NameKey(names[j])])
    {
      var best := Preferred(instances[i]);
      assert instances[..i + 1][..i] == instances[..i];
      c := Catalog(c.sizes + instances[i], c.byName[NameKey(names[i]) := best]);
    }
    assert instances[..|names|] == instances;
  }

  predicate NamesAgree(sel: Selector, c: Catalog) {
    && (forall i :: 0 <= i < |sel.names| ==> NameKey(sel.names[i]) in c.byName)
    && (forall i :: 0 <= i < |sel.names| ==>
          NameKey(c.byName[NameKey(sel.names[i])].name) == NameKey(c.byName[NameKey(sel.names[0])].name))
  }

  function Requested(sel: Selector): Size
    requires sel.x.Some? && sel.y.Some?
  {
    Size("", sel.x.value, sel.y.value, true, false, false, "")
  }

  predicate OnlyMatch(c: Catalog, request: Size, i: nat) {
    i < |c.sizes| && SameDimensions(request, c.sizes[i]) && forall j :: 0 <= j < |c.sizes| && j != i ==> !SameDimensions(request, c.sizes[j])
  }

  /** The dimensions, if any are given, belong to exactly one size of the catalog. */
  ghost predicate DimensionsAgree(sel: Selector, c: Catalog) {
    sel.x.Some? || sel.y.Some? ==>
      sel.x.Some? && sel.y.Some? && sel.x.value > 0 && sel.y.value > 0 && exists i: nat :: OnlyMatch(c, Requested(sel), i)
  }

  /** A selector that the catalog can resolve. */
  ghost predicate Resolvable(sel: Selector, c: Catalog) {
    && !sel.invalid && NamesAgree(sel, c) && DimensionsAgree(sel, c)
    && (sel.names != [] || sel.x.Some?)
    && (sel.names != [] && sel.x.Some? ==> SameDimensions(Requested(sel), c.byName[NameKey(sel.names[0])]))
  }

  /** A size that is everything the selector asks for. */
  ghost predicate Answers(s: Size, sel: Selector, c: Catalog) {
    && s in c.sizes
    && (forall i :: 0 <= i < |sel.names| ==>
          NameKey(sel.names[i]) in c.byName && NameKey(c.byName[NameKey(sel.names[i])].name) == NameKey(s.name))
    && (sel.names != [] ==> s == c.byName[NameKey(sel.names[0])])
    && (sel.x.Some? <==> sel.y.Some?)
    && (sel.x.Some? ==> SameDimensions(Requested(sel), s))
  }

  /** The named size, when names are given and agree. */
  method ResolveNames(sel: Selector, c: Catalog) returns (ok: bool, named: Option<Size>)
    ensures ok <==> NamesAgree(sel, c)
    ensures ok ==> named == if sel.names == [] then None else Some(c.byName[NameKey(sel.names[0])])
  {
    hide NameKey;
    named := None;
    for i := 0 to |sel.names|
      invariant forall j :: 0 <= j < i ==> NameKey(sel.names[j]) in c.byName
      invariant forall j :: 0 <= j < i ==> NameKey(c.byName[NameKey(sel.names[j])].name) == NameKey(c.byName[NameKey(sel.names[0])].name)
      invariant named == if i == 0 then None else Some(c.byName[NameKey(sel.names[0])])
    {
      if NameKey(sel.names[i]) !in c.byName {
        return false, None;
      }
      var size := c.byName[NameKey(sel.names[i])];
      if named.None? {
        named := Some(size);
      } else if NameKey(named.value.name) != NameKey(size.name) {
        return false, None;
      }
    }
    return true, named;
  }

  /** The only size of the catalog with the given dimensions. */
  method ResolveDimensions(c: Catalog, request: Size) returns (found: Option<Size>)
    ensures found.Some? <==> exists i: nat :: OnlyMatch(c, request, i)
    ensures found.Some? ==> found.value in c.sizes && SameDimensions(request, found.value)
  {
    hide SameDimensions;
    found := None;
    ghost var at: nat := 0;
    for i := 0 to |c.sizes|
      invariant found.None? ==> forall j :: 0 <= j < i ==> !SameDimensions(request, c.sizes[j])
      invariant found.Some? ==> at < i && found.value == c.sizes[at] && SameDimensions(request, c.sizes[at])
      invariant found.Some? ==> forall j :: 0 <= j < i && j != at ==> !SameDimensions(request, c.sizes[j])
    {
      if SameDimensions(request, c.sizes[i]) {
        if found.Some? {
          return None;
        }
        found, at := Some(c.sizes[i]), i;
      }
    }
    assert found.Some? ==> OnlyMatch(c, request, at);
  }

  /** Resolution succeeds exactly for resolvable selectors, and then answers everything asked. */
  method ResolveMediaCol(a: Attr, c: Catalog) returns (r: Option<Size>)
    requires Built(c)
    ensures r.Some? <==> |a.values| == 1 && a.values[0].content.Members?
                         && Resolvable(Collect(a.values[0].content.attrs, NO_SELECTOR), c)
    ensures r.Some? ==> Answers(r.value, Collect(a.values[0].content.attrs, NO_SELECTOR), c)
  {
    hide Collect, NameKey, OnlyMatch;
    if |a.values| != 1 || !a.values[0].content.Members? {
      return None;
    }
    var selector := new MediaColSelector();
    selector.CollectFrom(a.values[0].content.attrs);
    var sel := selector.Contents();
    if sel.invalid {
      return None;
    }
    var ok, named := ResolveNames(sel, c);
    if !ok {
      return None;
    }
    var dimensional: Option<Size> := None;
    if sel.x.Some? || sel.y.Some? {
      if sel.x.None? || sel.y.None? || sel.x.value <= 0 || sel.y.value <= 0 {
        return None;
      }
      dimensional := ResolveDimensions(c, Requested(sel));
      if dimensional.None? {
        return None;
      }
    }
    if named.Some? && dimensional.Some? && !SameDimensions(named.value, dimensional.value) {
      return None;
    }
    return if named.Some? then named else dimensional;
  }

  // The syntax of media-col, from the tree alone.

  /** One keyword that is not blank. */
  predicate OneWord(a: Attr) {
    && |a.values| == 1 && a.values[0].tag.KeywordTag? && a.values[0].content.Text?
    && exists k :: 0 <= k < |a.values[0].content.text| && !IsSpace(a.values[0].content.text[k])
  }

  predicate OneInteger(a: Attr, least: int) {
    |a.values| == 1 && a.values[0].tag.IntegerTag? && a.values[0].content.Number? && a.values[0].content.n >= least
  }

  predicate OneCollection(a: Attr) {
    |a.values| == 1 && a.values[0].tag.CollectionTag? && a.values[0].content.Members?
  }

  /** A member that may stand where it stands. */
  predicate WellPlaced(a: Attr, inSize: bool)
    decreases a
  {
    if a.name in {"media-size-name", "media-key", "media-type", "media-source", "media-color"} then OneWord(a)
    else if a.name in {"media-bottom-margin", "media-left-margin", "media-right-margin", "media-top-margin"} then OneInteger(a, 0)
    else if a.name in {"x-dimension", "y-dimension"} then inSize && OneInteger(a, 1)
    else
      && a.name == "media-size" && !inSize && OneCollection(a)
      && var members := a.values[0].content.attrs;
         && (forall i :: 0 <= i < |members| ==> WellPlaced(members[i], true))
         && "x-dimension" in MemberNames(members) && "y-dimension" in MemberNames(members)
  }

  /** The names of some members and of the members of a media-size among them, in order. */
  function MemberNames(attrs: seq<Attr>): seq<string>
    decreases attrs
  {
    if attrs == [] then [] else NamesOf(attrs[0]) + MemberNames(attrs[1..])
  }

  function NamesOf(a: Attr): seq<string>
    decreases a
  {
    [a.name] + if a.name == "media-size" && OneCollection(a) then MemberNames(a.values[0].content.attrs) else []
  }

  predicate Identifies(names: seq<string>) {
    "media-size-name" in names || "media-key" in names || "media-size" in names
  }

  lemma DistinctParts(a: seq<string>, b: seq<string>)
    ensures Distinct(a + b) <==> Distinct(a) && Distinct(b) && forall name :: name in a ==> name !in b
  {
    var all := a + b;
    assert forall i :: 0 <= i < |a| ==> all[i] == a[i];
    assert forall i :: 0 <= i < |b| ==> all[|a| + i] == b[i];
    if Distinct(all) {
      forall i, j | 0 <= i < |a| && 0 <= j < |b|
        ensures a[i] != b[j]
      {
        assert all[i] != all[|a| + j];
      }
    }
    if Distinct(a) && Distinct(b) && forall name :: name in a ==> name !in b {
      forall i, j | 0 <= i < j < |all|
        ensures all[i] != all[j]
      {
        if i < |a| <= j {
          assert all[i] in a && b[j - |a|] in b;
        }
      }
    }
  }

  /** What the scan is after members have been accepted. */
  ghost predicate ScannedTo(s: Scan, names: seq<string>, inSize: bool, r: Scan) {
    && s.Scan? && r.Scan?
    && (forall name :: name in r.seen <==> name in s.seen || name in names)
    && (r.selector <==> s.selector || Identifies(names))
    && (inSize ==> (r.x <==> s.x || "x-dimension" in names) && (r.y <==> s.y || "y-dimension" in names))
  }

  ghost predicate Acceptable(s: Scan, names: seq<string>) {
    s.Scan? && Distinct(names) && forall name :: name in names ==> name !in s.seen
  }

  lemma OneWordExactly(a: Attr)
    ensures OneWord(a) <==> IsKeyword(a)
  {
    hide IsSpace, Trimmed;
    if |a.values| == 1 && a.values[0].content.Text? {
      SomethingLeft(a.values[0].content.text);
    }
  }

  lemma {:induction false} MembersScanned(attrs: seq<Attr>, s: Scan, inSize: bool)
    requires s.Scan?
    ensures var r, names := CheckMembers(attrs, s, inSize), MemberNames(attrs);
            && (r.Scan? <==> (forall i :: 0 <= i < |attrs| ==> WellPlaced(attrs[i], inSize)) && Acceptable(s, names))
            && (r.Scan? ==> ScannedTo(s, names, inSize, r))
    decreases attrs
  {
    hide WellPlaced, CheckMember, NamesOf, Distinct;
    if attrs == [] {
      NothingDistinct();
    } else {
      var first, rest := NamesOf(attrs[0]), MemberNames(attrs[1..]);
      var next := CheckMember(attrs[0], s, inSize);
      MemberScanned(attrs[0], s, inSize);
      DistinctParts(first, rest);
      assert (forall i :: 0 <= i < |attrs| ==> WellPlaced(attrs[i], inSize))
        <==> WellPlaced(attrs[0], inSize) && forall i :: 0 <= i < |attrs[1..]| ==> WellPlaced(attrs[1..][i], inSize) by {
        assert forall i :: 0 < i < |attrs| ==> attrs[i] == attrs[1..][i - 1];
      }
      if next.Scan? {
        MembersScanned(attrs[1..], next, inSize);
      } else {
        BadEnds(attrs[1..], inSize);
      }
    }
  }

  lemma NothingDistinct()
    ensures Distinct<string>([])
  {
  }

  lemma {:induction false} MemberScanned(a: Attr, s: Scan, inSize: bool)
    requires s.Scan?
    ensures var r, names := CheckMember(a, s, inSize), NamesOf(a);
            && (r.Scan? <==> WellPlaced(a, inSize) && Acceptable(s, names))
            && (r.Scan? ==> ScannedTo(s, names, inSize, r))
    decreases a
  {
    hide OneWord, IsKeyword, CheckMembers, MemberNames;
    OneWordExactly(a);
    if a.name == "media-size" && !inSize && OneCollection(a) {
      var members := a.values[0].content.attrs;
      var names := MemberNames(members);
      MembersScanned(members, Scan(s.seen + {a.name}, s.selector, false, false), true);
      DistinctParts([a.name], names);
    } else if a.name == "media-size" {
    } else {
      assert NamesOf(a) == [a.name];
    }
  }

  /**
   A media-col passes the syntax check exactly if it is one collection whose members may all stand where
   they stand, no name comes twice, not even inside media-size, and something identifies the medium.
   */
  lemma SyntaxExactly(a: Attr)
    ensures ValidMediaCol(a) <==>
              && OneCollection(a)
              && var members := a.values[0].content.attrs;
                 && (forall i :: 0 <= i < |members| ==> WellPlaced(members[i], false))
                 && Distinct(MemberNames(members)) && Identifies(MemberNames(members))
  {
    hide WellPlaced, CheckMembers, MemberNames, Distinct;
    if OneCollection(a) {
      MembersScanned(a.values[0].content.attrs, NOTHING_SEEN, false);
    }
  }

  // The selector, from the tree alone.

  /** Every attribute of a tree, in order; the attributes inside a collection follow the one that holds it. */
  function Flat(attrs: seq<Attr>): seq<Attr>
    decreases attrs
  {
    if attrs == [] then [] else [attrs[0]] + FlatValues(attrs[0].values) + Flat(attrs[1..])
  }

  function FlatValues(values: seq<Value>): seq<Attr>
    decreases values
  {
    if values == [] then [] else FlatValue(values[0]) + FlatValues(values[1..])
  }

  function FlatValue(v: Value): seq<Attr>
    decreases v
  {
    if v.content.Members? then Flat(v.content.attrs) else []
  }

  /** The attributes noted one after the other. */
  function NotedAll(attrs: seq<Attr>): Selector {
    if attrs == [] then NO_SELECTOR else Noted(attrs[|attrs| - 1], NotedAll(attrs[..|attrs| - 1]))
  }

  lemma {:induction false} CollectsFlat(done: seq<Attr>, attrs: seq<Attr>)
    ensures Collect(attrs, NotedAll(done)) == NotedAll(done + Flat(attrs))
    decreases attrs
  {
    hide Noted, FlatValues, CollectValues;
    if attrs == [] {
      assert done + [] == done;
    } else {
      var inner := FlatValues(attrs[0].values);
      NotedMore(done, attrs[0]);
      CollectsValues(done + [attrs[0]], attrs[0].values);
      CollectsFlat(done + [attrs[0]] + inner, attrs[1..]);
      Associates(done + [attrs[0]], inner, Flat(attrs[1..]));
      Associates(done, [attrs[0]], inner + Flat(attrs[1..]));
      Associates([attrs[0]], inner, Flat(attrs[1..]));
    }
  }

  lemma NotedMore(done: seq<Attr>, a: Attr)
    ensures NotedAll(done + [a]) == Noted(a, NotedAll(done))
  {
    assert (done + [a])[..|done|] == done;
  }

  lemma {:induction false} CollectsValues(done: seq<Attr>, values: seq<Value>)
    ensures CollectValues(values, NotedAll(done)) == NotedAll(done + FlatValues(values))
    decreases values
  {
    hide Noted, FlatValue, CollectValue, NotedAll;
    if values == [] {
      assert done + [] == done;
    } else {
      CollectsValue(done, values[0]);
      CollectsValues(done + FlatValue(values[0]), values[1..]);
      Associates(done, FlatValue(values[0]), FlatValues(values[1..]));
    }
  }

  lemma {:induction false} CollectsValue(done: seq<Attr>, v: Value)
    ensures CollectValue(v, NotedAll(done)) == NotedAll(done + FlatValue(v))
    decreases v
  {
    hide Noted;
    if v.content.Members? {
      CollectsFlat(done, v.content.attrs);
    } else {
      assert done + [] == done;
    }
  }

  /** The one integer of an attribute, or of a range of one. */
  function TheInteger(a: Attr): Option<int> {
    if |a.values| == 1 && a.values[0].content.Number? then Some(a.values[0].content.n)
    else if |a.values| == 1 && a.values[0].content.Bounds? && a.values[0].content.lower == a.values[0].content.upper then Some(a.values[0].content.lower)
    else None
  }

  /** The one text of an attribute, without the white space around it, unless it is blank. */
  function TheText(a: Attr): Option<string> {
    if |a.values| == 1 && a.values[0].content.Text? && Trimmed(a.values[0].content.text) != "" then Some(Trimmed(a.values[0].content.text)) else None
  }

  predicate Names(a: Attr) {
    a.name == "media-key" || a.name == "media-size-name"
  }

  /** The integers, or what stands in their place, of all attributes of a name. */
  function Integers(attrs: seq<Attr>, name: string): seq<Option<int>> {
    if attrs == [] then []
    else Integers(attrs[..|attrs| - 1], name) + if attrs[|attrs| - 1].name == name then [TheInteger(attrs[|attrs| - 1])] else []
  }

  function NamedTexts(attrs: seq<Attr>): seq<Option<string>> {
    if attrs == [] then []
    else NamedTexts(attrs[..|attrs| - 1]) + if Names(attrs[|attrs| - 1]) then [TheText(attrs[|attrs| - 1])] else []
  }

  /** At most one integer, and that is one. */
  predicate Single(integers: seq<Option<int>>) {
    integers == [] || (|integers| == 1 && integers[0].Some?)
  }

  function First(integers: seq<Option<int>>): Option<int> {
    if integers == [] then None else integers[0]
  }

  ghost predicate SelectorSays(sel: Selector, attrs: seq<Attr>) {
    var texts, xs, ys := NamedTexts(attrs), Integers(attrs, "x-dimension"), Integers(attrs, "y-dimension");
    && (sel.invalid <==> None in texts || !Single(xs) || !Single(ys))
    && (Single(xs) ==> sel.x == First(xs)) && (Single(ys) ==> sel.y == First(ys))
    && (!Single(xs) ==> sel.x.Some? || None in xs) && (!Single(ys) ==> sel.y.Some? || None in ys)
    && (None !in texts ==> |sel.names| == |texts| && forall i :: 0 <= i < |texts| ==> texts[i] == Some(sel.names[i]))
  }

  lemma NotedOne(sel: Selector, attrs: seq<Attr>, a: Attr)
    requires SelectorSays(sel, attrs)
    ensures SelectorSays(Noted(a, sel), attrs + [a])
  {
    hide Trimmed, NamedTexts, Integers;
    GivenMore(attrs, a);
    var texts, xs, ys := NamedTexts(attrs), Integers(attrs, "x-dimension"), Integers(attrs, "y-dimension");
    assert texts + [] == texts && xs + [] == xs && ys + [] == ys;
  }

  lemma GivenMore(attrs: seq<Attr>, a: Attr)
    ensures NamedTexts(attrs + [a]) == NamedTexts(attrs) + if Names(a) then [TheText(a)] else []
    ensures forall name :: Integers(attrs + [a], name) == Integers(attrs, name) + if a.name == name then [TheInteger(a)] else []
  {
    hide TheText, TheInteger;
    assert (attrs + [a])[..|attrs|] == attrs;
  }

  lemma {:induction false} NotedSays(attrs: seq<Attr>)
    ensures SelectorSays(NotedAll(attrs), attrs)
  {
    hide SelectorSays, Noted;
    if attrs == [] {
      NothingSaid();
    } else {
      var n := |attrs| - 1;
      NotedSays(attrs[..n]);
      NotedOne(NotedAll(attrs[..n]), attrs[..n], attrs[n]);
      assert attrs[..n] + [attrs[n]] == attrs;
    }
  }

  lemma NothingSaid()
    ensures SelectorSays(NO_SELECTOR, [])
  {
  }

  /**
   What is collected from a tree, nested collections included: the texts of all names in order and the
   dimensions; it is invalid exactly if a name is blank or a dimension is not one integer, or is given twice.
   */
  lemma CollectExactly(attrs: seq<Attr>)
    ensures SelectorSays(Collect(attrs, NO_SELECTOR), Flat(attrs))
  {
    hide SelectorSays, Collect;
    CollectsFlat([], attrs);
    NotedSays(Flat(attrs));
    assert [] + Flat(attrs) == Flat(attrs);
  }

  // Preferences and dimensions.

  /** A ready size comes before one that is not, and then one with margins before one without. */
  lemma PreferenceExactly(a: Size, b: Size)
    ensures Preference(a) > Preference(b) <==> (a.ready && !b.ready) || (a.ready == b.ready && a.nonZeroMargin && !b.nonZeroMargin)
  {
  }

  /** The same two dimensions, in any order. */
  lemma DimensionsExactly(a: Size, b: Size)
    ensures SameDimensions(a, b) <==> a.hasDimension && b.hasDimension && multiset{a.x, a.y} == multiset{b.x, b.y}
  {
    if multiset{a.x, a.y} == multiset{b.x, b.y} {
      assert a.x in multiset{b.x, b.y};
      assert multiset{a.x, a.y} - multiset{a.x} == multiset{a.y};
    }
  }

  /** A selector's dimensions are met by a size with these two, in any order. */
  lemma RequestExactly(sel: Selector, s: Size)
    requires sel.x.Some? && sel.y.Some?
    ensures SameDimensions(Requested(sel), s) <==> s.hasDimension && multiset{sel.x.value, sel.y.value} == multiset{s.x, s.y}
  {
    DimensionsExactly(Requested(sel), s);
  }

  /** Names lead to the same medium when they differ only in case and in the white space around them. */
  lemma KeyExactly(name: string, i: int, j: int)
    requires Surrounded(name, i, j) && (i < j ==> !IsSpace(name[i]) && !IsSpace(name[j - 1]))
    ensures NameKey(name) == Lower(name[i..j])
  {
    hide IsSpace;
    TrimmedExactly(name, i, j);
  }
}
