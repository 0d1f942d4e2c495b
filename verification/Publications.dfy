/** Publication records: which services a printer publishes, and with which TXT data. */
module Publications {
  import opened Basics
  import opened TxtAdmission
  import opened AvahiDaemon

  /** endpoint stands for host name and port, geo for the location record. */
  datatype Record = Record(name: string, endpoint: (string, nat), service: Service, subtype: string, txt: Txt, geo: string) {
    function Key(): ServiceKey {
      ServiceKey(name, service)
    }

    /** Subtypes inherit their parent's TXT, and the legacy printer service never has any. */
    predicate CarriesTxt() {
      subtype == "" && !service.Printer?
    }
  }

  /** geoOk stands for the location parser's verdict. */
  datatype Input = Input(
    name: string, hostname: string, port: nat, ipps: bool, interface: string, txt: Txt, geo: string, geoOk: bool,
    profiles: Option<Profiles>, retries: int)

  predicate IsControl(c: char) {
    c < ' ' || 0x7f <= c as int <= 0x9f
  }

  predicate NoControl(s: string) {
    forall i :: 0 <= i < |s| ==> !IsControl(s[i])
  }

  predicate AlwaysEssential(key: string) {
    Essential(key, PLAIN)
  }

  /** The checks before profile-aware publication; only the entries every queue needs are sized here. */
  predicate BasicallyValid(input: Input) {
    && input.name != "" && |input.name| <= 63 && NoControl(input.name)
    && input.port > 0 && input.retries >= 0
    && (input.geo != "" ==> input.geoOk)
    && (forall key :: key in input.txt ==>
          key != "" && '=' !in key && NoControl(key) && NoControl(input.txt[key])
          && (AlwaysEssential(key) ==> EntrySize(input.txt, key) <= MAX_ENTRY))
  }

  function Subtypes(input: Input, p: Profiles): (records: seq<Record>)
    ensures forall i :: 0 <= i < |records| ==> records[i].name == input.name && records[i].subtype != "" && records[i].txt == map[]
  {
    var at := (input.hostname, input.port);
    (if p.ippEverywhere then [Record(input.name, at, Ipp, "_print", map[], "")] else [])
    + if p.airPrint then [Record(input.name, at, Ipp, "_universal", map[], "")] else []
  }

  function ProfileRecords(input: Input, txt: Txt, p: Profiles): seq<Record> {
    [Record(input.name, (input.hostname, input.port), Ipp, "", txt, input.geo)]
    + Subtypes(input, p)
    + [Record(input.name, (input.hostname, 0), Printer, "", map[], "")]
  }

  function LegacyRecords(input: Input): seq<Record> {
    var at := (input.hostname, input.port);
    [Record(input.name, at, Ipp, "", input.txt, input.geo),
     Record(input.name, at, Ipp, "_print", map[], ""),
     Record(input.name, at, Ipp, "_universal", map[], ""),
     Record(input.name, (input.hostname, 0), Printer, "", map[], "")]
    + if input.ipps then
        [Record(input.name, at, Ipps, "", input.txt, ""),
         Record(input.name, at, Ipps, "_print", map[], ""),
         Record(input.name, at, Ipps, "_universal", map[], "")]
      else []
  }

  ghost function RecordsForProfiles(input: Input, p: Profiles): Option<seq<Record>> {
    if !BasicallyValid(input) then None
    else if !p.ordinary then Some([])
    else
      var r := Admitted(input.txt, p);
      if r.TooLarge? then None else Some(ProfileRecords(input, r.txt, r.profiles))
  }

  ghost function RecordsFor(input: Input): Option<seq<Record>> {
    if input.profiles.Some? then RecordsForProfiles(input, input.profiles.value)
    else if BasicallyValid(input) && Fits(input.txt) then Some(LegacyRecords(input))
    else None
  }

  method BuildRecords(input: Input) returns (records: Option<seq<Record>>)
    ensures records == RecordsFor(input)
  {
    hide Fits, Admitted, BasicallyValid, FitsExactly;
    if !BasicallyValid(input) {
      return None;
    }
    if input.profiles.None? {
      var error := ValidateLimits(input.txt);
      return if error.WithinLimits? then Some(LegacyRecords(input)) else None;
    }
    if !input.profiles.value.ordinary {
      return Some([]);
    }
    var r := FitProfileTxt(input.txt, input.profiles.value);
    return if r.TooLarge? then None else Some(ProfileRecords(input, r.txt, r.profiles));
  }

  /** Once the basic checks pass, size never prevents ordinary publication. */
  lemma ValidPublishes(input: Input, p: Profiles)
    requires BasicallyValid(input)
    ensures RecordsForProfiles(input, p).Some?
  {
    if p.ordinary {
      var txt := Base(input.txt, p);
      hide NoControl, Fits;
      ProfilesForReady(txt, p);
      FittedExactly(txt, ProfilesFor(txt, p));
      PlainFits(Essentials(txt, PLAIN));
    }
  }

  lemma PlainFits(txt: Txt)
    requires forall key :: key in txt ==> AlwaysEssential(key) && EntrySize(txt, key) <= MAX_ENTRY
    ensures Fits(txt)
  {
    SizeByCount(txt, txt.Keys);
    var names: set<string> := {"rp", "txtvers", "qtotal"};
    assert txt.Keys <= names;
    CountWithin(txt.Keys, names);
    assert |names| <= 3;
  }

  lemma {:induction false} SizeByCount(txt: Txt, keys: set<string>)
    requires keys <= txt.Keys && forall key :: key in keys ==> EntrySize(txt, key) <= MAX_ENTRY
    ensures Size(txt, keys) <= |keys| * (MAX_ENTRY + 1)
    decreases |keys|
  {
    hide First, EntrySize;
    if keys != {} {
      SizeByCount(txt, keys - {First(keys)});
    }
  }

  // Which records are published, from the input alone.

  predicate HasControl(s: string) {
    exists i :: 0 <= i < |s| && (s[i] as int < 32 || 127 <= s[i] as int <= 159)
  }

  predicate RefusedEntry(key: string, value: string) {
    || key == "" || '=' in key || HasControl(key) || HasControl(value)
    || (key in {"rp", "txtvers", "qtotal"} && |key| + |value| > 254)
  }

  /** The reasons to publish nothing at all, whatever the profiles. */
  predicate Refused(input: Input) {
    || input.name == "" || |input.name| > 63 || HasControl(input.name)
    || input.port == 0 || input.retries < 0 || (input.geo != "" && !input.geoOk)
    || exists key :: key in input.txt && RefusedEntry(key, input.txt[key])
  }

  lemma ControlExactly(s: string)
    ensures NoControl(s) <==> !HasControl(s)
  {
  }

  lemma EntryExactly(txt: Txt, key: string)
    requires key in txt
    ensures RefusedEntry(key, txt[key]) <==>
              !(key != "" && '=' !in key && NoControl(key) && NoControl(txt[key]) && (AlwaysEssential(key) ==> EntrySize(txt, key) <= MAX_ENTRY))
  {
    hide NoControl, HasControl;
    ControlExactly(key);
    ControlExactly(txt[key]);
  }

  lemma RefusedExactly(input: Input)
    ensures BasicallyValid(input) <==> !Refused(input)
  {
    hide NoControl, HasControl, AlwaysEssential, EntrySize, RefusedEntry;
    ControlExactly(input.name);
    forall key | key in input.txt
      ensures RefusedEntry(key, input.txt[key]) <==>
                !(key != "" && '=' !in key && NoControl(key) && NoControl(input.txt[key])
                  && (AlwaysEssential(key) ==> EntrySize(input.txt, key) <= MAX_ENTRY))
    {
      EntryExactly(input.txt, key);
    }
  }

  /** Whether a service type, with or without a subtype, is registered: without profiles both subtypes are, with them those of the profiles left. */
  predicate Listed(input: Input, left: Profiles, service: Service, subtype: string) {
    match service
    case Printer => subtype == ""
    case Ipps => input.profiles.None? && input.ipps && subtype in {"", "_print", "_universal"}
    case Ipp =>
      || subtype == ""
      || (subtype == "_print" && (input.profiles.None? || left.ippEverywhere))
      || (subtype == "_universal" && (input.profiles.None? || left.airPrint))
  }

  ghost predicate Registered(records: seq<Record>, service: Service, subtype: string) {
    exists i :: 0 <= i < |records| && records[i].service == service && records[i].subtype == subtype
  }

  /** The record of a service: the printer's name and host, its port except for the legacy service, and location and TXT data where they belong. */
  predicate InPlace(r: Record, input: Input, txt: Txt) {
    && r.name == input.name
    && r.endpoint == (input.hostname, if r.service == Printer then 0 else input.port)
    && r.geo == (if r.service == Ipp && r.subtype == "" then input.geo else "")
    && r.txt == (if r.subtype == "" && r.service != Printer then txt else map[])
  }

  ghost predicate OnceEach(records: seq<Record>) {
    forall i, j :: 0 <= i < j < |records| ==> records[i].service != records[j].service || records[i].subtype != records[j].subtype
  }

  ghost predicate Describes(records: seq<Record>, input: Input, txt: Txt, left: Profiles) {
    && (forall i :: 0 <= i < |records| ==> InPlace(records[i], input, txt))
    && (forall service, subtype :: Registered(records, service, subtype) <==> Listed(input, left, service, subtype))
    && OnceEach(records)
  }

  lemma LegacyInPlace(input: Input)
    ensures forall i :: 0 <= i < |LegacyRecords(input)| ==> InPlace(LegacyRecords(input)[i], input, input.txt)
  {
  }

  lemma LegacyListed(input: Input, left: Profiles, service: Service, subtype: string)
    requires input.profiles.None?
    ensures Registered(LegacyRecords(input), service, subtype) <==> Listed(input, left, service, subtype)
  {
    var records := LegacyRecords(input);
    assert records[0].service == Ipp && records[1].subtype == "_print" && records[2].subtype == "_universal" && records[3].service == Printer;
    assert input.ipps ==> records[4].service == Ipps && records[4].subtype == "" && records[5].subtype == "_print" && records[6].subtype == "_universal";
  }

  lemma LegacyOnce(input: Input)
    ensures OnceEach(LegacyRecords(input))
  {
  }

  lemma LegacyExactly(input: Input, left: Profiles)
    requires input.profiles.None?
    ensures Describes(LegacyRecords(input), input, input.txt, left)
  {
    hide LegacyRecords, InPlace, Registered, Listed, OnceEach;
    LegacyInPlace(input);
    LegacyOnce(input);
    forall service, subtype
      ensures Registered(LegacyRecords(input), service, subtype) <==> Listed(input, left, service, subtype)
    {
      LegacyListed(input, left, service, subtype);
    }
  }

  lemma ProfilesInPlace(input: Input, txt: Txt, left: Profiles)
    ensures forall i :: 0 <= i < |ProfileRecords(input, txt, left)| ==> InPlace(ProfileRecords(input, txt, left)[i], input, txt)
  {
  }

  lemma ProfilesListed(input: Input, txt: Txt, left: Profiles, service: Service, subtype: string)
    requires input.profiles.Some?
    ensures Registered(ProfileRecords(input, txt, left), service, subtype) <==> Listed(input, left, service, subtype)
  {
    var records := ProfileRecords(input, txt, left);
    var n := |records| - 1;
    assert records[0].service == Ipp && records[0].subtype == "" && records[n].service == Printer;
    assert left.ippEverywhere ==> records[1].subtype == "_print";
    assert left.airPrint ==> records[n - 1].subtype == "_universal";
  }

  lemma ProfilesOnce(input: Input, txt: Txt, left: Profiles)
    ensures OnceEach(ProfileRecords(input, txt, left))
  {
  }

  lemma ProfilesExactly(input: Input, txt: Txt, left: Profiles)
    requires input.profiles.Some?
    ensures Describes(ProfileRecords(input, txt, left), input, txt, left)
  {
    hide ProfileRecords, InPlace, Registered, Listed, OnceEach;
    ProfilesInPlace(input, txt, left);
    ProfilesOnce(input, txt, left);
    forall service, subtype
      ensures Registered(ProfileRecords(input, txt, left), service, subtype) <==> Listed(input, left, service, subtype)
    {
      ProfilesListed(input, txt, left, service, subtype);
    }
  }

  /**
   Exactly which records an input gets: none when it is refused or, without profiles, when its TXT data
   does not fit; an empty list when ordinary publication is not wanted; and otherwise one record for
   each listed service, at its place.
   */
  lemma RecordsExactly(input: Input)
    ensures var plain := input.profiles.None?;
            && (RecordsFor(input).Some? <==> !Refused(input) && (plain ==> Fits(input.txt)))
            && (RecordsFor(input).Some? && !plain && !input.profiles.value.ordinary ==> RecordsFor(input).value == [])
            && (RecordsFor(input).Some? && plain ==> Describes(RecordsFor(input).value, input, input.txt, PLAIN))
            && (RecordsFor(input).Some? && !plain && input.profiles.value.ordinary ==>
                  var r := Admitted(input.txt, input.profiles.value);
                  r.Fit? && Describes(RecordsFor(input).value, input, r.txt, r.profiles))
  {
    hide Fits, Admitted, BasicallyValid, Refused, Describes, LegacyRecords, ProfileRecords;
    RefusedExactly(input);
    if input.profiles.None? {
      LegacyExactly(input, PLAIN);
    } else {
      var p := input.profiles.value;
      if BasicallyValid(input) {
        ValidPublishes(input, p);
      }
      var r := Admitted(input.txt, p);
      if r.Fit? {
        ProfilesExactly(input, r.txt, r.profiles);
      }
    }
  }

  /** The services that a list of records registers. */
  function ServicesOf(records: seq<Record>): Services {
    if records == [] then map[]
    else
      var last := records[|records| - 1];
      var init := ServicesOf(records[..|records| - 1]);
      if last.subtype == "" then init[last.Key() := last.txt] else init
  }

  predicate SameShape(r: Record, s: Record) {
    r.name == s.name && r.endpoint == s.endpoint && r.service == s.service && r.subtype == s.subtype && r.geo == s.geo
  }

  /** Two records of one shape differ at most in their TXT data. */
  lemma ShapeExactly(r: Record, s: Record)
    ensures SameShape(r, s) <==> r == s.(txt := r.txt)
  {
  }

  predicate SameStructure(left: seq<Record>, right: seq<Record>) {
    |left| == |right| && forall i :: 0 <= i < |left| ==> SameShape(left[i], right[i])
  }

  /** Records as the builders make them: one name, each service once, and no TXT where none is carried. */
  ghost predicate WellFormed(records: seq<Record>) {
    && (forall i, j :: 0 <= i < |records| && 0 <= j < |records| ==> records[i].name == records[j].name)
    && (forall i, j :: 0 <= i < j < |records| && records[i].subtype == "" && records[j].subtype == "" ==> records[i].Key() != records[j].Key())
    && (forall i :: 0 <= i < |records| && !records[i].CarriesTxt() ==> records[i].txt == map[])
  }

  lemma LegacyWellFormed(input: Input)
    ensures WellFormed(LegacyRecords(input))
  {
  }

  lemma ProfilesWellFormed(input: Input, txt: Txt, p: Profiles)
    ensures WellFormed(ProfileRecords(input, txt, p))
  {
    hide Subtypes;
  }

  lemma RecordsWellFormed(input: Input)
    ensures RecordsFor(input).Some? ==> WellFormed(RecordsFor(input).value)
  {
    hide Fits, Admitted, BasicallyValid, WellFormed, ProfileRecords, LegacyRecords;
    if input.profiles.None? {
      LegacyWellFormed(input);
    } else {
      var r := Admitted(input.txt, input.profiles.value);
      if r.Fit? {
        ProfilesWellFormed(input, r.txt, r.profiles);
      }
      NoneWellFormed();
    }
  }

  lemma NoneWellFormed()
    ensures WellFormed([])
  {
  }

  lemma {:induction false} ServiceOfRecord(records: seq<Record>, i: nat)
    requires WellFormed(records) && i < |records| && records[i].subtype == ""
    ensures records[i].Key() in ServicesOf(records) && ServicesOf(records)[records[i].Key()] == records[i].txt
    decreases |records|
  {
    var n := |records| - 1;
    if i < n {
      ServiceOfRecord(records[..n], i);
    }
  }

  lemma {:induction false} ServiceHasRecord(records: seq<Record>, key: ServiceKey) returns (i: nat)
    requires key in ServicesOf(records)
    ensures i < |records| && records[i].subtype == "" && records[i].Key() == key
    decreases |records|
  {
    var n := |records| - 1;
    if records[n].subtype == "" && records[n].Key() == key {
      i := n;
    } else {
      i := ServiceHasRecord(records[..n], key);
    }
  }

  function Named(r: Record, name: string): Record {
    r.(name := name)
  }

  function Renamed(records: seq<Record>, name: string): (r: seq<Record>)
    ensures |r| == |records| && forall i :: 0 <= i < |r| ==> r[i] == Named(records[i], name)
  {
    seq(|records|, i requires 0 <= i < |records| => Named(records[i], name))
  }

  lemma RenamedWellFormed(records: seq<Record>, name: string)
    requires WellFormed(records)
    ensures WellFormed(Renamed(records, name))
  {
  }

  /** The profiles that a list of records publishes. */
  function ProfilesOf(records: seq<Record>): Profiles {
    Profiles(
      exists i :: 0 <= i < |records| && records[i].service.Ipp? && records[i].subtype == "",
      exists i :: 0 <= i < |records| && records[i].service.Ipp? && records[i].subtype == "_universal",
      exists i :: 0 <= i < |records| && records[i].service.Ipp? && records[i].subtype == "_print")
  }

  lemma ProfilesOfRecords(input: Input, txt: Txt, p: Profiles)
    requires p.ordinary
    ensures ProfilesOf(ProfileRecords(input, txt, p)) == p
  {
    var records := ProfileRecords(input, txt, p);
    assert records[0] == Record(input.name, (input.hostname, input.port), Ipp, "", txt, input.geo);
    if p.ippEverywhere {
      assert records[1].subtype == "_print";
    }
    if p.airPrint {
      assert records[if p.ippEverywhere then 2 else 1].subtype == "_universal";
    }
  }
}
