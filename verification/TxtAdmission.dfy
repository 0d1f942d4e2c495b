/**
 Fitting a printer's TXT data into DNS-SD limits (RFC 6763, sections 6.1 and 6.2): optional keys
 are dropped from the end of the key order, then the richer profiles are withdrawn.  Keys are
 case-folded names; strings stand for their bytes.
 */
module TxtAdmission {
  import opened Basics

  type Txt = map<string, string>

  const MAX_ENTRY := 255
  const MAX_DATA := 1300
  const MAX_RP := 400

  datatype Profiles = Profiles(ordinary: bool, airPrint: bool, ippEverywhere: bool)

  datatype Fit = Fit(txt: Txt, profiles: Profiles) | TooLarge

  const KEY_ORDER: seq<string> := [
    "rp", "txtvers", "qtotal", "priority", "note", "air", "tls",
    "adminurl", "uuid", "duuid", "ty", "color", "duplex", "copies", "collate",
    "papermax", "papercustom", "bind", "punch", "sort", "staple", "product", "pdl", "urf"]

  function PriorityFrom(key: string, i: nat): (p: nat)
    requires i <= |KEY_ORDER|
    ensures i <= p <= |KEY_ORDER|
    ensures p == i < |KEY_ORDER| ==> key == KEY_ORDER[i]
    decreases |KEY_ORDER| - i
  {
    if i == |KEY_ORDER| || key == KEY_ORDER[i] then i else PriorityFrom(key, i + 1)
  }

  function Priority(key: string): nat {
    PriorityFrom(key, 0)
  }

  predicate LexLess(a: string, b: string) {
    if b == "" then false
    else if a == "" then true
    else if a[0] != b[0] then a[0] < b[0]
    else LexLess(a[1..], b[1..])
  }

  lemma {:induction false} LexTotal(a: string, b: string)
    ensures a == b || LexLess(a, b) || LexLess(b, a)
    ensures !(LexLess(a, b) && LexLess(b, a)) && !LexLess(a, a)
  {
    if a != "" && b != "" {
      LexTotal(a[1..], b[1..]);
      assert a == [a[0]] + a[1..] && b == [b[0]] + b[1..];
    }
    if a != "" {
      LexTotal(a[1..], a[1..]);
    }
  }

  lemma {:induction false} LexTransitive(a: string, b: string, c: string)
    requires LexLess(a, b) && LexLess(b, c)
    ensures LexLess(a, c)
  {
    if a != "" && b != "" && c != "" && a[0] == b[0] == c[0] {
      LexTransitive(a[1..], b[1..], c[1..]);
    }
  }

  /** The order of the TXT entries. */
  predicate Before(a: string, b: string) {
    Priority(a) < Priority(b) || (Priority(a) == Priority(b) && LexLess(a, b))
  }

  lemma BeforeOrders(a: string, b: string, c: string)
    ensures a == b || Before(a, b) || Before(b, a)
    ensures !(Before(a, b) && Before(b, a)) && !Before(a, a)
    ensures Before(a, b) && Before(b, c) ==> Before(a, c)
  {
    LexTotal(a, b);
    LexTotal(a, a);
    if LexLess(a, b) && LexLess(b, c) {
      LexTransitive(a, b, c);
    }
  }

  ghost predicate IsFirst(keys: set<string>, first: string) {
    first in keys && forall key :: key in keys && key != first ==> Before(first, key)
  }

  ghost predicate IsLast(keys: set<string>, last: string) {
    last in keys && forall key :: key in keys && key != last ==> Before(key, last)
  }

  lemma {:induction false} FindEnds(keys: set<string>) returns (first: string, last: string)
    requires keys != {}
    ensures IsFirst(keys, first) && IsLast(keys, last)
    decreases |keys|
  {
    hide Before;
    var key := Pick(keys);
    var others := keys - {key};
    first, last := key, key;
    if others == {} {
      OnlyOne(keys, key);
    } else {
      var a, b := FindEnds(others);
      forall other | other in others
        ensures Before(key, a) ==> Before(key, other)
        ensures Before(b, key) ==> Before(other, key)
        ensures Before(key, other) || Before(other, key)
      {
        BeforeOrders(key, a, other);
        BeforeOrders(other, b, key);
        BeforeOrders(key, other, key);
      }
      BeforeOrders(key, a, key);
      BeforeOrders(key, b, key);
      assert keys == others + {key};
      first := if Before(key, a) then key else a;
      last := if Before(b, key) then key else b;
    }
  }

  ghost function First(keys: set<string>): (first: string)
    requires keys != {}
    ensures IsFirst(keys, first)
  {
    assert exists first :: IsFirst(keys, first) by {
      var a, b := FindEnds(keys);
      assert IsFirst(keys, a);
    }
    var first :| IsFirst(keys, first);
    first
  }

  ghost function Last(keys: set<string>): (last: string)
    requires keys != {}
    ensures IsLast(keys, last)
  {
    assert exists last :: IsLast(keys, last) by {
      var a, b := FindEnds(keys);
      assert IsLast(keys, b);
    }
    var last :| IsLast(keys, last);
    last
  }

  lemma FirstIsUnique(keys: set<string>, key: string)
    requires keys != {} && IsFirst(keys, key)
    ensures key == First(keys)
  {
    BeforeOrders(key, First(keys), key);
    hide Before;
  }

  lemma LastIsUnique(keys: set<string>, key: string)
    requires keys != {} && IsLast(keys, key)
    ensures key == Last(keys)
  {
    BeforeOrders(key, Last(keys), key);
    hide Before;
  }

  // Sizes.

  function EntrySize(txt: Txt, key: string): nat
    requires key in txt
  {
    |key| + 1 + |txt[key]|
  }

  /** The size of the given entries on the wire: a length byte before each. */
  ghost function Size(txt: Txt, keys: set<string>): nat
    requires keys <= txt.Keys
    decreases |keys|
  {
    if keys == {} then 0
    else
      var first := First(keys);
      1 + EntrySize(txt, first) + Size(txt, keys - {first})
  }

  lemma {:induction false} SizeWithout(txt: Txt, keys: set<string>, key: string)
    requires keys <= txt.Keys && key in keys
    ensures Size(txt, keys) == 1 + EntrySize(txt, key) + Size(txt, keys - {key})
    decreases |keys|
  {
    hide First, EntrySize;
    var first := First(keys);
    if key != first {
      var others := keys - {key};
      SizeWithout(txt, keys - {first}, key);
      assert keys - {first} - {key} == others - {first};
      assert IsFirst(others, first);
      FirstIsUnique(others, first);
    }
  }

  lemma {:induction false} SizeAlike(txt: Txt, u: Txt, keys: set<string>)
    requires keys <= txt.Keys && keys <= u.Keys && forall key :: key in keys ==> txt[key] == u[key]
    ensures Size(txt, keys) == Size(u, keys)
    decreases |keys|
  {
    hide First;
    if keys != {} {
      SizeAlike(txt, u, keys - {First(keys)});
    }
  }

  ghost predicate Fits(txt: Txt) {
    && (forall key :: key in txt ==> EntrySize(txt, key) <= MAX_ENTRY)
    && Size(txt, txt.Keys) <= MAX_DATA
  }

  ghost predicate Within(small: Txt, large: Txt) {
    small.Keys <= large.Keys && forall key :: key in small ==> small[key] == large[key]
  }

  lemma {:induction false} SizeGrows(txt: Txt, small: set<string>, keys: set<string>)
    requires small <= keys <= txt.Keys
    ensures Size(txt, small) <= Size(txt, keys)
    decreases |keys|
  {
    hide Size, EntrySize;
    if small != keys {
      var more := keys - small;
      assert more != {} by {
        assert keys == small + more;
      }
      var key :| key in more;
      SizeWithout(txt, keys, key);
      SizeGrows(txt, small, keys - {key});
    }
  }

  /** Whatever fits still fits with fewer entries. */
  lemma FewerFit(small: Txt, large: Txt)
    requires Within(small, large) && Fits(large)
    ensures Fits(small)
  {
    hide Size;
    SizeAlike(small, large, small.Keys);
    SizeGrows(large, small.Keys, large.Keys);
  }

  // Admission.

  predicate Essential(key: string, p: Profiles) {
    || key == "rp" || key == "txtvers" || key == "qtotal"
    || ((key == "ty" || key == "uuid" || key == "pdl") && (p.airPrint || p.ippEverywhere))
    || (key == "urf" && p.airPrint)
  }

  const PLAIN := Profiles(true, false, false)

  function Essentials(txt: Txt, p: Profiles): Txt {
    map key | key in txt && Essential(key, p) :: txt[key]
  }

  function OptionalKeys(txt: Txt, p: Profiles): set<string> {
    set key | key in txt && !Essential(key, p)
  }

  /** A profile is only tried when its own keys are there. */
  predicate Ready(txt: Txt, p: Profiles) {
    && (p.airPrint ==> "urf" in txt && "pdl" in txt)
    && (p.ippEverywhere ==> "pdl" in txt)
  }

  function ProfilesFor(txt: Txt, p: Profiles): Profiles {
    var q := if p.airPrint && "urf" !in txt then p.(airPrint := false) else p;
    if (q.airPrint || q.ippEverywhere) && "pdl" !in txt then q.(airPrint := false, ippEverywhere := false) else q
  }

  /** The drop loop. */
  ghost function Fitted(txt: Txt, p: Profiles): Fit
    decreases |txt|
  {
    if Fits(txt) then Fit(txt, p)
    else
      var optional := OptionalKeys(txt, p);
      if optional != {} then Fitted(txt - {Last(optional)}, p)
      else if p.airPrint && "urf" in txt then Fitted(txt - {"urf"}, p.(airPrint := false))
      else if p.ippEverywhere && "pdl" in txt then Fitted(txt - {"pdl"}, p.(airPrint := false, ippEverywhere := false))
      else TooLarge
  }

  function Base(txt: Txt, p: Profiles): Txt {
    if p.airPrint then txt else txt - {"urf"}
  }

  /** Admission of a printer's TXT data for the requested profiles. */
  ghost function Admitted(txt: Txt, p: Profiles): Fit {
    Fitted(Base(txt, p), ProfilesFor(Base(txt, p), p))
  }

  /** Dropping an optional key, or withdrawing a profile with its key, keeps what the rest needs. */
  lemma EssentialsWithout(txt: Txt, key: string, p: Profiles, q: Profiles)
    requires !Essential(key, q)
    ensures Essentials(txt - {key}, q) == Essentials(txt, q)
  {
  }

  lemma AllEssential(txt: Txt, p: Profiles)
    requires OptionalKeys(txt, p) == {}
    ensures Essentials(txt, p) == txt
  {
    hide Essential;
    forall key | key in txt
      ensures Essential(key, p)
    {
      assert key !in OptionalKeys(txt, p);
    }
  }

  lemma EssentialsWithin(txt: Txt, p: Profiles, q: Profiles)
    requires (q.airPrint ==> p.airPrint) && (q.ippEverywhere ==> p.ippEverywhere)
    ensures Within(Essentials(txt, q), Essentials(txt, p)) && Within(Essentials(txt, p), txt)
  {
  }

  predicate Weaker(q: Profiles, p: Profiles) {
    (q.airPrint ==> p.airPrint) && (q.ippEverywhere ==> p.ippEverywhere)
  }

  /** What one admission achieves: the exact result, as far as profiles and limits go. */
  ghost predicate FitsExactly(txt: Txt, p: Profiles, r: Fit) {
    && (r.Fit? <==> Fits(Essentials(txt, PLAIN)))
    && (r.Fit? ==>
          && Fits(r.txt) && Within(r.txt, txt) && Ready(r.txt, r.profiles)
          && Within(Essentials(txt, r.profiles), r.txt)
          && r.profiles.ordinary == p.ordinary
          && (r.profiles.airPrint <==> p.airPrint && Fits(Essentials(txt, p)))
          && (r.profiles.ippEverywhere <==> p.ippEverywhere && Fits(Essentials(txt, p.(airPrint := false)))))
  }

  lemma FittingStays(txt: Txt, p: Profiles)
    requires Ready(txt, p) && Fits(txt)
    ensures FitsExactly(txt, p, Fit(txt, p))
  {
    hide Fits, Essential;
    EssentialsWithin(txt, p, PLAIN);
    EssentialsWithin(txt, p, p.(airPrint := false));
    FewerFit(Essentials(txt, p), txt);
    FewerFit(Essentials(txt, PLAIN), Essentials(txt, p));
    FewerFit(Essentials(txt, p.(airPrint := false)), Essentials(txt, p));
  }

  /** A key that the remaining profiles do not need may go first. */
  lemma KeyDropped(txt: Txt, p: Profiles, key: string, q: Profiles, r: Fit)
    requires Ready(txt, p) && key in txt && !Essential(key, q) && Weaker(q, p) && q.ordinary == p.ordinary
    requires FitsExactly(txt - {key}, q, r)
    requires q == p || !Fits(Essentials(txt, p))
    requires q == p || q == p.(airPrint := false) || (!p.airPrint && !q.ippEverywhere)
    ensures FitsExactly(txt, p, r)
  {
    hide Fits, Within;
    WeakerDoesWithout(key, q);
    EssentialsWithout(txt, key, q, q);
    EssentialsWithout(txt, key, q, PLAIN);
    EssentialsWithout(txt, key, q, q.(airPrint := false));
    if r.Fit? {
      hide Essential;
      EssentialsWithout(txt, key, q, r.profiles);
      WithinChain(r.txt, txt - {key}, txt);
    }
  }

  lemma WeakerDoesWithout(key: string, q: Profiles)
    requires !Essential(key, q)
    ensures forall w: Profiles :: Weaker(w, q) ==> !Essential(key, w)
    ensures !Essential(key, PLAIN)
  {
  }

  lemma WithinChain(a: Txt, b: Txt, c: Txt)
    requires Within(a, b) && Within(b, c)
    ensures Within(a, c)
  {
  }

  /**
   Admission succeeds exactly when the entries that every queue needs fit by themselves, and
   withdraws a profile exactly when that profile's own essentials do not fit.
   */
  lemma {:induction false} FittedExactly(txt: Txt, p: Profiles)
    requires Ready(txt, p)
    ensures FitsExactly(txt, p, Fitted(txt, p))
    decreases |txt|
  {
    hide Fits, FitsExactly, Within;
    if Fits(txt) {
      FittingStays(txt, p);
    } else if OptionalKeys(txt, p) != {} {
      var key := Last(OptionalKeys(txt, p));
      FittedExactly(txt - {key}, p);
      KeyDropped(txt, p, key, p, Fitted(txt - {key}, p));
    } else {
      AllEssential(txt, p);
      if p.airPrint {
        FittedExactly(txt - {"urf"}, p.(airPrint := false));
        KeyDropped(txt, p, "urf", p.(airPrint := false), Fitted(txt - {"urf"}, p.(airPrint := false)));
      } else if p.ippEverywhere {
        var q := p.(ippEverywhere := false);
        assert p.(airPrint := false, ippEverywhere := false) == q;
        FittedExactly(txt - {"pdl"}, q);
        KeyDropped(txt, p, "pdl", q, Fitted(txt - {"pdl"}, q));
      } else {
        PlainFails(txt, p);
      }
    }
  }

  lemma PlainFails(txt: Txt, p: Profiles)
    requires !p.airPrint && !p.ippEverywhere && Essentials(txt, p) == txt && !Fits(txt)
    ensures FitsExactly(txt, p, TooLarge)
  {
    hide Fits;
    assert Essentials(txt, PLAIN) == Essentials(txt, p);
  }

  lemma ProfilesForReady(txt: Txt, p: Profiles)
    ensures Ready(txt, ProfilesFor(txt, p)) && Weaker(ProfilesFor(txt, p), p) && ProfilesFor(txt, p).ordinary == p.ordinary
    ensures ProfilesFor(txt, p).airPrint <==> p.airPrint && "urf" in txt && "pdl" in txt
    ensures ProfilesFor(txt, p).ippEverywhere <==> p.ippEverywhere && "pdl" in txt
  {
  }

  // Limits and admission, from the entries alone.

  /** The entries with the given keys. */
  function Only(txt: Txt, keys: set<string>): Txt {
    map key | key in txt && key in keys :: txt[key]
  }

  function EntrySizes(txt: Txt, keys: seq<string>): (sizes: seq<int>)
    requires forall key :: key in keys ==> key in txt
    ensures |sizes| == |keys| && forall i :: 0 <= i < |keys| ==> sizes[i] == 2 + |keys[i]| + |txt[keys[i]]|
  {
    seq(|keys|, i requires 0 <= i < |keys| => 2 + |keys[i]| + |txt[keys[i]]|)
  }

  lemma {:induction false} SizeBySum(txt: Txt, keys: seq<string>, all: set<string>)
    requires all <= txt.Keys && Distinct(keys) && forall key :: key in keys <==> key in all
    ensures Size(txt, all) == Sum(EntrySizes(txt, keys))
    decreases |keys|
  {
    hide Size;
    if keys == [] {
      assert all == {};
      NoSize(txt);
    } else {
      var n := |keys| - 1;
      assert keys == keys[..n] + [keys[n]];
      assert keys[n] in all && keys[n] !in keys[..n];
      SizeWithout(txt, all, keys[n]);
      SizeBySum(txt, keys[..n], all - {keys[n]});
      assert EntrySizes(txt, keys)[..n] == EntrySizes(txt, keys[..n]);
    }
  }

  lemma NoSize(txt: Txt)
    ensures Size(txt, {}) == 0
  {
  }

  /** Data fits exactly when every key=value entry has at most 255 bytes and all of them, each with a length byte, at most 1300. */
  lemma FitsBySum(txt: Txt, keys: seq<string>)
    requires Distinct(keys) && forall key :: key in keys <==> key in txt
    ensures Fits(txt) <==> (forall key :: key in txt ==> |key| + |txt[key]| <= 254) && Sum(EntrySizes(txt, keys)) <= 1300
  {
    hide Size, Sum;
    SizeBySum(txt, keys, txt.Keys);
  }

  const PLAIN_KEYS: set<string> := {"rp", "txtvers", "qtotal"}
  const IPP_KEYS: set<string> := {"rp", "txtvers", "qtotal", "ty", "uuid", "pdl"}
  const AIR_KEYS: set<string> := {"rp", "txtvers", "qtotal", "ty", "uuid", "pdl", "urf"}

  /**
   What an admission gives: it fails exactly when the three entries every queue needs do not fit by
   themselves; a profile is left exactly when it was asked for, its own keys are there and everything
   it needs fits; and what is published are entries of the given data that fit, among them all that
   the profiles left need.
   */
  lemma AdmissionExactly(txt: Txt, p: Profiles)
    ensures var r := Admitted(txt, p);
            && (r.Fit? <==> Fits(Only(txt, PLAIN_KEYS)))
            && (r.Fit? ==>
                  && r.profiles.ordinary == p.ordinary
                  && (r.profiles.airPrint <==> p.airPrint && "urf" in txt && "pdl" in txt && Fits(Only(txt, AIR_KEYS)))
                  && (r.profiles.ippEverywhere <==> p.ippEverywhere && "pdl" in txt && Fits(Only(txt, IPP_KEYS)))
                  && Fits(r.txt) && Within(r.txt, txt) && Within(Only(txt, PLAIN_KEYS), r.txt)
                  && (r.profiles.airPrint ==> Within(Only(txt, AIR_KEYS), r.txt))
                  && (r.profiles.ippEverywhere ==> Within(Only(txt, IPP_KEYS), r.txt)))
  {
    hide Fits, Fitted, Within;
    var base := Base(txt, p);
    var q := ProfilesFor(base, p);
    ProfilesForReady(base, p);
    FittedExactly(base, q);
    NeededByNone(txt, p);
    NeededByIpp(txt, p, q);
    NeededByAirPrint(txt, p, q);
    var r := Fitted(base, q);
    if r.Fit? {
      WithinBase(r.txt, txt, p);
      NeededByIpp(txt, p, r.profiles);
      NeededByAirPrint(txt, p, r.profiles);
      EssentialsWithin(base, r.profiles, PLAIN);
      EssentialsWithin(base, r.profiles, r.profiles.(airPrint := false));
      WithinChain(Essentials(base, PLAIN), Essentials(base, r.profiles), r.txt);
      WithinChain(Essentials(base, r.profiles.(airPrint := false)), Essentials(base, r.profiles), r.txt);
    }
  }

  lemma WithinBase(small: Txt, txt: Txt, p: Profiles)
    requires Within(small, Base(txt, p))
    ensures Within(small, txt)
  {
  }

  lemma NeededByNone(txt: Txt, p: Profiles)
    ensures Essentials(Base(txt, p), PLAIN) == Only(txt, PLAIN_KEYS)
  {
  }

  lemma NeededByIpp(txt: Txt, p: Profiles, q: Profiles)
    ensures q.ippEverywhere ==> Essentials(Base(txt, p), q.(airPrint := false)) == Only(txt, IPP_KEYS)
  {
  }

  lemma NeededByAirPrint(txt: Txt, p: Profiles, q: Profiles)
    ensures p.airPrint && q.airPrint ==> Essentials(Base(txt, p), q) == Only(txt, AIR_KEYS)
  {
  }

  // Which keys stay.

  /** The essentials of some profiles with every key up to the given one. */
  function UpTo(txt: Txt, p: Profiles, key: string): Txt {
    map k | k in txt && (Essential(k, p) || k == key || Before(k, key)) :: txt[k]
  }

  /** An essential key stays; another one stays while it fits behind the essentials and the keys before it. */
  ghost predicate Stays(txt: Txt, p: Profiles, key: string) {
    key in txt && (Essential(key, p) || Fits(UpTo(txt, p, key)))
  }

  ghost predicate KeepsExactly(txt: Txt, p: Profiles, kept: Txt) {
    Within(kept, txt) && forall key :: key in kept <==> Stays(txt, p, key)
  }

  /** Dropping ends as soon as it can: no key goes that could have stayed. */
  lemma {:induction false} FittedKeeps(txt: Txt, p: Profiles)
    requires Fitted(txt, p).Fit? && Fitted(txt, p).profiles == p
    ensures KeepsExactly(txt, p, Fitted(txt, p).txt)
    decreases |txt|
  {
    hide Fits, Before, Within, Essential, KeepsExactly;
    var optional := OptionalKeys(txt, p);
    if Fits(txt) {
      AllStay(txt, p);
    } else if optional != {} {
      var last := Last(optional);
      FittedKeeps(txt - {last}, p);
      LastGoes(txt, p, last, Fitted(txt - {last}, p).txt);
    } else if p.airPrint && "urf" in txt {
      FittedWeaker(txt - {"urf"}, p.(airPrint := false));
    } else if p.ippEverywhere && "pdl" in txt {
      FittedWeaker(txt - {"pdl"}, p.(airPrint := false, ippEverywhere := false));
    }
  }

  lemma AllStay(txt: Txt, p: Profiles)
    requires Fits(txt)
    ensures KeepsExactly(txt, p, txt)
  {
    hide Fits, Before;
    forall key | key in txt
      ensures Fits(UpTo(txt, p, key))
    {
      FewerFit(UpTo(txt, p, key), txt);
    }
  }

  lemma LastGoes(txt: Txt, p: Profiles, last: string, kept: Txt)
    requires !Fits(txt) && IsLast(OptionalKeys(txt, p), last) && KeepsExactly(txt - {last}, p, kept)
    ensures KeepsExactly(txt, p, kept)
  {
    hide Fits, Before, Essential;
    assert UpTo(txt, p, last) == txt;
    WithinChain(kept, txt - {last}, txt);
    forall key | key in txt && key != last && !Essential(key, p)
      ensures UpTo(txt - {last}, p, key) == UpTo(txt, p, key)
    {
      BeforeOrders(key, last, key);
    }
  }

  lemma {:induction false} FittedWeaker(txt: Txt, p: Profiles)
    ensures Fitted(txt, p).Fit? ==> Weaker(Fitted(txt, p).profiles, p) && Fitted(txt, p).profiles.ordinary == p.ordinary
    decreases |txt|
  {
    hide Fits;
    if !Fits(txt) {
      var optional := OptionalKeys(txt, p);
      if optional != {} {
        FittedWeaker(txt - {Last(optional)}, p);
      } else if p.airPrint && "urf" in txt {
        FittedWeaker(txt - {"urf"}, p.(airPrint := false));
      } else if p.ippEverywhere && "pdl" in txt {
        FittedWeaker(txt - {"pdl"}, p.(airPrint := false, ippEverywhere := false));
      }
    }
  }

  /** What is left when the profiles have come down from p to q: all of it, or only what p needs without its own keys. */
  function Left(txt: Txt, p: Profiles, q: Profiles): Txt {
    if q == p then txt
    else Essentials(txt, p) - {"urf"} - if p.ippEverywhere && !q.ippEverywhere then {"pdl"} else {}
  }

  /** The last phase of the drop loop, after all withdrawals. */
  lemma {:induction false} FittedFromLeft(txt: Txt, p: Profiles)
    requires Ready(txt, p) && Fitted(txt, p).Fit?
    ensures var q := Fitted(txt, p).profiles; Fitted(txt, p) == Fitted(Left(txt, p, q), q)
    decreases |txt|
  {
    hide Fits, Last;
    var optional, q := OptionalKeys(txt, p), Fitted(txt, p).profiles;
    if !Fits(txt) {
      if optional != {} {
        LeftWithout(txt, Last(optional), p, q);
        FittedFromLeft(txt - {Last(optional)}, p);
      } else {
        AllEssential(txt, p);
        hide Left, Essential, Essentials, OptionalKeys;
        if p.airPrint {
          var less := p.(airPrint := false);
          FittedWeaker(txt - {"urf"}, less);
          FittedFromLeft(txt - {"urf"}, less);
          LeftAfterUrf(txt, p, q);
        } else if p.ippEverywhere {
          var less := p.(ippEverywhere := false);
          assert p.(airPrint := false, ippEverywhere := false) == less;
          FittedWeaker(txt - {"pdl"}, less);
          FittedFromLeft(txt - {"pdl"}, less);
          LeftAfterPdl(txt, p, q);
        }
      }
    }
  }

  lemma LeftWithout(txt: Txt, key: string, p: Profiles, q: Profiles)
    requires key in OptionalKeys(txt, p)
    ensures Ready(txt, p) ==> Ready(txt - {key}, p)
    ensures q != p ==> Left(txt, p, q) == Left(txt - {key}, p, q)
    ensures q == p ==> Left(txt, p, q) == txt && Left(txt - {key}, p, q) == txt - {key}
  {
    EssentialsWithout(txt, key, p, p);
    hide Essentials;
  }

  lemma LeftAfterPdl(txt: Txt, p: Profiles, q: Profiles)
    requires !p.airPrint && p.ippEverywhere && Essentials(txt, p) == txt && q == p.(ippEverywhere := false)
    ensures Left(txt, p, q) == Left(txt - {"pdl"}, q, q)
  {
  }

  lemma LeftAfterUrf(txt: Txt, p: Profiles, q: Profiles)
    requires p.airPrint && Essentials(txt, p) == txt && Weaker(q, p.(airPrint := false)) && q.ordinary == p.ordinary
    ensures Left(txt, p, q) == Left(txt - {"urf"}, p.(airPrint := false), q)
  {
    var less := p.(airPrint := false);
    if q != less {
      assert Essentials(txt - {"urf"}, less) == txt - {"urf"};
    }
  }

  /**
   The admitted data, key by key: with the profiles that are left, a key stays if and only if they need
   it or it fits behind what they need and the keys before it.
   */
  lemma AdmittedKeeps(txt: Txt, p: Profiles)
    requires Admitted(txt, p).Fit?
    ensures var base, r := Base(txt, p), Admitted(txt, p);
            KeepsExactly(Left(base, ProfilesFor(base, p), r.profiles), r.profiles, r.txt)
  {
    hide Fitted, KeepsExactly, Left, Essential, Essentials;
    var base := Base(txt, p);
    var first := ProfilesFor(base, p);
    ProfilesForReady(base, p);
    FittedFromLeft(base, first);
    FittedKeeps(Left(base, first, Fitted(base, first).profiles), Fitted(base, first).profiles);
  }

  // The order in which keys go.

  /** A key that no profile needs. */
  predicate Spare(key: string) {
    !Essential(key, Profiles(true, true, true))
  }

  /** Spare keys go from the end of the order: none is dropped while a later one stays. */
  ghost predicate DroppedFromEnd(txt: Txt, kept: Txt) {
    forall j, k :: j in kept && k in txt && k !in kept && Spare(j) && Spare(k) ==> Before(j, k)
  }

  lemma {:induction false} FittedDropsFromEnd(txt: Txt, p: Profiles)
    ensures Fitted(txt, p).Fit? ==> Within(Fitted(txt, p).txt, txt) && DroppedFromEnd(txt, Fitted(txt, p).txt)
    decreases |txt|
  {
    hide Fits, Before;
    if !Fits(txt) {
      var optional := OptionalKeys(txt, p);
      if optional != {} {
        FittedDropsFromEnd(txt - {Last(optional)}, p);
      } else if p.airPrint && "urf" in txt {
        FittedDropsFromEnd(txt - {"urf"}, p.(airPrint := false));
      } else if p.ippEverywhere && "pdl" in txt {
        FittedDropsFromEnd(txt - {"pdl"}, p.(airPrint := false, ippEverywhere := false));
      }
    }
  }

  /** Withdrawing a profile for size comes only after every spare key is gone. */
  lemma {:induction false} WithdrawalLeavesNoSpareKey(txt: Txt, p: Profiles)
    requires Fitted(txt, p).Fit? && Fitted(txt, p).profiles != p
    ensures forall key :: key in Fitted(txt, p).txt ==> !Spare(key)
    decreases |txt|
  {
    hide Fits, Last;
    var optional := OptionalKeys(txt, p);
    if optional != {} {
      WithdrawalLeavesNoSpareKey(txt - {Last(optional)}, p);
    } else {
      forall key | key in txt
        ensures !Spare(key)
      {
        assert key !in optional;
      }
      if p.airPrint && "urf" in txt {
        FittedDropsFromEnd(txt - {"urf"}, p.(airPrint := false));
      } else if p.ippEverywhere && "pdl" in txt {
        FittedDropsFromEnd(txt - {"pdl"}, p.(airPrint := false, ippEverywhere := false));
      }
    }
  }

  // Admitting again for the profiles that were left.

  lemma ProfilesStay(txt: Txt, p: Profiles)
    requires Admitted(txt, p).Fit?
    ensures var q := Admitted(txt, p).profiles; ProfilesFor(Base(txt, q), q) == q
  {
    hide Fits, Essential, Fitted;
    ProfilesForReady(Base(txt, p), p);
    FittedExactly(Base(txt, p), ProfilesFor(Base(txt, p), p));
  }

  /** What is left fits the remaining profiles' essentials, so a second admission withdraws nothing. */
  lemma SecondProfiles(txt: Txt, p: Profiles)
    requires Admitted(txt, p).Fit?
    ensures var q := Admitted(txt, p).profiles;
            && Admitted(txt, q).Fit? && Admitted(txt, q).profiles == q
            && KeepsExactly(Base(txt, q), q, Admitted(txt, q).txt)
  {
    hide Fits, Fitted, KeepsExactly, Essentials, Within;
    var base, r := Base(txt, p), Admitted(txt, p);
    var q := r.profiles;
    ProfilesForReady(base, p);
    FittedExactly(base, ProfilesFor(base, p));
    ProfilesStay(txt, p);
    ProfilesForReady(Base(txt, q), q);
    FittedExactly(Base(txt, q), q);
    SameEssentials(txt, p, q);
    FewerFit(Essentials(base, q), r.txt);
    EssentialsWithin(Essentials(base, q), q, PLAIN);
    EssentialsTwice(base, q);
    AirPrintNeedsAll(q);
    FewerFit(Essentials(base, PLAIN), Essentials(base, q));
    AdmittedKeeps(txt, q);
  }

  lemma SameEssentials(txt: Txt, p: Profiles, q: Profiles)
    requires Weaker(q, p)
    ensures Essentials(Base(txt, q), q) == Essentials(Base(txt, p), q)
    ensures Essentials(Base(txt, q), PLAIN) == Essentials(Base(txt, p), PLAIN)
    ensures Essentials(Base(txt, q), q.(airPrint := false)) == Essentials(Base(txt, p), q.(airPrint := false))
  {
  }

  lemma EssentialsTwice(txt: Txt, p: Profiles)
    ensures Essentials(Essentials(txt, p), PLAIN) == Essentials(txt, PLAIN)
    ensures Within(Essentials(txt, p.(airPrint := false)), Essentials(txt, p)) && Within(Essentials(txt, PLAIN), Essentials(txt, p))
  {
  }

  lemma AirPrintNeedsAll(p: Profiles)
    ensures !p.airPrint ==> p.(airPrint := false) == p
  {
  }

  lemma KeepsOnce(txt: Txt, p: Profiles, other: Txt, a: Txt, b: Txt)
    requires KeepsExactly(txt, p, a) && KeepsExactly(other, p, b)
    requires forall key :: key in txt && key in other ==> txt[key] == other[key]
    ensures a == b <==> forall key :: Stays(txt, p, key) <==> Stays(other, p, key)
  {
    hide Stays;
    if forall key :: Stays(txt, p, key) <==> Stays(other, p, key) {
      assert a.Keys == b.Keys;
    }
  }

  /** Admission is stable under the profiles it leaves if and only if the same keys stay the second time. */
  lemma StableExactly(txt: Txt, p: Profiles)
    requires Admitted(txt, p).Fit?
    ensures var base, q := Base(txt, p), Admitted(txt, p).profiles;
            Admitted(txt, q) == Admitted(txt, p) <==>
              forall key :: Stays(Left(base, ProfilesFor(base, p), q), q, key) <==> Stays(Base(txt, q), q, key)
  {
    hide Admitted, KeepsExactly, Stays, Essential;
    var base, r := Base(txt, p), Admitted(txt, p);
    AdmittedKeeps(txt, p);
    SecondProfiles(txt, p);
    KeepsOnce(Left(base, ProfilesFor(base, p), r.profiles), r.profiles, Base(txt, r.profiles), r.txt, Admitted(txt, r.profiles).txt);
  }

  /** The profile-changing guards: urf without pdl, and a withdrawal for size. */
  predicate UrfAlone(txt: Txt, p: Profiles) {
    p.airPrint && "urf" in txt && "pdl" !in txt
  }

  ghost predicate Withdrawn(txt: Txt, p: Profiles) {
    Admitted(txt, p).Fit? && Admitted(txt, p).profiles != ProfilesFor(Base(txt, p), p)
  }

  /** Behind neither guard, admission is stable. */
  lemma StableOtherwise(txt: Txt, p: Profiles)
    requires Admitted(txt, p).Fit? && !Withdrawn(txt, p) && !UrfAlone(txt, p)
    ensures Admitted(txt, Admitted(txt, p).profiles) == Admitted(txt, p)
  {
    hide Fitted, Fits;
    var q := Admitted(txt, p).profiles;
    ProfilesStay(txt, p);
    assert Base(txt, q) == Base(txt, p);
  }

  /** With urf alone, it is stable if and only if neither urf nor any key behind it can stay. */
  lemma StableUrfAlone(txt: Txt, p: Profiles)
    requires UrfAlone(txt, p) && Admitted(txt, p).Fit?
    ensures var q := p.(airPrint := false, ippEverywhere := false);
            && Admitted(txt, p).profiles == q
            && (Admitted(txt, q) == Admitted(txt, p) <==>
                  !Fits(UpTo(txt, q, "urf")) && forall key :: key in txt && Before("urf", key) ==> !Fits(UpTo(txt - {"urf"}, q, key)))
  {
    var q := p.(airPrint := false, ippEverywhere := false);
    UrfAloneProfiles(txt, p);
    StableExactly(txt, p);
    hide Fits, Admitted, Before, Essential, Stays, UpTo, Base, ProfilesFor;
    StaysWithUrf(txt, q);
  }

  lemma UrfAloneProfiles(txt: Txt, p: Profiles)
    requires UrfAlone(txt, p) && Admitted(txt, p).Fit?
    ensures var q := p.(airPrint := false, ippEverywhere := false);
            && Base(txt, p) == txt && ProfilesFor(txt, p) == q && Base(txt, q) == txt - {"urf"}
            && Admitted(txt, p).profiles == q
  {
    hide Fits, Fitted;
    FittedWeaker(txt, p.(airPrint := false, ippEverywhere := false));
  }

  lemma StaysWithUrf(txt: Txt, q: Profiles)
    requires "urf" in txt && !q.airPrint && !q.ippEverywhere
    ensures (forall key :: Stays(txt, q, key) <==> Stays(txt - {"urf"}, q, key)) <==>
              !Fits(UpTo(txt, q, "urf")) && forall key :: key in txt && Before("urf", key) ==> !Fits(UpTo(txt - {"urf"}, q, key))
  {
    WithoutProfiles(q);
    hide Fits, Before, Essential, UpTo;
    forall key | key in txt
      ensures key != "urf" && !Essential(key, q) && !Before("urf", key) ==> UpTo(txt, q, key) == UpTo(txt - {"urf"}, q, key)
      ensures Before("urf", key) && Fits(UpTo(txt, q, key)) ==> Fits(UpTo(txt, q, "urf"))
    {
      BeforeUrf(txt, q, key);
    }
    var same := forall key :: Stays(txt, q, key) <==> Stays(txt - {"urf"}, q, key);
    if same {
      assert !Stays(txt - {"urf"}, q, "urf");
      forall key | key in txt && Before("urf", key)
        ensures !Fits(UpTo(txt - {"urf"}, q, key))
      {
        BeforeOrders("urf", key, key);
        assert Stays(txt, q, key) <==> Stays(txt - {"urf"}, q, key);
      }
    }
  }

  lemma WithoutProfiles(q: Profiles)
    requires !q.airPrint && !q.ippEverywhere
    ensures !Essential("urf", q)
    ensures forall key :: Before("urf", key) ==> !Essential(key, q)
  {
    UrfIsLate();
    hide Priority, LexLess;
  }

  lemma UrfIsLate()
    ensures Priority("rp") == 0 && Priority("txtvers") == 1 && Priority("qtotal") == 2 && Priority("urf") >= 3
  {
    hide Priority, PriorityFrom;
    LaterThan("urf", 3);
    PriorityIs("rp", 0);
    PriorityIs("txtvers", 1);
    PriorityIs("qtotal", 2);
  }

  lemma {:induction false} LaterThan(key: string, n: nat)
    requires n <= |KEY_ORDER| && forall i :: 0 <= i < n ==> KEY_ORDER[i] != key
    ensures Priority(key) >= n && PriorityFrom(key, n) == Priority(key)
  {
    if n > 0 {
      LaterThan(key, n - 1);
    }
  }

  lemma PriorityIs(key: string, n: nat)
    requires n < |KEY_ORDER| && KEY_ORDER[n] == key && forall i :: 0 <= i < n ==> KEY_ORDER[i] != key
    ensures Priority(key) == n
  {
    LaterThan(key, n);
  }

  lemma BeforeUrf(txt: Txt, q: Profiles, key: string)
    requires key in txt && "urf" in txt && !q.airPrint && !q.ippEverywhere
    ensures key != "urf" && !Essential(key, q) && !Before("urf", key) ==> UpTo(txt, q, key) == UpTo(txt - {"urf"}, q, key)
    ensures Before("urf", key) && Fits(UpTo(txt, q, key)) ==> Fits(UpTo(txt, q, "urf"))
    ensures Before("urf", key) ==> !Essential(key, q)
  {
    WithoutProfiles(q);
    hide Fits, Essential, Priority;
    if Before("urf", key) && Fits(UpTo(txt, q, key)) {
      forall k | Before(k, "urf")
        ensures Before(k, key)
      {
        BeforeOrders(k, "urf", key);
      }
      FewerFit(UpTo(txt, q, "urf"), UpTo(txt, q, key));
    }
  }

  /** After a withdrawal for size, it is stable only if no spare key fits behind the remaining essentials. */
  lemma SpareComesBack(txt: Txt, p: Profiles, key: string)
    requires Withdrawn(txt, p) && key in txt && Spare(key)
    ensures key !in Admitted(txt, p).txt
    ensures var q := Admitted(txt, p).profiles;
            && Admitted(txt, q).Fit? && (key in Admitted(txt, q).txt <==> Fits(UpTo(Base(txt, q), q, key)))
  {
    hide Fits, Fitted;
    WithdrawalLeavesNoSpareKey(Base(txt, p), ProfilesFor(Base(txt, p), p));
    SecondProfiles(txt, p);
  }

  /** While IPP Everywhere is left, that is the whole condition. */
  lemma StableWithdrawn(txt: Txt, p: Profiles)
    requires Withdrawn(txt, p) && Admitted(txt, p).profiles.ippEverywhere
    ensures var q := Admitted(txt, p).profiles;
            Admitted(txt, q) == Admitted(txt, p) <==> forall key :: key in txt && Spare(key) ==> !Fits(UpTo(Base(txt, q), q, key))
  {
    var base, q := Base(txt, p), Admitted(txt, p).profiles;
    var first := ProfilesFor(base, p);
    StableExactly(txt, p);
    assert !q.airPrint && first.airPrint && first.ippEverywhere by {
      hide Fits, Fitted, Essential;
      ProfilesForReady(base, p);
      FittedExactly(base, first);
    }
    hide Fits, Admitted, Before;
    forall key
      ensures Stays(Left(base, first, q), q, key) <==> key in txt && Essential(key, q)
      ensures Stays(Base(txt, q), q, key) <==> key in txt && (Essential(key, q) || (Spare(key) && Fits(UpTo(Base(txt, q), q, key))))
    {
    }
  }

  /**
   Why the guards matter: when AirPrint is withdrawn for size and the rest fits without urf, admitting
   again for the remaining profiles brings every spare key back.
   */
  lemma SecondAdmissionKeepsMore(txt: Txt, p: Profiles, key: string)
    requires Admitted(txt, p).Fit? && p.airPrint && Ready(txt, p)
    requires !Admitted(txt, p).profiles.airPrint && Fits(txt - {"urf"})
    requires key in txt && Spare(key)
    ensures key !in Admitted(txt, p).txt
    ensures var q := Admitted(txt, p).profiles; Admitted(txt, q).Fit? && key in Admitted(txt, q).txt
  {
    hide Fits, Fitted;
    assert ProfilesFor(txt, p) == p;
    SpareComesBack(txt, p, key);
    var q := Admitted(txt, p).profiles;
    FewerFit(UpTo(Base(txt, q), q, key), Base(txt, q));
  }

  /** Data that fits keeps urf for a queue that turns out not to be AirPrint; the second admission drops it. */
  lemma UrfAloneIsDropped(txt: Txt, p: Profiles)
    requires UrfAlone(txt, p) && Fits(txt)
    ensures Admitted(txt, p).Fit? && !Admitted(txt, p).profiles.airPrint && "urf" in Admitted(txt, p).txt
    ensures var q := Admitted(txt, p).profiles; Admitted(txt, q).Fit? && "urf" !in Admitted(txt, q).txt
  {
    hide Fits;
    SecondProfiles(txt, p);
  }

  /** An overlong pdl costs IPP Everywhere and the note; without IPP Everywhere only pdl is dropped. */
  lemma NoteComesBack(pdl: string, note: string)
    requires |pdl| == 300 && |note| <= 200
    ensures var txt, p := map["pdl" := pdl, "note" := note], Profiles(true, false, true);
            && Admitted(txt, p) == Fit(map[], PLAIN)
            && Admitted(txt, PLAIN).Fit? && "note" in Admitted(txt, PLAIN).txt
  {
    var txt: Txt, p := map["pdl" := pdl, "note" := note], Profiles(true, false, true);
    PdlTooLong(txt, p);
    NoteAlone(pdl, note);
    hide Fitted, Before, Size, Fits, UpTo, Essentials, ProfilesFor, Base, Essential;
    FittedExactly(txt, p);
    SpareComesBack(txt, p, "note");
    OnlyPlainStays(txt, p);
  }

  /** The pieces of that data: nothing essential, and the note, which comes before pdl, fits alone. */
  lemma NoteAlone(pdl: string, note: string)
    requires |note| <= 200
    ensures var txt, p := map["pdl" := pdl, "note" := note], Profiles(true, false, true);
            && Base(txt, p) == txt == Base(txt, PLAIN) && ProfilesFor(txt, p) == p && Ready(txt, p) && Spare("note")
            && Fits(Essentials(txt, PLAIN)) && Fits(UpTo(txt, PLAIN, "note"))
  {
    var txt: Txt := map["pdl" := pdl, "note" := note];
    NoteFits(note);
    PdlIsLate();
    hide Before, Fits, Size;
    assert Essentials(txt, PLAIN) == map[] && UpTo(txt, PLAIN, "note") == map["note" := note];
  }

  lemma NoteFits(note: string)
    requires |note| <= 200
    ensures Fits(map["note" := note]) && Fits(map[])
  {
    hide Fits;
    SmallFits(map["note" := note], "note");
    SmallFits(map[], "note");
  }

  lemma PdlTooLong(txt: Txt, p: Profiles)
    requires "pdl" in txt && |txt["pdl"]| == 300 && p.ippEverywhere
    ensures !Fits(Essentials(txt, p))
  {
    assert "pdl" in Essentials(txt, p) && EntrySize(Essentials(txt, p), "pdl") == 304;
  }

  lemma OnlyPlainStays(txt: Txt, p: Profiles)
    requires Admitted(txt, p).Fit? && txt.Keys == {"pdl", "note"} && p == Profiles(true, false, true)
    requires Admitted(txt, p).profiles == PLAIN
    ensures Admitted(txt, p).txt == map[]
  {
    hide Fitted, Before, Size, Fits, Admitted, Stays;
    AdmittedKeeps(txt, p);
    var base := Base(txt, p);
    assert base == txt && ProfilesFor(base, p) == p;
    assert Left(txt, p, PLAIN) == map[];
    forall key
      ensures key !in Admitted(txt, p).txt
    {
      StaysInside(map[], PLAIN, key);
    }
    assert Admitted(txt, p).txt == map[];
  }

  lemma StaysInside(txt: Txt, p: Profiles, key: string)
    ensures Stays(txt, p, key) ==> key in txt
  {
  }

  lemma PdlIsLate()
    ensures !Before("pdl", "note")
  {
    hide Priority, PriorityFrom, LexLess;
    PriorityIs("note", 4);
    LaterThan("pdl", 5);
  }

  lemma SmallFits(txt: Txt, key: string)
    requires txt.Keys <= {key} && (key in txt ==> EntrySize(txt, key) <= MAX_ENTRY)
    ensures Fits(txt)
  {
    hide First;
    if key in txt {
      SizeWithout(txt, txt.Keys, key);
      assert txt.Keys - {key} == {};
    } else {
      assert txt.Keys == {};
    }
  }

  // The position of rp.

  /** Every entry before a given one counts towards its position on the wire. */
  ghost function EndOf(txt: Txt, key: string): nat
    requires key in txt
  {
    Size(txt, set other | other in txt && (other == key || Before(other, key)))
  }

  lemma RpComesFirst(txt: Txt)
    requires "rp" in txt && EntrySize(txt, "rp") <= MAX_ENTRY
    ensures IsFirst(txt.Keys, "rp") && EndOf(txt, "rp") <= MAX_ENTRY + 1 <= MAX_RP
  {
    forall key | key in txt && key != "rp"
      ensures Before("rp", key) && !Before(key, "rp")
    {
      RpHasTop(key);
      BeforeOrders("rp", key, key);
    }
    hide Before;
    var upTo := set other | other in txt && (other == "rp" || Before(other, "rp"));
    assert upTo == {"rp"};
    SizeWithout(txt, upTo, "rp");
    assert upTo - {"rp"} == {};
  }

  lemma RpHasTop(key: string)
    requires key != "rp"
    ensures Priority("rp") == 0 < Priority(key)
  {
  }

  // The loops of the source, against the functions above.

  ghost function Sorted(keys: set<string>): seq<string>
    decreases |keys|
  {
    if keys == {} then [] else [First(keys)] + Sorted(keys - {First(keys)})
  }

  datatype LimitError = WithinLimits | EntryTooLong | DataTooLong | RpTooLate

  /** The keys in wire order; each entry is its key, an equals sign and its value. */
  method TxtKeys(txt: Txt) returns (keys: seq<string>)
    ensures keys == Sorted(txt.Keys)
  {
    hide Before;
    keys := [];
    var left := txt.Keys;
    while left != {}
      invariant left <= txt.Keys && keys + Sorted(left) == Sorted(txt.Keys)
      decreases |left|
    {
      FirstIsFirst(left);
      var key :| key in left && forall other :: other in left && other != key ==> Before(key, other);
      FirstIsUnique(left, key);
      keys := keys + [key];
      left := left - {key};
    }
  }

  lemma FirstIsFirst(keys: set<string>)
    requires keys != {}
    ensures First(keys) in keys && forall other :: other in keys && other != First(keys) ==> Before(First(keys), other)
  {
  }

  /** The limits hold exactly when the data fits; rp is never reported, because it always comes first. */
  method ValidateLimits(txt: Txt) returns (error: LimitError)
    ensures error.WithinLimits? <==> Fits(txt)
    ensures error.EntryTooLong? <==> exists key :: key in txt && EntrySize(txt, key) > MAX_ENTRY
    ensures !error.RpTooLate?
  {
    hide First, Before, EntrySize;
    var keys := TxtKeys(txt);
    var total, rpEnd := 0, 0;
    ghost var left := txt.Keys;
    for i := 0 to |keys|
      invariant left <= txt.Keys && keys[i..] == Sorted(left)
      invariant total + Size(txt, left) == Size(txt, txt.Keys)
      invariant forall key :: key in txt && key !in left ==> EntrySize(txt, key) <= MAX_ENTRY
      invariant forall key, other :: key in txt && key !in left && other in left ==> Before(key, other)
      invariant rpEnd <= MAX_ENTRY + 1
    {
      assert keys[i..][0] == keys[i];
      if left == {} {
        assert false;
      }
      var key := keys[i];
      assert key == First(left);
      FirstIsFirst(left);
      if EntrySize(txt, key) > MAX_ENTRY {
        return EntryTooLong;
      }
      if key == "rp" && rpEnd == 0 {
        RpLeads(txt, left);
        rpEnd := total + 1 + EntrySize(txt, key);
      }
      total := total + 1 + EntrySize(txt, key);
      left := left - {key};
      assert keys[i + 1..] == keys[i..][1..];
    }
    assert [] == keys[|keys|..] == Sorted(left);
    if total > MAX_DATA {
      return DataTooLong;
    }
    if rpEnd > MAX_RP {
      return RpTooLate;
    }
    return WithinLimits;
  }

  /** When rp is the next entry, no entry came before it. */
  lemma RpLeads(txt: Txt, left: set<string>)
    requires left <= txt.Keys && left != {} && First(left) == "rp"
    requires forall key :: key in txt && key !in left ==> Before(key, "rp")
    ensures left == txt.Keys
  {
    forall key | key in txt
      ensures key in left
    {
      if key !in left {
        if key != "rp" {
          RpHasTop(key);
        }
      }
    }
  }

  /** The greatest key that the profiles do not need, if there is one. */
  method OptionalKey(txt: Txt, p: Profiles) returns (key: Option<string>)
    ensures key == if OptionalKeys(txt, p) == {} then None else Some(Last(OptionalKeys(txt, p)))
  {
    hide Before, Essential;
    var optional := OptionalKeys(txt, p);
    if optional == {} {
      return None;
    }
    LastIsLast(optional);
    var last :| last in optional && forall other :: other in optional && other != last ==> Before(other, last);
    LastIsUnique(optional, last);
    return Some(last);
  }

  lemma LastIsLast(keys: set<string>)
    requires keys != {}
    ensures Last(keys) in keys && forall other :: other in keys && other != Last(keys) ==> Before(other, Last(keys))
  {
  }

  /** The admission loop: it ends, and its result is the one characterised above. */
  method FitProfileTxt(input: Txt, requested: Profiles) returns (r: Fit)
    ensures r == Admitted(input, requested)
    ensures FitsExactly(Base(input, requested), ProfilesFor(Base(input, requested), requested), r)
  {
    hide Fits, Last, Essential, OptionalKeys, FitsExactly;
    var txt, profiles := input, requested;
    if !profiles.airPrint {
      txt := txt - {"urf"};
    }
    profiles := ProfilesFor(txt, profiles);
    ProfilesForReady(txt, requested);
    FittedExactly(txt, profiles);
    while true
      invariant Fitted(txt, profiles) == Admitted(input, requested)
      decreases |txt|
    {
      var error := ValidateLimits(txt);
      if error.WithinLimits? {
        return Fit(txt, profiles);
      }
      if error.RpTooLate? {
        return TooLarge;
      }
      var optional := OptionalKey(txt, profiles);
      if optional.None? {
        if profiles.airPrint && "urf" in txt {
          txt := txt - {"urf"};
          profiles := profiles.(airPrint := false);
          continue;
        }
        if profiles.ippEverywhere && "pdl" in txt {
          txt := txt - {"pdl"};
          profiles := profiles.(airPrint := false, ippEverywhere := false);
          continue;
        }
        return TooLarge;
      }
      OptionalInTxt(txt, profiles);
      txt := txt - {optional.value};
    }
  }

  lemma OptionalInTxt(txt: Txt, p: Profiles)
    ensures OptionalKeys(txt, p) <= txt.Keys
  {
  }
}
