/**
 Merge staging for every payload, whatever names it repeats or leaves empty. A section that is listed
 again is judged by the snapshot and written as it then is, so what remains is decided option by option.
 */
module Listings {
  import opened Wrappers
  import opened Uci
  import opened Staging
  import opened StagingLaws

  // ---------------------------------------------------------------- one more section

  /** No payload name is the id of an anonymous section. */
  ghost predicate Unambiguous(snap: Package, w: seq<Item>, gen: IdGen)
  {
    WellFormed(snap) && FreshIds(gen) && NamesFree(w, snap, gen)
  }

  function PriorKeys(prior: Option<Section>): set<string>
  {
    if prior.None? then {} else prior.value.options.Keys
  }

  /** What a listing makes of a section that the snapshot shows as prior and that now is t. */
  function Restated(prior: Option<Section>, t: Section, x: Item): Section
  {
    var values := OptionsOf(x.fields);
    t.(typ := if prior.Some? && prior.value.typ == x.typ then t.typ else x.typ,
       options := Assign(t.options, values) - (PriorKeys(prior) - values.Keys))
  }

  function NewNamed(name: string, x: Item): Section
  {
    Section(name, x.typ, name, false, Stored(OptionsOf(x.fields)))
  }

  /** An empty name adds an anonymous section, and options then have no section to go to. */
  predicate Unplaceable(x: Item)
  {
    NameOf(x.fields) == Some("") && OptionsOf(x.fields) != map[]
  }

  predicate AllPlaceable(w: seq<Item>)
  {
    forall x :: x in w ==> !Unplaceable(x)
  }

  /** The section of the snapshot that an unnamed item takes over; only merge mode reuses. */
  function Slot(snap: Package, done: seq<Item>, x: Item, merge: bool): (t: Option<nat>)
    ensures t.Some? ==> t.value < |snap|
  {
    if merge then Target(snap, done, x) else None
  }

  function Overlay(snap: Package, p: Package, done: seq<Item>, x: Item, merge: bool, gen: IdGen): (q: Package)
    requires |snap| <= |p|
    ensures |p| <= |q|
  {
    match NameOf(x.fields)
    case Some(name) =>
      var i := FirstIndex(p, WithId(name));
      if name == "" then p + [Section(gen(p), x.typ, gen(p), true, map[])]
      else if i < |p| then p[i := Restated(First(snap, Named(name)), p[i], x)]
      else p + [NewNamed(name, x)]
    case None =>
      match Slot(snap, done, x, merge)
      case Some(i) => p[i := Restated(Some(snap[i]), p[i], x)]
      case None => p + [Appended(p, x, gen)]
  }

  function Overlaid(snap: Package, w: seq<Item>, merge: bool, gen: IdGen): (p: Package)
    ensures |snap| <= |p|
  {
    if w == [] then snap
    else
      var n := |w| - 1;
      Overlay(snap, Overlaid(snap, w[..n], merge, gen), w[..n], w[n], merge, gen)
  }

  lemma UnambiguousPrefix(snap: Package, w: seq<Item>, n: nat, gen: IdGen)
    requires Unambiguous(snap, w, gen) && n <= |w|
    ensures Unambiguous(snap, w[..n], gen) && KeepNames(w[..n]) <= KeepNames(w)
  {
    assert forall x :: x in w[..n] ==> x in w;
  }

  // ---------------------------------------------------------------- the package stays well formed

  /** An id that is listed as a name belongs to a named section. */
  lemma ListedIsNamed(snap: Package, p: Package, w: seq<Item>, name: string, i: nat, gen: IdGen)
    requires Unambiguous(snap, w, gen) && Extends(snap, p, KeepNames(w), gen)
    requires name in KeepNames(w) && i < |p| && p[i].id == name
    ensures !p[i].anonymous && p[i].name == name
  {
    if i < |snap| {
      assert snap[i] in snap;
    }
  }

  lemma ExtendsMore(snap: Package, p: Package, names: set<string>, more: set<string>, gen: IdGen)
    requires Extends(snap, p, names, gen) && names <= more
    ensures Extends(snap, p, more, gen)
  {
  }

  lemma ExtendsUpdate(snap: Package, p: Package, i: nat, s: Section, names: set<string>, gen: IdGen)
    requires Extends(snap, p, names, gen) && i < |p| && SameSection(p[i], s)
    ensures Extends(snap, p[i := s], names, gen)
  {
  }

  lemma ExtendsAppend(snap: Package, p: Package, s: Section, names: set<string>, gen: IdGen)
    requires Extends(snap, p, names, gen) && NewSection(s, names, gen) && s.id != "" && (!s.anonymous ==> s.name == s.id)
    requires forall k :: 0 <= k < |p| ==> p[k].id != s.id
    ensures Extends(snap, p + [s], names, gen)
  {
  }

  lemma OverlayExtends(snap: Package, p: Package, done: seq<Item>, x: Item, merge: bool, gen: IdGen)
    requires Unambiguous(snap, done + [x], gen) && Extends(snap, p, KeepNames(done), gen)
    ensures Extends(snap, Overlay(snap, p, done, x, merge, gen), KeepNames(done + [x]), gen)
  {
    var names := KeepNames(done + [x]);
    assert forall y :: y in done ==> y in done + [x];
    assert x in done + [x];
    ExtendsMore(snap, p, KeepNames(done), names, gen);
    assert forall k :: 0 <= k < |p| ==> p[k] in p;
    match NameOf(x.fields) {
      case Some(name) =>
        var i := FirstIndex(p, WithId(name));
        if name == "" {
          ExtendsAppend(snap, p, Section(gen(p), x.typ, gen(p), true, map[]), names, gen);
        } else if i < |p| {
          ListedIsNamed(snap, p, done + [x], name, i, gen);
          ExtendsUpdate(snap, p, i, Restated(First(snap, Named(name)), p[i], x), names, gen);
        } else {
          assert forall k :: 0 <= k < |p| ==> !WithId(name)(p[k]);
          ExtendsAppend(snap, p, NewNamed(name, x), names, gen);
        }
      case None =>
        AnonSlotsFacts(snap, x.typ);
        if Slot(snap, done, x, merge).Some? {
          var i := Slot(snap, done, x, merge).value;
          ExtendsUpdate(snap, p, i, Restated(Some(snap[i]), p[i], x), names, gen);
        } else {
          ExtendsAppend(snap, p, Appended(p, x, gen), names, gen);
        }
    }
  }

  lemma {:induction false} OverlaidExtends(snap: Package, w: seq<Item>, merge: bool, gen: IdGen)
    requires Unambiguous(snap, w, gen)
    ensures Extends(snap, Overlaid(snap, w, merge, gen), KeepNames(w), gen)
  {
    if w != [] {
      var n := |w| - 1;
      UnambiguousPrefix(snap, w, n, gen);
      OverlaidExtends(snap, w[..n], merge, gen);
      LastExtends(snap, Overlaid(snap, w[..n], merge, gen), w, merge, gen);
    }
  }

  lemma LastExtends(snap: Package, p: Package, w: seq<Item>, merge: bool, gen: IdGen)
    requires w != [] && Unambiguous(snap, w, gen) && Extends(snap, p, KeepNames(w[..|w| - 1]), gen)
    ensures Extends(snap, Overlay(snap, p, w[..|w| - 1], w[|w| - 1], merge, gen), KeepNames(w), gen)
  {
    assert w[..|w| - 1] + [w[|w| - 1]] == w;
    OverlayExtends(snap, p, w[..|w| - 1], w[|w| - 1], merge, gen);
  }

  // ---------------------------------------------------------------- exactness

  /** Setting the values and cleaning up what the snapshot had, on the section at position i. */
  lemma FillAndRestate(cur: Package, i: nat, prior: Option<Section>, values: Options)
    requires WellFormed(cur) && i < |cur|
    ensures var f := Filled(cur, cur[i].id, values);
            f.Some? && Cleaned(f.value, cur[i].id, prior, values.Keys)
                       == Some(cur[i := cur[i].(options := Assign(cur[i].options, values) - (PriorKeys(prior) - values.Keys))])
  {
    IndexIsUnique(cur, i);
    var t := cur[i].(options := Assign(cur[i].options, values));
    var filled := cur[i := t];
    assert Filled(cur, cur[i].id, values) == Some(filled) by {
      if values == map[] {
        OptionsSettle(cur[i].options, values);
        assert filled == cur;
      }
    }
    UpdateKeepsIndex(cur, i, t);
    var stale := PriorKeys(prior) - values.Keys;
    assert forall k :: k in PriorKeys(prior) ==> k in values.Keys || k in stale;
    if stale == {} {
      assert t.options - stale == t.options;
      assert cur[i].(options := t.options - stale) == t;
    } else {
      assert filled[i := t.(options := t.options - stale)] == cur[i := cur[i].(options := t.options - stale)];
    }
  }

  /** A listing of a section that is there already. */
  lemma RestatesNamed(snap: Package, p: Package, x: Item, i: nat, name: string, reuse: string, gen: IdGen)
    requires WellFormed(snap) && WellFormed(p) && i < |p| && p[i].id == name && name != "" && NameOf(x.fields) == Some(name)
    ensures ApplyItem(snap, p, x, reuse, gen) == Some(p[i := Restated(First(snap, Named(name)), p[i], x)])
  {
    var prior, values := First(snap, Named(name)), OptionsOf(x.fields);
    IndexIsUnique(p, i);
    var t := p[i].(typ := if prior.Some? && prior.value.typ == x.typ then p[i].typ else x.typ);
    var created := p[i := t];
    assert Created(snap, p, x.typ, name, gen) == Some(created) by {
      if prior.Some? && prior.value.typ == x.typ { assert created == p; }
    }
    assert WellFormed(created);
    FillAndRestate(created, i, prior, values);
    var options := Assign(t.options, values) - (PriorKeys(prior) - values.Keys);
    assert created[i := t.(options := options)] == p[i := Restated(prior, p[i], x)];
  }

  /** A reused anonymous section. */
  lemma RestatesAnonymous(snap: Package, p: Package, x: Item, i: nat, gen: IdGen)
    requires WellFormed(snap) && WellFormed(p) && i < |snap| <= |p| && SameSection(snap[i], p[i])
    requires NameOf(x.fields).None? && snap[i].anonymous && snap[i].typ == x.typ
    ensures ApplyItem(snap, p, x, snap[i].id, gen) == Some(p[i := Restated(Some(snap[i]), p[i], x)])
  {
    IndexIsUnique(snap, i);
    FillAndRestate(p, i, Some(snap[i]), OptionsOf(x.fields));
  }

  lemma EmptyNameStep(snap: Package, p: Package, x: Item, reuse: string, gen: IdGen)
    requires WellFormed(snap) && WellFormed(p) && FreshIds(gen) && NameOf(x.fields) == Some("")
    ensures ApplyItem(snap, p, x, reuse, gen)
            == if Unplaceable(x) then None else Some(p + [Section(gen(p), x.typ, gen(p), true, map[])])
  {
    assert forall i :: 0 <= i < |snap| ==> !Named("")(snap[i]);
    var added := AddSection(p, x.typ, "", gen);
    assert forall i :: 0 <= i < |added| ==> !WithId("")(added[i]);
  }

  lemma StepOverlays(snap: Package, p: Package, done: seq<Item>, x: Item, merge: bool, gen: IdGen)
    requires Unambiguous(snap, done + [x], gen) && Extends(snap, p, KeepNames(done), gen)
    ensures ApplyItem(snap, p, x, ReuseId(snap, merge, done, x), gen)
            == if Unplaceable(x) then None else Some(Overlay(snap, p, done, x, merge, gen))
  {
    assert x in done + [x];
    match NameOf(x.fields) {
      case Some(name) =>
        if name == "" {
          EmptyNameStep(snap, p, x, ReuseId(snap, merge, done, x), gen);
        } else {
          var i := FirstIndex(p, WithId(name));
          if i < |p| {
            RestatesNamed(snap, p, x, i, name, ReuseId(snap, merge, done, x), gen);
          } else {
            AbsentNow(snap, p, name);
            MissStep(snap, p, x, gen);
          }
        }
      case None =>
        AnonSlotsFacts(snap, x.typ);
        AnonIdsAtSlots(snap, x.typ);
        if Slot(snap, done, x, merge).Some? {
          RestatesAnonymous(snap, p, x, Slot(snap, done, x, merge).value, gen);
        } else {
          MissStep(snap, p, x, gen);
        }
    }
  }

  /** A section that is not there now was not in the snapshot either. */
  lemma AbsentNow(snap: Package, p: Package, name: string)
    requires WellFormed(snap) && |snap| <= |p| && forall i :: 0 <= i < |snap| ==> SameSection(snap[i], p[i])
    requires FirstIndex(p, WithId(name)) == |p|
    ensures First(snap, Named(name)).None? && forall s :: s in p ==> s.id != name
  {
    assert forall k :: 0 <= k < |p| ==> !WithId(name)(p[k]);
    assert forall k :: 0 <= k < |snap| ==> !Named(name)(snap[k]);
  }

  /** Merge staging fails exactly when a section with an empty name has options, and otherwise overlays the listings. */
  lemma {:induction false} StagingOverlays(snap: Package, w: seq<Item>, merge: bool, gen: IdGen)
    requires Unambiguous(snap, w, gen)
    ensures Fold(snap, snap, merge, w, gen) == if AllPlaceable(w) then Some(Overlaid(snap, w, merge, gen)) else None
  {
    if w != [] {
      var n := |w| - 1;
      var done, x := w[..n], w[n];
      assert done + [x] == w;
      UnambiguousPrefix(snap, w, n, gen);
      StagingOverlays(snap, done, merge, gen);
      OverlaidExtends(snap, done, merge, gen);
      StepOverlays(snap, Overlaid(snap, done, merge, gen), done, x, merge, gen);
      assert AllPlaceable(w) <==> AllPlaceable(done) && !Unplaceable(x);
    }
  }

  // ---------------------------------------------------------------- what remains of a name

  function Listing(name: string): Item -> bool
  {
    (x: Item) => NameOf(x.fields) == Some(name)
  }

  /** Listings whose type is not the one the snapshot shows. */
  function Retyping(snap: Package, name: string): Item -> bool
  {
    var prior := First(snap, Named(name));
    (x: Item) => NameOf(x.fields) == Some(name) && !(prior.Some? && prior.value.typ == x.typ)
  }

  function Mentioning(name: string, option: string): Item -> bool
  {
    (x: Item) => NameOf(x.fields) == Some(name) && option in OptionsOf(x.fields)
  }

  ghost predicate IsLast(w: seq<Item>, pred: Item -> bool, d: nat)
  {
    d < |w| && pred(w[d]) && forall m :: d < m < |w| ==> !pred(w[m])
  }

  ghost predicate Never(w: seq<Item>, pred: Item -> bool)
  {
    forall m :: 0 <= m < |w| ==> !pred(w[m])
  }

  lemma {:induction false} LastExists(w: seq<Item>, pred: Item -> bool)
    ensures Never(w, pred) || exists d: nat :: IsLast(w, pred, d)
  {
    if w != [] {
      var n := |w| - 1;
      if pred(w[n]) {
        assert IsLast(w, pred, n);
      } else {
        LastExists(w[..n], pred);
        if !Never(w[..n], pred) {
          var d: nat :| IsLast(w[..n], pred, d);
          assert IsLast(w, pred, d);
        }
      }
    }
  }

  lemma LastInFront(w: seq<Item>, pred: Item -> bool, d: nat)
    requires w != []
    ensures pred(w[|w| - 1]) ==> (IsLast(w, pred, d) <==> d == |w| - 1) && !Never(w, pred)
    ensures !pred(w[|w| - 1]) ==> (IsLast(w, pred, d) <==> IsLast(w[..|w| - 1], pred, d))
    ensures !pred(w[|w| - 1]) ==> (Never(w, pred) <==> Never(w[..|w| - 1], pred))
  {
  }

  /** The section of a name after a series of listings. */
  function Outcome(snap: Package, w: seq<Item>, name: string): Option<Section>
  {
    if w == [] then First(snap, Named(name))
    else
      var was, x := Outcome(snap, w[..|w| - 1], name), w[|w| - 1];
      if !Listing(name)(x) then was
      else match was
        case None => Some(NewNamed(name, x))
        case Some(t) => Some(Restated(First(snap, Named(name)), t, x))
  }

  /** No section but the one at i can be found under its name. */
  lemma NamedAt(p: Package, name: string, i: nat)
    requires WellFormed(p) && i < |p| && Named(name)(p[i])
    ensures First(p, Named(name)) == Some(p[i])
  {
    IndexIsUnique(p, i);
  }

  lemma NamedNowhere(p: Package, name: string)
    requires forall k :: 0 <= k < |p| ==> !Named(name)(p[k])
    ensures First(p, Named(name)) == None
  {
  }

  /** Changing or adding sections of other names does not change what a name finds. */
  lemma NamedElsewhere(p: Package, q: Package, name: string)
    requires WellFormed(p) && WellFormed(q) && |p| <= |q|
    requires forall k :: 0 <= k < |p| ==> if Named(name)(p[k]) then q[k] == p[k] else !Named(name)(q[k])
    requires forall k :: |p| <= k < |q| ==> !Named(name)(q[k])
    ensures First(q, Named(name)) == First(p, Named(name))
  {
    var i := FirstIndex(p, Named(name));
    if i < |p| {
      NamedAt(p, name, i);
      NamedAt(q, name, i);
    } else {
      NamedNowhere(q, name);
    }
  }

  lemma OutcomeStep(snap: Package, p: Package, done: seq<Item>, x: Item, name: string, merge: bool, gen: IdGen)
    requires Unambiguous(snap, done + [x], gen) && Extends(snap, p, KeepNames(done), gen) && name != ""
    ensures var was := First(p, Named(name));
            First(Overlay(snap, p, done, x, merge, gen), Named(name))
            == if !Listing(name)(x) then was
               else match was
                 case None => Some(NewNamed(name, x))
                 case Some(t) => Some(Restated(First(snap, Named(name)), t, x))
  {
    var q := Overlay(snap, p, done, x, merge, gen);
    assert forall y :: y in done ==> y in done + [x];
    assert x in done + [x];
    OverlayExtends(snap, p, done, x, merge, gen);
    ExtendsMore(snap, p, KeepNames(done), KeepNames(done + [x]), gen);
    if Listing(name)(x) {
      var i := FirstIndex(p, WithId(name));
      if i < |p| {
        ListedIsNamed(snap, p, done + [x], name, i, gen);
        NamedAt(p, name, i);
        NamedAt(q, name, i);
      } else {
        assert forall k :: 0 <= k < |p| ==> !WithId(name)(p[k]);
        NamedNowhere(p, name);
        NamedAt(q, name, |p|);
      }
    } else {
      OverlayElsewhere(snap, p, done, x, name, merge, gen);
      NamedElsewhere(p, q, name);
    }
  }

  lemma OverlayElsewhere(snap: Package, p: Package, done: seq<Item>, x: Item, name: string, merge: bool, gen: IdGen)
    requires Unambiguous(snap, done + [x], gen) && Extends(snap, p, KeepNames(done + [x]), gen)
    requires name != "" && !Listing(name)(x)
    ensures var q := Overlay(snap, p, done, x, merge, gen);
            && (forall k :: 0 <= k < |p| ==> if Named(name)(p[k]) then q[k] == p[k] else !Named(name)(q[k]))
            && (forall k :: |p| <= k < |q| ==> !Named(name)(q[k]))
  {
    assert x in done + [x];
    AnonSlotsFacts(snap, x.typ);
    if NameOf(x.fields).Some? && NameOf(x.fields).value != "" {
      var i := FirstIndex(p, WithId(NameOf(x.fields).value));
      if i < |p| {
        ListedIsNamed(snap, p, done + [x], NameOf(x.fields).value, i, gen);
      }
    }
  }

  lemma {:induction false} OutcomeIsFound(snap: Package, w: seq<Item>, name: string, merge: bool, gen: IdGen)
    requires Unambiguous(snap, w, gen) && name != ""
    ensures First(Overlaid(snap, w, merge, gen), Named(name)) == Outcome(snap, w, name)
  {
    if w != [] {
      var n := |w| - 1;
      UnambiguousPrefix(snap, w, n, gen);
      OutcomeIsFound(snap, w[..n], name, merge, gen);
      OverlaidExtends(snap, w[..n], merge, gen);
      assert w[..n] + [w[n]] == w;
      OutcomeStep(snap, Overlaid(snap, w[..n], merge, gen), w[..n], w[n], name, merge, gen);
    }
  }

  /** The section a name leads to carries it. */
  lemma {:induction false} OutcomeIsNamed(snap: Package, w: seq<Item>, name: string)
    requires WellFormed(snap)
    ensures Outcome(snap, w, name).Some? ==>
              var s := Outcome(snap, w, name).value; s.id == name && s.name == name && !s.anonymous
    ensures Outcome(snap, w, name).None? <==> First(snap, Named(name)).None? && Never(w, Listing(name))
  {
    if w == [] {
      var i := FirstIndex(snap, Named(name));
      assert i < |snap| ==> Named(name)(snap[i]);
    } else {
      OutcomeIsNamed(snap, w[..|w| - 1], name);
      LastInFront(w, Listing(name), 0);
    }
  }

  // ---------------------------------------------------------------- which listing decides what

  /** The value an option has once stored: an empty list is no option. */
  function Effective(options: Options, option: string): Option<Value>
  {
    if option in options && options[option] != List([]) then Some(options[option]) else None
  }

  /** The last listing with another type than the snapshot's decides the type. */
  lemma {:induction false} TypeLeft(snap: Package, w: seq<Item>, name: string, d: nat)
    requires IsLast(w, Retyping(snap, name), d)
    ensures Outcome(snap, w, name).Some? && Outcome(snap, w, name).value.typ == w[d].typ
  {
    var n := |w| - 1;
    LastInFront(w, Retyping(snap, name), d);
    if !Retyping(snap, name)(w[n]) {
      TypeLeft(snap, w[..n], name, d);
    }
  }

  /** Without one the type stays the snapshot's. */
  lemma {:induction false} TypeKept(snap: Package, w: seq<Item>, name: string)
    requires Never(w, Retyping(snap, name))
    ensures Outcome(snap, w, name).Some? <==> First(snap, Named(name)).Some?
    ensures Outcome(snap, w, name).Some? ==> Outcome(snap, w, name).value.typ == First(snap, Named(name)).value.typ
  {
    if w != [] {
      LastInFront(w, Retyping(snap, name), 0);
      TypeKept(snap, w[..|w| - 1], name);
    }
  }

  /** An option the snapshot has is decided by the last listing, any other by the last listing that mentions it. */
  ghost predicate DecidesOption(snap: Package, w: seq<Item>, name: string, option: string, d: nat)
  {
    IsLast(w, if option in PriorKeys(First(snap, Named(name))) then Listing(name) else Mentioning(name, option), d)
  }

  lemma RestatedOption(prior: Option<Section>, t: Section, x: Item, option: string)
    ensures var after, values := Effective(Restated(prior, t, x).options, option), OptionsOf(x.fields);
            after == if option in values then Effective(values, option)
                     else if option in PriorKeys(prior) then None else Effective(t.options, option)
  {
  }

  lemma {:induction false} OptionLeft(snap: Package, w: seq<Item>, name: string, option: string, d: nat)
    requires DecidesOption(snap, w, name, option, d)
    ensures Outcome(snap, w, name).Some?
    ensures Effective(Outcome(snap, w, name).value.options, option) == Effective(OptionsOf(w[d].fields), option)
  {
    var n := |w| - 1;
    var x, was, prior := w[n], Outcome(snap, w[..n], name), First(snap, Named(name));
    LastInFront(w, if option in PriorKeys(prior) then Listing(name) else Mentioning(name, option), d);
    if d < n {
      OptionLeft(snap, w[..n], name, option, d);
    }
    if was.Some? && Listing(name)(x) {
      RestatedOption(prior, was.value, x, option);
    }
  }

  /** An option that neither the snapshot nor any listing has is not there. */
  lemma {:induction false} OptionAbsent(snap: Package, w: seq<Item>, name: string, option: string)
    requires option !in PriorKeys(First(snap, Named(name))) && Never(w, Mentioning(name, option))
    ensures Outcome(snap, w, name).Some? ==> Effective(Outcome(snap, w, name).value.options, option) == None
  {
    if w != [] {
      var n := |w| - 1;
      LastInFront(w, Mentioning(name, option), 0);
      OptionAbsent(snap, w[..n], name, option);
      if Outcome(snap, w[..n], name).Some? {
        RestatedOption(First(snap, Named(name)), Outcome(snap, w[..n], name).value, w[n], option);
      }
    }
  }

  ghost predicate NoEmptyLists(options: Options)
  {
    forall k :: k in options ==> options[k] != List([])
  }

  /** A listed section holds no empty list. */
  lemma {:induction false} ListedHasNoEmptyLists(snap: Package, w: seq<Item>, name: string)
    requires !Never(w, Listing(name))
    ensures Outcome(snap, w, name).Some? && NoEmptyLists(Outcome(snap, w, name).value.options)
  {
    var n := |w| - 1;
    LastInFront(w, Listing(name), 0);
    if !Never(w[..n], Listing(name)) {
      ListedHasNoEmptyLists(snap, w[..n], name);
    } else {
      OutcomeUnlisted(snap, w[..n], name);
    }
  }

  lemma {:induction false} OutcomeUnlisted(snap: Package, w: seq<Item>, name: string)
    requires Never(w, Listing(name))
    ensures Outcome(snap, w, name) == First(snap, Named(name))
  {
    if w != [] {
      LastInFront(w, Listing(name), 0);
      OutcomeUnlisted(snap, w[..|w| - 1], name);
    }
  }

  lemma SameOptions(options: Options, values: Options)
    requires NoEmptyLists(options)
    ensures options == Stored(values) <==> forall k: string :: Effective(options, k) == Effective(values, k)
  {
    if forall k: string :: Effective(options, k) == Effective(values, k) {
      forall k ensures k in options <==> k in Stored(values) {
        assert Effective(options, k) == Effective(values, k);
      }
      forall k | k in options ensures options[k] == Stored(values)[k] {
        assert Effective(options, k) == Effective(values, k);
      }
      assert options == Stored(values);
    }
    if options == Stored(values) {
      forall k: string ensures Effective(options, k) == Effective(values, k) {
        assert k in options <==> k in Stored(values);
      }
    }
  }

  // ---------------------------------------------------------------- when a listing is honoured

  /** After staging, the section has exactly this listing's type and options. */
  ghost predicate Honoured(snap: Package, w: seq<Item>, l: nat, merge: bool, gen: IdGen)
    requires l < |w| && NameOf(w[l].fields).Some?
  {
    var name := NameOf(w[l].fields).value;
    First(Overlaid(snap, w, merge, gen), Named(name)) == Some(NewNamed(name, w[l]))
  }

  /** Every listing that decides something agrees with this one on it. */
  ghost predicate DecidersAgree(snap: Package, w: seq<Item>, name: string, l: nat)
    requires l < |w|
  {
    && (forall d: nat :: IsLast(w, Retyping(snap, name), d) ==> w[d].typ == w[l].typ)
    && (forall d: nat, k: string :: DecidesOption(snap, w, name, k, d) ==>
          Effective(OptionsOf(w[d].fields), k) == Effective(OptionsOf(w[l].fields), k))
  }

  lemma TypeAgrees(snap: Package, w: seq<Item>, name: string, l: nat)
    requires l < |w| && Listing(name)(w[l])
    ensures Outcome(snap, w, name).Some?
    ensures Outcome(snap, w, name).value.typ == w[l].typ
            <==> forall d: nat :: IsLast(w, Retyping(snap, name), d) ==> w[d].typ == w[l].typ
  {
    LastExists(w, Retyping(snap, name));
    if Never(w, Retyping(snap, name)) {
      TypeKept(snap, w, name);
      assert !Retyping(snap, name)(w[l]);
    } else {
      var d :| IsLast(w, Retyping(snap, name), d);
      TypeLeft(snap, w, name, d);
      assert forall e: nat :: IsLast(w, Retyping(snap, name), e) ==> e == d;
    }
  }

  /** Each single option agrees exactly when its decider, if it has one, agrees. */
  lemma OptionAgrees(snap: Package, w: seq<Item>, name: string, l: nat, option: string)
    requires l < |w| && Listing(name)(w[l]) && Outcome(snap, w, name).Some?
    ensures Effective(Outcome(snap, w, name).value.options, option) == Effective(OptionsOf(w[l].fields), option)
            <==> forall d: nat :: DecidesOption(snap, w, name, option, d) ==>
                   Effective(OptionsOf(w[d].fields), option) == Effective(OptionsOf(w[l].fields), option)
  {
    var pred := if option in PriorKeys(First(snap, Named(name))) then Listing(name) else Mentioning(name, option);
    LastExists(w, pred);
    if Never(w, pred) {
      OptionAbsent(snap, w, name, option);
      assert !pred(w[l]);
    } else {
      var d :| IsLast(w, pred, d);
      OptionLeft(snap, w, name, option, d);
      assert forall e: nat :: DecidesOption(snap, w, name, option, e) ==> e == d;
    }
  }

  lemma OptionsAgree(snap: Package, w: seq<Item>, name: string, l: nat)
    requires l < |w| && Listing(name)(w[l]) && Outcome(snap, w, name).Some?
    ensures Outcome(snap, w, name).value.options == Stored(OptionsOf(w[l].fields))
            <==> forall d: nat, k: string :: DecidesOption(snap, w, name, k, d) ==>
                   Effective(OptionsOf(w[d].fields), k) == Effective(OptionsOf(w[l].fields), k)
  {
    var options := Outcome(snap, w, name).value.options;
    ListedHasNoEmptyLists(snap, w, name);
    SameOptions(options, OptionsOf(w[l].fields));
    forall k: string
      ensures Effective(options, k) == Effective(OptionsOf(w[l].fields), k)
              <==> forall d: nat :: DecidesOption(snap, w, name, k, d) ==>
                     Effective(OptionsOf(w[d].fields), k) == Effective(OptionsOf(w[l].fields), k)
    {
      OptionAgrees(snap, w, name, l, k);
    }
  }

  /**
   A listing is honoured exactly when its name is not empty and it agrees with the listings that decide:
   on the type the last one whose type is not the snapshot's, on an option the snapshot has the last one
   of all, on any other option the last one that mentions it.
   */
  lemma HonouredExactly(snap: Package, w: seq<Item>, l: nat, merge: bool, gen: IdGen)
    requires Unambiguous(snap, w, gen) && l < |w| && NameOf(w[l].fields).Some?
    ensures Honoured(snap, w, l, merge, gen)
            <==> NameOf(w[l].fields).value != "" && DecidersAgree(snap, w, NameOf(w[l].fields).value, l)
  {
    var name := NameOf(w[l].fields).value;
    if name == "" {
      OverlaidExtends(snap, w, merge, gen);
      NamedNowhere(Overlaid(snap, w, merge, gen), name);
    } else {
      OutcomeIsFound(snap, w, name, merge, gen);
      OutcomeIsNamed(snap, w, name);
      assert Listing(name)(w[l]);
      TypeAgrees(snap, w, name, l);
      OptionsAgree(snap, w, name, l);
    }
  }

  ghost predicate ListedOnce(w: seq<Item>, l: nat)
    requires l < |w|
  {
    forall m :: 0 <= m < |w| && m != l ==> NameOf(w[m].fields) != NameOf(w[l].fields)
  }

  /** A name that is listed once is honoured, whatever the rest of the payload repeats. */
  lemma SoleListingIsHonoured(snap: Package, w: seq<Item>, l: nat, merge: bool, gen: IdGen)
    requires Unambiguous(snap, w, gen) && l < |w| && NameOf(w[l].fields).Some? && NameOf(w[l].fields).value != ""
    requires ListedOnce(w, l)
    ensures Honoured(snap, w, l, merge, gen)
  {
    HonouredExactly(snap, w, l, merge, gen);
  }

  /**
   A name listed twice: the second listing's values over the first's, less the snapshot's options that the
   second does not list; and the second listing's type unless the snapshot already shows it, then the first's.
   */
  lemma TwoListings(snap: Package, w: seq<Item>, j: nat, l: nat, name: string, merge: bool, gen: IdGen)
    requires Unambiguous(snap, w, gen) && name != "" && j < l < |w|
    requires forall m :: 0 <= m < |w| ==> (Listing(name)(w[m]) <==> m == j || m == l)
    ensures var prior, second := First(snap, Named(name)), OptionsOf(w[l].fields);
            First(Overlaid(snap, w, merge, gen), Named(name)) == Some(Section(
              name, if prior.Some? && prior.value.typ == w[l].typ then w[j].typ else w[l].typ, name, false,
              Assign(Stored(OptionsOf(w[j].fields)), second) - (PriorKeys(prior) - second.Keys)))
  {
    OutcomeIsFound(snap, w, name, merge, gen);
    TwoOutcomes(snap, w, j, l, name);
  }

  lemma TwoOutcomes(snap: Package, w: seq<Item>, j: nat, l: nat, name: string)
    requires WellFormed(snap) && j < l < |w|
    requires forall m :: 0 <= m < |w| ==> (Listing(name)(w[m]) <==> m == j || m == l)
    ensures Outcome(snap, w, name) == Some(Restated(First(snap, Named(name)), NewNamed(name, w[j]), w[l]))
  {
    OneOutcome(snap, w, j, l, name);
    OutcomeAt(snap, w, name, l);
    OutcomeSkips(snap, w, name, l + 1, |w|);
    assert w[..|w|] == w;
  }

  lemma OneOutcome(snap: Package, w: seq<Item>, j: nat, l: nat, name: string)
    requires WellFormed(snap) && j < l <= |w|
    requires forall m :: 0 <= m < l ==> (Listing(name)(w[m]) <==> m == j)
    ensures Outcome(snap, w[..l], name) == Some(NewNamed(name, w[j]))
  {
    OutcomeSkips(snap, w, name, 0, j);
    FirstListing(snap, w, name, j);
    OutcomeSkips(snap, w, name, j + 1, l);
  }

  lemma OutcomeAt(snap: Package, w: seq<Item>, name: string, n: nat)
    requires n < |w|
    ensures Outcome(snap, w[..n + 1], name)
            == if !Listing(name)(w[n]) then Outcome(snap, w[..n], name)
               else match Outcome(snap, w[..n], name)
                 case None => Some(NewNamed(name, w[n]))
                 case Some(t) => Some(Restated(First(snap, Named(name)), t, w[n]))
  {
    assert w[..n + 1][..n] == w[..n];
  }

  lemma {:induction false} OutcomeSkips(snap: Package, w: seq<Item>, name: string, from: nat, to: nat)
    requires from <= to <= |w| && forall m :: from <= m < to ==> !Listing(name)(w[m])
    ensures Outcome(snap, w[..to], name) == Outcome(snap, w[..from], name)
  {
    if from < to {
      OutcomeSkips(snap, w, name, from, to - 1);
      OutcomeAt(snap, w, name, to - 1);
    }
  }

  /** The first listing of a name leaves exactly itself. */
  lemma FirstListing(snap: Package, w: seq<Item>, name: string, j: nat)
    requires WellFormed(snap) && j < |w| && Listing(name)(w[j])
    requires Outcome(snap, w[..j], name) == Outcome(snap, w[..0], name)
    ensures Outcome(snap, w[..j + 1], name) == Some(NewNamed(name, w[j]))
  {
    OutcomeAt(snap, w, name, j);
    OutcomeIsNamed(snap, w[..0], name);
    var prior := First(snap, Named(name));
    if prior.Some? {
      OptionsSettle(prior.value.options, OptionsOf(w[j].fields));
    }
  }

  // ---------------------------------------------------------------- staging twice

  /** A later listing of the same name mentions every option this one sets, if there is a later one at all. */
  ghost predicate KeptUp(w: seq<Item>, d: nat, name: string)
    requires d < |w|
  {
    forall k: string :: Effective(OptionsOf(w[d].fields), k).Some? ==>
      IsLast(w, Listing(name), d) || !IsLast(w, Mentioning(name, k), d)
  }

  /** No empty names; all listings of a name have one type, and each option is last set by the last listing. */
  ghost predicate Repeatable(w: seq<Item>)
  {
    && "" !in KeepNames(w)
    && forall d: nat, name: string :: d < |w| && Listing(name)(w[d]) ==> KeptUp(w, d, name) && OneType(w, d, name)
  }

  ghost predicate OneType(w: seq<Item>, d: nat, name: string)
    requires d < |w|
  {
    forall l :: d < l < |w| && Listing(name)(w[l]) ==> w[l].typ == w[d].typ
  }

  /** In a repeatable payload the last listing of a name is honoured, whatever the snapshot shows. */
  lemma LastIsHonoured(snap: Package, w: seq<Item>, name: string, l: nat)
    requires WellFormed(snap) && Repeatable(w) && IsLast(w, Listing(name), l)
    ensures Outcome(snap, w, name) == Some(NewNamed(name, w[l]))
  {
    OutcomeIsNamed(snap, w, name);
    TypeAgrees(snap, w, name, l);
    forall d: nat | IsLast(w, Retyping(snap, name), d) ensures w[d].typ == w[l].typ {
      assert Listing(name)(w[d]);
      assert OneType(w, d, name);
    }
    OptionsAgree(snap, w, name, l);
    forall d: nat, k: string | DecidesOption(snap, w, name, k, d)
      ensures Effective(OptionsOf(w[d].fields), k) == Effective(OptionsOf(w[l].fields), k)
    {
      assert Listing(name)(w[d]);
      assert KeptUp(w, d, name);
      if d != l {
        assert IsLast(w, Mentioning(name, k), d) && !IsLast(w, Listing(name), d);
      }
    }
  }

  /** With distinct, non-empty names every payload is repeatable. */
  lemma DistinctNamesAreRepeatable(w: seq<Item>)
    requires NamesOk(w)
    ensures Repeatable(w) && AllPlaceable(w)
  {
    forall d: nat, name: string | d < |w| && Listing(name)(w[d]) ensures KeptUp(w, d, name) && OneType(w, d, name) {
      assert IsLast(w, Listing(name), d);
    }
  }

  // ---------------------------------------------------------------- anonymous sections by position

  /** The options of the anonymous sections of one type, in device order. */
  ghost function AnonContents(p: Package, typ: string): seq<Options>
  {
    seq(|AnonSlots(p, typ)|, k requires 0 <= k < |AnonSlots(p, typ)| => p[AnonSlots(p, typ)[k]].options)
  }

  ghost function DesiredContents(w: seq<Item>, typ: string): seq<Options>
  {
    seq(|AnonItems(w, typ)|, k requires 0 <= k < |AnonItems(w, typ)| => Stored(OptionsOf(AnonItems(w, typ)[k].fields)))
  }

  /** What is appended when n sections are there: desired ones beyond the n-th, and an empty one per empty name. */
  ghost function ExtraContents(n: nat, w: seq<Item>, typ: string): seq<Options>
  {
    if w == [] then []
    else
      var done, x := w[..|w| - 1], w[|w| - 1];
      ExtraContents(n, done, typ)
      + if x.typ != typ then []
        else match NameOf(x.fields)
          case Some(name) => if name == "" then [map[]] else []
          case None => if |AnonItems(done, typ)| < n then [] else [Stored(OptionsOf(x.fields))]
  }

  /**
   In merge mode the i-th section gets the i-th desired contents, surplus ones keep theirs, the extras follow; in
   any other mode all sections keep theirs and all desired ones follow.
   */
  ghost function ContentsAfter(found: seq<Options>, w: seq<Item>, typ: string, merge: bool): seq<Options>
  {
    if merge then Refilled(found, DesiredContents(w, typ)) + ExtraContents(|found|, w, typ)
    else found + ExtraContents(0, w, typ)
  }

  function Refilled(found: seq<Options>, desired: seq<Options>): seq<Options>
  {
    seq(|found|, k requires 0 <= k < |found| => if k < |desired| then desired[k] else found[k])
  }

  lemma RefilledSnoc(found: seq<Options>, desired: seq<Options>, c: Options)
    ensures Refilled(found, desired + [c])
            == if |desired| < |found| then Refilled(found, desired)[|desired| := c] else Refilled(found, desired)
  {
  }

  lemma RefilledInFront(found: seq<Options>, desired: seq<Options>)
    ensures desired <= Refilled(found, desired) + if |desired| <= |found| then [] else desired[|found|..]
  {
  }

  lemma ContentsUpdate(p: Package, i: nat, s: Section, typ: string)
    requires i < |p| && s.anonymous == p[i].anonymous && (s.anonymous ==> s.typ == p[i].typ)
    ensures AnonSlots(p[i := s], typ) == AnonSlots(p, typ)
    ensures forall k :: 0 <= k < |AnonSlots(p, typ)| ==>
              AnonContents(p[i := s], typ)[k] == if AnonSlots(p, typ)[k] == i then s.options else AnonContents(p, typ)[k]
  {
    AnonSlotsSame(p, p[i := s], typ);
  }

  lemma ContentsAppend(p: Package, s: Section, typ: string)
    ensures AnonContents(p + [s], typ) == AnonContents(p, typ) + if s.anonymous && s.typ == typ then [s.options] else []
  {
    AnonSlotsAppend(p, s, typ);
  }

  lemma {:induction false} SlotsStayInFront(snap: Package, p: Package, typ: string)
    requires |snap| <= |p| && forall i :: 0 <= i < |snap| ==> SameSection(snap[i], p[i])
    ensures AnonSlots(snap, typ) <= AnonSlots(p, typ)
  {
    if |p| == |snap| {
      AnonSlotsSame(snap, p, typ);
    } else {
      SlotsStayInFront(snap, p[..|p| - 1], typ);
    }
  }

  lemma DesiredSnoc(done: seq<Item>, x: Item, typ: string)
    ensures DesiredContents(done + [x], typ)
            == DesiredContents(done, typ)
               + if NameOf(x.fields).None? && x.typ == typ then [Stored(OptionsOf(x.fields))] else []
  {
    AnonItemsSnoc(done, x, typ);
  }

  /** One more item that has nothing to do with this type. */
  lemma AfterOthers(found: seq<Options>, done: seq<Item>, x: Item, typ: string, merge: bool)
    requires x.typ != typ || (NameOf(x.fields).Some? && NameOf(x.fields).value != "")
    ensures ContentsAfter(found, done + [x], typ, merge) == ContentsAfter(found, done, typ, merge)
  {
    var n := if merge then |found| else 0;
    DesiredSnoc(done, x, typ);
    ExtrasSnoc(n, done, x, typ);
    assert ExtraContents(n, done, typ) + [] == ExtraContents(n, done, typ);
    assert DesiredContents(done, typ) + [] == DesiredContents(done, typ);
  }

  lemma AfterEmptyName(found: seq<Options>, done: seq<Item>, x: Item, merge: bool)
    requires NameOf(x.fields) == Some("")
    ensures ContentsAfter(found, done + [x], x.typ, merge) == ContentsAfter(found, done, x.typ, merge) + [map[]]
  {
    var n := if merge then |found| else 0;
    DesiredSnoc(done, x, x.typ);
    ExtrasSnoc(n, done, x, x.typ);
    assert DesiredContents(done, x.typ) + [] == DesiredContents(done, x.typ);
    Regroup(if merge then Refilled(found, DesiredContents(done, x.typ)) else found, ExtraContents(n, done, x.typ), map[], 0);
  }

  /** One more desired section: it fills the next one there, or is added. */
  lemma AfterDesired(found: seq<Options>, done: seq<Item>, x: Item)
    requires NameOf(x.fields).None?
    ensures var was, n, c := ContentsAfter(found, done, x.typ, true), |AnonItems(done, x.typ)|, Stored(OptionsOf(x.fields));
            && (n < |found| ==> was[n] == found[n])
            && ContentsAfter(found, done + [x], x.typ, true) == if n < |found| then was[n := c] else was + [c]
  {
    var n, c := |AnonItems(done, x.typ)|, Stored(OptionsOf(x.fields));
    var filled, extras := Refilled(found, DesiredContents(done, x.typ)), ExtraContents(|found|, done, x.typ);
    DesiredSnoc(done, x, x.typ);
    RefilledSnoc(found, DesiredContents(done, x.typ), c);
    ExtrasSnoc(|found|, done, x, x.typ);
    Regroup(filled, extras, c, n);
    assert extras + [] == extras;
  }

  lemma AfterAppended(found: seq<Options>, done: seq<Item>, x: Item)
    requires NameOf(x.fields).None?
    ensures ContentsAfter(found, done + [x], x.typ, false)
            == ContentsAfter(found, done, x.typ, false) + [Stored(OptionsOf(x.fields))]
  {
    ExtrasSnoc(0, done, x, x.typ);
    Regroup(found, ExtraContents(0, done, x.typ), Stored(OptionsOf(x.fields)), 0);
  }

  lemma ExtrasSnoc(n: nat, done: seq<Item>, x: Item, typ: string)
    ensures ExtraContents(n, done + [x], typ)
            == ExtraContents(n, done, typ)
               + if x.typ != typ then []
                 else match NameOf(x.fields)
                   case Some(name) => if name == "" then [map[]] else []
                   case None => if |AnonItems(done, typ)| < n then [] else [Stored(OptionsOf(x.fields))]
  {
    assert (done + [x])[..|done|] == done;
  }

  lemma Regroup(a: seq<Options>, b: seq<Options>, c: Options, n: nat)
    ensures a + (b + [c]) == a + b + [c]
    ensures n < |a| ==> a[n := c] + b == (a + b)[n := c]
  {
  }

  /** Named sections, taken over or appended, leave the anonymous ones alone. */
  lemma NamedKeepsContents(snap: Package, p: Package, done: seq<Item>, x: Item, typ: string, merge: bool, gen: IdGen)
    requires Unambiguous(snap, done + [x], gen) && Extends(snap, p, KeepNames(done), gen)
    requires NameOf(x.fields).Some? && NameOf(x.fields).value != ""
    ensures AnonContents(Overlay(snap, p, done, x, merge, gen), typ) == AnonContents(p, typ)
  {
    var name := NameOf(x.fields).value;
    var i := FirstIndex(p, WithId(name));
    assert x in done + [x];
    assert forall y :: y in done ==> y in done + [x];
    ExtendsMore(snap, p, KeepNames(done), KeepNames(done + [x]), gen);
    if i < |p| {
      ListedIsNamed(snap, p, done + [x], name, i, gen);
      AnonSlotsFacts(p, typ);
      ContentsUpdate(p, i, Restated(First(snap, Named(name)), p[i], x), typ);
    } else {
      ContentsAppend(p, NewNamed(name, x), typ);
    }
  }

  lemma RestatedIsStored(prior: Section, t: Section, x: Item)
    requires t.options == prior.options
    ensures Restated(Some(prior), t, x).options == Stored(OptionsOf(x.fields))
  {
    OptionsSettle(t.options, OptionsOf(x.fields));
  }

  /** Writing to the n-th slot changes the n-th contents only. */
  lemma ContentsUpdateAt(p: Package, n: nat, s: Section, typ: string)
    requires n < |AnonSlots(p, typ)| && s.anonymous && s.typ == typ
    ensures AnonContents(p[AnonSlots(p, typ)[n] := s], typ) == AnonContents(p, typ)[n := s.options]
  {
    AnonSlotsFacts(p, typ);
    ContentsUpdate(p, AnonSlots(p, typ)[n], s, typ);
  }

  /** The slot of the next desired section is where it was in the snapshot. */
  lemma NextSlot(snap: Package, p: Package, done: seq<Item>, x: Item, gen: IdGen)
    requires Extends(snap, p, KeepNames(done), gen) && NameOf(x.fields).None? && Target(snap, done, x).Some?
    ensures var n := |AnonItems(done, x.typ)|;
            && n < |AnonSlots(snap, x.typ)| && n < |AnonSlots(p, x.typ)|
            && Target(snap, done, x) == Some(AnonSlots(snap, x.typ)[n]) && AnonSlots(p, x.typ)[n] == AnonSlots(snap, x.typ)[n]
            && p[AnonSlots(p, x.typ)[n]].anonymous && snap[AnonSlots(snap, x.typ)[n]].typ == p[AnonSlots(p, x.typ)[n]].typ == x.typ
  {
    AnonSlotsFacts(snap, x.typ);
    AnonSlotsFacts(p, x.typ);
    SlotsStayInFront(snap, p, x.typ);
  }

  /** A section of the type that is taken over: it is still as the snapshot shows it. */
  lemma TakenOver(snap: Package, p: Package, done: seq<Item>, x: Item, gen: IdGen)
    requires Extends(snap, p, KeepNames(done), gen) && NameOf(x.fields).None? && Target(snap, done, x).Some?
    requires AnonContents(p, x.typ) == ContentsAfter(AnonContents(snap, x.typ), done, x.typ, true)
    ensures AnonContents(Overlay(snap, p, done, x, true, gen), x.typ)
            == ContentsAfter(AnonContents(snap, x.typ), done + [x], x.typ, true)
  {
    var n, i := |AnonItems(done, x.typ)|, Target(snap, done, x).value;
    NextSlot(snap, p, done, x, gen);
    AfterDesired(AnonContents(snap, x.typ), done, x);
    assert p[i].options == AnonContents(p, x.typ)[n] == AnonContents(snap, x.typ)[n] == snap[i].options;
    RestatedIsStored(snap[i], p[i], x);
    ContentsUpdateAt(p, n, Restated(Some(snap[i]), p[i], x), x.typ);
  }

  lemma OtherTypeKeepsContents(snap: Package, p: Package, done: seq<Item>, x: Item, typ: string, merge: bool, gen: IdGen)
    requires Extends(snap, p, KeepNames(done), gen) && NameOf(x.fields).None? && Slot(snap, done, x, merge).Some? && x.typ != typ
    ensures AnonContents(Overlay(snap, p, done, x, merge, gen), typ) == AnonContents(p, typ)
  {
    var i := Slot(snap, done, x, merge).value;
    AnonSlotsFacts(snap, x.typ);
    AnonSlotsFacts(p, typ);
    ContentsUpdate(p, i, Restated(Some(snap[i]), p[i], x), typ);
  }

  lemma AnonymousStep(snap: Package, p: Package, done: seq<Item>, x: Item, typ: string, merge: bool, gen: IdGen)
    requires Unambiguous(snap, done + [x], gen) && Extends(snap, p, KeepNames(done), gen)
    requires AnonContents(p, typ) == ContentsAfter(AnonContents(snap, typ), done, typ, merge)
    ensures AnonContents(Overlay(snap, p, done, x, merge, gen), typ) == ContentsAfter(AnonContents(snap, typ), done + [x], typ, merge)
  {
    if x.typ != typ || (NameOf(x.fields).Some? && NameOf(x.fields).value != "") {
      AfterOthers(AnonContents(snap, typ), done, x, typ, merge);
      OthersKeepContents(snap, p, done, x, typ, merge, gen);
    } else if NameOf(x.fields).Some? {
      AfterEmptyName(AnonContents(snap, typ), done, x, merge);
      ContentsAppend(p, Section(gen(p), x.typ, gen(p), true, map[]), typ);
    } else if !merge {
      AfterAppended(AnonContents(snap, typ), done, x);
      ContentsAppend(p, Appended(p, x, gen), typ);
    } else if Target(snap, done, x).Some? {
      TakenOver(snap, p, done, x, gen);
    } else {
      AfterDesired(AnonContents(snap, typ), done, x);
      ContentsAppend(p, Appended(p, x, gen), typ);
    }
  }

  lemma OthersKeepContents(snap: Package, p: Package, done: seq<Item>, x: Item, typ: string, merge: bool, gen: IdGen)
    requires Unambiguous(snap, done + [x], gen) && Extends(snap, p, KeepNames(done), gen)
    requires x.typ != typ || (NameOf(x.fields).Some? && NameOf(x.fields).value != "")
    ensures AnonContents(Overlay(snap, p, done, x, merge, gen), typ) == AnonContents(p, typ)
  {
    match NameOf(x.fields) {
      case Some(name) =>
        if name == "" {
          ContentsAppend(p, Section(gen(p), x.typ, gen(p), true, map[]), typ);
        } else {
          NamedKeepsContents(snap, p, done, x, typ, merge, gen);
        }
      case None =>
        if Slot(snap, done, x, merge).None? {
          ContentsAppend(p, Appended(p, x, gen), typ);
        } else {
          OtherTypeKeepsContents(snap, p, done, x, typ, merge, gen);
        }
    }
  }

  /**
   Whatever the payload names, repeats or leaves empty. In merge mode: the i-th anonymous section of a type on the
   device gets the contents of the i-th desired one, keeping its position; surplus ones keep their contents; further
   desired ones follow in payload order, among them an empty section for each empty name. Without reuse: all of
   them keep position and contents, and all desired ones follow.
   */
  lemma {:induction false} AnonymousByPosition(snap: Package, w: seq<Item>, typ: string, merge: bool, gen: IdGen)
    requires Unambiguous(snap, w, gen)
    ensures AnonSlots(snap, typ) <= AnonSlots(Overlaid(snap, w, merge, gen), typ)
    ensures AnonContents(Overlaid(snap, w, merge, gen), typ) == ContentsAfter(AnonContents(snap, typ), w, typ, merge)
  {
    OverlaidExtends(snap, w, merge, gen);
    SlotsStayInFront(snap, Overlaid(snap, w, merge, gen), typ);
    if w != [] {
      var n := |w| - 1;
      assert w[..n] + [w[n]] == w;
      UnambiguousPrefix(snap, w, n, gen);
      OverlaidExtends(snap, w[..n], merge, gen);
      AnonymousByPosition(snap, w[..n], typ, merge, gen);
      AnonymousStep(snap, Overlaid(snap, w[..n], merge, gen), w[..n], w[n], typ, merge, gen);
    }
  }

  /** Without empty names, the extras are the desired contents that found no section. */
  lemma {:induction false} ExtrasAreDesired(n: nat, w: seq<Item>, typ: string)
    requires "" !in KeepNames(w)
    ensures ExtraContents(n, w, typ) == if |DesiredContents(w, typ)| <= n then [] else DesiredContents(w, typ)[n..]
  {
    if w != [] {
      var done, x := w[..|w| - 1], w[|w| - 1];
      assert done + [x] == w;
      assert x in w && forall y :: y in done ==> y in w;
      ExtrasAreDesired(n, done, typ);
      DesiredSnoc(done, x, typ);
    }
  }

  /** So the desired contents come first, and surplus ones of the device after them. */
  lemma DesiredComeFirst(snap: Package, w: seq<Item>, typ: string, gen: IdGen)
    requires Unambiguous(snap, w, gen) && "" !in KeepNames(w)
    ensures DesiredContents(w, typ) <= AnonContents(Overlaid(snap, w, true, gen), typ)
    ensures |AnonContents(snap, typ)| <= |DesiredContents(w, typ)| ==>
              AnonContents(Overlaid(snap, w, true, gen), typ) == DesiredContents(w, typ)
  {
    AnonymousByPosition(snap, w, typ, true, gen);
    ExtrasAreDesired(|AnonContents(snap, typ)|, w, typ);
    RefilledInFront(AnonContents(snap, typ), DesiredContents(w, typ));
  }

  // ---------------------------------------------------------------- the second pass

  /** What the payload lists is there: names, and anonymous sections with their options at their positions. */
  ghost predicate Present(r: Package, w: seq<Item>, j: nat)
    requires j < |w|
  {
    match NameOf(w[j].fields)
    case Some(name) => name != "" && First(r, Named(name)).Some?
    case None =>
      Target(r, w[..j], w[j]).Some?
      && r[Target(r, w[..j], w[j]).value].options == Stored(OptionsOf(w[j].fields))
  }

  ghost predicate SameAnonymous(r: Package, p: Package)
  {
    |p| == |r| && forall i :: 0 <= i < |r| && r[i].anonymous ==> p[i] == r[i]
  }

  lemma SecondStep(r: Package, p: Package, w: seq<Item>, n: nat, gen: IdGen)
    requires Unambiguous(r, w, gen) && n < |w| && Present(r, w, n)
    requires Extends(r, p, KeepNames(w[..n]), gen) && SameAnonymous(r, p)
    ensures SameAnonymous(r, Overlay(r, p, w[..n], w[n], true, gen))
  {
    assert w[..n + 1] == w[..n] + [w[n]];
    assert w[n] in w;
    UnambiguousPrefix(r, w, n, gen);
    match NameOf(w[n].fields) {
      case Some(name) =>
        ExtendsMore(r, p, KeepNames(w[..n]), KeepNames(w), gen);
        var k, i := FirstIndex(r, Named(name)), FirstIndex(p, WithId(name));
        assert WithId(name)(p[k]);
        ListedIsNamed(r, p, w, name, i, gen);
      case None =>
        AnonSlotsFacts(r, w[n].typ);
        var i := Target(r, w[..n], w[n]).value;
        RestatedIsStored(r[i], p[i], w[n]);
    }
  }

  lemma OverlaidAt(snap: Package, w: seq<Item>, n: nat, gen: IdGen)
    requires n < |w|
    ensures Overlaid(snap, w[..n + 1], true, gen) == Overlay(snap, Overlaid(snap, w[..n], true, gen), w[..n], w[n], true, gen)
  {
    assert w[..n + 1][..n] == w[..n];
  }

  ghost predicate AllPresentIn(r: Package, w: seq<Item>)
  {
    forall j: nat {:trigger Present(r, w, j)} :: j < |w| ==> Present(r, w, j)
  }

  lemma {:induction false} SecondPass(r: Package, w: seq<Item>, n: nat, gen: IdGen)
    requires Unambiguous(r, w, gen) && n <= |w| && AllPresentIn(r, w)
    ensures SameAnonymous(r, Overlaid(r, w[..n], true, gen))
  {
    if n > 0 {
      SecondPass(r, w, n - 1, gen);
      PassOne(r, Overlaid(r, w[..n - 1], true, gen), w, n - 1, gen);
      OverlaidAt(r, w, n - 1, gen);
    }
  }

  lemma PassOne(r: Package, p: Package, w: seq<Item>, n: nat, gen: IdGen)
    requires Unambiguous(r, w, gen) && n < |w| && AllPresentIn(r, w)
    requires p == Overlaid(r, w[..n], true, gen) && SameAnonymous(r, p)
    ensures SameAnonymous(r, Overlay(r, p, w[..n], w[n], true, gen))
  {
    UnambiguousPrefix(r, w, n, gen);
    OverlaidExtends(r, w[..n], true, gen);
    assert Present(r, w, n);
    SecondStep(r, p, w, n, gen);
  }

  lemma AllPresent(snap: Package, w: seq<Item>, j: nat, gen: IdGen)
    requires Unambiguous(snap, w, gen) && "" !in KeepNames(w) && j < |w|
    ensures Present(Overlaid(snap, w, true, gen), w, j)
  {
    var r := Overlaid(snap, w, true, gen);
    assert w[j] in w;
    match NameOf(w[j].fields) {
      case Some(name) =>
        assert Listing(name)(w[j]);
        OutcomeIsFound(snap, w, name, true, gen);
        OutcomeIsNamed(snap, w, name);
      case None =>
        DesiredComeFirst(snap, w, w[j].typ, gen);
        AnonItemAt(w, j);
        assert AnonContents(r, w[j].typ)[CountAnon(w[..j], w[j].typ)] == Stored(OptionsOf(w[j].fields));
    }
  }

  lemma StillUnambiguous(snap: Package, w: seq<Item>, gen: IdGen)
    requires Unambiguous(snap, w, gen)
    ensures Unambiguous(Overlaid(snap, w, true, gen), w, gen)
  {
    OverlaidExtends(snap, w, true, gen);
    var r := Overlaid(snap, w, true, gen);
    forall s | s in r && s.anonymous ensures s.id !in KeepNames(w) {
      var i :| 0 <= i < |r| && r[i] == s;
      if i < |snap| {
        assert snap[i] in snap;
      }
    }
  }

  /** Every name finds the same section after the second staging as after the first. */
  lemma SameNames(snap: Package, w: seq<Item>, name: string, gen: IdGen)
    requires Unambiguous(snap, w, gen) && Repeatable(w) && name != ""
    ensures var r := Overlaid(snap, w, true, gen);
            First(Overlaid(r, w, true, gen), Named(name)) == First(r, Named(name))
  {
    var r := Overlaid(snap, w, true, gen);
    StillUnambiguous(snap, w, gen);
    OutcomeIsFound(snap, w, name, true, gen);
    OutcomeIsFound(r, w, name, true, gen);
    LastExists(w, Listing(name));
    if Never(w, Listing(name)) {
      OutcomeUnlisted(r, w, name);
    } else {
      var l :| IsLast(w, Listing(name), l);
      LastIsHonoured(snap, w, name, l);
      LastIsHonoured(r, w, name, l);
    }
  }

  lemma RepeatableIsIdempotent(snap: Package, w: seq<Item>, gen: IdGen)
    requires Unambiguous(snap, w, gen) && Repeatable(w)
    ensures Overlaid(Overlaid(snap, w, true, gen), w, true, gen) == Overlaid(snap, w, true, gen)
  {
    var r := Overlaid(snap, w, true, gen);
    StillUnambiguous(snap, w, gen);
    forall j: nat | j < |w| ensures Present(r, w, j) {
      AllPresent(snap, w, j, gen);
    }
    SecondPass(r, w, |w|, gen);
    assert w[..|w|] == w;
    var q := Overlaid(r, w, true, gen);
    OverlaidExtends(r, w, true, gen);
    forall i | 0 <= i < |r| ensures q[i] == r[i] {
      if !r[i].anonymous {
        NamedAt(r, r[i].name, i);
        NamedAt(q, r[i].name, i);
        SameNames(snap, w, r[i].name, gen);
      }
    }
  }

  // ---------------------------------------------------------------- and only then

  function EmptyNames(w: seq<Item>): nat
  {
    if w == [] then 0 else EmptyNames(w[..|w| - 1]) + if Listing("")(w[|w| - 1]) then 1 else 0
  }

  /** Every section with an empty name adds one more anonymous section, each time it is staged. */
  lemma {:induction false} EmptyNamesGrow(snap: Package, w: seq<Item>, merge: bool, gen: IdGen)
    ensures |Overlaid(snap, w, merge, gen)| >= |snap| + EmptyNames(w)
    ensures "" in KeepNames(w) ==> EmptyNames(w) > 0
  {
    if w != [] {
      assert w == w[..|w| - 1] + [w[|w| - 1]];
      EmptyNamesGrow(snap, w[..|w| - 1], merge, gen);
    }
  }

  /** A section that lists another type somewhere is retyped by the second staging. */
  lemma SecondTypeDiffers(r: Package, w: seq<Item>, name: string, d: nat)
    requires d < |w| && Listing(name)(w[d]) && First(r, Named(name)).Some?
    requires w[d].typ != First(r, Named(name)).value.typ
    ensures Outcome(r, w, name) != First(r, Named(name))
  {
    assert Retyping(r, name)(w[d]);
    LastExists(w, Retyping(r, name));
    var e :| IsLast(w, Retyping(r, name), e);
    TypeLeft(r, w, name, e);
  }

  /** An option set by a listing and not mentioned again, although there is a later listing, comes or goes. */
  lemma SecondOptionDiffers(r: Package, w: seq<Item>, name: string, d: nat, k: string)
    requires IsLast(w, Mentioning(name, k), d) && !IsLast(w, Listing(name), d)
    requires Effective(OptionsOf(w[d].fields), k).Some?
    requires First(r, Named(name)).Some? && NoEmptyLists(First(r, Named(name)).value.options)
    ensures Outcome(r, w, name) != First(r, Named(name))
  {
    LastExists(w, Listing(name));
    assert Listing(name)(w[d]);
    var l: nat :| IsLast(w, Listing(name), l);
    if k in First(r, Named(name)).value.options {
      assert DecidesOption(r, w, name, k, l) && l > d;
      assert !Mentioning(name, k)(w[l]);
      OptionLeft(r, w, name, k, l);
    } else {
      assert DecidesOption(r, w, name, k, d);
      OptionLeft(r, w, name, k, d);
    }
  }

  lemma OtherwiseItDiffers(snap: Package, w: seq<Item>, gen: IdGen)
    requires Unambiguous(snap, w, gen) && !Repeatable(w)
    ensures Overlaid(Overlaid(snap, w, true, gen), w, true, gen) != Overlaid(snap, w, true, gen)
  {
    var r := Overlaid(snap, w, true, gen);
    StillUnambiguous(snap, w, gen);
    if "" in KeepNames(w) {
      EmptyNamesGrow(r, w, true, gen);
    } else {
      var d: nat, name: string :| d < |w| && Listing(name)(w[d]) && !(KeptUp(w, d, name) && OneType(w, d, name));
      assert w[d] in w && name != "";
      OutcomeIsFound(snap, w, name, true, gen);
      OutcomeIsFound(r, w, name, true, gen);
      OutcomeIsNamed(snap, w, name);
      ListedHasNoEmptyLists(snap, w, name);
      if !OneType(w, d, name) {
        var l :| d < l < |w| && Listing(name)(w[l]) && w[l].typ != w[d].typ;
        SecondTypeDiffers(r, w, name, if w[d].typ != First(r, Named(name)).value.typ then d else l);
      } else {
        var k: string :| Effective(OptionsOf(w[d].fields), k).Some?
                         && !IsLast(w, Listing(name), d) && IsLast(w, Mentioning(name, k), d);
        SecondOptionDiffers(r, w, name, d, k);
      }
    }
  }

  /**
   Merging succeeds exactly when no section with an empty name has options. Staging the result again then
   changes nothing exactly when no name is empty, all listings of a name have one type, and each option a
   listing sets is mentioned again by a later listing of that name, if there is one.
   */
  lemma MergeIsIdempotentExactly(snap: Package, w: seq<Item>, gen: IdGen)
    requires Unambiguous(snap, w, gen)
    ensures var first := Fold(snap, snap, true, w, gen);
            && (first.Some? <==> AllPlaceable(w))
            && (first.Some? ==> (Fold(first.value, first.value, true, w, gen) == first <==> Repeatable(w)))
  {
    StagingOverlays(snap, w, true, gen);
    StillUnambiguous(snap, w, gen);
    StagingOverlays(Overlaid(snap, w, true, gen), w, true, gen);
    if Repeatable(w) {
      RepeatableIsIdempotent(snap, w, gen);
    } else {
      OtherwiseItDiffers(snap, w, gen);
    }
  }

  /** A named section the payload does not list is left exactly as it was, in its place. */
  lemma UnlistedStays(snap: Package, w: seq<Item>, i: nat, merge: bool, gen: IdGen)
    requires Unambiguous(snap, w, gen) && i < |snap| && !snap[i].anonymous && Never(w, Listing(snap[i].name))
    ensures Overlaid(snap, w, merge, gen)[i] == snap[i]
  {
    OverlaidExtends(snap, w, merge, gen);
    OutcomeIsFound(snap, w, snap[i].name, merge, gen);
    OutcomeUnlisted(snap, w, snap[i].name);
    NamedAt(snap, snap[i].name, i);
    NamedAt(Overlaid(snap, w, merge, gen), snap[i].name, i);
  }

  // ---------------------------------------------------------------- inputs that show it

  function OneNamed(typ: string, name: string): Item
  {
    Item(typ, map[".name" := Str(name)])
  }

  lemma OneNamedHasNoOptions(typ: string, name: string)
    ensures NameOf(OneNamed(typ, name).fields) == Some(name) && OptionsOf(OneNamed(typ, name).fields) == map[]
  {
    assert Dotted(".name");
  }

  function OneOption(typ: string, name: string, key: string, text: string): Item
  {
    Item(typ, map[".name" := Str(name), key := Str(text)])
  }

  lemma OneOptionHasOne(typ: string, name: string, key: string, text: string)
    requires !Dotted(key)
    ensures NameOf(OneOption(typ, name, key, text).fields) == Some(name)
    ensures OptionsOf(OneOption(typ, name, key, text).fields) == map[key := Scalar(text)]
  {
    assert Dotted(".name");
  }

  /** A name that is on the device with the second listing's type keeps the first listing's. */
  lemma FirstTypeCanWin(gen: IdGen)
    requires FreshIds(gen) && forall q: Package :: gen(q) != "n"
    ensures First(Overlaid([Section("n", "B", "n", false, map[])], [OneNamed("A", "n"), OneNamed("B", "n")], true, gen), Named("n"))
            == Some(Section("n", "A", "n", false, map[]))
  {
    var snap := [Section("n", "B", "n", false, map[])];
    var w := [OneNamed("A", "n"), OneNamed("B", "n")];
    OneNamedHasNoOptions("A", "n");
    OneNamedHasNoOptions("B", "n");
    NamedAt(snap, "n", 0);
    TwoListings(snap, w, 0, 1, "n", true, gen);
  }

  lemma BothOptions(a: string, v: Value, b: string, u: Value)
    requires a != b && v != List([]) && u != List([])
    ensures Assign(Stored(map[a := v]), map[b := u]) - (PriorKeys(None) - map[b := u].Keys) == map[a := v, b := u]
  {
  }

  /** A new name listed under two types with one option each gets the second type and the options of both. */
  lemma OptionsOfBothSurvive(a: string, b: string, gen: IdGen)
    requires FreshIds(gen) && (forall q: Package :: gen(q) != "n") && a != b && !Dotted(a) && !Dotted(b)
    ensures First(Overlaid([], [OneOption("A", "n", a, "1"), OneOption("B", "n", b, "2")], true, gen), Named("n"))
            == Some(Section("n", "B", "n", false, map[a := Scalar("1"), b := Scalar("2")]))
  {
    OneOptionHasOne("A", "n", a, "1");
    OneOptionHasOne("B", "n", b, "2");
    TwoListings([], [OneOption("A", "n", a, "1"), OneOption("B", "n", b, "2")], 0, 1, "n", true, gen);
    BothOptions(a, Scalar("1"), b, Scalar("2"));
  }
}
