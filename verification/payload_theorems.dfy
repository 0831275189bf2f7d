/**
 What staging makes of a package config as it is written in the payload: which keys count, what ".mode" and
 ".delete" mean, when staging is possible, and what the package holds in the end.
 */
module PayloadTheorems {
  import opened Wrappers
  import opened Uci
  import opened SortedKeys
  import opened Staging
  import opened StagingLaws
  import opened Listings
  import opened ReplaceTheorems
  import opened StagingPossible

  // ---------------------------------------------------------------- the payload as written

  /** The i-th section listed under a type; keys with a dot in front are no types. */
  ghost predicate Listed(cfg: PkgConfig, typ: string, i: nat)
  {
    typ in cfg && !("." <= typ) && cfg[typ].Sections? && i < |cfg[typ].sections|
  }

  ghost predicate SectionsOnly(cfg: PkgConfig)
  {
    forall k :: k in cfg && !("." <= k) ==> cfg[k].Sections?
  }

  ghost predicate AsksDelete(cfg: PkgConfig)
  {
    ".delete" in cfg && cfg[".delete"] == Flag(true)
  }

  /** The mode is written out. */
  ghost predicate Says(cfg: PkgConfig, mode: string)
  {
    !AsksDelete(cfg) && ".mode" in cfg && cfg[".mode"] == Text(mode)
  }

  /** No mode, or one that is no text. */
  ghost predicate SaysNothing(cfg: PkgConfig)
  {
    !AsksDelete(cfg) && (".mode" in cfg ==> !cfg[".mode"].Text?)
  }

  ghost predicate HasName(fields: Fields, name: string)
  {
    ".name" in fields && fields[".name"] == Str(name)
  }

  /** The options are the fields without a dot in front, strings and other values as text, lists as lists, empty lists not at all. */
  ghost predicate ShowsFields(options: Options, fields: Fields)
  {
    && (forall k :: k in options <==> k in fields && !("." <= k) && fields[k] != Arr([]))
    && (forall k, text :: k in options && (fields[k] == Str(text) || fields[k] == Other(text)) ==> options[k] == Scalar(text))
    && (forall k, items :: k in options && fields[k] == Arr(items) ==> options[k] == List(items))
  }

  lemma DottedIs(key: string)
    ensures Dotted(key) <==> "." <= key
  {
  }

  lemma ShowsExactly(options: Options, fields: Fields)
    ensures ShowsFields(options, fields) <==> options == Stored(OptionsOf(fields))
  {
    var stored := Stored(OptionsOf(fields));
    forall k ensures k in stored <==> k in fields && !("." <= k) && fields[k] != Arr([]) {
      DottedIs(k);
    }
    assert ShowsFields(stored, fields);
    if ShowsFields(options, fields) {
      assert options.Keys == stored.Keys;
      forall k | k in options ensures options[k] == stored[k] {
        match fields[k] {
          case Str(text) => assert fields[k] == Str(text);
          case Other(text) => assert fields[k] == Other(text);
          case Arr(items) => assert fields[k] == Arr(items);
        }
      }
      assert options == stored;
    }
  }

  /** The package is to be deleted, or nothing but keys with a dot in front is there. */
  ghost predicate ListsNothing(cfg: PkgConfig)
  {
    AsksDelete(cfg) || forall k :: k in cfg ==> "." <= k
  }

  lemma NoKeysNoTypes(cfg: PkgConfig)
    requires forall k :: k in cfg ==> Dotted(k)
    ensures SectionTypes(cfg) == []
  {
    assert (set k | k in cfg && !Dotted(k)) == {};
  }

  lemma ListsNothingIs(cfg: PkgConfig)
    ensures ListsNothing(cfg) <==> SectionTypes(EffectiveConfig(cfg)) == []
  {
    var c := EffectiveConfig(cfg);
    forall k ensures Dotted(k) <==> "." <= k { DottedIs(k); }
    if SectionTypes(c) == [] {
      assert forall k :: k in c ==> Dotted(k) by {
        forall k | k in c ensures Dotted(k) { assert k !in SectionTypes(c); }
      }
    }
    if ListsNothing(cfg) {
      NoKeysNoTypes(c);
    }
  }

  // ---------------------------------------------------------------- the order of work

  /** How many sections are listed under these types. */
  ghost function ListedUnder(types: seq<string>, cfg: PkgConfig): nat
    requires forall t :: t in types ==> t in cfg && cfg[t].Sections?
  {
    if types == [] then 0 else ListedUnder(types[..|types| - 1], cfg) + |cfg[types[|types| - 1]].sections|
  }

  lemma {:induction false} WorkAt(types: seq<string>, cfg: PkgConfig, k: nat, i: nat)
    requires forall t :: t in types ==> t in cfg && cfg[t].Sections?
    requires k < |types| && i < |cfg[types[k]].sections|
    ensures |Work(types, cfg)| == ListedUnder(types, cfg)
    ensures ListedUnder(types[..k], cfg) + i < |Work(types, cfg)|
    ensures Work(types, cfg)[ListedUnder(types[..k], cfg) + i] == Item(types[k], cfg[types[k]].sections[i])
  {
    var n := |types| - 1;
    WorkLength(types, cfg);
    WorkLength(types[..n], cfg);
    if k < n {
      WorkAt(types[..n], cfg, k, i);
      assert types[..n][..k] == types[..k];
    }
  }

  lemma {:induction false} WorkLength(types: seq<string>, cfg: PkgConfig)
    requires forall t :: t in types ==> t in cfg && cfg[t].Sections?
    ensures |Work(types, cfg)| == ListedUnder(types, cfg)
  {
    if types != [] {
      WorkLength(types[..|types| - 1], cfg);
    }
  }

  lemma TypesAre(cfg: PkgConfig)
    requires SectionsOnly(cfg)
    ensures Parses(cfg) && forall t :: t in SectionTypes(cfg) ==> t in cfg && cfg[t].Sections?
    ensures Ascending(SectionTypes(cfg)) && forall t :: t in SectionTypes(cfg) <==> t in cfg && !("." <= t)
  {
  }

  /** All sections are staged type after type, the types ascending, and as listed within a type; there is no other work. */
  lemma WorkIsInOrder(cfg: PkgConfig, k: nat, i: nat)
    requires SectionsOnly(cfg)
    ensures Parses(cfg) && forall t :: t in SectionTypes(cfg) ==> t in cfg && cfg[t].Sections?
    ensures Ascending(SectionTypes(cfg)) && forall t :: t in SectionTypes(cfg) <==> t in cfg && !("." <= t)
    ensures |WorkOf(cfg)| == ListedUnder(SectionTypes(cfg), cfg)
    ensures k < |SectionTypes(cfg)| && i < |cfg[SectionTypes(cfg)[k]].sections| ==>
              var types := SectionTypes(cfg);
              var at := ListedUnder(types[..k], cfg) + i;
              at < |WorkOf(cfg)| && WorkOf(cfg)[at] == Item(types[k], cfg[types[k]].sections[i])
  {
    TypesAre(cfg);
    var types := SectionTypes(cfg);
    WorkLength(types, cfg);
    if k < |types| && i < |cfg[types[k]].sections| {
      WorkAt(types, cfg, k, i);
    }
  }

  lemma {:induction false} WorkMember(types: seq<string>, cfg: PkgConfig, x: Item)
    requires forall t :: t in types ==> t in cfg && cfg[t].Sections?
    ensures x in Work(types, cfg) <==> x.typ in types && x.fields in cfg[x.typ].sections
  {
    if types != [] {
      var front, last := types[..|types| - 1], types[|types| - 1];
      WorkMember(front, cfg, x);
      assert types == front + [last];
      var items := ItemsOf(last, cfg[last].sections);
      assert x in items <==> x.typ == last && x.fields in cfg[last].sections by {
        if x.typ == last && x.fields in cfg[last].sections {
          var i :| 0 <= i < |cfg[last].sections| && cfg[last].sections[i] == x.fields;
          assert items[i] == x;
        }
      }
    }
  }

  /** The work of a config is what it lists. */
  lemma WorkIsListed(cfg: PkgConfig, x: Item)
    requires SectionsOnly(cfg)
    ensures x in WorkOf(cfg) <==> exists i: nat :: Listed(cfg, x.typ, i) && cfg[x.typ].sections[i] == x.fields
  {
    WorkMember(SectionTypes(cfg), cfg, x);
    DottedIs(x.typ);
    if x in WorkOf(cfg) {
      var i :| 0 <= i < |cfg[x.typ].sections| && cfg[x.typ].sections[i] == x.fields;
      assert Listed(cfg, x.typ, i);
    }
  }

  // ---------------------------------------------------------------- when staging is possible

  /** A section without an empty name, or with nothing to set in it. */
  ghost predicate Fillable(fields: Fields)
  {
    HasName(fields, "") ==> forall k :: k in fields ==> "." <= k
  }

  ghost predicate Possible(cfg: PkgConfig)
  {
    AsksDelete(cfg) || (SectionsOnly(cfg) && forall typ, i: nat :: Listed(cfg, typ, i) ==> Fillable(cfg[typ].sections[i]))
  }

  lemma UnplaceableIs(x: Item)
    ensures Unplaceable(x) <==> !Fillable(x.fields)
  {
    forall k | k in x.fields ensures k in OptionsOf(x.fields) <==> !("." <= k) {
      DottedIs(k);
    }
    assert OptionsOf(x.fields) == map[] <==> forall k :: k in x.fields ==> k !in OptionsOf(x.fields);
  }

  lemma PlaceableIs(cfg: PkgConfig)
    requires SectionsOnly(cfg)
    ensures AllPlaceable(WorkOf(cfg)) <==> forall typ, i: nat :: Listed(cfg, typ, i) ==> Fillable(cfg[typ].sections[i])
  {
    if AllPlaceable(WorkOf(cfg)) {
      forall typ, i: nat | Listed(cfg, typ, i) ensures Fillable(cfg[typ].sections[i]) {
        var x := Item(typ, cfg[typ].sections[i]);
        WorkIsListed(cfg, x);
        UnplaceableIs(x);
      }
    }
    if forall typ, i: nat :: Listed(cfg, typ, i) ==> Fillable(cfg[typ].sections[i]) {
      forall x | x in WorkOf(cfg) ensures !Unplaceable(x) {
        WorkIsListed(cfg, x);
        UnplaceableIs(x);
      }
    }
  }

  lemma ModeIs(cfg: PkgConfig)
    ensures AsksDelete(cfg) <==> Deletes(cfg)
    ensures !AsksDelete(cfg) ==> EffectiveConfig(cfg) == cfg
    ensures forall mode :: Says(cfg, mode) ==> EffectiveMode(cfg) == mode
    ensures SaysNothing(cfg) ==> EffectiveMode(cfg) == "merge"
    ensures SectionsOnly(cfg) <==> Parses(cfg)
    ensures AsksDelete(cfg) || SaysNothing(cfg) || exists mode :: Says(cfg, mode)
  {
    assert !AsksDelete(cfg) && !SaysNothing(cfg) ==> Says(cfg, cfg[".mode"].text);
    assert forall k :: Dotted(k) <==> "." <= k by {
      forall k ensures Dotted(k) <==> "." <= k { DottedIs(k); }
    }
  }

  lemma SweepOfNothing(cur: Package, keep: set<string>)
    ensures Sweep([], cur, TypesOf([]), keep) == Some(cur)
  {
  }

  lemma StagedIsPossible(found: Package, read: bool, mode: string, w: seq<Item>, gen: IdGen)
    requires WellFormed(found) && FreshIds(gen)
    ensures var q := Staged(if read then found else [], found, mode, w, gen);
            (q.Some? <==> AllPlaceable(w)) && (q.Some? ==> WellFormed(q.value))
  {
    var snap := if read then found else [];
    var keep := KeepNames(w);
    if mode == "replace" && read {
      SweepLeavesSurvivors(found, keep);
      SurvivorsAreKept(found, keep);
      ReplaceIsMerge(found, w, keep, Survivors(found, keep), gen);
      CoversItself(Survivors(found, keep));
      FoldIsPossible(Survivors(found, keep), Survivors(found, keep), true, w, gen);
    } else {
      if mode == "replace" {
        SweepOfNothing(found, keep);
      }
      CoversItself(found);
      FoldIsPossible(snap, found, mode == "merge", w, gen);
    }
  }

  lemma CoversItself(p: Package)
    ensures Covers(p, p)
  {
  }

  /**
   Whatever mode the payload asks for, and whether or not the package could be read: staging can be carried out
   exactly if the package is to be deleted, or all its types hold sections and no section with an empty name sets
   an option.
   */
  lemma StagingIsPossibleExactly(found: Package, read: bool, cfg: PkgConfig, gen: IdGen)
    requires WellFormed(found) && FreshIds(gen)
    ensures StageRead(read, found, cfg, gen).Some? <==> Possible(cfg)
    ensures Possible(cfg) ==> WellFormed(StageRead(read, found, cfg, gen).value)
  {
    ModeIs(cfg);
    var c := EffectiveConfig(cfg);
    if AsksDelete(cfg) {
      assert SectionTypes(map[]) == [] && WorkOf(c) == [];
      StagedIsPossible(found, read, "replace", [], gen);
    } else if SectionsOnly(cfg) {
      PlaceableIs(cfg);
      StagedIsPossible(found, read, EffectiveMode(cfg), WorkOf(cfg), gen);
    }
  }

  // ---------------------------------------------------------------- what each mode stages

  /** No listed name is the id of an anonymous section, there or yet to be generated. */
  ghost predicate NoIdsNamed(found: Package, cfg: PkgConfig, gen: IdGen)
  {
    forall typ, i: nat, name :: Listed(cfg, typ, i) && HasName(cfg[typ].sections[i], name) ==>
      (forall s :: s in found && s.anonymous ==> s.id != name) && forall q: Package :: gen(q) != name
  }

  ghost predicate NamedByPayload(cfg: PkgConfig, name: string)
  {
    exists typ, i: nat :: Listed(cfg, typ, i) && HasName(cfg[typ].sections[i], name)
  }

  lemma KeepNamesAre(cfg: PkgConfig)
    requires SectionsOnly(cfg)
    ensures Parses(cfg)
    ensures forall name :: name in KeepNames(WorkOf(cfg)) <==> NamedByPayload(cfg, name)
  {
    ModeIs(cfg);
    forall name ensures name in KeepNames(WorkOf(cfg)) <==> NamedByPayload(cfg, name) {
      if name in KeepNames(WorkOf(cfg)) {
        var x :| x in WorkOf(cfg) && NameOf(x.fields) == Some(name);
        WorkIsListed(cfg, x);
      }
      if NamedByPayload(cfg, name) {
        var typ, i: nat :| Listed(cfg, typ, i) && HasName(cfg[typ].sections[i], name);
        var x := Item(typ, cfg[typ].sections[i]);
        WorkIsListed(cfg, x);
        assert NameOf(x.fields) == Some(name);
      }
    }
  }

  lemma NamesAreFree(found: Package, cfg: PkgConfig, gen: IdGen)
    requires SectionsOnly(cfg) && NoIdsNamed(found, cfg, gen)
    ensures Parses(cfg) && NamesFree(WorkOf(cfg), found, gen)
  {
    KeepNamesAre(cfg);
  }

  /**
   A payload that says replace: exactly the sections it names stay, in their order, and its listings are laid over
   them one by one.
   */
  lemma ReplaceStagesExactly(found: Package, cfg: PkgConfig, gen: IdGen)
    requires WellFormed(found) && FreshIds(gen) && NoIdsNamed(found, cfg, gen) && Says(cfg, "replace")
    ensures Stage(found, cfg, gen).Some? <==> Possible(cfg)
    ensures Possible(cfg) ==>
              var kept := Survivors(found, KeepNames(WorkOf(cfg)));
              && Stage(found, cfg, gen) == Some(Overlaid(kept, WorkOf(cfg), true, gen))
              && forall s :: s in kept <==> s in found && !s.anonymous && NamedByPayload(cfg, s.name)
  {
    StagingIsPossibleExactly(found, true, cfg, gen);
    ModeIs(cfg);
    if Possible(cfg) {
      NamesAreFree(found, cfg, gen);
      KeepNamesAre(cfg);
      SweptThenOverlaid(found, WorkOf(cfg), gen);
      PlaceableIs(cfg);
      SurvivorsAreKept(found, KeepNames(WorkOf(cfg)));
    }
  }

  /**
   A payload that says merge, or nothing: its listings are laid over the package as it is, one by one, and staging
   the result again is a no-op exactly if the payload is repeatable. With distinct names that is the merge.
   */
  lemma MergeStagesExactly(found: Package, cfg: PkgConfig, gen: IdGen)
    requires WellFormed(found) && FreshIds(gen) && NoIdsNamed(found, cfg, gen) && (Says(cfg, "merge") || SaysNothing(cfg))
    ensures Stage(found, cfg, gen).Some? <==> Possible(cfg)
    ensures Possible(cfg) ==>
              && Stage(found, cfg, gen) == Some(Overlaid(found, WorkOf(cfg), true, gen))
              && (Stage(Overlaid(found, WorkOf(cfg), true, gen), cfg, gen) == Stage(found, cfg, gen) <==> Repeatable(WorkOf(cfg)))
    ensures SectionsOnly(cfg) ==> Parses(cfg)
    ensures SectionsOnly(cfg) && NamesOk(WorkOf(cfg)) ==>
              Repeatable(WorkOf(cfg)) && Stage(found, cfg, gen) == Some(Merged(found, WorkOf(cfg), gen))
  {
    StagingIsPossibleExactly(found, true, cfg, gen);
    ModeIs(cfg);
    if SectionsOnly(cfg) {
      var w := WorkOf(cfg);
      NamesAreFree(found, cfg, gen);
      StagingOverlays(found, w, true, gen);
      PlaceableIs(cfg);
      MergeIsIdempotentExactly(found, w, gen);
      if NamesOk(w) {
        MergeIsExact(found, w, gen);
        DistinctNamesAreRepeatable(w);
      }
    }
  }

  /**
   A payload that says anything else: nothing is removed, no unnamed section is reused; every anonymous section of
   the package stays as it was, and the unnamed ones of the payload are added behind.
   */
  lemma OtherModesOnlyAdd(found: Package, cfg: PkgConfig, mode: string, gen: IdGen)
    requires WellFormed(found) && FreshIds(gen) && NoIdsNamed(found, cfg, gen)
    requires Says(cfg, mode) && mode != "merge" && mode != "replace"
    ensures Stage(found, cfg, gen).Some? <==> Possible(cfg)
    ensures Possible(cfg) ==>
              var r := Overlaid(found, WorkOf(cfg), false, gen);
              && Stage(found, cfg, gen) == Some(r)
              && (forall i :: 0 <= i < |found| ==> SameSection(found[i], r[i]) && (found[i].anonymous ==> r[i] == found[i]))
              && forall typ :: AnonContents(r, typ) == AnonContents(found, typ) + ExtraContents(0, WorkOf(cfg), typ)
  {
    StagingIsPossibleExactly(found, true, cfg, gen);
    ModeIs(cfg);
    if Possible(cfg) {
      var w := WorkOf(cfg);
      NamesAreFree(found, cfg, gen);
      StagingOverlays(found, w, false, gen);
      PlaceableIs(cfg);
      OverlaidExtends(found, w, false, gen);
      var r := Overlaid(found, w, false, gen);
      forall i | 0 <= i < |found| && found[i].anonymous ensures r[i] == found[i] {
        AnonymousStays(found, w, i, gen);
      }
      forall typ ensures AnonContents(r, typ) == AnonContents(found, typ) + ExtraContents(0, w, typ) {
        AnonymousByPosition(found, w, typ, false, gen);
      }
    }
  }

  lemma AnonymousStays(found: Package, w: seq<Item>, i: nat, gen: IdGen)
    requires Unambiguous(found, w, gen) && i < |found| && found[i].anonymous
    ensures Overlaid(found, w, false, gen)[i] == found[i]
  {
    var r, typ := Overlaid(found, w, false, gen), found[i].typ;
    OverlaidExtends(found, w, false, gen);
    AnonymousByPosition(found, w, typ, false, gen);
    AnonSlotsFacts(found, typ);
    var k :| 0 <= k < |AnonSlots(found, typ)| && AnonSlots(found, typ)[k] == i;
    assert AnonSlots(r, typ)[k] == i;
    assert AnonContents(r, typ)[k] == AnonContents(found, typ)[k];
  }

  // ---------------------------------------------------------------- what the package holds

  /** The sections without a name that is a string, in order. */
  function Unnamed(sections: seq<Fields>): seq<Fields>
  {
    if sections == [] then []
    else
      var last := sections[|sections| - 1];
      Unnamed(sections[..|sections| - 1]) + if ".name" in last && last[".name"].Str? then [] else [last]
  }

  ghost function UnnamedUnder(cfg: PkgConfig, typ: string): seq<Fields>
  {
    if typ in cfg && !("." <= typ) && cfg[typ].Sections? then Unnamed(cfg[typ].sections) else []
  }

  ghost predicate ShowAll(contents: seq<Options>, fields: seq<Fields>)
    requires |fields| <= |contents|
  {
    forall k :: 0 <= k < |fields| ==> ShowsFields(contents[k], fields[k])
  }

  lemma {:induction false} AnonItemsAdd(a: seq<Item>, b: seq<Item>, typ: string)
    ensures AnonItems(a + b, typ) == AnonItems(a, typ) + AnonItems(b, typ)
  {
    if b == [] {
      assert a + b == a;
    } else {
      assert a + b == (a + b[..|b| - 1]) + [b[|b| - 1]];
      AnonItemsAdd(a, b[..|b| - 1], typ);
    }
  }

  lemma {:induction false} AnonItemsUnder(under: string, sections: seq<Fields>, typ: string)
    ensures AnonItems(ItemsOf(under, sections), typ) == if under == typ then ItemsOf(typ, Unnamed(sections)) else []
  {
    if sections != [] {
      var n := |sections| - 1;
      AnonItemsUnder(under, sections[..n], typ);
      assert ItemsOf(under, sections)[..n] == ItemsOf(under, sections[..n]);
    }
  }

  lemma {:induction false} AnonItemsListed(types: seq<string>, cfg: PkgConfig, typ: string)
    requires Ascending(types) && forall t :: t in types ==> t in cfg && cfg[t].Sections?
    ensures AnonItems(Work(types, cfg), typ) == if typ in types then ItemsOf(typ, Unnamed(cfg[typ].sections)) else []
  {
    if types != [] {
      var front, last := types[..|types| - 1], types[|types| - 1];
      assert types == front + [last];
      AnonItemsListed(front, cfg, typ);
      AnonItemsAdd(Work(front, cfg), ItemsOf(last, cfg[last].sections), typ);
      AnonItemsUnder(last, cfg[last].sections, typ);
    }
  }

  lemma DesiredAt(cfg: PkgConfig, typ: string)
    requires SectionsOnly(cfg)
    ensures Parses(cfg) && |DesiredContents(WorkOf(cfg), typ)| == |UnnamedUnder(cfg, typ)|
    ensures forall k :: 0 <= k < |UnnamedUnder(cfg, typ)| ==>
              DesiredContents(WorkOf(cfg), typ)[k] == Stored(OptionsOf(UnnamedUnder(cfg, typ)[k]))
  {
    TypesAre(cfg);
    AnonItemsListed(SectionTypes(cfg), cfg, typ);
  }

  /** The desired anonymous contents of a type are what its unnamed sections list. */
  lemma DesiredAreListed(cfg: PkgConfig, typ: string)
    requires SectionsOnly(cfg)
    ensures Parses(cfg)
    ensures forall contents: seq<Options> :: AsListed(contents, UnnamedUnder(cfg, typ)) <==> contents == DesiredContents(WorkOf(cfg), typ)
  {
    DesiredAt(cfg, typ);
    OnlyOneShows(DesiredContents(WorkOf(cfg), typ), UnnamedUnder(cfg, typ));
  }

  ghost predicate AsListed(contents: seq<Options>, fields: seq<Fields>)
  {
    |contents| == |fields| && ShowAll(contents, fields)
  }

  lemma OnlyOneShows(desired: seq<Options>, listed: seq<Fields>)
    requires |desired| == |listed| && forall k :: 0 <= k < |listed| ==> desired[k] == Stored(OptionsOf(listed[k]))
    ensures ShowAll(desired, listed)
    ensures forall contents: seq<Options> :: AsListed(contents, listed) ==> contents == desired
  {
    forall k | 0 <= k < |listed| ensures ShowsFields(desired[k], listed[k]) {
      ShowsExactly(desired[k], listed[k]);
    }
    forall contents: seq<Options> | AsListed(contents, listed) ensures contents == desired {
      forall k | 0 <= k < |contents| ensures contents[k] == desired[k] {
        ShowsExactly(contents[k], listed[k]);
      }
    }
  }

  /** The package has a section of this name with the type it is listed under and exactly the listed options. */
  ghost predicate HasSection(r: Package, name: string, typ: string, fields: Fields)
  {
    exists s :: s in r && !s.anonymous && s.name == name && s.typ == typ && ShowsFields(s.options, fields)
  }

  /**
   The package is the payload: no named section that is not listed, every named listing with its type and
   options, and per type the anonymous contents in the order of the unnamed listings.
   */
  ghost predicate HoldsExactly(r: Package, cfg: PkgConfig)
  {
    && (forall s :: s in r && !s.anonymous ==> NamedByPayload(cfg, s.name))
    && AllThere(r, cfg)
    && (forall typ :: AsListed(AnonContents(r, typ), UnnamedUnder(cfg, typ)))
  }

  lemma HasSectionIs(r: Package, name: string, typ: string, fields: Fields)
    requires WellFormed(r)
    ensures HasSection(r, name, typ, fields)
            <==> First(r, Named(name)) == Some(Section(name, typ, name, false, Stored(OptionsOf(fields))))
  {
    if HasSection(r, name, typ, fields) {
      var s :| s in r && !s.anonymous && s.name == name && s.typ == typ && ShowsFields(s.options, fields);
      var i :| 0 <= i < |r| && r[i] == s;
      NamedAt(r, name, i);
      ShowsExactly(s.options, fields);
    }
    ShowsExactly(Stored(OptionsOf(fields)), fields);
  }

  ghost predicate AllThere(r: Package, cfg: PkgConfig)
  {
    forall typ, i: nat, name :: Listed(cfg, typ, i) && HasName(cfg[typ].sections[i], name) ==>
      HasSection(r, name, typ, cfg[typ].sections[i])
  }

  lemma NamesAreListed(r: Package, cfg: PkgConfig)
    requires WellFormed(r) && SectionsOnly(cfg)
    ensures Parses(cfg) && (AllFirst(r, WorkOf(cfg)) <==> AllThere(r, cfg))
  {
    ModeIs(cfg);
    var w := WorkOf(cfg);
    if AllFirst(r, w) {
      forall typ, i: nat, name | Listed(cfg, typ, i) && HasName(cfg[typ].sections[i], name)
        ensures HasSection(r, name, typ, cfg[typ].sections[i])
      {
        var x := Item(typ, cfg[typ].sections[i]);
        WorkIsListed(cfg, x);
        assert IsFirst(r, x, name);
        HasSectionIs(r, name, typ, x.fields);
      }
    }
    if AllThere(r, cfg) {
      forall x | x in w && NameOf(x.fields).Some? ensures IsFirst(r, x, NameOf(x.fields).value) {
        WorkIsListed(cfg, x);
        assert HasName(x.fields, NameOf(x.fields).value);
        HasSectionIs(r, NameOf(x.fields).value, x.typ, x.fields);
      }
    }
  }

  lemma HoldsExactlyIs(r: Package, cfg: PkgConfig)
    requires WellFormed(r) && SectionsOnly(cfg)
    ensures Parses(cfg) && (HoldsExactly(r, cfg) <==> IsExactly(r, WorkOf(cfg)))
  {
    KeepNamesAre(cfg);
    NamesAreListed(r, cfg);
    AnonymousAreListed(r, cfg);
  }

  lemma AnonymousAreListed(r: Package, cfg: PkgConfig)
    requires SectionsOnly(cfg)
    ensures Parses(cfg)
    ensures AllContents(r, WorkOf(cfg)) <==> forall typ :: AsListed(AnonContents(r, typ), UnnamedUnder(cfg, typ))
  {
    ModeIs(cfg);
    forall typ ensures AnonContents(r, typ) == DesiredContents(WorkOf(cfg), typ) <==> AsListed(AnonContents(r, typ), UnnamedUnder(cfg, typ)) {
      DesiredAreListed(cfg, typ);
    }
  }

  /**
   A payload that says replace leaves exactly itself, whatever was there, if and only if all its types hold
   sections, no name is empty and every named listing agrees with the listings that decide on its name.
   */
  lemma ReplaceYieldsPayloadExactly(found: Package, cfg: PkgConfig, gen: IdGen)
    requires WellFormed(found) && FreshIds(gen) && NoIdsNamed(found, cfg, gen) && Says(cfg, "replace")
    ensures SectionsOnly(cfg) ==> Parses(cfg)
    ensures (Stage(found, cfg, gen).Some? && HoldsExactly(Stage(found, cfg, gen).value, cfg))
            <==> SectionsOnly(cfg) && !NamedByPayload(cfg, "") && ListingsAgree(Survivors(found, KeepNames(WorkOf(cfg))), WorkOf(cfg))
  {
    ModeIs(cfg);
    StagingIsPossibleExactly(found, true, cfg, gen);
    if SectionsOnly(cfg) {
      var w := WorkOf(cfg);
      NamesAreFree(found, cfg, gen);
      KeepNamesAre(cfg);
      SurvivorsEndAsListed(found, w, gen);
      ReplaceStagesExactly(found, cfg, gen);
      if Possible(cfg) {
        HoldsExactlyIs(Stage(found, cfg, gen).value, cfg);
      }
    }
  }

  /** Every section of the payload has another name, and none is empty. */
  ghost predicate DistinctNames(cfg: PkgConfig)
  {
    && !NamedByPayload(cfg, "")
    && forall typ, i: nat, u, j: nat, name ::
         Listed(cfg, typ, i) && Listed(cfg, u, j) && HasName(cfg[typ].sections[i], name) && HasName(cfg[u].sections[j], name) ==>
           typ == u && i == j
  }

  lemma {:induction false} WorkPosition(types: seq<string>, cfg: PkgConfig, at: nat) returns (k: nat, i: nat)
    requires forall t :: t in types ==> t in cfg && cfg[t].Sections?
    requires at < |Work(types, cfg)|
    ensures k < |types| && i < |cfg[types[k]].sections| && at == ListedUnder(types[..k], cfg) + i
  {
    var n := |types| - 1;
    WorkLength(types[..n], cfg);
    if at < |Work(types[..n], cfg)| {
      k, i := WorkPosition(types[..n], cfg, at);
      assert types[..n][..k] == types[..k];
    } else {
      k, i := n, at - |Work(types[..n], cfg)|;
    }
  }

  /** Each piece of work is a listing, and different pieces are different listings. */
  lemma WorkIsListing(cfg: PkgConfig, at: nat) returns (k: nat, i: nat)
    requires SectionsOnly(cfg) && Parses(cfg) && at < |WorkOf(cfg)|
    ensures var types := SectionTypes(cfg);
            && (forall t :: t in types ==> t in cfg && cfg[t].Sections?)
            && k < |types| && Listed(cfg, types[k], i) && at == ListedUnder(types[..k], cfg) + i
            && WorkOf(cfg)[at] == Item(types[k], cfg[types[k]].sections[i])
  {
    k, i := WorkPosition(SectionTypes(cfg), cfg, at);
    WorkAt(SectionTypes(cfg), cfg, k, i);
    DottedIs(SectionTypes(cfg)[k]);
  }

  lemma NamesDiffer(cfg: PkgConfig, a: nat, b: nat)
    requires SectionsOnly(cfg) && Parses(cfg) && DistinctNames(cfg) && a < b < |WorkOf(cfg)|
    requires NameOf(WorkOf(cfg)[a].fields).Some?
    ensures NameOf(WorkOf(cfg)[a].fields) != NameOf(WorkOf(cfg)[b].fields)
  {
    var k, i := WorkIsListing(cfg, a);
    var l, j := WorkIsListing(cfg, b);
    var types, name := SectionTypes(cfg), NameOf(WorkOf(cfg)[a].fields).value;
    assert HasName(cfg[types[k]].sections[i], name);
    var same := types[k] == types[l] && i == j;
    assert HasName(cfg[types[l]].sections[j], name) ==> same;
  }

  lemma DistinctNamesAreOk(cfg: PkgConfig)
    requires SectionsOnly(cfg) && DistinctNames(cfg)
    ensures Parses(cfg) && NamesOk(WorkOf(cfg))
  {
    KeepNamesAre(cfg);
    var w := WorkOf(cfg);
    forall a, b | 0 <= a < b < |w| && NameOf(w[a].fields).Some? ensures NameOf(w[a].fields) != NameOf(w[b].fields) {
      NamesDiffer(cfg, a, b);
    }
    forall x | x in w && NameOf(x.fields).Some? ensures NameOf(x.fields).value != "" {
      assert NameOf(x.fields).value in KeepNames(w);
    }
  }

  /** So with distinct names a payload that says replace always leaves exactly itself. */
  lemma ReplaceYieldsPayload(found: Package, cfg: PkgConfig, gen: IdGen)
    requires WellFormed(found) && FreshIds(gen) && NoIdsNamed(found, cfg, gen) && Says(cfg, "replace")
    requires SectionsOnly(cfg) && DistinctNames(cfg)
    ensures Stage(found, cfg, gen).Some? && HoldsExactly(Stage(found, cfg, gen).value, cfg)
  {
    DistinctNamesAreOk(cfg);
    DistinctNamesAgree(Survivors(found, KeepNames(WorkOf(cfg))), WorkOf(cfg));
    ReplaceYieldsPayloadExactly(found, cfg, gen);
  }

  /** A true ".delete" empties the package, whatever else is listed and whatever the mode. */
  lemma DeleteEmptiesPackage(found: Package, cfg: PkgConfig, gen: IdGen)
    requires WellFormed(found) && AsksDelete(cfg)
    ensures Stage(found, cfg, gen) == Some([])
  {
    ModeIs(cfg);
    assert SectionTypes(map[]) == [];
    SweepLeavesSurvivors(found, {});
    TypesCover(found);
    AllDropped(found, Doomed(found, TypesOf(found), {}));
    assert KeepNames([]) == {};
  }

  /** No other section of the payload has this name. */
  ghost predicate OnlyListing(cfg: PkgConfig, typ: string, i: nat, name: string)
    requires Listed(cfg, typ, i)
  {
    && HasName(cfg[typ].sections[i], name)
    && forall u, j: nat :: Listed(cfg, u, j) && HasName(cfg[u].sections[j], name) ==> u == typ && j == i
  }

  /** In any mode a non-empty name that is listed once ends with the type it is listed under and exactly its options. */
  lemma ListedOnceIsHeld(snap: Package, cfg: PkgConfig, typ: string, i: nat, name: string, merge: bool, gen: IdGen)
    requires WellFormed(snap) && FreshIds(gen) && NoIdsNamed(snap, cfg, gen) && SectionsOnly(cfg)
    requires Listed(cfg, typ, i) && OnlyListing(cfg, typ, i, name) && name != ""
    ensures Parses(cfg) && HasSection(Overlaid(snap, WorkOf(cfg), merge, gen), name, typ, cfg[typ].sections[i])
  {
    NamesAreFree(snap, cfg, gen);
    var w, types := WorkOf(cfg), SectionTypes(cfg);
    var x := Item(typ, cfg[typ].sections[i]);
    WorkIsListed(cfg, x);
    var l: nat :| l < |w| && w[l] == x;
    forall m | 0 <= m < |w| && m != l ensures NameOf(w[m].fields) != Some(name) {
      ListedElsewhere(cfg, typ, i, name, l, m);
    }
    SoleListingIsHonoured(snap, w, l, merge, gen);
    OverlaidExtends(snap, w, merge, gen);
    HasSectionIs(Overlaid(snap, w, merge, gen), name, typ, x.fields);
  }

  lemma ListedElsewhere(cfg: PkgConfig, typ: string, i: nat, name: string, l: nat, m: nat)
    requires SectionsOnly(cfg) && Parses(cfg) && Listed(cfg, typ, i) && OnlyListing(cfg, typ, i, name)
    requires l < |WorkOf(cfg)| && m < |WorkOf(cfg)| && l != m && WorkOf(cfg)[l] == Item(typ, cfg[typ].sections[i])
    ensures NameOf(WorkOf(cfg)[m].fields) != Some(name)
  {
    var types := SectionTypes(cfg);
    var k, j := WorkIsListing(cfg, m);
    var n, h := WorkIsListing(cfg, l);
    assert HasName(cfg[types[n]].sections[h], name);
    assert types[n] == typ && h == i;
    var u, v := types[k], types[n];
    var same := u == typ && j == i;
    assert HasName(cfg[u].sections[j], name) ==> same;
    assert same ==> u == v;
  }

  /**
   A payload that says merge, or nothing, and has no empty name. A name listed once ends exactly as listed; the first
   anonymous sections of a type show the unnamed listings of that type, in order; nothing is removed, and what the
   payload does not list by name or reach by position is left as it was.
   */
  lemma MergeYieldsPayload(found: Package, cfg: PkgConfig, gen: IdGen)
    requires WellFormed(found) && FreshIds(gen) && NoIdsNamed(found, cfg, gen) && (Says(cfg, "merge") || SaysNothing(cfg))
    requires SectionsOnly(cfg) && !NamedByPayload(cfg, "")
    ensures Stage(found, cfg, gen).Some?
    ensures var r := Stage(found, cfg, gen).value;
            && |found| <= |r|
            && (forall typ, i: nat, name :: Listed(cfg, typ, i) && OnlyListing(cfg, typ, i, name) ==>
                  HasSection(r, name, typ, cfg[typ].sections[i]))
            && (forall typ :: |UnnamedUnder(cfg, typ)| <= |AnonContents(r, typ)| && ShowAll(AnonContents(r, typ), UnnamedUnder(cfg, typ)))
            && (forall i :: 0 <= i < |found| ==> SameSection(found[i], r[i]))
            && (forall i :: 0 <= i < |found| && !found[i].anonymous && !NamedByPayload(cfg, found[i].name) ==> r[i] == found[i])
            && (forall typ, k :: |UnnamedUnder(cfg, typ)| <= k < |AnonSlots(found, typ)| ==>
                  r[AnonSlots(found, typ)[k]] == found[AnonSlots(found, typ)[k]])
  {
    NamesAreFree(found, cfg, gen);
    KeepNamesAre(cfg);
    assert Possible(cfg);
    MergeStagesExactly(found, cfg, gen);
    var w := WorkOf(cfg);
    var r := Overlaid(found, w, true, gen);
    OverlaidExtends(found, w, true, gen);
    forall typ, i: nat, name | Listed(cfg, typ, i) && OnlyListing(cfg, typ, i, name)
      ensures HasSection(r, name, typ, cfg[typ].sections[i]) {
      ListedOnceIsHeld(found, cfg, typ, i, name, true, gen);
    }
    MergeShowsUnnamed(found, cfg, gen);
    MergeLeavesRest(found, cfg, gen);
  }

  lemma MergeShowsUnnamed(found: Package, cfg: PkgConfig, gen: IdGen)
    requires WellFormed(found) && FreshIds(gen) && NoIdsNamed(found, cfg, gen) && SectionsOnly(cfg) && !NamedByPayload(cfg, "")
    ensures Parses(cfg)
    ensures var r := Overlaid(found, WorkOf(cfg), true, gen);
            forall typ :: |UnnamedUnder(cfg, typ)| <= |AnonContents(r, typ)| && ShowAll(AnonContents(r, typ), UnnamedUnder(cfg, typ))
  {
    NamesAreFree(found, cfg, gen);
    KeepNamesAre(cfg);
    var r := Overlaid(found, WorkOf(cfg), true, gen);
    forall typ ensures |UnnamedUnder(cfg, typ)| <= |AnonContents(r, typ)| && ShowAll(AnonContents(r, typ), UnnamedUnder(cfg, typ)) {
      DesiredAreListed(cfg, typ);
      assert AsListed(DesiredContents(WorkOf(cfg), typ), UnnamedUnder(cfg, typ));
      DesiredComeFirst(found, WorkOf(cfg), typ, gen);
    }
  }

  lemma MergeLeavesRest(found: Package, cfg: PkgConfig, gen: IdGen)
    requires WellFormed(found) && FreshIds(gen) && NoIdsNamed(found, cfg, gen) && SectionsOnly(cfg)
    ensures Parses(cfg)
    ensures var r := Overlaid(found, WorkOf(cfg), true, gen);
            && (forall i :: 0 <= i < |found| && !found[i].anonymous && !NamedByPayload(cfg, found[i].name) ==> r[i] == found[i])
            && (forall typ, k :: |UnnamedUnder(cfg, typ)| <= k < |AnonSlots(found, typ)| ==>
                  r[AnonSlots(found, typ)[k]] == found[AnonSlots(found, typ)[k]])
  {
    NamesAreFree(found, cfg, gen);
    KeepNamesAre(cfg);
    var w := WorkOf(cfg);
    var r := Overlaid(found, w, true, gen);
    forall i | 0 <= i < |found| && !found[i].anonymous && !NamedByPayload(cfg, found[i].name) ensures r[i] == found[i] {
      assert forall x :: x in w ==> NameOf(x.fields) != Some(found[i].name);
      UnlistedStays(found, w, i, true, gen);
    }
    forall typ, k | |UnnamedUnder(cfg, typ)| <= k < |AnonSlots(found, typ)|
      ensures r[AnonSlots(found, typ)[k]] == found[AnonSlots(found, typ)[k]] {
      DesiredAt(cfg, typ);
      SurplusStays(found, w, typ, k, gen);
    }
  }

  lemma SurplusStays(found: Package, w: seq<Item>, typ: string, k: nat, gen: IdGen)
    requires Unambiguous(found, w, gen) && |DesiredContents(w, typ)| <= k < |AnonSlots(found, typ)|
    ensures Overlaid(found, w, true, gen)[AnonSlots(found, typ)[k]] == found[AnonSlots(found, typ)[k]]
  {
    var r, i := Overlaid(found, w, true, gen), AnonSlots(found, typ)[k];
    OverlaidExtends(found, w, true, gen);
    AnonymousByPosition(found, w, typ, true, gen);
    AnonSlotsFacts(found, typ);
    assert AnonSlots(r, typ)[k] == i;
    assert AnonContents(r, typ)[k] == AnonContents(found, typ)[k];
  }
}
