/**
 What staging one package does, as functions on packages (internal/apply/applier.go): the
 specification the Applier's methods are proved against, operation by operation, including the
 writes that fail because the section they address is not there.
 */
module Staging {
  import opened Wrappers
  import opened Uci
  import opened SortedKeys

  // ---------------------------------------------------------------- payload

  /** A decoded field of a desired section: a string, a list, or anything else in its printed form. */
  datatype Field = Str(text: string) | Arr(items: seq<string>) | Other(text: string)

  type Fields = map<string, Field>

  /** One desired section together with the section type it is listed under. */
  datatype Item = Item(typ: string, fields: Fields)

  /** A decoded value in a package config: sections under a section type, or a meta-key's value. */
  datatype Entry = Text(text: string) | Flag(on: bool) | Sections(sections: seq<Fields>) | Junk

  type PkgConfig = map<string, Entry>

  predicate Dotted(key: string)
  {
    key != "" && key[0] == '.'
  }

  function NameOf(fields: Fields): Option<string>
  {
    if ".name" in fields && fields[".name"].Str? then Some(fields[".name"].text) else None
  }

  function Render(f: Field): Value
  {
    if f.Arr? then List(f.items) else Scalar(f.text)
  }

  function OptionsOf(fields: Fields): Options
  {
    map k | k in fields && !Dotted(k) :: Render(fields[k])
  }

  function DeclaredMode(cfg: PkgConfig): string
  {
    if ".mode" in cfg && cfg[".mode"].Text? then cfg[".mode"].text else "merge"
  }

  predicate Deletes(cfg: PkgConfig)
  {
    ".delete" in cfg && cfg[".delete"] == Flag(true)
  }

  function SectionTypes(cfg: PkgConfig): seq<string>
  {
    Sorted(set k | k in cfg && !Dotted(k))
  }

  predicate Parses(cfg: PkgConfig)
  {
    forall k :: k in cfg && !Dotted(k) ==> cfg[k].Sections?
  }

  /** All desired sections in staging order: by section type, then as listed. */
  function ItemsOf(typ: string, sections: seq<Fields>): (items: seq<Item>)
    ensures |items| == |sections|
  {
    seq(|sections|, i requires 0 <= i < |sections| => Item(typ, sections[i]))
  }

  function Work(types: seq<string>, cfg: PkgConfig): seq<Item>
    requires forall t :: t in types ==> t in cfg && cfg[t].Sections?
  {
    if types == [] then []
    else
      var last := types[|types| - 1];
      Work(types[..|types| - 1], cfg) + ItemsOf(last, cfg[last].sections)
  }

  // ---------------------------------------------------------------- one section

  function Created(snap: Package, cur: Package, typ: string, name: string, gen: IdGen): Option<Package>
  {
    CreatedOrRetyped(First(snap, Named(name)), cur, typ, name, gen)
  }

  function Filled(cur: Package, id: string, values: Options): Option<Package>
  {
    if values == map[] then Some(cur) else SetOptions(cur, id, values)
  }

  function Cleaned(cur: Package, id: string, prior: Option<Section>, desired: set<string>): Option<Package>
  {
    if prior.None? || prior.value.options.Keys <= desired then Some(cur)
    else DropOptions(cur, id, prior.value.options.Keys - desired)
  }

  function ApplyItem(snap: Package, cur: Package, x: Item, reuse: string, gen: IdGen): Option<Package>
  {
    var values := OptionsOf(x.fields);
    match NameOf(x.fields)
    case Some(name) =>
      var created :- Created(snap, cur, x.typ, name, gen);
      var filled :- Filled(created, name, values);
      Cleaned(filled, name, First(snap, Named(name)), values.Keys)
    case None =>
      if reuse != "" then
        var filled :- Filled(cur, reuse, values);
        Cleaned(filled, reuse, First(snap, WithId(reuse)), values.Keys)
      else
        Filled(AddSection(cur, x.typ, "", gen), gen(cur), values)
  }

  // ---------------------------------------------------------------- all sections

  /** Ids of the anonymous sections of one type, in device order. */
  function AnonIds(p: Package, typ: string): seq<string>
  {
    if p == [] then []
    else
      var s := p[|p| - 1];
      AnonIds(p[..|p| - 1], typ) + (if s.anonymous && s.typ == typ then [s.id] else [])
  }

  /** How many anonymous sections of one type a stretch of work contains. */
  function CountAnon(w: seq<Item>, typ: string): nat
  {
    if w == [] then 0
    else
      var x := w[|w| - 1];
      CountAnon(w[..|w| - 1], typ) + (if NameOf(x.fields).None? && x.typ == typ then 1 else 0)
  }

  /** The anonymous section that x takes over, by position among its type, or "". */
  function ReuseId(snap: Package, merge: bool, done: seq<Item>, x: Item): string
  {
    if NameOf(x.fields).Some? || !merge then ""
    else
      var ids := AnonIds(snap, x.typ);
      var k := CountAnon(done, x.typ);
      if k < |ids| then ids[k] else ""
  }

  function Fold(snap: Package, start: Package, merge: bool, w: seq<Item>, gen: IdGen): Option<Package>
  {
    if w == [] then Some(start)
    else
      var done, x := w[..|w| - 1], w[|w| - 1];
      var cur :- Fold(snap, start, merge, done, gen);
      ApplyItem(snap, cur, x, ReuseId(snap, merge, done, x), gen)
  }

  // ---------------------------------------------------------------- replace mode

  function KeepNames(w: seq<Item>): set<string>
  {
    set x | x in w && NameOf(x.fields).Some? :: NameOf(x.fields).value
  }

  predicate Kept(s: Section, keep: set<string>)
  {
    !s.anonymous && s.name in keep
  }

  /** Section types in order of first appearance. */
  function TypesOf(p: Package): seq<string>
  {
    if p == [] then []
    else
      var types := TypesOf(p[..|p| - 1]);
      if p[|p| - 1].typ in types then types else types + [p[|p| - 1].typ]
  }

  /** deleteUnwantedSections over a prefix of the snapshot. */
  function SweepType(snap: Package, cur: Package, typ: string, keep: set<string>): Option<Package>
  {
    if snap == [] then Some(cur)
    else
      var s := snap[|snap| - 1];
      var swept :- SweepType(snap[..|snap| - 1], cur, typ, keep);
      if s.typ != typ || Kept(s, keep) then Some(swept) else DropSection(swept, s.id)
  }

  function Sweep(snap: Package, cur: Package, types: seq<string>, keep: set<string>): Option<Package>
  {
    if types == [] then Some(cur)
    else
      var swept :- Sweep(snap, cur, types[..|types| - 1], keep);
      SweepType(snap, swept, types[|types| - 1], keep)
  }

  // ---------------------------------------------------------------- one package

  /** ".delete": true means replace mode with nothing listed. */
  function EffectiveMode(cfg: PkgConfig): string
  {
    if Deletes(cfg) then "replace" else DeclaredMode(cfg)
  }

  function EffectiveConfig(cfg: PkgConfig): PkgConfig
  {
    if Deletes(cfg) then map[] else cfg
  }

  function WorkOf(cfg: PkgConfig): seq<Item>
    requires Parses(cfg)
  {
    Work(SectionTypes(cfg), cfg)
  }

  /** Sweep in replace mode, then stage all sections; positions are reused in merge mode only. */
  function Staged(found: Package, cur: Package, mode: string, w: seq<Item>, gen: IdGen): Option<Package>
  {
    var start :- if mode == "replace" then Sweep(found, cur, TypesOf(found), KeepNames(w)) else Some(cur);
    Fold(found, start, mode == "merge", w, gen)
  }

  lemma StagedFrom(found: Package, cur: Package, mode: string, w: seq<Item>, start: Package, gen: IdGen)
    requires if mode == "replace" then Sweep(found, cur, TypesOf(found), KeepNames(w)) == Some(start) else start == cur
    ensures Staged(found, cur, mode, w, gen) == Fold(found, start, mode == "merge", w, gen)
  {
  }

  lemma SweepStopsIt(found: Package, cur: Package, w: seq<Item>, gen: IdGen)
    ensures Sweep(found, cur, TypesOf(found), KeepNames(w)) == None ==> Staged(found, cur, "replace", w, gen) == None
  {
  }

  /** The staged package after a successful stagePackage, from the sections it found. */
  function Stage(found: Package, cfg: PkgConfig, gen: IdGen): Option<Package>
  {
    StageRead(true, found, cfg, gen)
  }

  /** A package whose sections could not be read is staged on as if it had none. */
  function StageRead(read: bool, cur: Package, cfg: PkgConfig, gen: IdGen): Option<Package>
  {
    var c := EffectiveConfig(cfg);
    if !Parses(c) then None else Staged(if read then cur else [], cur, EffectiveMode(cfg), WorkOf(c), gen)
  }

  // ---------------------------------------------------------------- one more item

  /** Work listed under other types contains no anonymous section of this type. */
  lemma {:induction false} OtherTypesHaveNoAnon(types: seq<string>, cfg: PkgConfig, typ: string)
    requires forall t :: t in types ==> t in cfg && cfg[t].Sections? && t != typ
    ensures CountAnon(Work(types, cfg), typ) == 0
  {
    if types != [] {
      var front, last := types[..|types| - 1], types[|types| - 1];
      OtherTypesHaveNoAnon(front, cfg, typ);
      CountAnonForeign(Work(front, cfg), ItemsOf(last, cfg[last].sections), typ);
    }
  }

  lemma {:induction false} CountAnonForeign(w: seq<Item>, more: seq<Item>, typ: string)
    requires forall x :: x in more ==> x.typ != typ
    ensures CountAnon(w + more, typ) == CountAnon(w, typ)
  {
    if more == [] {
      assert w + more == w;
    } else {
      assert (w + more)[..|w + more| - 1] == w + more[..|more| - 1];
      CountAnonForeign(w, more[..|more| - 1], typ);
    }
  }

  lemma FoldSnoc(snap: Package, start: Package, merge: bool, done: seq<Item>, x: Item, gen: IdGen)
    ensures Fold(snap, start, merge, done + [x], gen) ==
            match Fold(snap, start, merge, done, gen)
            case None => None
            case Some(cur) => ApplyItem(snap, cur, x, ReuseId(snap, merge, done, x), gen)
  {
    assert (done + [x])[..|done|] == done;
  }

  // ---------------------------------------------------------------- what cannot be done stops the rest

  lemma {:induction false} FoldStops(snap: Package, start: Package, merge: bool, done: seq<Item>, more: seq<Item>, gen: IdGen)
    requires Fold(snap, start, merge, done, gen) == None
    ensures Fold(snap, start, merge, done + more, gen) == None
  {
    if more == [] {
      assert done + more == done;
    } else {
      FoldStops(snap, start, merge, done, more[..|more| - 1], gen);
      assert done + more == (done + more[..|more| - 1]) + [more[|more| - 1]];
      FoldSnoc(snap, start, merge, done + more[..|more| - 1], more[|more| - 1], gen);
    }
  }

  lemma CutAround(done: seq<Item>, items: seq<Item>, i: nat)
    requires i < |items|
    ensures done + items == (done + items[..i] + [items[i]]) + items[i + 1..]
  {
  }

  lemma StopsAt(snap: Package, start: Package, merge: bool, done: seq<Item>, items: seq<Item>, i: nat, gen: IdGen)
    requires i < |items| && Fold(snap, start, merge, done + items[..i], gen).Some?
    requires var cur := Fold(snap, start, merge, done + items[..i], gen).value;
             ApplyItem(snap, cur, items[i], ReuseId(snap, merge, done + items[..i], items[i]), gen) == None
    ensures Fold(snap, start, merge, done + items, gen) == None
  {
    CutAround(done, items, i);
    FoldSnoc(snap, start, merge, done + items[..i], items[i], gen);
    FoldStops(snap, start, merge, done + items[..i] + [items[i]], items[i + 1..], gen);
  }

  lemma {:induction false} WorkStops(snap: Package, start: Package, merge: bool, types: seq<string>, cfg: PkgConfig, n: nat, gen: IdGen)
    requires forall t :: t in types ==> t in cfg && cfg[t].Sections?
    requires n <= |types| && Fold(snap, start, merge, Work(types[..n], cfg), gen) == None
    ensures Fold(snap, start, merge, Work(types, cfg), gen) == None
  {
    if n == |types| {
      assert types[..n] == types;
    } else {
      var front, last := types[..|types| - 1], types[|types| - 1];
      assert front[..n] == types[..n];
      WorkStops(snap, start, merge, front, cfg, n, gen);
      FoldStops(snap, start, merge, Work(front, cfg), ItemsOf(last, cfg[last].sections), gen);
    }
  }

  lemma {:induction false} SweepTypeStops(snap: Package, cur: Package, typ: string, keep: set<string>, n: nat)
    requires n <= |snap| && SweepType(snap[..n], cur, typ, keep) == None
    ensures SweepType(snap, cur, typ, keep) == None
  {
    if n == |snap| {
      assert snap[..n] == snap;
    } else {
      assert snap[..|snap| - 1][..n] == snap[..n];
      SweepTypeStops(snap[..|snap| - 1], cur, typ, keep, n);
    }
  }

  lemma {:induction false} SweepStops(snap: Package, cur: Package, types: seq<string>, keep: set<string>, n: nat)
    requires n <= |types| && Sweep(snap, cur, types[..n], keep) == None
    ensures Sweep(snap, cur, types, keep) == None
  {
    if n == |types| {
      assert types[..n] == types;
    } else {
      assert types[..|types| - 1][..n] == types[..n];
      SweepStops(snap, cur, types[..|types| - 1], keep, n);
    }
  }

  lemma CountAnonSnoc(done: seq<Item>, x: Item, typ: string)
    ensures CountAnon(done + [x], typ) == CountAnon(done, typ) + if NameOf(x.fields).None? && x.typ == typ then 1 else 0
  {
    assert (done + [x])[..|done|] == done;
  }
}
