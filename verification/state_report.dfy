/** The state report's shape (GroupByType in internal/uci/sections.go), and applying it back. */
module StateReport {
  import opened Wrappers
  import opened Uci
  import opened SortedKeys
  import opened Staging
  import opened StagingLaws

  function AsField(v: Value): Field
  {
    match v
    case Scalar(text) => Str(text)
    case List(items) => Arr(items)
  }

  /** A section as reported: its options, plus ".name" when it is named. */
  function Reported(s: Section): Fields
  {
    var options: Fields := map k | k in s.options :: AsField(s.options[k]);
    if s.anonymous then options else options[".name" := Str(s.name)]
  }

  function ReportsOf(p: Package, typ: string): seq<Fields>
  {
    if p == [] then []
    else
      var s := p[|p| - 1];
      ReportsOf(p[..|p| - 1], typ) + (if s.typ == typ then [Reported(s)] else [])
  }

  /** Every section, in device order, under its type. */
  ghost predicate IsGrouping(p: Package, g: map<string, seq<Fields>>)
  {
    && (forall t :: t in g <==> t in TypesOf(p))
    && forall t :: t in g ==> g[t] == ReportsOf(p, t)
  }

  method GroupByType(sections: Package) returns (result: map<string, seq<Fields>>)
    ensures IsGrouping(sections, result)
  {
    result := map[];
    for i := 0 to |sections|
      invariant IsGrouping(sections[..i], result)
    {
      assert sections[..i + 1][..i] == sections[..i];
      var sec := sections[i];
      NoReportsWithoutType(sections[..i], sec.typ);
      var soFar := if sec.typ in result then result[sec.typ] else [];
      result := result[sec.typ := soFar + [Reported(sec)]];
    }
    assert sections[..|sections|] == sections;
  }

  lemma {:induction false} NoReportsWithoutType(p: Package, typ: string)
    ensures typ !in TypesOf(p) ==> ReportsOf(p, typ) == []
  {
    if p != [] {
      NoReportsWithoutType(p[..|p| - 1], typ);
    }
  }

  /** The fields are the section's options, strings as strings and lists as lists, and its name if it has one. */
  ghost predicate Reports(fields: Fields, s: Section)
  {
    && fields.Keys == s.options.Keys + (if s.anonymous then {} else {".name"})
    && (!s.anonymous ==> fields[".name"] == Str(s.name))
    && (forall k, text :: k in s.options && (s.anonymous || k != ".name") && s.options[k] == Scalar(text) ==> fields[k] == Str(text))
    && (forall k, items :: k in s.options && (s.anonymous || k != ".name") && s.options[k] == List(items) ==> fields[k] == Arr(items))
  }

  /** at are the positions of the sections of this type, in device order. */
  ghost predicate Positions(p: Package, typ: string, at: seq<nat>)
  {
    && (forall k :: 0 <= k < |at| ==> at[k] < |p| && p[at[k]].typ == typ)
    && (forall k, l :: 0 <= k < l < |at| ==> at[k] < at[l])
    && forall i :: 0 <= i < |p| && p[i].typ == typ ==> i in at
  }

  /** Under each type exactly its sections are reported, in device order, with exactly their options and names. */
  lemma {:induction false} ReportsAreExact(p: Package, typ: string) returns (at: seq<nat>)
    ensures Positions(p, typ, at) && |at| == |ReportsOf(p, typ)|
    ensures forall k :: 0 <= k < |at| ==> Reports(ReportsOf(p, typ)[k], p[at[k]])
  {
    if p == [] {
      at := [];
    } else {
      var n := |p| - 1;
      var front := ReportsAreExact(p[..n], typ);
      PositionsSnoc(p, typ, front);
      at := front;
      if p[n].typ == typ {
        ReportedIsExact(p[n]);
        at := front + [n];
      }
      forall k | 0 <= k < |at| ensures Reports(ReportsOf(p, typ)[k], p[at[k]]) {
        if k < |front| {
          assert ReportsOf(p, typ)[k] == ReportsOf(p[..n], typ)[k] && p[at[k]] == p[..n][front[k]];
        }
      }
    }
  }

  lemma ReportedIsExact(s: Section)
    ensures Reports(Reported(s), s)
  {
  }

  lemma PositionsSnoc(p: Package, typ: string, at: seq<nat>)
    requires p != [] && Positions(p[..|p| - 1], typ, at)
    ensures Positions(p, typ, if p[|p| - 1].typ == typ then at + [|p| - 1] else at)
  {
    var more := if p[|p| - 1].typ == typ then at + [|p| - 1] else at;
    forall i | 0 <= i < |p| && p[i].typ == typ ensures i in more {
      if i < |p| - 1 {
        assert p[..|p| - 1][i] == p[i];
      }
    }
  }

  /** What a device can hold: no name starts with a dot, and an empty list is an absent option. */
  ghost predicate Storable(p: Package)
  {
    && WellFormed(p)
    && forall s :: s in p ==> !Dotted(s.typ) && forall k :: k in s.options ==> !Dotted(k) && s.options[k] != List([])
  }

  function AsConfig(g: map<string, seq<Fields>>): PkgConfig
  {
    map t | t in g :: Sections(g[t])
  }

  lemma ReportedReadsBack(s: Section)
    requires forall k :: k in s.options ==> !Dotted(k) && s.options[k] != List([])
    ensures NameOf(Reported(s)) == if s.anonymous then None else Some(s.name)
    ensures Stored(OptionsOf(Reported(s))) == s.options
  {
    assert Dotted(".name");
    assert OptionsOf(Reported(s)) == s.options;
  }

  lemma {:induction false} AnonIdsPrefix(p: Package, typ: string, n: nat)
    requires n < |p| && p[n].anonymous && p[n].typ == typ
    ensures |AnonIds(p[..n], typ)| < |AnonIds(p, typ)|
    ensures AnonIds(p, typ)[|AnonIds(p[..n], typ)|] == p[n].id
  {
    if n < |p| - 1 {
      AnonIdsPrefix(p[..|p| - 1], typ, n);
      assert p[..|p| - 1][..n] == p[..n];
    }
  }

  /** Staging w on top of p changed nothing and went through the first n sections of one type. */
  ghost predicate Quiet(p: Package, w: seq<Item>, typ: string, n: nat, gen: IdGen)
    requires n <= |p|
  {
    CountAnon(w, typ) == |AnonIds(p[..n], typ)| && Fold(p, p, true, w, gen) == Some(p)
  }

  /** Staging the reports of one type, section by section, never changes anything. */
  lemma {:induction false} ReportsAreSettled(p: Package, done: seq<Item>, typ: string, n: nat, gen: IdGen)
    requires Storable(p) && n <= |p|
    requires CountAnon(done, typ) == 0 && Fold(p, p, true, done, gen) == Some(p)
    ensures Quiet(p, done + ItemsOf(typ, ReportsOf(p[..n], typ)), typ, n, gen)
  {
    if n == 0 {
      assert done + ItemsOf(typ, ReportsOf(p[..n], typ)) == done;
    } else {
      ReportsAreSettled(p, done, typ, n - 1, gen);
      OneMoreReport(p, done, typ, n - 1, ReportsOf(p[..n - 1], typ), gen);
    }
  }

  lemma OneMoreReport(p: Package, done: seq<Item>, typ: string, i: nat, reports: seq<Fields>, gen: IdGen)
    requires Storable(p) && i < |p| && reports == ReportsOf(p[..i], typ)
    requires Quiet(p, done + ItemsOf(typ, reports), typ, i, gen)
    ensures Quiet(p, done + ItemsOf(typ, ReportsOf(p[..i + 1], typ)), typ, i + 1, gen)
  {
    PrefixSnoc(p, typ, i);
    var w, more := done + ItemsOf(typ, reports), ReportsOf(p[..i + 1], typ);
    if p[i].typ == typ {
      var x := Item(typ, Reported(p[i]));
      ReportIsSettled(p, w, i, gen);
      assert Quiet(p, w + [x], typ, i + 1, gen);
      assert done + ItemsOf(typ, more) == w + [x];
    } else {
      assert more == reports;
    }
  }

  lemma PrefixSnoc(p: Package, typ: string, i: nat)
    requires i < |p|
    ensures ReportsOf(p[..i + 1], typ) == ReportsOf(p[..i], typ) + if p[i].typ == typ then [Reported(p[i])] else []
    ensures AnonIds(p[..i + 1], typ) == AnonIds(p[..i], typ) + if p[i].anonymous && p[i].typ == typ then [p[i].id] else []
  {
    assert p[..i + 1][..i] == p[..i];
  }

  lemma ReportIsSettled(p: Package, done: seq<Item>, i: nat, gen: IdGen)
    requires Storable(p) && i < |p| && Fold(p, p, true, done, gen) == Some(p)
    requires CountAnon(done, p[i].typ) == |AnonIds(p[..i], p[i].typ)|
    ensures var x := Item(p[i].typ, Reported(p[i]));
            && Fold(p, p, true, done + [x], gen) == Some(p)
            && CountAnon(done + [x], x.typ) == CountAnon(done, x.typ) + if p[i].anonymous then 1 else 0
  {
    var s := p[i];
    var x := Item(s.typ, Reported(s));
    assert s in p;
    ReportedReadsBack(s);
    if s.anonymous {
      AnonIdsPrefix(p, s.typ, i);
    }
    HitStep(p, p, i, x, ReuseId(p, true, done, x), gen);
    assert p[i := Written(s, x)] == p;
    FoldSnoc(p, p, true, done, x, gen);
    CountAnonSnoc(done, x, s.typ);
  }

  lemma {:induction false} ReportedTypesAreSettled(p: Package, types: seq<string>, g: map<string, seq<Fields>>, gen: IdGen)
    requires Storable(p) && IsGrouping(p, g) && Ascending(types)
    requires forall t :: t in types ==> t in g
    ensures Fold(p, p, true, Work(types, AsConfig(g)), gen) == Some(p)
  {
    if types != [] {
      var front, last := types[..|types| - 1], types[|types| - 1];
      ReportedTypesAreSettled(p, front, g, gen);
      OtherTypesHaveNoAnon(front, AsConfig(g), last);
      ReportsAreSettled(p, Work(front, AsConfig(g)), last, |p|, gen);
      assert p[..|p|] == p && last in g;
    }
  }

  lemma {:induction false} TypesOfMember(p: Package, t: string)
    requires t in TypesOf(p)
    ensures exists s :: s in p && s.typ == t
  {
    if p[|p| - 1].typ == t {
      assert p[|p| - 1] in p;
    } else {
      TypesOfMember(p[..|p| - 1], t);
      var s :| s in p[..|p| - 1] && s.typ == t;
      assert s in p;
    }
  }

  /** Merging a package's own state report into it leaves every id, type, option and position as it was. */
  lemma StateReportIsFixpoint(p: Package, g: map<string, seq<Fields>>, gen: IdGen)
    requires Storable(p) && IsGrouping(p, g)
    ensures Stage(p, AsConfig(g), gen) == Some(p)
  {
    var cfg := AsConfig(g);
    forall t | t in cfg ensures !Dotted(t) { TypesOfMember(p, t); }
    assert Dotted(".mode") && Dotted(".delete");
    assert !Deletes(cfg) && EffectiveConfig(cfg) == cfg && EffectiveMode(cfg) == "merge" && Parses(cfg);
    ReportedTypesAreSettled(p, SectionTypes(cfg), g, gen);
  }
}
