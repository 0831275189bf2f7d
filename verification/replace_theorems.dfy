/**
 The promises of replace mode: the sweep removes exactly the sections the payload does not keep by
 name, each once, whatever their type, and what staging leaves is the payload and nothing else.
 */
module ReplaceTheorems {
  import opened Wrappers
  import opened Sequences
  import opened Uci
  import opened Staging
  import opened StagingLaws
  import opened Listings

  // ---------------------------------------------------------------- the sweep

  /** p without the sections whose ids are in drop, in the same order. */
  function Spared(p: Package, drop: set<string>): Package
  {
    if p == [] then []
    else Spared(p[..|p| - 1], drop) + (if p[|p| - 1].id in drop then [] else [p[|p| - 1]])
  }

  lemma {:induction false} SparedMembers(p: Package, drop: set<string>)
    ensures forall s :: s in Spared(p, drop) <==> s in p && s.id !in drop
  {
    if p != [] {
      SparedMembers(p[..|p| - 1], drop);
      assert p == p[..|p| - 1] + [p[|p| - 1]];
    }
  }

  lemma {:induction false} SparedWellFormed(p: Package, drop: set<string>)
    requires WellFormed(p)
    ensures WellFormed(Spared(p, drop))
  {
    if p != [] {
      var front := p[..|p| - 1];
      SparedWellFormed(front, drop);
      SparedMembers(front, drop);
      var r := Spared(front, drop);
      forall k | 0 <= k < |r| ensures r[k].id != p[|p| - 1].id {
        assert r[k] in front;
      }
    }
  }

  lemma FoundInFront(a: Package, b: Package, id: string)
    requires exists s :: s in a && s.id == id
    ensures FirstIndex(a + b, WithId(id)) == FirstIndex(a, WithId(id)) < |a|
  {
    var i, j := FirstIndex(a, WithId(id)), FirstIndex(a + b, WithId(id));
    var s :| s in a && s.id == id;
    var k :| 0 <= k < |a| && a[k] == s;
    assert WithId(id)(a[k]);
    assert (a + b)[i] == a[i];
    if j < |a| { assert (a + b)[j] == a[j]; }
  }

  /** Deleting one more section by its id leaves the others where they were. */
  lemma {:induction false} DropOneMore(p: Package, drop: set<string>, s: Section)
    requires WellFormed(p) && s in p && s.id !in drop
    ensures DropSection(Spared(p, drop), s.id) == Some(Spared(p, drop + {s.id}))
  {
    var front, last := p[..|p| - 1], p[|p| - 1];
    assert p == front + [last];
    if s in front {
      DropOneMore(front, drop, s);
      SparedMembers(front, drop);
      assert last.id != s.id;
      DropInFront(Spared(front, drop), if last.id in drop then [] else [last], s);
    } else {
      DropTheLast(front, drop, s);
    }
  }

  lemma DropTheLast(front: Package, drop: set<string>, s: Section)
    requires WellFormed(front + [s]) && s.id !in drop
    ensures DropSection(Spared(front + [s], drop), s.id) == Some(Spared(front + [s], drop + {s.id}))
  {
    assert (front + [s])[..|front|] == front;
    forall t | t in front ensures t.id != s.id {
      var k :| 0 <= k < |front| && front[k] == t;
      assert (front + [s])[k] == t && (front + [s])[|front|] == s;
    }
    SparedMembers(front, drop);
    SameSpared(front, drop, s.id);
    DropLast(Spared(front, drop), s);
  }

  lemma DropInFront(a: Package, b: Package, s: Section)
    requires s in a && DropSection(a, s.id).Some?
    ensures DropSection(a + b, s.id) == Some(DropSection(a, s.id).value + b)
  {
    FoundInFront(a, b, s.id);
    var i := FirstIndex(a, WithId(s.id));
    assert (a + b)[..i] + (a + b)[i + 1..] == a[..i] + a[i + 1..] + b;
  }

  lemma DropLast(a: Package, s: Section)
    requires forall t :: t in a ==> t.id != s.id
    ensures DropSection(a + [s], s.id) == Some(a)
  {
    var q := a + [s];
    assert WithId(s.id)(q[|a|]);
    assert forall k :: 0 <= k < |a| ==> q[k] in a;
    assert FirstIndex(q, WithId(s.id)) == |a|;
    assert q[..|a|] + q[|a| + 1..] == a;
  }

  lemma {:induction false} SameSpared(p: Package, drop: set<string>, id: string)
    requires forall s :: s in p ==> s.id != id
    ensures Spared(p, drop + {id}) == Spared(p, drop)
  {
    if p != [] {
      assert p[|p| - 1] in p;
      SameSpared(p[..|p| - 1], drop, id);
    }
  }

  /** The ids the sweep has to delete among these types. */
  ghost function Doomed(p: Package, types: seq<string>, keep: set<string>): set<string>
  {
    set s | s in p && s.typ in types && !Kept(s, keep) :: s.id
  }

  lemma {:induction false} SweepTypeDrops(snap: Package, n: nat, drop: set<string>, typ: string, keep: set<string>)
    requires WellFormed(snap) && n <= |snap|
    requires forall s :: s in snap && s.typ == typ ==> s.id !in drop
    ensures SweepType(snap[..n], Spared(snap, drop), typ, keep)
            == Some(Spared(snap, drop + Doomed(snap[..n], [typ], keep)))
  {
    if n == 0 {
      assert drop + Doomed(snap[..n], [typ], keep) == drop;
    } else {
      SweepTypeDrops(snap, n - 1, drop, typ, keep);
      DoomedSnoc(snap, n - 1, typ, keep);
      var s := snap[n - 1];
      assert s in snap;
      var before := Doomed(snap[..n - 1], [typ], keep);
      SweepTypeStep(snap, n, Spared(snap, drop), Spared(snap, drop + before), typ, keep);
      if s.typ == typ && !Kept(s, keep) {
        DropOneMore(snap, drop + before, s);
        assert drop + before + {s.id} == drop + (before + {s.id});
      } else {
        assert before + {} == before;
      }
    }
  }

  lemma SweepTypeStep(snap: Package, n: nat, start: Package, swept: Package, typ: string, keep: set<string>)
    requires 0 < n <= |snap| && SweepType(snap[..n - 1], start, typ, keep) == Some(swept)
    ensures SweepType(snap[..n], start, typ, keep)
            == var s := snap[n - 1]; if s.typ != typ || Kept(s, keep) then Some(swept) else DropSection(swept, s.id)
  {
    assert snap[..n][..n - 1] == snap[..n - 1];
  }

  lemma DoomedSnoc(snap: Package, i: nat, typ: string, keep: set<string>)
    requires WellFormed(snap) && i < |snap|
    ensures snap[i].id !in Doomed(snap[..i], [typ], keep)
    ensures Doomed(snap[..i + 1], [typ], keep)
            == Doomed(snap[..i], [typ], keep) + if snap[i].typ == typ && !Kept(snap[i], keep) then {snap[i].id} else {}
  {
    assert snap[..i + 1] == snap[..i] + [snap[i]];
    assert forall k :: 0 <= k < i ==> snap[k].id != snap[i].id;
  }

  lemma {:induction false} SweepDrops(snap: Package, types: seq<string>, keep: set<string>)
    requires WellFormed(snap) && NoRepeats(types)
    ensures Sweep(snap, snap, types, keep) == Some(Spared(snap, Doomed(snap, types, keep)))
  {
    if types == [] {
      AllSpared(snap);
      assert Doomed(snap, types, keep) == {};
    } else {
      var front, last := types[..|types| - 1], types[|types| - 1];
      SweepDrops(snap, front, keep);
      var drop := Doomed(snap, front, keep);
      forall s | s in snap && s.typ == last ensures s.id !in drop {
        forall t | t in snap && t.typ in front ensures t.id != s.id { DistinctSections(snap, s, t); }
      }
      SweepTypeDrops(snap, |snap|, drop, last, keep);
      assert snap[..|snap|] == snap;
      assert drop + Doomed(snap, [last], keep) == Doomed(snap, types, keep);
    }
  }

  lemma DistinctSections(p: Package, s: Section, t: Section)
    requires WellFormed(p) && s in p && t in p && s != t
    ensures s.id != t.id
  {
    var i :| 0 <= i < |p| && p[i] == s;
    var j :| 0 <= j < |p| && p[j] == t;
  }

  lemma {:induction false} AllSpared(p: Package)
    ensures Spared(p, {}) == p
  {
    if p != [] {
      AllSpared(p[..|p| - 1]);
      assert p == p[..|p| - 1] + [p[|p| - 1]];
    }
  }

  lemma {:induction false} AllDropped(p: Package, drop: set<string>)
    requires forall s :: s in p ==> s.id in drop
    ensures Spared(p, drop) == []
  {
    if p != [] {
      assert p[|p| - 1] in p;
      AllDropped(p[..|p| - 1], drop);
    }
  }

  lemma {:induction false} TypesCover(p: Package)
    ensures NoRepeats(TypesOf(p)) && forall s :: s in p ==> s.typ in TypesOf(p)
  {
    if p != [] {
      TypesCover(p[..|p| - 1]);
      assert p == p[..|p| - 1] + [p[|p| - 1]];
    }
  }

  /** The sections replace mode keeps: named ones the payload names, in device order. */
  ghost function Survivors(p: Package, keep: set<string>): Package
  {
    Spared(p, Doomed(p, TypesOf(p), keep))
  }

  lemma SurvivorsAreKept(p: Package, keep: set<string>)
    requires WellFormed(p)
    ensures WellFormed(Survivors(p, keep))
    ensures forall s :: s in Survivors(p, keep) <==> s in p && Kept(s, keep)
  {
    SparedWellFormed(p, Doomed(p, TypesOf(p), keep));
    SparedMembers(p, Doomed(p, TypesOf(p), keep));
    TypesCover(p);
    forall s | s in p && Kept(s, keep) ensures s.id !in Doomed(p, TypesOf(p), keep) {
      forall t | t in p && !Kept(t, keep) ensures t.id != s.id { DistinctSections(p, s, t); }
    }
  }

  /** The nested per-type sweep succeeds and leaves exactly the survivors: each other section went once. */
  lemma SweepLeavesSurvivors(snap: Package, keep: set<string>)
    requires WellFormed(snap)
    ensures Sweep(snap, snap, TypesOf(snap), keep) == Some(Survivors(snap, keep))
  {
    TypesCover(snap);
    SweepDrops(snap, TypesOf(snap), keep);
  }

  // ---------------------------------------------------------------- replace is sweep, then merge

  lemma {:induction false} NoAnonymousIds(p: Package, typ: string)
    requires forall s :: s in p ==> !s.anonymous
    ensures AnonIds(p, typ) == [] && AnonSlots(p, typ) == []
  {
    if p != [] {
      assert p[|p| - 1] in p;
      NoAnonymousIds(p[..|p| - 1], typ);
    }
  }

  lemma SameNamedSection(snap: Package, keep: set<string>, name: string)
    requires WellFormed(snap) && name in keep
    ensures First(snap, Named(name)) == First(Survivors(snap, keep), Named(name))
  {
    var r := Survivors(snap, keep);
    SurvivorsAreKept(snap, keep);
    var i, j := FirstIndex(snap, Named(name)), FirstIndex(r, Named(name));
    assert j < |r| ==> r[j] in snap && Named(name)(r[j]);
    if i < |snap| {
      assert snap[i] in r;
      var k :| 0 <= k < |r| && r[k] == snap[i];
      IndexIsUnique(r, k);
    }
  }

  lemma {:induction false} ReplaceIsMerge(snap: Package, w: seq<Item>, keep: set<string>, start: Package, gen: IdGen)
    requires WellFormed(snap) && KeepNames(w) <= keep
    ensures Fold(snap, start, false, w, gen) == Fold(Survivors(snap, keep), start, true, w, gen)
  {
    if w != [] {
      var done, x := w[..|w| - 1], w[|w| - 1];
      assert forall y :: y in done ==> y in w;
      assert x in w;
      ReplaceIsMerge(snap, done, keep, start, gen);
      forall cur ensures ApplyItem(snap, cur, x, ReuseId(snap, false, done, x), gen)
                      == ApplyItem(Survivors(snap, keep), cur, x, ReuseId(Survivors(snap, keep), true, done, x), gen) {
        ReplaceStep(snap, cur, done, x, keep, gen);
      }
    }
  }

  lemma ReplaceStep(snap: Package, cur: Package, done: seq<Item>, x: Item, keep: set<string>, gen: IdGen)
    requires WellFormed(snap) && (NameOf(x.fields).Some? ==> NameOf(x.fields).value in keep)
    ensures ApplyItem(snap, cur, x, ReuseId(snap, false, done, x), gen)
         == ApplyItem(Survivors(snap, keep), cur, x, ReuseId(Survivors(snap, keep), true, done, x), gen)
  {
    SurvivorsAreKept(snap, keep);
    NoAnonymousIds(Survivors(snap, keep), x.typ);
    if NameOf(x.fields).Some? {
      SameNamedSection(snap, keep, NameOf(x.fields).value);
    }
  }

  /** The package is the payload: the same named sections with the same contents, the same anonymous contents per type. */
  ghost predicate IsExactly(r: Package, w: seq<Item>)
  {
    && (forall s :: s in r && !s.anonymous ==> s.name in KeepNames(w))
    && AllFirst(r, w)
    && AllContents(r, w)
  }

  ghost predicate AllFirst(r: Package, w: seq<Item>)
  {
    forall x :: x in w && NameOf(x.fields).Some? ==> IsFirst(r, x, NameOf(x.fields).value)
  }

  ghost predicate IsFirst(r: Package, x: Item, name: string)
  {
    First(r, Named(name)) == Some(Section(name, x.typ, name, false, Stored(OptionsOf(x.fields))))
  }

  ghost predicate AllContents(r: Package, w: seq<Item>)
  {
    forall typ :: AnonContents(r, typ) == DesiredContents(w, typ)
  }

  lemma OnlyListedNames(kept: Package, r: Package, names: set<string>, gen: IdGen)
    requires Extends(kept, r, names, gen) && forall s :: s in kept ==> !s.anonymous && s.name in names
    ensures forall s :: s in r && !s.anonymous ==> s.name in names
  {
    forall s | s in r && !s.anonymous ensures s.name in names {
      var i :| 0 <= i < |r| && r[i] == s;
      if i < |kept| {
        assert kept[i] in kept;
      } else {
        assert NewSection(r[i], names, gen);
      }
    }
  }

  // ---------------------------------------------------------------- any names

  /** Replace mode: what the sweep leaves, overlaid with the listings. */
  lemma SweptThenOverlaid(found: Package, w: seq<Item>, gen: IdGen)
    requires WellFormed(found) && FreshIds(gen) && forall q: Package :: gen(q) !in KeepNames(w)
    ensures Staged(found, found, "replace", w, gen)
            == if AllPlaceable(w) then Some(Overlaid(Survivors(found, KeepNames(w)), w, true, gen)) else None
  {
    var kept := Survivors(found, KeepNames(w));
    SweepLeavesSurvivors(found, KeepNames(w));
    SurvivorsAreKept(found, KeepNames(w));
    ReplaceIsMerge(found, w, KeepNames(w), kept, gen);
    StagingOverlays(kept, w, true, gen);
  }

  /** Every named listing agrees with the listings that decide on its name. */
  ghost predicate ListingsAgree(snap: Package, w: seq<Item>)
  {
    forall l: nat :: l < |w| && NameOf(w[l].fields).Some? ==> DecidersAgree(snap, w, NameOf(w[l].fields).value, l)
  }

  lemma OverlaidIsExactly(kept: Package, w: seq<Item>, gen: IdGen)
    requires Unambiguous(kept, w, gen) && (forall s :: s in kept ==> !s.anonymous && s.name in KeepNames(w))
    requires "" !in KeepNames(w) && ListingsAgree(kept, w)
    ensures IsExactly(Overlaid(kept, w, true, gen), w)
  {
    var r := Overlaid(kept, w, true, gen);
    OverlaidExtends(kept, w, true, gen);
    OnlyListedNames(kept, r, KeepNames(w), gen);
    forall x | x in w && NameOf(x.fields).Some? ensures IsFirst(r, x, NameOf(x.fields).value) {
      var l: nat :| l < |w| && w[l] == x;
      HonouredExactly(kept, w, l, true, gen);
    }
    forall typ ensures AnonContents(r, typ) == DesiredContents(w, typ) {
      AnonymousAsListed(kept, w, typ, gen);
    }
  }

  lemma AnonymousAsListed(kept: Package, w: seq<Item>, typ: string, gen: IdGen)
    requires Unambiguous(kept, w, gen) && (forall s :: s in kept ==> !s.anonymous) && "" !in KeepNames(w)
    ensures AnonContents(Overlaid(kept, w, true, gen), typ) == DesiredContents(w, typ)
  {
    NoAnonymousIds(kept, typ);
    DesiredComeFirst(kept, w, typ, gen);
  }

  /** The overlaid survivors are exactly the work if and only if no name is empty and the listings agree. */
  lemma SurvivorsEndAsListed(found: Package, w: seq<Item>, gen: IdGen)
    requires WellFormed(found) && FreshIds(gen) && forall q: Package :: gen(q) !in KeepNames(w)
    ensures var kept := Survivors(found, KeepNames(w));
            IsExactly(Overlaid(kept, w, true, gen), w) <==> "" !in KeepNames(w) && ListingsAgree(kept, w)
  {
    var kept := Survivors(found, KeepNames(w));
    SurvivorsAreKept(found, KeepNames(w));
    if "" !in KeepNames(w) && ListingsAgree(kept, w) {
      OverlaidIsExactly(kept, w, gen);
    }
    if IsExactly(Overlaid(kept, w, true, gen), w) {
      forall l: nat | l < |w| && NameOf(w[l].fields).Some?
        ensures NameOf(w[l].fields).value != "" && DecidersAgree(kept, w, NameOf(w[l].fields).value, l)
      {
        assert w[l] in w && IsFirst(Overlaid(kept, w, true, gen), w[l], NameOf(w[l].fields).value);
        HonouredExactly(kept, w, l, true, gen);
      }
    }
  }

  lemma DistinctNamesAgree(snap: Package, w: seq<Item>)
    requires NamesOk(w)
    ensures "" !in KeepNames(w) && ListingsAgree(snap, w)
  {
    forall l: nat | l < |w| && NameOf(w[l].fields).Some? ensures DecidersAgree(snap, w, NameOf(w[l].fields).value, l) {
      var name := NameOf(w[l].fields).value;
      assert forall d: nat :: d < |w| && Listing(name)(w[d]) ==> d == l;
    }
  }
}
