/**
 When staging can be carried out at all, whatever the snapshot it goes by: every write of a section finds the
 section it addresses, except for options under an empty name.
 */
module StagingPossible {
  import opened Wrappers
  import opened Uci
  import opened Staging
  import opened Listings

  ghost predicate Has(p: Package, id: string)
  {
    exists i :: 0 <= i < |p| && p[i].id == id
  }

  /** q has the sections of p in their places, under their ids, and maybe more. */
  ghost predicate Keeps(p: Package, q: Package)
  {
    |p| <= |q| && forall i :: 0 <= i < |p| ==> q[i].id == p[i].id && q[i].name == p[i].name && q[i].anonymous == p[i].anonymous
  }

  /** Every id of the snapshot is still there. */
  ghost predicate Covers(snap: Package, p: Package)
  {
    forall s :: s in snap ==> Has(p, s.id)
  }

  lemma KeepsCover(snap: Package, p: Package, q: Package)
    requires Covers(snap, p) && Keeps(p, q)
    ensures Covers(snap, q)
  {
    forall s | s in snap ensures Has(q, s.id) {
      var i :| 0 <= i < |p| && p[i].id == s.id;
      assert q[i].id == s.id;
    }
  }

  lemma Found(p: Package, id: string)
    ensures Has(p, id) <==> FirstIndex(p, WithId(id)) < |p|
  {
    if Has(p, id) {
      var i :| 0 <= i < |p| && p[i].id == id;
      assert WithId(id)(p[i]);
    }
  }

  lemma AddKeeps(p: Package, typ: string, name: string, gen: IdGen)
    requires WellFormed(p) && FreshIds(gen)
    ensures var q := AddSection(p, typ, name, gen);
            WellFormed(q) && Keeps(p, q) && Has(q, AddedId(p, name, gen))
  {
    var q := AddSection(p, typ, name, gen);
    var i := FirstIndex(p, WithId(name));
    assert forall k :: 0 <= k < |p| ==> p[k] in p;
    if name == "" {
      assert q[|p|].id == gen(p);
    } else if i < |p| {
      assert q[i].id == name;
    } else {
      assert forall k :: 0 <= k < |p| ==> !WithId(name)(p[k]);
      assert q[|p|].id == name;
    }
  }

  /** A write to a section that is there. */
  lemma WriteKeeps(p: Package, id: string, typ: string, values: Options, keys: set<string>)
    requires WellFormed(p) && Has(p, id)
    ensures Retype(p, id, typ).Some? && WellFormed(Retype(p, id, typ).value) && Keeps(p, Retype(p, id, typ).value)
    ensures SetOptions(p, id, values).Some? && WellFormed(SetOptions(p, id, values).value) && Keeps(p, SetOptions(p, id, values).value)
    ensures DropOptions(p, id, keys).Some? && WellFormed(DropOptions(p, id, keys).value) && Keeps(p, DropOptions(p, id, keys).value)
  {
    Found(p, id);
  }

  lemma HasStill(p: Package, q: Package, id: string)
    requires Has(p, id) && Keeps(p, q)
    ensures Has(q, id)
  {
    var i :| 0 <= i < |p| && p[i].id == id;
    assert q[i].id == id;
  }

  /** Setting the values of a section that is there and cleaning it up. */
  lemma FillIsPossible(p: Package, id: string, values: Options, prior: Option<Section>)
    requires WellFormed(p) && Has(p, id)
    ensures var f := Filled(p, id, values);
            && f.Some? && WellFormed(f.value) && Keeps(p, f.value)
            && var c := Cleaned(f.value, id, prior, values.Keys);
               c.Some? && WellFormed(c.value) && Keeps(p, c.value)
  {
    WriteKeeps(p, id, "", values, {});
    var f := Filled(p, id, values).value;
    HasStill(p, f, id);
    if prior.Some? {
      WriteKeeps(f, id, "", values, prior.value.options.Keys - values.Keys);
    }
  }

  lemma NamedItem(snap: Package, p: Package, x: Item, name: string, gen: IdGen)
    requires WellFormed(snap) && WellFormed(p) && Covers(snap, p) && FreshIds(gen) && NameOf(x.fields) == Some(name) && name != ""
    ensures var q := ApplyItem(snap, p, x, "", gen);
            q.Some? && WellFormed(q.value) && Keeps(p, q.value)
  {
    var i := FirstIndex(snap, Named(name));
    if i < |snap| {
      assert snap[i] in snap;
      WriteKeeps(p, name, x.typ, map[], {});
    } else {
      AddKeeps(p, x.typ, name, gen);
    }
    var created := Created(snap, p, x.typ, name, gen).value;
    if i < |snap| {
      HasStill(p, created, name);
    }
    FillIsPossible(created, name, OptionsOf(x.fields), First(snap, Named(name)));
  }

  lemma EmptyNameItem(snap: Package, p: Package, x: Item, gen: IdGen)
    requires WellFormed(snap) && WellFormed(p) && FreshIds(gen) && NameOf(x.fields) == Some("")
    ensures var q := ApplyItem(snap, p, x, "", gen);
            (q.Some? <==> !Unplaceable(x)) && (q.Some? ==> WellFormed(q.value) && Keeps(p, q.value))
  {
    AddKeeps(p, x.typ, "", gen);
    EmptyNameStep(snap, p, x, "", gen);
  }

  lemma UnnamedItem(snap: Package, p: Package, x: Item, reuse: string, gen: IdGen)
    requires WellFormed(snap) && WellFormed(p) && FreshIds(gen) && NameOf(x.fields).None? && (reuse != "" ==> Has(p, reuse))
    ensures var q := ApplyItem(snap, p, x, reuse, gen);
            q.Some? && WellFormed(q.value) && Keeps(p, q.value)
  {
    if reuse != "" {
      FillIsPossible(p, reuse, OptionsOf(x.fields), First(snap, WithId(reuse)));
    } else {
      AddKeeps(p, x.typ, "", gen);
      FillIsPossible(AddSection(p, x.typ, "", gen), gen(p), OptionsOf(x.fields), None);
    }
  }

  lemma {:induction false} AnonIdIsThere(snap: Package, typ: string, id: string)
    requires id in AnonIds(snap, typ)
    ensures exists s :: s in snap && s.id == id
  {
    var n := |snap| - 1;
    if snap[n].anonymous && snap[n].typ == typ && snap[n].id == id {
      assert snap[n] in snap;
    } else {
      AnonIdIsThere(snap[..n], typ, id);
      var s :| s in snap[..n] && s.id == id;
      assert s in snap;
    }
  }

  lemma ItemIsPossible(snap: Package, p: Package, merge: bool, done: seq<Item>, x: Item, gen: IdGen)
    requires WellFormed(snap) && WellFormed(p) && Covers(snap, p) && FreshIds(gen)
    ensures var q := ApplyItem(snap, p, x, ReuseId(snap, merge, done, x), gen);
            (q.Some? <==> !Unplaceable(x)) && (q.Some? ==> WellFormed(q.value) && Keeps(p, q.value))
  {
    match NameOf(x.fields) {
      case Some(name) =>
        if name == "" {
          EmptyNameItem(snap, p, x, gen);
        } else {
          NamedItem(snap, p, x, name, gen);
        }
      case None =>
        var reuse := ReuseId(snap, merge, done, x);
        if reuse != "" {
          AnonIdIsThere(snap, x.typ, reuse);
        }
        UnnamedItem(snap, p, x, reuse, gen);
    }
  }

  /** Staging fails exactly when some section with an empty name has options. */
  lemma {:induction false} FoldIsPossible(snap: Package, start: Package, merge: bool, w: seq<Item>, gen: IdGen)
    requires WellFormed(snap) && WellFormed(start) && Covers(snap, start) && FreshIds(gen)
    ensures var q := Fold(snap, start, merge, w, gen);
            (q.Some? <==> AllPlaceable(w)) && (q.Some? ==> WellFormed(q.value) && Keeps(start, q.value))
  {
    if w != [] {
      var n := |w| - 1;
      assert w == w[..n] + [w[n]];
      assert AllPlaceable(w) <==> AllPlaceable(w[..n]) && !Unplaceable(w[n]);
      FoldIsPossible(snap, start, merge, w[..n], gen);
      var cur := Fold(snap, start, merge, w[..n], gen);
      if cur.Some? {
        KeepsCover(snap, start, cur.value);
        ItemIsPossible(snap, cur.value, merge, w[..n], w[n], gen);
      }
    }
  }
}
