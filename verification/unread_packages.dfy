/**
 What staging does to a package whose sections could not be read although it has a file: the read error is
 taken for "no sections", so nothing is swept, cleaned up or reused (internal/apply/applier.go).
 */
module UnreadPackages {
  import opened Wrappers
  import opened Uci
  import opened Staging

  /** All sections of p are still there, in place, and at least n more. */
  ghost predicate Grown(p: Package, q: Package, n: nat)
  {
    |q| >= |p| + n && forall i :: 0 <= i < |p| ==> q[i].id == p[i].id && q[i].anonymous == p[i].anonymous
  }

  function Nameless(w: seq<Item>): nat
  {
    if w == [] then 0 else Nameless(w[..|w| - 1]) + if NameOf(w[|w| - 1].fields).None? then 1 else 0
  }

  lemma FilledGrows(p: Package, id: string, values: Options)
    ensures Filled(p, id, values).Some? ==> Grown(p, Filled(p, id, values).value, 0)
  {
  }

  lemma UnreadStep(p: Package, x: Item, gen: IdGen)
    ensures var q := ApplyItem([], p, x, "", gen);
            q.Some? ==> Grown(p, q.value, if NameOf(x.fields).None? then 1 else 0)
  {
    var values := OptionsOf(x.fields);
    match NameOf(x.fields) {
      case Some(name) =>
        var added := AddSection(p, x.typ, name, gen);
        assert Grown(p, added, 0);
        FilledGrows(added, name, values);
      case None =>
        var added := AddSection(p, x.typ, "", gen);
        assert Grown(p, added, 1);
        FilledGrows(added, gen(p), values);
    }
  }

  lemma {:induction false} UnreadFold(p: Package, merge: bool, w: seq<Item>, gen: IdGen)
    ensures var q := Fold([], p, merge, w, gen); q.Some? ==> Grown(p, q.value, Nameless(w))
  {
    if w != [] {
      var n := |w| - 1;
      UnreadFold(p, merge, w[..n], gen);
      assert ReuseId([], merge, w[..n], w[n]) == "";
      var cur := Fold([], p, merge, w[..n], gen);
      if cur.Some? {
        UnreadStep(cur.value, w[n], gen);
      }
    }
  }

  /**
   In every mode, a successful staging of an unread package removes no section, keeps all in place, and adds
   one for each unnamed section of the payload, however many of its type are there already.
   */
  lemma UnreadRemovesNothing(cur: Package, cfg: PkgConfig, gen: IdGen)
    requires StageRead(false, cur, cfg, gen).Some?
    ensures Grown(cur, StageRead(false, cur, cfg, gen).value, Nameless(WorkOf(EffectiveConfig(cfg))))
  {
    assert TypesOf([]) == [];
    UnreadFold(cur, EffectiveMode(cfg) == "merge", WorkOf(EffectiveConfig(cfg)), gen);
  }

  /** So a ".delete" of a package that could not be read succeeds and deletes nothing. */
  lemma UnreadDeleteKeepsAll(cur: Package, cfg: PkgConfig, gen: IdGen)
    requires ".delete" in cfg && cfg[".delete"] == Flag(true)
    ensures StageRead(false, cur, cfg, gen) == Some(cur)
  {
    assert SectionTypes(map[]) == [];
    assert TypesOf([]) == [];
  }
}
