/**
 What merge staging does to a package, said without its operations: every existing section keeps
 its position and identity, the sections the payload speaks of get exactly the payload's type and
 options, new sections follow at the end, and nothing else changes.
 */
module StagingLaws {
  import opened Wrappers
  import opened Uci
  import opened Staging

  // ---------------------------------------------------------------- payload hypotheses

  ghost predicate NamesOk(w: seq<Item>)
  {
    && (forall x :: x in w && NameOf(x.fields).Some? ==> NameOf(x.fields).value != "")
    && forall j, l :: 0 <= j < l < |w| && NameOf(w[j].fields).Some? ==> NameOf(w[j].fields) != NameOf(w[l].fields)
  }

  /** No payload name is the id of an anonymous section, existing or yet to be generated. */
  ghost predicate NamesFree(w: seq<Item>, p: Package, gen: IdGen)
  {
    && (forall s :: s in p && s.anonymous ==> s.id !in KeepNames(w))
    && forall q: Package :: gen(q) !in KeepNames(w)
  }

  ghost predicate Admissible(snap: Package, w: seq<Item>, gen: IdGen)
  {
    WellFormed(snap) && FreshIds(gen) && NamesOk(w) && NamesFree(w, snap, gen)
  }

  // ---------------------------------------------------------------- anonymous sections by position

  function AnonSlots(p: Package, typ: string): (slots: seq<nat>)
    ensures forall k :: 0 <= k < |slots| ==> slots[k] < |p|
  {
    if p == [] then []
    else
      var s := p[|p| - 1];
      AnonSlots(p[..|p| - 1], typ) + (if s.anonymous && s.typ == typ then [|p| - 1] else [])
  }

  /** The slots are exactly the positions of the anonymous sections of the type, ascending. */
  lemma {:induction false} AnonSlotsFacts(p: Package, typ: string)
    ensures forall k :: 0 <= k < |AnonSlots(p, typ)| ==>
              p[AnonSlots(p, typ)[k]].anonymous && p[AnonSlots(p, typ)[k]].typ == typ
    ensures forall k, l :: 0 <= k < l < |AnonSlots(p, typ)| ==> AnonSlots(p, typ)[k] < AnonSlots(p, typ)[l]
    ensures forall i :: 0 <= i < |p| && p[i].anonymous && p[i].typ == typ ==> i in AnonSlots(p, typ)
  {
    if p != [] {
      AnonSlotsFacts(p[..|p| - 1], typ);
      assert forall i :: 0 <= i < |p| - 1 ==> p[..|p| - 1][i] == p[i];
    }
  }

  lemma {:induction false} AnonIdsAtSlots(p: Package, typ: string)
    ensures |AnonIds(p, typ)| == |AnonSlots(p, typ)|
    ensures forall k :: 0 <= k < |AnonSlots(p, typ)| ==> AnonIds(p, typ)[k] == p[AnonSlots(p, typ)[k]].id
  {
    if p != [] {
      AnonIdsAtSlots(p[..|p| - 1], typ);
    }
  }

  /** Slots depend only on which sections are anonymous and on their types. */
  lemma {:induction false} AnonSlotsSame(p: Package, q: Package, typ: string)
    requires |p| == |q|
    requires forall i :: 0 <= i < |p| ==> p[i].anonymous == q[i].anonymous && (p[i].anonymous ==> p[i].typ == q[i].typ)
    ensures AnonSlots(p, typ) == AnonSlots(q, typ)
  {
    if p != [] {
      AnonSlotsSame(p[..|p| - 1], q[..|q| - 1], typ);
    }
  }

  lemma AnonSlotsAppend(p: Package, s: Section, typ: string)
    ensures AnonSlots(p + [s], typ) == AnonSlots(p, typ) + if s.anonymous && s.typ == typ then [|p|] else []
  {
    assert (p + [s])[..|p|] == p;
  }

  /** The desired anonymous sections of one type, in payload order. */
  function AnonItems(w: seq<Item>, typ: string): (items: seq<Item>)
    ensures |items| == CountAnon(w, typ)
    ensures forall x :: x in items ==> NameOf(x.fields).None? && x.typ == typ
  {
    if w == [] then []
    else
      var x := w[|w| - 1];
      AnonItems(w[..|w| - 1], typ) + (if NameOf(x.fields).None? && x.typ == typ then [x] else [])
  }

  lemma AnonItemsSnoc(done: seq<Item>, x: Item, typ: string)
    ensures AnonItems(done + [x], typ)
            == AnonItems(done, typ) + if NameOf(x.fields).None? && x.typ == typ then [x] else []
  {
    assert (done + [x])[..|done|] == done;
  }

  lemma {:induction false} AnonItemAt(w: seq<Item>, j: nat)
    requires j < |w| && NameOf(w[j].fields).None?
    ensures CountAnon(w[..j], w[j].typ) < CountAnon(w, w[j].typ)
    ensures AnonItems(w, w[j].typ)[CountAnon(w[..j], w[j].typ)] == w[j]
  {
    if j < |w| - 1 {
      AnonItemAt(w[..|w| - 1], j);
      assert w[..|w| - 1][..j] == w[..j];
    }
  }

  // ---------------------------------------------------------------- where an item goes

  /** The existing section a desired section takes over: by name, or by position among its type. */
  function Target(snap: Package, done: seq<Item>, x: Item): (t: Option<nat>)
    ensures t.Some? ==> t.value < |snap|
  {
    match NameOf(x.fields)
    case Some(name) =>
      var i := FirstIndex(snap, Named(name));
      if i < |snap| then Some(i) else None
    case None =>
      var slots := AnonSlots(snap, x.typ);
      var k := CountAnon(done, x.typ);
      if k < |slots| then Some(slots[k]) else None
  }

  function Written(s: Section, x: Item): Section
  {
    s.(typ := x.typ, options := Stored(OptionsOf(x.fields)))
  }

  function Appended(p: Package, x: Item, gen: IdGen): Section
  {
    var options := Stored(OptionsOf(x.fields));
    match NameOf(x.fields)
    case Some(name) => Section(name, x.typ, name, false, options)
    case None => Section(gen(p), x.typ, gen(p), true, options)
  }

  /** Where each item goes, given the items before it. */
  function Targets(snap: Package, w: seq<Item>): (ts: seq<Option<nat>>)
    ensures |ts| == |w| && InRange(snap, ts)
  {
    if w == [] then [] else Targets(snap, w[..|w| - 1]) + [Target(snap, w[..|w| - 1], w[|w| - 1])]
  }

  ghost predicate InRange(snap: Package, ts: seq<Option<nat>>)
  {
    forall j :: 0 <= j < |ts| && ts[j].Some? ==> ts[j].value < |snap|
  }

  /** The merged package: overwrite the taken-over sections in place, append the others. */
  function Merge(snap: Package, w: seq<Item>, ts: seq<Option<nat>>, gen: IdGen): (p: Package)
    requires |ts| == |w| && InRange(snap, ts)
    ensures |snap| <= |p|
  {
    if w == [] then snap
    else
      var n := |w| - 1;
      MergeStep(snap, Merge(snap, w[..n], ts[..n], gen), ts[n], w[n], gen)
  }

  function MergeStep(snap: Package, p: Package, target: Option<nat>, x: Item, gen: IdGen): (q: Package)
    requires |snap| <= |p| && (target.Some? ==> target.value < |snap|)
    ensures |snap| <= |q|
  {
    match target
    case Some(i) => p[i := Written(snap[i], x)]
    case None => p + [Appended(p, x, gen)]
  }

  function Merged(snap: Package, w: seq<Item>, gen: IdGen): Package
  {
    Merge(snap, w, Targets(snap, w), gen)
  }

  // ---------------------------------------------------------------- one item

  /** Setting the desired values and dropping the stale rest leaves exactly the desired options. */
  lemma OptionsSettle(prior: Options, values: Options)
    ensures Assign(prior, values) - (prior.Keys - values.Keys) == Stored(values)
    ensures prior.Keys <= values.Keys ==> Assign(prior, values) == Stored(values)
    ensures values == map[] ==> Assign(prior, values) == prior
  {
  }

  lemma UpdateKeepsIndex(p: Package, i: nat, s: Section)
    requires WellFormed(p) && i < |p| && s.id == p[i].id
    ensures FirstIndex(p[i := s], WithId(s.id)) == i
  {
    var q := p[i := s];
    assert WithId(s.id)(q[i]);
    var k := FirstIndex(q, WithId(s.id));
    assert q[k].id == s.id;
  }

  /** SetValues followed by the stale-option cleanup, on the section at position i. */
  lemma FillAndClean(cur: Package, i: nat, prior: Section, values: Options)
    requires i < |cur| && FirstIndex(cur, WithId(cur[i].id)) == i
    requires FirstIndex(cur[i := cur[i].(options := Assign(cur[i].options, values))], WithId(cur[i].id)) == i
    requires prior.options == cur[i].options
    ensures var f := Filled(cur, cur[i].id, values);
            f.Some? && Cleaned(f.value, cur[i].id, Some(prior), values.Keys)
                       == Some(cur[i := cur[i].(options := Stored(values))])
  {
    OptionsSettle(prior.options, values);
    var filled := cur[i := cur[i].(options := Assign(cur[i].options, values))];
    assert Filled(cur, cur[i].id, values) == Some(filled) by {
      if values == map[] {
        assert filled == cur;
      }
    }
    if !(prior.options.Keys <= values.Keys) {
      assert DropOptions(filled, cur[i].id, prior.options.Keys - values.Keys).value
          == cur[i := cur[i].(options := Stored(values))];
    }
  }

  predicate Hits(s: Section, x: Item, reuse: string)
  {
    match NameOf(x.fields)
    case Some(name) => !s.anonymous && s.name == name
    case None => s.anonymous && s.id == reuse
  }

  /** An item that takes over section i overwrites its type and options and nothing else. */
  lemma HitStep(snap: Package, cur: Package, i: nat, x: Item, reuse: string, gen: IdGen)
    requires WellFormed(snap) && WellFormed(cur)
    requires i < |snap| <= |cur| && cur[i] == snap[i]
    requires Hits(snap[i], x, reuse) && (snap[i].anonymous ==> snap[i].typ == x.typ)
    ensures ApplyItem(snap, cur, x, reuse, gen) == Some(cur[i := Written(snap[i], x)])
  {
    var s, values := snap[i], OptionsOf(x.fields);
    IndexIsUnique(snap, i);
    IndexIsUnique(cur, i);
    var retyped := cur[i := s.(typ := x.typ)];
    UpdateKeepsIndex(cur, i, s.(typ := x.typ));
    UpdateKeepsIndex(cur, i, s.(typ := x.typ, options := Assign(s.options, values)));
    assert retyped[i := retyped[i].(options := Assign(s.options, values))]
        == cur[i := s.(typ := x.typ, options := Assign(s.options, values))];
    FillAndClean(retyped, i, s, values);
    assert retyped[i := retyped[i].(options := Stored(values))] == cur[i := Written(s, x)];
    if s.typ == x.typ {
      assert retyped == cur;
    }
  }

  /** An item that takes over nothing becomes a new last section. */
  lemma MissStep(snap: Package, cur: Package, x: Item, gen: IdGen)
    requires FreshIds(gen)
    requires match NameOf(x.fields)
             case Some(name) => name != "" && First(snap, Named(name)).None? && forall s :: s in cur ==> s.id != name
             case None => true
    ensures ApplyItem(snap, cur, x, "", gen) == Some(cur + [Appended(cur, x, gen)])
  {
    var values := OptionsOf(x.fields);
    var name := if NameOf(x.fields).Some? then NameOf(x.fields).value else "";
    assert name != "" ==> FirstIndex(cur, WithId(name)) == |cur|;
    var added := AddSection(cur, x.typ, name, gen);
    var id := AddedId(cur, name, gen);
    assert WithId(id)(added[|cur|]);
    assert FirstIndex(added, WithId(id)) == |cur|;
    assert Stored(map[]) == map[];
    assert added == cur + [added[|cur|]];
    assert added[|cur| := added[|cur|].(options := Stored(values))] == cur + [Appended(cur, x, gen)];
    assert Filled(added, id, values) == Some(cur + [Appended(cur, x, gen)]);
  }

  // ---------------------------------------------------------------- all items

  lemma {:induction false} TargetsAt(snap: Package, w: seq<Item>, j: nat)
    requires j < |w|
    ensures Targets(snap, w)[j] == Target(snap, w[..j], w[j])
  {
    if j < |w| - 1 {
      TargetsAt(snap, w[..|w| - 1], j);
      assert w[..|w| - 1][..j] == w[..j];
    }
  }

  /** No two desired sections take over the same existing section. */
  ghost predicate Disjoint(ts: seq<Option<nat>>)
  {
    forall j, l :: 0 <= j < l < |ts| && ts[j].Some? ==> ts[j] != ts[l]
  }

  lemma TargetsDisjoint(snap: Package, w: seq<Item>)
    requires NamesOk(w)
    ensures Disjoint(Targets(snap, w))
  {
    forall j, l | 0 <= j < l < |w| && Targets(snap, w)[j].Some? ensures Targets(snap, w)[j] != Targets(snap, w)[l] {
      TargetsAt(snap, w, j);
      TargetsAt(snap, w, l);
      TwoTargetsDiffer(snap, w, j, l);
    }
  }

  lemma TwoTargetsDiffer(snap: Package, w: seq<Item>, j: nat, l: nat)
    requires NamesOk(w) && j < l < |w| && Target(snap, w[..j], w[j]).Some?
    ensures Target(snap, w[..j], w[j]) != Target(snap, w[..l], w[l])
  {
    AnonSlotsFacts(snap, w[j].typ);
    AnonSlotsFacts(snap, w[l].typ);
    if NameOf(w[j].fields).None? {
      AnonItemAt(w[..l], j);
      assert w[..l][..j] == w[..j];
    }
  }

  lemma AdmissiblePrefix(snap: Package, w: seq<Item>, n: nat, gen: IdGen)
    requires Admissible(snap, w, gen) && n <= |w|
    ensures Admissible(snap, w[..n], gen)
    ensures KeepNames(w[..n]) <= KeepNames(w)
    ensures n < |w| && NameOf(w[n].fields).Some? ==> NameOf(w[n].fields).value !in KeepNames(w[..n])
  {
    assert forall x :: x in w[..n] ==> x in w;
  }

  /** The section keeps its identity; an anonymous one also keeps its type. */
  ghost predicate SameSection(s: Section, t: Section)
  {
    s.id == t.id && s.name == t.name && s.anonymous == t.anonymous && (s.anonymous ==> s.typ == t.typ)
  }

  ghost predicate NewSection(s: Section, names: set<string>, gen: IdGen)
  {
    if s.anonymous then exists q: Package :: s.id == gen(q) else s.id in names
  }

  /** What is known of a target without knowing how it was found. */
  ghost predicate Fits(snap: Package, target: Option<nat>, x: Item)
    requires target.Some? ==> target.value < |snap|
  {
    match target
    case Some(i) =>
      if NameOf(x.fields).Some? then !snap[i].anonymous && snap[i].name == NameOf(x.fields).value
      else snap[i].anonymous && snap[i].typ == x.typ
    case None => NameOf(x.fields).Some? ==> First(snap, Named(NameOf(x.fields).value)).None?
  }

  ghost predicate AllFit(snap: Package, w: seq<Item>, ts: seq<Option<nat>>)
  {
    |ts| == |w| && InRange(snap, ts) && forall j :: 0 <= j < |w| ==> Fits(snap, ts[j], w[j])
  }

  lemma TargetsFit(snap: Package, w: seq<Item>)
    ensures AllFit(snap, w, Targets(snap, w))
  {
    forall j | 0 <= j < |w| ensures Fits(snap, Targets(snap, w)[j], w[j]) {
      TargetsAt(snap, w, j);
      AnonSlotsFacts(snap, w[j].typ);
    }
  }

  /** p is snap after some merging: well formed, old sections in place, the rest new. */
  ghost predicate Extends(snap: Package, p: Package, names: set<string>, gen: IdGen)
  {
    && WellFormed(p) && |snap| <= |p|
    && (forall i :: 0 <= i < |snap| ==> SameSection(snap[i], p[i]))
    && (forall k :: |snap| <= k < |p| ==> NewSection(p[k], names, gen))
  }

  lemma MergeStepExtends(snap: Package, p: Package, done: seq<Item>, x: Item, target: Option<nat>, gen: IdGen)
    requires Admissible(snap, done + [x], gen) && Extends(snap, p, KeepNames(done), gen)
    requires (target.Some? ==> target.value < |snap|) && Fits(snap, target, x)
    ensures Extends(snap, MergeStep(snap, p, target, x, gen), KeepNames(done + [x]), gen)
  {
    assert forall y :: y in done ==> y in done + [x];
    assert x in done + [x];
    var q := MergeStep(snap, p, target, x, gen);
    if target.None? {
      var s := Appended(p, x, gen);
      assert q == p + [s];
      assert NewSection(s, KeepNames(done + [x]), gen) && s.id != "" && (!s.anonymous ==> s.name == s.id);
      forall k | 0 <= k < |p| ensures p[k].id != s.id {
        assert p[k] in p;
        if NameOf(x.fields).Some? {
          NewNameIsFree(snap, p, done, x, k, gen);
        }
      }
    }
  }

  /** Merging keeps the package well formed and every old section in place. */
  lemma {:induction false} MergeExtends(snap: Package, w: seq<Item>, ts: seq<Option<nat>>, gen: IdGen)
    requires Admissible(snap, w, gen) && AllFit(snap, w, ts)
    ensures Extends(snap, Merge(snap, w, ts, gen), KeepNames(w), gen)
  {
    if w != [] {
      var n := |w| - 1;
      AdmissiblePrefix(snap, w, n, gen);
      MergeExtends(snap, w[..n], ts[..n], gen);
      assert w[..n] + [w[n]] == w;
      MergeStepExtends(snap, Merge(snap, w[..n], ts[..n], gen), w[..n], w[n], ts[n], gen);
    }
  }

  /** The name of a section about to be appended is nobody's id yet. */
  lemma NewNameIsFree(snap: Package, p: Package, done: seq<Item>, x: Item, k: nat, gen: IdGen)
    requires Admissible(snap, done + [x], gen) && NameOf(x.fields).Some?
    requires First(snap, Named(NameOf(x.fields).value)).None?
    requires |snap| <= |p| && k < |p|
    requires k < |snap| ==> SameSection(snap[k], p[k])
    requires k >= |snap| ==> NewSection(p[k], KeepNames(done), gen)
    ensures p[k].id != NameOf(x.fields).value
  {
    var name := NameOf(x.fields).value;
    var w := done + [x];
    assert w[..|done|] == done && w[|done|] == x;
    AdmissiblePrefix(snap, w, |done|, gen);
    assert x in w && name in KeepNames(w);
    if k < |snap| {
      assert snap[k] in snap;
      assert Named(name)(snap[k]) <==> !snap[k].anonymous && snap[k].name == name;
    }
  }

  /** A section no item takes over is left exactly as it was. */
  lemma {:induction false} MergeLeavesAlone(snap: Package, w: seq<Item>, ts: seq<Option<nat>>, i: nat, gen: IdGen)
    requires |ts| == |w| && InRange(snap, ts) && i < |snap|
    requires forall j :: 0 <= j < |ts| ==> ts[j] != Some(i)
    ensures Merge(snap, w, ts, gen)[i] == snap[i]
  {
    if w != [] {
      var n := |w| - 1;
      MergeLeavesAlone(snap, w[..n], ts[..n], i, gen);
      assert ts[n] != Some(i);
    }
  }

  /** A taken-over section ends up with exactly the payload's type and options. */
  lemma {:induction false} MergeOverwrites(snap: Package, w: seq<Item>, ts: seq<Option<nat>>, j: nat, gen: IdGen)
    requires |ts| == |w| && InRange(snap, ts) && Disjoint(ts)
    requires j < |w| && ts[j].Some?
    ensures Merge(snap, w, ts, gen)[ts[j].value] == Written(snap[ts[j].value], w[j])
  {
    var n := |w| - 1;
    if j < n {
      MergeOverwrites(snap, w[..n], ts[..n], j, gen);
      assert ts[j] != ts[n];
    }
  }

  lemma StepIsExact(snap: Package, p: Package, done: seq<Item>, x: Item, gen: IdGen)
    requires Admissible(snap, done + [x], gen) && Extends(snap, p, KeepNames(done), gen)
    requires Target(snap, done, x).Some? ==> p[Target(snap, done, x).value] == snap[Target(snap, done, x).value]
    ensures ApplyItem(snap, p, x, ReuseId(snap, true, done, x), gen)
            == Some(MergeStep(snap, p, Target(snap, done, x), x, gen))
  {
    AnonIdsAtSlots(snap, x.typ);
    AnonSlotsFacts(snap, x.typ);
    assert x in done + [x];
    match Target(snap, done, x) {
      case Some(i) =>
        HitStep(snap, p, i, x, ReuseId(snap, true, done, x), gen);
      case None =>
        if NameOf(x.fields).Some? {
          forall s | s in p ensures s.id != NameOf(x.fields).value {
            var k :| 0 <= k < |p| && p[k] == s;
            NewNameIsFree(snap, p, done, x, k, gen);
          }
        }
        MissStep(snap, p, x, gen);
    }
  }

  lemma NextTargetIsUntouched(snap: Package, done: seq<Item>, x: Item, gen: IdGen)
    requires NamesOk(done + [x]) && Target(snap, done, x).Some?
    ensures Merged(snap, done, gen)[Target(snap, done, x).value] == snap[Target(snap, done, x).value]
  {
    var w := done + [x];
    var ts := Targets(snap, w);
    assert w[..|done|] == done;
    TargetsDisjoint(snap, w);
    assert ts[..|done|] == Targets(snap, done) && ts[|done|] == Target(snap, done, x);
    forall j | 0 <= j < |done| ensures Targets(snap, done)[j] != Target(snap, done, x) {
      assert ts[j].Some? ==> ts[j] != ts[|done|];
    }
    MergeLeavesAlone(snap, done, Targets(snap, done), Target(snap, done, x).value, gen);
  }

  lemma MergedSnoc(snap: Package, done: seq<Item>, x: Item, gen: IdGen)
    ensures Merged(snap, done + [x], gen) == MergeStep(snap, Merged(snap, done, gen), Target(snap, done, x), x, gen)
  {
    var w := done + [x];
    assert w[..|done|] == done;
    assert Targets(snap, w)[..|done|] == Targets(snap, done);
  }

  /** Staging in merge mode succeeds and computes exactly the merged package. */
  lemma {:induction false} MergeIsExact(snap: Package, w: seq<Item>, gen: IdGen)
    requires Admissible(snap, w, gen)
    ensures Fold(snap, snap, true, w, gen) == Some(Merged(snap, w, gen))
  {
    if w != [] {
      var n := |w| - 1;
      var done, x := w[..n], w[n];
      assert done + [x] == w;
      AdmissiblePrefix(snap, w, n, gen);
      MergeIsExact(snap, done, gen);
      TargetsFit(snap, done);
      MergeExtends(snap, done, Targets(snap, done), gen);
      if Target(snap, done, x).Some? {
        NextTargetIsUntouched(snap, done, x, gen);
      }
      StepIsExact(snap, Merged(snap, done, gen), done, x, gen);
      MergedSnoc(snap, done, x, gen);
    }
  }
}
