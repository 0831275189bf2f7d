/**
 UCI packages as the device reports them (internal/uci/sections.go), the searches over a
 package snapshot, and what each rpcd write does to a package.
 */
module Uci {
  import opened Wrappers

  /** A UCI option is a string or a list of strings. */
  datatype Value = Scalar(text: string) | List(items: seq<string>)

  type Options = map<string, Value>

  datatype Section = Section(id: string, typ: string, name: string, anonymous: bool, options: Options)

  /** The sections of one package in on-device declaration order. */
  type Package = seq<Section>

  /** The device's choice of id for a new anonymous section. */
  type IdGen = Package -> string

  // ---------------------------------------------------------------- searches

  /** Position of the first item satisfying pred, or |items|. */
  function FirstIndex<T>(items: seq<T>, pred: T -> bool): (i: nat)
    ensures i <= |items|
    ensures i < |items| ==> pred(items[i])
    ensures forall k :: 0 <= k < i ==> !pred(items[k])
  {
    if items == [] then 0
    else if pred(items[0]) then 0
    else
      var rest := FirstIndex(items[1..], pred);
      assert forall k :: 0 < k <= rest ==> items[k] == items[1..][k - 1] || k == |items|;
      1 + rest
  }

  function First<T>(items: seq<T>, pred: T -> bool): Option<T>
  {
    var i := FirstIndex(items, pred);
    if i < |items| then Some(items[i]) else None
  }

  method FindFirst<T>(items: seq<T>, pred: T -> bool) returns (r: Option<T>)
    ensures r == First(items, pred)
    ensures r.None? <==> forall x :: x in items ==> !pred(x)
  {
    for i := 0 to |items|
      invariant forall k :: 0 <= k < i ==> !pred(items[k])
    {
      if pred(items[i]) {
        return Some(items[i]);
      }
    }
    return None;
  }

  function Named(name: string): Section -> bool
  {
    (s: Section) => !s.anonymous && s.name == name
  }

  function WithId(id: string): Section -> bool
  {
    (s: Section) => s.id == id
  }

  method FindSectionByName(sections: Package, name: string) returns (r: Option<Section>)
    ensures r == First(sections, Named(name))
  {
    r := FindFirst(sections, Named(name));
  }

  method FindSectionByID(sections: Package, id: string) returns (r: Option<Section>)
    ensures r == First(sections, WithId(id))
  {
    r := FindFirst(sections, WithId(id));
  }

  // ---------------------------------------------------------------- device shape

  ghost predicate UniqueIds(p: Package)
  {
    forall i, j :: 0 <= i < j < |p| ==> p[i].id != p[j].id
  }

  /** What GetSections delivers: ids are unique and non-empty, and a named section's id is its name. */
  ghost predicate WellFormed(p: Package)
  {
    && UniqueIds(p)
    && forall i :: 0 <= i < |p| ==> p[i].id != "" && (!p[i].anonymous ==> p[i].name == p[i].id)
  }

  ghost predicate FreshIds(gen: IdGen)
  {
    forall p: Package :: gen(p) != "" && forall s :: s in p ==> s.id != gen(p)
  }

  lemma IndexIsUnique(p: Package, i: nat)
    requires WellFormed(p) && i < |p|
    ensures FirstIndex(p, WithId(p[i].id)) == i
    ensures !p[i].anonymous ==> FirstIndex(p, Named(p[i].name)) == i
  {
    var k := FirstIndex(p, WithId(p[i].id));
    assert WithId(p[i].id)(p[i]);
    if !p[i].anonymous {
      var n := FirstIndex(p, Named(p[i].name));
      assert Named(p[i].name)(p[i]);
    }
  }

  // ---------------------------------------------------------------- rpcd writes

  /**
   `uci set` of several options at once. A list replaces the whole option; an empty list leaves
   no option behind, because in UCI an empty list and an absent option are the same thing.
   */
  function Assign(options: Options, values: Options): Options
  {
    map k | k in options.Keys + values.Keys && (k in values ==> values[k] != List([]))
      :: if k in values then values[k] else options[k]
  }

  /** The part of a set of values that is visible once stored. */
  function Stored(values: Options): Options
  {
    Assign(map[], values)
  }

  /** `uci add`: anonymous when name is empty, else the named section is created (or retyped if it is there). */
  function AddSection(p: Package, typ: string, name: string, gen: IdGen): Package
  {
    if name == "" then
      p + [Section(gen(p), typ, gen(p), true, map[])]
    else
      var i := FirstIndex(p, WithId(name));
      if i < |p| then p[i := p[i].(typ := typ)]
      else p + [Section(name, typ, name, false, map[])]
  }

  function AddedId(p: Package, name: string, gen: IdGen): string
  {
    if name == "" then gen(p) else name
  }

  /** The remaining writes address one section by id and fail when it is not there. */
  function SetOptions(p: Package, id: string, values: Options): Option<Package>
  {
    var i := FirstIndex(p, WithId(id));
    if i < |p| then Some(p[i := p[i].(options := Assign(p[i].options, values))]) else None
  }

  function DropOptions(p: Package, id: string, keys: set<string>): Option<Package>
  {
    var i := FirstIndex(p, WithId(id));
    if i < |p| then Some(p[i := p[i].(options := p[i].options - keys)]) else None
  }

  function Retype(p: Package, id: string, typ: string): Option<Package>
  {
    var i := FirstIndex(p, WithId(id));
    if i < |p| then Some(p[i := p[i].(typ := typ)]) else None
  }

  function DropSection(p: Package, id: string): Option<Package>
  {
    var i := FirstIndex(p, WithId(id));
    if i < |p| then Some(p[..i] + p[i + 1..]) else None
  }

  /**
   CreateOrRetype: whether the section exists, and under which type, is judged by what an earlier
   snapshot showed; the write goes to the package as it is now.
   */
  function CreatedOrRetyped(existing: Option<Section>, cur: Package, typ: string, id: string, gen: IdGen): Option<Package>
  {
    match existing
    case None => Some(AddSection(cur, typ, id, gen))
    case Some(s) => if s.typ != typ then Retype(cur, id, typ) else Some(cur)
  }
}
