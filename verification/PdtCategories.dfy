/** The categories that choose a product definition template: all combinations of their values, and
    which templates a combination selects. */
module PdtCategories {
  import opened Arithmetic
  import opened Wrappers

  /** A value of a category: its groups, if it has any, and the categories below it. */
  datatype Value = Value(name: Option<string>, groups: Option<seq<string>>, sub: SubDefinitions)

  datatype SubDefinitions = NoSub | Below(categories: seq<Category>)

  datatype Category = Category(name: string, values: seq<Value>)

  function GroupSet(v: Value): set<string> {
    if v.groups.None? then {} else set g | g in v.groups.value
  }

  function AllGroups(values: seq<Value>): set<string> {
    set v, g | v in values && g in GroupSet(v) :: g
  }

  /** A selector with the groups its templates must have and those they must not have. */
  datatype Combination = Combination(selector: map<string, Option<string>>, groups: set<string>, excluded: set<string>)

  function Merge(a: Combination, b: Combination): Combination {
    Combination(a.selector + b.selector, a.groups + b.groups, a.excluded + b.excluded)
  }

  /** One combination with each of the others. */
  function MergeEach(a: Combination, bs: seq<Combination>): seq<Combination> {
    if bs == [] then [] else MergeEach(a, bs[..|bs| - 1]) + [Merge(a, bs[|bs| - 1])]
  }

  function Product(as_: seq<Combination>, bs: seq<Combination>): seq<Combination> {
    if as_ == [] then [] else MergeEach(as_[0], bs) + Product(as_[1..], bs)
  }

  const NOTHING := Combination(map[], {}, {})

  function OfValue(name: string, values: seq<Value>, v: Value): Combination {
    Combination(map[name := v.name], GroupSet(v), AllGroups(values) - GroupSet(v))
  }

  /** The combinations with this value of the category. */
  function WithValue(name: string, values: seq<Value>, v: Value): seq<Combination>
    decreases v
  {
    var own := OfValue(name, values, v);
    if v.sub.NoSub? then [own] else MergeEach(own, Combined(v.sub.categories))
  }

  /** The combinations of one category, value by value; `rest` are the values still to come. */
  function Single(name: string, values: seq<Value>, rest: seq<Value>): seq<Combination>
    decreases rest
  {
    if rest == [] then [] else WithValue(name, values, rest[0]) + Single(name, values, rest[1..])
  }

  function OfCategory(c: Category): seq<Combination>
    decreases c
  {
    Single(c.name, c.values, c.values)
  }

  /** The combinations of several categories. */
  function Combined(cats: seq<Category>): seq<Combination>
    decreases cats
  {
    if cats == [] then [NOTHING]
    else Product(OfCategory(cats[0]), Combined(cats[1..]))
  }

  // ---- which combinations select a template with these groups

  predicate Selects(c: Combination, groups: set<string>) {
    c.excluded * groups == {} && c.groups <= groups
  }

  function Count(cs: seq<Combination>, groups: set<string>): nat {
    if cs == [] then 0 else Count(cs[..|cs| - 1], groups) + if Selects(cs[|cs| - 1], groups) then 1 else 0
  }

  /** The template's groups among those of the category are exactly the groups of the value. */
  predicate Exact(values: seq<Value>, v: Value, groups: set<string>) {
    AllGroups(values) * groups == GroupSet(v)
  }

  // The number of ways to choose values, category by category.

  function WaysOfValue(values: seq<Value>, v: Value, groups: set<string>): nat
    decreases v
  {
    if !Exact(values, v, groups) then 0 else if v.sub.NoSub? then 1 else Ways(v.sub.categories, groups)
  }

  function WaysOfValues(values: seq<Value>, rest: seq<Value>, groups: set<string>): nat
    decreases rest
  {
    if rest == [] then 0 else WaysOfValue(values, rest[0], groups) + WaysOfValues(values, rest[1..], groups)
  }

  function WaysOfCategory(c: Category, groups: set<string>): nat
    decreases c
  {
    WaysOfValues(c.values, c.values, groups)
  }

  function Ways(cats: seq<Category>, groups: set<string>): nat
    decreases cats
  {
    if cats == [] then 1 else Times(WaysOfCategory(cats[0], groups), Ways(cats[1..], groups))
  }

  lemma SelectsMerge(a: Combination, b: Combination, groups: set<string>)
    ensures Selects(Merge(a, b), groups) <==> Selects(a, groups) && Selects(b, groups)
  {
    var m := Merge(a, b);
    assert m.excluded * groups == (a.excluded * groups) + (b.excluded * groups);
    if Selects(m, groups) {
      assert a.excluded * groups <= m.excluded * groups;
      assert b.excluded * groups <= m.excluded * groups;
    }
  }

  lemma SelectsValue(name: string, values: seq<Value>, v: Value, groups: set<string>)
    requires v in values
    ensures Selects(OfValue(name, values, v), groups) <==> Exact(values, v, groups)
  {
    var all, own := AllGroups(values), GroupSet(v);
    assert own <= all;
    if Selects(OfValue(name, values, v), groups) {
      forall g ensures g in all * groups <==> g in own {
        assert g in all - own ==> g !in (all - own) * groups;
      }
    }
    if Exact(values, v, groups) {
      forall g ensures g !in (all - own) * groups {
        assert g in all * groups <==> g in own;
      }
      assert (all - own) * groups == {};
      forall g | g in own ensures g in groups {
        assert g in all * groups;
      }
    }
  }

  lemma {:induction false} CountConcat(a: seq<Combination>, b: seq<Combination>, groups: set<string>)
    ensures Count(a + b, groups) == Count(a, groups) + Count(b, groups)
    decreases |b|
  {
    if b == [] {
      assert a + b == a;
    } else {
      var all := a + b;
      assert all[..|all| - 1] == a + b[..|b| - 1] && all[|all| - 1] == b[|b| - 1];
      CountConcat(a, b[..|b| - 1], groups);
    }
  }

  lemma {:induction false} CountMergeEach(a: Combination, bs: seq<Combination>, groups: set<string>)
    ensures Count(MergeEach(a, bs), groups) == if Selects(a, groups) then Count(bs, groups) else 0
    decreases |bs|
  {
    hide Selects, Merge;
    if bs != [] {
      var init, b := bs[..|bs| - 1], bs[|bs| - 1];
      CountMergeEach(a, init, groups);
      SelectsMerge(a, b, groups);
      var all := MergeEach(a, bs);
      assert all[..|all| - 1] == MergeEach(a, init) && all[|all| - 1] == Merge(a, b);
    }
  }

  /** Combining independently multiplies the numbers of selecting combinations. */
  lemma {:induction false} CountProduct(as_: seq<Combination>, bs: seq<Combination>, groups: set<string>)
    ensures Count(Product(as_, bs), groups) == Times(Count(as_, groups), Count(bs, groups))
    decreases |as_|
  {
    hide Selects, MergeEach;
    if as_ != [] {
      CountProduct(as_[1..], bs, groups);
      CountMergeEach(as_[0], bs, groups);
      CountConcat(MergeEach(as_[0], bs), Product(as_[1..], bs), groups);
      assert as_ == [as_[0]] + as_[1..];
      CountConcat([as_[0]], as_[1..], groups);
      CountOne(as_[0], groups);
      TimesStep(Count(as_[1..], groups), if Selects(as_[0], groups) then 1 else 0, Count(bs, groups));
    }
  }

  lemma CountOne(c: Combination, groups: set<string>)
    ensures Count([c], groups) == if Selects(c, groups) then 1 else 0
  {
    assert [c][..0] == [];
  }

  lemma TimesStep(n: nat, one: nat, m: nat)
    requires one <= 1
    ensures Times(one + n, m) == Times(n, m) + if one == 1 then m else 0
  {
  }

  lemma {:induction false} CountValue(name: string, values: seq<Value>, v: Value, groups: set<string>)
    requires v in values
    ensures Count(WithValue(name, values, v), groups) == WaysOfValue(values, v, groups)
    decreases v
  {
    hide Selects, Exact, AllGroups, OfValue;
    var own := OfValue(name, values, v);
    SelectsValue(name, values, v, groups);
    if v.sub.NoSub? {
      CountOne(own, groups);
    } else {
      CountMergeEach(own, Combined(v.sub.categories), groups);
      CombinationsAreWays(v.sub.categories, groups);
    }
  }

  lemma {:induction false} CountSingle(name: string, values: seq<Value>, rest: seq<Value>, groups: set<string>)
    requires forall v :: v in rest ==> v in values
    ensures Count(Single(name, values, rest), groups) == WaysOfValues(values, rest, groups)
    decreases rest
  {
    if rest != [] {
      CountValue(name, values, rest[0], groups);
      CountSingle(name, values, rest[1..], groups);
      CountConcat(WithValue(name, values, rest[0]), Single(name, values, rest[1..]), groups);
    }
  }

  lemma {:induction false} CountCategory(c: Category, groups: set<string>)
    ensures Count(OfCategory(c), groups) == WaysOfCategory(c, groups)
    decreases c
  {
    CountSingle(c.name, c.values, c.values, groups);
  }

  /** As many combinations select a template as there are ways to choose, category by category, a
      value whose groups are exactly the template's groups among those of the category. */
  lemma {:induction false} CombinationsAreWays(cats: seq<Category>, groups: set<string>)
    ensures Count(Combined(cats), groups) == Ways(cats, groups)
    decreases cats
  {
    if cats == [] {
      CountOne(NOTHING, groups);
    } else {
      CountCategory(cats[0], groups);
      CombinationsAreWays(cats[1..], groups);
      CountProduct(OfCategory(cats[0]), Combined(cats[1..]), groups);
    }
  }

  // ---- unambiguous categories

  /** No two values of a category, at any depth, have the same groups. */
  predicate DistinctGroups(cats: seq<Category>)
    decreases cats
  {
    forall i :: 0 <= i < |cats| ==> DistinctCategory(cats[i])
  }

  predicate DistinctCategory(c: Category)
    decreases c
  {
    && (forall i, j :: 0 <= i < j < |c.values| ==> GroupSet(c.values[i]) != GroupSet(c.values[j]))
    && forall i :: 0 <= i < |c.values| ==> DistinctBelow(c.values[i])
  }

  predicate DistinctBelow(v: Value)
    decreases v
  {
    v.sub.Below? ==> DistinctGroups(v.sub.categories)
  }

  lemma TimesAtMostOne(a: nat, b: nat)
    requires a <= 1 && b <= 1
    ensures Times(a, b) <= 1
  {
    if a == 1 {
      assert Times(a, b) == b;
    } else {
      assert Times(a, b) == 0;
    }
  }

  /** If every value leaves at most one way and at most one value has exactly the template's groups,
      the category leaves at most one way. */
  lemma {:induction false} OneValue(values: seq<Value>, rest: seq<Value>, groups: set<string>)
    requires forall v :: v in rest ==> WaysOfValue(values, v, groups) <= 1
    requires forall i, j :: 0 <= i < j < |rest| ==> !(Exact(values, rest[i], groups) && Exact(values, rest[j], groups))
    ensures WaysOfValues(values, rest, groups) <= 1
    ensures (forall i :: 0 <= i < |rest| ==> !Exact(values, rest[i], groups)) ==> WaysOfValues(values, rest, groups) == 0
    decreases |rest|
  {
    hide Exact;
    if rest != [] {
      var tail := rest[1..];
      forall i ensures 0 <= i < |tail| ==> tail[i] == rest[i + 1] { }
      forall i, j | 0 <= i < j < |tail| ensures !(Exact(values, tail[i], groups) && Exact(values, tail[j], groups)) {
        assert tail[i] == rest[i + 1] && tail[j] == rest[j + 1];
      }
      OneValue(values, tail, groups);
      assert rest[0] in rest;
    }
  }

  lemma {:induction false} OneWayBelow(values: seq<Value>, v: Value, groups: set<string>)
    requires DistinctBelow(v)
    ensures WaysOfValue(values, v, groups) <= 1
    decreases v
  {
    if v.sub.Below? {
      OneWay(v.sub.categories, groups);
    }
  }

  lemma {:induction false} OneWayOfCategory(c: Category, groups: set<string>)
    requires DistinctCategory(c)
    ensures WaysOfCategory(c, groups) <= 1
    decreases c
  {
    forall v | v in c.values ensures WaysOfValue(c.values, v, groups) <= 1 {
      OneWayBelow(c.values, v, groups);
    }
    OneValue(c.values, c.values, groups);
  }

  lemma {:induction false} OneWay(cats: seq<Category>, groups: set<string>)
    requires DistinctGroups(cats)
    ensures Ways(cats, groups) <= 1
    decreases cats
  {
    if cats != [] {
      OneWayOfCategory(cats[0], groups);
      OneWay(cats[1..], groups);
      TimesAtMostOne(WaysOfCategory(cats[0], groups), Ways(cats[1..], groups));
    }
  }

  /** If the values of every category have distinct groups, whatever groups a template has, it is
      selected by at most one combination. */
  lemma ChoiceIsUnambiguous(cats: seq<Category>, groups: set<string>, i: nat, j: nat)
    requires DistinctGroups(cats) && i < j < |Combined(cats)|
    ensures !(Selects(Combined(cats)[i], groups) && Selects(Combined(cats)[j], groups))
  {
    OneWay(cats, groups);
    CombinationsAreWays(cats, groups);
    if Selects(Combined(cats)[i], groups) && Selects(Combined(cats)[j], groups) {
      CountTwo(Combined(cats), groups, i, j);
    }
  }

  lemma {:induction false} CountTwo(cs: seq<Combination>, groups: set<string>, i: nat, j: nat)
    requires i < j < |cs| && Selects(cs[i], groups) && Selects(cs[j], groups)
    ensures Count(cs, groups) >= 2
    decreases |cs|
  {
    if j < |cs| - 1 {
      CountTwo(cs[..|cs| - 1], groups, i, j);
    } else {
      CountSome(cs[..j], groups, i);
    }
  }

  lemma {:induction false} CountSome(cs: seq<Combination>, groups: set<string>, i: nat)
    requires i < |cs| && Selects(cs[i], groups)
    ensures Count(cs, groups) >= 1
    decreases |cs|
  {
    if i < |cs| - 1 {
      CountSome(cs[..|cs| - 1], groups, i);
    }
  }

  /** Distinctness is needed: two values without anything below them and with the same groups are
      chosen together or not at all. */
  lemma SameGroupsAmbiguous(name: string, values: seq<Value>, i: nat, j: nat)
    requires i < j < |values| && values[i].sub.NoSub? && values[j].sub.NoSub?
    requires GroupSet(values[i]) == GroupSet(values[j])
    ensures WaysOfCategory(Category(name, values), GroupSet(values[i])) >= 2
  {
    var groups := GroupSet(values[i]);
    assert values[i] in values && values[j] in values;
    assert Exact(values, values[i], groups) by {
      assert groups <= AllGroups(values);
      assert AllGroups(values) * groups == groups;
    }
    WaysAtLeast(values, values, groups, i, j);
  }

  lemma {:induction false} WaysAtLeast(values: seq<Value>, rest: seq<Value>, groups: set<string>, i: nat, j: nat)
    requires i <= j < |rest|
    requires WaysOfValue(values, rest[i], groups) >= 1 && WaysOfValue(values, rest[j], groups) >= 1
    ensures WaysOfValues(values, rest, groups) >= if i < j then 2 else 1
    decreases |rest|
  {
    if i > 0 {
      WaysAtLeast(values, rest[1..], groups, i - 1, j - 1);
    } else if j > 0 {
      WaysAtLeast(values, rest[1..], groups, j - 1, j - 1);
    }
  }

  // ---- the check that runs before the combinations are generated

  /** All groups of the value are among the template's; a value without groups is passed over. */
  predicate Listed(v: Value, groups: set<string>) {
    v.groups.Some? && GroupSet(v) <= groups
  }

  /** The check finds at most one listed value in every category it looks at; it looks at the
      categories below listed values only. */
  predicate Passes(cats: seq<Category>, groups: set<string>)
    decreases cats
  {
    forall i :: 0 <= i < |cats| ==> CategoryPasses(cats[i], groups)
  }

  predicate CategoryPasses(c: Category, groups: set<string>)
    decreases c
  {
    && (forall i, j :: 0 <= i < j < |c.values| ==> !(Listed(c.values[i], groups) && Listed(c.values[j], groups)))
    && forall i :: 0 <= i < |c.values| && Listed(c.values[i], groups) ==> BelowPasses(c.values[i], groups)
  }

  predicate BelowPasses(v: Value, groups: set<string>)
    decreases v
  {
    v.sub.Below? ==> Passes(v.sub.categories, groups)
  }

  /** The loop over the values of a category: it raises at the second listed value, or in a category
      below a listed one. */
  method CheckCategory(c: Category, groups: set<string>) returns (o: Outcome)
    ensures o.Done? <==> CategoryPasses(c, groups)
    decreases c
  {
    var alreadyMatched, k := false, 0;
    while k < |c.values|
      invariant 0 <= k <= |c.values|
      invariant alreadyMatched <==> exists i :: 0 <= i < k && Listed(c.values[i], groups)
      invariant forall i, j :: 0 <= i < j < k ==> !(Listed(c.values[i], groups) && Listed(c.values[j], groups))
      invariant forall i :: 0 <= i < k && Listed(c.values[i], groups) ==> BelowPasses(c.values[i], groups)
    {
      var v := c.values[k];
      if v.groups.Some? && (set g | g in v.groups.value) <= groups {
        assert Listed(v, groups);
        if alreadyMatched {
          return Raised("already matched");
        }
        alreadyMatched := true;
        if v.sub.Below? {
          o := CheckUnique(v.sub.categories, groups);
          if o.Raised? {
            return;
          }
        }
      }
      k := k + 1;
    }
    o := Done;
  }

  /** The check of one template against all categories. */
  method CheckUnique(cats: seq<Category>, groups: set<string>) returns (o: Outcome)
    ensures o.Done? <==> Passes(cats, groups)
    decreases cats
  {
    var k := 0;
    while k < |cats|
      invariant 0 <= k <= |cats|
      invariant forall i :: 0 <= i < k ==> CategoryPasses(cats[i], groups)
    {
      o := CheckCategory(cats[k], groups);
      if o.Raised? {
        return;
      }
      k := k + 1;
    }
    o := Done;
  }

  /** What the check does not look at: no category has two values without groups, and below such a
      value groups are distinct. */
  predicate PlainOnce(cats: seq<Category>)
    decreases cats
  {
    forall i :: 0 <= i < |cats| ==> CategoryPlainOnce(cats[i])
  }

  predicate CategoryPlainOnce(c: Category)
    decreases c
  {
    && (forall i, j :: 0 <= i < j < |c.values| ==> GroupSet(c.values[i]) != {} || GroupSet(c.values[j]) != {})
    && forall i :: 0 <= i < |c.values| ==>
         if GroupSet(c.values[i]) == {} then DistinctBelow(c.values[i]) else BelowPlainOnce(c.values[i])
  }

  predicate BelowPlainOnce(v: Value)
    decreases v
  {
    v.sub.Below? ==> PlainOnce(v.sub.categories)
  }

  lemma ExactIsListed(values: seq<Value>, v: Value, groups: set<string>)
    requires Exact(values, v, groups) && v.groups.Some?
    ensures Listed(v, groups)
  {
  }

  lemma {:induction false} CheckedValue(values: seq<Value>, v: Value, groups: set<string>)
    requires Listed(v, groups) ==> BelowPasses(v, groups)
    requires if GroupSet(v) == {} then DistinctBelow(v) else BelowPlainOnce(v)
    ensures WaysOfValue(values, v, groups) <= 1
    decreases v
  {
    if Exact(values, v, groups) && v.sub.Below? {
      if GroupSet(v) == {} {
        OneWay(v.sub.categories, groups);
      } else {
        ExactIsListed(values, v, groups);
        CheckedWay(v.sub.categories, groups);
      }
    }
  }

  lemma {:induction false} CheckedCategory(c: Category, groups: set<string>)
    requires CategoryPasses(c, groups) && CategoryPlainOnce(c)
    ensures WaysOfCategory(c, groups) <= 1
    decreases c
  {
    forall v | v in c.values ensures WaysOfValue(c.values, v, groups) <= 1 {
      CheckedValue(c.values, v, groups);
    }
    forall i, j | 0 <= i < j < |c.values|
      ensures !(Exact(c.values, c.values[i], groups) && Exact(c.values, c.values[j], groups))
    {
      if Exact(c.values, c.values[i], groups) && Exact(c.values, c.values[j], groups) {
        assert GroupSet(c.values[i]) == GroupSet(c.values[j]);
        if c.values[i].groups.Some? && c.values[j].groups.Some? {
          ExactIsListed(c.values, c.values[i], groups);
          ExactIsListed(c.values, c.values[j], groups);
        }
      }
    }
    OneValue(c.values, c.values, groups);
  }

  /** A template that passes the check is selected by at most one combination, if values without
      groups occur once per category and groups below them are distinct. */
  lemma {:induction false} CheckedWay(cats: seq<Category>, groups: set<string>)
    requires Passes(cats, groups) && PlainOnce(cats)
    ensures Ways(cats, groups) <= 1
    decreases cats
  {
    if cats != [] {
      CheckedCategory(cats[0], groups);
      CheckedWay(cats[1..], groups);
      TimesAtMostOne(WaysOfCategory(cats[0], groups), Ways(cats[1..], groups));
    }
  }

  // ---- the selectors of the templates

  datatype Pdt = Pdt(id: int, groups: set<string>, keys: nat)

  /** The selected template with the fewest keys, the first of several. */
  function Mapped(pdts: seq<Pdt>, c: Combination): (r: Option<Pdt>)
    ensures r.Some? ==> r.value in pdts && Selects(c, r.value.groups)
    ensures r.None? <==> forall p :: p in pdts ==> !Selects(c, p.groups)
    ensures r.Some? ==> forall p :: p in pdts && Selects(c, p.groups) ==> r.value.keys <= p.keys
  {
    if pdts == [] then None
    else
      var best, p := Mapped(pdts[..|pdts| - 1], c), pdts[|pdts| - 1];
      if Selects(c, p.groups) && (best.None? || p.keys < best.value.keys) then Some(p) else best
  }

  /** Of several selected templates with the fewest keys it is the first. */
  lemma {:induction false} MappedIsFirst(pdts: seq<Pdt>, c: Combination) returns (i: nat)
    requires Mapped(pdts, c).Some?
    ensures i < |pdts| && pdts[i] == Mapped(pdts, c).value
    ensures forall j :: 0 <= j < i && Selects(c, pdts[j].groups) ==> pdts[j].keys > pdts[i].keys
    decreases |pdts|
  {
    hide Selects;
    var init, n := pdts[..|pdts| - 1], |pdts| - 1;
    if Mapped(pdts, c) == Mapped(init, c) && Mapped(init, c).Some? {
      i := MappedIsFirst(init, c);
    } else {
      i := n;
      forall j | 0 <= j < n && Selects(c, pdts[j].groups) ensures pdts[j].keys > pdts[i].keys {
        assert pdts[j] in init;
      }
    }
  }

  /** How many combinations are mapped to the template. */
  function Assigned(cs: seq<Combination>, pdts: seq<Pdt>, id: int): nat {
    if cs == [] then 0
    else
      var m := Mapped(pdts, cs[|cs| - 1]);
      Assigned(cs[..|cs| - 1], pdts, id) + if m.Some? && m.value.id == id then 1 else 0
  }

  predicate DistinctIds(pdts: seq<Pdt>) {
    forall i, j :: 0 <= i < j < |pdts| ==> pdts[i].id != pdts[j].id
  }

  lemma {:induction false} AssignedAreSelecting(cs: seq<Combination>, pdts: seq<Pdt>, p: Pdt)
    requires DistinctIds(pdts) && p in pdts
    ensures Assigned(cs, pdts, p.id) <= Count(cs, p.groups)
    decreases |cs|
  {
    hide Mapped, Selects;
    if cs != [] {
      AssignedAreSelecting(cs[..|cs| - 1], pdts, p);
    }
  }

  /** Fills in the selectors and checks that every template has exactly one. */
  method CheckSelectors(pdts: seq<Pdt>, cs: seq<Combination>) returns (o: Outcome)
    ensures o.Done? <==> forall p :: p in pdts ==> Assigned(cs, pdts, p.id) == 1
  {
    var selectors: map<int, nat> := map[];
    var k := 0;
    while k < |cs|
      invariant 0 <= k <= |cs|
      invariant forall id :: Assigned(cs[..k], pdts, id) == if id in selectors then selectors[id] else 0
    {
      assert cs[..k + 1][..k] == cs[..k];
      var m := Mapped(pdts, cs[k]);
      if m.Some? {
        var id := m.value.id;
        selectors := selectors[id := (if id in selectors then selectors[id] else 0) + 1];
      }
      k := k + 1;
    }
    assert cs[..k] == cs;
    var i := 0;
    while i < |pdts|
      invariant 0 <= i <= |pdts|
      invariant forall j :: 0 <= j < i ==> Assigned(cs, pdts, pdts[j].id) >= 1
    {
      if pdts[i].id !in selectors || selectors[pdts[i].id] == 0 {
        assert pdts[i] in pdts;
        return Raised("template without a selector");
      }
      i := i + 1;
    }
    i := 0;
    while i < |pdts|
      invariant 0 <= i <= |pdts|
      invariant forall j :: 0 <= j < i ==> Assigned(cs, pdts, pdts[j].id) == 1
    {
      if selectors[pdts[i].id] > 1 {
        assert pdts[i] in pdts;
        return Raised("template with several selectors");
      }
      i := i + 1;
    }
    o := Done;
  }

  /** With distinct groups the check for several selectors of one template can never fail: loading
      fails only over a template without any. */
  lemma NeverSeveralSelectors(cats: seq<Category>, pdts: seq<Pdt>, p: Pdt)
    requires DistinctGroups(cats) && DistinctIds(pdts) && p in pdts
    ensures Assigned(Combined(cats), pdts, p.id) <= 1
  {
    AssignedAreSelecting(Combined(cats), pdts, p);
    CombinationsAreWays(cats, p.groups);
    OneWay(cats, p.groups);
  }

  /** Nor can it for a template that passes the earlier check, if values without groups are unambiguous. */
  lemma CheckedNeverSeveral(cats: seq<Category>, pdts: seq<Pdt>, p: Pdt)
    requires Passes(cats, p.groups) && PlainOnce(cats) && DistinctIds(pdts) && p in pdts
    ensures Assigned(Combined(cats), pdts, p.id) <= 1
  {
    AssignedAreSelecting(Combined(cats), pdts, p);
    CombinationsAreWays(cats, p.groups);
    CheckedWay(cats, p.groups);
  }
}
