/** What the generated combinations of category values are: one for each way to choose a value of
    every category, and below every chosen value a value of every category there. */
module PdtChoices {
  import opened Wrappers
  import opened PdtCategories

  /** The position of the chosen value, and what is chosen in the categories below it. */
  datatype Pick = Pick(index: nat, below: seq<Pick>)

  predicate Chooses(cats: seq<Category>, picks: seq<Pick>)
    decreases cats
  {
    |picks| == |cats| && forall i :: 0 <= i < |cats| ==> PicksFrom(cats[i], picks[i])
  }

  predicate PicksFrom(c: Category, p: Pick)
    decreases c
  {
    p.index < |c.values| && PicksBelow(c.values[p.index], p.below)
  }

  predicate PicksBelow(v: Value, below: seq<Pick>)
    decreases v
  {
    match v.sub
    case NoSub => below == []
    case Below(categories) => Chooses(categories, below)
  }

  // ---- the selector of a choice

  /** The names of the categories with those of the chosen values, a category before those below it. */
  function NamesOf(cats: seq<Category>, picks: seq<Pick>): seq<(string, Option<string>)>
    requires Chooses(cats, picks)
    decreases cats
  {
    if cats == [] then [] else NamesOfPick(cats[0], picks[0]) + NamesOf(cats[1..], picks[1..])
  }

  function NamesOfPick(c: Category, p: Pick): seq<(string, Option<string>)>
    requires PicksFrom(c, p)
    decreases c
  {
    [(c.name, c.values[p.index].name)] + NamesBelow(c.values[p.index], p.below)
  }

  function NamesBelow(v: Value, below: seq<Pick>): seq<(string, Option<string>)>
    requires PicksBelow(v, below)
    decreases v
  {
    match v.sub
    case NoSub => []
    case Below(categories) => NamesOf(categories, below)
  }

  predicate NamedIn(names: seq<(string, Option<string>)>, k: string) {
    exists i :: 0 <= i < |names| && names[i].0 == k
  }

  /** No later name is the same. */
  predicate IsLast(names: seq<(string, Option<string>)>, i: nat)
    requires i < |names|
  {
    forall j :: i < j < |names| ==> names[j].0 != names[i].0
  }

  /** The selector has exactly these names, each with the value that comes with it last. */
  ghost predicate LastWins(names: seq<(string, Option<string>)>, selector: map<string, Option<string>>) {
    && (forall k :: k in selector <==> NamedIn(names, k))
    && forall i :: 0 <= i < |names| && IsLast(names, i) ==>
         names[i].0 in selector && selector[names[i].0] == names[i].1
  }

  lemma NamedConcat(a: seq<(string, Option<string>)>, b: seq<(string, Option<string>)>, k: string)
    ensures NamedIn(a + b, k) <==> NamedIn(a, k) || NamedIn(b, k)
  {
    if i :| 0 <= i < |a| && a[i].0 == k {
      assert (a + b)[i].0 == k;
    }
    if i :| 0 <= i < |b| && b[i].0 == k {
      assert (a + b)[|a| + i].0 == k;
    }
  }

  lemma LastInConcat(a: seq<(string, Option<string>)>, b: seq<(string, Option<string>)>, i: nat)
    requires i < |a + b| && IsLast(a + b, i)
    ensures if i < |a| then IsLast(a, i) && !NamedIn(b, a[i].0) else IsLast(b, i - |a|)
  {
    if i < |a| {
      forall j | 0 <= j < |b| ensures b[j].0 != a[i].0 {
        assert (a + b)[|a| + j].0 != (a + b)[i].0;
      }
      forall j | i < j < |a| ensures a[j].0 != a[i].0 {
        assert (a + b)[j].0 != (a + b)[i].0;
      }
    } else {
      forall j | i - |a| < j < |b| ensures b[j].0 != b[i - |a|].0 {
        assert (a + b)[|a| + j].0 != (a + b)[i].0;
      }
    }
  }

  /** Updating a selector by another appends the names of the other. */
  lemma LastWinsConcat(a: seq<(string, Option<string>)>, b: seq<(string, Option<string>)>,
                       sa: map<string, Option<string>>, sb: map<string, Option<string>>)
    requires LastWins(a, sa) && LastWins(b, sb)
    ensures LastWins(a + b, sa + sb)
  {
    hide NamedIn, IsLast;
    forall k ensures k in sa + sb <==> NamedIn(a + b, k) {
      NamedConcat(a, b, k);
    }
    forall i | 0 <= i < |a + b| && IsLast(a + b, i)
      ensures (a + b)[i].0 in sa + sb && (sa + sb)[(a + b)[i].0] == (a + b)[i].1
    {
      LastInConcat(a, b, i);
    }
  }

  // ---- the templates of a choice

  /** Among the template's groups, those of any value of the category are exactly those of this value. */
  ghost predicate Matches(values: seq<Value>, v: Value, groups: set<string>) {
    forall g ::
      (g in groups && exists w :: w in values && w.groups.Some? && g in w.groups.value)
      <==> (v.groups.Some? && g in v.groups.value)
  }

  ghost predicate AllMatch(cats: seq<Category>, picks: seq<Pick>, groups: set<string>)
    requires Chooses(cats, picks)
    decreases cats
  {
    forall i :: 0 <= i < |cats| ==> PickMatches(cats[i], picks[i], groups)
  }

  ghost predicate PickMatches(c: Category, p: Pick, groups: set<string>)
    requires PicksFrom(c, p)
    decreases c
  {
    Matches(c.values, c.values[p.index], groups) && BelowMatches(c.values[p.index], p.below, groups)
  }

  ghost predicate BelowMatches(v: Value, below: seq<Pick>, groups: set<string>)
    requires PicksBelow(v, below)
    decreases v
  {
    v.sub.Below? ==> AllMatch(v.sub.categories, below, groups)
  }

  lemma ExactMatches(values: seq<Value>, v: Value, groups: set<string>)
    ensures Exact(values, v, groups) <==> Matches(values, v, groups)
  {
    forall g ensures g in AllGroups(values) <==> exists w :: w in values && w.groups.Some? && g in w.groups.value {
      if g in AllGroups(values) {
        var w :| w in values && g in GroupSet(w);
        assert w in values && w.groups.Some? && g in w.groups.value;
      }
      if w :| w in values && w.groups.Some? && g in w.groups.value {
        assert g in GroupSet(w);
      }
    }
    forall g ensures g in GroupSet(v) <==> v.groups.Some? && g in v.groups.value { }
    hide AllGroups, GroupSet;
    if Matches(values, v, groups) {
      assert forall g :: g in AllGroups(values) * groups <==> g in GroupSet(v);
    }
    if Exact(values, v, groups) {
      forall g ensures (g in groups && g in AllGroups(values)) <==> g in GroupSet(v) {
        assert g in AllGroups(values) * groups <==> g in GroupSet(v);
      }
    }
  }

  // ---- which combination belongs to which choice

  /** The combination has the selector of the choice, and selects the templates whose groups match the
      chosen values. */
  ghost predicate Describes(cats: seq<Category>, picks: seq<Pick>, c: Combination)
    requires Chooses(cats, picks)
  {
    && LastWins(NamesOf(cats, picks), c.selector)
    && forall groups :: Selects(c, groups) <==> AllMatch(cats, picks, groups)
  }

  ghost predicate DescribesPick(c: Category, p: Pick, comb: Combination)
    requires PicksFrom(c, p)
  {
    && LastWins(NamesOfPick(c, p), comb.selector)
    && forall groups :: Selects(comb, groups) <==> PickMatches(c, p, groups)
  }

  ghost predicate DescribesBelow(v: Value, below: seq<Pick>, comb: Combination)
    requires PicksBelow(v, below)
  {
    && LastWins(NamesBelow(v, below), comb.selector)
    && forall groups :: Selects(comb, groups) <==> BelowMatches(v, below, groups)
  }

  lemma ChoosesCons(cats: seq<Category>, p: Pick, rest: seq<Pick>)
    requires cats != []
    ensures Chooses(cats, [p] + rest) <==> PicksFrom(cats[0], p) && Chooses(cats[1..], rest)
  {
    hide PicksFrom;
    var picks := [p] + rest;
    if Chooses(cats, picks) {
      assert picks[0] == p;
      forall i | 0 <= i < |cats[1..]| ensures PicksFrom(cats[1..][i], rest[i]) {
        assert cats[i + 1] == cats[1..][i] && picks[i + 1] == rest[i];
      }
    }
    if PicksFrom(cats[0], p) && Chooses(cats[1..], rest) {
      forall i | 0 <= i < |cats| ensures PicksFrom(cats[i], picks[i]) {
        assert i == 0 || (cats[i] == cats[1..][i - 1] && picks[i] == rest[i - 1]);
      }
    }
  }

  lemma MatchCons(cats: seq<Category>, p: Pick, rest: seq<Pick>, groups: set<string>)
    requires cats != [] && PicksFrom(cats[0], p) && Chooses(cats[1..], rest)
    ensures Chooses(cats, [p] + rest)
    ensures AllMatch(cats, [p] + rest, groups) <==>
            PickMatches(cats[0], p, groups) && AllMatch(cats[1..], rest, groups)
  {
    ChoosesCons(cats, p, rest);
    hide PickMatches, PicksFrom;
    var picks := [p] + rest;
    if AllMatch(cats, picks, groups) {
      assert PickMatches(cats[0], picks[0], groups);
      forall i | 0 <= i < |cats[1..]| ensures PickMatches(cats[1..][i], rest[i], groups) {
        assert PickMatches(cats[i + 1], picks[i + 1], groups);
      }
    }
    if PickMatches(cats[0], p, groups) && AllMatch(cats[1..], rest, groups) {
      forall i | 0 <= i < |cats| ensures PickMatches(cats[i], picks[i], groups) {
        if i > 0 {
          assert PickMatches(cats[1..][i - 1], rest[i - 1], groups);
        }
      }
    }
  }

  lemma NamesCons(cats: seq<Category>, p: Pick, rest: seq<Pick>)
    requires cats != [] && PicksFrom(cats[0], p) && Chooses(cats[1..], rest)
    ensures Chooses(cats, [p] + rest)
    ensures NamesOf(cats, [p] + rest) == NamesOfPick(cats[0], p) + NamesOf(cats[1..], rest)
  {
    ChoosesCons(cats, p, rest);
    hide Chooses, PicksFrom;
    assert ([p] + rest)[1..] == rest && ([p] + rest)[0] == p;
  }

  lemma MergeDescribes(cats: seq<Category>, p: Pick, rest: seq<Pick>, a: Combination, b: Combination)
    requires cats != [] && PicksFrom(cats[0], p) && Chooses(cats[1..], rest)
    requires DescribesPick(cats[0], p, a) && Describes(cats[1..], rest, b)
    ensures Chooses(cats, [p] + rest) && Describes(cats, [p] + rest, Merge(a, b))
  {
    hide Chooses, PicksFrom, LastWins, NamesOf, NamesOfPick, AllMatch, PickMatches, Selects;
    NamesCons(cats, p, rest);
    LastWinsConcat(NamesOfPick(cats[0], p), NamesOf(cats[1..], rest), a.selector, b.selector);
    forall groups ensures Selects(Merge(a, b), groups) <==> AllMatch(cats, [p] + rest, groups) {
      SelectsMerge(a, b, groups);
      MatchCons(cats, p, rest, groups);
    }
  }

  lemma OwnDescribes(c: Category, i: nat, below: seq<Pick>, b: Combination)
    requires PicksFrom(c, Pick(i, below)) && DescribesBelow(c.values[i], below, b)
    ensures DescribesPick(c, Pick(i, below), Merge(OfValue(c.name, c.values, c.values[i]), b))
  {
    var v := c.values[i];
    var own := OfValue(c.name, c.values, v);
    OneName(c.name, v.name);
    hide PicksBelow, LastWins, NamesBelow, BelowMatches, Selects, OfValue, Exact, Matches;
    assert own.selector == map[c.name := v.name] by { SelectorOfValue(c.name, c.values, v); }
    LastWinsConcat([(c.name, v.name)], NamesBelow(v, below), own.selector, b.selector);
    forall groups ensures Selects(Merge(own, b), groups) <==> PickMatches(c, Pick(i, below), groups) {
      SelectsMerge(own, b, groups);
      SelectsValue(c.name, c.values, v, groups);
      ExactMatches(c.values, v, groups);
    }
  }

  lemma SelectorOfValue(name: string, values: seq<Value>, v: Value)
    ensures OfValue(name, values, v).selector == map[name := v.name]
  {
  }

  lemma OneName(name: string, value: Option<string>)
    ensures LastWins([(name, value)], map[name := value])
  {
    var names := [(name, value)];
    assert names[0].0 == name;
  }

  // ---- all choices, in the order of the combinations

  function Prefixed(p: Pick, rests: seq<seq<Pick>>): (r: seq<seq<Pick>>)
    ensures |r| == |rests| && forall k :: 0 <= k < |r| ==> r[k] == [p] + rests[k]
  {
    seq(|rests|, k requires 0 <= k < |rests| => [p] + rests[k])
  }

  function Crossed(ps: seq<Pick>, rests: seq<seq<Pick>>): seq<seq<Pick>> {
    if ps == [] then [] else Prefixed(ps[0], rests) + Crossed(ps[1..], rests)
  }

  function WithBelow(i: nat, belows: seq<seq<Pick>>): (r: seq<Pick>)
    ensures |r| == |belows| && forall k :: 0 <= k < |r| ==> r[k] == Pick(i, belows[k])
  {
    seq(|belows|, k requires 0 <= k < |belows| => Pick(i, belows[k]))
  }

  function PicksOfValue(i: nat, v: Value): seq<Pick>
    decreases v
  {
    if v.sub.NoSub? then [Pick(i, [])] else WithBelow(i, Choices(v.sub.categories))
  }

  /** The picks of the values `rest`, the first of which has position `i`. */
  function PicksOfValues(i: nat, rest: seq<Value>): seq<Pick>
    decreases rest
  {
    if rest == [] then [] else PicksOfValue(i, rest[0]) + PicksOfValues(i + 1, rest[1..])
  }

  function PicksOf(c: Category): seq<Pick>
    decreases c
  {
    PicksOfValues(0, c.values)
  }

  function Choices(cats: seq<Category>): seq<seq<Pick>>
    decreases cats
  {
    if cats == [] then [[]] else Crossed(PicksOf(cats[0]), Choices(cats[1..]))
  }

  // ---- the choices describe the combinations one by one

  ghost predicate Described(cats: seq<Category>, choices: seq<seq<Pick>>, cs: seq<Combination>) {
    |choices| == |cs| && forall k :: 0 <= k < |cs| ==> Chooses(cats, choices[k]) && Describes(cats, choices[k], cs[k])
  }

  ghost predicate PicksDescribed(c: Category, ps: seq<Pick>, cs: seq<Combination>) {
    |ps| == |cs| && forall k :: 0 <= k < |cs| ==> PicksFrom(c, ps[k]) && DescribesPick(c, ps[k], cs[k])
  }

  lemma {:induction false} MergeEachAt(a: Combination, bs: seq<Combination>)
    ensures |MergeEach(a, bs)| == |bs| && forall k :: 0 <= k < |bs| ==> MergeEach(a, bs)[k] == Merge(a, bs[k])
    decreases |bs|
  {
    hide Merge;
    if bs != [] {
      MergeEachAt(a, bs[..|bs| - 1]);
    }
  }

  lemma PrefixedDescribed(cats: seq<Category>, p: Pick, a: Combination, rests: seq<seq<Pick>>, bs: seq<Combination>)
    requires cats != [] && PicksFrom(cats[0], p) && DescribesPick(cats[0], p, a) && Described(cats[1..], rests, bs)
    ensures Described(cats, Prefixed(p, rests), MergeEach(a, bs))
  {
    hide Chooses, PicksFrom, Describes, DescribesPick, MergeEach, Merge;
    MergeEachAt(a, bs);
    forall k | 0 <= k < |bs| ensures Chooses(cats, [p] + rests[k]) && Describes(cats, [p] + rests[k], Merge(a, bs[k])) {
      MergeDescribes(cats, p, rests[k], a, bs[k]);
    }
  }

  lemma DescribedConcat(cats: seq<Category>, a: seq<seq<Pick>>, b: seq<seq<Pick>>, ca: seq<Combination>, cb: seq<Combination>)
    requires Described(cats, a, ca) && Described(cats, b, cb)
    ensures Described(cats, a + b, ca + cb)
  {
    hide Chooses, Describes;
  }

  lemma {:induction false} CrossedDescribed(cats: seq<Category>, ps: seq<Pick>, as_: seq<Combination>,
                                            rests: seq<seq<Pick>>, bs: seq<Combination>)
    requires cats != [] && PicksDescribed(cats[0], ps, as_) && Described(cats[1..], rests, bs)
    ensures Described(cats, Crossed(ps, rests), Product(as_, bs))
    decreases |ps|
  {
    hide PicksFrom, DescribesPick, Described, MergeEach, Prefixed;
    if ps == [] {
      NoneDescribed(cats);
    } else {
      assert PicksDescribed(cats[0], ps[1..], as_[1..]);
      CrossedDescribed(cats, ps[1..], as_[1..], rests, bs);
      PrefixedDescribed(cats, ps[0], as_[0], rests, bs);
      DescribedConcat(cats, Prefixed(ps[0], rests), Crossed(ps[1..], rests), MergeEach(as_[0], bs), Product(as_[1..], bs));
    }
  }

  lemma NoneDescribed(cats: seq<Category>)
    ensures Described(cats, [], [])
  {
  }

  lemma NothingDescribes()
    ensures Chooses([], []) && Describes([], [], NOTHING)
  {
    hide Selects;
    forall groups ensures Selects(NOTHING, groups) { NothingSelects(groups); }
  }

  lemma NothingSelects(groups: set<string>)
    ensures Selects(NOTHING, groups)
  {
  }

  /** A value without categories below it merges with nothing. */
  lemma AloneDescribes(c: Category, i: nat)
    requires i < |c.values| && c.values[i].sub.NoSub?
    ensures PicksFrom(c, Pick(i, [])) && DescribesPick(c, Pick(i, []), OfValue(c.name, c.values, c.values[i]))
  {
    var own := OfValue(c.name, c.values, c.values[i]);
    assert Merge(own, NOTHING) == own;
    forall groups ensures Selects(NOTHING, groups) { NothingSelects(groups); }
    assert DescribesBelow(c.values[i], [], NOTHING);
    hide DescribesPick, OfValue;
    OwnDescribes(c, i, [], NOTHING);
  }

  lemma {:induction false} ValueDescribed(c: Category, i: nat)
    requires i < |c.values|
    ensures PicksDescribed(c, PicksOfValue(i, c.values[i]), WithValue(c.name, c.values, c.values[i]))
    decreases c, 0
  {
    hide DescribesPick, OfValue, MergeEach, Describes;
    var v := c.values[i];
    if v.sub.NoSub? {
      AloneDescribes(c, i);
    } else {
      var own, sub := OfValue(c.name, c.values, v), v.sub.categories;
      CombinedDescribed(sub);
      MergeEachAt(own, Combined(sub));
      forall k | 0 <= k < |Combined(sub)|
        ensures PicksFrom(c, Pick(i, Choices(sub)[k]))
        ensures DescribesPick(c, Pick(i, Choices(sub)[k]), Merge(own, Combined(sub)[k]))
      {
        BelowDescribes(v, Choices(sub)[k], Combined(sub)[k]);
        OwnDescribes(c, i, Choices(sub)[k], Combined(sub)[k]);
      }
    }
  }

  lemma BelowDescribes(v: Value, below: seq<Pick>, comb: Combination)
    requires v.sub.Below? && Chooses(v.sub.categories, below) && Describes(v.sub.categories, below, comb)
    ensures PicksBelow(v, below) && DescribesBelow(v, below, comb)
  {
    hide Chooses, LastWins, NamesOf, AllMatch, Selects;
  }

  lemma {:induction false} ValuesDescribed(c: Category, i: nat, rest: seq<Value>)
    requires i <= |c.values| && rest == c.values[i..]
    ensures PicksDescribed(c, PicksOfValues(i, rest), Single(c.name, c.values, rest))
    decreases c, 1, |rest|
  {
    hide PicksFrom, DescribesPick, WithValue, PicksOfValue;
    if rest != [] {
      assert rest[0] == c.values[i] && rest[1..] == c.values[i + 1..];
      ValueDescribed(c, i);
      ValuesDescribed(c, i + 1, rest[1..]);
    }
  }

  lemma {:induction false} CombinedDescribed(cats: seq<Category>)
    ensures Described(cats, Choices(cats), Combined(cats))
    decreases cats
  {
    hide Describes, PicksDescribed;
    if cats == [] {
      NothingDescribes();
    } else {
      var c := cats[0];
      assert c.values == c.values[0..];
      ValuesDescribed(c, 0, c.values);
      CombinedDescribed(cats[1..]);
      hide Described, Crossed, Product;
      CrossedDescribed(cats, PicksOf(c), OfCategory(c), Choices(cats[1..]), Combined(cats[1..]));
    }
  }

  // ---- the list of choices is complete and without repetition

  ghost predicate Different<T(!new)>(xs: seq<T>) {
    forall i, j :: 0 <= i < j < |xs| ==> xs[i] != xs[j]
  }

  lemma DifferentConcat<T(!new)>(a: seq<T>, b: seq<T>)
    requires Different(a) && Different(b) && forall x :: x in a ==> x !in b
    ensures Different(a + b)
  {
    forall i, j | 0 <= i < j < |a + b| ensures (a + b)[i] != (a + b)[j] {
      if i < |a| <= j {
        assert a[i] in a && b[j - |a|] in b;
      }
    }
  }

  lemma InPrefixed(p: Pick, rests: seq<seq<Pick>>, x: seq<Pick>)
    ensures x in Prefixed(p, rests) <==> x != [] && x[0] == p && x[1..] in rests
  {
    if x in Prefixed(p, rests) {
      var k :| 0 <= k < |rests| && Prefixed(p, rests)[k] == x;
      assert x[1..] == rests[k];
    }
    if x != [] && x[0] == p && x[1..] in rests {
      var k :| 0 <= k < |rests| && rests[k] == x[1..];
      assert x == [p] + rests[k] == Prefixed(p, rests)[k];
    }
  }

  lemma {:induction false} InCrossed(ps: seq<Pick>, rests: seq<seq<Pick>>, x: seq<Pick>)
    ensures x in Crossed(ps, rests) <==> x != [] && x[0] in ps && x[1..] in rests
    decreases |ps|
  {
    hide Prefixed;
    if ps != [] {
      InPrefixed(ps[0], rests, x);
      InCrossed(ps[1..], rests, x);
      assert ps == [ps[0]] + ps[1..];
    }
  }

  lemma {:induction false} CrossedDifferent(ps: seq<Pick>, rests: seq<seq<Pick>>)
    requires Different(ps) && Different(rests)
    ensures Different(Crossed(ps, rests))
    decreases |ps|
  {
    if ps != [] {
      var p, tail := ps[0], ps[1..];
      assert Different(tail) && p !in tail;
      CrossedDifferent(tail, rests);
      PrefixedDifferent(p, rests);
      forall x | x in Prefixed(p, rests) ensures x !in Crossed(tail, rests) {
        InPrefixed(p, rests, x);
        InCrossed(tail, rests, x);
      }
      DifferentConcat(Prefixed(p, rests), Crossed(tail, rests));
    }
  }

  lemma PrefixedDifferent(p: Pick, rests: seq<seq<Pick>>)
    requires Different(rests)
    ensures Different(Prefixed(p, rests))
  {
    var xs := Prefixed(p, rests);
    forall i, j | 0 <= i < j < |xs| ensures xs[i] != xs[j] {
      assert xs[i][1..] == rests[i] && xs[j][1..] == rests[j];
    }
  }

  lemma WithBelowDifferent(i: nat, belows: seq<seq<Pick>>)
    requires Different(belows)
    ensures Different(WithBelow(i, belows))
  {
    var xs := WithBelow(i, belows);
    forall k, l | 0 <= k < l < |xs| ensures xs[k] != xs[l] {
      assert xs[k].below == belows[k] && xs[l].below == belows[l];
    }
  }

  lemma InWithBelow(i: nat, belows: seq<seq<Pick>>, p: Pick)
    ensures p in WithBelow(i, belows) <==> p.index == i && p.below in belows
  {
    if p.index == i && p.below in belows {
      var k :| 0 <= k < |belows| && belows[k] == p.below;
      assert WithBelow(i, belows)[k] == p;
    }
  }

  lemma {:induction false} PicksOfValueAre(i: nat, v: Value)
    ensures forall p :: p in PicksOfValue(i, v) <==> p.index == i && PicksBelow(v, p.below)
    ensures Different(PicksOfValue(i, v))
    decreases v
  {
    if v.sub.Below? {
      ChoicesAre(v.sub.categories);
      hide WithBelow, Choices;
      WithBelowDifferent(i, Choices(v.sub.categories));
      forall p ensures p in WithBelow(i, Choices(v.sub.categories)) <==> p.index == i && p.below in Choices(v.sub.categories) {
        InWithBelow(i, Choices(v.sub.categories), p);
      }
    }
  }

  lemma {:induction false} PicksOfValuesAre(i: nat, rest: seq<Value>)
    ensures forall p :: p in PicksOfValues(i, rest) <==> i <= p.index < i + |rest| && PicksBelow(rest[p.index - i], p.below)
    ensures Different(PicksOfValues(i, rest))
    decreases rest
  {
    hide PicksBelow, PicksOfValue;
    if rest != [] {
      PicksOfValueAre(i, rest[0]);
      PicksOfValuesAre(i + 1, rest[1..]);
      DifferentConcat(PicksOfValue(i, rest[0]), PicksOfValues(i + 1, rest[1..]));
      forall p
        ensures p in PicksOfValues(i, rest) <==> i <= p.index < i + |rest| && PicksBelow(rest[p.index - i], p.below)
      {
        assert p.index > i && p.index < i + |rest| ==> rest[p.index - i] == rest[1..][p.index - (i + 1)];
      }
    }
  }

  lemma {:induction false} ChoicesAre(cats: seq<Category>)
    ensures forall picks :: picks in Choices(cats) <==> Chooses(cats, picks)
    ensures Different(Choices(cats))
    decreases cats
  {
    if cats == [] {
      forall picks ensures picks in Choices(cats) <==> Chooses(cats, picks) { }
    } else {
      PicksOfValuesAre(0, cats[0].values);
      ChoicesAre(cats[1..]);
      CrossedDifferent(PicksOf(cats[0]), Choices(cats[1..]));
      forall picks ensures picks in Choices(cats) <==> Chooses(cats, picks) {
        InCrossed(PicksOf(cats[0]), Choices(cats[1..]), picks);
        if picks != [] {
          assert picks == [picks[0]] + picks[1..];
          ChoosesCons(cats, picks[0], picks[1..]);
        }
      }
    }
  }

  /** The generated combinations are one for each choice of a value of every category and, below every
      chosen value, of every category there. The selector of a combination has exactly the names of
      these categories with those of the chosen values, the last one where a name repeats; and the
      combination selects exactly the templates whose groups are, in each of these categories, the
      groups of the chosen value. */
  lemma CombinationsAreChoices(cats: seq<Category>) returns (choices: seq<seq<Pick>>)
    ensures forall picks :: picks in choices <==> Chooses(cats, picks)
    ensures Different(choices) && |choices| == |Combined(cats)|
    ensures forall k :: 0 <= k < |choices| ==> Chooses(cats, choices[k]) && Describes(cats, choices[k], Combined(cats)[k])
  {
    hide Describes, Choices, Combined;
    ChoicesAre(cats);
    CombinedDescribed(cats);
    choices := Choices(cats);
  }
}
