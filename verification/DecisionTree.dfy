/** The decision tree that finds the product definition template for category values, and the flat
    table of selectors it is built from. */
module DecisionTree {
  import opened Wrappers
  import opened Sets

  type Category = string

  /** A selector gives categories a value, or explicitly none, and comes with its template. */
  datatype Row = Row(selector: map<Category, Option<string>>, pdt: int)

  datatype Tree = FinalPDT(pdt: int)
                | MatchCategory(category: Category, subMatch: map<string, Tree>, default: Option<Tree>)

  /** A category that is missing and one that is given as none are the same. */
  function Val(row: Row, cat: Category): Option<string> {
    if cat in row.selector then row.selector[cat] else None
  }

  function Values(rows: seq<Row>, cat: Category): set<Option<string>> {
    set r | r in rows :: Val(r, cat)
  }

  function Select(rows: seq<Row>, cat: Category, val: Option<string>): (rs: seq<Row>)
    ensures |rs| <= |rows|
    ensures forall r :: r in rs <==> r in rows && Val(r, cat) == val
  {
    if rows == [] then []
    else Select(rows[..|rows| - 1], cat, val) + if Val(rows[|rows| - 1], cat) == val then [rows[|rows| - 1]] else []
  }

  // ---- inference

  function Infer(tree: Tree, dict: map<Category, string>): Result<int>
    decreases tree
  {
    match tree
    case FinalPDT(pdt) => Ok(pdt)
    case MatchCategory(cat, subMatch, default) =>
      if cat in dict && dict[cat] in subMatch then
        Infer(subMatch[dict[cat]], dict)
      else if default.Some? then Infer(default.value, dict)
      else Failed
  }

  // ---- building the tree

  /** The rows with this value have a tree over the other categories. */
  predicate Buildable(cats: seq<Category>, rows: seq<Row>, known: set<Category>, val: Option<string>)
    requires cats != []
    decreases |cats|, 0
  {
    Built(cats[1..], Select(rows, cats[0], val), known).Ok?
  }

  function SubTree(cats: seq<Category>, rows: seq<Row>, known: set<Category>, val: Option<string>): Tree
    requires cats != [] && Buildable(cats, rows, known, val)
    decreases |cats|, 1
  {
    Built(cats[1..], Select(rows, cats[0], val), known).value
  }

  predicate AllBuildable(cats: seq<Category>, rows: seq<Row>, known: set<Category>, vals: set<Option<string>>)
    requires cats != []
    decreases |cats|, 1
  {
    forall val :: val in vals ==> Buildable(cats, rows, known, val)
  }

  /** The subtrees of those values that are texts. */
  function SubTrees(cats: seq<Category>, rows: seq<Row>, known: set<Category>, vals: set<Option<string>>): map<string, Tree>
    requires cats != [] && AllBuildable(cats, rows, known, vals)
    decreases |cats|, 2
  {
    map v: string | v in (set o | o in vals && o.Some? :: o.value) :: SubTree(cats, rows, known, Some(v))
  }

  function DefaultTree(cats: seq<Category>, rows: seq<Row>, known: set<Category>, vals: set<Option<string>>): Option<Tree>
    requires cats != [] && AllBuildable(cats, rows, known, vals)
    decreases |cats|, 2
  {
    if None in vals then Some(SubTree(cats, rows, known, None)) else None
  }

  /** The tree for the rows over the remaining categories; `known` are the categories with recorded
      values. A category that no row uses is skipped. */
  function Built(cats: seq<Category>, rows: seq<Row>, known: set<Category>): Result<Tree>
    decreases |cats|, 3
  {
    if cats == [] then
      if |rows| == 1 then Ok(FinalPDT(rows[0].pdt)) else Failed
    else
      var vals := Values(rows, cats[0]);
      if cats[0] !in known || !AllBuildable(cats, rows, known, vals) then Failed
      else if None in vals && |vals| == 1 then Ok(SubTree(cats, rows, known, None))
      else Ok(MatchCategory(cats[0], SubTrees(cats, rows, known, vals), DefaultTree(cats, rows, known, vals)))
  }

  lemma SubTreesWith(cats: seq<Category>, rows: seq<Row>, known: set<Category>, vals: set<Option<string>>, val: Option<string>)
    requires cats != [] && AllBuildable(cats, rows, known, vals) && Buildable(cats, rows, known, val)
    ensures AllBuildable(cats, rows, known, vals + {val})
    ensures val.Some? ==>
              && SubTrees(cats, rows, known, vals + {val})
                 == SubTrees(cats, rows, known, vals)[val.value := SubTree(cats, rows, known, val)]
              && DefaultTree(cats, rows, known, vals + {val}) == DefaultTree(cats, rows, known, vals)
    ensures val.None? ==>
              && SubTrees(cats, rows, known, vals + {val}) == SubTrees(cats, rows, known, vals)
              && DefaultTree(cats, rows, known, vals + {val}) == Some(SubTree(cats, rows, known, val))
  {
    hide Built;
  }

  lemma OnlyNone(vals: set<Option<string>>)
    requires None in vals && |vals| == 1
    ensures vals == {None}
  {
    RemoveOne(vals, None);
    forall val | val in vals ensures val == None {
      if val != None {
        RemoveOne(vals - {None}, val);
      }
    }
  }

  lemma OneFails(cats: seq<Category>, rows: seq<Row>, known: set<Category>, val: Option<string>)
    requires cats != [] && val in Values(rows, cats[0]) && !Buildable(cats, rows, known, val)
    ensures Built(cats, rows, known).Failed?
  {
  }

  lemma OneSkipped(cats: seq<Category>, rows: seq<Row>, known: set<Category>)
    requires cats != [] && cats[0] in known && Buildable(cats, rows, known, None)
    requires None in Values(rows, cats[0]) && |Values(rows, cats[0])| == 1
    ensures Built(cats, rows, known) == Built(cats[1..], Select(rows, cats[0], None), known)
  {
    OnlyNone(Values(rows, cats[0]));
  }

  lemma AllBuilt(cats: seq<Category>, rows: seq<Row>, known: set<Category>, vals: set<Option<string>>)
    requires cats != [] && cats[0] in known && vals == Values(rows, cats[0]) && AllBuildable(cats, rows, known, vals)
    requires !(None in vals && |vals| == 1)
    ensures Built(cats, rows, known) ==
            Ok(MatchCategory(cats[0], SubTrees(cats, rows, known, vals), DefaultTree(cats, rows, known, vals)))
  {
  }

  method BuildDecisionMap(cats: seq<Category>, rows: seq<Row>, known: set<Category>) returns (r: Result<Tree>)
    ensures r == Built(cats, rows, known)
    decreases |cats|, 1
  {
    if cats == [] {
      r := if |rows| == 1 then Ok(FinalPDT(rows[0].pdt)) else Failed;
    } else if cats[0] !in known {
      r := Failed;
    } else {
      r := BuildCategory(cats, rows, known);
    }
  }

  /** The loop over the values of the first category. */
  method BuildCategory(cats: seq<Category>, rows: seq<Row>, known: set<Category>) returns (r: Result<Tree>)
    requires cats != [] && cats[0] in known
    ensures r == Built(cats, rows, known)
    decreases |cats|, 0
  {
    hide SubTrees, DefaultTree, Built, AllBuildable, Values;
    var vals := Values(rows, cats[0]);
    var default: Option<Tree>, subMatch: map<string, Tree>, rest := None, map[], vals;
    ghost var done: set<Option<string>> := {};
    NothingBuilt(cats, rows, known);
    while rest != {}
      invariant rest !! done && rest + done == vals && AllBuildable(cats, rows, known, done)
      invariant default == DefaultTree(cats, rows, known, done)
      invariant subMatch == SubTrees(cats, rows, known, done)
      invariant None in done ==> |vals| != 1
      decreases |rest|
    {
      EmptyOrMember(rest);
      var val :| val in rest;
      RemoveOne(rest, val);
      var sub := BuildDecisionMap(cats[1..], Select(rows, cats[0], val), known);
      if sub.Failed? {
        OneFails(cats, rows, known, val);
        return Failed;
      }
      SubTreesWith(cats, rows, known, done, val);
      if val == None {
        if |vals| == 1 {
          OneSkipped(cats, rows, known);
          return sub;
        }
        default := Some(sub.value);
      } else {
        subMatch := subMatch[val.value := sub.value];
      }
      rest, done := rest - {val}, done + {val};
    }
    assert done == vals;
    AllBuilt(cats, rows, known, vals);
    r := Ok(MatchCategory(cats[0], subMatch, default));
  }

  lemma NothingBuilt(cats: seq<Category>, rows: seq<Row>, known: set<Category>)
    requires cats != []
    ensures AllBuildable(cats, rows, known, {})
    ensures SubTrees(cats, rows, known, {}) == map[] && DefaultTree(cats, rows, known, {}) == None
  {
  }

  // ---- the flat table

  /** The rows agree on the first `n` categories. */
  predicate AgreeUpTo(cats: seq<Category>, a: Row, b: Row, n: nat)
    requires n <= |cats|
  {
    forall k :: 0 <= k < n ==> Val(a, cats[k]) == Val(b, cats[k])
  }

  /** Some row that agrees with this one on the first `n` categories has the text for the next. */
  predicate Offered(cats: seq<Category>, rows: seq<Row>, row: Row, n: nat, text: string)
    requires n < |cats|
  {
    exists r :: r in rows && AgreeUpTo(cats, r, row, n) && Val(r, cats[n]) == Some(text)
  }

  /** What the row must have for category number `n`: the text of the dictionary if that is still on
      offer there, and otherwise nothing. */
  function Expected(cats: seq<Category>, rows: seq<Row>, row: Row, n: nat, dict: map<Category, string>): Option<string>
    requires n < |cats|
  {
    if cats[n] in dict && Offered(cats, rows, row, n, dict[cats[n]]) then Some(dict[cats[n]]) else None
  }

  predicate Fits(cats: seq<Category>, rows: seq<Row>, row: Row, dict: map<Category, string>) {
    row in rows && forall n :: 0 <= n < |cats| ==> Val(row, cats[n]) == Expected(cats, rows, row, n, dict)
  }

  /** The value with which inference goes on after the first category. */
  function Chosen(cats: seq<Category>, rows: seq<Row>, dict: map<Category, string>): Option<string>
    requires cats != []
  {
    if cats[0] in dict && Some(dict[cats[0]]) in Values(rows, cats[0]) then Some(dict[cats[0]]) else None
  }

  lemma AgreeStep(cats: seq<Category>, a: Row, b: Row, n: nat)
    requires n < |cats|
    ensures AgreeUpTo(cats, a, b, n + 1) <==> Val(a, cats[0]) == Val(b, cats[0]) && AgreeUpTo(cats[1..], a, b, n)
  {
    if AgreeUpTo(cats, a, b, n + 1) {
      forall k | 0 <= k < n ensures Val(a, cats[1..][k]) == Val(b, cats[1..][k]) { assert cats[1..][k] == cats[k + 1]; }
    }
    if Val(a, cats[0]) == Val(b, cats[0]) && AgreeUpTo(cats[1..], a, b, n) {
      forall k | 0 <= k < n + 1 ensures Val(a, cats[k]) == Val(b, cats[k]) {
        assert k == 0 || cats[k] == cats[1..][k - 1];
      }
    }
  }

  lemma OfferedStep(cats: seq<Category>, rows: seq<Row>, row: Row, n: nat, text: string)
    requires n + 1 < |cats|
    ensures Offered(cats, rows, row, n + 1, text) <==>
            Offered(cats[1..], Select(rows, cats[0], Val(row, cats[0])), row, n, text)
  {
    hide AgreeUpTo, Val;
    var some := Select(rows, cats[0], Val(row, cats[0]));
    forall r ensures AgreeUpTo(cats, r, row, n + 1) <==>
                     Val(r, cats[0]) == Val(row, cats[0]) && AgreeUpTo(cats[1..], r, row, n) {
      AgreeStep(cats, r, row, n);
    }
    if Offered(cats, rows, row, n + 1, text) {
      var r :| r in rows && AgreeUpTo(cats, r, row, n + 1) && Val(r, cats[n + 1]) == Some(text);
      assert r in some && cats[1..][n] == cats[n + 1];
    }
    if Offered(cats[1..], some, row, n, text) {
      var r :| r in some && AgreeUpTo(cats[1..], r, row, n) && Val(r, cats[1..][n]) == Some(text);
      assert r in rows && AgreeUpTo(cats, r, row, n + 1);
    }
  }

  lemma FirstExpected(cats: seq<Category>, rows: seq<Row>, row: Row, dict: map<Category, string>)
    requires cats != []
    ensures Expected(cats, rows, row, 0, dict) == Chosen(cats, rows, dict)
  {
    if cats[0] in dict {
      var text := dict[cats[0]];
      if Some(text) in Values(rows, cats[0]) {
        var r :| r in rows && Val(r, cats[0]) == Some(text);
        assert AgreeUpTo(cats, r, row, 0);
      }
    }
  }

  lemma FitsStep(cats: seq<Category>, rows: seq<Row>, row: Row, dict: map<Category, string>)
    requires cats != []
    ensures Fits(cats, rows, row, dict) <==>
            Val(row, cats[0]) == Chosen(cats, rows, dict)
            && Fits(cats[1..], Select(rows, cats[0], Chosen(cats, rows, dict)), row, dict)
  {
    hide Offered, Val, Chosen;
    FirstExpected(cats, rows, row, dict);
    var some := Select(rows, cats[0], Val(row, cats[0]));
    forall n: nat | n + 1 < |cats|
      ensures Expected(cats, rows, row, n + 1, dict) == Expected(cats[1..], some, row, n, dict)
      ensures cats[1..][n] == cats[n + 1]
    {
      if cats[n + 1] in dict {
        OfferedStep(cats, rows, row, n, dict[cats[n + 1]]);
      }
    }
    if Val(row, cats[0]) == Chosen(cats, rows, dict) && Fits(cats[1..], some, row, dict) {
      forall n | 0 <= n < |cats| ensures Val(row, cats[n]) == Expected(cats, rows, row, n, dict) {
        if n > 0 {
          assert Val(row, cats[1..][n - 1]) == Expected(cats[1..], some, row, n - 1, dict);
        }
      }
    }
    if Fits(cats, rows, row, dict) {
      forall n | 0 <= n < |cats[1..]| ensures Val(row, cats[1..][n]) == Expected(cats[1..], some, row, n, dict) {
        assert Val(row, cats[n + 1]) == Expected(cats, rows, row, n + 1, dict);
      }
    }
  }

  /** Inference goes on in the subtree of the chosen value, if there is one. */
  lemma InferStep(cats: seq<Category>, rows: seq<Row>, known: set<Category>, dict: map<Category, string>)
    requires cats != [] && Built(cats, rows, known).Ok?
    ensures var chosen := Chosen(cats, rows, dict);
            if chosen in Values(rows, cats[0]) then
              && Built(cats[1..], Select(rows, cats[0], chosen), known).Ok?
              && Infer(Built(cats, rows, known).value, dict)
                 == Infer(Built(cats[1..], Select(rows, cats[0], chosen), known).value, dict)
            else Infer(Built(cats, rows, known).value, dict).Failed?
  {
    hide Select;
    var vals, chosen := Values(rows, cats[0]), Chosen(cats, rows, dict);
    assert chosen in vals ==> Buildable(cats, rows, known, chosen);
    if None in vals && |vals| == 1 {
      OnlyNone(vals);
    } else {
      AllBuilt(cats, rows, known, vals);
      SubTreeKeys(cats, rows, known, vals);
      hide SubTrees, Values;
    }
  }

  lemma SubTreeKeys(cats: seq<Category>, rows: seq<Row>, known: set<Category>, vals: set<Option<string>>)
    requires cats != [] && AllBuildable(cats, rows, known, vals)
    ensures forall v :: v in SubTrees(cats, rows, known, vals) <==> Some(v) in vals
    ensures forall v :: v in SubTrees(cats, rows, known, vals) ==>
              SubTrees(cats, rows, known, vals)[v] == SubTree(cats, rows, known, Some(v))
  {
    forall v | Some(v) in vals ensures v in SubTrees(cats, rows, known, vals) {
      var o := Some(v);
      assert o in vals && o.Some? && o.value == v;
    }
  }

  /** Inference on the tree is a look-up in the flat table: it returns the template of the row that
      fits the dictionary, and raises when no row fits. */
  lemma {:induction false} InferIsLookup(cats: seq<Category>, rows: seq<Row>, known: set<Category>, dict: map<Category, string>)
    requires Built(cats, rows, known).Ok?
    ensures forall row :: Fits(cats, rows, row, dict) ==> Infer(Built(cats, rows, known).value, dict) == Ok(row.pdt)
    ensures Infer(Built(cats, rows, known).value, dict).Ok? ==> exists row :: Fits(cats, rows, row, dict)
    decreases |cats|
  {
    if cats == [] {
      assert Fits(cats, rows, rows[0], dict);
      forall row | Fits(cats, rows, row, dict) ensures row == rows[0] { }
    } else {
      hide Built, Infer, Fits, Values, Chosen;
      var chosen := Chosen(cats, rows, dict);
      InferStep(cats, rows, known, dict);
      forall row ensures Fits(cats, rows, row, dict) <==>
                         Val(row, cats[0]) == chosen && Fits(cats[1..], Select(rows, cats[0], chosen), row, dict) {
        FitsStep(cats, rows, row, dict);
      }
      forall row | Fits(cats, rows, row, dict) ensures Val(row, cats[0]) in Values(rows, cats[0]) {
        FittingValue(cats, rows, row, dict);
      }
      if chosen in Values(rows, cats[0]) {
        InferIsLookup(cats[1..], Select(rows, cats[0], chosen), known, dict);
        if row :| Fits(cats[1..], Select(rows, cats[0], chosen), row, dict) {
          FittingSelected(cats, rows, row, dict);
        }
      }
    }
  }

  lemma FittingValue(cats: seq<Category>, rows: seq<Row>, row: Row, dict: map<Category, string>)
    requires cats != [] && Fits(cats, rows, row, dict)
    ensures Val(row, cats[0]) in Values(rows, cats[0])
  {
  }

  lemma FittingSelected(cats: seq<Category>, rows: seq<Row>, row: Row, dict: map<Category, string>)
    requires cats != [] && Fits(cats[1..], Select(rows, cats[0], Chosen(cats, rows, dict)), row, dict)
    ensures Val(row, cats[0]) == Chosen(cats, rows, dict)
  {
  }

  // ---- which tables have a tree

  /** The rows differ in some category. */
  predicate Apart(cats: seq<Category>, a: Row, b: Row) {
    exists n :: 0 <= n < |cats| && Val(a, cats[n]) != Val(b, cats[n])
  }

  /** Every two rows are apart. */
  predicate Distinct(cats: seq<Category>, rows: seq<Row>) {
    rows == [] ||
    var init, last := rows[..|rows| - 1], rows[|rows| - 1];
    Distinct(cats, init) && forall r :: r in init ==> Apart(cats, r, last)
  }

  predicate AllKnown(cats: seq<Category>, known: set<Category>) {
    forall n :: 0 <= n < |cats| ==> cats[n] in known
  }

  lemma ApartStep(cats: seq<Category>, a: Row, b: Row)
    requires cats != []
    ensures Apart(cats, a, b) <==> Val(a, cats[0]) != Val(b, cats[0]) || Apart(cats[1..], a, b)
  {
    if Apart(cats, a, b) && Val(a, cats[0]) == Val(b, cats[0]) {
      var n :| 0 <= n < |cats| && Val(a, cats[n]) != Val(b, cats[n]);
      assert cats[1..][n - 1] == cats[n];
    }
    if n :| 0 <= n < |cats[1..]| && Val(a, cats[1..][n]) != Val(b, cats[1..][n]) {
      assert cats[n + 1] == cats[1..][n];
    }
  }

  /** The groups of rows with the same value for the first category are distinct in the others. */
  ghost predicate GroupsDistinct(cats: seq<Category>, rows: seq<Row>)
    requires cats != []
  {
    forall val: Option<string> :: Distinct(cats[1..], Select(rows, cats[0], val))
  }

  lemma {:induction false} DistinctStep(cats: seq<Category>, rows: seq<Row>)
    requires cats != []
    ensures Distinct(cats, rows) <==> GroupsDistinct(cats, rows)
    decreases |rows|
  {
    if rows != [] {
      var init, last := rows[..|rows| - 1], rows[|rows| - 1];
      DistinctStep(cats, init);
      GroupsSnoc(cats, init, last);
      assert rows == init + [last];
      forall r: Row ensures Apart(cats, r, last) <==> Val(r, cats[0]) != Val(last, cats[0]) || Apart(cats[1..], r, last) {
        ApartStep(cats, r, last);
      }
    }
  }

  lemma GroupsSnoc(cats: seq<Category>, init: seq<Row>, last: Row)
    requires cats != []
    ensures GroupsDistinct(cats, init + [last]) <==>
            && GroupsDistinct(cats, init)
            && forall r :: r in init && Val(r, cats[0]) == Val(last, cats[0]) ==> Apart(cats[1..], r, last)
  {
    hide Apart;
    var v := Val(last, cats[0]);
    var some := Select(init, cats[0], v);
    forall val: Option<string>
      ensures Select(init + [last], cats[0], val) == Select(init, cats[0], val) + if val == v then [last] else []
    {
      assert (init + [last])[..|init|] == init;
    }
    assert (some + [last])[..|some|] == some;
    assert Distinct(cats[1..], some + [last]) <==>
           Distinct(cats[1..], some) && forall r :: r in some ==> Apart(cats[1..], r, last);
    if GroupsDistinct(cats, init + [last]) {
      forall val: Option<string> ensures Distinct(cats[1..], Select(init, cats[0], val)) {
        assert Distinct(cats[1..], Select(init + [last], cats[0], val));
        assert val != v ==> Select(init + [last], cats[0], val) == Select(init, cats[0], val);
      }
    }
    if GroupsDistinct(cats, init) && forall r :: r in init && Val(r, cats[0]) == v ==> Apart(cats[1..], r, last) {
      forall val: Option<string> ensures Distinct(cats[1..], Select(init + [last], cats[0], val)) {
        assert Distinct(cats[1..], Select(init, cats[0], val));
        assert val != v ==> Select(init + [last], cats[0], val) == Select(init, cats[0], val);
      }
    }
  }

  lemma {:induction false} EmptyGroup(rows: seq<Row>, cat: Category, val: Option<string>)
    requires forall r :: r in rows ==> Val(r, cat) != val
    ensures Select(rows, cat, val) == []
    decreases |rows|
  {
    if rows != [] {
      EmptyGroup(rows[..|rows| - 1], cat, val);
    }
  }

  lemma KnownStep(cats: seq<Category>, known: set<Category>)
    requires cats != []
    ensures AllKnown(cats, known) <==> cats[0] in known && AllKnown(cats[1..], known)
  {
    assert forall n :: 0 < n < |cats| ==> cats[n] == cats[1..][n - 1];
    assert forall n :: 0 <= n < |cats[1..]| ==> cats[1..][n] == cats[n + 1];
  }

  /** A table with rows has a tree exactly when all categories are known and the rows are pairwise
      distinct on them. */
  lemma {:induction false} BuiltWhenDistinct(cats: seq<Category>, rows: seq<Row>, known: set<Category>)
    requires rows != []
    ensures Built(cats, rows, known).Ok? <==> AllKnown(cats, known) && Distinct(cats, rows)
    decreases |cats|
  {
    if cats == [] {
      OnlyOne(cats, rows);
    } else {
      hide Distinct, Select, AllKnown, Values, SubTrees, DefaultTree;
      DistinctStep(cats, rows);
      KnownStep(cats, known);
      var vals := Values(rows, cats[0]);
      FirstValue(cats, rows);
      forall val
        ensures val in vals ==> (Buildable(cats, rows, known, val) <==>
                                 AllKnown(cats[1..], known) && Distinct(cats[1..], Select(rows, cats[0], val)))
        ensures val !in vals ==> Distinct(cats[1..], Select(rows, cats[0], val))
      {
        if val in vals {
          SomeSelected(rows, cats[0], val);
          BuiltWhenDistinct(cats[1..], Select(rows, cats[0], val), known);
        } else {
          EmptyGroup(rows, cats[0], val);
          OnlyOne(cats[1..], []);
        }
      }
      assert AllBuildable(cats, rows, known, vals) <==> AllKnown(cats[1..], known) && GroupsDistinct(cats, rows);
    }
  }

  lemma OnlyOne(cats: seq<Category>, rows: seq<Row>)
    ensures |rows| <= 1 ==> Distinct(cats, rows)
    ensures cats == [] && |rows| > 1 ==> !Distinct(cats, rows)
  {
    if |rows| == 1 {
      assert Distinct(cats, rows[..0]);
    } else if cats == [] && |rows| > 1 {
      assert rows[..|rows| - 1][0] in rows[..|rows| - 1] && !Apart(cats, rows[0], rows[|rows| - 1]);
    }
  }

  lemma FirstValue(cats: seq<Category>, rows: seq<Row>)
    requires cats != [] && rows != []
    ensures Val(rows[0], cats[0]) in Values(rows, cats[0])
  {
  }

  lemma SomeSelected(rows: seq<Row>, cat: Category, val: Option<string>)
    requires val in Values(rows, cat)
    ensures Select(rows, cat, val) != []
  {
    var r :| r in rows && Val(r, cat) == val;
    assert r in Select(rows, cat, val);
  }

  /** A table without rows has a tree, which finds nothing, if there is a category to look at. */
  lemma BuiltWhenEmpty(cats: seq<Category>, rows: seq<Row>, known: set<Category>, dict: map<Category, string>)
    requires rows == []
    ensures Built(cats, rows, known).Ok? <==> cats != [] && cats[0] in known
    ensures Built(cats, rows, known).Ok? ==> Infer(Built(cats, rows, known).value, dict).Failed?
  {
    if cats != [] {
      assert forall val :: val !in Values(rows, cats[0]);
    }
    if Built(cats, rows, known).Ok? {
      InferIsLookup(cats, rows, known, dict);
    }
  }

  // ---- consequences

  /** The dictionary that spells out the row: it has the row's texts, and nothing for a category that
      is missing in the row or given as none. */
  predicate Spells(cats: seq<Category>, row: Row, dict: map<Category, string>) {
    forall n :: 0 <= n < |cats| ==>
      if cats[n] in dict then cats[n] in row.selector && row.selector[cats[n]] == Some(dict[cats[n]])
      else cats[n] !in row.selector || row.selector[cats[n]] == None
  }

  /** Every listed selector is found under its own dictionary. */
  lemma FindsEveryRow(cats: seq<Category>, rows: seq<Row>, known: set<Category>, row: Row, dict: map<Category, string>)
    requires Built(cats, rows, known).Ok? && row in rows && Spells(cats, row, dict)
    ensures Infer(Built(cats, rows, known).value, dict) == Ok(row.pdt)
  {
    hide Built, Infer;
    InferIsLookup(cats, rows, known, dict);
    forall n | 0 <= n < |cats| ensures Val(row, cats[n]) == Expected(cats, rows, row, n, dict) {
      if cats[n] in dict {
        assert AgreeUpTo(cats, row, row, n);
        assert Offered(cats, rows, row, n, dict[cats[n]]);
      }
    }
    assert Fits(cats, rows, row, dict);
  }

  /** All texts of the selector are in the dictionary. */
  predicate Given(cats: seq<Category>, row: Row, dict: map<Category, string>) {
    forall n :: 0 <= n < |cats| && cats[n] in row.selector && row.selector[cats[n]].Some? ==>
      cats[n] in dict && row.selector[cats[n]] == Some(dict[cats[n]])
  }

  /** A template that is returned belongs to a listed selector, all of whose texts are in the
      dictionary. */
  lemma FindsOnlyListed(cats: seq<Category>, rows: seq<Row>, known: set<Category>, dict: map<Category, string>)
    requires Built(cats, rows, known).Ok? && Infer(Built(cats, rows, known).value, dict).Ok?
    ensures exists row :: row in rows && row.pdt == Infer(Built(cats, rows, known).value, dict).value
              && Given(cats, row, dict)
  {
    hide Built, Infer;
    InferIsLookup(cats, rows, known, dict);
    var row :| Fits(cats, rows, row, dict);
    assert row in rows;
  }

  /** No template is listed twice. */
  predicate OwnTemplates(rows: seq<Row>) {
    forall r, s :: r in rows && s in rows && r.pdt == s.pdt ==> r == s
  }

  /** A selector with a template of its own is found exactly by the dictionaries that fit it. */
  lemma FoundIffFits(cats: seq<Category>, rows: seq<Row>, known: set<Category>, row: Row, dict: map<Category, string>)
    requires Built(cats, rows, known).Ok? && row in rows && OwnTemplates(rows)
    ensures Infer(Built(cats, rows, known).value, dict) == Ok(row.pdt) <==> Fits(cats, rows, row, dict)
  {
    hide Built, Infer;
    InferIsLookup(cats, rows, known, dict);
    if Infer(Built(cats, rows, known).value, dict) == Ok(row.pdt) {
      var other :| Fits(cats, rows, other, dict);
      assert other in rows;
    }
  }

  /** The selector has nothing for the category, but one that agrees with it on the categories before
      has the text of the dictionary. */
  predicate Diverted(cats: seq<Category>, rows: seq<Row>, row: Row, n: nat, dict: map<Category, string>)
    requires n < |cats|
  {
    Val(row, cats[n]) == None && cats[n] in dict && Offered(cats, rows, row, n, dict[cats[n]])
  }

  /** Inference never returns to the default once a text was found: a selector all of whose texts are
      in the dictionary is found exactly when it is diverted at no category. */
  lemma FoundIffNotDiverted(cats: seq<Category>, rows: seq<Row>, known: set<Category>, row: Row, dict: map<Category, string>)
    requires Built(cats, rows, known).Ok? && row in rows && OwnTemplates(rows) && Given(cats, row, dict)
    ensures Infer(Built(cats, rows, known).value, dict) == Ok(row.pdt) <==>
            forall n :: 0 <= n < |cats| ==> !Diverted(cats, rows, row, n, dict)
  {
    hide Built, Infer;
    FoundIffFits(cats, rows, known, row, dict);
    forall n | 0 <= n < |cats|
      ensures Val(row, cats[n]) == Expected(cats, rows, row, n, dict) <==> !Diverted(cats, rows, row, n, dict)
    {
      assert AgreeUpTo(cats, row, row, n);
    }
  }

  /** An input on which that happens: both texts of the only fitting selector are given, and inference
      raises because the other selector has the text of the first category. */
  lemma MissedSelector()
    ensures var cats, first, other := ["a", "b"], Row(map["a" := None, "b" := Some("y")], 1),
                                      Row(map["a" := Some("x"), "b" := Some("z")], 2);
            var rows, dict := [first, other], map["a" := "x", "b" := "y"];
            && Built(cats, rows, {"a", "b"}).Ok? && Given(cats, first, dict)
            && Infer(Built(cats, rows, {"a", "b"}).value, dict).Failed?
  {
    hide Built, Infer;
    var cats, first, other := ["a", "b"], Row(map["a" := None, "b" := Some("y")], 1),
                              Row(map["a" := Some("x"), "b" := Some("z")], 2);
    var rows, dict := [first, other], map["a" := "x", "b" := "y"];
    TwoDistinct(cats, first, other);
    BuiltWhenDistinct(cats, rows, {"a", "b"});
    InferIsLookup(cats, rows, {"a", "b"}, dict);
    assert AgreeUpTo(cats, other, first, 0);
    assert !Fits(cats, rows, first, dict);
    OnlyOther(cats, first, other, "y");
    assert !Fits(cats, rows, other, dict);
  }

  lemma TwoDistinct(cats: seq<Category>, a: Row, b: Row)
    requires cats != [] && Val(a, cats[0]) != Val(b, cats[0])
    ensures Distinct(cats, [a, b])
  {
    OnlyOne(cats, [a]);
    assert [a, b][..1] == [a] && Apart(cats, a, b);
  }

  lemma OnlyOther(cats: seq<Category>, a: Row, b: Row, text: string)
    requires |cats| == 2 && Val(a, cats[0]) != Val(b, cats[0]) && Val(b, cats[1]) != Some(text)
    ensures !Offered(cats, [a, b], b, 1, text)
  {
    hide Val;
  }
}
