/** The metadata matcher: a configuration of nested any, all, not, match and ignore blocks, the tree
    it is compiled into, and the evaluation of that tree. */
module Matcher {
  import opened Wrappers
  import opened Sets

  // ---- metadata and configurations

  datatype Value = Int(i: int) | Real(r: real) | Text(s: string) | Bool(b: bool)

  function Kind(v: Value): nat {
    match v
    case Int(_) => 0
    case Real(_) => 1
    case Text(_) => 2
    case Bool(_) => 3
  }

  /** A key, by its rank in the order of the keys. */
  type Key = nat

  type Metadata = map<Key, Value>

  /** What a configuration holds for a key of a match or ignore block. */
  datatype Entry =
    | Ints(ints: seq<int>)
    | Reals(reals: seq<real>)
    | Texts(texts: seq<string>)
    | Scalar(value: Value)
    | Unsupported  // a list of mixed or nested elements, or no value at all

  type KeyMap = map<Key, Entry>

  datatype Shape<T> = Mapping(item: T) | Listing(items: seq<T>) | Neither

  datatype Config = Config(any: Option<Shape<Config>>, all: Option<Shape<Config>>, not: Option<Shape<Config>>,
                           match_: Option<Shape<KeyMap>>, ignore: Option<Shape<KeyMap>>, enforce: Option<bool>)

  // ---- what a configuration means

  /** The configuration lists this value, or is this value. */
  predicate Lists(e: Entry, v: Value) {
    match e
    case Ints(ints) => exists i :: 0 <= i < |ints| && v == Int(ints[i])
    case Reals(reals) => exists i :: 0 <= i < |reals| && v == Real(reals[i])
    case Texts(texts) => exists i :: 0 <= i < |texts| && v == Text(texts[i])
    case Scalar(w) => v == w
    case Unsupported => false
  }

  /** The configuration has values, of another type than this one. */
  predicate Differs(e: Entry, v: Value) {
    match e
    case Ints(ints) => ints != [] && !v.Int?
    case Reals(reals) => reals != [] && !v.Real?
    case Texts(texts) => texts != [] && !v.Text?
    case Scalar(w) => v.Int? != w.Int? || v.Real? != w.Real? || v.Text? != w.Text?
    case Unsupported => false
  }

  predicate KeyHolds(km: KeyMap, k: Key, md: Metadata)
    requires k in km
  {
    k in md && Lists(km[k], md[k])
  }

  predicate KeysHold(km: KeyMap, md: Metadata) {
    forall k :: k in km ==> KeyHolds(km, k, md)
  }

  /** A block holds if its key map does, or any one of a list of key maps. */
  predicate BlockHolds(b: Shape<KeyMap>, md: Metadata) {
    match b
    case Mapping(km) => KeysHold(km, md)
    case Listing(kms) => exists i :: 0 <= i < |kms| && KeysHold(kms[i], md)
    case Neither => false
  }

  /** The boolean meaning of a configuration. */
  predicate Holds(cfg: Config, md: Metadata) {
    if cfg.not.Some? then cfg.not.value.Mapping? && !Holds(cfg.not.value.item, md)
    else if cfg.match_.Some? || cfg.ignore.Some? then
      && (cfg.match_.Some? ==> BlockHolds(cfg.match_.value, md))
      && (cfg.ignore.Some? ==> !BlockHolds(cfg.ignore.value, md))
    else if cfg.all.Some? then
      cfg.all.value.Listing? && forall i :: 0 <= i < |cfg.all.value.items| ==> Holds(cfg.all.value.items[i], md)
    else
      cfg.any.Some? && cfg.any.value.Listing? &&
      exists i :: 0 <= i < |cfg.any.value.items| && Holds(cfg.any.value.items[i], md)
  }

  // ---- which configurations are accepted

  predicate Supported(km: KeyMap) {
    forall k :: k in km ==> !km[k].Unsupported?
  }

  predicate BlockAccepted(b: Shape<KeyMap>) {
    match b
    case Mapping(km) => Supported(km)
    case Listing(kms) => forall i :: 0 <= i < |kms| ==> Supported(kms[i])
    case Neither => false
  }

  function One(b: bool): nat {
    if b then 1 else 0
  }

  /** Exactly one of the four kinds of block, and every block in the shape it must have. */
  predicate Accepted(cfg: Config) {
    && One(cfg.any.Some?) + One(cfg.all.Some?) + One(cfg.not.Some?) + One(cfg.match_.Some? || cfg.ignore.Some?) == 1
    && (cfg.not.Some? ==> cfg.not.value.Mapping? && Accepted(cfg.not.value.item))
    && (cfg.match_.Some? ==> BlockAccepted(cfg.match_.value))
    && (cfg.ignore.Some? ==> BlockAccepted(cfg.ignore.value))
    && (cfg.all.Some? ==> cfg.all.value.Listing? &&
                          forall i :: 0 <= i < |cfg.all.value.items| ==> Accepted(cfg.all.value.items[i]))
    && (cfg.any.Some? ==> cfg.any.value.Listing? &&
                          forall i :: 0 <= i < |cfg.any.value.items| ==> Accepted(cfg.any.value.items[i]))
  }

  // ---- when matching raises an exception

  /** In key order, a value of another type comes before any key that is absent or has another value. */
  predicate KeysRaise(km: KeyMap, md: Metadata, enforce: bool) {
    enforce && exists k :: k in km && k in md && Differs(km[k], md[k])
                           && forall j :: j in km && j < k ==> KeyHolds(km, j, md)
  }

  /** In list order, a raising element comes before one that holds. */
  predicate BlockRaises(b: Shape<KeyMap>, md: Metadata, enforce: bool) {
    match b
    case Mapping(km) => KeysRaise(km, md, enforce)
    case Listing(kms) =>
      exists i :: 0 <= i < |kms| && KeysRaise(kms[i], md, enforce) && forall j :: 0 <= j < i ==> !KeysHold(kms[j], md)
    case Neither => false
  }

  function Enforce(cfg: Config, parent: bool): bool {
    if cfg.enforce.Some? then cfg.enforce.value else parent
  }

  /** In evaluation order, something raises before the result is settled. */
  predicate Raises(cfg: Config, md: Metadata, parent: bool) {
    var e := Enforce(cfg, parent);
    if cfg.not.Some? then cfg.not.value.Mapping? && Raises(cfg.not.value.item, md, e)
    else if cfg.match_.Some? || cfg.ignore.Some? then
      || (cfg.match_.Some? && BlockRaises(cfg.match_.value, md, e))
      || (cfg.ignore.Some? && BlockRaises(cfg.ignore.value, md, e)
          && (cfg.match_.Some? ==> BlockHolds(cfg.match_.value, md)))
    else if cfg.all.Some? then
      cfg.all.value.Listing? &&
      exists i :: 0 <= i < |cfg.all.value.items| && Raises(cfg.all.value.items[i], md, e)
                  && forall j :: 0 <= j < i ==> Holds(cfg.all.value.items[j], md)
    else
      cfg.any.Some? && cfg.any.value.Listing? &&
      exists i :: 0 <= i < |cfg.any.value.items| && Raises(cfg.any.value.items[i], md, e)
                  && forall j :: 0 <= j < i ==> !Holds(cfg.any.value.items[j], md)
  }

  // ---- the compiled tree

  datatype Predicate = Plain | Negate

  datatype Reduction = Or | And

  datatype Tree =
    | MatchKeys(predicate_: Predicate, enforce: bool, entries: seq<(Key, set<Value>)>)
    | MatchReduce(reduction: Reduction, predicate_: Predicate, matchers: seq<Tree>)

  function Invert(p: Predicate): Predicate {
    if p == Plain then Negate else Plain
  }

  function Apply(p: Predicate, r: Result<bool>): Result<bool> {
    if p == Negate && r.Ok? then Ok(!r.value) else r
  }

  /** The metadata have a value of another type than the key's allowed values. */
  predicate Mismatch(allowed: set<Value>, v: Value) {
    exists w :: w in allowed && Kind(w) != Kind(v)
  }

  function EvalEntries(entries: seq<(Key, set<Value>)>, enforce: bool, md: Metadata): Result<bool> {
    if entries == [] then Ok(true)
    else
      var (k, allowed) := entries[0];
      if k !in md then Ok(false)
      else if md[k] in allowed then EvalEntries(entries[1..], enforce, md)
      else if enforce && Mismatch(allowed, md[k]) then Failed
      else Ok(false)
  }

  function Eval(t: Tree, md: Metadata): Result<bool>
    decreases t
  {
    match t
    case MatchKeys(p, enforce, entries) => Apply(p, EvalEntries(entries, enforce, md))
    case MatchReduce(r, p, matchers) => Apply(p, EvalAll(r, matchers, md))
  }

  /** From left to right, up to the first element that settles the result. */
  function EvalAll(r: Reduction, matchers: seq<Tree>, md: Metadata): Result<bool>
    decreases matchers
  {
    if matchers == [] then Ok(r == And)
    else
      var first := Eval(matchers[0], md);
      if first.Failed? || first.value == (r == Or) then first else EvalAll(r, matchers[1..], md)
  }

  // ---- compilation

  function Sorted(keys: set<Key>): (ks: seq<Key>)
    ensures forall k :: k in ks <==> k in keys
    ensures forall i, j :: 0 <= i < j < |ks| ==> ks[i] < ks[j]
    decreases |keys|
  {
    if |keys| == 0 then
      NoneIn(keys);
      []
    else
      var first := First(keys);
      RemoveOne(keys, first);
      [first] + Sorted(keys - {first})
  }

  lemma NoneIn(keys: set<Key>)
    requires |keys| == 0
    ensures forall k :: k !in keys
  {
  }

  /** The set of values into which an entry is compiled. */
  function Allowed(e: Entry): (s: set<Value>)
    ensures forall v, w :: v in s && w in s ==> Kind(v) == Kind(w)
  {
    match e
    case Ints(ints) => set i | i in ints :: Int(i)
    case Reals(reals) => set r | r in reals :: Real(r)
    case Texts(texts) => set t | t in texts :: Text(t)
    case Scalar(v) => {v}
    case Unsupported => {}
  }

  lemma AllowedAreListed(e: Entry, v: Value)
    ensures v in Allowed(e) <==> Lists(e, v)
    ensures Mismatch(Allowed(e), v) <==> Differs(e, v)
  {
    match e
    case Ints(ints) =>
      if ints != [] {
        assert Int(ints[0]) in Allowed(e);
      }
    case Reals(reals) =>
      if reals != [] {
        assert Real(reals[0]) in Allowed(e);
      }
    case Texts(texts) =>
      if texts != [] {
        assert Text(texts[0]) in Allowed(e);
      }
    case _ =>
  }

  function Entries(km: KeyMap): (es: seq<(Key, set<Value>)>)
    ensures |es| == |Sorted(km.Keys)|
    ensures forall i :: 0 <= i < |es| ==> es[i].0 == Sorted(km.Keys)[i] && es[i].0 in km && es[i].1 == Allowed(km[es[i].0])
  {
    seq(|Sorted(km.Keys)|, i requires 0 <= i < |Sorted(km.Keys)| =>
      var k := Sorted(km.Keys)[i]; assert k in km.Keys; (k, Allowed(km[k])))
  }

  function KeysTree(km: KeyMap, p: Predicate, e: bool): Tree {
    MatchKeys(p, e, Entries(km))
  }

  function CompiledKeys(km: KeyMap, p: Predicate, e: bool): Result<Tree> {
    if Supported(km) then Ok(KeysTree(km, p, e)) else Failed
  }

  function CompiledAlternatives(kms: seq<KeyMap>, e: bool): Result<seq<Tree>> {
    if kms == [] then Ok([])
    else
      var init, last := CompiledAlternatives(kms[..|kms| - 1], e), CompiledKeys(kms[|kms| - 1], Plain, e);
      if init.Ok? && last.Ok? then Ok(init.value + [last.value]) else Failed
  }

  /** A single key map carries the predicate itself; of a list, the disjunction carries it. */
  function CompiledBlock(b: Shape<KeyMap>, p: Predicate, e: bool): Result<Tree> {
    match b
    case Mapping(km) => CompiledKeys(km, p, e)
    case Listing(kms) =>
      if |kms| == 1 then CompiledKeys(kms[0], p, e)
      else
        var trees := CompiledAlternatives(kms, e);
        if trees.Ok? then Ok(MatchReduce(Or, p, trees.value)) else Failed
    case Neither => Failed
  }

  function Reduced(t: Tree): Tree {
    if t.MatchKeys? then MatchReduce(Or, Plain, [t]) else t
  }

  function CompiledMatchIgnore(cfg: Config, p: Predicate, e: bool): Result<Tree>
    requires cfg.match_.Some? || cfg.ignore.Some?
  {
    if cfg.match_.Some? && cfg.ignore.Some? then
      var m, i := CompiledBlock(cfg.match_.value, Plain, e), CompiledBlock(cfg.ignore.value, Negate, e);
      if m.Ok? && i.Ok? then Ok(MatchReduce(And, p, [m.value, i.value])) else Failed
    else
      var t := if cfg.match_.Some? then CompiledBlock(cfg.match_.value, p, e)
               else CompiledBlock(cfg.ignore.value, Invert(p), e);
      if t.Ok? then Ok(Reduced(t.value)) else Failed
  }

  function CompiledList(cfgs: seq<Config>, e: bool): Result<seq<Tree>> {
    if cfgs == [] then Ok([])
    else
      var init, last := CompiledList(cfgs[..|cfgs| - 1], e), Compiled(cfgs[|cfgs| - 1], Plain, e);
      if init.Ok? && last.Ok? then Ok(init.value + [last.value]) else Failed
  }

  function Compiled(cfg: Config, p: Predicate, parent: bool): Result<Tree> {
    var e := Enforce(cfg, parent);
    if One(cfg.any.Some?) + One(cfg.all.Some?) + One(cfg.not.Some?) + One(cfg.match_.Some? || cfg.ignore.Some?) != 1 then
      Failed
    else if cfg.not.Some? then
      if cfg.not.value.Mapping? then Compiled(cfg.not.value.item, Invert(p), e) else Failed
    else if cfg.match_.Some? || cfg.ignore.Some? then CompiledMatchIgnore(cfg, p, e)
    else
      var shape := if cfg.all.Some? then cfg.all.value else cfg.any.value;
      if !shape.Listing? then Failed
      else
        var trees := CompiledList(shape.items, e);
        if trees.Ok? then Ok(MatchReduce(if cfg.all.Some? then And else Or, p, trees.value)) else Failed
  }

  // ---- compilation preserves the meaning

  /** A listed value differs in type from nothing. */
  lemma HoldsNoMismatch(km: KeyMap, k: Key, md: Metadata)
    requires k in km && KeyHolds(km, k, md)
    ensures !Differs(km[k], md[k])
  {
  }

  function KeysResult(km: KeyMap, md: Metadata, e: bool): Result<bool> {
    if KeysRaise(km, md, e) then Failed else Ok(KeysHold(km, md))
  }

  lemma {:induction false} EntriesFrom(km: KeyMap, i: nat, md: Metadata, e: bool)
    requires i <= |Entries(km)| && forall j :: 0 <= j < i ==> KeyHolds(km, Entries(km)[j].0, md)
    ensures EvalEntries(Entries(km)[i..], e, md) == KeysResult(km, md, e)
    decreases |Entries(km)| - i
  {
    hide Sorted, Allowed, Mismatch, KeysRaise, KeysHold, Lists, Differs;
    var es := Entries(km);
    if i < |es| {
      var k := es[i].0;
      if k in md {
        AllowedAreListed(km[k], md[k]);
      }
      assert es[i..][0] == es[i] && es[i..][1..] == es[i + 1..];
      if KeyHolds(km, k, md) {
        EntriesFrom(km, i + 1, md, e);
      } else {
        FirstFailure(km, i, md, e);
      }
    } else {
      AllHold(km, md, e);
    }
  }

  lemma AllHold(km: KeyMap, md: Metadata, e: bool)
    requires forall j :: 0 <= j < |Entries(km)| ==> KeyHolds(km, Entries(km)[j].0, md)
    ensures KeysHold(km, md) && !KeysRaise(km, md, e)
  {
    hide Sorted, Lists, Differs;
    forall k | k in km ensures KeyHolds(km, k, md) && !Differs(km[k], md[k]) {
      Listed(km, k);
      HoldsNoMismatch(km, k, md);
    }
  }

  lemma Listed(km: KeyMap, k: Key)
    requires k in km
    ensures exists j :: 0 <= j < |Entries(km)| && Entries(km)[j].0 == k
  {
    assert k in km.Keys && k in Sorted(km.Keys);
    var j :| 0 <= j < |Sorted(km.Keys)| && Sorted(km.Keys)[j] == k;
    assert Entries(km)[j].0 == k;
  }

  lemma SortedAt(km: KeyMap, i: nat)
    requires i < |Entries(km)|
    ensures forall j :: 0 <= j < |Entries(km)| ==> (Entries(km)[j].0 < Entries(km)[i].0 <==> j < i)
  {
  }

  /** The first key that does not hold decides. */
  lemma FirstFailure(km: KeyMap, i: nat, md: Metadata, e: bool)
    requires i < |Entries(km)| && forall j :: 0 <= j < i ==> KeyHolds(km, Entries(km)[j].0, md)
    requires !KeyHolds(km, Entries(km)[i].0, md)
    ensures !KeysHold(km, md)
    ensures var k := Entries(km)[i].0; KeysRaise(km, md, e) <==> e && k in md && Differs(km[k], md[k])
  {
    hide Sorted, Lists, Differs;
    var k := Entries(km)[i].0;
    SortedAt(km, i);
    forall j | j in km && j < k ensures KeyHolds(km, j, md) {
      Listed(km, j);
    }
    forall j | j in km && j in md && j < k ensures !Differs(km[j], md[j]) {
      HoldsNoMismatch(km, j, md);
    }
  }

  lemma KeysMean(km: KeyMap, p: Predicate, md: Metadata, e: bool)
    ensures Eval(KeysTree(km, p, e), md) == Apply(p, KeysResult(km, md, e))
  {
    assert Entries(km)[0..] == Entries(km);
    EntriesFrom(km, 0, md, e);
  }

  // What a reduction gives, if element number `i` raises or holds as listed.

  predicate ListRaises(r: Reduction, raises: seq<bool>, holds: seq<bool>)
    requires |raises| == |holds|
  {
    exists i :: 0 <= i < |raises| && raises[i] && forall j :: 0 <= j < i ==> holds[j] == (r == And)
  }

  predicate ListHolds(r: Reduction, holds: seq<bool>) {
    if r == And then forall i :: 0 <= i < |holds| ==> holds[i] else exists i :: 0 <= i < |holds| && holds[i]
  }

  function Settled(raises: bool, holds: bool): Result<bool> {
    if raises then Failed else Ok(holds)
  }

  lemma {:induction false} EvalAllIs(r: Reduction, ts: seq<Tree>, md: Metadata, raises: seq<bool>, holds: seq<bool>)
    requires |ts| == |raises| == |holds|
    requires forall i :: 0 <= i < |ts| ==> Eval(ts[i], md) == Settled(raises[i], holds[i])
    ensures EvalAll(r, ts, md) == Settled(ListRaises(r, raises, holds), ListHolds(r, holds))
    decreases |ts|
  {
    hide Eval;
    if ts != [] {
      EvalAllIs(r, ts[1..], md, raises[1..], holds[1..]);
      assert Eval(ts[0], md) == Settled(raises[0], holds[0]);
      ListCons(r, raises, holds);
    }
  }

  lemma ListCons(r: Reduction, raises: seq<bool>, holds: seq<bool>)
    requires |raises| == |holds| > 0
    ensures ListRaises(r, raises, holds) <==>
            raises[0] || (holds[0] == (r == And) && ListRaises(r, raises[1..], holds[1..]))
    ensures ListHolds(r, holds) <==>
            if r == And then holds[0] && ListHolds(r, holds[1..]) else holds[0] || ListHolds(r, holds[1..])
  {
    if holds[0] == (r == And) && ListRaises(r, raises[1..], holds[1..]) {
      var i :| 0 <= i < |raises| - 1 && raises[1..][i] && forall j :: 0 <= j < i ==> holds[1..][j] == (r == And);
      forall j | 0 <= j < i + 1 ensures holds[j] == (r == And) {
        assert j == 0 || holds[1..][j - 1] == holds[j];
      }
      assert raises[i + 1];
    }
    if ListRaises(r, raises, holds) && !raises[0] {
      var i :| 0 <= i < |raises| && raises[i] && forall j :: 0 <= j < i ==> holds[j] == (r == And);
      assert raises[1..][i - 1];
    }
    forall i | 0 <= i < |holds| - 1 ensures holds[1..][i] == holds[i + 1] { }
    if r == Or && ListHolds(r, holds) && !holds[0] {
      var i :| 0 <= i < |holds| && holds[i];
      assert holds[1..][i - 1];
    }
    if r == And && ListHolds(r, holds[1..]) && holds[0] {
      forall i | 0 <= i < |holds| ensures holds[i] {
        assert i == 0 || holds[1..][i - 1];
      }
    }
  }

  // ---- blocks

  function BlockResult(b: Shape<KeyMap>, md: Metadata, e: bool): Result<bool> {
    Settled(BlockRaises(b, md, e), BlockHolds(b, md))
  }

  lemma {:induction false} AlternativesAre(kms: seq<KeyMap>, e: bool)
    ensures CompiledAlternatives(kms, e).Ok? <==> BlockAccepted(Listing(kms))
    ensures CompiledAlternatives(kms, e).Ok? ==> AreKeysTrees(CompiledAlternatives(kms, e).value, kms, e)
    decreases |kms|
  {
    hide Supported, KeysTree;
    if kms != [] {
      var init := kms[..|kms| - 1];
      AlternativesAre(init, e);
      assert forall i :: 0 <= i < |init| ==> kms[i] == init[i];
      assert BlockAccepted(Listing(kms)) <==> BlockAccepted(Listing(init)) && Supported(kms[|kms| - 1]);
    }
  }

  predicate AreKeysTrees(ts: seq<Tree>, kms: seq<KeyMap>, e: bool) {
    |ts| == |kms| && forall i :: 0 <= i < |kms| ==> ts[i] == KeysTree(kms[i], Plain, e)
  }

  lemma BlockMeans(b: Shape<KeyMap>, p: Predicate, md: Metadata, e: bool)
    ensures CompiledBlock(b, p, e).Ok? <==> BlockAccepted(b)
    ensures CompiledBlock(b, p, e).Ok? ==> Eval(CompiledBlock(b, p, e).value, md) == Apply(p, BlockResult(b, md, e))
  {
    hide KeysHold, KeysRaise, Supported, KeysTree;
    match b
    case Mapping(km) => KeysMean(km, p, md, e);
    case Neither =>
    case Listing(kms) =>
      if |kms| == 1 {
        KeysMean(kms[0], p, md, e);
      } else {
        SeveralMean(kms, p, md, e);
      }
  }

  function RaiseList(kms: seq<KeyMap>, md: Metadata, e: bool): (bs: seq<bool>)
    ensures |bs| == |kms| && forall i :: 0 <= i < |kms| ==> bs[i] == KeysRaise(kms[i], md, e)
  {
    if kms == [] then [] else RaiseList(kms[..|kms| - 1], md, e) + [KeysRaise(kms[|kms| - 1], md, e)]
  }

  function HoldList(kms: seq<KeyMap>, md: Metadata): (bs: seq<bool>)
    ensures |bs| == |kms| && forall i :: 0 <= i < |kms| ==> bs[i] == KeysHold(kms[i], md)
  {
    if kms == [] then [] else HoldList(kms[..|kms| - 1], md) + [KeysHold(kms[|kms| - 1], md)]
  }

  lemma BlockAsList(kms: seq<KeyMap>, md: Metadata, e: bool)
    ensures ListRaises(Or, RaiseList(kms, md, e), HoldList(kms, md)) <==> BlockRaises(Listing(kms), md, e)
    ensures ListHolds(Or, HoldList(kms, md)) <==> BlockHolds(Listing(kms), md)
  {
    hide KeysHold, KeysRaise;
    var raises, holds := RaiseList(kms, md, e), HoldList(kms, md);
    if ListRaises(Or, raises, holds) {
      var i :| 0 <= i < |raises| && raises[i] && forall j :: 0 <= j < i ==> holds[j] == (Or == And);
      assert KeysRaise(kms[i], md, e) && forall j :: 0 <= j < i ==> !holds[j];
    }
    if BlockRaises(Listing(kms), md, e) {
      var i :| 0 <= i < |kms| && KeysRaise(kms[i], md, e) && forall j :: 0 <= j < i ==> !KeysHold(kms[j], md);
      assert raises[i];
    }
    if BlockHolds(Listing(kms), md) {
      var i :| 0 <= i < |kms| && KeysHold(kms[i], md);
      assert holds[i];
    }
  }

  lemma AlternativesMean(kms: seq<KeyMap>, md: Metadata, e: bool)
    requires CompiledAlternatives(kms, e).Ok?
    ensures EvalAll(Or, CompiledAlternatives(kms, e).value, md) == BlockResult(Listing(kms), md, e)
  {
    hide KeysHold, KeysRaise, Supported, KeysTree, Eval, RaiseList, HoldList, BlockRaises, BlockHolds, ListRaises, ListHolds;
    AlternativesAre(kms, e);
    var ts := CompiledAlternatives(kms, e).value;
    forall i | 0 <= i < |ts| ensures Eval(ts[i], md) == Settled(RaiseList(kms, md, e)[i], HoldList(kms, md)[i]) {
      KeysMean(kms[i], Plain, md, e);
    }
    EvalAllIs(Or, ts, md, RaiseList(kms, md, e), HoldList(kms, md));
    BlockAsList(kms, md, e);
  }

  lemma SeveralMean(kms: seq<KeyMap>, p: Predicate, md: Metadata, e: bool)
    requires |kms| != 1
    ensures CompiledBlock(Listing(kms), p, e).Ok? <==> BlockAccepted(Listing(kms))
    ensures CompiledBlock(Listing(kms), p, e).Ok? ==>
              Eval(CompiledBlock(Listing(kms), p, e).value, md) == Apply(p, BlockResult(Listing(kms), md, e))
  {
    hide KeysHold, KeysRaise, Supported, KeysTree, BlockAccepted, BlockRaises, BlockHolds, EvalAll, CompiledAlternatives;
    AlternativesAre(kms, e);
    if CompiledAlternatives(kms, e).Ok? {
      AlternativesMean(kms, md, e);
    }
  }

  lemma ReducedMeans(t: Tree, md: Metadata)
    ensures Eval(Reduced(t), md) == Eval(t, md)
  {
    if t.MatchKeys? {
      hide Eval;
      var ts := [t];
      assert ts[1..] == [];
      assert EvalAll(Or, ts[1..], md) == Ok(false);
      assert EvalAll(Or, ts, md) == Eval(t, md);
      ReduceEval(Or, Plain, ts, md);
    }
  }

  function MatchIgnoreResult(cfg: Config, md: Metadata, e: bool): Result<bool> {
    Settled(|| (cfg.match_.Some? && BlockRaises(cfg.match_.value, md, e))
            || (cfg.ignore.Some? && BlockRaises(cfg.ignore.value, md, e)
                && (cfg.match_.Some? ==> BlockHolds(cfg.match_.value, md))),
            && (cfg.match_.Some? ==> BlockHolds(cfg.match_.value, md))
            && (cfg.ignore.Some? ==> !BlockHolds(cfg.ignore.value, md)))
  }

  lemma MatchIgnoreMeans(cfg: Config, p: Predicate, md: Metadata, e: bool)
    requires cfg.match_.Some? || cfg.ignore.Some?
    ensures CompiledMatchIgnore(cfg, p, e).Ok? <==>
            (cfg.match_.Some? ==> BlockAccepted(cfg.match_.value)) && (cfg.ignore.Some? ==> BlockAccepted(cfg.ignore.value))
    ensures CompiledMatchIgnore(cfg, p, e).Ok? ==>
              Eval(CompiledMatchIgnore(cfg, p, e).value, md) == Apply(p, MatchIgnoreResult(cfg, md, e))
  {
    hide CompiledBlock, BlockRaises, BlockHolds, BlockAccepted, Eval;
    if cfg.match_.Some? && cfg.ignore.Some? {
      BlockMeans(cfg.match_.value, Plain, md, e);
      BlockMeans(cfg.ignore.value, Negate, md, e);
      var m, i := CompiledBlock(cfg.match_.value, Plain, e), CompiledBlock(cfg.ignore.value, Negate, e);
      if m.Ok? && i.Ok? {
        BothMean(m.value, i.value, p, md);
      }
    } else if cfg.match_.Some? {
      BlockMeans(cfg.match_.value, p, md, e);
      if CompiledBlock(cfg.match_.value, p, e).Ok? {
        ReducedMeans(CompiledBlock(cfg.match_.value, p, e).value, md);
      }
    } else {
      BlockMeans(cfg.ignore.value, Invert(p), md, e);
      if CompiledBlock(cfg.ignore.value, Invert(p), e).Ok? {
        ReducedMeans(CompiledBlock(cfg.ignore.value, Invert(p), e).value, md);
      }
    }
  }

  lemma BothMean(m: Tree, i: Tree, p: Predicate, md: Metadata)
    ensures Eval(MatchReduce(And, p, [m, i]), md) ==
            Apply(p, if Eval(m, md) != Ok(true) then Eval(m, md) else Eval(i, md))
  {
    hide Eval;
    var ts := [m, i];
    assert ts[1..] == [i] && [i][1..] == [];
    assert EvalAll(And, [i], md) == Eval(i, md);
    assert EvalAll(And, ts, md) == if Eval(m, md) != Ok(true) then Eval(m, md) else EvalAll(And, [i], md);
    ReduceEval(And, p, ts, md);
  }

  lemma ReduceEval(r: Reduction, p: Predicate, ts: seq<Tree>, md: Metadata)
    ensures Eval(MatchReduce(r, p, ts), md) == Apply(p, EvalAll(r, ts, md))
  {
  }

  // ---- whole configurations

  function ConfigResult(cfg: Config, md: Metadata, parent: bool): Result<bool> {
    Settled(Raises(cfg, md, parent), Holds(cfg, md))
  }

  predicate AllAccepted(cfgs: seq<Config>) {
    forall i :: 0 <= i < |cfgs| ==> Accepted(cfgs[i])
  }

  ghost predicate AllMean(cfgs: seq<Config>, ts: seq<Tree>, md: Metadata, e: bool) {
    |ts| == |cfgs| && forall i :: 0 <= i < |cfgs| ==> Eval(ts[i], md) == ConfigResult(cfgs[i], md, e)
  }

  function ConfigRaises(cfgs: seq<Config>, md: Metadata, e: bool): (bs: seq<bool>)
    ensures |bs| == |cfgs| && forall i :: 0 <= i < |cfgs| ==> bs[i] == Raises(cfgs[i], md, e)
  {
    if cfgs == [] then [] else ConfigRaises(cfgs[..|cfgs| - 1], md, e) + [Raises(cfgs[|cfgs| - 1], md, e)]
  }

  function ConfigHolds(cfgs: seq<Config>, md: Metadata): (bs: seq<bool>)
    ensures |bs| == |cfgs| && forall i :: 0 <= i < |cfgs| ==> bs[i] == Holds(cfgs[i], md)
  {
    if cfgs == [] then [] else ConfigHolds(cfgs[..|cfgs| - 1], md) + [Holds(cfgs[|cfgs| - 1], md)]
  }

  function ListResult(r: Reduction, cfgs: seq<Config>, md: Metadata, e: bool): Result<bool> {
    Settled(ListRaises(r, ConfigRaises(cfgs, md, e), ConfigHolds(cfgs, md)), ListHolds(r, ConfigHolds(cfgs, md)))
  }

  lemma ListMeans(r: Reduction, cfgs: seq<Config>, ts: seq<Tree>, p: Predicate, md: Metadata, e: bool)
    requires AllMean(cfgs, ts, md, e)
    ensures Eval(MatchReduce(r, p, ts), md) == Apply(p, ListResult(r, cfgs, md, e))
  {
    hide Eval, Raises, Holds, ConfigRaises, ConfigHolds, ListRaises, ListHolds;
    EvalAllIs(r, ts, md, ConfigRaises(cfgs, md, e), ConfigHolds(cfgs, md));
    ReduceEval(r, p, ts, md);
  }

  /** What an all or any block means, in terms of its elements. */
  lemma ReductionMeans(cfg: Config, md: Metadata, parent: bool)
    requires cfg.not.None? && cfg.match_.None? && cfg.ignore.None? && (cfg.all.Some? || cfg.any.Some?)
    requires (cfg.all.Some? ==> cfg.all.value.Listing?) && (cfg.any.Some? ==> cfg.any.value.Listing?)
    ensures ConfigResult(cfg, md, parent) ==
            if cfg.all.Some? then ListResult(And, cfg.all.value.items, md, Enforce(cfg, parent))
            else ListResult(Or, cfg.any.value.items, md, Enforce(cfg, parent))
  {
    hide ConfigRaises, ConfigHolds;
    var e := Enforce(cfg, parent);
    var r := if cfg.all.Some? then And else Or;
    var cfgs := if cfg.all.Some? then cfg.all.value.items else cfg.any.value.items;
    ListAsQuantifiers(r, cfgs, md, e);
  }

  lemma ListAsQuantifiers(r: Reduction, cfgs: seq<Config>, md: Metadata, e: bool)
    ensures ListRaises(r, ConfigRaises(cfgs, md, e), ConfigHolds(cfgs, md)) <==>
            exists i :: 0 <= i < |cfgs| && Raises(cfgs[i], md, e) && forall j :: 0 <= j < i ==> Holds(cfgs[j], md) == (r == And)
    ensures ListHolds(And, ConfigHolds(cfgs, md)) <==> forall i :: 0 <= i < |cfgs| ==> Holds(cfgs[i], md)
    ensures ListHolds(Or, ConfigHolds(cfgs, md)) <==> exists i :: 0 <= i < |cfgs| && Holds(cfgs[i], md)
  {
    hide Raises, Holds;
    var raises, holds := ConfigRaises(cfgs, md, e), ConfigHolds(cfgs, md);
    if ListRaises(r, raises, holds) {
      var i :| 0 <= i < |raises| && raises[i] && forall j :: 0 <= j < i ==> holds[j] == (r == And);
      assert Raises(cfgs[i], md, e);
      assert forall j :: 0 <= j < i ==> holds[j] == Holds(cfgs[j], md);
    }
    if i :| 0 <= i < |cfgs| && Raises(cfgs[i], md, e) && forall j :: 0 <= j < i ==> Holds(cfgs[j], md) == (r == And) {
      assert raises[i];
    }
    if i :| 0 <= i < |holds| && holds[i] {
      assert Holds(cfgs[i], md);
    }
    if i :| 0 <= i < |cfgs| && Holds(cfgs[i], md) {
      assert holds[i];
    }
  }

  lemma ListSnoc(init: seq<Config>, last: Config, e: bool)
    ensures CompiledList(init + [last], e) ==
            if CompiledList(init, e).Ok? && Compiled(last, Plain, e).Ok?
            then Ok(CompiledList(init, e).value + [Compiled(last, Plain, e).value]) else Failed
  {
    hide Compiled;
    assert (init + [last])[..|init|] == init;
  }

  lemma ListCompilesStep(init: seq<Config>, last: Config, md: Metadata, e: bool)
    requires CompiledList(init, e).Ok? <==> AllAccepted(init)
    requires CompiledList(init, e).Ok? ==> AllMean(init, CompiledList(init, e).value, md, e)
    requires Compiled(last, Plain, e).Ok? <==> Accepted(last)
    requires Compiled(last, Plain, e).Ok? ==> Eval(Compiled(last, Plain, e).value, md) == ConfigResult(last, md, e)
    ensures CompiledList(init + [last], e).Ok? <==> AllAccepted(init + [last])
    ensures CompiledList(init + [last], e).Ok? ==> AllMean(init + [last], CompiledList(init + [last], e).value, md, e)
  {
    hide CompiledList, Compiled, Accepted, Eval, AllAccepted, AllMean;
    ListSnoc(init, last, e);
    AcceptedSnoc(init, last);
    if CompiledList(init + [last], e).Ok? {
      MeanSnoc(init, last, CompiledList(init, e).value, Compiled(last, Plain, e).value, md, e);
    }
  }

  lemma AcceptedSnoc(init: seq<Config>, last: Config)
    ensures AllAccepted(init + [last]) <==> AllAccepted(init) && Accepted(last)
  {
    hide Accepted;
    var cfgs := init + [last];
    if AllAccepted(cfgs) {
      forall i | 0 <= i < |init| ensures Accepted(init[i]) { assert cfgs[i] == init[i]; }
      assert cfgs[|init|] == last;
    }
  }

  lemma MeanSnoc(init: seq<Config>, last: Config, ts: seq<Tree>, t: Tree, md: Metadata, e: bool)
    requires AllMean(init, ts, md, e) && Eval(t, md) == ConfigResult(last, md, e)
    ensures AllMean(init + [last], ts + [t], md, e)
  {
    hide Eval, ConfigResult;
  }

  lemma {:induction false} ListCompiles(cfgs: seq<Config>, md: Metadata, e: bool)
    ensures CompiledList(cfgs, e).Ok? <==> AllAccepted(cfgs)
    ensures CompiledList(cfgs, e).Ok? ==> AllMean(cfgs, CompiledList(cfgs, e).value, md, e)
    decreases cfgs
  {
    if cfgs != [] {
      hide CompiledList, Compiled, Accepted, Eval, AllMean, AllAccepted;
      var init, last := cfgs[..|cfgs| - 1], cfgs[|cfgs| - 1];
      ListCompiles(init, md, e);
      CompiledMeans(last, Plain, md, e);
      assert cfgs == init + [last];
      ListCompilesStep(init, last, md, e);
    }
  }

  /** A configuration compiles exactly when it is accepted. The compiled tree then raises exactly when
      the configuration does, in evaluation order, and otherwise gives its boolean meaning, negated
      if asked for. */
  lemma {:induction false} CompiledMeans(cfg: Config, p: Predicate, md: Metadata, parent: bool)
    ensures Compiled(cfg, p, parent).Ok? <==> Accepted(cfg)
    ensures Compiled(cfg, p, parent).Ok? ==>
              Eval(Compiled(cfg, p, parent).value, md) == Apply(p, Settled(Raises(cfg, md, parent), Holds(cfg, md)))
    decreases cfg
  {
    hide Eval, CompiledMatchIgnore, ListResult, CompiledList, BlockAccepted, BlockHolds, BlockRaises;
    var e := Enforce(cfg, parent);
    if One(cfg.any.Some?) + One(cfg.all.Some?) + One(cfg.not.Some?) + One(cfg.match_.Some? || cfg.ignore.Some?) == 1 {
      if cfg.not.Some? {
        if cfg.not.value.Mapping? {
          CompiledMeans(cfg.not.value.item, Invert(p), md, e);
        }
      } else if cfg.match_.Some? || cfg.ignore.Some? {
        MatchIgnoreMeans(cfg, p, md, e);
      } else {
        var shape := if cfg.all.Some? then cfg.all.value else cfg.any.value;
        if shape.Listing? {
          ListCompiles(shape.items, md, e);
          if CompiledList(shape.items, e).Ok? {
            ListMeans(if cfg.all.Some? then And else Or, shape.items, CompiledList(shape.items, e).value, p, md, e);
            ReductionMeans(cfg, md, parent);
          }
        }
      }
    }
  }

  // ---- no mismatch, no exception

  /** No key anywhere in the configuration mismatches the metadata. */
  predicate NoMismatch(cfg: Config, md: Metadata) {
    && (cfg.not.Some? && cfg.not.value.Mapping? ==> NoMismatch(cfg.not.value.item, md))
    && (cfg.match_.Some? ==> BlockMatches(cfg.match_.value, md))
    && (cfg.ignore.Some? ==> BlockMatches(cfg.ignore.value, md))
    && (cfg.all.Some? && cfg.all.value.Listing? ==>
          forall i :: 0 <= i < |cfg.all.value.items| ==> NoMismatch(cfg.all.value.items[i], md))
    && (cfg.any.Some? && cfg.any.value.Listing? ==>
          forall i :: 0 <= i < |cfg.any.value.items| ==> NoMismatch(cfg.any.value.items[i], md))
  }

  predicate KeysMatch(km: KeyMap, md: Metadata) {
    forall k :: k in km && k in md ==> !Differs(km[k], md[k])
  }

  predicate BlockMatches(b: Shape<KeyMap>, md: Metadata) {
    match b
    case Mapping(km) => KeysMatch(km, md)
    case Listing(kms) => forall i :: 0 <= i < |kms| ==> KeysMatch(kms[i], md)
    case Neither => true
  }

  /** Negations pushed inwards and lists of one collapsed, the compiled matcher of an accepted
      configuration is its boolean meaning on all metadata without a type mismatch. */
  lemma {:induction false} MeaningPreserved(cfg: Config, p: Predicate, md: Metadata, parent: bool)
    requires Accepted(cfg) && NoMismatch(cfg, md)
    ensures Compiled(cfg, p, parent).Ok?
    ensures Eval(Compiled(cfg, p, parent).value, md) == Ok(Holds(cfg, md) != (p == Negate))
  {
    CompiledMeans(cfg, p, md, parent);
    NeverRaises(cfg, md, parent);
  }

  lemma {:induction false} NeverRaises(cfg: Config, md: Metadata, parent: bool)
    requires NoMismatch(cfg, md)
    ensures !Raises(cfg, md, parent)
    decreases cfg
  {
    hide Holds, Differs, Lists;
    var e := Enforce(cfg, parent);
    if cfg.not.Some? && cfg.not.value.Mapping? {
      NeverRaises(cfg.not.value.item, md, e);
    }
    if cfg.all.Some? && cfg.all.value.Listing? {
      forall i | 0 <= i < |cfg.all.value.items| ensures !Raises(cfg.all.value.items[i], md, e) {
        NeverRaises(cfg.all.value.items[i], md, e);
      }
    }
    if cfg.any.Some? && cfg.any.value.Listing? {
      forall i | 0 <= i < |cfg.any.value.items| ensures !Raises(cfg.any.value.items[i], md, e) {
        NeverRaises(cfg.any.value.items[i], md, e);
      }
    }
  }

  // ---- single blocks, written out

  function MatchOnly(b: Shape<KeyMap>, flag: Option<bool>): Config {
    Config(None, None, None, Some(b), None, flag)
  }

  function IgnoreOnly(b: Shape<KeyMap>, flag: Option<bool>): Config {
    Config(None, None, None, None, Some(b), flag)
  }

  /** Every key is there and has a listed value. */
  ghost predicate AllListed(km: KeyMap, md: Metadata) {
    forall k :: k in km ==> k in md && Lists(km[k], md[k])
  }

  /** A match block of one key map compiles exactly if every entry can be represented. It raises
      exactly if the block's own flag, or its parent's if it has none, is set and the first key that
      does not hold has a value of another type than those listed. Otherwise it holds exactly if every
      key is there and has a listed value. */
  lemma MatchMeans(km: KeyMap, flag: Option<bool>, parent: bool, md: Metadata)
    ensures Compiled(MatchOnly(Mapping(km), flag), Plain, parent).Ok? <==> forall k :: k in km ==> !km[k].Unsupported?
    ensures Compiled(MatchOnly(Mapping(km), flag), Plain, parent).Ok? ==>
              var result := Eval(Compiled(MatchOnly(Mapping(km), flag), Plain, parent).value, md);
              && (result.Failed? <==>
                    && (if flag.Some? then flag.value else parent)
                    && exists k :: k in km && k in md && Differs(km[k], md[k])
                                   && forall j :: j in km && j < k ==> j in md && Lists(km[j], md[j]))
              && (result.Ok? ==> (result.value <==> AllListed(km, md)))
  {
    hide Compiled, Eval, Lists, Differs;
    var cfg := MatchOnly(Mapping(km), flag);
    CompiledMeans(cfg, Plain, md, parent);
    assert BlockHolds(Mapping(km), md) <==> forall k :: k in km ==> k in md && Lists(km[k], md[k]);
  }

  ghost predicate NoneDiffers(kms: seq<KeyMap>, md: Metadata) {
    forall i, k :: 0 <= i < |kms| && k in kms[i] && k in md ==> !Differs(kms[i][k], md[k])
  }

  /** One of the key maps has all its keys listed. */
  ghost predicate SomeListed(kms: seq<KeyMap>, md: Metadata) {
    exists i :: 0 <= i < |kms| && AllListed(kms[i], md)
  }

  lemma ListHoldsIf(kms: seq<KeyMap>, md: Metadata, e: bool)
    requires NoneDiffers(kms, md)
    ensures !BlockRaises(Listing(kms), md, e)
    ensures BlockHolds(Listing(kms), md) <==> SomeListed(kms, md)
    ensures BlockAccepted(Listing(kms)) <==> forall i, k :: 0 <= i < |kms| && k in kms[i] ==> !kms[i][k].Unsupported?
  {
    hide Lists, Differs;
    forall i | 0 <= i < |kms| ensures !KeysRaise(kms[i], md, e) && (KeysHold(kms[i], md) <==> AllListed(kms[i], md)) { }
    hide KeysHold, AllListed;
    if BlockAccepted(Listing(kms)) {
      forall i, k | 0 <= i < |kms| && k in kms[i] ensures !kms[i][k].Unsupported? {
        assert Supported(kms[i]);
      }
    }
  }

  /** Of a match block with a list of key maps one must hold, and of an ignore block none may. The
      metadata have no value of another type than those listed. */
  lemma ListsMean(kms: seq<KeyMap>, flag: Option<bool>, parent: bool, md: Metadata)
    requires NoneDiffers(kms, md)
    ensures var m, i := MatchOnly(Listing(kms), flag), IgnoreOnly(Listing(kms), flag);
            && (Compiled(m, Plain, parent).Ok? <==> Compiled(i, Plain, parent).Ok?)
            && (Compiled(m, Plain, parent).Ok? <==>
                  forall i, k :: 0 <= i < |kms| && k in kms[i] ==> !kms[i][k].Unsupported?)
    ensures var m, i, holds := MatchOnly(Listing(kms), flag), IgnoreOnly(Listing(kms), flag), SomeListed(kms, md);
            && (Compiled(m, Plain, parent).Ok? ==> Eval(Compiled(m, Plain, parent).value, md) == Ok(holds))
            && (Compiled(i, Plain, parent).Ok? ==> Eval(Compiled(i, Plain, parent).value, md) == Ok(!holds))
  {
    hide Compiled, Eval, BlockHolds, BlockRaises, BlockAccepted, NoneDiffers, SomeListed;
    var m, i := MatchOnly(Listing(kms), flag), IgnoreOnly(Listing(kms), flag);
    ListHoldsIf(kms, md, Enforce(m, parent));
    CompiledMeans(m, Plain, md, parent);
    CompiledMeans(i, Plain, md, parent);
  }

  // ---- the loops of the source

  method MatchesKeys(entries: seq<(Key, set<Value>)>, p: Predicate, enforce: bool, md: Metadata) returns (r: Result<bool>)
    requires forall i :: 0 <= i < |entries| ==> forall v, w :: v in entries[i].1 && w in entries[i].1 ==> Kind(v) == Kind(w)
    ensures r == Apply(p, EvalEntries(entries, enforce, md))
  {
    var res, i := true, 0;
    assert entries[0..] == entries;
    while i < |entries|
      invariant 0 <= i <= |entries| && res
      invariant EvalEntries(entries, enforce, md) == EvalEntries(entries[i..], enforce, md)
    {
      var (k, allowed) := entries[i];
      assert entries[i..][0] == entries[i] && entries[i..][1..] == entries[i + 1..];
      if k !in md {
        res := false;
        break;
      }
      if md[k] !in allowed {
        if enforce && allowed != {} {
          EmptyOrMember(allowed);
          var begin :| begin in allowed;
          if Kind(begin) != Kind(md[k]) {
            return Failed;
          }
        }
        res := false;
        break;
      }
      i := i + 1;
    }
    r := Ok(if p == Negate then !res else res);
  }

  /** Every set of allowed values in the tree has values of one type. */
  predicate Uniform(t: Tree) {
    match t
    case MatchKeys(_, _, entries) =>
      forall i :: 0 <= i < |entries| ==> forall v, w :: v in entries[i].1 && w in entries[i].1 ==> Kind(v) == Kind(w)
    case MatchReduce(_, _, matchers) => forall i :: 0 <= i < |matchers| ==> Uniform(matchers[i])
  }

  method Matches(t: Tree, md: Metadata) returns (r: Result<bool>)
    requires Uniform(t)
    ensures r == Eval(t, md)
    decreases t
  {
    match t
    case MatchKeys(p, enforce, entries) =>
      r := MatchesKeys(entries, p, enforce, md);
    case MatchReduce(reduction, p, matchers) =>
      var res, i := reduction == And, 0;
      assert matchers[0..] == matchers;
      while i < |matchers|
        invariant 0 <= i <= |matchers| && res == (reduction == And)
        invariant EvalAll(reduction, matchers, md) == EvalAll(reduction, matchers[i..], md)
      {
        assert matchers[i..][0] == matchers[i] && matchers[i..][1..] == matchers[i + 1..];
        var one := Matches(matchers[i], md);
        if one.Failed? {
          return Failed;
        }
        if one.value == (reduction == Or) {
          res := !res;
          break;
        }
        i := i + 1;
      }
      r := Ok(if p == Negate then !res else res);
  }

  lemma {:induction false} RaisedStays(cfgs: seq<Config>, k: nat, e: bool)
    requires k <= |cfgs| && CompiledList(cfgs[..k], e).Failed?
    ensures CompiledList(cfgs, e).Failed?
    decreases |cfgs|
  {
    if k < |cfgs| {
      assert cfgs[..|cfgs| - 1][..k] == cfgs[..k];
      RaisedStays(cfgs[..|cfgs| - 1], k, e);
    } else {
      assert cfgs[..k] == cfgs;
    }
  }

  method Construct(cfg: Config, p: Predicate, parent: bool) returns (r: Result<Tree>)
    ensures r == Compiled(cfg, p, parent)
    decreases cfg
  {
    hide CompiledMatchIgnore, Invert;
    var e := if cfg.enforce.Some? then cfg.enforce.value else parent;
    assert e == Enforce(cfg, parent);
    hide Enforce;
    var checkKeySum := One(cfg.any.Some?) + One(cfg.all.Some?) + One(cfg.not.Some?) + One(cfg.match_.Some? || cfg.ignore.Some?);
    if checkKeySum > 1 {
      return Failed;
    }
    if checkKeySum == 0 {
      return Failed;
    }
    if cfg.not.Some? {
      if !cfg.not.value.Mapping? {
        return Failed;
      }
      r := Construct(cfg.not.value.item, Invert(p), e);
    } else if cfg.match_.Some? || cfg.ignore.Some? {
      r := CompiledMatchIgnore(cfg, p, e);
    } else {
      var shape := if cfg.all.Some? then cfg.all.value else cfg.any.value;
      if !shape.Listing? {
        return Failed;
      }
      var matchers, k := [], 0;
      while k < |shape.items|
        invariant 0 <= k <= |shape.items| && CompiledList(shape.items[..k], e) == Ok(matchers)
      {
        assert shape.items[..k + 1][..k] == shape.items[..k];
        var one := Construct(shape.items[k], Plain, e);
        if one.Failed? {
          RaisedStays(shape.items, k + 1, e);
          return Failed;
        }
        matchers := matchers + [one.value];
        k := k + 1;
      }
      assert shape.items[..k] == shape.items;
      r := Ok(MatchReduce(if cfg.all.Some? then And else Or, p, matchers));
    }
  }

  lemma EntriesUniform(km: KeyMap, p: Predicate, e: bool)
    ensures Uniform(KeysTree(km, p, e))
  {
  }

  lemma {:induction false} AlternativesUniform(kms: seq<KeyMap>, e: bool)
    requires CompiledAlternatives(kms, e).Ok?
    ensures forall i :: 0 <= i < |CompiledAlternatives(kms, e).value| ==> Uniform(CompiledAlternatives(kms, e).value[i])
    decreases |kms|
  {
    if kms != [] {
      AlternativesUniform(kms[..|kms| - 1], e);
      EntriesUniform(kms[|kms| - 1], Plain, e);
    }
  }

  lemma BlockUniform(b: Shape<KeyMap>, p: Predicate, e: bool)
    requires CompiledBlock(b, p, e).Ok?
    ensures Uniform(CompiledBlock(b, p, e).value)
  {
    match b
    case Mapping(km) => EntriesUniform(km, p, e);
    case Listing(kms) =>
      if |kms| == 1 {
        EntriesUniform(kms[0], p, e);
      } else {
        AlternativesUniform(kms, e);
      }
  }

  lemma {:induction false} ListUniform(cfgs: seq<Config>, e: bool)
    requires CompiledList(cfgs, e).Ok?
    ensures forall i :: 0 <= i < |CompiledList(cfgs, e).value| ==> Uniform(CompiledList(cfgs, e).value[i])
    decreases cfgs
  {
    if cfgs != [] {
      ListUniform(cfgs[..|cfgs| - 1], e);
      CompiledUniform(cfgs[|cfgs| - 1], Plain, e);
    }
  }

  /** What `construct` builds can be evaluated. */
  lemma {:induction false} CompiledUniform(cfg: Config, p: Predicate, parent: bool)
    requires Compiled(cfg, p, parent).Ok?
    ensures Uniform(Compiled(cfg, p, parent).value)
    decreases cfg
  {
    var e := Enforce(cfg, parent);
    if cfg.not.Some? {
      CompiledUniform(cfg.not.value.item, Invert(p), e);
    } else if cfg.match_.Some? || cfg.ignore.Some? {
      if cfg.match_.Some? && cfg.ignore.Some? {
        BlockUniform(cfg.match_.value, Plain, e);
        BlockUniform(cfg.ignore.value, Negate, e);
      } else if cfg.match_.Some? {
        BlockUniform(cfg.match_.value, p, e);
      } else {
        BlockUniform(cfg.ignore.value, Invert(p), e);
      }
    } else {
      ListUniform(if cfg.all.Some? then cfg.all.value.items else cfg.any.value.items, e);
    }
  }
}
