/** Facts about finite sets and their sizes. */
module Sets {

  lemma EmptyOrMember<T(!new)>(s: set<T>)
    ensures s == {} || exists x :: x in s
  {
    if forall x :: x !in s {
      assert s == {};
    }
  }

  lemma SomeMember<T(!new)>(s: set<T>) returns (x: T)
    requires s != {}
    ensures x in s
  {
    EmptyOrMember(s);
    x :| x in s;
  }

  lemma {:induction false} InjectiveImage(s: set<int>, f: int -> int)
    requires forall a, b :: a in s && b in s && f(a) == f(b) ==> a == b
    ensures |set a | a in s :: f(a)| == |s|
  {
    if s != {} {
      var x := SomeMember(s);
      InjectiveImage(s - {x}, f);
      var rest := set a | a in s - {x} :: f(a);
      assert (set a | a in s :: f(a)) == rest + {f(x)};
    }
  }

  lemma RemoveOne<T>(s: set<T>, x: T)
    ensures |s - {x}| == if x in s then |s| - 1 else |s|
  {
    if x in s {
      assert s == (s - {x}) + {x};
    } else {
      assert s - {x} == s;
    }
  }

  lemma NoMembers<T(!new)>(s: set<T>)
    requires forall x :: x !in s
    ensures |s| == 0
  {
    assert s == {};
  }

  lemma {:induction false} BoundedCardinality(s: set<int>, n: nat)
    requires forall a :: a in s ==> 0 <= a < n
    ensures |s| <= n
    ensures |s| == n ==> forall a :: 0 <= a < n ==> a in s
    decreases n
  {
    if n == 0 {
      assert forall a :: a !in s;
      NoMembers(s);
    } else {
      RemoveOne(s, n - 1);
      BoundedCardinality(s - {n - 1}, n - 1);
      forall a | 0 <= a < n && |s| == n ensures a in s {
        assert a == n - 1 || a in s - {n - 1};
      }
    }
  }

  lemma {:induction false} FullSet(s: set<int>, n: nat)
    requires forall a :: a in s <==> 0 <= a < n
    ensures |s| == n
    decreases n
  {
    if n == 0 {
      assert forall a :: a !in s;
      NoMembers(s);
    } else {
      RemoveOne(s, n - 1);
      FullSet(s - {n - 1}, n - 1);
    }
  }

  /** A union is as large as its members together exactly when they are disjoint. */
  lemma UnionSize<T(!new)>(a: set<T>, b: set<T>)
    ensures |a + b| <= |a| + |b|
    ensures |a + b| == |a| + |b| ==> a !! b
  {
    assert |a + b| == |a| + |b| - |a * b|;
    forall x | |a + b| == |a| + |b| && x in a ensures x !in b {
      RemoveOne(a * b, x);
    }
  }

  /** A list has at most as many distinct members as entries, and fewer if an entry repeats. */
  lemma {:induction false} ListCardinality(def: seq<int>)
    ensures |set c | c in def| <= |def|
    ensures |set c | c in def| == |def| ==> forall p, q :: 0 <= p < q < |def| ==> def[p] != def[q]
    decreases |def|
  {
    if def != [] {
      var init, x := def[..|def| - 1], def[|def| - 1];
      ListCardinality(init);
      assert def == init + [x];
      assert (set c | c in def) == (set c | c in init) + {x};
    }
  }

  // ---- `begin()` of a sorted map

  lemma {:induction false} LeastBelow(keys: set<nat>, x: nat)
    requires x in keys
    ensures exists p :: p in keys && forall q :: q in keys ==> p <= q
    decreases x
  {
    if y: nat :| y in keys && y < x {
      LeastBelow(keys, y);
    } else {
      assert x in keys && forall q :: q in keys ==> x <= q;
    }
  }

  function First(keys: set<nat>): (p: nat)
    requires keys != {}
    ensures p in keys && forall q :: q in keys ==> p <= q
  {
    EmptyOrMember(keys);
    assert exists p :: p in keys && forall q :: q in keys ==> p <= q by {
      var x :| x in keys;
      LeastBelow(keys, x);
    }
    var p :| p in keys && forall q :: q in keys ==> p <= q;
    p
  }
}
