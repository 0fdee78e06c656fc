/** Counting facts about finite sets and maps that several proofs share. */
module Finite {

  ghost function PickOne<T>(s: set<T>): (x: T)
    requires s != {}
    ensures x in s
  {
    var x :| x in s; x
  }

  lemma {:induction false} SubsetSize<T>(a: set<T>, b: set<T>)
    requires a <= b
    ensures |a| <= |b|
    ensures |a| == |b| ==> a == b
  {
    if a == {} {
    } else {
      var x := PickOne(a);
      SubsetSize(a - {x}, b - {x});
    }
  }

  /** `s` has a member in the `k`-th block of `p` numbers. */
  ghost predicate HasInBlock(s: set<nat>, p: nat, k: nat)
    requires p > 0
  {
    exists r :: r in s && r / p == k
  }

  /** A member in each of `n` blocks makes `n` members. */
  lemma {:induction false} BlocksCount(s: set<nat>, p: nat, n: nat)
    requires p > 0 && forall k: nat :: k < n ==> HasInBlock(s, p, k)
    ensures n <= |s|
  {
    if n > 0 {
      assert HasInBlock(s, p, n - 1);
      var r :| r in s && r / p == n - 1;
      var below := set x | x in s && x / p < n - 1;
      forall k: nat | k < n - 1
        ensures HasInBlock(below, p, k)
      {
        assert HasInBlock(s, p, k);
        var x :| x in s && x / p == k;
        assert x in below;
      }
      BlocksCount(below, p, n - 1);
      SubsetSize(below + {r}, s);
    }
  }

  /** What is taken by keys of `d` has no more members than `d`. */
  lemma ImageSize<K, V>(m: map<K, V>, d: set<K>, s: set<V>)
    requires forall v :: v in s ==> exists k :: k in d && k in m && m[k] == v
    ensures |s| <= |d|
  {
    var part := map k | k in m && k in d :: m[k];
    forall v | v in s
      ensures v in part.Values
    {
      var k :| k in d && k in m && m[k] == v;
      assert k in part && part[k] == v;
    }
    SubsetSize(s, part.Values);
    ValuesSize(part);
    SubsetSize(part.Keys, d);
  }

  /** All numbers below `n` make at least `n` members. */
  lemma CountAll(s: set<nat>, n: nat)
    requires forall r: nat :: r < n ==> r in s
    ensures n <= |s|
  {
    forall k: nat | k < n
      ensures HasInBlock(s, 1, k)
    {
      assert k in s && k / 1 == k;
    }
    BlocksCount(s, 1, n);
  }

  ghost predicate Injective<K, V>(m: map<K, V>) {
    forall d, e :: d in m && e in m && m[d] == m[e] ==> d == e
  }

  lemma {:induction false} ValuesSize<K, V>(m: map<K, V>)
    ensures |m.Values| <= |m|
  {
    if m.Keys == {} {
      assert m.Values == {};
    } else {
      var d := PickOne(m.Keys);
      var m' := m - {d};
      ValuesSize(m');
      assert m'.Keys == m.Keys - {d};
      assert |m'| == |m| - 1;
      forall v | v in m.Values
        ensures v in m'.Values + {m[d]}
      {
        var e :| e in m && m[e] == v;
        assert e != d ==> e in m';
      }
      SubsetSize(m.Values, m'.Values + {m[d]});
    }
  }

  lemma CollisionShrinks<K, V>(m: map<K, V>, d: K, e: K)
    requires d in m && e in m && d != e && m[d] == m[e]
    ensures |m.Values| < |m|
  {
    var m' := m - {e};
    assert m'.Keys == m.Keys - {e};
    forall v | v in m.Values
      ensures v in m'.Values
    {
      var c :| c in m && m[c] == v;
      var c' := if c == e then d else c;
      assert c' in m' && m'[c'] == v;
    }
    ValuesSize(m');
    SubsetSize(m.Values, m'.Values);
  }

  /** A map on a finite set that reaches every key is a permutation of its keys. */
  lemma OntoIsPermutation<T>(m: map<T, T>)
    requires m.Keys <= m.Values
    ensures m.Keys == m.Values && Injective(m)
  {
    OntoKeys(m);
    forall d, e | d in m && e in m && m[d] == m[e]
      ensures d == e
    {
      OntoNoCollision(m, d, e);
    }
  }

  lemma OntoKeys<T>(m: map<T, T>)
    requires m.Keys <= m.Values
    ensures m.Keys == m.Values
  {
    ValuesSize(m);
    SubsetSize(m.Keys, m.Values);
    assert |m.Keys| == |m|;
  }

  lemma OntoNoCollision<T>(m: map<T, T>, d: T, e: T)
    requires m.Keys <= m.Values && d in m && e in m && m[d] == m[e]
    ensures d == e
  {
    SubsetSize(m.Keys, m.Values);
    assert |m.Keys| == |m|;
    if d != e { CollisionShrinks(m, d, e); }
  }

  /** `steps` applications of `m` from `i`, -1 once the map is left. */
  ghost function Walk(m: map<int, int>, i: int, steps: nat): int {
    if steps == 0 then i
    else
      var j := Walk(m, i, steps - 1);
      if j in m then m[j] else -1
  }

  /** The first `n` steps of the walk from `i` are all different; `visited`
      collects them. */
  ghost predicate Visits(m: map<int, int>, i: int, n: nat, visited: set<int>) {
    && (forall t: nat :: t <= n ==> Walk(m, i, t) in visited)
    && (forall v :: v in visited ==> exists t: nat :: t <= n && Walk(m, i, t) == v)
    && (forall t: nat, u: nat :: t < u <= n ==> Walk(m, i, t) != Walk(m, i, u))
  }

  lemma NoLateReturn(m: map<int, int>, i: int, n: nat, visited: set<int>, t: nat)
    requires m.Values <= m.Keys && Injective(m)
    requires visited <= m.Keys && Visits(m, i, n, visited) && 0 < t <= n
    ensures Walk(m, i, n + 1) != Walk(m, i, t)
  {
    assert m[Walk(m, i, t - 1)] != m[Walk(m, i, n)];
  }

  lemma NextIsNew(m: map<int, int>, i: int, n: nat, visited: set<int>)
    requires m.Values <= m.Keys && Injective(m)
    requires visited <= m.Keys && Visits(m, i, n, visited)
    ensures Walk(m, i, n + 1) in m
    ensures Walk(m, i, n + 1) == i || Walk(m, i, n + 1) !in visited
  {
    assert m[Walk(m, i, n)] in m.Values;
    forall t: nat | 0 < t <= n
      ensures Walk(m, i, n + 1) != Walk(m, i, t)
    {
      NoLateReturn(m, i, n, visited, t);
    }
  }

  /** A one-to-one walk inside a finite set returns to its start. */
  lemma {:induction false} WalkCloses(m: map<int, int>, i: int, n: nat, visited: set<int>)
    requires m.Values <= m.Keys && Injective(m)
    requires visited <= m.Keys && Visits(m, i, n, visited)
    ensures exists steps :: steps > 0 && Walk(m, i, steps) == i
    decreases m.Keys - visited
  {
    NextIsNew(m, i, n, visited);
    var next := Walk(m, i, n + 1);
    if next != i {
      VisitsNext(m, i, n, visited);
      WalkCloses(m, i, n + 1, visited + {next});
    }
  }

  lemma VisitsNext(m: map<int, int>, i: int, n: nat, visited: set<int>)
    requires Visits(m, i, n, visited) && Walk(m, i, n + 1) !in visited
    ensures Visits(m, i, n + 1, visited + {Walk(m, i, n + 1)})
  {
    var visited' := visited + {Walk(m, i, n + 1)};
    forall v | v in visited'
      ensures exists t: nat :: t <= n + 1 && Walk(m, i, t) == v
    {
      if v in visited {
        var t: nat :| t <= n && Walk(m, i, t) == v;
      }
    }
  }

  lemma PermutationCycles(m: map<int, int>, i: int)
    requires m.Values <= m.Keys && Injective(m) && i in m
    ensures exists steps :: steps > 0 && Walk(m, i, steps) == i
  {
    assert Walk(m, i, 0) == i;
    WalkCloses(m, i, 0, {i});
  }

  /** A walk that stays in a submap is a walk of the whole map. */
  lemma {:induction false} WalkInSubmap(m: map<int, int>, whole: map<int, int>, i: int, steps: nat)
    requires m.Values <= m.Keys && i in m
    requires forall d :: d in m ==> d in whole && whole[d] == m[d]
    ensures Walk(m, i, steps) in m && Walk(whole, i, steps) == Walk(m, i, steps)
  {
    if steps > 0 {
      WalkInSubmap(m, whole, i, steps - 1);
      assert m[Walk(m, i, steps - 1)] in m.Values;
    }
  }
}
