/** Totals over finite sets and maps, independent of iteration order. */
module Sums {
  /** The sum of `f` over `s`, taken in some order. */
  ghost function Sum<K>(s: set<K>, f: K -> int): int {
    if s == {} then 0 else var x :| x in s; f(x) + Sum(s - {x}, f)
  }

  /** Any element may be taken first. */
  lemma {:induction false} SumPick<K>(s: set<K>, f: K -> int, x: K)
    requires x in s
    ensures Sum(s, f) == f(x) + Sum(s - {x}, f)
    decreases s
  {
    var y :| y in s && Sum(s, f) == f(y) + Sum(s - {y}, f);
    if y != x {
      SumPick(s - {y}, f, x);
      SumPick(s - {x}, f, y);
      assert s - {y} - {x} == s - {x} - {y};
    }
  }

  lemma {:induction false} SumSame<K>(s: set<K>, f: K -> int, g: K -> int)
    requires forall x :: x in s ==> f(x) == g(x)
    ensures Sum(s, f) == Sum(s, g)
    decreases s
  {
    if s != {} {
      var x :| x in s;
      SumPick(s, f, x);
      SumPick(s, g, x);
      SumSame(s - {x}, f, g);
    }
  }

  lemma {:induction false} SumDisjoint<K>(a: set<K>, b: set<K>, f: K -> int)
    requires a !! b
    ensures Sum(a + b, f) == Sum(a, f) + Sum(b, f)
    decreases a
  {
    if a == {} {
      assert a + b == b;
    } else {
      var x :| x in a;
      SumPick(a, f, x);
      SumPick(a + b, f, x);
      assert a + b - {x} == (a - {x}) + b;
      SumDisjoint(a - {x}, b, f);
    }
  }

  lemma {:induction false} SumAdds<K>(s: set<K>, f: K -> int, g: K -> int, h: K -> int)
    requires forall x :: x in s ==> h(x) == f(x) + g(x)
    ensures Sum(s, h) == Sum(s, f) + Sum(s, g)
    decreases s
  {
    if s != {} {
      var x :| x in s;
      SumPick(s, f, x);
      SumPick(s, g, x);
      SumPick(s, h, x);
      SumAdds(s - {x}, f, g, h);
    }
  }

  lemma {:induction false} SumZero<K>(s: set<K>, f: K -> int)
    requires forall x :: x in s ==> f(x) >= 0
    ensures Sum(s, f) >= 0
    ensures Sum(s, f) == 0 <==> forall x :: x in s ==> f(x) == 0
    decreases s
  {
    if s != {} {
      var x :| x in s;
      SumPick(s, f, x);
      SumZero(s - {x}, f);
      assert forall y :: y in s ==> y == x || y in s - {x};
    }
  }

  /** The value of a counter that starts at zero. */
  function At<K>(m: map<K, int>, k: K): int {
    if k in m then m[k] else 0
  }

  ghost function Total<K>(m: map<K, int>): int {
    Sum(m.Keys, k => At(m, k))
  }

  /** `m[k] = m.get(k, 0) + n` adds `n` to the total. */
  lemma TotalBump<K>(m: map<K, int>, k: K, n: int)
    ensures Total(m[k := At(m, k) + n]) == Total(m) + n
  {
    var m' := m[k := At(m, k) + n];
    SumPick(m'.Keys, x => At(m', x), k);
    assert m'.Keys - {k} == m.Keys - {k};
    SumSame(m.Keys - {k}, x => At(m', x), x => At(m, x));
    if k in m {
      SumPick(m.Keys, x => At(m, x), k);
    } else {
      assert m.Keys - {k} == m.Keys;
    }
  }

  function Group<K, G(==)>(members: set<K>, key: K -> G, g: G): set<K> {
    set x | x in members && key(x) == g
  }

  /** Counting by key loses nothing: the totals of the groups add up to the total of the members. */
  lemma {:induction false} SumByGroup<K, G>(members: set<K>, groups: set<G>, f: K -> int, key: K -> G)
    requires forall x :: x in members ==> key(x) in groups
    ensures Sum(groups, g => Sum(Group(members, key, g), f)) == Sum(members, f)
    decreases groups
  {
    if groups == {} {
      assert members == {};
    } else {
      var g :| g in groups;
      var inside := Group(members, key, g);
      var outside := members - inside;
      SumPick(groups, h => Sum(Group(members, key, h), f), g);
      SumByGroup(outside, groups - {g}, f, key);
      forall h | h in groups - {g} ensures Group(members, key, h) == Group(outside, key, h) {
      }
      SumSame(groups - {g}, h => Sum(Group(members, key, h), f), h => Sum(Group(outside, key, h), f));
      SumDisjoint(inside, outside, f);
      assert inside + outside == members;
    }
  }

  /** The part of a map's total that falls in group `g`. */
  ghost function GroupTotal<K, G>(m: map<K, int>, key: K -> G, g: G): int {
    Sum(Group(m.Keys, key, g), k => At(m, k))
  }

  lemma GroupTotalBump<K, G>(m: map<K, int>, key: K -> G, k: K, n: int, g: G)
    ensures GroupTotal(m[k := At(m, k) + n], key, g) == GroupTotal(m, key, g) + (if key(k) == g then n else 0)
  {
    var m' := m[k := At(m, k) + n];
    var before, after := Group(m.Keys, key, g), Group(m'.Keys, key, g);
    if key(k) == g {
      SumPick(after, x => At(m', x), k);
      assert after - {k} == before - {k};
      SumSame(before - {k}, x => At(m', x), x => At(m, x));
      if k in m {
        SumPick(before, x => At(m, x), k);
      } else {
        assert before - {k} == before;
      }
    } else {
      assert after == before;
      SumSame(before, x => At(m', x), x => At(m, x));
    }
  }

  /** The group totals add up to the total. */
  lemma GroupTotalsAddUp<K, G>(m: map<K, int>, key: K -> G, groups: set<G>)
    requires forall k :: k in m ==> key(k) in groups
    ensures Sum(groups, g => GroupTotal(m, key, g)) == Total(m)
  {
    SumByGroup(m.Keys, groups, k => At(m, k), key);
    SumSame(groups, g => GroupTotal(m, key, g), g => Sum(Group(m.Keys, key, g), k => At(m, k)));
  }
}
