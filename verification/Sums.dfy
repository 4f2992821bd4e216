/** Sums over finite sets of map keys, independent of the order they are taken in. */
module Sums {
  ghost function Sum<K>(s: set<K>, f: map<K, int>): int
    requires s <= f.Keys
  {
    if s == {} then 0
    else
      var x :| x in s;
      f[x] + Sum(s - {x}, f)
  }

  lemma {:induction false} SumRemove<K>(s: set<K>, f: map<K, int>, x: K)
    requires s <= f.Keys && x in s
    ensures Sum(s, f) == f[x] + Sum(s - {x}, f)
    decreases s
  {
    var y :| y in s && Sum(s, f) == f[y] + Sum(s - {y}, f);
    if y != x {
      SumRemove(s - {y}, f, x);
      SumRemove(s - {x}, f, y);
      assert s - {y} - {x} == s - {x} - {y};
    }
  }

  lemma SumAdd<K>(s: set<K>, f: map<K, int>, x: K)
    requires s <= f.Keys && x in f && x !in s
    ensures Sum(s + {x}, f) == f[x] + Sum(s, f)
  {
    SumRemove(s + {x}, f, x);
    assert s + {x} - {x} == s;
  }

  lemma {:induction false} SumSame<K>(s: set<K>, f: map<K, int>, g: map<K, int>)
    requires s <= f.Keys && s <= g.Keys
    requires forall x :: x in s ==> f[x] == g[x]
    ensures Sum(s, f) == Sum(s, g)
    decreases s
  {
    if s != {} {
      var x :| x in s;
      SumRemove(s, f, x);
      SumRemove(s, g, x);
      SumSame(s - {x}, f, g);
    }
  }

  lemma {:induction false} SumNonNegative<K>(s: set<K>, f: map<K, int>)
    requires s <= f.Keys && forall x :: x in s ==> f[x] >= 0
    ensures Sum(s, f) >= 0
    decreases s
  {
    if s != {} {
      var x :| x in s;
      SumRemove(s, f, x);
      SumNonNegative(s - {x}, f);
    }
  }

  lemma {:induction false} SumConstant<K>(s: set<K>, f: map<K, int>, c: int)
    requires s <= f.Keys && forall x :: x in s ==> f[x] == c
    ensures Sum(s, f) == c * |s|
    decreases s
  {
    if s != {} {
      var x :| x in s;
      SumRemove(s, f, x);
      SumConstant(s - {x}, f, c);
    }
  }
}
