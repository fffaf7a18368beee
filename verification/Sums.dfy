/** Sums over the values of a table, in no particular order. */
module Sums {

  ghost function Pick<K(!new)>(f: map<K, real>): (k: K)
    requires f.Keys != {}
    ensures k in f
  {
    var k :| k in f.Keys;
    k
  }

  ghost function Sum<K(!new)>(f: map<K, real>): real
    decreases f.Keys
  {
    if f.Keys == {} then 0.0 else f[Pick(f)] + Sum(f - {Pick(f)})
  }

  /** Any row may be taken first. */
  lemma {:induction false} SumExtract<K(!new)>(f: map<K, real>, k: K)
    requires k in f
    ensures Sum(f) == f[k] + Sum(f - {k})
    decreases f.Keys
  {
    var j := Pick(f);
    if j != k {
      var f1, f2 := f - {j}, f - {k};
      SumExtract(f1, k);
      SumExtract(f2, j);
      assert f1 - {k} == f2 - {j};
    }
  }

  lemma SumPut<K(!new)>(f: map<K, real>, k: K, v: real)
    ensures Sum(f[k := v]) == Sum(f) + v - (if k in f then f[k] else 0.0)
  {
    var g := f[k := v];
    SumExtract(g, k);
    if k in f {
      SumExtract(f, k);
      assert g - {k} == f - {k};
    } else {
      assert g - {k} == f;
    }
  }

  lemma {:induction false} SumBelow<K(!new)>(f: map<K, real>, g: map<K, real>)
    requires f.Keys == g.Keys && forall k :: k in f ==> f[k] <= g[k]
    ensures Sum(f) <= Sum(g)
    decreases f.Keys
  {
    if f.Keys != {} {
      var k :| k in f;
      SumExtract(f, k);
      SumExtract(g, k);
      SumBelow(f - {k}, g - {k});
    } else {
      assert f == map[] && g == map[];
    }
  }

  /** A row of a non-negative table is at most the sum. */
  lemma {:induction false} SumCovers<K(!new)>(f: map<K, real>, k: K)
    requires k in f && forall j :: j in f ==> f[j] >= 0.0
    ensures f[k] <= Sum(f)
  {
    SumExtract(f, k);
    SumNonNegative(f - {k});
  }

  lemma {:induction false} SumNonNegative<K(!new)>(f: map<K, real>)
    requires forall j :: j in f ==> f[j] >= 0.0
    ensures Sum(f) >= 0.0
    decreases f.Keys
  {
    if f.Keys != {} {
      var k := Pick(f);
      SumNonNegative(f - {k});
    }
  }

  lemma {:induction false} SumZero<K(!new)>(f: map<K, real>)
    requires forall j :: j in f ==> f[j] == 0.0
    ensures Sum(f) == 0.0
    decreases f.Keys
  {
    if f.Keys != {} {
      var k := Pick(f);
      SumZero(f - {k});
    }
  }
}
