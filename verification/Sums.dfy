/** Sums over sequences and maps. */
module Sums {
  function Sum<T>(s: seq<T>, f: T -> int): int {
    if s == [] then 0 else f(s[0]) + Sum(s[1..], f)
  }

  lemma {:induction false} SumConcat<T>(a: seq<T>, b: seq<T>, f: T -> int)
    ensures Sum(a + b, f) == Sum(a, f) + Sum(b, f)
  {
    if a == [] {
      assert a + b == b;
    } else {
      SumConcat(a[1..], b, f);
      assert (a + b)[1..] == a[1..] + b && (a + b)[0] == a[0];
    }
  }

  lemma SumOne<T>(x: T, f: T -> int)
    ensures Sum([x], f) == f(x)
  {
    assert [x][1..] == [];
    assert Sum([x][1..], f) == 0;
  }

  lemma SumAppend<T>(s: seq<T>, x: T, f: T -> int)
    ensures Sum(s + [x], f) == Sum(s, f) + f(x)
  {
    SumConcat(s, [x], f);
    SumOne(x, f);
  }

  lemma SumSplit<T>(s: seq<T>, i: nat, f: T -> int)
    requires i < |s|
    ensures Sum(s, f) == Sum(s[..i], f) + f(s[i]) + Sum(s[i + 1..], f)
  {
    assert s == s[..i] + [s[i]] + s[i + 1..];
    SumConcat(s[..i] + [s[i]], s[i + 1..], f);
    SumAppend(s[..i], s[i], f);
  }

  lemma SumUpdate<T>(s: seq<T>, i: nat, x: T, f: T -> int)
    requires i < |s|
    ensures Sum(s[i := x], f) == Sum(s, f) - f(s[i]) + f(x)
  {
    var s' := s[i := x];
    SumSplit(s, i, f);
    SumSplit(s', i, f);
    assert s'[..i] == s[..i] && s'[i + 1..] == s[i + 1..];
  }

  lemma SumRemove<T>(s: seq<T>, i: nat, f: T -> int)
    requires i < |s|
    ensures Sum(s[..i] + s[i + 1..], f) == Sum(s, f) - f(s[i])
  {
    SumSplit(s, i, f);
    SumConcat(s[..i], s[i + 1..], f);
  }

  lemma {:induction false} SumSame<T>(s: seq<T>, f: T -> int, g: T -> int)
    requires forall i | 0 <= i < |s| :: f(s[i]) == g(s[i])
    ensures Sum(s, f) == Sum(s, g)
  {
    if s != [] {
      assert f(s[0]) == g(s[0]);
      forall i | 0 <= i < |s[1..]| ensures f(s[1..][i]) == g(s[1..][i]) {
        assert s[1..][i] == s[i + 1];
      }
      SumSame(s[1..], f, g);
    }
  }

  lemma {:induction false} SumNonNegative<T>(s: seq<T>, f: T -> int)
    requires forall i | 0 <= i < |s| :: 0 <= f(s[i])
    ensures 0 <= Sum(s, f)
    ensures forall i | 0 <= i < |s| :: f(s[i]) <= Sum(s, f)
  {
    if s != [] {
      assert 0 <= f(s[0]);
      forall i | 0 <= i < |s[1..]| ensures 0 <= f(s[1..][i]) {
        assert s[1..][i] == s[i + 1];
      }
      SumNonNegative(s[1..], f);
      forall i | 0 <= i < |s| ensures f(s[i]) <= Sum(s, f) {
        if 0 < i { assert s[i] == s[1..][i - 1]; }
      }
    }
  }

  lemma {:induction false} SumIsZero<T>(s: seq<T>, f: T -> int)
    requires forall i | 0 <= i < |s| :: 0 <= f(s[i])
    ensures Sum(s, f) == 0 <==> forall i | 0 <= i < |s| :: f(s[i]) == 0
  {
    SumNonNegative(s, f);
    if forall i | 0 <= i < |s| :: f(s[i]) == 0 { SumOfZeros(s, f); }
  }

  lemma {:induction false} SumOfZeros<T>(s: seq<T>, f: T -> int)
    requires forall i | 0 <= i < |s| :: f(s[i]) == 0
    ensures Sum(s, f) == 0
  {
    if s != [] {
      assert f(s[0]) == 0;
      forall i | 0 <= i < |s[1..]| ensures f(s[1..][i]) == 0 {
        assert s[1..][i] == s[i + 1];
      }
      SumOfZeros(s[1..], f);
    }
  }

  // ----- Maps -----

  ghost function Total<T>(m: map<int, T>, f: (int, T) -> int): int
    decreases |m|
  {
    if forall k: int :: k !in m then 0
    else
      var k: int :| k in m;
      f(k, m[k]) + Total(m - {k}, f)
  }

  lemma {:induction false} TotalRemove<T>(m: map<int, T>, k: int, f: (int, T) -> int)
    requires k in m
    ensures Total(m, f) == f(k, m[k]) + Total(m - {k}, f)
    decreases |m|
  {
    var j: int :| j in m && Total(m, f) == f(j, m[j]) + Total(m - {j}, f);
    if j != k {
      TotalRemove(m - {j}, k, f);
      TotalRemove(m - {k}, j, f);
      assert m - {j} - {k} == m - {k} - {j};
    }
  }

  lemma TotalUpdate<T>(m: map<int, T>, k: int, x: T, f: (int, T) -> int)
    ensures Total(m[k := x], f) == Total(m, f) - (if k in m then f(k, m[k]) else 0) + f(k, x)
  {
    TotalRemove(m[k := x], k, f);
    assert m[k := x] - {k} == m - {k};
    if k in m {
      TotalRemove(m, k, f);
    } else {
      assert m - {k} == m;
    }
  }

  lemma {:induction false} TotalZero<T>(m: map<int, T>, f: (int, T) -> int)
    requires forall k: int <- m :: f(k, m[k]) == 0
    ensures Total(m, f) == 0
    decreases |m|
  {
    if exists k: int :: k in m {
      var k: int :| k in m && Total(m, f) == f(k, m[k]) + Total(m - {k}, f);
      forall j: int <- m - {k} ensures f(j, (m - {k})[j]) == 0 {
        assert f(j, m[j]) == 0;
      }
      TotalZero(m - {k}, f);
    }
  }
}
