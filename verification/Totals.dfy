/** Totals of real amounts over sequences and over maps keyed by symbol. */
module Totals {
  import opened Identifiers
  import opened Ordering

  // ---- over sequences

  function Sum<T>(f: T -> real, s: seq<T>): real {
    if s == [] then 0.0 else Sum(f, s[..|s| - 1]) + f(s[|s| - 1])
  }

  lemma SumLast<T>(f: T -> real, s: seq<T>, x: T)
    ensures Sum(f, s + [x]) == Sum(f, s) + f(x)
  {
    assert (s + [x])[..|s|] == s;
  }

  /** s without its j-th element. */
  function Without<T>(s: seq<T>, j: nat): seq<T>
    requires j < |s|
  {
    s[..j] + s[j + 1..]
  }

  lemma WithoutMultiset<T>(s: seq<T>, j: nat)
    requires j < |s|
    ensures multiset(Without(s, j)) == multiset(s) - multiset{s[j]}
  {
    assert s == s[..j] + [s[j]] + s[j + 1..];
  }

  lemma WithoutInit<T>(s: seq<T>, j: nat)
    requires j < |s| - 1
    ensures Without(s[..|s| - 1], j) + [s[|s| - 1]] == Without(s, j)
  {
  }

  lemma WithoutLast<T>(s: seq<T>)
    requires s != []
    ensures Without(s, |s| - 1) == s[..|s| - 1]
  {
  }

  lemma {:induction false} SumWithout<T>(f: T -> real, s: seq<T>, j: nat)
    requires j < |s|
    ensures Sum(f, s) == Sum(f, Without(s, j)) + f(s[j])
  {
    hide Without;
    var last := |s| - 1;
    if j == last {
      WithoutLast(s);
    } else {
      SumWithout(f, s[..last], j);
      WithoutInit(s, j);
      SumLast(f, Without(s[..last], j), s[last]);
    }
  }

  /** A sum does not depend on the order of its terms. */
  lemma {:induction false} SumPermutes<T>(f: T -> real, s: seq<T>, t: seq<T>)
    requires multiset(s) == multiset(t)
    ensures Sum(f, s) == Sum(f, t)
    decreases |s|
  {
    SameMultiset(s, t);
    if s != [] {
      var last := |s| - 1;
      assert s == s[..last] + [s[last]];
      assert s[last] in t;
      var j :| 0 <= j < |t| && t[j] == s[last];
      SumWithout(f, t, j);
      WithoutMultiset(t, j);
      SumPermutes(f, s[..last], Without(t, j));
    }
  }

  lemma {:induction false} SumSame<T>(f: T -> real, g: T -> real, s: seq<T>)
    requires forall i :: 0 <= i < |s| ==> f(s[i]) == g(s[i])
    ensures Sum(f, s) == Sum(g, s)
  {
    if s != [] {
      SumSame(f, g, s[..|s| - 1]);
    }
  }

  lemma {:induction false} SumConcat<T>(f: T -> real, s: seq<T>, t: seq<T>)
    ensures Sum(f, s + t) == Sum(f, s) + Sum(f, t)
  {
    if t == [] {
      assert s + t == s;
    } else {
      var last := |t| - 1;
      assert s + t == (s + t[..last]) + [t[last]];
      SumConcat(f, s, t[..last]);
      SumLast(f, s + t[..last], t[last]);
    }
  }

  lemma {:induction false} SumAtMost<T(!new)>(f: T -> real, g: T -> real, s: seq<T>)
    requires forall x :: x in s ==> f(x) <= g(x)
    ensures Sum(f, s) <= Sum(g, s)
  {
    if s != [] {
      SumAtMost(f, g, s[..|s| - 1]);
    }
  }

  lemma {:induction false} SumPlus<T(!new)>(f: T -> real, g: T -> real, h: T -> real, s: seq<T>)
    requires forall x :: x in s ==> h(x) == f(x) + g(x)
    ensures Sum(h, s) == Sum(f, s) + Sum(g, s)
  {
    if s != [] {
      SumPlus(f, g, h, s[..|s| - 1]);
    }
  }

  lemma {:induction false} SumZero<T(!new)>(f: T -> real, s: seq<T>)
    requires forall x :: x in s ==> f(x) == 0.0
    ensures Sum(f, s) == 0.0
  {
    if s != [] {
      SumZero(f, s[..|s| - 1]);
    }
  }

  // ---- over maps

  type Amounts = map<Id, real>

  function Get(m: Amounts, k: Id): real {
    if k in m then m[k] else 0.0
  }

  ghost function Total(m: Amounts): real {
    if m == map[] then 0.0
    else
      var k :| k in m;
      m[k] + Total(m - {k})
  }

  /** Any key may be taken out first. */
  lemma {:induction false} TotalWithout(m: Amounts, k: Id)
    requires k in m
    ensures Total(m) == m[k] + Total(m - {k})
    decreases |m|
  {
    var j :| j in m && Total(m) == m[j] + Total(m - {j});
    if j != k {
      TotalWithout(m - {j}, k);
      TotalWithout(m - {k}, j);
      assert m - {j} - {k} == m - {k} - {j};
    }
  }

  lemma TotalUpdate(m: Amounts, k: Id, v: real)
    ensures Total(m[k := v]) == Total(m) - Get(m, k) + v
  {
    TotalWithout(m[k := v], k);
    assert m[k := v] - {k} == m - {k};
    if k in m {
      TotalWithout(m, k);
    } else {
      assert m - {k} == m;
    }
  }

  lemma {:induction false} TotalSum(a: Amounts, b: Amounts, c: Amounts)
    requires a.Keys == b.Keys == c.Keys && forall k :: k in a ==> c[k] == a[k] + b[k]
    ensures Total(c) == Total(a) + Total(b)
    decreases |a|
  {
    if a != map[] {
      var k :| k in a;
      TotalWithout(a, k);
      TotalWithout(b, k);
      TotalWithout(c, k);
      TotalSum(a - {k}, b - {k}, c - {k});
    } else {
      assert b == map[] && c == map[];
    }
  }

  lemma TotalEmpty()
    ensures Total(map[]) == 0.0
  {
  }

  /** Entries that are zero may be left out of a total. */
  lemma {:induction false} TotalIgnoresZeros(a: Amounts, b: Amounts)
    requires a.Keys <= b.Keys
    requires forall k :: k in b ==> b[k] == Get(a, k)
    ensures Total(a) == Total(b)
    decreases |b|
  {
    if b == map[] {
      assert a == map[];
    } else {
      var k :| k in b;
      TotalWithout(b, k);
      TotalIgnoresZeros(a - {k}, b - {k});
      if k in a {
        TotalWithout(a, k);
      } else {
        assert a - {k} == a;
      }
    }
  }

  function At(m: Amounts): Id -> real { (k: Id) => Get(m, k) }

  /** A total read off a listing of distinct keys that covers the map. */
  lemma {:induction false} TotalListed(m: Amounts, keys: seq<Id>)
    requires forall k :: k in m ==> k in keys
    requires Distinct(keys)
    ensures Total(m) == Sum(At(m), keys)
  {
    if keys == [] {
      assert m == map[];
    } else {
      var init, last := keys[..|keys| - 1], keys[|keys| - 1];
      TotalListed(m - {last}, init);
      SumSame(At(m), At(m - {last}), init);
      if last in m {
        TotalWithout(m, last);
      } else {
        assert m - {last} == m;
      }
    }
  }

  ghost predicate Distinct(keys: seq<Id>) {
    forall i, j :: 0 <= i < j < |keys| ==> keys[i] != keys[j]
  }

  /** Two listings give the same sum when the longer one only adds zeros. */
  lemma SumOverCover(f: Id -> real, keys: seq<Id>, more: seq<Id>)
    requires Distinct(keys) && Distinct(more)
    requires forall k :: k in keys ==> k in more
    requires forall k :: k !in keys ==> f(k) == 0.0
    ensures Sum(f, keys) == Sum(f, more)
  {
    hide Sum;
    var m := map k | k in keys :: f(k);
    TotalListed(m, keys);
    TotalListed(m, more);
    SumSame(At(m), f, keys);
    SumSame(At(m), f, more);
  }
}
