/** The ascending listing of a finite set, as `sorted` gives it. */
module Listing {

  /** Distinct elements have distinct ranks. */
  ghost predicate Ranked<T(!new)>(rank: T -> int) {
    forall x, y :: rank(x) == rank(y) ==> x == y
  }

  ghost predicate StrictlyAscending<T>(rank: T -> int, s: seq<T>) {
    forall i, j :: 0 <= i < j < |s| ==> rank(s[i]) < rank(s[j])
  }

  predicate Least<T>(rank: T -> int, s: set<T>, m: T) {
    m in s && forall x :: x in s ==> rank(m) <= rank(x)
  }

  lemma {:induction false} LeastExists<T>(rank: T -> int, s: set<T>)
    requires s != {}
    ensures exists m :: Least(rank, s, m)
  {
    var y :| y in s;
    var rest := s - {y};
    assert forall x :: x in s ==> x == y || x in rest;
    if rest == {} {
      assert Least(rank, s, y);
    } else {
      LeastExists(rank, rest);
      var m :| Least(rank, rest, m);
      assert Least(rank, s, if rank(y) <= rank(m) then y else m);
    }
  }

  ghost predicate IsListing<T(!new)>(rank: T -> int, s: set<T>, r: seq<T>) {
    StrictlyAscending(rank, r) && |r| == |s| && forall x :: x in r <==> x in s
  }

  lemma PrependLeast<T(!new)>(rank: T -> int, s: set<T>, m: T, rest: seq<T>)
    requires Ranked(rank) && Least(rank, s, m) && IsListing(rank, s - {m}, rest)
    ensures IsListing(rank, s, [m] + rest)
  {
    forall i | 0 <= i < |rest| ensures rank(m) < rank(rest[i]) {
      assert rest[i] in s - {m};
    }
  }

  /** The elements of a set from the least rank on. */
  function Ascending<T(!new)>(rank: T -> int, s: set<T>): (r: seq<T>)
    requires Ranked(rank)
    ensures IsListing(rank, s, r)
  {
    if s == {} then []
    else
      LeastExists(rank, s);
      var m :| Least(rank, s, m);
      var rest := Ascending(rank, s - {m});
      PrependLeast(rank, s, m, rest);
      [m] + rest
  }

  lemma RankOrder<T>(rank: T -> int, s: seq<T>, i: nat, j: nat)
    requires StrictlyAscending(rank, s) && i < |s| && j < |s|
    ensures rank(s[i]) < rank(s[j]) <==> i < j
  {
  }

  /** Two ascending listings of the same elements are the same listing. */
  lemma {:induction false} AscendingIsUnique<T(!new)>(rank: T -> int, s: seq<T>, t: seq<T>)
    requires StrictlyAscending(rank, s) && StrictlyAscending(rank, t)
    requires forall x :: x in s <==> x in t
    ensures s == t
  {
    SomeElement(s, t);
    if s != [] && t != [] {
      var p, q := |s| - 1, |t| - 1;
      SameLast(rank, s, t);
      forall x ensures x in s[..p] <==> x in t[..q] {
        BeforeLast(rank, s, x);
        BeforeLast(rank, t, x);
      }
      AscendingIsUnique(rank, s[..p], t[..q]);
      assert s == s[..p] + [s[p]] && t == t[..q] + [t[q]];
    }
  }

  lemma SomeElement<T(!new)>(s: seq<T>, t: seq<T>)
    requires forall x :: x in s <==> x in t
    ensures s == [] <==> t == []
  {
    if s != [] {
      assert s[0] in t;
    }
    if t != [] {
      assert t[0] in s;
    }
  }

  lemma SameLast<T>(rank: T -> int, s: seq<T>, t: seq<T>)
    requires StrictlyAscending(rank, s) && StrictlyAscending(rank, t) && s != [] && t != []
    requires s[|s| - 1] in t && t[|t| - 1] in s
    ensures s[|s| - 1] == t[|t| - 1]
  {
    var i :| 0 <= i < |t| && t[i] == s[|s| - 1];
    var j :| 0 <= j < |s| && s[j] == t[|t| - 1];
    RankOrder(rank, t, i, |t| - 1);
    RankOrder(rank, s, j, |s| - 1);
  }

  lemma BeforeLast<T>(rank: T -> int, s: seq<T>, x: T)
    requires StrictlyAscending(rank, s) && s != []
    ensures x in s[..|s| - 1] <==> x in s && x != s[|s| - 1]
  {
    if x in s[..|s| - 1] {
      var i :| 0 <= i < |s| - 1 && s[i] == x;
      assert rank(s[i]) < rank(s[|s| - 1]);
    }
  }

  // ---- the end of a listing

  /** The last n elements, or all of them. */
  function Tail<T>(s: seq<T>, n: nat): seq<T> {
    if n < |s| then s[|s| - n..] else s
  }

  /** A listing that holds exactly what is not before its first element is the end of the longer one. */
  lemma TailFromThreshold<T(!new)>(rank: T -> int, s: seq<T>, d: seq<T>)
    requires StrictlyAscending(rank, s) && StrictlyAscending(rank, d) && d != []
    requires forall x :: x in d <==> x in s && rank(x) >= rank(d[0])
    ensures |d| <= |s| && Tail(s, |d|) == d
  {
    assert d[0] in s;
    var p :| 0 <= p < |s| && s[p] == d[0];
    forall x ensures x in s[p..] <==> x in d {
      AfterPosition(rank, s, p, x);
    }
    AscendingIsUnique(rank, s[p..], d);
  }

  lemma AfterPosition<T>(rank: T -> int, s: seq<T>, p: nat, x: T)
    requires StrictlyAscending(rank, s) && p < |s|
    ensures x in s[p..] <==> x in s && rank(x) >= rank(s[p])
  {
    if x in s[p..] {
      var i :| 0 <= i < |s| - p && s[p..][i] == x;
      assert i > 0 ==> rank(s[p]) < rank(s[p + i]);
    }
    if x in s && rank(x) >= rank(s[p]) {
      var i :| 0 <= i < |s| && s[i] == x;
      RankOrder(rank, s, i, p);
      assert s[p..][i - p] == x;
    }
  }

  /** The end of a listing holds exactly what is not before its first element. */
  lemma TailIsThreshold<T(!new)>(rank: T -> int, s: seq<T>, n: nat)
    requires StrictlyAscending(rank, s) && 0 < n <= |s|
    ensures |Tail(s, n)| == n && StrictlyAscending(rank, Tail(s, n))
    ensures Tail(s, n)[n - 1] == s[|s| - 1]
    ensures forall x :: x in Tail(s, n) <==> x in s && rank(x) >= rank(Tail(s, n)[0])
  {
    var p := |s| - n;
    assert Tail(s, n) == s[p..];
    forall x ensures x in Tail(s, n) <==> x in s && rank(x) >= rank(Tail(s, n)[0]) {
      AfterPosition(rank, s, p, x);
    }
  }
}
