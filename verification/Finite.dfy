/** Counting: distinct numbers below n are at most n. */
module Finite {

  ghost predicate Distinct(s: seq<nat>) {
    forall i, j :: 0 <= i < j < |s| ==> s[i] != s[j]
  }

  lemma {:induction false} DistinctIsShort(s: seq<nat>, n: nat)
    requires Distinct(s) && forall k :: 0 <= k < |s| ==> s[k] < n
    ensures |s| <= n
  {
    UpToHas(n);
    var mine := Elements(s);
    forall x | x in mine
      ensures x in UpTo(n)
    {
      var k :| 0 <= k < |s| && s[k] == x;
      assert s[k] < n;
    }
    SubsetIsSmaller(mine, UpTo(n));
  }

  function UpTo(n: nat): set<int> {
    if n == 0 then {} else UpTo(n - 1) + {n - 1}
  }

  lemma {:induction false} UpToHas(n: nat)
    ensures |UpTo(n)| == n && forall x :: x in UpTo(n) <==> 0 <= x < n
  {
    if n > 0 {
      UpToHas(n - 1);
    }
  }

  lemma {:induction false} Elements(s: seq<nat>) returns (xs: set<int>)
    requires Distinct(s)
    ensures |xs| == |s| && forall x: int :: x in xs <==> exists k :: 0 <= k < |s| && s[k] == x
  {
    if s == [] {
      xs := {};
    } else {
      var m := |s| - 1;
      var front := Elements(s[..m]);
      assert s[m] !in front;
      xs := front + {s[m]};
      forall x: int
        ensures x in xs <==> exists k :: 0 <= k < |s| && s[k] == x
      {
        if x in front {
          var k :| 0 <= k < m && s[..m][k] == x;
          assert s[k] == x;
        } else if x in s {
          assert s == s[..m] + [s[m]];
        }
      }
    }
  }

  lemma {:induction false} SubsetIsSmaller(a: set<int>, b: set<int>)
    requires a <= b
    ensures |a| <= |b|
  {
    assert a + (b - a) == b;
    assert a * (b - a) == {};
  }
}
