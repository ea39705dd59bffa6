/** Small vocabulary about sequences shared by the models. */
module Sequences {

  datatype Option<+T> = None | Some(value: T)

  predicate Distinct<T(==)>(s: seq<T>)
  {
    forall i, j | 0 <= i < j < |s| :: s[i] != s[j]
  }

  lemma DistinctSplit<T>(s: seq<T>, n: nat)
    requires Distinct(s) && n <= |s|
    ensures Distinct(s[..n]) && Distinct(s[n..])
    ensures forall x | x in s[..n] :: x in s && x !in s[n..]
    ensures forall x | x in s[n..] :: x in s
    ensures forall x | x in s :: x in s[..n] || x in s[n..]
  {
    assert s == s[..n] + s[n..];
    forall x | x in s[..n] ensures x !in s[n..] {
      var i :| 0 <= i < n && s[i] == x;
      assert forall j | 0 <= j < |s| - n :: s[n..][j] == s[n + j] != s[i];
    }
  }

  lemma DistinctConcat<T>(a: seq<T>, b: seq<T>)
    requires Distinct(a) && Distinct(b) && forall x | x in a :: x !in b
    ensures Distinct(a + b)
  {
    var s := a + b;
    forall i, j | 0 <= i < j < |s| ensures s[i] != s[j] {
      if i < |a| <= j {
        assert s[i] == a[i] && s[j] == b[j - |a|];
        assert a[i] in a;
      }
    }
  }

  ghost function Elements<T>(s: seq<T>): set<T>
  {
    set x | x in s
  }

  lemma {:induction false} DistinctSize<T>(s: seq<T>)
    requires Distinct(s)
    ensures |Elements(s)| == |s|
  {
    if s != [] {
      var rest := s[..|s| - 1];
      var last := s[|s| - 1];
      DistinctSize(rest);
      assert s == rest + [last];
      assert Elements(s) == Elements(rest) + {last};
      assert last !in Elements(rest);
    }
  }

  lemma SubsetSize<T>(a: set<T>, b: set<T>)
    requires a <= b
    ensures |a| <= |b|
  {
    assert b == a + (b - a);
  }

  /** Distinct numbers below `n` are at most `n` many. */
  lemma {:induction false} DistinctBelow(s: set<nat>, n: nat)
    requires forall x | x in s :: x < n
    ensures |s| <= n
  {
    if n == 0 {
      assert s == {};
    } else {
      DistinctBelow(s - {n - 1}, n - 1);
      if n - 1 in s {
        assert s == (s - {n - 1}) + {n - 1};
      } else {
        assert s == s - {n - 1};
      }
    }
  }

  /** A finite set of numbers has a bound, so some number is not in it. */
  lemma {:induction false} BoundOf(s: set<nat>) returns (b: nat)
    ensures forall x | x in s :: x < b
    decreases |s|
  {
    if s == {} {
      b := 0;
    } else {
      var y :| y in s;
      var c := BoundOf(s - {y});
      b := if y < c then c else y + 1;
      assert forall x | x in s :: x == y || x in s - {y};
    }
  }
}
