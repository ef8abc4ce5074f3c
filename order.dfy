/**
  Python's ordering of `str` values (code point by code point, a proper prefix first) and
  `sorted(...)` of a set of strings.
 */
module StringOrder {

  /** `a < b` on Python strings. */
  predicate Less(a: string, b: string)
    decreases |a|
  {
    if a == [] then b != []
    else if b == [] then false
    else if a[0] != b[0] then a[0] < b[0]
    else Less(a[1..], b[1..])
  }

  lemma {:induction false} Irreflexive(a: string)
    ensures !Less(a, a)
    decreases |a|
  {
    if a != [] {
      Irreflexive(a[1..]);
    }
  }

  lemma {:induction false} Transitive(a: string, b: string, c: string)
    requires Less(a, b) && Less(b, c)
    ensures Less(a, c)
    decreases |a|
  {
    if a != [] && b != [] && c != [] && a[0] == b[0] && b[0] == c[0] {
      Transitive(a[1..], b[1..], c[1..]);
    }
  }

  lemma {:induction false} Total(a: string, b: string)
    requires a != b
    ensures Less(a, b) || Less(b, a)
    decreases |a|
  {
    if a != [] && b != [] && a[0] == b[0] {
      assert a == [a[0]] + a[1..] && b == [b[0]] + b[1..];
      Total(a[1..], b[1..]);
    }
  }

  lemma Asymmetric(a: string, b: string)
    requires Less(a, b)
    ensures !Less(b, a)
  {
    if Less(b, a) {
      Transitive(a, b, a);
      Irreflexive(a);
    }
  }

  predicate StrictlySorted(s: seq<string>) {
    forall i, j | 0 <= i < j < |s| :: Less(s[i], s[j])
  }

  /** `m` is the smallest string of `s`. */
  predicate IsLeast(m: string, s: set<string>) {
    m in s && forall x | x in s && x != m :: Less(m, x)
  }

  lemma {:induction false} LeastExists(s: set<string>)
    requires s != {}
    ensures exists m :: IsLeast(m, s)
    decreases |s|
  {
    var y :| y in s;
    if s - {y} == {} {
      assert s == {y};
      assert IsLeast(y, s);
    } else {
      LeastExists(s - {y});
      var m :| IsLeast(m, s - {y});
      if Less(y, m) {
        forall x | x in s && x != y
          ensures Less(y, x)
        {
          if x != m {
            Transitive(y, m, x);
          }
        }
        assert IsLeast(y, s);
      } else {
        Total(y, m);
        assert IsLeast(m, s);
      }
    }
  }

  lemma LeastUnique(a: string, b: string, s: set<string>)
    requires IsLeast(a, s) && IsLeast(b, s)
    ensures a == b
  {
    if a != b {
      Asymmetric(a, b);
    }
  }

  /** `sorted(s)`: the elements of `s` in ascending order. */
  ghost function Sorted(s: set<string>): seq<string>
    decreases |s|
  {
    if s == {} then []
    else
      LeastExists(s);
      var m :| IsLeast(m, s);
      [m] + Sorted(s - {m})
  }

  lemma SortedUnfold(s: set<string>, m: string)
    requires IsLeast(m, s)
    ensures Sorted(s) == [m] + Sorted(s - {m})
  {
    LeastExists(s);
    var m' :| IsLeast(m', s) && Sorted(s) == [m'] + Sorted(s - {m'});
    LeastUnique(m, m', s);
  }

  /** The sorted sequence holds each element of the set once, in strictly ascending order. */
  lemma {:induction false} SortedSpec(s: set<string>)
    ensures StrictlySorted(Sorted(s))
    ensures forall x :: x in Sorted(s) <==> x in s
    ensures |Sorted(s)| == |s|
    decreases |s|
  {
    if s != {} {
      LeastExists(s);
      var m :| IsLeast(m, s);
      SortedUnfold(s, m);
      SortedSpec(s - {m});
      var r := Sorted(s);
      assert r[1..] == Sorted(s - {m});
      forall i, j | 0 <= i < j < |r|
        ensures Less(r[i], r[j])
      {
        if i == 0 {
          assert r[j] in s - {m};
        } else {
          assert r[i] == r[1..][i - 1] && r[j] == r[1..][j - 1];
        }
      }
    }
  }

  /** The first element of a strictly sorted sequence is the least of its elements. */
  lemma HeadIsLeast(r: seq<string>)
    requires StrictlySorted(r) && r != []
    ensures IsLeast(r[0], set x | x in r)
  {
    forall x | x in (set x | x in r) && x != r[0]
      ensures Less(r[0], x)
    {
      var j :| 0 <= j < |r| && r[j] == x;
      assert j != 0;
    }
  }

  /** Its other elements are the elements of its tail. */
  lemma TailElements(r: seq<string>)
    requires StrictlySorted(r) && r != []
    ensures (set x | x in r[1..]) == (set x | x in r) - {r[0]}
  {
    forall x | x in r[1..]
      ensures x != r[0]
    {
      var j :| 0 <= j < |r[1..]| && r[1..][j] == x;
      assert r[j + 1] == x;
      Irreflexive(r[0]);
    }
    assert r == [r[0]] + r[1..];
  }

  /** A strictly sorted sequence is the sorted form of its set of elements. */
  lemma {:induction false} StrictlySortedIsSorted(r: seq<string>)
    requires StrictlySorted(r)
    ensures r == Sorted(set x | x in r)
    decreases |r|
  {
    if r != [] {
      var s := set x | x in r;
      HeadIsLeast(r);
      SortedUnfold(s, r[0]);
      StrictlySortedIsSorted(r[1..]);
      TailElements(r);
      assert r == [r[0]] + r[1..];
    }
  }

  /** Finds the smallest string of a non-empty set (any iteration order of the set). */
  method Least(s: set<string>) returns (m: string)
    requires s != {}
    ensures IsLeast(m, s)
  {
    m :| m in s;
    var rest := s - {m};
    while rest != {}
      invariant rest <= s && m in s && m !in rest
      invariant forall x | x in s && x !in rest && x != m :: Less(m, x)
      decreases |rest|
    {
      var y :| y in rest;
      if Less(y, m) {
        forall x | x in s && x !in rest && x != y
          ensures Less(y, x)
        {
          if x != m {
            Transitive(y, m, x);
          }
        }
        m := y;
      } else {
        Total(y, m);
      }
      rest := rest - {y};
    }
  }

  /** `sorted(s)` for a set of strings. */
  method Sort(s: set<string>) returns (r: seq<string>)
    ensures r == Sorted(s)
    ensures StrictlySorted(r) && (forall x :: x in r <==> x in s) && |r| == |s|
  {
    r := [];
    var rest := s;
    while rest != {}
      invariant rest <= s
      invariant r + Sorted(rest) == Sorted(s)
      decreases |rest|
    {
      var m := Least(rest);
      SortedUnfold(rest, m);
      r := r + [m];
      rest := rest - {m};
    }
    SortedSpec(s);
  }
}
