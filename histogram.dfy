/**
  Score histograms: a map from a rounded score (in tenths) to how many times it was seen.
  `read_catrapid_file` keeps one per protein and one per RNA instead of a list of scores, and
  rebuilds the list (each score repeated by its frequency) only when it writes the summary rows.
 */
module Histograms {
  import opened Numbers

  /** Rounded score, in tenths, to its frequency. */
  type Histogram = map<int, nat>

  /** Every score in the histogram was seen at least once. */
  predicate Valid(h: Histogram) {
    forall k | k in h :: h[k] >= 1
  }

  function Frequency(h: Histogram, k: int): nat {
    if k in h then h[k] else 0
  }

  /** `h[k] += 1`, creating the entry at 0 first when `k` is new. */
  function Bump(h: Histogram, k: int): (r: Histogram)
    ensures r.Keys == h.Keys + {k}
    ensures Frequency(r, k) == Frequency(h, k) + 1
    ensures forall j | j != k :: Frequency(r, j) == Frequency(h, j)
    ensures Valid(h) ==> Valid(r)
  {
    h[k := Frequency(h, k) + 1]
  }

  /** The smallest score of a non-empty set of scores. */
  function MinKey(ks: set<int>): (m: int)
    requires ks != {}
    ensures m in ks && forall j | j in ks :: m <= j
  {
    MinExists(ks);
    var m :| IsMin(m, ks);
    m
  }

  /** A non-empty set of scores has an element. */
  lemma HasElement(ks: set<int>)
    requires ks != {}
    ensures exists y :: y in ks
  {
    if forall y :: y !in ks {
      assert false;
    }
  }

  predicate IsMin(m: int, ks: set<int>) {
    m in ks && forall j | j in ks :: m <= j
  }

  lemma MinExists(ks: set<int>)
    requires ks != {}
    ensures exists m :: IsMin(m, ks)
  {
    var m := MinOf(ks);
    assert IsMin(m, ks);
  }

  lemma MinOf(ks: set<int>) returns (m: int)
    requires ks != {}
    ensures m in ks && forall j | j in ks :: m <= j
    decreases |ks|
  {
    HasElement(ks);
    var y :| y in ks;
    if ks - {y} == {} {
      assert ks == {y};
      m := y;
    } else {
      var m' := MinOf(ks - {y});
      m := if y < m' then y else m';
      forall j | j in ks
        ensures m <= j
      {
        if j != y {
          assert j in ks - {y};
        }
      }
    }
  }

  function Repeat(k: int, n: nat): (r: seq<int>)
    ensures |r| == n && forall i | 0 <= i < n :: r[i] == k
  {
    seq(n, _ => k)
  }

  /**
    The list of scores the histogram stands for (line 268 of the catRAPID reader), smallest score
    first: each score repeated as many times as it was seen.
   */
  function Expand(h: Histogram): (scores: seq<int>)
    decreases |h.Keys|
  {
    if h.Keys == {} then []
    else
      var k := MinKey(h.Keys);
      Repeat(k, h[k]) + Expand(h - {k})
  }

  lemma RepeatCount(k: int, n: nat, x: int)
    ensures multiset(Repeat(k, n))[x] == if x == k then n else 0
    decreases n
  {
    if n > 0 {
      assert Repeat(k, n) == Repeat(k, n - 1) + [k];
      RepeatCount(k, n - 1, x);
    } else {
      assert Repeat(k, n) == [];
    }
  }

  /** The expanded list holds each score exactly as often as the histogram says. */
  lemma {:induction false} ExpandCount(h: Histogram, x: int)
    ensures multiset(Expand(h))[x] == Frequency(h, x)
    decreases |h.Keys|
  {
    if h.Keys != {} {
      var k := MinKey(h.Keys);
      ExpandCount(h - {k}, x);
      RepeatCount(k, h[k], x);
      assert (h - {k}).Keys == h.Keys - {k};
    }
  }

  /** In particular the list's length, the reported `count`, is the histogram's total frequency. */
  lemma {:induction false} ExpandLength(h: Histogram)
    ensures |Expand(h)| == Mass(h)
    decreases |h.Keys|
  {
    if h.Keys != {} {
      var k := MinKey(h.Keys);
      ExpandLength(h - {k});
      MassRemove(h, k);
    }
  }

  /** The sum of all frequencies. */
  function Mass(h: Histogram): nat
    decreases |h.Keys|
  {
    if h.Keys == {} then 0
    else
      var k := MinKey(h.Keys);
      h[k] + Mass(h - {k})
  }

  /** Taking any one score out of the histogram takes out exactly its frequency. */
  lemma {:induction false} MassRemove(h: Histogram, k: int)
    requires k in h
    ensures Mass(h) == h[k] + Mass(h - {k})
    decreases |h.Keys|
  {
    var m := MinKey(h.Keys);
    if m != k {
      var h' := h - {m};
      assert (h - {k}).Keys == h.Keys - {k};
      assert h'.Keys == h.Keys - {m};
      MassRemove(h', k);
      var h'' := h - {k};
      assert m in h''.Keys;
      var m'' := MinKey(h''.Keys);
      assert m'' <= m && m <= m'';
      assert m'' == m;
      assert h'' - {m} == h' - {k};
    }
  }

  /** Adding one score adds one to the total frequency. */
  lemma MassBump(h: Histogram, k: int)
    ensures Mass(Bump(h, k)) == Mass(h) + 1
  {
    var r := Bump(h, k);
    MassRemove(r, k);
    assert r - {k} == h - {k};
    if k in h {
      MassRemove(h, k);
    } else {
      assert h - {k} == h;
    }
  }

  /** A list of scores in non-decreasing order. */
  predicate Ascending(s: seq<int>) {
    forall i, j | 0 <= i <= j < |s| :: s[i] <= s[j]
  }

  /** The expanded list is sorted, smallest score first. */
  lemma {:induction false} ExpandSorted(h: Histogram)
    ensures Ascending(Expand(h))
    decreases |h.Keys|
  {
    if h.Keys != {} {
      var k := MinKey(h.Keys);
      var rest := h - {k};
      ExpandSorted(rest);
      var e := Expand(h);
      var r := Repeat(k, h[k]);
      assert e == r + Expand(rest);
      forall i, j | 0 <= i <= j < |e|
        ensures e[i] <= e[j]
      {
        if j >= |r| {
          var x := e[j];
          assert x == Expand(rest)[j - |r|];
          assert x in multiset(Expand(rest));
          ExpandCount(rest, x);
          assert x in rest;
          if i < |r| {
            assert e[i] == k;
          } else {
            assert e[i] == Expand(rest)[i - |r|];
          }
        }
      }
    }
  }

  function Sum(s: seq<int>): int
    decreases |s|
  {
    if s == [] then 0 else Sum(s[..|s| - 1]) + s[|s| - 1]
  }

  lemma {:induction false} SumAppend(a: seq<int>, b: seq<int>)
    ensures Sum(a + b) == Sum(a) + Sum(b)
    decreases |b|
  {
    if b == [] {
      assert a + b == a;
    } else {
      var n := |b| - 1;
      SumAppend(a, b[..n]);
      assert (a + b)[..|a| + n] == a + b[..n];
    }
  }

  /** The sum of a list of scores does not depend on their order. */
  lemma {:induction false} SumPermutation(a: seq<int>, b: seq<int>)
    requires multiset(a) == multiset(b)
    ensures Sum(a) == Sum(b)
    decreases |a|
  {
    if a == [] {
      assert |b| == |multiset(b)| == 0;
    } else {
      var n := |a| - 1;
      var x := a[n];
      assert a == a[..n] + [x];
      assert x in multiset(b);
      var j :| 0 <= j < |b| && b[j] == x;
      var rest := b[..j] + b[j + 1..];
      assert b == b[..j] + [x] + b[j + 1..];
      assert multiset(b) == multiset(b[..j]) + multiset{x} + multiset(b[j + 1..]);
      assert multiset(rest) == multiset(b[..j]) + multiset(b[j + 1..]);
      assert multiset(a) == multiset(a[..n]) + multiset{x};
      assert multiset(a[..n]) == multiset(a) - multiset{x};
      assert multiset(rest) == multiset(b) - multiset{x};
      SumPermutation(a[..n], rest);
      assert [x][..0] == [];
      SumAppend(b[..j] + [x], b[j + 1..]);
      SumAppend(b[..j], [x]);
      SumAppend(b[..j], b[j + 1..]);
    }
  }

  /** The head of an ascending list is its smallest element. */
  lemma AscendingHead(a: seq<int>, x: int)
    requires Ascending(a) && x in multiset(a)
    ensures a[0] <= x
  {
    var i :| 0 <= i < |a| && a[i] == x;
  }

  /** An ascending list without its head has the other elements and is ascending. */
  lemma AscendingTail(a: seq<int>)
    requires Ascending(a) && a != []
    ensures Ascending(a[1..]) && multiset(a[1..]) == multiset(a) - multiset{a[0]}
  {
    assert a == [a[0]] + a[1..];
    forall i, j | 0 <= i <= j < |a| - 1
      ensures a[1..][i] <= a[1..][j]
    {
      assert a[1..][i] == a[i + 1] && a[1..][j] == a[j + 1];
    }
  }

  lemma SameHead(a: seq<int>, b: seq<int>)
    requires Ascending(a) && Ascending(b) && multiset(a) == multiset(b) && a != [] && b != []
    ensures a[0] == b[0]
  {
    assert a[0] in multiset(a) && b[0] in multiset(b);
    AscendingHead(b, a[0]);
    AscendingHead(a, b[0]);
  }

  /** Two ascending lists with the same elements, counted with multiplicity, are the same list. */
  lemma {:induction false} AscendingUnique(a: seq<int>, b: seq<int>)
    requires Ascending(a) && Ascending(b) && multiset(a) == multiset(b)
    ensures a == b
    decreases |a|
  {
    assert |b| == |multiset(b)| == |a|;
    if a != [] {
      SameHead(a, b);
      AscendingTail(a);
      AscendingTail(b);
      AscendingUnique(a[1..], b[1..]);
      assert a == [a[0]] + a[1..] && b == [b[0]] + b[1..];
    }
  }

  /** Mean, median and count of a score list (in tenths), as `np.mean`, `np.median` and `len` give them. */
  datatype Stats = Stats(mean: Fraction, median: Fraction, count: nat)

  /**
    `np.median` of a sorted list of scores in tenths: the middle score, or the mean of the two middle
    scores when the length is even.
   */
  function Median(sorted: seq<int>): Fraction
    requires |sorted| > 0
  {
    var n := |sorted|;
    if n % 2 == 1 then Fraction(sorted[n / 2], 10)
    else Fraction(sorted[n / 2 - 1] + sorted[n / 2], 20)
  }

  /** The statistics the summary row reports for a non-empty histogram. */
  function StatsOf(h: Histogram): (s: Stats)
    requires Valid(h) && h != map[]
    ensures s.count == Mass(h) && s.count >= 1
    ensures s.mean == Fraction(Sum(Expand(h)), 10 * s.count)
  {
    var scores := Expand(h);
    ExpandLength(h);
    assert |scores| >= 1 by {
      HasElement(h.Keys);
      var k :| k in h.Keys;
      ExpandCount(h, k);
      assert k in multiset(scores);
    }
    Stats(Fraction(Sum(scores), 10 * |scores|), Median(scores), |scores|)
  }
}
