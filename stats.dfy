/** numpy.median and scipy.stats.median_abs_deviation over reals, as the RFI
    flagger of sliding_rfi_flagger.py uses them: the median of an odd count
    is the middle of the sorted values, of an even count the mean of the two
    middle ones; the MAD is the median of the absolute deviations from the
    median, with scale 1. */
module Stats {

  function RealAbs(x: real): (r: real)
    ensures r >= 0.0 && (r == x || r == -x)
  {
    if x < 0.0 then -x else x
  }

  predicate Sorted(s: seq<real>) {
    forall i, j :: 0 <= i < j < |s| ==> s[i] <= s[j]
  }

  /** Puts x into a sorted sequence. */
  function Insert(x: real, s: seq<real>): (r: seq<real>)
    requires Sorted(s)
    ensures Sorted(r)
    ensures multiset(r) == multiset(s) + multiset{x}
  {
    if |s| == 0 then [x]
    else if x <= s[0] then [x] + s
    else
      var rest := Insert(x, s[1..]);
      assert s == [s[0]] + s[1..];
      BoundedBelow(s[0], s[1..], x, rest);
      [s[0]] + rest
  }

  /** A rearrangement of s and x keeps a lower bound of both. */
  lemma BoundedBelow(lo: real, s: seq<real>, x: real, r: seq<real>)
    requires lo <= x && forall k :: 0 <= k < |s| ==> lo <= s[k]
    requires multiset(r) == multiset(s) + multiset{x}
    ensures forall k :: 0 <= k < |r| ==> lo <= r[k]
  {
    forall k | 0 <= k < |r| ensures lo <= r[k] {
      assert r[k] in multiset(r);
    }
  }

  /** Sorts by insertion: the values of s in non-decreasing order. */
  function Sort(s: seq<real>): (r: seq<real>)
    ensures Sorted(r)
    ensures multiset(r) == multiset(s)
  {
    if |s| == 0 then []
    else
      assert s == [s[0]] + s[1..];
      Insert(s[0], Sort(s[1..]))
  }

  /** A sorted arrangement of a multiset is unique. */
  lemma {:induction false} SortedUnique(a: seq<real>, b: seq<real>)
    requires Sorted(a) && Sorted(b)
    requires multiset(a) == multiset(b)
    ensures a == b
  {
    if |a| == 0 {
      assert |b| == |multiset(b)| == 0;
    } else {
      HeadsEqual(a, b);
      TailsAgree(a, b);
      SortedTail(a);
      SortedTail(b);
      SortedUnique(a[1..], b[1..]);
      assert a == [a[0]] + a[1..];
      assert b == [b[0]] + b[1..];
    }
  }

  /** Two sorted arrangements of one multiset start with the same value. */
  lemma HeadsEqual(a: seq<real>, b: seq<real>)
    requires Sorted(a) && Sorted(b) && multiset(a) == multiset(b) && |a| > 0
    ensures |b| > 0 && a[0] == b[0]
  {
    assert |b| == |multiset(b)| == |a|;
    assert a[0] in multiset(b);
    assert b[0] in multiset(a);
    assert b[0] <= a[0] by { var k :| 0 <= k < |b| && b[k] == a[0]; }
    assert a[0] <= b[0] by { var k :| 0 <= k < |a| && a[k] == b[0]; }
  }

  /** Removing an equal head leaves equal multisets. */
  lemma TailsAgree(a: seq<real>, b: seq<real>)
    requires multiset(a) == multiset(b) && |a| > 0 && |b| > 0 && a[0] == b[0]
    ensures multiset(a[1..]) == multiset(b[1..])
  {
    assert a == [a[0]] + a[1..];
    assert b == [b[0]] + b[1..];
    assert multiset(a) == multiset{a[0]} + multiset(a[1..]);
    assert multiset(b) == multiset{b[0]} + multiset(b[1..]);
    assert multiset(a[1..]) == multiset(a) - multiset{a[0]};
    assert multiset(b[1..]) == multiset(b) - multiset{b[0]};
  }

  lemma SortedTail(a: seq<real>)
    requires Sorted(a) && |a| > 0
    ensures Sorted(a[1..])
  {
  }

  /** The median of a sorted, non-empty sequence. */
  function MiddleOf(t: seq<real>): real
    requires |t| > 0
  {
    var n := |t|;
    if n % 2 == 1 then t[n / 2] else (t[n / 2 - 1] + t[n / 2]) / 2.0
  }

  /** numpy.median of a non-empty sequence. */
  function Median(s: seq<real>): real
    requires |s| > 0
  {
    MiddleOf(Sort(s))
  }

  /** The median lies between two of the values: so between the smallest and
      the largest. */
  lemma MedianBetween(s: seq<real>)
    requires |s| > 0
    ensures exists i, j :: 0 <= i < |s| && 0 <= j < |s| && s[i] <= Median(s) <= s[j]
  {
    var t := Sort(s);
    var n := |t|;
    assert |t| == |multiset(t)| == |multiset(s)| == |s|;
    var lo := if n % 2 == 1 then n / 2 else n / 2 - 1;
    var hi := n / 2;
    assert t[lo] <= Median(s) <= t[hi];
    var i := ValueOf(s, t, lo);
    var j := ValueOf(s, t, hi);
  }

  /** Every value of a rearrangement t of s is a value of s. */
  lemma ValueOf(s: seq<real>, t: seq<real>, k: nat) returns (i: nat)
    requires multiset(t) == multiset(s) && k < |t|
    ensures i < |s| && s[i] == t[k]
  {
    assert t[k] in multiset(t);
    assert t[k] in s;
    i :| 0 <= i < |s| && s[i] == t[k];
  }

  /** Bounds on every value bound the median. */
  lemma MedianWithin(s: seq<real>, lo: real, hi: real)
    requires |s| > 0
    requires forall k :: 0 <= k < |s| ==> lo <= s[k] <= hi
    ensures lo <= Median(s) <= hi
  {
    MedianBetween(s);
  }

  /** The median of a constant sequence is that constant. */
  lemma MedianOfConstant(s: seq<real>, c: real)
    requires |s| > 0
    requires forall k :: 0 <= k < |s| ==> s[k] == c
    ensures Median(s) == c
  {
    MedianWithin(s, c, c);
  }

  /** The median depends only on the values, not on their order. */
  lemma MedianOfPermutation(s: seq<real>, t: seq<real>)
    requires |s| > 0
    requires multiset(s) == multiset(t)
    ensures |t| > 0 && Median(s) == Median(t)
  {
    assert |t| == |multiset(t)| == |multiset(s)| == |s|;
    SortedUnique(Sort(s), Sort(t));
  }

  /** |s[k] - c| for every k. */
  function Deviations(s: seq<real>, c: real): (d: seq<real>)
    ensures |d| == |s|
    ensures forall k :: 0 <= k < |s| ==> d[k] == RealAbs(s[k] - c)
  {
    seq(|s|, k requires 0 <= k < |s| => RealAbs(s[k] - c))
  }

  /** median_abs_deviation with the default scale 1: never negative. */
  function Mad(s: seq<real>): (r: real)
    requires |s| > 0
    ensures r >= 0.0
  {
    var d := Deviations(s, Median(s));
    MedianBetween(d);
    Median(d)
  }

  /** A constant sequence has no spread. */
  lemma MadOfConstant(s: seq<real>, c: real)
    requires |s| > 0
    requires forall k :: 0 <= k < |s| ==> s[k] == c
    ensures Mad(s) == 0.0
  {
    MedianOfConstant(s, c);
    MedianOfConstant(Deviations(s, c), 0.0);
  }
}
