/** The baseline table of calibrate_uvh5.py (get_ant_array_indices): for nant
    antennas, every auto pair (i, i) in increasing i, then every cross pair
    (i, j) with i < j in row-major order. The visibility cube's baseline axis
    follows this order, and the gain solver and the gain applier look pairs up
    in it. It is a different ordering from the triangular numbering of
    module BaselineIndex. */
module BaselineTable {

  type Pair = (nat, nat)

  /** The auto pairs (0,0), ..., (n-1,n-1). */
  function Autos(n: nat): seq<Pair> {
    seq(n, k => (k, k))
  }

  /** The cross pairs (i, j) of row i with i < j < upTo, in increasing j. */
  function RowPairs(i: nat, upTo: nat): seq<Pair> {
    seq(if upTo > i + 1 then upTo - i - 1 else 0, k => (i, i + 1 + k))
  }

  /** Rows 0 .. rows-1 of the cross pairs of an n-antenna array. */
  function Crosses(n: nat, rows: nat): seq<Pair> {
    if rows == 0 then [] else Crosses(n, rows - 1) + RowPairs(rows - 1, n)
  }

  /** The whole table: autos first, then crosses. */
  function Table(n: nat): seq<Pair> {
    Autos(n) + Crosses(n, n)
  }

  lemma RowPairsStep(i: nat, j: nat)
    ensures RowPairs(i, j + 1) == RowPairs(i, j) + (if i < j then [(i, j)] else [])
  {
  }

  /** The source's nested loops: one pass over all (i, j) collecting autos,
      a second pass collecting the pairs with i < j. */
  method GetAntArrayIndices(nant: nat) returns (antIndices: seq<Pair>)
    ensures antIndices == Table(nant)
  {
    var auto: seq<Pair> := [];
    var cross: seq<Pair> := [];
    var i := 0;
    while i < nant
      invariant 0 <= i <= nant
      invariant auto == Autos(i)
    {
      var j := 0;
      while j < nant
        invariant 0 <= j <= nant
        invariant auto == Autos(i) + (if i < j then [(i, i)] else [])
      {
        if i == j {
          auto := auto + [(i, j)];
        }
        j := j + 1;
      }
      assert Autos(i + 1) == Autos(i) + [(i, i)];
      i := i + 1;
    }
    i := 0;
    while i < nant
      invariant 0 <= i <= nant
      invariant cross == Crosses(nant, i)
    {
      var j := 0;
      while j < nant
        invariant 0 <= j <= nant
        invariant cross == Crosses(nant, i) + RowPairs(i, j)
      {
        RowPairsStep(i, j);
        if i < j {
          cross := cross + [(i, j)];
        }
        j := j + 1;
      }
      i := i + 1;
    }
    antIndices := auto + cross;
  }

  /** 2 * |Crosses(n, r)| == 2rn - r(r+1): row i holds n-i-1 pairs. */
  lemma {:induction false} CrossesLength(n: nat, r: nat)
    requires r <= n
    ensures 2 * |Crosses(n, r)| == 2 * r * n - r * (r + 1)
  {
    if r > 0 {
      CrossesLength(n, r - 1);
      assert |RowPairs(r - 1, n)| == n - r;
    }
  }

  /** The table has nant*(nant+1)/2 entries: nant autos and nant*(nant-1)/2
      crosses. */
  lemma TableLength(n: nat)
    ensures 2 * |Table(n)| == n * (n + 1)
  {
    CrossesLength(n, n);
  }

  /** Every cross pair of the first r rows is (i, j) with i < r and i < j < n. */
  lemma {:induction false} CrossesShape(n: nat, r: nat, k: nat)
    requires k < |Crosses(n, r)|
    ensures Crosses(n, r)[k].0 < r
    ensures Crosses(n, r)[k].0 < Crosses(n, r)[k].1 < n
  {
    if r > 0 {
      var prev := Crosses(n, r - 1);
      if k < |prev| {
        CrossesShape(n, r - 1, k);
      }
    }
  }

  /** Lexicographic order on pairs, the order of a row-major traversal. */
  predicate LexLess(p: Pair, q: Pair) {
    p.0 < q.0 || (p.0 == q.0 && p.1 < q.1)
  }

  /** The cross pairs come in strictly increasing row-major order. */
  lemma {:induction false} CrossesRowMajor(n: nat, r: nat, p: nat, q: nat)
    requires p < q < |Crosses(n, r)|
    ensures LexLess(Crosses(n, r)[p], Crosses(n, r)[q])
  {
    if r > 0 {
      var prev := Crosses(n, r - 1);
      if q < |prev| {
        CrossesRowMajor(n, r - 1, p, q);
      } else if p < |prev| {
        CrossesShape(n, r - 1, p);
      }
    }
  }

  /** The cross pair (i, j) sits at offset |Crosses(n, i)| + (j - i - 1)
      among the crosses of any r > i rows. */
  lemma {:induction false} CrossesPosition(n: nat, r: nat, i: nat, j: nat)
    requires i < j < n && i < r <= n
    ensures |Crosses(n, i)| + (j - i - 1) < |Crosses(n, r)|
    ensures Crosses(n, r)[|Crosses(n, i)| + (j - i - 1)] == (i, j)
  {
    if i < r - 1 {
      CrossesPosition(n, r - 1, i, j);
    }
  }

  /** Where each pair is: the auto (k, k) at k, the cross (i, j) at
      nant + |Crosses(nant, i)| + (j - i - 1). */
  lemma TablePositions(n: nat, i: nat, j: nat)
    requires i < j < n
    ensures Table(n)[i] == (i, i)
    ensures n + |Crosses(n, i)| + (j - i - 1) < |Table(n)|
    ensures Table(n)[n + |Crosses(n, i)| + (j - i - 1)] == (i, j)
  {
    CrossesPosition(n, n, i, j);
  }

  /** Every entry names antennas below nant, the first never above the second;
      autos come first. */
  lemma TableEntries(n: nat, k: nat)
    requires k < |Table(n)|
    ensures Table(n)[k].0 <= Table(n)[k].1 < n
    ensures (Table(n)[k].0 == Table(n)[k].1) <==> k < n
  {
    if k >= n {
      CrossesShape(n, n, k - n);
    }
  }

  /** No pair appears twice in the table. */
  lemma TableDistinct(n: nat, p: nat, q: nat)
    requires p < q < |Table(n)|
    ensures Table(n)[p] != Table(n)[q]
  {
    TableEntries(n, p);
    TableEntries(n, q);
    if n <= p {
      CrossesRowMajor(n, n, p - n, q - n);
    }
  }

  /** Every unordered pair of distinct antennas appears exactly once, as
      (min, max); the reversed pair never appears. */
  lemma CrossPairOnce(n: nat, i: nat, j: nat)
    requires i < j < n
    ensures exists k :: 0 <= k < |Table(n)| && Table(n)[k] == (i, j)
    ensures forall k, k' :: 0 <= k < k' < |Table(n)| ==> Table(n)[k] != Table(n)[k']
    ensures forall k :: 0 <= k < |Table(n)| ==> Table(n)[k] != (j, i)
  {
    TablePositions(n, i, j);
    forall k, k' | 0 <= k < k' < |Table(n)|
      ensures Table(n)[k] != Table(n)[k']
    {
      TableDistinct(n, k, k');
    }
    forall k | 0 <= k < |Table(n)|
      ensures Table(n)[k] != (j, i)
    {
      TableEntries(n, k);
    }
  }
}
