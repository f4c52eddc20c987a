/** The triangular baseline numbering of calib_util.py: a pair of antennas
    a1 < a2 is numbered a2*(a2-1)/2 + a1, and the inverse recovers the pair
    with a square root. The float square root of the source is replaced by an
    exact integer square root, which gives the same floor. */
module BaselineIndex {

  /** Baseline index of an antenna pair; the pair is sorted first. */
  function Ant2Bl(i: int, j: int): int {
    var a1 := if i <= j then i else j;
    var a2 := if i <= j then j else i;
    a2 * (a2 - 1) / 2 + a1
  }

  /** Largest r with r*r <= n. */
  function Isqrt(n: nat): (r: nat)
    ensures r * r <= n < (r + 1) * (r + 1)
  {
    if n == 0 then 0
    else
      var r := Isqrt(n - 1);
      if (r + 1) * (r + 1) <= n then r + 1 else r
  }

  /** Antenna pair of a baseline index: a2 = floor((1 + sqrt(1 + 8i)) / 2),
      a1 = i - a2*(a2-1)/2. */
  function Bl2Ant(i: nat): (int, int) {
    var a2 := (1 + Isqrt(1 + 8 * i)) / 2;
    (i - a2 * (a2 - 1) / 2, a2)
  }

  /** First index of the row of antenna a2: T(a2) = a2*(a2-1)/2. */
  function RowStart(a2: nat): nat {
    a2 * (a2 - 1) / 2
  }

  /** 2*T(k) == k*(k-1): the product of consecutive integers is even, so the
      floor division is exact. */
  lemma {:induction false} TwiceRowStart(k: nat)
    ensures 2 * RowStart(k) == k * (k - 1)
  {
    if k > 0 {
      TwiceRowStart(k - 1);
      var t := (k - 1) * (k - 2);
      assert k * (k - 1) == t + 2 * (k - 1);
      assert t % 2 == 0;
    }
  }

  lemma RowStartStep(k: nat)
    ensures RowStart(k + 1) == RowStart(k) + k
  {
    TwiceRowStart(k);
    TwiceRowStart(k + 1);
    assert (k + 1) * k == k * (k - 1) + 2 * k;
  }

  /** The pair is sorted before indexing, so the order of the arguments does
      not matter. */
  lemma Ant2BlSymmetric(i: int, j: int)
    ensures Ant2Bl(i, j) == Ant2Bl(j, i)
  {
  }

  /** For 0 <= a1 < a2 the index lies in the row [a2(a2-1)/2, a2(a2+1)/2). */
  lemma Ant2BlInRow(a1: nat, a2: nat)
    requires a1 < a2
    ensures RowStart(a2) <= Ant2Bl(a1, a2) < RowStart(a2 + 1)
  {
    RowStartStep(a2);
  }

  /** The odd square 8*T(k)+1 = (2k-1)^2 brackets every index of row k. */
  lemma RowBracket(i: nat, k: nat)
    requires k >= 1
    ensures RowStart(k) <= i < RowStart(k + 1) <==> (2 * k - 1) * (2 * k - 1) <= 8 * i + 1 < (2 * k + 1) * (2 * k + 1)
  {
    RowStartStep(k);
    TwiceRowStart(k);
    var t := RowStart(k);
    assert (2 * k - 1) * (2 * k - 1) == 4 * (k * (k - 1)) + 1;
    assert (2 * k - 1) * (2 * k - 1) == 8 * t + 1;
    assert (2 * k + 1) * (2 * k + 1) == (2 * k - 1) * (2 * k - 1) + 8 * k;
  }

  /** The integer-square-root formula picks the row that contains i. */
  lemma Bl2AntRow(i: nat)
    ensures Bl2Ant(i).1 >= 1
    ensures RowStart(Bl2Ant(i).1) <= i < RowStart(Bl2Ant(i).1 + 1)
  {
    var m := 1 + 8 * i;
    var s := Isqrt(m);
    var k := (1 + s) / 2;
    assert s >= 1 by {
      if s == 0 { assert false; }
    }
    assert k >= 1;
    if s % 2 == 1 {
      OddRoot(m, s, k);
    } else {
      EvenRoot(m, s, k);
    }
    RowBracket(i, k);
  }

  lemma OddRoot(m: nat, s: nat, k: nat)
    requires s * s <= m < (s + 1) * (s + 1) && s % 2 == 1 && k == (1 + s) / 2
    ensures (2 * k - 1) * (2 * k - 1) <= m < (2 * k + 1) * (2 * k + 1)
  {
    assert s == 2 * k - 1;
    assert (s + 1) * (s + 1) == 4 * k * k;
    assert (2 * k + 1) * (2 * k + 1) == 4 * k * k + 4 * k + 1;
  }

  lemma EvenRoot(m: nat, s: nat, k: nat)
    requires s * s <= m < (s + 1) * (s + 1) && s >= 1 && s % 2 == 0 && k == (1 + s) / 2
    ensures (2 * k - 1) * (2 * k - 1) <= m < (2 * k + 1) * (2 * k + 1)
  {
    assert s == 2 * k;
    assert s * s == 4 * k * k;
    assert (2 * k - 1) * (2 * k - 1) == 4 * k * k - 4 * k + 1;
  }

  /** Every index decodes to a pair 0 <= a1 < a2 that encodes back to it. */
  lemma Bl2AntValid(i: nat)
    ensures 0 <= Bl2Ant(i).0 < Bl2Ant(i).1
    ensures Ant2Bl(Bl2Ant(i).0, Bl2Ant(i).1) == i
  {
    Bl2AntRow(i);
    RowStartStep(Bl2Ant(i).1);
  }

  /** Row membership determines the row: two rows never overlap. */
  lemma RowUnique(i: nat, k: nat, l: nat)
    requires RowStart(k) <= i < RowStart(k + 1)
    requires RowStart(l) <= i < RowStart(l + 1)
    ensures k == l
  {
    if k < l { RowStartMono(k + 1, l); }
    else if l < k { RowStartMono(l + 1, k); }
  }

  lemma {:induction false} RowStartMono(k: nat, l: nat)
    requires k <= l
    ensures RowStart(k) <= RowStart(l)
  {
    if k < l {
      RowStartMono(k, l - 1);
      RowStartStep(l - 1);
    }
  }

  /** Round trip: for 0 <= a1 < a2, bl2ant(ant2bl(a1, a2)) == (a1, a2). */
  lemma Bl2AntAnt2Bl(a1: nat, a2: nat)
    requires a1 < a2
    ensures Bl2Ant(Ant2Bl(a1, a2)) == (a1, a2)
  {
    var i := Ant2Bl(a1, a2);
    Ant2BlInRow(a1, a2);
    Bl2AntRow(i);
    RowUnique(i, a2, Bl2Ant(i).1);
  }

  /** The numbering is meant for cross pairs only: an auto pair (a, a) gets
      the index of the cross pair (0, a+1). */
  lemma AutoPairCollides(a: nat)
    ensures Ant2Bl(a, a) == Ant2Bl(0, a + 1)
    ensures Bl2Ant(Ant2Bl(a, a)) == (0, a + 1)
  {
    RowStartStep(a);
    Bl2AntAnt2Bl(0, a + 1);
  }
}
