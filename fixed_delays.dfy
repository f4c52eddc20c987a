/** antfxdelay_from_baselinefxdelay.py: update the table of fixed delays
    (stream IF0..IF3 -> antenna -> delay) with the per-baseline residual
    delays of a tuning. The reference antenna is the one with zero delay,
    or is re-chosen from the observed antennas, in which case the table is
    rebased on it; residuals of baselines "x-ref" are subtracted from x's
    delays and those of "ref-x" added, in IF0/IF1 for tuning AC and in
    IF2/IF3 for tuning BD. Reading and writing the CSV files, and the name
    of the saved file, are outside this model: the parsed tables are
    inputs and the updated table is the object's new state. */
module FixedDelayUpdate {
  import opened Wrappers

  datatype Stream = IF0 | IF1 | IF2 | IF3

  /** The order of the columns, and of fixed_delays.keys(). */
  const Streams: seq<Stream> := [IF0, IF1, IF2, IF3]

  /** fixed_delays: for each stream, the delay of each antenna. */
  datatype Table = Table(if0: map<string, real>, if1: map<string, real>, if2: map<string, real>, if3: map<string, real>)
  {
    /** fixed_delays[s]. */
    function At(s: Stream): map<string, real> {
      match s
      case IF0 => if0
      case IF1 => if1
      case IF2 => if2
      case IF3 => if3
    }

    /** The table with stream s replaced by m. */
    function With(s: Stream, m: map<string, real>): (r: Table)
      ensures r.At(s) == m && forall u :: u != s ==> r.At(u) == At(u)
    {
      match s
      case IF0 => this.(if0 := m)
      case IF1 => this.(if1 := m)
      case IF2 => this.(if2 := m)
      case IF3 => this.(if3 := m)
    }
  }

  /** Why the function returns (0, 0). */
  datatype Abort = Unparsable | NoUniqueZeroAntenna | NoDisplacementMap

  /** The Python exceptions the function can end with. */
  datatype PyError = IndexError | KeyError | ValueError | NameError

  datatype Outcome = Saved(refant: string) | Aborted(reason: Abort) | Raised(error: PyError)

  /** One row of a residual-delay file: the baseline "a-b" and the total
      delays of its two polarisations. */
  datatype Residual = Residual(baseline: string, pol0: real, pol1: real)

  predicate Distinct(ants: seq<string>) {
    forall i, j :: 0 <= i < j < |ants| ==> ants[i] != ants[j]
  }

  /** Every stream holds a delay for exactly the antennas of the file. */
  ghost predicate Covers(t: Table, ants: seq<string>) {
    forall s: Stream, a :: a in t.At(s) <==> a in ants
  }

  // ---------------------------------------------------------------------
  // Strings (antfxdelay_from_baselinefxdelay.py:80-82)
  // ---------------------------------------------------------------------

  /** Python's sub in s: sub occurs at some position of s. */
  predicate Contains(s: string, sub: string)
    decreases |s|
  {
    |sub| <= |s| && (s[..|sub|] == sub || Contains(s[1..], sub))
  }

  /** An occurrence at position i is found. */
  lemma {:induction false} ContainsAt(s: string, sub: string, i: nat)
    requires i + |sub| <= |s| && s[i..i + |sub|] == sub
    ensures Contains(s, sub)
    decreases i
  {
    if i > 0 {
      assert s[1..][i - 1..i - 1 + |sub|] == s[i..i + |sub|];
      ContainsAt(s[1..], sub, i - 1);
    }
  }

  /** str.split(sep): the pieces between separators, empty ones included. */
  function Split(s: string, sep: char): (parts: seq<string>)
    ensures |parts| > 0
    decreases |s|
  {
    if |s| == 0 then [""]
    else if s[0] == sep then [""] + Split(s[1..], sep)
    else
      var rest := Split(s[1..], sep);
      [[s[0]] + rest[0]] + rest[1..]
  }

  /** sep.join(parts). */
  function Join(parts: seq<string>, sep: char): string
    requires |parts| > 0
  {
    if |parts| == 1 then parts[0] else parts[0] + [sep] + Join(parts[1..], sep)
  }

  /** Splitting and joining again gives the string back. */
  lemma {:induction false} JoinSplit(s: string, sep: char)
    ensures Join(Split(s, sep), sep) == s
    decreases |s|
  {
    if |s| > 0 {
      JoinSplit(s[1..], sep);
      var rest := Split(s[1..], sep);
      if s[0] == sep {
        assert Split(s, sep) == [""] + rest;
        assert ([""] + rest)[1..] == rest;
      } else {
        var parts := Split(s, sep);
        assert parts[1..] == rest[1..];
        if |rest| == 1 {
          assert parts == [[s[0]] + rest[0]];
        } else {
          assert Join(rest, sep) == rest[0] + [sep] + Join(rest[1..], sep);
        }
      }
    }
  }

  /** A string without the separator is one piece. */
  lemma {:induction false} SplitWhole(y: string, sep: char)
    requires sep !in y
    ensures Split(y, sep) == [y]
    decreases |y|
  {
    if |y| > 0 {
      assert forall k :: 0 <= k < |y[1..]| ==> y[1..][k] == y[k + 1];
      assert sep !in y[1..];
      SplitWhole(y[1..], sep);
      assert [y[0]] + y[1..] == y;
    }
  }

  /** A piece without the separator, then the separator, is split off. */
  lemma {:induction false} SplitFirst(x: string, sep: char, rest: string)
    requires sep !in x
    ensures Split(x + [sep] + rest, sep) == [x] + Split(rest, sep)
    decreases |x|
  {
    if |x| == 0 {
      assert x + [sep] + rest == [sep] + rest;
      assert ([sep] + rest)[1..] == rest;
    } else {
      var s := x + [sep] + rest;
      assert s[0] == x[0];
      assert s[1..] == x[1..] + [sep] + rest;
      assert forall k :: 0 <= k < |x[1..]| ==> x[1..][k] == x[k + 1];
      assert sep !in x[1..];
      SplitFirst(x[1..], sep, rest);
      assert [x[0]] + x[1..] == x;
    }
  }

  /** "x-y" splits into its two antennas when neither contains '-'. */
  lemma SplitBaseline(x: string, y: string)
    requires '-' !in x && '-' !in y
    ensures Split(x + "-" + y, '-') == [x, y]
  {
    SplitFirst(x, '-', y);
    SplitWhole(y, '-');
  }

  /** Every piece of a split string occurs in it. */
  lemma BaselineContainsBoth(x: string, y: string)
    ensures Contains(x + "-" + y, x) && Contains(x + "-" + y, y)
  {
    var s := x + "-" + y;
    assert s[0..0 + |x|] == x;
    ContainsAt(s, x, 0);
    assert s[|x| + 1..|x| + 1 + |y|] == y;
    ContainsAt(s, y, |x| + 1);
  }

  /** list.index(x): the first position of x, or None for ValueError. */
  function IndexOf(parts: seq<string>, x: string): (r: Option<nat>)
    ensures r.None? <==> x !in parts
    ensures r.Some? ==> r.value < |parts| && parts[r.value] == x && forall j :: 0 <= j < r.value ==> parts[j] != x
  {
    if |parts| == 0 then None
    else if parts[0] == x then Some(0)
    else
      match IndexOf(parts[1..], x)
      case None => None
      case Some(i) => Some(i + 1)
  }

  // ---------------------------------------------------------------------
  // Reference antenna from the zero entries (lines 26-40)
  // ---------------------------------------------------------------------

  /** The antennas with a zero delay in stream m, in file order. */
  function StreamZeros(m: map<string, real>, order: seq<string>): seq<string>
    requires forall a :: a in order ==> a in m
  {
    if |order| == 0 then []
    else
      var last := order[|order| - 1];
      StreamZeros(m, order[..|order| - 1]) + (if m[last] == 0.0 then [last] else [])
  }

  /** The candidates list: the zero entries of every stream, stream after
      stream. */
  function ZeroEntries(t: Table, ants: seq<string>, streams: seq<Stream>): seq<string>
    requires Covers(t, ants)
  {
    if |streams| == 0 then []
    else ZeroEntries(t, ants, streams[..|streams| - 1]) + StreamZeros(t.At(streams[|streams| - 1]), ants)
  }

  lemma {:induction false} StreamZerosMembers(m: map<string, real>, order: seq<string>)
    requires forall a :: a in order ==> a in m
    ensures forall a :: a in StreamZeros(m, order) <==> a in order && m[a] == 0.0
  {
    if |order| > 0 {
      var init := order[..|order| - 1];
      StreamZerosMembers(m, init);
      assert order == init + [order[|order| - 1]];
    }
  }

  lemma {:induction false} ZeroEntriesMembers(t: Table, ants: seq<string>, streams: seq<Stream>)
    requires Covers(t, ants)
    ensures forall a :: a in ZeroEntries(t, ants, streams) <==>
      a in ants && exists k :: 0 <= k < |streams| && t.At(streams[k])[a] == 0.0
  {
    if |streams| > 0 {
      var init := streams[..|streams| - 1];
      var s := streams[|streams| - 1];
      ZeroEntriesMembers(t, ants, init);
      StreamZerosMembers(t.At(s), ants);
      forall a | a in ZeroEntries(t, ants, streams)
        ensures a in ants && exists k :: 0 <= k < |streams| && t.At(streams[k])[a] == 0.0
      {
        if a in ZeroEntries(t, ants, init) {
          var k :| 0 <= k < |init| && t.At(init[k])[a] == 0.0;
          assert streams[k] == init[k];
        } else {
          assert t.At(streams[|streams| - 1])[a] == 0.0;
        }
      }
      forall a | a in ants && exists k :: 0 <= k < |streams| && t.At(streams[k])[a] == 0.0
        ensures a in ZeroEntries(t, ants, streams)
      {
        var k :| 0 <= k < |streams| && t.At(streams[k])[a] == 0.0;
        if k < |init| {
          assert init[k] == streams[k];
        }
      }
    }
  }

  /** The candidates are exactly the antennas with a zero delay in some
      stream. */
  lemma CandidatesAreZeroAntennas(t: Table, ants: seq<string>)
    requires Covers(t, ants)
    ensures forall a :: a in ZeroEntries(t, ants, Streams) <==>
      a in ants && (t.At(IF0)[a] == 0.0 || t.At(IF1)[a] == 0.0 || t.At(IF2)[a] == 0.0 || t.At(IF3)[a] == 0.0)
  {
    ZeroEntriesMembers(t, ants, Streams);
    forall a | a in ants && (t.At(IF0)[a] == 0.0 || t.At(IF1)[a] == 0.0 || t.At(IF2)[a] == 0.0 || t.At(IF3)[a] == 0.0)
      ensures exists k :: 0 <= k < |Streams| && t.At(Streams[k])[a] == 0.0
    {
      if t.At(IF0)[a] == 0.0 { assert Streams[0] == IF0; }
      else if t.At(IF1)[a] == 0.0 { assert Streams[1] == IF1; }
      else if t.At(IF2)[a] == 0.0 { assert Streams[2] == IF2; }
      else { assert Streams[3] == IF3; }
    }
  }

  /** The check as written: all(refant) tests that every candidate name is
      non-empty, and refant[0] fails on an empty list. */
  function ChooseRefantAsWritten(cands: seq<string>): Result<string, Outcome> {
    if forall k :: 0 <= k < |cands| ==> cands[k] != "" then
      if |cands| == 0 then Err(Raised(IndexError)) else Ok(cands[0])
    else Err(Aborted(NoUniqueZeroAntenna))
  }

  /** The check as its message describes it: the zero entries must all
      belong to one antenna, which is then the reference. */
  function ChooseRefant(cands: seq<string>): Result<string, Outcome> {
    if |cands| > 0 && forall k :: 0 <= k < |cands| ==> cands[k] == cands[0] then Ok(cands[0])
    else Err(Aborted(NoUniqueZeroAntenna))
  }

  /** A reference is chosen exactly when one antenna, and no other, has
      zero delays; otherwise the (0, 0) return is taken. */
  lemma ChooseRefantUnique(cands: seq<string>, r: string)
    ensures ChooseRefant(cands) == Ok(r) <==> r in cands && forall c :: c in cands ==> c == r
    ensures ChooseRefant(cands).Err? ==> ChooseRefant(cands) == Err(Aborted(NoUniqueZeroAntenna))
  {
    if r in cands && forall c :: c in cands ==> c == r {
      assert cands[0] in cands;
      forall k | 0 <= k < |cands| ensures cands[k] == cands[0] {
        assert cands[k] in cands;
      }
    }
    if ChooseRefant(cands) == Ok(r) {
      assert cands[0] in cands;
      forall c | c in cands ensures c == r {
        var k :| 0 <= k < |cands| && cands[k] == c;
      }
    }
  }

  /** The two candidate lists that show the check as written misfire:
      two antennas with zeros pick the first silently, and no zero at all
      ends in IndexError; the intended check refuses both. */
  lemma ChooseRefantDiscrepancy()
    ensures ChooseRefantAsWritten(["ea01", "ea02"]) == Ok("ea01")
    ensures ChooseRefant(["ea01", "ea02"]) == Err(Aborted(NoUniqueZeroAntenna))
    ensures ChooseRefantAsWritten([]) == Err(Raised(IndexError))
    ensures ChooseRefant([]) == Err(Aborted(NoUniqueZeroAntenna))
  {
    var two := ["ea01", "ea02"];
    assert two[1] != two[0];
    assert forall k :: 0 <= k < |two| ==> two[k] != "";
  }

  /** The check as written succeeds exactly when some antenna has a zero
      and no candidate name is empty, and then takes the first candidate;
      with no candidate at all it raises IndexError. */
  lemma ChooseRefantAsWrittenTakesFirst(cands: seq<string>)
    ensures ChooseRefantAsWritten(cands).Ok?
      <==> |cands| > 0 && forall k :: 0 <= k < |cands| ==> cands[k] != ""
    ensures ChooseRefantAsWritten(cands).Ok? ==> ChooseRefantAsWritten(cands).value == cands[0]
    ensures |cands| == 0 ==> ChooseRefantAsWritten(cands) == Err(Raised(IndexError))
  {
  }

  /** The two checks agree when every zero entry belongs to one antenna
      whose name is not empty. */
  lemma ChooseRefantVersionsAgree(cands: seq<string>)
    requires |cands| > 0 && cands[0] != ""
    requires forall k :: 0 <= k < |cands| ==> cands[k] == cands[0]
    ensures ChooseRefantAsWritten(cands) == ChooseRefant(cands) == Ok(cands[0])
  {
  }

  // ---------------------------------------------------------------------
  // Re-choosing the reference among the observed antennas (lines 42-65)
  // ---------------------------------------------------------------------

  /** The first key of the displacement map that was observed, or the
      current reference when none was. */
  function FirstObserved(keys: seq<string>, observed: seq<string>, current: string): string {
    if |keys| == 0 then current
    else if keys[0] in observed then keys[0]
    else FirstObserved(keys[1..], observed, current)
  }

  /** The new reference is the earliest observed key, or the old one if no
      key was observed. */
  lemma {:induction false} FirstObservedIsFirst(keys: seq<string>, observed: seq<string>, current: string)
    ensures var r := FirstObserved(keys, observed, current);
      || (exists i :: 0 <= i < |keys| && keys[i] == r && r in observed
            && forall j :: 0 <= j < i ==> keys[j] !in observed)
      || (r == current && forall j :: 0 <= j < |keys| ==> keys[j] !in observed)
  {
    if |keys| > 0 && keys[0] !in observed {
      FirstObservedIsFirst(keys[1..], observed, current);
      var r := FirstObserved(keys, observed, current);
      if exists i :: 0 <= i < |keys[1..]| && keys[1..][i] == r && r in observed
           && forall j :: 0 <= j < i ==> keys[1..][j] !in observed {
        var i :| 0 <= i < |keys[1..]| && keys[1..][i] == r && r in observed
                 && forall j :: 0 <= j < i ==> keys[1..][j] !in observed;
        assert keys[i + 1] == r;
        assert forall j :: 0 <= j < i + 1 ==> keys[j] !in observed by {
          forall j | 0 <= j < i + 1 ensures keys[j] !in observed {
            if j > 0 { assert keys[j] == keys[1..][j - 1]; }
          }
        }
      } else {
        assert forall j :: 0 <= j < |keys| ==> keys[j] !in observed by {
          forall j | 0 <= j < |keys| ensures keys[j] !in observed {
            if j > 0 { assert keys[j] == keys[1..][j - 1]; }
          }
        }
      }
    }
  }

  /** The loop over the displacement map with its break. */
  method FirstObservedKey(keys: seq<string>, observed: seq<string>, current: string) returns (refant: string)
    ensures refant == FirstObserved(keys, observed, current)
  {
    refant := current;
    var i := 0;
    while i < |keys|
      invariant 0 <= i <= |keys|
      invariant FirstObserved(keys, observed, current) == FirstObserved(keys[i..], observed, current)
    {
      assert keys[i..][1..] == keys[i + 1..];
      if keys[i] in observed {
        refant := keys[i];
        return;
      }
      i := i + 1;
    }
  }

  /** Every delay minus the reference's delay in the same stream. */
  function RebasedStream(m: map<string, real>, ref: string): (r: map<string, real>)
    requires ref in m
    ensures r.Keys == m.Keys
  {
    map a | a in m :: m[a] - m[ref]
  }

  /** The table rebased on ref, as the rebase is evidently meant. */
  function Rebased(t: Table, ants: seq<string>, ref: string): (r: Table)
    requires Covers(t, ants) && ref in ants
    ensures Covers(r, ants)
    ensures forall s :: r.At(s) == RebasedStream(t.At(s), ref)
  {
    Table(RebasedStream(t.At(IF0), ref), RebasedStream(t.At(IF1), ref), RebasedStream(t.At(IF2), ref), RebasedStream(t.At(IF3), ref))
  }

  /** After rebasing, the reference has zero delay in every stream and the
      delay differences between antennas are what they were. */
  lemma RebasedKeepsDifferences(t: Table, ants: seq<string>, ref: string, s: Stream, a: string, b: string)
    requires Covers(t, ants) && ref in ants && a in ants && b in ants
    ensures Rebased(t, ants, ref).At(s)[ref] == 0.0
    ensures Rebased(t, ants, ref).At(s)[a] - Rebased(t, ants, ref).At(s)[b] == t.At(s)[a] - t.At(s)[b]
  {
  }

  /** Rebasing twice on the same antenna changes nothing more. */
  lemma RebaseIdempotent(t: Table, ants: seq<string>, ref: string)
    requires Covers(t, ants) && ref in ants
    ensures Rebased(Rebased(t, ants, ref), ants, ref) == Rebased(t, ants, ref)
  {
    var r := Rebased(t, ants, ref);
    forall s: Stream ensures Rebased(r, ants, ref).At(s) == r.At(s) {
      assert r.At(s)[ref] == 0.0;
    }
  }

  /** The in-place loop as written: entry by entry in file order, each
      entry minus the reference's CURRENT value, which is zero once the
      reference's own entry has been processed. */
  function RebasedAsWritten(m: map<string, real>, order: seq<string>, ref: string): (r: map<string, real>)
    requires ref in m && forall a :: a in order ==> a in m
    ensures r.Keys == m.Keys
  {
    if |order| == 0 then m
    else RebasedAsWritten(m[order[0] := m[order[0]] - m[ref]], order[1..], ref)
  }

  /** Antennas [A, R, B] with delays 1, 2, 3 rebased on R: the loop as
      written leaves B at 3, where the intended result is 1. */
  lemma RebaseDiscrepancy()
    ensures var m := map["A" := 1.0, "R" := 2.0, "B" := 3.0];
      && RebasedAsWritten(m, ["A", "R", "B"], "R") == map["A" := -1.0, "R" := 0.0, "B" := 3.0]
      && RebasedStream(m, "R") == map["A" := -1.0, "R" := 0.0, "B" := 1.0]
  {
    var m := map["A" := 1.0, "R" := 2.0, "B" := 3.0];
    var m1 := m["A" := -1.0];
    var m2 := m1["R" := 0.0];
    assert ["A", "R", "B"][1..] == ["R", "B"];
    assert ["R", "B"][1..] == ["B"];
    assert ["B"][1..] == [];
    assert RebasedAsWritten(m, ["A", "R", "B"], "R") == RebasedAsWritten(m1, ["R", "B"], "R");
    assert RebasedAsWritten(m1, ["R", "B"], "R") == RebasedAsWritten(m2, ["B"], "R");
    assert RebasedAsWritten(m2, ["B"], "R") == m2["B" := 3.0];
    assert m2["B" := 3.0] == map["A" := -1.0, "R" := 0.0, "B" := 3.0];
    assert RebasedStream(m, "R") == map["A" := -1.0, "R" := 0.0, "B" := 1.0];
  }

  /** A file order without the reference: the reference's entry never
      changes, so every listed entry drops by the reference's delay and
      the others stay. */
  lemma {:induction false} RebasedAsWrittenWithoutRef(m: map<string, real>, order: seq<string>, ref: string)
    requires ref in m && (forall a :: a in order ==> a in m) && Distinct(order) && ref !in order
    ensures forall a :: a in m ==>
      RebasedAsWritten(m, order, ref)[a] == if a in order then m[a] - m[ref] else m[a]
    decreases |order|
  {
    if |order| > 0 {
      var x := order[0];
      var m1 := m[x := m[x] - m[ref]];
      DistinctTail(order);
      RebasedAsWrittenWithoutRef(m1, order[1..], ref);
      forall a | a in m
        ensures RebasedAsWritten(m, order, ref)[a] == if a in order then m[a] - m[ref] else m[a]
      {
        if a != x {
          assert a in order <==> a in order[1..];
        }
      }
    }
  }

  /** The reference at position p of a file order: the entries before it
      drop by its delay, it becomes zero, and the entries after it keep
      their delays. */
  lemma {:induction false} RebasedAsWrittenSplit(m: map<string, real>, order: seq<string>, ref: string, p: nat)
    requires ref in m && (forall a :: a in order ==> a in m) && Distinct(order)
    requires p < |order| && order[p] == ref
    ensures forall a :: a in m ==>
      RebasedAsWritten(m, order, ref)[a]
        == if a in order[..p] then m[a] - m[ref] else if a == ref then 0.0 else m[a]
    decreases p
  {
    var x := order[0];
    var m1 := m[x := m[x] - m[ref]];
    DistinctTail(order);
    if p == 0 {
      RebasedAsWrittenWithoutRef(m1, order[1..], ref);
      forall a | a in m
        ensures RebasedAsWritten(m, order, ref)[a]
          == if a in order[..p] then m[a] - m[ref] else if a == ref then 0.0 else m[a]
      {
        if a != ref {
          assert a in order[1..] ==> m1[a] - m1[ref] == m[a];
        }
      }
    } else {
      assert x != ref by { assert order[0] != order[p]; }
      assert order[1..][p - 1] == ref;
      RebasedAsWrittenSplit(m1, order[1..], ref, p - 1);
      assert order[..p] == [x] + order[1..][..p - 1];
      forall a | a in m
        ensures RebasedAsWritten(m, order, ref)[a]
          == if a in order[..p] then m[a] - m[ref] else if a == ref then 0.0 else m[a]
      {
        if a == x {
          assert x !in order[1..][..p - 1];
        }
      }
    }
  }

  /** The loop as written, position by position in file order: before
      the reference each delay minus the reference's, the reference zero,
      and after it each delay unchanged. */
  lemma RebasedAsWrittenPositions(m: map<string, real>, order: seq<string>, ref: string, p: nat)
    requires ref in m && (forall a :: a in order ==> a in m) && Distinct(order)
    requires p < |order| && order[p] == ref
    ensures forall k :: 0 <= k < |order| ==>
      RebasedAsWritten(m, order, ref)[order[k]]
        == if k < p then m[order[k]] - m[ref] else if k == p then 0.0 else m[order[k]]
  {
    RebasedAsWrittenSplit(m, order, ref, p);
    forall k | 0 <= k < |order|
      ensures RebasedAsWritten(m, order, ref)[order[k]]
        == if k < p then m[order[k]] - m[ref] else if k == p then 0.0 else m[order[k]]
    {
      if k < p {
        assert order[k] == order[..p][k];
      } else {
        assert order[k] !in order[..p] by {
          forall i | 0 <= i < p ensures order[..p][i] != order[k] {
            assert order[..p][i] == order[i];
          }
        }
      }
    }
  }

  /** The loop as written and the intended rebase agree when the reference
      comes last in file order, or already has zero delay. */
  lemma RebaseVersionsAgree(m: map<string, real>, order: seq<string>, ref: string)
    requires ref in m && (forall a :: a in m <==> a in order) && Distinct(order)
    requires (|order| > 0 && order[|order| - 1] == ref) || m[ref] == 0.0
    ensures RebasedAsWritten(m, order, ref) == RebasedStream(m, ref)
  {
    var r := RebasedAsWritten(m, order, ref);
    var p :| 0 <= p < |order| && order[p] == ref;
    RebasedAsWrittenSplit(m, order, ref, p);
    if m[ref] != 0.0 {
      assert p == |order| - 1 by { assert order[p] == order[|order| - 1]; }
      forall a | a in m ensures r[a] == m[a] - m[ref] {
        if a != ref {
          var k :| 0 <= k < |order| && order[k] == a;
          assert order[k] == order[..p][k];
        }
      }
    }
    assert r.Keys == RebasedStream(m, ref).Keys;
  }

  /** A distinct order stays distinct without its head, and the head does
      not reappear. */
  lemma DistinctTail(order: seq<string>)
    requires |order| > 0 && Distinct(order)
    ensures Distinct(order[1..]) && order[0] !in order[1..]
  {
    forall i | 0 <= i < |order[1..]| ensures order[1..][i] != order[0] {
      assert order[1..][i] == order[i + 1];
    }
  }

  /** The table rebased on ref by the loop as written, with the file's
      antenna order in every stream. */
  function RebasedInFileOrder(t: Table, ants: seq<string>, ref: string): (r: Table)
    requires Covers(t, ants) && ref in ants
    ensures Covers(r, ants)
    ensures forall s :: r.At(s) == RebasedAsWritten(t.At(s), ants, ref)
  {
    Table(RebasedAsWritten(t.At(IF0), ants, ref), RebasedAsWritten(t.At(IF1), ants, ref),
          RebasedAsWritten(t.At(IF2), ants, ref), RebasedAsWritten(t.At(IF3), ants, ref))
  }

  /** Both tables agree when the reference is the last antenna of the file. */
  lemma RebasedTablesAgree(t: Table, ants: seq<string>, ref: string)
    requires Covers(t, ants) && Distinct(ants) && |ants| > 0 && ants[|ants| - 1] == ref
    ensures RebasedInFileOrder(t, ants, ref) == Rebased(t, ants, ref)
  {
    forall s: Stream ensures RebasedInFileOrder(t, ants, ref).At(s) == Rebased(t, ants, ref).At(s) {
      RebaseVersionsAgree(t.At(s), ants, ref);
    }
    SameStreams(RebasedInFileOrder(t, ants, ref), Rebased(t, ants, ref));
  }

  /** Two tables with the same four streams are the same table. */
  lemma SameStreams(t: Table, u: Table)
    requires forall s :: t.At(s) == u.At(s)
    ensures t == u
  {
    assert t.At(IF0) == u.At(IF0) && t.At(IF1) == u.At(IF1) && t.At(IF2) == u.At(IF2) && t.At(IF3) == u.At(IF3);
  }

  // ---------------------------------------------------------------------
  // Residuals of one tuning (lines 79-96, 115-132)
  // ---------------------------------------------------------------------

  /** fixed_delays[s0][x] and fixed_delays[s1][x] moved by the two
      polarisations' residuals, added or subtracted; a missing antenna is
      a KeyError. */
  function Moved(t: Table, x: string, s0: Stream, s1: Stream, p0: real, p1: real, add: bool): (r: Result<Table, Outcome>)
    ensures r.Ok? ==> forall u :: u != s0 && u != s1 ==> r.value.At(u) == t.At(u)
    ensures r.Err? ==> r.error == Raised(KeyError)
  {
    if x !in t.At(s0) then Err(Raised(KeyError))
    else
      var t1 := t.With(s0, Shifted(t.At(s0), x, p0, add));
      if x !in t1.At(s1) then Err(Raised(KeyError))
      else Ok(t1.With(s1, Shifted(t1.At(s1), x, p1, add)))
  }

  /** m[x] += p, or m[x] -= p. */
  function Shifted(m: map<string, real>, x: string, p: real, add: bool): (r: map<string, real>)
    requires x in m
    ensures forall a :: a in r <==> a in m
  {
    m[x := if add then m[x] + p else m[x] - p]
  }

  /** The branches on the position of the reference among the baseline's
      pieces. */
  function ByPosition(t: Table, antInBaseline: seq<string>, p0: real, p1: real, s0: Stream, s1: Stream, ref: string)
    : (r: Result<Table, Outcome>)
    ensures r.Ok? ==> forall u :: u != s0 && u != s1 ==> r.value.At(u) == t.At(u)
    ensures r.Err? ==> r.error.Raised?
  {
    match IndexOf(antInBaseline, ref)
    case None => Err(Raised(ValueError))
    case Some(i) =>
      if i == 1 then Moved(t, antInBaseline[0], s0, s1, p0, p1, false)
      else if i == 0 then
        if |antInBaseline| < 2 then Err(Raised(IndexError))
        else Moved(t, antInBaseline[1], s0, s1, p0, p1, true)
      else Ok(t)
  }

  /** One row of the residual loop, applied to streams s0 and s1. */
  function ResidualStep(t: Table, row: Residual, s0: Stream, s1: Stream, ref: string): (r: Result<Table, Outcome>)
    ensures r.Ok? ==> forall u :: u != s0 && u != s1 ==> r.value.At(u) == t.At(u)
    ensures r.Err? ==> r.error.Raised?
  {
    if !Contains(row.baseline, ref) then Ok(t)
    else ByPosition(t, Split(row.baseline, '-'), row.pol0, row.pol1, s0, s1, ref)
  }

  /** Changing the delay of an antenna already in a stream keeps the
      table's antennas. */
  lemma CoversWith(t: Table, ants: seq<string>, s: Stream, m: map<string, real>)
    requires Covers(t, ants) && forall a :: a in m <==> a in t.At(s)
    ensures Covers(t.With(s, m), ants)
  {
    var u := t.With(s, m);
    forall w: Stream, a ensures a in u.At(w) <==> a in ants {
      if w != s {
        assert u.At(w) == t.At(w);
      }
    }
  }

  /** The rows of a residual file, in order; the first failure ends it. */
  function ApplyAll(t: Table, rows: seq<Residual>, s0: Stream, s1: Stream, ref: string): (r: Result<Table, Outcome>)
    ensures r.Err? ==> r.error.Raised?
    decreases |rows|
  {
    if |rows| == 0 then Ok(t)
    else
      match ResidualStep(t, rows[0], s0, s1, ref)
      case Err(e) => Err(e)
      case Ok(t1) => ApplyAll(t1, rows[1..], s0, s1, ref)
  }

  /** Baseline "x-ref" subtracts its residuals from x's delays; "ref-x"
      adds them; nothing else changes. */
  lemma ResidualSigns(t: Table, x: string, ref: string, p0: real, p1: real, s0: Stream, s1: Stream)
    requires s0 != s1 && x in t.At(s0) && x in t.At(s1)
    requires x != ref && '-' !in x && '-' !in ref
    ensures ResidualStep(t, Residual(x + "-" + ref, p0, p1), s0, s1, ref)
         == Ok(t.With(s0, t.At(s0)[x := t.At(s0)[x] - p0]).With(s1, t.At(s1)[x := t.At(s1)[x] - p1]))
    ensures ResidualStep(t, Residual(ref + "-" + x, p0, p1), s0, s1, ref)
         == Ok(t.With(s0, t.At(s0)[x := t.At(s0)[x] + p0]).With(s1, t.At(s1)[x := t.At(s1)[x] + p1]))
  {
    BaselineSubtracts(t, x, ref, p0, p1, s0, s1);
    BaselineAdds(t, x, ref, p0, p1, s0, s1);
    MovedValue(t, x, s0, s1, p0, p1, false);
    MovedValue(t, x, s0, s1, p0, p1, true);
  }

  /** The two orientations of a baseline with the reference reach Moved. */
  lemma BaselineSubtracts(t: Table, x: string, ref: string, p0: real, p1: real, s0: Stream, s1: Stream)
    requires x != ref && '-' !in x && '-' !in ref
    ensures ResidualStep(t, Residual(x + "-" + ref, p0, p1), s0, s1, ref) == Moved(t, x, s0, s1, p0, p1, false)
  {
    BaselineContainsBoth(x, ref);
    SplitBaseline(x, ref);
    StepSubtracts(t, Residual(x + "-" + ref, p0, p1), s0, s1, ref, x);
  }

  lemma BaselineAdds(t: Table, x: string, ref: string, p0: real, p1: real, s0: Stream, s1: Stream)
    requires x != ref && '-' !in x && '-' !in ref
    ensures ResidualStep(t, Residual(ref + "-" + x, p0, p1), s0, s1, ref) == Moved(t, x, s0, s1, p0, p1, true)
  {
    BaselineContainsBoth(ref, x);
    SplitBaseline(ref, x);
    StepAdds(t, Residual(ref + "-" + x, p0, p1), s0, s1, ref, x);
  }

  /** A row whose pieces are [x, ref] subtracts from x. */
  lemma StepSubtracts(t: Table, row: Residual, s0: Stream, s1: Stream, ref: string, x: string)
    requires Contains(row.baseline, ref) && Split(row.baseline, '-') == [x, ref] && x != ref
    ensures ResidualStep(t, row, s0, s1, ref) == Moved(t, x, s0, s1, row.pol0, row.pol1, false)
  {
    assert IndexOf([x, ref], ref) == Some(1);
  }

  /** A row whose pieces are [ref, x] adds to x. */
  lemma StepAdds(t: Table, row: Residual, s0: Stream, s1: Stream, ref: string, x: string)
    requires Contains(row.baseline, ref) && Split(row.baseline, '-') == [ref, x]
    ensures ResidualStep(t, row, s0, s1, ref) == Moved(t, x, s0, s1, row.pol0, row.pol1, true)
  {
    assert IndexOf([ref, x], ref) == Some(0);
  }

  /** Moving an antenna present in both streams. */
  lemma MovedValue(t: Table, x: string, s0: Stream, s1: Stream, p0: real, p1: real, add: bool)
    requires s0 != s1 && x in t.At(s0) && x in t.At(s1)
    ensures Moved(t, x, s0, s1, p0, p1, add)
         == Ok(t.With(s0, Shifted(t.At(s0), x, p0, add)).With(s1, Shifted(t.At(s1), x, p1, add)))
  {
    assert t.With(s0, Shifted(t.At(s0), x, p0, add)).At(s1) == t.At(s1);
  }

  /** A residual is attributed the same way from either orientation of its
      baseline when its sign flips with the orientation. */
  lemma ResidualOrientation(t: Table, x: string, ref: string, p0: real, p1: real, q0: real, q1: real,
                            s0: Stream, s1: Stream)
    requires x != ref && '-' !in x && '-' !in ref
    requires q0 == -p0 && q1 == -p1
    ensures ResidualStep(t, Residual(x + "-" + ref, p0, p1), s0, s1, ref)
         == ResidualStep(t, Residual(ref + "-" + x, q0, q1), s0, s1, ref)
  {
    SubtractsFlipped(t, x, ref, p0, p1, q0, q1, s0, s1);
    BaselineAdds(t, x, ref, q0, q1, s0, s1);
  }

  lemma SubtractsFlipped(t: Table, x: string, ref: string, p0: real, p1: real, q0: real, q1: real, s0: Stream, s1: Stream)
    requires x != ref && '-' !in x && '-' !in ref && q0 == -p0 && q1 == -p1
    ensures ResidualStep(t, Residual(x + "-" + ref, p0, p1), s0, s1, ref) == Moved(t, x, s0, s1, q0, q1, true)
  {
    BaselineSubtracts(t, x, ref, p0, p1, s0, s1);
    MovedFlip(t, x, s0, s1, p0, p1);
  }

  /** Subtracting a residual is adding its negation. */
  lemma MovedFlip(t: Table, x: string, s0: Stream, s1: Stream, p0: real, p1: real)
    ensures Moved(t, x, s0, s1, p0, p1, false) == Moved(t, x, s0, s1, -p0, -p1, true)
  {
    if x in t.At(s0) {
      assert Shifted(t.At(s0), x, p0, false) == Shifted(t.At(s0), x, -p0, true);
      var t1 := t.With(s0, Shifted(t.At(s0), x, p0, false));
      if x in t1.At(s1) {
        assert Shifted(t1.At(s1), x, p1, false) == Shifted(t1.At(s1), x, -p1, true);
      }
    }
  }

  /** A baseline that does not mention the reference changes nothing. */
  lemma UnrelatedBaseline(t: Table, row: Residual, s0: Stream, s1: Stream, ref: string)
    requires !Contains(row.baseline, ref)
    ensures ResidualStep(t, row, s0, s1, ref) == Ok(t)
  {
  }

  /** A reference that occurs in a baseline only inside another name is not
      one of its pieces, and list.index raises ValueError. */
  lemma SubstringOnly(t: Table)
    ensures ResidualStep(t, Residual("ea10-ea11", 1.0, 1.0), IF0, IF1, "ea1") == Err(Raised(ValueError))
  {
    var b := "ea10-ea11";
    assert b[0..0 + |"ea1"|] == "ea1";
    ContainsAt(b, "ea1", 0);
    assert '-' !in "ea10" && '-' !in "ea11";
    SplitBaseline("ea10", "ea11");
    assert "ea10" + "-" + "ea11" == b;
    NotAPiece(t, Residual(b, 1.0, 1.0), IF0, IF1, "ea1", "ea10", "ea11");
  }

  /** A reference inside the baseline but equal to neither piece. */
  lemma NotAPiece(t: Table, row: Residual, s0: Stream, s1: Stream, ref: string, x: string, y: string)
    requires Contains(row.baseline, ref) && Split(row.baseline, '-') == [x, y] && x != ref && y != ref
    ensures ResidualStep(t, row, s0, s1, ref) == Err(Raised(ValueError))
  {
    assert ref !in [x, y];
  }

  /** A baseline field that is just the reference has no second piece. */
  lemma LoneReference(t: Table)
    ensures ResidualStep(t, Residual("ea10", 1.0, 1.0), IF0, IF1, "ea10") == Err(Raised(IndexError))
  {
    var b := "ea10";
    assert b[..|b|] == b;
    assert '-' !in b;
    SplitWhole(b, '-');
    assert IndexOf([b], b) == Some(0);
  }

  /** A tuning only touches its own two streams. */
  lemma {:induction false} OtherStreamsUntouched(t: Table, rows: seq<Residual>, s0: Stream, s1: Stream, ref: string, s: Stream)
    requires s != s0 && s != s1
    requires ApplyAll(t, rows, s0, s1, ref).Ok?
    ensures ApplyAll(t, rows, s0, s1, ref).value.At(s) == t.At(s)
    decreases |rows|
  {
    if |rows| > 0 {
      var t1 := ResidualStep(t, rows[0], s0, s1, ref).value;
      OtherStreamsUntouched(t1, rows[1..], s0, s1, ref, s);
    }
  }

  // ---------------------------------------------------------------------
  // The whole update (lines 7-140)
  // ---------------------------------------------------------------------

  /** The reference antenna before the observed antennas are consulted. */
  function ResolveRefant(t: Table, ants: seq<string>, refant: string): Result<string, Outcome>
    requires Covers(t, ants)
  {
    if |refant| == 0 then ChooseRefantAsWritten(ZeroEntries(t, ants, Streams)) else Ok(refant)
  }

  /** Keeps an observed reference, or re-chooses one and rebases on it. */
  function Reselect(t: Table, ants: seq<string>, ref: string, observed: seq<string>, keys: seq<string>)
    : Result<(string, Table), Outcome>
    requires Covers(t, ants)
  {
    if |observed| != 0 && ref !in observed then
      if |keys| != 0 then
        var r := FirstObserved(keys, observed, ref);
        if r in ants then Ok((r, RebasedInFileOrder(t, ants, r)))
        else if |ants| == 0 then Ok((r, t))
        else Err(Raised(KeyError))
      else Err(Aborted(NoDisplacementMap))
    else Ok((ref, t))
  }

  /** The reference antenna and the table it leaves: chosen or given, then
      kept or re-chosen from the observed antennas. */
  function Reference(t: Table, ants: seq<string>, refant: string, observed: seq<string>, keys: seq<string>)
    : Result<(string, Table), Outcome>
    requires Covers(t, ants)
  {
    match ResolveRefant(t, ants, refant)
    case Err(e) => Err(e)
    case Ok(ref0) => Reselect(t, ants, ref0, observed, keys)
  }

  /** The residuals of tuning AC on IF0/IF1, then of tuning BD on IF2/IF3;
      with neither tuning named the function fails with NameError. */
  function Tunings(t: Table, ac: Option<seq<Residual>>, bd: Option<seq<Residual>>, ref: string): Result<Table, Outcome>
  {
    var afterAc := if ac.Some? then ApplyAll(t, ac.value, IF0, IF1, ref) else Ok(t);
    if afterAc.Err? then afterAc
    else
      var afterBd := if bd.Some? then ApplyAll(afterAc.value, bd.value, IF2, IF3, ref) else afterAc;
      if afterBd.Err? then afterBd
      else if ac.None? && bd.None? then Err(Raised(NameError))
      else afterBd
  }

  /** What the function does with a parsed table: the final reference and
      table, or how it stops. */
  function Update(t: Table, ants: seq<string>, ac: Option<seq<Residual>>, bd: Option<seq<Residual>>,
                  observed: seq<string>, keys: seq<string>, refant: string): Result<(string, Table), Outcome>
    requires Covers(t, ants)
  {
    match Reference(t, ants, refant, observed, keys)
    case Err(e) => Err(e)
    case Ok((ref, t1)) =>
      match Tunings(t1, ac, bd, ref)
      case Err(e) => Err(e)
      case Ok(u) => Ok((ref, u))
  }

  /** Tuning AC never changes IF2 and IF3, and tuning BD never changes IF0
      and IF1. */
  lemma TuningsKeepToTheirStreams(t: Table, ants: seq<string>, ac: Option<seq<Residual>>, bd: Option<seq<Residual>>,
                                  observed: seq<string>, keys: seq<string>, refant: string)
    requires Covers(t, ants)
    requires Update(t, ants, ac, bd, observed, keys, refant).Ok?
    ensures var (ref, u) := Update(t, ants, ac, bd, observed, keys, refant).value;
      var t1 := Reference(t, ants, refant, observed, keys).value.1;
      && (bd.None? ==> u.At(IF2) == t1.At(IF2) && u.At(IF3) == t1.At(IF3))
      && (ac.None? ==> u.At(IF0) == t1.At(IF0) && u.At(IF1) == t1.At(IF1))
  {
    var (ref, t1) := Reference(t, ants, refant, observed, keys).value;
    if ac.Some? {
      OtherStreamsUntouched(t1, ac.value, IF0, IF1, ref, IF2);
      OtherStreamsUntouched(t1, ac.value, IF0, IF1, ref, IF3);
    }
    if bd.Some? {
      var t2 := if ac.Some? then ApplyAll(t1, ac.value, IF0, IF1, ref).value else t1;
      OtherStreamsUntouched(t2, bd.value, IF2, IF3, ref, IF0);
      OtherStreamsUntouched(t2, bd.value, IF2, IF3, ref, IF1);
    }
  }

  /** The fixed-delay table of the file: its antennas in file order and the
      delays of every stream. */
  class FixedDelays {
    const ants: seq<string>
    var delay: Table

    ghost predicate Valid()
      reads this
    {
      Distinct(ants) && Covers(delay, ants)
    }

    constructor (ants: seq<string>, delay: Table)
      requires Distinct(ants) && Covers(delay, ants)
      ensures Valid() && this.ants == ants && this.delay == delay
    {
      this.ants := ants;
      this.delay := delay;
    }

    /** The candidates loop: every antenna with a zero entry, stream by
        stream, in file order. */
    method ZeroCandidates() returns (cands: seq<string>)
      requires Valid()
      ensures cands == ZeroEntries(delay, ants, Streams)
    {
      cands := [];
      var i := 0;
      while i < |Streams|
        invariant 0 <= i <= |Streams|
        invariant cands == ZeroEntries(delay, ants, Streams[..i])
      {
        var stream := Streams[i];
        assert forall a :: a in ants ==> a in delay.At(stream);
        var j := 0;
        while j < |ants|
          invariant 0 <= j <= |ants|
          invariant cands == ZeroEntries(delay, ants, Streams[..i]) + StreamZeros(delay.At(stream), ants[..j])
        {
          assert ants[..j + 1][..j] == ants[..j];
          if delay.At(stream)[ants[j]] == 0.0 {
            cands := cands + [ants[j]];
          }
          j := j + 1;
        }
        assert ants[..j] == ants;
        assert Streams[..i + 1][..i] == Streams[..i];
        i := i + 1;
      }
      assert Streams[..i] == Streams;
    }

    /** The rebase on ref, stream by stream and entry by entry in file
        order, each entry minus the reference's current value. A missing
        reference fails on the first entry, so only a non-empty table
        raises KeyError. */
    method Rebase(ref: string) returns (ok: bool)
      requires Valid()
      modifies this
      ensures Valid()
      ensures ok <==> ref in ants || |ants| == 0
      ensures ok && ref in ants ==> delay == RebasedInFileOrder(old(delay), ants, ref)
      ensures ok && ref !in ants ==> delay == old(delay)
    {
      if ref !in ants {
        return |ants| == 0;
      }
      ghost var t0 := delay;
      var i := 0;
      while i < |Streams|
        invariant 0 <= i <= |Streams|
        invariant Covers(delay, ants)
        invariant forall k :: 0 <= k < i ==> delay.At(Streams[k]) == RebasedAsWritten(t0.At(Streams[k]), ants, ref)
        invariant forall k :: i <= k < |Streams| ==> delay.At(Streams[k]) == t0.At(Streams[k])
      {
        RebaseStream(Streams[i], ref);
        i := i + 1;
      }
      forall s: Stream ensures delay.At(s) == RebasedInFileOrder(t0, ants, ref).At(s) {
        match s
        case IF0 => assert Streams[0] == s;
        case IF1 => assert Streams[1] == s;
        case IF2 => assert Streams[2] == s;
        case IF3 => assert Streams[3] == s;
      }
      SameStreams(delay, RebasedInFileOrder(t0, ants, ref));
      ok := true;
    }

    /** One stream of the rebase: in file order, each entry minus the
        reference's entry as it stands at that moment. */
    method RebaseStream(stream: Stream, ref: string)
      requires Valid() && ref in ants
      modifies this
      ensures Valid()
      ensures delay == old(delay).With(stream, RebasedAsWritten(old(delay).At(stream), ants, ref))
    {
      ghost var t0 := delay;
      var j := 0;
      while j < |ants|
        invariant 0 <= j <= |ants|
        invariant Valid()
        invariant forall u :: u != stream ==> delay.At(u) == t0.At(u)
        invariant forall a :: a in ants[j..] ==> a in delay.At(stream)
        invariant RebasedAsWritten(t0.At(stream), ants, ref) == RebasedAsWritten(delay.At(stream), ants[j..], ref)
      {
        var a := ants[j];
        var m := delay.At(stream);
        assert ants[j..][1..] == ants[j + 1..];
        CoversWith(delay, ants, stream, m[a := m[a] - m[ref]]);
        delay := delay.With(stream, m[a := m[a] - m[ref]]);
        j := j + 1;
      }
      SameStreams(delay, t0.With(stream, RebasedAsWritten(t0.At(stream), ants, ref)));
    }

    /** The reference: the given one, or the unique zero antenna; then, if
        it was not observed, the first observed key of the displacement map,
        on which the table is rebased. */
    method SettleReference(refant: string, observed: seq<string>, keys: seq<string>) returns (r: Result<string, Outcome>)
      requires Valid()
      modifies this
      ensures Valid()
      ensures Reference(old(delay), ants, refant, observed, keys)
           == if r.Ok? then Ok((r.value, delay)) else Err(r.error)
    {
      ghost var t0 := delay;
      var ref := refant;
      if |refant| == 0 {
        var cands := ZeroCandidates();
        var choice := ChooseRefantAsWritten(cands);
        if choice.Err? {
          return Err(choice.error);
        }
        ref := choice.value;
      }
      assert ResolveRefant(t0, ants, refant) == Ok(ref);
      if |observed| != 0 && ref !in observed {
        if |keys| != 0 {
          ref := FirstObservedKey(keys, observed, ref);
          var ok := Rebase(ref);
          if !ok {
            return Err(Raised(KeyError));
          }
        } else {
          return Err(Aborted(NoDisplacementMap));
        }
      }
      r := Ok(ref);
    }

    /** The two residual files in turn; a tuning whose file is not named is
        skipped, and naming neither is a NameError. */
    method ApplyTunings(ac: Option<seq<Residual>>, bd: Option<seq<Residual>>, ref: string) returns (err: Option<Outcome>)
      requires Valid()
      modifies this
      ensures Valid()
      ensures Tunings(old(delay), ac, bd, ref) == if err.None? then Ok(delay) else Err(err.value)
    {
      var named := false;
      if ac.Some? {
        err := ApplyResiduals(ac.value, IF0, IF1, ref);
        if err.Some? {
          return;
        }
        named := true;
      }
      if bd.Some? {
        err := ApplyResiduals(bd.value, IF2, IF3, ref);
        if err.Some? {
          return;
        }
        named := true;
      }
      if !named {
        return Some(Raised(NameError));
      }
      err := None;
    }

    /** The residual loop of one tuning over streams s0 and s1. */
    method ApplyResiduals(rows: seq<Residual>, s0: Stream, s1: Stream, ref: string) returns (err: Option<Outcome>)
      requires Valid()
      modifies this
      ensures Valid()
      ensures ApplyAll(old(delay), rows, s0, s1, ref) == if err.None? then Ok(delay) else Err(err.value)
    {
      ghost var t0 := delay;
      var k := 0;
      while k < |rows|
        invariant 0 <= k <= |rows|
        invariant Valid()
        invariant ApplyAll(t0, rows, s0, s1, ref) == ApplyAll(delay, rows[k..], s0, s1, ref)
      {
        assert rows[k..][1..] == rows[k + 1..];
        var e := ApplyRow(rows[k], s0, s1, ref);
        if e.Some? {
          return e;
        }
        k := k + 1;
      }
      err := None;
    }

    /** One row of the residual loop: a baseline naming the reference
        moves the other antenna's delays in s0 and s1. */
    method ApplyRow(row: Residual, s0: Stream, s1: Stream, ref: string) returns (err: Option<Outcome>)
      requires Valid()
      modifies this
      ensures Valid()
      ensures ResidualStep(old(delay), row, s0, s1, ref) == if err.None? then Ok(delay) else Err(err.value)
    {
      err := None;
      if Contains(row.baseline, ref) {
        var antInBaseline := Split(row.baseline, '-');
        ghost var t0 := delay;
        assert ResidualStep(t0, row, s0, s1, ref) == ByPosition(t0, antInBaseline, row.pol0, row.pol1, s0, s1, ref);
        var idx := IndexOf(antInBaseline, ref);
        if idx.None? {
          return Some(Raised(ValueError));
        }
        if idx.value == 1 {
          var x := antInBaseline[0];
          assert ByPosition(t0, antInBaseline, row.pol0, row.pol1, s0, s1, ref) == Moved(t0, x, s0, s1, row.pol0, row.pol1, false);
          err := MoveDelays(x, s0, s1, row.pol0, row.pol1, false);
        } else if idx.value == 0 {
          if |antInBaseline| < 2 {
            return Some(Raised(IndexError));
          }
          var x := antInBaseline[1];
          assert ByPosition(t0, antInBaseline, row.pol0, row.pol1, s0, s1, ref) == Moved(t0, x, s0, s1, row.pol0, row.pol1, true);
          err := MoveDelays(x, s0, s1, row.pol0, row.pol1, true);
        }
      }
    }

    /** fixed_delays[s0][x] and fixed_delays[s1][x] plus (add) or minus
        the residuals, each lookup a KeyError when x is missing. */
    method MoveDelays(x: string, s0: Stream, s1: Stream, p0: real, p1: real, add: bool) returns (err: Option<Outcome>)
      requires Valid()
      modifies this
      ensures Valid()
      ensures Moved(old(delay), x, s0, s1, p0, p1, add) == if err.None? then Ok(delay) else Err(err.value)
    {
      if x !in delay.At(s0) {
        return Some(Raised(KeyError));
      }
      CoversWith(delay, ants, s0, Shifted(delay.At(s0), x, p0, add));
      delay := delay.With(s0, Shifted(delay.At(s0), x, p0, add));
      if x !in delay.At(s1) {
        return Some(Raised(KeyError));
      }
      CoversWith(delay, ants, s1, Shifted(delay.At(s1), x, p1, add));
      delay := delay.With(s1, Shifted(delay.At(s1), x, p1, add));
      err := None;
    }
  }

  /** antfxdelay_from_baselinefxdelay on a parsed fixed-delay table (null
      when the file cannot be parsed), the parsed residual files of the
      tunings given (None when a tuning's file name is empty), the observed
      antennas, the keys of the displacement map in order and the given
      reference ("" when none). */
  method AntFxDelayFromBaselineFxDelay(fd: FixedDelays?, ac: Option<seq<Residual>>, bd: Option<seq<Residual>>,
                                       observed: seq<string>, keys: seq<string>, refant: string)
    returns (outcome: Outcome)
    requires fd != null ==> fd.Valid()
    modifies fd
    ensures fd == null ==> outcome == Aborted(Unparsable)
    ensures fd != null ==> fd.Valid()
    ensures fd != null ==>
      match Update(old(fd.delay), fd.ants, ac, bd, observed, keys, refant)
      case Ok((ref, u)) => outcome == Saved(ref) && fd.delay == u
      case Err(e) => outcome == e
  {
    if fd == null {
      return Aborted(Unparsable);
    }
    var r := fd.SettleReference(refant, observed, keys);
    if r.Err? {
      return r.error;
    }
    var e := fd.ApplyTunings(ac, bd, r.value);
    if e.Some? {
      return e.value;
    }
    outcome := Saved(r.value);
  }
}
