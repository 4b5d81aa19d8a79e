/** The gap interpolation of server/repairDatabase.js (`repairHistory`): the
    history is sorted, and every gap of more than one and a half ticks between
    neighbours is filled with points one tick apart on the straight line
    between them, rounded to whole numbers. */
module HistoryRepair {
  import opened Models
  import opened Chronology

  /** `TICK_RATE * 1.5`: gaps up to this are left alone. */
  const GAP_THRESHOLD: int := 900000

  /** `Math.floor(diffMs / TICK_RATE)`. */
  function MissingPoints(a: Sample, b: Sample): int { (b.date - a.date) / TICK_RATE }

  /** `currentPoint.val + stepValue * j`, before rounding. */
  function LineValue(a: Sample, b: Sample, missing: int, j: int): real
    requires missing > 0
  {
    a.val + ((b.val - a.val) / missing as real) * j as real
  }

  /** The `j`-th point between `a` and `b` when the gap spans `missing` ticks. */
  function Interpolated(a: Sample, b: Sample, missing: int, j: int): Sample
    requires missing > 0
  {
    Sample(JsRound(LineValue(a, b, missing, j)) as real, a.date + j * TICK_RATE)
  }

  /** The points the inner loop pushes between `a` and `b`. */
  function GapPoints(a: Sample, b: Sample): (g: seq<Sample>)
    ensures |g| == if b.date - a.date > GAP_THRESHOLD then MissingPoints(a, b) - 1 else 0
  {
    if b.date - a.date > GAP_THRESHOLD then
      var m := MissingPoints(a, b);
      seq(m - 1, k requires 0 <= k < m - 1 => Interpolated(a, b, m, k + 1))
    else []
  }

  /** `newHistory` after the outer loop has handled the first `n` entries. */
  function Spliced(h: seq<Sample>, n: nat): seq<Sample>
    requires n < |h|
  {
    if n == 0 then [] else Spliced(h, n - 1) + [h[n - 1]] + GapPoints(h[n - 1], h[n])
  }

  /** `pointsAdded` after the first `n` entries. */
  function Added(h: seq<Sample>, n: nat): nat
    requires n < |h|
  {
    if n == 0 then 0 else Added(h, n - 1) + |GapPoints(h[n - 1], h[n])|
  }

  /** The full `newHistory`: every gap filled, the last entry appended. */
  function Repaired(h: seq<Sample>): seq<Sample>
    requires |h| >= 2
  {
    Spliced(h, |h| - 1) + [h[|h| - 1]]
  }

  /** The history after `repairHistory` has visited the tree: short histories
      are left alone, the rest are sorted and replaced by the repaired one
      only when at least one point was added. */
  function RepairedHistory(h: seq<Sample>): seq<Sample> {
    if |h| < 2 then h
    else
      var s := SortByDate(h);
      if Added(s, |s| - 1) > 0 then Repaired(s) else s
  }

  /** A tree's record after `repairHistory`: only the history changes. */
  function RepairedState(s: TreeState): TreeState {
    s.(history := RepairedHistory(s.history))
  }

  /** Where the `i`-th original entry lands in the output. */
  function Pos(h: seq<Sample>, i: nat): nat
    requires i < |h|
  {
    |Spliced(h, i)|
  }

  lemma {:induction false} SplicedLength(h: seq<Sample>, n: nat)
    requires n < |h|
    ensures |Spliced(h, n)| == n + Added(h, n)
  {
    if n > 0 {
      SplicedLength(h, n - 1);
    }
  }

  /** The output is the input plus `pointsAdded` new points. */
  lemma RepairedLength(h: seq<Sample>)
    requires |h| >= 2
    ensures |Repaired(h)| == |h| + Added(h, |h| - 1)
  {
    SplicedLength(h, |h| - 1);
  }

  lemma {:induction false} SplicedPrefix(h: seq<Sample>, m: nat, n: nat)
    requires m <= n < |h|
    ensures Spliced(h, m) + [h[m]] <= Spliced(h, n) + [h[n]]
    ensures |Spliced(h, m) + [h[m]]| <= |Spliced(h, n)| + 1
  {
    if m < n {
      SplicedPrefix(h, m, n - 1);
      assert Spliced(h, n) == Spliced(h, n - 1) + [h[n - 1]] + GapPoints(h[n - 1], h[n]);
    }
  }

  lemma OriginalAt(h: seq<Sample>, i: nat)
    requires 2 <= |h| && i < |h|
    ensures Pos(h, i) < |Repaired(h)| && Repaired(h)[Pos(h, i)] == h[i]
  {
    SplicedPrefix(h, i, |h| - 1);
    var p := Spliced(h, i) + [h[i]];
    assert p[Pos(h, i)] == h[i];
    assert Repaired(h)[..|p|] == p;
  }

  lemma PosIncreasing(h: seq<Sample>, i: nat, j: nat)
    requires i < j < |h|
    ensures Pos(h, i) < Pos(h, j)
  {
    SplicedPrefix(h, i, j - 1);
    assert |Spliced(h, j)| == |Spliced(h, j - 1)| + 1 + |GapPoints(h[j - 1], h[j])|;
  }

  /** Every original entry appears in the output, in its order, with the
      first at the front and the last at the end. */
  lemma OriginalsKept(h: seq<Sample>)
    requires |h| >= 2
    ensures forall i :: 0 <= i < |h| ==> Pos(h, i) < |Repaired(h)| && Repaired(h)[Pos(h, i)] == h[i]
    ensures forall i, j :: 0 <= i < j < |h| ==> Pos(h, i) < Pos(h, j)
    ensures Pos(h, 0) == 0 && Pos(h, |h| - 1) == |Repaired(h)| - 1
  {
    forall i | 0 <= i < |h|
      ensures Pos(h, i) < |Repaired(h)| && Repaired(h)[Pos(h, i)] == h[i]
    {
      OriginalAt(h, i);
    }
    forall i, j | 0 <= i < j < |h|
      ensures Pos(h, i) < Pos(h, j)
    {
      PosIncreasing(h, i, j);
    }
  }

  /** A gap of at most one and a half ticks gets nothing; a longer one gets
      `floor(diff / TICK_RATE) - 1` points, one tick apart from the earlier
      neighbour on, all strictly between the two neighbours. */
  lemma GapPointsDates(a: Sample, b: Sample)
    ensures b.date - a.date <= GAP_THRESHOLD ==> GapPoints(a, b) == []
    ensures var g := GapPoints(a, b);
      forall k :: 0 <= k < |g| ==> g[k].date == a.date + (k + 1) * TICK_RATE && a.date < g[k].date < b.date
  {
    var g := GapPoints(a, b);
    forall k | 0 <= k < |g|
      ensures g[k].date == a.date + (k + 1) * TICK_RATE && a.date < g[k].date < b.date
    {
      var m := MissingPoints(a, b);
      assert m * TICK_RATE <= b.date - a.date;
      assert (k + 1) * TICK_RATE < m * TICK_RATE;
    }
  }

  lemma JsRoundMonotone(x: real, y: real)
    requires x <= y
    ensures JsRound(x) <= JsRound(y)
  {
    assert (x + 0.5).Floor <= (y + 0.5).Floor;
  }

  lemma JsRoundWhole(n: int)
    ensures JsRound(n as real) == n
  {
  }

  lemma StepBetween(a: Sample, b: Sample, m: int, j: int)
    requires 0 < j < m
    ensures var x := LineValue(a, b, m, j); var lo := a.val; var d := b.val - a.val;
      (d >= 0.0 ==> lo <= x <= lo + d) && (d <= 0.0 ==> lo + d <= x <= lo)
  {
    var d := b.val - a.val;
    var q := d / m as real;
    assert q * m as real == d;
    if d >= 0.0 {
      assert q >= 0.0;
      assert q * j as real <= q * m as real;
    } else {
      assert q <= 0.0;
      assert q * j as real >= q * m as real;
    }
  }

  lemma GapPointValue(a: Sample, b: Sample, k: nat)
    requires a.val == a.val.Floor as real && b.val == b.val.Floor as real
    requires k < |GapPoints(a, b)|
    ensures var v := GapPoints(a, b)[k].val;
      (a.val <= b.val ==> a.val <= v <= b.val) && (b.val <= a.val ==> b.val <= v <= a.val)
  {
    var m := MissingPoints(a, b);
    var x := LineValue(a, b, m, k + 1);
    assert GapPoints(a, b)[k] == Interpolated(a, b, m, k + 1);
    StepBetween(a, b, m, k + 1);
    JsRoundWhole(a.val.Floor);
    JsRoundWhole(b.val.Floor);
    if a.val <= b.val {
      JsRoundMonotone(a.val, x);
      JsRoundMonotone(x, b.val);
    } else {
      JsRoundMonotone(b.val, x);
      JsRoundMonotone(x, a.val);
    }
  }

  /** Each inserted value is the rounded point on the line between the
      neighbours; when both neighbours hold whole numbers it lies between them. */
  lemma GapPointsValues(a: Sample, b: Sample)
    requires a.val == a.val.Floor as real && b.val == b.val.Floor as real
    ensures var g := GapPoints(a, b);
      forall k :: 0 <= k < |g| ==>
        (a.val <= b.val ==> a.val <= g[k].val <= b.val) && (b.val <= a.val ==> b.val <= g[k].val <= a.val)
  {
    forall k | 0 <= k < |GapPoints(a, b)|
      ensures var v := GapPoints(a, b)[k].val;
        (a.val <= b.val ==> a.val <= v <= b.val) && (b.val <= a.val ==> b.val <= v <= a.val)
    {
      GapPointValue(a, b, k);
    }
  }

  lemma GapSorted(a: Sample, b: Sample)
    ensures SortedByDate([a] + GapPoints(a, b) + [b]) || b.date < a.date
  {
    GapPointsDates(a, b);
    var s := [a] + GapPoints(a, b) + [b];
    if b.date >= a.date {
      forall i, j | 0 <= i < j < |s|
        ensures s[i].date <= s[j].date
      {
      }
    }
  }

  lemma SortedJoin(s: seq<Sample>, t: seq<Sample>)
    requires SortedByDate(s) && SortedByDate(t) && s != [] && t != []
    requires s[|s| - 1] == t[0]
    ensures SortedByDate(s + t[1..])
  {
    var r := s + t[1..];
    forall i, j | 0 <= i < j < |r|
      ensures r[i].date <= r[j].date
    {
      if i < |s| && j >= |s| {
        assert s[i].date <= s[|s| - 1].date;
        assert r[j] == t[j - |s| + 1];
      }
    }
  }

  lemma {:induction false} SplicedSorted(h: seq<Sample>, n: nat)
    requires n < |h| && SortedByDate(h)
    ensures SortedByDate(Spliced(h, n) + [h[n]])
  {
    if n > 0 {
      SplicedSorted(h, n - 1);
      GapSorted(h[n - 1], h[n]);
      var s := Spliced(h, n - 1) + [h[n - 1]];
      var t := [h[n - 1]] + GapPoints(h[n - 1], h[n]) + [h[n]];
      SortedJoin(s, t);
      assert s + t[1..] == Spliced(h, n) + [h[n]];
    }
  }

  /** Over a sorted history the output is in ascending date order. */
  lemma RepairedSorted(h: seq<Sample>)
    requires |h| >= 2 && SortedByDate(h)
    ensures SortedByDate(Repaired(h))
  {
    SplicedSorted(h, |h| - 1);
  }

  /** What `repairHistory` leaves in a tree's history: short histories are
      untouched; otherwise the result is sorted and longer by exactly the
      added points. */
  lemma RepairedHistorySpec(h: seq<Sample>)
    ensures |h| < 2 ==> RepairedHistory(h) == h
    ensures |h| >= 2 ==> SortedByDate(RepairedHistory(h))
    ensures |h| >= 2 ==> |RepairedHistory(h)| == |h| + Added(SortByDate(h), |h| - 1)
  {
    if |h| >= 2 {
      var s := SortByDate(h);
      if Added(s, |s| - 1) > 0 {
        assert RepairedHistory(h) == Repaired(s);
        RepairedLength(s);
        RepairedSorted(s);
      } else {
        assert RepairedHistory(h) == s;
      }
    }
  }

  /** No original entry is lost. */
  lemma RepairedKeepsEntries(h: seq<Sample>)
    ensures forall x :: x in h ==> x in RepairedHistory(h)
  {
    if |h| >= 2 {
      var s := SortByDate(h);
      var out := RepairedHistory(h);
      forall x | x in h
        ensures x in out
      {
        assert x in multiset(s);
        var i :| 0 <= i < |s| && s[i] == x;
        if Added(s, |s| - 1) > 0 {
          assert out == Repaired(s);
          OriginalAt(s, i);
        } else {
          assert out == s;
        }
      }
    }
  }

  /** The inner loop of `repairHistory`: pushes the points of one gap. */
  method AppendGap(prefix: seq<Sample>, currentPoint: Sample, nextPoint: Sample, missingPoints: int)
      returns (newHistory: seq<Sample>, added: nat)
    requires nextPoint.date - currentPoint.date > GAP_THRESHOLD
    requires missingPoints == MissingPoints(currentPoint, nextPoint)
    ensures newHistory == prefix + GapPoints(currentPoint, nextPoint)
    ensures added == |GapPoints(currentPoint, nextPoint)|
  {
    var stepValue := (nextPoint.val - currentPoint.val) / missingPoints as real;
    ghost var g := GapPoints(currentPoint, nextPoint);
    newHistory := prefix;
    added := 0;
    var j := 1;
    while j < missingPoints
      invariant 1 <= j <= missingPoints
      invariant newHistory == prefix + g[..j - 1]
      invariant added == j - 1
    {
      var interpolatedDate := currentPoint.date + j * TICK_RATE;
      var interpolatedVal := currentPoint.val + stepValue * j as real;
      assert interpolatedVal == LineValue(currentPoint, nextPoint, missingPoints, j);
      newHistory := newHistory + [Sample(JsRound(interpolatedVal) as real, interpolatedDate)];
      assert g[..j] == g[..j - 1] + [g[j - 1]];
      added := added + 1;
      j := j + 1;
    }
    assert g[..j - 1] == g;
  }

  /** The nested loops of `repairHistory` over a sorted history. */
  method BuildRepaired(h: seq<Sample>) returns (newHistory: seq<Sample>, pointsAdded: nat)
    requires |h| >= 2
    ensures newHistory == Repaired(h)
    ensures pointsAdded == Added(h, |h| - 1)
  {
    newHistory := [];
    pointsAdded := 0;
    var i := 0;
    while i < |h| - 1
      invariant 0 <= i <= |h| - 1
      invariant newHistory == Spliced(h, i)
      invariant pointsAdded == Added(h, i)
    {
      var currentPoint := h[i];
      var nextPoint := h[i + 1];
      newHistory := newHistory + [currentPoint];
      var diffMs := nextPoint.date - currentPoint.date;
      if diffMs > GAP_THRESHOLD {
        var missingPoints := diffMs / TICK_RATE;
        var gap;
        newHistory, gap := AppendGap(newHistory, currentPoint, nextPoint, missingPoints);
        pointsAdded := pointsAdded + gap;
      }
      i := i + 1;
    }
    newHistory := newHistory + [h[|h| - 1]];
  }

  /** The body of the `repairHistory` loop for one tree. The result is
      `pointsAdded`; the tree is written back only when it is positive. */
  method RepairTree(tree: Tree) returns (pointsAdded: nat)
    modifies tree
    ensures tree.State() == RepairedState(old(tree.State()))
    ensures |old(tree.history)| < 2 ==> pointsAdded == 0
    ensures |old(tree.history)| >= 2 ==> pointsAdded == Added(SortByDate(old(tree.history)), |old(tree.history)| - 1)
  {
    if |tree.history| < 2 {
      return 0;
    }
    tree.history := SortByDate(tree.history);
    var newHistory;
    newHistory, pointsAdded := BuildRepaired(tree.history);
    if pointsAdded > 0 {
      tree.history := newHistory;
    }
  }

  /** `repairHistory` over the whole collection. */
  method RepairHistory(trees: seq<Tree>)
    requires forall i, j :: 0 <= i < j < |trees| ==> trees[i] != trees[j]
    modifies trees
    ensures forall t :: t in trees ==> t.State() == RepairedState(old(t.State()))
  {
    var i := 0;
    while i < |trees|
      invariant 0 <= i <= |trees|
      invariant forall j :: 0 <= j < i ==> trees[j].State() == RepairedState(old(trees[j].State()))
      invariant forall j :: i <= j < |trees| ==> trees[j].State() == old(trees[j].State())
    {
      label before:
      var _ := RepairTree(trees[i]);
      forall j | 0 <= j < |trees| && j != i
        ensures trees[j].State() == old@before(trees[j].State())
      {
        assert trees[j] != trees[i];
      }
      i := i + 1;
    }
  }
}
