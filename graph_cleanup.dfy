/** The same-minute de-duplication of server/cleanupGraph.js
    (`cleanupHistory`): the history is sorted, every entry is written into a
    map under its minute key, so that the last entry of each minute wins, and
    the map's values, in the order their keys were first inserted, become the
    new history when that is shorter. */
module GraphCleanup {
  import opened Wrappers
  import opened Models
  import opened Chronology

  /** The `Map` of the loop: entries by minute key, and the keys in the order
      they were first inserted. */
  datatype Buckets = Buckets(entries: map<int, Sample>, order: seq<int>)

  /** `uniqueHistoryMap.set(key, entry)`. */
  function Put(b: Buckets, e: Sample): Buckets {
    var k := MinuteOf(e.date);
    Buckets(b.entries[k := e], if k in b.entries then b.order else b.order + [k])
  }

  /** The map after the `forEach` over `h`. */
  function Collect(h: seq<Sample>): Buckets {
    if h == [] then Buckets(map[], []) else Put(Collect(h[..|h| - 1]), h[|h| - 1])
  }

  ghost predicate WellFormed(b: Buckets) {
    && (forall i :: 0 <= i < |b.order| ==> b.order[i] in b.entries)
    && (forall k :: k in b.entries ==> k in b.order)
    && (forall i, j :: 0 <= i < j < |b.order| ==> b.order[i] != b.order[j])
  }

  /** `Array.from(uniqueHistoryMap.values())`. */
  function Values(b: Buckets): (r: seq<Sample>)
    requires forall i :: 0 <= i < |b.order| ==> b.order[i] in b.entries
    ensures |r| == |b.order|
    ensures forall i :: 0 <= i < |r| ==> r[i] == b.entries[b.order[i]]
    decreases |b.order|
  {
    if b.order == [] then []
    else Values(Buckets(b.entries, b.order[..|b.order| - 1])) + [b.entries[b.order[|b.order| - 1]]]
  }

  /** The minute keys a history touches. */
  ghost function Minutes(h: seq<Sample>): set<int> {
    set i | 0 <= i < |h| :: MinuteOf(h[i].date)
  }

  ghost predicate MinutesDistinct(h: seq<Sample>) {
    forall i, j :: 0 <= i < j < |h| ==> MinuteOf(h[i].date) != MinuteOf(h[j].date)
  }

  /** The last entry of `h` in minute `k`, if any. */
  function LastOf(h: seq<Sample>, k: int): Option<Sample> {
    if h == [] then None
    else if MinuteOf(h[|h| - 1].date) == k then Some(h[|h| - 1])
    else LastOf(h[..|h| - 1], k)
  }

  /** No entry after the one at `i` falls in its minute. */
  ghost predicate IsLastOfMinute(h: seq<Sample>, i: int)
    requires 0 <= i < |h|
  {
    forall j :: i < j < |h| ==> MinuteOf(h[j].date) != MinuteOf(h[i].date)
  }

  /** `LastOf` finds the entry of minute `k` that no later entry of `h` shares
      that minute with, and finds none exactly when no entry is in `k`. */
  lemma {:induction false} LastOfSpec(h: seq<Sample>, k: int)
    ensures LastOf(h, k).None? <==> k !in Minutes(h)
    ensures LastOf(h, k).Some? ==> MinuteOf(LastOf(h, k).value.date) == k
    ensures LastOf(h, k).Some? ==>
      (exists i :: 0 <= i < |h| && h[i] == LastOf(h, k).value && IsLastOfMinute(h, i))
  {
    if h != [] {
      var p := h[..|h| - 1];
      LastOfSpec(p, k);
      MinutesSnoc(h);
      if MinuteOf(h[|h| - 1].date) != k && LastOf(p, k).Some? {
        var i :| 0 <= i < |p| && p[i] == LastOf(p, k).value && IsLastOfMinute(p, i);
        assert h[i] == p[i];
        assert IsLastOfMinute(h, i);
      }
    }
  }

  lemma MinutesSnoc(h: seq<Sample>)
    requires h != []
    ensures Minutes(h) == Minutes(h[..|h| - 1]) + {MinuteOf(h[|h| - 1].date)}
  {
    var p := h[..|h| - 1];
    forall m | m in Minutes(h)
      ensures m in Minutes(p) + {MinuteOf(h[|h| - 1].date)}
    {
      var i :| 0 <= i < |h| && MinuteOf(h[i].date) == m;
      if i < |p| {
        assert p[i] == h[i];
      }
    }
    forall m | m in Minutes(p)
      ensures m in Minutes(h)
    {
      var i :| 0 <= i < |p| && MinuteOf(p[i].date) == m;
      assert h[i] == p[i];
    }
  }

  /** The map's keys are the minutes of the history, each inserted once, and
      each holds the last entry of its minute. */
  lemma {:induction false} CollectSpec(h: seq<Sample>)
    ensures WellFormed(Collect(h))
    ensures Collect(h).entries.Keys == Minutes(h)
    ensures forall k :: k in Collect(h).entries ==> LastOf(h, k) == Some(Collect(h).entries[k])
  {
    if h != [] {
      var p := h[..|h| - 1];
      CollectSpec(p);
      MinutesSnoc(h);
    }
  }

  /** One key per step at most, and one per step exactly when no two entries
      share a minute. */
  lemma {:induction false} CollectCount(h: seq<Sample>)
    ensures |Collect(h).order| <= |h|
    ensures |Collect(h).order| == |h| <==> MinutesDistinct(h)
  {
    if h != [] {
      var p := h[..|h| - 1];
      var e := h[|h| - 1];
      CollectCount(p);
      CollectSpec(p);
      MinutesSnoc(h);
      if MinuteOf(e.date) in Collect(p).entries {
        var i :| 0 <= i < |p| && MinuteOf(p[i].date) == MinuteOf(e.date);
        assert h[i] == p[i];
      } else {
        if MinutesDistinct(p) {
          forall i, j | 0 <= i < j < |h|
            ensures MinuteOf(h[i].date) != MinuteOf(h[j].date)
          {
            if j == |h| - 1 {
              assert h[i] == p[i];
              assert MinuteOf(p[i].date) in Minutes(p);
            } else {
              assert h[i] == p[i] && h[j] == p[j];
            }
          }
        }
        if MinutesDistinct(h) {
          forall i, j | 0 <= i < j < |p|
            ensures MinuteOf(p[i].date) != MinuteOf(p[j].date)
          {
            assert h[i] == p[i] && h[j] == p[j];
          }
        }
      }
    }
  }

  ghost predicate Increasing(o: seq<int>) {
    forall i, j :: 0 <= i < j < |o| ==> o[i] < o[j]
  }

  /** Putting an entry whose minute is at least the last key keeps the keys
      increasing, and that minute becomes the last key. */
  lemma PutOrdered(b: Buckets, e: Sample, m: int)
    requires WellFormed(b) && Increasing(b.order)
    requires |b.order| > 0 && b.order[|b.order| - 1] == m && m <= MinuteOf(e.date)
    ensures Increasing(Put(b, e).order)
    ensures |Put(b, e).order| > 0 && Put(b, e).order[|Put(b, e).order| - 1] == MinuteOf(e.date)
  {
    var k := MinuteOf(e.date);
    if k in b.entries {
      var i :| 0 <= i < |b.order| && b.order[i] == k;
      assert i == |b.order| - 1;
    } else {
      assert b.order[|b.order| - 1] in b.entries;
    }
  }

  /** Over a sorted history the keys are inserted in increasing order, the
      last one being the last entry's minute. */
  lemma {:induction false} CollectOrdered(h: seq<Sample>)
    requires SortedByDate(h)
    ensures Increasing(Collect(h).order)
    ensures h != [] ==> |Collect(h).order| > 0 && Collect(h).order[|Collect(h).order| - 1] == MinuteOf(h[|h| - 1].date)
  {
    if h != [] {
      var p := h[..|h| - 1];
      var e := h[|h| - 1];
      if p != [] {
        assert SortedByDate(p);
        CollectOrdered(p);
        CollectSpec(p);
        MinuteOfMonotone(p[|p| - 1].date, e.date);
        PutOrdered(Collect(p), e, MinuteOf(p[|p| - 1].date));
      } else {
        assert Collect(h) == Put(Buckets(map[], []), e);
      }
    }
  }

  /** The cleaned list for a history. */
  function Deduped(h: seq<Sample>): seq<Sample> {
    CollectSpec(h);
    Values(Collect(h))
  }

  /** The `i`-th survivor is the entry stored under the `i`-th key, which is
      its minute, and it is the last original entry of that minute. */
  lemma DedupedAt(h: seq<Sample>, i: nat)
    requires i < |Deduped(h)|
    ensures var d := Deduped(h);
      && MinuteOf(d[i].date) == Collect(h).order[i]
      && LastOf(h, MinuteOf(d[i].date)) == Some(d[i])
      && d[i] in h
  {
    CollectSpec(h);
    var b := Collect(h);
    LastOfSpec(h, b.order[i]);
  }

  /** At most one entry per minute survives, it is the last entry of its
      minute, every minute of the input is represented, and every survivor is
      an original entry. */
  lemma DedupedSpec(h: seq<Sample>)
    ensures var d := Deduped(h);
      && (forall i, j :: 0 <= i < j < |d| ==> MinuteOf(d[i].date) != MinuteOf(d[j].date))
      && (forall i :: 0 <= i < |d| ==> LastOf(h, MinuteOf(d[i].date)) == Some(d[i]))
      && (forall i :: 0 <= i < |d| ==> d[i] in h)
      && Minutes(d) == Minutes(h)
  {
    CollectSpec(h);
    var b := Collect(h);
    var d := Deduped(h);
    forall i | 0 <= i < |d|
      ensures MinuteOf(d[i].date) == b.order[i]
      ensures LastOf(h, MinuteOf(d[i].date)) == Some(d[i]) && d[i] in h
    {
      DedupedAt(h, i);
    }
    forall m | m in Minutes(d)
      ensures m in Minutes(h)
    {
      var i :| 0 <= i < |d| && MinuteOf(d[i].date) == m;
      assert b.order[i] in b.entries;
    }
    forall m | m in Minutes(h)
      ensures m in Minutes(d)
    {
      assert m in b.entries;
      var i :| 0 <= i < |b.order| && b.order[i] == m;
      assert MinuteOf(d[i].date) == m;
    }
  }

  /** The cleaned list is never longer than the input, and as long exactly
      when no two entries share a minute; over a sorted input its dates
      strictly increase. */
  lemma DedupedLength(h: seq<Sample>)
    ensures |Deduped(h)| <= |h|
    ensures |Deduped(h)| == |h| <==> MinutesDistinct(h)
    ensures SortedByDate(h) ==> forall i, j :: 0 <= i < j < |Deduped(h)| ==> Deduped(h)[i].date < Deduped(h)[j].date
  {
    CollectCount(h);
    if SortedByDate(h) {
      CollectOrdered(h);
      CollectSpec(h);
      var b := Collect(h);
      var d := Deduped(h);
      forall i, j | 0 <= i < j < |d|
        ensures d[i].date < d[j].date
      {
        LastOfSpec(h, b.order[i]);
        LastOfSpec(h, b.order[j]);
        if d[j].date <= d[i].date {
          MinuteOfMonotone(d[j].date, d[i].date);
        }
      }
    }
  }

  /** The history after `cleanupHistory` has visited the tree: empty ones are
      skipped, the rest are sorted and replaced by the cleaned list only when
      that is strictly shorter. */
  function CleanedHistory(h: seq<Sample>): seq<Sample> {
    if h == [] then h
    else
      var s := SortByDate(h);
      var d := Deduped(s);
      if |d| < |h| then d else s
  }

  /** Empty histories are skipped; otherwise the history is sorted, never
      grows, and is replaced by the cleaned list (strictly increasing dates,
      one entry per minute) exactly when two entries share a minute. */
  lemma CleanedHistorySpec(h: seq<Sample>)
    ensures h == [] ==> CleanedHistory(h) == []
    ensures |CleanedHistory(h)| <= |h|
    ensures SortedByDate(CleanedHistory(h))
    ensures h != [] ==> (|CleanedHistory(h)| < |h| <==> !MinutesDistinct(SortByDate(h)))
    ensures |CleanedHistory(h)| < |h| ==> CleanedHistory(h) == Deduped(SortByDate(h))
  {
    if h != [] {
      var s := SortByDate(h);
      DedupedLength(s);
      var d := Deduped(s);
      if |d| < |h| {
        assert forall i, j :: 0 <= i < j < |d| ==> d[i].date < d[j].date;
      }
    }
  }

  /** A tree's record after `cleanupHistory`: only the history changes. */
  function CleanedState(s: TreeState): TreeState {
    s.(history := CleanedHistory(s.history))
  }

  /** The `forEach` that fills `uniqueHistoryMap`. */
  method CollectEntries(h: seq<Sample>) returns (entries: map<int, Sample>, order: seq<int>)
    ensures Buckets(entries, order) == Collect(h)
  {
    entries := map[];
    order := [];
    var i := 0;
    while i < |h|
      invariant 0 <= i <= |h|
      invariant Buckets(entries, order) == Collect(h[..i])
    {
      var entry := h[i];
      var key := MinuteOf(entry.date);
      if key !in entries {
        order := order + [key];
      }
      entries := entries[key := entry];
      assert h[..i + 1][..i] == h[..i];
      i := i + 1;
    }
    assert h[..i] == h;
  }

  /** The body of the `cleanupHistory` loop for one tree; the result is the
      number of entries removed, positive exactly when the tree is saved. */
  method CleanupTree(tree: Tree) returns (removed: nat)
    modifies tree
    ensures tree.State() == CleanedState(old(tree.State()))
    ensures removed == |old(tree.history)| - |tree.history|
  {
    removed := 0;
    if |tree.history| == 0 {
      return;
    }
    var originalLength := |tree.history|;
    var sorted := SortByDate(tree.history);
    tree.history := sorted;
    var entries, order := CollectEntries(sorted);
    CollectSpec(sorted);
    var cleanedHistory := Values(Buckets(entries, order));
    assert cleanedHistory == Deduped(sorted);
    if |cleanedHistory| < originalLength {
      removed := originalLength - |cleanedHistory|;
      tree.history := cleanedHistory;
    }
  }

  /** `cleanupHistory` over the whole collection, with `totalRemoved`. */
  method CleanupHistory(trees: seq<Tree>) returns (totalRemoved: nat)
    requires forall i, j :: 0 <= i < j < |trees| ==> trees[i] != trees[j]
    modifies trees
    ensures forall t :: t in trees ==> t.State() == CleanedState(old(t.State()))
    ensures totalRemoved == 0 <==> forall t :: t in trees ==> |t.history| == |old(t.history)|
  {
    totalRemoved := 0;
    var i := 0;
    while i < |trees|
      invariant 0 <= i <= |trees|
      invariant forall j :: 0 <= j < i ==> trees[j].State() == CleanedState(old(trees[j].State()))
      invariant forall j :: i <= j < |trees| ==> trees[j].State() == old(trees[j].State())
      invariant totalRemoved == 0 <==> forall j :: 0 <= j < i ==> |trees[j].history| == |old(trees[j].history)|
    {
      label before:
      var removed := CleanupTree(trees[i]);
      forall j | 0 <= j < |trees| && j != i
        ensures trees[j].State() == old@before(trees[j].State())
      {
        assert trees[j] != trees[i];
      }
      totalRemoved := totalRemoved + removed;
      i := i + 1;
    }
  }
}
