/** `history.sort((a, b) => new Date(a.date) - new Date(b.date))`, the sort
    both offline scripts run first. JavaScript's sort is stable, so it is
    modelled as a stable insertion sort on dates. */
module Chronology {
  import opened Models

  ghost predicate SortedByDate(h: seq<Sample>) {
    forall i, j :: 0 <= i < j < |h| ==> h[i].date <= h[j].date
  }

  /** Puts `x` in front of the first entry of `h` that is not earlier than it. */
  function InsertByDate(x: Sample, h: seq<Sample>): (r: seq<Sample>)
    ensures multiset(r) == multiset(h) + multiset{x}
    ensures |r| == |h| + 1
    ensures r[0] == x || (h != [] && r[0] == h[0])
  {
    if h == [] || x.date <= h[0].date then [x] + h
    else
      assert h == [h[0]] + h[1..];
      [h[0]] + InsertByDate(x, h[1..])
  }

  lemma {:induction false} InsertKeepsSorted(x: Sample, h: seq<Sample>)
    requires SortedByDate(h)
    ensures SortedByDate(InsertByDate(x, h))
  {
    if h != [] && x.date > h[0].date {
      InsertKeepsSorted(x, h[1..]);
      var t := InsertByDate(x, h[1..]);
      assert t[0] == x || t[0] == h[1];
      forall j | 0 <= j < |t|
        ensures h[0].date <= t[j].date
      {
        assert t[j] in multiset(t);
        assert t[j] in multiset(h[1..]) + multiset{x};
        if t[j] != x {
          assert t[j] in h[1..];
        }
      }
    }
  }

  /** The history in ascending date order, a permutation of the input. */
  function SortByDate(h: seq<Sample>): (r: seq<Sample>)
    ensures SortedByDate(r)
    ensures multiset(r) == multiset(h)
    ensures |r| == |h|
  {
    if h == [] then []
    else
      assert h == [h[0]] + h[1..];
      InsertKeepsSorted(h[0], SortByDate(h[1..]));
      InsertByDate(h[0], SortByDate(h[1..]))
  }

  /** The entries of `h` dated `d`, in their order in `h`. */
  function WithDate(h: seq<Sample>, d: int): (r: seq<Sample>)
    ensures forall k :: 0 <= k < |r| ==> r[k].date == d
    ensures |r| <= |h|
  {
    if h == [] then []
    else (if h[0].date == d then [h[0]] else []) + WithDate(h[1..], d)
  }

  lemma WithDateCons(a: Sample, t: seq<Sample>, d: int)
    ensures WithDate([a] + t, d) == (if a.date == d then [a] else []) + WithDate(t, d)
  {
    assert ([a] + t)[1..] == t;
  }

  /** Inserting `x` puts it before every entry with its own date. */
  lemma {:induction false} InsertWithDate(x: Sample, h: seq<Sample>, d: int)
    ensures WithDate(InsertByDate(x, h), d) == (if x.date == d then [x] else []) + WithDate(h, d)
  {
    if h == [] || x.date <= h[0].date {
      WithDateCons(x, h, d);
    } else {
      var t := InsertByDate(x, h[1..]);
      assert InsertByDate(x, h) == [h[0]] + t;
      InsertWithDate(x, h[1..], d);
      WithDateCons(h[0], t, d);
      assert h == [h[0]] + h[1..];
      WithDateCons(h[0], h[1..], d);
      var xs := if x.date == d then [x] else [];
      var hs := if h[0].date == d then [h[0]] else [];
      assert xs == [] || hs == [];
      calc {
        WithDate(InsertByDate(x, h), d);
        hs + WithDate(t, d);
        hs + (xs + WithDate(h[1..], d));
        xs + (hs + WithDate(h[1..], d));
        xs + WithDate(h, d);
      }
    }
  }

  /** The sort is stable: for every date, the entries carrying it keep their
      relative order. */
  lemma {:induction false} SortStable(h: seq<Sample>, d: int)
    ensures WithDate(SortByDate(h), d) == WithDate(h, d)
  {
    if h != [] {
      SortStable(h[1..], d);
      InsertWithDate(h[0], SortByDate(h[1..]), d);
    }
  }

  /** Sorting an already-sorted history leaves it as it is. */
  lemma {:induction false} SortSortedIsIdentity(h: seq<Sample>)
    requires SortedByDate(h)
    ensures SortByDate(h) == h
  {
    if h != [] {
      SortSortedIsIdentity(h[1..]);
      assert SortByDate(h[1..]) == h[1..];
    }
  }
}
