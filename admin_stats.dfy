/** The aggregation of server/routes/admin.js: the status counts and average
    level of `/stats` and `/analytics`, and the per-category table `/analytics`
    builds. The rows are what the database query returns. */
module AdminStats {
  import opened Models

  /** The fields of a tree the two routes read. */
  datatype TreeRow = TreeRow(category: string, status: Status, waterLevel: real)

  /** `rows.filter(t => t.status === st).length`. */
  function CountStatus(rows: seq<TreeRow>, st: Status): (n: nat)
    ensures n <= |rows|
  {
    if rows == [] then 0
    else CountStatus(rows[..|rows| - 1], st) + (if rows[|rows| - 1].status == st then 1 else 0)
  }

  /** The three status counts add up to the number of trees. */
  lemma {:induction false} StatusCountsSum(rows: seq<TreeRow>)
    ensures CountStatus(rows, Critical) + CountStatus(rows, Thirsty) + CountStatus(rows, Healthy) == |rows|
  {
    if rows != [] {
      StatusCountsSum(rows[..|rows| - 1]);
    }
  }

  /** `rows.reduce((sum, t) => sum + t.waterLevel, 0)`. */
  function TotalWater(rows: seq<TreeRow>): real {
    if rows == [] then 0.0 else TotalWater(rows[..|rows| - 1]) + rows[|rows| - 1].waterLevel
  }

  /** `totalTrees > 0 ? Math.round(totalWater / totalTrees) : 0`. */
  function AvgWater(rows: seq<TreeRow>): (a: int)
    ensures |rows| == 0 ==> a == 0
    ensures |rows| > 0 ==> a == JsRound(TotalWater(rows) / |rows| as real)
  {
    if |rows| > 0 then JsRound(TotalWater(rows) / |rows| as real) else 0
  }

  ghost predicate LevelsInRange(rows: seq<TreeRow>) {
    forall i :: 0 <= i < |rows| ==> MIN_LEVEL <= rows[i].waterLevel <= MAX_LEVEL
  }

  lemma {:induction false} TotalWaterBounds(rows: seq<TreeRow>)
    requires LevelsInRange(rows)
    ensures 0.0 <= TotalWater(rows) <= 100.0 * |rows| as real
  {
    if rows != [] {
      TotalWaterBounds(rows[..|rows| - 1]);
    }
  }

  lemma MeanBounds(t: real, n: real)
    requires n > 0.0 && 0.0 <= t <= 100.0 * n
    ensures 0.0 <= t / n <= 100.0
  {
    var q := t / n;
    assert q * n == t;
    if q < 0.0 {
      assert false;
    }
    if q > 100.0 {
      assert false;
    }
  }

  /** With every level within 0 .. 100, so is the average. */
  lemma AvgWaterInRange(rows: seq<TreeRow>)
    requires LevelsInRange(rows)
    ensures 0 <= AvgWater(rows) <= 100
  {
    if |rows| > 0 {
      TotalWaterBounds(rows);
      MeanBounds(TotalWater(rows), |rows| as real);
    }
  }

  /** The body of `/stats`. */
  datatype Summary = Summary(totalTrees: nat, criticalTrees: nat, thirstyTrees: nat, healthyTrees: nat, avgWater: int)

  function Stats(rows: seq<TreeRow>): (s: Summary)
    ensures s.totalTrees == |rows|
    ensures s.criticalTrees == CountStatus(rows, Critical) && s.thirstyTrees == CountStatus(rows, Thirsty)
    ensures s.healthyTrees == CountStatus(rows, Healthy) && s.avgWater == AvgWater(rows)
    ensures s.criticalTrees + s.thirstyTrees + s.healthyTrees == s.totalTrees
    ensures LevelsInRange(rows) ==> 0 <= s.avgWater <= 100
  {
    StatusCountsSum(rows);
    AvgWaterInRange2(rows);
    Summary(|rows|, CountStatus(rows, Critical), CountStatus(rows, Thirsty), CountStatus(rows, Healthy), AvgWater(rows))
  }

  lemma AvgWaterInRange2(rows: seq<TreeRow>)
    ensures LevelsInRange(rows) ==> 0 <= AvgWater(rows) <= 100
  {
    if LevelsInRange(rows) {
      AvgWaterInRange(rows);
    }
  }

  /** One entry of the `categories` object. */
  datatype CategoryCounts = CategoryCounts(total: nat, healthy: nat, thirsty: nat, critical: nat)

  /** `t.category || 'other'`. */
  function CategoryKey(category: string): string {
    if category == "" then "other" else category
  }

  /** `total++` and the counter of the row's status. */
  function Bump(c: CategoryCounts, st: Status): CategoryCounts {
    match st
    case Healthy => c.(total := c.total + 1, healthy := c.healthy + 1)
    case Thirsty => c.(total := c.total + 1, thirsty := c.thirsty + 1)
    case Critical => c.(total := c.total + 1, critical := c.critical + 1)
  }

  const EMPTY_COUNTS: CategoryCounts := CategoryCounts(0, 0, 0, 0)

  /** One step of the `forEach`. */
  function AddRow(m: map<string, CategoryCounts>, r: TreeRow): map<string, CategoryCounts> {
    var k := CategoryKey(r.category);
    m[k := Bump(if k in m then m[k] else EMPTY_COUNTS, r.status)]
  }

  /** The `categories` object after the `forEach` over `rows`. */
  function CategoriesOf(rows: seq<TreeRow>): map<string, CategoryCounts> {
    if rows == [] then map[] else AddRow(CategoriesOf(rows[..|rows| - 1]), rows[|rows| - 1])
  }

  /** The rows of category key `k`. */
  function CountCategory(rows: seq<TreeRow>, k: string): nat {
    if rows == [] then 0
    else CountCategory(rows[..|rows| - 1], k) + (if CategoryKey(rows[|rows| - 1].category) == k then 1 else 0)
  }

  /** The rows of category key `k` with status `st`. */
  function CountCategoryStatus(rows: seq<TreeRow>, k: string, st: Status): nat {
    if rows == [] then 0
    else
      var r := rows[|rows| - 1];
      CountCategoryStatus(rows[..|rows| - 1], k, st) + (if CategoryKey(r.category) == k && r.status == st then 1 else 0)
  }

  /** A key is present exactly when some row falls under it; its counters
      count that category's rows overall and per status, and its status
      counters add up to its total. */
  lemma {:induction false} CategoriesSpec(rows: seq<TreeRow>)
    ensures forall k :: k in CategoriesOf(rows) <==> CountCategory(rows, k) > 0
    ensures forall k :: k in CategoriesOf(rows) ==>
      var c := CategoriesOf(rows)[k];
      && c.total == CountCategory(rows, k)
      && c.healthy == CountCategoryStatus(rows, k, Healthy)
      && c.thirsty == CountCategoryStatus(rows, k, Thirsty)
      && c.critical == CountCategoryStatus(rows, k, Critical)
      && c.total == c.healthy + c.thirsty + c.critical
  {
    if rows != [] {
      var p := rows[..|rows| - 1];
      var r := rows[|rows| - 1];
      CategoriesSpec(p);
      var m := CategoriesOf(p);
      var key := CategoryKey(r.category);
      forall k | k in CategoriesOf(rows)
        ensures var c := CategoriesOf(rows)[k];
          && c.total == CountCategory(rows, k)
          && c.healthy == CountCategoryStatus(rows, k, Healthy)
          && c.thirsty == CountCategoryStatus(rows, k, Thirsty)
          && c.critical == CountCategoryStatus(rows, k, Critical)
          && c.total == c.healthy + c.thirsty + c.critical
      {
        if k == key && key !in m {
          assert CountCategory(p, k) == 0;
          ZeroCategoryStatus(p, k, Healthy);
          ZeroCategoryStatus(p, k, Thirsty);
          ZeroCategoryStatus(p, k, Critical);
        }
      }
    }
  }

  lemma {:induction false} ZeroCategoryStatus(rows: seq<TreeRow>, k: string, st: Status)
    requires CountCategory(rows, k) == 0
    ensures CountCategoryStatus(rows, k, st) == 0
  {
    if rows != [] {
      ZeroCategoryStatus(rows[..|rows| - 1], k, st);
    }
  }

  /** How many entries of `keys` equal `x`. */
  function Occurrences(keys: seq<string>, x: string): nat {
    if keys == [] then 0 else Occurrences(keys[..|keys| - 1], x) + (if keys[|keys| - 1] == x then 1 else 0)
  }

  lemma {:induction false} OccurrencesDistinct(keys: seq<string>, x: string)
    requires forall i, j :: 0 <= i < j < |keys| ==> keys[i] != keys[j]
    ensures Occurrences(keys, x) == if x in keys then 1 else 0
  {
    if keys != [] {
      var p := keys[..|keys| - 1];
      OccurrencesDistinct(p, x);
      assert forall y :: y in keys <==> y in p || y == keys[|keys| - 1];
    }
  }

  /** `Σ_{k in keys} CountCategory(rows, k)`. */
  function SumCounts(rows: seq<TreeRow>, keys: seq<string>): nat {
    if keys == [] then 0 else SumCounts(rows, keys[..|keys| - 1]) + CountCategory(rows, keys[|keys| - 1])
  }

  lemma {:induction false} SumCountsSnoc(rows: seq<TreeRow>, r: TreeRow, keys: seq<string>)
    ensures SumCounts(rows + [r], keys) == SumCounts(rows, keys) + Occurrences(keys, CategoryKey(r.category))
  {
    assert (rows + [r])[..|rows|] == rows;
    if keys != [] {
      SumCountsSnoc(rows, r, keys[..|keys| - 1]);
    }
  }

  lemma {:induction false} SumCountsAll(rows: seq<TreeRow>, keys: seq<string>)
    requires forall i, j :: 0 <= i < j < |keys| ==> keys[i] != keys[j]
    requires forall i :: 0 <= i < |rows| ==> CategoryKey(rows[i].category) in keys
    ensures SumCounts(rows, keys) == |rows|
  {
    if rows == [] {
      SumCountsEmpty(keys);
    } else {
      var p := rows[..|rows| - 1];
      var r := rows[|rows| - 1];
      SumCountsAll(p, keys);
      SumCountsSnoc(p, r, keys);
      OccurrencesDistinct(keys, CategoryKey(r.category));
      assert p + [r] == rows;
    }
  }

  lemma {:induction false} SumCountsEmpty(keys: seq<string>)
    ensures SumCounts([], keys) == 0
  {
    if keys != [] {
      SumCountsEmpty(keys[..|keys| - 1]);
    }
  }

  function SumTotals(m: map<string, CategoryCounts>, keys: seq<string>): nat
    requires forall i :: 0 <= i < |keys| ==> keys[i] in m
  {
    if keys == [] then 0 else SumTotals(m, keys[..|keys| - 1]) + m[keys[|keys| - 1]].total
  }

  lemma {:induction false} SumTotalsIsSumCounts(rows: seq<TreeRow>, keys: seq<string>)
    requires forall i :: 0 <= i < |keys| ==> keys[i] in CategoriesOf(rows)
    ensures SumTotals(CategoriesOf(rows), keys) == SumCounts(rows, keys)
  {
    CategoriesSpec(rows);
    if keys != [] {
      SumTotalsIsSumCounts(rows, keys[..|keys| - 1]);
    }
  }

  /** Listing every category once, the totals add up to the number of trees. */
  lemma CategoryTotalsSum(rows: seq<TreeRow>, keys: seq<string>)
    requires forall i, j :: 0 <= i < j < |keys| ==> keys[i] != keys[j]
    requires forall k :: k in keys <==> k in CategoriesOf(rows)
    ensures SumTotals(CategoriesOf(rows), keys) == |rows|
  {
    CategoriesSpec(rows);
    SumTotalsIsSumCounts(rows, keys);
    forall i | 0 <= i < |rows|
      ensures CategoryKey(rows[i].category) in keys
    {
      CountCategoryMember(rows, i);
    }
    SumCountsAll(rows, keys);
  }

  lemma {:induction false} CountCategoryMember(rows: seq<TreeRow>, i: nat)
    requires i < |rows|
    ensures CountCategory(rows, CategoryKey(rows[i].category)) > 0
  {
    if i < |rows| - 1 {
      CountCategoryMember(rows[..|rows| - 1], i);
    }
  }

  /** The `forEach` that fills `categories`. */
  method GroupCategories(rows: seq<TreeRow>) returns (categories: map<string, CategoryCounts>)
    ensures categories == CategoriesOf(rows)
  {
    categories := map[];
    var i := 0;
    while i < |rows|
      invariant 0 <= i <= |rows|
      invariant categories == CategoriesOf(rows[..i])
    {
      var t := rows[i];
      var cat := CategoryKey(t.category);
      if cat !in categories {
        categories := categories[cat := EMPTY_COUNTS];
      }
      categories := categories[cat := Bump(categories[cat], t.status)];
      assert rows[..i + 1][..i] == rows[..i];
      i := i + 1;
    }
    assert rows[..i] == rows;
  }
}
