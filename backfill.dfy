/** The startup backfill of server/services/weatherService.js
    (`fillMissingHistoryOnStart`): for a tree whose last sample is several
    ticks old, the loss the downtime would have caused under sun is spread
    over points, one per six missed ticks, that decline linearly towards it. */
module Backfill {
  import opened Wrappers
  import opened Models
  import opened OpenMeteo
  import opened WeatherService

  /** How many entries the history keeps after a backfill (`slice(-100)`). */
  const BACKFILL_KEEP: nat := 100

  /** `WEATHER_CHANCE[tree.category]?.sunny || WEATHER_CHANCE.default.sunny`:
      the same rate a sunny tick uses, for every category. */
  function SunnyChance(category: string): (c: real)
    ensures c == ChanceOf(category, Sunny)
    ensures 0.0 < c <= 1.0
  {
    if category in WEATHER_CHANCE && WEATHER_CHANCE[category].sunny != 0.0 then WEATHER_CHANCE[category].sunny
    else WEATHER_CHANCE["default"].sunny
  }

  /** `Math.floor(diffMs / TICK_RATE)`. */
  function MissedTicks(diffMs: int): int { diffMs / TICK_RATE }

  /** `Math.floor(missedTicks * chance)`. */
  function TotalLoss(missedTicks: int, chance: real): int { (missedTicks as real * chance).Floor }

  /** `Math.ceil(a / b)` for a positive divisor. */
  function CeilDiv(a: int, b: int): (q: int)
    requires b > 0
    ensures (q - 1) * b < a <= q * b
  {
    (a + b - 1) / b
  }

  /** The integer part of a time value, as `new Date(ms)` keeps it
      (truncation towards zero). */
  function Trunc(x: real): (n: int)
    ensures x - 1.0 < n as real < x + 1.0
    ensures x >= 0.0 ==> n == x.Floor
  {
    if x >= 0.0 then x.Floor else -((-x).Floor)
  }

  /** `Math.round(x * 100) / 100`. */
  function Round2(x: real): real { JsRound(x * 100.0) as real / 100.0 }

  /** The running value `simVal` after `i` steps: each step takes the loss per
      point off and stops at 0. */
  function SimVal(start: real, lossPerPoint: real, i: nat): real {
    Max(start - i as real * lossPerPoint, 0.0)
  }

  /** The `i`-th appended point (1-based). */
  function BackfillPoint(last: Sample, lossPerPoint: real, timeStep: real, i: nat): Sample {
    Sample(Round2(SimVal(last.val, lossPerPoint, i)), Trunc(last.date as real + i as real * timeStep))
  }

  function BackfillPoints(last: Sample, lossPerPoint: real, timeStep: real, n: nat): (pts: seq<Sample>)
    ensures |pts| == n
    ensures forall k :: 0 <= k < n ==> pts[k] == BackfillPoint(last, lossPerPoint, timeStep, k + 1)
  {
    if n == 0 then [] else BackfillPoints(last, lossPerPoint, timeStep, n - 1) + [BackfillPoint(last, lossPerPoint, timeStep, n)]
  }

  /** The parameters of one tree's backfill, when there is one. */
  datatype Plan = Plan(last: Sample, missedTicks: int, totalLoss: int, points: nat, lossPerPoint: real, timeStep: real)

  /** `None` when the backfill leaves the tree alone: empty history, at most
      two missed ticks, or no whole point of loss. */
  function PlanFor(history: seq<Sample>, category: string, now: int): Option<Plan> {
    if history == [] then None
    else
      var last := history[|history| - 1];
      var diffMs := now - last.date;
      var missedTicks := MissedTicks(diffMs);
      if missedTicks <= 2 then None
      else
        var totalLoss := TotalLoss(missedTicks, SunnyChance(category));
        if totalLoss <= 0 then None
        else Some(MakePlan(last, missedTicks, totalLoss, now))
  }

  /** `Math.ceil(missedTicks / 6)` points, the loss and the time span shared
      out evenly between them. */
  function MakePlan(last: Sample, missedTicks: int, totalLoss: int, now: int): Plan
    requires missedTicks > 2
  {
    var points := CeilDiv(missedTicks, 6);
    Plan(last, missedTicks, totalLoss, points,
         totalLoss as real / points as real, (now - last.date) as real / points as real)
  }

  function PlannedPoints(p: Plan): seq<Sample> {
    BackfillPoints(p.last, p.lossPerPoint, p.timeStep, p.points)
  }

  /** `history.slice(-100)` when the history is longer than 100. */
  function KeepLast(h: seq<Sample>, n: nat): (r: seq<Sample>)
    ensures |r| <= n && |r| <= |h|
    ensures r == h[|h| - |r|..]
    ensures |h| <= n ==> r == h
  {
    if |h| > n then h[|h| - n..] else h
  }

  /** The record after the backfill of one tree. */
  function BackfilledState(s: TreeState, category: string, now: int): TreeState {
    match PlanFor(s.history, category, now)
    case None => s
    case Some(p) =>
      var pts := PlannedPoints(p);
      if pts == [] then s
      else
        var v := pts[|pts| - 1].val;
        s.(history := KeepLast(s.history + pts, BACKFILL_KEEP), waterLevel := v,
           status := CalculateStatus(v), lastWatered := now)
  }

  /** The backfill is a no-op exactly when the history is empty, at most two
      ticks were missed, or the loss rounds down to nothing. */
  lemma BackfillNoOp(s: TreeState, category: string, now: int)
    ensures PlanFor(s.history, category, now).None? <==>
      || s.history == []
      || MissedTicks(now - s.history[|s.history| - 1].date) <= 2
      || TotalLoss(MissedTicks(now - s.history[|s.history| - 1].date), SunnyChance(category)) == 0
    ensures PlanFor(s.history, category, now).None? ==> BackfilledState(s, category, now) == s
  {
    if s.history != [] {
      var m := MissedTicks(now - s.history[|s.history| - 1].date);
      if m > 2 {
        assert m as real * SunnyChance(category) > 0.0;
      }
    }
  }

  lemma SimValStep(start: real, lossPerPoint: real, i: nat)
    requires lossPerPoint >= 0.0
    ensures SimVal(start, lossPerPoint, i + 1) == Max(SimVal(start, lossPerPoint, i) - lossPerPoint, 0.0)
  {
    assert (i + 1) as real * lossPerPoint == i as real * lossPerPoint + lossPerPoint;
  }

  lemma SimValMonotone(start: real, lossPerPoint: real, i: nat, j: nat)
    requires lossPerPoint >= 0.0 && i <= j
    ensures SimVal(start, lossPerPoint, j) <= SimVal(start, lossPerPoint, i)
  {
    assert i as real * lossPerPoint <= j as real * lossPerPoint;
  }

  lemma Round2Monotone(x: real, y: real)
    requires x <= y
    ensures Round2(x) <= Round2(y)
  {
    assert (x * 100.0 + 0.5).Floor <= (y * 100.0 + 0.5).Floor;
  }

  lemma Round2NonNegative(x: real)
    requires x >= 0.0
    ensures Round2(x) >= 0.0
  {
  }

  lemma CeilDivSixBounds(m: int)
    requires m > 2
    ensures 0 < CeilDiv(m, 6) <= m
  {
  }

  lemma QuotientTimes(a: real, b: real, q: real)
    requires b > 0.0 && q == a / b
    ensures b * q == a
  {
  }

  lemma TimeStepBound(diff: int, m: int, points: int)
    requires m == MissedTicks(diff) && 0 < points <= m
    ensures diff as real / points as real >= 2.0
  {
    assert diff >= m * TICK_RATE;
    assert m * TICK_RATE >= points * TICK_RATE;
    var q := diff as real / points as real;
    QuotientTimes(diff as real, points as real, q);
    assert points as real * q >= points as real * 600000.0;
  }

  lemma PlanFacts(h: seq<Sample>, category: string, now: int)
    requires PlanFor(h, category, now).Some?
    ensures var p := PlanFor(h, category, now).value;
      && p.last == h[|h| - 1]
      && p.missedTicks == MissedTicks(now - p.last.date) && p.missedTicks > 2
      && p.totalLoss == TotalLoss(p.missedTicks, SunnyChance(category)) && p.totalLoss > 0
      && p == MakePlan(p.last, p.missedTicks, p.totalLoss, now)
  {
  }

  lemma MulStep(k: nat, t: real)
    ensures (k + 1) as real * t == k as real * t + t
  {
  }

  /** Dates of consecutive points are apart by at least one millisecond, and
      their values do not increase. */
  lemma PointStep(last: Sample, lossPerPoint: real, timeStep: real, k: nat)
    requires lossPerPoint >= 0.0 && timeStep >= 2.0
    ensures BackfillPoint(last, lossPerPoint, timeStep, k).date < BackfillPoint(last, lossPerPoint, timeStep, k + 1).date
    ensures BackfillPoint(last, lossPerPoint, timeStep, k + 1).val <= BackfillPoint(last, lossPerPoint, timeStep, k).val
  {
    MulStep(k, timeStep);
    SimValMonotone(last.val, lossPerPoint, k, k + 1);
    Round2Monotone(SimVal(last.val, lossPerPoint, k + 1), SimVal(last.val, lossPerPoint, k));
  }

  /** The shape of any run of points: increasing dates, non-increasing values
      that stay at or above 0. */
  lemma PointsShape(last: Sample, lossPerPoint: real, timeStep: real, n: nat)
    requires lossPerPoint >= 0.0 && timeStep >= 2.0
    ensures var pts := BackfillPoints(last, lossPerPoint, timeStep, n);
      && (n > 0 ==> pts[0].date > last.date)
      && (forall k :: 0 < k < n ==> pts[k - 1].date < pts[k].date)
      && (forall k :: 0 < k < n ==> pts[k].val <= pts[k - 1].val)
      && (forall k :: 0 <= k < n ==> pts[k].val >= 0.0)
  {
    var pts := BackfillPoints(last, lossPerPoint, timeStep, n);
    PointStep(last, lossPerPoint, timeStep, 0);
    forall k | 0 < k < n
      ensures pts[k - 1].date < pts[k].date
      ensures pts[k].val <= pts[k - 1].val
    {
      PointStep(last, lossPerPoint, timeStep, k);
    }
    forall k | 0 <= k < n
      ensures pts[k].val >= 0.0
    {
      Round2NonNegative(SimVal(last.val, lossPerPoint, k + 1));
    }
  }

  /** The arithmetic facts about a plan that the shape of its points needs. */
  ghost predicate Sound(p: Plan, now: int) {
    && p.points > 0 && p.lossPerPoint >= 0.0 && p.timeStep >= 2.0
    && p.points as real * p.timeStep == (now - p.last.date) as real
    && p.points as real * p.lossPerPoint == p.totalLoss as real
  }

  lemma MakePlanSound(last: Sample, missedTicks: int, totalLoss: int, now: int)
    requires missedTicks == MissedTicks(now - last.date) && missedTicks > 2 && totalLoss > 0
    ensures var p := MakePlan(last, missedTicks, totalLoss, now);
      Sound(p, now) && p.points == CeilDiv(missedTicks, 6)
  {
    var p := MakePlan(last, missedTicks, totalLoss, now);
    CeilDivSixBounds(missedTicks);
    TimeStepBound(now - last.date, missedTicks, p.points);
    QuotientTimes((now - last.date) as real, p.points as real, p.timeStep);
    QuotientTimes(totalLoss as real, p.points as real, p.lossPerPoint);
  }

  lemma PlanSound(h: seq<Sample>, category: string, now: int)
    requires PlanFor(h, category, now).Some?
    ensures Sound(PlanFor(h, category, now).value, now)
    ensures PlanFor(h, category, now).value.points == CeilDiv(PlanFor(h, category, now).value.missedTicks, 6)
  {
    PlanFacts(h, category, now);
    var p := PlanFor(h, category, now).value;
    MakePlanSound(p.last, p.missedTicks, p.totalLoss, now);
  }

  lemma SoundPoints(p: Plan, now: int)
    requires Sound(p, now)
    ensures var pts := PlannedPoints(p);
      && |pts| == p.points && |pts| > 0
      && pts[0].date > p.last.date
      && (forall k :: 0 < k < |pts| ==> pts[k - 1].date < pts[k].date)
      && pts[|pts| - 1].date == now
      && (forall k :: 0 < k < |pts| ==> pts[k].val <= pts[k - 1].val)
      && (forall k :: 0 <= k < |pts| ==> pts[k].val >= 0.0)
      && SimVal(p.last.val, p.lossPerPoint, p.points) == Max(p.last.val - p.totalLoss as real, 0.0)
  {
    var pts := PlannedPoints(p);
    PointsShape(p.last, p.lossPerPoint, p.timeStep, p.points);
    assert pts[|pts| - 1] == BackfillPoint(p.last, p.lossPerPoint, p.timeStep, p.points);
    LastPointDate(p.last, p.lossPerPoint, p.timeStep, p.points, now);
    FinalSimVal(p.last.val, p.lossPerPoint, p.points, p.totalLoss as real);
  }

  lemma FinalSimVal(start: real, lossPerPoint: real, n: nat, loss: real)
    requires n as real * lossPerPoint == loss
    ensures SimVal(start, lossPerPoint, n) == Max(start - loss, 0.0)
  {
  }

  /** When the backfill runs it appends ceil(missedTicks / 6) points whose
      dates strictly increase from after the last sample up to `now`, whose
      values never increase and stay at or above 0, and whose unrounded final
      value is max(lastVal - totalLoss, 0). */
  lemma BackfillPointsSpec(h: seq<Sample>, category: string, now: int)
    requires PlanFor(h, category, now).Some?
    ensures var p := PlanFor(h, category, now).value;
      var pts := PlannedPoints(p);
      && |pts| == CeilDiv(p.missedTicks, 6) && |pts| > 0
      && pts[0].date > p.last.date
      && (forall k :: 0 < k < |pts| ==> pts[k - 1].date < pts[k].date)
      && pts[|pts| - 1].date == now
      && (forall k :: 0 < k < |pts| ==> pts[k].val <= pts[k - 1].val)
      && (forall k :: 0 <= k < |pts| ==> pts[k].val >= 0.0)
      && SimVal(p.last.val, p.lossPerPoint, p.points) == Max(p.last.val - p.totalLoss as real, 0.0)
  {
    PlanFacts(h, category, now);
    PlanSound(h, category, now);
    SoundPoints(PlanFor(h, category, now).value, now);
  }

  lemma LastPointDate(last: Sample, lossPerPoint: real, timeStep: real, n: nat, now: int)
    requires n as real * timeStep == (now - last.date) as real
    ensures BackfillPoint(last, lossPerPoint, timeStep, n).date == now
  {
    assert last.date as real + n as real * timeStep == now as real;
  }

  /** After a backfill the level is the last appended value, its status
      follows, `lastWatered` is now and the history keeps its last 100 entries. */
  lemma BackfilledStateSpec(s: TreeState, category: string, now: int)
    requires PlanFor(s.history, category, now).Some?
    ensures var p := PlanFor(s.history, category, now).value;
      var pts := PlannedPoints(p);
      var t := BackfilledState(s, category, now);
      && t.waterLevel == pts[|pts| - 1].val
      && t.status == CalculateStatus(t.waterLevel)
      && t.lastWatered == now
      && t.history == KeepLast(s.history + pts, BACKFILL_KEEP)
      && |t.history| <= BACKFILL_KEEP
      && t.history[|t.history| - 1] == pts[|pts| - 1]
  {
    PlanFacts(s.history, category, now);
  }

  lemma MakePlanArgs(last: Sample, missedTicks: int, totalLoss: int, now: int)
    requires missedTicks > 2 && totalLoss > 0
    ensures var p := MakePlan(last, missedTicks, totalLoss, now);
      p.points > 0 && p.lossPerPoint >= 0.0
  {
    CeilDivSixBounds(missedTicks);
  }

  /** The new record in terms of the plan's points. */
  lemma BackfilledStateOf(s: TreeState, category: string, now: int, p: Plan)
    requires PlanFor(s.history, category, now) == Some(p) && p.points > 0
    ensures var pts := PlannedPoints(p);
      var v := BackfillPoint(p.last, p.lossPerPoint, p.timeStep, p.points).val;
      BackfilledState(s, category, now)
        == s.(history := KeepLast(s.history + pts, BACKFILL_KEEP), waterLevel := v,
              status := CalculateStatus(v), lastWatered := now)
  {
  }

  /** One turn of the backfill loop: the running value steps to the next
      `SimVal`, and the history built on `prefix` grows by the point the
      loop body pushes, which is the next `BackfillPoint`. */
  lemma AppendStep(prefix: seq<Sample>, lastEntry: Sample, lossPerPoint: real, timeStep: real, i: nat, simVal: real)
    requires lossPerPoint >= 0.0 && i >= 1
    requires simVal == if i == 1 then lastEntry.val else SimVal(lastEntry.val, lossPerPoint, i - 1)
    ensures Max(simVal - lossPerPoint, 0.0) == SimVal(lastEntry.val, lossPerPoint, i)
    ensures BackfillPoints(lastEntry, lossPerPoint, timeStep, i)
         == BackfillPoints(lastEntry, lossPerPoint, timeStep, i - 1) + [BackfillPoint(lastEntry, lossPerPoint, timeStep, i)]
    ensures prefix + BackfillPoints(lastEntry, lossPerPoint, timeStep, i)
         == prefix + BackfillPoints(lastEntry, lossPerPoint, timeStep, i - 1)
            + [Sample(Round2(Max(simVal - lossPerPoint, 0.0)), Trunc(lastEntry.date as real + i as real * timeStep))]
  {
    if i > 1 {
      SimValStep(lastEntry.val, lossPerPoint, i - 1);
    } else {
      assert 1 as real * lossPerPoint == lossPerPoint;
    }
    var point := BackfillPoint(lastEntry, lossPerPoint, timeStep, i);
    assert point == Sample(Round2(Max(simVal - lossPerPoint, 0.0)), Trunc(lastEntry.date as real + i as real * timeStep));
    assert BackfillPoints(lastEntry, lossPerPoint, timeStep, i)
        == BackfillPoints(lastEntry, lossPerPoint, timeStep, i - 1) + [point];
    assert prefix + (BackfillPoints(lastEntry, lossPerPoint, timeStep, i - 1) + [point])
        == prefix + BackfillPoints(lastEntry, lossPerPoint, timeStep, i - 1) + [point];
  }

  /** The loop of the backfill: pushes points 1 .. n and returns the last one's value. */
  method AppendPoints(tree: Tree, lastEntry: Sample, lossPerPoint: real, timeStep: real, n: nat) returns (currentVal: real)
    requires lossPerPoint >= 0.0 && n > 0
    modifies tree
    ensures tree.State() == old(tree.State()).(history := old(tree.history) + BackfillPoints(lastEntry, lossPerPoint, timeStep, n))
    ensures currentVal == BackfillPoint(lastEntry, lossPerPoint, timeStep, n).val
  {
    var lastDate := lastEntry.date;
    var simVal := lastEntry.val;
    currentVal := tree.waterLevel;
    var i := 1;
    while i <= n
      invariant 1 <= i <= n + 1
      invariant simVal == if i == 1 then lastEntry.val else SimVal(lastEntry.val, lossPerPoint, i - 1)
      invariant tree.history == old(tree.history) + BackfillPoints(lastEntry, lossPerPoint, timeStep, i - 1)
      invariant tree.waterLevel == old(tree.waterLevel) && tree.status == old(tree.status)
      invariant tree.city == old(tree.city) && tree.lastWatered == old(tree.lastWatered)
      invariant i > 1 ==> currentVal == BackfillPoint(lastEntry, lossPerPoint, timeStep, i - 1).val
    {
      var simDate := Trunc(lastDate as real + i as real * timeStep);
      AppendStep(old(tree.history), lastEntry, lossPerPoint, timeStep, i, simVal);
      simVal := Max(simVal - lossPerPoint, 0.0);
      var finalVal := Round2(simVal);
      tree.history := tree.history + [Sample(finalVal, simDate)];
      currentVal := finalVal;
      i := i + 1;
    }
  }

  /** The loop that pushes the plan's points, then the level, status and
      `lastWatered` updates and the cut to the last 100 entries. */
  method StorePlan(tree: Tree, p: Plan, now: int)
    requires p.points > 0 && p.lossPerPoint >= 0.0
    modifies tree
    ensures var v := BackfillPoint(p.last, p.lossPerPoint, p.timeStep, p.points).val;
      tree.State() == old(tree.State()).(history := KeepLast(old(tree.history) + PlannedPoints(p), BACKFILL_KEEP),
                                         waterLevel := v, status := CalculateStatus(v), lastWatered := now)
  {
    var currentVal := AppendPoints(tree, p.last, p.lossPerPoint, p.timeStep, p.points);
    tree.waterLevel := currentVal;
    tree.status := CalculateStatus(currentVal);
    tree.lastWatered := now;
    if |tree.history| > BACKFILL_KEEP {
      tree.history := tree.history[|tree.history| - BACKFILL_KEEP..];
    }
  }

  /** The backfill of one tree: the guards, then the plan stored. */
  method BackfillTree(tree: Tree, now: int) returns (saved: bool)
    modifies tree
    ensures tree.State() == BackfilledState(old(tree.State()), tree.category, now)
    ensures saved <==> PlanFor(old(tree.history), tree.category, now).Some?
  {
    saved := false;
    if |tree.history| == 0 {
      return;
    }
    var lastEntry := tree.history[|tree.history| - 1];
    var lastDate := lastEntry.date;
    var diffMs := now - lastDate;
    var missedTicks := MissedTicks(diffMs);
    if missedTicks > 2 {
      var chance := SunnyChance(tree.category);
      var totalLoss := TotalLoss(missedTicks, chance);
      if totalLoss > 0 {
        // pointsToCreate, lossPerPoint and timeStep
        var p := MakePlan(lastEntry, missedTicks, totalLoss, now);
        assert PlanFor(old(tree.history), tree.category, now) == Some(p);
        MakePlanArgs(lastEntry, missedTicks, totalLoss, now);
        BackfilledStateOf(old(tree.State()), tree.category, now, p);
        StorePlan(tree, p, now);
        saved := true;
      }
    }
  }

  /** `fillMissingHistoryOnStart`: every tree of the collection in turn. */
  method FillMissingHistoryOnStart(trees: seq<Tree>, now: int)
    requires forall i, j :: 0 <= i < j < |trees| ==> trees[i] != trees[j]
    modifies trees
    ensures forall t :: t in trees ==> t.State() == BackfilledState(old(t.State()), t.category, now)
  {
    var i := 0;
    while i < |trees|
      invariant 0 <= i <= |trees|
      invariant forall j :: 0 <= j < i ==> trees[j].State() == BackfilledState(old(trees[j].State()), trees[j].category, now)
      invariant forall j :: i <= j < |trees| ==> trees[j].State() == old(trees[j].State())
    {
      label before:
      var _ := BackfillTree(trees[i], now);
      forall j | 0 <= j < |trees| && j != i
        ensures trees[j].State() == old@before(trees[j].State())
      {
        assert trees[j] != trees[i];
      }
      i := i + 1;
    }
  }
}
