/** The shared "apply a care delta" primitive of server/services/treeService.js:
    status from level, the one-point-per-minute history merge with its cap of
    50 entries, and `waterTreeLogic`. */
module TreeService {
  import opened Wrappers
  import opened Models

  /** The status a level maps to under THRESHOLDS. */
  function CalculateStatus(level: real): (s: Status)
    ensures s == Healthy <==> level >= 60.0
    ensures s == Thirsty <==> 20.0 < level < 60.0
    ensures s == Critical <==> level <= 20.0
  {
    if level >= THRESHOLD_HEALTHY then Healthy
    else if level > THRESHOLD_THIRSTY then Thirsty
    else Critical
  }

  /** The cap on the history that `addHistoryPoint` keeps. */
  const HISTORY_CAP: nat := 50

  predicate SameMinute(a: int, b: int) { MinuteOf(a) == MinuteOf(b) }

  /** `if (history.length > 50) history.shift()`: at most the oldest entry goes. */
  function CapHistory(h: seq<Sample>): (r: seq<Sample>)
    ensures |h| <= HISTORY_CAP + 1 ==> |r| <= HISTORY_CAP
    ensures r == h || (|h| > HISTORY_CAP && r == h[1..])
  {
    if |h| > HISTORY_CAP then h[1..] else h
  }

  /** The history after recording `val` at `date`: the last entry is
      overwritten when it lies in the same minute, otherwise the sample is
      appended; then the cap is applied. */
  function MergePoint(h: seq<Sample>, val: real, date: int): seq<Sample>
  {
    var merged :=
      if |h| > 0 && SameMinute(h[|h| - 1].date, date) then h[..|h| - 1] + [Sample(val, date)]
      else h + [Sample(val, date)];
    CapHistory(merged)
  }

  /** Same minute as the last entry: the length stays, the last entry becomes
      the new sample and the earlier entries are untouched (when the cap is
      respected beforehand). */
  lemma MergeSameMinute(h: seq<Sample>, val: real, date: int)
    requires |h| > 0 && SameMinute(h[|h| - 1].date, date)
    requires |h| <= HISTORY_CAP
    ensures |MergePoint(h, val, date)| == |h|
    ensures MergePoint(h, val, date)[..|h| - 1] == h[..|h| - 1]
    ensures MergePoint(h, val, date)[|h| - 1] == Sample(val, date)
  {
  }

  /** A different minute, or an empty history: the sample is appended as the
      last entry; when the history was full, only its oldest entry is
      dropped. */
  lemma MergeNewMinute(h: seq<Sample>, val: real, date: int)
    requires |h| == 0 || !SameMinute(h[|h| - 1].date, date)
    requires |h| <= HISTORY_CAP
    ensures |h| < HISTORY_CAP ==> MergePoint(h, val, date) == h + [Sample(val, date)]
    ensures |h| == HISTORY_CAP ==> MergePoint(h, val, date) == h[1..] + [Sample(val, date)]
  {
  }

  /** The cap holds after a merge when it held before, and the newest entry
      is always the recorded sample (the one-per-minute invariant is
      `MergeKeepsOnePerMinute`). */
  lemma MergeInvariant(h: seq<Sample>, val: real, date: int)
    requires |h| <= HISTORY_CAP
    ensures |MergePoint(h, val, date)| <= HISTORY_CAP
    ensures MergePoint(h, val, date) != []
    ensures MergePoint(h, val, date)[|MergePoint(h, val, date)| - 1] == Sample(val, date)
  {
  }

  /** No two neighbouring entries share a minute bucket. */
  ghost predicate OnePerMinute(h: seq<Sample>) {
    forall i :: 0 < i < |h| ==> !SameMinute(h[i - 1].date, h[i].date)
  }

  /** The merge keeps at most one point per minute between neighbours. */
  lemma MergeKeepsOnePerMinute(h: seq<Sample>, val: real, date: int)
    requires OnePerMinute(h)
    ensures OnePerMinute(MergePoint(h, val, date))
  {
    var merged :=
      if |h| > 0 && SameMinute(h[|h| - 1].date, date) then h[..|h| - 1] + [Sample(val, date)]
      else h + [Sample(val, date)];
    assert OnePerMinute(merged) by {
      forall i | 0 < i < |merged|
        ensures !SameMinute(merged[i - 1].date, merged[i].date)
      {
        if i < |merged| - 1 {
          assert merged[i - 1] == h[i - 1] && merged[i] == h[i];
        }
      }
    }
    if |merged| > HISTORY_CAP {
      forall i | 0 < i < |merged| - 1
        ensures !SameMinute(merged[1..][i - 1].date, merged[1..][i].date)
      {
        assert merged[1..][i - 1] == merged[i] && merged[1..][i] == merged[i + 1];
      }
    }
  }

  /** `addHistoryPoint`: overwrites the last entry in place when it is in the
      same minute, otherwise pushes a new one, then drops the oldest entry
      beyond 50. */
  method AddHistoryPoint(tree: Tree, newVal: real, date: int)
    modifies tree
    ensures tree.history == MergePoint(old(tree.history), newVal, date)
    ensures tree.State() == old(tree.State()).(history := tree.history)
  {
    var n := |tree.history|;
    var isSameMinute := false;
    if n > 0 {
      var lastDate := tree.history[n - 1].date;
      if SameMinute(lastDate, date) {
        isSameMinute := true;
      }
    }
    if isSameMinute {
      tree.history := tree.history[n - 1 := Sample(newVal, date)];
      assert tree.history == old(tree.history)[..n - 1] + [Sample(newVal, date)];
    } else {
      tree.history := tree.history + [Sample(newVal, date)];
    }
    if |tree.history| > HISTORY_CAP {
      tree.history := tree.history[1..];
    }
  }

  /** The gain of a care action: the explicit amount when given, otherwise
      the category's ACTION_VALUES entry or its default of 20. */
  function HealthGain(amount: Option<real>, category: string): (gain: real)
    ensures amount.Some? ==> gain == amount.value
    ensures amount.None? ==> gain == ActionValue(category)
    ensures amount.None? && category !in ACTION_VALUES ==> gain == 20.0
  {
    match amount
    case Some(a) => a
    case None => ActionValue(category)
  }

  /** What `waterTreeLogic` returns besides the tree. */
  datatype Watering = Watering(wasCritical: bool, healthGain: real)

  datatype TreeError = TreeNotFound

  /** The state a care action leaves: level clamped to [0, 100], status from
      the new level, the point merged into the history, `lastWatered` now. */
  function WateredState(s: TreeState, gain: real, now: int): TreeState
  {
    var newLevel := Clamp(s.waterLevel + gain);
    s.(waterLevel := newLevel, lastWatered := now, status := CalculateStatus(newLevel),
       history := MergePoint(s.history, newLevel, now))
  }

  /** A care action keeps every tree invariant: the level in range, the status
      a function of the level, the history within its cap and its last point
      the new level. */
  lemma WateredStateValid(s: TreeState, gain: real, now: int)
    requires |s.history| <= HISTORY_CAP
    ensures var t := WateredState(s, gain, now);
      && MIN_LEVEL <= t.waterLevel <= MAX_LEVEL
      && t.waterLevel == Clamp(s.waterLevel + gain)
      && t.status == CalculateStatus(t.waterLevel)
      && |t.history| <= HISTORY_CAP
      && t.history[|t.history| - 1] == Sample(t.waterLevel, now)
  {
    MergeInvariant(s.history, Clamp(s.waterLevel + gain), now);
  }

  /** `waterTreeLogic(treeId, amount)`: `found` is what `Tree.findById`
      returned. A missing tree is an error and nothing changes. */
  method WaterTreeLogic(found: Tree?, amount: Option<real>, now: int)
    returns (r: Result<Watering, TreeError>)
    modifies found
    ensures found == null ==> r == Err(TreeNotFound)
    ensures found != null ==>
      && r.Ok?
      && r.value.wasCritical == (old(found.waterLevel) <= THRESHOLD_THIRSTY)
      && r.value.healthGain == HealthGain(amount, found.category)
      && found.State() == WateredState(old(found.State()), r.value.healthGain, now)
  {
    if found == null {
      return Err(TreeNotFound);
    }
    var tree := found;
    var wasCritical := tree.waterLevel <= THRESHOLD_THIRSTY;
    var healthGain := if amount.Some? then amount.value else ActionValue(tree.category);
    var newLevel := tree.waterLevel + healthGain;
    newLevel := Clamp(newLevel);
    AddHistoryPoint(tree, newLevel, now);
    tree.waterLevel := newLevel;
    tree.lastWatered := now;
    tree.status := CalculateStatus(newLevel);
    r := Ok(Watering(wasCritical, healthGain));
  }
}
