/** The older whole-forest simulation of server/weatherService.js: one weather
    reading for the whole city, a fixed integer change per category and
    weather, and a history of at most 25 samples. */
module LegacyWeather {
  import opened Wrappers
  import opened Models
  import opened OpenMeteo
  import TreeService

  /** The file's own copy of the status thresholds. */
  function CalculateStatus(level: real): (s: Status)
    ensures s == TreeService.CalculateStatus(level)
  {
    if level >= 60.0 then Healthy
    else if level > 20.0 then Thirsty
    else Critical
  }

  /** One row of WEATHER_COEFF: the change of one tick per weather. */
  datatype Coeffs = Coeffs(sunny: int, cloudy: int, rainy: int)

  const WEATHER_COEFF: map<string, Coeffs> := map[
    "tree" := Coeffs(-5, -2, 10),
    "flowerbed" := Coeffs(-6, -3, 12),
    "vertical_garden" := Coeffs(-6, -3, 10),
    "hedge" := Coeffs(-4, -1, 8),
    "bush" := Coeffs(-4, -1, 8),
    "potted" := Coeffs(-8, -4, 5),
    "succulent" := Coeffs(-1, 0, 2),
    "default" := Coeffs(-5, -2, 10)
  ]

  /** The row for a category; unknown categories use `default`. Sun takes at
      least as much as clouds, clouds never add, rain always adds. */
  function CoeffsFor(category: string): (c: Coeffs)
    ensures category in WEATHER_COEFF ==> c == WEATHER_COEFF[category]
    ensures category !in WEATHER_COEFF ==> c == Coeffs(-5, -2, 10)
    ensures c.sunny <= c.cloudy <= 0 < c.rainy
  {
    if category in WEATHER_COEFF then WEATHER_COEFF[category] else WEATHER_COEFF["default"]
  }

  function Change(c: Coeffs, w: Weather): int {
    match w
    case Rainy => c.rainy
    case Sunny => c.sunny
    case Cloudy => c.cloudy
  }

  /** The history is shifted once it holds more than this many samples. */
  const LEGACY_HISTORY_CAP: nat := 24

  /** One tick of one tree. */
  function LegacyStep(s: TreeState, category: string, w: Weather, now: int): TreeState {
    var level := Clamp(s.waterLevel + Change(CoeffsFor(category), w) as real);
    var kept := if |s.history| > LEGACY_HISTORY_CAP then s.history[1..] else s.history;
    s.(waterLevel := level, status := CalculateStatus(level), history := kept + [Sample(level, now)])
  }

  /** What one tick does to a tree: the level moves by the row's change and is
      kept within 0 .. 100, the status follows it, the new level is the last
      sample, the oldest sample goes once more than 24 are held, and nothing
      else changes. */
  lemma LegacyStepSpec(s: TreeState, category: string, w: Weather, now: int)
    ensures var t := LegacyStep(s, category, w, now);
      && t.waterLevel == Clamp(s.waterLevel + Change(CoeffsFor(category), w) as real)
      && MIN_LEVEL <= t.waterLevel <= MAX_LEVEL
      && t.status == TreeService.CalculateStatus(t.waterLevel)
      && |t.history| > 0 && t.history[|t.history| - 1] == Sample(t.waterLevel, now)
      && (|s.history| > LEGACY_HISTORY_CAP ==> t.history[..|t.history| - 1] == s.history[1..])
      && (|s.history| <= LEGACY_HISTORY_CAP ==> t.history[..|t.history| - 1] == s.history)
      && t.city == s.city && t.lastWatered == s.lastWatered
  {
    var t := LegacyStep(s, category, w, now);
    var kept := if |s.history| > LEGACY_HISTORY_CAP then s.history[1..] else s.history;
    assert t.history[..|t.history| - 1] == kept;
  }

  /** The history never grows past 25 samples once it is within that bound. */
  lemma LegacyHistoryBounded(s: TreeState, category: string, w: Weather, now: int)
    requires |s.history| <= LEGACY_HISTORY_CAP + 1
    ensures |LegacyStep(s, category, w, now).history| <= LEGACY_HISTORY_CAP + 1
    ensures |LegacyStep(s, category, w, now).history| == if |s.history| > LEGACY_HISTORY_CAP then |s.history| else |s.history| + 1
  {
  }

  /** Rain never lowers a level within range and sun never raises one. */
  lemma LegacyWeatherDirection(s: TreeState, category: string, now: int)
    requires MIN_LEVEL <= s.waterLevel <= MAX_LEVEL
    ensures LegacyStep(s, category, Rainy, now).waterLevel >= s.waterLevel
    ensures LegacyStep(s, category, Sunny, now).waterLevel <= s.waterLevel
    ensures LegacyStep(s, category, Cloudy, now).waterLevel <= s.waterLevel
    ensures LegacyStep(s, category, Sunny, now).waterLevel <= LegacyStep(s, category, Cloudy, now).waterLevel
  {
  }

  /** A tree whose level or status differs from the given old values. */
  predicate Moved(t: Tree, oldWater: real, oldStatus: Status)
    reads t
  {
    t.waterLevel != oldWater || t.status != oldStatus
  }

  /** The body of the `updateForest` loop for one tree; the result is whether
      its level or status changed. */
  method TickLegacyTree(tree: Tree, w: Weather, now: int) returns (changed: bool)
    modifies tree
    ensures tree.State() == LegacyStep(old(tree.State()), tree.category, w, now)
    ensures changed <==> Moved(tree, old(tree.waterLevel), old(tree.status))
  {
    var oldStatus := tree.status;
    var oldWater := tree.waterLevel;
    var change := Change(CoeffsFor(tree.category), w);
    tree.waterLevel := Clamp(tree.waterLevel + change as real);
    tree.status := CalculateStatus(tree.waterLevel);
    if |tree.history| > LEGACY_HISTORY_CAP {
      tree.history := tree.history[1..];
    }
    tree.history := tree.history + [Sample(tree.waterLevel, now)];
    changed := tree.waterLevel != oldWater || tree.status != oldStatus;
  }

  class LegacySimulation {
    /** The module-level `currentWeather`. */
    var currentWeather: Weather

    constructor ()
      ensures currentWeather == Sunny
    {
      currentWeather := Sunny;
    }

    /** `getCurrentWeather`. */
    function GetCurrentWeather(): (w: Weather)
      reads this
      ensures w == currentWeather
    {
      currentWeather
    }

    /** `updateForest`: a failed or incomplete reading changes nothing; a
        reading sets the weather and ticks every tree; the result says whether
        any tree's level or status changed. */
    method UpdateForest(resp: Response, trees: seq<Tree>, now: int) returns (treesChanged: bool)
      requires forall i, j :: 0 <= i < j < |trees| ==> trees[i] != trees[j]
      modifies this, trees
      ensures !resp.Current? ==> currentWeather == old(currentWeather) && !treesChanged
      ensures !resp.Current? ==> forall t :: t in trees ==> t.State() == old(t.State())
      ensures resp.Current? ==> currentWeather == ClassifyField(resp.weathercode)
      ensures resp.Current? ==> forall t :: t in trees ==>
        t.State() == LegacyStep(old(t.State()), t.category, currentWeather, now)
      ensures treesChanged <==> resp.Current? && exists t :: t in trees && Moved(t, old(t.waterLevel), old(t.status))
    {
      treesChanged := false;
      if !resp.Current? {
        return;
      }
      currentWeather := ClassifyField(resp.weathercode);
      var i := 0;
      while i < |trees|
        invariant 0 <= i <= |trees|
        invariant currentWeather == ClassifyField(resp.weathercode)
        invariant forall j :: 0 <= j < i ==> trees[j].State() == LegacyStep(old(trees[j].State()), trees[j].category, currentWeather, now)
        invariant forall j :: i <= j < |trees| ==> trees[j].State() == old(trees[j].State())
        invariant treesChanged <==> exists j :: 0 <= j < i && Moved(trees[j], old(trees[j].waterLevel), old(trees[j].status))
      {
        var changed := TickLegacyTree(trees[i], currentWeather, now);
        treesChanged := treesChanged || changed;
        i := i + 1;
      }
    }
  }
}
