/** The live weather tick of server/services/weatherService.js: the
    per-category transition table, the probabilistic clamp-and-record step for
    one tree, and `processGroupsWeather`, which runs it for every zone and
    publishes the per-zone weather map. */
module WeatherService {
  import opened Wrappers
  import opened Models
  import opened OpenMeteo
  import TreeService
  import opened ZoneAggregator

  /** The service's own copy of the thresholds (60 and 20 written inline). */
  function CalculateStatus(level: real): (s: Status)
    ensures s == TreeService.CalculateStatus(level)
  {
    if level >= 60.0 then Healthy
    else if level > 20.0 then Thirsty
    else Critical
  }

  /** One row of WEATHER_CHANCE: the probability of a change per weather. */
  datatype Chances = Chances(sunny: real, cloudy: real, rainy: real)

  const WEATHER_CHANCE: map<string, Chances> :=
    map["tree" := Chances(0.15, 0.05, 1.0),
        "flowerbed" := Chances(0.20, 0.10, 1.0),
        "vertical_garden" := Chances(0.20, 0.10, 1.0),
        "hedge" := Chances(0.10, 0.02, 1.0),
        "bush" := Chances(0.10, 0.02, 1.0),
        "potted" := Chances(0.25, 0.15, 1.0),
        "succulent" := Chances(0.02, 0.00, 0.5),
        "default" := Chances(0.15, 0.05, 1.0)]

  /** `WEATHER_CHANCE[tree.category] || WEATHER_CHANCE.default`. */
  function ChancesFor(category: string): (c: Chances)
    ensures category in WEATHER_CHANCE ==> c == WEATHER_CHANCE[category]
    ensures category !in WEATHER_CHANCE ==> c == Chances(0.15, 0.05, 1.0)
    ensures 0.0 < c.sunny <= 1.0 && 0.0 <= c.cloudy <= 1.0 && 0.0 < c.rainy <= 1.0
  {
    if category in WEATHER_CHANCE then WEATHER_CHANCE[category] else WEATHER_CHANCE["default"]
  }

  /** The chance that applies under `w`. */
  function ChanceOf(category: string, w: Weather): real {
    var c := ChancesFor(category);
    match w
    case Rainy => c.rainy
    case Sunny => c.sunny
    case Cloudy => c.cloudy
  }

  /** CHANGE_AMOUNT: one point lost in sun or clouds, three gained in rain. */
  function ChangeAmount(w: Weather): (amount: int)
    ensures w == Rainy ==> amount == 3
    ensures w != Rainy ==> amount == -1
  {
    match w
    case Sunny => -1
    case Cloudy => -1
    case Rainy => 3
  }

  /** Every category but succulent is certain to change in the rain. */
  lemma RainIsCertain(category: string)
    requires category != "succulent"
    ensures ChanceOf(category, Rainy) == 1.0
  {
  }

  /** The new level a tick sets for draw `r`, or `None` when the level stays:
      the draw exceeded the chance, or clamping left the level as it was. */
  function TickLevel(level: real, category: string, w: Weather, r: real): (v: Option<real>)
  {
    if r <= ChanceOf(category, w) then
      var newVal := Clamp(level + ChangeAmount(w) as real);
      if newVal != level then Some(newVal) else None
    else None
  }

  /** A tick changes a level only when the draw is within the chance, and
      only by the table amount, clamped to [0, 100]. */
  lemma TickLevelSpec(level: real, category: string, w: Weather, r: real)
    ensures TickLevel(level, category, w, r).Some? <==>
      r <= ChanceOf(category, w) && Clamp(level + ChangeAmount(w) as real) != level
    ensures TickLevel(level, category, w, r).Some? ==>
      var v := TickLevel(level, category, w, r).value;
      && MIN_LEVEL <= v <= MAX_LEVEL
      && (v == level + ChangeAmount(w) as real || v == MIN_LEVEL || v == MAX_LEVEL)
    ensures MIN_LEVEL <= level <= MAX_LEVEL && TickLevel(level, category, w, r).Some? ==>
      var v := TickLevel(level, category, w, r).value;
      (w == Rainy ==> v == (if level + 3.0 < MAX_LEVEL then level + 3.0 else MAX_LEVEL))
      && (w != Rainy ==> v == (if level >= 1.0 then level - 1.0 else MIN_LEVEL))
  {
  }

  /** Under rain every category but succulent gains min(level + 3, 100),
      whatever the draw. */
  lemma RainRaisesLevel(level: real, category: string, r: real)
    requires category != "succulent"
    requires 0.0 <= r < 1.0
    requires MIN_LEVEL <= level <= MAX_LEVEL
    ensures level < MAX_LEVEL ==>
      TickLevel(level, category, Rainy, r) == Some(if level + 3.0 < MAX_LEVEL then level + 3.0 else MAX_LEVEL)
    ensures level == MAX_LEVEL ==> TickLevel(level, category, Rainy, r) == None
  {
    RainIsCertain(category);
  }

  /** The state a tick leaves: unchanged when the level stays, otherwise the
      new level, its status and the sample appended with at most the oldest
      entry dropped beyond 50. */
  function TickState(s: TreeState, category: string, w: Weather, r: real, now: int): TreeState {
    match TickLevel(s.waterLevel, category, w, r)
    case None => s
    case Some(v) =>
      s.(waterLevel := v, status := CalculateStatus(v),
         history := TreeService.CapHistory(s.history + [Sample(v, now)]))
  }

  /** What a tick guarantees about the record. */
  lemma TickStateSpec(s: TreeState, category: string, w: Weather, r: real, now: int)
    ensures var t := TickState(s, category, w, r, now);
      match TickLevel(s.waterLevel, category, w, r)
      case None => t == s
      case Some(v) =>
        && t.waterLevel == v && t.status == TreeService.CalculateStatus(v)
        && |t.history| > 0 && t.history[|t.history| - 1] == Sample(v, now)
        && t.city == s.city && t.lastWatered == s.lastWatered
    ensures |s.history| <= TreeService.HISTORY_CAP ==>
      |TickState(s, category, w, r, now).history| <= TreeService.HISTORY_CAP
  {
  }

  /** A tree whose record is consistent (level in range, status derived from
      it, history within the cap) stays consistent through a tick. */
  ghost predicate Consistent(s: TreeState) {
    && MIN_LEVEL <= s.waterLevel <= MAX_LEVEL
    && s.status == TreeService.CalculateStatus(s.waterLevel)
    && |s.history| <= TreeService.HISTORY_CAP
  }

  lemma TickPreservesConsistent(s: TreeState, category: string, w: Weather, r: real, now: int)
    requires Consistent(s)
    ensures Consistent(TickState(s, category, w, r, now))
  {
    TickStateSpec(s, category, w, r, now);
  }

  /** `if (group.cityName && (!tree.city || tree.city === '⏳ ...'))`. */
  function AdoptCity(treeCity: string, zoneCity: string): string {
    if zoneCity != "" && (treeCity == "" || treeCity == PENDING_CITY) then zoneCity else treeCity
  }

  /** The whole effect of one tick on one tree of a zone. */
  function TreeTick(s: TreeState, category: string, w: Weather, zoneCity: string, r: real, now: int): TreeState {
    TickState(s.(city := AdoptCity(s.city, zoneCity)), category, w, r, now)
  }

  /** The body of the per-tree loop of `processGroupsWeather`. */
  method TickTree(tree: Tree, w: Weather, zoneCity: string, r: real, now: int) returns (updated: bool)
    modifies tree
    ensures tree.State() == TreeTick(old(tree.State()), tree.category, w, zoneCity, r, now)
    ensures updated <==> TickLevel(old(tree.waterLevel), tree.category, w, r).Some?
  {
    if zoneCity != "" && (tree.city == "" || tree.city == PENDING_CITY) {
      tree.city := zoneCity;
    }
    ghost var adopted := tree.State();
    assert TreeTick(old(tree.State()), tree.category, w, zoneCity, r, now) == TickState(adopted, tree.category, w, r, now);
    var chances := ChancesFor(tree.category);
    var chance, amount;
    if w == Rainy {
      chance, amount := chances.rainy, ChangeAmount(Rainy);
    } else if w == Sunny {
      chance, amount := chances.sunny, ChangeAmount(Sunny);
    } else {
      chance, amount := chances.cloudy, ChangeAmount(Cloudy);
    }
    assert chance == ChanceOf(tree.category, w) && amount == ChangeAmount(w);
    updated := false;
    if r <= chance {
      var oldWater := tree.waterLevel;
      var newVal := Clamp(tree.waterLevel + amount as real);
      if newVal != oldWater {
        RecordLevel(tree, newVal, now);
        updated := true;
      }
    }
  }

  /** The write of a changed level: the level, its status, and the sample
      pushed with the oldest entry dropped beyond 50. */
  method RecordLevel(tree: Tree, newVal: real, now: int)
    modifies tree
    ensures tree.State() == old(tree.State()).(waterLevel := newVal, status := CalculateStatus(newVal),
                                               history := TreeService.CapHistory(old(tree.history) + [Sample(newVal, now)]))
  {
    tree.waterLevel := newVal;
    tree.status := CalculateStatus(newVal);
    tree.history := tree.history + [Sample(newVal, now)];
    if |tree.history| > TreeService.HISTORY_CAP {
      tree.history := tree.history[1..];
    }
  }

  /** The weather a zone gets: the classified code, or sunny when the request
      failed or the body had no `current_weather`. */
  function ResolveWeather(resp: Response): (w: Weather)
    ensures resp.Current? ==> w == ClassifyField(resp.weathercode)
    ensures !resp.Current? ==> w == Sunny
  {
    match resp
    case Current(code) => ClassifyField(code)
    case _ => Sunny
  }

  /** `getCurrentWeather`: a constant, whatever the zones report. */
  function CurrentWeather(): (w: Weather)
    ensures w == Sunny
  {
    Sunny
  }

  /** The key of `cityWeatherMap`: the zone's city name, or `Zona <key>`. */
  datatype MapKey = CityKey(name: string) | ZoneLabel(key: ZoneKey)

  /** The zone's city name after the reverse lookup: `geocode` is what
      `fetchCityName` returns for the representative coordinate ("" for null),
      asked only when the name is missing or the placeholder. */
  function ResolvedCity(z: Zone, geocode: (real, real) -> string): string {
    if z.cityName == "" || z.cityName == PENDING_CITY then
      var found := geocode(z.lat, z.lng);
      if found != "" then found else z.cityName
    else z.cityName
  }

  function MapKeyOf(k: ZoneKey, city: string): MapKey {
    if city != "" then CityKey(city) else ZoneLabel(k)
  }

  predicate WellFormed(g: Groups) {
    forall k :: k in g.order ==> k in g.zones
  }

  /** The map key of the `i`-th zone. */
  function KeyAt(g: Groups, geocode: (real, real) -> string, i: nat): MapKey
    requires WellFormed(g) && i < |g.order|
  {
    MapKeyOf(g.order[i], ResolvedCity(g.zones[g.order[i]], geocode))
  }

  /** The weather reported for the `i`-th zone. */
  function WeatherAt(g: Groups, forecast: (real, real) -> Response, i: nat): Weather
    requires WellFormed(g) && i < |g.order|
  {
    var z := g.zones[g.order[i]];
    ResolveWeather(forecast(z.lat, z.lng))
  }

  /** `cityWeatherMap` after the first `n` zones: each zone's weather under
      its key, later zones overwriting earlier ones with the same key. */
  function WeatherMap(g: Groups, geocode: (real, real) -> string, forecast: (real, real) -> Response, n: nat): map<MapKey, Weather>
    requires WellFormed(g) && n <= |g.order|
  {
    if n == 0 then map[]
    else WeatherMap(g, geocode, forecast, n - 1)[KeyAt(g, geocode, n - 1) := WeatherAt(g, forecast, n - 1)]
  }

  /** The last of the first `n` zones whose key is `mk`, if any. */
  function LastZone(g: Groups, geocode: (real, real) -> string, n: nat, mk: MapKey): (r: Option<nat>)
    requires WellFormed(g) && n <= |g.order|
    ensures r.Some? ==> r.value < n
  {
    if n == 0 then None
    else if KeyAt(g, geocode, n - 1) == mk then Some(n - 1)
    else LastZone(g, geocode, n - 1, mk)
  }

  /** A key is in the map exactly when some zone has it, and it holds the
      weather of the last such zone, no later zone sharing the key. */
  lemma {:induction false} WeatherMapSpec(g: Groups, geocode: (real, real) -> string, forecast: (real, real) -> Response,
                                          n: nat, mk: MapKey)
    requires WellFormed(g) && n <= |g.order|
    ensures mk in WeatherMap(g, geocode, forecast, n) <==> LastZone(g, geocode, n, mk).Some?
    ensures LastZone(g, geocode, n, mk).Some? ==>
      var i := LastZone(g, geocode, n, mk).value;
      && KeyAt(g, geocode, i) == mk
      && WeatherMap(g, geocode, forecast, n)[mk] == WeatherAt(g, forecast, i)
      && (forall j :: i < j < n ==> KeyAt(g, geocode, j) != mk)
  {
    if n > 0 {
      var m := WeatherMap(g, geocode, forecast, n);
      var prev := WeatherMap(g, geocode, forecast, n - 1);
      assert m == prev[KeyAt(g, geocode, n - 1) := WeatherAt(g, forecast, n - 1)];
      if KeyAt(g, geocode, n - 1) != mk {
        WeatherMapSpec(g, geocode, forecast, n - 1, mk);
        assert mk in m <==> mk in prev;
      }
    }
  }

  /** Every zone appears in the map. */
  lemma WeatherMapCovers(g: Groups, geocode: (real, real) -> string, forecast: (real, real) -> Response, n: nat, i: nat)
    requires WellFormed(g) && i < n <= |g.order|
    ensures KeyAt(g, geocode, i) in WeatherMap(g, geocode, forecast, n)
  {
    var mk := KeyAt(g, geocode, i);
    WeatherMapSpec(g, geocode, forecast, n, mk);
    if LastZone(g, geocode, n, mk).None? {
      LastZoneNone(g, geocode, n, mk, i);
    }
  }

  lemma {:induction false} LastZoneNone(g: Groups, geocode: (real, real) -> string, n: nat, mk: MapKey, i: nat)
    requires WellFormed(g) && i < n <= |g.order| && KeyAt(g, geocode, i) == mk
    ensures LastZone(g, geocode, n, mk).Some?
  {
    if i < n - 1 && KeyAt(g, geocode, n - 1) != mk {
      LastZoneNone(g, geocode, n - 1, mk, i);
    }
  }

  /** The snapshot the grouping reads. */
  function Basics(trees: seq<Tree>): (b: seq<TreeBasic>)
    reads trees
    ensures |b| == |trees|
    ensures forall i :: 0 <= i < |trees| ==>
      b[i] == TreeBasic(trees[i].id, trees[i].location, trees[i].city)
  {
    if trees == [] then []
    else Basics(trees[..|trees| - 1]) + [TreeBasic(trees[|trees| - 1].id, trees[|trees| - 1].location, trees[|trees| - 1].city)]
  }

  /** `Tree.find({ _id: { $in: ids } })`: the trees whose id is listed, in
      storage order. */
  function Fetch(trees: seq<Tree>, ids: seq<Id>): (r: seq<Tree>)
    ensures forall i :: 0 <= i < |r| ==> r[i] in trees && r[i].id in ids
    ensures forall i :: 0 <= i < |trees| && trees[i].id in ids ==> trees[i] in r
    ensures (forall i, j :: 0 <= i < j < |trees| ==> trees[i] != trees[j]) ==>
      forall i, j :: 0 <= i < j < |r| ==> r[i] != r[j]
  {
    if trees == [] then []
    else Fetch(trees[..|trees| - 1], ids) + (if trees[|trees| - 1].id in ids then [trees[|trees| - 1]] else [])
  }

  predicate IsLocated(t: Tree) {
    t.location.Some? && t.location.value.lat != 0.0
  }

  function TreeKey(t: Tree): ZoneKey
    requires IsLocated(t)
  {
    KeyOf(t.location.value)
  }

  /** The `i`-th tree's id is listed for zone `k` exactly when it lies in `k`. */
  lemma MemberAt(trees: seq<Tree>, basics: seq<TreeBasic>, k: ZoneKey, i: nat)
    requires forall i, j :: 0 <= i < j < |trees| ==> trees[i].id != trees[j].id
    requires |basics| == |trees| && i < |trees|
    requires forall i :: 0 <= i < |trees| ==> basics[i].id == trees[i].id && basics[i].location == trees[i].location
    ensures trees[i].id in MembersOf(basics, k) <==> IsLocated(trees[i]) && TreeKey(trees[i]) == k
  {
    MembersOfIn(basics, k, trees[i].id);
    if trees[i].id in MembersOf(basics, k) {
      var j :| 0 <= j < |basics| && basics[j].id == trees[i].id && InZone(basics[j], k);
      assert trees[j].id == trees[i].id;
      assert i == j;
    } else {
      assert !InZone(basics[i], k);
    }
  }

  /** The documents fetched for zone `k` are exactly the trees located in it. */
  lemma FetchZone(trees: seq<Tree>, basics: seq<TreeBasic>, k: ZoneKey)
    requires forall i, j :: 0 <= i < j < |trees| ==> trees[i].id != trees[j].id
    requires |basics| == |trees|
    requires forall i :: 0 <= i < |trees| ==> basics[i].id == trees[i].id && basics[i].location == trees[i].location
    ensures forall t :: t in Fetch(trees, MembersOf(basics, k)) <==> t in trees && IsLocated(t) && TreeKey(t) == k
  {
    var ids := MembersOf(basics, k);
    var docs := Fetch(trees, ids);
    forall t | t in trees
      ensures t in docs <==> IsLocated(t) && TreeKey(t) == k
    {
      var i :| 0 <= i < |trees| && trees[i] == t;
      MemberAt(trees, basics, k, i);
      if t in docs {
        var j :| 0 <= j < |docs| && docs[j] == t;
        assert t.id in ids;
      }
    }
    forall t | t in docs
      ensures t in trees
    {
      var j :| 0 <= j < |docs| && docs[j] == t;
    }
  }

  /** Each group lists the ids of the trees of its zone, as the grouping
      builds them. */
  ghost predicate ListsMembers(g: Groups, basics: seq<TreeBasic>) {
    forall k :: k in g.zones ==> g.zones[k].treeIds == MembersOf(basics, k)
  }

  /** The trees of zone `k` get the tick with the zone's weather and city;
      every other tree is left alone. */
  method RunZone(trees: seq<Tree>, basics: seq<TreeBasic>, g: Groups, k: ZoneKey, geocode: (real, real) -> string,
                 forecast: (real, real) -> Response, draw: Id -> real, now: int)
    returns (updates: nat)
    requires forall i, j :: 0 <= i < j < |trees| ==> trees[i].id != trees[j].id
    requires |basics| == |trees|
    requires forall i :: 0 <= i < |trees| ==> basics[i].id == trees[i].id && basics[i].location == trees[i].location
    requires ListsMembers(g, basics) && k in g.zones
    modifies trees
    ensures forall t :: t in trees ==>
      t.State() == if IsLocated(t) && TreeKey(t) == k then
                     TreeTick(old(t.State()), t.category, ResolveWeather(forecast(g.zones[k].lat, g.zones[k].lng)),
                              ResolvedCity(g.zones[k], geocode), draw(t.id), now)
                   else old(t.State())
  {
    var zone := g.zones[k];
    var docs := Fetch(trees, zone.treeIds);
    FetchZone(trees, basics, k);
    updates := TickZone(docs, ResolveWeather(forecast(zone.lat, zone.lng)), ResolvedCity(zone, geocode), draw, now);
  }

  /** The effect the tick has had on tree `t` once the zones in `done` are
      processed: the tick of its zone when that zone is done, nothing
      otherwise. */
  function ZoneTick(s: TreeState, t: Tree, g: Groups, done: seq<ZoneKey>, geocode: (real, real) -> string,
                    forecast: (real, real) -> Response, draw: Id -> real, now: int): TreeState
  {
    if IsLocated(t) && TreeKey(t) in done && TreeKey(t) in g.zones then
      var z := g.zones[TreeKey(t)];
      TreeTick(s, t.category, ResolveWeather(forecast(z.lat, z.lng)), ResolvedCity(z, geocode), draw(t.id), now)
    else s
  }

  /** Zone `gi` adds its tick to the trees located in it, which no earlier
      zone has touched, and leaves every other tree as it was. */
  lemma ZoneTickStep(s: TreeState, t: Tree, g: Groups, gi: nat, geocode: (real, real) -> string,
                     forecast: (real, real) -> Response, draw: Id -> real, now: int)
    requires gi < |g.order| && g.order[gi] in g.zones
    requires forall i, j :: 0 <= i < j < |g.order| ==> g.order[i] != g.order[j]
    ensures var k := g.order[gi];
      IsLocated(t) && TreeKey(t) == k ==>
        && ZoneTick(s, t, g, g.order[..gi], geocode, forecast, draw, now) == s
        && ZoneTick(s, t, g, g.order[..gi + 1], geocode, forecast, draw, now)
             == TreeTick(s, t.category, ResolveWeather(forecast(g.zones[k].lat, g.zones[k].lng)),
                         ResolvedCity(g.zones[k], geocode), draw(t.id), now)
    ensures !(IsLocated(t) && TreeKey(t) == g.order[gi]) ==>
      ZoneTick(s, t, g, g.order[..gi + 1], geocode, forecast, draw, now) == ZoneTick(s, t, g, g.order[..gi], geocode, forecast, draw, now)
  {
    PrefixSnoc(g.order, gi);
    if IsLocated(t) && TreeKey(t) == g.order[gi] {
      assert g.order[gi] !in g.order[..gi];
    }
  }

  lemma PrefixSnoc<T>(s: seq<T>, i: nat)
    requires i < |s|
    ensures s[..i + 1] == s[..i] + [s[i]]
  {
  }

  /** Every located tree's zone is among the groups. */
  lemma LocatedTreesGrouped(trees: seq<Tree>, basics: seq<TreeBasic>)
    requires |basics| == |trees|
    requires forall i :: 0 <= i < |trees| ==> basics[i].id == trees[i].id && basics[i].location == trees[i].location
    ensures forall t :: t in trees && IsLocated(t) ==> TreeKey(t) in Grouping(basics).order
  {
    GroupingKeys(basics);
    forall t | t in trees && IsLocated(t)
      ensures TreeKey(t) in Grouping(basics).order
    {
      var i :| 0 <= i < |trees| && trees[i] == t;
      assert InZone(basics[i], TreeKey(t));
      MembersOfIn(basics, TreeKey(t), t.id);
      GroupingMembers(basics, TreeKey(t));
    }
  }

  /** The per-tree loop over the documents fetched for one zone. */
  method TickZone(docs: seq<Tree>, w: Weather, zoneCity: string, draw: Id -> real, now: int)
    returns (updates: nat)
    requires forall i, j :: 0 <= i < j < |docs| ==> docs[i] != docs[j]
    modifies docs
    ensures forall t :: t in docs ==>
      t.State() == TreeTick(old(t.State()), t.category, w, zoneCity, draw(t.id), now)
    ensures updates == 0 <==>
      forall t :: t in docs ==> TickLevel(old(t.waterLevel), t.category, w, draw(t.id)).None?
  {
    updates := 0;
    var i := 0;
    while i < |docs|
      invariant 0 <= i <= |docs|
      invariant forall j :: 0 <= j < i ==>
        docs[j].State() == TreeTick(old(docs[j].State()), docs[j].category, w, zoneCity, draw(docs[j].id), now)
      invariant forall j :: i <= j < |docs| ==> docs[j].State() == old(docs[j].State())
      invariant updates == 0 <==>
        forall j :: 0 <= j < i ==> TickLevel(old(docs[j].waterLevel), docs[j].category, w, draw(docs[j].id)).None?
    {
      label before:
      var updated := TickTree(docs[i], w, zoneCity, draw(docs[i].id), now);
      forall j | 0 <= j < |docs| && j != i
        ensures docs[j].State() == old@before(docs[j].State())
      {
        assert docs[j] != docs[i];
      }
      if updated {
        updates := updates + 1;
      }
      i := i + 1;
    }
  }

  /** The states of the trees, position by position. */
  ghost function States(trees: seq<Tree>): (r: seq<TreeState>)
    reads trees
    ensures |r| == |trees|
    ensures forall i :: 0 <= i < |trees| ==> r[i] == trees[i].State()
  {
    if trees == [] then [] else States(trees[..|trees| - 1]) + [trees[|trees| - 1].State()]
  }

  /** What the zone loop relies on: tree ids are distinct, `basics` lists the
      trees' ids and locations position by position, and `groups` is a
      well-formed grouping of them with each zone key visited once. */
  ghost predicate ZonePlan(trees: seq<Tree>, basics: seq<TreeBasic>, groups: Groups) {
    && (forall i, j :: 0 <= i < j < |trees| ==> trees[i].id != trees[j].id)
    && |basics| == |trees|
    && (forall i :: 0 <= i < |trees| ==> basics[i].id == trees[i].id && basics[i].location == trees[i].location)
    && ListsMembers(groups, basics) && WellFormed(groups)
    && (forall i, j :: 0 <= i < j < |groups.order| ==> groups.order[i] != groups.order[j])
  }

  /** Every tree is in its state after the zones in `done`, starting from `start`. */
  ghost predicate Ticked(trees: seq<Tree>, start: seq<TreeState>, groups: Groups, done: seq<ZoneKey>,
                         geocode: (real, real) -> string, forecast: (real, real) -> Response, draw: Id -> real, now: int)
    reads trees
  {
    |start| == |trees| &&
    forall i :: 0 <= i < |trees| ==> trees[i].State() == ZoneTick(start[i], trees[i], groups, done, geocode, forecast, draw, now)
  }

  /** One pass of the zone loop: zone `gi` fetched and ticked, taking every
      tree from its state after the first `gi` zones to its state after
      `gi + 1`; the entry of the zone in the weather map. */
  method ZoneStep(trees: seq<Tree>, basics: seq<TreeBasic>, groups: Groups, gi: nat, ghost start: seq<TreeState>,
                  geocode: (real, real) -> string, forecast: (real, real) -> Response, draw: Id -> real, now: int)
    returns (mapKey: MapKey, weather: Weather, updates: nat)
    requires ZonePlan(trees, basics, groups) && |start| == |trees| && gi < |groups.order|
    requires Ticked(trees, start, groups, groups.order[..gi], geocode, forecast, draw, now)
    modifies trees
    ensures mapKey == KeyAt(groups, geocode, gi) && weather == WeatherAt(groups, forecast, gi)
    ensures WeatherMap(groups, geocode, forecast, gi + 1) == WeatherMap(groups, geocode, forecast, gi)[mapKey := weather]
    ensures Ticked(trees, start, groups, groups.order[..gi + 1], geocode, forecast, draw, now)
  {
    var key := groups.order[gi];
    var zone := groups.zones[key];
    var cityName := ResolvedCity(zone, geocode);
    weather := ResolveWeather(forecast(zone.lat, zone.lng));
    mapKey := MapKeyOf(key, cityName);
    updates := RunZone(trees, basics, groups, key, geocode, forecast, draw, now);
    forall i | 0 <= i < |trees|
      ensures trees[i].State() == ZoneTick(start[i], trees[i], groups, groups.order[..gi + 1], geocode, forecast, draw, now)
    {
      assert trees[i] in trees;
      ZoneTickStep(start[i], trees[i], groups, gi, geocode, forecast, draw, now);
      assert old(trees[i].State()) == ZoneTick(start[i], trees[i], groups, groups.order[..gi], geocode, forecast, draw, now);
    }
  }

  /** The loop over the zones of `processGroupsWeather`: each zone's weather
      is recorded under its key and its trees get the tick. */
  method RunZones(trees: seq<Tree>, basics: seq<TreeBasic>, groups: Groups, geocode: (real, real) -> string,
                  forecast: (real, real) -> Response, draw: Id -> real, now: int)
    returns (cityWeatherMap: map<MapKey, Weather>, totalUpdates: nat)
    requires ZonePlan(trees, basics, groups)
    modifies trees
    ensures cityWeatherMap == WeatherMap(groups, geocode, forecast, |groups.order|)
    ensures forall i :: 0 <= i < |trees| ==>
      trees[i].State() == ZoneTick(old(trees[i].State()), trees[i], groups, groups.order, geocode, forecast, draw, now)
  {
    totalUpdates := 0;
    cityWeatherMap := map[];
    ghost var start := States(trees);
    var gi := 0;
    assert forall i :: 0 <= i < |trees| ==> ZoneTick(start[i], trees[i], groups, groups.order[..0], geocode, forecast, draw, now) == start[i];
    while gi < |groups.order|
      invariant 0 <= gi <= |groups.order|
      invariant cityWeatherMap == WeatherMap(groups, geocode, forecast, gi)
      invariant Ticked(trees, start, groups, groups.order[..gi], geocode, forecast, draw, now)
    {
      var mapKey, weather, n := ZoneStep(trees, basics, groups, gi, start, geocode, forecast, draw, now);
      cityWeatherMap := cityWeatherMap[mapKey := weather];
      totalUpdates := totalUpdates + n;
      gi := gi + 1;
    }
    assert groups.order[..gi] == groups.order;
    assert start == old(States(trees));
  }

  /** The scheduler state of the live simulation: the last published
      per-zone weather map (`currentMap`). */
  class WeatherSimulation {
    var currentMap: map<MapKey, Weather>

    constructor ()
      ensures currentMap == map[]
    {
      currentMap := map[];
    }

    /** `getLastWeatherMap`. */
    function LastWeatherMap(): (m: map<MapKey, Weather>)
      reads this
      ensures m == currentMap
    {
      currentMap
    }

    /** One tick of `processGroupsWeather`. `trees` stands for the collection
        (`Tree.find`), `geocode` and `forecast` for the reverse lookup and the
        forecast request on a zone's coordinate, `draw` for the
        `Math.random()` each tree gets. With no tree at all the tick returns
        before publishing. Otherwise each located tree has the tick of its
        zone's weather applied, every other tree is left alone, and the map
        of zone weather replaces `currentMap`. */
    method ProcessGroupsWeather(trees: seq<Tree>, geocode: (real, real) -> string,
                                forecast: (real, real) -> Response, draw: Id -> real, now: int)
      returns (totalUpdates: nat)
      requires forall i, j :: 0 <= i < j < |trees| ==> trees[i].id != trees[j].id
      modifies this, trees
      ensures trees == [] ==> currentMap == old(currentMap) && totalUpdates == 0
      ensures trees != [] ==>
        var g := old(Grouping(Basics(trees)));
        WellFormed(g) && currentMap == WeatherMap(g, geocode, forecast, |g.order|)
      ensures var g := old(Grouping(Basics(trees)));
        forall t :: t in trees && IsLocated(t) ==> TreeKey(t) in g.order
      ensures var g := old(Grouping(Basics(trees)));
        forall t :: t in trees ==>
          t.State() == ZoneTick(old(t.State()), t, g, g.order, geocode, forecast, draw, now)
    {
      totalUpdates := 0;
      if |trees| == 0 {
        return;
      }
      var basics := Basics(trees);
      var groups := GroupByZone(basics);
      GroupingKeys(basics);
      LocatedTreesGrouped(trees, basics);
      forall k | k in groups.zones
        ensures groups.zones[k].treeIds == MembersOf(basics, k)
      {
        GroupingMembers(basics, k);
      }
      var cityWeatherMap;
      cityWeatherMap, totalUpdates := RunZones(trees, basics, groups, geocode, forecast, draw, now);
      currentMap := cityWeatherMap;
      forall t | t in trees
        ensures t.State() == ZoneTick(old(t.State()), t, groups, groups.order, geocode, forecast, draw, now)
      {
        var i :| 0 <= i < |trees| && trees[i] == t;
      }
    }
  }
}
