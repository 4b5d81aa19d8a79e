/** The records the server keeps (server/models/Tree.js, server/models/User.js)
    and the shared configuration (server/config/constants.js), together with
    the small numeric primitives of JavaScript the services rely on. */
module Models {
  import opened Wrappers

  /** Document identifiers (Mongo ObjectIds) are compared for equality only. */
  type Id = string

  /** Tree.status: the three values the schema's enum admits. */
  datatype Status = Healthy | Thirsty | Critical

  /** One entry of Tree.history: a water level and its date in milliseconds. */
  datatype Sample = Sample(val: real, date: int)

  datatype Location = Location(lat: real, lng: real)

  /** Interval of the weather simulation (10 minutes). */
  const TICK_RATE: int := 600000

  /** THRESHOLDS: at or above `healthy` a plant is healthy, at or below `thirsty` critical. */
  const THRESHOLD_HEALTHY: real := 60.0
  const THRESHOLD_THIRSTY: real := 20.0

  /** The range of Tree.waterLevel declared by the schema. */
  const MIN_LEVEL: real := 0.0
  const MAX_LEVEL: real := 100.0

  /** ACTION_VALUES: the care gain per category, with its `default` row. */
  const ACTION_VALUES: map<string, real> :=
    map["tree" := 20.0, "flowerbed" := 20.0, "vertical_garden" := 20.0,
        "hedge" := 30.0, "bush" := 30.0, "potted" := 40.0, "succulent" := 15.0,
        "default" := 20.0]

  /** `ACTION_VALUES[category] || ACTION_VALUES.default`. */
  function ActionValue(category: string): (gain: real)
    ensures category in ACTION_VALUES ==> gain == ACTION_VALUES[category]
    ensures category !in ACTION_VALUES ==> gain == 20.0
    ensures 15.0 <= gain <= 40.0
  {
    if category in ACTION_VALUES && ACTION_VALUES[category] != 0.0 then ACTION_VALUES[category]
    else ACTION_VALUES["default"]
  }

  /** `Math.min(Math.max(x, 0), 100)`. */
  function Clamp(x: real): (r: real)
    ensures MIN_LEVEL <= r <= MAX_LEVEL
    ensures MIN_LEVEL <= x <= MAX_LEVEL ==> r == x
    ensures x < MIN_LEVEL ==> r == MIN_LEVEL
    ensures x > MAX_LEVEL ==> r == MAX_LEVEL
  {
    if x < MIN_LEVEL then MIN_LEVEL else if x > MAX_LEVEL then MAX_LEVEL else x
  }

  function Max(a: real, b: real): real { if a >= b then a else b }

  /** `Math.round`: the nearest integer, halves rounded up. */
  function JsRound(x: real): (r: int)
    ensures r as real - 0.5 <= x < r as real + 0.5
  {
    (x + 0.5).Floor
  }

  /** The minute bucket of a timestamp. The source compares the local calendar
      fields year, month, day, hour and minute; this model uses whole minutes
      since the epoch. */
  function MinuteOf(ts: int): int { ts / 60000 }

  lemma MinuteOfMonotone(a: int, b: int)
    requires a <= b
    ensures MinuteOf(a) <= MinuteOf(b)
  {
  }

  /** The fields of a tree that the services change, as one value. */
  datatype TreeState = TreeState(
    city: string, waterLevel: real, status: Status, lastWatered: int, history: seq<Sample>)

  /** A Tree document. Neither `city` nor `history` is declared by the Tree
      schema, but the services read and write both; the empty string stands
      for a missing city. */
  class Tree {
    const id: Id
    const category: string
    const location: Option<Location>
    var city: string
    var waterLevel: real
    var status: Status
    var lastWatered: int
    var history: seq<Sample>

    constructor (id: Id, category: string, location: Option<Location>, s: TreeState)
      ensures this.id == id && this.category == category && this.location == location
      ensures State() == s
    {
      this.id := id;
      this.category := category;
      this.location := location;
      city := s.city;
      waterLevel := s.waterLevel;
      status := s.status;
      lastWatered := s.lastWatered;
      history := s.history;
    }

    function State(): TreeState
      reads this
    {
      TreeState(city, waterLevel, status, lastWatered, history)
    }
  }

  /** A User document. `adoptedTrees` is not declared by the User schema but
      is read and written by the adopt route; `None` stands for the field
      being unset. */
  class User {
    const id: Id
    var xp: int
    var level: int
    var badges: seq<string>
    var adoptedTrees: Option<seq<Id>>

    constructor (id: Id, xp: int, level: int, badges: seq<string>, adoptedTrees: Option<seq<Id>>)
      ensures this.id == id && this.xp == xp && this.level == level
      ensures this.badges == badges && this.adoptedTrees == adoptedTrees
    {
      this.id := id;
      this.xp := xp;
      this.level := level;
      this.badges := badges;
      this.adoptedTrees := adoptedTrees;
    }
  }
}
