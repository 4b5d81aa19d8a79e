/** Grouping of trees into ~0.1 degree zones (server/services/weatherService.js,
    the first loop of `processGroupsWeather`), so that one forecast request
    serves every tree of a zone. */
module ZoneAggregator {
  import opened Wrappers
  import opened Models

  /** The placeholder city a tree carries while its name is being resolved. */
  const PENDING_CITY: string := "⏳ ..."

  /** `x.toFixed(1)`: the sign and the tenths of |x|, the nearest multiple of
      a tenth with ties going up. Two numbers give the same text exactly when
      they give the same pair (so -0.01 and 0.01 differ: "-0.0" and "0.0"). */
  datatype Fixed1 = Fixed1(negative: bool, tenths: int)

  function ToFixed1(x: real): Fixed1 {
    if x < 0.0 then Fixed1(true, JsRound(-x * 10.0)) else Fixed1(false, JsRound(x * 10.0))
  }

  /** The group key `${lat.toFixed(1)}_${lng.toFixed(1)}`. */
  datatype ZoneKey = ZoneKey(lat: Fixed1, lng: Fixed1)

  function KeyOf(loc: Location): ZoneKey {
    ZoneKey(ToFixed1(loc.lat), ToFixed1(loc.lng))
  }

  /** The projection `Tree.find({}, 'location city')` reads. */
  datatype TreeBasic = TreeBasic(id: Id, location: Option<Location>, city: string)

  /** One group: the representative coordinate, the city name and the ids of
      the member trees in encounter order. */
  datatype Zone = Zone(lat: real, lng: real, cityName: string, treeIds: seq<Id>)

  /** The `groups` object: its entries and its key insertion order (the order
      in which `for (const key in groups)` visits them). */
  datatype Groups = Groups(zones: map<ZoneKey, Zone>, order: seq<ZoneKey>)

  /** `t.location && t.location.lat`: a tree without a location, or at
      latitude 0, is skipped. */
  predicate Located(t: TreeBasic) {
    t.location.Some? && t.location.value.lat != 0.0
  }

  predicate InZone(t: TreeBasic, k: ZoneKey) {
    Located(t) && KeyOf(t.location.value) == k
  }

  /** One iteration of the grouping loop. */
  function Join(g: Groups, t: TreeBasic): Groups {
    if !Located(t) then g
    else
      var loc := t.location.value;
      var k := KeyOf(loc);
      var z := if k in g.zones then g.zones[k] else Zone(loc.lat, loc.lng, t.city, []);
      var z' := if z.cityName == "" && t.city != "" && t.city != PENDING_CITY then z.(cityName := t.city) else z;
      Groups(g.zones[k := z'.(treeIds := z'.treeIds + [t.id])],
             if k in g.zones then g.order else g.order + [k])
  }

  /** The groups after the loop has visited all of `ts`. */
  function Grouping(ts: seq<TreeBasic>): Groups
    decreases |ts|
  {
    if ts == [] then Groups(map[], []) else Join(Grouping(ts[..|ts| - 1]), ts[|ts| - 1])
  }

  /** Reference definition: the ids of the trees of zone `k`, in encounter order. */
  function MembersOf(ts: seq<TreeBasic>, k: ZoneKey): seq<Id>
    decreases |ts|
  {
    if ts == [] then []
    else MembersOf(ts[..|ts| - 1], k) + (if InZone(ts[|ts| - 1], k) then [ts[|ts| - 1].id] else [])
  }

  /** Reference definition: the location of the first tree of zone `k`. */
  function Anchor(ts: seq<TreeBasic>, k: ZoneKey): Option<Location>
    decreases |ts|
  {
    if ts == [] then None
    else
      var a := Anchor(ts[..|ts| - 1], k);
      if a.Some? then a
      else if InZone(ts[|ts| - 1], k) then ts[|ts| - 1].location
      else None
  }

  /** The keys of the groups are exactly the zones of located trees, each
      listed once, in the order the loop first meets them. */
  lemma {:induction false} GroupingKeys(ts: seq<TreeBasic>)
    ensures forall k :: k in Grouping(ts).zones <==> k in Grouping(ts).order
    ensures forall i, j :: 0 <= i < j < |Grouping(ts).order| ==> Grouping(ts).order[i] != Grouping(ts).order[j]
    decreases |ts|
  {
    if ts != [] {
      var p := ts[..|ts| - 1];
      GroupingKeys(p);
      var g, t := Grouping(p), ts[|ts| - 1];
      assert Grouping(ts) == Join(g, t);
      if Located(t) {
        var k := KeyOf(t.location.value);
        var g' := Join(g, t);
        assert g'.zones.Keys == g.zones.Keys + {k};
        assert g'.order == if k in g.zones then g.order else g.order + [k];
      }
    }
  }

  /** Each group lists exactly the trees of its zone, in encounter order, and
      sits at the coordinate of the first of them; a key without a group has
      no member and no anchor. */
  lemma {:induction false} GroupingMembers(ts: seq<TreeBasic>, k: ZoneKey)
    ensures k in Grouping(ts).zones ==> Grouping(ts).zones[k].treeIds == MembersOf(ts, k)
    ensures k in Grouping(ts).zones ==>
      Anchor(ts, k) == Some(Location(Grouping(ts).zones[k].lat, Grouping(ts).zones[k].lng))
    ensures k !in Grouping(ts).zones ==> MembersOf(ts, k) == [] && Anchor(ts, k) == None
    decreases |ts|
  {
    if ts != [] {
      var p := ts[..|ts| - 1];
      GroupingMembers(p, k);
      var g, t := Grouping(p), ts[|ts| - 1];
      assert Grouping(ts) == Join(g, t);
    }
  }

  /** A tree is in a zone's member list exactly when it is located in that
      zone: so every located tree joins exactly one group. */
  lemma {:induction false} MembersOfIn(ts: seq<TreeBasic>, k: ZoneKey, id: Id)
    ensures id in MembersOf(ts, k) <==> exists i :: 0 <= i < |ts| && ts[i].id == id && InZone(ts[i], k)
    decreases |ts|
  {
    if ts != [] {
      var p := ts[..|ts| - 1];
      MembersOfIn(p, k, id);
      if id in MembersOf(ts, k) && id !in MembersOf(p, k) {
        assert ts[|ts| - 1].id == id && InZone(ts[|ts| - 1], k);
      }
      if id !in MembersOf(ts, k) {
        forall i | 0 <= i < |ts| && ts[i].id == id
          ensures !InZone(ts[i], k)
        {
          if i < |p| { assert ts[i] == p[i]; }
        }
      }
      if id in MembersOf(p, k) {
        var i :| 0 <= i < |p| && p[i].id == id && InZone(p[i], k);
        assert ts[i] == p[i];
      }
    }
  }

  /** The anchor is the location of the first tree of the zone. */
  lemma {:induction false} AnchorIsFirst(ts: seq<TreeBasic>, k: ZoneKey)
    ensures Anchor(ts, k).Some? <==> exists i :: 0 <= i < |ts| && InZone(ts[i], k)
    ensures Anchor(ts, k).Some? ==>
      exists i :: 0 <= i < |ts| && InZone(ts[i], k) && ts[i].location == Anchor(ts, k)
        && forall j :: 0 <= j < i ==> !InZone(ts[j], k)
    decreases |ts|
  {
    if ts != [] {
      var p := ts[..|ts| - 1];
      AnchorIsFirst(p, k);
      if Anchor(p, k).Some? {
        var i :| 0 <= i < |p| && InZone(p[i], k) && p[i].location == Anchor(p, k)
          && forall j :: 0 <= j < i ==> !InZone(p[j], k);
        assert ts[i] == p[i];
        assert forall j :: 0 <= j < i ==> ts[j] == p[j];
      } else {
        assert forall j :: 0 <= j < |p| ==> ts[j] == p[j];
        if exists i :: 0 <= i < |ts| && InZone(ts[i], k) {
          assert InZone(ts[|ts| - 1], k);
        }
      }
    }
  }

  /** The grouping loop of `processGroupsWeather`. */
  method GroupByZone(ts: seq<TreeBasic>) returns (groups: Groups)
    ensures groups == Grouping(ts)
  {
    var zones: map<ZoneKey, Zone> := map[];
    var order: seq<ZoneKey> := [];
    var i := 0;
    while i < |ts|
      invariant 0 <= i <= |ts|
      invariant Groups(zones, order) == Grouping(ts[..i])
    {
      var t := ts[i];
      assert ts[..i + 1][..i] == ts[..i];
      if t.location.Some? && t.location.value.lat != 0.0 {
        var key := KeyOf(t.location.value);
        if key !in zones {
          zones := zones[key := Zone(t.location.value.lat, t.location.value.lng, t.city, [])];
          order := order + [key];
        }
        if zones[key].cityName == "" && t.city != "" && t.city != PENDING_CITY {
          zones := zones[key := zones[key].(cityName := t.city)];
        }
        zones := zones[key := zones[key].(treeIds := zones[key].treeIds + [t.id])];
      }
      i := i + 1;
    }
    assert ts[..i] == ts;
    groups := Groups(zones, order);
  }
}
