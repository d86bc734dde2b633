/** Shard placement of src/router.rs: round-robin over the online peers, peer health, and the
    reconstruction plan. Every operation is one step; creation times are left out. */
module Router {
  import opened Numerics
  import opened Wrappers

  datatype WanPeer = WanPeer(nickname: string, address: string, geoTag: string)

  datatype ShardType = Data | Parity

  datatype ShardLocation = ShardLocation(
    address: string,
    nickname: string,
    index: nat,
    kind: ShardType,
    geoTag: string
  )

  datatype RouteEntry = RouteEntry(
    groupId: string,
    totalShards: nat,
    dataShards: nat,
    parityShards: nat,
    locations: seq<ShardLocation>
  )

  datatype RouterError = NoRoute(group: string)

  type Health = map<string, bool>

  /** A peer we have no word of counts as offline. */
  predicate IsOnline(health: Health, nickname: string) {
    nickname in health && health[nickname]
  }

  function Online(peers: seq<WanPeer>, health: Health): (online: seq<WanPeer>)
    ensures forall p <- online :: p in peers && IsOnline(health, p.nickname)
  {
    if peers == [] then []
    else
      Online(peers[..|peers| - 1], health)
      + if IsOnline(health, peers[|peers| - 1].nickname) then [peers[|peers| - 1]] else []
  }

  /** Slot `turn` of the round-robin, or ourselves if nobody is online. */
  function Host(us: WanPeer, online: seq<WanPeer>, turn: nat): WanPeer {
    if online == [] then us.(geoTag := "local") else online[turn % |online|]
  }

  /** The data places: the first with us, whatever `k`, and a turn for each of the others. */
  function DataPlace(us: WanPeer, online: seq<WanPeer>, i: nat): ShardLocation {
    var host := if i == 0 then us.(geoTag := "local") else Host(us, online, i - 1);
    ShardLocation(host.address, host.nickname, i, Data, host.geoTag)
  }

  function ParityPlace(us: WanPeer, online: seq<WanPeer>, k: nat, i: nat): ShardLocation
    requires k <= i
  {
    var host := Host(us, online, i - k);
    ShardLocation(host.address, host.nickname, i, Parity, host.geoTag)
  }

  function DataPlaces(us: WanPeer, online: seq<WanPeer>, k: nat): seq<ShardLocation> {
    seq(Max(k, 1), i requires 0 <= i => DataPlace(us, online, i))
  }

  function ParityPlaces(us: WanPeer, online: seq<WanPeer>, k: nat, total: nat): seq<ShardLocation> {
    seq(SaturatingSub(total, k), i requires 0 <= i => ParityPlace(us, online, k, k + i))
  }

  function Placement(us: WanPeer, online: seq<WanPeer>, k: nat, total: nat): seq<ShardLocation> {
    DataPlaces(us, online, k) + ParityPlaces(us, online, k, total)
  }

  lemma DataGrows(us: WanPeer, online: seq<WanPeer>, k: nat, i: nat)
    requires 1 <= i < k
    ensures var places, host := DataPlaces(us, online, k), Host(us, online, i - 1);
            && |places| == k
            && places[..i + 1] == places[..i] + [ShardLocation(host.address, host.nickname, i, Data, host.geoTag)]
  {
  }

  lemma ParityGrows(us: WanPeer, online: seq<WanPeer>, k: nat, total: nat, i: nat)
    requires k <= i < total
    ensures var places, host := ParityPlaces(us, online, k, total), Host(us, online, i - k);
            && |places| == total - k
            && places[..i - k + 1]
               == places[..i - k] + [ShardLocation(host.address, host.nickname, i, Parity, host.geoTag)]
  {
    assert ParityPlaces(us, online, k, total)[i - k] == ParityPlace(us, online, k, k + (i - k));
  }

  function LocationAt(us: WanPeer, online: seq<WanPeer>, k: nat, i: nat): ShardLocation {
    if i < k then DataPlace(us, online, i) else ParityPlace(us, online, k, i)
  }

  /** With a data shard at least, every shard has its one place. */
  lemma PlacementAt(us: WanPeer, online: seq<WanPeer>, k: nat, total: nat)
    requires 1 <= k <= total
    ensures var places := Placement(us, online, k, total);
            |places| == total && forall i :: 0 <= i < total ==> places[i] == LocationAt(us, online, k, i)
  {
  }

  /** Shards that one of our peers, or we ourselves, can deliver now. */
  predicate Reachable(us: string, health: Health, place: ShardLocation) {
    place.nickname == us || IsOnline(health, place.nickname)
  }

  function CountReachable(us: string, health: Health, places: seq<ShardLocation>): nat {
    if places == [] then 0
    else
      CountReachable(us, health, places[..|places| - 1])
      + if Reachable(us, health, places[|places| - 1]) then 1 else 0
  }

  predicate CanReconstruct(us: string, health: Health, routes: map<string, RouteEntry>, gid: string) {
    gid in routes && CountReachable(us, health, routes[gid].locations) >= routes[gid].dataShards
  }

  // ---------- The reconstruction plan ----------

  function Priority(us: string, health: Health, place: ShardLocation): nat {
    if place.nickname == us then 2 else if IsOnline(health, place.nickname) then 1 else 0
  }

  function Missing(places: seq<ShardLocation>, have: seq<nat>): seq<ShardLocation> {
    if places == [] then []
    else
      Missing(places[..|places| - 1], have)
      + if places[|places| - 1].index in have then [] else [places[|places| - 1]]
  }

  /** The places of one priority, in their order. */
  function OfPriority(us: string, health: Health, places: seq<ShardLocation>, p: nat): seq<ShardLocation> {
    if places == [] then []
    else
      OfPriority(us, health, places[..|places| - 1], p)
      + if Priority(us, health, places[|places| - 1]) == p then [places[|places| - 1]] else []
  }

  /** What a stable sort by descending priority comes to. */
  function Ranked(us: string, health: Health, places: seq<ShardLocation>): seq<ShardLocation> {
    OfPriority(us, health, places, 2) + OfPriority(us, health, places, 1) + OfPriority(us, health, places, 0)
  }

  /** Descending by priority. */
  predicate Descending(us: string, health: Health, places: seq<ShardLocation>) {
    forall i, j :: 0 <= i < j < |places| ==>
      Priority(us, health, places[j]) <= Priority(us, health, places[i])
  }

  lemma {:induction false} OfPriorityAppend(us: string, health: Health, a: seq<ShardLocation>,
                                            b: seq<ShardLocation>, p: nat)
    ensures OfPriority(us, health, a + b, p) == OfPriority(us, health, a, p) + OfPriority(us, health, b, p)
  {
    if b == [] {
      assert a + b == a;
    } else {
      var n := |b| - 1;
      assert (a + b)[..|a| + n] == a + b[..n];
      OfPriorityAppend(us, health, a, b[..n], p);
    }
  }

  /** Inserting a place behind all of its rank or better is one step of the stable sort. */
  method InsertByPriority(us: string, health: Health, ranked: seq<ShardLocation>, place: ShardLocation)
    returns (r: seq<ShardLocation>)
    requires Descending(us, health, ranked)
    ensures Descending(us, health, r)
    ensures forall p: nat :: OfPriority(us, health, r, p) == OfPriority(us, health, ranked + [place], p)
    ensures |r| == |ranked| + 1
  {
    var own := Priority(us, health, place);
    var i: nat := |ranked|;
    while 0 < i && Priority(us, health, ranked[i - 1]) < own
      invariant i <= |ranked|
      invariant forall j :: i <= j < |ranked| ==> Priority(us, health, ranked[j]) < own
    {
      i := i - 1;
    }
    r := ranked[..i] + [place] + ranked[i..];
    InsertionIsStep(us, health, ranked, i, place);
  }

  lemma InsertionIsStep(us: string, health: Health, ranked: seq<ShardLocation>, i: nat, place: ShardLocation)
    requires i <= |ranked| && Descending(us, health, ranked)
    requires forall j :: i <= j < |ranked| ==> Priority(us, health, ranked[j]) < Priority(us, health, place)
    requires 0 < i ==> Priority(us, health, place) <= Priority(us, health, ranked[i - 1])
    ensures Descending(us, health, ranked[..i] + [place] + ranked[i..])
    ensures forall p: nat :: OfPriority(us, health, ranked[..i] + [place] + ranked[i..], p)
                             == OfPriority(us, health, ranked + [place], p)
  {
    var front, back := ranked[..i], ranked[i..];
    assert ranked == front + back;
    assert forall other <- back :: Priority(us, health, other) < Priority(us, health, place);
    InsertionDescends(us, health, front, back, place);
    forall p: nat
      ensures OfPriority(us, health, front + [place] + back, p)
              == OfPriority(us, health, ranked + [place], p)
    {
      InsertionKeepsRanks(us, health, front, back, place, p);
    }
  }

  lemma InsertionDescends(us: string, health: Health, front: seq<ShardLocation>, back: seq<ShardLocation>,
                          place: ShardLocation)
    requires Descending(us, health, front + back)
    requires forall other <- back :: Priority(us, health, other) < Priority(us, health, place)
    requires front != [] ==> Priority(us, health, place) <= Priority(us, health, front[|front| - 1])
    ensures Descending(us, health, front + [place] + back)
  {
    var all, r := front + back, front + [place] + back;
    forall i | 0 <= i < |all|
      ensures all[i] == r[if i < |front| then i else i + 1]
    {
    }
    forall i, j | 0 <= i < j < |r|
      ensures Priority(us, health, r[j]) <= Priority(us, health, r[i])
    {
      if i == |front| {
        assert r[j] == back[j - |front| - 1];
      } else if j == |front| {
        assert all[i] == r[i] && all[|front| - 1] == front[|front| - 1];
      } else {
        var i', j' := if i < |front| then i else i - 1, if j < |front| then j else j - 1;
        assert all[i'] == r[i] && all[j'] == r[j];
      }
    }
  }

  lemma ThreeParts(us: string, health: Health, a: seq<ShardLocation>, b: seq<ShardLocation>,
                   c: seq<ShardLocation>, p: nat)
    ensures OfPriority(us, health, a + b + c, p)
            == OfPriority(us, health, a, p) + OfPriority(us, health, b, p) + OfPriority(us, health, c, p)
  {
    OfPriorityAppend(us, health, a + b, c, p);
    OfPriorityAppend(us, health, a, b, p);
  }

  lemma InsertionKeepsRanks(us: string, health: Health, front: seq<ShardLocation>, back: seq<ShardLocation>,
                            place: ShardLocation, p: nat)
    requires forall other <- back :: Priority(us, health, other) < Priority(us, health, place)
    ensures OfPriority(us, health, front + [place] + back, p)
            == OfPriority(us, health, front + back + [place], p)
  {
    ThreeParts(us, health, front, [place], back, p);
    ThreeParts(us, health, front, back, [place], p);
    if p == Priority(us, health, place) {
      NoneOfRank(us, health, back, p);
    } else {
      NoneOfRank(us, health, [place], p);
    }
  }

  lemma {:induction false} NoneOfRank(us: string, health: Health, places: seq<ShardLocation>, p: nat)
    requires forall place <- places :: Priority(us, health, place) != p
    ensures OfPriority(us, health, places, p) == []
  {
    if places == [] {
    } else {
      assert places == places[..|places| - 1] + [places[|places| - 1]];
      NoneOfRank(us, health, places[..|places| - 1], p);
    }
  }

  /** A descending list is its own ranking. */
  lemma {:induction false} DescendingIsRanked(us: string, health: Health, places: seq<ShardLocation>)
    requires Descending(us, health, places)
    ensures places == Ranked(us, health, places)
  {
    if places == [] {
    } else {
      var n := |places| - 1;
      DescendingIsRanked(us, health, places[..n]);
      assert places == places[..n] + [places[n]];
      RankedGrows(us, health, places[..n], places[n]);
    }
  }

  lemma RankedGrows(us: string, health: Health, front: seq<ShardLocation>, last: ShardLocation)
    requires Descending(us, health, front + [last])
    ensures Ranked(us, health, front + [last]) == Ranked(us, health, front) + [last]
  {
    assert (front + [last])[..|front|] == front && (front + [last])[|front|] == last;
    var a, b, c := OfPriority(us, health, front, 2), OfPriority(us, health, front, 1), OfPriority(us, health, front, 0);
    var p := Priority(us, health, last);
    LowerRanksEmpty(us, health, front, last);
    if p == 2 {
      assert (a + [last]) + b + c == (a + b + c) + [last];
    } else if p == 1 {
      assert a + (b + [last]) + c == (a + b + c) + [last];
    } else {
      assert a + b + (c + [last]) == (a + b + c) + [last];
    }
  }

  lemma LowerRanksEmpty(us: string, health: Health, front: seq<ShardLocation>, last: ShardLocation)
    requires Descending(us, health, front + [last])
    ensures forall q: nat :: q < Priority(us, health, last) ==> OfPriority(us, health, front, q) == []
  {
    var all := front + [last];
    forall place | place in front
      ensures Priority(us, health, last) <= Priority(us, health, place)
    {
      var i :| 0 <= i < |front| && front[i] == place;
      assert all[i] == place && all[|front|] == last;
    }
    forall q: nat | q < Priority(us, health, last)
      ensures OfPriority(us, health, front, q) == []
    {
      NoneOfRank(us, health, front, q);
    }
  }

  // ---------- The router object ----------

  class WanRouter {
    const us: WanPeer
    var peers: seq<WanPeer>
    var health: Health
    var routes: map<string, RouteEntry>

    constructor (us: WanPeer, peers: seq<WanPeer>)
      ensures this.us == us && this.peers == peers && routes == map[]
      ensures forall name ::
        IsOnline(health, name) <==>
        name == us.nickname && forall j :: 0 <= j < |peers| ==> peers[j].nickname != name
    {
      this.us, this.peers, routes := us, peers, map[];
      var known := map[us.nickname := true];
      for i := 0 to |peers|
        invariant forall name ::
          IsOnline(known, name) <==>
          name == us.nickname && forall j :: 0 <= j < i ==> peers[j].nickname != name
      {
        ghost var before := known;
        known := known[peers[i].nickname := false];
        forall name
          ensures IsOnline(known, name) <==> IsOnline(before, name) && name != peers[i].nickname
        {
        }
      }
      health := known;
    }

    method MarkOnline(nickname: string)
      modifies this
      ensures health == old(health)[nickname := true]
      ensures peers == old(peers) && routes == old(routes)
    {
      health := health[nickname := true];
    }

    method MarkOffline(nickname: string)
      modifies this
      ensures health == old(health)[nickname := false]
      ensures peers == old(peers) && routes == old(routes)
    {
      health := health[nickname := false];
    }

    /** One turn of a loop: the next online peer, or ourselves if nobody is online. */
    static method TakeTurn(us: WanPeer, online: seq<WanPeer>, turn: nat) returns (host: WanPeer)
      ensures host == Host(us, online, turn)
    {
      var slot := turn % Max(|online|, 1);
      if slot < |online| {
        host := online[slot];
      } else {
        host := us.(geoTag := "local");
      }
    }

    method ComputeRoute(gid: string, total: nat, k: nat, m: nat) returns (entry: RouteEntry)
      modifies this
      ensures entry == RouteEntry(gid, total, k, m, Placement(us, Online(peers, health), k, total))
      ensures routes == old(routes)[gid := entry]
      ensures peers == old(peers) && health == old(health)
    {
      var online := Online(peers, health);
      var locations := [ShardLocation(us.address, us.nickname, 0, Data, "local")];
      ghost var data, parity := DataPlaces(us, online, k), ParityPlaces(us, online, k, total);
      var i := 1;
      while i < k
        invariant unchanged(this)
        invariant 1 <= i <= |data| == Max(k, 1) && locations == data[..i]
      {
        DataGrows(us, online, k, i);
        var host := TakeTurn(us, online, i - 1);
        locations := locations + [ShardLocation(host.address, host.nickname, i, Data, host.geoTag)];
        i := i + 1;
      }
      assert data[..i] == data;
      i := k;
      while i < total
        invariant unchanged(this)
        invariant k <= i <= Max(k, total) == k + |parity| && locations == data + parity[..i - k]
      {
        ParityGrows(us, online, k, total, i);
        var host := TakeTurn(us, online, i - k);
        locations := locations + [ShardLocation(host.address, host.nickname, i, Parity, host.geoTag)];
        i := i + 1;
      }
      assert parity[..i - k] == parity;
      assert locations == Placement(us, online, k, total);
      entry := RouteEntry(gid, total, k, m, locations);
      routes := routes[gid := entry];
    }

    method RemoveRoute(gid: string)
      modifies this
      ensures routes == old(routes) - {gid} && peers == old(peers) && health == old(health)
    {
      routes := routes - {gid};
    }

    method ReconstructionPlan(gid: string, have: seq<nat>)
      returns (r: Result<seq<ShardLocation>, RouterError>)
      ensures r == if gid in routes
                   then Ok(Ranked(us.nickname, health, Missing(routes[gid].locations, have)))
                   else Err(NoRoute(gid))
    {
      if gid !in routes {
        return Err(NoRoute(gid));
      }
      var locations, plan := routes[gid].locations, [];
      for i := 0 to |locations|
        invariant plan == Missing(locations[..i], have)
      {
        assert locations[..i + 1][..i] == locations[..i];
        if locations[i].index !in have {
          plan := plan + [locations[i]];
        }
      }
      assert locations[..|locations|] == locations;
      var ranked := SortByPriority(plan);
      return Ok(ranked);
    }

    /** The stable sort of the plan. */
    method SortByPriority(plan: seq<ShardLocation>) returns (ranked: seq<ShardLocation>)
      ensures ranked == Ranked(us.nickname, health, plan)
    {
      ranked := [];
      for i := 0 to |plan|
        invariant Descending(us.nickname, health, ranked)
        invariant forall p: nat ::
          OfPriority(us.nickname, health, ranked, p) == OfPriority(us.nickname, health, plan[..i], p)
      {
        ghost var before := ranked;
        ranked := InsertByPriority(us.nickname, health, ranked, plan[i]);
        assert plan[..i + 1] == plan[..i] + [plan[i]];
        forall p: nat
          ensures OfPriority(us.nickname, health, ranked, p)
                  == OfPriority(us.nickname, health, plan[..i + 1], p)
        {
          OfPriorityAppend(us.nickname, health, before, [plan[i]], p);
          OfPriorityAppend(us.nickname, health, plan[..i], [plan[i]], p);
        }
      }
      assert plan[..|plan|] == plan;
      DescendingIsRanked(us.nickname, health, ranked);
    }

    method CanReconstructGroup(gid: string) returns (can: bool)
      ensures can == CanReconstruct(us.nickname, health, routes, gid)
    {
      if gid !in routes {
        return false;
      }
      var locations, reachable := routes[gid].locations, 0;
      for i := 0 to |locations|
        invariant reachable == CountReachable(us.nickname, health, locations[..i])
      {
        assert locations[..i + 1][..i] == locations[..i];
        if Reachable(us.nickname, health, locations[i]) {
          reachable := reachable + 1;
        }
      }
      assert locations[..|locations|] == locations;
      can := reachable >= routes[gid].dataShards;
    }
  }
}
