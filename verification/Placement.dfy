/** What round-robin placement amounts to (src/router.rs): exact loads, the exact condition
    under which a file survives the loss of a peer, and what a plan covers. */
module Placement {
  import opened Numerics
  import opened Router

  // ---------- Who is online ----------

  /** Health is the last word on a peer, and no word means offline. */
  lemma HealthIsLastWord(health: Health, name: string, online: bool, other: string)
    ensures !IsOnline(map[], name)
    ensures IsOnline(health[name := online], name) == online
    ensures other != name ==> (IsOnline(health[name := online], other) <==> IsOnline(health, other))
  {
  }

  /** How many of the first `j` peers are online. */
  function OnlineBefore(peers: seq<WanPeer>, health: Health, j: nat): nat
    requires j <= |peers|
  {
    |set i: nat | i < j && peers[i].nickname in health && health[peers[i].nickname]|
  }

  lemma OneMoreOnline(peers: seq<WanPeer>, health: Health, j: nat)
    requires j < |peers|
    ensures OnlineBefore(peers, health, j + 1)
            == OnlineBefore(peers, health, j) + if IsOnline(health, peers[j].nickname) then 1 else 0
  {
    var before := set i: nat | i < j && peers[i].nickname in health && health[peers[i].nickname];
    var after := set i: nat | i < j + 1 && peers[i].nickname in health && health[peers[i].nickname];
    assert after == before + if IsOnline(health, peers[j].nickname) then {j} else {};
  }

  lemma SameCount(a: seq<WanPeer>, b: seq<WanPeer>, health: Health, j: nat)
    requires j <= |a| && j <= |b| && a[..j] == b[..j]
    ensures OnlineBefore(a, health, j) == OnlineBefore(b, health, j)
  {
    assert forall i :: 0 <= i < j ==> a[i] == a[..j][i] && b[i] == b[..j][i];
    var x := set i: nat | i < j && a[i].nickname in health && health[a[i].nickname];
    var y := set i: nat | i < j && b[i].nickname in health && health[b[i].nickname];
    assert x == y;
  }

  lemma {:induction false} OnlineCount(peers: seq<WanPeer>, health: Health)
    ensures |Online(peers, health)| == OnlineBefore(peers, health, |peers|)
  {
    if peers == [] {
    } else {
      var n := |peers| - 1;
      OnlineCount(peers[..n], health);
      OneMoreOnline(peers, health, n);
      SameCount(peers, peers[..n], health, n);
    }
  }

  /** Every online peer stands in the list of the online ones, at the place given by the number of
      online peers before it, and by OnlineCount there are no others. */
  lemma {:induction false} OnlineInOrder(peers: seq<WanPeer>, health: Health, j: nat)
    requires j < |peers| && IsOnline(health, peers[j].nickname)
    ensures var at := OnlineBefore(peers, health, j);
            at < |Online(peers, health)| && Online(peers, health)[at] == peers[j]
  {
    var n := |peers| - 1;
    var front := peers[..n];
    assert front[..j] == peers[..j];
    SameCount(peers, front, health, j);
    if j == n {
      OnlineCount(front, health);
    } else {
      OnlineInOrder(front, health, j);
    }
  }

  lemma AsOftenPlusOne(s: seq<WanPeer>, last: WanPeer, peer: WanPeer)
    ensures multiset(s + [last])[peer] == multiset(s)[peer] + if last == peer then 1 else 0
  {
  }

  /** An online peer is among them as often as it is configured, any other never. */
  lemma {:induction false} OnlineAsOften(peers: seq<WanPeer>, health: Health, peer: WanPeer)
    ensures multiset(Online(peers, health))[peer] ==
            if peer.nickname in health && health[peer.nickname] then multiset(peers)[peer] else 0
  {
    if peers == [] {
    } else {
      var n := |peers| - 1;
      OnlineAsOften(peers[..n], health, peer);
      assert peers == peers[..n] + [peers[n]];
      AsOftenPlusOne(peers[..n], peers[n], peer);
      AsOftenPlusOne(Online(peers[..n], health), peers[n], peer);
    }
  }

  // ---------- Loads ----------

  /** How many turns of the first `n` fall on slot `q` of `p`. */
  function Turns(n: nat, p: nat, q: nat): nat
    requires 0 < p
  {
    if n == 0 then 0 else Turns(n - 1, p, q) + if (n - 1) % p == q then 1 else 0
  }

  /** In closed form. */
  lemma {:induction false} TurnsClosedForm(n: nat, p: nat, q: nat)
    requires q < p
    ensures Turns(n, p, q) == if n <= q then 0 else CeilDiv(n - q, p)
  {
    if n == 0 {
    } else {
      TurnsClosedForm(n - 1, p, q);
      var t := Turns(n - 1, p, q);
      if n <= q {
        SmallMod(n - 1, p);
      } else if n - 1 == q {
        SmallMod(n - 1, p);
        CeilDivUnique(1, p, 1);
      } else {
        NextTurn(n, p, q, t);
      }
    }
  }

  lemma SmallMod(n: nat, p: nat)
    requires n < p
    ensures n % p == n
  {
  }

  lemma NextTurn(n: nat, p: nat, q: nat, t: nat)
    requires q < p && q + 1 < n && t == CeilDiv(n - 1 - q, p)
    ensures CeilDiv(n - q, p) == t + if (n - 1) % p == q then 1 else 0
  {
    CeilDivBounds(n - 1 - q, p);
    if n - 1 - q == t * p {
      TurnFalls(n, p, q, t);
    } else {
      CeilDivUnique(n - q, p, t);
      if (n - 1) % p == q {
        TurnsAreMultiples(n - 1, p, q);
        CeilDivUnique(n - 1 - q, p, (n - 1) / p);
      }
    }
  }

  lemma TurnFalls(n: nat, p: nat, q: nat, t: nat)
    requires q < p && q + 1 < n && n - 1 - q == t * p
    ensures CeilDiv(n - q, p) == t + 1 && (n - 1) % p == q
  {
    assert n - 1 == p * t + q;
    QuotientUnique(n - 1, p, t, q);
    assert (t + 1) * p == t * p + p;
    CeilDivUnique(n - q, p, t + 1);
  }

  lemma TurnsAreMultiples(n: nat, p: nat, q: nat)
    requires q < p && n % p == q
    ensures n / p * p == n - q
  {
  }

  /** No slot gets more turns than the ceiling, and slot 0 gets that many. */
  lemma TurnsBound(n: nat, p: nat, q: nat)
    requires q < p
    ensures Turns(n, p, q) <= CeilDiv(n, p) == Turns(n, p, 0)
  {
    TurnsClosedForm(n, p, q);
    TurnsClosedForm(n, p, 0);
    if n == 0 {
      CeilDivUnique(0, p, 0);
    }
    if n > q {
      CeilDivMonotone(n - q, n, p);
    }
  }

  lemma CeilDivMonotone(a: nat, b: nat, p: nat)
    requires a <= b && 0 < p
    ensures CeilDiv(a, p) <= CeilDiv(b, p)
  {
    CeilDivBounds(a, p);
    CeilDivBounds(b, p);
    var x, y := CeilDiv(a, p), CeilDiv(b, p);
    assert y < x ==> (y + 1) * p <= x * p;
  }

  /** The shards that peer `q` of `p` gets. */
  function Load(k: nat, m: nat, p: nat, q: nat): nat
    requires 0 < p && 1 <= k
  {
    Turns(k - 1, p, q) + Turns(m, p, q)
  }

  function CountAt(places: seq<ShardLocation>, nickname: string): nat {
    if places == [] then 0
    else CountAt(places[..|places| - 1], nickname) + if places[|places| - 1].nickname == nickname then 1 else 0
  }

  predicate DistinctNames(us: WanPeer, online: seq<WanPeer>) {
    && (forall i :: 0 <= i < |online| ==> online[i].nickname != us.nickname)
    && (forall i, j :: 0 <= i < j < |online| ==> online[i].nickname != online[j].nickname)
  }

  lemma {:induction false} CountAtAppend(a: seq<ShardLocation>, b: seq<ShardLocation>, nickname: string)
    ensures CountAt(a + b, nickname) == CountAt(a, nickname) + CountAt(b, nickname)
  {
    if b == [] {
      assert a + b == a;
    } else {
      var n := |b| - 1;
      assert (a + b)[..|a| + n] == a + b[..n];
      CountAtAppend(a, b[..n], nickname);
    }
  }

  lemma HostIsTurn(us: WanPeer, online: seq<WanPeer>, turn: nat, q: nat)
    requires q < |online| && DistinctNames(us, online)
    ensures Host(us, online, turn).nickname == online[q].nickname <==> turn % |online| == q
  {
  }

  lemma {:induction false} DataLoad(us: WanPeer, online: seq<WanPeer>, k: nat, q: nat)
    requires 1 <= k && q < |online| && DistinctNames(us, online)
    ensures CountAt(DataPlaces(us, online, k), online[q].nickname) == Turns(k - 1, |online|, q)
  {
    var places := DataPlaces(us, online, k);
    if k == 1 {
      assert places == [DataPlace(us, online, 0)];
      assert places[..0] == [];
    } else {
      DataLoad(us, online, k - 1, q);
      assert places[..k - 1] == DataPlaces(us, online, k - 1);
      HostIsTurn(us, online, k - 2, q);
    }
  }

  lemma {:induction false} ParityLoad(us: WanPeer, online: seq<WanPeer>, k: nat, m: nat, q: nat)
    requires q < |online| && DistinctNames(us, online)
    ensures CountAt(ParityPlaces(us, online, k, k + m), online[q].nickname) == Turns(m, |online|, q)
  {
    if m == 0 {
    } else {
      var places := ParityPlaces(us, online, k, k + m);
      ParityLoad(us, online, k, m - 1, q);
      assert places[..m - 1] == ParityPlaces(us, online, k, k + m - 1);
      assert places[m - 1] == ParityPlace(us, online, k, k + (m - 1));
      HostIsTurn(us, online, m - 1, q);
    }
  }

  /** Exact load of every online peer, and its sharp bound. */
  lemma ExactLoad(us: WanPeer, online: seq<WanPeer>, k: nat, m: nat, q: nat)
    requires 1 <= k && q < |online| && DistinctNames(us, online)
    ensures CountAt(Placement(us, online, k, k + m), online[q].nickname) == Load(k, m, |online|, q)
    ensures Load(k, m, |online|, q) <= CeilDiv(k - 1, |online|) + CeilDiv(m, |online|)
                                    == Load(k, m, |online|, 0)
  {
    CountAtAppend(DataPlaces(us, online, k), ParityPlaces(us, online, k, k + m), online[q].nickname);
    DataLoad(us, online, k, q);
    ParityLoad(us, online, k, m, q);
    TurnsBound(k - 1, |online|, q);
    TurnsBound(m, |online|, q);
  }

  // ---------- Fault tolerance ----------

  /** Everything a placement names is ourselves or online at the time. */
  lemma PlacedOnline(us: WanPeer, peers: seq<WanPeer>, health: Health, k: nat, total: nat)
    requires 1 <= k <= total
    ensures forall place <- Placement(us, Online(peers, health), k, total) ::
              Reachable(us.nickname, health, place)
  {
    var online := Online(peers, health);
    PlacementAt(us, online, k, total);
    forall i | 0 <= i < total
      ensures Reachable(us.nickname, health, LocationAt(us, online, k, i))
    {
      if i != 0 && online != [] {
        var turn := if i < k then i - 1 else i - k;
        assert online[turn % |online|] in online;
      }
    }
  }

  lemma {:induction false} AllReachable(us: string, health: Health, places: seq<ShardLocation>)
    requires forall place <- places :: Reachable(us, health, place)
    ensures CountReachable(us, health, places) == |places|
  {
    if places == [] {
    } else {
      AllReachable(us, health, places[..|places| - 1]);
      assert places[|places| - 1] in places;
    }
  }

  /** Taking one online peer off the net costs its places. */
  lemma {:induction false} OfflineCost(us: string, health: Health, places: seq<ShardLocation>, lost: string)
    requires lost != us && IsOnline(health, lost)
    ensures CountReachable(us, health[lost := false], places) + CountAt(places, lost)
            == CountReachable(us, health, places)
  {
    if places == [] {
    } else {
      OfflineCost(us, health, places[..|places| - 1], lost);
    }
  }

  predicate Within(lost: seq<nat>, n: nat) {
    forall i :: 0 <= i < |lost| ==> lost[i] < n
  }

  /** The health after some of the online peers have gone. */
  function WithoutPeers(health: Health, online: seq<WanPeer>, lost: seq<nat>): Health
    requires Within(lost, |online|)
  {
    if lost == [] then health
    else
      var n := |lost| - 1;
      WithoutPeers(health, online, lost[..n])[online[lost[n]].nickname := false]
  }

  function TotalLoad(k: nat, m: nat, p: nat, lost: seq<nat>): nat
    requires 0 < p && 1 <= k
  {
    if lost == [] then 0 else TotalLoad(k, m, p, lost[..|lost| - 1]) + Load(k, m, p, lost[|lost| - 1])
  }

  /** Different peers, all of them online. */
  predicate SomeOf(online: seq<WanPeer>, lost: seq<nat>) {
    Within(lost, |online|) && (forall i, j :: 0 <= i < j < |lost| ==> lost[i] != lost[j])
  }

  lemma {:induction false} StillOnline(us: WanPeer, peers: seq<WanPeer>, health: Health, lost: seq<nat>, q: nat)
    requires DistinctNames(us, Online(peers, health)) && q < |Online(peers, health)|
    requires q !in lost && Within(lost, |Online(peers, health)|)
    ensures var online := Online(peers, health);
            IsOnline(WithoutPeers(health, online, lost), online[q].nickname)
  {
    var online := Online(peers, health);
    if lost == [] {
      assert online[q] in online;
    } else {
      var n := |lost| - 1;
      assert lost[n] in lost;
      StillOnline(us, peers, health, lost[..n], q);
      assert online[lost[n]].nickname != online[q].nickname;
    }
  }

  lemma {:induction false} LossesCost(us: WanPeer, peers: seq<WanPeer>, health: Health, k: nat, m: nat, lost: seq<nat>)
    requires 1 <= k && DistinctNames(us, Online(peers, health)) && SomeOf(Online(peers, health), lost)
    requires Online(peers, health) != []
    ensures var online := Online(peers, health);
            CountReachable(us.nickname, WithoutPeers(health, online, lost), Placement(us, online, k, k + m))
            + TotalLoad(k, m, |online|, lost) == k + m
  {
    var online := Online(peers, health);
    var places := Placement(us, online, k, k + m);
    if lost == [] {
      PlacementAt(us, online, k, k + m);
      PlacedOnline(us, peers, health, k, k + m);
      AllReachable(us.nickname, health, places);
    } else {
      var n := |lost| - 1;
      LossesCost(us, peers, health, k, m, lost[..n]);
      StillOnline(us, peers, health, lost[..n], lost[n]);
      OfflineCost(us.nickname, WithoutPeers(health, online, lost[..n]), places, online[lost[n]].nickname);
      ExactLoad(us, online, k, m, lost[n]);
    }
  }

  /** A group can be reconstructed after the loss of any of the online peers iff their loads come
      to no more than the number of parity shards. */
  lemma {:induction false} SurvivesLosses(us: WanPeer, peers: seq<WanPeer>, health: Health, gid: string,
                                          k: nat, m: nat, lost: seq<nat>, routes: map<string, RouteEntry>)
    requires 1 <= k && Online(peers, health) != [] && DistinctNames(us, Online(peers, health))
    requires SomeOf(Online(peers, health), lost) && gid in routes
    requires routes[gid] == RouteEntry(gid, k + m, k, m, Placement(us, Online(peers, health), k, k + m))
    ensures var online := Online(peers, health);
            CanReconstruct(us.nickname, WithoutPeers(health, online, lost), routes, gid)
            <==> TotalLoad(k, m, |online|, lost) <= m
  {
    LossesCost(us, peers, health, k, m, lost);
  }

  /** In particular, after peer `q` alone goes offline, iff its load is at most that number. */
  lemma {:induction false} SurvivesPeerLoss(us: WanPeer, peers: seq<WanPeer>, health: Health, gid: string,
                                            k: nat, m: nat, q: nat, routes: map<string, RouteEntry>)
    requires 1 <= k && q < |Online(peers, health)| && DistinctNames(us, Online(peers, health))
    requires gid in routes
    requires routes[gid] == RouteEntry(gid, k + m, k, m, Placement(us, Online(peers, health), k, k + m))
    ensures var online := Online(peers, health);
            CanReconstruct(us.nickname, health[online[q].nickname := false], routes, gid)
            <==> Load(k, m, |online|, q) <= m
  {
    var online := Online(peers, health);
    assert [q][..0] == [];
    assert WithoutPeers(health, online, [q]) == health[online[q].nickname := false];
    assert TotalLoad(k, m, |online|, [q]) == Load(k, m, |online|, q);
    SurvivesLosses(us, peers, health, gid, k, m, [q], routes);
  }

  /** A group can be reconstructed after the loss of any one peer iff it can after that of the
      first, that is iff ceil((k-1)/p) + ceil(m/p) <= m. */
  lemma SurvivesAnyPeerLoss(us: WanPeer, peers: seq<WanPeer>, health: Health, gid: string,
                            k: nat, m: nat, routes: map<string, RouteEntry>)
    requires 1 <= k && Online(peers, health) != [] && DistinctNames(us, Online(peers, health))
    requires gid in routes
    requires routes[gid] == RouteEntry(gid, k + m, k, m, Placement(us, Online(peers, health), k, k + m))
    ensures var online := Online(peers, health);
            (forall q :: 0 <= q < |online| ==>
               CanReconstruct(us.nickname, health[online[q].nickname := false], routes, gid))
            <==> CeilDiv(k - 1, |online|) + CeilDiv(m, |online|) <= m
  {
    var online := Online(peers, health);
    forall q | 0 <= q < |online|
      ensures CanReconstruct(us.nickname, health[online[q].nickname := false], routes, gid)
              <==> Load(k, m, |online|, q) <= m
      ensures Load(k, m, |online|, q) <= Load(k, m, |online|, 0)
    {
      SurvivesPeerLoss(us, peers, health, gid, k, m, q, routes);
      ExactLoad(us, online, k, m, q);
    }
    ExactLoad(us, online, k, m, 0);
  }

  /** The second data shard and the first parity shard go to one and the same host: the first
      online peer, near or far, whatever the geo tags. */
  lemma NearIsFar(us: WanPeer, online: seq<WanPeer>, k: nat, m: nat)
    requires 2 <= k && 1 <= m
    ensures var places := Placement(us, online, k, k + m);
            |places| == k + m && places[1].nickname == places[k].nickname == Host(us, online, 0).nickname
    ensures online != [] ==> Host(us, online, 0) == online[0]
  {
    PlacementAt(us, online, k, k + m);
  }

  /** With the default of two data shards and one parity shard, the first online peer always
      holds two of the three, however many peers there are: its loss is fatal. */
  lemma {:induction false} DefaultNeverSurvives(us: WanPeer, peers: seq<WanPeer>, health: Health, gid: string,
                                                routes: map<string, RouteEntry>)
    requires Online(peers, health) != [] && DistinctNames(us, Online(peers, health))
    requires gid in routes
    requires routes[gid] == RouteEntry(gid, 3, 2, 1, Placement(us, Online(peers, health), 2, 3))
    ensures !CanReconstruct(us.nickname, health[Online(peers, health)[0].nickname := false], routes, gid)
  {
    var online := Online(peers, health);
    ExactLoad(us, online, 2, 1, 0);
    CeilDivUnique(1, |online|, 1);
    SurvivesPeerLoss(us, peers, health, gid, 2, 1, 0, routes);
  }

  /** Without a route nothing can be reconstructed, whoever is online. */
  lemma RouteIsNeeded(us: string, health: Health, routes: map<string, RouteEntry>, gid: string)
    ensures !CanReconstruct(us, health, routes - {gid}, gid)
  {
  }

  // ---------- Peers by their place in the configuration ----------

  /** Online peers have names of their own. */
  predicate OwnNames(us: WanPeer, peers: seq<WanPeer>, health: Health) {
    && (forall i :: 0 <= i < |peers| && IsOnline(health, peers[i].nickname) ==> peers[i].nickname != us.nickname)
    && (forall i, j :: 0 <= i < j < |peers| && IsOnline(health, peers[i].nickname) ==>
          peers[i].nickname != peers[j].nickname)
  }

  lemma {:induction false} OwnNamesDistinct(us: WanPeer, peers: seq<WanPeer>, health: Health)
    requires OwnNames(us, peers, health)
    ensures DistinctNames(us, Online(peers, health))
  {
    if peers == [] {
    } else {
      var n := |peers| - 1;
      OwnNamesDistinct(us, peers[..n], health);
      forall p | p in Online(peers[..n], health)
        ensures p.nickname != peers[n].nickname
      {
        var i :| 0 <= i < n && peers[..n][i] == p;
      }
    }
  }

  /** The load of a configured online peer: the turns that fall on it, counting the online peers
      before it. */
  lemma ConfiguredLoad(us: WanPeer, peers: seq<WanPeer>, health: Health, k: nat, m: nat, j: nat)
    requires 1 <= k && j < |peers| && IsOnline(health, peers[j].nickname) && OwnNames(us, peers, health)
    ensures var p, q := OnlineBefore(peers, health, |peers|), OnlineBefore(peers, health, j);
            && q < p
            && CountAt(Placement(us, Online(peers, health), k, k + m), peers[j].nickname) == Load(k, m, p, q)
  {
    OnlineCount(peers, health);
    OnlineInOrder(peers, health, j);
    OwnNamesDistinct(us, peers, health);
    ExactLoad(us, Online(peers, health), k, m, OnlineBefore(peers, health, j));
  }

  /** After a configured online peer alone goes offline a group can be reconstructed iff that load
      is at most the number of parity shards. */
  lemma {:induction false} SurvivesConfiguredLoss(us: WanPeer, peers: seq<WanPeer>, health: Health, gid: string,
                                                  k: nat, m: nat, j: nat, routes: map<string, RouteEntry>)
    requires 1 <= k && j < |peers| && IsOnline(health, peers[j].nickname) && OwnNames(us, peers, health)
    requires gid in routes
    requires routes[gid] == RouteEntry(gid, k + m, k, m, Placement(us, Online(peers, health), k, k + m))
    ensures var p, q := OnlineBefore(peers, health, |peers|), OnlineBefore(peers, health, j);
            && q < p
            && (CanReconstruct(us.nickname, health[peers[j].nickname := false], routes, gid)
                <==> Load(k, m, p, q) <= m)
  {
    OnlineCount(peers, health);
    OnlineInOrder(peers, health, j);
    OwnNamesDistinct(us, peers, health);
    SurvivesPeerLoss(us, peers, health, gid, k, m, OnlineBefore(peers, health, j), routes);
  }

  /** A place carries name, address and geo tag of the peer whose turn it is; with nobody online,
      and for shard 0, ours with the tag "local". */
  lemma PlacesCarryPeers(us: WanPeer, online: seq<WanPeer>, k: nat, m: nat, i: nat)
    requires 1 <= k && i < k + m
    ensures var places := Placement(us, online, k, k + m);
            && |places| == k + m
            && var host := if i == 0 || online == [] then us.(geoTag := "local")
                           else if i < k then online[(i - 1) % |online|]
                           else online[(i - k) % |online|];
            && places[i].nickname == host.nickname
            && places[i].address == host.address
            && places[i].geoTag == host.geoTag
  {
    PlacementAt(us, online, k, k + m);
  }

  /** Without data shards our own place is there all the same, in front of `total` parity places. */
  lemma NoDataShards(us: WanPeer, online: seq<WanPeer>, total: nat, i: nat)
    requires i < total
    ensures var places := Placement(us, online, 0, total);
            && |places| == total + 1
            && places[0] == ShardLocation(us.address, us.nickname, 0, Data, "local")
            && var host := if online == [] then us.(geoTag := "local") else online[i % |online|];
               places[i + 1] == ShardLocation(host.address, host.nickname, i, Parity, host.geoTag)
  {
    assert ParityPlaces(us, online, 0, total)[i] == ParityPlace(us, online, 0, i);
  }

  // ---------- Plans ----------

  lemma {:induction false} MissingExactly(places: seq<ShardLocation>, have: seq<nat>)
    ensures forall place :: place in Missing(places, have) <==> place in places && place.index !in have
    ensures forall place :: multiset(Missing(places, have))[place] <= multiset(places)[place]
  {
    if places == [] {
    } else {
      var n := |places| - 1;
      MissingExactly(places[..n], have);
      assert places == places[..n] + [places[n]];
    }
  }

  lemma {:induction false} RankCount(us: string, health: Health, places: seq<ShardLocation>, p: nat,
                                     place: ShardLocation)
    ensures multiset(OfPriority(us, health, places, p))[place] ==
            if Priority(us, health, place) == p then multiset(places)[place] else 0
  {
    if places == [] {
    } else {
      RankCount(us, health, places[..|places| - 1], p, place);
      assert places == places[..|places| - 1] + [places[|places| - 1]];
    }
  }

  lemma RanksPartition(us: string, health: Health, places: seq<ShardLocation>)
    ensures multiset(Ranked(us, health, places)) == multiset(places)
  {
    forall place
      ensures multiset(Ranked(us, health, places))[place] == multiset(places)[place]
    {
      RankCount(us, health, places, 2, place);
      RankCount(us, health, places, 1, place);
      RankCount(us, health, places, 0, place);
    }
  }

  lemma RankedMembers(us: string, health: Health, places: seq<ShardLocation>)
    ensures forall place :: place in Ranked(us, health, places) <==> place in places
    ensures forall place :: multiset(Ranked(us, health, places))[place] == multiset(places)[place]
  {
    RanksPartition(us, health, places);
    var ranked := Ranked(us, health, places);
    forall place
      ensures place in ranked <==> place in places
    {
      assert place in ranked <==> place in multiset(ranked);
      assert place in places <==> place in multiset(places);
    }
  }

  lemma {:induction false} RankHolds(us: string, health: Health, places: seq<ShardLocation>, p: nat)
    ensures forall place <- OfPriority(us, health, places, p) :: Priority(us, health, place) == p
  {
    if places == [] {
    } else {
      RankHolds(us, health, places[..|places| - 1], p);
    }
  }

  lemma RankedDescends(us: string, health: Health, places: seq<ShardLocation>)
    ensures Descending(us, health, Ranked(us, health, places))
  {
    RankHolds(us, health, places, 2);
    RankHolds(us, health, places, 1);
    RankHolds(us, health, places, 0);
    var a, b := OfPriority(us, health, places, 2), OfPriority(us, health, places, 1);
    var c := OfPriority(us, health, places, 0);
    var ranked := Ranked(us, health, places);
    forall i | 0 <= i < |ranked|
      ensures Priority(us, health, ranked[i]) == if i < |a| then 2 else if i < |a| + |b| then 1 else 0
    {
      assert ranked[i] == if i < |a| then a[i] else if i < |a| + |b| then b[i - |a|] else c[i - |a| - |b|];
    }
  }

  /** A computed route numbers its shards in order, data before parity, and its plan is sorted,
      our own shards first, and names exactly the shards not held, each once: together with the
      held ones all of 0..k+m-1 are covered. */
  lemma PlanCovers(us: WanPeer, online: seq<WanPeer>, health: Health, k: nat, m: nat, have: seq<nat>)
    requires 1 <= k
    ensures var places := Placement(us, online, k, k + m);
            var plan := Ranked(us.nickname, health, Missing(places, have));
            && |places| == k + m
            && (forall i :: 0 <= i < k + m ==> places[i].index == i && (places[i].kind == Data <==> i < k))
            && Descending(us.nickname, health, plan)
            && (forall place :: place in plan <==> place in places && place.index !in have)
            && (forall place :: multiset(plan)[place] <= 1)
            && (forall i: nat :: i < k + m ==> i in have || places[i] in plan)
  {
    var places := Placement(us, online, k, k + m);
    var missing := Missing(places, have);
    PlacementAt(us, online, k, k + m);
    RankedDescends(us.nickname, health, missing);
    RankedMembers(us.nickname, health, missing);
    MissingExactly(places, have);
    NumberedOnce(places);
  }

  lemma {:induction false} NumberedOnce(places: seq<ShardLocation>)
    requires forall i :: 0 <= i < |places| ==> places[i].index == i
    ensures forall place :: multiset(places)[place] <= 1
  {
    if places == [] {
    } else {
      var n := |places| - 1;
      NumberedOnce(places[..n]);
      assert places == places[..n] + [places[n]];
      assert places[n] !in places[..n];
    }
  }

  // ---------- What a plan looks like ----------

  predicate Ours(us: string, place: ShardLocation) {
    place.nickname == us
  }

  /** At a peer that is online now. */
  predicate Up(us: string, health: Health, place: ShardLocation) {
    place.nickname != us && place.nickname in health && health[place.nickname]
  }

  predicate Down(us: string, health: Health, place: ShardLocation) {
    !Ours(us, place) && !Up(us, health, place)
  }

  /** In a plan no place of another's stands before one of ours, and none at an offline peer before
      one that can be had. */
  lemma PlanOrder(us: string, health: Health, places: seq<ShardLocation>, i: nat, j: nat)
    requires i < j < |Ranked(us, health, places)|
    ensures var plan := Ranked(us, health, places);
            && (Ours(us, plan[j]) ==> Ours(us, plan[i]))
            && (Up(us, health, plan[j]) ==> !Down(us, health, plan[i]))
  {
    RankedDescends(us, health, places);
  }

  /** The places of one kind, where `kind` is 0 for ours, 1 for online and 2 for offline ones. */
  predicate IsKind(us: string, health: Health, place: ShardLocation, kind: nat) {
    match kind
    case 0 => Ours(us, place)
    case 1 => Up(us, health, place)
    case _ => Down(us, health, place)
  }

  /** The places of one kind that are not held, in the order of the route. */
  function Wanted(us: string, health: Health, places: seq<ShardLocation>, have: seq<nat>, kind: nat)
    : seq<ShardLocation>
  {
    if places == [] then []
    else
      var last := places[|places| - 1];
      Wanted(us, health, places[..|places| - 1], have, kind)
      + if IsKind(us, health, last, kind) && last.index !in have then [last] else []
  }

  lemma MissingGrows(front: seq<ShardLocation>, place: ShardLocation, have: seq<nat>)
    ensures Missing(front + [place], have) == Missing(front, have) + if place.index in have then [] else [place]
  {
    assert (front + [place])[..|front|] == front;
  }

  lemma WantedGrows(us: string, health: Health, front: seq<ShardLocation>, place: ShardLocation,
                    have: seq<nat>, kind: nat)
    ensures Wanted(us, health, front + [place], have, kind) ==
            Wanted(us, health, front, have, kind)
            + if IsKind(us, health, place, kind) && place.index !in have then [place] else []
  {
    assert (front + [place])[..|front|] == front;
  }

  lemma RankOfOne(us: string, health: Health, place: ShardLocation, kind: nat)
    requires kind < 3
    ensures OfPriority(us, health, [place], 2 - kind) == if IsKind(us, health, place, kind) then [place] else []
    ensures OfPriority(us, health, [], 2 - kind) == []
  {
    assert [place][..0] == [];
  }

  lemma RankStep(us: string, health: Health, front: seq<ShardLocation>, place: ShardLocation,
                 have: seq<nat>, kind: nat)
    requires kind < 3
    requires OfPriority(us, health, Missing(front, have), 2 - kind) == Wanted(us, health, front, have, kind)
    ensures OfPriority(us, health, Missing(front + [place], have), 2 - kind)
            == Wanted(us, health, front + [place], have, kind)
  {
    MissingGrows(front, place, have);
    WantedGrows(us, health, front, place, have, kind);
    RankOfOne(us, health, place, kind);
    var missing := Missing(front, have);
    if place.index in have {
      assert missing + [] == missing;
    } else {
      OfPriorityAppend(us, health, missing, [place], 2 - kind);
    }
  }

  lemma {:induction false} RankIsKind(us: string, health: Health, places: seq<ShardLocation>, have: seq<nat>,
                                      kind: nat)
    requires kind < 3
    ensures OfPriority(us, health, Missing(places, have), 2 - kind) == Wanted(us, health, places, have, kind)
  {
    assert places[..0] == [];
    for n := 0 to |places|
      invariant OfPriority(us, health, Missing(places[..n], have), 2 - kind)
                == Wanted(us, health, places[..n], have, kind)
    {
      assert places[..n + 1] == places[..n] + [places[n]];
      RankStep(us, health, places[..n], places[n], have, kind);
    }
    assert places[..|places|] == places;
  }

  /** The whole plan of any route: the places not held, ours first, then those at online peers, then
      those at offline ones, each kind in the order of the route. */
  lemma PlanSpelledOut(us: string, health: Health, places: seq<ShardLocation>, have: seq<nat>)
    ensures Ranked(us, health, Missing(places, have)) ==
            Wanted(us, health, places, have, 0) + Wanted(us, health, places, have, 1)
            + Wanted(us, health, places, have, 2)
  {
    var missing := Missing(places, have);
    assert OfPriority(us, health, missing, 2) == Wanted(us, health, places, have, 0) by {
      RankIsKind(us, health, places, have, 0);
    }
    assert OfPriority(us, health, missing, 1) == Wanted(us, health, places, have, 1) by {
      RankIsKind(us, health, places, have, 1);
    }
    assert OfPriority(us, health, missing, 0) == Wanted(us, health, places, have, 2) by {
      RankIsKind(us, health, places, have, 2);
    }
  }

  /** Increasing, and below `n`. */
  predicate Ascending(places: seq<ShardLocation>, n: nat) {
    && (forall i :: 0 <= i < |places| ==> places[i].index < n)
    && (forall i, j :: 0 <= i < j < |places| ==> places[i].index < places[j].index)
  }

  /** So in a computed route, which is numbered in order, each kind is in order of its numbers. */
  lemma {:induction false} WantedAscends(us: string, health: Health, places: seq<ShardLocation>, have: seq<nat>,
                                         kind: nat)
    requires forall i :: 0 <= i < |places| ==> places[i].index == i
    ensures Ascending(Wanted(us, health, places, have, kind), |places|)
  {
    if places == [] {
    } else {
      var n := |places| - 1;
      var front := Wanted(us, health, places[..n], have, kind);
      WantedAscends(us, health, places[..n], have, kind);
      AscendingGrows(front, places[n], n);
    }
  }

  lemma AscendingGrows(places: seq<ShardLocation>, last: ShardLocation, n: nat)
    requires Ascending(places, n) && last.index == n
    ensures Ascending(places, n + 1) && Ascending(places + [last], n + 1)
  {
  }
}
