/** The signalling server's client table, the spatial index it rebuilds, and the
    peer list it sends to a client. */
module GeoServer {
  import opened Prelude
  import Rooms

  type ClientId = string

  datatype Location = Location(longitude: real, latitude: real, timestamp: int, accuracyKm: real)
  datatype Client = Client(
    ip: string, alive: bool, radius: Rooms.Radius, location: Option<Location>, geoMode: bool,
    country: Option<string>, city: Option<string>)
  datatype Entry = Entry(x: real, y: real, id: ClientId)

  const MAX_LOCATION_AGE_MS: int := 30 * 60 * 1000

  /** Spherical distance, the search box around a place, and the quadtree's
      lookup, as far as their contracts go. */
  datatype Geometry = Geometry(
    distanceKm: (Location, Location) -> real,
    inBox: (Location, real, Entry) -> bool,
    retrieve: (set<Entry>, Location, real) -> seq<Entry>)

  ghost predicate Sound(g: Geometry) {
    && (forall tree, l, r, e :: e in g.retrieve(tree, l, r) ==> e in tree)
    && (forall tree, l, r, e :: e in tree && g.inBox(l, r, e) ==> e in g.retrieve(tree, l, r))
  }

  function EntryOf(id: ClientId, l: Location): Entry { Entry(l.longitude, l.latitude, id) }

  predicate Indexed(c: Client) { c.location.Some? && c.geoMode }

  predicate IsFresh(c: Client, now: int) {
    c.location.Some? && now - c.location.value.timestamp <= 1_800_000
  }

  /** Every located geo-mode client is in the tree at its current place. */
  ghost predicate Covers(tree: set<Entry>, clients: map<ClientId, Client>) {
    forall id :: id in clients && Indexed(clients[id]) ==> EntryOf(id, clients[id].location.value) in tree
  }

  /** The tree right after a rebuild: those entries and no others. */
  ghost predicate Exact(tree: set<Entry>, clients: map<ClientId, Client>) {
    forall e :: e in tree <==>
      e.id in clients && Indexed(clients[e.id]) && e == EntryOf(e.id, clients[e.id].location.value)
  }

  predicate SameGiven(a: Option<string>, b: Option<string>) { Rooms.Given(a) && a == b }

  /** Peers found without the tree: same address, then country or city. */
  predicate NearByTable(me: Client, other: Client) {
    || (me.ip != "" && me.ip == other.ip)
    || (me.radius.Country? && SameGiven(me.country, other.country))
    || (me.radius.City? && SameGiven(me.country, other.country) && SameGiven(me.city, other.city))
  }

  /** Whether the client's list is completed from the tree. */
  predicate SearchesTree(me: Client, now: int) {
    me.radius.Km? && me.geoMode && IsFresh(me, now)
  }

  function HorizonKm(me: Client, other: Client): real
    requires me.radius.Km? && me.location.Some? && other.location.Some?
  {
    me.radius.km + me.location.value.accuracyKm + other.location.value.accuracyKm
  }

  /** A fresh peer within the receiver's radius, give or take both accuracies. */
  predicate WithinHorizon(g: Geometry, me: Client, other: Client, now: int)
    requires me.radius.Km? && me.location.Some?
  {
    IsFresh(other, now) && g.distanceKm(me.location.value, other.location.value) <= HorizonKm(me, other)
  }

  /** What a listed peer must satisfy. */
  predicate MayList(g: Geometry, me: Client, other: Client, now: int) {
    NearByTable(me, other) || (SearchesTree(me, now) && WithinHorizon(g, me, other, now))
  }

  /** Who must be listed: neighbours by table, and the fresh indexed peers inside
      both the search box and the horizon. The box ignores the other's accuracy. */
  predicate MustList(g: Geometry, me: Client, id: ClientId, other: Client, now: int) {
    || NearByTable(me, other)
    || (&& SearchesTree(me, now) && Indexed(other) && WithinHorizon(g, me, other, now)
        && g.inBox(me.location.value, me.radius.km + me.location.value.accuracyKm, EntryOf(id, other.location.value)))
  }

  class Server {
    var clients: map<ClientId, Client>
    var geoTree: set<Entry>

    /** Holds whenever the event loop may switch to another handler. */
    ghost predicate Valid()
      reads this
    {
      Covers(geoTree, clients)
    }

    constructor ()
      ensures Valid() && clients == map[] && geoTree == {}
    {
      clients, geoTree := map[], {};
    }

    method RebuildGeoTree()
      modifies this`geoTree
      ensures Exact(geoTree, clients) && Valid()
    {
      geoTree := {};
      var left := clients.Keys;
      while left != {}
        modifies this`geoTree
        invariant left <= clients.Keys
        invariant forall e :: e in geoTree <==>
          e.id in clients.Keys - left && Indexed(clients[e.id]) && e == EntryOf(e.id, clients[e.id].location.value)
        decreases left
      {
        var id :| id in left;
        left := left - {id};
        if Indexed(clients[id]) {
          geoTree := geoTree + {EntryOf(id, clients[id].location.value)};
        }
      }
    }

    /** A registration up to its await: the table changes, the tree does not yet.
        A new registration has no location. */
    method RegisterBegin(id: ClientId, ip: string, country: Option<string>, city: Option<string>)
      requires Valid()
      modifies this`clients
      ensures Valid()
      ensures clients == old(clients)[id := Client(ip, true, Rooms.City, None, true, country, city)]
    {
      clients := clients[id := Client(ip, true, Rooms.City, None, true, country, city)];
    }

    method RegisterEnd()
      modifies this`geoTree
      ensures Valid() && Exact(geoTree, clients)
    {
      RebuildGeoTree();
    }

    method UpdateLocation(id: ClientId, location: Option<Location>, radius: Option<Rooms.Radius>)
      requires Valid()
      modifies this`clients, this`geoTree
      ensures Valid()
      ensures if id !in old(clients) then clients == old(clients) && geoTree == old(geoTree)
        else Exact(geoTree, clients) && clients == old(clients)[id := old(clients)[id].(
          location := if location.Some? then location else old(clients)[id].location,
          radius := if radius.Some? then radius.value else old(clients)[id].radius,
          geoMode := true)]
    {
      if id !in clients { return; }
      var c := clients[id];
      if location.Some? { c := c.(location := location); }
      if radius.Some? { c := c.(radius := radius.value); }
      clients := clients[id := c.(geoMode := true)];
      RebuildGeoTree();
    }

    method RequestLanDiscovery(id: ClientId)
      requires Valid()
      modifies this`clients, this`geoTree
      ensures Valid()
      ensures if id !in old(clients) then clients == old(clients) && geoTree == old(geoTree)
        else Exact(geoTree, clients) && clients == old(clients)[id := old(clients)[id].(geoMode := false)]
    {
      if id !in clients { return; }
      clients := clients[id := clients[id].(geoMode := false)];
      RebuildGeoTree();
    }

    /** Any socket of this id closes, a superseded one included. */
    method OnClose(id: ClientId)
      requires Valid()
      modifies this`clients, this`geoTree
      ensures Valid() && Exact(geoTree, clients) && clients == old(clients) - {id}
    {
      clients := clients - {id};
      RebuildGeoTree();
    }

    method OnPong(id: ClientId)
      requires Valid()
      modifies this`clients
      ensures Valid()
      ensures clients == if id in old(clients)
        then old(clients)[id := old(clients)[id].(alive := true)] else old(clients)
    {
      if id in clients { clients := clients[id := clients[id].(alive := true)]; }
    }

    /** Every thirty seconds: silent clients go, the others are asked again. */
    method HeartbeatTick()
      requires Valid()
      modifies this`clients, this`geoTree
      ensures Valid()
      ensures forall id :: id in clients <==> id in old(clients) && old(clients)[id].alive
      ensures forall id :: id in clients ==> clients[id] == old(clients)[id].(alive := false)
    {
      var left := clients.Keys;
      while left != {}
        modifies this`clients, this`geoTree
        invariant Valid() && left <= clients.Keys <= old(clients).Keys
        invariant forall id :: id in left ==> clients[id] == old(clients)[id]
        invariant forall id :: id in old(clients) && id !in left ==>
          (id in clients <==> old(clients)[id].alive) && (id in clients ==>
            clients[id] == old(clients)[id].(alive := false))
        decreases left
      {
        var id :| id in left;
        left := left - {id};
        if !clients[id].alive {
          clients := clients - {id};
          RebuildGeoTree();
        } else {
          clients := clients[id := clients[id].(alive := false)];
        }
      }
    }

    /** The loop over the client table for peers behind the same public address. */
    method LanPeers(id: ClientId) returns (peers: seq<ClientId>)
      requires id in clients
      ensures Distinct(peers)
      ensures forall p :: p in peers <==>
        p in clients && p != id && clients[id].ip != "" && clients[id].ip == clients[p].ip
    {
      peers := [];
      var me, left := clients[id], clients.Keys;
      while left != {}
        invariant left <= clients.Keys && Distinct(peers)
        invariant forall p :: p in peers <==>
          p in clients.Keys - left && p != id && me.ip != "" && me.ip == clients[p].ip
        decreases left
      {
        var p :| p in left;
        left := left - {p};
        if p != id && me.ip != "" && me.ip == clients[p].ip { peers := peers + [p]; }
      }
    }

    /** The loops for the country and for the city. */
    method PlacePeers(id: ClientId, found: seq<ClientId>, city: bool) returns (peers: seq<ClientId>)
      requires id in clients && id !in found && Distinct(found)
      ensures Distinct(peers)
      ensures forall p :: p in peers <==>
        (p in found || (p in clients && p != id && clients[p].country == clients[id].country
                        && (city ==> clients[p].city == clients[id].city)))
    {
      peers := found;
      var me, left := clients[id], clients.Keys;
      while left != {}
        invariant left <= clients.Keys && Distinct(peers)
        invariant forall p :: p in peers <==>
          (p in found || (p in clients.Keys - left && p != id && clients[p].country == me.country
                          && (city ==> clients[p].city == me.city)))
        decreases left
      {
        var p :| p in left;
        left := left - {p};
        if p != id && p !in peers {
          var other := clients[p];
          if me.country == other.country && (!city || me.city == other.city) { peers := peers + [p]; }
        }
      }
    }

    /** Peers found in the client table. */
    method TablePeers(id: ClientId) returns (peers: seq<ClientId>)
      requires id in clients
      ensures Distinct(peers)
      ensures forall p :: p in peers <==> p in clients && p != id && NearByTable(clients[id], clients[p])
    {
      peers := LanPeers(id);
      var me := clients[id];
      var hasCountry, hasCity := me.country !in {None, Some("")}, me.city !in {None, Some("")};
      if me.radius.Country? && hasCountry {
        peers := PlacePeers(id, peers, false);
      } else if me.radius.City? && hasCountry && hasCity {
        peers := PlacePeers(id, peers, true);
      }
    }

    ghost predicate Handled(g: Geometry, id: ClientId, p: ClientId, now: int, peers: seq<ClientId>)
      requires id in clients && clients[id].radius.Km? && clients[id].location.Some?
      reads this
    {
      p == id || p !in clients || p in peers || !WithinHorizon(g, clients[id], clients[p], now)
    }

    /** The peer list of broadcastPeerUpdates for a client outside the world room. */
    method NearbyPeers(g: Geometry, id: ClientId, now: int) returns (peers: seq<ClientId>)
      requires Sound(g) && Valid() && id in clients && !clients[id].radius.World?
      ensures Distinct(peers) && id !in peers
      ensures forall p :: p in peers ==> p in clients && MayList(g, clients[id], clients[p], now)
      ensures forall p :: p in clients && p != id && MustList(g, clients[id], p, clients[p], now) ==> p in peers
    {
      peers := TablePeers(id);
      var me := clients[id];
      if me.radius.Km? && me.geoMode && me.location.Some? &&
        now - me.location.value.timestamp <= MAX_LOCATION_AGE_MS
      {
        var here := me.location.value;
        var candidates := g.retrieve(geoTree, here, me.radius.km + here.accuracyKm);
        var i := 0;
        while i < |candidates|
          invariant 0 <= i <= |candidates|
          invariant Distinct(peers) && id !in peers
          invariant forall p :: p in peers ==> p in clients && MayList(g, me, clients[p], now)
          invariant forall p :: p in clients && p != id && NearByTable(me, clients[p]) ==> p in peers
          invariant forall k :: 0 <= k < i ==> Handled(g, id, candidates[k].id, now, peers)
        {
          var p := candidates[i].id;
          if p != id && p !in peers && p in clients && clients[p].location.Some? {
            var there := clients[p].location.value;
            if now - there.timestamp <= MAX_LOCATION_AGE_MS &&
              g.distanceKm(here, there) <= me.radius.km + here.accuracyKm + there.accuracyKm
            {
              peers := peers + [p];
            }
          }
          i := i + 1;
        }
      }
    }
  }
}
