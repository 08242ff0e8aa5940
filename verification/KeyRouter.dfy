/**
 Greedy key routing (net/skr.C): a router keeps its routes sorted by key and forwards a lookup to the
 route whose key is closest before it on the ring.  Lookups are followed hop by hop through a network
 of such routers.
 */
module KeyRouting {
  import Sequences
  import opened Options
  import opened Ids
  import opened IdRing

  datatype Route = Route(key: Id, location: nat)

  ghost predicate Sorted(routes: seq<Route>) {
    forall i, j | 0 <= i < j < |routes| :: Value(routes[i].key) <= Value(routes[j].key)
  }

  /** No route has a key closer before `key` than route `r`, which is the last of those as close. */
  ghost predicate Closest(routes: seq<Route>, r: int, key: Id) {
    && 0 <= r < |routes|
    && (forall j | 0 <= j < |routes| :: Dist(routes[r].key, key) <= Dist(routes[j].key, key))
    && (forall j | r < j < |routes| :: Dist(routes[r].key, key) < Dist(routes[j].key, key))
  }

  /** In a sorted table the closest route is the last one not above the key or, failing that, the last. */
  lemma {:induction false} LastBelowIsClosest(routes: seq<Route>, r: int, key: Id)
    requires Sorted(routes) && 0 <= r < |routes|
    requires r + 1 < |routes| ==> Value(key) < Value(routes[r + 1].key)
    requires Value(routes[r].key) <= Value(key) || (r == |routes| - 1 && Value(key) < Value(routes[0].key))
    ensures Closest(routes, r, key)
  {
    forall j | 0 <= j < |routes|
      ensures Dist(routes[r].key, key) <= Dist(routes[j].key, key)
      ensures j > r ==> Dist(routes[r].key, key) < Dist(routes[j].key, key)
    {
      DistIs(routes[r].key, key);
      DistIs(routes[j].key, key);
      ValueBound(routes[j].key);
      if j > r + 1 {
        assert Value(routes[r + 1].key) <= Value(routes[j].key);
      }
    }
  }

  /** The routes with `r` placed before the first one whose key is not below that of `r`. */
  ghost function Inserted(routes: seq<Route>, r: Route): seq<Route> {
    if routes == [] || Value(r.key) <= Value(routes[0].key) then [r] + routes
    else [routes[0]] + Inserted(routes[1..], r)
  }

  lemma {:induction false} InsertedAt(routes: seq<Route>, r: Route, i: nat)
    requires i <= |routes|
    requires forall k | 0 <= k < i :: Value(routes[k].key) < Value(r.key)
    requires i < |routes| ==> Value(r.key) <= Value(routes[i].key)
    ensures Inserted(routes, r) == Sequences.Inserted(routes, i, r)
  {
    if i == 0 {
      assert Sequences.Inserted(routes, i, r) == [r] + routes;
    } else {
      InsertedAt(routes[1..], r, i - 1);
      assert Sequences.Inserted(routes, i, r) == [routes[0]] + (routes[1..][..i - 1] + [r] + routes[1..][i - 1..]);
    }
  }

  lemma {:induction false} InsertKeepsOrder(routes: seq<Route>, r: Route, i: nat)
    requires Sorted(routes) && i <= |routes|
    requires forall k | 0 <= k < i :: Value(routes[k].key) < Value(r.key)
    requires i < |routes| ==> Value(r.key) <= Value(routes[i].key)
    ensures var s := Sequences.Inserted(routes, i, r);
            Sorted(s) && multiset(s) == multiset(routes) + multiset{r}
  {
    Sequences.InsertedContents(routes, i, r);
    var s := Sequences.Inserted(routes, i, r);
    forall j, k | 0 <= j < k < |s| ensures Value(s[j].key) <= Value(s[k].key) {
      assert k > i ==> Value(routes[i].key) <= Value(routes[k - 1].key);
    }
  }

  class SimpleKeyRouter {
    const id: Id
    var routes: seq<Route>

    constructor (id: Id)
      ensures this.id == id && routes == [] && Sorted(routes)
    {
      this.id := id;
      routes := [];
    }

    /** `route`: inserts a route before the first one with a key not below its own. */
    method AddRoute(key: Id, location: nat)
      requires Sorted(routes)
      modifies this
      ensures Sorted(routes)
      ensures routes == Inserted(old(routes), Route(key, location))
      ensures multiset(routes) == multiset(old(routes)) + multiset{Route(key, location)}
    {
      var i := 0;
      while i < |routes|
        invariant i <= |routes| && routes == old(routes)
        invariant forall k | 0 <= k < i :: Value(routes[k].key) < Value(key)
      {
        var c := CompareTo(key, routes[i].key);
        if c <= 0 {
          break;
        }
        i := i + 1;
      }
      InsertedAt(routes, Route(key, location), i);
      InsertKeepsOrder(routes, Route(key, location), i);
      routes := routes[..i] + [Route(key, location)] + routes[i..];
    }

    /** `greedyRoute`: -1 for a key of our own, otherwise the route closest before the key. */
    method GreedyRoute(key: Id) returns (route: int)
      requires Sorted(routes) && (key != id ==> routes != [])
      ensures key == id ==> route == -1
      ensures key != id ==> Closest(routes, route, key)
    {
      route := -1;
      if key == id {
        return;
      }
      var front := CompareTo(key, routes[0].key);
      var back := CompareTo(key, routes[|routes| - 1].key);
      if front < 0 || back > 0 {
        route := |routes| - 1;
      } else {
        var i := 0;
        while i < |routes|
          invariant i <= |routes| && route == i - 1
          invariant forall k | 0 <= k < i :: Value(routes[k].key) <= Value(key)
        {
          var c := CompareTo(key, routes[i].key);
          if c < 0 {
            break;
          }
          i := i + 1;
          route := route + 1;
        }
      }
      LastBelowIsClosest(routes, route, key);
    }

    /**
     `push` for a lookup that has not failed before: where it is sent, or None if it is handed to
     the local output (because it carries no key, or our own).
     */
    method Push(port: nat, key: Option<Id>) returns (next: Option<nat>)
      requires port <= 1 && (port == 0 ==> key.Some?)
      requires Sorted(routes) && (key.Some? && key.value != id ==> routes != [])
      ensures next.None? <==> key.None? || key.value == id
      ensures next.Some? ==>
                exists r :: Closest(routes, r, key.value) && routes[r].location == next.value
    {
      var route := -1;
      if port == 0 {
        route := GreedyRoute(key.value);
      } else if key.Some? && key.value != id {
        route := GreedyRoute(key.value);
      }
      if route < 0 {
        return None;
      }
      return Some(routes[route].location);
    }
  }

  // ---------------------------------------------------------------------------------
  // Lookups through a network
  // ---------------------------------------------------------------------------------

  datatype Node = Node(id: Id, routes: seq<Route>)

  type Network = map<nat, Node>

  /** Routes lead to the node whose key they bear. */
  ghost predicate Truthful(net: Network) {
    forall a, r | a in net && r in net[a].routes :: r.location in net && net[r.location].id == r.key
  }

  /** Among the routes of `node` is one to the first other node that follows it on the ring. */
  ghost predicate KnowsSuccessor(net: Network, node: Node) {
    forall b | b in net && net[b].id != node.id ::
      exists r :: r in node.routes && r.key != node.id && Dist(node.id, r.key) <= Dist(node.id, net[b].id)
  }

  ghost predicate RingNetwork(net: Network) {
    && Truthful(net)
    && forall a | a in net :: Sorted(net[a].routes) && KnowsSuccessor(net, net[a])
  }

  lemma {:induction false} SuccessorIsNearer(n: Id, s: Id, key: Id)
    requires s != n && Dist(n, s) <= Dist(n, key)
    ensures Dist(s, key) < Dist(n, key)
  {
    DistVia(n, s, key);
    DistIs(n, s);
  }

  /** Greedy forwarding gets closer to any key that some other node bears. */
  lemma {:induction false} HopShrinks(net: Network, node: Node, b: nat, r: int)
    requires KnowsSuccessor(net, node) && b in net && net[b].id != node.id
    requires Closest(node.routes, r, net[b].id)
    ensures Dist(node.routes[r].key, net[b].id) < Dist(node.id, net[b].id)
  {
    var key := net[b].id;
    var s :| s in node.routes && s.key != node.id && Dist(node.id, s.key) <= Dist(node.id, key);
    SuccessorIsNearer(node.id, s.key, key);
    var j :| 0 <= j < |node.routes| && node.routes[j] == s;
    assert Dist(node.routes[r].key, key) <= Dist(node.routes[j].key, key);
  }

  /** A lookup's path through the network. */
  ghost predicate Converges(net: Network, path: seq<nat>, key: Id) {
    && (forall i | 0 <= i < |path| :: path[i] in net)
    && (forall i, j | 0 <= i < j < |path| :: Dist(net[path[j]].id, key) < Dist(net[path[i]].id, key))
  }

  /** A router with these routes sends a lookup for the key to `next`. */
  ghost predicate Forwards(node: Node, key: Id, next: nat) {
    exists r :: Closest(node.routes, r, key) && node.routes[r].location == next
  }

  /** Every hop of the path is the one that the router of its node chose. */
  ghost predicate Routed(net: Network, path: seq<nat>, key: Id) {
    && (forall i | 0 <= i < |path| :: path[i] in net)
    && forall i | 0 <= i < |path| - 1 :: Forwards(net[path[i]], key, path[i + 1])
  }

  lemma {:induction false} ConvergingPathIsShort(net: Network, path: seq<nat>, key: Id)
    requires Converges(net, path, key)
    ensures |path| <= |net|
  {
    DistinctFits(path, net.Keys);
    assert |net| == |net.Keys|;
  }

  lemma {:induction false} DistinctFits(path: seq<nat>, within: set<nat>)
    requires forall i | 0 <= i < |path| :: path[i] in within
    requires forall i, j | 0 <= i < j < |path| :: path[i] != path[j]
    ensures |path| <= |within|
  {
    if path != [] {
      DistinctFits(path[1..], within - {path[0]});
    }
  }

  /**
   Follows a lookup for a key that some node bears, hop by hop, each along the route that the router at
   the node chose.  Every hop strictly shrinks the distance to the key, no node is visited twice, and the
   lookup ends at a node bearing the key.
   */
  method Lookup(net: Network, start: nat, key: Id) returns (path: seq<nat>)
    requires RingNetwork(net) && start in net
    requires exists b :: b in net && net[b].id == key
    ensures path != [] && path[0] == start && Routed(net, path, key)
    ensures Converges(net, path, key) && |path| <= |net|
    ensures net[path[|path| - 1]].id == key
  {
    ghost var home :| home in net && net[home].id == key;
    path := Walk(net, start, key, home);
    WayEnds(net, path, key);
  }

  /** The hops of a lookup. */
  method Walk(net: Network, start: nat, key: Id, ghost home: nat) returns (path: seq<nat>)
    requires RingNetwork(net) == true && start in net && home in net && net[home].id == key
    ensures path != [] && path[0] == start && |path| <= |net| && Waypoint(net, path, key, None) == true
  {
    path := [start];
    WayStarts(net, start, key);
    var next := Forward(net, start, 0, key, home);
    while next.Some?
      invariant path != [] && path[0] == start && |path| <= |net|
      invariant Waypoint(net, path, key, next) == true  // kept folded
      decreases |net| - |path| + 1
    {
      WayGrows(net, path, key, next.value);
      path := path + [next.value];
      next := Forward(net, next.value, 1, key, home);
    }
  }

  /** A path walked so far. */
  ghost predicate OnTheWay(net: Network, path: seq<nat>, key: Id) {
    Converges(net, path, key) && Routed(net, path, key) && |path| <= |net|
  }

  /** What the router at a node does: nothing at a node bearing the key, otherwise a hop that is closer. */
  ghost predicate NextHop(net: Network, at: nat, key: Id, next: Option<nat>) {
    && at in net
    && (next.None? <==> net[at].id == key)
    && (next.Some? ==>
          && Forwards(net[at], key, next.value)
          && next.value in net && Dist(net[next.value].id, key) < Dist(net[at].id, key))
  }

  /** The path so far, and where its last node sends the lookup. */
  ghost predicate Waypoint(net: Network, path: seq<nat>, key: Id, next: Option<nat>) {
    path != [] && OnTheWay(net, path, key) && NextHop(net, path[|path| - 1], key, next)
  }

  lemma {:induction false} WayStarts(net: Network, start: nat, key: Id)
    requires start in net
    ensures |[start]| <= |net|
    ensures forall next | NextHop(net, start, key, next) == true :: Waypoint(net, [start], key, next) == true
  {
    ConvergingPathIsShort(net, [start], key);
  }

  lemma {:induction false} WayGrows(net: Network, path: seq<nat>, key: Id, at: nat)
    requires Waypoint(net, path, key, Some(at))
    ensures at in net && |path + [at]| <= |net|
    ensures forall next | NextHop(net, at, key, next) == true :: Waypoint(net, path + [at], key, next) == true
  {
    ConvergingPathIsShort(net, path + [at], key);
  }

  lemma {:induction false} WayEnds(net: Network, path: seq<nat>, key: Id)
    requires Waypoint(net, path, key, None)
    ensures Converges(net, path, key) == true && Routed(net, path, key) == true
    ensures path[|path| - 1] in net && net[path[|path| - 1]].id == key
  {
  }

  /** What the router of one node does with a lookup. */
  method Forward(net: Network, at: nat, port: nat, key: Id, ghost home: nat) returns (next: Option<nat>)
    requires RingNetwork(net) == true && at in net && home in net && net[home].id == key && port <= 1
    ensures NextHop(net, at, key, next) == true
  {
    var node := net[at];
    var router := new SimpleKeyRouter(node.id);
    router.routes := node.routes;
    HasRoutes(net, at, home);
    next := router.Push(port, Some(key));
    PushIsNextHop(net, at, key, home, next);
  }

  lemma {:induction false} HasRoutes(net: Network, at: nat, home: nat)
    requires RingNetwork(net) && at in net && home in net
    ensures Sorted(net[at].routes) && (net[at].id != net[home].id ==> net[at].routes != [])
  {
    assert KnowsSuccessor(net, net[at]);
  }

  lemma {:induction false} PushIsNextHop(net: Network, at: nat, key: Id, home: nat, next: Option<nat>)
    requires RingNetwork(net) && at in net && home in net && net[home].id == key
    requires next.None? <==> net[at].id == key
    requires next.Some? ==> Forwards(net[at], key, next.value)
    ensures NextHop(net, at, key, next)
  {
    if next.Some? {
      var node := net[at];
      var r :| Closest(node.routes, r, key) && node.routes[r].location == next.value;
      HopShrinks(net, node, home, r);
      assert node.routes[r] in node.routes;
    }
  }
}
