/** The ant: a reusable agent that records a route of city indices, one
    visited flag per city, the length walked so far and the city it stands on
    (-1 when it stands nowhere). */
module AntAgent {
  import opened Geometry

  /** An unsigned byte, the element type of the visited-flag buffer. */
  newtype uint8 = x: int | 0 <= x < 256

  /** `n` cleared flags. */
  function Zeros(n: nat): (flags: seq<uint8>)
    ensures |flags| == n
    ensures forall i :: 0 <= i < n ==> flags[i] == 0
  {
    seq(n, _ => 0 as uint8)
  }

  /** The flag buffer after visiting city `c`: the write is guarded by a
      bounds check, so an id outside the buffer changes nothing. */
  function SetFlag(flags: seq<uint8>, c: int): (result: seq<uint8>)
    ensures |result| == |flags|
    ensures 0 <= c < |flags| ==> result[c] == 1
    ensures forall i :: 0 <= i < |flags| && i != c ==> result[i] == flags[i]
  {
    if 0 <= c < |flags| then flags[c := 1] else flags
  }

  /** The flags of `n` cities after visiting, from a cleared buffer, every
      entry of `route` in turn. Every flag is 0 or 1. */
  function FlagsOf(n: nat, route: seq<int>): (flags: seq<uint8>)
    ensures |flags| == n
    ensures forall i :: 0 <= i < n ==> flags[i] == 0 || flags[i] == 1
    decreases |route|
  {
    if route == [] then Zeros(n)
    else SetFlag(FlagsOf(n, route[..|route| - 1]), route[|route| - 1])
  }

  /** A city's flag is set exactly when the city occurs in the route. */
  lemma {:induction false} FlagsOfMembership(n: nat, route: seq<int>, c: int)
    requires 0 <= c < n
    ensures FlagsOf(n, route)[c] != 0 <==> c in route
    decreases |route|
  {
    if route != [] {
      var prefix := route[..|route| - 1];
      FlagsOfMembership(n, prefix, c);
      assert route == prefix + [route[|route| - 1]];
    }
  }

  /** Visiting one more city applies the guarded flag write to the flags the
      route had already set. */
  lemma FlagsOfAppend(n: nat, route: seq<int>, c: int)
    ensures FlagsOf(n, route + [c]) == SetFlag(FlagsOf(n, route), c)
  {
    assert (route + [c])[..|route|] == route;
  }

  /** The ant's invariant over the values of its fields: the flags are exactly
      those the route has set, the ant stands on the last city of its route,
      and an empty route means it stands nowhere and has walked nothing. */
  ghost predicate Consistent(flags: seq<uint8>, route: seq<int>, curr: int, length: real)
  {
    && flags == FlagsOf(|flags|, route)
    && (route == [] ==> curr == -1 && length == 0.0)
    && (route != [] ==> curr == route[|route| - 1])
  }

  /** A move to `c` that adds nothing when the ant stood nowhere keeps the
      invariant. */
  lemma MoveKeepsConsistent(flags: seq<uint8>, route: seq<int>, curr: int, length: real, c: int, newLength: real)
    requires Consistent(flags, route, curr, length)
    requires curr < 0 ==> newLength == length
    ensures Consistent(SetFlag(flags, c), route + [c], c, newLength)
  {
    FlagsOfAppend(|flags|, route, c);
  }

  /** A move to an in-range city that adds the edge from the current city,
      when there is one, keeps the length equal to the route's length. */
  lemma MoveKeepsLength(cities: seq<City>, sqrt: real -> real, route: seq<int>, curr: int, length: real,
                        c: int, newLength: real)
    requires route == [] ==> curr == -1 && length == 0.0
    requires route != [] ==> curr == route[|route| - 1]
    requires InRange(route, |cities|) && length == PathLength(cities, sqrt, route)
    requires 0 <= c < |cities|
    requires curr >= 0 ==> 0 <= curr < |cities| && newLength == length + EdgeLength(cities, sqrt, curr, c)
    requires curr < 0 ==> newLength == length
    ensures InRange(route + [c], |cities|) && newLength == PathLength(cities, sqrt, route + [c])
  {
    if route == [] {
      assert route + [c] == [c];
    } else {
      PathLengthAppend(cities, sqrt, route, c);
    }
  }

  class Ant {
    var route: seq<int>
    var position: Vector2
    var routeLength: real
    var currCityId: int
    var id: int
    /** One flag per city; the buffer is sized once, at construction. */
    const visited: array<uint8>

    /** The object invariant: the flags are exactly those the route has set,
        the ant stands on the last city of its route, and an empty route
        means the ant stands nowhere and has walked nothing. */
    ghost predicate Valid()
      reads this, visited
    {
      Consistent(visited[..], route, currCityId, routeLength)
    }

    /** The length walked is the length of the route, over `cities`. */
    ghost predicate LengthTracksRoute(cities: seq<City>, sqrt: real -> real)
      reads this
    {
      InRange(route, |cities|) && routeLength == PathLength(cities, sqrt, route)
    }

    /** The state of a freshly built ant, for a buffer of `numCities` flags. */
    ghost predicate IsFresh(numCities: nat)
      reads this, visited
    {
      && route == [] && routeLength == 0.0 && currCityId == -1
      && visited.Length == numCities && visited[..] == Zeros(numCities)
    }

    constructor (antId: int, numCities: nat)
      ensures Valid() && IsFresh(numCities) && fresh(visited)
      ensures id == antId && position == Vector2(0.0, 0.0)
    {
      position := Vector2(0.0, 0.0);
      routeLength := 0.0;
      currCityId := -1;
      id := antId;
      visited := new uint8[numCities](_ => 0);
      route := [];
      new;
      assert visited[..] == Zeros(numCities);
    }

    /** The move to `cityId`: the route grows by exactly that city, the ant
        stands on it, its flag is set when it is in range, and the edge from
        the previous city is added when there was one. */
    twostate predicate MovedTo(cityId: int, cities: seq<City>, sqrt: real -> real)
      reads this, visited
    {
      && route == old(route) + [cityId]
      && currCityId == cityId
      && visited[..] == SetFlag(old(visited[..]), cityId)
      && (old(currCityId) >= 0 ==>
            0 <= old(currCityId) < |cities| && 0 <= cityId < |cities| &&
            routeLength == old(routeLength) + EdgeLength(cities, sqrt, old(currCityId), cityId))
      && (old(currCityId) < 0 ==> routeLength == old(routeLength))
      && id == old(id) && position == old(position)
    }

    /** Clears all state for reuse; the flag buffer keeps its size. */
    method Reset()
      modifies this, visited
      ensures Valid()
      ensures route == [] && routeLength == 0.0 && currCityId == -1
      ensures visited[..] == Zeros(visited.Length)
      ensures id == old(id) && position == old(position)
    {
      route := [];
      routeLength := 0.0;
      currCityId := -1;
      var i := 0;
      while i < visited.Length
        invariant 0 <= i <= visited.Length
        invariant forall k :: 0 <= k < i ==> visited[k] == 0
        modifies visited
      {
        visited[i] := 0;
        i := i + 1;
      }
      assert visited[..] == Zeros(visited.Length);
    }

    /** Starts a new tour at `cityId`: a reset, then the route is that one
        city, and its flag alone is set when it is in range. */
    method StartAt(cityId: int)
      modifies this, visited
      ensures Valid()
      ensures route == [cityId] && currCityId == cityId && routeLength == 0.0
      ensures visited[..] == SetFlag(Zeros(visited.Length), cityId)
      ensures id == old(id) && position == old(position)
    {
      Reset();
      currCityId := cityId;
      route := route + [cityId];
      if 0 <= cityId < visited.Length {
        visited[cityId] := 1;
      }
      assert route[..0] == [];
    }

    /** Moves from the current city to `cityId`. When the ant stands on a city,
        both that city and `cityId` must index into `cities`: the source reads
        both positions without a bounds check. */
    method MoveTo(cityId: int, cities: seq<City>, sqrt: real -> real)
      requires currCityId >= 0 ==> currCityId < |cities| && 0 <= cityId < |cities|
      modifies this, visited
      ensures MovedTo(cityId, cities, sqrt)
      ensures old(Valid()) ==> Valid()
      ensures old(Valid()) && old(LengthTracksRoute(cities, sqrt)) && 0 <= cityId < |cities| ==>
                LengthTracksRoute(cities, sqrt)
    {
      ghost var oldRoute, oldFlags, oldLength := route, visited[..], routeLength;
      var prevId := currCityId;
      currCityId := cityId;
      route := route + [cityId];

      if 0 <= cityId < visited.Length {
        visited[cityId] := 1;
      }
      assert visited[..] == SetFlag(oldFlags, cityId);

      if prevId >= 0 {
        var a := cities[prevId].position;
        var b := cities[cityId].position;
        var dx := a.x - b.x;
        var dy := a.y - b.y;
        assert dx * dx + dy * dy == SquaredDistance(a, b);
        routeLength := routeLength + sqrt(dx * dx + dy * dy);
      }

      if Consistent(oldFlags, oldRoute, prevId, oldLength) {
        MoveKeepsConsistent(oldFlags, oldRoute, prevId, oldLength, cityId, routeLength);
        if InRange(oldRoute, |cities|) && oldLength == PathLength(cities, sqrt, oldRoute) && 0 <= cityId < |cities| {
          MoveKeepsLength(cities, sqrt, oldRoute, prevId, oldLength, cityId, routeLength);
        }
      }
    }

    /** Whether the ant has visited `cityId`: false outside the flag buffer,
        otherwise the city's flag. For a valid ant this is exactly "the city
        is in range and occurs in the route". */
    method HasVisited(cityId: int) returns (b: bool)
      ensures b <==> 0 <= cityId < visited.Length && visited[cityId] != 0
      ensures Valid() ==> (b <==> 0 <= cityId < visited.Length && cityId in route)
    {
      if 0 <= cityId < visited.Length {
        b := visited[cityId] != 0;
        if Valid() {
          FlagsOfMembership(visited.Length, route, cityId);
        }
      } else {
        b := false;
      }
    }
  }

  /** How the colony drives an ant through a tour: start at `start`, then move
      to each city of `moves` in turn. When every id is in range, the route is
      the start followed by the moves, a city's flag is set exactly when it
      occurs in the route, and the length walked is the route's length. */
  method Walk(ant: Ant, start: int, moves: seq<int>, cities: seq<City>, sqrt: real -> real)
    requires 0 <= start < |cities| && InRange(moves, |cities|)
    modifies ant, ant.visited
    ensures ant.Valid() && ant.LengthTracksRoute(cities, sqrt)
    ensures ant.route == [start] + moves
    ensures forall c :: 0 <= c < ant.visited.Length ==> (ant.visited[c] != 0 <==> c in ant.route)
  {
    ant.StartAt(start);
    var i := 0;
    while i < |moves|
      invariant 0 <= i <= |moves|
      invariant ant.Valid() && ant.LengthTracksRoute(cities, sqrt)
      invariant ant.route == [start] + moves[..i]
    {
      ant.MoveTo(moves[i], cities, sqrt);
      assert moves[..i + 1] == moves[..i] + [moves[i]];
      i := i + 1;
    }
    assert moves[..i] == moves;
    forall c | 0 <= c < ant.visited.Length
      ensures ant.visited[c] != 0 <==> c in ant.route
    {
      FlagsOfMembership(ant.visited.Length, ant.route, c);
    }
  }
}
