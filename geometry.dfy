/** Cities of the travelling-salesman instance and the Euclidean edge length
    that an ant accumulates along its route.

    Coordinates are single-precision floats in the program; here they are
    exact reals. `std::sqrt` cannot be computed over the reals in Dafny, so
    every member that needs an edge length takes the square root as a
    parameter `sqrt` and uses nothing about it but what its `requires` say. */
module Geometry {

  /** A point in the plane (raylib's `Vector2`). */
  datatype Vector2 = Vector2(x: real, y: real)

  /** A city: its identity, a flag the program no longer changes after
      construction, and its position. */
  datatype City = City(id: int, visited: bool, position: Vector2)

  /** The square of the Euclidean distance, `dx * dx + dy * dy`. */
  function SquaredDistance(a: Vector2, b: Vector2): (d: real)
    ensures 0.0 <= d
  {
    var dx := a.x - b.x;
    var dy := a.y - b.y;
    dx * dx + dy * dy
  }

  /** Every id in `route` indexes into a list of `n` cities. */
  ghost predicate InRange(route: seq<int>, n: int)
  {
    forall k :: 0 <= k < |route| ==> 0 <= route[k] < n
  }

  /** The length of the edge from city `a` to city `b`: the square root of the
      squared distance between their positions. */
  function EdgeLength(cities: seq<City>, sqrt: real -> real, a: int, b: int): real
    requires 0 <= a < |cities| && 0 <= b < |cities|
  {
    sqrt(SquaredDistance(cities[a].position, cities[b].position))
  }

  /** The length of a route: the sum of the edge lengths between consecutive
      entries. A route of fewer than two cities has length zero. */
  ghost function PathLength(cities: seq<City>, sqrt: real -> real, route: seq<int>): real
    requires InRange(route, |cities|)
    decreases |route|
  {
    if |route| < 2 then 0.0
    else EdgeLength(cities, sqrt, route[0], route[1]) + PathLength(cities, sqrt, route[1..])
  }

  /** Appending a city to a non-empty route adds exactly the edge from the
      route's last city to the new one. */
  lemma {:induction false} PathLengthAppend(cities: seq<City>, sqrt: real -> real, route: seq<int>, c: int)
    requires route != [] && InRange(route, |cities|) && 0 <= c < |cities|
    ensures InRange(route + [c], |cities|)
    ensures PathLength(cities, sqrt, route + [c])
         == PathLength(cities, sqrt, route) + EdgeLength(cities, sqrt, route[|route| - 1], c)
  {
    var extended := route + [c];
    assert InRange(extended, |cities|);
    if |route| == 1 {
      assert extended[1..] == [c];
    } else {
      assert extended[1..] == route[1..] + [c];
      PathLengthAppend(cities, sqrt, route[1..], c);
    }
  }

  /** When the square root never returns a negative value, no route has a
      negative length. */
  lemma {:induction false} PathLengthNonNegative(cities: seq<City>, sqrt: real -> real, route: seq<int>)
    requires InRange(route, |cities|)
    requires forall x: real :: 0.0 <= x ==> 0.0 <= sqrt(x)
    ensures 0.0 <= PathLength(cities, sqrt, route)
  {
    if |route| >= 2 {
      assert 0.0 <= SquaredDistance(cities[route[0]].position, cities[route[1]].position);
      PathLengthNonNegative(cities, sqrt, route[1..]);
    }
  }
}
