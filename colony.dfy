/** The colony: the pheromone matrix, the deposit and evaporation parameters,
    the population of ants and the step that moves one ant to the city the
    selection rule picks. */
module Colony {
  import opened Geometry
  import opened AntAgent

  /** A matrix of floats, stored row by row. */
  type Matrix = seq<seq<real>>

  /** `m` has `n` rows of `n` entries each. */
  ghost predicate IsSquare(m: Matrix, n: nat)
  {
    |m| == n && forall i :: 0 <= i < n ==> |m[i]| == n
  }

  /** An `n` by `n` matrix with every entry `v`; such a matrix is symmetric. */
  function Filled(n: nat, v: real): (m: Matrix)
    ensures IsSquare(m, n)
    ensures forall i, j :: 0 <= i < n && 0 <= j < n ==> m[i][j] == v
    ensures forall i, j :: 0 <= i < n && 0 <= j < n ==> m[i][j] == m[j][i]
  {
    seq(n, _ => seq(n, _ => v))
  }

  /** The rule that picks an ant's next city. Its algorithm is not part of this
      model: it is any function of the pheromone matrix, the ant's route and
      the ant's current city, the random draw it makes included. */
  type Selector = (Matrix, seq<int>, int) -> int

  /** The process-wide exponents: `alpha` weighs the pheromone, `beta` the
      distance heuristic. */
  class Exponents {
    var alpha: real
    var beta: real

    constructor (alpha: real, beta: real)
      ensures this.alpha == alpha && this.beta == beta
    {
      this.alpha := alpha;
      this.beta := beta;
    }
  }

  class ACO {
    var evaporationRate: real
    var Q: real
    var pheromones: Matrix
    var probabilities: Matrix
    var proximities: Matrix
    var ants: seq<Ant>
    const cities: seq<City>
    var maxIterations: int
    /** The exponents shared by every colony of the process. */
    const constants: Exponents

    /** No two ants of the colony share an object or a flag buffer. */
    ghost predicate AntsDisjoint()
      reads this
    {
      forall i, j :: 0 <= i < j < |ants| ==> ants[i] != ants[j] && ants[i].visited != ants[j].visited
    }

    /** Builds the colony: an n-by-n pheromone matrix of 1.0 for n cities, and
        `amtAnts` fresh ants with ids 0 to amtAnts - 1, each with n flags.
        A negative count is refused by the vector resize. */
    constructor (inCities: seq<City>, amtAnts: int, newQ: real, newER: real, constants: Exponents)
      requires 0 <= amtAnts
      ensures cities == inCities && this.constants == constants
      ensures IsSquare(pheromones, |inCities|)
      ensures forall i, j :: 0 <= i < |inCities| && 0 <= j < |inCities| ==> pheromones[i][j] == 1.0
      ensures probabilities == [] && proximities == []
      ensures Q == newQ && evaporationRate == newER && maxIterations == 0
      ensures |ants| == amtAnts && AntsDisjoint()
      ensures forall i :: 0 <= i < amtAnts ==>
                fresh(ants[i]) && fresh(ants[i].visited) && ants[i].id == i &&
                ants[i].Valid() && ants[i].IsFresh(|inCities|)
    {
      var n := |inCities|;
      var built: seq<Ant> := [];
      var i := 0;
      while i < amtAnts
        invariant 0 <= i <= amtAnts && |built| == i
        invariant forall k :: 0 <= k < i ==>
                    fresh(built[k]) && fresh(built[k].visited) && built[k].id == k &&
                    built[k].Valid() && built[k].IsFresh(n)
        invariant forall j, k :: 0 <= j < k < i ==>
                    built[j] != built[k] && built[j].visited != built[k].visited
      {
        var ant := new Ant(i, n);
        ant.id := i;
        built := built + [ant];
        i := i + 1;
      }
      pheromones := Filled(n, 1.0);
      cities := inCities;
      Q := newQ;
      evaporationRate := newER;
      maxIterations := 0;
      probabilities := [];
      proximities := [];
      ants := built;
      this.constants := constants;
    }

    /** Sets the pheromone exponent; nothing of the colony or its ants changes. */
    method SetAlpha(newVal: real)
      modifies constants
      ensures constants.alpha == newVal && constants.beta == old(constants.beta)
      ensures unchanged(this)
      ensures forall k :: 0 <= k < |ants| ==> unchanged(ants[k], ants[k].visited)
    {
      constants.alpha := newVal;
    }

    /** Sets the heuristic exponent; nothing of the colony or its ants changes. */
    method SetBeta(newVal: real)
      modifies constants
      ensures constants.beta == newVal && constants.alpha == old(constants.alpha)
      ensures unchanged(this)
      ensures forall k :: 0 <= k < |ants| ==> unchanged(ants[k], ants[k].visited)
    {
      constants.beta := newVal;
    }

    /** One step of `ant`: select the next city, then move there. The route
        grows by exactly the selected city and the move is that of MoveTo.
        Selection may write the colony's probability matrix; every other field
        of the colony is unchanged. */
    method Step(ant: Ant, select: Selector, sqrt: real -> real)
      requires ant.currCityId >= 0 ==>
                 ant.currCityId < |cities| &&
                 0 <= select(pheromones, ant.route, ant.currCityId) < |cities|
      modifies this, ant, ant.visited
      ensures ant.MovedTo(select(old(pheromones), old(ant.route), old(ant.currCityId)), cities, sqrt)
      ensures old(ant.Valid()) ==> ant.Valid()
      ensures var next := select(old(pheromones), old(ant.route), old(ant.currCityId));
              old(ant.Valid()) && old(ant.LengthTracksRoute(cities, sqrt)) && 0 <= next < |cities| ==>
                ant.LengthTracksRoute(cities, sqrt)
      ensures pheromones == old(pheromones) && proximities == old(proximities) && ants == old(ants)
      ensures Q == old(Q) && evaporationRate == old(evaporationRate) && maxIterations == old(maxIterations)
    {
      var nextId := select(pheromones, ant.route, ant.currCityId);
      ant.MoveTo(nextId, cities, sqrt);
    }

    /** A city index drawn uniformly from 0 to numberOfCities - 1. The draw
        from the shared generator is the parameter `draw`; the library's
        mapping of it into the range is modelled as reduction modulo the
        range's size. */
    static function RandomCityIndex(numberOfCities: int, draw: nat): (r: int)
      requires 1 <= numberOfCities
      ensures 0 <= r <= numberOfCities - 1
    {
      draw % numberOfCities
    }
  }

  /** Every index of the range is drawn for some value of the generator. */
  lemma RandomCityIndexReachesEvery(numberOfCities: int, target: int)
    requires 0 <= target < numberOfCities
    ensures exists draw: nat :: ACO.RandomCityIndex(numberOfCities, draw) == target
  {
    assert ACO.RandomCityIndex(numberOfCities, target) == target;
  }
}
