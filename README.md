# Ant agent and colony set-up of ParallelACO, in Dafny

ParallelACO searches for short travelling-salesman tours with Ant Colony
Optimization. This project models two parts of it:

- the **ant** (`src/Ant.h`), a reusable agent;
- the **colony set-up and step** (`src/ACO.h`).

An ant records a route of city indices and one visited flag per city. It also
keeps the length it has walked and the city it stands on, where -1 means
nowhere.

The model has three modules:

- `Geometry` (`geometry.dfy`) holds the city record, the point type and the
  squared Euclidean distance. It also defines `PathLength`, the sum of the edge
  lengths along a route. The program's `std::sqrt` becomes a parameter `sqrt`.
  The only property ever assumed of it is non-negativity, and only where a
  lemma says so.
- `AntAgent` (`ant.dfy`) is class `Ant`. Its visited flags are an array of
  bytes that is sized once and written in place. Its object invariant `Valid()`
  says three things:
  - the flag buffer equals `FlagsOf(n, route)`: the bounds-guarded flag write
    folded over the route, starting from a cleared buffer;
  - the ant stands on the last city of its route;
  - an empty route means the ant stands nowhere and has walked nothing.

  Construction, `Reset` and `StartAt` establish the invariant unconditionally.
  `MoveTo` preserves it. From it, `HasVisited(c)` holds exactly when `c` is in
  range and occurs in the route. A second invariant, `LengthTracksRoute`, says
  the walked length equals `PathLength` of the route. `MoveTo` preserves it
  whenever the new city is in range.
- `Colony` (`colony.dfy`) is class `ACO`. Its constructor builds the uniform
  pheromone matrix and the ant population. It also has the two exponent setters,
  which write a shared `Exponents` object standing for the process-wide
  `constants::alpha` and `constants::beta`. `Step` asks a selection rule for the
  next city and moves the ant there. That rule is a function parameter
  (`Selector`), because its algorithm is not part of this model. The module
  also has the bounded random index `RandomCityIndex`.

Floats are modelled as exact reals. Ints are unbounded. The random draws and the
square root are parameters.

The model follows the code on three points:

- The exponents are process-wide mutable globals written by `setAlpha` and
  `setBeta`. They are not an immutable configuration object passed to the colony.
- A colony may be built over any number of cities, zero included. Its constructor does not reject a colony with no cities.
- `hasVisited` answers false for an id outside the flag buffer rather than
  rejecting it.

## Model

| member | source | states |
|---|---|---|
| `Geometry.SquaredDistance` | src/Ant.h:75-79 | `dx * dx + dy * dy` of two positions is never negative |
| `Geometry.PathLengthAppend` | src/Ant.h:74-80 | appending city `c` to a non-empty route adds exactly the edge from the route's last city to `c` to the route's length |
| `Geometry.PathLengthNonNegative` | src/Ant.h:74-80 | if the square root is never negative, no route has a negative length |
| `AntAgent.SetFlag` | src/Ant.h:59-61 | the bounds-guarded flag write sets flag `c` to 1 when `c` is in range, leaves every other flag unchanged and keeps the buffer's size; a city already visited keeps its flag at 1 |
| `AntAgent.FlagsOf` | src/Ant.h:55-72 | the flags that a route leaves in a cleared buffer of size `n`: there are `n` of them, each 0 or 1 |
| `AntAgent.FlagsOfMembership` | src/Ant.h:84-88 | for an in-range city, its flag is set if and only if the city occurs in the route |
| `AntAgent.FlagsOfAppend` | src/Ant.h:70-72 | the step lemma behind `MoveKeepsConsistent`: the flags of a route extended by one city are the guarded flag write applied to the route's flags (one unfolding of `FlagsOf`) |
| `AntAgent.MoveKeepsConsistent` | src/Ant.h:65-72 | a move to any city keeps the invariant: flags match the route, and the ant stands on the route's last city. This holds when the move adds nothing while the ant stands nowhere |
| `AntAgent.MoveKeepsLength` | src/Ant.h:74-80 | a move to an in-range city keeps the length equal to the route's length. This holds when the move adds the edge from the current city if there is one, and nothing otherwise |
| `AntAgent.Ant.constructor` | src/Ant.h:46-52 | a new ant has the given id, an empty route, length 0, current city -1, `numCities` flags all 0 and position (0, 0), and it satisfies the invariant |
| `AntAgent.Ant.Reset` | src/Ant.h:91-96 | clears the route, sets the length to 0 and the current city to -1, and zeroes every flag of the same buffer; id and position are unchanged; the invariant holds afterwards |
| `AntAgent.Ant.StartAt` | src/Ant.h:55-62 | afterwards the route is `[c]`, the current city is `c` and the length is 0; exactly flag `c` is set when `c` is in range, and no flag when it is not; the invariant holds afterwards |
| `AntAgent.Ant.MoveTo` | src/Ant.h:65-81 | appends exactly `c` to the route and keeps all earlier entries; sets the current city to `c`; sets flag `c` only when in range and leaves all others; adds the edge from the previous city if and only if there was one (`>= 0`), otherwise keeps the length; requires both cities to be valid indices when there is a previous city; preserves the invariant, and keeps the length equal to the route's length |
| `AntAgent.Ant.HasVisited` | src/Ant.h:84-88 | false outside the flag buffer, otherwise whether the city's flag is non-zero; for a valid ant, true if and only if the city is in range and occurs in the route |
| `AntAgent.Walk` | src/multi_aco_runs.cpp:58-65 | after `StartAt(s)` and any sequence of `MoveTo` with in-range ids, the route is `s` followed by the moves, a city's flag is set if and only if it occurs in the route, and the length equals the sum of the edges along the route |
| `Colony.Exponents.constructor` | src/ACO.h:9-12 | the process-wide `constants::alpha` and `constants::beta`, held in one shared object that the setters write; built with the given pair of values |
| `Colony.Filled` | src/ACO.h:23 | the member initialiser's `n` by `n` matrix with every entry equal to the fill value, and therefore symmetric |
| `Colony.ACO.constructor` | src/ACO.h:22-38 | the pheromone matrix is `n` by `n` with every entry 1.0; `Q` and the evaporation rate come from the arguments; the iteration count is 0; the colony has exactly `amtAnts` fresh and distinct ants; ant `i` has id `i`, `n` flags and a fresh state |
| `Colony.ACO.SetAlpha` | src/ACO.h:40 | writes the shared pheromone exponent only; the beta exponent, the colony and every ant are unchanged |
| `Colony.ACO.SetBeta` | src/ACO.h:41 | writes the shared heuristic exponent only; the alpha exponent, the colony and every ant are unchanged |
| `Colony.ACO.Step` | src/ACO.h:49-52 | the ant's route grows by exactly the city the selection rule returns; the rest of the move is exactly that of `MoveTo`, including the preserved invariants; the pheromone and proximity matrices, the ants, `Q`, the evaporation rate and the iteration count are unchanged, while the probability matrix is left free for the selection to write |
| `Colony.ACO.RandomCityIndex` | src/ACO.h:84-87 | for `numberOfCities >= 1`, the drawn index lies in `[0, numberOfCities - 1]` |
| `Colony.RandomCityIndexReachesEvery` | src/ACO.h:84-87 | every index in the range is drawn for some generator value |

## Left out

- `selectNextCity`, `updateProbablity`, `updatePheromones`, `constructAntSolutions`, `initializeParameters`, `initializePheromoneTrails`, `terminationCondition` and `showAllPheromoneTrails` are declared in `src/ACO.h`, but their bodies are in no file of this model. `src/ACO.cpp` holds a heat-diffusion simulation instead. Selection is therefore an arbitrary `Selector` function, and the pheromone update is not modelled.
- Colony.ACO.constructor: states the pheromone, probability and proximity matrices as the member initialisers leave them: the pheromones all 1.0, the other two empty. `initializeParameters` and `initializePheromoneTrails` run afterwards, presumably fill or change these matrices, and are not modelled.
- Colony.ACO.constructor: a negative `amtAnts` makes `ants.resize` convert it to a huge `size_t` and throw `std::length_error`. The model states this as the precondition `0 <= amtAnts` rather than as an error result.
- Colony.ACO.Step: the selection's writes to the colony's probability matrix (through `updateProbablity` with a null local row) are not modelled. The contract leaves that matrix unconstrained, and it also does not model the advance of the global random generator.
- Colony.ACO.RandomCityIndex: how the library's `uniform_int_distribution` maps a generator value into the range is implementation-defined. The model reduces the draw modulo the range's size. It states the range and that every index can be drawn, not uniformity.
- The global time-seeded `rng` is replaced by the `draw` parameter of `RandomCityIndex`, and by whatever the `Selector` uses.
- AntAgent.Ant.MoveTo: the length is accumulated as an exact real. Single-precision rounding of `dx * dx + dy * dy`, of `std::sqrt` and of `routeLength +=` is not modelled. `std::sqrt` is a parameter.
- `getAnts`, `getPheromones`, `getProximity` and `getProbablitys` return references to the fields. The model's fields are public, so these getters are left out.
- The colony keeps a reference to the caller's city vector. The model keeps the city list as a value, so the caller's later changes to it are not seen.
- `shared_ptr<Ant>` is modelled as an object reference. `shared_ptr<city>` is modelled as an immutable `City` value, because no code in the repository changes a city through its pointer.
- The per-ant `position` is only set to (0, 0) and otherwise kept unchanged: only the graphics move it. `city::visited` is carried but never read.
- `HeatSimulation` in `src/ACO.cpp` is a floating-point diffusion stencil and is not part of the ACO logic.
- `src/AntGraphics.*` (rendering, image loading, steering physics), `src/main.cpp`, `src/main_headless.cpp`, `src/test.cpp` and the run loop, seeding, OpenMP parallelism and console output of `src/multi_aco_runs.cpp` are not modelled. They are I/O, timing, concurrency and float numerics.
