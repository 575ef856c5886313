/**
 * The driver of the genetic algorithm (geneticAlgorithm.js, generateSchedule):
 * the empty-catalog guard, the initial population, the generation loop with
 * evaluation, descending sort, elitism of the top two and breeding, and the
 * final pick of the best candidate. The store reads become the catalog
 * parameters and the final save becomes the returned schedule.
 */
module GeneticLoop {
  import opened Entities
  import opened GeneticGrid
  import opened GeneticFitness
  import opened GeneticOperators

  const POPULATION_SIZE: nat := 50
  const GENERATIONS: nat := 100
  /** Children bred per generation: all but the two elites. */
  const CHILDREN: nat := 48

  /** The draws for one initial candidate: one course and one room index per cell. */
  datatype CandidateDraws = CandidateDraws(courseDraws: seq<nat>, roomDraws: seq<nat>)

  /** The draws for one child: the two roulette spins, the crossover coins,
      the mutation flags (Math.random() < MUTATION_RATE) and the course and
      room indices a flagged cell receives. */
  datatype ChildDraws = ChildDraws(
    spin1: real, spin2: real,
    takeSecond: seq<bool>, mutateFlags: seq<bool>,
    courseDraws: seq<nat>, roomDraws: seq<nat>)

  predicate ValidCandidateDraws(d: CandidateDraws, courseCount: nat, roomCount: nat) {
    ValidDraws(d.courseDraws, courseCount) && ValidDraws(d.roomDraws, roomCount)
  }

  predicate ValidChildDraws(d: ChildDraws, courseCount: nat, roomCount: nat) {
    0.0 <= d.spin1 < 1.0 && 0.0 <= d.spin2 < 1.0 &&
    |d.takeSecond| == CELLS && |d.mutateFlags| == CELLS &&
    ValidDraws(d.courseDraws, courseCount) && ValidDraws(d.roomDraws, roomCount)
  }

  predicate ValidGenerationDraws(draws: seq<ChildDraws>, courseCount: nat, roomCount: nat) {
    |draws| == CHILDREN &&
    forall i :: 0 <= i < |draws| ==> ValidChildDraws(draws[i], courseCount, roomCount)
  }

  /** Every member is a well-formed candidate recording the catalog ids:
      generateRandomSchedule sets them, crossover keeps parent1's and
      mutation keeps them. */
  predicate AllWellFormed(pop: seq<Schedule>, courses: seq<Course>, rooms: seq<Room>) {
    forall k :: 0 <= k < |pop| ==>
      WellFormed(pop[k].timetable, courses, rooms) &&
      pop[k].courses == CourseIds(courses) && pop[k].rooms == RoomIds(rooms)
  }

  /** The population with every member's fitness field set from its timetable. */
  function Evaluated(pop: seq<Schedule>, courses: seq<Course>, rooms: seq<Room>): (r: seq<Schedule>)
    ensures |r| == |pop| && AllScored(r)
  {
    seq(|pop|, k requires 0 <= k < |pop| =>
      pop[k].(fitness := Some(FitnessOf(Violations(pop[k].timetable, courses, rooms)))))
  }

  /** The smallest violation count in a non-empty population. */
  function BestViolations(pop: seq<Schedule>, courses: seq<Course>, rooms: seq<Room>): (b: nat)
    requires |pop| > 0
    ensures forall k :: 0 <= k < |pop| ==> b <= Violations(pop[k].timetable, courses, rooms)
    ensures exists k :: 0 <= k < |pop| && b == Violations(pop[k].timetable, courses, rooms)
  {
    if |pop| == 1 then Violations(pop[0].timetable, courses, rooms)
    else
      var rest := BestViolations(pop[1..], courses, rooms);
      var here := Violations(pop[0].timetable, courses, rooms);
      assert forall k :: 1 <= k < |pop| ==> pop[k] == pop[1..][k - 1];
      if here <= rest then here else rest
  }

  /** `population.forEach(s => s.fitness = calculateFitness(s, ...))`. */
  method EvaluatePopulation(population: seq<Schedule>, courses: seq<Course>, rooms: seq<Room>)
    returns (scored: seq<Schedule>)
    ensures scored == Evaluated(population, courses, rooms)
  {
    scored := population;
    var k := 0;
    while k < |scored|
      invariant 0 <= k <= |scored| && |scored| == |population|
      invariant forall i :: 0 <= i < k ==> scored[i] == Evaluated(population, courses, rooms)[i]
      invariant forall i :: k <= i < |scored| ==> scored[i] == population[i]
    {
      var fitness := CalculateFitness(scored[k], courses, rooms);
      scored := scored[k := scored[k].(fitness := Some(fitness))];
      k := k + 1;
    }
  }

  /** Members of the sorted evaluated population are evaluated members of the
      population: their timetables come from it and their fitness is their own. */
  lemma SortedMembers(population: seq<Schedule>, courses: seq<Course>, rooms: seq<Room>, p: nat)
    requires p < |population|
    ensures exists k :: 0 <= k < |population| &&
                        SortByFitness(Evaluated(population, courses, rooms))[p] == Evaluated(population, courses, rooms)[k]
  {
    var scored := Evaluated(population, courses, rooms);
    var sorted := SortByFitness(scored);
    assert sorted[p] in multiset(sorted);
    assert sorted[p] in multiset(scored);
    assert sorted[p] in scored;
  }

  /** The head of the sorted evaluated population has the fewest violations
      of the whole population: sorting by descending fitness puts a best
      candidate first. */
  lemma SortedHeadIsBest(population: seq<Schedule>, courses: seq<Course>, rooms: seq<Room>)
    requires |population| > 0
    ensures forall k :: 0 <= k < |population| ==>
      Violations(SortByFitness(Evaluated(population, courses, rooms))[0].timetable, courses, rooms) <=
      Violations(population[k].timetable, courses, rooms)
  {
    var scored := Evaluated(population, courses, rooms);
    var sorted := SortByFitness(scored);
    SortedMembers(population, courses, rooms, 0);
    var q :| 0 <= q < |population| && sorted[0] == scored[q];
    var best := Violations(population[q].timetable, courses, rooms);
    HeadDominates(scored, sorted);
    assert sorted[0].fitness.value == FitnessOf(best);
    forall k | 0 <= k < |population|
      ensures best <= Violations(population[k].timetable, courses, rooms)
    {
      var v := Violations(population[k].timetable, courses, rooms);
      assert scored[k].fitness.value == FitnessOf(v);
      FitnessOrder(best, v);
    }
  }

  /** The head of a descending rearrangement has the largest fitness. */
  lemma HeadDominates(scored: seq<Schedule>, sorted: seq<Schedule>)
    requires AllScored(scored) && AllScored(sorted) && SortedByFitness(sorted)
    requires |sorted| > 0 && multiset(sorted) == multiset(scored)
    ensures forall k :: 0 <= k < |scored| ==> sorted[0].fitness.value >= scored[k].fitness.value
  {
    forall k | 0 <= k < |scored| ensures sorted[0].fitness.value >= scored[k].fitness.value {
      assert scored[k] in multiset(scored);
      assert scored[k] in multiset(sorted);
      var p :| 0 <= p < |sorted| && sorted[p] == scored[k];
      if p > 0 {
        assert sorted[0].fitness.value >= sorted[p].fitness.value;
      }
    }
  }

  lemma SortedWellFormed(population: seq<Schedule>, courses: seq<Course>, rooms: seq<Room>)
    requires AllWellFormed(population, courses, rooms)
    ensures AllWellFormed(SortByFitness(Evaluated(population, courses, rooms)), courses, rooms)
  {
    var sorted := SortByFitness(Evaluated(population, courses, rooms));
    forall p | 0 <= p < |sorted|
      ensures WellFormed(sorted[p].timetable, courses, rooms)
      ensures sorted[p].courses == CourseIds(courses) && sorted[p].rooms == RoomIds(rooms)
    {
      SortedMembers(population, courses, rooms, p);
      var k :| 0 <= k < |population| && sorted[p] == Evaluated(population, courses, rooms)[k];
      assert sorted[p].timetable == population[k].timetable;
      assert sorted[p].courses == population[k].courses && sorted[p].rooms == population[k].rooms;
    }
  }

  /** The child two parents give: the mutation of their crossover. Nothing
      when the parents or the draws do not cover the 40 cells. */
  function Offspring(parent1: Schedule, parent2: Schedule, courses: seq<Course>, rooms: seq<Room>,
                     d: ChildDraws): Option<Schedule>
  {
    if |parent1.timetable| == CELLS && |parent2.timetable| == CELLS && |d.takeSecond| == CELLS &&
       |d.mutateFlags| == CELLS && |d.courseDraws| == CELLS && |d.roomDraws| == CELLS
    then Mutate(Some(Crossover(parent1, parent2, d.takeSecond)), courses, rooms, d.mutateFlags, d.courseDraws, d.roomDraws)
    else None
  }

  /** What one pass of the breeding loop makes from the draws `d`: the
      offspring of the two members on which the roulette spins stop. */
  function Bred(sorted: seq<Schedule>, courses: seq<Course>, rooms: seq<Room>, d: ChildDraws): Option<Schedule>
    requires AllScored(sorted) && |sorted| > 0
  {
    Offspring(sorted[Wheel(sorted, d.spin1)],
              sorted[Wheel(sorted, d.spin2)], courses, rooms, d)
  }

  /** With non-empty catalogs and well-formed members, the draws always
      breed a child, and it is well-formed with the catalog ids. */
  lemma BredWellFormed(sorted: seq<Schedule>, courses: seq<Course>, rooms: seq<Room>, d: ChildDraws)
    requires |courses| > 0 && |rooms| > 0 && |sorted| > 0
    requires AllScored(sorted) && AllWellFormed(sorted, courses, rooms)
    requires ValidChildDraws(d, |courses|, |rooms|)
    ensures Bred(sorted, courses, rooms, d).Some?
    ensures WellFormed(Bred(sorted, courses, rooms, d).value.timetable, courses, rooms)
    ensures Bred(sorted, courses, rooms, d).value.courses == CourseIds(courses)
    ensures Bred(sorted, courses, rooms, d).value.rooms == RoomIds(rooms)
  {
    var parent1 := sorted[Wheel(sorted, d.spin1)];
    var parent2 := sorted[Wheel(sorted, d.spin2)];
    CrossoverWellFormed(parent1, parent2, d.takeSecond, courses, rooms);
    MutateWellFormed(Crossover(parent1, parent2, d.takeSecond), courses, rooms, d.mutateFlags, d.courseDraws, d.roomDraws);
  }

  /** Every member's timetable has the 40 cells. */
  predicate FullSize(pop: seq<Schedule>) {
    forall k :: 0 <= k < |pop| ==> |pop[k].timetable| == CELLS
  }

  /** The coins, flags and indices of a child's draws cover the 40 cells. */
  predicate CoversCells(d: ChildDraws) {
    |d.takeSecond| == CELLS && |d.mutateFlags| == CELLS && |d.courseDraws| == CELLS && |d.roomDraws| == CELLS
  }

  /** One child's draws for each child of a generation, each covering the cells. */
  predicate GenerationCovers(draws: seq<ChildDraws>) {
    |draws| == CHILDREN && forall c :: 0 <= c < |draws| ==> CoversCells(draws[c])
  }

  /** Members of the sorted evaluated population keep their timetables' size. */
  lemma SortedFullSize(population: seq<Schedule>, courses: seq<Course>, rooms: seq<Room>)
    requires FullSize(population)
    ensures FullSize(SortByFitness(Evaluated(population, courses, rooms)))
  {
    var sorted := SortByFitness(Evaluated(population, courses, rooms));
    forall p | 0 <= p < |sorted| ensures |sorted[p].timetable| == CELLS {
      SortedMembers(population, courses, rooms, p);
    }
  }

  /** The population one generation makes from `population` and its draws:
      the two best members of the sorted evaluated population, then the
      child bred from each of the draws in turn. */
  function NextPopulation(population: seq<Schedule>, courses: seq<Course>, rooms: seq<Room>,
                          draws: seq<ChildDraws>): (next: seq<Schedule>)
    requires |population| == POPULATION_SIZE && FullSize(population) && GenerationCovers(draws)
    ensures |next| == POPULATION_SIZE && FullSize(next)
  {
    var sorted := SortByFitness(Evaluated(population, courses, rooms));
    SortedFullSize(population, courses, rooms);
    [sorted[0], sorted[1]] +
      seq(CHILDREN, c requires 0 <= c < CHILDREN => Bred(sorted, courses, rooms, draws[c]).value)
  }

  /** With well-formed members and valid draws, the next population is
      well-formed and records the catalog ids. */
  lemma NextPopulationWellFormed(population: seq<Schedule>, courses: seq<Course>, rooms: seq<Room>,
                                 draws: seq<ChildDraws>)
    requires |courses| > 0 && |rooms| > 0
    requires |population| == POPULATION_SIZE && AllWellFormed(population, courses, rooms)
    requires ValidGenerationDraws(draws, |courses|, |rooms|)
    ensures AllWellFormed(NextPopulation(population, courses, rooms, draws), courses, rooms)
  {
    var next := NextPopulation(population, courses, rooms, draws);
    forall k | 0 <= k < |next|
      ensures WellFormed(next[k].timetable, courses, rooms)
      ensures next[k].courses == CourseIds(courses) && next[k].rooms == RoomIds(rooms)
    {
      NextMemberWellFormed(population, courses, rooms, draws, k);
    }
  }

  lemma NextMemberWellFormed(population: seq<Schedule>, courses: seq<Course>, rooms: seq<Room>,
                             draws: seq<ChildDraws>, k: nat)
    requires |courses| > 0 && |rooms| > 0
    requires |population| == POPULATION_SIZE && AllWellFormed(population, courses, rooms)
    requires ValidGenerationDraws(draws, |courses|, |rooms|) && k < POPULATION_SIZE
    ensures WellFormed(NextPopulation(population, courses, rooms, draws)[k].timetable, courses, rooms)
    ensures NextPopulation(population, courses, rooms, draws)[k].courses == CourseIds(courses)
    ensures NextPopulation(population, courses, rooms, draws)[k].rooms == RoomIds(rooms)
  {
    var sorted := SortByFitness(Evaluated(population, courses, rooms));
    SortedWellFormed(population, courses, rooms);
    NextPopulationMembers(population, courses, rooms, draws);
    if k >= 2 {
      BredWellFormed(sorted, courses, rooms, draws[k - 2]);
    }
  }

  /** The first member of the next population has the fewest violations of
      the population it was made from (elitism). */
  lemma NextPopulationKeepsBest(population: seq<Schedule>, courses: seq<Course>, rooms: seq<Room>,
                                draws: seq<ChildDraws>)
    requires |population| == POPULATION_SIZE && FullSize(population) && GenerationCovers(draws)
    ensures Violations(NextPopulation(population, courses, rooms, draws)[0].timetable, courses, rooms) ==
      BestViolations(population, courses, rooms)
    ensures BestViolations(NextPopulation(population, courses, rooms, draws), courses, rooms) <=
      BestViolations(population, courses, rooms)
  {
    SortedHeadFacts(population, courses, rooms);
  }

  /** The members of the next population: the two sorted heads, then child
      `c` bred from `draws[c - 2]`. */
  lemma NextPopulationMembers(population: seq<Schedule>, courses: seq<Course>, rooms: seq<Room>,
                              draws: seq<ChildDraws>)
    requires |population| == POPULATION_SIZE && FullSize(population) && GenerationCovers(draws)
    ensures NextPopulation(population, courses, rooms, draws)[0] == SortByFitness(Evaluated(population, courses, rooms))[0]
    ensures NextPopulation(population, courses, rooms, draws)[1] == SortByFitness(Evaluated(population, courses, rooms))[1]
    ensures forall c :: 2 <= c < POPULATION_SIZE ==>
      Some(NextPopulation(population, courses, rooms, draws)[c]) ==
      Bred(SortByFitness(Evaluated(population, courses, rooms)), courses, rooms, draws[c - 2])
  {
    var sorted := SortByFitness(Evaluated(population, courses, rooms));
    var next := NextPopulation(population, courses, rooms, draws);
    SortedFullSize(population, courses, rooms);
    assert next == [sorted[0], sorted[1]] +
      seq(CHILDREN, c requires 0 <= c < CHILDREN => Bred(sorted, courses, rooms, draws[c]).value);
    forall c | 2 <= c < POPULATION_SIZE
      ensures Some(next[c]) == Bred(sorted, courses, rooms, draws[c - 2])
    {
      BredFullSize(sorted, courses, rooms, draws[c - 2]);
    }
  }

  /** Covering draws always breed a child of full size. */
  lemma BredFullSize(sorted: seq<Schedule>, courses: seq<Course>, rooms: seq<Room>, d: ChildDraws)
    requires AllScored(sorted) && |sorted| > 0 && FullSize(sorted) && CoversCells(d)
    ensures Bred(sorted, courses, rooms, d).Some?
    ensures |Bred(sorted, courses, rooms, d).value.timetable| == CELLS
  {
  }

  /** One pass of the breeding loop: two roulette spins over the sorted
      population, crossover of the two parents, mutation of the child. */
  method BreedChild(sorted: seq<Schedule>, courses: seq<Course>, rooms: seq<Room>, d: ChildDraws)
    returns (child: Schedule)
    requires |courses| > 0 && |rooms| > 0 && |sorted| > 0
    requires AllScored(sorted) && AllWellFormed(sorted, courses, rooms)
    requires ValidChildDraws(d, |courses|, |rooms|)
    ensures Some(child) == Bred(sorted, courses, rooms, d)
    ensures WellFormed(child.timetable, courses, rooms)
    ensures child.courses == CourseIds(courses) && child.rooms == RoomIds(rooms)
  {
    var first := SelectParent(sorted, d.spin1);
    var second := SelectParent(sorted, d.spin2);
    assert WellFormed(sorted[first].timetable, courses, rooms) && WellFormed(sorted[second].timetable, courses, rooms);
    var crossed := Crossover(sorted[first], sorted[second], d.takeSecond);
    CrossoverWellFormed(sorted[first], sorted[second], d.takeSecond, courses, rooms);
    var mutated := Mutate(Some(crossed), courses, rooms, d.mutateFlags, d.courseDraws, d.roomDraws);
    MutateWellFormed(crossed, courses, rooms, d.mutateFlags, d.courseDraws, d.roomDraws);
    child := mutated.value;
  }

  /** The refill of one generation: the two best members are kept unchanged,
      then children are bred until the population is full again, child
      `c` from the draws `draws[c - 2]`. */
  method FillPopulation(sorted: seq<Schedule>, courses: seq<Course>, rooms: seq<Room>,
                        draws: seq<ChildDraws>) returns (newPopulation: seq<Schedule>)
    requires |courses| > 0 && |rooms| > 0
    requires |sorted| == POPULATION_SIZE && AllScored(sorted) && AllWellFormed(sorted, courses, rooms)
    requires ValidGenerationDraws(draws, |courses|, |rooms|)
    ensures |newPopulation| == POPULATION_SIZE && AllWellFormed(newPopulation, courses, rooms)
    ensures newPopulation[0] == sorted[0] && newPopulation[1] == sorted[1]
    ensures forall c :: 2 <= c < POPULATION_SIZE ==> Some(newPopulation[c]) == Bred(sorted, courses, rooms, draws[c - 2])
  {
    newPopulation := [sorted[0], sorted[1]];
    while |newPopulation| < POPULATION_SIZE
      invariant 2 <= |newPopulation| <= POPULATION_SIZE
      invariant newPopulation[0] == sorted[0] && newPopulation[1] == sorted[1]
      invariant AllWellFormed(newPopulation, courses, rooms)
      invariant forall c :: 2 <= c < |newPopulation| ==> Some(newPopulation[c]) == Bred(sorted, courses, rooms, draws[c - 2])
      decreases POPULATION_SIZE - |newPopulation|
    {
      var child := BreedChild(sorted, courses, rooms, draws[|newPopulation| - 2]);
      newPopulation := newPopulation + [child];
    }
  }

  /** One generation: evaluate, sort descending, keep the top two unchanged,
      then breed children by selection, crossover and mutation until the
      population is full again. */
  method NextGeneration(population: seq<Schedule>, courses: seq<Course>, rooms: seq<Room>,
                        draws: seq<ChildDraws>) returns (next: seq<Schedule>)
    requires |courses| > 0 && |rooms| > 0
    requires |population| == POPULATION_SIZE && AllWellFormed(population, courses, rooms)
    requires ValidGenerationDraws(draws, |courses|, |rooms|)
    ensures |next| == POPULATION_SIZE && AllWellFormed(next, courses, rooms)
    ensures next[0] == SortByFitness(Evaluated(population, courses, rooms))[0]
    ensures next[1] == SortByFitness(Evaluated(population, courses, rooms))[1]
    ensures forall k :: 0 <= k < |population| ==>
      Violations(next[0].timetable, courses, rooms) <= Violations(population[k].timetable, courses, rooms)
    ensures forall c :: 2 <= c < POPULATION_SIZE ==>
      Some(next[c]) == Bred(SortByFitness(Evaluated(population, courses, rooms)), courses, rooms, draws[c - 2])
    ensures next == NextPopulation(population, courses, rooms, draws)
  {
    var scored := EvaluatePopulation(population, courses, rooms);
    var sorted := SortByFitness(scored);
    SortedHeadIsBest(population, courses, rooms);
    SortedWellFormed(population, courses, rooms);
    next := FillPopulation(sorted, courses, rooms, draws);
    WellFormedFullSize(population, courses, rooms);
    FilledIsNext(population, courses, rooms, draws, next);
  }

  /** Well-formed members have the 40 cells; valid draws cover them. */
  lemma WellFormedFullSize(population: seq<Schedule>, courses: seq<Course>, rooms: seq<Room>)
    requires AllWellFormed(population, courses, rooms)
    ensures FullSize(population)
  {
  }

  /** A population holding the two sorted heads and then the children bred
      from the draws in turn is the next population. */
  lemma FilledIsNext(population: seq<Schedule>, courses: seq<Course>, rooms: seq<Room>,
                     draws: seq<ChildDraws>, next: seq<Schedule>)
    requires |population| == POPULATION_SIZE && FullSize(population) && GenerationCovers(draws)
    requires |next| == POPULATION_SIZE
    requires next[0] == SortByFitness(Evaluated(population, courses, rooms))[0]
    requires next[1] == SortByFitness(Evaluated(population, courses, rooms))[1]
    requires forall c :: 2 <= c < POPULATION_SIZE ==>
      Some(next[c]) == Bred(SortByFitness(Evaluated(population, courses, rooms)), courses, rooms, draws[c - 2])
    ensures next == NextPopulation(population, courses, rooms, draws)
  {
    NextPopulationMembers(population, courses, rooms, draws);
    var expected := NextPopulation(population, courses, rooms, draws);
    assert forall c :: 0 <= c < POPULATION_SIZE ==> next[c] == expected[c];
  }

  datatype GenerateError = NoCoursesOrRooms

  predicate ValidInitialDraws(draws: seq<CandidateDraws>, courseCount: nat, roomCount: nat) {
    |draws| == POPULATION_SIZE &&
    forall p :: 0 <= p < |draws| ==> ValidCandidateDraws(draws[p], courseCount, roomCount)
  }

  /** The initial population the draws produce. */
  function InitialPopulation(courses: seq<Course>, rooms: seq<Room>, draws: seq<CandidateDraws>): seq<Schedule>
    requires ValidInitialDraws(draws, |courses|, |rooms|)
  {
    seq(|draws|, p requires 0 <= p < |draws| =>
      RandomSchedule(courses, rooms, draws[p].courseDraws, draws[p].roomDraws))
  }

  /** `Array(POPULATION_SIZE).fill().map(() => generateRandomSchedule(...))`. */
  method BuildInitialPopulation(courses: seq<Course>, rooms: seq<Room>, draws: seq<CandidateDraws>)
    returns (population: seq<Schedule>)
    requires |courses| > 0 && |rooms| > 0
    requires ValidInitialDraws(draws, |courses|, |rooms|)
    ensures population == InitialPopulation(courses, rooms, draws)
    ensures AllWellFormed(population, courses, rooms)
  {
    population := [];
    while |population| < POPULATION_SIZE
      invariant |population| <= POPULATION_SIZE
      invariant forall p :: 0 <= p < |population| ==>
        population[p] == InitialPopulation(courses, rooms, draws)[p]
      invariant AllWellFormed(population, courses, rooms)
    {
      var d := draws[|population|];
      var candidate := GenerateRandomSchedule(courses, rooms, d.courseDraws, d.roomDraws);
      RandomTimetableFromCatalog(courses, rooms, d.courseDraws, d.roomDraws);
      population := population + [candidate];
    }
  }

  predicate ValidRunDraws(draws: seq<seq<ChildDraws>>, courseCount: nat, roomCount: nat) {
    |draws| == GENERATIONS &&
    forall g :: 0 <= g < |draws| ==> ValidGenerationDraws(draws[g], courseCount, roomCount)
  }

  /** The draws of every generation of a run cover the cells. */
  predicate RunCovers(draws: seq<seq<ChildDraws>>) {
    |draws| == GENERATIONS && forall g :: 0 <= g < |draws| ==> GenerationCovers(draws[g])
  }

  lemma ValidRunDrawsCover(draws: seq<seq<ChildDraws>>, courseCount: nat, roomCount: nat)
    requires ValidRunDraws(draws, courseCount, roomCount)
    ensures RunCovers(draws)
  {
  }

  /** The population after the first `n` generations of a run: generation
      `g` is made from the population before it with the draws `draws[g]`. */
  function Generations(population: seq<Schedule>, courses: seq<Course>, rooms: seq<Room>,
                       draws: seq<seq<ChildDraws>>, n: nat): (final: seq<Schedule>)
    requires |population| == POPULATION_SIZE && FullSize(population)
    requires RunCovers(draws) && n <= GENERATIONS
    ensures |final| == POPULATION_SIZE && FullSize(final)
  {
    if n == 0 then population
    else NextPopulation(Generations(population, courses, rooms, draws, n - 1), courses, rooms, draws[n - 1])
  }

  /** Elitism over a run: after any number of generations the best violation
      count is no larger than that of the starting population. */
  lemma {:induction false} GenerationsKeepBest(population: seq<Schedule>, courses: seq<Course>, rooms: seq<Room>,
                                               draws: seq<seq<ChildDraws>>, n: nat)
    requires |population| == POPULATION_SIZE && FullSize(population)
    requires RunCovers(draws) && n <= GENERATIONS
    ensures BestViolations(Generations(population, courses, rooms, draws, n), courses, rooms) <=
      BestViolations(population, courses, rooms)
  {
    if n > 0 {
      var m := n - 1;
      GenerationsKeepBest(population, courses, rooms, draws, m);
      GenerationKeepsBest(population, courses, rooms, draws, m, n);
    }
  }

  /** Generation `n` is made from generation `m = n - 1` with the draws `draws[m]`. */
  lemma GenerationsStep(population: seq<Schedule>, courses: seq<Course>, rooms: seq<Room>,
                        draws: seq<seq<ChildDraws>>, m: nat, n: nat)
    requires |population| == POPULATION_SIZE && FullSize(population)
    requires RunCovers(draws) && n == m + 1 && n <= GENERATIONS
    ensures Generations(population, courses, rooms, draws, n) ==
      NextPopulation(Generations(population, courses, rooms, draws, m), courses, rooms, draws[m])
  {
    assert n - 1 == m;
  }

  /** Generation `n = m + 1` has a best violation count no larger than generation `m`. */
  lemma GenerationKeepsBest(population: seq<Schedule>, courses: seq<Course>, rooms: seq<Room>,
                            draws: seq<seq<ChildDraws>>, m: nat, n: nat)
    requires |population| == POPULATION_SIZE && FullSize(population)
    requires RunCovers(draws) && n == m + 1 && n <= GENERATIONS
    ensures BestViolations(Generations(population, courses, rooms, draws, n), courses, rooms) <=
      BestViolations(Generations(population, courses, rooms, draws, m), courses, rooms)
  {
    GenerationsStep(population, courses, rooms, draws, m, n);
    NextPopulationKeepsBest(Generations(population, courses, rooms, draws, m), courses, rooms, draws[m]);
  }

  /** With well-formed members and valid draws, every generation of the run
      is well-formed and records the catalog ids. */
  lemma {:induction false} GenerationsWellFormed(population: seq<Schedule>, courses: seq<Course>, rooms: seq<Room>,
                                                 draws: seq<seq<ChildDraws>>, n: nat)
    requires |courses| > 0 && |rooms| > 0
    requires |population| == POPULATION_SIZE && AllWellFormed(population, courses, rooms)
    requires ValidRunDraws(draws, |courses|, |rooms|) && n <= GENERATIONS
    ensures AllWellFormed(Generations(population, courses, rooms, draws, n), courses, rooms)
  {
    if n > 0 {
      var m := n - 1;
      GenerationsWellFormed(population, courses, rooms, draws, m);
      GenerationsStep(population, courses, rooms, draws, m, n);
      NextPopulationWellFormed(Generations(population, courses, rooms, draws, m), courses, rooms, draws[m]);
    }
  }

  /** `current` is the population after the first `n` generations of the run. */
  predicate Reached(population: seq<Schedule>, courses: seq<Course>, rooms: seq<Room>,
                    draws: seq<seq<ChildDraws>>, n: nat, current: seq<Schedule>) {
    |population| == POPULATION_SIZE && FullSize(population) && RunCovers(draws) && n <= GENERATIONS &&
    current == Generations(population, courses, rooms, draws, n)
  }

  lemma ReachedStep(population: seq<Schedule>, courses: seq<Course>, rooms: seq<Room>,
                    draws: seq<seq<ChildDraws>>, m: nat, n: nat, before: seq<Schedule>, after: seq<Schedule>)
    requires Reached(population, courses, rooms, draws, m, before) && n == m + 1 && n <= GENERATIONS
    requires after == NextPopulation(before, courses, rooms, draws[m])
    ensures Reached(population, courses, rooms, draws, n, after)
  {
    GenerationsStep(population, courses, rooms, draws, m, n);
  }

  /** The generation loop: GENERATIONS rounds, with no early exit, each one
      the generation step under that round's draws. Elitism makes the best
      violation count of the population never increase. */
  method Evolve(population: seq<Schedule>, courses: seq<Course>, rooms: seq<Room>,
                draws: seq<seq<ChildDraws>>) returns (final: seq<Schedule>)
    requires |courses| > 0 && |rooms| > 0
    requires |population| == POPULATION_SIZE && AllWellFormed(population, courses, rooms)
    requires ValidRunDraws(draws, |courses|, |rooms|)
    ensures final == Generations(population, courses, rooms, draws, GENERATIONS)
    ensures |final| == POPULATION_SIZE && AllWellFormed(final, courses, rooms)
    ensures BestViolations(final, courses, rooms) <= BestViolations(population, courses, rooms)
  {
    ValidRunDrawsCover(draws, |courses|, |rooms|);
    final := population;
    var generation := 0;
    while generation < GENERATIONS
      invariant 0 <= generation <= GENERATIONS
      invariant Reached(population, courses, rooms, draws, generation, final)
    {
      GenerationsWellFormed(population, courses, rooms, draws, generation);
      ghost var before := final;
      final := NextGeneration(final, courses, rooms, draws[generation]);
      var next := generation + 1;
      ReachedStep(population, courses, rooms, draws, generation, next, before, final);
      generation := next;
    }
    GenerationsWellFormed(population, courses, rooms, draws, GENERATIONS);
    GenerationsKeepBest(population, courses, rooms, draws, GENERATIONS);
  }

  /** The head of the sorted evaluated population is scored by its own
      timetable and has the population's smallest violation count. */
  lemma SortedHeadFacts(population: seq<Schedule>, courses: seq<Course>, rooms: seq<Room>)
    requires |population| > 0
    ensures SortByFitness(Evaluated(population, courses, rooms))[0].fitness ==
      Some(FitnessOf(Violations(SortByFitness(Evaluated(population, courses, rooms))[0].timetable, courses, rooms)))
    ensures Violations(SortByFitness(Evaluated(population, courses, rooms))[0].timetable, courses, rooms) ==
      BestViolations(population, courses, rooms)
  {
    var scored := Evaluated(population, courses, rooms);
    var head := SortByFitness(scored)[0];
    SortedHeadIsBest(population, courses, rooms);
    SortedMembers(population, courses, rooms, 0);
    var q :| 0 <= q < |population| && head == scored[q];
    assert head.timetable == population[q].timetable;
    var b :| 0 <= b < |population| &&
      BestViolations(population, courses, rooms) == Violations(population[b].timetable, courses, rooms);
    assert Violations(head.timetable, courses, rooms) <= Violations(population[b].timetable, courses, rooms);
  }

  /** The final evaluation, descending sort and pick of the head: the
      returned candidate is a member of the population, scored, and has the
      smallest violation count of the population. */
  method PickBest(population: seq<Schedule>, courses: seq<Course>, rooms: seq<Room>) returns (best: Schedule)
    requires |population| > 0 && AllWellFormed(population, courses, rooms)
    ensures best == SortByFitness(Evaluated(population, courses, rooms))[0]
    ensures best in Evaluated(population, courses, rooms)
    ensures WellFormed(best.timetable, courses, rooms)
    ensures best.courses == CourseIds(courses) && best.rooms == RoomIds(rooms)
    ensures best.fitness == Some(FitnessOf(Violations(best.timetable, courses, rooms)))
    ensures Violations(best.timetable, courses, rooms) == BestViolations(population, courses, rooms)
  {
    var scored := EvaluatePopulation(population, courses, rooms);
    var sorted := SortByFitness(scored);
    best := sorted[0];
    SortedWellFormed(population, courses, rooms);
    SortedHeadFacts(population, courses, rooms);
    SortedMembers(population, courses, rooms, 0);
  }

  lemma InitialPopulationWellFormed(courses: seq<Course>, rooms: seq<Room>, draws: seq<CandidateDraws>)
    requires |courses| > 0 && |rooms| > 0
    requires ValidInitialDraws(draws, |courses|, |rooms|)
    ensures |InitialPopulation(courses, rooms, draws)| == POPULATION_SIZE
    ensures AllWellFormed(InitialPopulation(courses, rooms, draws), courses, rooms)
    ensures FullSize(InitialPopulation(courses, rooms, draws))
  {
    forall p | 0 <= p < |draws|
      ensures WellFormed(InitialPopulation(courses, rooms, draws)[p].timetable, courses, rooms)
    {
      RandomTimetableFromCatalog(courses, rooms, draws[p].courseDraws, draws[p].roomDraws);
    }
  }

  /** The candidate a run returns: the head of the sorted evaluated
      population after GENERATIONS generations from the initial population. */
  function BestOfRun(courses: seq<Course>, rooms: seq<Room>,
                     initialDraws: seq<CandidateDraws>, generationDraws: seq<seq<ChildDraws>>): Schedule
    requires |courses| > 0 && |rooms| > 0
    requires ValidInitialDraws(initialDraws, |courses|, |rooms|)
    requires ValidRunDraws(generationDraws, |courses|, |rooms|)
  {
    InitialPopulationWellFormed(courses, rooms, initialDraws);
    var final := Generations(InitialPopulation(courses, rooms, initialDraws), courses, rooms,
                             generationDraws, GENERATIONS);
    SortByFitness(Evaluated(final, courses, rooms))[0]
  }

  /** The search of generateSchedule: fails before any work when a catalog is
      empty; otherwise runs the GENERATIONS generations from the initial
      population and returns the best candidate of the last one, scored. It
      records the catalog ids, and thanks to elitism it has no more
      violations than any initial candidate. */
  method BestSchedule(courses: seq<Course>, rooms: seq<Room>,
                      initialDraws: seq<CandidateDraws>, generationDraws: seq<seq<ChildDraws>>)
    returns (result: Result<Schedule, GenerateError>)
    requires ValidInitialDraws(initialDraws, |courses|, |rooms|)
    requires ValidRunDraws(generationDraws, |courses|, |rooms|)
    ensures result.Failure? <==> |courses| == 0 || |rooms| == 0
    ensures result.Success? ==> result.value == BestOfRun(courses, rooms, initialDraws, generationDraws)
    ensures result.Success? ==>
      WellFormed(result.value.timetable, courses, rooms) &&
      result.value.courses == CourseIds(courses) && result.value.rooms == RoomIds(rooms) &&
      result.value.fitness == Some(FitnessOf(Violations(result.value.timetable, courses, rooms)))
    ensures result.Success? ==> forall p :: 0 <= p < POPULATION_SIZE ==>
      Violations(result.value.timetable, courses, rooms) <=
      Violations(InitialPopulation(courses, rooms, initialDraws)[p].timetable, courses, rooms)
  {
    if |courses| == 0 || |rooms| == 0 {
      return Failure(NoCoursesOrRooms);
    }
    var initial := BuildInitialPopulation(courses, rooms, initialDraws);
    var population := Evolve(initial, courses, rooms, generationDraws);

    var best := PickBest(population, courses, rooms);
    assert Violations(best.timetable, courses, rooms) <= BestViolations(initial, courses, rooms);
    return Success(best);
  }

  /** generateSchedule: the best candidate becomes a new schedule document
      (`new Schedule(bestSchedule)`), whose entries receive the subdocument
      ids `entryIds` (fresh, so pairwise distinct), and the document is saved
      and returned. */
  method GenerateSchedule(courses: seq<Course>, rooms: seq<Room>,
                          initialDraws: seq<CandidateDraws>, generationDraws: seq<seq<ChildDraws>>,
                          entryIds: seq<Id>)
    returns (result: Result<ScheduleDoc, GenerateError>)
    requires ValidInitialDraws(initialDraws, |courses|, |rooms|)
    requires ValidRunDraws(generationDraws, |courses|, |rooms|)
    requires |entryIds| == CELLS && DistinctIds(entryIds)
    ensures result.Failure? <==> |courses| == 0 || |rooms| == 0
    ensures result.Success? ==>
      fresh(result.value) &&
      SameButIds(BestOfRun(courses, rooms, initialDraws, generationDraws).timetable, result.value.timetable) &&
      IdsAssigned(result.value.timetable, entryIds) &&
      result.value.fitness == BestOfRun(courses, rooms, initialDraws, generationDraws).fitness.value
    ensures result.Success? ==>
      WellFormed(result.value.timetable, courses, rooms) &&
      result.value.courses == CourseIds(courses) && result.value.rooms == RoomIds(rooms) &&
      result.value.fitness == FitnessOf(Violations(result.value.timetable, courses, rooms))
    ensures result.Success? ==> forall p :: 0 <= p < POPULATION_SIZE ==>
      Violations(result.value.timetable, courses, rooms) <=
      Violations(InitialPopulation(courses, rooms, initialDraws)[p].timetable, courses, rooms)
  {
    var best := BestSchedule(courses, rooms, initialDraws, generationDraws);
    if best.Failure? {
      return Failure(best.error);
    }
    var saved := new ScheduleDoc(best.value, entryIds);
    ViolationsIgnoreIds(best.value.timetable, saved.timetable, courses, rooms);
    return Success(saved);
  }
}
