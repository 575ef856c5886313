/**
 * The breeding operators of the genetic algorithm (geneticAlgorithm.js):
 * roulette-wheel parent selection, uniform per-cell crossover, per-cell
 * mutation, and the descending sort by fitness that the generation loop uses.
 * Every Math.random() call is an explicit input.
 */
module GeneticOperators {
  import opened Entities
  import opened GeneticGrid
  import opened GeneticFitness

  // ---------------------------------------------------------------- crossover

  /** The per-index choice between two timetables: `takeSecond[i]` (the draw
      Math.random() < 0.5) picks the second parent's entry. */
  function MixTimetables(t1: seq<Entry>, t2: seq<Entry>, takeSecond: seq<bool>): (child: seq<Entry>)
    requires |t2| == |t1| && |takeSecond| == |t1|
    ensures |child| == |t1|
    ensures forall i :: 0 <= i < |t1| ==> child[i] == (if takeSecond[i] then t2[i] else t1[i])
  {
    seq(|t1|, i requires 0 <= i < |t1| => if takeSecond[i] then t2[i] else t1[i])
  }

  /** crossover: the child keeps parent1's catalog ids and, cell by cell, the
      entry of one parent; it carries no fitness yet. */
  function Crossover(parent1: Schedule, parent2: Schedule, takeSecond: seq<bool>): (child: Schedule)
    requires |parent2.timetable| == |parent1.timetable| && |takeSecond| == |parent1.timetable|
    ensures child.courses == parent1.courses && child.rooms == parent1.rooms && child.fitness.None?
    ensures |child.timetable| == |parent1.timetable|
    ensures forall i :: 0 <= i < |child.timetable| ==>
      child.timetable[i] == parent1.timetable[i] || child.timetable[i] == parent2.timetable[i]
  {
    Schedule(parent1.courses, parent1.rooms, MixTimetables(parent1.timetable, parent2.timetable, takeSecond), None)
  }

  /** Two well-formed parents give a well-formed child: every cell still holds
      an entry for that cell, with a catalog course and room. */
  lemma CrossoverWellFormed(parent1: Schedule, parent2: Schedule, takeSecond: seq<bool>,
                            courses: seq<Course>, rooms: seq<Room>)
    requires WellFormed(parent1.timetable, courses, rooms) && WellFormed(parent2.timetable, courses, rooms)
    requires |takeSecond| == CELLS
    ensures WellFormed(Crossover(parent1, parent2, takeSecond).timetable, courses, rooms)
  {
    var child := Crossover(parent1, parent2, takeSecond).timetable;
    forall k | 0 <= k < |child|
      ensures child[k].day == DAYS[k / 8] && child[k].startTime == TIME_SLOTS[k % 8]
      ensures child[k].endTime == EndTime(TIME_SLOTS, k % 8)
      ensures child[k].course.Some? && CourseListed(child[k].course.value, courses)
      ensures child[k].room.Some? && RoomListed(child[k].room.value, rooms)
    {
      assert child[k] == parent1.timetable[k] || child[k] == parent2.timetable[k];
    }
  }

  // ----------------------------------------------------------------- mutation

  /** The per-cell mutation: a flagged cell (Math.random() < MUTATION_RATE)
      gets a new entry with freshly drawn course and room and the cell's own
      day, start and end; other cells are kept as they are. */
  function MutateTimetable(t: seq<Entry>, courses: seq<Course>, rooms: seq<Room>,
                           flags: seq<bool>, courseDraws: seq<nat>, roomDraws: seq<nat>): (r: seq<Entry>)
    requires |flags| == |t| && |courseDraws| == |t| && |roomDraws| == |t|
    ensures |r| == |t|
    ensures forall k :: 0 <= k < |t| ==>
      r[k].day == t[k].day && r[k].startTime == t[k].startTime && r[k].endTime == t[k].endTime
    ensures forall k :: 0 <= k < |t| && !flags[k] ==> r[k] == t[k]
    ensures forall k :: 0 <= k < |t| && flags[k] ==>
      r[k].id.None? && r[k].course == PickCourse(courses, courseDraws[k]) &&
      r[k].room == PickRoom(rooms, roomDraws[k])
  {
    seq(|t|, k requires 0 <= k < |t| =>
      if flags[k]
      then Entry(None, PickCourse(courses, courseDraws[k]), PickRoom(rooms, roomDraws[k]),
                 t[k].day, t[k].startTime, t[k].endTime)
      else t[k])
  }

  /** mutate: a missing schedule (or one whose timetable is not an array) is
      returned unchanged; otherwise only the timetable is replaced. */
  function Mutate(schedule: Option<Schedule>, courses: seq<Course>, rooms: seq<Room>,
                  flags: seq<bool>, courseDraws: seq<nat>, roomDraws: seq<nat>): (r: Option<Schedule>)
    requires schedule.Some? ==>
      |flags| == |schedule.value.timetable| && |courseDraws| == |schedule.value.timetable| &&
      |roomDraws| == |schedule.value.timetable|
    ensures schedule.None? ==> r == schedule
    ensures schedule.Some? ==>
      (r.Some? &&
       r.value.courses == schedule.value.courses && r.value.rooms == schedule.value.rooms &&
       r.value.fitness == schedule.value.fitness &&
       |r.value.timetable| == |schedule.value.timetable|)
  {
    match schedule
    case None => None
    case Some(s) => Some(s.(timetable := MutateTimetable(s.timetable, courses, rooms, flags, courseDraws, roomDraws)))
  }

  /** With non-empty catalogs, mutation keeps a candidate well-formed: cells
      never move and no cell loses its course. */
  lemma MutateWellFormed(s: Schedule, courses: seq<Course>, rooms: seq<Room>,
                         flags: seq<bool>, courseDraws: seq<nat>, roomDraws: seq<nat>)
    requires |courses| > 0 && |rooms| > 0
    requires WellFormed(s.timetable, courses, rooms) && |flags| == CELLS
    requires ValidDraws(courseDraws, |courses|) && ValidDraws(roomDraws, |rooms|)
    ensures WellFormed(Mutate(Some(s), courses, rooms, flags, courseDraws, roomDraws).value.timetable, courses, rooms)
  {
    var t := s.timetable;
    var r := Mutate(Some(s), courses, rooms, flags, courseDraws, roomDraws).value.timetable;
    assert r == MutateTimetable(t, courses, rooms, flags, courseDraws, roomDraws);
    forall k | 0 <= k < |r|
      ensures r[k].course.Some? && CourseListed(r[k].course.value, courses)
      ensures r[k].room.Some? && RoomListed(r[k].room.value, rooms)
    {
      if flags[k] {
        assert r[k].course.value == RefOf(courses[courseDraws[k]]);
        assert r[k].room.value == rooms[roomDraws[k]].id;
      }
    }
  }

  // ---------------------------------------------------------- sort by fitness

  predicate AllScored(pop: seq<Schedule>) {
    forall k :: 0 <= k < |pop| ==> pop[k].fitness.Some?
  }

  /** Fitness never increases along the sequence. */
  predicate SortedByFitness(pop: seq<Schedule>)
    requires AllScored(pop)
  {
    forall i, j :: 0 <= i < j < |pop| ==> pop[i].fitness.value >= pop[j].fitness.value
  }

  /** Places `c` before the first member whose fitness it reaches. */
  function InsertByFitness(c: Schedule, sorted: seq<Schedule>): (r: seq<Schedule>)
    requires c.fitness.Some? && AllScored(sorted)
    ensures |r| == |sorted| + 1 && multiset(r) == multiset(sorted) + multiset{c}
    ensures AllScored(r)
    ensures forall x :: x in r ==> x == c || x in sorted
  {
    if sorted == [] || c.fitness.value >= sorted[0].fitness.value then
      [c] + sorted
    else
      var rest := InsertByFitness(c, sorted[1..]);
      assert sorted == [sorted[0]] + sorted[1..];
      var r := [sorted[0]] + rest;
      assert multiset(r) == multiset{sorted[0]} + multiset(rest);
      r
  }

  /** Insertion into a sequence sorted by descending fitness keeps it sorted. */
  lemma {:induction false} InsertKeepsSorted(c: Schedule, sorted: seq<Schedule>)
    requires c.fitness.Some? && AllScored(sorted) && SortedByFitness(sorted)
    ensures SortedByFitness(InsertByFitness(c, sorted))
  {
    if sorted != [] && c.fitness.value < sorted[0].fitness.value {
      var rest := InsertByFitness(c, sorted[1..]);
      InsertKeepsSorted(c, sorted[1..]);
      var r := [sorted[0]] + rest;
      assert r == InsertByFitness(c, sorted);
      forall k | 0 <= k < |rest| ensures sorted[0].fitness.value >= rest[k].fitness.value {
        if rest[k] != c {
          assert rest[k] in rest;
          var p :| 0 <= p < |sorted[1..]| && sorted[1..][p] == rest[k];
          assert sorted[1..][p] == sorted[p + 1];
        }
      }
      forall i, j | 0 <= i < j < |r| ensures r[i].fitness.value >= r[j].fitness.value {
        if i > 0 {
          assert r[i] == rest[i - 1] && r[j] == rest[j - 1];
        } else {
          assert r[j] == rest[j - 1];
        }
      }
    }
  }

  /** population.sort((a, b) => b.fitness - a.fitness): a permutation of the
      population in non-increasing fitness order. Ties keep their order, as in
      the stable library sort. */
  function SortByFitness(pop: seq<Schedule>): (r: seq<Schedule>)
    requires AllScored(pop)
    ensures |r| == |pop| && multiset(r) == multiset(pop)
    ensures AllScored(r) && SortedByFitness(r)
  {
    if pop == [] then []
    else
      assert pop == [pop[0]] + pop[1..];
      var rest := SortByFitness(pop[1..]);
      InsertKeepsSorted(pop[0], rest);
      InsertByFitness(pop[0], rest)
  }

  /** The members whose fitness is `v`, in their order in `pop`. */
  function WithFitness(pop: seq<Schedule>, v: real): seq<Schedule>
    requires AllScored(pop)
  {
    if pop == [] then []
    else (if pop[0].fitness.value == v then [pop[0]] else []) + WithFitness(pop[1..], v)
  }

  /** `WithFitness` on a sequence with a given first member. */
  lemma WithFitnessCons(x: Schedule, rest: seq<Schedule>, v: real)
    requires x.fitness.Some? && AllScored(rest)
    ensures AllScored([x] + rest)
    ensures WithFitness([x] + rest, v) == (if x.fitness.value == v then [x] else []) + WithFitness(rest, v)
  {
    assert ([x] + rest)[1..] == rest;
  }

  /** Insertion puts `c` ahead of every member of equal fitness and keeps the
      order of those members. */
  lemma {:induction false} InsertKeepsTies(c: Schedule, sorted: seq<Schedule>, v: real)
    requires c.fitness.Some? && AllScored(sorted)
    ensures WithFitness(InsertByFitness(c, sorted), v) ==
      (if c.fitness.value == v then [c] else []) + WithFitness(sorted, v)
  {
    if sorted == [] || c.fitness.value >= sorted[0].fitness.value {
      WithFitnessCons(c, sorted, v);
    } else {
      var x := sorted[0];
      var rest := InsertByFitness(c, sorted[1..]);
      assert InsertByFitness(c, sorted) == [x] + rest;
      InsertKeepsTies(c, sorted[1..], v);
      WithFitnessCons(x, rest, v);
      assert sorted == [x] + sorted[1..];
      WithFitnessCons(x, sorted[1..], v);
      var tail := WithFitness(sorted[1..], v);
      if c.fitness.value == v {
        assert WithFitness(rest, v) == [c] + tail;
        assert WithFitness(sorted, v) == tail;
      } else if x.fitness.value == v {
        assert WithFitness(rest, v) == tail;
        assert WithFitness(sorted, v) == [x] + tail;
      } else {
        assert WithFitness(rest, v) == tail;
        assert WithFitness(sorted, v) == tail;
      }
    }
  }

  /** The sort is stable: the members of any one fitness keep their order in
      the population, as Array.prototype.sort guarantees. */
  lemma {:induction false} SortByFitnessStable(pop: seq<Schedule>, v: real)
    requires AllScored(pop)
    ensures WithFitness(SortByFitness(pop), v) == WithFitness(pop, v)
  {
    if pop != [] {
      assert pop == [pop[0]] + pop[1..];
      SortByFitnessStable(pop[1..], v);
      InsertKeepsTies(pop[0], SortByFitness(pop[1..]), v);
    }
  }

  // ---------------------------------------------------------- selectParent

  /** The fitness of the first `n` members, summed left to right. */
  function PrefixFitness(pop: seq<Schedule>, n: nat): real
    requires AllScored(pop) && n <= |pop|
  {
    if n == 0 then 0.0 else PrefixFitness(pop, n - 1) + pop[n - 1].fitness.value
  }

  /** population.reduce((sum, s) => sum + s.fitness, 0). */
  function TotalFitness(pop: seq<Schedule>): real
    requires AllScored(pop)
  {
    PrefixFitness(pop, |pop|)
  }

  /** Member `k` is where the roulette wheel stops for value `r`: the first
      member after which the running remainder r - prefix sum is <= 0, or the
      last member when the remainder never gets there. */
  predicate RoulettePick(pop: seq<Schedule>, r: real, k: nat)
    requires AllScored(pop)
  {
    k < |pop| &&
    (forall j :: 1 <= j <= k ==> r - PrefixFitness(pop, j) > 0.0) &&
    (r - PrefixFitness(pop, k + 1) <= 0.0 || k == |pop| - 1)
  }

  /** The stop of the wheel for value `r`, searched from member `j` on. */
  function WheelFrom(pop: seq<Schedule>, r: real, j: nat): (k: nat)
    requires AllScored(pop) && j < |pop|
    ensures j <= k < |pop|
    decreases |pop| - j
  {
    if r - PrefixFitness(pop, j + 1) <= 0.0 || j == |pop| - 1 then j
    else WheelFrom(pop, r, j + 1)
  }

  /** The member on which the wheel stops when Math.random() gives `spin`. */
  function Wheel(pop: seq<Schedule>, spin: real): (k: nat)
    requires AllScored(pop) && |pop| > 0
    ensures k < |pop|
  {
    WheelFrom(pop, spin * TotalFitness(pop), 0)
  }

  /** When the remainder stays positive up to member `j`, the search from `j`
      stops where the wheel does. */
  lemma {:induction false} WheelFromPicks(pop: seq<Schedule>, r: real, j: nat)
    requires AllScored(pop) && j < |pop|
    requires forall i :: 1 <= i <= j ==> r - PrefixFitness(pop, i) > 0.0
    ensures RoulettePick(pop, r, WheelFrom(pop, r, j))
    decreases |pop| - j
  {
    if !(r - PrefixFitness(pop, j + 1) <= 0.0 || j == |pop| - 1) {
      WheelFromPicks(pop, r, j + 1);
    }
  }

  /** `Wheel` computes the roulette stop. */
  lemma WheelPicks(pop: seq<Schedule>, spin: real)
    requires AllScored(pop) && |pop| > 0
    ensures RoulettePick(pop, spin * TotalFitness(pop), Wheel(pop, spin))
  {
    WheelFromPicks(pop, spin * TotalFitness(pop), 0);
  }

  /** selectParent: spins the wheel with Math.random() = `spin` and returns
      the position of the chosen member. */
  method SelectParent(population: seq<Schedule>, spin: real) returns (k: nat)
    requires |population| > 0 && AllScored(population) && 0.0 <= spin < 1.0
    ensures RoulettePick(population, spin * TotalFitness(population), k)
    ensures k == Wheel(population, spin)
  {
    var randomValue := spin * TotalFitness(population);
    ghost var r := randomValue;
    k := 0;
    while k < |population|
      invariant 0 <= k <= |population|
      invariant randomValue == r - PrefixFitness(population, k)
      invariant forall j :: 1 <= j <= k ==> r - PrefixFitness(population, j) > 0.0
    {
      randomValue := randomValue - population[k].fitness.value;
      if randomValue <= 0.0 {
        WheelPicks(population, spin);
        RoulettePickUnique(population, r, k, Wheel(population, spin));
        return;
      }
      k := k + 1;
    }
    k := |population| - 1;
    WheelPicks(population, spin);
    RoulettePickUnique(population, r, k, Wheel(population, spin));
  }

  predicate NonNegativeFitness(pop: seq<Schedule>)
    requires AllScored(pop)
  {
    forall k :: 0 <= k < |pop| ==> pop[k].fitness.value >= 0.0
  }

  lemma {:induction false} PrefixFitnessMonotone(pop: seq<Schedule>, m: nat, n: nat)
    requires AllScored(pop) && NonNegativeFitness(pop) && m <= n <= |pop|
    ensures 0.0 <= PrefixFitness(pop, m) <= PrefixFitness(pop, n)
    decreases n
  {
    if m < n {
      PrefixFitnessMonotone(pop, m, n - 1);
    } else if n > 0 {
      PrefixFitnessMonotone(pop, 0, n - 1);
    }
  }

  lemma ScaledBelow(spin: real, total: real)
    requires 0.0 <= spin < 1.0 && total > 0.0
    ensures spin * total < total
  {
  }

  /** In exact arithmetic the wheel always stops by itself: for a spin in
      [0, 1) the remainder reaches <= 0 at the chosen member, so the
      last-member fallback only ever matters for floating-point drift. */
  lemma RouletteLandsWithoutFallback(pop: seq<Schedule>, spin: real, k: nat)
    requires AllScored(pop) && NonNegativeFitness(pop) && 0.0 <= spin < 1.0
    requires RoulettePick(pop, spin * TotalFitness(pop), k)
    ensures spin * TotalFitness(pop) - PrefixFitness(pop, k + 1) <= 0.0
  {
    var total := TotalFitness(pop);
    PrefixFitnessMonotone(pop, 0, |pop|);
    if k == |pop| - 1 {
      assert PrefixFitness(pop, k + 1) == total;
      if total > 0.0 {
        ScaledBelow(spin, total);
        assert spin * total - PrefixFitness(pop, k + 1) < 0.0;
      } else {
        assert total == 0.0;
        assert spin * total == 0.0;
      }
    }
  }

  /** A positive spin never stops on a member of zero fitness. */
  lemma RouletteSkipsZeroFitness(pop: seq<Schedule>, spin: real, k: nat)
    requires AllScored(pop) && NonNegativeFitness(pop) && 0.0 < spin < 1.0 && TotalFitness(pop) > 0.0
    requires RoulettePick(pop, spin * TotalFitness(pop), k)
    ensures pop[k].fitness.value > 0.0
  {
    RouletteLandsWithoutFallback(pop, spin, k);
    var r := spin * TotalFitness(pop);
    assert r > 0.0;
    if k > 0 {
      assert r - PrefixFitness(pop, k) > 0.0;
    }
  }

  /** The stopping member is unique for a given wheel value. */
  lemma RoulettePickUnique(pop: seq<Schedule>, r: real, k1: nat, k2: nat)
    requires AllScored(pop) && RoulettePick(pop, r, k1) && RoulettePick(pop, r, k2)
    ensures k1 == k2
  {
  }
}
