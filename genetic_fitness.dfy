/**
 * Scoring a candidate (geneticAlgorithm.js, calculateFitness): a count of
 * constraint violations and the fitness 1 / (violations + 1), in exact
 * rational arithmetic.
 */
module GeneticFitness {
  import opened Entities
  import opened GeneticGrid

  /** The two pairwise rules of the fitness function. */
  datatype ClashRule = RoomRule | InstructorRule

  /** Entries `a` (earlier) and `b` (later) break `rule`: both hold a course,
      share the cell, and hold the same room (room rule) or courses taught by
      the same instructor (instructor rule). Ids are compared by value. */
  predicate Clash(rule: ClashRule, a: Entry, b: Entry) {
    a.course.Some? && b.course.Some? && SameCell(a, b) &&
    match rule
    case RoomRule => a.room.Some? && b.room.Some? && a.room.value == b.room.value
    case InstructorRule => HasInstructor(a) && HasInstructor(b) && InstructorOf(a) == InstructorOf(b)
  }

  /** The pairs (i, k) with i < k < j that break `rule`. */
  function RowClashes(t: seq<Entry>, rule: ClashRule, i: nat, j: nat): nat
    requires i < |t| && j <= |t|
    decreases j
  {
    if j <= i + 1 then 0
    else RowClashes(t, rule, i, j - 1) + (if Clash(rule, t[i], t[j - 1]) then 1 else 0)
  }

  /** The pairs (i, k) with i < n and i < k < |t| that break `rule`. */
  function PairClashes(t: seq<Entry>, rule: ClashRule, n: nat): nat
    requires n <= |t|
  {
    if n == 0 then 0 else PairClashes(t, rule, n - 1) + RowClashes(t, rule, n - 1, |t|)
  }

  /** Every unordered pair of entries that breaks `rule`, each counted once. */
  function Clashes(t: seq<Entry>, rule: ClashRule): nat {
    PairClashes(t, rule, |t|)
  }

  /** `find` on a catalog: the first element whose id is `id`, if any. */
  function FindById<T>(xs: seq<T>, idOf: T -> Id, id: Id): (r: Option<T>)
    ensures r.None? <==> forall i :: 0 <= i < |xs| ==> idOf(xs[i]) != id
    ensures r.Some? ==> exists i :: 0 <= i < |xs| && xs[i] == r.value && idOf(xs[i]) == id &&
                                    forall j :: 0 <= j < i ==> idOf(xs[j]) != id
  {
    if xs == [] then None
    else if idOf(xs[0]) == id then Some(xs[0])
    else
      var r := FindById(xs[1..], idOf, id);
      assert r.Some? ==> exists i :: 0 <= i < |xs| && xs[i] == r.value && idOf(xs[i]) == id &&
                                     forall j :: 0 <= j < i ==> idOf(xs[j]) != id by {
        if r.Some? {
          var i :| 0 <= i < |xs[1..]| && xs[1..][i] == r.value && idOf(xs[1..][i]) == id &&
                   forall j :: 0 <= j < i ==> idOf(xs[1..][j]) != id;
          assert forall j :: 0 <= j < i + 1 ==> idOf(xs[j]) != id by {
            forall j | 0 <= j < i + 1 ensures idOf(xs[j]) != id {
              if j > 0 { assert xs[j] == xs[1..][j - 1]; }
            }
          }
        }
      }
      assert r.None? ==> forall i :: 0 <= i < |xs| ==> idOf(xs[i]) != id by {
        if r.None? {
          forall i | 0 <= i < |xs| ensures idOf(xs[i]) != id {
            if i > 0 { assert xs[i] == xs[1..][i - 1]; }
          }
        }
      }
      r
  }

  /** The entry's room seats fewer than its course requires. A course without
      a capacity never falls short (comparing with undefined is false). */
  predicate Shortfall(e: Entry, courses: seq<Course>, rooms: seq<Room>) {
    e.course.Some? && e.room.Some? &&
    var course := FindById(courses, (c: Course) => c.id, e.course.value.id);
    var room := FindById(rooms, (r: Room) => r.id, e.room.value);
    room.Some? && course.Some? && course.value.capacity.Some? &&
    room.value.capacity < course.value.capacity.value
  }

  /** Capacity shortfalls among the first `n` entries. */
  function Shortfalls(t: seq<Entry>, courses: seq<Course>, rooms: seq<Room>, n: nat): nat
    requires n <= |t|
  {
    if n == 0 then 0
    else Shortfalls(t, courses, rooms, n - 1) + (if Shortfall(t[n - 1], courses, rooms) then 1 else 0)
  }

  /** Entries without a course among the first `n` entries. */
  function EmptySlots(t: seq<Entry>, n: nat): nat
    requires n <= |t|
  {
    if n == 0 then 0 else EmptySlots(t, n - 1) + (if t[n - 1].course.None? then 1 else 0)
  }

  /** The violation count: room clashes, instructor clashes, capacity
      shortfalls, and ten for every entry without a course. */
  function Violations(t: seq<Entry>, courses: seq<Course>, rooms: seq<Room>): nat {
    Clashes(t, RoomRule) + Clashes(t, InstructorRule) +
    Shortfalls(t, courses, rooms, |t|) + 10 * EmptySlots(t, |t|)
  }

  /** Fitness 1 / (n + 1): positive, at most 1, and 1 exactly for no violation. */
  function FitnessOf(n: nat): (f: real)
    ensures 0.0 < f <= 1.0
    ensures f == 1.0 <==> n == 0
  {
    assert (n as real + 1.0) * (1.0 / (n as real + 1.0)) == 1.0;
    1.0 / (n as real + 1.0)
  }

  /** Dividing 1 by a larger positive number gives a smaller result. */
  lemma ReciprocalDecreasing(a: real, b: real)
    requires 0.0 < a < b
    ensures 1.0 / b < 1.0 / a
  {
    assert 1.0 / a - 1.0 / b == (b - a) / (a * b);
    assert a * b > 0.0;
  }

  /** Fewer violations means strictly higher fitness, and conversely. */
  lemma FitnessOrder(m: nat, n: nat)
    ensures m < n <==> FitnessOf(n) < FitnessOf(m)
    ensures m == n <==> FitnessOf(n) == FitnessOf(m)
  {
    if m < n {
      ReciprocalDecreasing(m as real + 1.0, n as real + 1.0);
    } else if n < m {
      ReciprocalDecreasing(n as real + 1.0, m as real + 1.0);
    }
  }

  /** calculateFitness: two nested pair scans (rooms, then instructors), a
      capacity pass and an empty-slot pass over one counter. */
  method CalculateFitness(schedule: Schedule, courses: seq<Course>, rooms: seq<Room>) returns (fitness: real)
    ensures fitness == FitnessOf(Violations(schedule.timetable, courses, rooms))
  {
    var t := schedule.timetable;
    var conflicts: nat := 0;

    var i := 0;
    while i < |t|
      invariant 0 <= i <= |t|
      invariant conflicts == PairClashes(t, RoomRule, i)
    {
      var j := i + 1;
      while j < |t|
        invariant i + 1 <= j <= |t|
        invariant conflicts == PairClashes(t, RoomRule, i) + RowClashes(t, RoomRule, i, j)
      {
        if t[i].course.Some? && t[j].course.Some? && t[i].day == t[j].day &&
           t[i].room.Some? && t[j].room.Some? && t[i].room.value == t[j].room.value &&
           t[i].startTime == t[j].startTime
        {
          conflicts := conflicts + 1;
        }
        j := j + 1;
      }
      i := i + 1;
    }

    i := 0;
    while i < |t|
      invariant 0 <= i <= |t|
      invariant conflicts == Clashes(t, RoomRule) + PairClashes(t, InstructorRule, i)
    {
      var j := i + 1;
      while j < |t|
        invariant i + 1 <= j <= |t|
        invariant conflicts == Clashes(t, RoomRule) + PairClashes(t, InstructorRule, i) +
                               RowClashes(t, InstructorRule, i, j)
      {
        if t[i].course.Some? && t[j].course.Some? &&
           t[i].course.value.instructor.Some? && t[j].course.value.instructor.Some? &&
           t[i].course.value.instructor.value == t[j].course.value.instructor.value &&
           t[i].day == t[j].day && t[i].startTime == t[j].startTime
        {
          conflicts := conflicts + 1;
        }
        j := j + 1;
      }
      i := i + 1;
    }

    var k := 0;
    while k < |t|
      invariant 0 <= k <= |t|
      invariant conflicts == Clashes(t, RoomRule) + Clashes(t, InstructorRule) + Shortfalls(t, courses, rooms, k)
    {
      var slot := t[k];
      if slot.course.Some? && slot.room.Some? {
        var course := FindById(courses, (c: Course) => c.id, slot.course.value.id);
        var room := FindById(rooms, (r: Room) => r.id, slot.room.value);
        if room.Some? && course.Some? && course.value.capacity.Some? &&
           room.value.capacity < course.value.capacity.value
        {
          conflicts := conflicts + 1;
        }
      }
      k := k + 1;
    }

    k := 0;
    while k < |t|
      invariant 0 <= k <= |t|
      invariant conflicts == Clashes(t, RoomRule) + Clashes(t, InstructorRule) +
                             Shortfalls(t, courses, rooms, |t|) + 10 * EmptySlots(t, k)
    {
      if t[k].course.None? {
        conflicts := conflicts + 10;
      }
      k := k + 1;
    }

    fitness := 1.0 / (conflicts as real + 1.0);
  }

  lemma {:induction false} RowClashesZero(t: seq<Entry>, rule: ClashRule, i: nat, j: nat)
    requires DistinctCells(t) && i < |t| && j <= |t|
    ensures RowClashes(t, rule, i, j) == 0
    decreases j
  {
    if j > i + 1 {
      RowClashesZero(t, rule, i, j - 1);
      assert !SameCell(t[i], t[j - 1]);
    }
  }

  lemma {:induction false} PairClashesZero(t: seq<Entry>, rule: ClashRule, n: nat)
    requires DistinctCells(t) && n <= |t|
    ensures PairClashes(t, rule, n) == 0
  {
    if n > 0 {
      PairClashesZero(t, rule, n - 1);
      RowClashesZero(t, rule, n - 1, |t|);
    }
  }

  /** When no two entries share a cell, neither pair rule can fire. */
  lemma DistinctCellsNoClashes(t: seq<Entry>)
    requires DistinctCells(t)
    ensures Clashes(t, RoomRule) == 0 && Clashes(t, InstructorRule) == 0
  {
    PairClashesZero(t, RoomRule, |t|);
    PairClashesZero(t, InstructorRule, |t|);
  }

  lemma {:induction false} NoEmptySlots(t: seq<Entry>, n: nat)
    requires n <= |t| && forall k :: 0 <= k < |t| ==> t[k].course.Some?
    ensures EmptySlots(t, n) == 0
  {
    if n > 0 { NoEmptySlots(t, n - 1); }
  }

  lemma {:induction false} NoShortfalls(t: seq<Entry>, courses: seq<Course>, rooms: seq<Room>, n: nat)
    requires n <= |t| && forall k :: 0 <= k < |t| ==> !Shortfall(t[k], courses, rooms)
    ensures Shortfalls(t, courses, rooms, n) == 0
  {
    if n > 0 { NoShortfalls(t, courses, rooms, n - 1); }
  }

  /** One course whose capacity (if any) fits in the single room: every
      well-formed timetable over these catalogs is perfect, with fitness 1. */
  lemma SingleCourseSingleRoomIsPerfect(t: seq<Entry>, courses: seq<Course>, rooms: seq<Room>)
    requires |courses| == 1 && |rooms| == 1
    requires courses[0].capacity.None? || courses[0].capacity.value <= rooms[0].capacity
    requires WellFormed(t, courses, rooms)
    ensures Violations(t, courses, rooms) == 0
    ensures FitnessOf(Violations(t, courses, rooms)) == 1.0
  {
    GridOrderIsDistinct(t);
    DistinctCellsNoClashes(t);
    NoEmptySlots(t, |t|);
    forall k | 0 <= k < |t| ensures !Shortfall(t[k], courses, rooms) {
      assert t[k].course.value == RefOf(courses[0]);
      assert t[k].room.value == rooms[0].id;
      var course := FindById(courses, (c: Course) => c.id, t[k].course.value.id);
      assert course == Some(courses[0]);
    }
    NoShortfalls(t, courses, rooms, |t|);
  }

  /** `u` is `t` with only the subdocument ids of its entries changed. */
  predicate SameButIds(t: seq<Entry>, u: seq<Entry>) {
    |u| == |t| && forall k :: 0 <= k < |t| ==> u[k] == t[k].(id := u[k].id)
  }

  lemma {:induction false} RowClashesIgnoreIds(t: seq<Entry>, u: seq<Entry>, rule: ClashRule, i: nat, j: nat)
    requires SameButIds(t, u) && i < |t| && j <= |t|
    ensures RowClashes(u, rule, i, j) == RowClashes(t, rule, i, j)
    decreases j
  {
    if j > i + 1 {
      RowClashesIgnoreIds(t, u, rule, i, j - 1);
      assert Clash(rule, u[i], u[j - 1]) == Clash(rule, t[i], t[j - 1]);
    }
  }

  lemma {:induction false} PairClashesIgnoreIds(t: seq<Entry>, u: seq<Entry>, rule: ClashRule, n: nat)
    requires SameButIds(t, u) && n <= |t|
    ensures PairClashes(u, rule, n) == PairClashes(t, rule, n)
  {
    if n > 0 {
      PairClashesIgnoreIds(t, u, rule, n - 1);
      RowClashesIgnoreIds(t, u, rule, n - 1, |t|);
    }
  }

  lemma {:induction false} ShortfallsIgnoreIds(t: seq<Entry>, u: seq<Entry>, courses: seq<Course>, rooms: seq<Room>, n: nat)
    requires SameButIds(t, u) && n <= |t|
    ensures Shortfalls(u, courses, rooms, n) == Shortfalls(t, courses, rooms, n)
    ensures EmptySlots(u, n) == EmptySlots(t, n)
  {
    if n > 0 {
      ShortfallsIgnoreIds(t, u, courses, rooms, n - 1);
      assert u[n - 1] == t[n - 1].(id := u[n - 1].id);
    }
  }

  /** The violation count, and so the fitness, does not depend on the
      subdocument ids of the entries. */
  lemma ViolationsIgnoreIds(t: seq<Entry>, u: seq<Entry>, courses: seq<Course>, rooms: seq<Room>)
    requires SameButIds(t, u)
    ensures Violations(u, courses, rooms) == Violations(t, courses, rooms)
  {
    PairClashesIgnoreIds(t, u, RoomRule, |t|);
    PairClashesIgnoreIds(t, u, InstructorRule, |t|);
    ShortfallsIgnoreIds(t, u, courses, rooms, |t|);
  }
}
