/**
 * Data shapes shared by the timetable engine: the catalog entities (courses,
 * rooms, instructor availability), the timetable entry, the schedule document
 * and the fixed week grid the genetic algorithm fills.
 */
module Entities {

  datatype Option<+T> = None | Some(value: T)

  datatype Result<+T, +E> = Success(value: T) | Failure(error: E)

  /** A database identifier (a Mongo ObjectId); only its equality matters. */
  type Id = nat

  /** A course of the catalog. The stored course document has no capacity
      field, so reading `course.capacity` gives undefined: `None` here. */
  datatype Course = Course(id: Id, instructor: Option<Id>, capacity: Option<int>)

  /** A room of the catalog with its seating capacity. */
  datatype Room = Room(id: Id, capacity: int)

  /** The course embedded in a timetable entry: its id and its instructor's id. */
  datatype CourseRef = CourseRef(id: Id, instructor: Option<Id>)

  /** One timetable entry. `id` is the subdocument id the document model gives
      each entry when a schedule document is built from it (absent on entries
      of in-memory candidates); `course` and `room` may be null. */
  datatype Entry = Entry(
    id: Option<Id>,
    course: Option<CourseRef>,
    room: Option<Id>,
    day: string,
    startTime: string,
    endTime: string)

  /** A schedule value: the catalog ids it was built from, its timetable and,
      once evaluated, its fitness. */
  datatype Schedule = Schedule(
    courses: seq<Id>,
    rooms: seq<Id>,
    timetable: seq<Entry>,
    fitness: Option<real>)

  /** One day of an instructor's weekly availability. */
  datatype DayAvailability = DayAvailability(day: string, timeSlots: seq<string>)

  /** Every entry of `t` carries the id at its own position of `ids`. */
  predicate IdsAssigned(t: seq<Entry>, ids: seq<Id>) {
    |ids| == |t| && forall k :: 0 <= k < |t| ==> t[k].id == Some(ids[k])
  }

  /** No identifier occurs twice. */
  predicate DistinctIds(ids: seq<Id>) {
    forall i, j :: 0 <= i < j < |ids| ==> ids[i] != ids[j]
  }

  /** A persisted schedule document, edited in place by the conflict resolver
      and by the manual-edit route. */
  class ScheduleDoc {
    var courses: seq<Id>
    var rooms: seq<Id>
    var timetable: seq<Entry>
    var fitness: real

    /** Building a document from a schedule value copies its fields and gives
        entry `k` of the timetable the fresh subdocument id `entryIds[k]`
        (fresh ids are pairwise distinct); every other field of the entry is kept. */
    constructor (s: Schedule, entryIds: seq<Id>)
      requires |entryIds| == |s.timetable| && DistinctIds(entryIds)
      ensures courses == s.courses && rooms == s.rooms
      ensures |timetable| == |s.timetable| && IdsAssigned(timetable, entryIds)
      ensures forall k :: 0 <= k < |timetable| ==> timetable[k] == s.timetable[k].(id := Some(entryIds[k]))
      ensures fitness == (if s.fitness.Some? then s.fitness.value else 0.0)
    {
      courses := s.courses;
      rooms := s.rooms;
      timetable := seq(|s.timetable|, k requires 0 <= k < |s.timetable| => s.timetable[k].(id := Some(entryIds[k])));
      fitness := if s.fitness.Some? then s.fitness.value else 0.0;
    }
  }

  /** Two entries occupy the same grid cell. */
  predicate SameCell(a: Entry, b: Entry) {
    a.day == b.day && a.startTime == b.startTime
  }

  /** The instructor id of an entry's course, when both are present. */
  predicate HasInstructor(e: Entry) {
    e.course.Some? && e.course.value.instructor.Some?
  }

  function InstructorOf(e: Entry): Id
    requires HasInstructor(e)
  {
    e.course.value.instructor.value
  }

  /** The end time given to the slot at position `s` of `slots`: the next
      label, except that the last slot ends at its own label. */
  function EndTime(slots: seq<string>, s: nat): (r: string)
    requires s < |slots|
    ensures s + 1 < |slots| ==> r == slots[s + 1]
    ensures s + 1 == |slots| ==> r == slots[s]
  {
    slots[if s + 1 <= |slots| - 1 then s + 1 else |slots| - 1]
  }

  /** The grid the genetic algorithm fills: five weekdays by eight hourly slots. */
  const DAYS: seq<string> := ["Monday", "Tuesday", "Wednesday", "Thursday", "Friday"]
  const TIME_SLOTS: seq<string> := ["09:00", "10:00", "11:00", "12:00", "13:00", "14:00", "15:00", "16:00"]
  const CELLS: nat := 40

  /** Entry `k` of a generated timetable sits in cell (DAYS[k / 8], TIME_SLOTS[k % 8]). */
  predicate InGridOrder(t: seq<Entry>) {
    |t| == CELLS &&
    forall k :: 0 <= k < |t| ==>
      t[k].day == DAYS[k / 8] && t[k].startTime == TIME_SLOTS[k % 8] &&
      t[k].endTime == EndTime(TIME_SLOTS, k % 8)
  }

  /** No two entries of `t` share a (day, startTime) cell. */
  predicate DistinctCells(t: seq<Entry>) {
    forall i, j :: 0 <= i < j < |t| ==> !SameCell(t[i], t[j])
  }

  lemma DaysDistinct()
    ensures forall i, j :: 0 <= i < j < |DAYS| ==> DAYS[i] != DAYS[j]
  {
    forall i, j | 0 <= i < j < |DAYS| ensures DAYS[i] != DAYS[j] {
      assert DAYS[i][0] != DAYS[j][0] || |DAYS[i]| != |DAYS[j]|;
    }
  }

  lemma TimeSlotsDistinct()
    ensures forall i, j :: 0 <= i < j < |TIME_SLOTS| ==> TIME_SLOTS[i] != TIME_SLOTS[j]
  {
    forall i, j | 0 <= i < j < |TIME_SLOTS| ensures TIME_SLOTS[i] != TIME_SLOTS[j] {
      assert TIME_SLOTS[i][1] != TIME_SLOTS[j][1];
    }
  }

  /** A timetable in grid order visits every cell once: no two entries collide. */
  lemma {:induction false} GridOrderIsDistinct(t: seq<Entry>)
    requires InGridOrder(t)
    ensures DistinctCells(t)
  {
    DaysDistinct();
    TimeSlotsDistinct();
    forall i, j | 0 <= i < j < |t| ensures !SameCell(t[i], t[j]) {
      if i / 8 == j / 8 {
        assert i % 8 != j % 8;
        assert t[i].startTime != t[j].startTime;
      } else {
        assert t[i].day != t[j].day;
      }
    }
  }
}
