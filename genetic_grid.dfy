/**
 * Building one random candidate timetable (geneticAlgorithm.js,
 * generateRandomSchedule). Every random index is an explicit input: a value
 * `i` drawn for a list of length `n` stands for Math.floor(Math.random() * n).
 */
module GeneticGrid {
  import opened Entities

  /** `i` is a possible value of Math.floor(Math.random() * n). */
  predicate Drawn(i: nat, n: nat) {
    if n == 0 then i == 0 else i < n
  }

  /** `draws` holds one index per grid cell, each a possible draw for a list of length `n`. */
  predicate ValidDraws(draws: seq<nat>, n: nat) {
    |draws| == CELLS && forall k :: 0 <= k < |draws| ==> Drawn(draws[k], n)
  }

  /** The denormalised copy of a catalog course that an entry embeds. */
  function RefOf(c: Course): CourseRef {
    CourseRef(c.id, c.instructor)
  }

  /** courses[i] as an embedded course; null when the index is past the end
      (reading an array out of range gives undefined). */
  function PickCourse(courses: seq<Course>, i: nat): Option<CourseRef> {
    if i < |courses| then Some(RefOf(courses[i])) else None
  }

  /** rooms[i] as an embedded room id; null when the index is past the end. */
  function PickRoom(rooms: seq<Room>, i: nat): Option<Id> {
    if i < |rooms| then Some(rooms[i].id) else None
  }

  /** `xs.map(x => x._id)`: the ids of a catalog, in catalog order. */
  function Ids<T>(xs: seq<T>, idOf: T -> Id): (ids: seq<Id>)
    ensures |ids| == |xs| && forall i :: 0 <= i < |xs| ==> ids[i] == idOf(xs[i])
  {
    if xs == [] then [] else [idOf(xs[0])] + Ids(xs[1..], idOf)
  }

  /** The course ids a schedule records. */
  function CourseIds(courses: seq<Course>): seq<Id> {
    Ids(courses, (c: Course) => c.id)
  }

  /** The room ids a schedule records. */
  function RoomIds(rooms: seq<Room>): seq<Id> {
    Ids(rooms, (r: Room) => r.id)
  }

  /** The entry generated for grid cell `k` (day k / 8, slot k % 8). */
  function CellEntry(k: nat, courses: seq<Course>, rooms: seq<Room>, ci: nat, ri: nat): Entry
    requires k < CELLS
  {
    Entry(None, PickCourse(courses, ci), PickRoom(rooms, ri),
          DAYS[k / 8], TIME_SLOTS[k % 8], EndTime(TIME_SLOTS, k % 8))
  }

  /** The timetable that a given sequence of draws produces. */
  function RandomTimetable(courses: seq<Course>, rooms: seq<Room>,
                           courseDraws: seq<nat>, roomDraws: seq<nat>): seq<Entry>
    requires |courseDraws| == CELLS && |roomDraws| == CELLS
  {
    seq(CELLS, k requires 0 <= k < CELLS => CellEntry(k, courses, rooms, courseDraws[k], roomDraws[k]))
  }

  function RandomSchedule(courses: seq<Course>, rooms: seq<Room>,
                          courseDraws: seq<nat>, roomDraws: seq<nat>): Schedule
    requires |courseDraws| == CELLS && |roomDraws| == CELLS
  {
    Schedule(CourseIds(courses), RoomIds(rooms), RandomTimetable(courses, rooms, courseDraws, roomDraws), None)
  }

  /** The embedded course is a copy of some catalog course. */
  predicate CourseListed(c: CourseRef, courses: seq<Course>) {
    exists i :: 0 <= i < |courses| && c == RefOf(courses[i])
  }

  /** The room id is the id of some catalog room. */
  predicate RoomListed(r: Id, rooms: seq<Room>) {
    exists i :: 0 <= i < |rooms| && r == rooms[i].id
  }

  /** Every entry holds a course and a room, both taken from the catalogs. */
  predicate FromCatalog(t: seq<Entry>, courses: seq<Course>, rooms: seq<Room>) {
    forall k :: 0 <= k < |t| ==>
      t[k].course.Some? && CourseListed(t[k].course.value, courses) &&
      t[k].room.Some? && RoomListed(t[k].room.value, rooms)
  }

  /** The shape every candidate of a run keeps: the 40 cells in grid order,
      each bound to a catalog course and a catalog room. */
  predicate WellFormed(t: seq<Entry>, courses: seq<Course>, rooms: seq<Room>) {
    InGridOrder(t) && FromCatalog(t, courses, rooms)
  }

  /** generateRandomSchedule: walks the days, and within each day the slots,
      appending one entry per cell with the drawn course and room. */
  method GenerateRandomSchedule(courses: seq<Course>, rooms: seq<Room>,
                                courseDraws: seq<nat>, roomDraws: seq<nat>) returns (s: Schedule)
    requires ValidDraws(courseDraws, |courses|) && ValidDraws(roomDraws, |rooms|)
    ensures s == RandomSchedule(courses, rooms, courseDraws, roomDraws)
  {
    var timetable: seq<Entry> := [];
    var d := 0;
    while d < |DAYS|
      invariant 0 <= d <= |DAYS|
      invariant |timetable| == d * 8
      invariant forall k :: 0 <= k < |timetable| ==>
        timetable[k] == CellEntry(k, courses, rooms, courseDraws[k], roomDraws[k])
    {
      var t := 0;
      while t < |TIME_SLOTS|
        invariant 0 <= t <= |TIME_SLOTS|
        invariant |timetable| == d * 8 + t
        invariant forall k :: 0 <= k < |timetable| ==>
          timetable[k] == CellEntry(k, courses, rooms, courseDraws[k], roomDraws[k])
      {
        var k := d * 8 + t;
        assert k / 8 == d && k % 8 == t;
        var course := PickCourse(courses, courseDraws[k]);
        var room := PickRoom(rooms, roomDraws[k]);
        timetable := timetable + [Entry(None, course, room, DAYS[d], TIME_SLOTS[t], EndTime(TIME_SLOTS, t))];
        t := t + 1;
      }
      d := d + 1;
    }
    s := Schedule(CourseIds(courses), RoomIds(rooms), timetable, None);
  }

  /** A generated timetable has exactly the 40 cells, in day-major order, so no
      two of its entries share a (day, startTime); the slot "16:00" ends at "16:00". */
  lemma {:induction false} RandomTimetableInGridOrder(courses: seq<Course>, rooms: seq<Room>,
                                                     courseDraws: seq<nat>, roomDraws: seq<nat>)
    requires |courseDraws| == CELLS && |roomDraws| == CELLS
    ensures InGridOrder(RandomTimetable(courses, rooms, courseDraws, roomDraws))
    ensures DistinctCells(RandomTimetable(courses, rooms, courseDraws, roomDraws))
    ensures RandomTimetable(courses, rooms, courseDraws, roomDraws)[CELLS - 1].endTime == "16:00"
  {
    var t := RandomTimetable(courses, rooms, courseDraws, roomDraws);
    GridOrderIsDistinct(t);
  }

  /** With both catalogs non-empty, every generated entry holds the drawn
      catalog course and room; none is left without a course. */
  lemma {:induction false} RandomTimetableFromCatalog(courses: seq<Course>, rooms: seq<Room>,
                                                     courseDraws: seq<nat>, roomDraws: seq<nat>)
    requires |courses| > 0 && |rooms| > 0
    requires ValidDraws(courseDraws, |courses|) && ValidDraws(roomDraws, |rooms|)
    ensures WellFormed(RandomTimetable(courses, rooms, courseDraws, roomDraws), courses, rooms)
    ensures forall k :: 0 <= k < CELLS ==>
      RandomTimetable(courses, rooms, courseDraws, roomDraws)[k].course == Some(RefOf(courses[courseDraws[k]])) &&
      RandomTimetable(courses, rooms, courseDraws, roomDraws)[k].room == Some(rooms[roomDraws[k]].id)
  {
    var t := RandomTimetable(courses, rooms, courseDraws, roomDraws);
    RandomTimetableInGridOrder(courses, rooms, courseDraws, roomDraws);
    forall k | 0 <= k < |t|
      ensures t[k].course.Some? && CourseListed(t[k].course.value, courses)
      ensures t[k].room.Some? && RoomListed(t[k].room.value, rooms)
    {
      assert t[k].course.value == RefOf(courses[courseDraws[k]]);
      assert t[k].room.value == rooms[roomDraws[k]].id;
    }
  }
}
