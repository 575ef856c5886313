/**
 * The logic inside two schedule HTTP handlers (scheduleRoutes.js): the
 * `/latest` response, which lays the stored timetable over a full week grid
 * and fills the holes with empty cells, and the `/resolve-conflict` manual
 * edit of one stored entry. Status codes stand for the responses; the store,
 * JSON bodies and routing are outside the model.
 */
module ScheduleRoutes {
  import opened Entities

  /** The grid of the `/latest` response: seven days by nine hourly slots. */
  const WEEK: seq<string> := ["Monday", "Tuesday", "Wednesday", "Thursday", "Friday", "Saturday", "Sunday"]
  const HOURS: seq<string> := ["09:00", "10:00", "11:00", "12:00", "13:00", "14:00", "15:00", "16:00", "17:00"]
  const GRID_CELLS: nat := 63

  /** Array.prototype.indexOf: the first position of `x`, or -1. */
  function IndexOf(xs: seq<string>, x: string): (r: int)
    ensures -1 <= r < |xs|
    ensures r == -1 <==> x !in xs
    ensures r >= 0 ==> xs[r] == x && forall k :: 0 <= k < r ==> xs[k] != x
  {
    if xs == [] then -1
    else if xs[0] == x then 0
    else
      var r := IndexOf(xs[1..], x);
      assert forall k :: 1 <= k < |xs| ==> xs[k] == xs[1..][k - 1];
      if r == -1 then -1 else r + 1
  }

  lemma HoursDistinct()
    ensures forall i, j :: 0 <= i < j < |HOURS| ==> HOURS[i] != HOURS[j]
  {
    forall i, j | 0 <= i < j < |HOURS| ensures HOURS[i] != HOURS[j] {
      assert HOURS[i][0] != HOURS[j][0] || HOURS[i][1] != HOURS[j][1];
    }
  }

  /** Every label of the grid is found at its own position. */
  lemma IndexOfHour(s: nat)
    requires s < |HOURS|
    ensures IndexOf(HOURS, HOURS[s]) == s
  {
    HoursDistinct();
    assert HOURS[s] in HOURS;
  }

  predicate InCell(e: Entry, day: string, startTime: string) {
    e.day == day && e.startTime == startTime
  }

  /** Array.prototype.find over the stored timetable: the position of the
      first entry in cell (day, startTime), if any. */
  function FirstInCell(t: seq<Entry>, day: string, startTime: string): (r: Option<nat>)
    ensures r.None? <==> forall k :: 0 <= k < |t| ==> !InCell(t[k], day, startTime)
    ensures r.Some? ==>
      r.value < |t| && InCell(t[r.value], day, startTime) &&
      forall k :: 0 <= k < r.value ==> !InCell(t[k], day, startTime)
  {
    if t == [] then None
    else if InCell(t[0], day, startTime) then Some(0)
    else
      var r := FirstInCell(t[1..], day, startTime);
      assert forall k :: 1 <= k < |t| ==> t[k] == t[1..][k - 1];
      if r.None? then None else Some(r.value + 1)
  }

  /** The end time a hole gets: the label after its start time, clamped to the last. */
  function HoleEnd(timeSlot: string): string {
    var next := IndexOf(HOURS, timeSlot) + 1;
    HOURS[if next < |HOURS| - 1 then next else |HOURS| - 1]
  }

  /** The placeholder for a cell without a stored entry. */
  function Hole(day: string, timeSlot: string): Entry {
    Entry(None, None, None, day, timeSlot, HoleEnd(timeSlot))
  }

  /** What the response shows in cell (day, timeSlot): the first stored entry
      there, else a hole. */
  function Shown(t: seq<Entry>, day: string, timeSlot: string): Entry {
    match FirstInCell(t, day, timeSlot)
    case Some(k) => t[k]
    case None => Hole(day, timeSlot)
  }

  /** The timetable of the `/latest` response: the days mapped, each to its
      time slots mapped to the cell shown there, and the rows flattened in
      day order, so position k holds cell (WEEK[k / 9], HOURS[k % 9]). */
  function FilledTimetable(t: seq<Entry>): seq<Entry> {
    seq(GRID_CELLS, k requires 0 <= k < GRID_CELLS => Shown(t, WEEK[k / 9], HOURS[k % 9]))
  }

  /** A hole at slot s ends at the next slot, the last slot at itself. */
  lemma HoleEndAt(s: nat)
    requires s < |HOURS|
    ensures HoleEnd(HOURS[s]) == EndTime(HOURS, s)
  {
    IndexOfHour(s);
  }

  /** The response is the full 7 x 9 grid in day-major order: 63 entries,
      cell (d, s) at position d * 9 + s, showing the first stored
      entry with that day and start time, unchanged, or else an entry without
      course or room that ends at the next slot, the "17:00" cell ending at
      "17:00". Either way it carries the cell's day and start time. */
  lemma FilledCell(t: seq<Entry>, d: nat, s: nat)
    requires d < |WEEK| && s < |HOURS|
    ensures |FilledTimetable(t)| == GRID_CELLS && d * 9 + s < GRID_CELLS
    ensures FilledTimetable(t)[d * 9 + s].day == WEEK[d] && FilledTimetable(t)[d * 9 + s].startTime == HOURS[s]
    ensures FirstInCell(t, WEEK[d], HOURS[s]).Some? ==>
      FilledTimetable(t)[d * 9 + s] == t[FirstInCell(t, WEEK[d], HOURS[s]).value]
    ensures FirstInCell(t, WEEK[d], HOURS[s]).None? ==>
      FilledTimetable(t)[d * 9 + s].course.None? && FilledTimetable(t)[d * 9 + s].room.None? &&
      FilledTimetable(t)[d * 9 + s].endTime == EndTime(HOURS, s)
  {
    var k := d * 9 + s;
    assert k / 9 == d && k % 9 == s;
    assert FilledTimetable(t)[k] == Shown(t, WEEK[d], HOURS[s]);
    HoleEndAt(s);
  }

  /** A stored entry whose day or start time lies off the grid (such as an
      "Unscheduled" class) never appears in the response. */
  lemma OffGridHidden(t: seq<Entry>, e: Entry)
    requires e.day !in WEEK || e.startTime !in HOURS
    ensures e !in FilledTimetable(t)
  {
    forall k | 0 <= k < |FilledTimetable(t)| ensures FilledTimetable(t)[k] != e {
      assert FilledTimetable(t)[k].day == WEEK[k / 9] && FilledTimetable(t)[k].startTime == HOURS[k % 9];
    }
  }

  /** A stored entry behind an earlier one in the same cell, and different
      from every earlier entry there, never appears in the response. */
  lemma LaterDuplicateHidden(t: seq<Entry>, j: nat)
    requires j < |t|
    requires exists i :: 0 <= i < j && SameCell(t[i], t[j])
    requires forall i :: 0 <= i < j && SameCell(t[i], t[j]) ==> t[i] != t[j]
    ensures t[j] !in FilledTimetable(t)
  {
    var i :| 0 <= i < j && SameCell(t[i], t[j]);
    forall k | 0 <= k < |FilledTimetable(t)| ensures FilledTimetable(t)[k] != t[j] {
      var day, slot := WEEK[k / 9], HOURS[k % 9];
      assert FilledTimetable(t)[k] == Shown(t, day, slot);
      if InCell(t[j], day, slot) {
        var first := FirstInCell(t, day, slot);
        assert InCell(t[i], day, slot);
        assert first.Some? && first.value <= i;
        assert SameCell(t[first.value], t[j]);
      }
    }
  }

  /** Entry k of a timetable in grid order is shown at its own cell. */
  lemma GeneratedCell(t: seq<Entry>, k: nat)
    requires InGridOrder(t) && DistinctCells(t) && k < |t|
    ensures FilledTimetable(t)[(k / 8) * 9 + k % 8] == t[k]
  {
    var d, s := k / 8, k % 8;
    assert d < 5 && s < 8;
    assert WEEK[d] == DAYS[d] && HOURS[s] == TIME_SLOTS[s];
    FilledCell(t, d, s);
    var first := FirstInCell(t, WEEK[d], HOURS[s]);
    assert InCell(t[k], WEEK[d], HOURS[s]);
    if first.value != k {
      assert first.value < k;
      assert SameCell(t[first.value], t[k]);
    }
  }

  /** Every entry of a timetable the genetic algorithm produced is shown,
      unchanged, at its own weekday and slot; that grid's cells are distinct,
      so nothing of it is hidden. */
  lemma GeneratedTimetableShown(t: seq<Entry>)
    requires InGridOrder(t)
    ensures forall k :: 0 <= k < |t| ==> FilledTimetable(t)[(k / 8) * 9 + k % 8] == t[k]
  {
    GridOrderIsDistinct(t);
    forall k | 0 <= k < |t| ensures FilledTimetable(t)[(k / 8) * 9 + k % 8] == t[k] {
      GeneratedCell(t, k);
    }
  }

  /** The two answers of `GET /latest`. */
  datatype LatestResponse = NotFound | Latest(schedule: Schedule)

  /** `GET /latest`: 404 when nothing is stored; otherwise the stored schedule
      with every field copied and its timetable replaced by the filled grid. */
  function LatestSchedule(latest: Option<Schedule>): (r: LatestResponse)
    ensures r.NotFound? <==> latest.None?
    ensures r.Latest? ==>
      r.schedule.courses == latest.value.courses && r.schedule.rooms == latest.value.rooms &&
      r.schedule.fitness == latest.value.fitness &&
      r.schedule.timetable == FilledTimetable(latest.value.timetable) &&
      |r.schedule.timetable| == GRID_CELLS
  {
    match latest
    case None => NotFound
    case Some(s) =>
      FilledCell(s.timetable, 0, 0);
      Latest(s.(timetable := FilledTimetable(s.timetable)))
  }

  /** A parsed `resolution.slot`; the parse fails on malformed text. */
  datatype SlotText = SlotText(day: string, startTime: string)

  /** The body of `POST /resolve-conflict`: a room change, a reschedule whose
      slot text parsed (`None` when it did not), or any other type. */
  datatype ManualResolution =
    | ChangeRoom(roomId: Option<Id>)
    | Reschedule(slot: Option<SlotText>)
    | OtherResolution

  /** The position of the first entry whose id is `id`. */
  function FindEntry(t: seq<Entry>, id: Id): (r: Option<nat>)
    ensures r.None? <==> forall k :: 0 <= k < |t| ==> t[k].id != Some(id)
    ensures r.Some? ==>
      r.value < |t| && t[r.value].id == Some(id) &&
      forall k :: 0 <= k < r.value ==> t[k].id != Some(id)
  {
    if t == [] then None
    else if t[0].id == Some(id) then Some(0)
    else
      var r := FindEntry(t[1..], id);
      assert forall k :: 1 <= k < |t| ==> t[k] == t[1..][k - 1];
      if r.None? then None else Some(r.value + 1)
  }

  /** When a document was built with distinct entry ids, the lookup by id
      finds every entry at its own position. */
  lemma AssignedEntryFound(t: seq<Entry>, ids: seq<Id>, k: nat)
    requires IdsAssigned(t, ids) && DistinctIds(ids) && k < |t|
    ensures FindEntry(t, ids[k]) == Some(k)
  {
  }

  const OK: nat := 200
  const SERVER_ERROR: nat := 500

  /** `POST /resolve-conflict` on the schedule document the store query
      returns. The query sorts by a `createdAt` field the schema does not
      define, so that document is not necessarily the newest one; it is a
      parameter here. A room change
      sets only the matching entry's room; a reschedule sets only its day and
      start time; any other type changes nothing but still answers 200. With
      no stored schedule, an unknown id or an unparsable slot the handler
      throws: 500 and nothing changes. */
  method ResolveConflictEdit(latest: ScheduleDoc?, conflictId: Id, resolution: ManualResolution)
    returns (status: nat)
    modifies latest
    ensures latest == null ==> status == SERVER_ERROR
    ensures latest != null ==>
      latest.courses == old(latest.courses) && latest.rooms == old(latest.rooms) &&
      latest.fitness == old(latest.fitness)
    ensures latest != null && resolution.OtherResolution? ==>
      status == OK && latest.timetable == old(latest.timetable)
    ensures latest != null && resolution.ChangeRoom? ==>
      match FindEntry(old(latest.timetable), conflictId)
      case None => status == SERVER_ERROR && latest.timetable == old(latest.timetable)
      case Some(k) =>
        status == OK &&
        latest.timetable == old(latest.timetable)[k := old(latest.timetable)[k].(room := resolution.roomId)]
    ensures latest != null && resolution.Reschedule? ==>
      match FindEntry(old(latest.timetable), conflictId)
      case None => status == SERVER_ERROR && latest.timetable == old(latest.timetable)
      case Some(k) =>
        if resolution.slot.None? then
          status == SERVER_ERROR && latest.timetable == old(latest.timetable)
        else
          status == OK &&
          latest.timetable == old(latest.timetable)[k := old(latest.timetable)[k].(
            day := resolution.slot.value.day, startTime := resolution.slot.value.startTime)]
  {
    if latest == null {
      return SERVER_ERROR;
    }
    match resolution {
      case ChangeRoom(roomId) =>
        var found := FindEntry(latest.timetable, conflictId);
        if found.None? {
          return SERVER_ERROR;
        }
        var k := found.value;
        latest.timetable := latest.timetable[k := latest.timetable[k].(room := roomId)];
      case Reschedule(slot) =>
        var found := FindEntry(latest.timetable, conflictId);
        if found.None? || slot.None? {
          return SERVER_ERROR;
        }
        var k := found.value;
        latest.timetable := latest.timetable[k := latest.timetable[k].(day := slot.value.day, startTime := slot.value.startTime)];
      case OtherResolution =>
    }
    return OK;
  }
}
