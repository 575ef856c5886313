/**
 * Conflict detection and repair on a stored schedule (conflictResolution.js):
 * the pairwise scan of `resolveConflicts`, the application of the solver's
 * resolutions to the second slot of each conflict, and the two first-fit
 * searches `findAvailableRoom` and `rescheduleClass`.
 *
 * The store, the constraint solver and the admin notifier are outside the
 * model: the solver is a function parameter, a notification is a returned
 * record, and the catalog lookups of the two searches are parameters.
 */
module ConflictResolution {
  import opened Entities

  datatype ConflictKind = RoomConflict | InstructorConflict

  /** A detected conflict `{type, slots: [first, second]}`. */
  datatype Conflict = Conflict(kind: ConflictKind, first: nat, second: nat)

  /** The scan dereferences the instructor of both entries of every pair that
      shares a cell, so those entries must carry a course with an instructor. */
  predicate ScanDefined(t: seq<Entry>) {
    forall i, j :: 0 <= i < j < |t| && SameCell(t[i], t[j]) ==> HasInstructor(t[i]) && HasInstructor(t[j])
  }

  /** Both entries carry an instructor, and it is the same one. Where the
      scan is defined this is the instructor comparison of the code. */
  predicate SameInstructor(a: Entry, b: Entry) {
    HasInstructor(a) && HasInstructor(b) && InstructorOf(a) == InstructorOf(b)
  }

  /** The records one pair (i, j) yields: a room record when the rooms are
      equal, then an instructor record when the instructors are equal. The
      code compares the room ObjectIds with `===`; the model compares the
      room values. Two entries without a room in one cell therefore give a
      room record, as `null === null` holds in the code, whereas the fitness
      count only compares rooms that are both present. */
  function PairConflicts(t: seq<Entry>, i: nat, j: nat): seq<Conflict>
    requires i < j < |t|
  {
    var room := SameCell(t[i], t[j]) && t[i].room == t[j].room;
    var instructor := SameCell(t[i], t[j]) && SameInstructor(t[i], t[j]);
    if room && instructor then [Conflict(RoomConflict, i, j), Conflict(InstructorConflict, i, j)]
    else if room then [Conflict(RoomConflict, i, j)]
    else if instructor then [Conflict(InstructorConflict, i, j)]
    else []
  }

  /** The records of the pairs (i, j') with i < j' < j, in increasing j'. */
  function RowConflicts(t: seq<Entry>, i: nat, j: nat): seq<Conflict>
    requires i < |t| && j <= |t|
    decreases j
  {
    if j <= i + 1 then [] else RowConflicts(t, i, j - 1) + PairConflicts(t, i, j - 1)
  }

  /** The records of every pair whose first index is below n. */
  function ScanPrefix(t: seq<Entry>, n: nat): seq<Conflict>
    requires n <= |t|
  {
    if n == 0 then [] else ScanPrefix(t, n - 1) + RowConflicts(t, n - 1, |t|)
  }

  /** The full list of records the scan emits. */
  function AllConflicts(t: seq<Entry>): seq<Conflict>
  {
    ScanPrefix(t, |t|)
  }

  /** `c` describes a real clash of `t`: two distinct entries, first before
      second, in the same cell, sharing the room or the instructor as its kind says. */
  predicate Detected(t: seq<Entry>, c: Conflict)
  {
    c.first < c.second < |t| && SameCell(t[c.first], t[c.second]) &&
    match c.kind
    case RoomConflict => t[c.first].room == t[c.second].room
    case InstructorConflict => SameInstructor(t[c.first], t[c.second])
  }

  /** The body of the inner loop: the records pair (i, j) yields. */
  method CheckPair(t: seq<Entry>, i: nat, j: nat) returns (pair: seq<Conflict>)
    requires ScanDefined(t) && i < j < |t|
    ensures pair == PairConflicts(t, i, j)
  {
    pair := [];
    if SameCell(t[i], t[j]) {
      if t[i].room == t[j].room {
        pair := pair + [Conflict(RoomConflict, i, j)];
      }
      if InstructorOf(t[i]) == InstructorOf(t[j]) {
        pair := pair + [Conflict(InstructorConflict, i, j)];
      }
    }
  }

  /** The inner loop of resolveConflicts: j over the entries after i. */
  method ScanRow(t: seq<Entry>, i: nat) returns (row: seq<Conflict>)
    requires ScanDefined(t) && i < |t|
    ensures row == RowConflicts(t, i, |t|)
  {
    row := [];
    var j := i + 1;
    while j < |t|
      invariant i + 1 <= j <= |t|
      invariant row == RowConflicts(t, i, j)
    {
      var pair := CheckPair(t, i, j);
      RowStep(t, i, j);
      row := row + pair;
      j := j + 1;
    }
  }

  /** The nested loops of resolveConflicts: i over the timetable, the inner
      loop over the entries after i. */
  method ScanConflicts(t: seq<Entry>) returns (conflicts: seq<Conflict>)
    requires ScanDefined(t)
    ensures conflicts == AllConflicts(t)
  {
    conflicts := [];
    var i := 0;
    while i < |t|
      invariant 0 <= i <= |t|
      invariant conflicts == ScanPrefix(t, i)
    {
      var row := ScanRow(t, i);
      conflicts := conflicts + row;
      i := i + 1;
    }
  }

  lemma RowStep(t: seq<Entry>, i: nat, j: nat)
    requires i < j < |t|
    ensures RowConflicts(t, i, j + 1) == RowConflicts(t, i, j) + PairConflicts(t, i, j)
  {
  }

  lemma PairConflictsMembers(t: seq<Entry>, i: nat, j: nat, c: Conflict)
    requires i < j < |t|
    ensures c in PairConflicts(t, i, j) <==> c.first == i && c.second == j && Detected(t, c)
  {
    var pair := PairConflicts(t, i, j);
    if c.first == i && c.second == j && Detected(t, c) {
      if c.kind == RoomConflict {
        assert pair[0] == c;
      } else {
        assert pair[|pair| - 1] == c;
      }
    }
  }

  /** Row i emits only real clashes of pairs (i, j') with j' < j. */
  lemma {:induction false} RowConflictsSound(t: seq<Entry>, i: nat, j: nat, c: Conflict)
    requires i < |t| && j <= |t| && c in RowConflicts(t, i, j)
    ensures c.first == i && c.second < j && Detected(t, c)
    decreases j
  {
    var before, pair := RowConflicts(t, i, j - 1), PairConflicts(t, i, j - 1);
    assert RowConflicts(t, i, j) == before + pair;
    if c in before {
      RowConflictsSound(t, i, j - 1, c);
    } else {
      PairConflictsMembers(t, i, j - 1, c);
    }
  }

  /** Row i emits every real clash of a pair (i, j') with j' < j. */
  lemma {:induction false} RowConflictsComplete(t: seq<Entry>, i: nat, j: nat, c: Conflict)
    requires i < |t| && j <= |t| && c.first == i && c.second < j && Detected(t, c)
    ensures c in RowConflicts(t, i, j)
    decreases j
  {
    var before, pair := RowConflicts(t, i, j - 1), PairConflicts(t, i, j - 1);
    assert RowConflicts(t, i, j) == before + pair;
    if c.second < j - 1 {
      RowConflictsComplete(t, i, j - 1, c);
    } else {
      PairConflictsMembers(t, i, j - 1, c);
    }
  }

  /** The rows below n emit only real clashes whose first slot is below n. */
  lemma {:induction false} ScanPrefixSound(t: seq<Entry>, n: nat, c: Conflict)
    requires n <= |t| && c in ScanPrefix(t, n)
    ensures c.first < n && Detected(t, c)
  {
    var before, row := ScanPrefix(t, n - 1), RowConflicts(t, n - 1, |t|);
    assert ScanPrefix(t, n) == before + row;
    if c in before {
      ScanPrefixSound(t, n - 1, c);
    } else {
      RowConflictsSound(t, n - 1, |t|, c);
    }
  }

  /** The rows below n emit every real clash whose first slot is below n. */
  lemma {:induction false} ScanPrefixComplete(t: seq<Entry>, n: nat, c: Conflict)
    requires n <= |t| && c.first < n && Detected(t, c)
    ensures c in ScanPrefix(t, n)
  {
    var before, row := ScanPrefix(t, n - 1), RowConflicts(t, n - 1, |t|);
    assert ScanPrefix(t, n) == before + row;
    if c.first < n - 1 {
      ScanPrefixComplete(t, n - 1, c);
    } else {
      RowConflictsComplete(t, n - 1, |t|, c);
    }
  }

  /** The scan is sound and complete: a record is emitted exactly for each
      pair i < j in the same cell with equal rooms (room record) and for each
      such pair with equal instructors (instructor record). The two checks
      are independent, so one pair can yield both records. */
  lemma ScanSoundAndComplete(t: seq<Entry>, c: Conflict)
    ensures c in AllConflicts(t) <==> Detected(t, c)
  {
    if c in AllConflicts(t) {
      ScanPrefixSound(t, |t|, c);
    }
    if Detected(t, c) {
      ScanPrefixComplete(t, |t|, c);
    }
  }

  /** The room test as the code writes it: `===` between the room ObjectIds
      of two different timetable entries. Each entry holds its own ObjectId
      object, so reference equality holds only when both rooms are null. */
  predicate RoomMatchAsWritten(a: Entry, b: Entry) {
    a.room.None? && b.room.None?
  }

  /** Two classes booked into room 3 on Monday at 09:00: the test as written
      does not match them, while the scan of this model emits a room record. */
  lemma SharedRoomMissedAsWritten()
    ensures
      var a := Entry(Some(1), Some(CourseRef(10, Some(7))), Some(3), "Monday", "09:00", "10:00");
      var b := Entry(Some(2), Some(CourseRef(11, Some(8))), Some(3), "Monday", "09:00", "10:00");
      !RoomMatchAsWritten(a, b) && Conflict(RoomConflict, 0, 1) in AllConflicts([a, b])
  {
    var a := Entry(Some(1), Some(CourseRef(10, Some(7))), Some(3), "Monday", "09:00", "10:00");
    var b := Entry(Some(2), Some(CourseRef(11, Some(8))), Some(3), "Monday", "09:00", "10:00");
    ScanSoundAndComplete([a, b], Conflict(RoomConflict, 0, 1));
  }

  /** Two room-less entries in one cell give a room record, both in the test
      as written and in the scan of this model. */
  lemma RoomlessPairRecorded()
    ensures
      var a := Entry(Some(1), Some(CourseRef(10, Some(7))), None, "Unscheduled", "09:00", "10:00");
      var b := Entry(Some(2), Some(CourseRef(11, Some(8))), None, "Unscheduled", "09:00", "10:00");
      RoomMatchAsWritten(a, b) && Conflict(RoomConflict, 0, 1) in AllConflicts([a, b])
  {
    var a := Entry(Some(1), Some(CourseRef(10, Some(7))), None, "Unscheduled", "09:00", "10:00");
    var b := Entry(Some(2), Some(CourseRef(11, Some(8))), None, "Unscheduled", "09:00", "10:00");
    ScanSoundAndComplete([a, b], Conflict(RoomConflict, 0, 1));
  }

  /** Lexicographic order on (first, second), the room record before the
      instructor record of the same pair. */
  predicate Precedes(a: Conflict, b: Conflict) {
    a.first < b.first ||
    (a.first == b.first &&
     (a.second < b.second ||
      (a.second == b.second && a.kind == RoomConflict && b.kind == InstructorConflict)))
  }

  predicate InScanOrder(cs: seq<Conflict>) {
    forall p, q :: 0 <= p < q < |cs| ==> Precedes(cs[p], cs[q])
  }

  lemma ConcatInScanOrder(a: seq<Conflict>, b: seq<Conflict>)
    requires InScanOrder(a) && InScanOrder(b)
    requires forall p, q :: 0 <= p < |a| && 0 <= q < |b| ==> Precedes(a[p], b[q])
    ensures InScanOrder(a + b)
  {
    forall p, q | 0 <= p < q < |a + b| ensures Precedes((a + b)[p], (a + b)[q]) {
      if q < |a| {
        assert (a + b)[p] == a[p] && (a + b)[q] == a[q];
      } else if p < |a| {
        assert (a + b)[p] == a[p] && (a + b)[q] == b[q - |a|];
      } else {
        assert (a + b)[p] == b[p - |a|] && (a + b)[q] == b[q - |a|];
      }
    }
  }

  /** Every record of `cs` has first index i and second index below j. */
  predicate RowShaped(cs: seq<Conflict>, i: nat, j: nat) {
    forall p :: 0 <= p < |cs| ==> cs[p].first == i && cs[p].second < j
  }

  /** Every record of `cs` has first index below n. */
  predicate FirstsBelow(cs: seq<Conflict>, n: nat) {
    forall p :: 0 <= p < |cs| ==> cs[p].first < n
  }

  /** Every record of `cs` names the pair (i, j). */
  predicate PairShaped(cs: seq<Conflict>, i: nat, j: nat) {
    forall p :: 0 <= p < |cs| ==> cs[p].first == i && cs[p].second == j
  }

  lemma PairOrdered(t: seq<Entry>, i: nat, j: nat)
    requires i < j < |t|
    ensures InScanOrder(PairConflicts(t, i, j)) && PairShaped(PairConflicts(t, i, j), i, j)
  {
  }

  lemma AppendPair(before: seq<Conflict>, pair: seq<Conflict>, i: nat, j: nat)
    requires InScanOrder(before) && RowShaped(before, i, j)
    requires InScanOrder(pair) && PairShaped(pair, i, j)
    ensures InScanOrder(before + pair) && RowShaped(before + pair, i, j + 1)
  {
    ConcatInScanOrder(before, pair);
    forall p | 0 <= p < |before + pair| ensures (before + pair)[p].first == i && (before + pair)[p].second < j + 1 {
      if p < |before| {
        assert (before + pair)[p] == before[p];
      } else {
        assert (before + pair)[p] == pair[p - |before|];
      }
    }
  }

  lemma AppendRow(before: seq<Conflict>, row: seq<Conflict>, n: nat, j: nat)
    requires InScanOrder(before) && FirstsBelow(before, n)
    requires InScanOrder(row) && RowShaped(row, n, j)
    ensures InScanOrder(before + row) && FirstsBelow(before + row, n + 1)
  {
    ConcatInScanOrder(before, row);
    forall p | 0 <= p < |before + row| ensures (before + row)[p].first < n + 1 {
      if p < |before| {
        assert (before + row)[p] == before[p];
      } else {
        assert (before + row)[p] == row[p - |before|];
      }
    }
  }

  lemma {:induction false} RowConflictsOrdered(t: seq<Entry>, i: nat, j: nat)
    requires i < |t| && j <= |t|
    ensures InScanOrder(RowConflicts(t, i, j)) && RowShaped(RowConflicts(t, i, j), i, j)
    decreases j
  {
    if j > i + 1 {
      var before, pair := RowConflicts(t, i, j - 1), PairConflicts(t, i, j - 1);
      RowConflictsOrdered(t, i, j - 1);
      PairOrdered(t, i, j - 1);
      AppendPair(before, pair, i, j - 1);
      assert RowConflicts(t, i, j) == before + pair;
    }
  }

  lemma ScanPrefixUnfold(t: seq<Entry>, n: nat)
    requires 0 < n <= |t|
    ensures ScanPrefix(t, n) == ScanPrefix(t, n - 1) + RowConflicts(t, n - 1, |t|)
  {
  }

  lemma {:induction false} ScanPrefixOrdered(t: seq<Entry>, n: nat)
    requires n <= |t|
    ensures InScanOrder(ScanPrefix(t, n)) && FirstsBelow(ScanPrefix(t, n), n)
  {
    if n > 0 {
      var before, row := ScanPrefix(t, n - 1), RowConflicts(t, n - 1, |t|);
      ScanPrefixOrdered(t, n - 1);
      RowConflictsOrdered(t, n - 1, |t|);
      AppendRow(before, row, n - 1, |t|);
      ScanPrefixUnfold(t, n);
    }
  }

  /** Records come in lexicographic pair order, room before instructor for
      the same pair; in particular no record is emitted twice. */
  lemma ScanOrder(t: seq<Entry>)
    ensures InScanOrder(AllConflicts(t))
    ensures forall p, q :: 0 <= p < q < |AllConflicts(t)| ==> AllConflicts(t)[p] != AllConflicts(t)[q]
  {
    ScanPrefixOrdered(t, |t|);
  }

  /** A resolution from the solver: type "room" sets the room to its value;
      any other type reads a day and a start time from its value. */
  datatype Resolution = RoomChange(room: Option<Id>) | SlotChange(day: string, startTime: string)

  /** The entry after one resolution: a room change touches only the room, a
      slot change only the day and the start time. */
  function Resolve(e: Entry, r: Resolution): (u: Entry)
    ensures u.id == e.id && u.course == e.course && u.endTime == e.endTime
    ensures r.RoomChange? ==> u.room == r.room && SameCell(u, e)
    ensures r.SlotChange? ==> u.room == e.room && u.day == r.day && u.startTime == r.startTime
  {
    match r
    case RoomChange(room) => e.(room := room)
    case SlotChange(day, startTime) => e.(day := day, startTime := startTime)
  }

  /** The timetable reached by applying resolutions, and whether all of them applied. */
  datatype Applied = Applied(timetable: seq<Entry>, complete: bool)

  /** Applies the (conflict key, resolution) pairs in order, each to the second
      slot of the conflict its key names. A key naming no conflict, or a
      conflict whose second slot is past the end, throws: the application
      stops there. The key is the conflict's position in the scan's list; the
      code as written looks it up by an `_id` the records do not carry (see
      `ApplyAllAsWritten`). A solution keyed by position is an object with
      integer-like keys, which `Object.entries` visits once each in ascending
      order; the sequence here admits any order and repeated keys, so it
      covers those solutions and more. */
  function ApplyAll(t: seq<Entry>, conflicts: seq<Conflict>, solution: seq<(nat, Resolution)>): Applied
    decreases |solution|
  {
    if solution == [] then Applied(t, true)
    else if solution[0].0 >= |conflicts| || conflicts[solution[0].0].second >= |t| then Applied(t, false)
    else
      var s := conflicts[solution[0].0].second;
      ApplyAll(t[s := Resolve(t[s], solution[0].1)], conflicts, solution[1..])
  }

  /** The second slot a solution entry targets, when its key names a conflict. */
  predicate Targets(conflicts: seq<Conflict>, entry: (nat, Resolution), k: nat) {
    entry.0 < |conflicts| && conflicts[entry.0].second == k
  }

  /** Applying resolutions keeps the length, never changes an entry's id,
      course or end time, and leaves every entry that no resolution targets
      as it was. */
  lemma {:induction false} ApplyAllFrame(t: seq<Entry>, conflicts: seq<Conflict>, solution: seq<(nat, Resolution)>)
    ensures |ApplyAll(t, conflicts, solution).timetable| == |t|
    ensures forall k :: 0 <= k < |t| ==>
      ApplyAll(t, conflicts, solution).timetable[k].id == t[k].id &&
      ApplyAll(t, conflicts, solution).timetable[k].course == t[k].course &&
      ApplyAll(t, conflicts, solution).timetable[k].endTime == t[k].endTime
    ensures forall k :: 0 <= k < |t| && (forall q :: 0 <= q < |solution| ==> !Targets(conflicts, solution[q], k)) ==>
      ApplyAll(t, conflicts, solution).timetable[k] == t[k]
    decreases |solution|
  {
    if solution != [] && solution[0].0 < |conflicts| && conflicts[solution[0].0].second < |t| {
      var s := conflicts[solution[0].0].second;
      var u := t[s := Resolve(t[s], solution[0].1)];
      ApplyAllFrame(u, conflicts, solution[1..]);
      forall k | 0 <= k < |t| && (forall q :: 0 <= q < |solution| ==> !Targets(conflicts, solution[q], k))
        ensures ApplyAll(t, conflicts, solution).timetable[k] == t[k]
      {
        assert !Targets(conflicts, solution[0], k);
        forall q | 0 <= q < |solution[1..]| ensures !Targets(conflicts, solution[1..][q], k) {
          assert solution[1..][q] == solution[q + 1];
        }
      }
    }
  }

  /** All resolutions apply exactly when every key names a conflict whose
      second slot lies inside the timetable. */
  lemma {:induction false} ApplyAllComplete(t: seq<Entry>, conflicts: seq<Conflict>, solution: seq<(nat, Resolution)>)
    ensures ApplyAll(t, conflicts, solution).complete <==>
      forall q :: 0 <= q < |solution| ==>
        solution[q].0 < |conflicts| && conflicts[solution[q].0].second < |t|
    decreases |solution|
  {
    if solution != [] && solution[0].0 < |conflicts| && conflicts[solution[0].0].second < |t| {
      var s := conflicts[solution[0].0].second;
      var u := t[s := Resolve(t[s], solution[0].1)];
      ApplyAllComplete(u, conflicts, solution[1..]);
      assert forall q :: 1 <= q < |solution| ==> solution[q] == solution[1..][q - 1];
    }
  }

  /** Applying a solution to the conflicts the scan found: every key names a
      conflict, so every resolution applies. */
  lemma ScannedSolutionApplies(t: seq<Entry>, solution: seq<(nat, Resolution)>)
    requires forall q :: 0 <= q < |solution| ==> solution[q].0 < |AllConflicts(t)|
    ensures ApplyAll(t, AllConflicts(t), solution).complete
  {
    forall q | 0 <= q < |solution|
      ensures AllConflicts(t)[solution[q].0].second < |t|
    {
      ScanSoundAndComplete(t, AllConflicts(t)[solution[q].0]);
    }
    ApplyAllComplete(t, AllConflicts(t), solution);
  }

  /** The lookup as written: `conflicts.find(c => c._id.toString() === key)`
      reads the `_id` of a conflict record, which has none, so `toString`
      throws on the first record visited; with no record at all the lookup
      finds nothing and reading its `slots` throws. Either way the first
      resolution throws before any entry is changed. */
  function ApplyAllAsWritten(t: seq<Entry>, conflicts: seq<Conflict>, solution: seq<(nat, Resolution)>): Applied {
    if solution == [] then Applied(t, true) else Applied(t, false)
  }

  /** As written, a non-empty solution for the scan's own conflicts is never
      applied, although every one of its resolutions applies once conflicts
      are looked up by position. */
  lemma ResolutionsLostAsWritten(t: seq<Entry>, solution: seq<(nat, Resolution)>)
    requires solution != []
    requires forall q :: 0 <= q < |solution| ==> solution[q].0 < |AllConflicts(t)|
    ensures !ApplyAllAsWritten(t, AllConflicts(t), solution).complete
    ensures ApplyAllAsWritten(t, AllConflicts(t), solution).timetable == t
    ensures ApplyAll(t, AllConflicts(t), solution).complete
  {
    ScannedSolutionApplies(t, solution);
  }

  datatype ResolveError = UnknownConflictKey

  /** resolveConflicts on a loaded document. With no conflict nothing changes
      and no conflict is reported. With conflicts the solver is consulted: when
      it finds no solution, one notification carrying the conflict count is
      sent and every conflict is reported; when it finds one, its resolutions
      are applied in place to the second slot of each conflict, the document is
      saved and no conflict is reported. A resolution the code cannot apply
      throws; the document is then not saved. `alerts` lists the conflict
      counts of the notifications sent. */
  method ResolveConflicts(doc: ScheduleDoc,
                          solver: (seq<Entry>, seq<Conflict>) -> Option<seq<(nat, Resolution)>>)
    returns (result: Result<seq<Conflict>, ResolveError>, alerts: seq<nat>, saved: bool)
    requires ScanDefined(doc.timetable)
    modifies doc
    ensures doc.courses == old(doc.courses) && doc.rooms == old(doc.rooms) && doc.fitness == old(doc.fitness)
    ensures var found := AllConflicts(old(doc.timetable));
      found == [] ==>
        result == Success([]) && alerts == [] && !saved && doc.timetable == old(doc.timetable)
    ensures var found := AllConflicts(old(doc.timetable));
      found != [] && solver(old(doc.timetable), found).None? ==>
        result == Success(found) && alerts == [|found|] && !saved && doc.timetable == old(doc.timetable)
    ensures var found := AllConflicts(old(doc.timetable));
      var solution := solver(old(doc.timetable), found);
      found != [] && solution.Some? ==>
        alerts == [] &&
        doc.timetable == ApplyAll(old(doc.timetable), found, solution.value).timetable &&
        saved == ApplyAll(old(doc.timetable), found, solution.value).complete &&
        result == (if saved then Success([]) else Failure(UnknownConflictKey))
  {
    var found := ScanConflicts(doc.timetable);
    if |found| == 0 {
      return Success([]), [], false;
    }
    var solution := solver(doc.timetable, found);
    if solution.None? {
      return Success(found), [|found|], false;
    }
    var resolutions := solution.value;
    var q := 0;
    while q < |resolutions|
      invariant 0 <= q <= |resolutions|
      invariant doc.courses == old(doc.courses) && doc.rooms == old(doc.rooms) && doc.fitness == old(doc.fitness)
      invariant ApplyAll(doc.timetable, found, resolutions[q..]) == ApplyAll(old(doc.timetable), found, resolutions)
    {
      var key := resolutions[q].0;
      if key >= |found| || found[key].second >= |doc.timetable| {
        return Failure(UnknownConflictKey), [], false;
      }
      var s := found[key].second;
      match resolutions[q].1 {
        case RoomChange(room) =>
          doc.timetable := doc.timetable[s := doc.timetable[s].(room := room)];
        case SlotChange(day, startTime) =>
          doc.timetable := doc.timetable[s := doc.timetable[s].(day := day, startTime := startTime)];
      }
      assert resolutions[q..][1..] == resolutions[q + 1..];
      q := q + 1;
    }
    return Success([]), [], true;
  }

  /** Some entry in the cell of `slot` holds room `roomId`. */
  predicate Occupied(t: seq<Entry>, slot: Entry, roomId: Id) {
    exists s :: 0 <= s < |t| && SameCell(t[s], slot) && t[s].room == Some(roomId)
  }

  /** findAvailableRoom: the first candidate room, in the order the catalog
      query returns them, that no entry in the slot's cell uses; none when
      every candidate is taken. The slot's own room is therefore never returned. */
  method FindAvailableRoom(t: seq<Entry>, slotIndex: nat, candidates: seq<Room>) returns (room: Option<Room>)
    requires slotIndex < |t|
    ensures room.Some? ==>
      exists i :: 0 <= i < |candidates| && room.value == candidates[i] &&
        !Occupied(t, t[slotIndex], candidates[i].id) &&
        forall j :: 0 <= j < i ==> Occupied(t, t[slotIndex], candidates[j].id)
    ensures room.None? ==> forall i :: 0 <= i < |candidates| ==> Occupied(t, t[slotIndex], candidates[i].id)
    ensures room.Some? ==> t[slotIndex].room != Some(room.value.id)
  {
    var slot := t[slotIndex];
    var i := 0;
    while i < |candidates|
      invariant 0 <= i <= |candidates|
      invariant forall j :: 0 <= j < i ==> Occupied(t, slot, candidates[j].id)
    {
      if !Occupied(t, slot, candidates[i].id) {
        assert t[slotIndex].room != Some(candidates[i].id) by {
          if t[slotIndex].room == Some(candidates[i].id) {
            assert SameCell(t[slotIndex], slot);
          }
        }
        return Some(candidates[i]);
      }
      i := i + 1;
    }
    return None;
  }

  /** A cell an instructor's availability offers. */
  datatype Cell = Cell(day: string, startTime: string)

  /** One availability day as cells, its time slots in order. */
  function DayCells(a: DayAvailability): (cells: seq<Cell>)
    ensures |cells| == |a.timeSlots|
    ensures forall s :: 0 <= s < |cells| ==> cells[s] == Cell(a.day, a.timeSlots[s])
  {
    seq(|a.timeSlots|, s requires 0 <= s < |a.timeSlots| => Cell(a.day, a.timeSlots[s]))
  }

  /** The availability offers cell `c`: some day entry names its day and lists its start time. */
  predicate Offers(availability: seq<DayAvailability>, c: Cell) {
    exists d :: 0 <= d < |availability| && availability[d].day == c.day && c.startTime in availability[d].timeSlots
  }

  /** The availability flattened day by day, slots in order. */
  function Flatten(availability: seq<DayAvailability>): (cells: seq<Cell>)
    ensures forall c :: c in cells <==> Offers(availability, c)
  {
    if availability == [] then []
    else
      var rest := Flatten(availability[1..]);
      assert forall c :: Offers(availability, c) <==>
        (availability[0].day == c.day && c.startTime in availability[0].timeSlots) || Offers(availability[1..], c) by {
        forall c | Offers(availability, c) && !(availability[0].day == c.day && c.startTime in availability[0].timeSlots)
          ensures Offers(availability[1..], c)
        {
          var d :| 0 <= d < |availability| && availability[d].day == c.day && c.startTime in availability[d].timeSlots;
          assert availability[1..][d - 1] == availability[d];
        }
        forall c | Offers(availability[1..], c) ensures Offers(availability, c) {
          var d :| 0 <= d < |availability[1..]| && availability[1..][d].day == c.day && c.startTime in availability[1..][d].timeSlots;
          assert availability[d + 1] == availability[1..][d];
        }
      }
      assert forall c :: c in DayCells(availability[0]) <==>
        (availability[0].day == c.day && c.startTime in availability[0].timeSlots) by {
        forall c: Cell | availability[0].day == c.day && c.startTime in availability[0].timeSlots
          ensures c in DayCells(availability[0])
        {
          var s :| 0 <= s < |availability[0].timeSlots| && availability[0].timeSlots[s] == c.startTime;
          assert DayCells(availability[0])[s] == c;
        }
      }
      DayCells(availability[0]) + rest
  }

  /** Both rooms are set and equal (the code compares their string forms). */
  predicate SameRoom(a: Option<Id>, b: Option<Id>) {
    a.Some? && a == b
  }

  /** No entry in cell `c` uses the slot's room or is taught by `instructor`. */
  predicate CellFree(t: seq<Entry>, c: Cell, slot: Entry, instructor: Id) {
    forall s :: 0 <= s < |t| && t[s].day == c.day && t[s].startTime == c.startTime ==>
      !SameRoom(t[s].room, slot.room) && !(HasInstructor(t[s]) && InstructorOf(t[s]) == instructor)
  }

  /** `cells[q]` is the first free cell of `cells` for `slot`. */
  predicate FirstFreeCell(t: seq<Entry>, slot: Entry, instructor: Id, cells: seq<Cell>, q: nat) {
    q < |cells| && CellFree(t, cells[q], slot, instructor) &&
    forall p :: 0 <= p < q ==> !CellFree(t, cells[p], slot, instructor)
  }

  /** A slot that holds a room, or whose course is taught by `instructor`,
      is never free in its own cell. */
  lemma OwnCellTaken(t: seq<Entry>, k: nat, instructor: Id)
    requires k < |t|
    requires t[k].room.Some? || (HasInstructor(t[k]) && InstructorOf(t[k]) == instructor)
    ensures !CellFree(t, Cell(t[k].day, t[k].startTime), t[k], instructor)
  {
    if t[k].room.Some? {
      assert SameRoom(t[k].room, t[k].room);
    }
  }

  /** rescheduleClass: moves the slot to the first cell of the instructor's
      flattened availability where no entry shares the slot's room or the
      course's instructor, keeping its room, course and end time; when no
      such cell exists, marks its day and start time "Unscheduled", clears its
      room and reports failure. `instructor` is the course's instructor and
      `availability` that instructor's stored availability. */
  method RescheduleClass(doc: ScheduleDoc, slotIndex: nat, instructor: Id, availability: seq<DayAvailability>)
    returns (rescheduled: bool)
    requires slotIndex < |doc.timetable|
    modifies doc
    ensures doc.courses == old(doc.courses) && doc.rooms == old(doc.rooms) && doc.fitness == old(doc.fitness)
    ensures rescheduled ==>
      exists q: nat :: FirstFreeCell(old(doc.timetable), old(doc.timetable)[slotIndex], instructor, Flatten(availability), q) &&
        doc.timetable == old(doc.timetable)[slotIndex := old(doc.timetable)[slotIndex].(
          day := Flatten(availability)[q].day, startTime := Flatten(availability)[q].startTime)]
    ensures !rescheduled ==>
      (forall p :: 0 <= p < |Flatten(availability)| ==>
        !CellFree(old(doc.timetable), Flatten(availability)[p], old(doc.timetable)[slotIndex], instructor)) &&
      doc.timetable == old(doc.timetable)[slotIndex := old(doc.timetable)[slotIndex].(
        day := "Unscheduled", startTime := "Unscheduled", room := None)]
    ensures rescheduled ==>
      (old(doc.timetable)[slotIndex].room.Some? ||
       (HasInstructor(old(doc.timetable)[slotIndex]) && InstructorOf(old(doc.timetable)[slotIndex]) == instructor)) ==>
      !SameCell(doc.timetable[slotIndex], old(doc.timetable)[slotIndex])
  {
    var slot := doc.timetable[slotIndex];
    var cells := Flatten(availability);
    ghost var t := doc.timetable;
    var q := 0;
    while q < |cells|
      invariant 0 <= q <= |cells|
      invariant doc.timetable == old(doc.timetable)
      invariant forall p :: 0 <= p < q ==> !CellFree(doc.timetable, cells[p], slot, instructor)
    {
      if CellFree(doc.timetable, cells[q], slot, instructor) {
        if slot.room.Some? || (HasInstructor(slot) && InstructorOf(slot) == instructor) {
          OwnCellTaken(doc.timetable, slotIndex, instructor);
        }
        doc.timetable := doc.timetable[slotIndex := slot.(day := cells[q].day, startTime := cells[q].startTime)];
        assert FirstFreeCell(t, t[slotIndex], instructor, cells, q) &&
          doc.timetable == t[slotIndex := t[slotIndex].(day := cells[q].day, startTime := cells[q].startTime)];
        return true;
      }
      q := q + 1;
    }
    doc.timetable := doc.timetable[slotIndex := slot.(day := "Unscheduled", startTime := "Unscheduled", room := None)];
    return false;
  }
}
