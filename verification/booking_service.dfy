/**
 * Booking creation and cancellation: existence checks, the seat limit, the
 * unique `(studentId, classSessionId)` index, and the idempotent cancel that
 * keeps the row.
 */
module BookingService {
  import opened Wrappers
  import opened Schema
  import opened Tables
  import opened Store
  import opened HttpErrors

  const SessionNotFound: string := "session not found"
  const StudentNotFound: string := "student not found"
  const SessionFull: string := "session is full"
  const BookingExists: string := "booking already exists"
  const BookingNotFound: string := "booking not found"

  /** Some row, booked or cancelled, already pairs this student with this session. */
  predicate PairTaken(bookings: seq<Booking>, studentId: int, classSessionId: int) {
    exists b | b in bookings :: b.studentId == studentId && b.classSessionId == classSessionId
  }

  /**
   * `create`, run as one transaction: on any error nothing is written.
   * The insert is the last step, so the unique-index conflict is reported
   * only once both rows exist and a seat is free.
   */
  function Create(db: Db, studentId: int, classSessionId: int): (r: Result<(Booking, Db), HttpError>)
    requires studentId >= 1 && classSessionId >= 1
    requires Valid(db)
    ensures (forall s | s in db.sessions :: s.id != classSessionId) ==>
              r == Err(HttpError(NotFound, SessionNotFound))
    ensures (exists s | s in db.sessions :: s.id == classSessionId) && (forall s | s in db.students :: s.id != studentId) ==>
              r == Err(HttpError(NotFound, StudentNotFound))
    ensures r == Err(HttpError(Conflict, SessionFull)) <==>
              && (exists s | s in db.sessions :: s.id == classSessionId && BookedCount(db.bookings, classSessionId) >= s.capacity)
              && (exists s | s in db.students :: s.id == studentId)
    ensures r == Err(HttpError(Conflict, BookingExists)) <==>
              && (exists s | s in db.sessions :: s.id == classSessionId && BookedCount(db.bookings, classSessionId) < s.capacity)
              && (exists s | s in db.students :: s.id == studentId)
              && PairTaken(db.bookings, studentId, classSessionId)
    ensures r.Ok? <==>
              && (exists s | s in db.sessions :: s.id == classSessionId && BookedCount(db.bookings, classSessionId) < s.capacity)
              && (exists s | s in db.students :: s.id == studentId)
              && !PairTaken(db.bookings, studentId, classSessionId)
    ensures r.Ok? ==>
              var (booking, db') := r.value;
              && booking == Booking(db.nextBookingId, studentId, classSessionId, Booked)
              && db'.bookings == db.bookings + [booking]
              && db' == db.(bookings := db'.bookings, nextBookingId := db.nextBookingId + 1)
  {
    var session := Find(db.sessions, SessionId, classSessionId);
    if session.None? then Err(HttpError(NotFound, SessionNotFound))
    else if Find(db.students, StudentId, studentId).None? then Err(HttpError(NotFound, StudentNotFound))
    else
      assert forall s | s in db.sessions && s.id == classSessionId :: s == session.value by {
        SameKeySameRow(db.sessions, SessionId, session.value);
      }
      if BookedCount(db.bookings, classSessionId) >= session.value.capacity then Err(HttpError(Conflict, SessionFull))
      else if PairTaken(db.bookings, studentId, classSessionId) then Err(HttpError(Conflict, BookingExists))
      else
        var booking := Booking(db.nextBookingId, studentId, classSessionId, Booked);
        Ok((booking, db.(bookings := db.bookings + [booking], nextBookingId := db.nextBookingId + 1)))
  }

  /** A successful booking keeps every integrity rule. */
  lemma CreateKeepsValid(db: Db, studentId: int, classSessionId: int)
    requires studentId >= 1 && classSessionId >= 1
    requires Valid(db)
    requires Create(db, studentId, classSessionId).Ok?
    ensures Valid(Create(db, studentId, classSessionId).value.1)
  {
    var (booking, db') := Create(db, studentId, classSessionId).value;
    var s :| s in db.sessions && s.id == classSessionId;
    var t :| t in db.students && t.id == studentId;
    assert UniqueBookingPairs(db'.bookings) by {
      forall i, j | 0 <= i < j < |db'.bookings|
        ensures db'.bookings[i].studentId != db'.bookings[j].studentId
             || db'.bookings[i].classSessionId != db'.bookings[j].classSessionId
      {
        if j == |db.bookings| {
          assert db'.bookings[i] in db.bookings;
        }
      }
    }
  }

  /** A successful booking never takes a seat beyond its session's capacity. */
  lemma CreateKeepsWithinCapacity(db: Db, studentId: int, classSessionId: int)
    requires studentId >= 1 && classSessionId >= 1
    requires Valid(db) && WithinCapacity(db)
    requires Create(db, studentId, classSessionId).Ok?
    ensures WithinCapacity(Create(db, studentId, classSessionId).value.1)
  {
    var (booking, db') := Create(db, studentId, classSessionId).value;
    var s :| s in db.sessions && s.id == classSessionId && BookedCount(db.bookings, classSessionId) < s.capacity;
    forall i | 0 <= i < |db'.sessions|
      ensures BookedCount(db'.bookings, db'.sessions[i].id) <= db'.sessions[i].capacity
    {
      BookedCountAppend(db.bookings, booking, db.sessions[i].id);
      if db.sessions[i].id == classSessionId {
        SameKeySameRow(db.sessions, SessionId, s);
      }
    }
  }

  /** Each successful booking takes exactly one seat of its session and no other session's. */
  lemma CreateTakesOneSeat(db: Db, studentId: int, classSessionId: int, sessionId: int)
    requires studentId >= 1 && classSessionId >= 1
    requires Valid(db)
    requires Create(db, studentId, classSessionId).Ok?
    ensures BookedCount(Create(db, studentId, classSessionId).value.1.bookings, sessionId)
              == BookedCount(db.bookings, sessionId) + if sessionId == classSessionId then 1 else 0
  {
    BookedCountAppend(db.bookings, Create(db, studentId, classSessionId).value.0, sessionId);
  }

  /** `cancel`: the row is kept and only its status changes. */
  function Cancel(db: Db, id: int): (r: Result<(Booking, Db), HttpError>)
    ensures r.Err? <==> forall b | b in db.bookings :: b.id != id
    ensures r.Err? ==> r.error == HttpError(NotFound, BookingNotFound)
    ensures r.Ok? ==>
              var (booking, db') := r.value;
              && booking.id == id && booking.status == Cancelled
              && |db'.bookings| == |db.bookings|
              && db' == db.(bookings := db'.bookings)
              && (Ascending(db.bookings, BookingId) ==>
                    forall i | 0 <= i < |db.bookings| ::
                      db'.bookings[i] == if db.bookings[i].id == id then booking else db.bookings[i])
    ensures r.Ok? && Ascending(db.bookings, BookingId) ==>
              exists b | b in db.bookings :: b.id == id && r.value.0 == b.(status := Cancelled)
  {
    var i := Position(db.bookings, BookingId, id);
    if i < 0 then Err(HttpError(NotFound, BookingNotFound))
    else
      var booking := db.bookings[i];
      if booking.status == Cancelled then Ok((booking, db))
      else
        var cancelled := booking.(status := Cancelled);
        Ok((cancelled, db.(bookings := db.bookings[i := cancelled])))
  }

  /** The cancelled table is the old one with the row at the id's position marked cancelled. */
  lemma CancelMarksRow(db: Db, id: int)
    requires Cancel(db, id).Ok?
    ensures var i := Position(db.bookings, BookingId, id);
            0 <= i && Cancel(db, id).value.1.bookings == db.bookings[i := db.bookings[i].(status := Cancelled)]
  {
  }

  /** Marking one row cancelled keeps the ids, and so their order. */
  lemma MarkKeepsAscending(bookings: seq<Booking>, i: nat)
    requires i < |bookings| && Ascending(bookings, BookingId)
    ensures Ascending(bookings[i := bookings[i].(status := Cancelled)], BookingId)
  {
    var updated := bookings[i := bookings[i].(status := Cancelled)];
    forall a, b | 0 <= a < b < |updated| ensures updated[a].id < updated[b].id {
      assert bookings[a].id < bookings[b].id;
    }
  }

  /** Cancelling an already cancelled booking returns it and changes nothing. */
  lemma CancelIdempotent(db: Db, id: int)
    requires Ascending(db.bookings, BookingId)
    requires Cancel(db, id).Ok?
    ensures var (booking, db') := Cancel(db, id).value;
            Cancel(db', id) == Ok((booking, db'))
  {
    var (booking, db') := Cancel(db, id).value;
    var i := Position(db.bookings, BookingId, id);
    CancelMarksRow(db, id);
    MarkKeepsAscending(db.bookings, i);
    SameKeySameRow(db'.bookings, BookingId, db'.bookings[i]);
  }

  /** Cancelling keeps every integrity rule. */
  lemma CancelKeepsValid(db: Db, id: int)
    requires Valid(db)
    requires Cancel(db, id).Ok?
    ensures Valid(Cancel(db, id).value.1)
  {
    CancelMarksRow(db, id);
    MarkKeepsAscending(db.bookings, Position(db.bookings, BookingId, id));
  }

  /** Cancelling frees the seat the booking held, so the seat limit keeps holding. */
  lemma CancelKeepsWithinCapacity(db: Db, id: int)
    requires WithinCapacity(db)
    requires Cancel(db, id).Ok?
    ensures WithinCapacity(Cancel(db, id).value.1)
  {
    var i := Position(db.bookings, BookingId, id);
    var db' := Cancel(db, id).value.1;
    CancelMarksRow(db, id);
    forall k | 0 <= k < |db'.sessions|
      ensures BookedCount(db'.bookings, db'.sessions[k].id) <= db'.sessions[k].capacity
    {
      BookedCountCancel(db.bookings, i, db.sessions[k].id);
    }
  }

  /** The seat count and the tables a rebooking looks at are those from before the first booking. */
  lemma CreateThenCancel(db: Db, studentId: int, classSessionId: int)
    requires studentId >= 1 && classSessionId >= 1
    requires Valid(db)
    requires Create(db, studentId, classSessionId).Ok?
    ensures var (booking, db1) := Create(db, studentId, classSessionId).value;
            && Cancel(db1, booking.id).Ok?
            && var db2 := Cancel(db1, booking.id).value.1;
            && Valid(db2)
            && db2.sessions == db.sessions && db2.students == db.students
            && BookedCount(db2.bookings, classSessionId) == BookedCount(db.bookings, classSessionId)
            && PairTaken(db2.bookings, studentId, classSessionId)
  {
    var (booking, db1) := Create(db, studentId, classSessionId).value;
    CreateKeepsValid(db, studentId, classSessionId);
    var i := |db.bookings|;
    assert db1.bookings[i] == booking;
    CancelKeepsValid(db1, booking.id);
    CancelMarksRow(db1, booking.id);
    SameKeySameRow(db1.bookings, BookingId, booking);
    assert Position(db1.bookings, BookingId, booking.id) == i;
    var db2 := Cancel(db1, booking.id).value.1;
    assert db2.bookings[i] in db2.bookings;
    BookedCountCancel(db1.bookings, i, classSessionId);
    BookedCountAppend(db.bookings, booking, classSessionId);
  }

  /**
   * The unique index covers cancelled rows too: once a student has booked a
   * session, booking it again fails even after cancelling.
   */
  lemma RebookAfterCancelConflicts(db: Db, studentId: int, classSessionId: int)
    requires studentId >= 1 && classSessionId >= 1
    requires Valid(db)
    requires Create(db, studentId, classSessionId).Ok?
    ensures var (booking, db1) := Create(db, studentId, classSessionId).value;
            Cancel(db1, booking.id).Ok? && Valid(Cancel(db1, booking.id).value.1)
    ensures var (booking, db1) := Create(db, studentId, classSessionId).value;
            var db2 := Cancel(db1, booking.id).value.1;
            Create(db2, studentId, classSessionId) == Err(HttpError(Conflict, BookingExists))
  {
    CreateThenCancel(db, studentId, classSessionId);
  }
}
