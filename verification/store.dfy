/**
 * The relational store behind the table services: one id-ordered table per
 * entity, each with the next auto-increment id, and the integrity the
 * schema's keys and unique indexes guarantee.
 */
module Store {
  import opened Wrappers
  import opened Schema
  import opened Tables

  datatype Db = Db(
    courses: seq<Course>,
    sessions: seq<ClassSession>,
    students: seq<Student>,
    bookings: seq<Booking>,
    nextSessionId: int,
    nextStudentId: int,
    nextBookingId: int)

  function CourseId(c: Course): int { c.id }
  function SessionId(s: ClassSession): int { s.id }
  function StudentId(s: Student): int { s.id }
  function BookingId(b: Booking): int { b.id }
  function StartTime(s: ClassSession): int { s.startTime }

  /** Primary keys: positive auto-increment ids in insertion order, all below the next id. */
  predicate Keyed<T>(rows: seq<T>, key: T -> int, next: int) {
    Ascending(rows, key) && forall i | 0 <= i < |rows| :: 1 <= key(rows[i]) < next
  }

  /** The unique index on `(studentId, classSessionId)`. */
  predicate UniqueBookingPairs(bookings: seq<Booking>) {
    forall i, j | 0 <= i < j < |bookings| ::
      bookings[i].studentId != bookings[j].studentId || bookings[i].classSessionId != bookings[j].classSessionId
  }

  /** The unique index on `phone`; like any SQL unique index it admits many nulls. */
  predicate UniquePhones(students: seq<Student>) {
    forall i, j | 0 <= i < j < |students| :: students[i].phone.Some? ==> students[i].phone != students[j].phone
  }

  /** What the schema and the input validation keep true of the store. */
  predicate Valid(db: Db) {
    && db.nextSessionId >= 1 && db.nextStudentId >= 1 && db.nextBookingId >= 1
    && Ascending(db.courses, CourseId)
    && Keyed(db.sessions, SessionId, db.nextSessionId)
    && Keyed(db.students, StudentId, db.nextStudentId)
    && Keyed(db.bookings, BookingId, db.nextBookingId)
    && UniqueBookingPairs(db.bookings)
    && UniquePhones(db.students)
    && (forall i | 0 <= i < |db.courses| :: db.courses[i].capacity >= 1)
    && (forall i | 0 <= i < |db.sessions| :: db.sessions[i].capacity >= 1)
    && (forall i | 0 <= i < |db.bookings| ::
          db.bookings[i].classSessionId < db.nextSessionId && db.bookings[i].studentId < db.nextStudentId)
  }

  /** The `where` of a session's seat holders: `{ classSessionId, status: BOOKED }`. */
  function HoldsSeat(sessionId: int): Booking -> bool {
    (b: Booking) => b.classSessionId == sessionId && b.status == Booked
  }

  /** The bookings of a session that hold a seat. */
  function BookedRows(bookings: seq<Booking>, sessionId: int): (r: seq<Booking>)
    ensures forall b | b in r :: b in bookings && b.classSessionId == sessionId && b.status == Booked
    ensures forall b | b in bookings && b.classSessionId == sessionId && b.status == Booked :: b in r
  {
    Filter(bookings, HoldsSeat(sessionId))
  }

  function BookedCount(bookings: seq<Booking>, sessionId: int): nat {
    |BookedRows(bookings, sessionId)|
  }

  /** No session holds more booked seats than its capacity. */
  predicate WithinCapacity(db: Db) {
    forall i | 0 <= i < |db.sessions| :: BookedCount(db.bookings, db.sessions[i].id) <= db.sessions[i].capacity
  }

  /** Appending a row that does not hold a seat of `sessionId` leaves its seat count alone; one that does adds one. */
  lemma BookedCountAppend(bookings: seq<Booking>, b: Booking, sessionId: int)
    ensures BookedCount(bookings + [b], sessionId)
              == BookedCount(bookings, sessionId) + if b.classSessionId == sessionId && b.status == Booked then 1 else 0
  {
    FilterAppend(bookings, [b], HoldsSeat(sessionId));
  }

  /** Cancelling the row at `i` frees its seat and no other. */
  lemma {:induction false} BookedCountCancel(bookings: seq<Booking>, i: nat, sessionId: int)
    requires i < |bookings|
    ensures var b := bookings[i];
            BookedCount(bookings[i := b.(status := Cancelled)], sessionId)
              == BookedCount(bookings, sessionId) - if b.classSessionId == sessionId && b.status == Booked then 1 else 0
  {
    var b := bookings[i];
    var keep := HoldsSeat(sessionId);
    var updated := bookings[i := b.(status := Cancelled)];
    assert bookings == bookings[..i] + [b] + bookings[i + 1..];
    assert updated == bookings[..i] + [b.(status := Cancelled)] + bookings[i + 1..];
    FilterAppend(bookings[..i] + [b], bookings[i + 1..], keep);
    FilterAppend(bookings[..i], [b], keep);
    FilterAppend(bookings[..i] + [b.(status := Cancelled)], bookings[i + 1..], keep);
    FilterAppend(bookings[..i], [b.(status := Cancelled)], keep);
  }
}
