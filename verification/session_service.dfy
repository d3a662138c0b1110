/**
 * Class sessions: creation under a course, listing by a start-time window,
 * and the paged roster of a session's booked seats.
 */
module SessionService {
  import opened Wrappers
  import opened Schema
  import opened Tables
  import opened Store
  import opened HttpErrors

  const CourseNotFound: string := "course not found"
  const EndBeforeStart: string := "endTime must be greater than startTime"
  const InvertedRange: string := "from must be less than or equal to to"
  const SessionNotFound: string := "session not found"

  /**
   * `create`: the course must exist and the session must end after it
   * starts; an omitted capacity is the course's.
   */
  function Create(db: Db, courseId: int, startTime: int, endTime: int, capacity: Option<int>): (r: Result<(ClassSession, Db), HttpError>)
    requires Valid(db)
    requires courseId >= 1
    requires capacity.Some? ==> 1 <= capacity.value <= 500
    ensures (forall c | c in db.courses :: c.id != courseId) ==> r == Err(HttpError(NotFound, CourseNotFound))
    ensures r == Err(HttpError(BadRequest, EndBeforeStart)) <==>
              (exists c | c in db.courses :: c.id == courseId) && endTime <= startTime
    ensures r.Ok? <==> (exists c | c in db.courses :: c.id == courseId) && startTime < endTime
    ensures r.Ok? ==>
              var (session, db') := r.value;
              && session.id == db.nextSessionId && session.courseId == courseId
              && session.startTime == startTime && session.endTime == endTime
              && (capacity.Some? ==> session.capacity == capacity.value)
              && (capacity.None? ==> exists c | c in db.courses :: c.id == courseId && session.capacity == c.capacity)
              && db' == db.(sessions := db.sessions + [session], nextSessionId := db.nextSessionId + 1)
  {
    var course := Find(db.courses, CourseId, courseId);
    if course.None? then Err(HttpError(NotFound, CourseNotFound))
    else if endTime <= startTime then Err(HttpError(BadRequest, EndBeforeStart))
    else
      var session := ClassSession(db.nextSessionId, courseId, startTime, endTime, capacity.GetOr(course.value.capacity));
      Ok((session, db.(sessions := db.sessions + [session], nextSessionId := db.nextSessionId + 1)))
  }

  /** A new session starts with no seat taken, so integrity and the seat limit keep holding. */
  lemma CreateKeepsInvariants(db: Db, courseId: int, startTime: int, endTime: int, capacity: Option<int>)
    requires Valid(db) && WithinCapacity(db)
    requires courseId >= 1
    requires capacity.Some? ==> 1 <= capacity.value <= 500
    requires Create(db, courseId, startTime, endTime, capacity).Ok?
    ensures Valid(Create(db, courseId, startTime, endTime, capacity).value.1)
    ensures WithinCapacity(Create(db, courseId, startTime, endTime, capacity).value.1)
  {
    var (session, db') := Create(db, courseId, startTime, endTime, capacity).value;
    FilterNone(db.bookings, HoldsSeat(session.id));
  }

  /** The `startTime` window: each bound applies only when given, both inclusive. */
  predicate InWindow(startTime: int, from: Option<int>, to: Option<int>) {
    (from.Some? ==> from.value <= startTime) && (to.Some? ==> startTime <= to.value)
  }

  function StartsIn(from: Option<int>, to: Option<int>): ClassSession -> bool {
    (s: ClassSession) => InWindow(s.startTime, from, to)
  }

  /** `findByRange`: the sessions starting inside the window, earliest first. */
  function FindByRange(db: Db, from: Option<int>, to: Option<int>): (r: Result<seq<ClassSession>, HttpError>)
    ensures r.Err? <==> from.Some? && to.Some? && from.value > to.value
    ensures r.Err? ==> r.error == HttpError(BadRequest, InvertedRange)
    ensures r.Ok? ==> NonDecreasing(r.value, StartTime)
    ensures r.Ok? ==> multiset(r.value) == multiset(Filter(db.sessions, StartsIn(from, to)))
  {
    if from.Some? && to.Some? && from.value > to.value then Err(HttpError(BadRequest, InvertedRange))
    else Ok(SortBy(Filter(db.sessions, StartsIn(from, to)), StartTime))
  }

  /** The listing holds exactly the sessions whose start lies in the window. */
  lemma FindByRangeMembers(db: Db, from: Option<int>, to: Option<int>, s: ClassSession)
    requires FindByRange(db, from, to).Ok?
    ensures s in FindByRange(db, from, to).value <==> s in db.sessions && InWindow(s.startTime, from, to)
  {
    SortKeepsRows(Filter(db.sessions, StartsIn(from, to)), StartTime, s);
  }

  /** With no bounds every session is listed. */
  lemma UnboundedListsAll(db: Db, s: ClassSession)
    ensures FindByRange(db, None, None).Ok?
    ensures s in FindByRange(db, None, None).value <==> s in db.sessions
  {
    FindByRangeMembers(db, None, None, s);
  }

  /** `getBookingsBySession`: one page of the seat holders, newest booking first. */
  function GetBookingsBySession(db: Db, sessionId: int, page: int, pageSize: int): (r: Result<Page<Booking>, HttpError>)
    requires page >= 1 && 1 <= pageSize <= 50
    ensures r.Err? <==> forall s | s in db.sessions :: s.id != sessionId
    ensures r.Err? ==> r.error == HttpError(NotFound, SessionNotFound)
    ensures r.Ok? ==>
              && r.value.total == BookedCount(db.bookings, sessionId)
              && r.value.page == page && r.value.pageSize == pageSize
              && |r.value.items| <= pageSize
              && IsPage(r.value.items, Reverse(BookedRows(db.bookings, sessionId)), page, pageSize)
              && (forall b | b in r.value.items :: b in db.bookings && b.classSessionId == sessionId && b.status == Booked)
  {
    if Find(db.sessions, SessionId, sessionId).None? then Err(HttpError(NotFound, SessionNotFound))
    else Ok(Paginate(Reverse(BookedRows(db.bookings, sessionId)), page, pageSize))
  }

  /** The roster pages list the booking ids in strictly descending order. */
  lemma RosterNewestFirst(db: Db, sessionId: int, page: int, pageSize: int)
    requires Valid(db)
    requires page >= 1 && 1 <= pageSize <= 50
    requires GetBookingsBySession(db, sessionId, page, pageSize).Ok?
    ensures Descending(GetBookingsBySession(db, sessionId, page, pageSize).value.items, BookingId)
  {
    FilterKeepsAscending(db.bookings, HoldsSeat(sessionId), BookingId);
    ReverseDescends(BookedRows(db.bookings, sessionId), BookingId);
  }

  /** Every booked seat of the session appears on the page its rank determines. */
  lemma RosterCoversEverySeat(db: Db, sessionId: int, b: Booking, pageSize: int)
    requires 1 <= pageSize <= 50
    requires exists s | s in db.sessions :: s.id == sessionId
    requires b in db.bookings && b.classSessionId == sessionId && b.status == Booked
    ensures exists page | page >= 1 ::
              GetBookingsBySession(db, sessionId, page, pageSize).Ok? &&
              b in GetBookingsBySession(db, sessionId, page, pageSize).value.items
  {
    var rows := BookedRows(db.bookings, sessionId);
    var roster := Reverse(rows);
    var k :| 0 <= k < |rows| && rows[k] == b;
    var i := |roster| - 1 - k;
    assert roster[i] == b;
    var page, slot := RowOnItsPage(roster, i, pageSize);
    var items := GetBookingsBySession(db, sessionId, page, pageSize).value.items;
    assert items == Window(roster, Offset(page, pageSize), pageSize);
    assert items[slot] == b;
  }
}
