/**
 * Students: creation under the unique phone index, lookup, the paged and
 * keyword-filtered list, partial update and removal, with the store's
 * errors mapped to "not found" and "phone already exists".
 */
module StudentService {
  import opened Wrappers
  import opened Text
  import opened Schema
  import opened Tables
  import opened Store
  import opened HttpErrors

  const StudentNotFound: string := "student not found"
  const PhoneExists: string := "phone already exists"

  /** Another student than `id` already holds this phone. */
  predicate PhoneTakenBy(students: seq<Student>, phone: string, id: int) {
    exists s | s in students :: s.phone == Some(phone) && s.id != id
  }

  /** `create`: an omitted phone is stored as null; a held phone conflicts. */
  function Create(db: Db, name: string, phone: Option<string>): (r: Result<(Student, Db), HttpError>)
    ensures r.Err? <==> phone.Some? && exists s | s in db.students :: s.phone == phone
    ensures r.Err? ==> r.error == HttpError(Conflict, PhoneExists)
    ensures r.Ok? ==>
              var (student, db') := r.value;
              && student == Student(db.nextStudentId, name, phone)
              && db' == db.(students := db.students + [student], nextStudentId := db.nextStudentId + 1)
  {
    if phone.Some? && exists s | s in db.students :: s.phone == phone then Err(HttpError(Conflict, PhoneExists))
    else
      var student := Student(db.nextStudentId, name, phone);
      Ok((student, db.(students := db.students + [student], nextStudentId := db.nextStudentId + 1)))
  }

  lemma CreateKeepsValid(db: Db, name: string, phone: Option<string>)
    requires Valid(db)
    requires Create(db, name, phone).Ok?
    ensures Valid(Create(db, name, phone).value.1)
  {
    var (student, db') := Create(db, name, phone).value;
    forall i, j | 0 <= i < j < |db'.students| && db'.students[i].phone.Some?
      ensures db'.students[i].phone != db'.students[j].phone
    {
      if j == |db.students| {
        assert db.students[i] in db.students;
      }
    }
  }

  /** `findOne` */
  function FindOne(db: Db, id: int): (r: Result<Student, HttpError>)
    ensures r.Err? <==> forall s | s in db.students :: s.id != id
    ensures r.Err? ==> r.error == HttpError(NotFound, StudentNotFound)
    ensures r.Ok? ==> r.value in db.students && r.value.id == id
  {
    var found := Find(db.students, StudentId, id);
    if found.None? then Err(HttpError(NotFound, StudentNotFound)) else Ok(found.value)
  }

  /** A created student is found under the id it was given. */
  lemma CreatedIsFound(db: Db, name: string, phone: Option<string>)
    requires Valid(db)
    requires Create(db, name, phone).Ok?
    ensures var (student, db') := Create(db, name, phone).value;
            FindOne(db', student.id) == Ok(student)
  {
    var (student, db') := Create(db, name, phone).value;
    CreateKeepsValid(db, name, phone);
    assert student in db'.students;
    SameKeySameRow(db'.students, StudentId, student);
  }

  /** `keyword?.trim()` then truthiness: the name filter in force, if any. */
  function NormalizeKeyword(keyword: Option<string>): (r: Option<string>)
    ensures r.Some? <==> keyword.Some? && exists k | 0 <= k < |keyword.value| :: !IsSpace(keyword.value[k])
    ensures r.Some? ==> r.value == Trim(keyword.value) && r.value != ""
  {
    if keyword.None? then None
    else
      TrimEmptyIffBlank(keyword.value);
      var normalized := Trim(keyword.value);
      if normalized == "" then None else Some(normalized)
  }

  function NameMatches(keyword: Option<string>): Student -> bool {
    (s: Student) => keyword.None? || Contains(s.name, keyword.value)
  }

  /**
   * `findAll`: the list and the total share one filter; the list is one
   * page of it, newest student first; the requested page and size are echoed.
   */
  function FindAll(db: Db, page: int, pageSize: int, keyword: Option<string>): (r: Page<Student>)
    requires page >= 1 && 1 <= pageSize <= 50
    requires keyword.Some? ==> |keyword.value| <= 50
    ensures r.page == page && r.pageSize == pageSize
    ensures |r.items| <= pageSize
    ensures r.total == Count(db.students, NameMatches(NormalizeKeyword(keyword)))
    ensures IsPage(r.items, Reverse(Filter(db.students, NameMatches(NormalizeKeyword(keyword)))), page, pageSize)
    ensures forall s | s in r.items :: s in db.students
    ensures NormalizeKeyword(keyword).Some? ==>
              forall s | s in r.items :: Contains(s.name, Trim(keyword.value))
  {
    var matching := Filter(db.students, NameMatches(NormalizeKeyword(keyword)));
    Paginate(Reverse(matching), page, pageSize)
  }

  /** A missing, empty or all-blank keyword filters nothing. */
  lemma BlankKeywordListsAll(db: Db, page: int, pageSize: int, keyword: Option<string>)
    requires page >= 1 && 1 <= pageSize <= 50
    requires keyword.Some? ==> |keyword.value| <= 50
    requires keyword.Some? ==> forall k | 0 <= k < |keyword.value| :: IsSpace(keyword.value[k])
    ensures FindAll(db, page, pageSize, keyword) == FindAll(db, page, pageSize, None)
    ensures FindAll(db, page, pageSize, keyword).total == |db.students|
  {
    FilterAll(db.students, NameMatches(None));
  }

  /** Surrounding blanks in the keyword do not change the result. */
  lemma KeywordIsTrimmed(db: Db, page: int, pageSize: int, keyword: string)
    requires page >= 1 && 1 <= pageSize <= 50
    requires |keyword| <= 50
    ensures |Trim(keyword)| <= 50
    ensures FindAll(db, page, pageSize, Some(keyword)) == FindAll(db, page, pageSize, Some(Trim(keyword)))
  {
    TrimIdempotent(keyword);
    TrimEmptyIffBlank(keyword);
    TrimEmptyIffBlank(Trim(keyword));
  }

  /** Every matching student is listed on the page its rank determines. */
  lemma EveryMatchIsListed(db: Db, s: Student, pageSize: int, keyword: Option<string>)
    requires 1 <= pageSize <= 50
    requires keyword.Some? ==> |keyword.value| <= 50
    requires s in db.students && NameMatches(NormalizeKeyword(keyword))(s)
    ensures exists page | page >= 1 :: s in FindAll(db, page, pageSize, keyword).items
  {
    var rows := Filter(db.students, NameMatches(NormalizeKeyword(keyword)));
    var listing := Reverse(rows);
    var k :| 0 <= k < |rows| && rows[k] == s;
    var i := |listing| - 1 - k;
    assert listing[i] == s;
    var page, slot := RowOnItsPage(listing, i, pageSize);
    var items := FindAll(db, page, pageSize, keyword).items;
    assert items == Window(listing, Offset(page, pageSize), pageSize);
    assert items[slot] == s;
  }

  /** The list runs newest first: ids strictly descending. */
  lemma FindAllNewestFirst(db: Db, page: int, pageSize: int, keyword: Option<string>)
    requires Valid(db)
    requires page >= 1 && 1 <= pageSize <= 50
    requires keyword.Some? ==> |keyword.value| <= 50
    ensures Descending(FindAll(db, page, pageSize, keyword).items, StudentId)
  {
    var matching := Filter(db.students, NameMatches(NormalizeKeyword(keyword)));
    FilterKeepsAscending(db.students, NameMatches(NormalizeKeyword(keyword)), StudentId);
    ReverseDescends(matching, StudentId);
  }

  /**
   * A field of the update body: left out (`undefined`), sent as `null`, or
   * sent with a value. Validation lets `null` through, as it does an
   * omitted field.
   */
  datatype Field<T> = Omitted | Null | Given(value: T)

  /**
   * `update`: every field that is not `undefined` is written. A `null` name
   * is refused by the store's client before any query, as an unexpected
   * error; a missing id is "not found"; a phone held by another student
   * conflicts; a `null` phone clears the phone and never conflicts.
   */
  function Update(db: Db, id: int, name: Field<string>, phone: Field<string>): (r: Result<(Student, Db), HttpError>)
    requires Valid(db)
    ensures name.Null? ==> r == Err(HttpError(InternalServerError, InternalError))
    ensures !name.Null? && (forall s | s in db.students :: s.id != id) ==> r == Err(HttpError(NotFound, StudentNotFound))
    ensures r == Err(HttpError(Conflict, PhoneExists)) <==>
              && !name.Null?
              && (exists s | s in db.students :: s.id == id)
              && phone.Given? && PhoneTakenBy(db.students, phone.value, id)
    ensures r.Ok? <==>
              && !name.Null?
              && (exists s | s in db.students :: s.id == id)
              && (phone.Given? ==> !PhoneTakenBy(db.students, phone.value, id))
    ensures r.Ok? ==>
              var (student, db') := r.value;
              && (exists prior | prior in db.students && prior.id == id ::
                    && student.id == id
                    && student.name == (if name.Given? then name.value else prior.name)
                    && student.phone == match phone
                         case Omitted => prior.phone
                         case Null => None
                         case Given(p) => Some(p))
              && |db'.students| == |db.students|
              && db' == db.(students := db'.students)
              && (forall i | 0 <= i < |db.students| ::
                    db'.students[i] == if db.students[i].id == id then student else db.students[i])
  {
    if name.Null? then Err(HttpError(InternalServerError, InternalError))
    else
      var i := Position(db.students, StudentId, id);
      if i < 0 then Err(HttpError(NotFound, StudentNotFound))
      else if phone.Given? && PhoneTakenBy(db.students, phone.value, id) then Err(HttpError(Conflict, PhoneExists))
      else
        var current := db.students[i];
        SameKeySameRow(db.students, StudentId, current);
        var student := Student(id,
          if name.Given? then name.value else current.name,
          match phone
            case Omitted => current.phone
            case Null => None
            case Given(p) => Some(p));
        Ok((student, db.(students := db.students[i := student])))
  }

  /** An update that names no field returns the row as it is and changes nothing. */
  lemma EmptyUpdateChangesNothing(db: Db, id: int)
    requires Valid(db)
    requires exists s | s in db.students :: s.id == id
    ensures Update(db, id, Omitted, Omitted).Ok?
    ensures Update(db, id, Omitted, Omitted).value.1 == db
  {
    var db' := Update(db, id, Omitted, Omitted).value.1;
    assert db'.students == db.students;
  }

  /** Sending a `null` phone clears it, whatever other student holds what. */
  lemma NullPhoneClears(db: Db, id: int)
    requires Valid(db)
    requires exists s | s in db.students :: s.id == id
    ensures Update(db, id, Omitted, Null).Ok?
    ensures Update(db, id, Omitted, Null).value.0.phone.None?
  {
  }

  lemma UpdateKeepsValid(db: Db, id: int, name: Field<string>, phone: Field<string>)
    requires Valid(db)
    requires Update(db, id, name, phone).Ok?
    ensures Valid(Update(db, id, name, phone).value.1)
  {
    var (student, db') := Update(db, id, name, phone).value;
    var k := Position(db.students, StudentId, id);
    assert Ascending(db'.students, StudentId) by {
      forall a, b | 0 <= a < b < |db'.students| ensures db'.students[a].id < db'.students[b].id {
        assert db.students[a].id < db.students[b].id;
      }
    }
    forall a, b | 0 <= a < b < |db'.students| && db'.students[a].phone.Some?
      ensures db'.students[a].phone != db'.students[b].phone
    {
      if a == k && phone.Given? {
        assert db.students[b] in db.students;
      } else if b == k && phone.Given? {
        assert db.students[a] in db.students;
      }
    }
  }

  /** `remove`: a missing id is "not found"; otherwise the row leaves the table and is returned. */
  function Remove(db: Db, id: int): (r: Result<(Student, Db), HttpError>)
    ensures r.Err? <==> forall s | s in db.students :: s.id != id
    ensures r.Err? ==> r.error == HttpError(NotFound, StudentNotFound)
    ensures r.Ok? ==>
              var (student, db') := r.value;
              && student in db.students && student.id == id
              && |db'.students| == |db.students| - 1
              && db' == db.(students := db'.students)
              && (forall s | s in db'.students :: s in db.students)
              && (forall s | s in db.students && s.id != id :: s in db'.students)
  {
    var i := Position(db.students, StudentId, id);
    if i < 0 then Err(HttpError(NotFound, StudentNotFound))
    else
      DeleteAt(db.students, i);
      Ok((db.students[i], db.(students := db.students[..i] + db.students[i + 1..])))
  }

  /** Once removed, a student is no longer found. */
  lemma RemovedIsGone(db: Db, id: int)
    requires Valid(db)
    requires Remove(db, id).Ok?
    ensures FindOne(Remove(db, id).value.1, id) == Err(HttpError(NotFound, StudentNotFound))
  {
    var db' := Remove(db, id).value.1;
    var i := Position(db.students, StudentId, id);
    forall k | 0 <= k < |db'.students| ensures db'.students[k].id != id {
      if k < i {
        assert db'.students[k] == db.students[k];
      } else {
        assert db'.students[k] == db.students[k + 1];
      }
    }
  }

  lemma RemoveKeepsValid(db: Db, id: int)
    requires Valid(db)
    requires Remove(db, id).Ok?
    ensures Valid(Remove(db, id).value.1)
  {
    var db' := Remove(db, id).value.1;
    var i := Position(db.students, StudentId, id);
    assert db'.students == db.students[..i] + db.students[i + 1..];
    forall k | 0 <= k < |db'.students|
      ensures db'.students[k] == db.students[if k < i then k else k + 1]
    {
    }
  }
}
