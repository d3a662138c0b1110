/**
 * The persisted records of the relational schema, one datatype per table,
 * and the enums the services and guards share.
 */
module Schema {
  import opened Wrappers

  /** The admin role enum. */
  datatype Role = Normal | Super

  /**
   * An admin row. The row's primary key is the key under which it is
   * stored (see `AuthService.State`), so it is not repeated here.
   * `password` holds a bcrypt hash, or the plain password of a legacy row.
   */
  datatype Admin = Admin(
    username: string,
    password: string,
    refreshTokenHash: Option<string>,
    role: Role)

  datatype BookingStatus = Booked | Cancelled

  /** Times (`Date` values) are modelled as integers. */
  datatype Course = Course(id: int, name: string, teacher: string, time: int, capacity: int)

  datatype ClassSession = ClassSession(id: int, courseId: int, startTime: int, endTime: int, capacity: int)

  datatype Student = Student(id: int, name: string, phone: Option<string>)

  datatype Booking = Booking(id: int, studentId: int, classSessionId: int, status: BookingStatus)
}
