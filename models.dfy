/**
 * Shapes of the records the enrollment gate reads, after college_app/models.py.
 * Only the fields the gate and the enrollment views use are kept.
 */
module CollegeModels {

  /** The codes of `User.user_type`. */
  const STUDENT: nat := 1
  const TEACHER: nat := 2
  const ADMIN: nat := 3

  /**
   * A user. `userType` is the stored small positive integer; the database
   * does not restrict it to the three codes above.
   */
  datatype User = User(id: int, userType: nat)

  /**
   * A semester's two windows. Timestamps are integers in their natural order;
   * nothing requires a window's start to precede its end.
   */
  datatype Semester = Semester(
    id: int,
    registrationStart: int,
    registrationEnd: int,
    addDropStart: int,
    addDropEnd: int)

  /** A course with its (non-negative) credit value and the semester it belongs to. */
  datatype Course = Course(id: int, credits: nat, semester: Semester)

  /** One row of the enrollment table: the enrolled student's id and the course. */
  datatype Enrollment = Enrollment(student: int, course: Course)
}
