/**
 * The enrollment eligibility gate of services/college_app.py: stateless checks
 * deciding whether a student may add or drop an enrollment. Each validator
 * either returns normally (`Ok`) or raises a ValidationError whose reason is
 * one of the other verdicts.
 *
 * The clock is a parameter. `can_register` and `can_add_drop_course` each read
 * it on their own, so the as-written validators take one instant per reading.
 */
module EnrollmentService {
  import opened CollegeModels

  /** How a validator ends: it returns, or it raises with one of three reasons. */
  datatype Verdict = Ok | NotAStudent | RegistrationClosed | CreditLimitExceeded

  /** The most credits one student may carry in one semester. */
  const CREDIT_CAP: nat := 20

  /** `can_register`: whether `now` lies in the registration window, both ends included. */
  function CanRegister(sem: Semester, now: int): (open: bool)
    ensures open ==> sem.registrationStart <= sem.registrationEnd
    ensures now == sem.registrationStart || now == sem.registrationEnd ==>
              (open <==> sem.registrationStart <= sem.registrationEnd)
  {
    sem.registrationStart <= now <= sem.registrationEnd
  }

  /** `can_add_drop_course`: whether `now` lies in the add/drop window, both ends included. */
  function CanAddDropCourse(sem: Semester, now: int): (open: bool)
    ensures open ==> sem.addDropStart <= sem.addDropEnd
    ensures now == sem.addDropStart || now == sem.addDropEnd ==>
              (open <==> sem.addDropStart <= sem.addDropEnd)
  {
    sem.addDropStart <= now <= sem.addDropEnd
  }

  /** The sum of the course credits of every enrollment given, with no filtering. */
  function StudentCredits(enrollments: seq<Enrollment>): (total: nat)
    ensures enrollments == [] ==> total == 0
    ensures forall i | 0 <= i < |enrollments| :: enrollments[i].course.credits <= total
  {
    if enrollments == [] then 0
    else enrollments[0].course.credits + StudentCredits(enrollments[1..])
  }

  /**
   * `validate_enrollment_create`, as written: role, then window, then credits.
   * NOTE: the window check rejects when a window IS open, the opposite of what
   * its message says; ValidateEnrollmentCreateIntended is the evident intent.
   */
  function ValidateEnrollmentCreate(
    student: User, course: Course, enrollments: seq<Enrollment>,
    registerNow: int, addDropNow: int): (v: Verdict)
    ensures v == Ok ==> student.userType == STUDENT
    ensures v == Ok ==> StudentCredits(enrollments) + course.credits <= CREDIT_CAP
    ensures v == Ok ==>
              !CanRegister(course.semester, registerNow) && !CanAddDropCourse(course.semester, addDropNow)
  {
    if student.userType != STUDENT then NotAStudent
    else if CanRegister(course.semester, registerNow) || CanAddDropCourse(course.semester, addDropNow) then
      RegistrationClosed
    else if StudentCredits(enrollments) + course.credits > CREDIT_CAP then CreditLimitExceeded
    else Ok
  }

  /**
   * `validate_enrollment_destroy`, as written: only the window check, again
   * rejecting when a window is open.
   */
  function ValidateEnrollmentDestroy(course: Course, registerNow: int, addDropNow: int): (v: Verdict)
    ensures v == Ok || v == RegistrationClosed
    ensures v == Ok ==>
              !CanRegister(course.semester, registerNow) && !CanAddDropCourse(course.semester, addDropNow)
  {
    if CanRegister(course.semester, registerNow) || CanAddDropCourse(course.semester, addDropNow) then
      RegistrationClosed
    else Ok
  }

  // ---------------------------------------------------------------------------
  // The evidently intended gate: reject when NEITHER window contains the (single)
  // current instant.
  // ---------------------------------------------------------------------------

  /** Whether registration is open at `now`: inside either window. */
  function RegistrationOpen(sem: Semester, now: int): bool
  {
    CanRegister(sem, now) || CanAddDropCourse(sem, now)
  }

  /** The create gate with the window check the message describes. */
  function ValidateEnrollmentCreateIntended(
    student: User, course: Course, enrollments: seq<Enrollment>, now: int): (v: Verdict)
    ensures v == Ok ==> student.userType == STUDENT
    ensures v == Ok ==> StudentCredits(enrollments) + course.credits <= CREDIT_CAP
    ensures v == Ok ==> RegistrationOpen(course.semester, now)
  {
    if student.userType != STUDENT then NotAStudent
    else if !RegistrationOpen(course.semester, now) then RegistrationClosed
    else if StudentCredits(enrollments) + course.credits > CREDIT_CAP then CreditLimitExceeded
    else Ok
  }

  /** The destroy gate with the window check the message describes. */
  function ValidateEnrollmentDestroyIntended(course: Course, now: int): (v: Verdict)
    ensures v == Ok || v == RegistrationClosed
    ensures v == Ok ==> RegistrationOpen(course.semester, now)
  {
    if RegistrationOpen(course.semester, now) then Ok else RegistrationClosed
  }

  // ---------------------------------------------------------------------------
  // Credit sums
  // ---------------------------------------------------------------------------

  /** The credit sum splits over concatenation. */
  lemma {:induction false} StudentCreditsAppend(a: seq<Enrollment>, b: seq<Enrollment>)
    ensures StudentCredits(a + b) == StudentCredits(a) + StudentCredits(b)
  {
    if a == [] {
      assert a + b == b;
    } else {
      assert (a + b)[1..] == a[1..] + b;
      StudentCreditsAppend(a[1..], b);
    }
  }

  /** Taking one enrollment out of a sequence lowers the credit sum by that enrollment's credits. */
  lemma StudentCreditsRemove(b: seq<Enrollment>, j: nat)
    requires j < |b|
    ensures StudentCredits(b) == b[j].course.credits + StudentCredits(b[..j] + b[j + 1..])
    ensures multiset(b[..j] + b[j + 1..]) == multiset(b) - multiset{b[j]}
  {
    assert b == b[..j] + ([b[j]] + b[j + 1..]);
    StudentCreditsAppend(b[..j], [b[j]] + b[j + 1..]);
    StudentCreditsAppend([b[j]], b[j + 1..]);
    StudentCreditsAppend(b[..j], b[j + 1..]);
    assert ([b[j]] + b[j + 1..])[1..] == b[j + 1..];
  }

  /** The credit sum depends only on which enrollments are given, not on their order. */
  lemma {:induction false} StudentCreditsPermutation(a: seq<Enrollment>, b: seq<Enrollment>)
    requires multiset(a) == multiset(b)
    ensures StudentCredits(a) == StudentCredits(b)
    decreases |a|
  {
    if a == [] {
      assert |b| == |multiset(b)| == 0;
    } else {
      assert a[0] in multiset(b);
      var j :| 0 <= j < |b| && b[j] == a[0];
      StudentCreditsRemove(b, j);
      assert a == [a[0]] + a[1..];
      assert multiset(a[1..]) == multiset(a) - multiset{a[0]};
      StudentCreditsPermutation(a[1..], b[..j] + b[j + 1..]);
    }
  }

  // ---------------------------------------------------------------------------
  // Properties of the as-written gate
  // ---------------------------------------------------------------------------

  /** Each window is an interval: an instant between two instants inside it is inside it too. */
  lemma WindowsAreIntervals(sem: Semester, a: int, b: int, c: int)
    requires a <= b <= c
    ensures CanRegister(sem, a) && CanRegister(sem, c) ==> CanRegister(sem, b)
    ensures CanAddDropCourse(sem, a) && CanAddDropCourse(sem, c) ==> CanAddDropCourse(sem, b)
  {
  }

  /** Any user whose code is not the student code is turned away first, whatever else holds. */
  lemma CreateRejectsNonStudents(
    student: User, course: Course, enrollments: seq<Enrollment>, registerNow: int, addDropNow: int)
    requires student.userType != STUDENT
    ensures ValidateEnrollmentCreate(student, course, enrollments, registerNow, addDropNow) == NotAStudent
  {
  }

  /** For a student, create is rejected as closed exactly when an instant lies in its window. */
  lemma CreateWindowCheck(
    student: User, course: Course, enrollments: seq<Enrollment>, registerNow: int, addDropNow: int)
    requires student.userType == STUDENT
    ensures ValidateEnrollmentCreate(student, course, enrollments, registerNow, addDropNow) == RegistrationClosed
            <==> (course.semester.registrationStart <= registerNow <= course.semester.registrationEnd
                  || course.semester.addDropStart <= addDropNow <= course.semester.addDropEnd)
  {
  }

  /**
   * For a student outside both windows, create succeeds exactly when the
   * credits already held plus the course's stay within the cap (a total of
   * exactly the cap is accepted), and fails on credits otherwise.
   */
  lemma CreateCreditCheck(
    student: User, course: Course, enrollments: seq<Enrollment>, registerNow: int, addDropNow: int)
    requires student.userType == STUDENT
    requires !CanRegister(course.semester, registerNow) && !CanAddDropCourse(course.semester, addDropNow)
    ensures ValidateEnrollmentCreate(student, course, enrollments, registerNow, addDropNow) == Ok
            <==> StudentCredits(enrollments) + course.credits <= CREDIT_CAP
    ensures ValidateEnrollmentCreate(student, course, enrollments, registerNow, addDropNow) == CreditLimitExceeded
            <==> StudentCredits(enrollments) + course.credits > CREDIT_CAP
  {
  }

  /**
   * Every enrollment passed in is counted: the verdict for `enrollments + [e]`
   * is the verdict for `enrollments` with `e`'s credits added to the course's.
   */
  lemma CreateCountsEveryEnrollment(
    student: User, course: Course, enrollments: seq<Enrollment>, e: Enrollment,
    registerNow: int, addDropNow: int)
    ensures ValidateEnrollmentCreate(student, course, enrollments + [e], registerNow, addDropNow)
         == ValidateEnrollmentCreate(student, course.(credits := course.credits + e.course.credits),
                                     enrollments, registerNow, addDropNow)
  {
    StudentCreditsAppend(enrollments, [e]);
    assert StudentCredits([e]) == e.course.credits by {
      assert [e][1..] == [];
    }
  }

  /** The create verdict does not depend on the order in which the enrollments are given. */
  lemma CreateIgnoresEnrollmentOrder(
    student: User, course: Course, a: seq<Enrollment>, b: seq<Enrollment>, registerNow: int, addDropNow: int)
    requires multiset(a) == multiset(b)
    ensures ValidateEnrollmentCreate(student, course, a, registerNow, addDropNow)
         == ValidateEnrollmentCreate(student, course, b, registerNow, addDropNow)
  {
    StudentCreditsPermutation(a, b);
  }

  /** Destroy depends on the windows alone: it is rejected as closed exactly when an instant lies in its window. */
  lemma DestroyWindowCheck(course: Course, registerNow: int, addDropNow: int)
    ensures ValidateEnrollmentDestroy(course, registerNow, addDropNow) == RegistrationClosed
            <==> (course.semester.registrationStart <= registerNow <= course.semester.registrationEnd
                  || course.semester.addDropStart <= addDropNow <= course.semester.addDropEnd)
  {
  }

  /** For a student, create is rejected as closed exactly when destroy is. */
  lemma DestroyMatchesCreateWindowCheck(
    student: User, course: Course, enrollments: seq<Enrollment>, registerNow: int, addDropNow: int)
    requires student.userType == STUDENT
    ensures ValidateEnrollmentCreate(student, course, enrollments, registerNow, addDropNow) == RegistrationClosed
            <==> ValidateEnrollmentDestroy(course, registerNow, addDropNow) == RegistrationClosed
  {
  }

  /**
   * At a single instant, the as-written window check and the intended one are
   * exact opposites: for a student, each rejects as closed exactly when the
   * other gets past the window check.
   */
  lemma WindowCheckInverted(student: User, course: Course, enrollments: seq<Enrollment>, now: int)
    requires student.userType == STUDENT
    ensures ValidateEnrollmentCreate(student, course, enrollments, now, now) == RegistrationClosed
            <==> ValidateEnrollmentCreateIntended(student, course, enrollments, now) != RegistrationClosed
    ensures ValidateEnrollmentDestroy(course, now, now) == RegistrationClosed
            <==> ValidateEnrollmentDestroyIntended(course, now) == Ok
  {
  }

  // ---------------------------------------------------------------------------
  // Counterexamples to the as-written window check
  // ---------------------------------------------------------------------------

  /** A semester whose registration window is [100, 200] and add/drop window [300, 400]. */
  function SampleSemester(): Semester
  {
    Semester(1, 100, 200, 300, 400)
  }

  /**
   * A student with no enrollments asking, at instant 150 inside the
   * registration window, for a 15-credit course is told registration is not
   * open; the intended gate accepts.
   */
  lemma OpenWindowRejectsCreate()
    ensures ValidateEnrollmentCreate(User(7, STUDENT), Course(1, 15, SampleSemester()), [], 150, 150)
            == RegistrationClosed
    ensures ValidateEnrollmentCreateIntended(User(7, STUDENT), Course(1, 15, SampleSemester()), [], 150)
            == Ok
  {
  }

  /** Dropping at instant 350, inside the add/drop window, is refused; the intended gate allows it. */
  lemma OpenWindowRejectsDestroy()
    ensures ValidateEnrollmentDestroy(Course(1, 15, SampleSemester()), 350, 350) == RegistrationClosed
    ensures ValidateEnrollmentDestroyIntended(Course(1, 15, SampleSemester()), 350) == Ok
  {
  }

  // ---------------------------------------------------------------------------
  // Properties of the intended gate
  // ---------------------------------------------------------------------------

  /**
   * The intended create gate: non-students are refused first; a student is
   * refused as closed exactly when neither window holds `now`; past that the
   * credit cap decides, a total of exactly the cap being accepted.
   */
  lemma IntendedCreateDecisionTable(student: User, course: Course, enrollments: seq<Enrollment>, now: int)
    ensures student.userType != STUDENT
            ==> ValidateEnrollmentCreateIntended(student, course, enrollments, now) == NotAStudent
    ensures student.userType == STUDENT ==>
              (ValidateEnrollmentCreateIntended(student, course, enrollments, now) == RegistrationClosed
               <==> !RegistrationOpen(course.semester, now))
    ensures student.userType == STUDENT && RegistrationOpen(course.semester, now) ==>
              (ValidateEnrollmentCreateIntended(student, course, enrollments, now) == Ok
               <==> StudentCredits(enrollments) + course.credits <= CREDIT_CAP)
  {
  }

  /** Worked cases of the intended create gate, with 0, 18 and 20 credits already held. */
  lemma IntendedCreateScenarios()
    ensures ValidateEnrollmentCreateIntended(User(7, STUDENT), Course(1, 15, SampleSemester()), [], 150) == Ok
    ensures ValidateEnrollmentCreateIntended(
              User(7, STUDENT), Course(2, 5, SampleSemester()),
              [Enrollment(7, Course(3, 18, SampleSemester()))], 150) == CreditLimitExceeded
    ensures ValidateEnrollmentCreateIntended(
              User(7, STUDENT), Course(2, 2, SampleSemester()),
              [Enrollment(7, Course(3, 18, SampleSemester()))], 150) == Ok
    ensures ValidateEnrollmentCreateIntended(User(7, STUDENT), Course(1, 15, SampleSemester()), [], 250)
            == RegistrationClosed
    ensures ValidateEnrollmentCreateIntended(User(8, TEACHER), Course(1, 15, SampleSemester()), [], 150)
            == NotAStudent
  {
  }
}
