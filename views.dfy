/**
 * The enrollment-facing part of college_app/views.py: the three role
 * permissions, the per-action permission tables of the viewsets, and the
 * enrollment `create`/`destroy` handlers, which run the gate before anything
 * is written. The enrollment table is a sequence of rows passed in and out;
 * the ORM lookups become parameters.
 */
module CollegeViews {
  import opened CollegeModels
  import opened EnrollmentService

  /** Who sends the request: nobody logged in, or an authenticated user. */
  datatype Requester = Anonymous | Authenticated(user: User)

  /**
   * The permission classes the views use. `IsTeacherOrAdmin` is the composed
   * `IsTeacherUser | IsAdminUser`.
   */
  datatype Permission = IsAdminUser | IsTeacherUser | IsStudentUser | IsAuthenticated | IsTeacherOrAdmin

  /** `has_permission` of each permission class. */
  function HasPermission(p: Permission, r: Requester): (granted: bool)
    ensures granted ==> r.Authenticated?
    ensures p == IsAuthenticated ==> (granted <==> r.Authenticated?)
  {
    match p
    case IsAdminUser => r.Authenticated? && r.user.userType == ADMIN
    case IsTeacherUser => r.Authenticated? && r.user.userType == TEACHER
    case IsStudentUser => r.Authenticated? && r.user.userType == STUDENT
    case IsAuthenticated => r.Authenticated?
    case IsTeacherOrAdmin => r.Authenticated? && (r.user.userType == TEACHER || r.user.userType == ADMIN)
  }

  /**
   * The framework's rule for the list `get_permissions` returns: a request is
   * let through when every permission in the list grants it.
   */
  function Permitted(perms: seq<Permission>, r: Requester): (ok: bool)
    ensures perms == [] ==> ok
    ensures ok && perms != [] ==> r.Authenticated?
  {
    var all := forall i | 0 <= i < |perms| :: HasPermission(perms[i], r);
    assert all && perms != [] ==> HasPermission(perms[0], r);
    all
  }

  /** A one-entry list lets a request through exactly when its entry does. */
  lemma PermittedSingle(perms: seq<Permission>, r: Requester)
    requires |perms| == 1
    ensures Permitted(perms, r) <==> HasPermission(perms[0], r)
  {
  }

  /** The actions for which courses need a teacher or an admin. */
  const COURSE_WRITE_ACTIONS: seq<string> := ["create", "update", "partial_update", "destroy"]

  /** `CourseViewSet.get_permissions`. */
  function CoursePermissions(action: string): (perms: seq<Permission>)
    ensures |perms| == 1
  {
    if action in COURSE_WRITE_ACTIONS then [IsTeacherOrAdmin] else [IsAuthenticated]
  }

  /** `EnrollmentViewSet.get_permissions`: the first matching branch decides. */
  function EnrollmentPermissions(action: string): (perms: seq<Permission>)
    ensures |perms| == 1
  {
    if action in ["create", "destroy"] then [IsStudentUser]
    else if action in ["update", "partial_update"] then [IsTeacherOrAdmin]
    else if action in ["my_courses"] then [IsStudentUser]
    else if action in ["my_students"] then [IsTeacherUser]
    else [IsAuthenticated]
  }

  /** `UserViewSet.permission_classes`, the same for every action. */
  const USER_PERMISSIONS: seq<Permission> := [IsAdminUser]

  /** `SemesterViewSet.permission_classes`, the same for every action. */
  const SEMESTER_PERMISSIONS: seq<Permission> := [IsAdminUser]

  // ---------------------------------------------------------------------------
  // Properties of the permission table
  // ---------------------------------------------------------------------------

  /** Each role permission holds exactly for its code, so no requester holds two of them. */
  lemma RolePermissionsExclusive(r: Requester)
    ensures HasPermission(IsStudentUser, r) <==> r.Authenticated? && r.user.userType == 1
    ensures HasPermission(IsTeacherUser, r) <==> r.Authenticated? && r.user.userType == 2
    ensures HasPermission(IsAdminUser, r) <==> r.Authenticated? && r.user.userType == 3
    ensures !(HasPermission(IsStudentUser, r) && HasPermission(IsTeacherUser, r))
    ensures !(HasPermission(IsStudentUser, r) && HasPermission(IsAdminUser, r))
    ensures !(HasPermission(IsTeacherUser, r) && HasPermission(IsAdminUser, r))
  {
  }

  /** Course writes need a teacher or an admin; every other course action only a login. */
  lemma CoursePermissionTable(action: string, r: Requester)
    ensures action in COURSE_WRITE_ACTIONS ==>
              (Permitted(CoursePermissions(action), r)
               <==> r.Authenticated? && (r.user.userType == TEACHER || r.user.userType == ADMIN))
    ensures action !in COURSE_WRITE_ACTIONS ==>
              (Permitted(CoursePermissions(action), r) <==> r.Authenticated?)
  {
    PermittedSingle(CoursePermissions(action), r);
  }

  /**
   * Enrolling and dropping are for students only; editing an enrollment is
   * for teachers and admins and never for a student.
   */
  lemma EnrollmentWritePermissions(action: string, r: Requester)
    ensures action == "create" || action == "destroy" ==>
              (Permitted(EnrollmentPermissions(action), r) <==> r.Authenticated? && r.user.userType == STUDENT)
    ensures action == "update" || action == "partial_update" ==>
              (Permitted(EnrollmentPermissions(action), r)
               <==> r.Authenticated? && (r.user.userType == TEACHER || r.user.userType == ADMIN))
    ensures action == "update" || action == "partial_update" ==>
              (r.Authenticated? && r.user.userType == STUDENT ==> !Permitted(EnrollmentPermissions(action), r))
  {
    PermittedSingle(EnrollmentPermissions(action), r);
  }

  /** `my_courses` is for students, `my_students` for teachers, everything else needs a login. */
  lemma EnrollmentReadPermissions(action: string, r: Requester)
    ensures action == "my_courses" ==>
              (Permitted(EnrollmentPermissions(action), r) <==> r.Authenticated? && r.user.userType == STUDENT)
    ensures action == "my_students" ==>
              (Permitted(EnrollmentPermissions(action), r) <==> r.Authenticated? && r.user.userType == TEACHER)
    ensures action !in ["create", "destroy", "update", "partial_update", "my_courses", "my_students"] ==>
              (Permitted(EnrollmentPermissions(action), r) <==> r.Authenticated?)
  {
    PermittedSingle(EnrollmentPermissions(action), r);
  }

  /** User endpoints are for admins alone, whatever the action. */
  lemma UserViewSetAdminOnly(r: Requester)
    ensures Permitted(USER_PERMISSIONS, r) <==> r.Authenticated? && r.user.userType == ADMIN
  {
    PermittedSingle(USER_PERMISSIONS, r);
  }

  /** Semester endpoints are for admins alone, whatever the action. */
  lemma SemesterViewSetAdminOnly(r: Requester)
    ensures Permitted(SEMESTER_PERMISSIONS, r) <==> r.Authenticated? && r.user.userType == ADMIN
  {
    PermittedSingle(SEMESTER_PERMISSIONS, r);
  }

  // ---------------------------------------------------------------------------
  // The enrollment table and the create/destroy handlers
  // ---------------------------------------------------------------------------

  /** What a handler ends with. `Rejected` is the gate's ValidationError leaving the handler. */
  datatype Response = Created | Deleted | Rejected(reason: Verdict) | NotFound | Forbidden

  /** A response and the enrollment table after the request. */
  datatype Handled = Handled(response: Response, store: seq<Enrollment>)

  /** Whether a row belongs to the given student in the given semester. */
  predicate InStudentSemester(e: Enrollment, student: int, semesterId: int)
  {
    e.student == student && e.course.semester.id == semesterId
  }

  /** `Enrollment.objects.filter(student=..., course__semester=...)`: the rows of one student in one semester. */
  function EnrollmentsOf(store: seq<Enrollment>, student: int, semesterId: int): (rows: seq<Enrollment>)
    ensures forall e :: e in rows <==> e in store && InStudentSemester(e, student, semesterId)
    ensures forall e :: multiset(rows)[e] == if InStudentSemester(e, student, semesterId) then multiset(store)[e] else 0
    ensures |rows| <= |store|
  {
    if store == [] then []
    else
      assert store == [store[0]] + store[1..];
      (if InStudentSemester(store[0], student, semesterId) then [store[0]] else [])
      + EnrollmentsOf(store[1..], student, semesterId)
  }

  /** The filter splits over concatenation. */
  lemma {:induction false} EnrollmentsOfAppend(a: seq<Enrollment>, b: seq<Enrollment>, student: int, semesterId: int)
    ensures EnrollmentsOf(a + b, student, semesterId) == EnrollmentsOf(a, student, semesterId) + EnrollmentsOf(b, student, semesterId)
  {
    if a == [] {
      assert a + b == b;
    } else {
      assert (a + b)[1..] == a[1..] + b;
      EnrollmentsOfAppend(a[1..], b, student, semesterId);
    }
  }

  /** The enrollment invariant: no student carries more than the cap in any semester. */
  ghost predicate CreditCapHolds(store: seq<Enrollment>)
  {
    forall student: int, semesterId: int :: StudentCredits(EnrollmentsOf(store, student, semesterId)) <= CREDIT_CAP
  }

  /**
   * The shape of `create`: the gate's verdict decides; only on `Ok` is the row
   * written (`super().create`). The serializer is taken to record the requesting
   * user and the requested course.
   */
  function HandleCreate(store: seq<Enrollment>, student: User, course: Course, verdict: Verdict): (r: Handled)
    ensures r.response == Created <==> verdict == Ok
    ensures verdict == Ok ==> r.store == store + [Enrollment(student.id, course)]
    ensures verdict != Ok ==> r == Handled(Rejected(verdict), store)
  {
    if verdict == Ok then Handled(Created, store + [Enrollment(student.id, course)])
    else Handled(Rejected(verdict), store)
  }

  /** `EnrollmentViewSet.create` as written: the gate sees the student's rows in the course's semester. */
  function CreateEnrollment(
    store: seq<Enrollment>, student: User, course: Course, registerNow: int, addDropNow: int): (r: Handled)
    ensures r.response == Created || r.response.Rejected?
    ensures r.response == Created ==>
              r.store == store + [Enrollment(student.id, course)]
              && student.userType == STUDENT
              && !CanRegister(course.semester, registerNow) && !CanAddDropCourse(course.semester, addDropNow)
              && StudentCredits(EnrollmentsOf(store, student.id, course.semester.id)) + course.credits <= CREDIT_CAP
    ensures (student.userType == STUDENT
               && !CanRegister(course.semester, registerNow) && !CanAddDropCourse(course.semester, addDropNow)
               && StudentCredits(EnrollmentsOf(store, student.id, course.semester.id)) + course.credits <= CREDIT_CAP)
              ==> r.response == Created
    ensures r.response.Rejected? ==>
              r.response.reason
              == ValidateEnrollmentCreate(student, course, EnrollmentsOf(store, student.id, course.semester.id),
                                          registerNow, addDropNow)
    ensures r.response != Created ==> r.store == store
  {
    var current := EnrollmentsOf(store, student.id, course.semester.id);
    HandleCreate(store, student, course,
                 ValidateEnrollmentCreate(student, course, current, registerNow, addDropNow))
  }

  /** `create` with the intended gate in place of the as-written one. */
  function CreateEnrollmentIntended(store: seq<Enrollment>, student: User, course: Course, now: int): (r: Handled)
    ensures r.response == Created || r.response.Rejected?
    ensures r.response == Created ==>
              r.store == store + [Enrollment(student.id, course)]
              && student.userType == STUDENT
              && RegistrationOpen(course.semester, now)
              && StudentCredits(EnrollmentsOf(store, student.id, course.semester.id)) + course.credits <= CREDIT_CAP
    ensures (student.userType == STUDENT && RegistrationOpen(course.semester, now)
               && StudentCredits(EnrollmentsOf(store, student.id, course.semester.id)) + course.credits <= CREDIT_CAP)
              ==> r.response == Created
    ensures r.response.Rejected? ==>
              r.response.reason
              == ValidateEnrollmentCreateIntended(student, course, EnrollmentsOf(store, student.id, course.semester.id), now)
    ensures r.response != Created ==> r.store == store
  {
    var current := EnrollmentsOf(store, student.id, course.semester.id);
    HandleCreate(store, student, course, ValidateEnrollmentCreateIntended(student, course, current, now))
  }

  /**
   * The shape of `destroy`: `get_object` finds the row (any row, not only the
   * requester's), the gate runs, and only on `Ok` is the row removed.
   */
  function HandleDestroy(store: seq<Enrollment>, index: int, verdict: Verdict): (r: Handled)
    requires 0 <= index < |store|
    ensures r.response == Deleted <==> verdict == Ok
    ensures verdict == Ok ==> multiset(r.store) == multiset(store) - multiset{store[index]}
    ensures verdict != Ok ==> r == Handled(Rejected(verdict), store)
  {
    if verdict == Ok then
      assert store == store[..index] + [store[index]] + store[index + 1..];
      Handled(Deleted, store[..index] + store[index + 1..])
    else Handled(Rejected(verdict), store)
  }

  /** `EnrollmentViewSet.destroy` as written; an index outside the table is `get_object`'s not-found. */
  function DestroyEnrollment(store: seq<Enrollment>, index: int, registerNow: int, addDropNow: int): (r: Handled)
    ensures r.response == NotFound <==> !(0 <= index < |store|)
    ensures r.response == Deleted || r.response == NotFound || r.response == Rejected(RegistrationClosed)
    ensures r.response == Deleted ==>
              0 <= index < |store| && r.store == store[..index] + store[index + 1..]
              && !CanRegister(store[index].course.semester, registerNow)
              && !CanAddDropCourse(store[index].course.semester, addDropNow)
    ensures (0 <= index < |store|
               && !CanRegister(store[index].course.semester, registerNow)
               && !CanAddDropCourse(store[index].course.semester, addDropNow))
              ==> r.response == Deleted
    ensures r.response != Deleted ==> r.store == store
  {
    if !(0 <= index < |store|) then Handled(NotFound, store)
    else HandleDestroy(store, index, ValidateEnrollmentDestroy(store[index].course, registerNow, addDropNow))
  }

  /** `destroy` with the intended gate in place of the as-written one. */
  function DestroyEnrollmentIntended(store: seq<Enrollment>, index: int, now: int): (r: Handled)
    ensures r.response == NotFound <==> !(0 <= index < |store|)
    ensures r.response == Deleted || r.response == NotFound || r.response == Rejected(RegistrationClosed)
    ensures r.response == Deleted ==>
              0 <= index < |store| && r.store == store[..index] + store[index + 1..]
              && RegistrationOpen(store[index].course.semester, now)
    ensures 0 <= index < |store| && RegistrationOpen(store[index].course.semester, now) ==> r.response == Deleted
    ensures r.response != Deleted ==> r.store == store
  {
    if !(0 <= index < |store|) then Handled(NotFound, store)
    else HandleDestroy(store, index, ValidateEnrollmentDestroyIntended(store[index].course, now))
  }

  /** A create request as the framework runs it: permissions first, then the handler. */
  function DispatchCreate(
    store: seq<Enrollment>, r: Requester, course: Course, registerNow: int, addDropNow: int): (h: Handled)
    ensures h.response == Forbidden <==> !Permitted(EnrollmentPermissions("create"), r)
    ensures h.response == Forbidden ==> h.store == store
    ensures Permitted(EnrollmentPermissions("create"), r) ==>
              h == CreateEnrollment(store, r.user, course, registerNow, addDropNow)
  {
    if !Permitted(EnrollmentPermissions("create"), r) then Handled(Forbidden, store)
    else
      assert HasPermission(EnrollmentPermissions("create")[0], r);
      CreateEnrollment(store, r.user, course, registerNow, addDropNow)
  }

  /** A destroy request as the framework runs it: permissions first, then the handler. */
  function DispatchDestroy(
    store: seq<Enrollment>, r: Requester, index: int, registerNow: int, addDropNow: int): (h: Handled)
    ensures h.response == Forbidden <==> !Permitted(EnrollmentPermissions("destroy"), r)
    ensures h.response == Forbidden ==> h.store == store
    ensures Permitted(EnrollmentPermissions("destroy"), r) ==>
              h == DestroyEnrollment(store, index, registerNow, addDropNow)
  {
    if !Permitted(EnrollmentPermissions("destroy"), r) then Handled(Forbidden, store)
    else
      assert HasPermission(EnrollmentPermissions("destroy")[0], r);
      DestroyEnrollment(store, index, registerNow, addDropNow)
  }

  // ---------------------------------------------------------------------------
  // Properties of the handlers
  // ---------------------------------------------------------------------------

  /** Adding a row that keeps its own student's semester total within the cap keeps the invariant. */
  lemma {:induction false} AppendPreservesCreditCap(store: seq<Enrollment>, e: Enrollment)
    requires CreditCapHolds(store)
    requires StudentCredits(EnrollmentsOf(store, e.student, e.course.semester.id)) + e.course.credits <= CREDIT_CAP
    ensures CreditCapHolds(store + [e])
  {
    forall student: int, semesterId: int
      ensures StudentCredits(EnrollmentsOf(store + [e], student, semesterId)) <= CREDIT_CAP
    {
      EnrollmentsOfAppend(store, [e], student, semesterId);
      var mine := EnrollmentsOf([e], student, semesterId);
      StudentCreditsAppend(EnrollmentsOf(store, student, semesterId), mine);
      assert [e][1..] == [];
      if InStudentSemester(e, student, semesterId) {
        assert mine == [e];
        assert StudentCredits(mine) == e.course.credits by {
          assert mine[1..] == [];
        }
      } else {
        assert mine == [];
      }
    }
  }

  /** Removing any row keeps the invariant. */
  lemma {:induction false} RemovePreservesCreditCap(store: seq<Enrollment>, index: int)
    requires CreditCapHolds(store)
    requires 0 <= index < |store|
    ensures CreditCapHolds(store[..index] + store[index + 1..])
  {
    var left, mid, right := store[..index], [store[index]], store[index + 1..];
    assert store == left + (mid + right);
    forall student: int, semesterId: int
      ensures StudentCredits(EnrollmentsOf(left + right, student, semesterId)) <= CREDIT_CAP
    {
      EnrollmentsOfAppend(left, mid + right, student, semesterId);
      EnrollmentsOfAppend(mid, right, student, semesterId);
      EnrollmentsOfAppend(left, right, student, semesterId);
      var l, m, r := EnrollmentsOf(left, student, semesterId), EnrollmentsOf(mid, student, semesterId),
                     EnrollmentsOf(right, student, semesterId);
      StudentCreditsAppend(l, m + r);
      StudentCreditsAppend(m, r);
      StudentCreditsAppend(l, r);
    }
  }

  /** Creating through the as-written gate never lifts a student over the cap in any semester. */
  lemma CreatePreservesCreditCap(
    store: seq<Enrollment>, student: User, course: Course, registerNow: int, addDropNow: int)
    requires CreditCapHolds(store)
    ensures CreditCapHolds(CreateEnrollment(store, student, course, registerNow, addDropNow).store)
  {
    var current := EnrollmentsOf(store, student.id, course.semester.id);
    if ValidateEnrollmentCreate(student, course, current, registerNow, addDropNow) == Ok {
      AppendPreservesCreditCap(store, Enrollment(student.id, course));
    }
  }

  /** Creating through the intended gate never lifts a student over the cap in any semester. */
  lemma CreateIntendedPreservesCreditCap(store: seq<Enrollment>, student: User, course: Course, now: int)
    requires CreditCapHolds(store)
    ensures CreditCapHolds(CreateEnrollmentIntended(store, student, course, now).store)
  {
    var current := EnrollmentsOf(store, student.id, course.semester.id);
    if ValidateEnrollmentCreateIntended(student, course, current, now) == Ok {
      AppendPreservesCreditCap(store, Enrollment(student.id, course));
    }
  }

  /** Dropping, through either gate, keeps the invariant. */
  lemma DestroyPreservesCreditCap(store: seq<Enrollment>, index: int, registerNow: int, addDropNow: int, now: int)
    requires CreditCapHolds(store)
    ensures CreditCapHolds(DestroyEnrollment(store, index, registerNow, addDropNow).store)
    ensures CreditCapHolds(DestroyEnrollmentIntended(store, index, now).store)
  {
    if 0 <= index < |store| {
      RemovePreservesCreditCap(store, index);
    }
  }

  /**
   * A requester the permission table lets through to `create` always passes the
   * gate's role check, and one it stops changes nothing. A create request
   * writes a row only for a student and only when the gate returns.
   */
  lemma DispatchCreateOrder(store: seq<Enrollment>, r: Requester, course: Course, registerNow: int, addDropNow: int)
    ensures !(r.Authenticated? && r.user.userType == STUDENT) ==>
              DispatchCreate(store, r, course, registerNow, addDropNow) == Handled(Forbidden, store)
    ensures r.Authenticated? && r.user.userType == STUDENT ==>
              DispatchCreate(store, r, course, registerNow, addDropNow).response != Rejected(NotAStudent)
    ensures DispatchCreate(store, r, course, registerNow, addDropNow).store != store ==>
              r.Authenticated? && r.user.userType == STUDENT
              && ValidateEnrollmentCreate(r.user, course, EnrollmentsOf(store, r.user.id, course.semester.id),
                                          registerNow, addDropNow) == Ok
  {
    EnrollmentWritePermissions("create", r);
  }

  /** A destroy request removes a row only for a student and only when the gate returns. */
  lemma DispatchDestroyOrder(store: seq<Enrollment>, r: Requester, index: int, registerNow: int, addDropNow: int)
    ensures !(r.Authenticated? && r.user.userType == STUDENT) ==>
              DispatchDestroy(store, r, index, registerNow, addDropNow) == Handled(Forbidden, store)
    ensures DispatchDestroy(store, r, index, registerNow, addDropNow).store != store ==>
              r.Authenticated? && r.user.userType == STUDENT && 0 <= index < |store|
              && ValidateEnrollmentDestroy(store[index].course, registerNow, addDropNow) == Ok
  {
    EnrollmentWritePermissions("destroy", r);
  }
}
