# Enrollment eligibility gate of a college course-registration backend

This project models, in Dafny, the rules that decide whether a student may
add or drop a course enrollment, and the role-based permission table in front
of them.

- `models.dfy` (module `CollegeModels`) holds the record shapes the rules read:
  users with a numeric role code (1 student, 2 teacher, 3 admin), semesters
  with a registration window and an add/drop window, courses with a credit
  value, and enrollment rows.
- `enrollment_service.dfy` (module `EnrollmentService`) holds the gate. `CanRegister` and
  `CanAddDropCourse` test whether an instant lies in a window, both ends
  included. `ValidateEnrollmentCreate` checks the role, then the windows, then
  the 20-credit cap, and the first failing check decides. `ValidateEnrollmentDestroy`
  checks the windows only. Each validator either returns normally (`Ok`) or raises
  with a reason: `NotAStudent`, `RegistrationClosed` or `CreditLimitExceeded`.
- `views.dfy` (module `CollegeViews`) holds the permission classes, the per-action permission
  lists of the course, enrollment, user and semester viewsets, and the
  enrollment `create`/`destroy` handlers. The enrollment table is a sequence
  of rows, taken in and returned. The gate always runs before a row is
  written or removed.

The window check is modelled as the code writes it. The code rejects when the
current instant lies INSIDE a window, although its message says registration
is not open. The error message "Course registration is not currently open."
and the names `can_register`/`can_add_drop_course` point to the intended rule:
reject when the instant lies in neither window. The model follows the code.
The intended rule is modelled separately, under its own names
(`ValidateEnrollmentCreateIntended`, `ValidateEnrollmentDestroyIntended`,
`CreateEnrollmentIntended`, `DestroyEnrollmentIntended`), and is recorded under
"## Findings". The role stays the integer code the database stores, so codes
other than 1 to 3 are allowed.

The clock is a parameter. `can_register` and `can_add_drop_course` each read
the clock on their own, so the as-written validators take two instants,
`registerNow` and `addDropNow`. The instant read at the top of
`validate_enrollment_create` is never used and has no parameter. The intended
variants take one instant.

The enrollment handlers do three things:

- `create` gives the gate the requester's rows in the course's semester (`EnrollmentsOf`).
- `destroy` finds the row by position in the whole table. As in the code, it
  does not check who owns the row.
- A handler whose gate raises leaves the table unchanged. `Rejected(reason)`
  means the gate's error left the handler (see the section on what is left out).

On top of this, the model proves that creating or dropping through either gate
keeps the invariant "no student holds more than 20 credits in any semester".
For create this rests on one assumption: that `super().create` stores a row
for the requesting user and the requested course (the serializer is not part
of this model).

## Model

| member | source | states |
|---|---|---|
| `EnrollmentService.CanRegister` | services/college_app.py:30-32 | an open registration window has start <= end; at either end instant the window is open exactly when it is non-empty (both ends inclusive) |
| `EnrollmentService.CanAddDropCourse` | services/college_app.py:35-37 | the same for the add/drop window |
| `EnrollmentService.WindowsAreIntervals` | services/college_app.py:30-37 | each window is an interval: if instants a <= b <= c and a, c are inside it, so is b |
| `EnrollmentService.ValidateEnrollmentCreate` | services/college_app.py:7-20 | an accepted create has a student, neither window containing its instant, and held credits plus the course's within 20 |
| `EnrollmentService.ValidateEnrollmentDestroy` | services/college_app.py:23-27 | destroy only ever returns or rejects as closed, never for role or credits; it accepts only when neither window contains its instant |
| `EnrollmentService.CreateRejectsNonStudents` | services/college_app.py:8-9 | any user whose code is not 1 gets `NotAStudent`, whatever the windows, credits and instants |
| `EnrollmentService.CreateWindowCheck` | services/college_app.py:11-15 | for a student, create is rejected as closed iff registrationStart <= registerNow <= registrationEnd or addDropStart <= addDropNow <= addDropEnd |
| `EnrollmentService.CreateCreditCheck` | services/college_app.py:17-20 | for a student outside both windows, create is `Ok` iff held + course credits <= 20 (exactly 20 accepted) and `CreditLimitExceeded` iff the total is over 20 |
| `EnrollmentService.StudentCredits` | services/college_app.py:18 | the sum over no enrollments is 0, and each enrollment's credits are at most the sum |
| `EnrollmentService.StudentCreditsAppend` | services/college_app.py:18 | the credit sum over a concatenation is the sum of the two sums |
| `EnrollmentService.StudentCreditsRemove` | services/college_app.py:18 | taking one row out lowers the sum by that row's credits and the multiset by that row |
| `EnrollmentService.StudentCreditsPermutation` | services/college_app.py:18 | the credit sum is the same for any two orderings of the same rows |
| `EnrollmentService.CreateCountsEveryEnrollment` | services/college_app.py:18-20 | every row passed in is counted, with no filtering: one more row of k credits gives the verdict of a course k credits heavier |
| `EnrollmentService.CreateIgnoresEnrollmentOrder` | services/college_app.py:18-20 | the create verdict is the same for any ordering of the rows passed in |
| `EnrollmentService.DestroyWindowCheck` | services/college_app.py:23-27 | destroy is rejected as closed iff registrationStart <= registerNow <= registrationEnd or addDropStart <= addDropNow <= addDropEnd; no role or credit check |
| `EnrollmentService.DestroyMatchesCreateWindowCheck` | services/college_app.py:14-27 | for a student, create is rejected as closed exactly when destroy is |
| `EnrollmentService.WindowCheckInverted` | services/college_app.py:14-27 | at one instant, the as-written window check rejects exactly where the intended one lets the request past, for create and for destroy |
| `EnrollmentService.OpenWindowRejectsCreate` | services/college_app.py:14-15 | a student with no rows, asking at an instant inside the registration window for a 15-credit course, is rejected as closed; the intended gate accepts |
| `EnrollmentService.OpenWindowRejectsDestroy` | services/college_app.py:26-27 | a drop at an instant inside the add/drop window is rejected; the intended gate accepts |
| `EnrollmentService.ValidateEnrollmentCreateIntended` | services/college_app.py:7-20 | an accepted create (intended rule) has a student, an instant inside some window, and credits within 20 |
| `EnrollmentService.ValidateEnrollmentDestroyIntended` | services/college_app.py:23-27 | the intended destroy only returns or rejects as closed, and accepts only inside some window |
| `EnrollmentService.IntendedCreateDecisionTable` | services/college_app.py:7-20 | intended create: non-students get `NotAStudent`; a student is rejected as closed iff no window holds the instant; past that, `Ok` iff credits <= 20 |
| `EnrollmentService.IntendedCreateScenarios` | services/college_app.py:17-20 | 0+15 credits in the window is accepted, 18+5 exceeds the cap, 18+2 is accepted, outside both windows is closed, a teacher is not a student |
| `CollegeViews.HasPermission` | college_app/views.py:12-24 | no permission class admits an anonymous requester; `IsAuthenticated` admits exactly the authenticated ones |
| `CollegeViews.RolePermissionsExclusive` | college_app/views.py:12-24 | the student, teacher and admin permissions hold iff the code is 1, 2, 3 respectively, so no requester holds two |
| `CollegeViews.Permitted` | college_app/views.py:42 | an empty permission list lets everyone through; a non-empty one never lets an anonymous requester through |
| `CollegeViews.CoursePermissions` | college_app/views.py:37-42 | every course action has exactly one permission class |
| `CollegeViews.CoursePermissionTable` | college_app/views.py:37-42 | course create/update/partial_update/destroy are let through iff the requester is a teacher or an admin; any other action iff authenticated |
| `CollegeViews.EnrollmentPermissions` | college_app/views.py:49-60 | every enrollment action has exactly one permission class |
| `CollegeViews.EnrollmentWritePermissions` | college_app/views.py:50-53 | enrollment create/destroy are let through iff the requester is a student; update/partial_update iff teacher or admin, never a student |
| `CollegeViews.EnrollmentReadPermissions` | college_app/views.py:54-59 | `my_courses` only for students, `my_students` only for teachers, every other action iff authenticated |
| `CollegeViews.UserViewSetAdminOnly` | college_app/views.py:27-30 | user endpoints are let through iff the requester is an admin, for every action |
| `CollegeViews.SemesterViewSetAdminOnly` | college_app/views.py:96-99 | semester endpoints are let through iff the requester is an admin, for every action |
| `CollegeViews.EnrollmentsOf` | college_app/views.py:65 | a row is in the result iff it is in the table and belongs to the student and the semester, and it occurs there as often as in the table (duplicates kept) |
| `CollegeViews.EnrollmentsOfAppend` | college_app/views.py:65 | the filter over a concatenation is the concatenation of the filters |
| `CollegeViews.HandleCreate` | college_app/views.py:67-72 | create answers `Created` iff the gate returns; then exactly the new row is appended, otherwise the table is unchanged and the gate's reason is returned |
| `CollegeViews.CreateEnrollment` | college_app/views.py:62-72 | create (as written) answers `Created` or a rejection; it appends the row if and only if the requester is a student, neither window holds its instant, and the student's same-semester credits plus the course's are within 20; otherwise the table is unchanged and the rejection carries the gate's own reason |
| `CollegeViews.CreateEnrollmentIntended` | college_app/views.py:62-72 | the same with the intended gate: the row is appended if and only if the requester is a student, some window holds the instant, and the credits are within 20; a rejection carries the intended gate's own reason |
| `CollegeViews.HandleDestroy` | college_app/views.py:76-80 | destroy answers `Deleted` iff the gate returns; then exactly the found row leaves the table, otherwise the table is unchanged |
| `CollegeViews.DestroyEnrollment` | college_app/views.py:74-80 | destroy (as written) answers `NotFound` iff the row does not exist, otherwise `Deleted` or closed; an existing row is removed if and only if neither window holds its instant; otherwise the table is unchanged |
| `CollegeViews.DestroyEnrollmentIntended` | college_app/views.py:74-80 | the same with the intended gate: an existing row is removed if and only if some window holds the instant |
| `CollegeViews.DispatchCreate` | college_app/views.py:49-51 | a create request is `Forbidden` iff the enrollment permission list for `create` refuses the requester, and then nothing changes; a permitted request is handled exactly by `CreateEnrollment` |
| `CollegeViews.DispatchDestroy` | college_app/views.py:49-51 | a destroy request is `Forbidden` iff the list for `destroy` refuses the requester, and then nothing changes; a permitted request is handled exactly by `DestroyEnrollment` |
| `CollegeViews.AppendPreservesCreditCap` | college_app/views.py:62-72 | appending a row that keeps its student's semester total within 20 keeps every student's semester total within 20 |
| `CollegeViews.RemovePreservesCreditCap` | college_app/views.py:74-80 | removing any row keeps every student's semester total within 20 |
| `CollegeViews.CreatePreservesCreditCap` | college_app/views.py:62-72 | create through the as-written gate never takes a student over 20 credits in any semester, given that the stored row is the requester's |
| `CollegeViews.CreateIntendedPreservesCreditCap` | college_app/views.py:62-72 | the same through the intended gate |
| `CollegeViews.DestroyPreservesCreditCap` | college_app/views.py:74-80 | destroy through either gate keeps the 20-credit invariant |
| `CollegeViews.DispatchCreateOrder` | college_app/views.py:49-72 | a non-student is stopped by the permission check with the table unchanged; a permitted requester never fails the gate's role check; a row is written only for a student whose gate returned |
| `CollegeViews.DispatchDestroyOrder` | college_app/views.py:74-80 | a non-student is stopped with the table unchanged; a row is removed only for a student, an existing row, and a gate that returned |

## Left out

- The ORM lookups (`Course.objects.get`, `Enrollment.objects.filter`, `get_object`) are modelled on values. The course is a parameter, and a row is found by its position in the table. A missing course id or `course` key is not modelled. A missing row becomes `NotFound`.
- `Permitted` stands for the framework's own permission check, which is not part of this model: a request proceeds only when every permission that `get_permissions` returns grants it.
- The serializers are not part of this model. `HandleCreate` assumes `super().create` stores a row for the requesting user and the requested course.
- `get_object`'s object-level permissions and queryset are not modelled. The table covers every enrollment, so a student may drop any row, as in the code.
- The HTTP mapping of a rejection is not modelled. The gate raises `django.core.exceptions.ValidationError`, but the handlers catch `rest_framework.exceptions.ValidationError`, a different class. So a rejection does not become the handlers' 400 response. The model states only that the create or destroy does not happen. The reason's message text is not modelled either.
- `HasPermission`: an anonymous requester is modelled as denied. In the code, `request.user` is then an anonymous-user object with no `user_type`, so the role checks raise an attribute error instead of returning false. Either way the request does not proceed.
- The framework's other viewset actions (list, retrieve, update and their bodies) and the bodies of `my_courses` and `my_students` are ORM queries and serialization. Only their permissions are modelled.
- The clock (`timezone.now()`) is a parameter. It is not assumed to be monotonic between the two readings.
- Grades (`midterm_grade`, `final_grade`, floats), `Enrollment.save`, the semester's name and dates, and the course's name, description and teacher are not read by the gate and are not modelled.
- Routing (college_app/urls.py), the admin site (college_app/admin.py), `RegisterView` and `CustomAuthToken` are framework wiring and are not part of this model.
- Concurrency is not modelled. Two simultaneous creates by one student could both pass the credit check, which is a transaction concern outside the gate. The credit-cap invariant is proved for requests taken one at a time.

## Findings

| source | as written | input that shows it | evidently intended | confidence | as-written member | corrected member |
|---|---|---|---|---|---|---|
| services/college_app.py:14-15 | create is rejected as "registration is not currently open" when the instant lies INSIDE the registration or add/drop window | a student with no enrollments, registration window [100, 200], add/drop window [300, 400], instant 150, a 15-credit course: rejected as closed | reject only when the instant lies in neither window | high (the error message and the predicate names agree); not executed | `EnrollmentService.OpenWindowRejectsCreate` | `EnrollmentService.ValidateEnrollmentCreateIntended` |
| services/college_app.py:26-27 | destroy is rejected as "registration is not currently open" when the instant lies INSIDE either window | the same semester, instant 350 (inside add/drop): the drop is refused | allow the drop inside either window, reject outside both | high; not executed | `EnrollmentService.OpenWindowRejectsDestroy` | `EnrollmentService.ValidateEnrollmentDestroyIntended` |
