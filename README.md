# School administration rules, modelled in Dafny

This project models the rule layer of a multi-tenant school backend, a NestJS
service over TypeORM. Every administrator, teacher and record belongs to one
school. The model covers:

- **Attendance.** A class is marked for a date once: a header with one line
  item per student. The marks can be corrected later. Both the class history
  and the student history can be read back.
- **Authorization.** Two request guards (the attendance-update guard and the
  class-teacher guard), the inline teacher checks of the attendance queries,
  and the teacher's "my class" query.
- **Teacher administration.** Two services, each with its own assignment
  mutations:
  - `teachers/teachers.service.ts` is the one the admin module wires in; here
    it is `TeachersService`.
  - `admin.teachers.service.ts` is here `AdminTeachersService`.
- **Tenant-scoped administration.** Classes, subjects (with soft delete),
  students (with the CSV import), announcements and school settings.

Each table is a `seq` of datatype records held by the `Store.Db` class. A
service operation that writes is a method with a field-granular `modifies`
clause. A read-only query is a function over the tables.

An operation that throws inside a transaction leaves every table as it was.
Lookups keep the ORM's semantics:

- `findOne` is the first matching row (`Seqs.First`).
- `find` and `getMany` are the matching rows in table order (`Seqs.Filter`).
- `orderBy` is a stable insertion sort on a total preorder (`Seqs.SortBy`).
- `skip((page - 1) * limit).take(limit)` is `Seqs.Page`.

Values the source takes from outside the rule layer are parameters:

- the ids the database generates;
- the current time and the current year;
- token verification (`jwtService.verify`, a function from token to subject);
- `DATE(createdAt)` (a function from timestamp to day).

Modules, one per source concern:

| module | file | models |
|---|---|---|
| `Common`, `Entities` | common.dfy, entities.dfy | `Option`/`Result`, the Nest exception kinds, the records the services use |
| `Seqs`, `Text` | seqs.dfy, text.dfy | query and string primitives (`findOne`, `find`, paging, sorting, `split`, `trim`, `toLowerCase`, `ILIKE`, the text PostgreSQL reads as a uuid) |
| `Store` | store.dfy | the tables, their keys, `ensureSchool`, relation `.add` |
| `AttendanceService` | attendance.dfy | `attendance.service.ts` |
| `Tokens`, `UpdateAttendanceGuard`, `ClassTeacherGuard` | tokens.dfy, update_attendance_guard.dfy, class_teacher_guard.dfy | the two guards |
| `TeacherClassService` | teacher_class.dfy | `teacher/teacher.service.ts` |
| `TeachersService`, `AdminTeachersService` | teachers.dfy, admin_teachers.dfy | the two teacher services |
| `ClassesService`, `SubjectsService`, `StudentsService`, `AnnouncementsService`, `SettingsService` | classes.dfy, subjects.dfy, students.dfy, announcements.dfy, settings.dfy | the remaining admin services |

## Model

| member | source | states |
|---|---|---|
| AttendanceService.MembershipError | src/modules/attendance/attendance.service.ts:59-68 | no error exactly when every found student is in the class and the school; the error is a BadRequest |
| AttendanceService.CheckMembership | src/modules/attendance/attendance.service.ts:59-68 | the loop over the found students stops at the first offender with the error of `MembershipError` |
| AttendanceService.FoundCount | src/modules/attendance/attendance.service.ts:53-54 | with unique student ids, `findByIds` returns one row per distinct submitted id that names a student |
| AttendanceService.FoundAllIff | src/modules/attendance/attendance.service.ts:53-56 | "Some students not found" is avoided exactly when the submitted ids are distinct and all exist |
| AttendanceService.StudentsErrorNoneIff | src/modules/attendance/attendance.service.ts:52-68 | the submitted students pass validation exactly when their ids are distinct and each names a student of the class and the school |
| AttendanceService.NewItems | src/modules/attendance/attendance.service.ts:80-86 | one line item per submitted mark, in order, with the header id, student id and status of that mark |
| AttendanceService.ItemsOfFresh | src/modules/attendance/attendance.service.ts:88-93 | the `students` relation of the new header is exactly the items just saved for it |
| AttendanceService.AppendKeepsItemsValid | src/modules/attendance/entities/attendance-student.entity.ts:17-18 | new items of a fresh header with distinct students keep the (attendanceId, studentId) key unique and every item pointing at a header |
| AttendanceService.AppendKeepsHeadersValid | src/modules/attendance/attendance.service.ts:44-50 | a fresh id with a free (school, class, date) keeps header ids and the (school, class, date) key unique |
| AttendanceService.Create | src/modules/attendance/attendance.service.ts:39-95 | an error exactly when the create's checks fail (Conflict when a header exists for (school, class, date), then the student checks), leaving both tables unchanged; on success exactly one header (marked by the caller, status MARKED) and one item per submitted mark are appended, and that record is the answer; the table invariants are kept. The answer is the record the read-back is meant to give (see Findings) |
| AttendanceService.Access | src/modules/attendance/attendance.service.ts:106-123 | the inline teacher check yields only BadRequest errors |
| AttendanceService.AccessIff | src/modules/attendance/attendance.service.ts:106-123 | non-teachers pass; a teacher gets "Teacher profile not found" exactly when no profile has its user; otherwise it passes exactly when an assignment of any kind links its first profile to the class in its school |
| AttendanceService.AccessGrantedIff | src/modules/attendance/attendance.service.ts:109-122 | a teacher passes exactly when some assignment has the class, the first profile of the user, and the caller's school; `isClassTeacher` is not required |
| AttendanceService.GetAttendance | src/modules/attendance/attendance.service.ts:97-126 | `null` when (school, class, date) has no header, before any teacher check; otherwise an error exactly when the teacher check fails, and the header found is of that school, class and date, with its line items |
| AttendanceService.CreateThenGet | src/modules/attendance/attendance.service.ts:70-104 | after a successful create, a caller who is not a teacher reading the same class and date back gets the new header with exactly the submitted marks |
| AttendanceService.HeaderIndex | src/modules/attendance/attendance.service.ts:131-134 | the header edited is one with that id in the caller's school, and none is found exactly when no header has both |
| AttendanceService.UpsertOneFacts | src/modules/attendance/attendance.service.ts:168-183 | one upsert keeps the line item key unique, keeps every row's key in place, changes no row of another (header, student) and leaves a row with the new status |
| AttendanceService.UpsertAllFacts | src/modules/attendance/attendance.service.ts:168-183 | the upsert loop keeps the key unique, and rows of other headers or unsubmitted students are untouched; rows it adds are of the submitted students |
| AttendanceService.UpsertOneSets | src/modules/attendance/attendance.service.ts:172-181 | after one upsert the student has the submitted status |
| AttendanceService.UpsertOneKeeps | src/modules/attendance/attendance.service.ts:168-183 | one upsert leaves every other student's status unchanged |
| AttendanceService.UpsertAllStatus | src/modules/attendance/attendance.service.ts:168-183 | after the loop each student has the status of its last submitted mark |
| AttendanceService.RedateKeepsKeys | src/modules/attendance/attendance.service.ts:137-146 | moving a header to a date free for its class, or to its own date, keeps the (school, class, date) key unique |
| AttendanceService.UpsertKeepsItemsValid | src/modules/attendance/attendance.service.ts:168-183 | upserting marks of an existing header keeps the item key unique and every item pointing at a header |
| AttendanceService.UpsertMarks | src/modules/attendance/attendance.service.ts:168-183 | the imperative loop leaves the line items equal to the upsert of all marks in order |
| AttendanceService.Update | src/modules/attendance/attendance.service.ts:128-191 | an error exactly when the update's checks fail (NotFound for an id outside the caller's school, Conflict for a changed date already used by the class, then the student checks), and an error leaves the tables unchanged. On success only the header's date changes (to the new date when one is given), the line items become the upsert of the submitted marks (none when the list is absent or empty), and the answer is the edited header with its new items, as the read-back is meant to give (see Findings); the invariants are kept |
| AttendanceService.SaveUpdate | src/modules/attendance/attendance.service.ts:145-189 | the writes of a checked update: the new date, the upserted marks, and the edited header with its items as the answer, with the invariants kept |
| AttendanceService.ReadBackAsWritten | src/modules/attendance/attendance.service.ts:90-93 | as written, the read-back runs outside the open transaction and sees only committed rows: no record for an id without a header, otherwise that header with its items |
| AttendanceService.CreateReadBackAsWrittenIsNull | src/modules/attendance/attendance.service.ts:90-93 | as written, `create` answers `null`, since its new header is not committed yet |
| AttendanceService.UpdateReadBackAsWrittenIsStale | src/modules/attendance/attendance.service.ts:186-189 | as written, `update` answers the header and items as they were before it, so a new date is not in the answer |
| AttendanceService.UpdateKeepsValid | src/modules/attendance/attendance.service.ts:137-183 | a checked date change followed by the upserts keeps all table invariants |
| AttendanceService.ItemsReferenceRedated | src/modules/attendance/attendance.service.ts:145 | changing a header's date keeps every line item's header reference valid |
| AttendanceService.DateDescTotal | src/modules/attendance/attendance.service.ts:219 | date-descending order is a total preorder, so the sort is well defined |
| AttendanceService.WithItems | src/modules/attendance/attendance.service.ts:214 | each header is joined with exactly its own line items |
| AttendanceService.ClassHistory | src/modules/attendance/attendance.service.ts:199-211 | the class history fails exactly when the teacher check fails |
| AttendanceService.ClassHistoryContents | src/modules/attendance/attendance.service.ts:212-220 | the result is sorted by date descending and has one entry per matching header row; every entry is a header of the school and class within the optional bounds, with its items; and every such header appears |
| AttendanceService.ClassHistorySound | src/modules/attendance/attendance.service.ts:212-220 | sorted by date descending, and only headers of the school and class within the bounds, with their items |
| AttendanceService.ClassHistoryComplete | src/modules/attendance/attendance.service.ts:215-218 | every header of the school and class within the bounds is returned |
| AttendanceService.RowDateDescTotal | src/modules/attendance/attendance.service.ts:255 | the student history's date-descending order is a total preorder |
| AttendanceService.HistoryRows | src/modules/attendance/attendance.service.ts:250-254 | each row is a line item of the student joined with its header, which is in the caller's school |
| AttendanceService.HistoryRowsComplete | src/modules/attendance/attendance.service.ts:250-254 | every line item of the student whose header is in the school appears with that header |
| AttendanceService.StudentHistory | src/modules/attendance/attendance.service.ts:223-257 | NotFound when no student has the id; a successful result holds only line items of the student joined with headers of the school |
| AttendanceService.StudentHistoryErrors | src/modules/attendance/attendance.service.ts:226-248 | a student of another school gives "Student not found in your school"; in the caller's school the history fails exactly when the teacher check on the student's class fails |
| AttendanceService.StudentHistoryContents | src/modules/attendance/attendance.service.ts:250-256 | the student history is sorted by date descending and misses no line item of the student in the school |
| Tokens.BearerToken | src/modules/attendance/guards/update-attendance.guard.ts:33-37 | "Missing token" exactly when the header is absent, empty or lacks the `Bearer ` prefix; otherwise the token has no space |
| Tokens.BearerTokenOf | src/modules/auth/class-teacher.guard.ts:30-33 | the token is the text after `Bearer ` up to the next space, all of it when it has no space |
| Tokens.Catch | src/modules/attendance/guards/update-attendance.guard.ts:89-97 | success passes unchanged, Unauthorized and BadRequest are rethrown as they are, and every other failure becomes "Invalid or expired token" |
| Tokens.TokenSubject | src/modules/attendance/guards/update-attendance.guard.ts:39-41 | verification succeeds exactly when the verifier accepts the token; failure is "Invalid or expired token" |
| UpdateAttendanceGuard.CheckUser | src/modules/attendance/guards/update-attendance.guard.ts:46-88 | whenever the user passes, it is attached to the request |
| UpdateAttendanceGuard.CheckUserAsWritten | src/modules/attendance/guards/update-attendance.guard.ts:42-88 | as written, every teacher is refused, with "User not associated with a school" once the attendance and the profile are found; admins and the other roles fare as intended |
| UpdateAttendanceGuard.CanActivateAsWritten | src/modules/attendance/guards/update-attendance.guard.ts:31-98 | as written, a verified teacher is always refused, and everyone else gets the intended answer |
| UpdateAttendanceGuard.ClassTeacherRefusedAsWritten | src/modules/attendance/guards/update-attendance.guard.ts:42-71 | a teacher the intended guard lets through is refused as written with "User not associated with a school" |
| UpdateAttendanceGuard.CanActivate | src/modules/attendance/guards/update-attendance.guard.ts:31-98 | the guard only ever refuses with Unauthorized or BadRequest |
| Tokens.Authenticated | src/modules/attendance/guards/update-attendance.guard.ts:33-44 | shared with src/modules/auth/class-teacher.guard.ts lines 30-40: a user exactly when the header carries a bearer token that verifies and names an existing user, and then the user is that row |
| UpdateAttendanceGuard.CanActivateIff | src/modules/attendance/guards/update-attendance.guard.ts:43-88 | the guard passes exactly for a known admin, or for a teacher with an attendance id naming an attendance, a profile, a school, and an `isClassTeacher` assignment for that attendance's class, profile and school; whoever passes is attached |
| UpdateAttendanceGuard.CanActivateErrors | src/modules/attendance/guards/update-attendance.guard.ts:43-71 | the refusals in order: "Invalid token", "Not authorized" for other roles, then for a teacher BadRequest for a missing attendance id or an unknown attendance (before the profile is looked up), then Unauthorized for a missing profile or a missing school |
| UpdateAttendanceGuard.OtherSchoolRefused | src/modules/attendance/guards/update-attendance.guard.ts:73-85 | a teacher with no assignment in its own school is refused |
| UpdateAttendanceGuard.AdminPasses | src/modules/attendance/guards/update-attendance.guard.ts:46-50 | a verified admin passes whatever attendance is named, with no attendance lookup |
| UpdateAttendanceGuard.MissingTokenRefused | src/modules/attendance/guards/update-attendance.guard.ts:33-36 | a request without a bearer header is refused with "Missing token" |
| ClassTeacherGuard.RequestedClass | src/modules/auth/class-teacher.guard.ts:47-48 | the body's class id when it is non-empty, else the route's |
| ClassTeacherGuard.CheckUser | src/modules/auth/class-teacher.guard.ts:42-66 | a passing admin has nothing attached; a passing teacher is attached |
| ClassTeacherGuard.CanActivate | src/modules/auth/class-teacher.guard.ts:28-75 | the guard only ever refuses with Unauthorized or BadRequest |
| ClassTeacherGuard.CanActivateIff | src/modules/auth/class-teacher.guard.ts:39-66 | the guard passes exactly for a known admin (nothing attached), or for a teacher with a requested class, a profile and an `isClassTeacher` assignment of that profile to the class in any school (the teacher attached) |
| ClassTeacherGuard.CanActivateErrors | src/modules/auth/class-teacher.guard.ts:31-55 | the refusals in order: "Missing token", "Invalid token", "Not authorized" for other roles, "classId required", "Teacher profile not found" |
| ClassTeacherGuard.BodyClassWins | src/modules/auth/class-teacher.guard.ts:48 | with a class id in the body, the route's class id makes no difference |
| TeacherClassService.Catch | src/modules/teacher/teacher.service.ts:78-82 | NotFound and Forbidden pass unchanged; any other failure becomes "Failed to fetch teacher class" |
| TeacherClassService.GetClassForTeacher | src/modules/teacher/teacher.service.ts:28-83 | Forbidden for no user, then for a non-teacher, then for a missing school; errors are only Forbidden or NotFound; success only for a teacher with a school |
| TeacherClassService.GetClassForTeacherContents | src/modules/teacher/teacher.service.ts:39-77 | "Teacher profile not found" when the teacher has no profile in its school, otherwise "Teacher is not assigned as class teacher" unless a class teacher assignment in the school with an existing class is found; the class comes back as id, name and section, and the students are exactly that class's students in the school, projected |
| TeacherClassService.SummariesOfClass | src/modules/teacher/teacher.service.ts:60-76 | the projected list holds a summary of exactly the students of the class in the school |
| Store.EnsureSchool | src/modules/admin/teachers/teachers.service.ts:35-39 | "Invalid school context" exactly when no school has the id; otherwise that school |
| Store.AddRelation | src/modules/admin/classes/classes.service.ts:106-112 | relation `.add` succeeds exactly when the id is not already related (the junction key), and appends it |
| Store.HeaderIds | src/modules/attendance/entities/attendance-student.entity.ts:23-28 | the set of header ids, so that line items can be checked against it |
| TeachersService.FindOrCreateShape | src/modules/admin/teachers/teachers.service.ts:78-92 | find-or-create yields one id per name and keeps the old subject rows as a prefix; every row it adds is a live subject of the school, without a code, named by a request name |
| TeachersService.ResolveOneAnswers | src/modules/admin/teachers/teachers.service.ts:81-89 | one step answers the next name with a live subject of the school of that name |
| TeachersService.FindOrCreateAnswers | src/modules/admin/teachers/teachers.service.ts:78-92 | the ids answer the names one for one, in request order, each with a live subject of the school of that name |
| TeachersService.FindOrCreateNoDuplicate | src/modules/admin/teachers/teachers.service.ts:81-88 | no added subject has a live same-name subject of the school before it |
| TeachersService.ResolveOneReuses | src/modules/admin/teachers/teachers.service.ts:81-89 | a name with a live subject in the old table reuses that subject and adds no row |
| TeachersService.ResolveOneKeepsReuse | src/modules/admin/teachers/teachers.service.ts:81-89 | one more step keeps every earlier reuse |
| TeachersService.FindOrCreateReuses | src/modules/admin/teachers/teachers.service.ts:78-92 | every name with a live subject in the old table is answered by the first such subject |
| TeachersService.ResolveSubjects | src/modules/admin/teachers/teachers.service.ts:78-92 | the imperative loop leaves the subjects table and the ids equal to find-or-create |
| TeachersService.SchoolClassIdsFacts | src/modules/admin/teachers/teachers.service.ts:69-76 | the classes kept are exactly the requested ids that name a class of the school; foreign and unknown ids are dropped silently |
| TeachersService.ClassTeacherErrorIff | src/modules/admin/teachers/teachers.service.ts:97-114 | the class teacher request passes exactly when the class exists, belongs to the school, and has no null-subject assignment of any teacher |
| TeachersService.Create | src/modules/admin/teachers/teachers.service.ts:41-134 | "Invalid school context", then "Email already in use" for an email of any school, each changing nothing. Otherwise the teacher user and the subjects are saved. A failing class check leaves the profile saved but adds no assignment. On success a class id adds exactly one null-subject assignment and the class to the profile's classes; a class already in the profile's classes violates the junction key |
| TeachersService.SaveNewTeacher | src/modules/admin/teachers/teachers.service.ts:51-131 | the writes of `create` after its checks, per outcome of the class teacher check |
| TeachersService.OwnershipAsWrittenRefusesOwnTeacher | src/modules/admin/teachers/teachers.service.ts:177-183 | as written, the ownership check refuses every existing teacher, even one of the caller's school |
| TeachersService.OwnershipError | src/modules/admin/teachers/teachers.service.ts:177-183 | the intended check: passes exactly when the first profile with the id is of the school; NotFound exactly when no profile has the id; otherwise "Not allowed" |
| TeachersService.Update | src/modules/admin/teachers/teachers.service.ts:175-214 | the school, then ownership, each changing nothing. On success a truthy name is written to the user; a present phone, even an empty one, is written; classes and subjects are replaced wholesale only when given. A profile without a user row fails |
| TeachersService.UpdatedProfileKeeps | src/modules/admin/teachers/teachers.service.ts:185-209 | id, user and school never change; classes, subjects and phone stay when not given; an empty phone is stored |
| TeachersService.ResendInvite | src/modules/admin/teachers/teachers.service.ts:216-226 | "Invalid school context", then the ownership errors; past them, a 500 when the teacher's user row is missing, and otherwise "Invite resent to" followed by that user's email. `resendInvite` of `admin.teachers.service.ts` (lines 175-186) is the same code |
| TeachersService.ResendInviteOkIff | src/modules/admin/teachers/teachers.service.ts:216-226 | the invite is resent exactly when the school exists, the teacher is of the caller's school and its user row exists |
| AdminTeachersService.Create | src/modules/admin/admin.teachers.service.ts:41-85 | "Invalid school context", then "Email already in use", each changing nothing; otherwise a teacher user of the school, subjects created only for names without a live same-name subject, and a profile that keeps the phone only when it is non-empty and relates no classes and no subjects |
| AdminTeachersService.FindAll | src/modules/admin/admin.teachers.service.ts:87-128 | fails exactly for an unknown school; page and limit default to 1 and 20; the total counts the selected teachers; the page holds at most `limit` teachers of the table, each of the school and matching every given filter |
| AdminTeachersService.FindAllFirstPage | src/modules/admin/admin.teachers.service.ts:98-105 | with no query, the first 20 of the school's teachers come back, whatever other schools the table holds, and the total is their number |
| AdminTeachersService.FindAllAsWritten | src/modules/admin/admin.teachers.service.ts:113-124 | as written, a class or subject filter fails with a 500, because PostgreSQL folds the unquoted camelCase columns of alias `a` to lower case; without them it is `FindAll` |
| AdminTeachersService.FilteredFindAllAsWrittenFails | src/modules/admin/admin.teachers.service.ts:113-124 | for a known school, a class or subject filter fails as written where `FindAll` gives a page |
| AdminTeachersService.ReplaceClassAssignmentsFacts | src/modules/admin/admin.teachers.service.ts:143-157 | afterwards the teacher's null-subject assignments are exactly one per class found, in order, and every other row is as it was, in the same order |
| AdminTeachersService.ReplaceClassAssignmentsIdempotent | src/modules/admin/admin.teachers.service.ts:143-157 | replacing twice with the same classes is replacing once |
| AdminTeachersService.Update | src/modules/admin/admin.teachers.service.ts:130-173 | the school, then ownership, each changing nothing. Otherwise the teacher's null-subject assignments are replaced when classes are given, and missing subjects are created. A truthy name goes to the user, and a present phone, even an empty one, to the profile. A missing user row fails |
| AdminTeachersService.SaveUpdate | src/modules/admin/admin.teachers.service.ts:140-172 | the writes of a checked update |
| ClassesService.Create | src/modules/admin/classes/classes.service.ts:32-57 | "Invalid school context", then a duplicate of the school with the same name and section (an omitted section meaning a null one), each changing nothing; otherwise exactly one class of the school is appended and returned |
| ClassesService.CreateKeepsKeysUnique | src/modules/admin/classes/classes.service.ts:35-55 | when the duplicate check passes, the school's (name, section) pairs stay unique |
| ClassesService.OtherSchoolNoConflict | src/modules/admin/classes/classes.service.ts:38 | a class of another school with the same name and section is no duplicate |
| ClassesService.List | src/modules/admin/classes/classes.service.ts:59-70 | fails exactly for an unknown school; returns exactly the school's classes that pass the name-contains and exact-section filters |
| ClassesService.ListFilters | src/modules/admin/classes/classes.service.ts:61-67 | with no filters, all the school's classes in table order; with a section, only classes of that section |
| ClassesService.ClassOwnership | src/modules/admin/classes/classes.service.ts:74-80 | passes exactly when the first class with the id is of the school; NotFound exactly when no class has the id |
| ClassesService.Update | src/modules/admin/classes/classes.service.ts:72-85 | the school, then ownership, each changing nothing; otherwise only a given name and a given section overwrite, in place |
| ClassesService.UpdateCanDuplicate | src/modules/admin/classes/classes.service.ts:81-83 | an update that passes every check can give two classes of a school the same name and section |
| ClassesService.TeacherOwnership | src/modules/admin/classes/classes.service.ts:97-103 | passes exactly when the first profile with the id is of the school |
| ClassesService.AssignChecksClassFirst | src/modules/admin/classes/classes.service.ts:89-103 | a class of another school is refused whoever the teacher is |
| ClassesService.AssignTeacher | src/modules/admin/classes/classes.service.ts:87-115 | the class checks, then the teacher checks, each changing nothing; on success the class is added to the teacher's classes, and a class already there violates the junction key |
| SubjectsService.SchoolContext | src/modules/admin/subjects/subjects.service.ts:26-34 | "Missing school context" for an empty id, "Invalid school context" for an unknown school, otherwise no error |
| SubjectsService.Create | src/modules/admin/subjects/subjects.service.ts:32-50 | the school context, then a live same-name subject of the school, each changing nothing; a code already taken in the school fails on the unique index; it succeeds exactly when none of these apply, and then exactly the new live subject is appended and returned |
| SubjectsService.DeletedNameReusable | src/modules/admin/subjects/subjects.service.ts:36-43 | a name whose subjects are all soft-deleted passes the duplicate check |
| SubjectsService.NameAscTotal | src/modules/admin/subjects/subjects.service.ts:64 | name order is a total preorder |
| SubjectsService.List | src/modules/admin/subjects/subjects.service.ts:52-66 | fails exactly on the school context; the result is a permutation of the school's live subjects that match the search |
| SubjectsService.ListContents | src/modules/admin/subjects/subjects.service.ts:56-64 | sorted by name; holds only, and every one of, the school's live subjects matching the search |
| SubjectsService.SubjectError | src/modules/admin/subjects/subjects.service.ts:69-79 | passes exactly with the school context and a live subject of the school with the id; NotFound when every row with the id is soft-deleted |
| SubjectsService.Update | src/modules/admin/subjects/subjects.service.ts:68-85 | the validations, each changing nothing; otherwise only a given name and a given code overwrite, in place; a code taken by another subject of the school violates the unique index |
| SubjectsService.Remove | src/modules/admin/subjects/subjects.service.ts:87-112 | the validations, then refusal while any teacher holds the subject, each changing nothing; otherwise the row stays with `deletedAt` set |
| SubjectsService.RemovedIsInvisible | src/modules/admin/subjects/subjects.service.ts:76-111 | after removal the row is still there, `update` and `remove` report NotFound, and `list` never shows it |
| StudentsService.Create | src/modules/admin/students/students.service.ts:31-50 | "Invalid school context", then "Invalid class for this school" when no class of the school has the given uuid, each changing nothing; otherwise exactly one student with the id of the class found and the school is appended; every student stays in a class of its school |
| StudentsService.SchoolClassFound | src/modules/admin/students/students.service.ts:35-45 | the class a lookup finds is found again by its own id, so a student saved with it stays in a class of its school |
| StudentsService.SchoolClassSpellings | src/modules/admin/students/students.service.ts:35-37 | two spellings of one uuid find the same class of the school |
| StudentsService.List | src/modules/admin/students/students.service.ts:52-79 | fails exactly for an unknown school; page and limit default to 1 and 20; the total counts the selected students; the page holds at most `limit` students of the school matching the search and class filters |
| StudentsService.ListReachesEveryStudent | src/modules/admin/students/students.service.ts:62-77 | the j-th selected student is at position `j % limit` of page `j / limit + 1` |
| StudentsService.OwnershipAsWrittenRefusesOwnStudent | src/modules/admin/students/students.service.ts:83-89 | as written, the ownership check refuses every existing student, even one of the caller's school |
| StudentsService.OwnershipError | src/modules/admin/students/students.service.ts:83-89 | the intended check: passes exactly when the first student with the id is of the school; NotFound exactly when none has the id; otherwise "Not allowed" |
| StudentsService.UpdatedStudentKeeps | src/modules/admin/students/students.service.ts:91-102 | id and school never change; an empty update changes nothing; applying an update twice is applying it once |
| StudentsService.ClassError | src/modules/admin/students/students.service.ts:91-95 | a given class id that is no uuid is a 500 (the update body is not validated); a uuid must name a class of the school, else "Invalid class for this school"; no class id, or one naming a class of the school, passes |
| StudentsService.Update | src/modules/admin/students/students.service.ts:81-106 | the school, then ownership, then the class error, each changing nothing; otherwise only the provided fields change, in place, the class becoming the one found; every student stays in a class of its school |
| StudentsService.SaveStudent | src/modules/admin/students/students.service.ts:96-105 | the found class and each given field are written to the student at its position, nothing else changes, and the answer is its id and new name; every student stays in a class of its school |
| StudentsService.ReplaceKeepsInSchoolClasses | src/modules/admin/students/students.service.ts:96-104 | a student kept in its class, or moved to a class of its school, keeps every student in a class of its school |
| StudentsService.SplitLines | src/modules/admin/students/students.service.ts:112 | `split(/\r?\n/)` gives as many pieces as there are line feeds plus one |
| StudentsService.TrimDropCR | src/modules/admin/students/students.service.ts:112-113 | a carriage return before the line feed makes no difference once the line is trimmed |
| StudentsService.TrimLines | src/modules/admin/students/students.service.ts:113-114 | the kept lines are non-blank, and no more than the pieces |
| StudentsService.LinesIgnoreCR | src/modules/admin/students/students.service.ts:111-114 | the file's lines are the trimmed non-blank pieces of a plain split at line feeds |
| StudentsService.ColumnOf | src/modules/admin/students/students.service.ts:118-121 | `indexOf`: absent exactly when no cell has the name, else the first cell with it |
| StudentsService.ColumnsOf | src/modules/admin/students/students.service.ts:117-125 | refused exactly when `name` or `classid` is missing; otherwise each column is the first header cell with its name |
| StudentsService.RollNoCell | src/modules/admin/students/students.service.ts:156-158 | an empty roll number becomes none, and so does an absent column |
| StudentsService.PhotoCell | src/modules/admin/students/students.service.ts:136-137 | an absent photourl column gives no photo |
| StudentsService.ParseRow | src/modules/admin/students/students.service.ts:131-163 | one error at most, tagged with the row number, in the order missing name, missing classId, no class of the school with that uuid (in any spelling); a named row whose class cell is no uuid makes the lookup raise instead; otherwise the student queued has the row's name, roll number and photo, the school, and the class found |
| StudentsService.OutcomesAt | src/modules/admin/students/students.service.ts:130-132 | data line j of the file is parsed as report row j + 2, and its student would get the id generated for line j + 1 |
| StudentsService.ParseLine | src/modules/admin/students/students.service.ts:131-163 | the loop body for one line, with its early `continue`s and the raising lookup, gives exactly the row-by-row outcome `ParseRow` specifies |
| StudentsService.FoldAccounting | src/modules/admin/students/students.service.ts:130-164 | over any outcomes that carry their row numbers, the loop raises with a 500 exactly when one of the first n outcomes is a raised lookup, and otherwise queue plus errors is n, the error rows increase from 2, and the queued students are named and in classes of the school |
| StudentsService.StepAccounts | src/modules/admin/students/students.service.ts:139-163 | each data line adds exactly one entry, to the queue or to the errors, unless its lookup raises, which is a 500 |
| StudentsService.ParseAccounting | src/modules/admin/students/students.service.ts:130-164 | the first n lines fail with a 500 exactly when one of them has a named row whose class cell is no uuid; otherwise queue plus errors is n, error rows are increasing between 2 and n + 1, and every queued student is named and in a class of the school |
| StudentsService.ParseErrPersists | src/modules/admin/students/students.service.ts:148-150 | once the lookup has raised, the later lines change nothing: the loop is over |
| StudentsService.AccountedStep | src/modules/admin/students/students.service.ts:130-164 | one more line keeps that accounting |
| StudentsService.RowsOfAt | src/modules/admin/students/students.service.ts:131 | each data line's cells are its comma-split, trimmed pieces |
| StudentsService.Prepare | src/modules/admin/students/students.service.ts:109-125 | "Invalid school context", then "Empty file" when no non-blank line remains, then the header's required columns |
| StudentsService.ParseRows | src/modules/admin/students/students.service.ts:127-164 | the imperative loop fills the queue and the errors as the row-by-row definition does, and stops with a 500 where that definition does |
| StudentsService.ImportAccounts | src/modules/admin/students/students.service.ts:130-177 | a prepared file fails with a 500 exactly when one of its data lines has a named row whose class cell is no uuid; otherwise every data line either errors or is queued, error rows are ordered, and every queued student sits in a class of its school |
| StudentsService.ImportAgrees | src/modules/admin/students/students.service.ts:166-177 | a failed import inserts nothing; a file past the validations fails with a 500 exactly when a data line's class cell is no uuid; otherwise total is the number of data lines, total = success + failed, success is the number inserted and failed the number of errors |
| StudentsService.SavePrepared | src/modules/admin/students/students.service.ts:127-177 | the rows are parsed; a raised lookup is a 500 that saves nothing; otherwise the queued students are appended and the report returned |
| StudentsService.ImportCsv | src/modules/admin/students/students.service.ts:108-178 | `importCsvBuffer`: the outcome is the import's report or its error, including the 500 of a class cell that is no uuid, and exactly the queued students of a successful import are appended |
| AnnouncementsService.ParseAudience | src/modules/admin/announcements/announcements.service.ts:20-27 | "all" exactly for no audience, an empty one or "all"; refused exactly when neither that nor a "class:" prefix ("Invalid audience value"); a class audience is the second ':'-separated field |
| AnnouncementsService.ParseAudienceText | src/modules/admin/announcements/announcements.service.ts:20-27 | writing an audience and parsing it back gives it back, for a class id without ':' |
| AnnouncementsService.ParseAudienceIgnoresLaterFields | src/modules/admin/announcements/announcements.service.ts:23 | "class:a:b" names class "a" |
| AnnouncementsService.Target | src/modules/admin/announcements/announcements.service.ts:36-47 | no target for "all"; a 500 for an id that is no uuid; "Target class not found" when no class has that uuid in any spelling; the only errors are those and "Class does not belong to your school"; the target is the id of a class of the caller's school that the given uuid denotes |
| AnnouncementsService.TargetIff | src/modules/admin/announcements/announcements.service.ts:39-46 | with unique class ids, a class audience is accepted exactly when its id is a uuid denoting a class of the caller's school |
| AnnouncementsService.TargetSpellings | src/modules/admin/announcements/announcements.service.ts:39-46 | two spellings of one uuid give the same target, or the same error |
| AnnouncementsService.Create | src/modules/admin/announcements/announcements.service.ts:29-62 | "Missing school context", the audience error, then the 500 of an id that is no uuid and the class errors, each changing nothing; otherwise exactly one announcement with the title, message, attachments, school, creator and target is appended and returned |
| AnnouncementsService.CreatedTargetsOwnSchool | src/modules/admin/announcements/announcements.service.ts:34-52 | a created announcement has no target exactly for a school-wide audience, and otherwise targets a class of its own school |
| AnnouncementsService.NewerTotal | src/modules/admin/announcements/announcements.service.ts:83 | newest-first order is a total preorder |
| AnnouncementsService.Ordered | src/modules/admin/announcements/announcements.service.ts:68-83 | the ordered rows are a permutation of the selected ones |
| AnnouncementsService.List | src/modules/admin/announcements/announcements.service.ts:64-88 | "Missing school context" exactly for an empty school id; page and limit default to 1 and 20; the total counts the selected announcements; at most `limit` come back |
| AnnouncementsService.ListContents | src/modules/admin/announcements/announcements.service.ts:68-86 | every announcement listed is of the table and meets every condition, and the page is newest first |
| AnnouncementsService.ListReachesEveryAnnouncement | src/modules/admin/announcements/announcements.service.ts:83-87 | each of the `total` selected announcements is on its page: the j-th newest is item `j % limit` of page `j / limit + 1` |
| AnnouncementsService.ListAllIsSchoolWide | src/modules/admin/announcements/announcements.service.ts:72 | audience "all" lists only announcements without a target class |
| AnnouncementsService.ClassAudienceIsNoFilter | src/modules/admin/announcements/announcements.service.ts:71-77 | any audience other than "all" selects the same as no audience, because "class" only repeats the class id filter |
| SettingsService.SchoolFor | src/modules/admin/settings/settings.service.ts:17-19 | "Missing school context" for an empty id, "School not found" when no school has it, otherwise that school |
| SettingsService.GetSettings | src/modules/admin/settings/settings.service.ts:16-36 | the school's checks; each of academic year, timezone and notification preferences is the school's, or else the current year, "UTC" and email on, sms off; the logo is the school's |
| SettingsService.Applied | src/modules/admin/settings/settings.service.ts:43-47 | each field given, null included, overwrites, and the others stay; `schoolLogoUrl` goes to `logoUrl`; id and name never change |
| SettingsService.UpdateSettings | src/modules/admin/settings/settings.service.ts:38-57 | the school's checks, changing nothing; otherwise only that school's row is replaced by the applied update, and its fields come back |
| SettingsService.AppliedIdempotent | src/modules/admin/settings/settings.service.ts:43-49 | applying the same update twice gives the school of applying it once |
| SettingsService.AppliedNothing | src/modules/admin/settings/settings.service.ts:43-47 | an update with no field changes nothing |
| SettingsService.AppliedTwice | src/modules/admin/settings/settings.service.ts:43-47 | two updates in a row are one update where the later one's given fields win |
| SettingsService.SettingsAfterUpdate | src/modules/admin/settings/settings.service.ts:22-47 | after an update, `getSettings` shows each value given (timezone, academic year, notification preferences, logo), a field cleared to null falls back to its default, and the logo is the saved one |
| SettingsService.IndexOfUpdate | src/modules/admin/settings/settings.service.ts:40-49 | replacing the school row by one with the same id keeps it the row found |
| Seqs.First | src/modules/admin/students/students.service.ts:26 | `findOne`: a row of the table meeting the condition, absent exactly when no row does |
| Seqs.FirstSame | src/modules/admin/students/students.service.ts:26 | conditions that agree on every row find the same row |
| Seqs.Filter | src/modules/admin/classes/classes.service.ts:61-68 | `getMany`: only rows of the table meeting the condition, and all of them |
| Seqs.Page | src/modules/admin/students/students.service.ts:62-77 | `skip((page - 1) * limit).take(limit)`: at most `limit` rows, consecutive from position `(page - 1) * limit` |
| Seqs.PageCovers | src/modules/admin/students/students.service.ts:62-77 | every selected row appears on page `j / limit + 1` at position `j % limit` |
| Seqs.PagesAdjacent | src/modules/admin/students/students.service.ts:62-77 | a full page follows the pages before it without gap or overlap |
| Seqs.SortBy | src/modules/attendance/attendance.service.ts:219 | `orderBy`: a permutation of its input |
| Seqs.SortBySorted | src/modules/admin/subjects/subjects.service.ts:64 | the sort's result is ordered when the order is a total preorder |
| Text.Split | src/modules/attendance/guards/update-attendance.guard.ts:37 | `split` with a one-character separator: at least one piece, none containing the separator |
| Text.SplitJoin | src/modules/admin/students/students.service.ts:131 | splitting joined pieces gives the pieces back |
| Text.Trim | src/modules/admin/students/students.service.ts:113 | `trim`: a slice of the string with only whitespace cut away around it, and no whitespace at either end |
| Text.UuidLength | src/modules/admin/announcements/announcements.service.ts:39-42 | text PostgreSQL takes as a uuid has at least 32 characters, so an empty id, "10A" or "abc" is refused |
| Text.BracedSameUuid | src/modules/admin/announcements/announcements.service.ts:39-42 | a uuid in braces is a valid spelling of the same uuid |
| Text.CaseSameUuid | src/modules/admin/announcements/announcements.service.ts:39-42 | a spelling that differs from a uuid only in the case of its letters denotes the same uuid |
| Text.TrimEmptyIff | src/modules/admin/students/students.service.ts:113-114 | a line is dropped as blank exactly when it is all whitespace |
| Text.TrimIdempotent | src/modules/admin/students/students.service.ts:131-134 | trimming twice is trimming once |
| Text.Lower | src/modules/admin/students/students.service.ts:117 | `toLowerCase`, character by character |
| Text.ILikeEmpty | src/modules/admin/classes/classes.service.ts:65 | `ILIKE '%%'` matches every value |
| Text.LexLeTotal | src/modules/attendance/attendance.service.ts:217-219 | string order is total, so date bounds and date order are well defined |
| Text.LexLeTransitive | src/modules/attendance/attendance.service.ts:217-219 | string order is transitive |

## Left out

- Token signing and verification, and password hashing. `jwtService.verify` is a function parameter from token to subject. The random password and the `bcrypt` hash of teacher creation are not modelled.
- Framework wiring: controllers, Nest modules, DTO validation decorators, Swagger metadata.
- Request shapes are taken as the DTO validation leaves them. A missing field is `None`, and so is a JSON `null`, except in the settings update, where `Patch` tells left out apart from `null`.
- `importExcelBuffer`: `xlsx` decoding is a foreign library.
- The CSV import is the source's naive comma split, with no quoting.
- Buffer decoding: the file text is taken as already decoded from UTF-8.
- `Text.Lower` lowercases ASCII letters only. `Text.IsWhitespace` lists the characters `trim` removes under current Unicode: tab, vertical tab, form feed, the line terminators LF, CR, U+2028 and U+2029, the space separators and the byte order mark; space separators added by later Unicode versions are not in it.
- `ILIKE` is a case-insensitive substring test. User-supplied `%` and `_` wildcards are not interpreted.
- Dates are the `YYYY-MM-DD` strings the DTOs require, compared as strings. Their column collation is taken as plain code-point order.
- SubjectsService.List and SubjectsService.ListContents: subject names are sorted in code-point order (`Text.LexLe`). `orderBy('s.name', 'ASC')` sorts by the database collation instead, and under a typical en_US collation "apple" comes before "Banana", where the model puts it after. The model promises the code-point order, not the database's.
- `DATE(a.createdAt)` is a function parameter `dayOf`.
- Announcements with equal `createdAt` keep table order. The sort is stable; the database's order of ties is not known.
- Wall-clock values are parameters: `new Date()` for `deletedAt` and `createdAt`, and `getFullYear()` for the default academic year.
- Generated ids (uuids) are parameters. The attendance create requires its header id to be fresh, as the generator guarantees; the import takes a function from line number to id and asks nothing of it.
- Ids from the client are compared with uuid columns. PostgreSQL raises on text that is not a uuid (`Text.IsUuid` follows its input syntax), and it compares uuids by value, so an upper-case, braced or unhyphenated spelling finds the same row (`Text.SameUuid`). The class lookups of students (`StudentsService.SchoolClass`: create, update and the CSV import) and of announcement audiences (`AnnouncementsService.ClassById`) compare by value. They raise, as a 500, on the three ids that are free text: the class cell of a CSV row, the id of a "class:" audience, and the `classId` of a student update, whose body (`Partial<CreateStudentDto>`) the validation pipe cannot check. Every other id is compared as text: the model takes it to be a uuid in the lower-case hyphenated spelling the database stores. This covers ids in DTO fields validated as uuids (which `IsUUID` accepts in upper case as well), route ids (`@Param('id')`), and the query-string `classId` filters of the student, teacher and announcement lists. Likewise a `date` filter is taken to be a date PostgreSQL can read.
- Concurrency and isolation: two requests racing past the same uniqueness check are not modelled. A transaction is modelled only as atomic.
- Database failures (connection errors and the like) are left out. So is every error path they would take, such as `getClassForTeacher`'s mapping of them to "Failed to fetch teacher class".
- A unique-key or junction-key violation is `InternalError`, with the transaction's earlier writes rolled back. This covers relation `.add` of a class already related, and a subject code taken in the school. Writes saved before the failing statement outside a transaction stay.
- `c.id IN (:...ids)` with an empty id list: the SQL error the database may raise is not modelled; the result is empty.
- Paging requires a page and a limit of at least 1. The announcement query DTO demands this; the student and admin-teacher lists have no query DTO, and their controllers pass `Number(page) || 1` and `Number(limit) || 20`, which turn 0 and non-numbers into the defaults but let a negative value through. Non-positive values are not modelled (`ValidPaging`).
- TeachersService.Update: `teachers/dto/update-teacher.dto.ts` declares no `assignClassIds`, so the whitelisting validation pipe (main.ts:26) strips it, and the class branch cannot be reached through the controller. The model keeps the service's branch. The same DTO requires `subjects` to be uuids, yet the service looks them up, and creates them, by name; the model takes the strings as names, as the service does.
- AdminTeachersService.FindAll: the total and the items are specified, but not as a page of a particular order, because the query has no `orderBy` and the database's row order is unspecified.
- StudentsService.ListReachesEveryStudent: the students query has no `orderBy`. The model pages the selection in table order, so the lemma assumes the database returns rows in one stable order across requests.
- `findAll` of `teachers/teachers.service.ts` is not modelled. It is the `admin.teachers.service.ts` query with three joins, and its row duplication by the joins is database behaviour. `AdminTeachersService.FindAll` models the query-builder filter form.
- Email and invite stubs, logging, and the dashboard counts of `admin.service.ts`.
- The records follow the fields the services read and write, not the entity files where the two disagree:
  - `schoolId` on `User`: the entity maps that column only through its `school` relation (user.entity.ts:42-47), so a user loaded by `findOne` without relations has no `schoolId`. The attendance-update guard loads its user that way; what follows for it is under "## Findings". `getClassForTeacher` and the attendance service get their user from guards that are not part of this model (`TeacherAuthGuard`, `AttachUserGuard`); the model gives that user its school;
  - `isClassTeacher` on assignments, which the guards read and the assignment entity lacks;
  - `classes` on `TeacherProfile`: `teachers/teachers.service.ts` imports the profile entity of `admin/entities/teacher-profile.entity.ts`, which has no `classes` relation (only the one under `admin/teachers/entities/` has it). The model follows the service, which relies on that relation in `create` (`.relation(TeacherProfile, 'classes')`, teachers.service.ts:125-129) and in `update` (`relations: ['user', 'classes', 'subjects']`, teachers.service.ts:177-180). Under the imported entity TypeORM would reject both, and those calls would fail with a 500;
  - `classId`, `markedBy` and `status` on attendance headers (the attendance entity is stale);
  - `schoolId` and `attachments` on announcements.
  Assignment rows inserted by the two teacher services carry no school and a false `isClassTeacher`, because the source sets neither. The assignment entity declares `schoolId` NOT NULL (class-teacher-assignment.entity.ts:41-46); the model ignores that constraint and lets these inserts succeed. Under that schema, teacher `create` (teachers.service.ts:118-123) and admin teacher `update` (admin.teachers.service.ts:152-155) would fail there with a 500.
- TeachersService.SaveNewTeacher and AdminTeachersService.SaveUpdate: both succeed where the NOT NULL `schoolId` of the assignment entity would refuse their assignment inserts, as the line above says.
- School settings: `notificationPreferences` is a JSON object (`Record<string, unknown>` in the DTOs); the model keeps it as a map from names to booleans, the shape of the defaults `{ email: true, sms: false }`. Other JSON values are not modelled.
- TypeORM excludes soft-deleted subjects from `findOne`. The teacher services' raw subject queries see only live subjects, as the model has them. The assignment subject join of `AdminTeachersService.FindAll` does not skip soft-deleted subjects.
- Settings, Announcements: `getSettings` returns `schoolLogoUrl ?? undefined`; the model returns the logo as an `Option`, with no distinction between the two.

## Findings

| source | as written | input that shows it | evidently intended | confidence | as-written member | corrected member |
|---|---|---|---|---|---|---|
| src/modules/admin/teachers/teachers.service.ts:177-183 (also lines 218-224, and src/modules/admin/admin.teachers.service.ts:132-138 and 177-183) | the ownership check reads `teacher.school?.id`, but the profile is loaded with relations `user` (and `classes`, `subjects`), never `school`; the relation is not eager, so `teacher.school` is undefined and the validation fails for every teacher | any existing teacher id of the caller's own school; `update` and `resendInvite` answer "Not allowed" (under the profile entity that `teachers/teachers.service.ts` imports, its `update` fails even earlier, with a 500, since that entity has no `classes` relation for the `findOne` to load) | compare the profile's school with the caller's school (load the `school` relation, or compare the `schoolId` column) | medium; not executed | TeachersService.OwnershipErrorAsWritten (TeachersService.OwnershipAsWrittenRefusesOwnTeacher) | TeachersService.OwnershipError |
| src/modules/admin/students/students.service.ts:83-89 | `update` loads the student with relation `currentClass` only and compares `student.school?.id`, which is then undefined | any existing student id of the caller's own school; `update` answers "Not allowed" | compare the student's school with the caller's | medium; not executed | StudentsService.OwnershipErrorAsWritten (StudentsService.OwnershipAsWrittenRefusesOwnStudent) | StudentsService.OwnershipError |
| src/modules/attendance/attendance.service.ts:90-93 (also lines 186-189) | the record is read back with `this.attendanceRepo.findOne`, not with the transaction's `manager`; that read runs on another connection before the transaction commits, and under PostgreSQL's default READ COMMITTED isolation it does not see the transaction's writes | any valid `create`: the answer is `null`; an `update` to a new date: the answer carries the old date and the old items | read back through `manager`, so the answer is the record just written | medium; not executed | AttendanceService.ReadBackAsWritten (AttendanceService.CreateReadBackAsWrittenIsNull, AttendanceService.UpdateReadBackAsWrittenIsStale) | AttendanceService.Create |
| src/modules/admin/admin.teachers.service.ts:113-124 | the `classId` and `subject` filters are raw SQL over the alias `a`, which TypeORM does not rewrite; PostgreSQL folds the unquoted `a.teacherId`, `a.classId` and `a.subjectId` to lower case, and the camelCase columns of `class_teacher_assignments` (class-teacher-assignment.entity.ts:24-39) have no such names | any `classId` or `subject` query parameter on a known school: the query fails and the answer is a 500 | quote the column names (`a."teacherId"`), so the filters select the teachers with such an assignment | medium; not executed | AdminTeachersService.FindAllAsWritten (AdminTeachersService.FilteredFindAllAsWrittenFails) | AdminTeachersService.FindAll |
| src/modules/attendance/guards/update-attendance.guard.ts:42 and 70-79 | the guard loads the user with `findOne({ where: { id: payload.sub } })` and then reads `user.schoolId`, but the `User` entity has no `schoolId` property, only the `school` relation joined on that column (src/modules/users/entities/user.entity.ts:42-47), which is not loaded; `user.schoolId` is undefined | any teacher with a profile who is class teacher of the attendance's class: the guard answers "User not associated with a school", so no teacher can update attendance | read the school through the relation (load `school`, or declare a `schoolId` column on `User`), so a class teacher passes | medium; not executed | UpdateAttendanceGuard.CanActivateAsWritten (UpdateAttendanceGuard.ClassTeacherRefusedAsWritten) | UpdateAttendanceGuard.CanActivate |
