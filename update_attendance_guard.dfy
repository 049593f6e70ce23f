/** The guard in front of attendance updates: admins pass; a teacher passes
    only as the class teacher of the attendance's class in the teacher's own
    school. */
module UpdateAttendanceGuard {
  import opened Common
  import opened Entities
  import opened Seqs
  import opened Tokens

  /** The tables the guard reads. */
  datatype Tables = Tables(
    users: seq<User>,
    teachers: seq<TeacherProfile>,
    assignments: seq<Assignment>,
    headers: seq<Header>)

  /** A class teacher assignment of the teacher for the class in the school. */
  predicate IsClassTeacherRow(a: Assignment, classId: Id, teacherId: Id, schoolId: Id) {
    a.classId == classId && a.teacherId == Some(teacherId) && a.schoolId == Some(schoolId) && a.isClassTeacher
  }

  /** The validations after the user is loaded: role, the attendance, the teacher
      profile, the user's school and the class teacher assignment. */
  function CheckUser(t: Tables, user: User, attendanceId: Option<string>): (r: Result<Decision>)
    ensures r.Ok? ==> r.value == Allow(Some(user))
  {
    if user.role == Admin then Ok(Allow(Some(user)))
    else if user.role != Teacher then Err(Unauthorized("Not authorized"))
    else if !Truthy(attendanceId) then Err(BadRequest("attendanceId required"))
    else
      var header := First(t.headers, (h: Header) => h.id == attendanceId.value);
      if header.None? then Err(BadRequest("Attendance not found"))
      else
        var profile := First(t.teachers, (p: TeacherProfile) => p.userId == user.id);
        if profile.None? then Err(Unauthorized("Teacher profile not found"))
        else if !Truthy(user.schoolId) then Err(Unauthorized("User not associated with a school"))
        else if !Exists(t.assignments, (a: Assignment) =>
          IsClassTeacherRow(a, header.value.classId, profile.value.id, user.schoolId.value))
        then Err(Unauthorized("Teacher is not the class teacher for this class"))
        else Ok(Allow(Some(user)))
  }

  /** The validations as written. The user is loaded without relations, and the
      `User` entity maps its `schoolId` column only through the `school`
      relation, so `user.schoolId` is undefined and no teacher gets past the
      school check; admins and the other refusals are as intended. */
  function CheckUserAsWritten(t: Tables, user: User, attendanceId: Option<string>): (r: Result<Decision>)
    ensures user.role == Teacher ==> r.Err?
    ensures user.role != Teacher ==> r == CheckUser(t, user, attendanceId)
    ensures user.role == Teacher && Truthy(attendanceId) && AttendanceOf(t, attendanceId.value).Some?
            && ProfileOf(t, user.id).Some? ==>
      r == Err(Unauthorized("User not associated with a school"))
  {
    if user.role == Admin then Ok(Allow(Some(user)))
    else CheckUser(t, user.(schoolId := None), attendanceId)
  }

  /** `canActivate` as written, with the user as `findOne` loads it. */
  function CanActivateAsWritten(t: Tables, verify: Verifier, auth: Option<string>, attendanceId: Option<string>): (r: Result<Decision>)
    ensures Authenticated(t.users, verify, auth).Some? && Authenticated(t.users, verify, auth).value.role == Teacher ==> r.Err?
    ensures Authenticated(t.users, verify, auth).Some? && Authenticated(t.users, verify, auth).value.role != Teacher ==>
      r == CanActivate(t, verify, auth, attendanceId)
  {
    var token :- BearerToken(auth);
    Catch(
      var sub :- TokenSubject(verify, token);
      var user := First(t.users, (u: User) => u.id == sub);
      if user.None? then Err(Unauthorized("Invalid token"))
      else CheckUserAsWritten(t, user.value, attendanceId))
  }

  /** As written, a class teacher of the attendance's class, in the school,
      with a profile, is refused, where the intended guard lets them pass. */
  lemma ClassTeacherRefusedAsWritten(t: Tables, verify: Verifier, auth: Option<string>, attendanceId: Option<string>)
    requires Authenticated(t.users, verify, auth).Some?
    requires CanActivate(t, verify, auth, attendanceId).Ok?
    requires Authenticated(t.users, verify, auth).value.role == Teacher
    ensures CanActivateAsWritten(t, verify, auth, attendanceId) == Err(Unauthorized("User not associated with a school"))
  {
    CanActivateIff(t, verify, auth, attendanceId);
  }

  /** `canActivate`. */
  function CanActivate(t: Tables, verify: Verifier, auth: Option<string>, attendanceId: Option<string>): (r: Result<Decision>)
    ensures r.Err? ==> r.error.Unauthorized? || r.error.BadRequest?
  {
    var token :- BearerToken(auth);
    Catch(
      var sub :- TokenSubject(verify, token);
      var user := First(t.users, (u: User) => u.id == sub);
      if user.None? then Err(Unauthorized("Invalid token"))
      else CheckUser(t, user.value, attendanceId))
  }

  /** The attendance named by the route, looked up by id alone. */
  function AttendanceOf(t: Tables, attendanceId: string): Option<Header> {
    First(t.headers, (h: Header) => h.id == attendanceId)
  }

  /** The user's teacher profile. */
  function ProfileOf(t: Tables, userId: Id): Option<TeacherProfile> {
    First(t.teachers, (p: TeacherProfile) => p.userId == userId)
  }

  /** Exactly who passes: a known admin, or a teacher with a school and a
      profile who is class teacher, in that school, of the class of the
      attendance the route names. Whoever passes is attached to the request. */
  lemma CanActivateIff(t: Tables, verify: Verifier, auth: Option<string>, attendanceId: Option<string>)
    ensures CanActivate(t, verify, auth, attendanceId).Ok? ==>
      CanActivate(t, verify, auth, attendanceId).value.attached == Authenticated(t.users, verify, auth)
    ensures CanActivate(t, verify, auth, attendanceId).Ok? <==>
      var user := Authenticated(t.users, verify, auth);
      && user.Some?
      && (|| user.value.role == Admin
          || (&& user.value.role == Teacher
              && Truthy(attendanceId)
              && Truthy(user.value.schoolId)
              && AttendanceOf(t, attendanceId.value).Some?
              && ProfileOf(t, user.value.id).Some?
              && exists a :: 0 <= a < |t.assignments| &&
                   IsClassTeacherRow(t.assignments[a], AttendanceOf(t, attendanceId.value).value.classId,
                     ProfileOf(t, user.value.id).value.id, user.value.schoolId.value)))
  {
  }

  /** The refusals in the order the guard checks them: an unknown subject, a
      role other than admin or teacher, then for a teacher the attendance
      (BadRequest, before the profile is looked up), the profile and the
      user's school (Unauthorized). */
  lemma CanActivateErrors(t: Tables, verify: Verifier, auth: Option<string>, attendanceId: Option<string>)
    requires BearerToken(auth).Ok? && verify(BearerToken(auth).value).Some?
    ensures Authenticated(t.users, verify, auth).None? ==>
      CanActivate(t, verify, auth, attendanceId) == Err(Unauthorized("Invalid token"))
    ensures Authenticated(t.users, verify, auth).Some? ==>
      var user := Authenticated(t.users, verify, auth).value;
      && (user.role != Admin && user.role != Teacher ==>
            CanActivate(t, verify, auth, attendanceId) == Err(Unauthorized("Not authorized")))
      && (user.role == Teacher && !Truthy(attendanceId) ==>
            CanActivate(t, verify, auth, attendanceId) == Err(BadRequest("attendanceId required")))
      && (user.role == Teacher && Truthy(attendanceId) && AttendanceOf(t, attendanceId.value).None? ==>
            CanActivate(t, verify, auth, attendanceId) == Err(BadRequest("Attendance not found")))
      && (user.role == Teacher && Truthy(attendanceId) && AttendanceOf(t, attendanceId.value).Some?
          && ProfileOf(t, user.id).None? ==>
            CanActivate(t, verify, auth, attendanceId) == Err(Unauthorized("Teacher profile not found")))
      && (user.role == Teacher && Truthy(attendanceId) && AttendanceOf(t, attendanceId.value).Some?
          && ProfileOf(t, user.id).Some? && !Truthy(user.schoolId) ==>
            CanActivate(t, verify, auth, attendanceId) == Err(Unauthorized("User not associated with a school")))
  {
  }

  /** A teacher who is class teacher only in another school is refused. */
  lemma OtherSchoolRefused(t: Tables, verify: Verifier, auth: Option<string>, attendanceId: Option<string>)
    requires Authenticated(t.users, verify, auth).Some?
    requires Authenticated(t.users, verify, auth).value.role == Teacher
    requires forall a :: 0 <= a < |t.assignments| ==> t.assignments[a].schoolId != Authenticated(t.users, verify, auth).value.schoolId
    ensures CanActivate(t, verify, auth, attendanceId).Err?
  {
  }

  /** An admin with a valid token always passes, whatever the request names. */
  lemma AdminPasses(t: Tables, verify: Verifier, auth: Option<string>, attendanceId: Option<string>)
    requires Authenticated(t.users, verify, auth).Some? && Authenticated(t.users, verify, auth).value.role == Admin
    ensures CanActivate(t, verify, auth, attendanceId) == Ok(Allow(Authenticated(t.users, verify, auth)))
  {
  }

  /** A request without a usable bearer header is refused before any lookup. */
  lemma MissingTokenRefused(t: Tables, verify: Verifier, auth: Option<string>, attendanceId: Option<string>)
    requires !Truthy(auth) || !Text.StartsWith(auth.value, BearerPrefix)
    ensures CanActivate(t, verify, auth, attendanceId) == Err(Unauthorized("Missing token"))
  {
  }
}
