/** The guard for class-teacher routes: admins pass without a user being
    attached; a teacher passes as class teacher of the class named in the body
    or, failing that, in the route. */
module ClassTeacherGuard {
  import opened Common
  import opened Entities
  import opened Seqs
  import opened Text
  import opened Tokens

  /** The tables the guard reads. */
  datatype Tables = Tables(users: seq<User>, teachers: seq<TeacherProfile>, assignments: seq<Assignment>)

  /** `body?.classId || req.params?.classId`: the body's class id unless it is empty. */
  function RequestedClass(bodyClassId: Option<string>, paramClassId: Option<string>): (c: Option<string>)
    ensures Truthy(bodyClassId) ==> c == bodyClassId
    ensures !Truthy(bodyClassId) ==> c == paramClassId
  {
    if Truthy(bodyClassId) then bodyClassId else paramClassId
  }

  /** A class teacher row of the teacher for the class; the school is not looked at. */
  predicate IsClassTeacherRow(a: Assignment, classId: Id, teacherId: Id) {
    a.classId == classId && a.teacherId == Some(teacherId) && a.isClassTeacher
  }

  /** The user's teacher profile. */
  function ProfileOf(t: Tables, userId: Id): Option<TeacherProfile> {
    First(t.teachers, (p: TeacherProfile) => p.userId == userId)
  }

  /** The validations after the user is loaded. */
  function CheckUser(t: Tables, user: User, bodyClassId: Option<string>, paramClassId: Option<string>): (r: Result<Decision>)
    ensures r.Ok? ==> r.value == Allow(None) || r.value == Allow(Some(user))
  {
    if user.role == Admin then Ok(Allow(None))
    else if user.role != Teacher then Err(Unauthorized("Not authorized"))
    else
      var classId := RequestedClass(bodyClassId, paramClassId);
      if !Truthy(classId) then Err(BadRequest("classId required"))
      else
        var profile := ProfileOf(t, user.id);
        if profile.None? then Err(Unauthorized("Teacher profile not found"))
        else if !Exists(t.assignments, (a: Assignment) => IsClassTeacherRow(a, classId.value, profile.value.id))
        then Err(Unauthorized("Teacher is not class teacher for this class"))
        else Ok(Allow(Some(user)))
  }

  /** `canActivate`. */
  function CanActivate(t: Tables, verify: Verifier, auth: Option<string>,
                       bodyClassId: Option<string>, paramClassId: Option<string>): (r: Result<Decision>)
    ensures r.Err? ==> r.error.Unauthorized? || r.error.BadRequest?
  {
    var token :- BearerToken(auth);
    Catch(
      var sub :- TokenSubject(verify, token);
      var user := First(t.users, (u: User) => u.id == sub);
      if user.None? then Err(Unauthorized("Invalid token"))
      else CheckUser(t, user.value, bodyClassId, paramClassId))
  }

  /** Exactly who passes: a known admin, with nothing attached, or a teacher
      with a profile who is class teacher of the requested class, attached. */
  lemma CanActivateIff(t: Tables, verify: Verifier, auth: Option<string>,
                       bodyClassId: Option<string>, paramClassId: Option<string>)
    ensures var r := CanActivate(t, verify, auth, bodyClassId, paramClassId);
      var user := Authenticated(t.users, verify, auth);
      var classId := RequestedClass(bodyClassId, paramClassId);
      && (r.Ok? <==>
           && user.Some?
           && (|| user.value.role == Admin
               || (&& user.value.role == Teacher
                   && Truthy(classId)
                   && ProfileOf(t, user.value.id).Some?
                   && exists a :: 0 <= a < |t.assignments| &&
                        IsClassTeacherRow(t.assignments[a], classId.value, ProfileOf(t, user.value.id).value.id))))
      && (r.Ok? ==> r.value.attached == if user.value.role == Admin then None else user)
  {
  }

  /** The refusals in the order the guard checks them: no bearer header, an
      unknown subject, a role other than admin or teacher, no class id, then
      no teacher profile. */
  lemma CanActivateErrors(t: Tables, verify: Verifier, auth: Option<string>,
                          bodyClassId: Option<string>, paramClassId: Option<string>)
    ensures BearerToken(auth).Err? ==>
      CanActivate(t, verify, auth, bodyClassId, paramClassId) == Err(Unauthorized("Missing token"))
    ensures BearerToken(auth).Ok? && verify(BearerToken(auth).value).Some? ==>
      var user := Authenticated(t.users, verify, auth);
      var r := CanActivate(t, verify, auth, bodyClassId, paramClassId);
      && (user.None? ==> r == Err(Unauthorized("Invalid token")))
      && (user.Some? && user.value.role != Admin && user.value.role != Teacher ==>
            r == Err(Unauthorized("Not authorized")))
      && (user.Some? && user.value.role == Teacher && !Truthy(RequestedClass(bodyClassId, paramClassId)) ==>
            r == Err(BadRequest("classId required")))
      && (user.Some? && user.value.role == Teacher && Truthy(RequestedClass(bodyClassId, paramClassId))
          && ProfileOf(t, user.value.id).None? ==>
            r == Err(Unauthorized("Teacher profile not found")))
  {
  }

  /** The class in the body wins over the class in the route. */
  lemma BodyClassWins(t: Tables, verify: Verifier, auth: Option<string>, bodyClassId: Option<string>,
                      p1: Option<string>, p2: Option<string>)
    requires Truthy(bodyClassId)
    ensures CanActivate(t, verify, auth, bodyClassId, p1) == CanActivate(t, verify, auth, bodyClassId, p2)
  {
  }
}
