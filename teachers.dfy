/** The admin teacher service that the admin module wires in: creating a
    teacher (user, profile, subjects found or created by name, and optionally
    the class teacher assignment), updating one, and resending the invite.

    `create` is not one transaction: the user, the subjects and the profile are
    saved one by one, and only the class teacher assignment together with the
    `classes` relation row is written atomically. */
module TeachersService {
  import opened Common
  import opened Entities
  import opened Seqs
  import opened Store

  // ---------------------------------------------------------------------------
  // Subjects found or created by name

  /** A subject of the school that is not soft-deleted, with the given name:
      what `s.name = :name AND s.schoolId = :schoolId` finds, the soft-deleted
      rows being filtered out by the delete date column. */
  predicate IsActiveNamed(s: Subject, schoolId: Id, name: string) {
    s.name == name && s.schoolId == schoolId && s.deletedAt.None?
  }

  function Named(schoolId: Id, name: string): Subject -> bool {
    (s: Subject) => IsActiveNamed(s, schoolId, name)
  }

  /** The subjects table after a run of find-or-create, and the ids found or
      created, one per requested name. */
  datatype Resolved = Resolved(table: seq<Subject>, ids: seq<Id>)

  /** One step of the loop: reuse the first matching subject, or save a new
      one under the new id. */
  function ResolveOne(prev: Resolved, schoolId: Id, name: string, freshId: Id): Resolved {
    var s := First(prev.table, Named(schoolId, name));
    if s.Some? then Resolved(prev.table, prev.ids + [s.value.id])
    else Resolved(prev.table + [Subject(freshId, schoolId, name, None, None)], prev.ids + [freshId])
  }

  /** The loop over the requested names, in request order; `newIds[k]` is the id
      the database would give the subject created for `names[k]`. */
  function FindOrCreate(subjects: seq<Subject>, schoolId: Id, names: seq<string>, newIds: seq<Id>): Resolved
    requires |newIds| == |names|
    decreases |names|
  {
    if |names| == 0 then Resolved(subjects, [])
    else
      var n := |names| - 1;
      ResolveOne(FindOrCreate(subjects, schoolId, names[..n], newIds[..n]), schoolId, names[n], newIds[n])
  }

  /** The table keeps the old rows as a prefix. */
  predicate Extends(table: seq<Subject>, subjects: seq<Subject>) {
    |subjects| <= |table| && table[..|subjects|] == subjects
  }

  /** Every row added after the old ones is a live subject of the school,
      without a code, named by one of the requested names. */
  ghost predicate AddedAreRequested(subjects: seq<Subject>, table: seq<Subject>, schoolId: Id, names: seq<string>) {
    forall j :: |subjects| <= j < |table| ==>
      table[j].name in names && IsActiveNamed(table[j], schoolId, table[j].name) && table[j].code.None?
  }

  /** One id per name, in request order, each the id of a live subject of the
      school with that name. */
  ghost predicate Answers(table: seq<Subject>, ids: seq<Id>, schoolId: Id, names: seq<string>) {
    && |ids| == |names|
    && forall k :: 0 <= k < |names| ==>
         exists j :: 0 <= j < |table| && table[j].id == ids[k] && IsActiveNamed(table[j], schoolId, names[k])
  }

  /** No row added after the old ones has a live subject of the same name in
      the school before it. */
  ghost predicate NoDuplicateAdded(subjects: seq<Subject>, table: seq<Subject>, schoolId: Id) {
    forall i, j :: 0 <= i < j < |table| && |subjects| <= j ==> !IsActiveNamed(table[i], schoolId, table[j].name)
  }

  /** A name with a live subject in the old table is answered by the first one. */
  ghost predicate ReusesExisting(subjects: seq<Subject>, ids: seq<Id>, schoolId: Id, names: seq<string>) {
    forall k :: 0 <= k < |names| && First(subjects, Named(schoolId, names[k])).Some? ==>
      k < |ids| && ids[k] == First(subjects, Named(schoolId, names[k])).value.id
  }

  /** Find-or-create keeps the old rows, and every row it adds is a live
      subject of the school named by one of the requested names. */
  lemma {:induction false} FindOrCreateShape(subjects: seq<Subject>, schoolId: Id, names: seq<string>, newIds: seq<Id>)
    requires |newIds| == |names|
    ensures |FindOrCreate(subjects, schoolId, names, newIds).ids| == |names|
    ensures Extends(FindOrCreate(subjects, schoolId, names, newIds).table, subjects)
    ensures AddedAreRequested(subjects, FindOrCreate(subjects, schoolId, names, newIds).table, schoolId, names)
  {
    if |names| > 0 {
      var n := |names| - 1;
      var prev := FindOrCreate(subjects, schoolId, names[..n], newIds[..n]);
      FindOrCreateShape(subjects, schoolId, names[..n], newIds[..n]);
      var r := ResolveOne(prev, schoolId, names[n], newIds[n]);
      assert r.table[..|prev.table|] == prev.table;
      assert r.table[..|subjects|] == prev.table[..|subjects|];
      forall j | |subjects| <= j < |r.table|
        ensures r.table[j].name in names && IsActiveNamed(r.table[j], schoolId, r.table[j].name) && r.table[j].code.None?
      {
        if j < |prev.table| {
          assert r.table[j] == prev.table[j];
          assert prev.table[j].name in names[..n];
        }
      }
    }
  }

  /** One step of the loop keeps the earlier answers and answers the new name. */
  lemma ResolveOneAnswers(prev: Resolved, schoolId: Id, names: seq<string>, freshId: Id)
    requires |names| > 0
    requires Answers(prev.table, prev.ids, schoolId, names[..|names| - 1])
    ensures var r := ResolveOne(prev, schoolId, names[|names| - 1], freshId);
      Answers(r.table, r.ids, schoolId, names)
  {
    var n := |names| - 1;
    var r := ResolveOne(prev, schoolId, names[n], freshId);
    var s := First(prev.table, Named(schoolId, names[n]));
    var w: nat;
    if s.Some? {
      w :| w < |prev.table| && prev.table[w] == s.value;
    } else {
      w := |prev.table|;
    }
    assert w < |r.table| && r.table[w].id == r.ids[n] && IsActiveNamed(r.table[w], schoolId, names[n]);
    forall k | 0 <= k < |names|
      ensures exists j :: 0 <= j < |r.table| && r.table[j].id == r.ids[k] && IsActiveNamed(r.table[j], schoolId, names[k])
    {
      if k < n {
        assert names[..n][k] == names[k];
        var j :| 0 <= j < |prev.table| && prev.table[j].id == prev.ids[k] && IsActiveNamed(prev.table[j], schoolId, names[k]);
        assert r.table[j] == prev.table[j] && r.ids[k] == prev.ids[k];
      } else {
        assert r.table[w].id == r.ids[k] && IsActiveNamed(r.table[w], schoolId, names[k]);
      }
    }
  }

  /** Every name is answered, in request order, by the id of a live subject of
      the school with that name. */
  lemma {:induction false} FindOrCreateAnswers(subjects: seq<Subject>, schoolId: Id, names: seq<string>, newIds: seq<Id>)
    requires |newIds| == |names|
    ensures Answers(FindOrCreate(subjects, schoolId, names, newIds).table, FindOrCreate(subjects, schoolId, names, newIds).ids, schoolId, names)
  {
    if |names| > 0 {
      var n := |names| - 1;
      FindOrCreateAnswers(subjects, schoolId, names[..n], newIds[..n]);
      ResolveOneAnswers(FindOrCreate(subjects, schoolId, names[..n], newIds[..n]), schoolId, names, newIds[n]);
    }
  }

  /** No duplicate is created: a row added by find-or-create has no live
      subject of the same name in the school before it. */
  lemma {:induction false} FindOrCreateNoDuplicate(subjects: seq<Subject>, schoolId: Id, names: seq<string>, newIds: seq<Id>)
    requires |newIds| == |names|
    ensures NoDuplicateAdded(subjects, FindOrCreate(subjects, schoolId, names, newIds).table, schoolId)
  {
    if |names| > 0 {
      var n := |names| - 1;
      var prev := FindOrCreate(subjects, schoolId, names[..n], newIds[..n]);
      FindOrCreateNoDuplicate(subjects, schoolId, names[..n], newIds[..n]);
      var s := First(prev.table, Named(schoolId, names[n]));
      if s.None? {
        var r := prev.table + [Subject(newIds[n], schoolId, names[n], None, None)];
        forall i, j | 0 <= i < j < |r| && |subjects| <= j
          ensures !IsActiveNamed(r[i], schoolId, r[j].name)
        {
          assert r[i] == prev.table[i];
          if j < |prev.table| {
            assert r[j] == prev.table[j];
          } else {
            assert !Named(schoolId, names[n])(prev.table[i]);
          }
        }
      }
    }
  }

  /** A step of the loop reuses a live subject of the old rows when there is one. */
  lemma ResolveOneReuses(subjects: seq<Subject>, prev: Resolved, schoolId: Id, name: string, newId: Id)
    requires Extends(prev.table, subjects)
    requires First(subjects, Named(schoolId, name)).Some?
    ensures ResolveOne(prev, schoolId, name, newId) == Resolved(prev.table, prev.ids + [First(subjects, Named(schoolId, name)).value.id])
  {
    assert prev.table == subjects + prev.table[|subjects|..];
    FirstAppend(subjects, prev.table[|subjects|..], Named(schoolId, name));
  }

  /** One step of the loop keeps the earlier reuses and reuses for the new name. */
  lemma ResolveOneKeepsReuse(subjects: seq<Subject>, prev: Resolved, schoolId: Id, names: seq<string>, freshId: Id)
    requires |names| > 0 && |prev.ids| == |names| - 1
    requires Extends(prev.table, subjects)
    requires ReusesExisting(subjects, prev.ids, schoolId, names[..|names| - 1])
    ensures ReusesExisting(subjects, ResolveOne(prev, schoolId, names[|names| - 1], freshId).ids, schoolId, names)
  {
    var n := |names| - 1;
    var r := ResolveOne(prev, schoolId, names[n], freshId);
    forall k | 0 <= k < |names| && First(subjects, Named(schoolId, names[k])).Some?
      ensures k < |r.ids| && r.ids[k] == First(subjects, Named(schoolId, names[k])).value.id
    {
      if k < n {
        assert names[..n][k] == names[k];
        assert r.ids[k] == prev.ids[k];
      } else {
        ResolveOneReuses(subjects, prev, schoolId, names[n], freshId);
      }
    }
  }

  /** A name that already has a live subject in the school is answered with
      the first such subject: no second subject of that name is created. */
  lemma {:induction false} FindOrCreateReuses(subjects: seq<Subject>, schoolId: Id, names: seq<string>, newIds: seq<Id>)
    requires |newIds| == |names|
    ensures ReusesExisting(subjects, FindOrCreate(subjects, schoolId, names, newIds).ids, schoolId, names)
  {
    if |names| > 0 {
      var n := |names| - 1;
      FindOrCreateReuses(subjects, schoolId, names[..n], newIds[..n]);
      FindOrCreateShape(subjects, schoolId, names[..n], newIds[..n]);
      ResolveOneKeepsReuse(subjects, FindOrCreate(subjects, schoolId, names[..n], newIds[..n]), schoolId, names, newIds[n]);
    }
  }

  /** The find-or-create loop of `create` and `update`. */
  method ResolveSubjects(db: Db, schoolId: Id, names: seq<string>, newIds: seq<Id>) returns (ids: seq<Id>)
    requires |newIds| == |names|
    modifies db`subjects
    ensures Resolved(db.subjects, ids) == FindOrCreate(old(db.subjects), schoolId, names, newIds)
  {
    ids := [];
    var i := 0;
    while i < |names|
      invariant 0 <= i <= |names|
      invariant Resolved(db.subjects, ids) == FindOrCreate(old(db.subjects), schoolId, names[..i], newIds[..i])
    {
      assert names[..i + 1][..i] == names[..i] && newIds[..i + 1][..i] == newIds[..i];
      var s := First(db.subjects, Named(schoolId, names[i]));
      if s.None? {
        var created := Subject(newIds[i], schoolId, names[i], None, None);
        db.subjects := db.subjects + [created];
        s := Some(created);
      }
      ids := ids + [s.value.id];
      i := i + 1;
    }
    assert names[..|names|] == names && newIds[..|newIds|] == newIds;
  }

  // ---------------------------------------------------------------------------
  // Classes of the school

  /** `c.id IN (:...ids) AND c.schoolId = :schoolId`. */
  function InSchool(ids: seq<Id>, schoolId: Id): ClassEntity -> bool {
    (c: ClassEntity) => c.id in ids && c.schoolId == Some(schoolId)
  }

  function ClassId(c: ClassEntity): Id {
    c.id
  }

  /** The classes of the school among the requested ids, as ids in table order. */
  function SchoolClassIds(classes: seq<ClassEntity>, schoolId: Id, ids: seq<Id>): seq<Id> {
    Map(Filter(classes, InSchool(ids, schoolId)), ClassId)
  }

  /** The requested ids are kept exactly when they name a class of the school:
      unknown ids and other schools' classes are dropped without an error. */
  lemma SchoolClassIdsFacts(classes: seq<ClassEntity>, schoolId: Id, ids: seq<Id>)
    ensures var r := SchoolClassIds(classes, schoolId, ids);
      && (forall k :: 0 <= k < |r| ==>
            r[k] in ids && exists j :: 0 <= j < |classes| && classes[j].id == r[k] && classes[j].schoolId == Some(schoolId))
      && (forall j :: 0 <= j < |classes| && classes[j].id in ids && classes[j].schoolId == Some(schoolId) ==>
            classes[j].id in r)
  {
    var f := Filter(classes, InSchool(ids, schoolId));
    var r := SchoolClassIds(classes, schoolId, ids);
    forall k | 0 <= k < |r|
      ensures r[k] in ids && exists j :: 0 <= j < |classes| && classes[j].id == r[k] && classes[j].schoolId == Some(schoolId)
    {
      assert r[k] == f[k].id;
      assert f[k] in classes && InSchool(ids, schoolId)(f[k]);
      var j :| 0 <= j < |classes| && classes[j] == f[k];
    }
    forall j | 0 <= j < |classes| && classes[j].id in ids && classes[j].schoolId == Some(schoolId)
      ensures classes[j].id in r
    {
      assert InSchool(ids, schoolId)(classes[j]);
      assert classes[j] in f;
      var k :| 0 <= k < |f| && f[k] == classes[j];
      assert r[k] == classes[j].id;
    }
  }

  // ---------------------------------------------------------------------------
  // create

  datatype CreateTeacherDto = CreateTeacherDto(
    email: string,
    fullName: string,
    phone: Option<string>,
    assignClassIds: Option<seq<Id>>,
    subjects: Option<seq<string>>,
    classId: Option<string>)

  datatype Created = Created(id: Id, userId: Id, message: string)

  function NamesOf(subjects: Option<seq<string>>): seq<string> {
    if subjects.Some? then subjects.value else []
  }

  function IdsOf(ids: Option<seq<Id>>): seq<Id> {
    if ids.Some? then ids.value else []
  }

  /** Some user, of any school, already has the email. */
  predicate EmailTaken(users: seq<User>, email: string) {
    Exists(users, (u: User) => u.email == email)
  }

  /** The user `create` saves: a teacher of the school. */
  function NewUser(dto: CreateTeacherDto, schoolId: Id, userId: Id): User {
    User(userId, dto.fullName, dto.email, Teacher, Some(schoolId))
  }

  /** The profile `create` saves: the phone only when it is truthy, the
      requested classes of the school, and the subjects found or created. */
  function NewProfile(dto: CreateTeacherDto, classes: seq<ClassEntity>, schoolId: Id,
                      profileId: Id, userId: Id, subjectIds: seq<Id>): TeacherProfile {
    TeacherProfile(profileId, userId, Some(schoolId),
      if Truthy(dto.phone) then dto.phone else None,
      SchoolClassIds(classes, schoolId, IdsOf(dto.assignClassIds)),
      subjectIds)
  }

  /** The null-subject row the transaction inserts; the source gives it no
      school and no class teacher flag. */
  function ClassTeacherAssignment(classId: Id, profileId: Id): Assignment {
    Assignment(classId, Some(profileId), None, None, false)
  }

  /** The validations on the requested class teacher class, once the profile is
      saved: the class must exist in the school, and no assignment of the class
      may have a null subject. */
  function ClassTeacherError(classes: seq<ClassEntity>, assignments: seq<Assignment>, schoolId: Id,
                             classId: Option<string>): Option<Error> {
    if !Truthy(classId) then None
    else
      var cls := First(classes, (c: ClassEntity) => c.id == classId.value);
      if cls.None? || cls.value.schoolId != Some(schoolId) then Some(BadRequest("Class invalid or not in school"))
      else if Exists(assignments, (a: Assignment) => a.classId == classId.value && a.subjectId.None?)
      then Some(BadRequest("Class already has a class teacher"))
      else None
  }

  /** Any null-subject assignment of the class counts as a class teacher,
      whoever holds it and whatever its flag and school. */
  lemma ClassTeacherErrorIff(classes: seq<ClassEntity>, assignments: seq<Assignment>, schoolId: Id, classId: string)
    requires classId != []
    ensures ClassTeacherError(classes, assignments, schoolId, Some(classId)).None? <==>
      && (exists j :: 0 <= j < |classes| && classes[j].id == classId)
      && First(classes, (c: ClassEntity) => c.id == classId).value.schoolId == Some(schoolId)
      && forall i :: 0 <= i < |assignments| ==> !(assignments[i].classId == classId && assignments[i].subjectId.None?)
  {
    var cls := First(classes, (c: ClassEntity) => c.id == classId);
    if cls.None? {
      assert forall j :: 0 <= j < |classes| ==> classes[j].id != classId;
    }
  }

  /** `create`. `userId`, `profileId` and `subjectIds` are the ids the database
      generates for the new user, profile and subjects. */
  method Create(db: Db, schoolId: Id, dto: CreateTeacherDto, userId: Id, profileId: Id, subjectIds: seq<Id>)
    returns (r: Result<Created>)
    requires |subjectIds| == |NamesOf(dto.subjects)|
    modifies db`users, db`teachers, db`subjects, db`assignments
    ensures EnsureSchool(old(db.schools), schoolId).Err? ==> r == Err(EnsureSchool(old(db.schools), schoolId).error)
    ensures EnsureSchool(old(db.schools), schoolId).Ok? && EmailTaken(old(db.users), dto.email) ==>
      r == Err(BadRequest("Email already in use"))
    ensures EnsureSchool(old(db.schools), schoolId).Err? || EmailTaken(old(db.users), dto.email) ==>
      && db.users == old(db.users) && db.teachers == old(db.teachers)
      && db.subjects == old(db.subjects) && db.assignments == old(db.assignments)
    ensures EnsureSchool(old(db.schools), schoolId).Ok? && !EmailTaken(old(db.users), dto.email) ==>
      var resolved := FindOrCreate(old(db.subjects), schoolId, NamesOf(dto.subjects), subjectIds);
      var profile := NewProfile(dto, old(db.classes), schoolId, profileId, userId, resolved.ids);
      var failed := ClassTeacherError(old(db.classes), old(db.assignments), schoolId, dto.classId);
      && db.users == old(db.users) + [NewUser(dto, schoolId, userId)]
      && db.subjects == resolved.table
      && (failed.Some? ==>
            r == Err(failed.value) && db.teachers == old(db.teachers) + [profile] && db.assignments == old(db.assignments))
      && (failed.None? && !Truthy(dto.classId) ==>
            r == Ok(Created(profileId, userId, "Teacher created"))
            && db.teachers == old(db.teachers) + [profile] && db.assignments == old(db.assignments))
      && (failed.None? && Truthy(dto.classId) && dto.classId.value in profile.classes ==>
            r == Err(InternalError) && db.teachers == old(db.teachers) + [profile] && db.assignments == old(db.assignments))
      && (failed.None? && Truthy(dto.classId) && dto.classId.value !in profile.classes ==>
            r == Ok(Created(profileId, userId, "Teacher created"))
            && db.teachers == old(db.teachers) + [profile.(classes := profile.classes + [dto.classId.value])]
            && db.assignments == old(db.assignments) + [ClassTeacherAssignment(dto.classId.value, profileId)])
  {
    var school := EnsureSchool(db.schools, schoolId);
    if school.Err? {
      return Err(school.error);
    }
    if EmailTaken(db.users, dto.email) {
      return Err(BadRequest("Email already in use"));
    }
    r := SaveNewTeacher(db, schoolId, dto, userId, profileId, subjectIds);
  }

  /** The profile `create` saves, with the subjects found or created for it. */
  function ProfileFor(classes: seq<ClassEntity>, subjects: seq<Subject>, schoolId: Id, dto: CreateTeacherDto,
                      profileId: Id, userId: Id, subjectIds: seq<Id>): TeacherProfile
    requires |subjectIds| == |NamesOf(dto.subjects)|
  {
    NewProfile(dto, classes, schoolId, profileId, userId, FindOrCreate(subjects, schoolId, NamesOf(dto.subjects), subjectIds).ids)
  }

  /** The writes of `create` once the school and the email pass: the user,
      the subjects, the profile, then the class-teacher assignment. */
  method SaveNewTeacher(db: Db, schoolId: Id, dto: CreateTeacherDto, userId: Id, profileId: Id, subjectIds: seq<Id>)
    returns (r: Result<Created>)
    requires |subjectIds| == |NamesOf(dto.subjects)|
    modifies db`users, db`teachers, db`subjects, db`assignments
    ensures db.users == old(db.users) + [NewUser(dto, schoolId, userId)]
    ensures db.subjects == FindOrCreate(old(db.subjects), schoolId, NamesOf(dto.subjects), subjectIds).table
    ensures ClassTeacherError(db.classes, old(db.assignments), schoolId, dto.classId).Some? ==>
      && r == Err(ClassTeacherError(db.classes, old(db.assignments), schoolId, dto.classId).value)
      && db.teachers == old(db.teachers) + [ProfileFor(db.classes, old(db.subjects), schoolId, dto, profileId, userId, subjectIds)]
      && db.assignments == old(db.assignments)
    ensures ClassTeacherError(db.classes, old(db.assignments), schoolId, dto.classId).None? && !Truthy(dto.classId) ==>
      && r == Ok(Created(profileId, userId, "Teacher created"))
      && db.teachers == old(db.teachers) + [ProfileFor(db.classes, old(db.subjects), schoolId, dto, profileId, userId, subjectIds)]
      && db.assignments == old(db.assignments)
    ensures ClassTeacherError(db.classes, old(db.assignments), schoolId, dto.classId).None? && Truthy(dto.classId)
            && dto.classId.value in ProfileFor(db.classes, old(db.subjects), schoolId, dto, profileId, userId, subjectIds).classes ==>
      && r == Err(InternalError)
      && db.teachers == old(db.teachers) + [ProfileFor(db.classes, old(db.subjects), schoolId, dto, profileId, userId, subjectIds)]
      && db.assignments == old(db.assignments)
    ensures ClassTeacherError(db.classes, old(db.assignments), schoolId, dto.classId).None? && Truthy(dto.classId)
            && dto.classId.value !in ProfileFor(db.classes, old(db.subjects), schoolId, dto, profileId, userId, subjectIds).classes ==>
      && r == Ok(Created(profileId, userId, "Teacher created"))
      && db.teachers == old(db.teachers) + [ProfileFor(db.classes, old(db.subjects), schoolId, dto, profileId, userId, subjectIds)
                                              .(classes := ProfileFor(db.classes, old(db.subjects), schoolId, dto, profileId, userId, subjectIds).classes + [dto.classId.value])]
      && db.assignments == old(db.assignments) + [ClassTeacherAssignment(dto.classId.value, profileId)]
  {
    db.users := db.users + [NewUser(dto, schoolId, userId)];
    var ids := ResolveSubjects(db, schoolId, NamesOf(dto.subjects), subjectIds);
    var profile := NewProfile(dto, db.classes, schoolId, profileId, userId, ids);
    db.teachers := db.teachers + [profile];
    var failed := ClassTeacherError(db.classes, db.assignments, schoolId, dto.classId);
    if failed.Some? {
      return Err(failed.value);
    }
    if Truthy(dto.classId) {
      // the transaction: the assignment and the relation row, or neither
      var related := AddRelation(profile.classes, dto.classId.value);
      if related.Err? {
        return Err(related.error);
      }
      db.assignments := db.assignments + [ClassTeacherAssignment(dto.classId.value, profileId)];
      db.teachers := db.teachers[|db.teachers| - 1 := profile.(classes := related.value)];
    }
    r := Ok(Created(profileId, userId, "Teacher created"));
  }

  // ---------------------------------------------------------------------------
  // Ownership of an existing teacher

  /** The relations `update` and `resendInvite` load with the profile. */
  const UpdateRelations: set<string> := {"user", "classes", "subjects"}
  const ResendRelations: set<string> := {"user"}

  /** `teacher.school?.id` on a profile loaded with the given relations: the
      `school` relation is not eager, so it is undefined unless requested. */
  function LoadedSchoolId(p: TeacherProfile, relations: set<string>): Option<Id> {
    if "school" in relations then p.schoolId else None
  }

  /** The ownership checks as written: the profile by id, then
      `teacher.school?.id !== schoolId` on the profile as loaded. */
  function OwnershipErrorAsWritten(teachers: seq<TeacherProfile>, id: Id, schoolId: Id, relations: set<string>): Option<Error> {
    var t := First(teachers, (p: TeacherProfile) => p.id == id);
    if t.None? then Some(NotFound("Teacher not found"))
    else if LoadedSchoolId(t.value, relations) != Some(schoolId) then Some(BadRequest("Not allowed"))
    else None
  }

  /** As written, no teacher passes the ownership check of `update` or
      `resendInvite`, not even one of the caller's own school. */
  lemma OwnershipAsWrittenRefusesOwnTeacher(teachers: seq<TeacherProfile>, id: Id, schoolId: Id)
    requires exists j :: 0 <= j < |teachers| && teachers[j].id == id
    ensures OwnershipErrorAsWritten(teachers, id, schoolId, UpdateRelations) == Some(BadRequest("Not allowed"))
    ensures OwnershipErrorAsWritten(teachers, id, schoolId, ResendRelations) == Some(BadRequest("Not allowed"))
  {
    var j :| 0 <= j < |teachers| && teachers[j].id == id;
    assert ((p: TeacherProfile) => p.id == id)(teachers[j]);
  }

  /** The intended ownership checks: the teacher exists and its school is the
      caller's. */
  function OwnershipError(teachers: seq<TeacherProfile>, id: Id, schoolId: Id): (e: Option<Error>)
    ensures e.None? <==> exists j :: (0 <= j < |teachers| && teachers[j].id == id
      && First(teachers, (p: TeacherProfile) => p.id == id) == Some(teachers[j]) && teachers[j].schoolId == Some(schoolId))
    ensures e.Some? ==> e.value == NotFound("Teacher not found") || e.value == BadRequest("Not allowed")
    ensures e == Some(NotFound("Teacher not found")) <==> forall j :: 0 <= j < |teachers| ==> teachers[j].id != id
  {
    OwnershipErrorAsWritten(teachers, id, schoolId, UpdateRelations + {"school"})
  }

  // ---------------------------------------------------------------------------
  // update

  datatype UpdateTeacherDto = UpdateTeacherDto(
    fullName: Option<string>,
    phone: Option<string>,
    assignClassIds: Option<seq<Id>>,
    subjects: Option<seq<string>>)

  datatype Updated = Updated(id: Id, message: string)

  function ProfileIndex(teachers: seq<TeacherProfile>, id: Id): nat {
    IndexOf(teachers, (p: TeacherProfile) => p.id == id)
  }

  function UserIndex(users: seq<User>, userId: Id): nat {
    IndexOf(users, (u: User) => u.id == userId)
  }

  /** The profile after `update`: a phone that is present overwrites, classes
      and subjects are replaced wholesale when given. */
  function UpdatedProfile(t: TeacherProfile, dto: UpdateTeacherDto, classes: seq<ClassEntity>,
                          schoolId: Id, subjectIds: seq<Id>): TeacherProfile {
    t.(phone := if dto.phone.Some? then dto.phone else t.phone,
       classes := if dto.assignClassIds.Some? then SchoolClassIds(classes, schoolId, dto.assignClassIds.value) else t.classes,
       subjects := if dto.subjects.Some? then subjectIds else t.subjects)
  }

  /** The user after `update`: the full name changes only when truthy. */
  function UpdatedUser(u: User, dto: UpdateTeacherDto): User {
    if Truthy(dto.fullName) then u.(fullName := dto.fullName.value) else u
  }

  /** `update`, with the intended ownership check. The profile's user is its
      eager `user` relation; a profile whose user row is missing fails at
      `teacher.user.fullName` when a name is given and otherwise when the user
      is saved, after the subjects are written. */
  method Update(db: Db, schoolId: Id, id: Id, dto: UpdateTeacherDto, subjectIds: seq<Id>)
    returns (r: Result<Updated>)
    requires |subjectIds| == |NamesOf(dto.subjects)|
    modifies db`users, db`teachers, db`subjects
    ensures EnsureSchool(old(db.schools), schoolId).Err? ==> r == Err(EnsureSchool(old(db.schools), schoolId).error)
    ensures EnsureSchool(old(db.schools), schoolId).Ok? && OwnershipError(old(db.teachers), id, schoolId).Some? ==>
      r == Err(OwnershipError(old(db.teachers), id, schoolId).value)
    ensures r.Err? && r.error != InternalError ==>
      db.users == old(db.users) && db.teachers == old(db.teachers) && db.subjects == old(db.subjects)
    ensures EnsureSchool(old(db.schools), schoolId).Ok? && OwnershipError(old(db.teachers), id, schoolId).None? ==>
      var k := ProfileIndex(old(db.teachers), id);
      var t := old(db.teachers)[k];
      var u := UserIndex(old(db.users), t.userId);
      var resolved := FindOrCreate(old(db.subjects), schoolId, NamesOf(dto.subjects), subjectIds);
      && k < |old(db.teachers)| && t.id == id && t.schoolId == Some(schoolId)
      && (u == |old(db.users)| ==>
            && r == Err(InternalError) && db.users == old(db.users) && db.teachers == old(db.teachers)
            && db.subjects == if Truthy(dto.fullName) then old(db.subjects) else resolved.table)
      && (u < |old(db.users)| ==>
            && r == Ok(Updated(id, "Teacher updated"))
            && db.subjects == resolved.table
            && db.users == old(db.users)[u := UpdatedUser(old(db.users)[u], dto)]
            && db.teachers == old(db.teachers)[k := UpdatedProfile(t, dto, old(db.classes), schoolId, resolved.ids)])
  {
    var school := EnsureSchool(db.schools, schoolId);
    if school.Err? {
      return Err(school.error);
    }
    var owner := OwnershipError(db.teachers, id, schoolId);
    if owner.Some? {
      return Err(owner.value);
    }
    var k := ProfileIndex(db.teachers, id);
    FirstAtIndexOf(db.teachers, (p: TeacherProfile) => p.id == id);
    var t := db.teachers[k];
    var u := UserIndex(db.users, t.userId);
    if u == |db.users| && Truthy(dto.fullName) {
      return Err(InternalError);
    }
    var ids := ResolveSubjects(db, schoolId, NamesOf(dto.subjects), subjectIds);
    if u == |db.users| {
      return Err(InternalError);
    }
    db.users := db.users[u := UpdatedUser(db.users[u], dto)];
    db.teachers := db.teachers[k := UpdatedProfile(t, dto, db.classes, schoolId, ids)];
    r := Ok(Updated(id, "Teacher updated"));
  }

  /** Without classes or subjects in the request, the relations are kept; an
      empty phone still overwrites, an absent one does not. */
  lemma UpdatedProfileKeeps(t: TeacherProfile, dto: UpdateTeacherDto, classes: seq<ClassEntity>, schoolId: Id, ids: seq<Id>)
    ensures var p := UpdatedProfile(t, dto, classes, schoolId, ids);
      && p.id == t.id && p.userId == t.userId && p.schoolId == t.schoolId
      && (dto.assignClassIds.None? ==> p.classes == t.classes)
      && (dto.subjects.None? ==> p.subjects == t.subjects)
      && (dto.phone == Some("") ==> p.phone == Some(""))
      && (dto.phone.None? ==> p.phone == t.phone)
  {
  }

  // ---------------------------------------------------------------------------
  // resendInvite

  /** The user row of a teacher profile. */
  function UserOf(users: seq<User>, userId: Id): Option<User> {
    First(users, (x: User) => x.id == userId)
  }

  /** `resendInvite`, with the intended ownership check: the message names the
      user's email; a missing user row fails reading it. */
  function ResendInvite(schools: seq<School>, teachers: seq<TeacherProfile>, users: seq<User>,
                        schoolId: Id, id: Id): (r: Result<string>)
    ensures EnsureSchool(schools, schoolId).Err? ==> r == Err(BadRequest("Invalid school context"))
    ensures EnsureSchool(schools, schoolId).Ok? && OwnershipError(teachers, id, schoolId).Some? ==>
      r == Err(OwnershipError(teachers, id, schoolId).value)
    ensures EnsureSchool(schools, schoolId).Ok? && OwnershipError(teachers, id, schoolId).None? ==>
      && ProfileIndex(teachers, id) < |teachers|
      && var u := UserOf(users, teachers[ProfileIndex(teachers, id)].userId);
      && (u.None? ==> r == Err(InternalError))
      && (u.Some? ==> r == Ok("Invite resent to " + u.value.email))
    ensures r.Ok? ==> exists j :: (0 <= j < |users| && r.value == "Invite resent to " + users[j].email
      && exists i :: 0 <= i < |teachers| && teachers[i].id == id && teachers[i].schoolId == Some(schoolId) && teachers[i].userId == users[j].id)
  {
    var _ :- EnsureSchool(schools, schoolId);
    var owner := OwnershipError(teachers, id, schoolId);
    if owner.Some? then Err(owner.value)
    else
      FirstAtIndexOf(teachers, (p: TeacherProfile) => p.id == id);
      var t := First(teachers, (p: TeacherProfile) => p.id == id).value;
      var u := UserOf(users, t.userId);
      if u.None? then Err(InternalError)
      else Ok("Invite resent to " + u.value.email)
  }

  /** The invite is resent exactly when the school exists, the teacher is the
      caller's, and the teacher's user row is there. */
  lemma ResendInviteOkIff(schools: seq<School>, teachers: seq<TeacherProfile>, users: seq<User>, schoolId: Id, id: Id)
    ensures ResendInvite(schools, teachers, users, schoolId, id).Ok? <==>
      && EnsureSchool(schools, schoolId).Ok?
      && OwnershipError(teachers, id, schoolId).None?
      && ProfileIndex(teachers, id) < |teachers|
      && UserOf(users, teachers[ProfileIndex(teachers, id)].userId).Some?
  {
    var r := ResendInvite(schools, teachers, users, schoolId, id);
    if r.Ok? {
      assert EnsureSchool(schools, schoolId).Ok?;
      assert OwnershipError(teachers, id, schoolId).None?;
    }
  }
}
