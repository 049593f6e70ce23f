/** The second admin teacher service: creating a teacher without relations,
    paging through a school's teachers, and updating one, where the class
    assignments given replace the teacher's null-subject assignments. */
module AdminTeachersService {
  import opened Common
  import opened Entities
  import opened Seqs
  import opened Text
  import opened Store
  import TeachersService

  // ---------------------------------------------------------------------------
  // create

  datatype CreateTeacherDto = CreateTeacherDto(
    email: string,
    fullName: string,
    phone: Option<string>,
    subjects: Option<seq<string>>)

  /** The profile `create` saves: user, school and a truthy phone; the subjects
      are only made sure to exist, not related to the profile. */
  function NewProfile(dto: CreateTeacherDto, schoolId: Id, profileId: Id, userId: Id): TeacherProfile {
    TeacherProfile(profileId, userId, Some(schoolId), if Truthy(dto.phone) then dto.phone else None, [], [])
  }

  /** `create`. `userId`, `profileId` and `subjectIds` are the ids the database
      generates for the new rows. */
  method Create(db: Db, schoolId: Id, dto: CreateTeacherDto, userId: Id, profileId: Id, subjectIds: seq<Id>)
    returns (r: Result<TeachersService.Created>)
    requires |subjectIds| == |TeachersService.NamesOf(dto.subjects)|
    modifies db`users, db`teachers, db`subjects
    ensures EnsureSchool(old(db.schools), schoolId).Err? ==> r == Err(BadRequest("Invalid school context"))
    ensures EnsureSchool(old(db.schools), schoolId).Ok? && TeachersService.EmailTaken(old(db.users), dto.email) ==>
      r == Err(BadRequest("Email already in use"))
    ensures r.Err? ==> db.users == old(db.users) && db.teachers == old(db.teachers) && db.subjects == old(db.subjects)
    ensures EnsureSchool(old(db.schools), schoolId).Ok? && !TeachersService.EmailTaken(old(db.users), dto.email) ==>
      && r == Ok(TeachersService.Created(profileId, userId, "Teacher created"))
      && db.users == old(db.users) + [User(userId, dto.fullName, dto.email, Teacher, Some(schoolId))]
      && db.subjects == TeachersService.FindOrCreate(old(db.subjects), schoolId, TeachersService.NamesOf(dto.subjects), subjectIds).table
      && db.teachers == old(db.teachers) + [NewProfile(dto, schoolId, profileId, userId)]
  {
    var school := EnsureSchool(db.schools, schoolId);
    if school.Err? {
      return Err(school.error);
    }
    if TeachersService.EmailTaken(db.users, dto.email) {
      return Err(BadRequest("Email already in use"));
    }
    db.users := db.users + [User(userId, dto.fullName, dto.email, Teacher, Some(schoolId))];
    var _ := TeachersService.ResolveSubjects(db, schoolId, TeachersService.NamesOf(dto.subjects), subjectIds);
    db.teachers := db.teachers + [NewProfile(dto, schoolId, profileId, userId)];
    r := Ok(TeachersService.Created(profileId, userId, "Teacher created"));
  }

  // ---------------------------------------------------------------------------
  // findAll

  datatype TeacherQuery = TeacherQuery(
    page: Option<int>,
    limit: Option<int>,
    search: Option<string>,
    classId: Option<string>,
    subject: Option<string>)

  datatype TeacherPage = TeacherPage(items: seq<TeacherProfile>, total: nat, page: int, limit: int)

  /** The page and limit asked for, when given, are positive. */
  predicate ValidPaging(q: TeacherQuery) {
    (q.page.Some? ==> q.page.value >= 1) && (q.limit.Some? ==> q.limit.value >= 1)
  }

  /** The user joined to a profile, if its row exists. */
  function UserOf(users: seq<User>, p: TeacherProfile): Option<User> {
    First(users, (u: User) => u.id == p.userId)
  }

  /** `user.fullName ILIKE :s OR user.email ILIKE :s OR t.phone ILIKE :s`; a
      missing user or phone matches nothing. */
  predicate MatchesSearch(users: seq<User>, p: TeacherProfile, search: string) {
    || (UserOf(users, p).Some? && (ILike(UserOf(users, p).value.fullName, search) || ILike(UserOf(users, p).value.email, search)))
    || (p.phone.Some? && ILike(p.phone.value, search))
  }

  /** Some assignment of the teacher is for the class. */
  predicate TeachesClass(assignments: seq<Assignment>, p: TeacherProfile, classId: Id) {
    Exists(assignments, (a: Assignment) => a.teacherId == Some(p.id) && a.classId == classId)
  }

  /** Some assignment of the teacher has a subject of that name; the raw join
      does not skip soft-deleted subjects. */
  predicate TeachesSubject(assignments: seq<Assignment>, subjects: seq<Subject>, p: TeacherProfile, name: string) {
    exists i, j :: (0 <= i < |assignments| && 0 <= j < |subjects|
      && assignments[i].teacherId == Some(p.id) && assignments[i].subjectId == Some(subjects[j].id)
      && subjects[j].name == name)
  }

  /** The tables `findAll` reads. */
  datatype Tables = Tables(
    schools: seq<School>,
    users: seq<User>,
    teachers: seq<TeacherProfile>,
    assignments: seq<Assignment>,
    subjects: seq<Subject>)

  /** The filters of `findAll`; an empty filter value is no filter. */
  predicate Selected(t: Tables, q: TeacherQuery, schoolId: Id, p: TeacherProfile) {
    && p.schoolId == Some(schoolId)
    && (Truthy(q.search) ==> MatchesSearch(t.users, p, q.search.value))
    && (Truthy(q.classId) ==> TeachesClass(t.assignments, p, q.classId.value))
    && (Truthy(q.subject) ==> TeachesSubject(t.assignments, t.subjects, p, q.subject.value))
  }

  function Selection(t: Tables, q: TeacherQuery, schoolId: Id): TeacherProfile -> bool {
    (p: TeacherProfile) => Selected(t, q, schoolId, p)
  }

  /** `findAll`: the school's selected teachers in table order, paged with
      `skip = (page - 1) * limit`, page 1 and limit 20 by default. */
  function FindAll(t: Tables, schoolId: Id, q: TeacherQuery): (r: Result<TeacherPage>)
    requires ValidPaging(q)
    ensures r.Err? <==> EnsureSchool(t.schools, schoolId).Err?
    ensures r.Ok? ==>
      && r.value.page == OrElse(q.page, 1) && r.value.limit == OrElse(q.limit, 20)
      && r.value.total == |Filter(t.teachers, Selection(t, q, schoolId))|
      && |r.value.items| <= r.value.limit
      && forall k :: 0 <= k < |r.value.items| ==> r.value.items[k] in t.teachers && Selected(t, q, schoolId, r.value.items[k])
  {
    var _ :- EnsureSchool(t.schools, schoolId);
    var page := OrElse(q.page, 1);
    var limit := OrElse(q.limit, 20);
    var rows := Filter(t.teachers, Selection(t, q, schoolId));
    var items := Page(rows, page, limit);
    Ok(TeacherPage(items, |rows|, page, limit))
  }

  /** The teachers of the school, in table order. */
  function OfSchool(schoolId: Id): TeacherProfile -> bool {
    (p: TeacherProfile) => p.schoolId == Some(schoolId)
  }

  /** Without filters, the first page is the school's first twenty teachers,
      and the total counts them all. */
  lemma FindAllFirstPage(t: Tables, schoolId: Id)
    requires EnsureSchool(t.schools, schoolId).Ok?
    ensures var q := TeacherQuery(None, None, None, None, None);
      var mine := Filter(t.teachers, OfSchool(schoolId));
      && FindAll(t, schoolId, q).Ok?
      && FindAll(t, schoolId, q).value.total == |mine|
      && FindAll(t, schoolId, q).value.items == if |mine| <= 20 then mine else mine[..20]
  {
    var q := TeacherQuery(None, None, None, None, None);
    FilterSame(t.teachers, Selection(t, q, schoolId), OfSchool(schoolId));
  }

  /** `findAll` as written. The class and subject filters are raw SQL over
      the alias `a`, which TypeORM does not rewrite, so PostgreSQL folds the
      unquoted `a.teacherId`, `a.classId` and `a.subjectId` to lower case:
      no column of `class_teacher_assignments` has those names and the query
      fails, which Nest answers with a 500. */
  function FindAllAsWritten(t: Tables, schoolId: Id, q: TeacherQuery): (r: Result<TeacherPage>)
    requires ValidPaging(q)
    ensures r.Err? <==> EnsureSchool(t.schools, schoolId).Err? || Truthy(q.classId) || Truthy(q.subject)
    ensures r.Ok? ==> r == FindAll(t, schoolId, q)
  {
    var _ :- EnsureSchool(t.schools, schoolId);
    if Truthy(q.classId) || Truthy(q.subject) then Err(InternalError) else FindAll(t, schoolId, q)
  }

  /** Where the two part: a class or subject filter on a valid school fails
      as written, and gives a page in `FindAll`. */
  lemma FilteredFindAllAsWrittenFails(t: Tables, schoolId: Id, q: TeacherQuery)
    requires ValidPaging(q) && EnsureSchool(t.schools, schoolId).Ok?
    requires Truthy(q.classId) || Truthy(q.subject)
    ensures FindAllAsWritten(t, schoolId, q) == Err(InternalError)
    ensures FindAll(t, schoolId, q).Ok?
  {
  }

  // ---------------------------------------------------------------------------
  // update: replacing the class assignments

  /** The teacher's null-subject assignments, the ones `update` replaces. */
  function ClassRowOf(teacherId: Id): Assignment -> bool {
    (a: Assignment) => a.teacherId == Some(teacherId) && a.subjectId.None?
  }

  function NotClassRowOf(teacherId: Id): Assignment -> bool {
    (a: Assignment) => !(a.teacherId == Some(teacherId) && a.subjectId.None?)
  }

  /** `delete({ teacherId, subjectId: IsNull() })`, then one inserted row per
      class, in the order the classes were found. */
  function ReplaceClassAssignments(assignments: seq<Assignment>, teacherId: Id, classIds: seq<Id>): seq<Assignment> {
    Filter(assignments, NotClassRowOf(teacherId))
      + Map(classIds, (c: Id) => TeachersService.ClassTeacherAssignment(c, teacherId))
  }

  /** After the replacement, the teacher's null-subject assignments are exactly
      one per given class, in order, and every other row (rows with a subject,
      other teachers' rows) is as it was, in the same order. */
  lemma {:induction false} ReplaceClassAssignmentsFacts(assignments: seq<Assignment>, teacherId: Id, classIds: seq<Id>)
    ensures Filter(ReplaceClassAssignments(assignments, teacherId, classIds), ClassRowOf(teacherId))
      == Map(classIds, (c: Id) => TeachersService.ClassTeacherAssignment(c, teacherId))
    ensures Filter(ReplaceClassAssignments(assignments, teacherId, classIds), NotClassRowOf(teacherId))
      == Filter(assignments, NotClassRowOf(teacherId))
  {
    var kept := Filter(assignments, NotClassRowOf(teacherId));
    var added := Map(classIds, (c: Id) => TeachersService.ClassTeacherAssignment(c, teacherId));
    FilterAppend(kept, added, ClassRowOf(teacherId));
    FilterAppend(kept, added, NotClassRowOf(teacherId));
    FilterNone(kept, ClassRowOf(teacherId));
    FilterAll(kept, NotClassRowOf(teacherId));
    FilterAll(added, ClassRowOf(teacherId));
    FilterNone(added, NotClassRowOf(teacherId));
    FilterTwice(assignments, NotClassRowOf(teacherId));
  }

  /** Filtering twice by the same condition is filtering once. */
  lemma FilterTwice(s: seq<Assignment>, p: Assignment -> bool)
    ensures Filter(Filter(s, p), p) == Filter(s, p)
  {
    FilterAll(Filter(s, p), p);
  }

  /** Replacing with the same classes twice is replacing once. */
  lemma {:induction false} ReplaceClassAssignmentsIdempotent(assignments: seq<Assignment>, teacherId: Id, classIds: seq<Id>)
    ensures ReplaceClassAssignments(ReplaceClassAssignments(assignments, teacherId, classIds), teacherId, classIds)
      == ReplaceClassAssignments(assignments, teacherId, classIds)
  {
    ReplaceClassAssignmentsFacts(assignments, teacherId, classIds);
  }

  /** `update`, with the intended ownership check. With `assignClassIds`, the
      assignments are replaced before the subjects are found or created and
      before the user is saved, so they stay replaced when a missing user row
      makes the save fail. */
  method Update(db: Db, schoolId: Id, id: Id, dto: TeachersService.UpdateTeacherDto, subjectIds: seq<Id>)
    returns (r: Result<TeachersService.Updated>)
    requires |subjectIds| == |TeachersService.NamesOf(dto.subjects)|
    modifies db`users, db`teachers, db`subjects, db`assignments
    ensures EnsureSchool(old(db.schools), schoolId).Err? ==> r == Err(BadRequest("Invalid school context"))
    ensures EnsureSchool(old(db.schools), schoolId).Ok? && TeachersService.OwnershipError(old(db.teachers), id, schoolId).Some? ==>
      r == Err(TeachersService.OwnershipError(old(db.teachers), id, schoolId).value)
    ensures r.Err? && r.error != InternalError ==>
      db.users == old(db.users) && db.teachers == old(db.teachers)
      && db.subjects == old(db.subjects) && db.assignments == old(db.assignments)
    ensures EnsureSchool(old(db.schools), schoolId).Ok? && TeachersService.OwnershipError(old(db.teachers), id, schoolId).None? ==>
      var k := TeachersService.ProfileIndex(old(db.teachers), id);
      var t := old(db.teachers)[k];
      var u := TeachersService.UserIndex(old(db.users), t.userId);
      var missingName := u == |old(db.users)| && Truthy(dto.fullName);
      && (missingName ==> r == Err(InternalError) && unchanged(db))
      && (!missingName ==>
            && db.assignments == (if dto.assignClassIds.Some?
                 then ReplaceClassAssignments(old(db.assignments), id,
                        TeachersService.SchoolClassIds(old(db.classes), schoolId, dto.assignClassIds.value))
                 else old(db.assignments))
            && db.subjects == TeachersService.FindOrCreate(old(db.subjects), schoolId,
                                TeachersService.NamesOf(dto.subjects), subjectIds).table)
      && (u == |old(db.users)| ==> r == Err(InternalError) && db.users == old(db.users) && db.teachers == old(db.teachers))
      && (u < |old(db.users)| ==>
            && r == Ok(TeachersService.Updated(id, "Teacher updated"))
            && db.users == old(db.users)[u := TeachersService.UpdatedUser(old(db.users)[u], dto)]
            && db.teachers == old(db.teachers)[k := t.(phone := if dto.phone.Some? then dto.phone else t.phone)])
  {
    var school := EnsureSchool(db.schools, schoolId);
    if school.Err? {
      return Err(school.error);
    }
    var owner := TeachersService.OwnershipError(db.teachers, id, schoolId);
    if owner.Some? {
      return Err(owner.value);
    }
    var k := TeachersService.ProfileIndex(db.teachers, id);
    FirstAtIndexOf(db.teachers, (p: TeacherProfile) => p.id == id);
    var t := db.teachers[k];
    var u := TeachersService.UserIndex(db.users, t.userId);
    if u == |db.users| && Truthy(dto.fullName) {
      return Err(InternalError);
    }
    r := SaveUpdate(db, schoolId, id, dto, subjectIds, k, u);
  }

  /** The writes of `update` once the teacher is found: the assignments, the
      subjects, then the user and the profile. */
  method SaveUpdate(db: Db, schoolId: Id, id: Id, dto: TeachersService.UpdateTeacherDto, subjectIds: seq<Id>, k: nat, u: nat)
    returns (r: Result<TeachersService.Updated>)
    requires |subjectIds| == |TeachersService.NamesOf(dto.subjects)|
    requires k < |db.teachers| && u <= |db.users|
    modifies db`users, db`teachers, db`subjects, db`assignments
    ensures db.assignments == (if dto.assignClassIds.Some?
                 then ReplaceClassAssignments(old(db.assignments), id,
                        TeachersService.SchoolClassIds(db.classes, schoolId, dto.assignClassIds.value))
                 else old(db.assignments))
    ensures db.subjects == TeachersService.FindOrCreate(old(db.subjects), schoolId, TeachersService.NamesOf(dto.subjects), subjectIds).table
    ensures u == |old(db.users)| ==> r == Err(InternalError) && db.users == old(db.users) && db.teachers == old(db.teachers)
    ensures u < |old(db.users)| ==>
      && r == Ok(TeachersService.Updated(id, "Teacher updated"))
      && db.users == old(db.users)[u := TeachersService.UpdatedUser(old(db.users)[u], dto)]
      && db.teachers == old(db.teachers)[k := old(db.teachers)[k].(phone := if dto.phone.Some? then dto.phone else old(db.teachers)[k].phone)]
  {
    var t := db.teachers[k];
    if dto.assignClassIds.Some? {
      var classIds := TeachersService.SchoolClassIds(db.classes, schoolId, dto.assignClassIds.value);
      db.assignments := ReplaceClassAssignments(db.assignments, id, classIds);
    }
    var _ := TeachersService.ResolveSubjects(db, schoolId, TeachersService.NamesOf(dto.subjects), subjectIds);
    if u == |db.users| {
      return Err(InternalError);
    }
    db.users := db.users[u := TeachersService.UpdatedUser(db.users[u], dto)];
    db.teachers := db.teachers[k := t.(phone := if dto.phone.Some? then dto.phone else t.phone)];
    r := Ok(TeachersService.Updated(id, "Teacher updated"));
  }
}
