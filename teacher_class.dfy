/** `getClassForTeacher`: the class a teacher is class teacher of, with its
    students, for the teacher's own dashboard. */
module TeacherClassService {
  import opened Common
  import opened Entities
  import opened Seqs

  /** The tables the query reads. */
  datatype Tables = Tables(
    teachers: seq<TeacherProfile>,
    assignments: seq<Assignment>,
    classes: seq<ClassEntity>,
    students: seq<Student>)

  datatype ClassSummary = ClassSummary(id: Id, name: string, section: Option<string>)

  /** `photoUrl ?? null`: a missing photo is `null` in the response. */
  datatype StudentSummary = StudentSummary(id: Id, name: string, rollNo: Option<string>, photoUrl: Option<string>)

  datatype TeacherClass = TeacherClass(klass: ClassSummary, students: seq<StudentSummary>)

  /** The teacher's profile in the school. */
  function ProfileIn(t: Tables, userId: Id, schoolId: Id): Option<TeacherProfile> {
    First(t.teachers, (p: TeacherProfile) => p.userId == userId && p.schoolId == Some(schoolId))
  }

  /** The first class teacher assignment of the profile in the school. */
  function ClassTeacherRow(t: Tables, teacherId: Id, schoolId: Id): Option<Assignment> {
    First(t.assignments, (a: Assignment) => a.teacherId == Some(teacherId) && a.isClassTeacher && a.schoolId == Some(schoolId))
  }

  /** The `classEntity` relation of an assignment; `None` when the class row is gone. */
  function ClassOf(t: Tables, a: Assignment): Option<ClassEntity> {
    First(t.classes, (c: ClassEntity) => c.id == a.classId)
  }

  /** The students of the class in the school, in table order. */
  function ClassStudents(t: Tables, classId: Id, schoolId: Id): seq<Student> {
    Filter(t.students, (s: Student) => s.classId == classId && s.schoolId == schoolId)
  }

  function Summarize(s: Student): StudentSummary {
    StudentSummary(s.id, s.name, s.rollNo, s.photoUrl)
  }

  /** The `catch`: NotFound and Forbidden are rethrown, anything else becomes a 500. */
  function Catch<T>(r: Result<T>): (c: Result<T>)
    ensures c.Ok? <==> r.Ok?
    ensures c.Ok? ==> c == r
    ensures r.Err? && (r.error.NotFound? || r.error.Forbidden?) ==> c == r
    ensures r.Err? && !r.error.NotFound? && !r.error.Forbidden? ==>
      c == Err(InternalServerError("Failed to fetch teacher class"))
  {
    if r.Ok? || r.error.NotFound? || r.error.Forbidden? then r
    else Err(InternalServerError("Failed to fetch teacher class"))
  }

  /** `getClassForTeacher(user)`. */
  function GetClassForTeacher(t: Tables, user: Option<User>): (r: Result<TeacherClass>)
    ensures r.Err? ==> r.error.Forbidden? || r.error.NotFound?
    ensures user.None? ==> r == Err(Forbidden("Unauthenticated"))
    ensures user.Some? && user.value.role != Teacher ==> r == Err(Forbidden("Not a teacher"))
    ensures user.Some? && user.value.role == Teacher && !Truthy(user.value.schoolId) ==>
      r == Err(Forbidden("Missing school context"))
    ensures r.Ok? ==> user.Some? && user.value.role == Teacher && Truthy(user.value.schoolId)
  {
    Catch(
      if user.None? then Err(Forbidden("Unauthenticated"))
      else if user.value.role != Teacher then Err(Forbidden("Not a teacher"))
      else if !Truthy(user.value.schoolId) then Err(Forbidden("Missing school context"))
      else
        var schoolId := user.value.schoolId.value;
        var profile := ProfileIn(t, user.value.id, schoolId);
        if profile.None? then Err(NotFound("Teacher profile not found"))
        else
          var a := ClassTeacherRow(t, profile.value.id, schoolId);
          if a.None? || ClassOf(t, a.value).None? then Err(NotFound("Teacher is not assigned as class teacher"))
          else
            var klass := ClassOf(t, a.value).value;
            Ok(TeacherClass(
              ClassSummary(klass.id, klass.name, klass.section),
              Map(ClassStudents(t, klass.id, schoolId), Summarize))))
  }

  /** A teacher gets a class exactly when it has a profile in its school with
      a class teacher assignment there whose class exists; the class is that
      assignment's class, and the students are exactly that class's students
      in the school. */
  lemma GetClassForTeacherContents(t: Tables, user: User)
    requires user.role == Teacher && Truthy(user.schoolId)
    ensures var r := GetClassForTeacher(t, Some(user));
      var profile := ProfileIn(t, user.id, user.schoolId.value);
      && (r.Ok? <==>
           && profile.Some?
           && ClassTeacherRow(t, profile.value.id, user.schoolId.value).Some?
           && ClassOf(t, ClassTeacherRow(t, profile.value.id, user.schoolId.value).value).Some?)
      && (profile.None? ==> r == Err(NotFound("Teacher profile not found")))
      && (profile.Some? && r.Err? ==> r == Err(NotFound("Teacher is not assigned as class teacher")))
      && (r.Ok? ==>
           var a := ClassTeacherRow(t, profile.value.id, user.schoolId.value).value;
           && a.teacherId == Some(profile.value.id) && a.isClassTeacher
           && var klass := ClassOf(t, a).value;
           && r.value.klass == ClassSummary(klass.id, klass.name, klass.section)
           && klass.id == a.classId
           && SummariesOf(r.value.students, t, a.classId, user.schoolId.value))
  {
    var r := GetClassForTeacher(t, Some(user));
    if r.Ok? {
      var schoolId := user.schoolId.value;
      var profile := ProfileIn(t, user.id, schoolId).value;
      var a := ClassTeacherRow(t, profile.id, schoolId).value;
      var klass := ClassOf(t, a).value;
      assert klass.id == a.classId;
      assert r.value.students == Map(ClassStudents(t, a.classId, schoolId), Summarize);
      SummariesOfClass(t, a.classId, schoolId);
    }
  }

  /** Each summary is of a student of the class in the school, and each such
      student has its summary. */
  ghost predicate SummariesOf(ss: seq<StudentSummary>, t: Tables, classId: Id, schoolId: Id) {
    && (forall i :: 0 <= i < |ss| ==>
          exists j :: (0 <= j < |t.students| && ss[i] == Summarize(t.students[j])
            && t.students[j].classId == classId && t.students[j].schoolId == schoolId))
    && (forall j :: (0 <= j < |t.students| && t.students[j].classId == classId
          && t.students[j].schoolId == schoolId) ==> Summarize(t.students[j]) in ss)
  }

  /** The summaries `getClassForTeacher` maps from the class's students. */
  lemma SummariesOfClass(t: Tables, classId: Id, schoolId: Id)
    ensures SummariesOf(Map(ClassStudents(t, classId, schoolId), Summarize), t, classId, schoolId)
  {
    var cs := ClassStudents(t, classId, schoolId);
    var ss := Map(cs, Summarize);
    forall i | 0 <= i < |ss|
      ensures exists j :: (0 <= j < |t.students| && ss[i] == Summarize(t.students[j])
        && t.students[j].classId == classId && t.students[j].schoolId == schoolId)
    {
      assert cs[i] in t.students;
      var j :| 0 <= j < |t.students| && t.students[j] == cs[i];
    }
    forall j | 0 <= j < |t.students| && t.students[j].classId == classId && t.students[j].schoolId == schoolId
      ensures Summarize(t.students[j]) in ss
    {
      var i :| 0 <= i < |cs| && cs[i] == t.students[j];
      assert ss[i] == Summarize(t.students[j]);
    }
  }
}
