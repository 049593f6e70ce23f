/** The admin subject service: a school's subjects, unique by name among the
    live ones, listed by name, edited, and soft-deleted when no teacher holds
    them. A soft-deleted subject keeps its row with `deletedAt` set; the
    repository's lookups skip such rows. */
module SubjectsService {
  import opened Common
  import opened Entities
  import opened Seqs
  import opened Text
  import opened Store

  datatype CreateSubjectDto = CreateSubjectDto(name: string, code: Option<string>)
  datatype UpdateSubjectDto = UpdateSubjectDto(name: Option<string>, code: Option<string>)

  /** Every operation first needs a non-empty school id naming a school. */
  function SchoolContext(schools: seq<School>, schoolId: Id): (e: Option<Error>)
    ensures e.None? <==> schoolId != [] && EnsureSchool(schools, schoolId).Ok?
    ensures schoolId == [] ==> e == Some(BadRequest("Missing school context"))
    ensures schoolId != [] && e.Some? ==> e == Some(BadRequest("Invalid school context"))
  {
    if schoolId == [] then Some(BadRequest("Missing school context"))
    else if EnsureSchool(schools, schoolId).Err? then Some(EnsureSchool(schools, schoolId).error)
    else None
  }

  predicate Live(s: Subject) {
    s.deletedAt.None?
  }

  /** The unique index on (schoolId, code): another row of the school already
      has the code. Soft-deleted rows still hold their code; null codes never
      collide. */
  predicate CodeTaken(subjects: seq<Subject>, schoolId: Id, code: Option<string>, except: Option<Id>) {
    && code.Some?
    && exists i :: 0 <= i < |subjects| && subjects[i].schoolId == schoolId
                   && subjects[i].code == code && Some(subjects[i].id) != except
  }

  // ---------------------------------------------------------------------------
  // create

  /** A live subject of the school with that name. */
  function LiveNamed(subjects: seq<Subject>, schoolId: Id, name: string): Option<Subject> {
    First(subjects, (s: Subject) => s.name == name && s.schoolId == schoolId && Live(s))
  }

  /** `create`: the validations in order, then the insert. `freshId` is the id the
      database generates. */
  method Create(db: Db, schoolId: Id, dto: CreateSubjectDto, freshId: Id) returns (r: Result<Subject>)
    modifies db`subjects
    ensures SchoolContext(old(db.schools), schoolId).Some? ==> r == Err(SchoolContext(old(db.schools), schoolId).value)
    ensures SchoolContext(old(db.schools), schoolId).None? && LiveNamed(old(db.subjects), schoolId, dto.name).Some? ==>
      r == Err(BadRequest("Subject with this name already exists"))
    ensures r.Err? ==> db.subjects == old(db.subjects)
    ensures r.Ok? <==>
      && SchoolContext(old(db.schools), schoolId).None?
      && LiveNamed(old(db.subjects), schoolId, dto.name).None?
      && !CodeTaken(old(db.subjects), schoolId, dto.code, None)
    ensures r.Ok? ==> r.value == Subject(freshId, schoolId, dto.name, dto.code, None)
                      && db.subjects == old(db.subjects) + [r.value]
  {
    var e := SchoolContext(db.schools, schoolId);
    if e.Some? {
      return Err(e.value);
    }
    if LiveNamed(db.subjects, schoolId, dto.name).Some? {
      return Err(BadRequest("Subject with this name already exists"));
    }
    if CodeTaken(db.subjects, schoolId, dto.code, None) {
      return Err(InternalError);
    }
    var s := Subject(freshId, schoolId, dto.name, dto.code, None);
    db.subjects := db.subjects + [s];
    r := Ok(s);
  }

  /** The name of a soft-deleted subject may be reused: only live subjects
      block `create`. */
  lemma DeletedNameReusable(subjects: seq<Subject>, schoolId: Id, name: string)
    requires forall i :: 0 <= i < |subjects| && subjects[i].schoolId == schoolId && subjects[i].name == name ==>
      !Live(subjects[i])
    ensures LiveNamed(subjects, schoolId, name).None?
  {
  }

  // ---------------------------------------------------------------------------
  // list

  predicate NameAsc(a: Subject, b: Subject) {
    LexLe(a.name, b.name)
  }

  lemma NameAscTotal()
    ensures TotalPreorder(NameAsc)
  {
    forall a: Subject, b: Subject ensures NameAsc(a, b) || NameAsc(b, a) {
      LexLeTotal(a.name, b.name);
    }
    forall a: Subject, b: Subject, c: Subject | NameAsc(a, b) && NameAsc(b, c)
      ensures NameAsc(a, c)
    {
      LexLeTransitive(a.name, b.name, c.name);
    }
  }

  /** The conditions of `list`: the school, live, and name ILIKE `%search%`
      when a search is given. */
  predicate Listed(s: Subject, schoolId: Id, search: Option<string>) {
    s.schoolId == schoolId && Live(s) && (Truthy(search) ==> ILike(s.name, search.value))
  }

  function Listing(schoolId: Id, search: Option<string>): Subject -> bool {
    (s: Subject) => Listed(s, schoolId, search)
  }

  /** `list`. */
  function List(schools: seq<School>, subjects: seq<Subject>, schoolId: Id, search: Option<string>): (r: Result<seq<Subject>>)
    ensures r.Err? <==> SchoolContext(schools, schoolId).Some?
    ensures r.Ok? ==> multiset(r.value) == multiset(Filter(subjects, Listing(schoolId, search)))
  {
    var e := SchoolContext(schools, schoolId);
    if e.Some? then Err(e.value)
    else Ok(SortBy(Filter(subjects, Listing(schoolId, search)), NameAsc))
  }

  /** `list` returns exactly the school's live subjects that match, sorted by
      name ascending. */
  lemma ListContents(schools: seq<School>, subjects: seq<Subject>, schoolId: Id, search: Option<string>)
    requires SchoolContext(schools, schoolId).None?
    ensures var r := List(schools, subjects, schoolId, search).value;
      && Sorted(r, NameAsc)
      && (forall k :: 0 <= k < |r| ==> r[k] in subjects && Listed(r[k], schoolId, search))
      && (forall j :: 0 <= j < |subjects| && Listed(subjects[j], schoolId, search) ==> subjects[j] in r)
  {
    var f := Filter(subjects, Listing(schoolId, search));
    var r := List(schools, subjects, schoolId, search).value;
    NameAscTotal();
    SortBySorted(f, NameAsc);
    forall k | 0 <= k < |r|
      ensures r[k] in subjects && Listed(r[k], schoolId, search)
    {
      assert r[k] in multiset(r);
      assert r[k] in f;
    }
    forall j | 0 <= j < |subjects| && Listed(subjects[j], schoolId, search)
      ensures subjects[j] in r
    {
      assert Listing(schoolId, search)(subjects[j]);
      assert subjects[j] in multiset(f);
    }
  }

  // ---------------------------------------------------------------------------
  // update and remove

  /** `findOne({ where: { id } })`: the delete date column hides soft-deleted rows. */
  function Found(subjects: seq<Subject>, id: Id): Option<Subject> {
    First(subjects, (s: Subject) => s.id == id && Live(s))
  }

  function SubjectIndex(subjects: seq<Subject>, id: Id): nat {
    IndexOf(subjects, (s: Subject) => s.id == id && Live(s))
  }

  /** The validations of `update` and `remove`: the school context, then a live
      subject with that id, then its school. */
  function SubjectError(schools: seq<School>, subjects: seq<Subject>, schoolId: Id, id: Id): (e: Option<Error>)
    ensures e.None? <==> SchoolContext(schools, schoolId).None? && Found(subjects, id).Some? && Found(subjects, id).value.schoolId == schoolId
    ensures SchoolContext(schools, schoolId).None? && (forall i :: 0 <= i < |subjects| && subjects[i].id == id ==> !Live(subjects[i])) ==>
      e == Some(NotFound("Subject not found"))
  {
    if SchoolContext(schools, schoolId).Some? then SchoolContext(schools, schoolId)
    else
      var s := Found(subjects, id);
      if s.None? then Some(NotFound("Subject not found"))
      else if s.value.schoolId != schoolId then Some(BadRequest("Not allowed"))
      else None
  }

  /** `update`: the name and code that are given overwrite; a code another row
      of the school holds violates the unique index. */
  method Update(db: Db, schoolId: Id, id: Id, dto: UpdateSubjectDto) returns (r: Result<Subject>)
    modifies db`subjects
    ensures SubjectError(old(db.schools), old(db.subjects), schoolId, id).Some? ==>
      r == Err(SubjectError(old(db.schools), old(db.subjects), schoolId, id).value)
    ensures r.Err? ==> db.subjects == old(db.subjects)
    ensures SubjectError(old(db.schools), old(db.subjects), schoolId, id).None? ==>
      var k := SubjectIndex(old(db.subjects), id);
      var s := old(db.subjects)[k];
      var s' := s.(name := OrElse(dto.name, s.name), code := if dto.code.Some? then dto.code else s.code);
      && s.id == id && s.schoolId == schoolId && Live(s)
      && (CodeTaken(old(db.subjects), schoolId, dto.code, Some(id)) ==> r == Err(InternalError))
      && (!CodeTaken(old(db.subjects), schoolId, dto.code, Some(id)) ==>
            r == Ok(s') && db.subjects == old(db.subjects)[k := s'])
  {
    var e := SubjectError(db.schools, db.subjects, schoolId, id);
    if e.Some? {
      return Err(e.value);
    }
    FirstAtIndexOf(db.subjects, (s: Subject) => s.id == id && Live(s));
    var k := SubjectIndex(db.subjects, id);
    var s := db.subjects[k];
    if CodeTaken(db.subjects, schoolId, dto.code, Some(id)) {
      return Err(InternalError);
    }
    var s' := s.(name := OrElse(dto.name, s.name), code := if dto.code.Some? then dto.code else s.code);
    db.subjects := db.subjects[k := s'];
    r := Ok(s');
  }

  /** Some teacher holds the subject in its `subjects` relation. */
  predicate Assigned(teachers: seq<TeacherProfile>, id: Id) {
    exists i :: 0 <= i < |teachers| && id in teachers[i].subjects
  }

  /** `remove`: refused while a teacher holds the subject, otherwise the row
      stays with `deletedAt` set to `now`. */
  method Remove(db: Db, schoolId: Id, id: Id, now: int) returns (r: Result<string>)
    modifies db`subjects
    ensures SubjectError(old(db.schools), old(db.subjects), schoolId, id).Some? ==>
      r == Err(SubjectError(old(db.schools), old(db.subjects), schoolId, id).value)
    ensures SubjectError(old(db.schools), old(db.subjects), schoolId, id).None? && Assigned(db.teachers, id) ==>
      r == Err(BadRequest("Cannot delete subject assigned to teachers or classes"))
    ensures r.Err? ==> db.subjects == old(db.subjects)
    ensures r.Ok? <==> SubjectError(old(db.schools), old(db.subjects), schoolId, id).None? && !Assigned(db.teachers, id)
    ensures r.Ok? ==>
      var k := SubjectIndex(old(db.subjects), id);
      && k < |old(db.subjects)| && old(db.subjects)[k].id == id
      && r.value == "Subject soft-deleted"
      && db.subjects == old(db.subjects)[k := old(db.subjects)[k].(deletedAt := Some(now))]
  {
    var e := SubjectError(db.schools, db.subjects, schoolId, id);
    if e.Some? {
      return Err(e.value);
    }
    if Assigned(db.teachers, id) {
      return Err(BadRequest("Cannot delete subject assigned to teachers or classes"));
    }
    FirstAtIndexOf(db.subjects, (s: Subject) => s.id == id && Live(s));
    var k := SubjectIndex(db.subjects, id);
    db.subjects := db.subjects[k := db.subjects[k].(deletedAt := Some(now))];
    r := Ok("Subject soft-deleted");
  }

  ghost predicate UniqueSubjectIds(subjects: seq<Subject>) {
    forall i, j :: 0 <= i < j < |subjects| ==> subjects[i].id != subjects[j].id
  }

  /** Once removed, a subject is gone for `list`, `update` and `remove`, while
      its row is kept. */
  lemma RemovedIsInvisible(schools: seq<School>, subjects: seq<Subject>, schoolId: Id, id: Id, now: int,
                           search: Option<string>)
    requires UniqueSubjectIds(subjects)
    requires SubjectError(schools, subjects, schoolId, id).None?
    ensures var k := SubjectIndex(subjects, id);
      var after := subjects[k := subjects[k].(deletedAt := Some(now))];
      && |after| == |subjects| && after[k].id == id
      && SubjectError(schools, after, schoolId, id) == Some(NotFound("Subject not found"))
      && forall i :: 0 <= i < |List(schools, after, schoolId, search).value| ==>
           List(schools, after, schoolId, search).value[i].id != id
  {
    FirstAtIndexOf(subjects, (s: Subject) => s.id == id && Live(s));
    var k := SubjectIndex(subjects, id);
    var after := subjects[k := subjects[k].(deletedAt := Some(now))];
    assert forall i :: 0 <= i < |after| && after[i].id == id ==> i == k;
    ListContents(schools, after, schoolId, search);
  }
}
