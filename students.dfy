/** The admin student service: enrolment into a class of the school, the
    paged student list, edits, and the CSV bulk import. */
module StudentsService {
  import opened Common
  import opened Entities
  import opened Seqs
  import opened Text
  import opened Store

  /** `classRepo.findOne({ where: { id, school: { id: schoolId } } })`: the
      id column is a uuid, so any spelling of the class's id finds it. */
  function SchoolClass(classes: seq<ClassEntity>, classId: Id, schoolId: Id): Option<ClassEntity> {
    First(classes, (c: ClassEntity) => SameUuid(c.id, classId) && c.schoolId == Some(schoolId))
  }

  /** The class found is found again by its own id. */
  lemma SchoolClassFound(classes: seq<ClassEntity>, classId: Id, schoolId: Id)
    requires SchoolClass(classes, classId, schoolId).Some?
    ensures SchoolClass(classes, SchoolClass(classes, classId, schoolId).value.id, schoolId).Some?
  {
    var c := SchoolClass(classes, classId, schoolId).value;
    var p := (x: ClassEntity) => SameUuid(x.id, c.id) && x.schoolId == Some(schoolId);
    var i :| 0 <= i < |classes| && classes[i] == c;
    assert p(classes[i]);
  }

  /** Two spellings of one uuid find the same class. */
  lemma SchoolClassSpellings(classes: seq<ClassEntity>, a: Id, b: Id, schoolId: Id)
    requires SameUuid(a, b)
    ensures SchoolClass(classes, a, schoolId) == SchoolClass(classes, b, schoolId)
  {
    FirstSame(classes, (c: ClassEntity) => SameUuid(c.id, a) && c.schoolId == Some(schoolId),
              (c: ClassEntity) => SameUuid(c.id, b) && c.schoolId == Some(schoolId));
  }

  /** Every student sits in a class of its own school. */
  ghost predicate StudentsInSchoolClasses(students: seq<Student>, classes: seq<ClassEntity>) {
    forall i :: 0 <= i < |students| ==> SchoolClass(classes, students[i].classId, students[i].schoolId).Some?
  }

  datatype Saved = Saved(id: Id, name: string)

  // ---------------------------------------------------------------------------
  // create

  datatype CreateStudentDto = CreateStudentDto(name: string, rollNo: Option<string>, classId: Id, photoUrl: Option<string>)

  /** `create`: the class must be one of the school's; the new student gets
      that class and the school. `freshId` is the generated id. */
  method Create(db: Db, schoolId: Id, dto: CreateStudentDto, freshId: Id) returns (r: Result<Saved>)
    modifies db`students
    ensures EnsureSchool(db.schools, schoolId).Err? ==> r == Err(BadRequest("Invalid school context"))
    ensures EnsureSchool(db.schools, schoolId).Ok? && SchoolClass(db.classes, dto.classId, schoolId).None? ==>
      r == Err(BadRequest("Invalid class for this school"))
    ensures r.Err? ==> db.students == old(db.students)
    ensures r.Ok? <==> EnsureSchool(db.schools, schoolId).Ok? && SchoolClass(db.classes, dto.classId, schoolId).Some?
    ensures r.Ok? ==>
      && r.value == Saved(freshId, dto.name)
      && var cls := SchoolClass(db.classes, dto.classId, schoolId).value;
      && db.students == old(db.students) + [Student(freshId, schoolId, cls.id, dto.name, dto.rollNo, dto.photoUrl)]
    ensures StudentsInSchoolClasses(old(db.students), db.classes) ==> StudentsInSchoolClasses(db.students, db.classes)
  {
    var school := EnsureSchool(db.schools, schoolId);
    if school.Err? {
      return Err(school.error);
    }
    var cls := SchoolClass(db.classes, dto.classId, schoolId);
    if cls.None? {
      return Err(BadRequest("Invalid class for this school"));
    }
    SchoolClassFound(db.classes, dto.classId, schoolId);
    var s := Student(freshId, schoolId, cls.value.id, dto.name, dto.rollNo, dto.photoUrl);
    db.students := db.students + [s];
    r := Ok(Saved(freshId, dto.name));
  }

  // ---------------------------------------------------------------------------
  // list

  datatype StudentQuery = StudentQuery(page: Option<int>, limit: Option<int>, search: Option<string>, classId: Option<string>)

  datatype StudentPage = StudentPage(items: seq<Student>, total: nat, page: int, limit: int)

  /** The page and limit asked for, when given, are positive. */
  predicate ValidPaging(q: StudentQuery) {
    (q.page.Some? ==> q.page.value >= 1) && (q.limit.Some? ==> q.limit.value >= 1)
  }

  /** `s.name ILIKE :q OR s.rollNo ILIKE :q`; a null roll number matches nothing. */
  predicate MatchesSearch(s: Student, search: string) {
    ILike(s.name, search) || (s.rollNo.Some? && ILike(s.rollNo.value, search))
  }

  /** The conditions of `list`; an empty filter value is no filter. */
  predicate Selected(s: Student, schoolId: Id, search: Option<string>, classId: Option<string>) {
    && s.schoolId == schoolId
    && (Truthy(search) ==> MatchesSearch(s, search.value))
    && (Truthy(classId) ==> s.classId == classId.value)
  }

  function Selection(schoolId: Id, search: Option<string>, classId: Option<string>): Student -> bool {
    (s: Student) => Selected(s, schoolId, search, classId)
  }

  /** `list`: the school's selected students in table order, paged with
      `skip = (page - 1) * limit`, page 1 and limit 20 by default. */
  function List(schools: seq<School>, students: seq<Student>, schoolId: Id, q: StudentQuery): (r: Result<StudentPage>)
    requires ValidPaging(q)
    ensures r.Err? <==> EnsureSchool(schools, schoolId).Err?
    ensures r.Ok? ==>
      && r.value.page == OrElse(q.page, 1) && r.value.limit == OrElse(q.limit, 20)
      && r.value.total == |Filter(students, Selection(schoolId, q.search, q.classId))|
      && |r.value.items| <= r.value.limit
      && forall k :: 0 <= k < |r.value.items| ==> r.value.items[k] in students && Selected(r.value.items[k], schoolId, q.search, q.classId)
  {
    var _ :- EnsureSchool(schools, schoolId);
    var page := OrElse(q.page, 1);
    var limit := OrElse(q.limit, 20);
    var rows := Filter(students, Selection(schoolId, q.search, q.classId));
    Ok(StudentPage(Page(rows, page, limit), |rows|, page, limit))
  }

  /** No selected student is out of reach of paging: the j-th of them is
      item `j % limit` of page `j / limit + 1`. */
  lemma {:induction false} ListReachesEveryStudent(schools: seq<School>, students: seq<Student>, schoolId: Id, q: StudentQuery, j: nat)
    requires EnsureSchool(schools, schoolId).Ok?
    requires q.limit.Some? && q.limit.value >= 1
    requires j < |Filter(students, Selection(schoolId, q.search, q.classId))|
    ensures var l := List(schools, students, schoolId, q.(page := Some(j / q.limit.value + 1))).value;
      j % q.limit.value < |l.items| && l.items[j % q.limit.value] == Filter(students, Selection(schoolId, q.search, q.classId))[j]
  {
    PageCovers(Filter(students, Selection(schoolId, q.search, q.classId)), q.limit.value, j);
  }

  // ---------------------------------------------------------------------------
  // update: ownership of an existing student

  /** The relations `update` loads with the student. */
  const UpdateRelations: set<string> := {"currentClass"}

  /** `student.school?.id` on a student loaded with the given relations: the
      `school` relation is not eager, so it is undefined unless requested. */
  function LoadedSchoolId(s: Student, relations: set<string>): Option<Id> {
    if "school" in relations then Some(s.schoolId) else None
  }

  /** The ownership checks as written: the student by id, then
      `student.school?.id !== schoolId` on the student as loaded. */
  function OwnershipErrorAsWritten(students: seq<Student>, id: Id, schoolId: Id, relations: set<string>): Option<Error> {
    var s := First(students, (s: Student) => s.id == id);
    if s.None? then Some(NotFound("Student not found"))
    else if LoadedSchoolId(s.value, relations) != Some(schoolId) then Some(BadRequest("Not allowed"))
    else None
  }

  /** As written, no existing student passes the ownership check of `update`,
      not even one of the caller's own school. */
  lemma OwnershipAsWrittenRefusesOwnStudent(students: seq<Student>, id: Id, schoolId: Id)
    requires exists j :: 0 <= j < |students| && students[j].id == id
    ensures OwnershipErrorAsWritten(students, id, schoolId, UpdateRelations) == Some(BadRequest("Not allowed"))
  {
    var j :| 0 <= j < |students| && students[j].id == id;
    assert ((s: Student) => s.id == id)(students[j]);
  }

  /** The intended ownership checks: the student exists and is in the
      caller's school. */
  function OwnershipError(students: seq<Student>, id: Id, schoolId: Id): (e: Option<Error>)
    ensures e.None? <==> First(students, (s: Student) => s.id == id).Some?
                         && First(students, (s: Student) => s.id == id).value.schoolId == schoolId
    ensures e == Some(NotFound("Student not found")) <==> forall j :: 0 <= j < |students| ==> students[j].id != id
    ensures e.Some? ==> e.value == NotFound("Student not found") || e.value == BadRequest("Not allowed")
  {
    OwnershipErrorAsWritten(students, id, schoolId, UpdateRelations + {"school"})
  }

  datatype UpdateStudentDto = UpdateStudentDto(name: Option<string>, rollNo: Option<string>,
                                               classId: Option<string>, photoUrl: Option<string>)

  function StudentIndex(students: seq<Student>, id: Id): nat {
    IndexOf(students, (s: Student) => s.id == id)
  }

  /** The fields `update` writes: the class `cls` its lookup found when a
      class id is given, and each of name, roll number and photo that is
      present. */
  function UpdatedStudent(s: Student, dto: UpdateStudentDto, cls: Option<ClassEntity>): Student {
    s.(classId := if cls.Some? then cls.value.id else s.classId,
       name := OrElse(dto.name, s.name),
       rollNo := if dto.rollNo.Some? then dto.rollNo else s.rollNo,
       photoUrl := if dto.photoUrl.Some? then dto.photoUrl else s.photoUrl)
  }

  /** An update with nothing in it changes nothing, and the id and school
      never change. */
  lemma UpdatedStudentKeeps(s: Student, dto: UpdateStudentDto, cls: Option<ClassEntity>)
    ensures UpdatedStudent(s, dto, cls).id == s.id && UpdatedStudent(s, dto, cls).schoolId == s.schoolId
    ensures dto == UpdateStudentDto(None, None, None, None) ==> UpdatedStudent(s, dto, None) == s
    ensures UpdatedStudent(UpdatedStudent(s, dto, cls), dto, cls) == UpdatedStudent(s, dto, cls)
  {
  }

  /** The class check of `update`: only a given class id is checked. The
      request body is not validated, so the id can be any text, and text that
      is no uuid makes the lookup raise, which Nest answers with a 500. */
  function ClassError(classes: seq<ClassEntity>, schoolId: Id, classId: Option<string>): (e: Option<Error>)
    ensures e.None? <==> !Truthy(classId) || (IsUuid(classId.value) && SchoolClass(classes, classId.value, schoolId).Some?)
    ensures e == Some(InternalError) <==> Truthy(classId) && !IsUuid(classId.value)
    ensures e == Some(BadRequest("Invalid class for this school")) <==>
      Truthy(classId) && IsUuid(classId.value) && SchoolClass(classes, classId.value, schoolId).None?
  {
    if !Truthy(classId) then None
    else if !IsUuid(classId.value) then Some(InternalError)
    else if SchoolClass(classes, classId.value, schoolId).None? then Some(BadRequest("Invalid class for this school"))
    else None
  }

  /** The class `update` assigns: the one its lookup finds for a given id. */
  function UpdateClass(classes: seq<ClassEntity>, schoolId: Id, classId: Option<string>): Option<ClassEntity> {
    if Truthy(classId) then SchoolClass(classes, classId.value, schoolId) else None
  }

  /** `update`, with the intended ownership check. */
  method Update(db: Db, schoolId: Id, id: Id, dto: UpdateStudentDto) returns (r: Result<Saved>)
    modifies db`students
    ensures EnsureSchool(db.schools, schoolId).Err? ==> r == Err(BadRequest("Invalid school context"))
    ensures EnsureSchool(db.schools, schoolId).Ok? && OwnershipError(old(db.students), id, schoolId).Some? ==>
      r == Err(OwnershipError(old(db.students), id, schoolId).value)
    ensures EnsureSchool(db.schools, schoolId).Ok? && OwnershipError(old(db.students), id, schoolId).None? ==>
      && (ClassError(db.classes, schoolId, dto.classId).Some? ==> r == Err(ClassError(db.classes, schoolId, dto.classId).value))
      && (ClassError(db.classes, schoolId, dto.classId).None? ==> r.Ok?)
    ensures r.Err? ==> db.students == old(db.students) && (r.error.BadRequest? || r.error.NotFound? || r.error == InternalError)
    ensures r.Ok? ==>
      var k := StudentIndex(old(db.students), id);
      var cls := UpdateClass(db.classes, schoolId, dto.classId);
      && k < |old(db.students)| && old(db.students)[k].id == id
      && db.students == old(db.students)[k := UpdatedStudent(old(db.students)[k], dto, cls)]
      && r.value == Saved(id, UpdatedStudent(old(db.students)[k], dto, cls).name)
    ensures StudentsInSchoolClasses(old(db.students), db.classes) ==> StudentsInSchoolClasses(db.students, db.classes)
  {
    var school := EnsureSchool(db.schools, schoolId);
    if school.Err? {
      return Err(school.error);
    }
    var owner := OwnershipError(db.students, id, schoolId);
    if owner.Some? {
      return Err(owner.value);
    }
    FirstAtIndexOf(db.students, (s: Student) => s.id == id);
    var k := StudentIndex(db.students, id);
    var cls: Option<ClassEntity> := None;
    if Truthy(dto.classId) {
      if !IsUuid(dto.classId.value) {
        return Err(InternalError);
      }
      cls := SchoolClass(db.classes, dto.classId.value, schoolId);
      if cls.None? {
        return Err(BadRequest("Invalid class for this school"));
      }
      SchoolClassFound(db.classes, dto.classId.value, schoolId);
    }
    r := SaveStudent(db, k, dto, cls);
  }

  /** The writes of `update` once its checks pass: the class found, then
      each given field, saved in place of the student at `k`. */
  method SaveStudent(db: Db, k: nat, dto: UpdateStudentDto, cls: Option<ClassEntity>) returns (r: Result<Saved>)
    requires k < |db.students|
    requires cls.Some? ==> SchoolClass(db.classes, cls.value.id, db.students[k].schoolId).Some?
    modifies db`students
    ensures db.students == old(db.students)[k := UpdatedStudent(old(db.students)[k], dto, cls)]
    ensures r == Ok(Saved(old(db.students)[k].id, UpdatedStudent(old(db.students)[k], dto, cls).name))
    ensures StudentsInSchoolClasses(old(db.students), db.classes) ==> StudentsInSchoolClasses(db.students, db.classes)
  {
    var s := db.students[k];
    if cls.Some? {
      s := s.(classId := cls.value.id);
    }
    if dto.name.Some? {
      s := s.(name := dto.name.value);
    }
    if dto.rollNo.Some? {
      s := s.(rollNo := dto.rollNo);
    }
    if dto.photoUrl.Some? {
      s := s.(photoUrl := dto.photoUrl);
    }
    ReplaceKeepsInSchoolClasses(db.students, k, s, db.classes);
    db.students := db.students[k := s];
    r := Ok(Saved(s.id, s.name));
  }

  /** Replacing one student by one in a class of its school keeps them all so. */
  lemma ReplaceKeepsInSchoolClasses(students: seq<Student>, k: nat, s: Student, classes: seq<ClassEntity>)
    requires k < |students|
    requires (s.classId, s.schoolId) == (students[k].classId, students[k].schoolId)
             || SchoolClass(classes, s.classId, s.schoolId).Some?
    ensures StudentsInSchoolClasses(students, classes) ==> StudentsInSchoolClasses(students[k := s], classes)
  {
  }

  // ---------------------------------------------------------------------------
  // importCsvBuffer: lines

  /** A piece ending in a carriage return loses it. */
  function DropCR(l: string): string {
    if |l| > 0 && l[|l| - 1] == '\r' then l[..|l| - 1] else l
  }

  /** `text.split(/\r?\n/)`: a split at every line feed, where a carriage
      return just before the line feed belongs to the separator. */
  function SplitLines(text: string): (r: seq<string>)
    ensures |r| == |Split(text, '\n')|
  {
    var parts := Split(text, '\n');
    seq(|parts|, i requires 0 <= i < |parts| => if i < |parts| - 1 then DropCR(parts[i]) else parts[i])
  }

  lemma {:induction false} TrimStartSnoc(s: string, c: char)
    ensures TrimStart(s + [c]) == if TrimStart(s) == [] then TrimStart([c]) else TrimStart(s) + [c]
  {
    if |s| == 0 {
      assert s + [c] == [c];
    } else if IsWhitespace(s[0]) {
      assert (s + [c])[1..] == s[1..] + [c];
      TrimStartSnoc(s[1..], c);
    }
  }

  lemma TrimEndSnocSpace(t: string, c: char)
    requires IsWhitespace(c)
    ensures TrimEnd(t + [c]) == TrimEnd(t)
  {
    assert (t + [c])[..|t|] == t;
  }

  lemma TrimStartSpace(c: char)
    requires IsWhitespace(c)
    ensures TrimStart([c]) == []
  {
    assert [c][1..] == [];
  }

  lemma TrimSnocCR(p: string)
    ensures Trim(p + ['\r']) == Trim(p)
  {
    TrimStartSnoc(p, '\r');
    TrimStartSpace('\r');
    if TrimStart(p) != [] {
      TrimEndSnocSpace(TrimStart(p), '\r');
    }
  }

  /** Trimming already removes a trailing carriage return. */
  lemma TrimDropCR(l: string)
    ensures Trim(DropCR(l)) == Trim(l)
  {
    if |l| > 0 && l[|l| - 1] == '\r' {
      assert l == l[..|l| - 1] + ['\r'];
      TrimSnocCR(l[..|l| - 1]);
    }
  }

  /** `.map((l) => l.trim()).filter(Boolean)`: each piece trimmed, the
      empty ones dropped. */
  function TrimLines(pieces: seq<string>): (r: seq<string>)
    ensures |r| <= |pieces|
    ensures forall i :: 0 <= i < |r| ==> r[i] != ""
  {
    if |pieces| == 0 then []
    else
      var t := Trim(pieces[0]);
      if t == "" then TrimLines(pieces[1..]) else [t] + TrimLines(pieces[1..])
  }

  /** Pieces that trim alike give the same lines. */
  lemma {:induction false} TrimLinesAlike(a: seq<string>, b: seq<string>)
    requires |a| == |b|
    requires forall i :: 0 <= i < |a| ==> Trim(a[i]) == Trim(b[i])
    ensures TrimLines(a) == TrimLines(b)
  {
    if |a| > 0 {
      TrimLinesAlike(a[1..], b[1..]);
    }
  }

  /** The lines of the file. */
  function Lines(text: string): seq<string> {
    TrimLines(SplitLines(text))
  }

  /** The carriage returns make no difference: a plain split at line feeds
      gives the same lines. */
  lemma LinesIgnoreCR(text: string)
    ensures Lines(text) == TrimLines(Split(text, '\n'))
  {
    var parts := Split(text, '\n');
    forall i | 0 <= i < |parts| ensures Trim(SplitLines(text)[i]) == Trim(parts[i]) {
      TrimDropCR(parts[i]);
    }
    TrimLinesAlike(SplitLines(text), parts);
  }

  // ---------------------------------------------------------------------------
  // importCsvBuffer: the header

  /** `header.indexOf(name)`: the first column with that name. */
  function ColumnOf(header: seq<string>, name: string): (r: Option<nat>)
    ensures r.None? <==> name !in header
    ensures r.Some? ==> r.value < |header| && header[r.value] == name
                        && forall i :: 0 <= i < r.value ==> header[i] != name
  {
    var k := IndexOf(header, (h: string) => h == name);
    if k < |header| then Some(k) else None
  }

  /** Header cells are trimmed and lower-cased. */
  function HeaderCells(line: string): seq<string> {
    NormalizeEach(Split(line, ','))
  }

  function NormalizeEach(cells: seq<string>): seq<string> {
    if |cells| == 0 then [] else [Lower(Trim(cells[0]))] + NormalizeEach(cells[1..])
  }

  datatype Columns = Columns(name: nat, rollNo: Option<nat>, classId: nat, photoUrl: Option<nat>)

  /** The columns of the file; `name` and `classid` are required. */
  function ColumnsOf(header: seq<string>): (r: Result<Columns>)
    ensures r.Err? <==> "name" !in header || "classid" !in header
    ensures r.Err? ==> r.error == BadRequest("CSV must include name and classId columns")
    ensures r.Ok? ==> && Some(r.value.name) == ColumnOf(header, "name")
                      && Some(r.value.classId) == ColumnOf(header, "classid")
                      && r.value.rollNo == ColumnOf(header, "rollno")
                      && r.value.photoUrl == ColumnOf(header, "photourl")
  {
    var name := ColumnOf(header, "name");
    var classId := ColumnOf(header, "classid");
    if name.None? || classId.None? then Err(BadRequest("CSV must include name and classId columns"))
    else Ok(Columns(name.value, ColumnOf(header, "rollno"), classId.value, ColumnOf(header, "photourl")))
  }

  // ---------------------------------------------------------------------------
  // importCsvBuffer: the rows

  /** The cells of a line, each trimmed. */
  function Cells(line: string): seq<string> {
    Map(Split(line, ','), (c: string) => Trim(c))
  }

  /** `row[i]`, `undefined` past the end. */
  function CellAt(row: seq<string>, i: nat): Option<string> {
    if i < |row| then Some(row[i]) else None
  }

  /** `row[nameIdx] ?? ''`. */
  function NameCell(cols: Columns, row: seq<string>): string {
    OrElse(CellAt(row, cols.name), "")
  }

  /** `row[classIdx] ?? ''`. */
  function ClassCell(cols: Columns, row: seq<string>): string {
    OrElse(CellAt(row, cols.classId), "")
  }

  /** `rollNo || undefined`: a missing column, a missing cell and an empty
      cell all give no roll number. */
  function RollNoCell(cols: Columns, row: seq<string>): (r: Option<string>)
    ensures r.Some? ==> r.value != ""
    ensures cols.rollNo.None? ==> r.None?
  {
    if cols.rollNo.None? then None
    else
      var v := OrElse(CellAt(row, cols.rollNo.value), "");
      if v == "" then None else Some(v)
  }

  /** The photo cell, as it is: absent without the column or past the end of
      the row, and possibly empty. */
  function PhotoCell(cols: Columns, row: seq<string>): (r: Option<string>)
    ensures cols.photoUrl.None? ==> r.None?
  {
    if cols.photoUrl.None? then None else CellAt(row, cols.photoUrl.value)
  }

  datatype RowError = RowError(row: nat, error: string)

  /** What becomes of one data line: a student queued for insert, one error,
      or the exception the class lookup raises, which ends the import. */
  datatype Outcome = Queued(student: Student) | Failed(error: RowError) | Thrown

  /** The class lookup of a named line raises: its class cell is not text
      PostgreSQL can compare with the uuid key of `classes`. */
  predicate LookupThrows(cols: Columns, row: seq<string>) {
    NameCell(cols, row) != "" && ClassCell(cols, row) != "" && !IsUuid(ClassCell(cols, row))
  }

  /** One data line, given by its cells, with its row number and the id its
      student would get. The validations run in order and the first failing one
      is the line's only error; a class cell that is no uuid makes the lookup
      raise instead. */
  function ParseRow(cols: Columns, row: seq<string>, rowNum: nat, classes: seq<ClassEntity>, schoolId: Id, id: Id): (o: Outcome)
    ensures o.Failed? ==> o.error.row == rowNum
    ensures o == Failed(RowError(rowNum, "Missing name")) <==> NameCell(cols, row) == ""
    ensures o == Failed(RowError(rowNum, "Missing classId")) <==> NameCell(cols, row) != "" && ClassCell(cols, row) == ""
    ensures o == Thrown <==> LookupThrows(cols, row)
    ensures o == Failed(RowError(rowNum, "Invalid classId for this school")) <==>
      && NameCell(cols, row) != "" && ClassCell(cols, row) != "" && IsUuid(ClassCell(cols, row))
      && SchoolClass(classes, ClassCell(cols, row), schoolId).None?
    ensures o.Queued? ==>
      && SchoolClass(classes, ClassCell(cols, row), schoolId).Some?
      && var cls := SchoolClass(classes, ClassCell(cols, row), schoolId).value;
      && o.student == Student(id, schoolId, cls.id, NameCell(cols, row), RollNoCell(cols, row), PhotoCell(cols, row))
      && o.student.name != ""
      && SchoolClass(classes, o.student.classId, schoolId).Some?
  {
    var name := NameCell(cols, row);
    var classId := ClassCell(cols, row);
    if name == "" then Failed(RowError(rowNum, "Missing name"))
    else if classId == "" then Failed(RowError(rowNum, "Missing classId"))
    else if !IsUuid(classId) then Thrown
    else if SchoolClass(classes, classId, schoolId).None? then Failed(RowError(rowNum, "Invalid classId for this school"))
    else
      SchoolClassFound(classes, classId, schoolId);
      Queued(Student(id, schoolId, SchoolClass(classes, classId, schoolId).value.id, name, RollNoCell(cols, row), PhotoCell(cols, row)))
  }

  /** The two arrays the loop fills. */
  datatype Parsed = Parsed(toInsert: seq<Student>, errors: seq<RowError>)

  /** One more line: an entry in one of the arrays, or the 500 the raised
      lookup becomes. */
  function Step(p: Parsed, o: Outcome): Result<Parsed> {
    match o
    case Queued(s) => Ok(Parsed(p.toInsert + [s], p.errors))
    case Failed(e) => Ok(Parsed(p.toInsert, p.errors + [e]))
    case Thrown => Err(InternalError)
  }

  /** What becomes of each data line, given by its cells: the data line
      `rows[j]` is line `j + 1` of the file, row `j + 2` of the report, and its
      student gets the id `ids(j + 1)`. */
  function Outcomes(rows: seq<seq<string>>, cols: Columns, classes: seq<ClassEntity>, schoolId: Id, ids: nat -> Id): (os: seq<Outcome>)
    ensures |os| == |rows|
  {
    if rows == [] then []
    else
      var n := |rows|;
      Outcomes(rows[..n - 1], cols, classes, schoolId, ids) + [ParseRow(cols, rows[n - 1], n + 1, classes, schoolId, ids(n))]
  }

  lemma {:induction false} OutcomesAt(rows: seq<seq<string>>, cols: Columns, classes: seq<ClassEntity>, schoolId: Id, ids: nat -> Id, j: nat)
    requires j < |rows|
    ensures Outcomes(rows, cols, classes, schoolId, ids)[j] == ParseRow(cols, rows[j], j + 2, classes, schoolId, ids(j + 1))
    decreases |rows|
  {
    var n := |rows|;
    var prefix := Outcomes(rows[..n - 1], cols, classes, schoolId, ids);
    assert Outcomes(rows, cols, classes, schoolId, ids) == prefix + [ParseRow(cols, rows[n - 1], n + 1, classes, schoolId, ids(n))];
    if j < n - 1 {
      OutcomesAt(rows[..n - 1], cols, classes, schoolId, ids, j);
      assert rows[..n - 1][j] == rows[j];
    }
  }

  /** The arrays after the first `n` outcomes, or the error that stopped the
      loop. */
  function Fold(os: seq<Outcome>, n: nat): Result<Parsed>
    requires n <= |os|
  {
    if n == 0 then Ok(Parsed([], []))
    else
      match Fold(os, n - 1)
      case Err(e) => Err(e)
      case Ok(p) => Step(p, os[n - 1])
  }

  /** The arrays after the first `n` data lines, given by their cells. */
  function ParseUpTo(rows: seq<seq<string>>, n: nat, cols: Columns, classes: seq<ClassEntity>, schoolId: Id, ids: nat -> Id): Result<Parsed>
    requires n <= |rows|
  {
    Fold(Outcomes(rows, cols, classes, schoolId, ids), n)
  }

  /** Once the loop has raised, later lines change nothing. */
  lemma {:induction false} ParseErrPersists(os: seq<Outcome>, n: nat, m: nat)
    requires n <= m <= |os|
    requires Fold(os, n).Err?
    ensures Fold(os, m) == Fold(os, n)
    decreases m - n
  {
    if n < m {
      ParseErrPersists(os, n, m - 1);
    }
  }

  /** Error rows are numbered from 2 up to the last line, once each, in order. */
  ghost predicate ErrorRows(errors: seq<RowError>, n: nat) {
    && (forall i :: 0 <= i < |errors| ==> 2 <= errors[i].row <= n)
    && (forall i, j :: 0 <= i < j < |errors| ==> errors[i].row < errors[j].row)
  }

  /** One more line adds one entry to exactly one of the arrays, unless its
      lookup raises. */
  lemma StepAccounts(p: Parsed, o: Outcome)
    ensures Step(p, o).Err? <==> o.Thrown?
    ensures Step(p, o).Err? ==> Step(p, o).error == InternalError
    ensures Step(p, o).Ok? ==> |Step(p, o).value.toInsert| + |Step(p, o).value.errors| == |p.toInsert| + |p.errors| + 1
    ensures o.Queued? ==> Step(p, o) == Ok(Parsed(p.toInsert + [o.student], p.errors))
    ensures o.Failed? ==> Step(p, o) == Ok(Parsed(p.toInsert, p.errors + [o.error]))
  {
  }

  /** Some line among the first `n` makes the class lookup raise. */
  predicate SomeLookupThrows(rows: seq<seq<string>>, n: nat, cols: Columns)
    requires n <= |rows|
  {
    exists k :: 0 <= k < n && LookupThrows(cols, rows[k])
  }

  /** What `ParseRow` promises of each outcome: a failure carries its row
      number, a queued student is named and in a class of the school. */
  ghost predicate WellFormed(os: seq<Outcome>, classes: seq<ClassEntity>, schoolId: Id) {
    forall j :: 0 <= j < |os| ==>
      && (os[j].Failed? ==> os[j].error.row == j + 2)
      && (os[j].Queued? ==>
            os[j].student.schoolId == schoolId && os[j].student.name != ""
            && SchoolClass(classes, os[j].student.classId, schoolId).Some?)
  }

  /** The loop raises, with a 500, exactly when one of its outcomes is the
      raised lookup; otherwise the outcomes are accounted for. */
  lemma {:induction false} FoldAccounting(os: seq<Outcome>, n: nat, classes: seq<ClassEntity>, schoolId: Id)
    requires n <= |os| && WellFormed(os, classes, schoolId)
    ensures Fold(os, n).Err? <==> exists k :: 0 <= k < n && os[k].Thrown?
    ensures Fold(os, n).Err? ==> Fold(os, n).error == InternalError
    ensures Fold(os, n).Ok? ==> Accounted(Fold(os, n).value, n, classes, schoolId)
  {
    if n > 0 {
      FoldAccounting(os, n - 1, classes, schoolId);
      if Fold(os, n - 1).Ok? {
        if !os[n - 1].Thrown? {
          AccountedStep(Fold(os, n - 1).value, os[n - 1], n, classes, schoolId);
        }
      }
    }
  }

  /** The loop raises, with a 500, exactly when one of its lines has a class
      cell that is no uuid. Otherwise every data line is either queued or
      reported, never both or neither; each reported row once, in order; every
      queued student is named, in the school and in one of its classes. */
  lemma ParseAccounting(rows: seq<seq<string>>, n: nat, cols: Columns, classes: seq<ClassEntity>, schoolId: Id, ids: nat -> Id)
    requires n <= |rows|
    ensures ParseUpTo(rows, n, cols, classes, schoolId, ids).Err? <==> SomeLookupThrows(rows, n, cols)
    ensures ParseUpTo(rows, n, cols, classes, schoolId, ids).Err? ==>
      ParseUpTo(rows, n, cols, classes, schoolId, ids).error == InternalError
    ensures ParseUpTo(rows, n, cols, classes, schoolId, ids).Ok? ==>
      Accounted(ParseUpTo(rows, n, cols, classes, schoolId, ids).value, n, classes, schoolId)
  {
    var os := Outcomes(rows, cols, classes, schoolId, ids);
    forall j | 0 <= j < |os|
      ensures os[j] == ParseRow(cols, rows[j], j + 2, classes, schoolId, ids(j + 1))
    {
      OutcomesAt(rows, cols, classes, schoolId, ids, j);
    }
    assert WellFormed(os, classes, schoolId);
    FoldAccounting(os, n, classes, schoolId);
    if SomeLookupThrows(rows, n, cols) {
      var k :| 0 <= k < n && LookupThrows(cols, rows[k]);
      assert os[k].Thrown?;
    }
  }

  /** The facts `ParseAccounting` states about the arrays after `n` lines. */
  ghost predicate Accounted(p: Parsed, n: nat, classes: seq<ClassEntity>, schoolId: Id) {
    && |p.toInsert| + |p.errors| == n
    && ErrorRows(p.errors, n + 1)
    && StudentsInSchoolClasses(p.toInsert, classes)
    && forall k :: 0 <= k < |p.toInsert| ==> p.toInsert[k].schoolId == schoolId && p.toInsert[k].name != ""
  }

  /** Line `n` keeps the accounting, whichever way it goes. */
  lemma AccountedStep(p: Parsed, o: Outcome, n: nat, classes: seq<ClassEntity>, schoolId: Id)
    requires n >= 1 && Accounted(p, n - 1, classes, schoolId)
    requires !o.Thrown?
    requires o.Failed? ==> o.error.row == n + 1
    requires o.Queued? ==>
      o.student.schoolId == schoolId && o.student.name != "" && SchoolClass(classes, o.student.classId, schoolId).Some?
    ensures Step(p, o).Ok? && Accounted(Step(p, o).value, n, classes, schoolId)
  {
    StepAccounts(p, o);
    var q := Step(p, o).value;
    if o.Queued? {
      forall k | 0 <= k < |q.toInsert|
        ensures SchoolClass(classes, q.toInsert[k].classId, q.toInsert[k].schoolId).Some?
      {
        if k < |p.toInsert| {
          assert q.toInsert[k] == p.toInsert[k];
        }
      }
    } else {
      forall i | 0 <= i < |q.errors| ensures 2 <= q.errors[i].row <= n + 1 {
        if i < |p.errors| {
          assert q.errors[i] == p.errors[i];
        }
      }
    }
  }

  /** The cells of every line of the file. */
  function RowsOf(lines: seq<string>): (rows: seq<seq<string>>)
    ensures |rows| == |lines|
  {
    if |lines| == 0 then [] else [Cells(lines[0])] + RowsOf(lines[1..])
  }

  lemma {:induction false} RowsOfAt(lines: seq<string>, i: nat)
    requires i < |lines|
    ensures RowsOf(lines)[i] == Cells(lines[i])
  {
    if i > 0 {
      RowsOfAt(lines[1..], i - 1);
    }
  }

  datatype ImportReport = ImportReport(total: nat, success: nat, failed: nat, errors: seq<RowError>)

  /** The file's lines and columns, once the school and the header have
      passed their checks. */
  datatype Prepared = Prepared(lines: seq<string>, cols: Columns)

  /** The validations of `importCsvBuffer` before the rows: the school, a file
      with some non-blank line, and a header naming the required columns. */
  function Prepare(schools: seq<School>, schoolId: Id, text: string): (r: Result<Prepared>)
    ensures EnsureSchool(schools, schoolId).Err? ==> r == Err(BadRequest("Invalid school context"))
    ensures EnsureSchool(schools, schoolId).Ok? && Lines(text) == [] ==> r == Err(BadRequest("Empty file"))
    ensures EnsureSchool(schools, schoolId).Ok? && Lines(text) != [] ==>
      (r.Err? <==> ColumnsOf(HeaderCells(Lines(text)[0])).Err?)
    ensures r.Ok? ==> r.value.lines == Lines(text) && |r.value.lines| >= 1
  {
    if EnsureSchool(schools, schoolId).Err? then Err(EnsureSchool(schools, schoolId).error)
    else if Lines(text) == [] then Err(BadRequest("Empty file"))
    else if ColumnsOf(HeaderCells(Lines(text)[0])).Err? then Err(ColumnsOf(HeaderCells(Lines(text)[0])).error)
    else Ok(Prepared(Lines(text), ColumnsOf(HeaderCells(Lines(text)[0])).value))
  }

  /** The arrays the loop fills for the data lines of a prepared file, or
      the error that stopped it. */
  function ParseFile(prep: Prepared, classes: seq<ClassEntity>, schoolId: Id, ids: nat -> Id): Result<Parsed>
    requires |prep.lines| >= 1
  {
    ParseUpTo(RowsOf(prep.lines[1..]), |prep.lines| - 1, prep.cols, classes, schoolId, ids)
  }

  /** The body of the loop of `importCsvBuffer` for one data line: the
      validations in order, each failing one ending the line with its error,
      and the class lookup, which raises on a class cell that is no uuid. */
  method ParseLine(row: seq<string>, cols: Columns, rowNum: nat, classes: seq<ClassEntity>, schoolId: Id, id: Id)
    returns (o: Outcome)
    ensures o == ParseRow(cols, row, rowNum, classes, schoolId, id)
  {
    var name := OrElse(CellAt(row, cols.name), "");
    var classId := OrElse(CellAt(row, cols.classId), "");
    if name == "" {
      return Failed(RowError(rowNum, "Missing name"));
    }
    if classId == "" {
      return Failed(RowError(rowNum, "Missing classId"));
    }
    if !IsUuid(classId) {
      return Thrown;
    }
    var cls := SchoolClass(classes, classId, schoolId);
    if cls.None? {
      return Failed(RowError(rowNum, "Invalid classId for this school"));
    }
    o := Queued(Student(id, schoolId, cls.value.id, name, RollNoCell(cols, row), PhotoCell(cols, row)));
  }

  /** The loop of `importCsvBuffer` over the data lines, filling `toInsert`
      and `errors`, and ending with the lookup's exception when it raises.
      Iteration `j` handles line `j + 1` of the file; the cells of every line
      are split up front, which changes nothing since splitting has no
      effects. */
  method ParseRows(lines: seq<string>, cols: Columns, classes: seq<ClassEntity>, schoolId: Id, ids: nat -> Id)
    returns (r: Result<Parsed>)
    requires |lines| >= 1
    ensures r == ParseFile(Prepared(lines, cols), classes, schoolId, ids)
  {
    var toInsert, errors := [], [];
    var rows := RowsOf(lines[1..]);
    ghost var os := Outcomes(rows, cols, classes, schoolId, ids);
    for j := 0 to |rows|
      invariant Ok(Parsed(toInsert, errors)) == Fold(os, j)
    {
      var o := ParseLine(rows[j], cols, j + 2, classes, schoolId, ids(j + 1));
      OutcomesAt(rows, cols, classes, schoolId, ids, j);
      assert Fold(os, j + 1) == Step(Parsed(toInsert, errors), o);
      match o
      case Thrown =>
        ParseErrPersists(os, j + 1, |rows|);
        return Err(InternalError);
      case Failed(e) =>
        errors := errors + [e];
      case Queued(s) =>
        toInsert := toInsert + [s];
    }
    r := Ok(Parsed(toInsert, errors));
  }

  /** Some data line of the file has a named row whose class cell is no uuid. */
  predicate SomeLineThrows(prep: Prepared) {
    exists k :: 1 <= k < |prep.lines| && LookupThrows(prep.cols, Cells(prep.lines[k]))
  }

  /** A prepared file fails with a 500 exactly when one of its data lines has
      a class cell that is no uuid. Otherwise it is accounted for line by line:
      each data line is inserted or reported, the reported rows run from 2 to
      the last line, and every inserted student is in a class of the school. */
  lemma ImportAccounts(prep: Prepared, classes: seq<ClassEntity>, schoolId: Id, ids: nat -> Id)
    requires |prep.lines| >= 1
    ensures ParseFile(prep, classes, schoolId, ids).Err? <==> SomeLineThrows(prep)
    ensures ParseFile(prep, classes, schoolId, ids).Err? ==> ParseFile(prep, classes, schoolId, ids).error == InternalError
    ensures ParseFile(prep, classes, schoolId, ids).Ok? ==>
      && |ParseFile(prep, classes, schoolId, ids).value.toInsert| + |ParseFile(prep, classes, schoolId, ids).value.errors| == |prep.lines| - 1
      && ErrorRows(ParseFile(prep, classes, schoolId, ids).value.errors, |prep.lines|)
      && StudentsInSchoolClasses(ParseFile(prep, classes, schoolId, ids).value.toInsert, classes)
  {
    var rows, n := RowsOf(prep.lines[1..]), |prep.lines| - 1;
    var p := ParseFile(prep, classes, schoolId, ids);
    assert p == ParseUpTo(rows, n, prep.cols, classes, schoolId, ids);
    ParseAccounting(rows, n, prep.cols, classes, schoolId, ids);
    LineThrowsIff(prep);
    if p.Ok? {
      assert Accounted(p.value, n, classes, schoolId);
    }
  }

  /** The lines of the file and their cells name the same offending lines. */
  lemma LineThrowsIff(prep: Prepared)
    requires |prep.lines| >= 1
    ensures SomeLookupThrows(RowsOf(prep.lines[1..]), |prep.lines| - 1, prep.cols) <==> SomeLineThrows(prep)
  {
    var rows := RowsOf(prep.lines[1..]);
    var n := |prep.lines| - 1;
    forall k | 0 <= k < n
      ensures rows[k] == Cells(prep.lines[k + 1])
    {
      RowsOfAt(prep.lines[1..], k);
    }
    if SomeLookupThrows(rows, n, prep.cols) {
      var k :| 0 <= k < n && LookupThrows(prep.cols, rows[k]);
      assert 1 <= k + 1 < |prep.lines| && LookupThrows(prep.cols, Cells(prep.lines[k + 1]));
    }
    if SomeLineThrows(prep) {
      var k :| 1 <= k < |prep.lines| && LookupThrows(prep.cols, Cells(prep.lines[k]));
      assert 0 <= k - 1 < n && LookupThrows(prep.cols, rows[k - 1]);
    }
  }

  /** The report on a prepared file: its data lines, the inserts and the
      errors, or the error that stopped the loop. */
  function Report(prep: Prepared, parsed: Result<Parsed>): Result<ImportReport>
    requires |prep.lines| >= 1
  {
    match parsed
    case Err(e) => Err(e)
    case Ok(p) => Ok(ImportReport(|prep.lines| - 1, |p.toInsert|, |p.errors|, p.errors))
  }

  /** The students saved after the loop: none when it raised. */
  function Inserts(parsed: Result<Parsed>): seq<Student> {
    match parsed
    case Err(_) => []
    case Ok(p) => p.toInsert
  }

  /** The report `importCsvBuffer` returns for a file, or its error. */
  function ImportOutcome(schools: seq<School>, classes: seq<ClassEntity>, schoolId: Id, text: string, ids: nat -> Id):
    Result<ImportReport>
  {
    match Prepare(schools, schoolId, text)
    case Err(e) => Err(e)
    case Ok(prep) => Report(prep, ParseFile(prep, classes, schoolId, ids))
  }

  /** The students `importCsvBuffer` saves for a file: none when it fails. */
  function Imported(schools: seq<School>, classes: seq<ClassEntity>, schoolId: Id, text: string, ids: nat -> Id):
    seq<Student>
  {
    match Prepare(schools, schoolId, text)
    case Err(_) => []
    case Ok(prep) => Inserts(ParseFile(prep, classes, schoolId, ids))
  }

  /** What an import reports agrees with what it saves: a file that passes
      the validations fails with a 500 exactly when one of its data lines has
      a class cell that is no uuid; a failed import saves nothing; otherwise
      every data line is counted once, as an insert or as an error, the errors
      name rows 2 to the last line in order, and the saved students sit in
      classes of the school. */
  lemma ImportAgrees(schools: seq<School>, classes: seq<ClassEntity>, schoolId: Id, text: string, ids: nat -> Id)
    ensures ImportOutcome(schools, classes, schoolId, text, ids).Err? ==> Imported(schools, classes, schoolId, text, ids) == []
    ensures Prepare(schools, schoolId, text).Ok? ==>
      (ImportOutcome(schools, classes, schoolId, text, ids) == Err(InternalError) <==> SomeLineThrows(Prepare(schools, schoolId, text).value))
    ensures ImportOutcome(schools, classes, schoolId, text, ids).Ok? ==>
      && ImportOutcome(schools, classes, schoolId, text, ids).value.total == |Lines(text)| - 1
      && ImportOutcome(schools, classes, schoolId, text, ids).value.total
         == ImportOutcome(schools, classes, schoolId, text, ids).value.success
          + ImportOutcome(schools, classes, schoolId, text, ids).value.failed
      && ImportOutcome(schools, classes, schoolId, text, ids).value.success == |Imported(schools, classes, schoolId, text, ids)|
      && ImportOutcome(schools, classes, schoolId, text, ids).value.failed
         == |ImportOutcome(schools, classes, schoolId, text, ids).value.errors|
      && ErrorRows(ImportOutcome(schools, classes, schoolId, text, ids).value.errors, |Lines(text)|)
      && StudentsInSchoolClasses(Imported(schools, classes, schoolId, text, ids), classes)
  {
    var prepared := Prepare(schools, schoolId, text);
    if prepared.Ok? {
      ImportAccounts(prepared.value, classes, schoolId, ids);
    }
  }

  /** The part of `importCsvBuffer` after the validations: parse the data
      lines, save the queued students together and report; a raised lookup
      ends it before anything is saved. */
  method SavePrepared(db: Db, prep: Prepared, schoolId: Id, ids: nat -> Id) returns (r: Result<ImportReport>)
    requires |prep.lines| >= 1
    modifies db`students
    ensures r == Report(prep, ParseFile(prep, db.classes, schoolId, ids))
    ensures db.students == old(db.students) + Inserts(ParseFile(prep, db.classes, schoolId, ids))
  {
    var parsed := ParseRows(prep.lines, prep.cols, db.classes, schoolId, ids);
    if parsed.Err? {
      return Err(parsed.error);
    }
    var toInsert, errors := parsed.value.toInsert, parsed.value.errors;
    var inserted := 0;
    if |toInsert| > 0 {
      db.students := db.students + toInsert;
      inserted := |toInsert|;
    }
    r := Ok(ImportReport(|prep.lines| - 1, inserted, |errors|, errors));
  }

  /** `importCsvBuffer`: the queued students are saved together, and the
      report counts the data lines, the inserts and the errors. */
  method ImportCsv(db: Db, schoolId: Id, text: string, ids: nat -> Id) returns (r: Result<ImportReport>)
    modifies db`students
    ensures r == ImportOutcome(db.schools, db.classes, schoolId, text, ids)
    ensures db.students == old(db.students) + Imported(db.schools, db.classes, schoolId, text, ids)
  {
    var prepared := Prepare(db.schools, schoolId, text);
    if prepared.Err? {
      return Err(prepared.error);
    }
    r := SavePrepared(db, prepared.value, schoolId, ids);
  }
}
