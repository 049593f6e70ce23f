/** The admin class service: creating a class unique by name and section in
    its school, listing a school's classes, renaming one, and adding a class
    to a teacher's `classes` relation. */
module ClassesService {
  import opened Common
  import opened Entities
  import opened Seqs
  import opened Text
  import opened Store

  datatype CreateClassDto = CreateClassDto(name: string, section: Option<string>)
  datatype UpdateClassDto = UpdateClassDto(name: Option<string>, section: Option<string>)
  datatype ClassFilters = ClassFilters(name: Option<string>, section: Option<string>)

  /** The `{ id, name }` that `create` and `update` return. */
  datatype ClassRef = ClassRef(id: Id, name: string)

  // ---------------------------------------------------------------------------
  // create

  /** The duplicate query: same school, same name, and the same section, where
      an omitted section is `c.section IS NULL` and a given one `c.section =
      :section` (which a null section never satisfies). */
  predicate SameKey(c: ClassEntity, schoolId: Id, name: string, section: Option<string>) {
    c.schoolId == Some(schoolId) && c.name == name && c.section == section
  }

  function Duplicate(classes: seq<ClassEntity>, schoolId: Id, dto: CreateClassDto): Option<ClassEntity> {
    First(classes, (c: ClassEntity) => SameKey(c, schoolId, dto.name, dto.section))
  }

  /** No two classes of a school share name and section. */
  ghost predicate UniqueClassKeys(classes: seq<ClassEntity>) {
    forall i, j :: 0 <= i < j < |classes| ==>
      !(classes[i].schoolId.Some? && SameKey(classes[j], classes[i].schoolId.value, classes[i].name, classes[i].section))
  }

  /** `create`; `freshId` is the id the database generates. */
  method Create(db: Db, schoolId: Id, dto: CreateClassDto, freshId: Id) returns (r: Result<ClassRef>)
    modifies db`classes
    ensures EnsureSchool(old(db.schools), schoolId).Err? ==> r == Err(BadRequest("Invalid school context"))
    ensures EnsureSchool(old(db.schools), schoolId).Ok? && Duplicate(old(db.classes), schoolId, dto).Some? ==>
      r == Err(BadRequest("Class with this name/section already exists"))
    ensures r.Err? ==> db.classes == old(db.classes)
    ensures r.Ok? <==> EnsureSchool(old(db.schools), schoolId).Ok? && Duplicate(old(db.classes), schoolId, dto).None?
    ensures r.Ok? ==>
      && r.value == ClassRef(freshId, dto.name)
      && db.classes == old(db.classes) + [ClassEntity(freshId, Some(schoolId), dto.name, dto.section)]
  {
    var school := EnsureSchool(db.schools, schoolId);
    if school.Err? {
      return Err(school.error);
    }
    if Duplicate(db.classes, schoolId, dto).Some? {
      return Err(BadRequest("Class with this name/section already exists"));
    }
    db.classes := db.classes + [ClassEntity(freshId, Some(schoolId), dto.name, dto.section)];
    r := Ok(ClassRef(freshId, dto.name));
  }

  /** A successful `create` keeps name and section unique within each school. */
  lemma CreateKeepsKeysUnique(classes: seq<ClassEntity>, schoolId: Id, dto: CreateClassDto, freshId: Id)
    requires UniqueClassKeys(classes)
    requires Duplicate(classes, schoolId, dto).None?
    ensures UniqueClassKeys(classes + [ClassEntity(freshId, Some(schoolId), dto.name, dto.section)])
  {
    var c := ClassEntity(freshId, Some(schoolId), dto.name, dto.section);
    var cs := classes + [c];
    forall i, j | 0 <= i < j < |cs|
      ensures !(cs[i].schoolId.Some? && SameKey(cs[j], cs[i].schoolId.value, cs[i].name, cs[i].section))
    {
      if j == |classes| {
        assert !((x: ClassEntity) => SameKey(x, schoolId, dto.name, dto.section))(classes[i]);
      } else {
        assert cs[i] == classes[i] && cs[j] == classes[j];
      }
    }
  }

  /** A class of the same name and section in another school is no duplicate. */
  lemma OtherSchoolNoConflict(schoolId: Id, other: Id, dto: CreateClassDto, c: ClassEntity)
    requires other != schoolId
    requires c == ClassEntity(c.id, Some(other), dto.name, dto.section)
    ensures Duplicate([c], schoolId, dto).None?
  {
  }

  // ---------------------------------------------------------------------------
  // list

  /** The conditions of `list`: the school, name ILIKE `%name%` and the exact
      section, each filter only when it is non-empty. */
  predicate Listed(c: ClassEntity, schoolId: Id, f: ClassFilters) {
    && c.schoolId == Some(schoolId)
    && (Truthy(f.name) ==> ILike(c.name, f.name.value))
    && (Truthy(f.section) ==> c.section == f.section)
  }

  /** `list`: exactly the school's classes that pass the filters, in table order. */
  function List(schools: seq<School>, classes: seq<ClassEntity>, schoolId: Id, f: ClassFilters): (r: Result<seq<ClassEntity>>)
    ensures r.Err? <==> EnsureSchool(schools, schoolId).Err?
    ensures r.Ok? ==> forall k :: 0 <= k < |r.value| ==> r.value[k] in classes && Listed(r.value[k], schoolId, f)
    ensures r.Ok? ==> forall j :: 0 <= j < |classes| && Listed(classes[j], schoolId, f) ==> classes[j] in r.value
  {
    var _ :- EnsureSchool(schools, schoolId);
    Ok(Filter(classes, (c: ClassEntity) => Listed(c, schoolId, f)))
  }

  /** Without filters, `list` is every class of the school; a section filter
      never returns a class without a section. */
  lemma ListFilters(schools: seq<School>, classes: seq<ClassEntity>, schoolId: Id, section: string)
    requires EnsureSchool(schools, schoolId).Ok?
    requires section != []
    ensures List(schools, classes, schoolId, ClassFilters(None, None)).value
      == Filter(classes, (c: ClassEntity) => c.schoolId == Some(schoolId))
    ensures forall k :: 0 <= k < |List(schools, classes, schoolId, ClassFilters(None, Some(section))).value| ==>
      List(schools, classes, schoolId, ClassFilters(None, Some(section))).value[k].section == Some(section)
  {
    FilterSame(classes, (c: ClassEntity) => Listed(c, schoolId, ClassFilters(None, None)),
                        (c: ClassEntity) => c.schoolId == Some(schoolId));
  }

  // ---------------------------------------------------------------------------
  // update

  /** The ownership checks of `update` and `assignTeacher` on a class. */
  function ClassOwnership(classes: seq<ClassEntity>, id: Id, schoolId: Id, notOwned: string): (e: Option<Error>)
    ensures e.None? <==> First(classes, (c: ClassEntity) => c.id == id).Some?
                         && First(classes, (c: ClassEntity) => c.id == id).value.schoolId == Some(schoolId)
    ensures e == Some(NotFound("Class not found")) <==> forall j :: 0 <= j < |classes| ==> classes[j].id != id
  {
    var c := First(classes, (c: ClassEntity) => c.id == id);
    if c.None? then Some(NotFound("Class not found"))
    else if c.value.schoolId != Some(schoolId) then Some(BadRequest(notOwned))
    else None
  }

  function ClassIndex(classes: seq<ClassEntity>, id: Id): nat {
    IndexOf(classes, (c: ClassEntity) => c.id == id)
  }

  /** `update`: the name and section that are given overwrite, and nothing is
      checked for duplicates. */
  method Update(db: Db, schoolId: Id, id: Id, dto: UpdateClassDto) returns (r: Result<ClassRef>)
    modifies db`classes
    ensures EnsureSchool(old(db.schools), schoolId).Err? ==> r == Err(BadRequest("Invalid school context"))
    ensures EnsureSchool(old(db.schools), schoolId).Ok? && ClassOwnership(old(db.classes), id, schoolId, "Not allowed").Some? ==>
      r == Err(ClassOwnership(old(db.classes), id, schoolId, "Not allowed").value)
    ensures r.Err? ==> db.classes == old(db.classes)
    ensures r.Ok? <==> EnsureSchool(old(db.schools), schoolId).Ok? && ClassOwnership(old(db.classes), id, schoolId, "Not allowed").None?
    ensures r.Ok? ==>
      var k := ClassIndex(old(db.classes), id);
      var c := old(db.classes)[k];
      var c' := c.(name := OrElse(dto.name, c.name), section := if dto.section.Some? then dto.section else c.section);
      && c.id == id
      && db.classes == old(db.classes)[k := c']
      && r.value == ClassRef(id, c'.name)
  {
    var school := EnsureSchool(db.schools, schoolId);
    if school.Err? {
      return Err(school.error);
    }
    var owner := ClassOwnership(db.classes, id, schoolId, "Not allowed");
    if owner.Some? {
      return Err(owner.value);
    }
    FirstAtIndexOf(db.classes, (c: ClassEntity) => c.id == id);
    var k := ClassIndex(db.classes, id);
    var c := db.classes[k];
    var c' := c.(name := OrElse(dto.name, c.name), section := if dto.section.Some? then dto.section else c.section);
    db.classes := db.classes[k := c'];
    r := Ok(ClassRef(id, c'.name));
  }

  /** `update` does not re-check uniqueness: renaming a class to the name of
      another class with the same section makes them collide. */
  lemma UpdateCanDuplicate()
    ensures var before := [ClassEntity("c1", Some("s"), "Grade 5", Some("A")), ClassEntity("c2", Some("s"), "Grade 6", Some("A"))];
      && UniqueClassKeys(before)
      && ClassOwnership(before, "c2", "s", "Not allowed").None?
      && !UniqueClassKeys(before[ClassIndex(before, "c2") := before[1].(name := "Grade 5")])
  {
    var before := [ClassEntity("c1", Some("s"), "Grade 5", Some("A")), ClassEntity("c2", Some("s"), "Grade 6", Some("A"))];
    assert ClassIndex(before, "c2") == 1;
    var after := before[1 := before[1].(name := "Grade 5")];
    assert after[0].schoolId.Some? && SameKey(after[1], after[0].schoolId.value, after[0].name, after[0].section);
  }

  // ---------------------------------------------------------------------------
  // assignTeacher

  /** The ownership checks of `assignTeacher` on the teacher. */
  function TeacherOwnership(teachers: seq<TeacherProfile>, teacherId: Id, schoolId: Id): (e: Option<Error>)
    ensures e.None? <==> First(teachers, (p: TeacherProfile) => p.id == teacherId).Some?
                         && First(teachers, (p: TeacherProfile) => p.id == teacherId).value.schoolId == Some(schoolId)
  {
    var t := First(teachers, (p: TeacherProfile) => p.id == teacherId);
    if t.None? then Some(NotFound("Teacher not found"))
    else if t.value.schoolId != Some(schoolId) then Some(BadRequest("Teacher does not belong to your school"))
    else None
  }

  /** The validations of `assignTeacher`, in order: the class, then the teacher. */
  function AssignError(schools: seq<School>, classes: seq<ClassEntity>, teachers: seq<TeacherProfile>,
                       schoolId: Id, id: Id, teacherId: Id): Option<Error> {
    if EnsureSchool(schools, schoolId).Err? then Some(EnsureSchool(schools, schoolId).error)
    else if ClassOwnership(classes, id, schoolId, "Class does not belong to your school").Some?
    then ClassOwnership(classes, id, schoolId, "Class does not belong to your school")
    else TeacherOwnership(teachers, teacherId, schoolId)
  }

  /** The class is checked before the teacher: a foreign class is refused
      whoever the teacher is. */
  lemma AssignChecksClassFirst(schools: seq<School>, classes: seq<ClassEntity>, teachers: seq<TeacherProfile>,
                               schoolId: Id, id: Id, teacherId: Id)
    requires EnsureSchool(schools, schoolId).Ok?
    requires First(classes, (c: ClassEntity) => c.id == id).Some?
    requires First(classes, (c: ClassEntity) => c.id == id).value.schoolId != Some(schoolId)
    ensures AssignError(schools, classes, teachers, schoolId, id, teacherId)
      == Some(BadRequest("Class does not belong to your school"))
  {
  }

  function TeacherIndex(teachers: seq<TeacherProfile>, teacherId: Id): nat {
    IndexOf(teachers, (p: TeacherProfile) => p.id == teacherId)
  }

  /** `assignTeacher`: in a transaction, the class joins the teacher's
      `classes` relation; a class already there violates the junction key. */
  method AssignTeacher(db: Db, schoolId: Id, id: Id, teacherId: Id) returns (r: Result<string>)
    modifies db`teachers
    ensures AssignError(old(db.schools), old(db.classes), old(db.teachers), schoolId, id, teacherId).Some? ==>
      r == Err(AssignError(old(db.schools), old(db.classes), old(db.teachers), schoolId, id, teacherId).value)
    ensures r.Err? ==> db.teachers == old(db.teachers)
    ensures AssignError(old(db.schools), old(db.classes), old(db.teachers), schoolId, id, teacherId).None? ==>
      var k := TeacherIndex(old(db.teachers), teacherId);
      var t := old(db.teachers)[k];
      && t.id == teacherId
      && (id in t.classes ==> r == Err(InternalError))
      && (id !in t.classes ==>
            r == Ok("Teacher assigned") && db.teachers == old(db.teachers)[k := t.(classes := t.classes + [id])])
  {
    var e := AssignError(db.schools, db.classes, db.teachers, schoolId, id, teacherId);
    if e.Some? {
      return Err(e.value);
    }
    FirstAtIndexOf(db.teachers, (p: TeacherProfile) => p.id == teacherId);
    var k := TeacherIndex(db.teachers, teacherId);
    var t := db.teachers[k];
    var related := AddRelation(t.classes, id);
    if related.Err? {
      return Err(related.error);
    }
    db.teachers := db.teachers[k := t.(classes := related.value)];
    r := Ok("Teacher assigned");
  }
}
