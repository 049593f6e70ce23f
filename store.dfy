/** The data source: every repository the services use, as one object whose
    fields are the tables. Each service operation names in its `modifies`
    clause exactly the tables it writes. */
module Store {
  import opened Common
  import opened Entities
  import opened Seqs

  ghost predicate UniqueHeaderIds(hs: seq<Header>) {
    forall i, j :: 0 <= i < j < |hs| ==> hs[i].id != hs[j].id
  }

  /** At most one header per (school, class, date). */
  ghost predicate UniqueAttendanceKeys(hs: seq<Header>) {
    forall i, j :: 0 <= i < j < |hs| ==>
      !(hs[i].schoolId == hs[j].schoolId && hs[i].classId == hs[j].classId && hs[i].date == hs[j].date)
  }

  /** The unique key (attendanceId, studentId) of the line items. */
  ghost predicate UniqueLineItems(items: seq<LineItem>) {
    forall i, j :: 0 <= i < j < |items| ==>
      !(items[i].attendanceId == items[j].attendanceId && items[i].studentId == items[j].studentId)
  }

  /** The ids of a headers table. */
  function HeaderIds(hs: seq<Header>): (r: set<Id>)
    ensures forall j :: 0 <= j < |hs| ==> hs[j].id in r
    ensures forall x :: x in r ==> exists j :: 0 <= j < |hs| && hs[j].id == x
  {
    if |hs| == 0 then {} else {hs[0].id} + HeaderIds(hs[1..])
  }

  /** Tables with the same ids, row by row, have the same id set. */
  lemma {:induction false} HeaderIdsSame(hs: seq<Header>, hs': seq<Header>)
    requires |hs| == |hs'|
    requires forall j :: 0 <= j < |hs| ==> hs[j].id == hs'[j].id
    ensures HeaderIds(hs) == HeaderIds(hs')
  {
    if |hs| > 0 {
      HeaderIdsSame(hs[1..], hs'[1..]);
    }
  }

  /** Line items belong to an existing header (the foreign key with cascade). */
  ghost predicate ItemsReferenceHeaders(items: seq<LineItem>, hs: seq<Header>) {
    forall i :: 0 <= i < |items| ==> items[i].attendanceId in HeaderIds(hs)
  }

  ghost predicate UniqueStudentIds(ss: seq<Student>) {
    forall i, j :: 0 <= i < j < |ss| ==> ss[i].id != ss[j].id
  }

  /** The primary keys and the attendance invariants the services maintain. */
  ghost predicate ValidTables(headers: seq<Header>, items: seq<LineItem>, students: seq<Student>) {
    && UniqueHeaderIds(headers)
    && UniqueAttendanceKeys(headers)
    && UniqueLineItems(items)
    && ItemsReferenceHeaders(items, headers)
    && UniqueStudentIds(students)
  }

  class Db {
    var schools: seq<School>
    var users: seq<User>
    var teachers: seq<TeacherProfile>
    var classes: seq<ClassEntity>
    var subjects: seq<Subject>
    var assignments: seq<Assignment>
    var students: seq<Student>
    var headers: seq<Header>
    var items: seq<LineItem>
    var announcements: seq<Announcement>

    ghost predicate Valid()
      reads this
    {
      ValidTables(headers, items, students)
    }

    constructor ()
      ensures Valid()
      ensures schools == [] && users == [] && teachers == [] && classes == []
      ensures subjects == [] && assignments == [] && students == []
      ensures headers == [] && items == [] && announcements == []
    {
      schools, users, teachers, classes := [], [], [], [];
      subjects, assignments, students := [], [], [];
      headers, items, announcements := [], [], [];
    }
  }

  /** `ensureSchool`: the school row, or "Invalid school context". */
  function EnsureSchool(schools: seq<School>, schoolId: Id): (r: Result<School>)
    ensures r.Ok? ==> r.value in schools && r.value.id == schoolId
    ensures r.Err? <==> forall i :: 0 <= i < |schools| ==> schools[i].id != schoolId
    ensures r.Err? ==> r.error == BadRequest("Invalid school context")
  {
    var s := First(schools, (x: School) => x.id == schoolId);
    if s.None? then Err(BadRequest("Invalid school context")) else Ok(s.value)
  }

  /** Adding a class to a teacher's `classes` relation: inserting a row that is
      already in the junction table violates its primary key. */
  function AddRelation(related: seq<Id>, id: Id): (r: Result<seq<Id>>)
    ensures r.Ok? <==> id !in related
    ensures r.Ok? ==> r.value == related + [id]
  {
    if id in related then Err(InternalError) else Ok(related + [id])
  }
}
