/** The attendance service: marking a class for a date, reading it back,
    correcting it, and the class and student histories. Every write runs in
    one transaction, so an operation that throws leaves the tables as they
    were. */
module AttendanceService {
  import opened Common
  import opened Entities
  import opened Seqs
  import opened Text
  import opened Store

  /** The authenticated caller: its id, its school and its role. */
  datatype Caller = Caller(id: Id, schoolId: Id, role: Role)

  /** One entry of the `students` array of the create and update bodies. */
  datatype StudentMark = StudentMark(studentId: Id, status: Mark)

  datatype CreateRequest = CreateRequest(classId: Id, date: string, students: seq<StudentMark>)

  /** Both fields of the update body are optional. */
  datatype UpdateRequest = UpdateRequest(date: Option<string>, students: Option<seq<StudentMark>>)

  /** A header loaded with its `students` relation. */
  datatype AttendanceRecord = AttendanceRecord(header: Header, students: seq<LineItem>)

  /** A line item loaded with its `attendance` relation. */
  datatype HistoryRow = HistoryRow(item: LineItem, header: Header)

  // ---------------------------------------------------------------------------
  // Lookups

  function StudentIds(marks: seq<StudentMark>): seq<Id> {
    Map(marks, (m: StudentMark) => m.studentId)
  }

  /** The ids of a students table as a set. */
  function StudentIdSet(ss: seq<Student>): (r: set<Id>)
    ensures forall x :: x in r <==> exists i :: 0 <= i < |ss| && ss[i].id == x
  {
    if |ss| == 0 then {} else {ss[0].id} + StudentIdSet(ss[1..])
  }

  /** `findByIds(Student, ids)`: the students whose id was submitted, in table order. */
  function FoundStudents(ss: seq<Student>, ids: seq<Id>): seq<Student> {
    Filter(ss, (s: Student) => s.id in ids)
  }

  /** The header of (school, class, date), if there is one. */
  function HeaderFor(hs: seq<Header>, schoolId: Id, classId: Id, date: string): Option<Header> {
    First(hs, (h: Header) => h.schoolId == schoolId && h.classId == classId && h.date == date)
  }

  /** The condition "this line item belongs to header `aid`". */
  function BelongsTo(aid: Id): LineItem -> bool {
    (it: LineItem) => it.attendanceId == aid
  }

  /** The `students` relation of header `aid`. */
  function ItemsOf(items: seq<LineItem>, aid: Id): seq<LineItem> {
    Filter(items, BelongsTo(aid))
  }

  /** The line item key (attendanceId, studentId). */
  function KeyIs(aid: Id, sid: Id): LineItem -> bool {
    (it: LineItem) => it.attendanceId == aid && it.studentId == sid
  }

  // ---------------------------------------------------------------------------
  // Student validation (lines 52-68 of create, repeated in update)

  /** The first found student outside the class or the school, reported as the
      loop over the found students reports it. */
  function MembershipError(found: seq<Student>, classId: Id, schoolId: Id): (e: Option<Error>)
    ensures e.None? <==> forall i :: 0 <= i < |found| ==> found[i].classId == classId && found[i].schoolId == schoolId
    ensures e.Some? ==> e.value.BadRequest?
  {
    if |found| == 0 then None
    else if found[0].classId != classId then
      Some(BadRequest("Student " + found[0].id + " does not belong to class " + classId))
    else if found[0].schoolId != schoolId then
      Some(BadRequest("Student " + found[0].id + " does not belong to your school"))
    else MembershipError(found[1..], classId, schoolId)
  }

  /** The membership loop, stopping at the first offending student. */
  method CheckMembership(found: seq<Student>, classId: Id, schoolId: Id) returns (e: Option<Error>)
    ensures e == MembershipError(found, classId, schoolId)
  {
    var i := 0;
    while i < |found|
      invariant 0 <= i <= |found|
      invariant MembershipError(found[i..], classId, schoolId) == MembershipError(found, classId, schoolId)
    {
      var s := found[i];
      if s.classId != classId {
        return Some(BadRequest("Student " + s.id + " does not belong to class " + classId));
      }
      if s.schoolId != schoolId {
        return Some(BadRequest("Student " + s.id + " does not belong to your school"));
      }
      assert found[i..][1..] == found[i + 1..];
      i := i + 1;
    }
    return None;
  }

  /** The submitted students are rejected with "Some students not found" when
      fewer rows come back than ids were sent, and otherwise by the membership loop. */
  function StudentsError(ss: seq<Student>, marks: seq<StudentMark>, classId: Id, schoolId: Id): Option<Error> {
    var found := FoundStudents(ss, StudentIds(marks));
    if |found| != |marks| then Some(BadRequest("Some students not found"))
    else MembershipError(found, classId, schoolId)
  }

  /** The rows after the first keep unique ids, none of them the first's. */
  lemma UniqueTail(ss: seq<Student>)
    requires |ss| > 0 && UniqueStudentIds(ss)
    ensures UniqueStudentIds(ss[1..])
    ensures ss[0].id !in StudentIdSet(ss[1..])
  {
    var rest := ss[1..];
    forall i, j | 0 <= i < j < |rest| ensures rest[i].id != rest[j].id {
      assert rest[i] == ss[i + 1] && rest[j] == ss[j + 1];
    }
    forall i | 0 <= i < |rest| ensures rest[i].id != ss[0].id {
      assert rest[i] == ss[i + 1];
    }
  }

  /** The lookup over the first row and the rest. */
  lemma FoundStep(ss: seq<Student>, ids: seq<Id>)
    requires |ss| > 0
    ensures |FoundStudents(ss, ids)| == |FoundStudents(ss[1..], ids)| + if ss[0].id in ids then 1 else 0
  {
  }

  /** The submitted ids that exist, over the first row and the rest. */
  lemma FoundIdsStep(ss: seq<Student>, ids: seq<Id>)
    requires |ss| > 0 && ss[0].id !in StudentIdSet(ss[1..])
    ensures |SetOf(ids) * StudentIdSet(ss)| == |SetOf(ids) * StudentIdSet(ss[1..])| + if ss[0].id in ids then 1 else 0
  {
    assert StudentIdSet(ss) == {ss[0].id} + StudentIdSet(ss[1..]);
    assert ss[0].id in ids <==> ss[0].id in SetOf(ids);
    MeetInsertCard(SetOf(ids), StudentIdSet(ss[1..]), ss[0].id);
  }

  /** Adding a new element to one side of an intersection adds it to the
      intersection when the other side has it. */
  lemma MeetInsertCard<T>(a: set<T>, b: set<T>, x: T)
    requires x !in b
    ensures |a * ({x} + b)| == |a * b| + if x in a then 1 else 0
  {
    if x in a {
      assert a * ({x} + b) == (a * b) + {x};
    } else {
      assert a * ({x} + b) == a * b;
    }
  }

  /** With unique student ids, the lookup returns one row per distinct submitted id that exists. */
  lemma {:induction false} FoundCount(ss: seq<Student>, ids: seq<Id>)
    requires UniqueStudentIds(ss)
    ensures |FoundStudents(ss, ids)| == |SetOf(ids) * StudentIdSet(ss)|
  {
    if |ss| == 0 {
      assert SetOf(ids) * StudentIdSet(ss) == {};
    } else {
      UniqueTail(ss);
      FoundCount(ss[1..], ids);
      FoundStep(ss, ids);
      FoundIdsStep(ss, ids);
    }
  }

  /** "Some students not found" is raised exactly when an id repeats or names no student. */
  lemma FoundAllIff(ss: seq<Student>, ids: seq<Id>)
    requires UniqueStudentIds(ss)
    ensures |FoundStudents(ss, ids)| == |ids| <==>
      Distinct(ids) && forall i :: 0 <= i < |ids| ==> ids[i] in StudentIdSet(ss)
  {
    FoundCount(ss, ids);
    DistinctCard(ids);
    var a := SetOf(ids);
    var k := a * StudentIdSet(ss);
    SubsetCard(k, a);
    if forall i :: 0 <= i < |ids| ==> ids[i] in StudentIdSet(ss) {
      assert k == a;
    }
    if k == a {
      forall i | 0 <= i < |ids| ensures ids[i] in StudentIdSet(ss) {
        assert ids[i] in a;
      }
    }
  }

  /** The submitted marks pass validation exactly when the student ids are
      distinct and each names a student of the class and the school. */
  lemma StudentsErrorNoneIff(ss: seq<Student>, marks: seq<StudentMark>, classId: Id, schoolId: Id)
    requires UniqueStudentIds(ss)
    ensures StudentsError(ss, marks, classId, schoolId).None? <==>
      && Distinct(StudentIds(marks))
      && forall i :: 0 <= i < |marks| ==> exists j :: (0 <= j < |ss| && ss[j].id == marks[i].studentId
           && ss[j].classId == classId && ss[j].schoolId == schoolId)
  {
    var ids := StudentIds(marks);
    var found := FoundStudents(ss, ids);
    FoundAllIff(ss, ids);
    if StudentsError(ss, marks, classId, schoolId).None? {
      forall i | 0 <= i < |marks|
        ensures exists j :: (0 <= j < |ss| && ss[j].id == marks[i].studentId
          && ss[j].classId == classId && ss[j].schoolId == schoolId)
      {
        assert ids[i] in StudentIdSet(ss);
        var j :| 0 <= j < |ss| && ss[j].id == ids[i];
        assert ss[j] in found;
      }
    }
    if && Distinct(ids)
       && forall i :: 0 <= i < |marks| ==> exists j :: (0 <= j < |ss| && ss[j].id == marks[i].studentId
            && ss[j].classId == classId && ss[j].schoolId == schoolId)
    {
      forall i | 0 <= i < |ids| ensures ids[i] in StudentIdSet(ss) {
        var j :| 0 <= j < |ss| && ss[j].id == marks[i].studentId && ss[j].classId == classId && ss[j].schoolId == schoolId;
      }
      forall f | 0 <= f < |found| ensures found[f].classId == classId && found[f].schoolId == schoolId {
        var s := found[f];
        assert s in ss && s.id in ids;
        var j' :| 0 <= j' < |ss| && ss[j'] == s;
        var i :| 0 <= i < |ids| && ids[i] == s.id;
        var j :| 0 <= j < |ss| && ss[j].id == marks[i].studentId && ss[j].classId == classId && ss[j].schoolId == schoolId;
        assert j == j';
      }
    }
  }

  // ---------------------------------------------------------------------------
  // create

  /** The error `create` throws, if any: a header already exists, then the student checks. */
  function CreateError(hs: seq<Header>, ss: seq<Student>, req: CreateRequest, caller: Caller): Option<Error> {
    if HeaderFor(hs, caller.schoolId, req.classId, req.date).Some? then
      Some(Conflict("Attendance already marked for this class and date"))
    else StudentsError(ss, req.students, req.classId, caller.schoolId)
  }

  /** The line items `create` saves for header `aid`, one per submitted mark. */
  function NewItems(aid: Id, marks: seq<StudentMark>): (r: seq<LineItem>)
    ensures |r| == |marks|
    ensures forall k :: 0 <= k < |r| ==> r[k] == LineItem(aid, marks[k].studentId, marks[k].status)
  {
    Map(marks, (m: StudentMark) => LineItem(aid, m.studentId, m.status))
  }

  /** The items of a fresh header are the ones just added for it. */
  lemma ItemsOfFresh(items: seq<LineItem>, aid: Id, marks: seq<StudentMark>)
    requires forall i :: 0 <= i < |items| ==> items[i].attendanceId != aid
    ensures ItemsOf(items + NewItems(aid, marks), aid) == NewItems(aid, marks)
  {
    var added := NewItems(aid, marks);
    FilterAppend(items, added, BelongsTo(aid));
    FilterNone(items, BelongsTo(aid));
    FilterAll(added, BelongsTo(aid));
    assert [] + added == added;
  }

  /** New line items for a fresh header keep the tables valid when their students are distinct. */
  lemma AppendKeepsItemsValid(items: seq<LineItem>, hs: seq<Header>, h: Header, marks: seq<StudentMark>)
    requires UniqueLineItems(items) && ItemsReferenceHeaders(items, hs)
    requires forall j :: 0 <= j < |hs| ==> hs[j].id != h.id
    requires Distinct(StudentIds(marks))
    ensures UniqueLineItems(items + NewItems(h.id, marks))
    ensures ItemsReferenceHeaders(items + NewItems(h.id, marks), hs + [h])
    ensures ItemsOf(items + NewItems(h.id, marks), h.id) == NewItems(h.id, marks)
  {
    var added := NewItems(h.id, marks);
    var all := items + added;
    assert h.id !in HeaderIds(hs);
    ItemsOfFresh(items, h.id, marks);
    forall i, j | 0 <= i < j < |all|
      ensures !(all[i].attendanceId == all[j].attendanceId && all[i].studentId == all[j].studentId)
    {
      if j >= |items| && i >= |items| {
        assert StudentIds(marks)[i - |items|] != StudentIds(marks)[j - |items|];
      }
    }
    assert HeaderIds(hs + [h]) == HeaderIds(hs) + {h.id} by {
      assert (hs + [h])[|hs|] == h;
      forall j | 0 <= j < |hs| ensures (hs + [h])[j] == hs[j] { }
    }
  }

  /** A header with a fresh id and a free (school, class, date) keeps the header keys unique. */
  lemma AppendKeepsHeadersValid(hs: seq<Header>, h: Header)
    requires UniqueHeaderIds(hs) && UniqueAttendanceKeys(hs)
    requires forall j :: 0 <= j < |hs| ==> hs[j].id != h.id
    requires HeaderFor(hs, h.schoolId, h.classId, h.date).None?
    ensures UniqueHeaderIds(hs + [h]) && UniqueAttendanceKeys(hs + [h])
  {
    var all := hs + [h];
    forall i, j | 0 <= i < j < |all| ensures all[i].id != all[j].id {
      if j == |hs| { assert all[i] == hs[i]; }
    }
    forall i, j | 0 <= i < j < |all|
      ensures !(all[i].schoolId == all[j].schoolId && all[i].classId == all[j].classId && all[i].date == all[j].date)
    {
      if j == |hs| { assert all[i] == hs[i]; }
    }
  }

  /** `create`: a new header marked by the caller, a line item per submitted
      student, and the header read back with its students. */
  method Create(db: Db, req: CreateRequest, caller: Caller, freshId: Id) returns (r: Result<AttendanceRecord>)
    requires db.Valid()
    requires forall i :: 0 <= i < |db.headers| ==> db.headers[i].id != freshId
    modifies db`headers, db`items
    ensures db.Valid()
    ensures r.Err? <==> CreateError(old(db.headers), db.students, req, caller).Some?
    ensures r.Err? ==> (r.error == CreateError(old(db.headers), db.students, req, caller).value
      && db.headers == old(db.headers) && db.items == old(db.items))
    ensures r.Ok? ==>
      var h := Header(freshId, caller.schoolId, req.classId, req.date, caller.id, Marked);
      && db.headers == old(db.headers) + [h]
      && db.items == old(db.items) + NewItems(freshId, req.students)
      && r.value == AttendanceRecord(h, NewItems(freshId, req.students))
  {
    var existing := HeaderFor(db.headers, caller.schoolId, req.classId, req.date);
    if existing.Some? {
      return Err(Conflict("Attendance already marked for this class and date"));
    }
    var found := FoundStudents(db.students, StudentIds(req.students));
    if |found| != |req.students| {
      return Err(BadRequest("Some students not found"));
    }
    var e := CheckMembership(found, req.classId, caller.schoolId);
    if e.Some? {
      return Err(e.value);
    }
    StudentsErrorNoneIff(db.students, req.students, req.classId, caller.schoolId);
    var h := Header(freshId, caller.schoolId, req.classId, req.date, caller.id, Marked);
    var added := NewItems(freshId, req.students);
    AppendKeepsItemsValid(db.items, db.headers, h, req.students);
    AppendKeepsHeadersValid(db.headers, h);
    db.headers := db.headers + [h];
    db.items := db.items + added;
    r := Ok(AttendanceRecord(h, ItemsOf(db.items, freshId)));
  }

  // ---------------------------------------------------------------------------
  // The inline teacher check of the three queries

  /** A caller with the teacher role needs a profile and an assignment, of any
      kind, to the class in its school; other roles pass. */
  function Access(teachers: seq<TeacherProfile>, assignments: seq<Assignment>, caller: Caller, classId: Id): (e: Option<Error>)
    ensures e.Some? ==> e.value.BadRequest?
  {
    if caller.role != Teacher then None
    else
      var profile := First(teachers, (t: TeacherProfile) => t.userId == caller.id);
      if profile.None? then Some(BadRequest("Teacher profile not found"))
      else if !Exists(assignments, (a: Assignment) =>
        a.classId == classId && a.teacherId == Some(profile.value.id) && a.schoolId == Some(caller.schoolId))
      then Some(BadRequest("Not authorized"))
      else None
  }

  /** Who passes the teacher check. */
  lemma AccessIff(teachers: seq<TeacherProfile>, assignments: seq<Assignment>, caller: Caller, classId: Id)
    ensures caller.role != Teacher ==> Access(teachers, assignments, caller, classId).None?
    ensures caller.role == Teacher ==>
      (Access(teachers, assignments, caller, classId) == Some(BadRequest("Teacher profile not found")) <==>
        forall i :: 0 <= i < |teachers| ==> teachers[i].userId != caller.id)
    ensures caller.role == Teacher ==>
      (Access(teachers, assignments, caller, classId).None? <==>
        exists i, j :: 0 <= i < |teachers| && 0 <= j < |assignments|
          && teachers[i].userId == caller.id
          && (forall i' :: 0 <= i' < i ==> teachers[i'].userId != caller.id)
          && assignments[j].classId == classId && assignments[j].teacherId == Some(teachers[i].id)
          && assignments[j].schoolId == Some(caller.schoolId))
  {
    FirstAtIndexOf(teachers, (t: TeacherProfile) => t.userId == caller.id);
    if caller.role == Teacher {
      AccessGrantedIff(teachers, assignments, caller, classId);
    }
  }

  /** A teacher passes exactly with an assignment to the class in its school
      for the first profile of its user. */
  lemma AccessGrantedIff(teachers: seq<TeacherProfile>, assignments: seq<Assignment>, caller: Caller, classId: Id)
    requires caller.role == Teacher
    ensures Access(teachers, assignments, caller, classId).None? <==>
        exists i, j :: 0 <= i < |teachers| && 0 <= j < |assignments|
          && teachers[i].userId == caller.id
          && (forall i' :: 0 <= i' < i ==> teachers[i'].userId != caller.id)
          && assignments[j].classId == classId && assignments[j].teacherId == Some(teachers[i].id)
          && assignments[j].schoolId == Some(caller.schoolId)
  {
    var p := (t: TeacherProfile) => t.userId == caller.id;
    FirstAtIndexOf(teachers, p);
    var i := IndexOf(teachers, p);
    if Access(teachers, assignments, caller, classId).None? {
      var j :| 0 <= j < |assignments| && assignments[j].classId == classId
        && assignments[j].teacherId == Some(teachers[i].id) && assignments[j].schoolId == Some(caller.schoolId);
    }
    if exists i, j :: 0 <= i < |teachers| && 0 <= j < |assignments|
          && teachers[i].userId == caller.id
          && (forall i' :: 0 <= i' < i ==> teachers[i'].userId != caller.id)
          && assignments[j].classId == classId && assignments[j].teacherId == Some(teachers[i].id)
          && assignments[j].schoolId == Some(caller.schoolId)
    {
      var i1, j1 :| 0 <= i1 < |teachers| && 0 <= j1 < |assignments|
          && teachers[i1].userId == caller.id
          && (forall i' :: 0 <= i' < i1 ==> teachers[i'].userId != caller.id)
          && assignments[j1].classId == classId && assignments[j1].teacherId == Some(teachers[i1].id)
          && assignments[j1].schoolId == Some(caller.schoolId);
      assert i1 == i;
    }
  }

  // ---------------------------------------------------------------------------
  // getAttendance

  /** `getAttendance`: `null` when (school, class, date) has no header, checked
      before the teacher check; otherwise the header with its students. */
  function GetAttendance(db: Db, classId: Id, date: string, caller: Caller): (r: Result<Option<AttendanceRecord>>)
    reads db
    ensures HeaderFor(db.headers, caller.schoolId, classId, date).None? ==> r == Ok(None)
    ensures HeaderFor(db.headers, caller.schoolId, classId, date).Some? ==>
      (r.Err? <==> Access(db.teachers, db.assignments, caller, classId).Some?)
    ensures r.Ok? && r.value.Some? ==>
      var rec := r.value.value;
      && rec.header in db.headers
      && rec.header.schoolId == caller.schoolId && rec.header.classId == classId && rec.header.date == date
      && rec.students == ItemsOf(db.items, rec.header.id)
  {
    var h := HeaderFor(db.headers, caller.schoolId, classId, date);
    if h.None? then Ok(None)
    else
      var e := Access(db.teachers, db.assignments, caller, classId);
      if e.Some? then Err(e.value)
      else Ok(Some(AttendanceRecord(h.value, ItemsOf(db.items, h.value.id))))
  }

  /** Reading back what `create` wrote: an admin gets the submitted marks back unchanged. */
  lemma CreateThenGet(db: Db, req: CreateRequest, caller: Caller, freshId: Id, hs: seq<Header>, items: seq<LineItem>)
    requires caller.role != Teacher
    requires ItemsReferenceHeaders(items, hs)
    requires forall i :: 0 <= i < |hs| ==> hs[i].id != freshId
    requires HeaderFor(hs, caller.schoolId, req.classId, req.date).None?
    requires db.headers == hs + [Header(freshId, caller.schoolId, req.classId, req.date, caller.id, Marked)]
    requires db.items == items + NewItems(freshId, req.students)
    ensures GetAttendance(db, req.classId, req.date, caller) ==
      Ok(Some(AttendanceRecord(db.headers[|hs|], NewItems(freshId, req.students))))
  {
    var h := db.headers[|hs|];
    var p := (x: Header) => x.schoolId == caller.schoolId && x.classId == req.classId && x.date == req.date;
    FirstAtIndexOf(hs, p);
    FirstAtIndexOf(db.headers, p);
    assert forall i :: 0 <= i < |hs| ==> db.headers[i] == hs[i];
    assert IndexOf(db.headers, p) == |hs|;
    assert freshId !in HeaderIds(hs);
    ItemsOfFresh(items, freshId, req.students);
  }

  // ---------------------------------------------------------------------------
  // update

  /** The header `update` edits: the one with this id in the caller's school. */
  function HeaderIndex(hs: seq<Header>, aid: Id, schoolId: Id): (k: nat)
    ensures k <= |hs|
    ensures k < |hs| ==> hs[k].id == aid && hs[k].schoolId == schoolId
    ensures k == |hs| <==> forall i :: 0 <= i < |hs| ==> !(hs[i].id == aid && hs[i].schoolId == schoolId)
  {
    IndexOf(hs, (h: Header) => h.id == aid && h.schoolId == schoolId)
  }

  /** The marks the update body supplies, when it supplies a non-empty list. */
  function SubmittedMarks(req: UpdateRequest): seq<StudentMark> {
    if req.students.Some? then req.students.value else []
  }

  /** The date a header has after `update`: the new date when one is given. */
  function NewDate(h: Header, req: UpdateRequest): string {
    if Truthy(req.date) then req.date.value else h.date
  }

  /** The error `update` throws, if any. */
  function UpdateError(hs: seq<Header>, ss: seq<Student>, aid: Id, req: UpdateRequest, caller: Caller): Option<Error> {
    var k := HeaderIndex(hs, aid, caller.schoolId);
    if k == |hs| then Some(NotFound("Attendance not found"))
    else
      var h := hs[k];
      if Truthy(req.date) && req.date.value != h.date
         && HeaderFor(hs, caller.schoolId, h.classId, req.date.value).Some?
      then Some(Conflict("Another attendance exists for this class and date"))
      else if |SubmittedMarks(req)| > 0 then StudentsError(ss, SubmittedMarks(req), h.classId, caller.schoolId)
      else None
  }

  /** One pass of the upsert loop: the existing line item of the student gets
      the new status, or a new line item is added. */
  function UpsertOne(items: seq<LineItem>, aid: Id, m: StudentMark): seq<LineItem> {
    var k := IndexOf(items, KeyIs(aid, m.studentId));
    if k < |items| then items[k := LineItem(aid, m.studentId, m.status)]
    else items + [LineItem(aid, m.studentId, m.status)]
  }

  /** The upsert loop over the submitted marks, in order. */
  function UpsertAll(items: seq<LineItem>, aid: Id, marks: seq<StudentMark>): seq<LineItem>
    decreases |marks|
  {
    if |marks| == 0 then items
    else UpsertOne(UpsertAll(items, aid, marks[..|marks| - 1]), aid, marks[|marks| - 1])
  }

  /** One upsert keeps the key unique, keeps every other row in place and
      leaves exactly one row for the student, carrying the new status. */
  lemma UpsertOneFacts(items: seq<LineItem>, aid: Id, m: StudentMark)
    requires UniqueLineItems(items)
    ensures var r := UpsertOne(items, aid, m);
      && UniqueLineItems(r)
      && |items| <= |r| <= |items| + 1
      && (forall i :: 0 <= i < |items| ==> r[i].attendanceId == items[i].attendanceId && r[i].studentId == items[i].studentId)
      && (forall i :: 0 <= i < |items| && !KeyIs(aid, m.studentId)(items[i]) ==> r[i] == items[i])
      && (forall i :: |items| <= i < |r| ==> r[i] == LineItem(aid, m.studentId, m.status))
      && exists k :: 0 <= k < |r| && r[k] == LineItem(aid, m.studentId, m.status)
  {
    var k := IndexOf(items, KeyIs(aid, m.studentId));
    var r := UpsertOne(items, aid, m);
    if k < |items| {
      assert r[k] == LineItem(aid, m.studentId, m.status);
    } else {
      assert r[|items|] == LineItem(aid, m.studentId, m.status);
    }
  }

  /** The row of student `sid` under header `aid`. */
  function StatusOf(items: seq<LineItem>, aid: Id, sid: Id): Option<Mark> {
    var k := IndexOf(items, KeyIs(aid, sid));
    if k < |items| then Some(items[k].status) else None
  }

  /** After the upsert loop, every submitted student has the status it was
      last submitted with, rows of other headers or students are untouched,
      and the key stays unique. */
  lemma {:induction false} UpsertAllFacts(items: seq<LineItem>, aid: Id, marks: seq<StudentMark>)
    requires UniqueLineItems(items)
    ensures var r := UpsertAll(items, aid, marks);
      && UniqueLineItems(r)
      && |items| <= |r|
      && (forall i :: 0 <= i < |items| ==> r[i].attendanceId == items[i].attendanceId && r[i].studentId == items[i].studentId)
      && (forall i :: 0 <= i < |items| && !(items[i].attendanceId == aid && items[i].studentId in StudentIds(marks))
            ==> r[i] == items[i])
      && (forall i :: |items| <= i < |r| ==> r[i].attendanceId == aid && r[i].studentId in StudentIds(marks))
    decreases |marks|
  {
    if |marks| > 0 {
      var front := marks[..|marks| - 1];
      var m := marks[|marks| - 1];
      UpsertAllFacts(items, aid, front);
      var mid := UpsertAll(items, aid, front);
      UpsertOneFacts(mid, aid, m);
      var r := UpsertAll(items, aid, marks);
      assert r == UpsertOne(mid, aid, m);
      forall x | x in StudentIds(front) ensures x in StudentIds(marks) {
        var t :| 0 <= t < |front| && StudentIds(front)[t] == x;
        assert StudentIds(marks)[t] == x;
      }
      assert StudentIds(marks)[|marks| - 1] == m.studentId;
    }
  }

  /** The upserted student carries the new status. */
  lemma UpsertOneSets(items: seq<LineItem>, aid: Id, m: StudentMark)
    requires UniqueLineItems(items)
    ensures StatusOf(UpsertOne(items, aid, m), aid, m.studentId) == Some(m.status)
  {
    UpsertOneFacts(items, aid, m);
    var r := UpsertOne(items, aid, m);
    var k :| 0 <= k < |r| && r[k] == LineItem(aid, m.studentId, m.status);
    assert IndexOf(r, KeyIs(aid, m.studentId)) == k;
  }

  /** Upserting one student leaves the status of every other student as it was. */
  lemma UpsertOneKeeps(items: seq<LineItem>, aid: Id, m: StudentMark, sid: Id)
    requires UniqueLineItems(items)
    requires sid != m.studentId
    ensures StatusOf(UpsertOne(items, aid, m), aid, sid) == StatusOf(items, aid, sid)
  {
    UpsertOneFacts(items, aid, m);
    var r := UpsertOne(items, aid, m);
    var k := IndexOf(items, KeyIs(aid, sid));
    forall i | 0 <= i < |items| ensures KeyIs(aid, sid)(r[i]) == KeyIs(aid, sid)(items[i]) {
    }
    forall i | |items| <= i < |r| ensures !KeyIs(aid, sid)(r[i]) {
    }
    if k < |items| {
      assert !KeyIs(aid, m.studentId)(items[k]);
      assert IndexOf(r, KeyIs(aid, sid)) == k;
    } else {
      assert IndexOf(r, KeyIs(aid, sid)) == |r|;
    }
  }

  /** The status a student ends with is the one of its last submitted mark. */
  lemma {:induction false} UpsertAllStatus(items: seq<LineItem>, aid: Id, marks: seq<StudentMark>, t: nat)
    requires UniqueLineItems(items)
    requires t < |marks|
    requires forall u :: t < u < |marks| ==> marks[u].studentId != marks[t].studentId
    ensures StatusOf(UpsertAll(items, aid, marks), aid, marks[t].studentId) == Some(marks[t].status)
    decreases |marks|
  {
    var front := marks[..|marks| - 1];
    var m := marks[|marks| - 1];
    UpsertAllFacts(items, aid, front);
    var mid := UpsertAll(items, aid, front);
    if t == |marks| - 1 {
      UpsertOneSets(mid, aid, m);
    } else {
      assert front[t] == marks[t];
      UpsertAllStatus(items, aid, front, t);
      UpsertOneKeeps(mid, aid, m, marks[t].studentId);
    }
  }

  /** A date change keeps (school, class, date) unique when no header holds the new key. */
  lemma RedateKeepsKeys(hs: seq<Header>, k: nat, date: string)
    requires UniqueHeaderIds(hs) && UniqueAttendanceKeys(hs)
    requires k < |hs|
    requires date == hs[k].date || HeaderFor(hs, hs[k].schoolId, hs[k].classId, date).None?
    ensures UniqueHeaderIds(hs[k := hs[k].(date := date)])
    ensures UniqueAttendanceKeys(hs[k := hs[k].(date := date)])
  {
    var hs' := hs[k := hs[k].(date := date)];
    forall i, j | 0 <= i < j < |hs'|
      ensures !(hs'[i].schoolId == hs'[j].schoolId && hs'[i].classId == hs'[j].classId && hs'[i].date == hs'[j].date)
    {
      if i != k && j != k {
        assert hs'[i] == hs[i] && hs'[j] == hs[j];
      } else if date != hs[k].date {
        var o := if i == k then j else i;
        assert hs'[o] == hs[o];
      }
    }
  }

  /** Upserting marks of header `aid`, present in the table, keeps the line items valid. */
  lemma UpsertKeepsItemsValid(items: seq<LineItem>, hs: seq<Header>, aid: Id, marks: seq<StudentMark>)
    requires UniqueLineItems(items) && ItemsReferenceHeaders(items, hs)
    requires aid in HeaderIds(hs)
    ensures UniqueLineItems(UpsertAll(items, aid, marks))
    ensures ItemsReferenceHeaders(UpsertAll(items, aid, marks), hs)
  {
    var r := UpsertAll(items, aid, marks);
    UpsertAllFacts(items, aid, marks);
    forall t | 0 <= t < |r| ensures r[t].attendanceId in HeaderIds(hs) {
      if t < |items| {
        assert r[t].attendanceId == items[t].attendanceId;
      }
    }
  }

  /** The loop over the submitted marks of `update`. */
  method UpsertMarks(db: Db, aid: Id, marks: seq<StudentMark>)
    modifies db`items
    ensures db.items == UpsertAll(old(db.items), aid, marks)
  {
    var i := 0;
    while i < |marks|
      invariant 0 <= i <= |marks|
      invariant db.items == UpsertAll(old(db.items), aid, marks[..i])
    {
      var m := marks[i];
      var j := IndexOf(db.items, KeyIs(aid, m.studentId));
      if j < |db.items| {
        db.items := db.items[j := LineItem(aid, m.studentId, m.status)];
      } else {
        db.items := db.items + [LineItem(aid, m.studentId, m.status)];
      }
      assert marks[..i + 1][..i] == marks[..i];
      i := i + 1;
    }
    assert marks[..|marks|] == marks;
  }

  /** `update`: optionally moves the header to a new date and upserts the
      submitted marks, then reads the header back with its students. */
  method Update(db: Db, aid: Id, req: UpdateRequest, caller: Caller) returns (r: Result<AttendanceRecord>)
    requires db.Valid()
    modifies db`headers, db`items
    ensures db.Valid()
    ensures r.Err? <==> UpdateError(old(db.headers), db.students, aid, req, caller).Some?
    ensures r.Err? ==> (r.error == UpdateError(old(db.headers), db.students, aid, req, caller).value
      && db.headers == old(db.headers) && db.items == old(db.items))
    ensures r.Ok? ==>
      var k := HeaderIndex(old(db.headers), aid, caller.schoolId);
      && k < |old(db.headers)|
      && db.headers == old(db.headers)[k := old(db.headers)[k].(date := NewDate(old(db.headers)[k], req))]
      && db.items == UpsertAll(old(db.items), aid, SubmittedMarks(req))
      && r.value == AttendanceRecord(db.headers[k], ItemsOf(db.items, aid))
  {
    var k := HeaderIndex(db.headers, aid, caller.schoolId);
    if k == |db.headers| {
      return Err(NotFound("Attendance not found"));
    }
    var h := db.headers[k];
    if Truthy(req.date) && req.date.value != h.date {
      var existing := HeaderFor(db.headers, caller.schoolId, h.classId, req.date.value);
      if existing.Some? {
        return Err(Conflict("Another attendance exists for this class and date"));
      }
    }
    ghost var dateError := UpdateError(db.headers, db.students, aid, req, caller);
    var marks := SubmittedMarks(req);
    if |marks| > 0 {
      assert dateError == StudentsError(db.students, marks, h.classId, caller.schoolId);
      var found := FoundStudents(db.students, StudentIds(marks));
      if |found| != |marks| {
        return Err(BadRequest("Some students not found"));
      }
      var e := CheckMembership(found, h.classId, caller.schoolId);
      if e.Some? {
        return Err(e.value);
      }
    } else {
      assert dateError.None?;
    }
    var record := SaveUpdate(db, k, req);
    r := Ok(record);
  }

  /** The writes of `update` once its checks pass: the new date, then the
      upserted marks, and the header read back with its students. */
  method SaveUpdate(db: Db, k: nat, req: UpdateRequest) returns (record: AttendanceRecord)
    requires db.Valid()
    requires k < |db.headers|
    requires NewDate(db.headers[k], req) == db.headers[k].date
             || HeaderFor(db.headers, db.headers[k].schoolId, db.headers[k].classId, NewDate(db.headers[k], req)).None?
    modifies db`headers, db`items
    ensures db.Valid()
    ensures db.headers == old(db.headers)[k := old(db.headers)[k].(date := NewDate(old(db.headers)[k], req))]
    ensures db.items == UpsertAll(old(db.items), old(db.headers)[k].id, SubmittedMarks(req))
    ensures record == AttendanceRecord(db.headers[k], ItemsOf(db.items, old(db.headers)[k].id))
  {
    var h := db.headers[k];
    var marks := SubmittedMarks(req);
    UpdateKeepsValid(db.headers, db.items, db.students, k, NewDate(h, req), marks);
    db.headers := db.headers[k := h.(date := NewDate(h, req))];
    UpsertMarks(db, h.id, marks);
    record := AttendanceRecord(db.headers[k], ItemsOf(db.items, h.id));
  }

  // ---------------------------------------------------------------------------
  // The read-back of `create` and `update` as written

  function HeaderById(aid: Id): Header -> bool {
    (h: Header) => h.id == aid
  }

  /** The read-back that ends `create` and `update` as written:
      `attendanceRepo.findOne` does not go through the transaction's
      `manager`, so it runs on a connection of its own and, under
      PostgreSQL's default READ COMMITTED isolation, sees the tables as they
      were before the transaction, here `hs` and `items`. */
  function ReadBackAsWritten(hs: seq<Header>, items: seq<LineItem>, aid: Id): (r: Option<AttendanceRecord>)
    ensures r.None? <==> forall i :: 0 <= i < |hs| ==> hs[i].id != aid
    ensures r.Some? ==> r.value.header in hs && r.value.header.id == aid && r.value.students == ItemsOf(items, aid)
  {
    var h := First(hs, HeaderById(aid));
    if h.None? then None else Some(AttendanceRecord(h.value, ItemsOf(items, aid)))
  }

  /** As written, `create` resolves to `null`: the header it has just
      inserted is not committed when it is read back, whereas `Create`
      answers with the new record. */
  lemma CreateReadBackAsWrittenIsNull(hs: seq<Header>, items: seq<LineItem>, freshId: Id)
    requires forall i :: 0 <= i < |hs| ==> hs[i].id != freshId
    ensures ReadBackAsWritten(hs, items, freshId) == None
  {
  }

  /** As written, `update` resolves to the header and the items as they were
      before the call, so a new date is missing from its answer, whereas
      `Update` answers with the edited record. */
  lemma UpdateReadBackAsWrittenIsStale(hs: seq<Header>, items: seq<LineItem>, k: nat, req: UpdateRequest)
    requires UniqueHeaderIds(hs) && k < |hs|
    ensures ReadBackAsWritten(hs, items, hs[k].id) == Some(AttendanceRecord(hs[k], ItemsOf(items, hs[k].id)))
    ensures NewDate(hs[k], req) != hs[k].date ==>
      ReadBackAsWritten(hs, items, hs[k].id).value.header != hs[k].(date := NewDate(hs[k], req))
  {
    assert HeaderById(hs[k].id)(hs[k]);
    var h := First(hs, HeaderById(hs[k].id)).value;
    var j :| 0 <= j < |hs| && hs[j] == h;
    assert j == k;
  }

  /** A successful update keeps the tables valid. */
  lemma UpdateKeepsValid(hs: seq<Header>, items: seq<LineItem>, ss: seq<Student>, k: nat, date: string, marks: seq<StudentMark>)
    requires ValidTables(hs, items, ss)
    requires k < |hs|
    requires date == hs[k].date || HeaderFor(hs, hs[k].schoolId, hs[k].classId, date).None?
    ensures ValidTables(hs[k := hs[k].(date := date)], UpsertAll(items, hs[k].id, marks), ss)
  {
    RedateKeepsKeys(hs, k, date);
    UpsertKeepsItemsValid(items, hs, hs[k].id, marks);
    ItemsReferenceRedated(UpsertAll(items, hs[k].id, marks), hs, k, date);
  }

  /** Changing a header's date keeps every line item's reference. */
  lemma ItemsReferenceRedated(items: seq<LineItem>, hs: seq<Header>, k: nat, date: string)
    requires k < |hs|
    requires ItemsReferenceHeaders(items, hs)
    ensures ItemsReferenceHeaders(items, hs[k := hs[k].(date := date)])
  {
    HeaderIdsSame(hs, hs[k := hs[k].(date := date)]);
  }

  // ---------------------------------------------------------------------------
  // getClassHistory

  /** The `from` / `to` bounds of the history query; an empty bound is no bound. */
  predicate InRange(date: string, from: Option<string>, to: Option<string>) {
    (!Truthy(from) || LexLe(from.value, date)) && (!Truthy(to) || LexLe(date, to.value))
  }

  /** `orderBy('a.date', 'DESC')` as a "goes before" relation. */
  predicate DateDesc(a: AttendanceRecord, b: AttendanceRecord) {
    LexLe(b.header.date, a.header.date)
  }

  lemma DateDescTotal()
    ensures TotalPreorder(DateDesc)
  {
    forall a: AttendanceRecord, b: AttendanceRecord ensures DateDesc(a, b) || DateDesc(b, a) {
      LexLeTotal(a.header.date, b.header.date);
    }
    forall a: AttendanceRecord, b: AttendanceRecord, c: AttendanceRecord | DateDesc(a, b) && DateDesc(b, c)
      ensures DateDesc(a, c)
    {
      LexLeTransitive(c.header.date, b.header.date, a.header.date);
    }
  }

  /** The headers the class history selects, in table order. */
  function ClassHeaders(hs: seq<Header>, schoolId: Id, classId: Id, from: Option<string>, to: Option<string>): seq<Header> {
    Filter(hs, (h: Header) => h.schoolId == schoolId && h.classId == classId && InRange(h.date, from, to))
  }

  /** Headers joined with their `students` relation. */
  function WithItems(hs: seq<Header>, items: seq<LineItem>): (r: seq<AttendanceRecord>)
    ensures |r| == |hs|
    ensures forall i :: 0 <= i < |hs| ==> r[i] == AttendanceRecord(hs[i], ItemsOf(items, hs[i].id))
  {
    Map(hs, (h: Header) => AttendanceRecord(h, ItemsOf(items, h.id)))
  }

  /** `getClassHistory`: after the teacher check, the headers of the class in
      the caller's school within the bounds, newest first. */
  function ClassHistory(db: Db, classId: Id, from: Option<string>, to: Option<string>, caller: Caller): (r: Result<seq<AttendanceRecord>>)
    reads db
    ensures r.Err? <==> Access(db.teachers, db.assignments, caller, classId).Some?
  {
    var e := Access(db.teachers, db.assignments, caller, classId);
    if e.Some? then Err(e.value)
    else Ok(SortBy(WithItems(ClassHeaders(db.headers, caller.schoolId, classId, from, to), db.items), DateDesc))
  }

  /** The class history holds exactly the matching headers, one entry per
      matching header row, with their students, newest first. */
  lemma ClassHistoryContents(db: Db, classId: Id, from: Option<string>, to: Option<string>, caller: Caller)
    requires ClassHistory(db, classId, from, to, caller).Ok?
    ensures var r := ClassHistory(db, classId, from, to, caller).value;
      && Sorted(r, DateDesc)
      && |r| == |ClassHeaders(db.headers, caller.schoolId, classId, from, to)|
      && (forall k :: 0 <= k < |r| ==>
            && r[k].header in db.headers
            && r[k].header.schoolId == caller.schoolId && r[k].header.classId == classId
            && InRange(r[k].header.date, from, to)
            && r[k].students == ItemsOf(db.items, r[k].header.id))
      && (forall j :: 0 <= j < |db.headers| && db.headers[j].schoolId == caller.schoolId
            && db.headers[j].classId == classId && InRange(db.headers[j].date, from, to)
            ==> exists k :: 0 <= k < |r| && r[k].header == db.headers[j])
  {
    ClassHistorySound(db, classId, from, to, caller);
    ClassHistoryComplete(db, classId, from, to, caller);
  }

  lemma ClassHistorySound(db: Db, classId: Id, from: Option<string>, to: Option<string>, caller: Caller)
    requires ClassHistory(db, classId, from, to, caller).Ok?
    ensures var r := ClassHistory(db, classId, from, to, caller).value;
      && Sorted(r, DateDesc)
      && (forall k :: 0 <= k < |r| ==>
            && r[k].header in db.headers
            && r[k].header.schoolId == caller.schoolId && r[k].header.classId == classId
            && InRange(r[k].header.date, from, to)
            && r[k].students == ItemsOf(db.items, r[k].header.id))
  {
    var sel := ClassHeaders(db.headers, caller.schoolId, classId, from, to);
    var l := WithItems(sel, db.items);
    var r := ClassHistory(db, classId, from, to, caller).value;
    assert r == SortBy(l, DateDesc);
    DateDescTotal();
    SortBySorted(l, DateDesc);
    forall k | 0 <= k < |r|
      ensures && r[k].header in db.headers
              && r[k].header.schoolId == caller.schoolId && r[k].header.classId == classId
              && InRange(r[k].header.date, from, to)
              && r[k].students == ItemsOf(db.items, r[k].header.id)
    {
      assert r[k] in multiset(l);
      var i :| 0 <= i < |l| && l[i] == r[k];
      assert sel[i] in db.headers;
    }
  }

  lemma ClassHistoryComplete(db: Db, classId: Id, from: Option<string>, to: Option<string>, caller: Caller)
    requires ClassHistory(db, classId, from, to, caller).Ok?
    ensures var r := ClassHistory(db, classId, from, to, caller).value;
      forall j :: 0 <= j < |db.headers| && db.headers[j].schoolId == caller.schoolId
        && db.headers[j].classId == classId && InRange(db.headers[j].date, from, to)
        ==> exists k :: 0 <= k < |r| && r[k].header == db.headers[j]
  {
    var sel := ClassHeaders(db.headers, caller.schoolId, classId, from, to);
    var l := WithItems(sel, db.items);
    var r := ClassHistory(db, classId, from, to, caller).value;
    assert r == SortBy(l, DateDesc);
    forall j | 0 <= j < |db.headers| && db.headers[j].schoolId == caller.schoolId
        && db.headers[j].classId == classId && InRange(db.headers[j].date, from, to)
      ensures exists k :: 0 <= k < |r| && r[k].header == db.headers[j]
    {
      var i :| 0 <= i < |sel| && sel[i] == db.headers[j];
      assert l[i] in multiset(r);
      var k :| 0 <= k < |r| && r[k] == l[i];
    }
  }

  // ---------------------------------------------------------------------------
  // getStudentHistory

  /** `orderBy('a.date', 'DESC')` on the joined rows. */
  predicate RowDateDesc(a: HistoryRow, b: HistoryRow) {
    LexLe(b.header.date, a.header.date)
  }

  lemma RowDateDescTotal()
    ensures TotalPreorder(RowDateDesc)
  {
    forall a: HistoryRow, b: HistoryRow ensures RowDateDesc(a, b) || RowDateDesc(b, a) {
      LexLeTotal(a.header.date, b.header.date);
    }
    forall a: HistoryRow, b: HistoryRow, c: HistoryRow | RowDateDesc(a, b) && RowDateDesc(b, c)
      ensures RowDateDesc(a, c)
    {
      LexLeTransitive(c.header.date, b.header.date, a.header.date);
    }
  }

  /** The line items of the student joined with their header, kept when the
      header is in the school. */
  function HistoryRows(items: seq<LineItem>, hs: seq<Header>, sid: Id, schoolId: Id): (r: seq<HistoryRow>)
    ensures forall k :: 0 <= k < |r| ==>
      && r[k].item in items && r[k].item.studentId == sid
      && r[k].header in hs && r[k].header.id == r[k].item.attendanceId && r[k].header.schoolId == schoolId
  {
    if |items| == 0 then []
    else
      var it := items[0];
      var h := First(hs, (x: Header) => x.id == it.attendanceId);
      var rest := HistoryRows(items[1..], hs, sid, schoolId);
      if it.studentId == sid && h.Some? && h.value.schoolId == schoolId then [HistoryRow(it, h.value)] + rest
      else rest
  }

  /** Every line item of the student under a header of the school is in the history. */
  lemma {:induction false} HistoryRowsComplete(items: seq<LineItem>, hs: seq<Header>, sid: Id, schoolId: Id, i: nat, j: nat)
    requires UniqueHeaderIds(hs)
    requires i < |items| && j < |hs|
    requires items[i].studentId == sid && hs[j].id == items[i].attendanceId && hs[j].schoolId == schoolId
    ensures HistoryRow(items[i], hs[j]) in HistoryRows(items, hs, sid, schoolId)
  {
    var it := items[0];
    var p := (x: Header) => x.id == it.attendanceId;
    if i == 0 {
      FirstAtIndexOf(hs, p);
      var f := IndexOf(hs, p);
      assert f <= j;
      assert hs[f].id == hs[j].id;
      assert f == j;
    } else {
      HistoryRowsComplete(items[1..], hs, sid, schoolId, i - 1, j);
    }
  }

  /** `getStudentHistory`: the student must exist and be in the caller's school,
      then the teacher check runs against the student's class. */
  function StudentHistory(db: Db, sid: Id, caller: Caller): (r: Result<seq<HistoryRow>>)
    reads db
    ensures (forall i :: 0 <= i < |db.students| ==> db.students[i].id != sid) ==> r == Err(NotFound("Student not found"))
    ensures r.Ok? ==> forall k :: 0 <= k < |r.value| ==>
      && r.value[k].item in db.items && r.value[k].item.studentId == sid
      && r.value[k].header in db.headers && r.value[k].header.id == r.value[k].item.attendanceId
      && r.value[k].header.schoolId == caller.schoolId
  {
    var s := First(db.students, (x: Student) => x.id == sid);
    if s.None? then Err(NotFound("Student not found"))
    else if s.value.schoolId != caller.schoolId then Err(NotFound("Student not found in your school"))
    else
      var e := Access(db.teachers, db.assignments, caller, s.value.classId);
      if e.Some? then Err(e.value)
      else
        var rows := HistoryRows(db.items, db.headers, sid, caller.schoolId);
        var sorted := SortBy(rows, RowDateDesc);
        assert forall k :: 0 <= k < |sorted| ==> sorted[k] in multiset(rows);
        Ok(sorted)
  }

  /** The error cases of `getStudentHistory` for the first student row with
      the id: another school is "not found in your school", and in the
      caller's school the teacher check runs on that student's class. */
  lemma StudentHistoryErrors(db: Db, sid: Id, caller: Caller, i: nat)
    requires i < |db.students| && db.students[i].id == sid
    requires forall i' :: 0 <= i' < i ==> db.students[i'].id != sid
    ensures db.students[i].schoolId != caller.schoolId ==>
      StudentHistory(db, sid, caller) == Err(NotFound("Student not found in your school"))
    ensures db.students[i].schoolId == caller.schoolId ==>
      (StudentHistory(db, sid, caller).Err? <==>
         Access(db.teachers, db.assignments, caller, db.students[i].classId).Some?)
  {
    var p := (x: Student) => x.id == sid;
    FirstAtIndexOf(db.students, p);
    assert IndexOf(db.students, p) == i;
    assert First(db.students, p) == Some(db.students[i]);
  }

  /** The student history is newest first and misses no line item of the student in the school. */
  lemma StudentHistoryContents(db: Db, sid: Id, caller: Caller, i: nat, j: nat)
    requires UniqueHeaderIds(db.headers)
    requires StudentHistory(db, sid, caller).Ok?
    requires i < |db.items| && j < |db.headers|
    requires db.items[i].studentId == sid && db.headers[j].id == db.items[i].attendanceId
    requires db.headers[j].schoolId == caller.schoolId
    ensures Sorted(StudentHistory(db, sid, caller).value, RowDateDesc)
    ensures HistoryRow(db.items[i], db.headers[j]) in StudentHistory(db, sid, caller).value
  {
    var rows := HistoryRows(db.items, db.headers, sid, caller.schoolId);
    RowDateDescTotal();
    SortBySorted(rows, RowDateDesc);
    HistoryRowsComplete(db.items, db.headers, sid, caller.schoolId, i, j);
    assert HistoryRow(db.items[i], db.headers[j]) in multiset(SortBy(rows, RowDateDesc));
  }
}
