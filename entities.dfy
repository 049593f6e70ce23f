/** The rows the services read and write, with the fields the services use. */
module Entities {
  import opened Common

  /** `notificationPreferences` is a JSON object; the model keeps boolean flags. */
  type Preferences = map<string, bool>

  datatype School = School(
    id: Id,
    name: string,
    logoUrl: Option<string>,
    academicYear: Option<string>,
    timezone: Option<string>,
    notificationPreferences: Option<Preferences>)

  /** `schoolId` is the user's school foreign key, absent for users without a school. */
  datatype User = User(id: Id, fullName: string, email: string, role: Role, schoolId: Option<Id>)

  /** A teacher profile with its two many-to-many relations, `classes` and
      `subjects`, held as the related ids in relation order. */
  datatype TeacherProfile = TeacherProfile(
    id: Id,
    userId: Id,
    schoolId: Option<Id>,
    phone: Option<string>,
    classes: seq<Id>,
    subjects: seq<Id>)

  datatype ClassEntity = ClassEntity(id: Id, schoolId: Option<Id>, name: string, section: Option<string>)

  /** A subject is soft-deleted once `deletedAt` holds a timestamp. */
  datatype Subject = Subject(id: Id, schoolId: Id, name: string, code: Option<string>, deletedAt: Option<int>)

  /** A row of `class_teacher_assignments`, unique on (classId, teacherId, subjectId). */
  datatype Assignment = Assignment(
    classId: Id,
    teacherId: Option<Id>,
    subjectId: Option<Id>,
    schoolId: Option<Id>,
    isClassTeacher: bool)

  datatype Student = Student(
    id: Id,
    schoolId: Id,
    classId: Id,
    name: string,
    rollNo: Option<string>,
    photoUrl: Option<string>)

  /** `AttendanceStudentStatus`. */
  datatype Mark = Present | Absent

  /** The header status; `'MARKED'` is the only value the service writes. */
  datatype HeaderStatus = Marked

  /** An attendance header: one per (school, class, date). */
  datatype Header = Header(id: Id, schoolId: Id, classId: Id, date: string, markedBy: Id, status: HeaderStatus)

  /** A per-student line item of a header, unique on (attendanceId, studentId). */
  datatype LineItem = LineItem(attendanceId: Id, studentId: Id, status: Mark)

  datatype Attachment = Attachment(filename: string, url: string)

  /** `targetClassId` is `None` for a school-wide announcement; `createdAt` is a timestamp. */
  datatype Announcement = Announcement(
    id: Id,
    schoolId: Id,
    title: string,
    message: string,
    targetClassId: Option<Id>,
    attachments: Option<seq<Attachment>>,
    createdByUserId: Id,
    createdAt: int)
}
