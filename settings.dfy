/** The admin settings service: a school's academic year, timezone,
    notification preferences and logo, read with defaults and updated field
    by field. */
module SettingsService {
  import opened Common
  import opened Entities
  import opened Seqs
  import opened Store

  /** What `getSettings` returns: every field filled in except the logo. */
  datatype CurrentSettings = CurrentSettings(
    academicYear: string,
    timezone: string,
    notificationPreferences: Preferences,
    schoolLogoUrl: Option<string>)

  /** What `updateSettings` returns: the saved fields, `None` where the school
      has none. */
  datatype Settings = Settings(
    academicYear: Option<string>,
    timezone: Option<string>,
    notificationPreferences: Option<Preferences>,
    schoolLogoUrl: Option<string>)

  /** A field of the update request: left out (`undefined`), or given, where
      a JSON `null` is given as `None`. */
  datatype Patch<T> = Omitted | Given(value: Option<T>)

  datatype UpdateSettingsDto = UpdateSettingsDto(
    academicYear: Patch<string>,
    timezone: Patch<string>,
    notificationPreferences: Patch<Preferences>,
    schoolLogoUrl: Patch<string>)

  const DefaultTimezone := "UTC"

  /** `{ email: true, sms: false }`. */
  const DefaultPreferences: Preferences := map["email" := true, "sms" := false]

  function SchoolById(id: Id): School -> bool {
    (s: School) => s.id == id
  }

  /** The validations both operations begin with: a school context, then a school
      with that id. */
  function SchoolFor(schools: seq<School>, schoolId: Id): (r: Result<School>)
    ensures schoolId == [] ==> r == Err(BadRequest("Missing school context"))
    ensures schoolId != [] && (forall i :: 0 <= i < |schools| ==> schools[i].id != schoolId) ==>
      r == Err(BadRequest("School not found"))
    ensures r.Err? ==> r.error in {BadRequest("Missing school context"), BadRequest("School not found")}
    ensures r.Ok? ==> schoolId != [] && r.value in schools && r.value.id == schoolId
  {
    if schoolId == [] then Err(BadRequest("Missing school context"))
    else
      var s := First(schools, SchoolById(schoolId));
      if s.None? then Err(BadRequest("School not found")) else Ok(s.value)
  }

  // ---------------------------------------------------------------------------
  // getSettings

  /** `getSettings`, with `currentYear` standing for
      `new Date().getFullYear().toString()`: the school's own values, and the
      defaults where it has none. */
  function GetSettings(schools: seq<School>, schoolId: Id, currentYear: string): (r: Result<CurrentSettings>)
    ensures r.Err? <==> SchoolFor(schools, schoolId).Err?
    ensures r.Err? ==> r.error == SchoolFor(schools, schoolId).error
    ensures r.Ok? ==>
      var s := SchoolFor(schools, schoolId).value;
      && (s.academicYear.Some? ==> r.value.academicYear == s.academicYear.value)
      && (s.academicYear.None? ==> r.value.academicYear == currentYear)
      && (s.timezone.Some? ==> r.value.timezone == s.timezone.value)
      && (s.timezone.None? ==> r.value.timezone == DefaultTimezone)
      && (s.notificationPreferences.Some? ==> r.value.notificationPreferences == s.notificationPreferences.value)
      && (s.notificationPreferences.None? ==> r.value.notificationPreferences == DefaultPreferences)
      && r.value.schoolLogoUrl == s.logoUrl
  {
    var school :- SchoolFor(schools, schoolId);
    Ok(CurrentSettings(
      OrElse(school.academicYear, currentYear),
      OrElse(school.timezone, DefaultTimezone),
      OrElse(school.notificationPreferences, DefaultPreferences),
      school.logoUrl))
  }

  // ---------------------------------------------------------------------------
  // updateSettings

  /** A request field applied to a school field. */
  function Patched<T>(current: Option<T>, p: Patch<T>): Option<T> {
    if p.Given? then p.value else current
  }

  /** The school after the assignments of `updateSettings`: each field given
      overwrites the school's, and `schoolLogoUrl` goes to `logoUrl`. */
  function Applied(s: School, dto: UpdateSettingsDto): (r: School)
    ensures r.id == s.id && r.name == s.name
    ensures dto.academicYear.Omitted? ==> r.academicYear == s.academicYear
    ensures dto.academicYear.Given? ==> r.academicYear == dto.academicYear.value
    ensures dto.timezone.Omitted? ==> r.timezone == s.timezone
    ensures dto.timezone.Given? ==> r.timezone == dto.timezone.value
    ensures dto.notificationPreferences.Omitted? ==> r.notificationPreferences == s.notificationPreferences
    ensures dto.notificationPreferences.Given? ==> r.notificationPreferences == dto.notificationPreferences.value
    ensures dto.schoolLogoUrl.Omitted? ==> r.logoUrl == s.logoUrl
    ensures dto.schoolLogoUrl.Given? ==> r.logoUrl == dto.schoolLogoUrl.value
  {
    s.(academicYear := Patched(s.academicYear, dto.academicYear),
       timezone := Patched(s.timezone, dto.timezone),
       notificationPreferences := Patched(s.notificationPreferences, dto.notificationPreferences),
       logoUrl := Patched(s.logoUrl, dto.schoolLogoUrl))
  }

  /** The response of `updateSettings`: the saved school's fields. */
  function Reported(s: School): Settings {
    Settings(s.academicYear, s.timezone, s.notificationPreferences, s.logoUrl)
  }

  /** The position of the school row `save` writes back. */
  function SchoolIndex(schools: seq<School>, schoolId: Id): nat {
    IndexOf(schools, SchoolById(schoolId))
  }

  /** `updateSettings`: the school row is found, its fields are assigned one
      by one from the request, and the row is saved in place. */
  method UpdateSettings(db: Db, schoolId: Id, dto: UpdateSettingsDto) returns (r: Result<Settings>)
    modifies db`schools
    ensures SchoolFor(old(db.schools), schoolId).Err? ==>
      r == Err(SchoolFor(old(db.schools), schoolId).error) && db.schools == old(db.schools)
    ensures SchoolFor(old(db.schools), schoolId).Ok? ==>
      && SchoolIndex(old(db.schools), schoolId) < |old(db.schools)|
      && db.schools == old(db.schools)[SchoolIndex(old(db.schools), schoolId) :=
                                         Applied(SchoolFor(old(db.schools), schoolId).value, dto)]
      && r == Ok(Reported(Applied(SchoolFor(old(db.schools), schoolId).value, dto)))
  {
    var found := SchoolFor(db.schools, schoolId);
    if found.Err? {
      return Err(found.error);
    }
    FirstAtIndexOf(db.schools, SchoolById(schoolId));
    var school := found.value;
    if dto.academicYear.Given? {
      school := school.(academicYear := dto.academicYear.value);
    }
    if dto.timezone.Given? {
      school := school.(timezone := dto.timezone.value);
    }
    if dto.notificationPreferences.Given? {
      school := school.(notificationPreferences := dto.notificationPreferences.value);
    }
    if dto.schoolLogoUrl.Given? {
      school := school.(logoUrl := dto.schoolLogoUrl.value);
    }
    var k := SchoolIndex(db.schools, schoolId);
    db.schools := db.schools[k := school];
    r := Ok(Reported(school));
  }

  /** Applying the same update twice gives the same school as applying it once. */
  lemma AppliedIdempotent(s: School, dto: UpdateSettingsDto)
    ensures Applied(Applied(s, dto), dto) == Applied(s, dto)
  {
  }

  /** An update with every field left out changes nothing. */
  lemma AppliedNothing(s: School)
    ensures Applied(s, UpdateSettingsDto(Omitted, Omitted, Omitted, Omitted)) == s
  {
  }

  /** Of two updates, the later one wins on every field it gives. */
  lemma AppliedTwice(s: School, first: UpdateSettingsDto, second: UpdateSettingsDto)
    ensures Applied(Applied(s, first), second) == Applied(s, Then(first, second))
  {
  }

  /** One update with the fields of `second` where it gives them, and those of
      `first` elsewhere. */
  function Then(first: UpdateSettingsDto, second: UpdateSettingsDto): UpdateSettingsDto {
    UpdateSettingsDto(
      if second.academicYear.Given? then second.academicYear else first.academicYear,
      if second.timezone.Given? then second.timezone else first.timezone,
      if second.notificationPreferences.Given? then second.notificationPreferences else first.notificationPreferences,
      if second.schoolLogoUrl.Given? then second.schoolLogoUrl else first.schoolLogoUrl)
  }

  /** After an update, `getSettings` shows each value the update gave, and a
      value it cleared to null falls back to its default. */
  lemma SettingsAfterUpdate(schools: seq<School>, schoolId: Id, dto: UpdateSettingsDto, currentYear: string)
    requires SchoolFor(schools, schoolId).Ok?
    ensures var k := SchoolIndex(schools, schoolId);
      && k < |schools|
      && var after := schools[k := Applied(SchoolFor(schools, schoolId).value, dto)];
      && GetSettings(after, schoolId, currentYear).Ok?
      && (dto.timezone == Given(None) ==> GetSettings(after, schoolId, currentYear).value.timezone == DefaultTimezone)
      && (dto.academicYear == Given(None) ==> GetSettings(after, schoolId, currentYear).value.academicYear == currentYear)
      && (dto.notificationPreferences == Given(None) ==>
            GetSettings(after, schoolId, currentYear).value.notificationPreferences == DefaultPreferences)
      && (forall t :: dto.timezone == Given(Some(t)) ==> GetSettings(after, schoolId, currentYear).value.timezone == t)
      && (forall y :: dto.academicYear == Given(Some(y)) ==> GetSettings(after, schoolId, currentYear).value.academicYear == y)
      && (forall p :: dto.notificationPreferences == Given(Some(p)) ==>
            GetSettings(after, schoolId, currentYear).value.notificationPreferences == p)
      && (forall l :: dto.schoolLogoUrl == Given(Some(l)) ==> GetSettings(after, schoolId, currentYear).value.schoolLogoUrl == Some(l))
      && GetSettings(after, schoolId, currentYear).value.schoolLogoUrl == Reported(after[k]).schoolLogoUrl
  {
    var k := SchoolIndex(schools, schoolId);
    FirstAtIndexOf(schools, SchoolById(schoolId));
    var after := schools[k := Applied(SchoolFor(schools, schoolId).value, dto)];
    FirstAtIndexOf(after, SchoolById(schoolId));
    assert IndexOf(after, SchoolById(schoolId)) == k by {
      IndexOfUpdate(schools, SchoolById(schoolId), Applied(SchoolFor(schools, schoolId).value, dto));
    }
  }

  /** Replacing the first match by another match keeps it first. */
  lemma {:induction false} IndexOfUpdate<T>(s: seq<T>, p: T -> bool, x: T)
    requires IndexOf(s, p) < |s| && p(x)
    ensures IndexOf(s[IndexOf(s, p) := x], p) == IndexOf(s, p)
  {
    if !p(s[0]) {
      IndexOfUpdate(s[1..], p, x);
      assert s[IndexOf(s, p) := x][1..] == s[1..][IndexOf(s[1..], p) := x];
    }
  }
}
