/** The admin announcements service: the audience of an announcement, its
    creation for the whole school or for one class, and the paged list. */
module AnnouncementsService {
  import opened Common
  import opened Entities
  import opened Seqs
  import opened Text
  import opened Store

  // ---------------------------------------------------------------------------
  // parseAudience

  /** Who an announcement is for: the whole school, or the class with the id. */
  datatype Audience = All | ForClass(id: string)

  /** `parseAudience`: no audience, an empty one or "all" is the school;
      "class:" followed by text names the class whose id is the second
      ':'-separated field; anything else is refused. */
  function ParseAudience(audience: Option<string>): (r: Result<Audience>)
    ensures r == Ok(All) <==> !Truthy(audience) || audience.value == "all"
    ensures r.Err? <==> Truthy(audience) && audience.value != "all" && !StartsWith(audience.value, "class:")
    ensures r.Err? ==> r.error == BadRequest("Invalid audience value")
    ensures r.Ok? && r.value.ForClass? ==> Field(audience.value, ':', 1) == Some(r.value.id)
  {
    if !Truthy(audience) || audience.value == "all" then Ok(All)
    else if StartsWith(audience.value, "class:") then
      var rest := audience.value[6..];
      assert audience.value == "class" + [':'] + rest;
      FieldAfterPrefix("class", ':', rest);
      Ok(ForClass(Split(rest, ':')[0]))
    else Err(BadRequest("Invalid audience value"))
  }

  /** The audience as a client writes it. */
  function AudienceText(a: Audience): string {
    match a
    case All => "all"
    case ForClass(id) => "class:" + id
  }

  /** Writing an audience and parsing it back gives the same audience, as
      long as the class id has no ':' of its own. */
  lemma ParseAudienceText(a: Audience)
    requires a.ForClass? ==> ':' !in a.id
    ensures ParseAudience(Some(AudienceText(a))) == Ok(a)
  {
    if a.ForClass? {
      assert AudienceText(a) == "class" + [':'] + a.id;
      assert AudienceText(a)[..6] == "class:";
      assert AudienceText(a)[6..] == a.id;
      SplitNoSeparator(a.id, ':');
    }
  }

  /** Only the second field counts: "class:" + id + ":" + more names `id`,
      so "class:a:b" is the class "a". */
  lemma ParseAudienceIgnoresLaterFields(id: string, more: string)
    requires ':' !in id
    ensures ParseAudience(Some("class:" + id + ":" + more)) == Ok(ForClass(id))
  {
    var s := "class:" + id + ":" + more;
    assert s[..6] == "class:";
    assert s[6..] == id + [':'] + more;
    SplitAfterPiece(id, ':', more);
  }

  // ---------------------------------------------------------------------------
  // create

  datatype CreateAnnouncementDto = CreateAnnouncementDto(
    title: string,
    message: string,
    audience: Option<string>,
    attachments: Option<seq<Attachment>>)

  /** `findOne({ where: { id } })` on the uuid key: any spelling of the id
      finds the class. */
  function ClassById(id: Id): ClassEntity -> bool {
    (c: ClassEntity) => SameUuid(c.id, id)
  }

  /** The `targetClassId` of an audience: none for the school; for a class,
      the class loaded by id with its school, which must be the caller's. An
      id that is no uuid makes the lookup raise, which Nest answers with a 500. */
  function Target(classes: seq<ClassEntity>, schoolId: Id, aud: Audience): (r: Result<Option<Id>>)
    ensures aud.All? ==> r == Ok(None)
    ensures aud.ForClass? && !IsUuid(aud.id) ==> r == Err(InternalError)
    ensures aud.ForClass? && IsUuid(aud.id) && (forall i :: 0 <= i < |classes| ==> !SameUuid(classes[i].id, aud.id)) ==>
      r == Err(BadRequest("Target class not found"))
    ensures r.Err? ==>
      && aud.ForClass?
      && r.error in {InternalError, BadRequest("Target class not found"), BadRequest("Class does not belong to your school")}
    ensures r.Ok? && aud.ForClass? ==>
      && IsUuid(aud.id)
      && exists i :: 0 <= i < |classes| && r.value == Some(classes[i].id)
                     && SameUuid(classes[i].id, aud.id) && classes[i].schoolId == Some(schoolId)
  {
    match aud
    case All => Ok(None)
    case ForClass(id) =>
      var cls := First(classes, ClassById(id));
      if !IsUuid(id) then Err(InternalError)
      else if cls.None? then Err(BadRequest("Target class not found"))
      else if cls.value.schoolId != Some(schoolId) then Err(BadRequest("Class does not belong to your school"))
      else Ok(Some(cls.value.id))
  }

  /** Class ids are primary keys: no two classes hold the same uuid. */
  ghost predicate UniqueClassIds(classes: seq<ClassEntity>) {
    forall i, j :: 0 <= i < |classes| && 0 <= j < |classes| && SameUuid(classes[i].id, classes[j].id) ==> i == j
  }

  /** With unique ids, a class audience is accepted exactly when its id is a
      uuid and its class belongs to the caller's school. */
  lemma TargetIff(classes: seq<ClassEntity>, schoolId: Id, id: Id)
    requires UniqueClassIds(classes)
    ensures Target(classes, schoolId, ForClass(id)).Ok? <==>
      IsUuid(id) && exists i :: 0 <= i < |classes| && SameUuid(classes[i].id, id) && classes[i].schoolId == Some(schoolId)
  {
    var cls := First(classes, ClassById(id));
    if IsUuid(id) && exists i :: 0 <= i < |classes| && SameUuid(classes[i].id, id) && classes[i].schoolId == Some(schoolId) {
      var i :| 0 <= i < |classes| && SameUuid(classes[i].id, id) && classes[i].schoolId == Some(schoolId);
      assert ClassById(id)(classes[i]);
      var j :| 0 <= j < |classes| && classes[j] == cls.value;
      assert SameUuid(classes[j].id, id);
      assert SameUuid(classes[i].id, classes[j].id);
    }
  }

  /** Two spellings of one uuid name the same target. */
  lemma TargetSpellings(classes: seq<ClassEntity>, schoolId: Id, a: Id, b: Id)
    requires SameUuid(a, b) && (IsUuid(a) <==> IsUuid(b))
    ensures Target(classes, schoolId, ForClass(a)) == Target(classes, schoolId, ForClass(b))
  {
    FirstSame(classes, ClassById(a), ClassById(b));
  }

  /** The school-context check, then the audience, then its class. */
  function CreateError(classes: seq<ClassEntity>, schoolId: Id, dto: CreateAnnouncementDto): Option<Error> {
    if schoolId == [] then Some(BadRequest("Missing school context"))
    else if ParseAudience(dto.audience).Err? then Some(ParseAudience(dto.audience).error)
    else if Target(classes, schoolId, ParseAudience(dto.audience).value).Err? then
      Some(Target(classes, schoolId, ParseAudience(dto.audience).value).error)
    else None
  }

  /** `create`: the saved announcement carries the request's title, message
      and attachments (or none), the caller's school and user, and the
      target class, none for the whole school. The store supplies the id
      and the creation time. */
  method Create(db: Db, schoolId: Id, dto: CreateAnnouncementDto, createdByUserId: Id, freshId: Id, now: int)
    returns (r: Result<Announcement>)
    modifies db`announcements
    ensures CreateError(db.classes, schoolId, dto).Some? ==>
      r == Err(CreateError(db.classes, schoolId, dto).value) && db.announcements == old(db.announcements)
    ensures CreateError(db.classes, schoolId, dto).None? ==>
      && r == Ok(Announcement(freshId, schoolId, dto.title, dto.message,
                              Target(db.classes, schoolId, ParseAudience(dto.audience).value).value,
                              dto.attachments, createdByUserId, now))
      && db.announcements == old(db.announcements) + [r.value]
  {
    if schoolId == [] {
      return Err(BadRequest("Missing school context"));
    }
    var aud :- ParseAudience(dto.audience);
    var targetClassId: Option<Id> := None;
    if aud.ForClass? {
      if !IsUuid(aud.id) {
        return Err(InternalError);
      }
      var cls := First(db.classes, ClassById(aud.id));
      if cls.None? {
        return Err(BadRequest("Target class not found"));
      }
      if cls.value.schoolId != Some(schoolId) {
        return Err(BadRequest("Class does not belong to your school"));
      }
      targetClassId := Some(cls.value.id);
    }
    var ann := Announcement(freshId, schoolId, dto.title, dto.message, targetClassId, dto.attachments, createdByUserId, now);
    db.announcements := db.announcements + [ann];
    r := Ok(ann);
  }

  /** What `create` accepts is consistent: the record is for the caller's
      school, an "all" audience has no target, and a class target is a
      class of the same school. */
  lemma CreatedTargetsOwnSchool(classes: seq<ClassEntity>, schoolId: Id, dto: CreateAnnouncementDto)
    requires CreateError(classes, schoolId, dto).None?
    ensures schoolId != []
    ensures var t := Target(classes, schoolId, ParseAudience(dto.audience).value).value;
      && (t.None? <==> !Truthy(dto.audience) || dto.audience.value == "all")
      && (t.Some? ==> exists i :: 0 <= i < |classes| && classes[i].id == t.value && classes[i].schoolId == Some(schoolId))
  {
  }

  // ---------------------------------------------------------------------------
  // list

  /** The filters of `list`; an absent or empty value is no filter. */
  datatype Conditions = Conditions(audience: Option<string>, classId: Option<string>, date: Option<string>, search: Option<string>)

  datatype AnnouncementQuery = AnnouncementQuery(where: Conditions, page: Option<int>, limit: Option<int>)

  datatype AnnouncementPage = AnnouncementPage(items: seq<Announcement>, total: nat, page: int, limit: int)

  /** The page and limit asked for, when given, are positive. */
  predicate ValidPaging(q: AnnouncementQuery) {
    (q.page.Some? ==> q.page.value >= 1) && (q.limit.Some? ==> q.limit.value >= 1)
  }

  /** The conditions of `list`: the school; audience "all" means no target
      class; audience "class" with a class id, or a class id alone, means that
      target; `DATE(createdAt)`, given by `dayOf`, equals the date; and title
      or message ILIKE the search. */
  predicate Selected(a: Announcement, schoolId: Id, c: Conditions, dayOf: int -> string) {
    && a.schoolId == schoolId
    && (Truthy(c.audience) && c.audience.value == "all" ==> a.targetClassId.None?)
    && (Truthy(c.audience) && c.audience.value == "class" && Truthy(c.classId) ==> a.targetClassId == Some(c.classId.value))
    && (Truthy(c.classId) ==> a.targetClassId == Some(c.classId.value))
    && (Truthy(c.date) ==> dayOf(a.createdAt) == c.date.value)
    && (Truthy(c.search) ==> ILike(a.title, c.search.value) || ILike(a.message, c.search.value))
  }

  function Selection(schoolId: Id, c: Conditions, dayOf: int -> string): Announcement -> bool {
    (a: Announcement) => Selected(a, schoolId, c, dayOf)
  }

  /** `orderBy('a.createdAt', 'DESC')`. */
  predicate Newer(a: Announcement, b: Announcement) {
    a.createdAt >= b.createdAt
  }

  lemma NewerTotal()
    ensures TotalPreorder(Newer)
  {
  }

  /** The selected rows, newest first. */
  function Ordered(announcements: seq<Announcement>, schoolId: Id, c: Conditions, dayOf: int -> string): (r: seq<Announcement>)
    ensures multiset(r) == multiset(Filter(announcements, Selection(schoolId, c, dayOf)))
    ensures |r| == |Filter(announcements, Selection(schoolId, c, dayOf))|
  {
    SortBy(Filter(announcements, Selection(schoolId, c, dayOf)), Newer)
  }

  /** `list`: one page of the ordered rows and their count, page 1 and limit
      20 by default. */
  function List(announcements: seq<Announcement>, schoolId: Id, q: AnnouncementQuery, dayOf: int -> string): (r: Result<AnnouncementPage>)
    requires ValidPaging(q)
    ensures r.Err? <==> schoolId == []
    ensures r.Err? ==> r.error == BadRequest("Missing school context")
    ensures r.Ok? ==>
      && r.value.page == OrElse(q.page, 1) && r.value.limit == OrElse(q.limit, 20)
      && r.value.total == |Filter(announcements, Selection(schoolId, q.where, dayOf))|
      && |r.value.items| <= r.value.limit
  {
    if schoolId == [] then Err(BadRequest("Missing school context"))
    else
      var page := OrElse(q.page, 1);
      var limit := OrElse(q.limit, 20);
      var rows := Ordered(announcements, schoolId, q.where, dayOf);
      Ok(AnnouncementPage(Page(rows, page, limit), |rows|, page, limit))
  }

  /** A page of `list` holds selected announcements of the table, newest
      first. */
  lemma ListContents(announcements: seq<Announcement>, schoolId: Id, q: AnnouncementQuery, dayOf: int -> string)
    requires ValidPaging(q) && schoolId != []
    ensures var items := List(announcements, schoolId, q, dayOf).value.items;
      && (forall k :: 0 <= k < |items| ==> items[k] in announcements && Selected(items[k], schoolId, q.where, dayOf))
      && (forall i, j :: 0 <= i < j < |items| ==> items[i].createdAt >= items[j].createdAt)
  {
    var f := Filter(announcements, Selection(schoolId, q.where, dayOf));
    var rows := Ordered(announcements, schoolId, q.where, dayOf);
    var items := List(announcements, schoolId, q, dayOf).value.items;
    assert items == Page(rows, OrElse(q.page, 1), OrElse(q.limit, 20));
    NewerTotal();
    SortBySorted(f, Newer);
    PageSorted(rows, OrElse(q.page, 1), OrElse(q.limit, 20), Newer);
    forall k | 0 <= k < |items|
      ensures items[k] in announcements && Selected(items[k], schoolId, q.where, dayOf)
    {
      assert items[k] in multiset(rows);
      assert items[k] in f;
    }
    forall i, j | 0 <= i < j < |items|
      ensures items[i].createdAt >= items[j].createdAt
    {
      assert Newer(items[i], items[j]);
    }
  }

  /** The items of `list` are the page asked for of the ordered rows. */
  lemma ListPage(announcements: seq<Announcement>, schoolId: Id, q: AnnouncementQuery, dayOf: int -> string)
    requires ValidPaging(q) && schoolId != []
    ensures List(announcements, schoolId, q, dayOf).value.items
      == Page(Ordered(announcements, schoolId, q.where, dayOf), OrElse(q.page, 1), OrElse(q.limit, 20))
  {
  }

  /** No selected announcement is out of reach of paging: of the `total`
      selected, the j-th newest is item `j % limit` of page `j / limit + 1`. */
  lemma {:induction false} ListReachesEveryAnnouncement(announcements: seq<Announcement>, schoolId: Id, q: AnnouncementQuery, dayOf: int -> string, j: nat)
    requires schoolId != []
    requires q.limit.Some? && q.limit.value >= 1
    requires j < |Filter(announcements, Selection(schoolId, q.where, dayOf))|
    ensures var l := List(announcements, schoolId, q.(page := Some(j / q.limit.value + 1)), dayOf).value;
      j % q.limit.value < |l.items| && l.items[j % q.limit.value] == Ordered(announcements, schoolId, q.where, dayOf)[j]
  {
    ListPageAt(announcements, schoolId, q, dayOf, j / q.limit.value + 1);
    PageCovers(Ordered(announcements, schoolId, q.where, dayOf), q.limit.value, j);
  }

  /** `ListPage` for a query that names its limit and asks for page `page`. */
  lemma ListPageAt(announcements: seq<Announcement>, schoolId: Id, q: AnnouncementQuery, dayOf: int -> string, page: int)
    requires schoolId != [] && q.limit.Some? && q.limit.value >= 1 && page >= 1
    ensures List(announcements, schoolId, q.(page := Some(page)), dayOf).value.items
      == Page(Ordered(announcements, schoolId, q.where, dayOf), page, q.limit.value)
  {
    ListPage(announcements, schoolId, q.(page := Some(page)), dayOf);
  }

  /** Audience "all" lists only school-wide announcements. */
  lemma ListAllIsSchoolWide(announcements: seq<Announcement>, schoolId: Id, q: AnnouncementQuery, dayOf: int -> string)
    requires ValidPaging(q) && schoolId != []
    requires q.where.audience == Some("all")
    ensures forall k :: 0 <= k < |List(announcements, schoolId, q, dayOf).value.items| ==>
      List(announcements, schoolId, q, dayOf).value.items[k].targetClassId.None?
  {
    ListContents(announcements, schoolId, q, dayOf);
  }

  /** Audience "class" without a class id filters nothing, and any audience
      other than "all" selects what the class id alone selects. */
  lemma ClassAudienceIsNoFilter(a: Announcement, schoolId: Id, c: Conditions, dayOf: int -> string)
    requires c.audience != Some("all")
    ensures Selected(a, schoolId, c, dayOf) == Selected(a, schoolId, c.(audience := None), dayOf)
  {
  }
}
