/** LessonService: creating, updating and deleting the lessons of a module. */
module LessonService {
  import opened Wrappers
  import opened Text
  import opened Records
  import opened Errors
  import opened Repositories
  import opened Store
  import opened LessonEntities

  const ModuleNotFoundText := "Módulo não encontrado com ID: "
  const LessonNotFoundText := "Aula não encontrada com ID: "
  const ModifyDeniedText := "Usuário não tem permissão para modificar aulas neste módulo."

  function DuplicateOrderText(orderIndex: int): string {
    "Já existe uma aula com a ordem " + IntToString(orderIndex) + " neste módulo."
  }

  function NotUnderModuleText(moduleId: int, lessonId: int): string {
    "Recurso não encontrado em /modules/" + IntToString(moduleId) + "/lessons/" + IntToString(lessonId)
  }

  /** The fields of a lesson creation request. */
  datatype NewLesson = NewLesson(title: string, description: string, youtubeVideoUrl: string,
                                 durationSeconds: Option<int>, orderIndex: int)

  /** `checkPermission`: an administrator, or the instructor of the course the
      module belongs to. */
  function CheckPermission(s: Snapshot, moduleId: int, user: Principal): (o: Outcome)
    requires Consistent(s) && moduleId in s.modules.rows
    ensures o.Pass? <==> IsAdmin(user) || Teaches(s, s.modules.rows[moduleId].courseId, user.id)
    ensures o.Fail? ==> o.error == AccessDenied(ModifyDeniedText)
  {
    var isAdmin := IsAdmin(user);
    var isCourseOwner := s.courses.rows[s.modules.rows[moduleId].courseId].instructorId == user.id;
    if !isAdmin && !isCourseOwner then Fail(AccessDenied(ModifyDeniedText)) else Pass
  }

  /** The checks `create` makes, in order: the module exists, the caller may
      modify it, and no lesson of the module has the order index. */
  function CreateCheck(s: Snapshot, moduleId: int, l: NewLesson, user: Principal): (f: Option<Failure>)
    requires Consistent(s)
    ensures moduleId !in s.modules.rows ==> f == Some(ResourceNotFound(ModuleNotFoundText + IntToString(moduleId)))
    ensures f.Some? && f.value.ResourceNotFound? <==> moduleId !in s.modules.rows
    ensures f.Some? && f.value.AccessDenied? <==> moduleId in s.modules.rows && CheckPermission(s, moduleId, user).Fail?
    ensures f.Some? && f.value.DuplicateResource? <==>
              moduleId in s.modules.rows && CheckPermission(s, moduleId, user).Pass? &&
              |LessonsOfModuleWithOrder(s.lessons.rows, moduleId, l.orderIndex)| == 1
    ensures f.Some? && f.value.DuplicateResource? ==> f.value.message == DuplicateOrderText(l.orderIndex)
    ensures f.None? <==>
              moduleId in s.modules.rows && CheckPermission(s, moduleId, user).Pass? &&
              LessonsOfModuleWithOrder(s.lessons.rows, moduleId, l.orderIndex) == {}
    ensures f.Some? ==> f.value.ResourceNotFound? || f.value.AccessDenied? || f.value.DuplicateResource? ||
                        f.value.NonUniqueResult?
  {
    if moduleId !in s.modules.rows then Some(ResourceNotFound(ModuleNotFoundText + IntToString(moduleId)))
    else if CheckPermission(s, moduleId, user).Fail? then Some(CheckPermission(s, moduleId, user).error)
    else match Single(LessonsOfModuleWithOrder(s.lessons.rows, moduleId, l.orderIndex))
      case Absent => None
      case Present(_) => Some(DuplicateResource(DuplicateOrderText(l.orderIndex)))
      case NonUnique => Some(NonUniqueResult)
  }

  /** Someone who may not modify the module is refused even when the order
      index is taken: permission is checked before uniqueness. */
  lemma PermissionBeforeDuplicate(s: Snapshot, moduleId: int, l: NewLesson, user: Principal)
    requires Consistent(s) && moduleId in s.modules.rows
    requires !IsAdmin(user) && s.courses.rows[s.modules.rows[moduleId].courseId].instructorId != user.id
    ensures CreateCheck(s, moduleId, l, user) == Some(AccessDenied(ModifyDeniedText))
  {
  }

  method Create(db: Database, moduleId: int, l: NewLesson, user: Principal) returns (r: Result<int>)
    requires db.Valid()
    modifies db
    ensures db.Valid()
    ensures r.Err? <==> CreateCheck(old(db.State()), moduleId, l, user).Some?
    ensures r.Err? ==> r.error == CreateCheck(old(db.State()), moduleId, l, user).value && db.State() == old(db.State())
    ensures r.Ok? ==> r.value == old(db.lessons.next)
    ensures r.Ok? ==> db.State() == old(db.State()).(lessons := Insert(old(db.lessons),
                        LessonRow(moduleId, l.title, l.description, l.youtubeVideoUrl, l.durationSeconds, l.orderIndex)))
  {
    if moduleId !in db.modules.rows {
      return Err(ResourceNotFound(ModuleNotFoundText + IntToString(moduleId)));
    }
    var permission := CheckPermission(db.State(), moduleId, user);
    if permission.Fail? {
      return Err(permission.error);
    }
    match Single(LessonsOfModuleWithOrder(db.lessons.rows, moduleId, l.orderIndex))
    case NonUnique =>
      return Err(NonUniqueResult);
    case Present(_) =>
      return Err(DuplicateResource(DuplicateOrderText(l.orderIndex)));
    case Absent =>
    var lesson := new LessonEntity(moduleId, l.title, l.description, l.youtubeVideoUrl, l.durationSeconds, l.orderIndex);
    var id := db.InsertLesson(lesson.Row());
    r := Ok(id);
  }

  /** The checks `update` and `delete` make, in order: the lesson exists, it
      belongs to the module of the path, and the caller may modify the
      module. */
  function ManageCheck(s: Snapshot, moduleId: int, lessonId: int, user: Principal): (f: Option<Failure>)
    requires Consistent(s)
    ensures lessonId !in s.lessons.rows ==> f == Some(ResourceNotFound(LessonNotFoundText + IntToString(lessonId)))
    ensures lessonId in s.lessons.rows && s.lessons.rows[lessonId].moduleId != moduleId ==>
              f == Some(ResourceNotFound(NotUnderModuleText(moduleId, lessonId)))
    ensures f.Some? && f.value.ResourceNotFound? <==>
              lessonId !in s.lessons.rows || s.lessons.rows[lessonId].moduleId != moduleId
    ensures f.Some? && !f.value.ResourceNotFound? ==> f == Some(AccessDenied(ModifyDeniedText))
    ensures f.None? <==>
              lessonId in s.lessons.rows && s.lessons.rows[lessonId].moduleId == moduleId &&
              CheckPermission(s, moduleId, user).Pass?
  {
    if lessonId !in s.lessons.rows then Some(ResourceNotFound(LessonNotFoundText + IntToString(lessonId)))
    else if s.lessons.rows[lessonId].moduleId != moduleId then Some(ResourceNotFound(NotUnderModuleText(moduleId, lessonId)))
    else if CheckPermission(s, moduleId, user).Fail? then Some(CheckPermission(s, moduleId, user).error)
    else None
  }

  method Update(db: Database, moduleId: int, lessonId: int, u: LessonUpdate, user: Principal)
    returns (r: Result<LessonRow>)
    requires db.Valid()
    modifies db
    ensures db.Valid()
    ensures r.Err? <==> ManageCheck(old(db.State()), moduleId, lessonId, user).Some?
    ensures r.Err? ==> r.error == ManageCheck(old(db.State()), moduleId, lessonId, user).value &&
                       db.State() == old(db.State())
    ensures r.Ok? ==> r.value == ApplyLessonUpdate(old(db.lessons.rows[lessonId]), u)
    ensures r.Ok? ==> db.State() == old(db.State()).(lessons := Put(old(db.lessons), lessonId, r.value))
  {
    if lessonId !in db.lessons.rows {
      return Err(ResourceNotFound(LessonNotFoundText + IntToString(lessonId)));
    }
    var lesson := new LessonEntity.Load(lessonId, db.lessons.rows[lessonId]);
    if lesson.moduleId != moduleId {
      return Err(ResourceNotFound(NotUnderModuleText(moduleId, lessonId)));
    }
    var permission := CheckPermission(db.State(), lesson.moduleId, user);
    if permission.Fail? {
      return Err(permission.error);
    }
    lesson.UpdateFields(u);
    db.PutLesson(lessonId, lesson.Row());
    r := Ok(lesson.Row());
  }

  method Delete(db: Database, moduleId: int, lessonId: int, user: Principal) returns (o: Outcome)
    requires db.Valid()
    modifies db
    ensures db.Valid()
    ensures ManageCheck(old(db.State()), moduleId, lessonId, user).Some? ==>
              o == Fail(ManageCheck(old(db.State()), moduleId, lessonId, user).value)
    ensures ManageCheck(old(db.State()), moduleId, lessonId, user).None? ==>
              (o.Fail? <==> LessonReferenced(old(db.State()), lessonId)) && (o.Fail? ==> o.error == ForeignKeyViolation)
    ensures o.Fail? ==> db.State() == old(db.State())
    ensures o.Pass? ==> db.State() == old(db.State()).(lessons := Remove(old(db.lessons), lessonId))
  {
    if lessonId !in db.lessons.rows {
      return Fail(ResourceNotFound(LessonNotFoundText + IntToString(lessonId)));
    }
    var lesson := new LessonEntity.Load(lessonId, db.lessons.rows[lessonId]);
    if lesson.moduleId != moduleId {
      return Fail(ResourceNotFound(NotUnderModuleText(moduleId, lessonId)));
    }
    var permission := CheckPermission(db.State(), lesson.moduleId, user);
    if permission.Fail? {
      return permission;
    }
    o := db.DeleteLesson(lessonId);
  }
}
