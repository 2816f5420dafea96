/** ModuleService: creating, updating and deleting the modules of a course. */
module ModuleService {
  import opened Wrappers
  import opened Text
  import opened Records
  import opened Errors
  import opened Repositories
  import opened Store
  import opened ModuleEntities

  const ModuleNotFoundText := "Módulo não encontrado com ID: "
  const DeleteDeniedText := "Usuário não tem permissão para deletar este módulo."
  const UpdateDeniedText := "Usuário não tem permissão para atualizar este módulo."

  function DuplicateTitleText(title: string, courseId: int): string {
    "Já existe um módulo com o título '" + title + "' para o curso com ID " + IntToString(courseId)
  }

  function NotUnderCourseText(courseId: int, moduleId: int): string {
    "Recurso não encontrado em /courses/" + IntToString(courseId) + "/modules/" + IntToString(moduleId)
  }

  /** The fields of a module creation request. */
  datatype NewModule = NewModule(title: string, description: string, orderIndex: int)

  /** The check `create` makes: the title must be new among the course's
      modules, compared exactly. The order index is not checked. */
  function CreateCheck(s: Snapshot, courseId: int, m: NewModule): (f: Option<Failure>)
    ensures f.None? <==> ModulesOfCourseTitled(s.modules.rows, courseId, m.title) == {}
    ensures f.Some? && f.value.DuplicateResource? <==> |ModulesOfCourseTitled(s.modules.rows, courseId, m.title)| == 1
    ensures f.Some? && f.value.DuplicateResource? ==> f.value.message == DuplicateTitleText(m.title, courseId)
    ensures f.Some? ==> f.value.DuplicateResource? || f.value.NonUniqueResult?
  {
    match Single(ModulesOfCourseTitled(s.modules.rows, courseId, m.title))
    case Absent => None
    case Present(_) => Some(DuplicateResource(DuplicateTitleText(m.title, courseId)))
    case NonUnique => Some(NonUniqueResult)
  }

  /** `create` receives the course already loaded. */
  method Create(db: Database, courseId: int, m: NewModule) returns (r: Result<int>)
    requires db.Valid() && courseId in db.courses.rows
    modifies db
    ensures db.Valid()
    ensures r.Err? <==> CreateCheck(old(db.State()), courseId, m).Some?
    ensures r.Err? ==> r.error == CreateCheck(old(db.State()), courseId, m).value && db.State() == old(db.State())
    ensures r.Ok? ==> r.value == old(db.modules.next)
    ensures r.Ok? ==> db.State() == old(db.State()).(modules := Insert(old(db.modules),
                                     ModuleRow(courseId, m.title, m.description, m.orderIndex)))
  {
    match Single(ModulesOfCourseTitled(db.modules.rows, courseId, m.title))
    case NonUnique =>
      return Err(NonUniqueResult);
    case Present(_) =>
      return Err(DuplicateResource(DuplicateTitleText(m.title, courseId)));
    case Absent =>
    var entity := new ModuleEntity(courseId, m.title, m.description, m.orderIndex);
    var id := db.InsertModule(entity.Row());
    r := Ok(id);
  }

  /** The checks `updateModule` and `deleteModule` make, in order: the module
      exists, it belongs to the course of the path, and the caller is an
      administrator or the course's instructor. */
  function ManageCheck(s: Snapshot, courseId: int, moduleId: int, user: Principal, deniedText: string)
    : (f: Option<Failure>)
    requires Consistent(s)
    ensures moduleId !in s.modules.rows ==> f == Some(ResourceNotFound(ModuleNotFoundText + IntToString(moduleId)))
    ensures moduleId in s.modules.rows && s.modules.rows[moduleId].courseId != courseId ==>
              f == Some(ResourceNotFound(NotUnderCourseText(courseId, moduleId)))
    ensures f.Some? && f.value.ResourceNotFound? <==>
              moduleId !in s.modules.rows || s.modules.rows[moduleId].courseId != courseId
    ensures f.Some? && !f.value.ResourceNotFound? ==> f == Some(AccessDenied(deniedText))
    ensures f.None? <==>
              moduleId in s.modules.rows && s.modules.rows[moduleId].courseId == courseId &&
              (IsAdmin(user) || Teaches(s, courseId, user.id))
  {
    if moduleId !in s.modules.rows then Some(ResourceNotFound(ModuleNotFoundText + IntToString(moduleId)))
    else if s.modules.rows[moduleId].courseId != courseId then Some(ResourceNotFound(NotUnderCourseText(courseId, moduleId)))
    else if !IsAdmin(user) && s.courses.rows[courseId].instructorId != user.id then Some(AccessDenied(deniedText))
    else None
  }

  /** A module reached under another course's path is not found, whoever asks:
      the parent check comes before the permission check. */
  lemma ForeignPathNotFound(s: Snapshot, courseId: int, moduleId: int, user: Principal, deniedText: string)
    requires Consistent(s) && moduleId in s.modules.rows && s.modules.rows[moduleId].courseId != courseId
    requires IsAdmin(user)
    ensures ManageCheck(s, courseId, moduleId, user, deniedText).value.ResourceNotFound?
  {
  }

  method DeleteModule(db: Database, courseId: int, moduleId: int, user: Principal) returns (o: Outcome)
    requires db.Valid()
    modifies db
    ensures db.Valid()
    ensures ManageCheck(old(db.State()), courseId, moduleId, user, DeleteDeniedText).Some? ==>
              o == Fail(ManageCheck(old(db.State()), courseId, moduleId, user, DeleteDeniedText).value)
    ensures ManageCheck(old(db.State()), courseId, moduleId, user, DeleteDeniedText).None? ==>
              (o.Fail? <==> ModuleReferenced(old(db.State()), moduleId)) && (o.Fail? ==> o.error == ForeignKeyViolation)
    ensures o.Fail? ==> db.State() == old(db.State())
    ensures o.Pass? ==> db.State() == old(db.State()).(modules := Remove(old(db.modules), moduleId))
  {
    if moduleId !in db.modules.rows {
      return Fail(ResourceNotFound(ModuleNotFoundText + IntToString(moduleId)));
    }
    var entity := new ModuleEntity.Load(moduleId, db.modules.rows[moduleId]);
    if entity.courseId != courseId {
      return Fail(ResourceNotFound(NotUnderCourseText(courseId, moduleId)));
    }
    var isAdmin := IsAdmin(user);
    var isCourseOwner := db.courses.rows[entity.courseId].instructorId == user.id;
    if !isAdmin && !isCourseOwner {
      return Fail(AccessDenied(DeleteDeniedText));
    }
    o := db.DeleteModule(moduleId);
  }

  method UpdateModule(db: Database, courseId: int, moduleId: int, u: ModuleUpdate, user: Principal)
    returns (r: Result<ModuleRow>)
    requires db.Valid()
    modifies db
    ensures db.Valid()
    ensures r.Err? <==> ManageCheck(old(db.State()), courseId, moduleId, user, UpdateDeniedText).Some?
    ensures r.Err? ==> r.error == ManageCheck(old(db.State()), courseId, moduleId, user, UpdateDeniedText).value &&
                       db.State() == old(db.State())
    ensures r.Ok? ==> r.value == ApplyModuleUpdate(old(db.modules.rows[moduleId]), u)
    ensures r.Ok? ==> db.State() == old(db.State()).(modules := Put(old(db.modules), moduleId, r.value))
  {
    if moduleId !in db.modules.rows {
      return Err(ResourceNotFound(ModuleNotFoundText + IntToString(moduleId)));
    }
    var entity := new ModuleEntity.Load(moduleId, db.modules.rows[moduleId]);
    if entity.courseId != courseId {
      return Err(ResourceNotFound(NotUnderCourseText(courseId, moduleId)));
    }
    var isAdmin := IsAdmin(user);
    var isCourseOwner := db.courses.rows[entity.courseId].instructorId == user.id;
    if !isAdmin && !isCourseOwner {
      return Err(AccessDenied(UpdateDeniedText));
    }
    entity.UpdateFields(u);
    db.PutModule(moduleId, entity.Row());
    r := Ok(entity.Row());
  }

  /** `isInstructorOfModule`: false for an unknown module, otherwise whether
      the user instructs the module's course. */
  function IsInstructorOfModule(s: Snapshot, moduleId: int, userId: int): (b: bool)
    requires Consistent(s)
    ensures b <==> moduleId in s.modules.rows && Teaches(s, s.modules.rows[moduleId].courseId, userId)
  {
    moduleId in s.modules.rows && s.courses.rows[s.modules.rows[moduleId].courseId].instructorId == userId
  }

  /** The instructor of a module's course passes the permission check on that
      module, and a non-administrator who does not instruct it is refused. */
  lemma InstructorMayManage(s: Snapshot, courseId: int, moduleId: int, user: Principal, deniedText: string)
    requires Consistent(s) && moduleId in s.modules.rows && s.modules.rows[moduleId].courseId == courseId
    ensures ManageCheck(s, courseId, moduleId, user, deniedText).None? <==>
              IsAdmin(user) || IsInstructorOfModule(s, moduleId, user.id)
  {
  }
}
