/** CourseService: creating, updating and deleting courses. */
module CourseService {
  import opened Wrappers
  import opened Text
  import opened Records
  import opened Errors
  import opened Store
  import opened CourseEntities

  const InstructorNotFoundText := "Instrutor não encontrado com ID: "
  const CategoryNotFoundText := "Categoria não encontrada com ID: "
  const CourseNotFoundText := "Curso não encontrado com ID: "
  /** `delete` spells the same message with a lower-case "d". */
  const CourseNotFoundOnDeleteText := "Curso não encontrado com Id: "
  const DeleteDeniedText := "Usuário não tem permissão para excluir este curso."

  /** The fields of a course update request: those `updateFields` copies, and
      the new instructor and category, each of which may be null. */
  datatype CourseChange = CourseChange(fields: CourseUpdate, instructorId: Option<int>, categoryId: Option<int>)

  /** The checks `create` makes: the instructor, then the category. */
  function CreateCheck(s: Snapshot, r: CourseRow): (f: Option<Failure>)
    ensures r.instructorId !in s.users.rows ==>
              f == Some(ResourceNotFound(InstructorNotFoundText + IntToString(r.instructorId)))
    ensures r.instructorId in s.users.rows && r.categoryId !in s.categories.rows ==>
              f == Some(ResourceNotFound(CategoryNotFoundText + IntToString(r.categoryId)))
    ensures f.None? <==> r.instructorId in s.users.rows && r.categoryId in s.categories.rows
  {
    if r.instructorId !in s.users.rows then Some(ResourceNotFound(InstructorNotFoundText + IntToString(r.instructorId)))
    else if r.categoryId !in s.categories.rows then Some(ResourceNotFound(CategoryNotFoundText + IntToString(r.categoryId)))
    else None
  }

  /** `create`, given the request's fields as the row they make. */
  method Create(db: Database, r: CourseRow) returns (res: Result<int>)
    requires db.Valid()
    modifies db
    ensures db.Valid()
    ensures res.Err? <==> CreateCheck(old(db.State()), r).Some?
    ensures res.Err? ==> res.error == CreateCheck(old(db.State()), r).value && db.State() == old(db.State())
    ensures res.Ok? ==> res.value == old(db.courses.next)
    ensures res.Ok? ==> db.State() == old(db.State()).(courses := Insert(old(db.courses), r))
  {
    if r.instructorId !in db.users.rows {
      return Err(ResourceNotFound(InstructorNotFoundText + IntToString(r.instructorId)));
    }
    if r.categoryId !in db.categories.rows {
      return Err(ResourceNotFound(CategoryNotFoundText + IntToString(r.categoryId)));
    }
    var course := new CourseEntity(r.title, r.description, r.thumbnailUrl, r.isPublished, r.instructorId, r.categoryId);
    var id := db.InsertCourse(course.Row());
    res := Ok(id);
  }

  /** The checks `update` makes, in order: the course, then the new instructor
      and the new category where the request names one. */
  function UpdateCheck(s: Snapshot, id: int, c: CourseChange): (f: Option<Failure>)
    ensures id !in s.courses.rows ==> f == Some(ResourceNotFound(CourseNotFoundText + IntToString(id)))
    ensures id in s.courses.rows && c.instructorId.Some? && c.instructorId.value !in s.users.rows ==>
              f == Some(ResourceNotFound(InstructorNotFoundText + IntToString(c.instructorId.value)))
    ensures id in s.courses.rows && (c.instructorId.Some? ==> c.instructorId.value in s.users.rows) &&
            c.categoryId.Some? && c.categoryId.value !in s.categories.rows ==>
              f == Some(ResourceNotFound(CategoryNotFoundText + IntToString(c.categoryId.value)))
    ensures f.None? <==>
              id in s.courses.rows && (c.instructorId.Some? ==> c.instructorId.value in s.users.rows) &&
              (c.categoryId.Some? ==> c.categoryId.value in s.categories.rows)
  {
    if id !in s.courses.rows then Some(ResourceNotFound(CourseNotFoundText + IntToString(id)))
    else if c.instructorId.Some? && c.instructorId.value !in s.users.rows then
      Some(ResourceNotFound(InstructorNotFoundText + IntToString(c.instructorId.value)))
    else if c.categoryId.Some? && c.categoryId.value !in s.categories.rows then
      Some(ResourceNotFound(CategoryNotFoundText + IntToString(c.categoryId.value)))
    else None
  }

  /** What a successful `update` makes of a course: the named instructor and
      category replace the old ones, and `updateFields` does the rest. */
  function ChangedCourse(r: CourseRow, c: CourseChange): (r': CourseRow)
    ensures c.instructorId.Some? ==> r'.instructorId == c.instructorId.value
    ensures c.instructorId.None? ==> r'.instructorId == r.instructorId
    ensures c.categoryId.Some? ==> r'.categoryId == c.categoryId.value
    ensures c.categoryId.None? ==> r'.categoryId == r.categoryId
    ensures r'.(instructorId := r.instructorId, categoryId := r.categoryId) == ApplyCourseUpdate(r, c.fields)
  {
    var withInstructor := if c.instructorId.Some? then r.(instructorId := c.instructorId.value) else r;
    var withCategory := if c.categoryId.Some? then withInstructor.(categoryId := c.categoryId.value) else withInstructor;
    ApplyCourseUpdate(withCategory, c.fields)
  }

  method Update(db: Database, id: int, c: CourseChange) returns (res: Result<CourseRow>)
    requires db.Valid()
    modifies db
    ensures db.Valid()
    ensures res.Err? <==> UpdateCheck(old(db.State()), id, c).Some?
    ensures res.Err? ==> res.error == UpdateCheck(old(db.State()), id, c).value && db.State() == old(db.State())
    ensures res.Ok? ==> res.value == ChangedCourse(old(db.courses.rows[id]), c)
    ensures res.Ok? ==> db.State() == old(db.State()).(courses := Put(old(db.courses), id, res.value))
  {
    if id !in db.courses.rows {
      return Err(ResourceNotFound(CourseNotFoundText + IntToString(id)));
    }
    var course := new CourseEntity.Load(id, db.courses.rows[id]);
    if c.instructorId.Some? {
      if c.instructorId.value !in db.users.rows {
        return Err(ResourceNotFound(InstructorNotFoundText + IntToString(c.instructorId.value)));
      }
      course.SetInstructor(c.instructorId.value);
    }
    if c.categoryId.Some? {
      if c.categoryId.value !in db.categories.rows {
        return Err(ResourceNotFound(CategoryNotFoundText + IntToString(c.categoryId.value)));
      }
      course.SetCategory(c.categoryId.value);
    }
    course.UpdateFields(c.fields);
    db.PutCourse(id, course.Row());
    res := Ok(course.Row());
  }

  /** The checks `delete` makes: the course exists, and the caller holds the
      ROLE_ADMIN role or instructs it. */
  function DeleteCheck(s: Snapshot, id: int, user: Principal): (f: Option<Failure>)
    ensures id !in s.courses.rows ==> f == Some(ResourceNotFound(CourseNotFoundOnDeleteText + IntToString(id)))
    ensures id in s.courses.rows && f.Some? ==> f.value == AccessDeniedByBusiness(DeleteDeniedText)
    ensures f.None? <==> id in s.courses.rows && (IsAdmin(user) || Teaches(s, id, user.id))
  {
    if id !in s.courses.rows then Some(ResourceNotFound(CourseNotFoundOnDeleteText + IntToString(id)))
    else if !IsAdmin(user) && s.courses.rows[id].instructorId != user.id then
      Some(AccessDeniedByBusiness(DeleteDeniedText))
    else None
  }

  method Delete(db: Database, id: int, user: Principal) returns (o: Outcome)
    requires db.Valid()
    modifies db
    ensures db.Valid()
    ensures DeleteCheck(old(db.State()), id, user).Some? ==> o == Fail(DeleteCheck(old(db.State()), id, user).value)
    ensures DeleteCheck(old(db.State()), id, user).None? ==>
              (o.Fail? <==> CourseReferenced(old(db.State()), id)) && (o.Fail? ==> o.error == ForeignKeyViolation)
    ensures o.Fail? ==> db.State() == old(db.State())
    ensures o.Pass? ==> db.State() == old(db.State()).(courses := Remove(old(db.courses), id))
  {
    if id !in db.courses.rows {
      return Fail(ResourceNotFound(CourseNotFoundOnDeleteText + IntToString(id)));
    }
    var course := new CourseEntity.Load(id, db.courses.rows[id]);
    var isAdmin := IsAdmin(user);
    var isInstructorOfCourse := course.instructorId == user.id;
    if !isAdmin && !isInstructorOfCourse {
      return Fail(AccessDeniedByBusiness(DeleteDeniedText));
    }
    o := db.DeleteCourse(id);
  }

  /** `isInstructorOfCourse`: false for an unknown course. */
  function IsInstructorOfCourse(s: Snapshot, courseId: int, user: Principal): (b: bool)
    ensures b <==> courseId in s.courses.rows && s.courses.rows[courseId].instructorId == user.id
  {
    if courseId in s.courses.rows then s.courses.rows[courseId].instructorId == user.id else false
  }

  /** A request that names neither an instructor nor a category changes only
      what `updateFields` changes. */
  lemma UpdateWithoutRelations(r: CourseRow, fields: CourseUpdate)
    ensures ChangedCourse(r, CourseChange(fields, None, None)) == ApplyCourseUpdate(r, fields)
  {
  }
}
