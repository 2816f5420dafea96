/** The database behind the repositories: one table per entity, each a map
    from generated id to row plus the next value of its IDENTITY sequence, and
    the constraints the schema enforces. */
module Store {
  import opened Wrappers
  import opened Records
  import opened Errors
  import opened Repositories

  /** What PostgreSQL reports when a delete would leave a row pointing at
      nothing; the exception handler answers it with the generic integrity
      text. */
  const ForeignKeyDetail := "update or delete on table violates foreign key constraint"

  const ForeignKeyViolation := DataIntegrityViolation(Some(ForeignKeyDetail))

  datatype Table<R> = Table(rows: map<int, R>, next: nat)

  /** `save` of a new entity: the row gets the next id of the sequence. */
  function Insert<R>(t: Table<R>, r: R): (t': Table<R>)
    ensures t'.rows == t.rows[t.next := r] && t'.next == t.next + 1
  {
    Table(t.rows[t.next := r], t.next + 1)
  }

  /** `save` of an entity loaded from the table. */
  function Put<R>(t: Table<R>, id: int, r: R): (t': Table<R>)
    requires id in t.rows
    ensures t'.rows.Keys == t.rows.Keys && t'.rows[id] == r && t'.next == t.next
    ensures forall k | k in t.rows && k != id :: t'.rows[k] == t.rows[k]
  {
    Table(t.rows[id := r], t.next)
  }

  function Remove<R>(t: Table<R>, id: int): (t': Table<R>)
    ensures t'.rows.Keys == t.rows.Keys - {id} && t'.next == t.next
    ensures forall k | k in t'.rows :: t'.rows[k] == t.rows[k]
  {
    Table(t.rows - {id}, t.next)
  }

  /** Every id a table has handed out is below its next value. */
  predicate Fresh<R>(t: Table<R>) {
    forall id | id in t.rows :: id < t.next
  }

  datatype Snapshot = Snapshot(users: Table<UserRow>, categories: Table<CategoryRow>,
                               courses: Table<CourseRow>, modules: Table<ModuleRow>,
                               lessons: Table<LessonRow>, enrollments: Table<EnrollmentRow>)

  predicate CoursesLinked(s: Snapshot) {
    forall c | c in s.courses.rows ::
      s.courses.rows[c].instructorId in s.users.rows && s.courses.rows[c].categoryId in s.categories.rows
  }

  predicate ModulesLinked(s: Snapshot) {
    forall m | m in s.modules.rows :: s.modules.rows[m].courseId in s.courses.rows
  }

  predicate LessonsLinked(s: Snapshot) {
    forall l | l in s.lessons.rows :: s.lessons.rows[l].moduleId in s.modules.rows
  }

  predicate EnrollmentsLinked(s: Snapshot) {
    forall e | e in s.enrollments.rows ::
      var r := s.enrollments.rows[e];
      r.userId in s.users.rows && r.courseId in s.courses.rows &&
      (r.lastWatchedLesson.Some? ==> r.lastWatchedLesson.value in s.lessons.rows)
  }

  /** The unique constraint on (user_id, course_id) of the enrollments table. */
  predicate EnrollmentPairsUnique(enrollments: map<int, EnrollmentRow>) {
    forall e1, e2 | e1 in enrollments && e2 in enrollments &&
                    enrollments[e1].userId == enrollments[e2].userId &&
                    enrollments[e1].courseId == enrollments[e2].courseId :: e1 == e2
  }

  /** What the schema guarantees at every commit. */
  predicate Consistent(s: Snapshot) {
    Fresh(s.users) && Fresh(s.categories) && Fresh(s.courses) && Fresh(s.modules) &&
    Fresh(s.lessons) && Fresh(s.enrollments) &&
    CoursesLinked(s) && ModulesLinked(s) && LessonsLinked(s) && EnrollmentsLinked(s) &&
    EnrollmentPairsUnique(s.enrollments.rows)
  }

  /** Under the unique constraint, `findByUserAndCourse` never finds two rows. */
  lemma PairLookupIsSingle(enrollments: map<int, EnrollmentRow>, userId: int, courseId: int)
    requires EnrollmentPairsUnique(enrollments)
    ensures |EnrollmentsOf(enrollments, userId, courseId)| <= 1
    ensures !Single(EnrollmentsOf(enrollments, userId, courseId)).NonUnique?
  {
    var found := EnrollmentsOf(enrollments, userId, courseId);
    if |found| > 1 {
      var a, b := TwoMembers(found);
    }
  }

  /** The user is the instructor of the course. */
  predicate Teaches(s: Snapshot, courseId: int, userId: int) {
    courseId in s.courses.rows && s.courses.rows[courseId].instructorId == userId
  }

  /** The rows that still point at a row; deleting a referenced row violates a
      foreign key. No cascade is declared on any relation. */
  predicate CategoryReferenced(s: Snapshot, id: int) {
    exists c | c in s.courses.rows :: s.courses.rows[c].categoryId == id
  }

  predicate CourseReferenced(s: Snapshot, id: int) {
    (exists m | m in s.modules.rows :: s.modules.rows[m].courseId == id) ||
    (exists e | e in s.enrollments.rows :: s.enrollments.rows[e].courseId == id)
  }

  predicate ModuleReferenced(s: Snapshot, id: int) {
    exists l | l in s.lessons.rows :: s.lessons.rows[l].moduleId == id
  }

  predicate LessonReferenced(s: Snapshot, id: int) {
    exists e | e in s.enrollments.rows :: s.enrollments.rows[e].lastWatchedLesson == Some(id)
  }

  /** Deleting an unreferenced row keeps the schema's guarantees. */
  lemma RemoveCategoryConsistent(s: Snapshot, id: int)
    requires Consistent(s) && !CategoryReferenced(s, id)
    ensures Consistent(s.(categories := Remove(s.categories, id)))
  {
  }

  lemma RemoveCourseConsistent(s: Snapshot, id: int)
    requires Consistent(s) && !CourseReferenced(s, id)
    ensures Consistent(s.(courses := Remove(s.courses, id)))
  {
  }

  lemma RemoveModuleConsistent(s: Snapshot, id: int)
    requires Consistent(s) && !ModuleReferenced(s, id)
    ensures Consistent(s.(modules := Remove(s.modules, id)))
  {
  }

  lemma RemoveLessonConsistent(s: Snapshot, id: int)
    requires Consistent(s) && !LessonReferenced(s, id)
    ensures Consistent(s.(lessons := Remove(s.lessons, id)))
  {
  }

  /** Inserting a row whose references resolve keeps the guarantees; an
      enrollment also needs its (user, course) pair to be new. */
  lemma InsertEnrollmentConsistent(s: Snapshot, r: EnrollmentRow)
    requires Consistent(s)
    requires r.userId in s.users.rows && r.courseId in s.courses.rows && r.lastWatchedLesson.None?
    requires EnrollmentsOf(s.enrollments.rows, r.userId, r.courseId) == {}
    ensures Consistent(s.(enrollments := Insert(s.enrollments, r)))
  {
    var rows := Insert(s.enrollments, r).rows;
    forall e | e in s.enrollments.rows
      ensures rows[e].userId != r.userId || rows[e].courseId != r.courseId
    {
      assert e !in EnrollmentsOf(s.enrollments.rows, r.userId, r.courseId);
    }
  }

  /** The database. The methods are the repository calls the services make:
      `save` of a new or a loaded entity, and `delete`. */
  class Database {
    var users: Table<UserRow>
    var categories: Table<CategoryRow>
    var courses: Table<CourseRow>
    var modules: Table<ModuleRow>
    var lessons: Table<LessonRow>
    var enrollments: Table<EnrollmentRow>

    function State(): Snapshot
      reads this
    {
      Snapshot(users, categories, courses, modules, lessons, enrollments)
    }

    ghost predicate Valid()
      reads this
    {
      Consistent(State())
    }

    /** An empty database; every sequence starts at 1. */
    constructor ()
      ensures Valid()
      ensures users.rows == map[] && categories.rows == map[] && courses.rows == map[]
      ensures modules.rows == map[] && lessons.rows == map[] && enrollments.rows == map[]
    {
      users := Table(map[], 1);
      categories := Table(map[], 1);
      courses := Table(map[], 1);
      modules := Table(map[], 1);
      lessons := Table(map[], 1);
      enrollments := Table(map[], 1);
    }

    method InsertUser(r: UserRow) returns (id: int)
      modifies this
      ensures id == old(users.next) && State() == old(State()).(users := Insert(old(users), r))
      ensures old(Valid()) ==> Valid()
    {
      id := users.next;
      users := Insert(users, r);
    }

    method PutUser(id: int, r: UserRow)
      requires id in users.rows
      modifies this
      ensures State() == old(State()).(users := Put(old(users), id, r))
      ensures old(Valid()) ==> Valid()
    {
      users := Put(users, id, r);
    }

    method InsertCategory(r: CategoryRow) returns (id: int)
      modifies this
      ensures id == old(categories.next) && State() == old(State()).(categories := Insert(old(categories), r))
      ensures old(Valid()) ==> Valid()
    {
      id := categories.next;
      categories := Insert(categories, r);
    }

    method PutCategory(id: int, r: CategoryRow)
      requires id in categories.rows
      modifies this
      ensures State() == old(State()).(categories := Put(old(categories), id, r))
      ensures old(Valid()) ==> Valid()
    {
      categories := Put(categories, id, r);
    }

    method DeleteCategory(id: int) returns (o: Outcome)
      requires id in categories.rows
      modifies this
      ensures o.Fail? <==> CategoryReferenced(old(State()), id)
      ensures o.Fail? ==> o.error == ForeignKeyViolation && State() == old(State())
      ensures o.Pass? ==> State() == old(State()).(categories := Remove(old(categories), id))
      ensures old(Valid()) ==> Valid()
    {
      if CategoryReferenced(State(), id) {
        return Fail(ForeignKeyViolation);
      }
      if Valid() {
        RemoveCategoryConsistent(State(), id);
      }
      categories := Remove(categories, id);
      o := Pass;
    }

    method InsertCourse(r: CourseRow) returns (id: int)
      requires r.instructorId in users.rows && r.categoryId in categories.rows
      modifies this
      ensures id == old(courses.next) && State() == old(State()).(courses := Insert(old(courses), r))
      ensures old(Valid()) ==> Valid()
    {
      id := courses.next;
      courses := Insert(courses, r);
    }

    method PutCourse(id: int, r: CourseRow)
      requires id in courses.rows
      requires r.instructorId in users.rows && r.categoryId in categories.rows
      modifies this
      ensures State() == old(State()).(courses := Put(old(courses), id, r))
      ensures old(Valid()) ==> Valid()
    {
      courses := Put(courses, id, r);
    }

    method DeleteCourse(id: int) returns (o: Outcome)
      requires id in courses.rows
      modifies this
      ensures o.Fail? <==> CourseReferenced(old(State()), id)
      ensures o.Fail? ==> o.error == ForeignKeyViolation && State() == old(State())
      ensures o.Pass? ==> State() == old(State()).(courses := Remove(old(courses), id))
      ensures old(Valid()) ==> Valid()
    {
      if CourseReferenced(State(), id) {
        return Fail(ForeignKeyViolation);
      }
      if Valid() {
        RemoveCourseConsistent(State(), id);
      }
      courses := Remove(courses, id);
      o := Pass;
    }

    method InsertModule(r: ModuleRow) returns (id: int)
      requires r.courseId in courses.rows
      modifies this
      ensures id == old(modules.next) && State() == old(State()).(modules := Insert(old(modules), r))
      ensures old(Valid()) ==> Valid()
    {
      id := modules.next;
      modules := Insert(modules, r);
    }

    method PutModule(id: int, r: ModuleRow)
      requires id in modules.rows && r.courseId in courses.rows
      modifies this
      ensures State() == old(State()).(modules := Put(old(modules), id, r))
      ensures old(Valid()) ==> Valid()
    {
      modules := Put(modules, id, r);
    }

    method DeleteModule(id: int) returns (o: Outcome)
      requires id in modules.rows
      modifies this
      ensures o.Fail? <==> ModuleReferenced(old(State()), id)
      ensures o.Fail? ==> o.error == ForeignKeyViolation && State() == old(State())
      ensures o.Pass? ==> State() == old(State()).(modules := Remove(old(modules), id))
      ensures old(Valid()) ==> Valid()
    {
      if ModuleReferenced(State(), id) {
        return Fail(ForeignKeyViolation);
      }
      if Valid() {
        RemoveModuleConsistent(State(), id);
      }
      modules := Remove(modules, id);
      o := Pass;
    }

    method InsertLesson(r: LessonRow) returns (id: int)
      requires r.moduleId in modules.rows
      modifies this
      ensures id == old(lessons.next) && State() == old(State()).(lessons := Insert(old(lessons), r))
      ensures old(Valid()) ==> Valid()
    {
      id := lessons.next;
      lessons := Insert(lessons, r);
    }

    method PutLesson(id: int, r: LessonRow)
      requires id in lessons.rows && r.moduleId in modules.rows
      modifies this
      ensures State() == old(State()).(lessons := Put(old(lessons), id, r))
      ensures old(Valid()) ==> Valid()
    {
      lessons := Put(lessons, id, r);
    }

    method DeleteLesson(id: int) returns (o: Outcome)
      requires id in lessons.rows
      modifies this
      ensures o.Fail? <==> LessonReferenced(old(State()), id)
      ensures o.Fail? ==> o.error == ForeignKeyViolation && State() == old(State())
      ensures o.Pass? ==> State() == old(State()).(lessons := Remove(old(lessons), id))
      ensures old(Valid()) ==> Valid()
    {
      if LessonReferenced(State(), id) {
        return Fail(ForeignKeyViolation);
      }
      if Valid() {
        RemoveLessonConsistent(State(), id);
      }
      lessons := Remove(lessons, id);
      o := Pass;
    }

    method InsertEnrollment(r: EnrollmentRow) returns (id: int)
      requires r.userId in users.rows && r.courseId in courses.rows && r.lastWatchedLesson.None?
      requires EnrollmentsOf(enrollments.rows, r.userId, r.courseId) == {}
      modifies this
      ensures id == old(enrollments.next) && State() == old(State()).(enrollments := Insert(old(enrollments), r))
      ensures old(Valid()) ==> Valid()
    {
      if Valid() {
        InsertEnrollmentConsistent(State(), r);
      }
      id := enrollments.next;
      enrollments := Insert(enrollments, r);
    }

    /** Saving a loaded enrollment: its user and course are the ones it was
        created with, and its last-watched lesson is one just loaded. */
    method PutEnrollment(id: int, r: EnrollmentRow)
      requires id in enrollments.rows
      requires r.userId == enrollments.rows[id].userId && r.courseId == enrollments.rows[id].courseId
      requires r.lastWatchedLesson.Some? ==> r.lastWatchedLesson.value in lessons.rows
      modifies this
      ensures State() == old(State()).(enrollments := Put(old(enrollments), id, r))
      ensures old(Valid()) ==> Valid()
    {
      enrollments := Put(enrollments, id, r);
    }

    method DeleteEnrollment(id: int)
      requires id in enrollments.rows
      modifies this
      ensures State() == old(State()).(enrollments := Remove(old(enrollments), id))
      ensures old(Valid()) ==> Valid()
    {
      enrollments := Remove(enrollments, id);
    }
  }
}
