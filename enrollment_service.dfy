/** EnrollmentService: enrolling a user in a course, reading and leaving an
    enrollment, and recording a watched lesson with the progress it gives. */
module EnrollmentService {
  import opened Wrappers
  import opened Text
  import opened Records
  import opened Errors
  import opened Repositories
  import opened Store
  import opened Progress
  import opened EnrollmentEntities

  const UserNotFoundText := "Usuário não encontrado com ID: "
  const CourseNotFoundText := "Curso não encontrado com ID: "
  const EnrollmentNotFoundText := "Matrícula não encontrada com ID: "
  const LessonNotFoundText := "Aula não encontrada com ID: "
  const LessonOutsideCourseText := "A aula não pertence ao curso da matrícula."
  const OwnershipDeniedText := "Usuário não tem permissão para acessar este recurso."

  function AlreadyEnrolledText(userId: int, courseId: int): string {
    "O usuário com ID " + IntToString(userId) + " já está matriculado no curso com ID " +
    IntToString(courseId) + "."
  }

  /** `checkOwnership`: an administrator or the enrolled user passes; anyone
      else is refused. */
  function CheckOwnership(e: EnrollmentRow, user: Principal): (o: Outcome)
    ensures o.Pass? <==> IsAdmin(user) || e.userId == user.id
    ensures o.Fail? ==> o.error == AccessDenied(OwnershipDeniedText)
  {
    if !IsAdmin(user) && e.userId != user.id then Fail(AccessDenied(OwnershipDeniedText)) else Pass
  }

  /** The first check `create` fails: the user, then the course, then an
      existing enrollment of the pair. */
  function CreateCheck(s: Snapshot, userId: int, courseId: int): (f: Option<Failure>)
    ensures f.Some? && f.value.ResourceNotFound? <==> userId !in s.users.rows || courseId !in s.courses.rows
    ensures userId !in s.users.rows ==> f == Some(ResourceNotFound(UserNotFoundText + IntToString(userId)))
    ensures userId in s.users.rows && courseId !in s.courses.rows ==>
              f == Some(ResourceNotFound(CourseNotFoundText + IntToString(courseId)))
    ensures f.Some? && f.value.DuplicateResource? <==>
              userId in s.users.rows && courseId in s.courses.rows &&
              |EnrollmentsOf(s.enrollments.rows, userId, courseId)| == 1
    ensures f.Some? && f.value.DuplicateResource? ==> f.value.message == AlreadyEnrolledText(userId, courseId)
    ensures f.None? <==>
              userId in s.users.rows && courseId in s.courses.rows &&
              EnrollmentsOf(s.enrollments.rows, userId, courseId) == {}
    ensures f.Some? ==> f.value.ResourceNotFound? || f.value.DuplicateResource? || f.value.NonUniqueResult?
  {
    if userId !in s.users.rows then Some(ResourceNotFound(UserNotFoundText + IntToString(userId)))
    else if courseId !in s.courses.rows then Some(ResourceNotFound(CourseNotFoundText + IntToString(courseId)))
    else match Single(EnrollmentsOf(s.enrollments.rows, userId, courseId))
      case Absent => None
      case Present(_) => Some(DuplicateResource(AlreadyEnrolledText(userId, courseId)))
      case NonUnique => Some(NonUniqueResult)
  }

  /** In a consistent database `create` only ever fails with not-found or
      duplicate: the unique constraint rules out two matching rows. */
  lemma CreateFailsCleanly(s: Snapshot, userId: int, courseId: int)
    requires Consistent(s)
    ensures CreateCheck(s, userId, courseId) != Some(NonUniqueResult)
  {
    PairLookupIsSingle(s.enrollments.rows, userId, courseId);
  }

  method Create(db: Database, userId: int, courseId: int) returns (r: Result<int>)
    requires db.Valid()
    modifies db
    ensures db.Valid()
    ensures r.Err? <==> CreateCheck(old(db.State()), userId, courseId).Some?
    ensures r.Err? ==> r.error == CreateCheck(old(db.State()), userId, courseId).value && db.State() == old(db.State())
    ensures r.Ok? ==> r.value == old(db.enrollments.next)
    ensures r.Ok? ==>
              db.State() == old(db.State()).(enrollments := Insert(old(db.enrollments), NewEnrollment(userId, courseId)))
  {
    if userId !in db.users.rows {
      return Err(ResourceNotFound(UserNotFoundText + IntToString(userId)));
    }
    if courseId !in db.courses.rows {
      return Err(ResourceNotFound(CourseNotFoundText + IntToString(courseId)));
    }
    match Single(EnrollmentsOf(db.enrollments.rows, userId, courseId))
    case NonUnique =>
      return Err(NonUniqueResult);
    case Present(_) =>
      return Err(DuplicateResource(AlreadyEnrolledText(userId, courseId)));
    case Absent =>
    var enrollment := new EnrollmentEntity(userId, courseId);
    var id := db.InsertEnrollment(enrollment.Row());
    r := Ok(id);
  }

  /** `findById` with the caller: the enrollment, if it exists and the caller
      may see it. */
  function FindById(s: Snapshot, enrollmentId: int, user: Principal): (r: Result<EnrollmentRow>)
    ensures r.Ok? <==> enrollmentId in s.enrollments.rows && CheckOwnership(s.enrollments.rows[enrollmentId], user).Pass?
    ensures r.Ok? ==> r.value == s.enrollments.rows[enrollmentId]
    ensures enrollmentId !in s.enrollments.rows ==>
              r == Err(ResourceNotFound(EnrollmentNotFoundText + IntToString(enrollmentId)))
    ensures enrollmentId in s.enrollments.rows && r.Err? ==> r.error == AccessDenied(OwnershipDeniedText)
  {
    if enrollmentId !in s.enrollments.rows then Err(ResourceNotFound(EnrollmentNotFoundText + IntToString(enrollmentId)))
    else
      var e := s.enrollments.rows[enrollmentId];
      match CheckOwnership(e, user)
      case Fail(f) => Err(f)
      case Pass => Ok(e)
  }

  /** The first check `updateEnrollment` fails: the enrollment, the caller's
      ownership, the lesson, and the lesson's course. */
  function UpdateCheck(s: Snapshot, enrollmentId: int, lessonId: int, user: Principal): (f: Option<Failure>)
    requires Consistent(s)
    ensures enrollmentId !in s.enrollments.rows ==>
              f == Some(ResourceNotFound(EnrollmentNotFoundText + IntToString(enrollmentId)))
    ensures f.Some? && f.value.AccessDenied? <==>
              enrollmentId in s.enrollments.rows && CheckOwnership(s.enrollments.rows[enrollmentId], user).Fail?
    ensures enrollmentId in s.enrollments.rows && CheckOwnership(s.enrollments.rows[enrollmentId], user).Pass? ==>
              (lessonId !in s.lessons.rows ==> f == Some(ResourceNotFound(LessonNotFoundText + IntToString(lessonId))))
    ensures f.Some? && f.value.IllegalArgument? <==>
              enrollmentId in s.enrollments.rows && CheckOwnership(s.enrollments.rows[enrollmentId], user).Pass? &&
              lessonId in s.lessons.rows &&
              s.modules.rows[s.lessons.rows[lessonId].moduleId].courseId != s.enrollments.rows[enrollmentId].courseId
    ensures f.Some? && f.value.IllegalArgument? ==> f.value.message == LessonOutsideCourseText
    ensures f.None? <==>
              enrollmentId in s.enrollments.rows && CheckOwnership(s.enrollments.rows[enrollmentId], user).Pass? &&
              lessonId in LessonsOfCourse(s.lessons.rows, s.modules.rows, s.enrollments.rows[enrollmentId].courseId)
  {
    if enrollmentId !in s.enrollments.rows then Some(ResourceNotFound(EnrollmentNotFoundText + IntToString(enrollmentId)))
    else
      var e := s.enrollments.rows[enrollmentId];
      if CheckOwnership(e, user).Fail? then Some(CheckOwnership(e, user).error)
      else if lessonId !in s.lessons.rows then Some(ResourceNotFound(LessonNotFoundText + IntToString(lessonId)))
      else if s.modules.rows[s.lessons.rows[lessonId].moduleId].courseId != e.courseId then
        Some(IllegalArgument(LessonOutsideCourseText))
      else None
  }

  /** What a successful `updateEnrollment` makes of the enrollment: the lesson
      completed, the progress recomputed over the course's lessons, and the
      lesson recorded as the last watched. */
  function Watched(s: Snapshot, e: EnrollmentRow, lessonId: int): (r: EnrollmentRow)
    ensures lessonId in r.completedLessonIds && r.lastWatchedLesson == Some(lessonId)
    ensures r.completedLessonIds == e.completedLessonIds + {lessonId}
    ensures r.userId == e.userId && r.courseId == e.courseId
  {
    WithProgress(WithCompleted(e, lessonId), |LessonsOfCourse(s.lessons.rows, s.modules.rows, e.courseId)|)
      .(lastWatchedLesson := Some(lessonId))
  }

  /** `updateProgress`, in place on the loaded enrollment. */
  method UpdateProgress(db: Database, enrollment: EnrollmentEntity)
    modifies enrollment
    ensures enrollment.Row() ==
              WithProgress(old(enrollment.Row()), |LessonsOfCourse(db.lessons.rows, db.modules.rows, enrollment.courseId)|)
    ensures enrollment.id == old(enrollment.id)
  {
    var total := |LessonsOfCourse(db.lessons.rows, db.modules.rows, enrollment.courseId)|;
    if total == 0 {
      enrollment.SetProgressPercentage(0);
      return;
    }
    var progress := Percentage(|enrollment.completedLessonIds|, total);
    enrollment.SetProgressPercentage(progress);
    if progress == 100 {
      enrollment.SetCompletionStatus(Completed);
    } else {
      enrollment.SetCompletionStatus(InProgress);
    }
  }

  method UpdateEnrollment(db: Database, enrollmentId: int, lessonId: int, user: Principal)
    returns (r: Result<EnrollmentRow>)
    requires db.Valid()
    modifies db
    ensures db.Valid()
    ensures r.Err? <==> UpdateCheck(old(db.State()), enrollmentId, lessonId, user).Some?
    ensures r.Err? ==> r.error == UpdateCheck(old(db.State()), enrollmentId, lessonId, user).value &&
                       db.State() == old(db.State())
    ensures r.Ok? ==> r.value == Watched(old(db.State()), old(db.enrollments.rows[enrollmentId]), lessonId) &&
                      db.State() == old(db.State()).(enrollments := Put(old(db.enrollments), enrollmentId, r.value))
  {
    if enrollmentId !in db.enrollments.rows {
      return Err(ResourceNotFound(EnrollmentNotFoundText + IntToString(enrollmentId)));
    }
    var enrollment := new EnrollmentEntity.Load(enrollmentId, db.enrollments.rows[enrollmentId]);
    var ownership := CheckOwnership(enrollment.Row(), user);
    if ownership.Fail? {
      return Err(ownership.error);
    }
    if lessonId !in db.lessons.rows {
      return Err(ResourceNotFound(LessonNotFoundText + IntToString(lessonId)));
    }
    var lesson := db.lessons.rows[lessonId];
    if db.modules.rows[lesson.moduleId].courseId != enrollment.courseId {
      return Err(IllegalArgument(LessonOutsideCourseText));
    }
    enrollment.MarkLessonAsCompleted(lessonId);
    UpdateProgress(db, enrollment);
    enrollment.SetLastWatchedLesson(Some(lessonId));
    db.PutEnrollment(enrollmentId, enrollment.Row());
    r := Ok(enrollment.Row());
  }

  method Unenroll(db: Database, enrollmentId: int, user: Principal) returns (o: Outcome)
    requires db.Valid()
    modifies db
    ensures db.Valid()
    ensures enrollmentId !in old(db.enrollments.rows) ==>
              o == Fail(ResourceNotFound(EnrollmentNotFoundText + IntToString(enrollmentId)))
    ensures enrollmentId in old(db.enrollments.rows) ==> o == CheckOwnership(old(db.enrollments.rows[enrollmentId]), user)
    ensures o.Fail? ==> db.State() == old(db.State())
    ensures o.Pass? ==> db.State() == old(db.State()).(enrollments := Remove(old(db.enrollments), enrollmentId))
  {
    if enrollmentId !in db.enrollments.rows {
      return Fail(ResourceNotFound(EnrollmentNotFoundText + IntToString(enrollmentId)));
    }
    var enrollment := new EnrollmentEntity.Load(enrollmentId, db.enrollments.rows[enrollmentId]);
    o := CheckOwnership(enrollment.Row(), user);
    if o.Fail? {
      return;
    }
    db.DeleteEnrollment(enrollmentId);
  }

  /** Watching every lesson of a course, in any order and with repeats,
      completes the enrollment; the progress never exceeds 100 on the way. */
  lemma WatchingAllCompletes(s: Snapshot, e: EnrollmentRow, lessonId: int)
    requires e.completedLessonIds + {lessonId} == LessonsOfCourse(s.lessons.rows, s.modules.rows, e.courseId)
    ensures Watched(s, e, lessonId).progressPercentage == 100
    ensures Watched(s, e, lessonId).completionStatus == Completed
  {
    AllLessonsDoneCompletes(WithCompleted(e, lessonId), LessonsOfCourse(s.lessons.rows, s.modules.rows, e.courseId));
  }
}
