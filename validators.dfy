/** The Bean Validation constraints on request fields that look at the
    database: uniqueness of a lesson's or module's title and order index within
    its parent (the parent and the record being updated read from the request
    path), the lesson of a progress update, and the instructor of a course. */
module Validators {
  import opened Wrappers
  import opened Text
  import opened Records
  import opened Errors
  import opened Repositories
  import opened Store
  import opened PathIds

  const ModuleUnknownText := "Não foi possível determinar o ID do módulo a partir da URL."
  const EnrollmentNotFoundText := "Matrícula não encontrada com ID: "
  const LessonNotFoundText := "Aula não encontrada com ID: "

  /** What `isValid` gives: true, false with the constraint's own message or
      with a message built in place, or an exception it lets out. */
  datatype Verdict = Accept | Reject(message: Option<string>) | Raised(error: Failure)

  /** The NumberFormatException `Long.parseLong` throws for a digit run that
      does not fit a long. */
  function ParseFailure(digits: string): Failure {
    NumberFormat("For input string: \"" + digits + "\"")
  }

  /** The verdict of the two lesson-uniqueness constraints once the module is
      known: the matching lessons of the module are acceptable when there are
      none, or when the only one is the lesson named in the path. */
  function LessonVerdict(found: set<int>, lessonInPath: PathId): (v: Verdict)
    requires !lessonInPath.TooLarge?
    ensures v == Accept <==> found == {} || (lessonInPath.Id? && found == {lessonInPath.value})
    ensures v == Raised(NonUniqueResult) <==> |found| > 1
    ensures v == Reject(None) <==> |found| == 1 && !(lessonInPath.Id? && found == {lessonInPath.value})
    ensures v == Accept || v == Reject(None) || v == Raised(NonUniqueResult)
  {
    match Single(found)
    case Absent => Accept
    case Present(x) => if lessonInPath == Id(x) then Accept else Reject(None)
    case NonUnique => Raised(NonUniqueResult)
  }

  /** UniqueLessonOrderIndexInModule: a null index is accepted; the module comes
      from `/modules/{id}/lessons` (none: rejected with its own message), the
      lesson from `/lessons/{id}` (none on a create). */
  function UniqueLessonOrderIndex(orderIndex: Option<int>, uri: string, lessons: map<int, LessonRow>): (v: Verdict)
    ensures orderIndex.None? ==> v == Accept
    ensures orderIndex.Some? && ModuleIdOfLessonPath(uri).NoMatch? ==> v == Reject(Some(ModuleUnknownText))
    ensures orderIndex.Some? && ModuleIdOfLessonPath(uri).TooLarge? ==>
              v == Raised(ParseFailure(ModuleIdOfLessonPath(uri).digits))
    ensures orderIndex.Some? && ModuleIdOfLessonPath(uri).Id? && LessonIdOfPath(uri).TooLarge? ==>
              v == Raised(ParseFailure(LessonIdOfPath(uri).digits))
    ensures orderIndex.Some? && ModuleIdOfLessonPath(uri).Id? && !LessonIdOfPath(uri).TooLarge? ==>
              v == LessonVerdict(LessonsOfModuleWithOrder(lessons, ModuleIdOfLessonPath(uri).value, orderIndex.value),
                                 LessonIdOfPath(uri))
  {
    if orderIndex.None? then Accept
    else match ModuleIdOfLessonPath(uri)
      case NoMatch => Reject(Some(ModuleUnknownText))
      case TooLarge(ds) => Raised(ParseFailure(ds))
      case Id(moduleId) =>
        match LessonIdOfPath(uri)
        case TooLarge(ds) => Raised(ParseFailure(ds))
        case _ => LessonVerdict(LessonsOfModuleWithOrder(lessons, moduleId, orderIndex.value), LessonIdOfPath(uri))
  }

  /** UniqueLessonTitleInModule: like the order index, with a null or blank
      title accepted and titles compared exactly. */
  function UniqueLessonTitle(title: Option<string>, uri: string, lessons: map<int, LessonRow>): (v: Verdict)
    ensures !PresentNotBlank(title) ==> v == Accept
    ensures PresentNotBlank(title) && ModuleIdOfLessonPath(uri).NoMatch? ==> v == Reject(Some(ModuleUnknownText))
    ensures PresentNotBlank(title) && ModuleIdOfLessonPath(uri).TooLarge? ==>
              v == Raised(ParseFailure(ModuleIdOfLessonPath(uri).digits))
    ensures PresentNotBlank(title) && ModuleIdOfLessonPath(uri).Id? && LessonIdOfPath(uri).TooLarge? ==>
              v == Raised(ParseFailure(LessonIdOfPath(uri).digits))
    ensures PresentNotBlank(title) && ModuleIdOfLessonPath(uri).Id? && !LessonIdOfPath(uri).TooLarge? ==>
              v == LessonVerdict(LessonsOfModuleTitled(lessons, ModuleIdOfLessonPath(uri).value, title.value),
                                 LessonIdOfPath(uri))
  {
    if !PresentNotBlank(title) then Accept
    else match ModuleIdOfLessonPath(uri)
      case NoMatch => Reject(Some(ModuleUnknownText))
      case TooLarge(ds) => Raised(ParseFailure(ds))
      case Id(moduleId) =>
        match LessonIdOfPath(uri)
        case TooLarge(ds) => Raised(ParseFailure(ds))
        case _ => LessonVerdict(LessonsOfModuleTitled(lessons, moduleId, title.value), LessonIdOfPath(uri))
  }

  /** UniqueModuleOrderIndexInCourse: the course comes from
      `/courses/{id}/modules`; any module of the course with the index rejects
      the value, the module being updated included. */
  function UniqueModuleOrderIndex(orderIndex: Option<int>, uri: string, modules: map<int, ModuleRow>): (v: Verdict)
    ensures orderIndex.None? ==> v == Accept
    ensures orderIndex.Some? && CourseIdOfModulePath(uri).NoMatch? ==> v == Reject(None)
    ensures orderIndex.Some? && CourseIdOfModulePath(uri).TooLarge? ==>
              v == Raised(ParseFailure(CourseIdOfModulePath(uri).digits))
    ensures orderIndex.Some? && CourseIdOfModulePath(uri).Id? ==>
              var found := ModulesOfCourseWithOrder(modules, CourseIdOfModulePath(uri).value, orderIndex.value);
              (v == Accept <==> found == {}) && (v == Reject(None) <==> |found| == 1) &&
              (v == Raised(NonUniqueResult) <==> |found| > 1)
  {
    if orderIndex.None? then Accept
    else match CourseIdOfModulePath(uri)
      case NoMatch => Reject(None)
      case TooLarge(ds) => Raised(ParseFailure(ds))
      case Id(courseId) =>
        match Single(ModulesOfCourseWithOrder(modules, courseId, orderIndex.value))
        case Absent => Accept
        case Present(_) => Reject(None)
        case NonUnique => Raised(NonUniqueResult)
  }

  /** UniqueModuleTitleInCourse: the title is looked up ignoring case among the
      modules of every course; the one module that has it is acceptable only
      when it is the module of `/modules/{id}`. */
  function UniqueModuleTitle(title: Option<string>, uri: string, modules: map<int, ModuleRow>): (v: Verdict)
    ensures !PresentNotBlank(title) ==> v == Accept
    ensures PresentNotBlank(title) && ModuleIdOfPath(uri).TooLarge? ==> v == Raised(ParseFailure(ModuleIdOfPath(uri).digits))
    ensures PresentNotBlank(title) && !ModuleIdOfPath(uri).TooLarge? ==>
              var found := ModulesTitledIgnoreCase(modules, title.value);
              (v == Accept <==> found == {} || (ModuleIdOfPath(uri).Id? && found == {ModuleIdOfPath(uri).value})) &&
              (v == Raised(NonUniqueResult) <==> |found| > 1) &&
              (v.Reject? ==> v == Reject(None))
  {
    if !PresentNotBlank(title) then Accept
    else match ModuleIdOfPath(uri)
      case TooLarge(ds) => Raised(ParseFailure(ds))
      case _ =>
        match Single(ModulesTitledIgnoreCase(modules, title.value))
        case Absent => Accept
        case Present(x) => if ModuleIdOfPath(uri) == Id(x) then Accept else Reject(None)
        case NonUnique => Raised(NonUniqueResult)
  }

  /** ExistingLessonInCourse: the enrollment comes from `/enrollments/{id}`;
      a missing enrollment is reported before a missing lesson, and otherwise
      the lesson must belong to the enrollment's course. */
  function ExistingLessonInCourse(lessonId: Option<int>, uri: string, s: Snapshot): (v: Verdict)
    requires Consistent(s)
    ensures lessonId.None? ==> v == Accept
    ensures lessonId.Some? && EnrollmentIdOfPath(uri).NoMatch? ==> v == Reject(None)
    ensures lessonId.Some? && EnrollmentIdOfPath(uri).TooLarge? ==>
              v == Raised(ParseFailure(EnrollmentIdOfPath(uri).digits))
    ensures lessonId.Some? && EnrollmentIdOfPath(uri).Id? ==>
              var e := EnrollmentIdOfPath(uri).value;
              (e !in s.enrollments.rows ==> v == Reject(Some(EnrollmentNotFoundText + IntToString(e)))) &&
              (e in s.enrollments.rows && lessonId.value !in s.lessons.rows ==>
                 v == Reject(Some(LessonNotFoundText + IntToString(lessonId.value)))) &&
              (e in s.enrollments.rows && lessonId.value in s.lessons.rows ==>
                 (v == Accept <==> lessonId.value in LessonsOfCourse(s.lessons.rows, s.modules.rows, s.enrollments.rows[e].courseId)) &&
                 (v != Accept ==> v == Reject(None)))
  {
    if lessonId.None? then Accept
    else match EnrollmentIdOfPath(uri)
      case NoMatch => Reject(None)
      case TooLarge(ds) => Raised(ParseFailure(ds))
      case Id(e) =>
        var l: int := lessonId.value;
        if e !in s.enrollments.rows then Reject(Some(EnrollmentNotFoundText + IntToString(e)))
        else if l !in s.lessons.rows then Reject(Some(LessonNotFoundText + IntToString(l)))
        else if s.modules.rows[s.lessons.rows[l].moduleId].courseId == s.enrollments.rows[e].courseId then Accept
        else Reject(None)
  }

  /** ExistingInstructor: a null id is accepted; otherwise the user must exist
      and hold ROLE_INSTRUCTOR or ROLE_ADMIN. */
  function ExistingInstructor(instructorId: Option<int>, users: map<int, UserRow>): (v: Verdict)
    ensures v.Raised? == false
    ensures v == Accept <==>
              instructorId.None? ||
              (instructorId.value in users &&
               (RoleInstructor in users[instructorId.value].roles || RoleAdmin in users[instructorId.value].roles))
    ensures v.Reject? ==> v == Reject(None)
  {
    if instructorId.None? then Accept
    else if instructorId.value !in users then Reject(None)
    else if RoleInstructor in users[instructorId.value].roles || RoleAdmin in users[instructorId.value].roles then Accept
    else Reject(None)
  }

  /** A user whose only role is ROLE_STUDENT cannot be made an instructor. */
  lemma StudentIsNoInstructor(users: map<int, UserRow>, id: int)
    requires id in users && users[id].roles == {RoleStudent}
    ensures ExistingInstructor(Some(id), users) == Reject(None)
  {
  }

  /** When the one lesson found is the lesson of the path, the value is kept. */
  lemma OwnLessonAccepted(found: set<int>, uri: string, l: int)
    requires LessonIdOfPath(uri) == Id(l) && found == {l}
    ensures LessonVerdict(found, LessonIdOfPath(uri)) == Accept
  {
  }

  /** Updating a lesson through `/modules/{m}/lessons/{l}` while keeping its
      own order index is accepted when no other lesson of the module has it. */
  lemma LessonKeepsOwnOrderIndex(lessons: map<int, LessonRow>, m: nat, l: nat)
    requires m <= LongMax && l <= LongMax
    requires l in lessons && lessons[l].moduleId == m
    requires forall o | o in lessons && o != l && lessons[o].moduleId == m :: lessons[o].orderIndex != lessons[l].orderIndex
    ensures UniqueLessonOrderIndex(Some(lessons[l].orderIndex),
                                   "/modules/" + NatToString(m) + "/lessons/" + NatToString(l), lessons) == Accept
  {
    var found := LessonsOfModuleWithOrder(lessons, m, lessons[l].orderIndex);
    assert l in found;
    forall o | o in found ensures o == l {
    }
    assert found == {l};
    var uri := "/modules/" + NatToString(m) + "/lessons/" + NatToString(l);
    LessonPathIds(m, l);
    assert UniqueLessonOrderIndex(Some(lessons[l].orderIndex), uri, lessons) == LessonVerdict(found, Id(l));
    OwnLessonAccepted(found, uri, l);
  }

  /** Creating a lesson through `/modules/{m}/lessons` with an order index one
      lesson of the module already has is rejected. */
  lemma LessonCreateWithTakenOrderIndex(lessons: map<int, LessonRow>, m: nat, taken: int)
    requires m <= LongMax
    requires taken in lessons && lessons[taken].moduleId == m
    requires forall o | o in lessons && o != taken && lessons[o].moduleId == m :: lessons[o].orderIndex != lessons[taken].orderIndex
    ensures UniqueLessonOrderIndex(Some(lessons[taken].orderIndex), "/modules/" + NatToString(m) + "/lessons", lessons)
              == Reject(None)
  {
    LessonCollectionPathIds(m);
    assert LessonsOfModuleWithOrder(lessons, m, lessons[taken].orderIndex) == {taken};
  }

  /** Updating a lesson through `/modules/{m}/lessons/{l}` while keeping its
      own title is accepted when no other lesson of the module has it. */
  lemma LessonKeepsOwnTitle(lessons: map<int, LessonRow>, m: nat, l: nat)
    requires m <= LongMax && l <= LongMax
    requires l in lessons && lessons[l].moduleId == m && !IsBlank(lessons[l].title)
    requires forall o | o in lessons && o != l && lessons[o].moduleId == m :: lessons[o].title != lessons[l].title
    ensures UniqueLessonTitle(Some(lessons[l].title),
                              "/modules/" + NatToString(m) + "/lessons/" + NatToString(l), lessons) == Accept
  {
    var found := LessonsOfModuleTitled(lessons, m, lessons[l].title);
    assert l in found;
    forall o | o in found ensures o == l {
    }
    assert found == {l};
    var uri := "/modules/" + NatToString(m) + "/lessons/" + NatToString(l);
    LessonPathIds(m, l);
    assert UniqueLessonTitle(Some(lessons[l].title), uri, lessons) == LessonVerdict(found, Id(l));
    OwnLessonAccepted(found, uri, l);
  }

  /** There is no self-exclusion for a module's order index: updating a module
      through `/courses/{c}/modules/{m}` with the index it already has is
      rejected. */
  lemma ModuleOrderIndexRejectsItself(modules: map<int, ModuleRow>, c: nat, m: nat)
    requires c <= LongMax && m <= LongMax
    requires m in modules && modules[m].courseId == c
    requires forall o | o in modules && o != m && modules[o].courseId == c :: modules[o].orderIndex != modules[m].orderIndex
    ensures UniqueModuleOrderIndex(Some(modules[m].orderIndex),
                                   "/courses/" + NatToString(c) + "/modules/" + NatToString(m), modules) == Reject(None)
  {
    var found := ModulesOfCourseWithOrder(modules, c, modules[m].orderIndex);
    assert m in found;
    forall o | o in found ensures o == m {
    }
    assert found == {m};
    var uri := "/courses/" + NatToString(c) + "/modules/" + NatToString(m);
    ModulePathIds(c, m);
  }

  /** The module title lookup spans every course and ignores case: a module of
      another course whose title differs only in case blocks creating a module
      through `/courses/{c}/modules`. */
  lemma ModuleTitleTakenInAnyCourse(modules: map<int, ModuleRow>, c: nat, other: int, title: string)
    requires c <= LongMax && !IsBlank(title)
    requires other in modules && EqualsIgnoreCase(modules[other].title, title)
    requires forall o | o in modules && o != other :: !EqualsIgnoreCase(modules[o].title, title)
    ensures UniqueModuleTitle(Some(title), "/courses/" + NatToString(c) + "/modules", modules) == Reject(None)
  {
    var found := ModulesTitledIgnoreCase(modules, title);
    assert other in found;
    forall o | o in found ensures o == other {
    }
    assert found == {other};
    ModuleCollectionPathIds(c);
  }

  /** Updating a module through `/courses/{c}/modules/{m}` while keeping its
      own title is accepted when no other module has it in any case. */
  lemma ModuleKeepsOwnTitle(modules: map<int, ModuleRow>, c: nat, m: nat)
    requires c <= LongMax && m <= LongMax
    requires m in modules && !IsBlank(modules[m].title)
    requires forall o | o in modules && o != m :: !EqualsIgnoreCase(modules[o].title, modules[m].title)
    ensures UniqueModuleTitle(Some(modules[m].title),
                              "/courses/" + NatToString(c) + "/modules/" + NatToString(m), modules) == Accept
  {
    var found := ModulesTitledIgnoreCase(modules, modules[m].title);
    assert m in found;
    forall o | o in found ensures o == m {
    }
    assert found == {m};
    var uri := "/courses/" + NatToString(c) + "/modules/" + NatToString(m);
    ModulePathIds(c, m);
  }

  /** A progress update through `/enrollments/{e}/progress` is accepted exactly
      for the lessons of the enrollment's course. */
  lemma ProgressLessonInCourse(s: Snapshot, e: nat, lessonId: int)
    requires Consistent(s) && e <= LongMax && e in s.enrollments.rows && lessonId in s.lessons.rows
    ensures ExistingLessonInCourse(Some(lessonId), "/enrollments/" + NatToString(e) + "/progress", s) == Accept <==>
              lessonId in LessonsOfCourse(s.lessons.rows, s.modules.rows, s.enrollments.rows[e].courseId)
  {
    EnrollmentPathId(e);
  }
}
