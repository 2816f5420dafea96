# Course platform backend — verified model

A Dafny model of the core of a course-platform REST backend: users, course
categories, courses, their modules and lessons, and the enrollment of users in
courses with the progress they make. The model covers:

- the persistent entities: `EnrollmentJPA`, `LessonJPA`, `ModuleJPA` and
  `CourseJPA`, as classes whose setters and `updateFields` change fields in
  place, with `equals`/`hashCode` by id;
- the services: `EnrollmentService`, `ModuleService`, `LessonService`,
  `CourseService`, `CategoryService` and `UserService`;
- the six Bean Validation validators. Five of them read ids out of the
  request path: unique lesson order index and title in a module, unique module
  order index and title, and the lesson of a progress update. The sixth checks
  the instructor id in the request body of a course;
- `RestExceptionHandler`, mapping each failure to an HTTP status and body;
- the authentication step of `SecurityFilter`: reading the bearer token and
  deciding how the request goes on.

The database is one `Store.Database` object. It holds a table per entity: a
map from id to row, plus the next generated id. `Database.Valid()` states what
the schema guarantees:

- every foreign key resolves;
- the (user, course) pair of an enrollment is unique;
- every id is below the next one to be generated.

Every service method requires `Valid()` and keeps it. A repository lookup is a
set of ids (module `Repositories`). A single-result finder that matches two
rows throws Spring's result-size exception. The model calls this
`NonUniqueResult`, and it maps to 500.

Each service operation has two parts:

- a pure check function (`CreateCheck`, `ManageCheck`, ...) that gives the
  first check that fails, in the order the source makes them;
- a method that mutates the database, proved against that function. It fails
  exactly when the check does, and then with the check's error and nothing
  changed. On success it states the exact new state: one row inserted, put or
  removed.

Deleting a row that other rows still reference fails as a data-integrity
violation, with nothing changed. No relation declares a cascade, so this is
how the database refuses the delete, and the handler answers 409.

Progress is `c.divide(t, 2, HALF_UP) * 100` in `BigDecimal`. It is modelled
literally, with quotient and remainder in hundredths, and proved equal to
`(200c + t) div 2t`. The status is COMPLETED exactly when
`199t <= 200c < 201t`.

An enrollment whose completed set holds more ids than its course has lessons
is possible: the completed set has no foreign key, so ids of deleted lessons
stay in it. One
extra id pushes progress above 100 (and the status back to IN_PROGRESS) only
in courses of at most 200 lessons. In larger courses `t + 1` of `t` still
rounds to 100 and reads COMPLETED. See `Progress.OneExtraIff`.

Two more behaviours of the code are recorded as lemmas:

- `CategoryService.create` compares names exactly, but `update` ignores case.
  Two categories that differ only in case can therefore both be created, and
  renaming either of them to that name then fails with a multiple-results
  error (500) rather than a conflict.
- The token service rethrows every verification failure as a plain runtime
  exception. So the filter's "Token JWT expirado." branch cannot be reached.

## Model

| member | source | states |
|---|---|---|
| Progress.Percentage | src/main/java/com/thalyson/digitalcourses/course_platform_backend/service/EnrollmentService.java:131-133 | the percentage p is 100·c/t rounded half-up to a whole number: 2t·p ≤ 200c + t < 2t·(p+1) |
| Progress.PercentageIsRoundedRatio | src/main/java/com/thalyson/digitalcourses/course_platform_backend/service/EnrollmentService.java:131-133 | the percentage equals (200c + t) div 2t for every c and every t > 0 |
| Progress.AtLeastIff | src/main/java/com/thalyson/digitalcourses/course_platform_backend/service/EnrollmentService.java:131-136 | the percentage reaches a bound b exactly when 200c + t ≥ 2t·b |
| Progress.CompleteIff | src/main/java/com/thalyson/digitalcourses/course_platform_backend/service/EnrollmentService.java:131-140 | the percentage is exactly 100, hence COMPLETED, iff 199t ≤ 200c < 201t |
| Progress.AllLessonsComplete | src/main/java/com/thalyson/digitalcourses/course_platform_backend/service/EnrollmentService.java:131-137 | completing all t lessons gives exactly 100 |
| Progress.OneShortIff | src/main/java/com/thalyson/digitalcourses/course_platform_backend/service/EnrollmentService.java:131-137 | one lesson short (c = t − 1) still reads 100 iff the course has at least 200 lessons |
| Progress.AboveHundredIff | src/main/java/com/thalyson/digitalcourses/course_platform_backend/service/EnrollmentService.java:131-140 | the percentage exceeds 100 iff 200c ≥ 201t |
| Progress.OneExtraIff | src/main/java/com/thalyson/digitalcourses/course_platform_backend/service/EnrollmentService.java:131-140 | one id more than lessons (c = t + 1) exceeds 100 iff t ≤ 200; above 200 lessons it reads exactly 100 |
| Progress.PercentageMonotone | src/main/java/com/thalyson/digitalcourses/course_platform_backend/service/EnrollmentService.java:131-133 | completing more lessons never lowers the percentage |
| Progress.PercentageBounded | src/main/java/com/thalyson/digitalcourses/course_platform_backend/service/EnrollmentService.java:131-133 | with c ≤ t the percentage is at most 100 |
| Progress.StatusFor | src/main/java/com/thalyson/digitalcourses/course_platform_backend/service/EnrollmentService.java:136-140 | the status is COMPLETED iff the percentage is 100, IN_PROGRESS otherwise |
| EnrollmentEntities.NewEnrollment | src/main/java/com/thalyson/digitalcourses/course_platform_backend/model/EnrollmentJPA.java:63-69 | a new enrollment links the user and course, is IN_PROGRESS at 0, has no completed and no last-watched lesson |
| EnrollmentEntities.WithCompleted | src/main/java/com/thalyson/digitalcourses/course_platform_backend/model/EnrollmentJPA.java:53-55 | the lesson is added to the completed set, nothing is removed, nothing else is added, and every other field is unchanged |
| EnrollmentEntities.CompletingAgainChangesNothing | src/main/java/com/thalyson/digitalcourses/course_platform_backend/model/EnrollmentJPA.java:53-55 | marking an already completed lesson leaves the enrollment equal to itself (idempotence) |
| EnrollmentEntities.CompletingCommutes | src/main/java/com/thalyson/digitalcourses/course_platform_backend/model/EnrollmentJPA.java:53-55 | marking two lessons in either order gives the same enrollment, whose set gains exactly those two ids |
| EnrollmentEntities.WithProgress | src/main/java/com/thalyson/digitalcourses/course_platform_backend/service/EnrollmentService.java:124-141 | t = 0: progress 0 and status kept; t > 0: progress is the rounded percentage of the completed ids and the status is COMPLETED iff it is 100; no other field changes |
| EnrollmentEntities.AllLessonsDoneCompletes | src/main/java/com/thalyson/digitalcourses/course_platform_backend/service/EnrollmentService.java:125-140 | when the completed ids are exactly the course's lessons, progress is 100 and the status COMPLETED |
| EnrollmentEntities.ProgressWithinBounds | src/main/java/com/thalyson/digitalcourses/course_platform_backend/service/EnrollmentService.java:125-134 | while the completed ids are lessons of the course, progress stays within 0..100 |
| EnrollmentEntities.StaleIdOvershoots | src/main/java/com/thalyson/digitalcourses/course_platform_backend/service/EnrollmentService.java:131-140 | one completed id of a deleted lesson plus every remaining lesson, in a course of at most 200 lessons, gives progress above 100 and status IN_PROGRESS |
| EnrollmentEntities.EnrollmentEntity.constructor | src/main/java/com/thalyson/digitalcourses/course_platform_backend/model/EnrollmentJPA.java:63-69 | the new object has no id and holds the initial enrollment state |
| EnrollmentEntities.EnrollmentEntity.MarkLessonAsCompleted | src/main/java/com/thalyson/digitalcourses/course_platform_backend/model/EnrollmentJPA.java:53-55 | the object's state becomes WithCompleted of its old state; the id is kept |
| EnrollmentEntities.EnrollmentEntity.SetCompletionStatus | src/main/java/com/thalyson/digitalcourses/course_platform_backend/model/EnrollmentJPA.java:107-109 | only the status changes |
| EnrollmentEntities.EnrollmentEntity.SetProgressPercentage | src/main/java/com/thalyson/digitalcourses/course_platform_backend/model/EnrollmentJPA.java:111-113 | only the progress changes |
| EnrollmentEntities.EnrollmentEntity.SetLastWatchedLesson | src/main/java/com/thalyson/digitalcourses/course_platform_backend/model/EnrollmentJPA.java:115-117 | only the last-watched lesson changes |
| EnrollmentEntities.EnrollmentEqualsById | src/main/java/com/thalyson/digitalcourses/course_platform_backend/model/EnrollmentJPA.java:121-127 | two enrollments are equal iff the other is non-null and their ids are equal |
| EnrollmentEntities.EnrollmentHashAgrees | src/main/java/com/thalyson/digitalcourses/course_platform_backend/model/EnrollmentJPA.java:121-132 | equal enrollments have equal hash codes |
| Identity.ObjectsHash | src/main/java/com/thalyson/digitalcourses/course_platform_backend/model/EnrollmentJPA.java:130-132 | Objects.hash of the id is a 32-bit int, and 31 for an unsaved entity |
| Identity.SmallIdsHashApart | src/main/java/com/thalyson/digitalcourses/course_platform_backend/model/EnrollmentJPA.java:130-132 | distinct ids below 2^31 − 31 hash to distinct values, namely 31 + id |
| EnrollmentService.CheckOwnership | src/main/java/com/thalyson/digitalcourses/course_platform_backend/service/EnrollmentService.java:113-121 | passes iff the caller has ROLE_ADMIN or is the enrolled user; otherwise AccessDenied with the fixed text |
| EnrollmentService.CreateCheck | src/main/java/com/thalyson/digitalcourses/course_platform_backend/service/EnrollmentService.java:41-51 | unknown user first, then unknown course, give ResourceNotFound with their texts; an existing enrollment of the pair gives DuplicateResource; none fails iff both exist and the pair is new |
| EnrollmentService.CreateFailsCleanly | src/main/java/com/thalyson/digitalcourses/course_platform_backend/service/EnrollmentService.java:48-51 | under the (user, course) unique constraint the pair lookup never finds two rows |
| EnrollmentService.Create | src/main/java/com/thalyson/digitalcourses/course_platform_backend/service/EnrollmentService.java:41-56 | fails iff CreateCheck fails, then with its error and nothing saved; otherwise exactly one enrollment is added under a fresh id, in its initial state |
| EnrollmentService.FindById | src/main/java/com/thalyson/digitalcourses/course_platform_backend/service/EnrollmentService.java:62-70 | returns the stored enrollment iff it exists and CheckOwnership passes; unknown id gives ResourceNotFound, otherwise AccessDenied |
| EnrollmentService.UpdateCheck | src/main/java/com/thalyson/digitalcourses/course_platform_backend/service/EnrollmentService.java:83-94 | in order: unknown enrollment, ownership, unknown lesson (ResourceNotFound), lesson of another course (IllegalArgument); none fails iff the caller may act and the lesson belongs to the enrollment's course |
| EnrollmentService.Watched | src/main/java/com/thalyson/digitalcourses/course_platform_backend/service/EnrollmentService.java:96-98 | after watching, the lesson is completed and last watched, and the user and course are kept |
| EnrollmentService.UpdateProgress | src/main/java/com/thalyson/digitalcourses/course_platform_backend/service/EnrollmentService.java:124-141 | the loaded enrollment's state becomes WithProgress of its old state over the number of lessons of its course |
| EnrollmentService.UpdateEnrollment | src/main/java/com/thalyson/digitalcourses/course_platform_backend/service/EnrollmentService.java:83-101 | fails iff UpdateCheck fails, then with its error and nothing changed; otherwise only that enrollment is replaced, by Watched of it |
| EnrollmentService.Unenroll | src/main/java/com/thalyson/digitalcourses/course_platform_backend/service/EnrollmentService.java:104-111 | unknown id gives ResourceNotFound; otherwise the outcome is CheckOwnership; on success exactly that enrollment is removed, on failure nothing changes |
| EnrollmentService.WatchingAllCompletes | src/main/java/com/thalyson/digitalcourses/course_platform_backend/service/EnrollmentService.java:96-140 | watching the last unwatched lesson of the course, in any order and with repeats, gives 100 and COMPLETED |
| LessonEntities.ApplyLessonUpdate | src/main/java/com/thalyson/digitalcourses/course_platform_backend/lesson/jpa/LessonJPA.java:112-128 | title and video URL are replaced iff the new value is non-null and not blank, description, duration and order index iff non-null; a field changes only to the requested value; the module never changes |
| LessonEntities.LessonUpdatesCompose | src/main/java/com/thalyson/digitalcourses/course_platform_backend/lesson/jpa/LessonJPA.java:112-128 | two updates in a row equal one update whose fields are the later request's wherever it would apply them |
| LessonEntities.LessonUpdateIdempotent | src/main/java/com/thalyson/digitalcourses/course_platform_backend/lesson/jpa/LessonJPA.java:112-128 | applying the same update twice equals applying it once |
| LessonEntities.EmptyLessonUpdate | src/main/java/com/thalyson/digitalcourses/course_platform_backend/lesson/jpa/LessonJPA.java:112-128 | an all-null update changes nothing |
| LessonEntities.LessonEntity.constructor | src/main/java/com/thalyson/digitalcourses/course_platform_backend/lesson/jpa/LessonJPA.java:42-54 | the new lesson has no id and holds each argument unchanged |
| LessonEntities.LessonEntity.UpdateFields | src/main/java/com/thalyson/digitalcourses/course_platform_backend/lesson/jpa/LessonJPA.java:112-128 | the object's state becomes ApplyLessonUpdate of its old state; the id is kept |
| LessonEntities.LessonEqualsById | src/main/java/com/thalyson/digitalcourses/course_platform_backend/lesson/jpa/LessonJPA.java:130-136 | two lessons are equal iff the other is non-null and their ids are equal |
| LessonEntities.LessonHashAgrees | src/main/java/com/thalyson/digitalcourses/course_platform_backend/lesson/jpa/LessonJPA.java:130-141 | equal lessons have equal hash codes |
| ModuleEntities.ApplyModuleUpdate | src/main/java/com/thalyson/digitalcourses/course_platform_backend/model/ModuleJPA.java:95-105 | title is replaced iff non-null and not blank, description and order index iff non-null; a field changes only to the requested value; the course never changes |
| ModuleEntities.ModuleUpdatesCompose | src/main/java/com/thalyson/digitalcourses/course_platform_backend/model/ModuleJPA.java:95-105 | two updates in a row equal one combined update |
| ModuleEntities.ModuleUpdateIdempotent | src/main/java/com/thalyson/digitalcourses/course_platform_backend/model/ModuleJPA.java:95-105 | applying the same update twice equals applying it once |
| ModuleEntities.EmptyModuleUpdate | src/main/java/com/thalyson/digitalcourses/course_platform_backend/model/ModuleJPA.java:95-105 | an all-null update changes nothing |
| ModuleEntities.ModuleEntity.constructor | src/main/java/com/thalyson/digitalcourses/course_platform_backend/model/ModuleJPA.java:38-43 | the new module has no id and holds each argument unchanged |
| ModuleEntities.ModuleEntity.SetTitle | src/main/java/com/thalyson/digitalcourses/course_platform_backend/model/ModuleJPA.java:81-83 | only the title changes |
| ModuleEntities.ModuleEntity.SetDescription | src/main/java/com/thalyson/digitalcourses/course_platform_backend/model/ModuleJPA.java:85-87 | only the description changes |
| ModuleEntities.ModuleEntity.SetOrderIndex | src/main/java/com/thalyson/digitalcourses/course_platform_backend/model/ModuleJPA.java:89-91 | only the order index changes |
| ModuleEntities.ModuleEntity.UpdateFields | src/main/java/com/thalyson/digitalcourses/course_platform_backend/model/ModuleJPA.java:95-105 | through the setters, the object's state becomes ApplyModuleUpdate of its old state; the id is kept |
| ModuleEntities.ModuleEqualsById | src/main/java/com/thalyson/digitalcourses/course_platform_backend/model/ModuleJPA.java:73-79 | two modules are equal iff the other is non-null and their ids are equal |
| ModuleEntities.ModuleHashAgrees | src/main/java/com/thalyson/digitalcourses/course_platform_backend/model/ModuleJPA.java:107-110 | equal modules have equal hash codes |
| CourseEntities.ApplyCourseUpdate | src/main/java/com/thalyson/digitalcourses/course_platform_backend/course/jpa/CourseJPA.java:121-134 | title is replaced iff non-null and not blank, description, thumbnail and published flag iff non-null; a field changes only to the requested value; instructor and category never change |
| CourseEntities.CourseUpdatesCompose | src/main/java/com/thalyson/digitalcourses/course_platform_backend/course/jpa/CourseJPA.java:121-134 | two updates in a row equal one combined update |
| CourseEntities.CourseUpdateIdempotent | src/main/java/com/thalyson/digitalcourses/course_platform_backend/course/jpa/CourseJPA.java:121-134 | applying the same update twice equals applying it once |
| CourseEntities.EmptyCourseUpdate | src/main/java/com/thalyson/digitalcourses/course_platform_backend/course/jpa/CourseJPA.java:121-134 | an all-null update changes nothing |
| CourseEntities.CourseEntity.constructor | src/main/java/com/thalyson/digitalcourses/course_platform_backend/course/jpa/CourseJPA.java:46-54 | the new course has no id and holds each argument unchanged |
| CourseEntities.CourseEntity.SetInstructor | src/main/java/com/thalyson/digitalcourses/course_platform_backend/course/jpa/CourseJPA.java:105-107 | only the instructor changes |
| CourseEntities.CourseEntity.SetCategory | src/main/java/com/thalyson/digitalcourses/course_platform_backend/course/jpa/CourseJPA.java:109-111 | only the category changes |
| CourseEntities.CourseEntity.SetTitle | src/main/java/com/thalyson/digitalcourses/course_platform_backend/course/jpa/CourseJPA.java:113-115 | only the title changes |
| CourseEntities.CourseEntity.SetDescription | src/main/java/com/thalyson/digitalcourses/course_platform_backend/course/jpa/CourseJPA.java:117-119 | only the description changes |
| CourseEntities.CourseEntity.UpdateFields | src/main/java/com/thalyson/digitalcourses/course_platform_backend/course/jpa/CourseJPA.java:121-134 | the object's state becomes ApplyCourseUpdate of its old state; the id is kept |
| CourseEntities.CourseEqualsById | src/main/java/com/thalyson/digitalcourses/course_platform_backend/course/jpa/CourseJPA.java:56-62 | two courses are equal iff the other is non-null and their ids are equal |
| CourseEntities.CourseHashAgrees | src/main/java/com/thalyson/digitalcourses/course_platform_backend/course/jpa/CourseJPA.java:56-67 | equal courses have equal hash codes |
| ModuleService.CreateCheck | src/main/java/com/thalyson/digitalcourses/course_platform_backend/module/service/ModuleService.java:26-29 | fails iff a module of the course already has exactly this title, with DuplicateResource and its text; the order index is not checked |
| ModuleService.Create | src/main/java/com/thalyson/digitalcourses/course_platform_backend/module/service/ModuleService.java:26-39 | fails iff CreateCheck fails, saving nothing; otherwise exactly one module with the given course, title, description and order index is added |
| ModuleService.ManageCheck | src/main/java/com/thalyson/digitalcourses/course_platform_backend/module/service/ModuleService.java:50-65 | in order: unknown module, module of another course (ResourceNotFound with their texts), then AccessDenied unless the caller has ROLE_ADMIN or instructs the course |
| ModuleService.ForeignPathNotFound | src/main/java/com/thalyson/digitalcourses/course_platform_backend/module/service/ModuleService.java:54-56 | a module reached under another course's path is not found even for an administrator: the parent check precedes the permission check |
| ModuleService.DeleteModule | src/main/java/com/thalyson/digitalcourses/course_platform_backend/module/service/ModuleService.java:50-68 | a failed check is returned with nothing changed; otherwise the module is removed exactly, unless lessons still reference it (foreign-key violation, nothing changed) |
| ModuleService.UpdateModule | src/main/java/com/thalyson/digitalcourses/course_platform_backend/module/service/ModuleService.java:77-96 | fails iff ManageCheck fails, nothing changed; otherwise only that module is replaced, by ApplyModuleUpdate of it |
| ModuleService.IsInstructorOfModule | src/main/java/com/thalyson/digitalcourses/course_platform_backend/module/service/ModuleService.java:70-74 | false for an unknown module, otherwise whether the user instructs the module's course |
| ModuleService.InstructorMayManage | src/main/java/com/thalyson/digitalcourses/course_platform_backend/module/service/ModuleService.java:58-63 | for a module of the course, the permission check passes iff the caller has ROLE_ADMIN or IsInstructorOfModule holds |
| LessonService.CheckPermission | src/main/java/com/thalyson/digitalcourses/course_platform_backend/lesson/service/LessonService.java:71-79 | passes iff the caller has ROLE_ADMIN or instructs the module's course; otherwise AccessDenied with the fixed text |
| LessonService.CreateCheck | src/main/java/com/thalyson/digitalcourses/course_platform_backend/lesson/service/LessonService.java:28-36 | in order: unknown module (ResourceNotFound), permission (AccessDenied), order index taken in the module (DuplicateResource); none fails iff all pass |
| LessonService.PermissionBeforeDuplicate | src/main/java/com/thalyson/digitalcourses/course_platform_backend/lesson/service/LessonService.java:32-36 | a caller without permission gets AccessDenied whether or not the order index is taken |
| LessonService.Create | src/main/java/com/thalyson/digitalcourses/course_platform_backend/lesson/service/LessonService.java:28-40 | fails iff CreateCheck fails, saving nothing; otherwise exactly one lesson with the given fields in that module is added |
| LessonService.ManageCheck | src/main/java/com/thalyson/digitalcourses/course_platform_backend/lesson/service/LessonService.java:43-51 | in order: unknown lesson, lesson of another module (ResourceNotFound with their texts), then the permission check |
| LessonService.Update | src/main/java/com/thalyson/digitalcourses/course_platform_backend/lesson/service/LessonService.java:43-55 | fails iff ManageCheck fails, nothing changed; otherwise only that lesson is replaced, by ApplyLessonUpdate of it |
| LessonService.Delete | src/main/java/com/thalyson/digitalcourses/course_platform_backend/lesson/service/LessonService.java:58-69 | a failed check is returned with nothing changed; otherwise the lesson is removed exactly, unless an enrollment still records it as last watched (foreign-key violation, nothing changed) |
| CourseService.CreateCheck | src/main/java/com/thalyson/digitalcourses/course_platform_backend/course/service/CourseService.java:35-40 | unknown instructor first, then unknown category, give ResourceNotFound with their texts; none fails iff both exist |
| CourseService.Create | src/main/java/com/thalyson/digitalcourses/course_platform_backend/course/service/CourseService.java:35-52 | fails iff CreateCheck fails, saving nothing; otherwise exactly one course built from the request is added |
| CourseService.UpdateCheck | src/main/java/com/thalyson/digitalcourses/course_platform_backend/course/service/CourseService.java:55-69 | in order: unknown course, then a named instructor, then a named category that does not resolve, each ResourceNotFound; none fails iff all named rows exist |
| CourseService.ChangedCourse | src/main/java/com/thalyson/digitalcourses/course_platform_backend/course/service/CourseService.java:59-71 | a named instructor or category replaces the old one, a null one keeps it, and updateFields does the rest |
| CourseService.Update | src/main/java/com/thalyson/digitalcourses/course_platform_backend/course/service/CourseService.java:55-73 | fails iff UpdateCheck fails, nothing changed; otherwise only that course is replaced, by ChangedCourse of it |
| CourseService.UpdateWithoutRelations | src/main/java/com/thalyson/digitalcourses/course_platform_backend/course/service/CourseService.java:59-71 | a request naming neither instructor nor category changes only what updateFields changes |
| CourseService.DeleteCheck | src/main/java/com/thalyson/digitalcourses/course_platform_backend/course/service/CourseService.java:76-87 | unknown course gives ResourceNotFound (with the 'Id' spelling); otherwise AccessDeniedByBusiness unless the caller has ROLE_ADMIN or instructs the course |
| CourseService.Delete | src/main/java/com/thalyson/digitalcourses/course_platform_backend/course/service/CourseService.java:76-90 | a failed check is returned with nothing changed; otherwise the course is removed exactly, unless modules or enrollments reference it (foreign-key violation, nothing changed) |
| CourseService.IsInstructorOfCourse | src/main/java/com/thalyson/digitalcourses/course_platform_backend/course/service/CourseService.java:100-104 | false for an unknown course, otherwise whether its instructor id is the user's id |
| CategoryService.CreateCheck | src/main/java/com/thalyson/digitalcourses/course_platform_backend/service/CategoryService.java:22-26 | fails iff a category has exactly this name (case-sensitive), with DuplicateResource and its text |
| CategoryService.Create | src/main/java/com/thalyson/digitalcourses/course_platform_backend/service/CategoryService.java:22-30 | fails iff CreateCheck fails, saving nothing; otherwise exactly one category with that name is added |
| CategoryService.UpdateCheck | src/main/java/com/thalyson/digitalcourses/course_platform_backend/service/CategoryService.java:41-48 | unknown id gives ResourceNotFound; passes iff no category or only this one has the name ignoring case; a single other one gives DuplicateResource |
| CategoryService.Update | src/main/java/com/thalyson/digitalcourses/course_platform_backend/service/CategoryService.java:41-52 | fails iff UpdateCheck fails, nothing changed; otherwise only that category's name changes |
| CategoryService.Delete | src/main/java/com/thalyson/digitalcourses/course_platform_backend/service/CategoryService.java:55-59 | unknown id gives NoSuchElement; otherwise the category is removed exactly, unless courses reference it (foreign-key violation, nothing changed) |
| CategoryService.RenameToOwnNameAllowed | src/main/java/com/thalyson/digitalcourses/course_platform_backend/service/CategoryService.java:45-48 | renaming a category to its own name in any letter case passes when no other category matches |
| CategoryService.CreateAcceptsCaseVariant | src/main/java/com/thalyson/digitalcourses/course_platform_backend/service/CategoryService.java:24-26 | create accepts a name no category has exactly, even if one has it in another letter case |
| CategoryService.CaseVariantsBlockRename | src/main/java/com/thalyson/digitalcourses/course_platform_backend/service/CategoryService.java:45-48 | once two categories match a name ignoring case, renaming either to it fails with a multiple-results error |
| UserService.RegisterCheck | src/main/java/com/thalyson/digitalcourses/course_platform_backend/user/service/UserService.java:23-26 | fails iff a user has the email, with EmailAlreadyInUse and its text |
| UserService.FreshEmailKeepsUnique | src/main/java/com/thalyson/digitalcourses/course_platform_backend/user/service/UserService.java:23-30 | adding a user whose email nobody has keeps emails unique |
| UserService.UniqueEmailsFailCleanly | src/main/java/com/thalyson/digitalcourses/course_platform_backend/user/service/UserService.java:24-26 | while emails are unique the email lookup never finds two users |
| UserService.RegisterNewUser | src/main/java/com/thalyson/digitalcourses/course_platform_backend/user/service/UserService.java:23-30 | fails iff RegisterCheck fails, saving nothing; otherwise exactly one user with the given fields is added; unique emails stay unique |
| UserService.Update | src/main/java/com/thalyson/digitalcourses/course_platform_backend/user/service/UserService.java:37-43 | unknown id gives NoSuchElement with nothing changed; otherwise only that user is replaced, by updateFields of it |
| PathIds.FirstGroup | src/main/java/com/thalyson/digitalcourses/course_platform_backend/lesson/validation/validator/UniqueLessonOrderIndexInModuleValidator.java:32-36 | the group is the digit run of the first position where prefix + digits + suffix matches, with no match before it; none exactly when no position matches |
| PathIds.ParseLong | src/main/java/com/thalyson/digitalcourses/course_platform_backend/lesson/validation/validator/UniqueLessonOrderIndexInModuleValidator.java:35-36 | the id is the digits' value when it fits a long, otherwise the parse fails |
| PathIds.LessonPathIds | src/main/java/com/thalyson/digitalcourses/course_platform_backend/lesson/validation/validator/UniqueLessonOrderIndexInModuleValidator.java:31-52 | the URI /modules/{m}/lessons/{l} yields module m and lesson l |
| PathIds.LessonCollectionPathIds | src/main/java/com/thalyson/digitalcourses/course_platform_backend/lesson/validation/validator/UniqueLessonOrderIndexInModuleValidator.java:31-52 | the URI /modules/{m}/lessons yields module m and no lesson |
| PathIds.ModulePathIds | src/main/java/com/thalyson/digitalcourses/course_platform_backend/module/validation/validator/UniqueModuleTitleInCourseValidator.java:33-38 | the URI /courses/{c}/modules/{m} yields course c and module m |
| PathIds.ModuleCollectionPathIds | src/main/java/com/thalyson/digitalcourses/course_platform_backend/module/validation/validator/UniqueModuleOrderIndexInCourseValidator.java:31-36 | the URI /courses/{c}/modules yields course c and no module |
| PathIds.EnrollmentPathId | src/main/java/com/thalyson/digitalcourses/course_platform_backend/validation/validator/ExistingLessonInCourseValidator.java:34-39 | the URI /enrollments/{e}/progress yields enrollment e |
| Validators.LessonVerdict | src/main/java/com/thalyson/digitalcourses/course_platform_backend/lesson/validation/validator/UniqueLessonOrderIndexInModuleValidator.java:54-63 | valid iff no lesson matches or the only one is the lesson of the path; invalid iff one other lesson matches; several matches raise |
| Validators.UniqueLessonOrderIndex | src/main/java/com/thalyson/digitalcourses/course_platform_backend/lesson/validation/validator/UniqueLessonOrderIndexInModuleValidator.java:26-64 | null is valid; no module in the path is invalid with its own message; an id too large raises; otherwise LessonVerdict over the module's lessons with that order index |
| Validators.UniqueLessonTitle | src/main/java/com/thalyson/digitalcourses/course_platform_backend/lesson/validation/validator/UniqueLessonTitleInModuleValidator.java:26-63 | null or blank is valid; no module in the path is invalid with its own message; an id too large raises; otherwise LessonVerdict over the module's lessons with exactly that title |
| Validators.UniqueModuleOrderIndex | src/main/java/com/thalyson/digitalcourses/course_platform_backend/module/validation/validator/UniqueModuleOrderIndexInCourseValidator.java:26-44 | null is valid; no course in the path is invalid; otherwise valid iff no module of the course has the index, with no self-exclusion |
| Validators.UniqueModuleTitle | src/main/java/com/thalyson/digitalcourses/course_platform_backend/module/validation/validator/UniqueModuleTitleInCourseValidator.java:28-45 | null or blank is valid; otherwise valid iff no module of any course has the title ignoring case, or the only one is the module of the path |
| Validators.ExistingLessonInCourse | src/main/java/com/thalyson/digitalcourses/course_platform_backend/validation/validator/ExistingLessonInCourseValidator.java:29-63 | null is valid; no enrollment in the path is invalid; a missing enrollment is reported before a missing lesson; otherwise valid iff the lesson belongs to the enrollment's course |
| Validators.ExistingInstructor | src/main/java/com/thalyson/digitalcourses/course_platform_backend/validation/validator/ExistingInstructorValidator.java:20-36 | null is valid; otherwise valid iff the user exists and holds ROLE_INSTRUCTOR or ROLE_ADMIN |
| Validators.StudentIsNoInstructor | src/main/java/com/thalyson/digitalcourses/course_platform_backend/validation/validator/ExistingInstructorValidator.java:30-35 | a user whose only role is ROLE_STUDENT is invalid |
| Validators.OwnLessonAccepted | src/main/java/com/thalyson/digitalcourses/course_platform_backend/lesson/validation/validator/UniqueLessonOrderIndexInModuleValidator.java:56-58 | the one matching lesson being the lesson of the path makes the value valid |
| Validators.LessonKeepsOwnOrderIndex | src/main/java/com/thalyson/digitalcourses/course_platform_backend/lesson/validation/validator/UniqueLessonOrderIndexInModuleValidator.java:46-58 | an update through /modules/{m}/lessons/{l} keeping the lesson's own unshared order index is valid |
| Validators.LessonCreateWithTakenOrderIndex | src/main/java/com/thalyson/digitalcourses/course_platform_backend/lesson/validation/validator/UniqueLessonOrderIndexInModuleValidator.java:54-60 | a create through /modules/{m}/lessons with an index a lesson of the module has is invalid |
| Validators.LessonKeepsOwnTitle | src/main/java/com/thalyson/digitalcourses/course_platform_backend/lesson/validation/validator/UniqueLessonTitleInModuleValidator.java:45-58 | an update through /modules/{m}/lessons/{l} keeping the lesson's own unshared title is valid |
| Validators.ModuleOrderIndexRejectsItself | src/main/java/com/thalyson/digitalcourses/course_platform_backend/module/validation/validator/UniqueModuleOrderIndexInCourseValidator.java:42-43 | an update through /courses/{c}/modules/{m} keeping the module's own order index is invalid |
| Validators.ModuleTitleTakenInAnyCourse | src/main/java/com/thalyson/digitalcourses/course_platform_backend/module/validation/validator/UniqueModuleTitleInCourseValidator.java:40-43 | a module of any course whose title differs only in case blocks a create |
| Validators.ModuleKeepsOwnTitle | src/main/java/com/thalyson/digitalcourses/course_platform_backend/module/validation/validator/UniqueModuleTitleInCourseValidator.java:33-43 | an update through /courses/{c}/modules/{m} keeping the module's own title is valid when no other module matches |
| Validators.ProgressLessonInCourse | src/main/java/com/thalyson/digitalcourses/course_platform_backend/validation/validator/ExistingLessonInCourseValidator.java:34-62 | through /enrollments/{e}/progress an existing lesson is valid iff it belongs to the enrollment's course |
| ExceptionHandler.IntegrityMessage | src/main/java/com/thalyson/digitalcourses/course_platform_backend/exception/RestExceptionHandler.java:101-106 | the unique-key text iff the message contains the duplicate-key phrase; else the null-column text iff it contains that phrase; else, a missing message included, the generic text |
| ExceptionHandler.Handle | src/main/java/com/thalyson/digitalcourses/course_platform_backend/exception/RestExceptionHandler.java:29-186 | each failure kind maps to exactly one of 400, 401, 403, 404, 409, 500; field errors become one entry each, in order; not-found bodies, and the duplicate, email-in-use, illegal-argument and number-format bodies, carry the exception's message; a data-integrity body carries `IntegrityMessage` of the database's message; the method-validation 400, the 401 and the 500 carry their fixed texts |
| ExceptionHandler.ForbiddenHidesReason | src/main/java/com/thalyson/digitalcourses/course_platform_backend/exception/RestExceptionHandler.java:132-144 | both access-denied kinds, with any message, give the same 403 with the fixed text |
| ExceptionHandler.FixedMessagesHideDetail | src/main/java/com/thalyson/digitalcourses/course_platform_backend/exception/RestExceptionHandler.java:146-186 | authentication failures, and unexpected errors, each give one fixed response whatever their message |
| ExceptionHandler.UniqueViolationWins | src/main/java/com/thalyson/digitalcourses/course_platform_backend/exception/RestExceptionHandler.java:101-106 | a message with both phrases is reported as a unique-key violation |
| BearerToken.RecoverToken | src/main/java/com/thalyson/digitalcourses/course_platform_backend/config/SecurityFilter.java:76-82 | a token exists iff the header is present and starts with exactly "Bearer "; it is no longer than the header without the prefix |
| BearerToken.BearerRoundTrip | src/main/java/com/thalyson/digitalcourses/course_platform_backend/config/SecurityFilter.java:79 | "Bearer " + a trimmed token without an inner "Bearer " gives back the token |
| BearerToken.LowerCaseSchemeIgnored | src/main/java/com/thalyson/digitalcourses/course_platform_backend/config/SecurityFilter.java:78 | the scheme is matched case-sensitively: a header starting with "bearer " gives no token, whatever follows |
| BearerToken.InnerBearerRemoved | src/main/java/com/thalyson/digitalcourses/course_platform_backend/config/SecurityFilter.java:79 | an inner "Bearer " after the scheme is removed too: "Bearer " + p + "Bearer " + s, with no 'B' in p, gives trim(p + s with its "Bearer "s removed) |
| BearerToken.SinglePassLeavesBearer | src/main/java/com/thalyson/digitalcourses/course_platform_backend/config/SecurityFilter.java:79 | the removal is one pass, so the token can still start with "Bearer ": "Bearer " + "Be" + "Bearer " + "arer " + v gives "Bearer " + v for every v without "Bearer " that does not end in a space (so "Bearer BeBearer arer x" gives "Bearer x") |
| SecurityFilter.TokenServiceSubject | src/main/java/com/thalyson/digitalcourses/course_platform_backend/service/TokenService.java:38-49 | the token service never lets an expiry through: failures become a generic error, subjects pass unchanged |
| SecurityFilter.Filter | src/main/java/com/thalyson/digitalcourses/course_platform_backend/config/SecurityFilter.java:37-74 | no token continues anonymously; a subject of exactly one user authenticates that user with its roles; no user gives 401 with its text; an expired token gives the JSON 401; the "Token JWT inválido ou malformado." 401 is given exactly when verification fails or two users share the subject's email |
| SecurityFilter.ExpiredBranchUnreachable | src/main/java/com/thalyson/digitalcourses/course_platform_backend/config/SecurityFilter.java:58-66 | behind the token service the expired-token answer is never given |
| SecurityFilter.RegisteredUserAuthenticated | src/main/java/com/thalyson/digitalcourses/course_platform_backend/config/SecurityFilter.java:40-73 | "Bearer <token>" whose subject is a registered user's email runs as that user |

## Left out

- Controllers: HTTP mapping, URI building and their own checks (enrolling someone other than yourself, parent mismatches on GET, the lesson/module mismatch on DELETE); the services are modelled as they are called.
- Security configuration and the access-denied handler: Spring request matchers and role semantics.
- TokenService: JWT signing and verification and the clock; verification is a function parameter of `SecurityFilter.Filter`, and `SecurityFilter.TokenServiceSubject` states only how the service rethrows failures.
- The timestamps (`enrollmentDate`, `createdAt`, `updatedAt`), logging, and the timestamp and request path in error bodies.
- `@Transactional` and concurrency: the check-then-insert races between concurrent requests are not modelled; each operation runs alone.
- List queries (`findAll`, `findByCourse`, `findByUser`, `listModulesByCourse`, `listByModule`) and the plain `findById` pass-throughs.
- DTO Bean Validation annotations (`@NotBlank`, `@Size`, `@Email`, ...) and the validators that are one null guard plus one lookup.
- Validator exceptions: when `isValid` throws (an id too large for a long, or a finder matching several rows), the model returns `Raised`; the framework's wrapping of that into a validation exception (answered 500) is not modelled.
- The database's own unique constraints other than the enrollment pair (for example on emails or titles) are not part of the schema model; only the checks the services make are.
- The no-argument JPA constructors and the individual lesson setters, which only the persistence framework calls.
- UserService.Update: the user entity's own `updateFields` is not part of this model, so it is a function parameter.
- Validators.UniqueModuleTitle: ignoring case compares ASCII letters only; Unicode case folding is not modelled.
- CategoryService.UpdateCheck: `findByNameIgnoreCase` is modelled with ASCII-only case folding; two names that differ only in non-ASCII letters are treated as different, which the database may not do.
- SecurityFilter.Filter: assumes a principal's authorities are exactly the names of the user's roles. `CourseService` tests `getRoles()` by name, the other services test `getAuthorities()`, and the model reads both as one set. This rests on `RoleJPA.getAuthority()` returning the role name and on `UserJPA.getAuthorities()` returning the roles; `UserJPA` is not part of this model.
- Progress.Percentage: the BigDecimal scale (100 versus 100.00) is dropped; only the numeric value, which is all `compareTo` uses, is kept.
- Identity.ObjectsHash: assumes ids are non-negative longs, as generated ids are.
- Store.Database: inserts require their foreign keys to resolve, which every caller has already checked; an insert that violates one is not modelled.
