/** An enrollment of a user in a course, as the persistence layer holds it in
    memory: its completed lessons, its progress and its status. */
module EnrollmentEntities {
  import opened Wrappers
  import opened Records
  import opened Identity
  import opened Progress
  import Repositories

  /** The state a new enrollment starts in. */
  function NewEnrollment(userId: int, courseId: int): (r: EnrollmentRow)
    ensures r.userId == userId && r.courseId == courseId
    ensures r.completionStatus == InProgress && r.progressPercentage == 0
    ensures r.completedLessonIds == {} && r.lastWatchedLesson.None?
  {
    EnrollmentRow(userId, courseId, InProgress, 0, {}, None)
  }

  /** The enrollment with one more lesson completed. */
  function WithCompleted(r: EnrollmentRow, lessonId: int): (r': EnrollmentRow)
    ensures lessonId in r'.completedLessonIds
    ensures r.completedLessonIds <= r'.completedLessonIds
    ensures r'.completedLessonIds - r.completedLessonIds <= {lessonId}
    ensures r'.(completedLessonIds := r.completedLessonIds) == r
  {
    r.(completedLessonIds := r.completedLessonIds + {lessonId})
  }

  /** Completing a lesson already completed changes nothing, so completing is
      idempotent. */
  lemma CompletingAgainChangesNothing(r: EnrollmentRow, lessonId: int)
    requires lessonId in r.completedLessonIds
    ensures WithCompleted(r, lessonId) == r
  {
    assert r.completedLessonIds + {lessonId} == r.completedLessonIds;
  }

  /** Completing two lessons adds both, in either order. */
  lemma CompletingCommutes(r: EnrollmentRow, a: int, b: int)
    ensures WithCompleted(WithCompleted(r, a), b) == WithCompleted(WithCompleted(r, b), a)
    ensures WithCompleted(WithCompleted(r, a), b).completedLessonIds == r.completedLessonIds + {a, b}
  {
    assert r.completedLessonIds + {a} + {b} == r.completedLessonIds + {b} + {a};
  }

  /** `updateProgress` given the number of lessons in the course: with none,
      the progress becomes 0 and the status stays; otherwise the progress is the
      rounded percentage of completed ids and the status is COMPLETED exactly at
      100. Nothing else changes. */
  function WithProgress(r: EnrollmentRow, totalLessons: nat): (r': EnrollmentRow)
    ensures r'.(progressPercentage := r.progressPercentage, completionStatus := r.completionStatus) == r
    ensures totalLessons == 0 ==> r'.progressPercentage == 0 && r'.completionStatus == r.completionStatus
    ensures totalLessons > 0 ==>
              2 * totalLessons * r'.progressPercentage <= 200 * |r.completedLessonIds| + totalLessons
                < 2 * totalLessons * (r'.progressPercentage + 1)
    ensures totalLessons > 0 ==> (r'.completionStatus == Completed <==> r'.progressPercentage == 100)
    ensures totalLessons > 0 ==> (r'.completionStatus == InProgress <==> r'.progressPercentage != 100)
  {
    if totalLessons == 0 then r.(progressPercentage := 0)
    else
      var p := Percentage(|r.completedLessonIds|, totalLessons);
      r.(progressPercentage := p, completionStatus := StatusFor(p))
  }

  /** Once every lesson of the course has been completed (and no stale ids
      remain), the enrollment reads COMPLETED at 100. */
  lemma AllLessonsDoneCompletes(r: EnrollmentRow, lessonsOfCourse: set<int>)
    requires lessonsOfCourse != {} && r.completedLessonIds == lessonsOfCourse
    ensures WithProgress(r, |lessonsOfCourse|).progressPercentage == 100
    ensures WithProgress(r, |lessonsOfCourse|).completionStatus == Completed
  {
    AllLessonsComplete(|lessonsOfCourse|);
  }

  /** While the completed ids are lessons of the course, progress is at most
      100. */
  lemma ProgressWithinBounds(r: EnrollmentRow, lessonsOfCourse: set<int>)
    requires r.completedLessonIds <= lessonsOfCourse && lessonsOfCourse != {}
    ensures 0 <= WithProgress(r, |lessonsOfCourse|).progressPercentage <= 100
  {
    Repositories.SubsetSize(r.completedLessonIds, lessonsOfCourse);
    PercentageBounded(|r.completedLessonIds|, |lessonsOfCourse|);
  }

  /** A lesson deleted after being completed stays in the set: in a course of
      at most 200 lessons, one such stale id together with every remaining
      lesson pushes the progress above 100 and the status back to IN_PROGRESS. */
  lemma StaleIdOvershoots(r: EnrollmentRow, lessonsOfCourse: set<int>, stale: int)
    requires stale !in lessonsOfCourse && lessonsOfCourse != {} && |lessonsOfCourse| <= 200
    requires r.completedLessonIds == lessonsOfCourse + {stale}
    ensures WithProgress(r, |lessonsOfCourse|).progressPercentage > 100
    ensures WithProgress(r, |lessonsOfCourse|).completionStatus == InProgress
  {
    assert |r.completedLessonIds| == |lessonsOfCourse| + 1;
    OneExtraIff(|lessonsOfCourse|);
  }

  /** EnrollmentJPA: the generated id (null until saved), the user and course it
      links, and the progress it tracks. */
  class EnrollmentEntity {
    var id: Option<int>
    var userId: int
    var courseId: int
    var completionStatus: string
    var progressPercentage: int
    var completedLessonIds: set<int>
    var lastWatchedLesson: Option<int>

    function Row(): EnrollmentRow
      reads this
    {
      EnrollmentRow(userId, courseId, completionStatus, progressPercentage, completedLessonIds, lastWatchedLesson)
    }

    /** A new enrollment of the user in the course, not yet saved. */
    constructor (userId: int, courseId: int)
      ensures id.None? && Row() == NewEnrollment(userId, courseId)
    {
      this.id := None;
      this.userId := userId;
      this.courseId := courseId;
      this.completionStatus := InProgress;
      this.progressPercentage := 0;
      this.completedLessonIds := {};
      this.lastWatchedLesson := None;
    }

    /** The enrollment saved under `id`, as `findById` loads it. */
    constructor Load(id: int, r: EnrollmentRow)
      ensures this.id == Some(id) && Row() == r
    {
      this.id := Some(id);
      this.userId := r.userId;
      this.courseId := r.courseId;
      this.completionStatus := r.completionStatus;
      this.progressPercentage := r.progressPercentage;
      this.completedLessonIds := r.completedLessonIds;
      this.lastWatchedLesson := r.lastWatchedLesson;
    }

    method MarkLessonAsCompleted(lessonId: int)
      modifies this
      ensures Row() == WithCompleted(old(Row()), lessonId) && id == old(id)
    {
      completedLessonIds := completedLessonIds + {lessonId};
    }

    method SetCompletionStatus(status: string)
      modifies this
      ensures Row() == old(Row()).(completionStatus := status) && id == old(id)
    {
      completionStatus := status;
    }

    method SetProgressPercentage(p: int)
      modifies this
      ensures Row() == old(Row()).(progressPercentage := p) && id == old(id)
    {
      progressPercentage := p;
    }

    method SetLastWatchedLesson(lessonId: Option<int>)
      modifies this
      ensures Row() == old(Row()).(lastWatchedLesson := lessonId) && id == old(id)
    {
      lastWatchedLesson := lessonId;
    }

    /** `equals`: the same object, or another enrollment with the same id (two
        unsaved enrollments are equal). */
    predicate Equals(o: EnrollmentEntity?)
      reads this, o
    {
      this == o || (o != null && id == o.id)
    }

    function HashCode(): int
      reads this
      requires id.Some? ==> 0 <= id.value < 0x8000_0000_0000_0000
    {
      ObjectsHash(id)
    }
  }

  /** Equality of enrollments is equality of ids. */
  lemma EnrollmentEqualsById(a: EnrollmentEntity, b: EnrollmentEntity?)
    ensures a.Equals(b) <==> b != null && a.id == b.id
  {
  }

  /** Equal enrollments hash alike, as the `equals`/`hashCode` contract demands. */
  lemma EnrollmentHashAgrees(a: EnrollmentEntity, b: EnrollmentEntity)
    requires a.id.Some? ==> 0 <= a.id.value < 0x8000_0000_0000_0000
    requires b.id.Some? ==> 0 <= b.id.value < 0x8000_0000_0000_0000
    requires a.Equals(b)
    ensures a.HashCode() == b.HashCode()
  {
  }
}
