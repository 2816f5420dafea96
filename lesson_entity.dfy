/** A lesson of a module, as the persistence layer holds it in memory, and its
    partial update. */
module LessonEntities {
  import opened Wrappers
  import opened Text
  import opened Records
  import opened Identity

  /** The fields of a lesson update request; `None` is a field left null. */
  datatype LessonUpdate = LessonUpdate(title: Option<string>, description: Option<string>,
                                       youtubeVideoUrl: Option<string>, durationSeconds: Option<int>,
                                       orderIndex: Option<int>)

  const NoLessonChange := LessonUpdate(None, None, None, None, None)

  /** What `updateFields` makes of a lesson. */
  function ApplyLessonUpdate(r: LessonRow, u: LessonUpdate): (r': LessonRow)
    ensures r'.moduleId == r.moduleId
    ensures PresentNotBlank(u.title) ==> r'.title == u.title.value
    ensures r'.title != r.title ==> PresentNotBlank(u.title) && r'.title == u.title.value
    ensures u.description.Some? ==> r'.description == u.description.value
    ensures r'.description != r.description ==> u.description == Some(r'.description)
    ensures PresentNotBlank(u.youtubeVideoUrl) ==> r'.youtubeVideoUrl == u.youtubeVideoUrl.value
    ensures r'.youtubeVideoUrl != r.youtubeVideoUrl ==> PresentNotBlank(u.youtubeVideoUrl) && r'.youtubeVideoUrl == u.youtubeVideoUrl.value
    ensures u.durationSeconds.Some? ==> r'.durationSeconds == u.durationSeconds
    ensures r'.durationSeconds != r.durationSeconds ==> u.durationSeconds == r'.durationSeconds
    ensures u.orderIndex.Some? ==> r'.orderIndex == u.orderIndex.value
    ensures r'.orderIndex != r.orderIndex ==> u.orderIndex == Some(r'.orderIndex)
  {
    LessonRow(r.moduleId,
              if PresentNotBlank(u.title) then u.title.value else r.title,
              if u.description.Some? then u.description.value else r.description,
              if PresentNotBlank(u.youtubeVideoUrl) then u.youtubeVideoUrl.value else r.youtubeVideoUrl,
              if u.durationSeconds.Some? then u.durationSeconds else r.durationSeconds,
              if u.orderIndex.Some? then u.orderIndex.value else r.orderIndex)
  }

  /** Two updates in a row are one update: the later request's fields win
      wherever they would be applied. */
  function ThenLesson(first: LessonUpdate, second: LessonUpdate): LessonUpdate {
    LessonUpdate(if PresentNotBlank(second.title) then second.title else first.title,
                 if second.description.Some? then second.description else first.description,
                 if PresentNotBlank(second.youtubeVideoUrl) then second.youtubeVideoUrl else first.youtubeVideoUrl,
                 if second.durationSeconds.Some? then second.durationSeconds else first.durationSeconds,
                 if second.orderIndex.Some? then second.orderIndex else first.orderIndex)
  }

  lemma LessonUpdatesCompose(r: LessonRow, first: LessonUpdate, second: LessonUpdate)
    ensures ApplyLessonUpdate(ApplyLessonUpdate(r, first), second) == ApplyLessonUpdate(r, ThenLesson(first, second))
  {
  }

  /** Repeating an update changes nothing more. */
  lemma LessonUpdateIdempotent(r: LessonRow, u: LessonUpdate)
    ensures ApplyLessonUpdate(ApplyLessonUpdate(r, u), u) == ApplyLessonUpdate(r, u)
  {
  }

  /** An update with every field null leaves the lesson as it is. */
  lemma EmptyLessonUpdate(r: LessonRow)
    ensures ApplyLessonUpdate(r, NoLessonChange) == r
  {
  }

  /** LessonJPA: the generated id (null until saved), the owning module and the
      lesson's own fields. */
  class LessonEntity {
    var id: Option<int>
    var moduleId: int
    var title: string
    var description: string
    var youtubeVideoUrl: string
    var durationSeconds: Option<int>
    var orderIndex: int

    function Row(): LessonRow
      reads this
    {
      LessonRow(moduleId, title, description, youtubeVideoUrl, durationSeconds, orderIndex)
    }

    /** A new lesson, not yet saved. */
    constructor (moduleId: int, title: string, description: string, youtubeVideoUrl: string,
                 durationSeconds: Option<int>, orderIndex: int)
      ensures id.None?
      ensures Row() == LessonRow(moduleId, title, description, youtubeVideoUrl, durationSeconds, orderIndex)
    {
      this.id := None;
      this.moduleId := moduleId;
      this.title := title;
      this.description := description;
      this.youtubeVideoUrl := youtubeVideoUrl;
      this.durationSeconds := durationSeconds;
      this.orderIndex := orderIndex;
    }

    /** The lesson saved under `id`, as `findById` loads it. */
    constructor Load(id: int, r: LessonRow)
      ensures this.id == Some(id) && Row() == r
    {
      this.id := Some(id);
      this.moduleId := r.moduleId;
      this.title := r.title;
      this.description := r.description;
      this.youtubeVideoUrl := r.youtubeVideoUrl;
      this.durationSeconds := r.durationSeconds;
      this.orderIndex := r.orderIndex;
    }

    /** Copies each non-null field of the request; titles and video URLs also
        need to be non-blank. The id and the module are never touched. */
    method UpdateFields(u: LessonUpdate)
      modifies this
      ensures Row() == ApplyLessonUpdate(old(Row()), u)
      ensures id == old(id)
    {
      if u.title.Some? && !IsBlank(u.title.value) {
        title := u.title.value;
      }
      if u.description.Some? {
        description := u.description.value;
      }
      if u.youtubeVideoUrl.Some? && !IsBlank(u.youtubeVideoUrl.value) {
        youtubeVideoUrl := u.youtubeVideoUrl.value;
      }
      if u.durationSeconds.Some? {
        durationSeconds := u.durationSeconds;
      }
      if u.orderIndex.Some? {
        orderIndex := u.orderIndex.value;
      }
    }

    /** `equals`: the same object, or another lesson with the same id (two
        unsaved lessons are equal). */
    predicate Equals(o: LessonEntity?)
      reads this, o
    {
      this == o || (o != null && id == o.id)
    }

    function HashCode(): int
      reads this
      requires id.Some? ==> 0 <= id.value < 0x8000_0000_0000_0000
    {
      ObjectsHash(id)
    }
  }

  /** Equality of lessons is equality of ids. */
  lemma LessonEqualsById(a: LessonEntity, b: LessonEntity?)
    ensures a.Equals(b) <==> b != null && a.id == b.id
  {
  }

  /** Equal lessons hash alike, as the `equals`/`hashCode` contract demands. */
  lemma LessonHashAgrees(a: LessonEntity, b: LessonEntity)
    requires a.id.Some? ==> 0 <= a.id.value < 0x8000_0000_0000_0000
    requires b.id.Some? ==> 0 <= b.id.value < 0x8000_0000_0000_0000
    requires a.Equals(b)
    ensures a.HashCode() == b.HashCode()
  {
  }
}
