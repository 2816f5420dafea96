/** A course, as the persistence layer holds it in memory, and its partial
    update. */
module CourseEntities {
  import opened Wrappers
  import opened Text
  import opened Records
  import opened Identity

  /** The fields of a course update request that `updateFields` reads; the
      instructor and category ids of the request are handled by the service. */
  datatype CourseUpdate = CourseUpdate(title: Option<string>, description: Option<string>,
                                       thumbnailUrl: Option<string>, isPublished: Option<bool>)

  const NoCourseChange := CourseUpdate(None, None, None, None)

  /** What `updateFields` makes of a course. */
  function ApplyCourseUpdate(r: CourseRow, u: CourseUpdate): (r': CourseRow)
    ensures r'.instructorId == r.instructorId && r'.categoryId == r.categoryId
    ensures PresentNotBlank(u.title) ==> r'.title == u.title.value
    ensures r'.title != r.title ==> PresentNotBlank(u.title) && r'.title == u.title.value
    ensures u.description.Some? ==> r'.description == u.description.value
    ensures r'.description != r.description ==> u.description == Some(r'.description)
    ensures u.thumbnailUrl.Some? ==> r'.thumbnailUrl == u.thumbnailUrl
    ensures r'.thumbnailUrl != r.thumbnailUrl ==> u.thumbnailUrl == r'.thumbnailUrl
    ensures u.isPublished.Some? ==> r'.isPublished == u.isPublished
    ensures r'.isPublished != r.isPublished ==> u.isPublished == r'.isPublished
  {
    CourseRow(if PresentNotBlank(u.title) then u.title.value else r.title,
              if u.description.Some? then u.description.value else r.description,
              if u.thumbnailUrl.Some? then u.thumbnailUrl else r.thumbnailUrl,
              if u.isPublished.Some? then u.isPublished else r.isPublished,
              r.instructorId, r.categoryId)
  }

  /** Two updates in a row are one update: the later request's fields win
      wherever they would be applied. */
  function ThenCourse(first: CourseUpdate, second: CourseUpdate): CourseUpdate {
    CourseUpdate(if PresentNotBlank(second.title) then second.title else first.title,
                 if second.description.Some? then second.description else first.description,
                 if second.thumbnailUrl.Some? then second.thumbnailUrl else first.thumbnailUrl,
                 if second.isPublished.Some? then second.isPublished else first.isPublished)
  }

  lemma CourseUpdatesCompose(r: CourseRow, first: CourseUpdate, second: CourseUpdate)
    ensures ApplyCourseUpdate(ApplyCourseUpdate(r, first), second) == ApplyCourseUpdate(r, ThenCourse(first, second))
  {
  }

  /** Repeating an update changes nothing more. */
  lemma CourseUpdateIdempotent(r: CourseRow, u: CourseUpdate)
    ensures ApplyCourseUpdate(ApplyCourseUpdate(r, u), u) == ApplyCourseUpdate(r, u)
  {
  }

  /** An update with every field null leaves the course as it is. */
  lemma EmptyCourseUpdate(r: CourseRow)
    ensures ApplyCourseUpdate(r, NoCourseChange) == r
  {
  }

  /** CourseJPA: the generated id (null until saved), the course's own fields
      and its instructor and category. */
  class CourseEntity {
    var id: Option<int>
    var title: string
    var description: string
    var thumbnailUrl: Option<string>
    var isPublished: Option<bool>
    var instructorId: int
    var categoryId: int

    function Row(): CourseRow
      reads this
    {
      CourseRow(title, description, thumbnailUrl, isPublished, instructorId, categoryId)
    }

    /** A new course, not yet saved. */
    constructor (title: string, description: string, thumbnailUrl: Option<string>,
                 isPublished: Option<bool>, instructorId: int, categoryId: int)
      ensures id.None?
      ensures Row() == CourseRow(title, description, thumbnailUrl, isPublished, instructorId, categoryId)
    {
      this.id := None;
      this.title := title;
      this.description := description;
      this.thumbnailUrl := thumbnailUrl;
      this.isPublished := isPublished;
      this.instructorId := instructorId;
      this.categoryId := categoryId;
    }

    /** The course saved under `id`, as `findById` loads it. */
    constructor Load(id: int, r: CourseRow)
      ensures this.id == Some(id) && Row() == r
    {
      this.id := Some(id);
      this.title := r.title;
      this.description := r.description;
      this.thumbnailUrl := r.thumbnailUrl;
      this.isPublished := r.isPublished;
      this.instructorId := r.instructorId;
      this.categoryId := r.categoryId;
    }

    method SetInstructor(instructorId: int)
      modifies this
      ensures Row() == old(Row()).(instructorId := instructorId) && id == old(id)
    {
      this.instructorId := instructorId;
    }

    method SetCategory(categoryId: int)
      modifies this
      ensures Row() == old(Row()).(categoryId := categoryId) && id == old(id)
    {
      this.categoryId := categoryId;
    }

    method SetTitle(title: string)
      modifies this
      ensures Row() == old(Row()).(title := title) && id == old(id)
    {
      this.title := title;
    }

    method SetDescription(description: string)
      modifies this
      ensures Row() == old(Row()).(description := description) && id == old(id)
    {
      this.description := description;
    }

    /** Copies each non-null field of the request; the title also needs to be
        non-blank. The id, the instructor and the category are never touched. */
    method UpdateFields(u: CourseUpdate)
      modifies this
      ensures Row() == ApplyCourseUpdate(old(Row()), u)
      ensures id == old(id)
    {
      if u.title.Some? && !IsBlank(u.title.value) {
        title := u.title.value;
      }
      if u.description.Some? {
        description := u.description.value;
      }
      if u.thumbnailUrl.Some? {
        thumbnailUrl := u.thumbnailUrl;
      }
      if u.isPublished.Some? {
        isPublished := u.isPublished;
      }
    }

    /** `equals`: the same object, or another course with the same id (two
        unsaved courses are equal). */
    predicate Equals(o: CourseEntity?)
      reads this, o
    {
      this == o || (o != null && id == o.id)
    }

    function HashCode(): int
      reads this
      requires id.Some? ==> 0 <= id.value < 0x8000_0000_0000_0000
    {
      ObjectsHash(id)
    }
  }

  /** Equality of courses is equality of ids. */
  lemma CourseEqualsById(a: CourseEntity, b: CourseEntity?)
    ensures a.Equals(b) <==> b != null && a.id == b.id
  {
  }

  /** Equal courses hash alike, as the `equals`/`hashCode` contract demands. */
  lemma CourseHashAgrees(a: CourseEntity, b: CourseEntity)
    requires a.id.Some? ==> 0 <= a.id.value < 0x8000_0000_0000_0000
    requires b.id.Some? ==> 0 <= b.id.value < 0x8000_0000_0000_0000
    requires a.Equals(b)
    ensures a.HashCode() == b.HashCode()
  {
  }
}
