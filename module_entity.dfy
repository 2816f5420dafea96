/** A module of a course, as the persistence layer holds it in memory, and its
    partial update. */
module ModuleEntities {
  import opened Wrappers
  import opened Text
  import opened Records
  import opened Identity

  /** The fields of a module update request; `None` is a field left null. */
  datatype ModuleUpdate = ModuleUpdate(title: Option<string>, description: Option<string>,
                                       orderIndex: Option<int>)

  const NoModuleChange := ModuleUpdate(None, None, None)

  /** What `updateFields` makes of a module. */
  function ApplyModuleUpdate(r: ModuleRow, u: ModuleUpdate): (r': ModuleRow)
    ensures r'.courseId == r.courseId
    ensures PresentNotBlank(u.title) ==> r'.title == u.title.value
    ensures r'.title != r.title ==> PresentNotBlank(u.title) && r'.title == u.title.value
    ensures u.description.Some? ==> r'.description == u.description.value
    ensures r'.description != r.description ==> u.description == Some(r'.description)
    ensures u.orderIndex.Some? ==> r'.orderIndex == u.orderIndex.value
    ensures r'.orderIndex != r.orderIndex ==> u.orderIndex == Some(r'.orderIndex)
  {
    ModuleRow(r.courseId,
              if PresentNotBlank(u.title) then u.title.value else r.title,
              if u.description.Some? then u.description.value else r.description,
              if u.orderIndex.Some? then u.orderIndex.value else r.orderIndex)
  }

  /** Two updates in a row are one update: the later request's fields win
      wherever they would be applied. */
  function ThenModule(first: ModuleUpdate, second: ModuleUpdate): ModuleUpdate {
    ModuleUpdate(if PresentNotBlank(second.title) then second.title else first.title,
                 if second.description.Some? then second.description else first.description,
                 if second.orderIndex.Some? then second.orderIndex else first.orderIndex)
  }

  lemma ModuleUpdatesCompose(r: ModuleRow, first: ModuleUpdate, second: ModuleUpdate)
    ensures ApplyModuleUpdate(ApplyModuleUpdate(r, first), second) == ApplyModuleUpdate(r, ThenModule(first, second))
  {
  }

  /** Repeating an update changes nothing more. */
  lemma ModuleUpdateIdempotent(r: ModuleRow, u: ModuleUpdate)
    ensures ApplyModuleUpdate(ApplyModuleUpdate(r, u), u) == ApplyModuleUpdate(r, u)
  {
  }

  /** An update with every field null leaves the module as it is. */
  lemma EmptyModuleUpdate(r: ModuleRow)
    ensures ApplyModuleUpdate(r, NoModuleChange) == r
  {
  }

  /** ModuleJPA: the generated id (null until saved), the owning course and the
      module's own fields. */
  class ModuleEntity {
    var id: Option<int>
    var courseId: int
    var title: string
    var description: string
    var orderIndex: int

    function Row(): ModuleRow
      reads this
    {
      ModuleRow(courseId, title, description, orderIndex)
    }

    /** A new module, not yet saved. */
    constructor (courseId: int, title: string, description: string, orderIndex: int)
      ensures id.None?
      ensures Row() == ModuleRow(courseId, title, description, orderIndex)
    {
      this.id := None;
      this.courseId := courseId;
      this.title := title;
      this.description := description;
      this.orderIndex := orderIndex;
    }

    /** The module saved under `id`, as `findById` loads it. */
    constructor Load(id: int, r: ModuleRow)
      ensures this.id == Some(id) && Row() == r
    {
      this.id := Some(id);
      this.courseId := r.courseId;
      this.title := r.title;
      this.description := r.description;
      this.orderIndex := r.orderIndex;
    }

    method SetTitle(title: string)
      modifies this
      ensures Row() == old(Row()).(title := title) && id == old(id)
    {
      this.title := title;
    }

    method SetDescription(description: string)
      modifies this
      ensures Row() == old(Row()).(description := description) && id == old(id)
    {
      this.description := description;
    }

    method SetOrderIndex(orderIndex: int)
      modifies this
      ensures Row() == old(Row()).(orderIndex := orderIndex) && id == old(id)
    {
      this.orderIndex := orderIndex;
    }

    /** Sets each non-null field of the request through its setter; the title
        also needs to be non-blank. The id and the course are never touched. */
    method UpdateFields(u: ModuleUpdate)
      modifies this
      ensures Row() == ApplyModuleUpdate(old(Row()), u)
      ensures id == old(id)
    {
      if u.title.Some? && !IsBlank(u.title.value) {
        SetTitle(u.title.value);
      }
      if u.description.Some? {
        SetDescription(u.description.value);
      }
      if u.orderIndex.Some? {
        SetOrderIndex(u.orderIndex.value);
      }
    }

    /** `equals`: the same object, or another module with the same id (two
        unsaved modules are equal). */
    predicate Equals(o: ModuleEntity?)
      reads this, o
    {
      this == o || (o != null && id == o.id)
    }

    function HashCode(): int
      reads this
      requires id.Some? ==> 0 <= id.value < 0x8000_0000_0000_0000
    {
      ObjectsHash(id)
    }
  }

  /** Equality of modules is equality of ids. */
  lemma ModuleEqualsById(a: ModuleEntity, b: ModuleEntity?)
    ensures a.Equals(b) <==> b != null && a.id == b.id
  {
  }

  /** Equal modules hash alike, as the `equals`/`hashCode` contract demands. */
  lemma ModuleHashAgrees(a: ModuleEntity, b: ModuleEntity)
    requires a.id.Some? ==> 0 <= a.id.value < 0x8000_0000_0000_0000
    requires b.id.Some? ==> 0 <= b.id.value < 0x8000_0000_0000_0000
    requires a.Equals(b)
    ensures a.HashCode() == b.HashCode()
  {
  }
}
