/** CategoryService: creating, renaming and deleting course categories. */
module CategoryService {
  import opened Wrappers
  import opened Text
  import opened Records
  import opened Errors
  import opened Repositories
  import opened Store

  const CategoryNotFoundText := "Categoria não encontrada com ID: "

  function NameTakenText(name: string): string {
    "Uma categoria com o nome '" + name + "' já existe."
  }

  function OtherHasNameText(name: string): string {
    "Já existe outra categoria com este nome: '" + name + "'."
  }

  /** The check `create` makes: no category has exactly this name. */
  function CreateCheck(s: Snapshot, name: string): (f: Option<Failure>)
    ensures f.None? <==> CategoriesNamed(s.categories.rows, name) == {}
    ensures f.Some? && f.value.DuplicateResource? <==> |CategoriesNamed(s.categories.rows, name)| == 1
    ensures f.Some? && f.value.DuplicateResource? ==> f.value.message == NameTakenText(name)
    ensures f.Some? ==> f.value.DuplicateResource? || f.value.NonUniqueResult?
  {
    match Single(CategoriesNamed(s.categories.rows, name))
    case Absent => None
    case Present(_) => Some(DuplicateResource(NameTakenText(name)))
    case NonUnique => Some(NonUniqueResult)
  }

  method Create(db: Database, name: string) returns (r: Result<int>)
    requires db.Valid()
    modifies db
    ensures db.Valid()
    ensures r.Err? <==> CreateCheck(old(db.State()), name).Some?
    ensures r.Err? ==> r.error == CreateCheck(old(db.State()), name).value && db.State() == old(db.State())
    ensures r.Ok? ==> r.value == old(db.categories.next)
    ensures r.Ok? ==> db.State() == old(db.State()).(categories := Insert(old(db.categories), CategoryRow(name)))
  {
    match Single(CategoriesNamed(db.categories.rows, name))
    case NonUnique =>
      return Err(NonUniqueResult);
    case Present(_) =>
      return Err(DuplicateResource(NameTakenText(name)));
    case Absent =>
    var id := db.InsertCategory(CategoryRow(name));
    r := Ok(id);
  }

  /** The checks `update` makes: the category exists, and the category that
      has the name, ignoring case, if any, is this one. */
  function UpdateCheck(s: Snapshot, id: int, name: string): (f: Option<Failure>)
    ensures id !in s.categories.rows ==> f == Some(ResourceNotFound(CategoryNotFoundText + IntToString(id)))
    ensures f.None? <==>
              id in s.categories.rows &&
              (CategoriesNamedIgnoreCase(s.categories.rows, name) == {} || CategoriesNamedIgnoreCase(s.categories.rows, name) == {id})
    ensures f.Some? && f.value.DuplicateResource? <==>
              id in s.categories.rows && exists other :: CategoriesNamedIgnoreCase(s.categories.rows, name) == {other} && other != id
    ensures f.Some? && f.value.DuplicateResource? ==> f.value.message == OtherHasNameText(name)
    ensures f.Some? && f.value.NonUniqueResult? <==>
              id in s.categories.rows && |CategoriesNamedIgnoreCase(s.categories.rows, name)| > 1
  {
    if id !in s.categories.rows then Some(ResourceNotFound(CategoryNotFoundText + IntToString(id)))
    else match Single(CategoriesNamedIgnoreCase(s.categories.rows, name))
      case Absent => None
      case Present(other) => if other != id then Some(DuplicateResource(OtherHasNameText(name))) else None
      case NonUnique => Some(NonUniqueResult)
  }

  method Update(db: Database, id: int, name: string) returns (r: Result<CategoryRow>)
    requires db.Valid()
    modifies db
    ensures db.Valid()
    ensures r.Err? <==> UpdateCheck(old(db.State()), id, name).Some?
    ensures r.Err? ==> r.error == UpdateCheck(old(db.State()), id, name).value && db.State() == old(db.State())
    ensures r.Ok? ==> r.value == CategoryRow(name)
    ensures r.Ok? ==> db.State() == old(db.State()).(categories := Put(old(db.categories), id, CategoryRow(name)))
  {
    if id !in db.categories.rows {
      return Err(ResourceNotFound(CategoryNotFoundText + IntToString(id)));
    }
    var sameName := Single(CategoriesNamedIgnoreCase(db.categories.rows, name));
    if sameName.NonUnique? {
      return Err(NonUniqueResult);
    }
    if sameName.Present? && sameName.id != id {
      return Err(DuplicateResource(OtherHasNameText(name)));
    }
    db.PutCategory(id, CategoryRow(name));
    r := Ok(CategoryRow(name));
  }

  method Delete(db: Database, id: int) returns (o: Outcome)
    requires db.Valid()
    modifies db
    ensures db.Valid()
    ensures id !in old(db.categories.rows) ==> o == Fail(NoSuchElement(CategoryNotFoundText + IntToString(id)))
    ensures id in old(db.categories.rows) ==>
              (o.Fail? <==> CategoryReferenced(old(db.State()), id)) && (o.Fail? ==> o.error == ForeignKeyViolation)
    ensures o.Fail? ==> db.State() == old(db.State())
    ensures o.Pass? ==> db.State() == old(db.State()).(categories := Remove(old(db.categories), id))
  {
    if id !in db.categories.rows {
      return Fail(NoSuchElement(CategoryNotFoundText + IntToString(id)));
    }
    o := db.DeleteCategory(id);
  }

  /** Renaming a category to its own name in another letter case is allowed
      while no other category matches the name. */
  lemma RenameToOwnNameAllowed(s: Snapshot, id: int, name: string)
    requires id in s.categories.rows && EqualsIgnoreCase(s.categories.rows[id].name, name)
    requires forall other | other in s.categories.rows && other != id :: !EqualsIgnoreCase(s.categories.rows[other].name, name)
    ensures UpdateCheck(s, id, name).None?
  {
    assert CategoriesNamedIgnoreCase(s.categories.rows, name) == {id};
  }

  /** `create` compares names exactly and `update` ignoring case, so `create`
      accepts a second category whose name differs only in letter case; once
      two such categories exist, renaming either to that name, even to its own
      name, fails with a multiple-results error instead of a conflict. */
  lemma CreateAcceptsCaseVariant(s: Snapshot, name: string)
    requires forall c | c in s.categories.rows :: s.categories.rows[c].name != name
    ensures CreateCheck(s, name).None?
  {
    var found := CategoriesNamed(s.categories.rows, name);
    forall c ensures c !in found {
      if c in s.categories.rows {
        assert s.categories.rows[c].name != name;
      }
    }
    assert found == {};
  }

  lemma CaseVariantsBlockRename(s: Snapshot, a: int, b: int, name: string)
    requires a in s.categories.rows && b in s.categories.rows && a != b
    requires EqualsIgnoreCase(s.categories.rows[a].name, name) && EqualsIgnoreCase(s.categories.rows[b].name, name)
    ensures UpdateCheck(s, a, name) == Some(NonUniqueResult)
  {
    var found := CategoriesNamedIgnoreCase(s.categories.rows, name);
    assert {a, b} <= found;
    assert |{a, b}| == 2;
    SubsetSize({a, b}, found);
  }
}
