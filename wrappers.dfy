/** Java's nullable references and Optional results, as values. */
module Wrappers {

  /** `None` stands for Java's `null` or an empty `Optional`. */
  datatype Option<+T> = None | Some(value: T)

  /** What a single-result Spring Data finder (`Optional<T> findBy...`) gives for
      the set of rows that match: nothing, exactly one row, or more than one
      (the query then fails with IncorrectResultSizeDataAccessException). */
  datatype Lookup = Absent | Present(id: int) | NonUnique

  lemma SingletonHasElement(s: set<int>)
    requires |s| == 1
    ensures exists x :: s == {x}
  {
    if forall x :: x !in s { assert false; }
    var y :| y in s;
    assert |s - {y}| == 0;
    assert s == {y};
  }

  /** A set of more than one id holds two different ones. */
  lemma TwoMembers(s: set<int>) returns (a: int, b: int)
    requires |s| > 1
    ensures a in s && b in s && a != b
  {
    if forall x :: x !in s { assert false; }
    a :| a in s;
    var rest := s - {a};
    assert |rest| == |s| - 1;
    if forall x :: x !in rest { assert false; }
    b :| b in rest;
  }

  function Single(ids: set<int>): (r: Lookup)
    ensures r.Absent? <==> ids == {}
    ensures r.Present? <==> |ids| == 1
    ensures r.Present? ==> ids == {r.id}
    ensures r.NonUnique? <==> |ids| > 1
  {
    if ids == {} then Absent
    else if |ids| == 1 then
      SingletonHasElement(ids);
      var x :| ids == {x};
      Present(x)
    else NonUnique
  }
}
