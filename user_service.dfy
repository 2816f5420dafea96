/** UserService: registering users with unique emails, and updating them. */
module UserService {
  import opened Wrappers
  import opened Text
  import opened Records
  import opened Errors
  import opened Repositories
  import opened Store

  const EmailTakenText := "Email já cadastrado!"
  const UserNotFoundText := "Usuário não encontrado com ID: "

  /** No two users share an email. The check in `registerNewUser` keeps this;
      the column's own constraint is not part of this model. */
  predicate EmailsUnique(users: map<int, UserRow>) {
    forall a, b | a in users && b in users && users[a].email == users[b].email :: a == b
  }

  /** The check `registerNewUser` makes: no user has the email. */
  function RegisterCheck(s: Snapshot, email: string): (f: Option<Failure>)
    ensures f.None? <==> UsersWithEmail(s.users.rows, email) == {}
    ensures f.Some? && f.value.EmailAlreadyInUse? <==> |UsersWithEmail(s.users.rows, email)| == 1
    ensures f.Some? && f.value.EmailAlreadyInUse? ==> f.value.message == EmailTakenText
    ensures f.Some? ==> f.value.EmailAlreadyInUse? || f.value.NonUniqueResult?
  {
    match Single(UsersWithEmail(s.users.rows, email))
    case Absent => None
    case Present(_) => Some(EmailAlreadyInUse(EmailTakenText))
    case NonUnique => Some(NonUniqueResult)
  }

  /** Saving a user whose email nobody has keeps emails unique. */
  lemma FreshEmailKeepsUnique(users: Table<UserRow>, r: UserRow)
    requires EmailsUnique(users.rows) && Fresh(users)
    requires UsersWithEmail(users.rows, r.email) == {}
    ensures EmailsUnique(Insert(users, r).rows)
  {
    var rows := Insert(users, r).rows;
    forall a | a in users.rows
      ensures rows[a].email != r.email
    {
      assert a !in UsersWithEmail(users.rows, r.email);
    }
  }

  /** While emails are unique the lookup finds at most one user, so the check
      fails only with the email-in-use error. */
  lemma UniqueEmailsFailCleanly(s: Snapshot, email: string)
    requires EmailsUnique(s.users.rows)
    ensures RegisterCheck(s, email) != Some(NonUniqueResult)
  {
    var found := UsersWithEmail(s.users.rows, email);
    if |found| > 1 {
      var a, b := TwoMembers(found);
    }
  }

  method RegisterNewUser(db: Database, r: UserRow) returns (res: Result<int>)
    requires db.Valid()
    modifies db
    ensures db.Valid()
    ensures res.Err? <==> RegisterCheck(old(db.State()), r.email).Some?
    ensures res.Err? ==> res.error == RegisterCheck(old(db.State()), r.email).value && db.State() == old(db.State())
    ensures res.Ok? ==> res.value == old(db.users.next)
    ensures res.Ok? ==> db.State() == old(db.State()).(users := Insert(old(db.users), r))
    ensures EmailsUnique(old(db.users.rows)) ==> EmailsUnique(db.users.rows)
  {
    match Single(UsersWithEmail(db.users.rows, r.email))
    case NonUnique =>
      return Err(NonUniqueResult);
    case Present(_) =>
      return Err(EmailAlreadyInUse(EmailTakenText));
    case Absent =>
    if EmailsUnique(db.users.rows) {
      FreshEmailKeepsUnique(db.users, r);
    }
    var id := db.InsertUser(r);
    res := Ok(id);
  }

  /** `update`: the user's own `updateFields` is not part of this model and
      is taken as a function of the stored user. */
  method Update(db: Database, id: int, updateFields: UserRow -> UserRow) returns (res: Result<UserRow>)
    requires db.Valid()
    modifies db
    ensures db.Valid()
    ensures id !in old(db.users.rows) <==> res.Err?
    ensures res.Err? ==> res.error == NoSuchElement(UserNotFoundText + IntToString(id)) && db.State() == old(db.State())
    ensures res.Ok? ==> res.value == updateFields(old(db.users.rows[id]))
    ensures res.Ok? ==> db.State() == old(db.State()).(users := Put(old(db.users), id, res.value))
  {
    if id !in db.users.rows {
      return Err(NoSuchElement(UserNotFoundText + IntToString(id)));
    }
    var user := updateFields(db.users.rows[id]);
    db.PutUser(id, user);
    res := Ok(user);
  }
}
