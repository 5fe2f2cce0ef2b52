/** The user repository of src/db/repository/user.go over an in-memory users table.
    The database is the map `table` from identifier to row plus the sequence
    that hands out identifiers; the bun query builders become direct map reads
    and updates, and whether a statement fails is given per call by DbCall. */
module Repository {
  import opened Wrappers
  import opened Models

  /** The errors a repository call can return. */
  datatype RepoError =
    | UserNotFound                  // repository.ErrUserNotFound
    | NoRows                        // database/sql's ErrNoRows, returned by Scan on an empty result
    | StorageError(message: string) // any other failure of a statement (connection lost, constraint violated)
    | NilDereference                // the runtime panic of dereferencing an absent optional field

  const NilDereferenceText: string := "runtime error: invalid memory address or nil pointer dereference"

  /** What err.Error() prints for each error. */
  function ErrorText(e: RepoError): (text: string)
    ensures e.StorageError? ==> text == e.message
    ensures !e.StorageError? ==> text != ""
  {
    match e
    case UserNotFound => "user not found"
    case NoRows => "sql: no rows in result set"
    case StorageError(m) => m
    case NilDereference => NilDereferenceText
  }

  /** The three errors the code itself raises can be told apart by their text. */
  lemma ErrorTextDistinct(e1: RepoError, e2: RepoError)
    requires !e1.StorageError? && !e2.StorageError?
    requires ErrorText(e1) == ErrorText(e2)
    ensures e1 == e2
  {
    assert |ErrorText(UserNotFound)| == 14 && |ErrorText(NoRows)| == 26 && |ErrorText(NilDereference)| == 64;
  }

  /** How the database behaves during one repository call: the failure, if any, of
      the SELECT, of the INSERT/UPDATE/DELETE, and of reading the affected-row count. */
  datatype DbCall = DbCall(selectFault: Option<string>, writeFault: Option<string>, rowsAffectedFault: Option<string>)

  const Healthy: DbCall := DbCall(None, None, None)

  /** The message PostgreSQL gives once the identifier sequence is used up. */
  const SequenceExhausted: string := "nextval: reached maximum value of sequence"

  /** SQL's COALESCE(?, column): the supplied value if there is one, else the stored one. */
  function Coalesce<T>(supplied: Option<T>, stored: T): (r: T)
    ensures supplied.Some? ==> r == supplied.value
    ensures supplied.None? ==> r == stored
  {
    match supplied
    case Some(v) => v
    case None => stored
  }

  /** The row after "UPDATE users SET f = COALESCE(?, f), ... WHERE id = ?". */
  function Merge(row: UserEntity, s: UserUpdateSchema): (r: UserEntity)
    ensures r.id == row.id
  {
    row.(name := Coalesce(s.name, row.name), lastname := Coalesce(s.lastname, row.lastname),
         age := Coalesce(s.age, row.age), email := Coalesce(s.email, row.email))
  }

  /** Every optional field is present, so dereferencing all of them cannot panic. */
  predicate Complete(s: UserUpdateSchema) {
    s.name.Some? && s.lastname.Some? && s.age.Some? && s.email.Some?
  }

  /** Every supplied field already holds the stored value. */
  predicate Agrees(row: UserEntity, s: UserUpdateSchema) {
    && (s.name.Some? ==> s.name.value == row.name)
    && (s.lastname.Some? ==> s.lastname.value == row.lastname)
    && (s.age.Some? ==> s.age.value == row.age)
    && (s.email.Some? ==> s.email.value == row.email)
  }

  /** Supplied fields overwrite, absent fields keep their stored value, the id never changes. */
  lemma MergeFields(row: UserEntity, s: UserUpdateSchema)
    ensures Merge(row, s).id == row.id
    ensures Merge(row, s).name == (if s.name.Some? then s.name.value else row.name)
    ensures Merge(row, s).lastname == (if s.lastname.Some? then s.lastname.value else row.lastname)
    ensures Merge(row, s).age == (if s.age.Some? then s.age.value else row.age)
    ensures Merge(row, s).email == (if s.email.Some? then s.email.value else row.email)
  {
  }

  /** Applying the same update twice stores the same row as applying it once. */
  lemma MergeIdempotent(row: UserEntity, s: UserUpdateSchema)
    ensures Merge(Merge(row, s), s) == Merge(row, s)
  {
  }

  /** The merged row agrees with the update, and the update leaves a row unchanged
      exactly when the row already agrees with it. */
  lemma MergeAgrees(row: UserEntity, s: UserUpdateSchema)
    ensures Agrees(Merge(row, s), s)
    ensures Merge(row, s) == row <==> Agrees(row, s)
  {
  }

  /** With every field supplied the stored row no longer depends on the old one. */
  lemma MergeComplete(row: UserEntity, s: UserUpdateSchema)
    requires Complete(s)
    ensures Merge(row, s) == UserEntity(row.id, s.name.value, s.lastname.value, s.age.value, s.email.value)
  {
  }

  /** The repository (Go type `user`) and the database behind its connection. */
  class UserRepository {
    /** The rows of the users table, by primary key. */
    var table: map<int64, UserEntity>
    /** The next value of the table's identifier sequence; MaxInt64 + 1 once exhausted. */
    var nextId: int

    /** Each row is stored under its own id, and the sequence is past every id in use. */
    ghost predicate Valid()
      reads this
    {
      && 1 <= nextId <= MaxInt64 + 1
      && forall id :: id in table ==> table[id].id == id && id as int < nextId
    }

    /** NewUserRepository over a database holding `rows` whose sequence stands at `next`. */
    constructor (rows: map<int64, UserEntity>, next: int)
      requires 1 <= next <= MaxInt64 + 1
      requires forall id :: id in rows ==> rows[id].id == id && id as int < next
      ensures Valid() && table == rows && nextId == next
    {
      table := rows;
      nextId := next;
    }

    /** "SELECT ... WHERE id = ?" scanned into one struct. */
    function Select(id: int64, db: DbCall): (r: Result<UserEntity, RepoError>)
      reads this
      requires Valid()
      ensures r.Success? <==> db.selectFault.None? && id in table
      ensures r.Success? ==> r.value == table[id] && r.value.id == id
      ensures r.Failure? ==> r.error == (if db.selectFault.Some? then StorageError(db.selectFault.value) else NoRows)
    {
      if db.selectFault.Some? then Failure(StorageError(db.selectFault.value))
      else if id !in table then Failure(NoRows)
      else Success(table[id])
    }

    /** ReadUser: the row with that id, or the storage error unchanged (a missing row
        is ErrNoRows, not ErrUserNotFound). */
    method ReadUser(id: int64, db: DbCall) returns (r: Result<UserResponse, RepoError>)
      requires Valid()
      ensures db.selectFault.None? && id in table ==> r == Success(table[id]) && r.value.id == id
      ensures db.selectFault.None? && id !in table ==> r == Failure(NoRows)
      ensures db.selectFault.Some? ==> r == Failure(StorageError(db.selectFault.value))
    {
      var model := Select(id, db);
      if model.Failure? {
        return Failure(model.error);
      }
      return Success(model.value);
    }

    /** DeleteUser: removes the row with that id; zero rows affected is ErrUserNotFound. */
    method DeleteUser(id: int64, db: DbCall) returns (err: Option<RepoError>)
      requires Valid()
      modifies this
      ensures Valid() && nextId == old(nextId)
      ensures db.writeFault.Some? ==> err == Some(StorageError(db.writeFault.value)) && table == old(table)
      ensures db.writeFault.None? ==> table == old(table) - {id}
      ensures db.writeFault.None? && db.rowsAffectedFault.Some? ==> err == Some(StorageError(db.rowsAffectedFault.value))
      ensures db.writeFault.None? && db.rowsAffectedFault.None? ==>
                err == if id in old(table) then None else Some(UserNotFound)
    {
      if db.writeFault.Some? {
        return Some(StorageError(db.writeFault.value));
      }
      var rowsAffected := if id in table then 1 else 0;
      table := table - {id};
      if db.rowsAffectedFault.Some? {
        return Some(StorageError(db.rowsAffectedFault.value));
      }
      if rowsAffected == 0 {
        return Some(UserNotFound);
      }
      return None;
    }

    /** CreateUser: inserts the four fields under the next identifier of the sequence
        and answers with that identifier and the same four fields. */
    method CreateUser(newUser: UserCreateSchema, db: DbCall) returns (r: Result<UserResponse, RepoError>)
      requires Valid()
      modifies this
      ensures Valid()
      ensures r.Success? <==> db.writeFault.None? && old(nextId) <= MaxInt64
      ensures r.Failure? ==> table == old(table) && nextId == old(nextId)
      ensures db.writeFault.Some? ==> r == Failure(StorageError(db.writeFault.value))
      ensures db.writeFault.None? && old(nextId) > MaxInt64 ==> r == Failure(StorageError(SequenceExhausted))
      ensures r.Success? ==>
                && r.value.id as int == old(nextId) && r.value.id !in old(table)
                && r.value == UserEntity(r.value.id, newUser.name, newUser.lastname, newUser.age, newUser.email)
                && table == old(table)[r.value.id := r.value]
                && nextId == old(nextId) + 1
    {
      if db.writeFault.Some? {
        return Failure(StorageError(db.writeFault.value));
      }
      if nextId > MaxInt64 {
        return Failure(StorageError(SequenceExhausted));
      }
      var user := UserEntity(nextId as int64, newUser.name, newUser.lastname, newUser.age, newUser.email);
      table := table[user.id := user];
      nextId := nextId + 1;
      var userResponse := UserEntity(user.id, user.name, user.lastname, user.age, user.email);
      return Success(userResponse);
    }

    /** The COALESCE update both update operations run after their existence check. */
    method CoalesceUpdate(id: int64, updateUser: UserUpdateSchema, db: DbCall) returns (err: Option<RepoError>)
      requires Valid() && id in table
      modifies this
      ensures Valid() && nextId == old(nextId)
      ensures err == if db.writeFault.Some? then Some(StorageError(db.writeFault.value)) else None
      ensures table == if err.Some? then old(table) else old(table)[id := Merge(old(table)[id], updateUser)]
    {
      if db.writeFault.Some? {
        return Some(StorageError(db.writeFault.value));
      }
      table := table[id := Merge(table[id], updateUser)];
      return None;
    }

    /** UpdateUser: existence check, COALESCE update, then a response built by
        dereferencing every optional field of the schema, which panics after the row
        has been written when a field is absent. */
    method UpdateUser(id: int64, updateUser: UserUpdateSchema, db: DbCall) returns (r: Result<UserResponse, RepoError>)
      requires Valid()
      modifies this
      ensures Valid() && nextId == old(nextId)
      ensures db.selectFault.Some? ==> r == Failure(StorageError(db.selectFault.value)) && table == old(table)
      ensures db.selectFault.None? && id !in old(table) ==> r == Failure(UserNotFound) && table == old(table)
      ensures db.selectFault.None? && id in old(table) && db.writeFault.Some? ==>
                r == Failure(StorageError(db.writeFault.value)) && table == old(table)
      ensures db.selectFault.None? && id in old(table) && db.writeFault.None? ==>
                && table == old(table)[id := Merge(old(table)[id], updateUser)]
                && r == if Complete(updateUser) then Success(table[id]) else Failure(NilDereference)
    {
      var user := Select(id, db);
      if user.Failure? {
        if user.error == NoRows {
          return Failure(UserNotFound);
        }
        return Failure(user.error);
      }
      var err := CoalesceUpdate(id, updateUser, db);
      if err.Some? {
        return Failure(err.value);
      }
      if !Complete(updateUser) {
        return Failure(NilDereference);
      }
      MergeComplete(old(table)[id], updateUser);
      var userResponse := UserEntity(user.value.id, updateUser.name.value, updateUser.lastname.value,
                                     updateUser.age.value, updateUser.email.value);
      return Success(userResponse);
    }

    /** PartialUpdateUser: the same check and update, but the response is the row as
        the existence check read it, before the update. */
    method PartialUpdateUser(id: int64, updateUser: UserUpdateSchema, db: DbCall) returns (r: Result<UserResponse, RepoError>)
      requires Valid()
      modifies this
      ensures Valid() && nextId == old(nextId)
      ensures db.selectFault.Some? ==> r == Failure(StorageError(db.selectFault.value)) && table == old(table)
      ensures db.selectFault.None? && id !in old(table) ==> r == Failure(UserNotFound) && table == old(table)
      ensures db.selectFault.None? && id in old(table) && db.writeFault.Some? ==>
                r == Failure(StorageError(db.writeFault.value)) && table == old(table)
      ensures db.selectFault.None? && id in old(table) && db.writeFault.None? ==>
                && table == old(table)[id := Merge(old(table)[id], updateUser)]
                && r == Success(old(table)[id])
    {
      var user := Select(id, db);
      if user.Failure? {
        if user.error == NoRows {
          return Failure(UserNotFound);
        }
        return Failure(user.error);
      }
      var err := CoalesceUpdate(id, updateUser, db);
      if err.Some? {
        return Failure(err.value);
      }
      var userResponse := UserEntity(user.value.id, user.value.name, user.value.lastname,
                                     user.value.age, user.value.email);
      return Success(userResponse);
    }
  }

  /** Deleting the same id twice: the first call removes the row, the second finds nothing. */
  method DeleteTwice(repo: UserRepository, id: int64) returns (first: Option<RepoError>, second: Option<RepoError>)
    requires repo.Valid() && id in repo.table
    modifies repo
    ensures repo.Valid() && repo.table == old(repo.table) - {id}
    ensures first == None && second == Some(UserNotFound)
  {
    first := repo.DeleteUser(id, Healthy);
    second := repo.DeleteUser(id, Healthy);
  }

  /** Reading back a freshly created user gives the created row. */
  method CreateThenRead(repo: UserRepository, newUser: UserCreateSchema)
    returns (created: Result<UserResponse, RepoError>, read: Option<Result<UserResponse, RepoError>>)
    requires repo.Valid()
    modifies repo
    ensures repo.Valid()
    ensures created.Success? <==> old(repo.nextId) <= MaxInt64
    ensures created.Success? ==> read == Some(created)
    ensures created.Failure? ==> read == None
  {
    created := repo.CreateUser(newUser, Healthy);
    if created.Success? {
      var r := repo.ReadUser(created.value.id, Healthy);
      read := Some(r);
    } else {
      read := None;
    }
  }
}
