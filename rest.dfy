/** The HTTP handlers of src/api/rest/user.go. Each handler parses the path
    identifier with strconv.ParseInt(s, 10, 64), binds the JSON body (given here as
    an Option: None when binding fails), calls the repository at most once and
    writes exactly one response, a status code with a JSON body. */
module Rest {
  import opened Wrappers
  import opened Models
  import opened StrConv
  import opened Repository

  const StatusOK: int := 200
  const StatusCreated: int := 201
  const StatusBadRequest: int := 400
  const StatusNotFound: int := 404
  const StatusInternalServerError: int := 500

  /** The JSON bodies the handlers write: gin.H{"error": ...}, gin.H{"message": ...} or a user. */
  datatype Body = ErrorBody(error: string) | MessageBody(message: string) | UserBody(user: UserResponse)

  /** One c.JSON write, or a handler that panicked before writing anything. */
  datatype Response = Json(status: int, body: Body) | Panicked

  const InvalidUserId: Response := Json(StatusBadRequest, ErrorBody("Invalid user ID"))
  const InvalidPayload: Response := Json(StatusBadRequest, ErrorBody("Invalid request payload"))
  const NotFoundResponse: Response := Json(StatusNotFound, ErrorBody("User not found"))
  const InternalError: Response := Json(StatusInternalServerError, ErrorBody("Internal Server Error"))
  const Deleted: Response := Json(StatusOK, MessageBody("User deleted successfully"))

  /** The classification the delete and both update handlers apply to a repository
      error: ErrUserNotFound is 404, everything else is 500. */
  function NotFoundOrInternal(e: RepoError): (resp: Response)
    ensures resp == NotFoundResponse <==> e == UserNotFound
    ensures resp == InternalError <==> e != UserNotFound
  {
    if e == UserNotFound then NotFoundResponse else InternalError
  }

  /** The read handler's classification: every error, ErrNoRows included, is 400
      with the error's own text. */
  function ReadFailure(e: RepoError): (resp: Response)
    ensures resp.Json? && resp.status == StatusBadRequest
    ensures resp.body == ErrorBody(ErrorText(e))
  {
    Json(StatusBadRequest, ErrorBody(ErrorText(e)))
  }

  /** UserServiceApi: the handlers over one repository. */
  class UserServiceApi {
    const repository: UserRepository

    constructor (repository: UserRepository)
      ensures this.repository == repository
    {
      this.repository := repository;
    }

    /** GET /users/:id */
    method ReadUser(idParam: string, db: DbCall) returns (resp: Response)
      requires repository.Valid()
      ensures ParseInt64(idParam).None? ==> resp == InvalidUserId
      ensures ParseInt64(idParam).Some? ==>
                var id := ParseInt64(idParam).value;
                && (db.selectFault.Some? ==> resp == Json(StatusBadRequest, ErrorBody(db.selectFault.value)))
                && (db.selectFault.None? && id in repository.table ==>
                      resp == Json(StatusOK, UserBody(repository.table[id])) && resp.body.user.id == id)
                && (db.selectFault.None? && id !in repository.table ==>
                      resp == Json(StatusBadRequest, ErrorBody("sql: no rows in result set")))
    {
      var parsed := ParseInt64(idParam);
      if parsed.None? {
        return InvalidUserId;
      }
      var model := repository.ReadUser(parsed.value, db);
      if model.Failure? {
        return ReadFailure(model.error);
      }
      return Json(StatusOK, UserBody(model.value));
    }

    /** DELETE /users/:id */
    method DeleteUser(idParam: string, db: DbCall) returns (resp: Response)
      requires repository.Valid()
      modifies repository
      ensures repository.Valid() && repository.nextId == old(repository.nextId)
      ensures ParseInt64(idParam).None? ==> resp == InvalidUserId && repository.table == old(repository.table)
      ensures ParseInt64(idParam).Some? ==>
                var id := ParseInt64(idParam).value;
                && (db.writeFault.Some? ==> resp == InternalError && repository.table == old(repository.table))
                && (db.writeFault.None? ==> repository.table == old(repository.table) - {id})
                && (db.writeFault.None? && db.rowsAffectedFault.Some? ==> resp == InternalError)
                && (db.writeFault.None? && db.rowsAffectedFault.None? ==>
                      resp == if id in old(repository.table) then Deleted else NotFoundResponse)
    {
      var parsed := ParseInt64(idParam);
      if parsed.None? {
        return InvalidUserId;
      }
      var err := repository.DeleteUser(parsed.value, db);
      if err.Some? {
        return NotFoundOrInternal(err.value);
      }
      return Deleted;
    }

    /** POST /users */
    method CreateUser(body: Option<UserCreateSchema>, db: DbCall) returns (resp: Response)
      requires repository.Valid()
      modifies repository
      ensures repository.Valid()
      ensures body.None? ==> resp == InvalidPayload && repository.table == old(repository.table) && repository.nextId == old(repository.nextId)
      ensures body.Some? && (db.writeFault.Some? || old(repository.nextId) > MaxInt64) ==>
                resp == InternalError && repository.table == old(repository.table) && repository.nextId == old(repository.nextId)
      ensures body.Some? && db.writeFault.None? && old(repository.nextId) <= MaxInt64 ==>
                var u := body.value;
                var created := UserEntity(old(repository.nextId) as int64, u.name, u.lastname, u.age, u.email);
                && created.id !in old(repository.table)
                && resp == Json(StatusCreated, UserBody(created))
                && repository.table == old(repository.table)[created.id := created]
                && repository.nextId == old(repository.nextId) + 1
    {
      if body.None? {
        return InvalidPayload;
      }
      var createdUser := repository.CreateUser(body.value, db);
      if createdUser.Failure? {
        return InternalError;
      }
      return Json(StatusCreated, UserBody(createdUser.value));
    }

    /** PUT /users/:id */
    method UpdateUser(idParam: string, body: Option<UserUpdateSchema>, db: DbCall) returns (resp: Response)
      requires repository.Valid()
      modifies repository
      ensures repository.Valid() && repository.nextId == old(repository.nextId)
      ensures ParseInt64(idParam).None? ==> resp == InvalidUserId && repository.table == old(repository.table)
      ensures ParseInt64(idParam).Some? && body.None? ==> resp == InvalidPayload && repository.table == old(repository.table)
      ensures ParseInt64(idParam).Some? && body.Some? ==>
                var id, s := ParseInt64(idParam).value, body.value;
                && (db.selectFault.Some? ==> resp == InternalError && repository.table == old(repository.table))
                && (db.selectFault.None? && id !in old(repository.table) ==>
                      resp == NotFoundResponse && repository.table == old(repository.table))
                && (db.selectFault.None? && id in old(repository.table) && db.writeFault.Some? ==>
                      resp == InternalError && repository.table == old(repository.table))
                && (db.selectFault.None? && id in old(repository.table) && db.writeFault.None? ==>
                      && repository.table == old(repository.table)[id := Merge(old(repository.table)[id], s)]
                      && resp == if Complete(s) then Json(StatusOK, UserBody(repository.table[id])) else Panicked)
    {
      var parsed := ParseInt64(idParam);
      if parsed.None? {
        return InvalidUserId;
      }
      if body.None? {
        return InvalidPayload;
      }
      var updatedUser := repository.UpdateUser(parsed.value, body.value, db);
      if updatedUser.Failure? {
        if updatedUser.error == NilDereference {
          return Panicked;
        }
        return NotFoundOrInternal(updatedUser.error);
      }
      return Json(StatusOK, UserBody(updatedUser.value));
    }

    /** PATCH /users/:id */
    method PartialUpdateUser(idParam: string, body: Option<UserUpdateSchema>, db: DbCall) returns (resp: Response)
      requires repository.Valid()
      modifies repository
      ensures repository.Valid() && repository.nextId == old(repository.nextId)
      ensures ParseInt64(idParam).None? ==> resp == InvalidUserId && repository.table == old(repository.table)
      ensures ParseInt64(idParam).Some? && body.None? ==> resp == InvalidPayload && repository.table == old(repository.table)
      ensures ParseInt64(idParam).Some? && body.Some? ==>
                var id, s := ParseInt64(idParam).value, body.value;
                && (db.selectFault.Some? ==> resp == InternalError && repository.table == old(repository.table))
                && (db.selectFault.None? && id !in old(repository.table) ==>
                      resp == NotFoundResponse && repository.table == old(repository.table))
                && (db.selectFault.None? && id in old(repository.table) && db.writeFault.Some? ==>
                      resp == InternalError && repository.table == old(repository.table))
                && (db.selectFault.None? && id in old(repository.table) && db.writeFault.None? ==>
                      && repository.table == old(repository.table)[id := Merge(old(repository.table)[id], s)]
                      && resp == Json(StatusOK, UserBody(old(repository.table)[id])))
    {
      var parsed := ParseInt64(idParam);
      if parsed.None? {
        return InvalidUserId;
      }
      if body.None? {
        return InvalidPayload;
      }
      var updatedUser := repository.PartialUpdateUser(parsed.value, body.value, db);
      if updatedUser.Failure? {
        return NotFoundOrInternal(updatedUser.error);
      }
      return Json(StatusOK, UserBody(updatedUser.value));
    }
  }

  /** A client session against a healthy database: create Ana, read her back, patch
      her age, delete her and read again. The PATCH answer shows the row as it was
      before the update, and the final read is a 400 carrying ErrNoRows' text. */
  method Session(api: UserServiceApi)
    returns (created: Response, read: Response, patched: Response, stored: UserEntity, deleted: Response, readAgain: Response)
    requires api.repository.Valid() && api.repository.nextId <= MaxInt64
    modifies api.repository
    ensures created.Json? && created.status == StatusCreated && created.body.UserBody?
    ensures created.body.user == UserEntity(created.body.user.id, "Ana", "Diaz", 30, "ana@x.com")
    ensures read == Json(StatusOK, created.body)
    ensures patched == Json(StatusOK, created.body)
    ensures stored == created.body.user.(age := 31)
    ensures deleted == Deleted
    ensures readAgain == Json(StatusBadRequest, ErrorBody("sql: no rows in result set"))
  {
    var repo := api.repository;
    created := api.CreateUser(Some(UserCreateSchema("Ana", "Diaz", 30, "ana@x.com")), Healthy);
    var id := created.body.user.id;
    var path := FormatInt64(id);
    ParseFormat(id);
    read := api.ReadUser(path, Healthy);
    patched := api.PartialUpdateUser(path, Some(UserUpdateSchema(None, None, Some(31), None)), Healthy);
    stored := repo.table[id];
    deleted := api.DeleteUser(path, Healthy);
    readAgain := api.ReadUser(path, Healthy);
  }
}
