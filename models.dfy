/** The data transfer objects of src/models/user.go and the row shape the repository stores. */
module Models {
  import opened Wrappers

  const MinInt64: int := -0x8000_0000_0000_0000
  const MaxInt64: int := 0x7fff_ffff_ffff_ffff

  /** Go's int64 (identifiers) and Go's int on a 64-bit platform (ages). */
  newtype int64 = x: int | MinInt64 <= x <= MaxInt64

  /** One row of the users table (models.UserEntity). */
  datatype UserEntity = UserEntity(id: int64, name: string, lastname: string, age: int64, email: string)

  /** models.UserResponse has the same five fields as the entity and the repository
      copies them one by one, so the model uses one datatype for both. */
  type UserResponse = UserEntity

  /** models.UserCreateSchema: every field required, no identifier. */
  datatype UserCreateSchema = UserCreateSchema(name: string, lastname: string, age: int64, email: string)

  /** models.UserUpdateSchema: every field optional (a nil pointer in Go is None here). */
  datatype UserUpdateSchema = UserUpdateSchema(
    name: Option<string>, lastname: Option<string>, age: Option<int64>, email: Option<string>)
}
