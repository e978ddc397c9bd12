/** The persisted entities of the identity service, as plain values. */
module Entities {
  import opened Results

  /** A permission row: `security.permissions`. */
  datatype Permission = Permission(id: int, name: string, isActive: bool)

  /** A role row; `permissions` is absent when the relation was not loaded. */
  datatype Role = Role(id: int, name: string, isActive: bool, permissions: Option<seq<Permission>>)

  /** A user row; `roles` is absent when the relation was not loaded. */
  datatype User = User(
    id: string,
    username: string,
    password: string,   // the bcrypt hash
    email: string,
    firstName: string,
    lastName: string,
    createdAt: int,
    isActive: bool,
    roles: Option<seq<Role>>)
}
