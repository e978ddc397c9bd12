/**
 * The two user lookups the authentication service relies on; both throw
 * NotFound instead of returning nothing.
 */
module UsersLookup {
  import opened Results
  import opened Entities

  /** `findOneByEmail`: the first user row with that email, or NotFound. */
  function FindOneByEmail(users: seq<User>, email: string): (r: Result<User>)
    ensures r.Failure? <==> forall u :: u in users ==> u.email != email
    ensures r.Failure? ==> r.error == NotFound
    ensures r.Success? ==> r.value in users && r.value.email == email
  {
    if users == [] then Failure(NotFound)
    else if users[0].email == email then Success(users[0])
    else FindOneByEmail(users[1..], email)
  }

  /** `findOne`: the user row with that id, or NotFound. */
  function FindOne(users: seq<User>, id: string): (r: Result<User>)
    ensures r.Failure? <==> forall u :: u in users ==> u.id != id
    ensures r.Failure? ==> r.error == NotFound
    ensures r.Success? ==> r.value in users && r.value.id == id
  {
    if users == [] then Failure(NotFound)
    else if users[0].id == id then Success(users[0])
    else FindOne(users[1..], id)
  }
}
