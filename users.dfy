/** The in-memory account list of the sign-in form and the two lookups made over it. */
module Credentials {

  datatype Option<T> = None | Some(value: T)

  /** One `{ email, password }` entry of the account list. */
  datatype User = User(email: string, password: string)

  /** The list the module starts with: a single demo account. */
  const DemoUsers: seq<User> := [User("user@example.com", "securePassword123")]

  /** `users.some(u => u.email === email)`: some entry carries this address,
      whatever its password. */
  function EmailRegistered(users: seq<User>, email: string): (r: bool)
    ensures r <==> exists k :: 0 <= k < |users| && users[k].email == email
  {
    if users == [] then false
    else if users[0].email == email then true
    else EmailRegistered(users[1..], email)
  }

  /** `users.find(u => u.email === email && u.password === password)`: the position
      of the first entry with both this address and this password, if there is one. */
  function FindCredentials(users: seq<User>, email: string, password: string): (r: Option<nat>)
    ensures r.Some? ==> r.value < |users| && users[r.value] == User(email, password)
    ensures r.Some? ==> forall k :: 0 <= k < r.value ==> users[k] != User(email, password)
    ensures r.None? <==> User(email, password) !in users
  {
    if users == [] then None
    else if users[0] == User(email, password) then Some(0)
    else
      match FindCredentials(users[1..], email, password)
      case None => None
      case Some(i) => Some(i + 1)
  }

  /** No address appears in two entries. */
  predicate DistinctEmails(users: seq<User>) {
    forall i, j :: 0 <= i < j < |users| ==> users[i].email != users[j].email
  }

  /** Appending an entry whose address is not yet registered keeps addresses distinct. */
  lemma AppendUnregistered(users: seq<User>, u: User)
    requires DistinctEmails(users) && !EmailRegistered(users, u.email)
    ensures DistinctEmails(users + [u])
  {
  }

  /** The module-level `validUsers` array: it outlives every mounted form, and the
      forms grow it in place with `push`. */
  class UserStore {
    var users: seq<User>

    constructor ()
      ensures users == DemoUsers
    {
      users := DemoUsers;
    }

    /** `validUsers.push(u)` */
    method Push(u: User)
      modifies this
      ensures users == old(users) + [u]
    {
      users := users + [u];
    }
  }
}
