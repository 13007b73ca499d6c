/** The static credential table: user name to plain-text password, taken
    as given (after the configuration reader has normalised its keys). */
module Credentials {
  import opened Wrappers

  type Users = map<string, string>

  /** The shared check of both authenticating handlers: the user name is a
      key of the table and the stored password equals the given one. An
      absent field never matches, since the table holds only strings. */
  predicate Authenticates(users: Users, username: Option<string>, password: Option<string>)
    ensures Authenticates(users, username, password)
            ==> username.Some? && password.Some? && username.value in users.Keys
                && password.value in users.Values
  {
    username.Some? && username.value in users && password == Some(users[username.value])
  }

  /** The check accepts exactly the pairs that are entries of the table. */
  lemma AuthenticatesIffEntry(users: Users, username: string, password: string)
    ensures Authenticates(users, Some(username), Some(password)) <==> (username, password) in users.Items
  {
    if (username, password) in users.Items {
      assert username in users.Keys;
    }
  }
}
