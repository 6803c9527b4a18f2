/**
 * The user store of utils/auth.py: a JSON object from user name to password
 * digest, read before and written after each change. The file becomes the
 * map itself, and the digest function (SHA-256 in hexadecimal) is a parameter:
 * all the store needs is that it is a function.
 */
module Auth {
  import opened Options

  type Digest = string

  /** The contents of the users file. */
  type Users = map<string, Digest>

  /** A new store, and whether the file was written. */
  datatype Update = Update(users: Users, saved: bool)

  /**
   * `authenticate` (lines 25-28): the stored digest equals the digest of the
   * given password. An absent user yields `None`, which equals no digest.
   */
  predicate Authenticate(users: Users, hash: string -> Digest, username: string, password: string)
    ensures Authenticate(users, hash, username, password) <==> username in users && users[username] == hash(password)
  {
    Get(users, username) == Some(hash(password))
  }

  /**
   * `add_user` (lines 30-33): stores the digest of the password under the user
   * name, creating or overwriting that entry only, and always saves.
   */
  function AddUser(users: Users, hash: string -> Digest, username: string, password: string): (u: Update)
    ensures u.saved
    ensures u.users.Keys == users.Keys + {username}
    ensures u.users[username] == hash(password)
    ensures forall v :: v in users && v != username ==> u.users[v] == users[v]
  {
    Update(users[username := hash(password)], true)
  }

  /**
   * `delete_user` (lines 35-39): removes the entry when it exists and saves;
   * for an unknown user nothing changes and nothing is written.
   */
  function DeleteUser(users: Users, username: string): (u: Update)
    ensures u.saved <==> username in users
    ensures u.users.Keys == users.Keys - {username}
    ensures forall v :: v in u.users ==> u.users[v] == users[v]
    ensures username !in users ==> u.users == users
  {
    if username in users then Update(users - {username}, true) else Update(users, false)
  }

  /** A user just added is accepted with the password given. */
  lemma AddThenAuthenticate(users: Users, hash: string -> Digest, username: string, password: string)
    ensures Authenticate(AddUser(users, hash, username, password).users, hash, username, password)
  {
  }

  /** Adding a user leaves every other user's login outcome as it was. */
  lemma AddKeepsOthers(users: Users, hash: string -> Digest, username: string, password: string, other: string, p: string)
    requires other != username
    ensures Authenticate(AddUser(users, hash, username, password).users, hash, other, p) <==> Authenticate(users, hash, other, p)
  {
  }

  /** After a deletion the user is refused whatever the password. */
  lemma DeleteThenReject(users: Users, hash: string -> Digest, username: string, password: string)
    ensures !Authenticate(DeleteUser(users, username).users, hash, username, password)
  {
  }

  /** An unknown user is refused whatever the password. */
  lemma UnknownRejected(users: Users, hash: string -> Digest, username: string, password: string)
    requires username !in users
    ensures !Authenticate(users, hash, username, password)
  {
  }

  /** Once a password is replaced, the old one is refused unless the two digests collide. */
  lemma OverwriteRejectsOld(users: Users, hash: string -> Digest, username: string, previous: string, current: string)
    requires hash(previous) != hash(current)
    ensures !Authenticate(AddUser(users, hash, username, current).users, hash, username, previous)
  {
  }
}
