/**
  The Users table: `username TEXT PRIMARY KEY, password TEXT NOT NULL`.
  Passwords are stored and compared as the plain text the user typed.
*/
module Credentials {
  import opened Wrappers

  type Users = map<string, string>

  /** The only way an insert into Users can fail: the username is already a key. */
  datatype UserError = DuplicateUsername

  const SampleUsername: string := "admin"
  const SamplePassword: string := "admin123"

  /**
    `check_credentials`: `SELECT * FROM Users WHERE username = ? AND password = ?`
    finds a row exactly when the stored pair is (username, password).
  */
  predicate Matches(users: Users, username: string, password: string)
  {
    username in users && users[username] == password
  }

  /**
    `register_user`: a plain `INSERT INTO Users`.  The primary key refuses a
    second row with the same username, and the caller's `except` leaves the
    table as it was.
  */
  function Register(users: Users, username: string, password: string): (r: Result<Users, UserError>)
    ensures r.Ok? <==> username !in users
    ensures r.Ok? ==> r.value.Keys == users.Keys + {username}
    ensures r.Ok? ==> forall u :: u in users ==> u in r.value && r.value[u] == users[u]
    ensures r.Ok? ==> (username, password) in r.value.Items
  {
    if username in users then Err(DuplicateUsername) else Ok(users[username := password])
  }

  /** `INSERT OR IGNORE INTO Users`: adds the row only when the username is free. */
  function InsertOrIgnore(users: Users, username: string, password: string): (r: Users)
    ensures r.Keys == users.Keys + {username}
    ensures forall u :: u in users ==> r[u] == users[u]
    ensures username !in users ==> r[username] == password
  {
    if username in users then users else users[username := password]
  }

  /** `create_sample_user`: the `admin` row seeded with `INSERT OR IGNORE`. */
  function SeedSampleUser(users: Users): (r: Users)
    ensures SampleUsername in r
    ensures SampleUsername in users ==> r == users
    ensures SampleUsername !in users ==> Matches(r, SampleUsername, SamplePassword)
  {
    InsertOrIgnore(users, SampleUsername, SamplePassword)
  }

  /** Seeding twice is the same as seeding once (the app seeds on every start). */
  lemma SeedIdempotent(users: Users)
    ensures SeedSampleUser(SeedSampleUser(users)) == SeedSampleUser(users)
  {
  }

  /** The credential check is membership of the exact pair in the table. */
  lemma MatchesIsStoredPair(users: Users, username: string, password: string)
    ensures Matches(users, username, password) <==> (username, password) in users.Items
  {
    if (username, password) in users.Items {
      assert users[username] == password;
    }
  }

  /**
    After a successful registration the check succeeds with that password and
    fails with every other one, and every other user's check is as before.
  */
  lemma RegisterThenCheck(users: Users, username: string, password: string)
    requires Register(users, username, password).Ok?
    ensures Matches(Register(users, username, password).value, username, password)
    ensures forall p :: p != password ==> !Matches(Register(users, username, password).value, username, p)
    ensures forall u, p :: u != username ==>
              (Matches(Register(users, username, password).value, u, p) <==> Matches(users, u, p))
  {
  }
}
