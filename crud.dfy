/** The account store: the `users` table as the service reads and changes it
    (`UserCRUD`). Every call that reaches the database takes a flag saying
    whether that call raises (lost connection, failed commit, ...); the
    store turns every such failure into an empty answer. A failure before
    the commit leaves the table as it was; a failure after it (reloading a
    new row) cannot undo what was committed. */
module Crud {
  import opened Common
  import opened Database
  import Security

  /** What a row is looked up by. */
  datatype Key = ByUsername(username: string) | ByEmail(email: string) | ById(id: int)

  predicate Matches(u: User, key: Key) {
    match key
    case ByUsername(n) => u.username == n
    case ByEmail(e) => u.email == e
    case ById(i) => u.id == i
  }

  /** The position of the first row that matches `key`. */
  function FindIndex(rows: seq<User>, key: Key): (r: Option<nat>)
    ensures r.Some? ==> r.value < |rows| && Matches(rows[r.value], key)
    ensures r.Some? ==> forall j :: 0 <= j < r.value ==> !Matches(rows[j], key)
    ensures r.None? <==> forall i :: 0 <= i < |rows| ==> !Matches(rows[i], key)
  {
    if rows == [] then None
    else if Matches(rows[0], key) then Some(0)
    else match FindIndex(rows[1..], key)
      case None => None
      case Some(i) => Some(i + 1)
  }

  /** The row that matches `key`, if any (`select(User).where(...)`). */
  function Lookup(rows: seq<User>, key: Key): Option<User> {
    match FindIndex(rows, key)
    case None => None
    case Some(i) => Some(rows[i])
  }

  /** No two rows share a user name, an e-mail or an id. */
  ghost predicate UniqueKeys(rows: seq<User>) {
    forall i, j :: 0 <= i < j < |rows| ==>
      rows[i].username != rows[j].username && rows[i].email != rows[j].email && rows[i].id != rows[j].id
  }

  /** With unique keys, a lookup answers exactly the row that matches: the
      only one there is. */
  lemma LookupFindsTheOnlyMatch(rows: seq<User>, key: Key, u: User)
    requires UniqueKeys(rows)
    ensures Lookup(rows, key) == Some(u) <==> u in rows && Matches(u, key)
  {
    if u in rows && Matches(u, key) {
      var k :| 0 <= k < |rows| && rows[k] == u;
      assert FindIndex(rows, key).value == k;
    }
  }

  /** An account with this user name exists. */
  predicate UsernameTaken(rows: seq<User>, username: string) {
    exists i :: 0 <= i < |rows| && rows[i].username == username
  }

  /** An account with this e-mail exists. */
  predicate EmailTaken(rows: seq<User>, email: string) {
    exists i :: 0 <= i < |rows| && rows[i].email == email
  }

  /** The table's constraints accept inserting `row`: its name and its
      e-mail are free, and each value fits its column. */
  predicate Admits(rows: seq<User>, row: User) {
    !UsernameTaken(rows, row.username) && !EmailTaken(rows, row.email) && row.FitsColumns()
  }

  /** The account named `username` exists and `password` verifies against
      its stored hash. */
  ghost predicate Authenticates(rows: seq<User>, hasher: Security.PasswordHasher, username: string, password: string) {
    && UsernameTaken(rows, username)
    && Security.VerifyPassword(hasher, password, Lookup(rows, ByUsername(username)).value.hashedPassword)
  }

  /** The table with the row at `k` stamped as logged in at `now`; every
      other row and every other column as before. */
  function Touch(rows: seq<User>, k: nat, now: int): (r: seq<User>)
    requires k < |rows|
    ensures |r| == |rows| && r[k].lastLogin == Some(now)
    ensures r[k] == rows[k].(lastLogin := r[k].lastLogin)
    ensures forall i :: 0 <= i < |rows| && i != k ==> r[i] == rows[i]
  {
    rows[k := rows[k].(lastLogin := Some(now))]
  }

  class UserStore {
    /** The password hasher the store hashes and verifies with. */
    const hasher: Security.PasswordHasher
    /** The rows of the `users` table, in insertion order. */
    var users: seq<User>
    /** The id the next inserted row receives (auto-increment). */
    var nextId: int

    /** The table's constraints: unique user names, e-mails and ids, every
        id positive and below the counter, every row within its column
        widths. */
    ghost predicate Valid()
      reads this
    {
      && UniqueKeys(users)
      && 1 <= nextId
      && (forall i :: 0 <= i < |users| ==> 1 <= users[i].id < nextId && users[i].FitsColumns())
    }

    /** An empty table whose ids start at 1. */
    constructor (hasher: Security.PasswordHasher)
      ensures Valid()
      ensures this.hasher == hasher && users == [] && nextId == 1
    {
      this.hasher := hasher;
      users := [];
      nextId := 1;
    }

    /** `UserCRUD.get_user_by_username`: the account with this name, or
        nothing when there is none or the query raises. */
    method GetUserByUsername(username: string, fails: bool) returns (r: Option<User>)
      requires Valid()
      ensures r.Some? ==> !fails && r.value in users && r.value.username == username
      ensures r.None? ==> fails || !UsernameTaken(users, username)
    {
      if fails {
        return None;
      }
      r := Lookup(users, ByUsername(username));
    }

    /** `UserCRUD.get_user_by_email`. */
    method GetUserByEmail(email: string, fails: bool) returns (r: Option<User>)
      requires Valid()
      ensures r.Some? ==> !fails && r.value in users && r.value.email == email
      ensures r.None? ==> fails || !EmailTaken(users, email)
    {
      if fails {
        return None;
      }
      r := Lookup(users, ByEmail(email));
    }

    /** `UserCRUD.get_user_by_id`. */
    method GetUserById(id: int, fails: bool) returns (r: Option<User>)
      requires Valid()
      ensures r.Some? ==> !fails && r.value in users && r.value.id == id
      ensures r.None? ==> fails || forall i :: 0 <= i < |users| ==> users[i].id != id
    {
      if fails {
        return None;
      }
      r := Lookup(users, ById(id));
    }

    /** `UserCRUD.create_user`: hashes the password and inserts an active
        account created `now`. The insert is refused, and rolled back, when
        the name or the e-mail is already taken (the unique constraints),
        when a value is wider than its column, or when the database raises
        before the commit (`fails`); all of these answer nothing and leave
        the table as it was. Once committed, the row stays: when reloading
        it raises (`refreshFails`), the rollback has nothing left to undo and
        the answer is still nothing. */
    method CreateUser(username: string, email: string, password: string, salt: string, now: int,
                      fails: bool, refreshFails: bool)
      returns (r: Option<User>)
      requires Valid()
      modifies this
      ensures Valid()
      ensures r.Some? <==> !fails && Admits(old(users), User(old(nextId), username, email, Security.HashPassword(hasher, password, salt), now)) && !refreshFails
      ensures !fails && Admits(old(users), User(old(nextId), username, email, Security.HashPassword(hasher, password, salt), now)) ==>
        && (forall i :: 0 <= i < |old(users)| ==> old(users)[i].id != old(nextId))
        && users == old(users) + [User(old(nextId), username, email, Security.HashPassword(hasher, password, salt), now,
                                       isActive := true, lastLogin := None)]
        && nextId == old(nextId) + 1
      ensures r.Some? ==> r.value == users[|users| - 1]
      ensures !(!fails && Admits(old(users), User(old(nextId), username, email, Security.HashPassword(hasher, password, salt), now))) ==>
        users == old(users) && nextId == old(nextId)
    {
      var hashedPassword := Security.HashPassword(hasher, password, salt);
      var dbUser := User(nextId, username, email, hashedPassword, now, isActive := true);
      if fails {
        // an exception before the commit: rollback
        return None;
      }
      if FindIndex(users, ByUsername(username)).Some? || FindIndex(users, ByEmail(email)).Some? {
        // IntegrityError from a unique constraint: rollback
        return None;
      }
      if !dbUser.FitsColumns() {
        // the value is too long for its column: rollback
        return None;
      }
      users := users + [dbUser];
      nextId := nextId + 1;
      if refreshFails {
        // an exception after the commit: the rollback finds nothing to undo
        return None;
      }
      r := Some(dbUser);
    }

    /** `UserCRUD.authenticate_user`: when the name is known and the password
        verifies against its stored hash, records `now` as that account's last
        login, commits, and answers the updated account, active or not.
        Otherwise, or when the lookup or the commit raises, answers nothing
        and leaves the table as it was. */
    method AuthenticateUser(username: string, password: string, now: int, lookupFails: bool, commitFails: bool)
      returns (r: Option<User>)
      requires Valid()
      modifies this
      ensures Valid() && nextId == old(nextId)
      ensures r.Some? <==> !lookupFails && !commitFails && Authenticates(old(users), hasher, username, password)
      ensures r.Some? ==>
        var k := FindIndex(old(users), ByUsername(username)).value;
        && r.value == old(users)[k].(lastLogin := Some(now))
        && users == Touch(old(users), k, now)
      ensures r.None? ==> users == old(users)
    {
      if lookupFails {
        return None;
      }
      var k := FindIndex(users, ByUsername(username));
      if k.None? {
        return None;
      }
      var user := users[k.value];
      if !Security.VerifyPassword(hasher, password, user.hashedPassword) {
        return None;
      }
      user := user.(lastLogin := Some(now));
      if commitFails {
        return None;
      }
      users := users[k.value := user];
      r := Some(user);
    }

    /** `UserCRUD.update_user_last_login`: true exactly when an account with
        this id exists and the commit succeeds; then that account's last
        login becomes `now` and nothing else changes. */
    method UpdateUserLastLogin(id: int, now: int, lookupFails: bool, commitFails: bool) returns (ok: bool)
      requires Valid()
      modifies this
      ensures Valid() && nextId == old(nextId)
      ensures ok <==> !lookupFails && !commitFails && exists i :: 0 <= i < |old(users)| && old(users)[i].id == id
      ensures ok ==> users == Touch(old(users), FindIndex(old(users), ById(id)).value, now)
      ensures !ok ==> users == old(users)
    {
      if lookupFails {
        return false;
      }
      var k := FindIndex(users, ById(id));
      if k.None? {
        return false;
      }
      if commitFails {
        // rollback
        return false;
      }
      users := Touch(users, k.value, now);
      ok := true;
    }
  }
}
