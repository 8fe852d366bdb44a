/** The `users` table: one row per account, with the column constraints the
    store enforces. Times are whole seconds since the epoch. */
module Database {
  import opened Common
  import opened Text

  /** Column widths of `username`, `email` and `hashed_password`. */
  const UsernameMaxLength := 50
  const EmailMaxLength := 100
  const HashedPasswordMaxLength := 255

  /** A row of the `users` table. `id` is assigned by the store; `isActive`
      defaults to true and `lastLogin` is empty until the first successful
      login. Neither string column can be NULL, so each is a plain string. */
  datatype User = User(
    id: int,
    username: string,
    email: string,
    hashedPassword: string,
    createdAt: int,
    isActive: bool := true,
    lastLogin: Option<int> := None)
  {
    /** The row fits its column widths (the store refuses a row that
        does not). */
    predicate FitsColumns() {
      |username| <= UsernameMaxLength && |email| <= EmailMaxLength && |hashedPassword| <= HashedPasswordMaxLength
    }

    /** `<User(id=I, username='U', email='E')>`. */
    function Repr(): string {
      "<User(id=" + IntToString(id) + ", username='" + username + "', email='" + email + "')>"
    }
  }

  /** A row built with only the columns that have no default: active, and
      never logged in. */
  lemma ColumnDefaults(id: int, username: string, email: string, hashed: string, now: int)
    ensures User(id, username, email, hashed, now).isActive
    ensures User(id, username, email, hashed, now).lastLogin == None
  {
  }

  /** The rendering shows the id, user name and e-mail only: it is the same
      whatever the password hash, the status and the timestamps are. */
  lemma ReprShowsIdentityOnly(u: User, hashed: string, active: bool, created: int, last: Option<int>)
    ensures u.(hashedPassword := hashed, isActive := active, createdAt := created, lastLogin := last).Repr() == u.Repr()
  {
  }

  /** The rendering of a concrete row. */
  lemma ReprExample()
    ensures User(1, "alice01", "a@x.com", "h", 0).Repr() == "<User(id=1, username='alice01', email='a@x.com')>"
  {
    assert IntToString(1) == "1";
    ReprExampleJoined();
  }

  lemma ReprExampleJoined()
    ensures "<User(id=" + "1" + ", username='" + "alice01" + "', email='" + "a@x.com" + "')>"
         == "<User(id=1, username='alice01', email='a@x.com')>"
  {
    assert "<User(id=" + "1" + ", username='" == "<User(id=1, username='";
  }
}
