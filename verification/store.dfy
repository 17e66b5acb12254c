/** The `users` table of `src/db/schema.ts` and the two queries the
    handlers use. Rows are kept in insertion order; the table has no
    unique constraint on email, so several rows may share one.
    `getUserByEmail` and the inline select of `src/index.ts` return the
    first row whose email matches (`.get()` on a scan in row order).
    `createUser` inserts a row and returns its new id: SQLite gives an
    `INTEGER PRIMARY KEY` one more than the largest id in the table, or 1
    when the table is empty.
 */
module Store {
  import opened JsRuntime

  /** A row of `users`: (id, username, email, password hash). */
  datatype User = User(id: int, username: string, email: string, password: string)

  datatype Store = Store(rows: seq<User>)

  /** The first row with this email, if any. */
  function FirstWithEmail(rows: seq<User>, email: string): (r: Option<User>)
    ensures r.None? <==> forall i | 0 <= i < |rows| :: rows[i].email != email
    ensures r.Some? ==> r.value.email == email
    ensures r.Some? ==> exists i | 0 <= i < |rows| ::
      rows[i] == r.value && forall j | 0 <= j < i :: rows[j].email != email
  {
    if |rows| == 0 then None
    else if rows[0].email == email then Some(rows[0])
    else
      var r := FirstWithEmail(rows[1..], email);
      assert forall i | 1 <= i < |rows| :: rows[i] == rows[1..][i - 1];
      r
  }

  /** `getUserByEmail(email)` (src/db/queries/select.ts). */
  function GetUserByEmail(s: Store, email: string): (r: Option<User>)
    ensures r.None? <==> forall u | u in s.rows :: u.email != email
    ensures r.Some? ==> r.value in s.rows && r.value.email == email
  {
    FirstWithEmail(s.rows, email)
  }

  /** The largest id in the table, 0 for an empty table. */
  function MaxId(rows: seq<User>): (m: int)
    ensures forall i | 0 <= i < |rows| :: rows[i].id <= m
    ensures |rows| > 0 ==> exists i | 0 <= i < |rows| :: rows[i].id == m
    ensures |rows| == 0 ==> m == 0
  {
    if |rows| == 0 then 0
    else if |rows| == 1 then rows[0].id
    else
      var m := MaxId(rows[1..]);
      assert forall i | 1 <= i < |rows| :: rows[i] == rows[1..][i - 1];
      if rows[0].id >= m then rows[0].id else m
  }

  /** The id SQLite assigns to the next inserted row. */
  function NextId(s: Store): (id: int)
    ensures forall i | 0 <= i < |s.rows| :: s.rows[i].id < id
    ensures |s.rows| == 0 ==> id == 1
  {
    if |s.rows| == 0 then 1 else MaxId(s.rows) + 1
  }

  /** `createUser({ username, email, password })` (src/db/queries/insert.ts):
      appends one row under a fresh id and returns the new table and that id.
      Nothing already in the table changes. */
  function CreateUser(s: Store, username: string, email: string, password: string): (r: (Store, int))
    ensures r.0.rows == s.rows + [User(r.1, username, email, password)]
    ensures forall i | 0 <= i < |s.rows| :: s.rows[i].id != r.1
  {
    var id := NextId(s);
    (Store(s.rows + [User(id, username, email, password)]), id)
  }

  /** Ids identify rows, and (as long as every insert goes through a
      registration) an email is held by at most one row. */
  ghost predicate Valid(s: Store) {
    && (forall i, j | 0 <= i < j < |s.rows| :: s.rows[i].id != s.rows[j].id)
    && (forall i, j | 0 <= i < j < |s.rows| :: s.rows[i].email != s.rows[j].email)
  }

  /** In a valid table the row a lookup returns is the only row with that email. */
  lemma LookupUnique(s: Store, email: string, i: int)
    requires Valid(s)
    requires 0 <= i < |s.rows| && s.rows[i].email == email
    ensures GetUserByEmail(s, email) == Some(s.rows[i])
  {
    var r := GetUserByEmail(s, email);
    var k :| 0 <= k < |s.rows| && s.rows[k] == r.value && forall j | 0 <= j < k :: s.rows[j].email != email;
  }

  /** Whatever else the table holds, an email it did not hold looks up to
      the row just inserted for it. */
  lemma LookupAfterCreate(s: Store, username: string, email: string, password: string)
    requires GetUserByEmail(s, email).None?
    ensures GetUserByEmail(CreateUser(s, username, email, password).0, email)
         == Some(User(CreateUser(s, username, email, password).1, username, email, password))
  {
    var (s', id) := CreateUser(s, username, email, password);
    var n := |s.rows|;
    assert s'.rows[n] == User(id, username, email, password);
    assert forall i | 0 <= i < n :: s'.rows[i] == s.rows[i];
  }

  /** Inserting an email the table does not hold keeps it valid, and the
      new row is what a lookup of that email then finds. */
  lemma CreateKeepsValid(s: Store, username: string, email: string, password: string)
    requires Valid(s)
    requires GetUserByEmail(s, email).None?
    ensures Valid(CreateUser(s, username, email, password).0)
    ensures GetUserByEmail(CreateUser(s, username, email, password).0, email)
         == Some(User(CreateUser(s, username, email, password).1, username, email, password))
  {
    var (s', id) := CreateUser(s, username, email, password);
    var n := |s.rows|;
    assert s'.rows[n] == User(id, username, email, password);
    forall i, j | 0 <= i < j < |s'.rows| ensures s'.rows[i].id != s'.rows[j].id && s'.rows[i].email != s'.rows[j].email {
      if j == n {
        assert s'.rows[i] == s.rows[i];
      } else {
        assert s'.rows[i] == s.rows[i] && s'.rows[j] == s.rows[j];
      }
    }
    LookupUnique(s', email, n);
  }
}
