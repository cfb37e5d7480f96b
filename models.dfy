/**
 * The relational records of models.py: the `users` table with its unique,
 * non-null, length-bounded columns, and the defaults of the `notes` table.
 *
 * Text columns are Dafny strings, which are never null, so the NOT NULL
 * constraints hold by construction.  The table is a sequence of rows together
 * with the next value of the autoincrementing primary key.
 */
module Models {
  import opened Wrappers

  /** `users.username` is VARCHAR(30). */
  const UsernameMaxLength := 30
  /** `users.password` is VARCHAR(150). */
  const PasswordHashMaxLength := 150
  /** Length of every hash the bcrypt primitive produces. */
  const BcryptHashLength := 60

  /** One row of the `users` table; `password` holds the bcrypt hash. */
  datatype User = User(id: int, email: string, username: string, password: string)

  /** The `users` table: its rows and the next id the primary-key sequence hands out. */
  datatype Registry = Registry(users: seq<User>, nextId: int)

  /** What the database reports when an insert is refused. */
  datatype DbError =
    | DataError        // a value is longer than its VARCHAR column
    | IntegrityError   // a UNIQUE constraint would be violated

  /** The row's values fit their column types. */
  predicate ColumnsFit(u: User)
  {
    |u.username| <= UsernameMaxLength && |u.password| <= PasswordHashMaxLength
  }

  predicate EmailTaken(users: seq<User>, email: string)
  {
    exists i :: 0 <= i < |users| && users[i].email == email
  }

  predicate UsernameTaken(users: seq<User>, username: string)
  {
    exists i :: 0 <= i < |users| && users[i].username == username
  }

  /**
   * The table invariant: ids are issued by the sequence and unique, emails and
   * usernames are unique, and every row fits its column types.
   */
  predicate Valid(reg: Registry)
    ensures Valid(reg) ==> forall i, j :: 0 <= i < |reg.users| && 0 <= j < |reg.users| ==>
      (reg.users[i].id == reg.users[j].id || reg.users[i].email == reg.users[j].email
       || reg.users[i].username == reg.users[j].username) ==> i == j
  {
    && (forall i :: 0 <= i < |reg.users| ==> reg.users[i].id < reg.nextId && ColumnsFit(reg.users[i]))
    && (forall i, j :: 0 <= i < j < |reg.users| ==>
          && reg.users[i].id != reg.users[j].id
          && reg.users[i].email != reg.users[j].email
          && reg.users[i].username != reg.users[j].username)
  }

  /** `User.query.get(id)`: the row with primary key `id`, if any. */
  function FindById(users: seq<User>, id: int): (r: Option<User>)
    ensures r.Some? ==> r.value in users && r.value.id == id
    ensures r.None? <==> forall i :: 0 <= i < |users| ==> users[i].id != id
  {
    if users == [] then None
    else if users[0].id == id then Some(users[0])
    else FindById(users[1..], id)
  }

  /** The row whose username is `username`, if any. */
  function FindByUsername(users: seq<User>, username: string): (r: Option<User>)
    ensures r.Some? ==> r.value in users && r.value.username == username
    ensures r.None? <==> !UsernameTaken(users, username)
  {
    if users == [] then None
    else if users[0].username == username then Some(users[0])
    else
      var r := FindByUsername(users[1..], username);
      assert UsernameTaken(users[1..], username) ==> UsernameTaken(users, username) by {
        if UsernameTaken(users[1..], username) {
          var i :| 0 <= i < |users[1..]| && users[1..][i].username == username;
          assert users[i + 1].username == username;
        }
      }
      r
  }

  /** In a valid table the lookup by id finds every stored row. */
  lemma FindByIdFindsStored(reg: Registry, u: User)
    requires Valid(reg)
    requires u in reg.users
    ensures FindById(reg.users, u.id) == Some(u)
  {
  }

  /** In a valid table the lookup by username finds every stored row. */
  lemma FindByUsernameFindsStored(reg: Registry, u: User)
    requires Valid(reg)
    requires u in reg.users
    ensures FindByUsername(reg.users, u.username) == Some(u)
  {
  }

  /**
   * How PostgreSQL stores `s` in a VARCHAR(n) column: unchanged when it fits,
   * cut to n characters when every character past n is a space, and refused
   * (None) otherwise.
   */
  function StoredAs(s: string, n: nat): (r: Option<string>)
    ensures |s| <= n ==> r == Some(s)
    ensures |s| > n ==> (r.Some? <==> forall k :: n <= k < |s| ==> s[k] == ' ')
    ensures r.Some? ==> |r.value| <= n && r.value <= s
    ensures |s| > n && r.Some? ==> r.value == s[..n]
    ensures r.Some? ==> forall k :: |r.value| <= k < |s| ==> s[k] == ' '
  {
    if |s| <= n then Some(s)
    else if forall k :: n <= k < |s| ==> s[k] == ' ' then Some(s[..n])
    else None
  }

  /**
   * Inserting a row (what `User.signup` followed by a commit does): a value
   * that does not fit its VARCHAR column even after cutting trailing spaces is
   * a DataError; a duplicate email or (cut) username is an IntegrityError;
   * otherwise the row, with cut values, is appended under the next id.
   */
  function Insert(reg: Registry, email: string, username: string, password: string): (r: Result<Registry, DbError>)
    ensures r == Failure(DataError) <==>
      StoredAs(username, UsernameMaxLength).None? || StoredAs(password, PasswordHashMaxLength).None?
    ensures r == Failure(IntegrityError) <==>
      && StoredAs(username, UsernameMaxLength).Some? && StoredAs(password, PasswordHashMaxLength).Some?
      && (EmailTaken(reg.users, email) || UsernameTaken(reg.users, StoredAs(username, UsernameMaxLength).value))
    ensures r.Success? ==>
      r.value.users == reg.users + [User(reg.nextId, email, StoredAs(username, UsernameMaxLength).value,
                                         StoredAs(password, PasswordHashMaxLength).value)]
    ensures r.Success? ==> r.value.nextId > reg.nextId
    ensures |username| <= UsernameMaxLength && |password| <= PasswordHashMaxLength
            && !EmailTaken(reg.users, email) && !UsernameTaken(reg.users, username) ==>
      r == Success(Registry(reg.users + [User(reg.nextId, email, username, password)], reg.nextId + 1))
  {
    match (StoredAs(username, UsernameMaxLength), StoredAs(password, PasswordHashMaxLength))
    case (Some(u), Some(p)) =>
      if EmailTaken(reg.users, email) || UsernameTaken(reg.users, u) then Failure(IntegrityError)
      else Success(Registry(reg.users + [User(reg.nextId, email, u, p)], reg.nextId + 1))
    case _ => Failure(DataError)
  }

  /** A successful insert keeps the table invariant and makes the new row findable. */
  lemma InsertPreservesValid(reg: Registry, email: string, username: string, password: string)
    requires Valid(reg)
    requires Insert(reg, email, username, password).Success?
    ensures Valid(Insert(reg, email, username, password).value)
    ensures FindById(Insert(reg, email, username, password).value.users, reg.nextId)
         == Some(User(reg.nextId, email, StoredAs(username, UsernameMaxLength).value,
                      StoredAs(password, PasswordHashMaxLength).value))
  {
    var reg' := Insert(reg, email, username, password).value;
    var name := StoredAs(username, UsernameMaxLength).value;
    var u := User(reg.nextId, email, name, StoredAs(password, PasswordHashMaxLength).value);
    var n := |reg.users|;
    assert reg'.users[n] == u;
    forall i | 0 <= i < n
      ensures reg'.users[i] == reg.users[i]
      ensures reg.users[i].email != email && reg.users[i].username != name
    {
      assert !EmailTaken(reg.users, email);
      assert !UsernameTaken(reg.users, name);
    }
    assert Valid(reg');
    FindByIdFindsStored(reg', u);
  }

  /**
   * A username padded with spaces past the column bound is cut before the
   * uniqueness check, so it collides with the stored name it was cut to.
   */
  lemma PaddedUsernameCollides(reg: Registry, taken: User, email: string, password: string)
    requires taken in reg.users && |taken.username| == UsernameMaxLength
    requires |password| <= PasswordHashMaxLength
    ensures Insert(reg, email, taken.username + " ", password) == Failure(IntegrityError)
  {
    var padded := taken.username + " ";
    assert padded[..UsernameMaxLength] == taken.username;
    var i :| 0 <= i < |reg.users| && reg.users[i] == taken;
    assert UsernameTaken(reg.users, StoredAs(padded, UsernameMaxLength).value);
  }

  /** Login's credential check (`User.login`): the row with that username whose hash matches. */
  function Authenticate(users: seq<User>, username: string, password: string,
                        checkPassword: (string, string) -> bool): (r: Option<User>)
    ensures r.Some? ==> r.value in users && r.value.username == username
                        && checkPassword(r.value.password, password)
  {
    match FindByUsername(users, username)
    case Some(u) => if checkPassword(u.password, password) then Some(u) else None
    case None => None
  }

  /** In a valid table, login succeeds exactly for a stored username with a matching password. */
  lemma AuthenticateIff(reg: Registry, username: string, password: string,
                        checkPassword: (string, string) -> bool)
    requires Valid(reg)
    ensures Authenticate(reg.users, username, password, checkPassword).Some?
        <==> exists i :: 0 <= i < |reg.users| && reg.users[i].username == username
                         && checkPassword(reg.users[i].password, password)
  {
  }

  /** `notes.title` and `notes.designer` are VARCHAR(100). */
  const NoteShortMaxLength := 100
  /** `notes.pattern` and `notes.gauge` are VARCHAR(150). */
  const NoteLongMaxLength := 150
  const DefaultNoteTitle := "New Note"

  /** One row of the `notes` table; `createdAt` is a UTC timestamp. */
  datatype Note = Note(title: string, designer: string, pattern: string, gauge: string, createdAt: int)

  predicate NoteColumnsFit(n: Note)
  {
    && |n.title| <= NoteShortMaxLength && |n.designer| <= NoteShortMaxLength
    && |n.pattern| <= NoteLongMaxLength && |n.gauge| <= NoteLongMaxLength
  }

  /**
   * A new note: every column left unset takes its default, the creation time
   * defaults to the clock reading `now`.
   */
  function NewNote(title: Option<string>, designer: Option<string>, pattern: Option<string>,
                   gauge: Option<string>, now: int): (n: Note)
    ensures title.None? ==> n.title == DefaultNoteTitle
    ensures title.Some? ==> n.title == title.value
    ensures designer.None? ==> n.designer == ""
    ensures designer.Some? ==> n.designer == designer.value
    ensures pattern.None? ==> n.pattern == ""
    ensures pattern.Some? ==> n.pattern == pattern.value
    ensures gauge.None? ==> n.gauge == ""
    ensures gauge.Some? ==> n.gauge == gauge.value
    ensures n.createdAt == now
  {
    Note(
      match title case Some(t) => t case None => DefaultNoteTitle,
      match designer case Some(d) => d case None => "",
      match pattern case Some(p) => p case None => "",
      match gauge case Some(g) => g case None => "",
      now)
  }

  /**
   * Inserting a note: a value that does not fit its VARCHAR column even after
   * cutting trailing spaces is a DataError; otherwise the note, with cut
   * values, is appended to the `notes` table.
   */
  function InsertNote(notes: seq<Note>, n: Note): (r: Result<seq<Note>, DbError>)
    ensures r == Failure(DataError) <==>
      || StoredAs(n.title, NoteShortMaxLength).None? || StoredAs(n.designer, NoteShortMaxLength).None?
      || StoredAs(n.pattern, NoteLongMaxLength).None? || StoredAs(n.gauge, NoteLongMaxLength).None?
    ensures r.Success? ==> r.value == notes + [Note(
      StoredAs(n.title, NoteShortMaxLength).value, StoredAs(n.designer, NoteShortMaxLength).value,
      StoredAs(n.pattern, NoteLongMaxLength).value, StoredAs(n.gauge, NoteLongMaxLength).value, n.createdAt)]
    ensures NoteColumnsFit(n) ==> r == Success(notes + [n])
  {
    match (StoredAs(n.title, NoteShortMaxLength), StoredAs(n.designer, NoteShortMaxLength),
           StoredAs(n.pattern, NoteLongMaxLength), StoredAs(n.gauge, NoteLongMaxLength))
    case (Some(t), Some(d), Some(p), Some(g)) => Success(notes + [Note(t, d, p, g, n.createdAt)])
    case _ => Failure(DataError)
  }

  /** Every note the table accepts fits its columns: a table of fitting notes stays so. */
  lemma InsertNoteKeepsFit(notes: seq<Note>, n: Note)
    requires forall k :: 0 <= k < |notes| ==> NoteColumnsFit(notes[k])
    requires InsertNote(notes, n).Success?
    ensures forall k :: 0 <= k < |InsertNote(notes, n).value| ==> NoteColumnsFit(InsertNote(notes, n).value[k])
  {
  }

  /** A title with a non-space character past position 100 is kept by the defaults but refused by the table. */
  lemma OverlongNoteTitleRefused(title: string, now: int)
    requires exists k :: NoteShortMaxLength <= k < |title| && title[k] != ' '
    ensures InsertNote([], NewNote(Some(title), None, None, None, now)) == Failure(DataError)
  {
  }

  /** A title longer than 100 characters only by trailing spaces is stored cut to 100 characters. */
  lemma SpacePaddedNoteTitleCut(title: string, now: int)
    requires |title| > NoteShortMaxLength
    requires forall k :: NoteShortMaxLength <= k < |title| ==> title[k] == ' '
    ensures InsertNote([], NewNote(Some(title), None, None, None, now))
         == Success([NewNote(Some(title[..NoteShortMaxLength]), None, None, None, now)])
  {
    var n := NewNote(Some(title), None, None, None, now);
    assert StoredAs(n.title, NoteShortMaxLength) == Some(title[..NoteShortMaxLength]);
    assert [] + [NewNote(Some(title[..NoteShortMaxLength]), None, None, None, now)]
        == [NewNote(Some(title[..NoteShortMaxLength]), None, None, None, now)];
  }

  /** The defaults fit their columns, so a note with no values given can always be stored. */
  lemma DefaultNoteFits(now: int)
    ensures NoteColumnsFit(NewNote(None, None, None, None, now))
  {
  }
}
