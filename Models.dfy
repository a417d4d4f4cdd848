/** The User and Note models of api/models.py over an in-memory database. */
module Models {
  import opened Wrappers
  import opened BaseModels
  import opened Bcrypt
  import Settings

  /** The columns User adds to BaseModel: a unique username and the password column. */
  datatype UserFields = UserFields(username: string, password: Secret)

  /** The columns Note adds: name, text and the id of the owning user. */
  datatype NoteFields = NoteFields(name: string, text: string, owner: nat)

  type UserRow = Row<UserFields>
  type NoteRow = Row<NoteFields>

  /** peewee's IntegrityError for `UNIQUE constraint failed: user.username`. */
  datatype IntegrityError = UniqueUsername

  /** Some stored user, available or not, has this username. */
  predicate HasUsername(users: seq<UserRow>, name: string) {
    exists i | 0 <= i < |users| :: users[i].fields.username == name
  }

  /** Some stored user other than the one with id `id` has this username. */
  predicate UsernameHeldElsewhere(users: seq<UserRow>, id: nat, name: string) {
    exists i | 0 <= i < |users| :: users[i].id != id && users[i].fields.username == name
  }

  /** The UNIQUE constraint on User.username, over all rows. */
  ghost predicate UniqueUsernames(users: seq<UserRow>) {
    forall i, j ::
      (0 <= i < |users| && 0 <= j < |users| && users[i].fields.username == users[j].fields.username) ==> i == j
  }

  /** Auto-increment ids: positive, below the next id, strictly increasing in table order. */
  ghost predicate IdsIncreasing<T>(table: seq<Row<T>>, next: nat) {
    && 0 < next
    && (forall i :: 0 <= i < |table| ==> 0 < table[i].id < next)
    && (forall i, j :: 0 <= i < j < |table| ==> table[i].id < table[j].id)
  }

  /** The table with every row whose id is `id` replaced by `row` (an UPDATE ... WHERE id = ?). */
  function ReplaceRow<T>(table: seq<Row<T>>, id: nat, row: Row<T>): (r: seq<Row<T>>)
    ensures |r| == |table|
    ensures forall i :: 0 <= i < |table| ==> r[i] == if table[i].id == id then row else table[i]
  {
    seq(|table|, i requires 0 <= i < |table| => if table[i].id == id then row else table[i])
  }

  /** User.check_password over a stored password: false, not an error, on a malformed hash. */
  function PasswordMatches(stored: Secret, raw: string): (ok: bool)
    ensures ok <==> stored.Digest? && stored.of == Text(raw)
    ensures stored.Text? ==> !ok
  {
    match CheckPw(raw, stored)
    case Failure(_) => false
    case Success(matches) => matches
  }

  /** The first row of `rows` with this username (`.where(username == name).get()`). */
  function FirstNamed(rows: seq<UserRow>, name: string): (r: Option<UserRow>)
    ensures r.Some? ==> r.value in rows && r.value.fields.username == name
    ensures r.None? <==> forall x :: x in rows ==> x.fields.username != name
  {
    if rows == [] then None
    else if rows[0].fields.username == name then Some(rows[0])
    else FirstNamed(rows[1..], name)
  }

  /** User.get_user: the available user with this username, or None (DoesNotExist). */
  function GetUser(users: seq<UserRow>, username: string): (r: Option<UserRow>)
    ensures r.Some? ==> r.value in users && r.value.available && r.value.fields.username == username
    ensures r.None? <==> forall x :: x in users && x.available ==> x.fields.username != username
  {
    FirstNamed(SelectAvailable(users), username)
  }

  /** The rows of `rows` owned by the user with id `userId`, in order. */
  function OwnedBy(rows: seq<NoteRow>, userId: nat): (r: seq<NoteRow>)
    ensures forall n :: n in r <==> n in rows && n.fields.owner == userId
  {
    if rows == [] then []
    else (if rows[0].fields.owner == userId then [rows[0]] else []) + OwnedBy(rows[1..], userId)
  }

  /** Note.get_user_notes: the available notes whose owner is the user. */
  function GetUserNotes(notes: seq<NoteRow>, userId: nat): (r: seq<NoteRow>)
    ensures forall n :: n in r <==> n in notes && n.available && n.fields.owner == userId
  {
    OwnedBy(SelectAvailable(notes), userId)
  }

  /** With unique usernames, get_user finds exactly the available user of that name. */
  lemma GetUserFindsAvailable(users: seq<UserRow>, u: UserRow)
    requires UniqueUsernames(users)
    requires u in users && u.available
    ensures GetUser(users, u.fields.username) == Some(u)
  {
    var r := GetUser(users, u.fields.username);
    assert r.Some?;
    var i :| 0 <= i < |users| && users[i] == u;
    var j :| 0 <= j < |users| && users[j] == r.value;
  }

  /** A user whose row has been disabled is no longer found by get_user. */
  lemma DisabledUserNotFound(users: seq<UserRow>, i: nat)
    requires UniqueUsernames(users)
    requires i < |users|
    ensures GetUser(users[i := users[i].(available := false)], users[i].fields.username) == None
  {
    var after := users[i := users[i].(available := false)];
    var name := users[i].fields.username;
    forall x | x in after && x.available
      ensures x.fields.username != name
    {
      var j :| 0 <= j < |after| && after[j] == x;
    }
  }

  /** The in-memory database that stands for the SQLite file: the user and note tables and
      their auto-increment counters. */
  class Database {
    var users: seq<UserRow>
    var notes: seq<NoteRow>
    var nextUserId: nat
    var nextNoteId: nat

    ghost predicate Valid()
      reads this
    {
      && IdsIncreasing(users, nextUserId)
      && IdsIncreasing(notes, nextNoteId)
      && UniqueUsernames(users)
    }

    /** The empty tables created by create_tables. */
    constructor ()
      ensures Valid() && users == [] && notes == []
    {
      users, notes := [], [];
      nextUserId, nextNoteId := 1, 1;
    }

    /** INSERT into the user table, refused when the username is taken. */
    method InsertUser(fields: UserFields, available: bool, created: int) returns (r: Result<nat, IntegrityError>)
      requires Valid()
      modifies this
      ensures Valid()
      ensures r.Failure? <==> HasUsername(old(users), fields.username)
      ensures r.Success? ==>
                (r.value == old(nextUserId)
                 && users == old(users) + [Row(r.value, available, created, fields)]
                 && nextUserId == old(nextUserId) + 1)
      ensures r.Failure? ==> users == old(users) && nextUserId == old(nextUserId)
      ensures notes == old(notes) && nextNoteId == old(nextNoteId)
    {
      if HasUsername(users, fields.username) {
        r := Failure(UniqueUsername);
      } else {
        var row := Row(nextUserId, available, created, fields);
        users := users + [row];
        r := Success(nextUserId);
        nextUserId := nextUserId + 1;
      }
    }

    /** UPDATE of the user row with this id, refused when another row holds the username. */
    method UpdateUser(id: nat, fields: UserFields, available: bool, created: int) returns (r: Outcome<IntegrityError>)
      requires Valid()
      modifies this
      ensures Valid()
      ensures r.Fail? <==> UsernameHeldElsewhere(old(users), id, fields.username)
      ensures r.Pass? ==> users == ReplaceRow(old(users), id, Row(id, available, created, fields))
      ensures r.Fail? ==> users == old(users)
      ensures nextUserId == old(nextUserId) && notes == old(notes) && nextNoteId == old(nextNoteId)
    {
      if UsernameHeldElsewhere(users, id, fields.username) {
        r := Fail(UniqueUsername);
      } else {
        var before := users;
        users := ReplaceRow(users, id, Row(id, available, created, fields));
        r := Pass;
      }
    }

    /** INSERT into the note table (SQLite does not enforce the foreign key by default). */
    method InsertNote(fields: NoteFields, created: int) returns (row: NoteRow)
      requires Valid()
      modifies this
      ensures Valid()
      ensures row == NewRow(old(nextNoteId), created, fields)
      ensures notes == old(notes) + [row] && nextNoteId == old(nextNoteId) + 1
      ensures users == old(users) && nextUserId == old(nextUserId)
    {
      row := NewRow(nextNoteId, created, fields);
      notes := notes + [row];
      nextNoteId := nextNoteId + 1;
    }
  }

  /** A User model instance. `pk` is None until the row is first inserted. */
  class User {
    var pk: Option<nat>
    var username: string
    var password: Secret
    var available: bool
    var created: int

    /** User(username=..., password=...): the BaseModel defaults make it available. */
    constructor (username: string, password: Secret, now: int)
      ensures pk == None && this.username == username && this.password == password
      ensures available && created == now
    {
      pk := None;
      this.username := username;
      this.password := password;
      available := true;
      created := now;
    }

    function Fields(): UserFields
      reads this
    {
      UserFields(username, password)
    }

    /** The row this instance would be stored as. */
    function AsRow(): UserRow
      reads this
      requires pk.Some?
    {
      Row(pk.value, available, created, Fields())
    }

    /** `not self._pk`: no primary key yet (or the falsy key 0). */
    predicate IsNew()
      reads this
    {
      pk.None? || pk.value == 0
    }

    /** set_password: the password column becomes the digest of `raw` at 12 rounds. */
    method SetPassword(raw: Secret, salt: nat)
      modifies this`password
      ensures password == HashPw(raw, Settings.BcryptRounds, salt)
      ensures raw.Text? ==> CheckPassword(raw.s)
    {
      password := HashPw(raw, Settings.BcryptRounds, salt);
    }

    /** check_password: true exactly when the stored column is the digest of `raw`. */
    function CheckPassword(raw: string): (ok: bool)
      reads this
      ensures ok <==> password.Digest? && password.of == Text(raw)
    {
      PasswordMatches(password, raw)
    }

    /** save: hashes the password only while there is no primary key, then inserts
        (no key) or updates (a key). */
    method Save(db: Database, salt: nat) returns (r: Outcome<IntegrityError>)
      requires db.Valid()
      modifies this, db
      ensures db.Valid()
      ensures old(IsNew()) ==> password == HashPw(old(password), Settings.BcryptRounds, salt)
      ensures !old(IsNew()) ==> password == old(password)
      ensures username == old(username) && available == old(available) && created == old(created)
      ensures db.notes == old(db.notes) && db.nextNoteId == old(db.nextNoteId)
      ensures old(pk).None? ==> (r.Pass? <==> !HasUsername(old(db.users), username))
      ensures old(pk).None? && r.Pass? ==>
                pk == Some(old(db.nextUserId)) && db.users == old(db.users) + [AsRow()]
      ensures old(pk).Some? ==>
                (pk == old(pk) && (r.Pass? <==> !UsernameHeldElsewhere(old(db.users), old(pk).value, username)))
      ensures old(pk).Some? && r.Pass? ==> db.users == ReplaceRow(old(db.users), pk.value, AsRow())
      ensures r.Fail? ==> pk == old(pk) && db.users == old(db.users)
    {
      if IsNew() {
        SetPassword(password, salt);
      }
      if pk.Some? {
        r := db.UpdateUser(pk.value, Fields(), available, created);
      } else {
        var inserted := db.InsertUser(Fields(), available, created);
        if inserted.Success? {
          pk := Some(inserted.value);
          r := Pass;
        } else {
          r := Fail(inserted.error);
        }
      }
    }
  }

  /** User.create(username=..., password=...): a new instance, saved at once. */
  method CreateUser(db: Database, username: string, password: string, now: int, salt: nat)
    returns (user: User, r: Outcome<IntegrityError>)
    requires db.Valid()
    modifies db
    ensures fresh(user) && db.Valid()
    ensures user.username == username && user.available && user.created == now
    ensures user.password == HashPw(Text(password), Settings.BcryptRounds, salt)
    ensures r.Pass? <==> !HasUsername(old(db.users), username)
    ensures r.Pass? ==> user.pk == Some(old(db.nextUserId)) && db.users == old(db.users) + [user.AsRow()]
    ensures r.Fail? ==> user.pk == None && db.users == old(db.users)
    ensures db.notes == old(db.notes) && db.nextNoteId == old(db.nextNoteId)
  {
    user := new User(username, Text(password), now);
    r := user.Save(db, salt);
  }

  /** Note.create(name=..., text=..., user=...). */
  method CreateNote(db: Database, name: string, text: string, owner: nat, now: int) returns (note: NoteRow)
    requires db.Valid()
    modifies db
    ensures db.Valid()
    ensures note.available && note.fields == NoteFields(name, text, owner) && note.created == now
    ensures db.notes == old(db.notes) + [note] && note.id == old(db.nextNoteId)
    ensures db.users == old(db.users) && db.nextUserId == old(db.nextUserId)
  {
    note := db.InsertNote(NoteFields(name, text, owner), now);
  }
}
