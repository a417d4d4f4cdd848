/** NoteResource and UserResource of api/endpoints.py: the note listing, note creation
    behind the bearer-token gate, and registration ("create the user, then log in with it"). */
module Endpoints {
  import opened Wrappers
  import opened Http
  import opened Exceptions
  import opened BaseModels
  import opened Models
  import opened Schemas
  import opened JwtAuth
  import opened AuthSerializers
  import opened HeaderPattern

  /** The two loadable fields of NoteSerializer and of UserSerializer. */
  const NoteFieldNames: set<string> := {"name", "text"}
  const UserFieldNames: set<string> := {"username", "password"}

  /** The body of the duplicate-username answer. */
  const UserExistsBody: Json := JObj(map["detail" := JList([JStr("User already exists.")])])

  /** What a request to an endpoint ends in: a response, or an exception that escapes the
      route. */
  datatype Reply = Respond(response: Response) | Crash(fault: Fault)
  {
    /** What the client receives. bottle's catch-all turns an escaped exception into its
        500 error, which the installed handler answers; `traceback` is the formatted
        traceback bottle attaches to it. */
    function Sent(traceback: string): (r: Response)
      ensures Respond? ==> r == response
      ensures Crash? ==> r == Response(500, InternalErrorBody, JsonContentType)
    {
      match this
      case Respond(response) => response
      case Crash(fault) =>
        InternalErrorAnswer(FaultException(fault), traceback);
        HandleHttpErrorsDefault(InternalServerError(FaultException(fault), traceback))
    }
  }

  /** The exception behind each crash: `int()` of a missing `exp` raises TypeError, and
      reading `.available` on None raises AttributeError. */
  function FaultException(fault: Fault): string {
    match fault
    case ExpNotAnInteger => "TypeError"
    case NoneHasNoAvailable => "AttributeError"
  }

  /** NoteSerializer's dump of one note. */
  function NoteJson(note: NoteRow): (r: Json)
    ensures r.JObj? && r.fields.Keys == NoteFieldNames + {"id", "creation_date"}
    ensures r.fields["name"] == JStr(note.fields.name) && r.fields["text"] == JStr(note.fields.text)
    ensures r.fields["id"] == JInt(note.id) && r.fields["creation_date"] == JInt(note.created)
  {
    JObj(map["id" := JInt(note.id), "name" := JStr(note.fields.name), "text" := JStr(note.fields.text),
             "creation_date" := JInt(note.created)])
  }

  /** Loading a dumped note gives back its name and text: the dump-only fields are excluded. */
  lemma NoteDumpLoads(note: NoteRow)
    ensures LoadStrings(NoteJson(note), NoteFieldNames) == Success(map["name" := note.fields.name, "text" := note.fields.text])
  {
    var r := LoadStrings(NoteJson(note), NoteFieldNames);
    var expected := map["name" := note.fields.name, "text" := note.fields.text];
    assert r.Success?;
    assert r.value.Keys == expected.Keys;
    assert r.value["name"] == note.fields.name by { assert NoteJson(note).fields["name"] == JStr(r.value["name"]); }
    assert r.value["text"] == note.fields.text by { assert NoteJson(note).fields["text"] == JStr(r.value["text"]); }
    assert r.value == expected;
  }

  /** The dump with many=True: one object per note, in order. */
  function NotesJson(notes: seq<NoteRow>): (r: Json)
    ensures r.JList? && |r.items| == |notes|
    ensures forall i :: 0 <= i < |notes| ==> r.items[i] == NoteJson(notes[i])
  {
    JList(seq(|notes|, i requires 0 <= i < |notes| => NoteJson(notes[i])))
  }

  /** list_notes: the user's notes when there is a user, every available note otherwise;
      an empty query gives the empty list. */
  function ListNotes(notes: seq<NoteRow>, user: Option<UserRow>): (r: seq<NoteRow>)
    ensures user.Some? ==> forall n :: n in r <==> n in notes && n.available && n.fields.owner == user.value.id
    ensures user.None? ==> forall n :: n in r <==> n in notes && n.available
  {
    var query := if user.Some? then GetUserNotes(notes, user.value.id) else SelectAvailable(notes);
    if |query| > 0 then query else []
  }

  /** What the gate answers in place of the wrapped function: the raised 401 error, which
      bottle sends as it is, or the crash. */
  function Refusal(headers: map<string, string>, codec: Codec, now: int, users: seq<UserRow>): (r: Reply)
    requires !GateResult(headers, codec, now, users).Authenticated?
    ensures GateResult(headers, codec, now, users).Rejected? ==>
              r == Respond(Response(401, NotProvidedBody, JsonContentType))
    ensures GateResult(headers, codec, now, users).Crashed? ==>
              r == Crash(GateResult(headers, codec, now, users).fault)
  {
    match GateResult(headers, codec, now, users)
    case Rejected(e) =>
      GateRejectionIsJwtError(headers, codec, now, users);
      Respond(e.AsResponse())
    case Crashed(f) => Crash(f)
  }

  /** The reply of GET /notes for a request with these headers. */
  function NotesReply(headers: map<string, string>, codec: Codec, now: int, users: seq<UserRow>,
                      notes: seq<NoteRow>): (r: Reply)
    ensures GateResult(headers, codec, now, users).Authenticated? ==>
              r == Respond(Ok(Doc(NotesJson(ListNotes(notes, Some(GateResult(headers, codec, now, users).user))))))
    ensures GateResult(headers, codec, now, users).Rejected? ==>
              r == Respond(Response(401, NotProvidedBody, JsonContentType))
    ensures GateResult(headers, codec, now, users).Crashed? ==> r.Crash?
  {
    match GateResult(headers, codec, now, users)
    case Authenticated(user) => Respond(Ok(Doc(NotesJson(ListNotes(notes, Some(user))))))
    case _ => Refusal(headers, codec, now, users)
  }

  /** get_notes_resource behind jwt_auth_required: the gate, then the listing of the
      notes of the user the gate put on the request. */
  method GetNotesResource(request: Request, db: Database, codec: Codec, now: int) returns (reply: Reply)
    modifies request`user
    ensures reply == NotesReply(request.headers, codec, now, db.users, db.notes)
    ensures var g := GateResult(request.headers, codec, now, db.users);
            request.user == if g.Authenticated? then Some(g.user) else old(request.user)
  {
    var g := RunGate(request, db, codec, now, true);
    if !g.Authenticated? {
      return Refusal(request.headers, codec, now, db.users);
    }
    var user := request.user;
    var noteList := ListNotes(db.notes, user);
    reply := Respond(Ok(Doc(NotesJson(noteList))));
  }

  /** create_notes_resource behind jwt_auth_required: the gate; then the body is loaded,
      the note is created for the request's user and dumped. A load failure answers 400
      with the validation messages and creates nothing. */
  method CreateNotesResource(request: Request, db: Database, codec: Codec, now: int, body: Json)
    returns (reply: Reply)
    requires db.Valid()
    modifies request`user, db
    ensures db.Valid()
    ensures db.users == old(db.users) && db.nextUserId == old(db.nextUserId)
    ensures var g := GateResult(request.headers, codec, now, old(db.users));
            request.user == if g.Authenticated? then Some(g.user) else old(request.user)
    ensures var g := GateResult(request.headers, codec, now, old(db.users));
            !g.Authenticated? ==>
              reply == Refusal(request.headers, codec, now, old(db.users))
              && db.notes == old(db.notes) && db.nextNoteId == old(db.nextNoteId)
    ensures var g := GateResult(request.headers, codec, now, old(db.users));
            var loaded := LoadStrings(body, NoteFieldNames);
            g.Authenticated? && loaded.Failure? ==>
              reply == Respond(BadRequestWith(loaded.error).AsResponse())
              && db.notes == old(db.notes) && db.nextNoteId == old(db.nextNoteId)
    ensures var g := GateResult(request.headers, codec, now, old(db.users));
            var loaded := LoadStrings(body, NoteFieldNames);
            g.Authenticated? && loaded.Success? ==>
              var note := NewRow(old(db.nextNoteId), now, NoteFields(loaded.value["name"], loaded.value["text"], g.user.id));
              db.notes == old(db.notes) + [note] && reply == Respond(Ok(Doc(NoteJson(note))))
  {
    var g := RunGate(request, db, codec, now, true);
    if !g.Authenticated? {
      return Refusal(request.headers, codec, now, db.users);
    }
    var loaded := LoadStrings(body, NoteFieldNames);
    if loaded.Failure? {
      return Respond(BadRequestWith(loaded.error).AsResponse());
    }
    var user := request.user.value;
    var note := CreateNote(db, loaded.value["name"], loaded.value["text"], user.id, now);
    reply := Respond(Ok(Doc(NoteJson(note))));
  }

  /** The stored row of a user registered with these credentials. */
  function RegisteredRow(id: nat, username: string, password: string, now: int, salt: nat): (r: UserRow)
    ensures r.available && r.fields.username == username
    ensures PasswordMatches(r.fields.password, password)
  {
    NewRow(id, now, UserFields(username, Bcrypt.HashPw(Bcrypt.Text(password), Settings.BcryptRounds, salt)))
  }

  /** create_users_resource: load the body, create the user, then log in with the new
      user in the login context. `salt` stands for the random salt of the hash. */
  method CreateUsersResource(db: Database, body: Json, codec: Codec, now: int, salt: nat)
    returns (response: Response)
    requires db.Valid()
    modifies db
    ensures db.Valid()
    ensures db.notes == old(db.notes) && db.nextNoteId == old(db.nextNoteId)
    ensures var loaded := LoadStrings(body, UserFieldNames);
            loaded.Failure? ==> response == BadRequestWith(loaded.error).AsResponse() && db.users == old(db.users)
    ensures var loaded := LoadStrings(body, UserFieldNames);
            loaded.Success? && HasUsername(old(db.users), loaded.value["username"]) ==>
              response == BadRequestWith(UserExistsBody).AsResponse() && db.users == old(db.users)
    ensures var loaded := LoadStrings(body, UserFieldNames);
            loaded.Success? && !HasUsername(old(db.users), loaded.value["username"]) ==>
              var row := RegisteredRow(old(db.nextUserId), loaded.value["username"], loaded.value["password"], now, salt);
              db.users == old(db.users) + [row]
              && GetUser(db.users, row.fields.username) == Some(row)
              && response == if row.fields.username == "" then BadRequestRaised().AsResponse()
                             else Created(Doc(AccessTokenBody(codec.encode(CreateUserJwtClaim(row.fields, now).value))))
  {
    var loaded := LoadStrings(body, UserFieldNames);
    if loaded.Failure? {
      return BadRequestWith(loaded.error).AsResponse();
    }
    var result := loaded.value;
    var user, created := CreateUser(db, result["username"], result["password"], now, salt);
    if created.Fail? {
      return BadRequestWith(UserExistsBody).AsResponse();
    }
    GetUserFindsAvailable(db.users, user.AsRow());
    ReloadIsIdentity(result, LoginFields);
    var login := Load(StringsToJson(result), Some(user.Fields()), db.users, codec, now);
    match login
    case Success(data) =>
      response := Created(Doc(data));
    case Failure(Invalid(messages)) =>
      response := BadRequestWith(messages).AsResponse();
    case Failure(Raised(e)) =>
      response := e.AsResponse();
  }

  // ---------------------------------------------------------------------------------
  // Properties of the endpoints.

  /** list_notes answers the plain query: the empty-query branch changes nothing. */
  lemma ListNotesIsQuery(notes: seq<NoteRow>, user: Option<UserRow>)
    ensures user.Some? ==> ListNotes(notes, user) == GetUserNotes(notes, user.value.id)
    ensures user.None? ==> ListNotes(notes, user) == SelectAvailable(notes)
  {
  }

  /** GET /notes answers 200 exactly when the gate lets the request through. */
  lemma NotesOkIffAuthenticated(headers: map<string, string>, codec: Codec, now: int, users: seq<UserRow>,
                                notes: seq<NoteRow>)
    ensures NotesReply(headers, codec, now, users, notes).Respond?
            && NotesReply(headers, codec, now, users, notes).response.status == 200
            <==> GateResult(headers, codec, now, users).Authenticated?
  {
  }

  /** Without an Authorization header both note endpoints answer 401. */
  lemma NoHeaderNoNotes(codec: Codec, now: int, users: seq<UserRow>, notes: seq<NoteRow>)
    ensures NotesReply(map[], codec, now, users, notes) == Respond(Response(401, NotProvidedBody, JsonContentType))
    ensures Refusal(map[], codec, now, users) == Respond(Response(401, NotProvidedBody, JsonContentType))
  {
    MissingHeaderRejected(map[], codec, now, users);
  }

  /** A listed note never belongs to another user and is never soft-deleted. */
  lemma ListedNotesAreOwnAndAvailable(headers: map<string, string>, codec: Codec, now: int,
                                      users: seq<UserRow>, notes: seq<NoteRow>, i: nat)
    requires GateResult(headers, codec, now, users).Authenticated?
    requires i < |ListNotes(notes, Some(GateResult(headers, codec, now, users).user))|
    ensures var n := ListNotes(notes, Some(GateResult(headers, codec, now, users).user))[i];
            n in notes && n.available && n.fields.owner == GateResult(headers, codec, now, users).user.id
  {
    var listed := ListNotes(notes, Some(GateResult(headers, codec, now, users).user));
    assert listed[i] in listed;
  }

  /** As written, a user disabled while holding a live token gets 500
      `{"detail": "Internal Server Error"}` from GET /notes, not the 401. */
  lemma DisabledUserGets500(codec: Codec, users: seq<UserRow>, i: nat, issuedAt: int, now: int,
                            notes: seq<NoteRow>, traceback: string)
    requires RoundTrips(codec) && UniqueUsernames(users)
    requires i < |users| && users[i].fields.username != ""
    requires issuedAt <= now < issuedAt + Settings.TokenLifetime
    requires HeaderMatches(Settings.AuthHeaderType + " " + GenerateJwtoken(codec, users[i].fields, issuedAt).value)
    ensures var headers := BearerHeaders(GenerateJwtoken(codec, users[i].fields, issuedAt).value);
            var reply := NotesReply(headers, codec, now, users[i := users[i].(available := false)], notes);
            reply.Crash? && reply.Sent(traceback) == Response(500, InternalErrorBody, JsonContentType)
  {
    DisabledUserCrashesGate(codec, users, i, issuedAt, now);
  }

  /** A registered user's password is accepted by a later login from the store. */
  lemma RegisteredUserCanLogIn(users: seq<UserRow>, id: nat, username: string, password: string,
                               now: int, salt: nat, codec: Codec, later: int)
    requires UniqueUsernames(users + [RegisteredRow(id, username, password, now, salt)])
    requires username != ""
    ensures var row := RegisteredRow(id, username, password, now, salt);
            Authenticate(username, password, None, users + [row], codec, later)
            == Success(AccessTokenBody(codec.encode(CreateUserJwtClaim(row.fields, later).value)))
  {
    var row := RegisteredRow(id, username, password, now, salt);
    GetUserFindsAvailable(users + [row], row);
  }
}
