/** `server/index.js`: registration behind an invitation code and login
    against a bcrypt hash. Registration runs its checks in a fixed order and
    answers each failure with its own status; login answers an unknown user
    and a wrong password identically. bcrypt is outside the model: `hash`
    and `compare` are parameters, and so are the random salt, the
    `Date.now()` id and the clock. */
module AuthServer {
  import opened Common
  import opened Seqs
  import Database

  /** `VALID_INVITE_CODES` */
  const ValidInviteCodes: seq<string> := ["SECRET-CODE-123", "ALPHA-INVITE-789"]

  const MinPasswordLength := 8

  /** `v.length`, for the values that have one. */
  function JsLength(v: Value): Option<int>
  {
    match v
    case Str(s) => Some(|s|)
    case Arr(items) => Some(|items|)
    case Obj(fields) => if "length" in fields && fields["length"].Num? then Some(fields["length"].n) else None
    case _ => None
  }

  /** `password.length < 8`; a missing length compares as false. */
  predicate TooShort(password: Value)
  {
    JsLength(password).Some? && JsLength(password).value < MinPasswordLength
  }

  /** The answers of `POST /api/register`. */
  datatype RegisterResult =
    | Registered        // 201 "User registered successfully!"
    | MissingFields     // 400 "All fields are required."
    | PasswordTooShort  // 400 "Password must be at least 8 characters long."
    | InvalidInvite     // 400 "Invalid invitation code."
    | UsernameTaken     // 409 "An account with this username already exists."
    | ServerError       // 500 "An internal server error occurred."

  function RegisterStatus(r: RegisterResult): int
  {
    match r
    case Registered => 201
    case MissingFields => 400
    case PasswordTooShort => 400
    case InvalidInvite => 400
    case UsernameTaken => 409
    case ServerError => 500
  }

  /** `!username || !password || !inviteCode` fails. */
  predicate AllFieldsGiven(body: Record)
  {
    Truthy(Get(body, "username")) && Truthy(Get(body, "password")) && Truthy(Get(body, "inviteCode"))
  }

  /** `VALID_INVITE_CODES.includes(inviteCode)`: strict equality with one of the codes. */
  predicate InviteAccepted(inviteCode: Value)
  {
    exists c :: c in ValidInviteCodes && inviteCode == Str(c)
  }

  /** The decision of `POST /api/register` on `users`: the required fields,
      then the password length, then the invitation code, then a unique
      username; bcrypt refuses a password that is not a string. Each answer
      is given exactly when every earlier check passed and its own failed. */
  function RegisterOutcome(users: seq<Record>, body: Record): (r: RegisterResult)
    ensures r == MissingFields <==> !AllFieldsGiven(body)
    ensures r == PasswordTooShort <==> AllFieldsGiven(body) && TooShort(Get(body, "password"))
    ensures r == InvalidInvite <==>
              AllFieldsGiven(body) && !TooShort(Get(body, "password")) &&
              forall c :: c in ValidInviteCodes ==> Get(body, "inviteCode") != Str(c)
    ensures r == UsernameTaken <==>
              AllFieldsGiven(body) && !TooShort(Get(body, "password")) &&
              Get(body, "inviteCode") in [Str(ValidInviteCodes[0]), Str(ValidInviteCodes[1])] &&
              Database.FindByKey(users, "username", Get(body, "username")).Some?
    ensures r == ServerError <==>
              AllFieldsGiven(body) && !TooShort(Get(body, "password")) &&
              Get(body, "inviteCode") in [Str(ValidInviteCodes[0]), Str(ValidInviteCodes[1])] &&
              Database.FindByKey(users, "username", Get(body, "username")).None? &&
              !Get(body, "password").Str?
    ensures r == Registered <==>
              Truthy(Get(body, "username")) &&
              Get(body, "password").Str? && |Get(body, "password").s| >= MinPasswordLength &&
              Get(body, "inviteCode") in [Str(ValidInviteCodes[0]), Str(ValidInviteCodes[1])] &&
              Database.FindByKey(users, "username", Get(body, "username")).None?
  {
    var username, password, inviteCode := Get(body, "username"), Get(body, "password"), Get(body, "inviteCode");
    if !AllFieldsGiven(body) then MissingFields
    else if TooShort(password) then PasswordTooShort
    else if !InviteAccepted(inviteCode) then InvalidInvite
    else if Database.FindByKey(users, "username", username).Some? then UsernameTaken
    else if !password.Str? then ServerError
    else Registered
  }

  /** The record a successful registration appends. */
  function NewUser(body: Record, id: string, now: int, salt: string, hash: (string, string) -> string): Record
    requires Get(body, "password").Str?
  {
    map["id" := Str(id), "username" := Get(body, "username"),
        "password" := Str(hash(Get(body, "password").s, salt)), "createdAt" := Num(now)]
  }

  /** `POST /api/register`: exactly one user is appended on success, and
      the user list is unchanged on every failure. */
  method Register(db: Database.Db, body: Record, id: string, now: int, salt: string,
                  hash: (string, string) -> string)
    returns (r: RegisterResult)
    modifies db`users
    ensures r == RegisterOutcome(old(db.users), body)
    ensures r != Registered ==> db.users == old(db.users)
    ensures r == Registered ==> db.users == old(db.users) + [NewUser(body, id, now, salt, hash)]
  {
    r := RegisterOutcome(db.users, body);
    if r == Registered {
      db.users := db.users + [NewUser(body, id, now, salt, hash)];
    }
  }

  /** The answers of `POST /api/login`. */
  datatype LoginResult =
    | LoggedIn(user: Record)  // 200 "Login successful!"
    | LoginMissingFields      // 400 "Username and password are required."
    | InvalidCredentials      // 401 "Invalid credentials."
    | LoginError              // 500 "An internal server error occurred."

  /** `POST /api/login` on `users`: bcrypt compares only strings. A
      successful login returns the stored record without its password. */
  function Login(users: seq<Record>, body: Record, compare: (string, string) -> bool): (r: LoginResult)
    ensures r == LoginMissingFields <==> !(Truthy(Get(body, "username")) && Truthy(Get(body, "password")))
    ensures r.LoggedIn? <==>
              Truthy(Get(body, "username")) && Truthy(Get(body, "password")) &&
              var u := Database.FindByKey(users, "username", Get(body, "username"));
              u.Some? && Get(body, "password").Str? && Get(u.value, "password").Str? &&
              compare(Get(body, "password").s, Get(u.value, "password").s)
    ensures r.LoggedIn? ==>
              var u := Database.FindByKey(users, "username", Get(body, "username"));
              u.Some? && r.user == Without(u.value, "password") && "password" !in r.user
    ensures r == InvalidCredentials <==>
              Truthy(Get(body, "username")) && Truthy(Get(body, "password")) &&
              var u := Database.FindByKey(users, "username", Get(body, "username"));
              (u.None? ||
               (Get(body, "password").Str? && Get(u.value, "password").Str? &&
                !compare(Get(body, "password").s, Get(u.value, "password").s)))
    ensures r == LoginError <==>
              Truthy(Get(body, "username")) && Truthy(Get(body, "password")) &&
              var u := Database.FindByKey(users, "username", Get(body, "username"));
              u.Some? && !(Get(body, "password").Str? && Get(u.value, "password").Str?)
  {
    var username, password := Get(body, "username"), Get(body, "password");
    if !Truthy(username) || !Truthy(password) then LoginMissingFields
    else
      match Database.FindByKey(users, "username", username)
      case None => InvalidCredentials
      case Some(user) =>
        var stored := Get(user, "password");
        if !password.Str? || !stored.Str? then LoginError
        else if !compare(password.s, stored.s) then InvalidCredentials
        else LoggedIn(Without(user, "password"))
  }

  /** An unknown username and a wrong password give the very same answer,
      so a caller cannot tell which usernames exist. */
  lemma UnknownUserLooksLikeWrongPassword(users: seq<Record>, name: Value, p: string, q: string,
                                          compare: (string, string) -> bool)
    requires Truthy(name) && p != ""
    requires Database.FindByKey(users, "username", name).None?
    requires !compare(p, q)
    ensures Login(users, map["username" := name, "password" := Str(p)], compare) ==
            Login(users + [map["username" := name, "password" := Str(q)]],
                  map["username" := name, "password" := Str(p)], compare)
  {
    var stored: Record := map["username" := name, "password" := Str(q)];
    FindAfterAppend(users, stored, name);
  }

  /** A username absent from `users` is found in the appended record. */
  lemma FindAfterAppend(users: seq<Record>, u: Record, name: Value)
    requires Database.FindByKey(users, "username", name).None?
    requires Get(u, "username") == name
    ensures Database.FindByKey(users + [u], "username", name) == Some(u)
  {
    var all := users + [u];
    assert all[|users|] == u;
    assert forall k :: 0 <= k < |users| ==> all[k] == users[k];
  }

  /** Registering and then logging in with the same username and password
      succeeds and returns the new record without its password, provided
      bcrypt accepts a password against its own hash. */
  lemma RegisterThenLogin(users: seq<Record>, body: Record, id: string, now: int, salt: string,
                          hash: (string, string) -> string, compare: (string, string) -> bool)
    requires RegisterOutcome(users, body) == Registered
    requires forall p, s :: compare(p, hash(p, s))
    ensures var u := NewUser(body, id, now, salt, hash);
            Login(users + [u], body, compare) == LoggedIn(Without(u, "password"))
  {
    var u := NewUser(body, id, now, salt, hash);
    FindAfterAppend(users, u, Get(body, "username"));
    assert compare(Get(body, "password").s, hash(Get(body, "password").s, salt));
  }

  /** Usernames stay unique: registration never appends a taken one. */
  lemma RegisterKeepsUsernamesUnique(users: seq<Record>, body: Record, id: string, now: int, salt: string,
                                     hash: (string, string) -> string)
    requires forall i, j :: 0 <= i < j < |users| ==> Get(users[i], "username") != Get(users[j], "username")
    requires RegisterOutcome(users, body) == Registered
    ensures var all := users + [NewUser(body, id, now, salt, hash)];
            forall i, j :: 0 <= i < j < |all| ==> Get(all[i], "username") != Get(all[j], "username")
  {
    var all := users + [NewUser(body, id, now, salt, hash)];
    forall i, j | 0 <= i < j < |all|
      ensures Get(all[i], "username") != Get(all[j], "username")
    {
      if j == |users| {
        assert all[i] == users[i];
      } else {
        assert all[i] == users[i] && all[j] == users[j];
      }
    }
  }
}
