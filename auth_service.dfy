/** Registration and login (backend/src/modules/auth/auth.service.js) over
    the users table. Hashing, comparing and signing are parameters; the
    transaction is a snapshot of the table that ROLLBACK restores. */
module AuthService {
  import opened Js
  import opened Strings
  import opened Jwt
  import opened ErrorMiddleware

  /** A row of the users table. */
  datatype UserRow = UserRow(id: int, name: string, email: string, passwordHash: string, createdAt: int)

  /** What `register` returns: the row without its password hash. */
  datatype PublicUser = PublicUser(id: int, name: string, email: string, createdAt: int)

  /** The user `login` returns. */
  datatype LoginUser = LoginUser(id: int, name: string, email: string)

  datatype LoginResult = LoginResult(token: string, user: LoginUser)

  /** The request body; a field is None when it is missing. */
  datatype RegisterInput = RegisterInput(name: Option<string>, email: Option<string>, password: Option<string>)

  const EmailExists := Fail(409, "EMAIL_EXISTS", "Email already registered")
  const RegistrationFailed := Fail(500, "INTERNAL_ERROR", "Registration failed")
  const InvalidCredentials := Fail(401, "INVALID_CREDENTIALS", "Invalid email or password")

  /** Errors raised inside `register` that carry no status: a failed hash,
      `trim`/`toLowerCase` on a missing field (a TypeError), and the
      database's unique violation on `users.email`. Their messages play no
      part, since each is replaced by RegistrationFailed. */
  const HashFailed := Thrown(None, None, None)
  const MissingField := Thrown(None, None, None)
  const UniqueViolation := Thrown(None, Some("23505"), None)

  /** The TypeError `email.toLowerCase()` raises in `login` when the email
      is undefined: no status, no code, and V8's message, which nothing
      replaces on the way to the client. */
  const LowerOfUndefined := PlainError("Cannot read properties of undefined (reading 'toLowerCase')")

  /** `SELECT ... FROM users WHERE email = $1`: a NULL parameter matches no row. */
  predicate EmailStored(users: seq<UserRow>, email: Option<string>)
  {
    email.Some? && exists i :: 0 <= i < |users| && users[i].email == email.value
  }

  /** The UNIQUE constraint on `users.email`. */
  ghost predicate UniqueEmails(users: seq<UserRow>)
  {
    forall i, j :: 0 <= i < j < |users| ==> users[i].email != users[j].email
  }

  /** Every stored email is in lower case, as `register` stores it. */
  ghost predicate LowerCaseEmails(users: seq<UserRow>)
  {
    forall i :: 0 <= i < |users| ==> Lower(users[i].email) == users[i].email
  }

  /** `throw err.status ? err : {500, INTERNAL_ERROR, "Registration failed"}`. */
  function RegisterError(err: Thrown): (r: Thrown)
    ensures TruthyInt(err.status) ==> r == err
    ensures !TruthyInt(err.status) ==> r == RegistrationFailed
    ensures r.status.Some? && r.status.value != 0
  {
    if TruthyInt(err.status) then err else RegistrationFailed
  }

  function NewRow(id: int, name: string, email: string, hash: string, now: int): UserRow
  {
    UserRow(id, Trim(name), Lower(email), hash, now)
  }

  function Public(row: UserRow): PublicUser
  {
    PublicUser(row.id, row.name, row.email, row.createdAt)
  }

  /** The users table, the next value of its id sequence and the result
      after one `register`. */
  datatype RegisterOutcome = RegisterOutcome(users: seq<UserRow>, nextId: int, result: Result<PublicUser>)

  /** One `register` call whose existence check looks up `checkKey`. The
      steps are: the check (409 on a hit), the hash, the INSERT of the
      trimmed name and lower-cased email (which draws an id, and fails on a
      duplicate email), then COMMIT; any failure rolls the table back and is
      mapped by RegisterError. */
  function RegisterWith(users: seq<UserRow>, nextId: int, input: RegisterInput,
                        hash: Option<string> -> Option<string>, now: int,
                        checkKey: Option<string>): (o: RegisterOutcome)
    ensures o.result.Err? ==> o.users == users
    ensures o.result.Err? ==> o.result.error == EmailExists || o.result.error == RegistrationFailed
    ensures EmailStored(users, checkKey) ==> o == RegisterOutcome(users, nextId, Err(EmailExists))
    ensures o.result.Ok? <==>
      !EmailStored(users, checkKey) && hash(input.password).Some? && input.name.Some? && input.email.Some?
      && !EmailStored(users, Some(Lower(input.email.value)))
    ensures o.result.Ok? ==>
      var row := NewRow(nextId, input.name.value, input.email.value, hash(input.password).value, now);
      o.users == users + [row] && o.result.value == Public(row)
    ensures o.nextId == nextId +
      (if !EmailStored(users, checkKey) && hash(input.password).Some? && input.name.Some? && input.email.Some? then 1 else 0)
  {
    if EmailStored(users, checkKey) then RegisterOutcome(users, nextId, Err(RegisterError(EmailExists)))
    else match hash(input.password)
      case None => RegisterOutcome(users, nextId, Err(RegisterError(HashFailed)))
      case Some(h) =>
        if input.name.None? || input.email.None? then RegisterOutcome(users, nextId, Err(RegisterError(MissingField)))
        else
          var row := NewRow(nextId, input.name.value, input.email.value, h, now);
          if EmailStored(users, Some(row.email)) then RegisterOutcome(users, nextId + 1, Err(RegisterError(UniqueViolation)))
          else RegisterOutcome(users + [row], nextId + 1, Ok(Public(row)))
  }

  /** `register` as written: the existence check uses the email exactly as
      passed, while the row stores it lower-cased. */
  function RegisterAsWritten(users: seq<UserRow>, nextId: int, input: RegisterInput,
                             hash: Option<string> -> Option<string>, now: int): (o: RegisterOutcome)
    ensures o.result == Err(EmailExists) <==> EmailStored(users, input.email)
  {
    RegisterWith(users, nextId, input, hash, now, input.email)
  }

  /** `register` with the existence check on the lower-cased email, the key
      the row is stored under. */
  function RegisterNormalized(users: seq<UserRow>, nextId: int, input: RegisterInput,
                              hash: Option<string> -> Option<string>, now: int): (o: RegisterOutcome)
    ensures o.result == Err(EmailExists) <==>
      input.email.Some? && EmailStored(users, Some(Lower(input.email.value)))
  {
    RegisterWith(users, nextId, input, hash, now, if input.email.Some? then Some(Lower(input.email.value)) else None)
  }

  function AnyHash(password: Option<string>): Option<string> { Some("$2b$12$hash") }

  /** A registered "a@x.com" and a new registration of "A@x.com": the
      check misses, the INSERT violates the unique email, and the caller
      sees a 500 instead of EMAIL_EXISTS. */
  lemma CaseVariantEmailIsInternalError()
    ensures var users := [UserRow(1, "Ann", "a@x.com", "$2b$12$hash", 0)];
            var input := RegisterInput(Some("Bob"), Some("A@x.com"), Some("Secret123"));
            RegisterAsWritten(users, 2, input, AnyHash, 5) == RegisterOutcome(users, 3, Err(RegistrationFailed))
  {
    var users := [UserRow(1, "Ann", "a@x.com", "$2b$12$hash", 0)];
    var input := RegisterInput(Some("Bob"), Some("A@x.com"), Some("Secret123"));
    assert Lower("A@x.com") == "a@x.com";
    assert !EmailStored(users, input.email) by {
      assert users[0].email != "A@x.com";
    }
    assert NewRow(2, "Bob", "A@x.com", "$2b$12$hash", 5).email == users[0].email;
  }

  /** With the normalized check, a duplicate email in any letter case is
      reported as EMAIL_EXISTS, and a 500 comes only from a failed hash or
      a missing field. */
  lemma NormalizedReportsDuplicates(users: seq<UserRow>, nextId: int, input: RegisterInput,
                                    hash: Option<string> -> Option<string>, now: int)
    requires LowerCaseEmails(users)
    ensures var o := RegisterNormalized(users, nextId, input, hash, now);
      (o.result == Err(EmailExists) <==>
         exists i :: 0 <= i < |users| && input.email.Some? && Lower(users[i].email) == Lower(input.email.value))
      && (o.result == Err(RegistrationFailed) ==> hash(input.password).None? || input.name.None? || input.email.None?)
  {
    if input.email.Some? {
      var key := Lower(input.email.value);
      forall i | 0 <= i < |users|
        ensures Lower(users[i].email) == key <==> users[i].email == key
      {
        assert Lower(users[i].email) == users[i].email;
      }
    }
  }

  /** Registration keeps emails unique and lower-case. */
  lemma RegisterKeepsInvariant(users: seq<UserRow>, nextId: int, input: RegisterInput,
                               hash: Option<string> -> Option<string>, now: int, checkKey: Option<string>)
    requires UniqueEmails(users) && LowerCaseEmails(users)
    requires forall i :: 0 <= i < |users| ==> users[i].id < nextId
    ensures var o := RegisterWith(users, nextId, input, hash, now, checkKey);
      UniqueEmails(o.users) && LowerCaseEmails(o.users) && forall i :: 0 <= i < |o.users| ==> o.users[i].id < o.nextId
  {
    var o := RegisterWith(users, nextId, input, hash, now, checkKey);
    if o.result.Ok? {
      LowerIdempotent(input.email.value);
    }
  }

  /** The first row stored under the email, as `result.rows[0]`. */
  function FindByEmail(users: seq<UserRow>, email: string): (r: Option<UserRow>)
    ensures r.Some? <==> exists i :: 0 <= i < |users| && users[i].email == email
    ensures r.Some? ==> r.value in users && r.value.email == email
  {
    if |users| == 0 then None
    else if users[0].email == email then Some(users[0])
    else
      var r := FindByEmail(users[1..], email);
      assert forall i :: 1 <= i < |users| ==> users[i] == users[1..][i - 1];
      r
  }

  /** `login`: a lookup by the lower-cased email, then the password check;
      an unknown email and a wrong password raise the same error. On
      success the token is signed over `{userId}` alone. A missing email
      makes `toLowerCase` throw a TypeError (LowerOfUndefined); `None`
      does not tell a null email from an undefined one, and the message
      is the one for undefined. */
  function Login(users: seq<UserRow>, email: Option<string>, password: Option<string>,
                 compare: (Option<string>, string) -> bool, sign: Claims -> string): (r: Result<LoginResult>)
    ensures email.None? ==> r == Err(LowerOfUndefined)
    ensures email.Some? && r.Err? ==> r.error == InvalidCredentials
    ensures email.Some? ==>
      var found := FindByEmail(users, Lower(email.value));
      (r.Ok? <==> found.Some? && compare(password, found.value.passwordHash))
      && (r.Ok? ==> r.value == LoginResult(sign(Claims(found.value.id)),
                                            LoginUser(found.value.id, found.value.name, found.value.email)))
  {
    match email
    case None => Err(LowerOfUndefined)
    case Some(e) =>
      match FindByEmail(users, Lower(e))
      case None => Err(InvalidCredentials)
      case Some(user) =>
        if !compare(password, user.passwordHash) then Err(InvalidCredentials)
        else Ok(LoginResult(sign(Claims(user.id)), LoginUser(user.id, user.name, user.email)))
  }

  /** A call of the service's login without an email, handed straight to
      the error middleware, is a 500 INTERNAL_ERROR that carries the
      TypeError's own message, not the generic one. */
  lemma LoginWithoutEmailResponse(users: seq<UserRow>, password: Option<string>,
                                  compare: (Option<string>, string) -> bool, sign: Claims -> string)
    ensures var r := Login(users, None, password, compare, sign);
      r.Err? && Handle(r.error) == ErrorResponse(500, ErrorBody(false,
        ErrorDetail(InternalCode, "Cannot read properties of undefined (reading 'toLowerCase')")))
  {
  }

  /** Whichever way a login with an email fails, the caller cannot tell
      an unknown email from a wrong password. */
  lemma LoginFailuresAlike(users: seq<UserRow>, email: string, p1: Option<string>, p2: Option<string>,
                           compare: (Option<string>, string) -> bool, sign: Claims -> string)
    requires Login(users, Some(email), p1, compare, sign).Err?
    requires Login(users, Some(email), p2, compare, sign).Err?
    ensures Login(users, Some(email), p1, compare, sign) == Login(users, Some(email), p2, compare, sign)
  {
  }

  /** A user who has just registered can log in with the same password and
      the email in any letter case, and receives a token for the new id. */
  lemma RegisterThenLogin(users: seq<UserRow>, nextId: int, input: RegisterInput,
                          hash: Option<string> -> Option<string>, now: int, checkKey: Option<string>,
                          email: string, compare: (Option<string>, string) -> bool, sign: Claims -> string)
    requires RegisterWith(users, nextId, input, hash, now, checkKey).result.Ok?
    requires Lower(email) == Lower(input.email.value)
    requires compare(input.password, hash(input.password).value)
    ensures var o := RegisterWith(users, nextId, input, hash, now, checkKey);
      Login(o.users, Some(email), input.password, compare, sign)
        == Ok(LoginResult(sign(Claims(nextId)), LoginUser(nextId, Trim(input.name.value), Lower(input.email.value))))
  {
    var o := RegisterWith(users, nextId, input, hash, now, checkKey);
    var row := NewRow(nextId, input.name.value, input.email.value, hash(input.password).value, now);
    FindAppended(users, row);
  }

  lemma {:induction false} FindAppended(users: seq<UserRow>, row: UserRow)
    requires !EmailStored(users, Some(row.email))
    ensures FindByEmail(users + [row], row.email) == Some(row)
    decreases |users|
  {
    if |users| == 0 {
    } else {
      assert (users + [row])[1..] == users[1..] + [row];
      assert users[0] == (users + [row])[0];
      assert !EmailStored(users[1..], Some(row.email)) by {
        forall i | 0 <= i < |users[1..]| ensures users[1..][i].email != row.email {
          assert users[1..][i] == users[i + 1];
        }
      }
      FindAppended(users[1..], row);
    }
  }

  /** The users table and its id sequence. */
  class UsersTable {
    var rows: seq<UserRow>
    var nextId: int

    ghost predicate Valid()
      reads this
    {
      UniqueEmails(rows) && LowerCaseEmails(rows) && forall i :: 0 <= i < |rows| ==> rows[i].id < nextId
    }

    constructor ()
      ensures Valid() && rows == [] && nextId == 1
    {
      rows, nextId := [], 1;
    }

    /** `register` step by step: BEGIN, the existence check, the hash, the
        INSERT, COMMIT; on any error ROLLBACK and rethrow through
        RegisterError. The id drawn by a failed INSERT is not given back.
        As in the source, the check looks up the email exactly as passed
        while the row stores it lower-cased, so a case variant of a stored
        email fails at the unique index (RegisterNormalized is the corrected
        check). */
    method Register(input: RegisterInput, hash: Option<string> -> Option<string>, now: int)
      returns (result: Result<PublicUser>)
      requires Valid()
      modifies this
      ensures Valid()
      ensures var o := RegisterAsWritten(old(rows), old(nextId), input, hash, now);
        rows == o.users && nextId == o.nextId && result == o.result
    {
      var checkKey := input.email;
      RegisterKeepsInvariant(rows, nextId, input, hash, now, checkKey);
      var snapshot := rows;
      var failure: Option<Thrown> := None;
      var created := PublicUser(0, "", "", 0);
      if EmailStored(rows, checkKey) {
        failure := Some(EmailExists);
      } else {
        var h := hash(input.password);
        if h.None? {
          failure := Some(HashFailed);
        } else if input.name.None? || input.email.None? {
          failure := Some(MissingField);
        } else {
          var row := NewRow(nextId, input.name.value, input.email.value, h.value, now);
          nextId := nextId + 1;
          if EmailStored(rows, Some(row.email)) {
            failure := Some(UniqueViolation);
          } else {
            rows := rows + [row];
            created := Public(row);
          }
        }
      }
      if failure.Some? {
        rows := snapshot;
        result := Err(RegisterError(failure.value));
      } else {
        result := Ok(created);
      }
    }
  }
}
