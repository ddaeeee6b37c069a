/** The account endpoints of backend/controllers/authController.js: the
    password policy, the signup and signin decision chains, and the
    block/unblock endpoints. bcrypt's hash and compare and jwt's sign are
    function parameters. */
module Auth {
  import opened Common
  import opened Schema
  import opened UserModel

  // ---- the password policy ----

  predicate IsLower(c: char) { 'a' <= c <= 'z' }

  predicate IsUpper(c: char) { 'A' <= c <= 'Z' }

  predicate IsSpecial(c: char) { c in "@$!%*?&" }

  /** `[A-Za-z\d@$!%*?&]`. */
  predicate IsAllowed(c: char) { IsLower(c) || IsUpper(c) || IsAsciiDigit(c) || IsSpecial(c) }

  /** The characters `.` does not match. */
  predicate IsLineTerminator(c: char) { c == '\n' || c == '\r' || c == '\U{2028}' || c == '\U{2029}' }

  /** The lookahead `(?=.*[class])` at the start of s: some character of the
      class, with no line terminator before it. */
  function LookaheadFinds(s: string, cls: char -> bool): bool {
    if |s| == 0 then false
    else if cls(s[0]) then true
    else if IsLineTerminator(s[0]) then false
    else LookaheadFinds(s[1..], cls)
  }

  /** `[A-Za-z\d@$!%*?&]{8,}$` from the start: the whole string, at least
      eight characters, all allowed. */
  function BodyMatches(s: string): bool {
    |s| >= 8 && forall k :: 0 <= k < |s| ==> IsAllowed(s[k])
  }

  /** `/^(?=.*[a-z])(?=.*[A-Z])(?=.*\d)(?=.*[@$!%*?&])[A-Za-z\d@$!%*?&]{8,}$/.test(s)`,
      following the structure of the expression. */
  function PasswordRegexTest(s: string): (accepted: bool)
    ensures accepted ==> |s| >= 8 && forall k :: 0 <= k < |s| ==> IsAllowed(s[k])
  {
    && LookaheadFinds(s, IsLower)
    && LookaheadFinds(s, IsUpper)
    && LookaheadFinds(s, IsAsciiDigit)
    && LookaheadFinds(s, IsSpecial)
    && BodyMatches(s)
  }

  /** The policy in words: eight or more characters, all from the allowed
      set, with a lowercase letter, an uppercase letter, a digit and one of
      @$!%*?& among them. */
  predicate PasswordPolicy(s: string) {
    && |s| >= 8
    && (forall k :: 0 <= k < |s| ==> IsAllowed(s[k]))
    && (exists k :: 0 <= k < |s| && IsLower(s[k]))
    && (exists k :: 0 <= k < |s| && IsUpper(s[k]))
    && (exists k :: 0 <= k < |s| && IsAsciiDigit(s[k]))
    && (exists k :: 0 <= k < |s| && IsSpecial(s[k]))
  }

  /** Over a string without line terminators a lookahead finds exactly the
      characters of its class. */
  lemma {:induction false} LookaheadWithoutTerminators(s: string, cls: char -> bool)
    requires forall k :: 0 <= k < |s| ==> !IsLineTerminator(s[k])
    ensures LookaheadFinds(s, cls) <==> exists k :: 0 <= k < |s| && cls(s[k])
  {
    if |s| > 0 && !cls(s[0]) {
      assert forall k :: 0 <= k < |s| - 1 ==> s[1..][k] == s[k + 1];
      LookaheadWithoutTerminators(s[1..], cls);
      if exists k :: 0 <= k < |s| && cls(s[k]) {
        var k :| 0 <= k < |s| && cls(s[k]);
        assert s[1..][k - 1] == s[k];
      }
    }
  }

  /** The regular expression accepts exactly the passwords the policy
      describes. */
  lemma PasswordRegexIsPolicy(s: string)
    ensures PasswordRegexTest(s) <==> PasswordPolicy(s)
  {
    if BodyMatches(s) {
      assert forall k :: 0 <= k < |s| ==> !IsLineTerminator(s[k]);
      LookaheadWithoutTerminators(s, IsLower);
      LookaheadWithoutTerminators(s, IsUpper);
      LookaheadWithoutTerminators(s, IsAsciiDigit);
      LookaheadWithoutTerminators(s, IsSpecial);
    }
  }

  /** `test` converts its argument to a string; a missing password is the
      string "undefined". */
  function PasswordText(password: Option<string>): string {
    if password.Some? then password.value else "undefined"
  }

  /** A lowercase string has no uppercase letter to find. */
  lemma {:induction false} LowercaseHasNoUpper(s: string)
    requires forall k :: 0 <= k < |s| ==> IsLower(s[k])
    ensures !LookaheadFinds(s, IsUpper)
  {
    if |s| > 0 {
      assert forall k :: 0 <= k < |s| - 1 ==> s[1..][k] == s[k + 1];
      LowercaseHasNoUpper(s[1..]);
    }
  }

  /** A missing password never passes the policy. */
  lemma MissingPasswordRejected()
    ensures !PasswordRegexTest(PasswordText(None))
  {
    var s := PasswordText(None);
    assert s == ['u', 'n', 'd', 'e', 'f', 'i', 'n', 'e', 'd'];
    LowercaseHasNoUpper(s);
  }

  // ---- replies ----

  datatype AuthReply =
    | Message(status: nat, message: string)
    | SignedIn(message: string, token: string, role: string)

  function Status(r: AuthReply): nat {
    match r
    case Message(status, _) => status
    case SignedIn(_, _, _) => 200
  }

  const PolicyMessage: string := "Password must be at least 8 characters long and include at least one uppercase letter, one lowercase letter, one number, and one special character."

  const ServerError: AuthReply := Message(500, "Server error")

  // ---- signup ----

  datatype SignupRequest = SignupRequest(email: Option<string>, password: Option<string>, role: RoleField)

  /** The success message, chosen by the role variable of the handler (which
      is 'user' when the body has none). */
  function RegisteredMessage(role: RoleField): string {
    if role == RoleGiven("admin") then "Admin registered successfully!"
    else if role == RoleGiven("delivery_partner") then "Delivery Partner registered successfully!"
    else "User registered successfully!"
  }

  /** What signup does to the users table and answers: the policy check,
      then the email lookup, then the insert. */
  datatype SignupEffect = SignupEffect(users: seq<User>, reply: AuthReply)

  function SignupSpec(us: seq<User>, nextId: int, req: SignupRequest, hash: string -> string,
                      lookupFails: bool, insertFails: bool): (e: SignupEffect)
    ensures e.users == us || (|e.users| == |us| + 1 && e.users[..|us|] == us && e.reply.Message? && e.reply.status == 200)
    ensures e.reply.Message? && e.reply.status == 200 ==>
      |e.users| == |us| + 1 && e.users[|us|].id == nextId && !e.users[|us|].isBlocked &&
      PasswordRegexTest(PasswordText(req.password)) && Some(e.users[|us|].email) == req.email &&
      UserFits(e.users[|us|].email, e.users[|us|].passwordHash, e.users[|us|].role) &&
      forall k :: 0 <= k < |us| ==> us[k].email != e.users[|us|].email
  {
    if !PasswordRegexTest(PasswordText(req.password)) then SignupEffect(us, Message(400, PolicyMessage))
    else if lookupFails then SignupEffect(us, ServerError)
    else if FindUserByEmail(us, req.email).Some? then SignupEffect(us, Message(400, "Email is already used"))
    else
      MissingPasswordRejected();
      if req.email.None? || StoredRole(req.role).None? || insertFails
         || !UserFits(req.email.value, hash(req.password.value), StoredRole(req.role).value)
      then SignupEffect(us, ServerError)
      else SignupEffect(us + [User(nextId, req.email.value, hash(req.password.value), StoredRole(req.role).value, false)],
                        Message(200, RegisteredMessage(req.role)))
  }

  method Signup(db: Database, req: SignupRequest, hash: string -> string, lookupFails: bool, insertFails: bool)
    returns (reply: AuthReply)
    requires UsersValid(db.users, db.nextUserId)
    modifies db`users, db`nextUserId
    ensures UsersValid(db.users, db.nextUserId)
    ensures var e := SignupSpec(old(db.users), old(db.nextUserId), req, hash, lookupFails, insertFails);
      db.users == e.users && reply == e.reply
  {
    if !PasswordRegexTest(PasswordText(req.password)) {
      return Message(400, PolicyMessage);
    }
    if lookupFails {
      return ServerError;
    }
    var existing := FindUserByEmail(db.users, req.email);
    if existing.Some? {
      return Message(400, "Email is already used");
    }
    MissingPasswordRejected();
    var created := CreateUser(db, req.email, req.password.value, req.role, hash, insertFails);
    if created.Err? {
      return ServerError;
    }
    return Message(200, RegisteredMessage(req.role));
  }

  /** A password outside the policy is refused with 400 before the users
      table is read, whatever it holds. */
  lemma WeakPasswordRefusedFirst(us: seq<User>, nextId: int, req: SignupRequest, hash: string -> string,
                                 lookupFails: bool, insertFails: bool)
    requires !PasswordPolicy(PasswordText(req.password))
    ensures SignupSpec(us, nextId, req, hash, lookupFails, insertFails) == SignupEffect(us, Message(400, PolicyMessage))
  {
    PasswordRegexIsPolicy(PasswordText(req.password));
  }

  /** A taken email is refused and nothing is created. */
  lemma TakenEmailCreatesNothing(us: seq<User>, nextId: int, req: SignupRequest, hash: string -> string, k: nat)
    requires PasswordPolicy(PasswordText(req.password))
    requires k < |us| && req.email == Some(us[k].email)
    ensures SignupSpec(us, nextId, req, hash, false, false) == SignupEffect(us, Message(400, "Email is already used"))
  {
    PasswordRegexIsPolicy(PasswordText(req.password));
    assert us[k].email == req.email.value;
  }

  /** A signup that answers 200 added exactly one account: the email, the
      hash of the password, the role given or 'user', not blocked. */
  lemma SuccessfulSignupStoresRole(us: seq<User>, nextId: int, req: SignupRequest, hash: string -> string,
                                   lookupFails: bool, insertFails: bool)
    ensures var e := SignupSpec(us, nextId, req, hash, lookupFails, insertFails);
      Status(e.reply) == 200 <==>
        (PasswordPolicy(PasswordText(req.password)) && !lookupFails && !insertFails
         && req.email.Some? && req.role != RoleNull && FindUserByEmail(us, req.email).None?
         && req.password.Some?
         && UserFits(req.email.value, hash(req.password.value), if req.role == RoleAbsent then "user" else req.role.role))
    ensures var e := SignupSpec(us, nextId, req, hash, lookupFails, insertFails);
      Status(e.reply) == 200 ==>
        && req.password.Some? && req.email.Some? && req.role != RoleNull
        && e.users == us + [User(nextId, req.email.value, hash(req.password.value),
                                 if req.role == RoleAbsent then "user" else req.role.role, false)]
    ensures var e := SignupSpec(us, nextId, req, hash, lookupFails, insertFails);
      Status(e.reply) != 200 ==> e.users == us
  {
    PasswordRegexIsPolicy(PasswordText(req.password));
    if req.password.None? {
      MissingPasswordRejected();
    }
  }

  // ---- signin ----

  /** The claims of the token signin issues. */
  datatype TokenClaims = TokenClaims(id: int, role: string)

  function SignedInMessage(role: string): string {
    if role == "admin" then "Admin sign in successful!"
    else if role == "delivery_partner" then "Delivery Partner Sign in successful!"
    else "Sign in successful!"
  }

  const InvalidCredentials: AuthReply := Message(400, "Invalid email or password")

  const Blocked: AuthReply := Message(400, "Your account is blocked. Please contact support.")

  /** signin: the lookup by email, then the blocked flag, then bcrypt's
      comparison (which throws on a missing password), then the token.
      `matches(password, hash)` stands for bcrypt.compare and `sign` for
      jwt.sign with the server's secret and a one-hour expiry. */
  method Signin(us: seq<User>, email: Option<string>, password: Option<string>, lookupFails: bool,
                matches: (string, string) -> bool, sign: TokenClaims -> string) returns (reply: AuthReply)
    ensures lookupFails ==> reply == ServerError
    ensures !lookupFails && FindUserByEmail(us, email).None? ==> reply == InvalidCredentials
    ensures !lookupFails && FindUserByEmail(us, email).Some? && FindUserByEmail(us, email).value.isBlocked ==>
      reply == Blocked
    ensures reply.SignedIn? <==>
      && !lookupFails && FindUserByEmail(us, email).Some?
      && !FindUserByEmail(us, email).value.isBlocked
      && password.Some? && matches(password.value, FindUserByEmail(us, email).value.passwordHash)
    ensures reply.SignedIn? ==>
      var u := FindUserByEmail(us, email).value;
      reply == SignedIn(SignedInMessage(u.role), sign(TokenClaims(u.id, u.role)), u.role)
    ensures !reply.SignedIn? ==> reply in {ServerError, InvalidCredentials, Blocked}
  {
    if lookupFails {
      return ServerError;
    }
    var user := FindUserByEmail(us, email);
    if user.None? {
      return InvalidCredentials;
    }
    if user.value.isBlocked {
      return Blocked;
    }
    if password.None? {
      return ServerError;
    }
    if !matches(password.value, user.value.passwordHash) {
      return InvalidCredentials;
    }
    var token := sign(TokenClaims(user.value.id, user.value.role));
    return SignedIn(SignedInMessage(user.value.role), token, user.value.role);
  }

  // ---- block and unblock ----

  /** The block and unblock endpoints answer 200 whether or not the id
      exists; only a failing statement gives 500. */
  method BlockUserEndpoint(db: Database, userId: int, updateFails: bool) returns (reply: AuthReply)
    requires UsersValid(db.users, db.nextUserId)
    modifies db`users
    ensures UsersValid(db.users, db.nextUserId) && UserIds(db.users) == UserIds(old(db.users))
    ensures updateFails ==> reply == ServerError && db.users == old(db.users)
    ensures !updateFails ==>
      reply == Message(200, "User blocked successfully!") && db.users == SetBlocked(old(db.users), userId, true)
  {
    if updateFails {
      return ServerError;
    }
    BlockUser(db, userId);
    return Message(200, "User blocked successfully!");
  }

  method UnblockUserEndpoint(db: Database, userId: int, updateFails: bool) returns (reply: AuthReply)
    requires UsersValid(db.users, db.nextUserId)
    modifies db`users
    ensures UsersValid(db.users, db.nextUserId) && UserIds(db.users) == UserIds(old(db.users))
    ensures updateFails ==> reply == ServerError && db.users == old(db.users)
    ensures !updateFails ==>
      reply == Message(200, "User unblocked successfully!") && db.users == SetBlocked(old(db.users), userId, false)
  {
    if updateFails {
      return ServerError;
    }
    UnblockUser(db, userId);
    return Message(200, "User unblocked successfully!");
  }

  /** After blocking, the signin lookup by the account's email still finds
      that same account, now marked blocked, so Signin answers with its
      blocked branch before any password comparison. */
  lemma BlockedAccountCannotSignIn(us: seq<User>, next: int, k: nat)
    requires UsersValid(us, next) && k < |us|
    ensures var blocked := SetBlocked(us, us[k].id, true);
      FindUserByEmail(blocked, Some(us[k].email)) == Some(blocked[k]) && blocked[k].isBlocked
  {
    SetBlockedKeepsValid(us, next, us[k].id, true);
    var blocked := SetBlocked(us, us[k].id, true);
    FoundUserIsTheAccount(blocked, next, k);
  }
}
