/** The users table of backend/models/User.js: account creation, lookup by
    email and by id, the blocked flag and the list of blocked accounts.
    bcrypt's hash is a function parameter. */
module UserModel {
  import opened Common
  import opened Schema

  /** The role as signup passes it on: absent from the request body (the
      parameter default 'user' applies), JSON null (stored as NULL), or a
      string. */
  datatype RoleField = RoleAbsent | RoleNull | RoleGiven(role: string)

  /** `SELECT * FROM users WHERE email = ?` then `results[0]`; a missing
      email binds NULL, which equals nothing. */
  function FindUserByEmail(us: seq<User>, email: Option<string>): (r: Option<User>)
    ensures r.Some? ==> r.value in us && email == Some(r.value.email)
    ensures r.None? <==> email.None? || forall k :: 0 <= k < |us| ==> us[k].email != email.value
  {
    if email.None? || |us| == 0 then None
    else if us[0].email == email.value then Some(us[0])
    else
      var rest := FindUserByEmail(us[1..], email);
      assert forall k :: 0 < k < |us| ==> us[k] == us[1..][k - 1];
      rest
  }

  /** Emails are unique, so the row found is the one account with that email. */
  lemma FoundUserIsTheAccount(us: seq<User>, next: int, k: nat)
    requires UsersValid(us, next) && k < |us|
    ensures FindUserByEmail(us, Some(us[k].email)) == Some(us[k])
  {
    var r := FindUserByEmail(us, Some(us[k].email));
    var j :| 0 <= j < |us| && us[j] == r.value;
    assert j == k;
  }

  /** The stored role: createUser's default when none was passed. */
  function StoredRole(role: RoleField): Option<string> {
    match role
    case RoleAbsent => Some("user")
    case RoleNull => None
    case RoleGiven(s) => Some(s)
  }

  /** The widths of the users columns: email VARCHAR(100), password
      VARCHAR(255) and role VARCHAR(255). */
  predicate UserFits(email: string, passwordHash: string, role: string) {
    FitsVarchar(email, 100) && FitsVarchar(passwordHash, 255) && FitsVarchar(role, 255)
  }

  /** createUser: the password is hashed, then `INSERT INTO users (email,
      password, role)`; isBlocked takes its default FALSE. A NULL email or
      role violates NOT NULL, an over-long value its column's width, a taken
      email the UNIQUE key. */
  method CreateUser(db: Database, email: Option<string>, password: string, role: RoleField,
                    hash: string -> string, insertFails: bool) returns (r: Result<int, WriteError>)
    requires UsersValid(db.users, db.nextUserId)
    modifies db`users, db`nextUserId
    ensures UsersValid(db.users, db.nextUserId)
    ensures r.Err? ==> db.users == old(db.users)
    ensures r.Err? <==> email.None? || StoredRole(role).None? || insertFails
                        || !UserFits(email.value, hash(password), StoredRole(role).value)
                        || FindUserByEmail(old(db.users), email).Some?
    ensures email.Some? && StoredRole(role).Some? && !UserFits(email.value, hash(password), StoredRole(role).value) ==>
      r == Err(DataTooLong)
    ensures r.Ok? ==>
      && r.value == old(db.nextUserId)
      && db.users == old(db.users) + [User(r.value, email.value, hash(password), StoredRole(role).value, false)]
  {
    if email.None? || StoredRole(role).None? {
      return Err(NullColumn);
    }
    if !UserFits(email.value, hash(password), StoredRole(role).value) {
      return Err(DataTooLong);
    }
    if FindUserByEmail(db.users, email).Some? {
      return Err(DuplicateKey);
    }
    if insertFails {
      return Err(StoreFailed);
    }
    var id := db.nextUserId;
    db.users := db.users + [User(id, email.value, hash(password), StoredRole(role).value, false)];
    db.nextUserId := id + 1;
    r := Ok(id);
  }

  // ---- the blocked flag ----

  /** `UPDATE users SET isBlocked = ? WHERE id = ?`. */
  function SetBlocked(us: seq<User>, userId: int, blocked: bool): (r: seq<User>)
    ensures |r| == |us|
    ensures forall k :: 0 <= k < |us| ==>
      && r[k].id == us[k].id && r[k].email == us[k].email
      && (us[k].id == userId ==> r[k].isBlocked == blocked)
      && (us[k].id != userId ==> r[k] == us[k])
  {
    seq(|us|, k requires 0 <= k < |us| => if us[k].id == userId then us[k].(isBlocked := blocked) else us[k])
  }

  /** Only the flag of that id is written, and every other account and
      column is left alone. */
  lemma SetBlockedExact(us: seq<User>, userId: int, blocked: bool, k: nat)
    requires k < |us|
    ensures var u := SetBlocked(us, userId, blocked)[k];
      if us[k].id == userId then u == us[k].(isBlocked := blocked) && u.isBlocked == blocked
      else u == us[k]
  {
  }

  /** Blocking (or unblocking) twice is blocking once. */
  lemma SetBlockedIdempotent(us: seq<User>, userId: int, blocked: bool)
    ensures SetBlocked(SetBlocked(us, userId, blocked), userId, blocked) == SetBlocked(us, userId, blocked)
  {
  }

  /** The last write wins: unblocking after blocking leaves the account
      as if only unblocked, and the other way round. */
  lemma SetBlockedOverrides(us: seq<User>, userId: int, first: bool, second: bool)
    ensures SetBlocked(SetBlocked(us, userId, first), userId, second) == SetBlocked(us, userId, second)
  {
  }

  lemma SetBlockedKeepsValid(us: seq<User>, next: int, userId: int, blocked: bool)
    requires UsersValid(us, next)
    ensures UsersValid(SetBlocked(us, userId, blocked), next)
    ensures UserIds(SetBlocked(us, userId, blocked)) == UserIds(us)
  {
    var r := SetBlocked(us, userId, blocked);
    assert forall k :: 0 <= k < |us| ==> r[k].id == us[k].id && r[k].email == us[k].email;
  }

  /** blockUser and unblockUser. The ids stay as they were, so the cart,
      order and address rows keep pointing at existing accounts. */
  method BlockUser(db: Database, userId: int)
    requires UsersValid(db.users, db.nextUserId)
    modifies db`users
    ensures UsersValid(db.users, db.nextUserId) && UserIds(db.users) == UserIds(old(db.users))
    ensures db.users == SetBlocked(old(db.users), userId, true)
  {
    SetBlockedKeepsValid(db.users, db.nextUserId, userId, true);
    db.users := SetBlocked(db.users, userId, true);
  }

  method UnblockUser(db: Database, userId: int)
    requires UsersValid(db.users, db.nextUserId)
    modifies db`users
    ensures UsersValid(db.users, db.nextUserId) && UserIds(db.users) == UserIds(old(db.users))
    ensures db.users == SetBlocked(old(db.users), userId, false)
  {
    SetBlockedKeepsValid(db.users, db.nextUserId, userId, false);
    db.users := SetBlocked(db.users, userId, false);
  }

  /** `SELECT * FROM users WHERE isBlocked = TRUE`: exactly the blocked
      accounts, in table order. */
  function BlockedUsers(us: seq<User>): (r: seq<User>)
    ensures forall u :: u in r <==> u in us && u.isBlocked
  {
    FilterMembers(us, (u: User) => u.isBlocked);
    Filter(us, (u: User) => u.isBlocked)
  }

  /** After blockUser the account is listed as blocked, after unblockUser it
      is not. */
  lemma BlockThenListed(us: seq<User>, next: int, k: nat)
    requires UsersValid(us, next) && k < |us|
    ensures SetBlocked(us, us[k].id, true)[k] in BlockedUsers(SetBlocked(us, us[k].id, true))
    ensures forall u :: u in BlockedUsers(SetBlocked(us, us[k].id, false)) ==> u.id != us[k].id
  {
    var r := SetBlocked(us, us[k].id, false);
    forall u | u in BlockedUsers(r) ensures u.id != us[k].id {
      var j :| 0 <= j < |r| && r[j] == u;
      if j != k {
        assert r[j] == us[j] && us[j].id != us[k].id;
      }
    }
  }

  // ---- getUserById ----

  /** The columns getUserById selects. */
  datatype UserSummary = UserSummary(id: int, email: string)

  /** getUserById: the driver's error, "User not found" for no row, or the
      first row's id and email. */
  function GetUserById(us: seq<User>, userId: int, queryFails: bool): (r: Result<UserSummary, string>)
    ensures queryFails ==> r.Err? && r.error != "User not found"
    ensures !queryFails ==> (r == Err("User not found") <==> userId !in UserIds(us))
    ensures r.Ok? ==> exists k :: 0 <= k < |us| && us[k].id == userId && r.value == UserSummary(userId, us[k].email)
  {
    if queryFails then Err("ER_QUERY_FAILED")
    else
      var found := Filter(us, (u: User) => u.id == userId);
      FilterMembers(us, (u: User) => u.id == userId);
      if |found| == 0 then
        assert userId !in UserIds(us) by {
          forall k | 0 <= k < |us| ensures us[k].id != userId {
            assert us[k] in us;
          }
        }
        Err("User not found")
      else
        assert found[0] in found;
        Ok(UserSummary(found[0].id, found[0].email))
  }
}
