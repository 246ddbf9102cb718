/**
 * The authentication policy: sessions that expire after a period of
 * inactivity, a per-user list of recent failed login times that locks the
 * account after five failures within five minutes, the decision sequence
 * of a login, the role hierarchy behind permission checks, and the checks
 * of a password change.
 *
 * `time.time()` is the parameter `now` (one instant per call); the user
 * lookup is the database's answer, given as a parameter; bcrypt's
 * `checkpw` is the oracle `checkpw`, and hashing a new password is left out.
 */
module Auth {
  import opened Wrappers
  import opened Strings
  import opened Numbers

  const MaxLoginAttempts: nat := 5
  /** Seconds a lockout lasts, and how long a failed attempt is remembered. */
  const LockoutDuration: real := 300.0
  /** Minutes of inactivity after which a session expires. */
  const SessionTimeout: int := 60
  const MinPasswordLength: nat := 8

  datatype User = User(
    id: int, username: string, email: string, role: string,
    createdAt: real, lastLogin: Option<real>, isActive: bool)

  /** A row of the `users` table as `get_user_by_username` returns it. */
  datatype UserRecord = UserRecord(
    id: int, username: string, email: string, role: string,
    createdAt: real, lastLogin: Option<real>, isActive: bool, passwordHash: string)

  function UserOf(rec: UserRecord): User {
    User(rec.id, rec.username, rec.email, rec.role, rec.createdAt, rec.lastLogin, rec.isActive)
  }

  // ---------------------------------------------------------------------
  // Sessions
  // ---------------------------------------------------------------------

  class Session {
    const user: User
    const loginTime: real
    var lastActivity: real

    constructor (user: User, loginTime: real, lastActivity: real)
      ensures this.user == user && this.loginTime == loginTime && this.lastActivity == lastActivity
    {
      this.user := user;
      this.loginTime := loginTime;
      this.lastActivity := lastActivity;
    }

    /** `is_expired`: strictly more than `timeoutMinutes` minutes since the last activity. */
    predicate IsExpired(now: real, timeoutMinutes: int)
      reads this
      ensures IsExpired(now, timeoutMinutes) <==> now - lastActivity > 60.0 * timeoutMinutes as real
    {
      (now - lastActivity) / 60.0 > timeoutMinutes as real
    }

    /** `update_activity`. */
    method UpdateActivity(now: real)
      modifies this`lastActivity
      ensures lastActivity == now
    {
      lastActivity := now;
    }
  }

  // ---------------------------------------------------------------------
  // Failed attempts and lockout
  // ---------------------------------------------------------------------

  /** The failed login times remembered per username. */
  type Attempts = map<string, seq<real>>

  /** `[t for t in ts if t > cutoff]`. */
  function KeepAfter(ts: seq<real>, cutoff: real): (r: seq<real>)
    ensures |r| <= |ts|
    ensures forall t :: t in r <==> t in ts && t > cutoff
    decreases |ts|
  {
    if ts == [] then []
    else (if ts[0] > cutoff then [ts[0]] else []) + KeepAfter(ts[1..], cutoff)
  }

  /** Filtering keeps order: a time appended after the cutoff stays last. */
  lemma {:induction false} KeepAfterAppend(ts: seq<real>, t: real, cutoff: real)
    requires t > cutoff
    ensures KeepAfter(ts + [t], cutoff) == KeepAfter(ts, cutoff) + [t]
    decreases |ts|
  {
    if ts == [] {
      assert [] + [t] == [t];
    } else {
      assert (ts + [t])[1..] == ts[1..] + [t];
      KeepAfterAppend(ts[1..], t, cutoff);
    }
  }

  /** Nothing is dropped when every time is after the cutoff. */
  lemma {:induction false} KeepAfterKeepsRecent(ts: seq<real>, cutoff: real)
    requires forall i :: 0 <= i < |ts| ==> ts[i] > cutoff
    ensures KeepAfter(ts, cutoff) == ts
    decreases |ts|
  {
    if ts != [] {
      KeepAfterKeepsRecent(ts[1..], cutoff);
      assert [ts[0]] + ts[1..] == ts;
    }
  }

  function AttemptsOf(a: Attempts, u: string): seq<real> {
    if u in a then a[u] else []
  }

  /** `is_locked_out`'s answer: five or more attempts, the last one at most five minutes ago. */
  predicate LockedOut(a: Attempts, u: string, now: real) {
    u in a && |a[u]| >= MaxLoginAttempts && !(now - a[u][|a[u]| - 1] > LockoutDuration)
  }

  /** The attempts after `is_locked_out`: a lockout that has run out resets the list. */
  function AfterLockCheck(a: Attempts, u: string, now: real): Attempts {
    if u in a && |a[u]| >= MaxLoginAttempts && now - a[u][|a[u]| - 1] > LockoutDuration then a[u := []] else a
  }

  /** The attempts after `record_failed_attempt`: `now` appended, then everything older than five minutes dropped. */
  function Recorded(a: Attempts, u: string, now: real): Attempts {
    a[u := KeepAfter(AttemptsOf(a, u) + [now], now - LockoutDuration)]
  }

  /** The attempts after `clear_failed_attempts`. */
  function Cleared(a: Attempts, u: string): Attempts {
    if u in a then a[u := []] else a
  }

  /** Fewer than five remembered failures never lock an account. */
  lemma FewAttemptsDoNotLock(a: Attempts, u: string, now: real)
    requires |AttemptsOf(a, u)| < MaxLoginAttempts
    ensures !LockedOut(a, u, now) && AfterLockCheck(a, u, now) == a
  {
  }

  /**
   * With five or more failures, a last failure more than five minutes old
   * unlocks the account and forgets the failures; otherwise it is locked
   * and nothing changes.
   */
  lemma LockoutExpires(a: Attempts, u: string, now: real)
    requires u in a && |a[u]| >= MaxLoginAttempts
    ensures now - a[u][|a[u]| - 1] > LockoutDuration ==>
      !LockedOut(a, u, now) && AfterLockCheck(a, u, now) == a[u := []]
    ensures !(now - a[u][|a[u]| - 1] > LockoutDuration) ==>
      LockedOut(a, u, now) && AfterLockCheck(a, u, now) == a
  {
  }

  /**
   * A failed attempt is remembered, and afterwards the user's list holds
   * exactly the earlier failures and `now` that are less than five minutes
   * old; no other user's list changes.
   */
  lemma RecordedRemembersRecent(a: Attempts, u: string, now: real)
    ensures var r := Recorded(a, u, now);
      && u in r && now in r[u]
      && (forall t :: t in r[u] <==> (t == now || t in AttemptsOf(a, u)) && t > now - LockoutDuration)
      && r.Keys == a.Keys + {u}
      && forall v :: v in a && v != u ==> r[v] == a[v]
  {
  }

  /** Clearing never adds a user: it empties an existing list and leaves every other one alone. */
  lemma ClearedAddsNoUser(a: Attempts, u: string)
    ensures Cleared(a, u).Keys == a.Keys
    ensures u in a ==> Cleared(a, u)[u] == []
    ensures forall v :: v in a && v != u ==> Cleared(a, u)[v] == a[v]
  {
  }

  /** The fifth failure within five minutes locks the account for the next five minutes. */
  lemma FifthRecentFailureLocks(a: Attempts, u: string, now: real, later: real)
    requires |AttemptsOf(a, u)| == MaxLoginAttempts - 1
    requires forall i :: 0 <= i < |AttemptsOf(a, u)| ==> AttemptsOf(a, u)[i] > now - LockoutDuration
    requires now <= later <= now + LockoutDuration
    ensures LockedOut(Recorded(a, u, now), u, later)
  {
    var ts := AttemptsOf(a, u) + [now];
    KeepAfterKeepsRecent(ts, now - LockoutDuration);
  }

  // ---------------------------------------------------------------------
  // The login decision
  // ---------------------------------------------------------------------

  datatype LoginMessage =
    | Locked(minutes: int)
    | InvalidCredentials
    | AccountDisabled
    | WrongPassword(attemptsLeft: int)
    | LoginSuccessful

  /** The message text `login` returns. */
  function MessageText(m: LoginMessage): string {
    match m
    case Locked(n) => "Account locked. Try again in " + IntToString(n) + " minutes"
    case InvalidCredentials => "Invalid username or password"
    case AccountDisabled => "Account is disabled"
    case WrongPassword(n) => "Invalid username or password. " + IntToString(n) + " attempts remaining"
    case LoginSuccessful => "Login successful"
  }

  datatype LoginDecision = LoginDecision(success: bool, message: LoginMessage, user: Option<User>, attempts: Attempts)

  /**
   * What `login` decides, in its order of checks: lockout, unknown user,
   * disabled account, wrong password, success; `attempts` is the failure
   * record afterwards.
   */
  function Decide(a: Attempts, u: string, password: string, now: real,
                  lookup: Option<UserRecord>, checkpw: (string, string) -> bool): LoginDecision {
    if LockedOut(a, u, now) then
      LoginDecision(false, Locked(Trunc((LockoutDuration - (now - a[u][|a[u]| - 1])) / 60.0)), None, a)
    else
      var b := AfterLockCheck(a, u, now);
      match lookup
      case None => LoginDecision(false, InvalidCredentials, None, Recorded(b, u, now))
      case Some(rec) =>
        if !rec.isActive then LoginDecision(false, AccountDisabled, None, b)
        else if !checkpw(password, rec.passwordHash) then
          var r := Recorded(b, u, now);
          LoginDecision(false, WrongPassword(MaxLoginAttempts - |r[u]|), None, r)
        else LoginDecision(true, LoginSuccessful, Some(UserOf(rec)), Cleared(b, u))
  }

  /** A login succeeds exactly when the account is not locked, exists, is active and the password checks. */
  lemma LoginSucceedsExactly(a: Attempts, u: string, password: string, now: real,
                             lookup: Option<UserRecord>, checkpw: (string, string) -> bool)
    ensures var d := Decide(a, u, password, now, lookup, checkpw);
      && (d.success <==> !LockedOut(a, u, now) && lookup.Some? && lookup.value.isActive
                         && checkpw(password, lookup.value.passwordHash))
      && (d.success ==> d.user == Some(UserOf(lookup.value)) && d.attempts == Cleared(AfterLockCheck(a, u, now), u))
      && (!d.success ==> d.user.None?)
  {
  }

  /** A locked-out user and a disabled user fail without a failure being recorded. */
  lemma LockedAndDisabledRecordNothing(a: Attempts, u: string, password: string, now: real,
                                       lookup: Option<UserRecord>, checkpw: (string, string) -> bool)
    ensures LockedOut(a, u, now) ==> Decide(a, u, password, now, lookup, checkpw).attempts == a
    ensures !LockedOut(a, u, now) && lookup.Some? && !lookup.value.isActive ==>
      Decide(a, u, password, now, lookup, checkpw).attempts == AfterLockCheck(a, u, now)
  {
  }

  /** An unknown user and a wrong password record a failure; a wrong password reports `5 - len(attempts)` left. */
  lemma UnknownAndWrongPasswordRecord(a: Attempts, u: string, password: string, now: real,
                                      lookup: Option<UserRecord>, checkpw: (string, string) -> bool)
    requires !LockedOut(a, u, now)
    requires lookup.None? || (lookup.value.isActive && !checkpw(password, lookup.value.passwordHash))
    ensures var d := Decide(a, u, password, now, lookup, checkpw);
      && d.attempts == Recorded(AfterLockCheck(a, u, now), u, now)
      && (lookup.Some? ==> d.message == WrongPassword(MaxLoginAttempts - |d.attempts[u]|))
  {
  }

  predicate AttemptsBounded(a: Attempts) {
    forall v :: v in a ==> |a[v]| <= MaxLoginAttempts
  }

  /** `login` never lets a user's failure list grow past five: a full list is either locked or reset first. */
  lemma LoginKeepsAttemptsBounded(a: Attempts, u: string, password: string, now: real,
                                  lookup: Option<UserRecord>, checkpw: (string, string) -> bool)
    requires AttemptsBounded(a)
    ensures AttemptsBounded(Decide(a, u, password, now, lookup, checkpw).attempts)
  {
    if !LockedOut(a, u, now) {
      var b := AfterLockCheck(a, u, now);
      assert |AttemptsOf(b, u)| < MaxLoginAttempts;
      var r := Recorded(b, u, now);
      assert |r[u]| <= |AttemptsOf(b, u) + [now]|;
      assert AttemptsBounded(r);
    }
  }

  // ---------------------------------------------------------------------
  // Roles
  // ---------------------------------------------------------------------

  /** `role_hierarchy.get(role, 0)`. */
  function RoleLevel(role: string): (n: nat)
    ensures n <= 3
    ensures n == 0 <==> role != "viewer" && role != "operator" && role != "admin"
  {
    if role == "viewer" then 1
    else if role == "operator" then 2
    else if role == "admin" then 3
    else 0
  }

  /** A user with `userRole` may do what `required` demands. */
  predicate Permits(userRole: string, required: string) {
    RoleLevel(userRole) >= RoleLevel(required)
  }

  /**
   * The hierarchy admin > operator > viewer: an admin may do anything, an
   * unknown required role is granted to everyone, a viewer may not do what
   * an operator or admin may, and permission is transitive.
   */
  lemma RoleHierarchy(r: string, s: string, t: string)
    ensures Permits("admin", r)
    ensures RoleLevel(r) == 0 ==> Permits(s, r)
    ensures !Permits("viewer", "operator") && !Permits("operator", "admin")
    ensures Permits("operator", "viewer")
    ensures Permits(r, s) && Permits(s, t) ==> Permits(r, t)
    ensures Permits(r, s) || Permits(s, r)
  {
  }

  // ---------------------------------------------------------------------
  // Password changes
  // ---------------------------------------------------------------------

  datatype PasswordChange =
    | NotAuthenticated
    | RecordMissing             // `user_data['password_hash']` on `None` raises `TypeError`
    | CurrentPasswordIncorrect
    | TooShort
    | Changed
    | UpdateFailed

  /** The `(ok, message)` pair `change_password` returns; nothing when it raises. */
  function PasswordChangeReply(c: PasswordChange): Option<(bool, string)> {
    match c
    case NotAuthenticated => Some((false, "Not authenticated"))
    case RecordMissing => None
    case CurrentPasswordIncorrect => Some((false, "Current password is incorrect"))
    case TooShort => Some((false, "New password must be at least 8 characters"))
    case Changed => Some((true, "Password changed successfully"))
    case UpdateFailed => Some((false, "Failed to update password"))
  }

  /** The checks of `change_password`, in order: session, record, current password, length, update. */
  function ChangeDecision(authenticated: bool, lookup: Option<UserRecord>, oldPassword: string, newPassword: string,
                          checkpw: (string, string) -> bool, updateOk: bool): PasswordChange {
    if !authenticated then NotAuthenticated
    else if lookup.None? then RecordMissing
    else if !checkpw(oldPassword, lookup.value.passwordHash) then CurrentPasswordIncorrect
    else if |newPassword| < MinPasswordLength then TooShort
    else if updateOk then Changed
    else UpdateFailed
  }

  /**
   * A password is changed only for an authenticated user who gives the
   * current password and a new one of at least eight characters; a short
   * new password is reported only once the current one has checked.
   */
  lemma PasswordChangeRules(authenticated: bool, lookup: Option<UserRecord>, oldPassword: string, newPassword: string,
                            checkpw: (string, string) -> bool, updateOk: bool)
    ensures var c := ChangeDecision(authenticated, lookup, oldPassword, newPassword, checkpw, updateOk);
      && (c == Changed <==> authenticated && lookup.Some? && checkpw(oldPassword, lookup.value.passwordHash)
                            && |newPassword| >= MinPasswordLength && updateOk)
      && (c == TooShort ==> checkpw(oldPassword, lookup.value.passwordHash) && |newPassword| < MinPasswordLength)
      && (authenticated && lookup.Some? && !checkpw(oldPassword, lookup.value.passwordHash) ==> c == CurrentPasswordIncorrect)
  {
  }

  // ---------------------------------------------------------------------
  // The manager
  // ---------------------------------------------------------------------

  class AuthManager {
    var currentSession: Session?
    var failedAttempts: Attempts

    /** `__init__`: no session and no failures. */
    constructor ()
      ensures currentSession == null && failedAttempts == map[]
    {
      currentSession := null;
      failedAttempts := map[];
    }

    /** `is_locked_out` at time `now`; an expired lockout is reset on the way. */
    method IsLockedOut(username: string, now: real) returns (locked: bool)
      modifies this`failedAttempts
      ensures locked == LockedOut(old(failedAttempts), username, now)
      ensures failedAttempts == AfterLockCheck(old(failedAttempts), username, now)
    {
      if username !in failedAttempts {
        return false;
      }
      var attempts := failedAttempts[username];
      if |attempts| < MaxLoginAttempts {
        return false;
      }
      var lastAttempt := attempts[|attempts| - 1];
      if now - lastAttempt > LockoutDuration {
        failedAttempts := failedAttempts[username := []];
        return false;
      }
      return true;
    }

    /** `record_failed_attempt` at time `now`. */
    method RecordFailedAttempt(username: string, now: real)
      modifies this`failedAttempts
      ensures failedAttempts == Recorded(old(failedAttempts), username, now)
    {
      if username !in failedAttempts {
        failedAttempts := failedAttempts[username := []];
      }
      failedAttempts := failedAttempts[username := failedAttempts[username] + [now]];
      var cutoff := now - LockoutDuration;
      failedAttempts := failedAttempts[username := KeepAfter(failedAttempts[username], cutoff)];
    }

    /** `clear_failed_attempts`. */
    method ClearFailedAttempts(username: string)
      modifies this`failedAttempts
      ensures failedAttempts == Cleared(old(failedAttempts), username)
    {
      if username in failedAttempts {
        failedAttempts := failedAttempts[username := []];
      }
    }

    /**
     * `login` at time `now`, where `lookup` is `get_user_by_username`'s
     * answer.  The outcome and the failure record are `Decide`'s; a
     * successful login installs a fresh session for the user.
     */
    method Login(username: string, password: string, now: real,
                 lookup: Option<UserRecord>, checkpw: (string, string) -> bool)
      returns (success: bool, message: string, user: Option<User>)
      modifies this`failedAttempts, this`currentSession
      ensures var d := Decide(old(failedAttempts), username, password, now, lookup, checkpw);
        && success == d.success && message == MessageText(d.message) && user == d.user
        && failedAttempts == d.attempts
      ensures !success ==> currentSession == old(currentSession)
      ensures success ==>
        && fresh(currentSession) && currentSession.user == user.value
        && currentSession.loginTime == now && currentSession.lastActivity == now
    {
      ghost var a := failedAttempts;
      ghost var d := Decide(a, username, password, now, lookup, checkpw);
      var locked := IsLockedOut(username, now);
      if locked {
        var attempts := failedAttempts[username];
        var remaining := LockoutDuration - (now - attempts[|attempts| - 1]);
        assert d == LoginDecision(false, Locked(Trunc(remaining / 60.0)), None, failedAttempts);
        return false, MessageText(Locked(Trunc(remaining / 60.0))), None;
      }
      ghost var b := failedAttempts;
      assert b == AfterLockCheck(a, username, now);
      if lookup.None? {
        RecordFailedAttempt(username, now);
        assert d == LoginDecision(false, InvalidCredentials, None, failedAttempts);
        return false, MessageText(InvalidCredentials), None;
      }
      var rec := lookup.value;
      if !rec.isActive {
        assert d == LoginDecision(false, AccountDisabled, None, failedAttempts);
        return false, MessageText(AccountDisabled), None;
      }
      if !checkpw(password, rec.passwordHash) {
        RecordFailedAttempt(username, now);
        var attemptsLeft := MaxLoginAttempts - |failedAttempts[username]|;
        assert d == LoginDecision(false, WrongPassword(attemptsLeft), None, failedAttempts);
        return false, MessageText(WrongPassword(attemptsLeft)), None;
      }
      ClearFailedAttempts(username);
      var u := UserOf(rec);
      currentSession := new Session(u, now, now);
      assert d == LoginDecision(true, LoginSuccessful, Some(u), failedAttempts);
      // update_last_login writes the database only
      return true, MessageText(LoginSuccessful), Some(u);
    }

    /** `logout`. */
    method Logout()
      modifies this`currentSession
      ensures currentSession == null
    {
      if currentSession != null {
        currentSession := null;
      }
    }

    /** A session exists and has not expired at `now`. */
    predicate Active(now: real)
      reads this, currentSession
    {
      currentSession != null && !currentSession.IsExpired(now, SessionTimeout)
    }

    /**
     * `is_authenticated` at time `now`: an expired session is dropped; a
     * live one has its activity time moved to `now`.
     */
    method IsAuthenticated(now: real) returns (b: bool)
      modifies this`currentSession, currentSession
      ensures b == old(Active(now))
      ensures !b ==> currentSession == null
      ensures b ==> currentSession == old(currentSession) && currentSession.lastActivity == now
    {
      if currentSession == null {
        return false;
      }
      if currentSession.IsExpired(now, SessionTimeout) {
        currentSession := null;
        return false;
      }
      currentSession.UpdateActivity(now);
      return true;
    }

    /** `get_current_user`: the session's user while it is live. */
    method GetCurrentUser(now: real) returns (user: Option<User>)
      modifies this`currentSession, currentSession
      ensures user.Some? <==> old(Active(now))
      ensures user.Some? ==> user.value == old(currentSession).user
      ensures !old(Active(now)) ==> currentSession == null
      ensures old(Active(now)) ==> currentSession == old(currentSession) && currentSession.lastActivity == now
    {
      var ok := IsAuthenticated(now);
      if ok {
        return Some(currentSession.user);
      }
      return None;
    }

    /** `has_permission`: a live session whose user's role reaches the required level. */
    method HasPermission(requiredRole: string, now: real) returns (b: bool)
      modifies this`currentSession, currentSession
      ensures b <==> old(Active(now)) && Permits(old(currentSession).user.role, requiredRole)
      ensures !old(Active(now)) ==> currentSession == null
      ensures old(Active(now)) ==> currentSession == old(currentSession) && currentSession.lastActivity == now
    {
      var ok := IsAuthenticated(now);
      if !ok {
        return false;
      }
      var userLevel := RoleLevel(currentSession.user.role);
      var requiredLevel := RoleLevel(requiredRole);
      return userLevel >= requiredLevel;
    }

    /**
     * The validation branch of `change_password`: `lookup` is the record
     * found for the session's user, `updateOk` the database's answer to
     * storing the new hash.
     */
    method ChangePassword(oldPassword: string, newPassword: string, now: real,
                          lookup: Option<UserRecord>, checkpw: (string, string) -> bool, updateOk: bool)
      returns (outcome: PasswordChange)
      modifies this`currentSession, currentSession
      ensures outcome == ChangeDecision(old(Active(now)), lookup, oldPassword, newPassword, checkpw, updateOk)
      ensures !old(Active(now)) ==> currentSession == null
      ensures old(Active(now)) ==> currentSession == old(currentSession) && currentSession.lastActivity == now
    {
      var ok := IsAuthenticated(now);
      if !ok {
        return NotAuthenticated;
      }
      if lookup.None? {
        return RecordMissing;
      }
      if !checkpw(oldPassword, lookup.value.passwordHash) {
        return CurrentPasswordIncorrect;
      }
      if |newPassword| < MinPasswordLength {
        return TooShort;
      }
      return if updateOk then Changed else UpdateFailed;
    }
  }
}
