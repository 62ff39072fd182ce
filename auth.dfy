/**
 * The web panel's `AuthController`: the `passwd.yml` settings and user list, the login
 * handler with its per-user lockout, the hand-written credentials parser, and the
 * session-id lookup in cookies and query strings that the session endpoints share.
 *
 * Lockout: every wrong password for a known user raises that user's failure count; when
 * the count reaches `max-login-attempts` the account is locked for `lockout-duration`
 * minutes. A lock is lifted lazily, by the next login attempt after it has passed, and
 * lifting it keeps the count. A correct password clears both.
 */
module Auth {
  import opened Wrappers
  import opened Text
  import opened DataIO
  import opened Sessions

  /** A value of the `authentication` section, as `instanceof` sees it after YAML loading. */
  datatype Value = IntValue(i: Int32) | BoolValue(b: bool) | OtherValue

  /** The `authentication` section of `passwd.yml`. */
  type Settings = map<string, Value>

  /** An integer setting: its value when it is an `Integer`, otherwise the default. */
  function IntSetting(cfg: Settings, key: string, default: Int32): (r: Int32)
    ensures key !in cfg ==> r == default
    ensures key in cfg && !cfg[key].IntValue? ==> r == default
    ensures key in cfg && cfg[key].IntValue? ==> r == cfg[key].i
  {
    if key in cfg && cfg[key].IntValue? then cfg[key].i else default
  }

  /** `getSessionTimeout`, in minutes; 1440 (one day) by default. */
  function SessionTimeout(cfg: Settings): Int32 {
    IntSetting(cfg, "session-timeout", 1440)
  }

  /** `getMaxLoginAttempts`; 5 by default. */
  function MaxLoginAttempts(cfg: Settings): Int32 {
    IntSetting(cfg, "max-login-attempts", 5)
  }

  /** `getLockoutDuration`, in minutes; 30 by default. */
  function LockoutDuration(cfg: Settings): Int32 {
    IntSetting(cfg, "lockout-duration", 30)
  }

  /** The lock length in milliseconds, computed in `int` as the source does. */
  function LockoutMillis(cfg: Settings): (r: Int32)
    ensures 0 <= LockoutDuration(cfg) < 35792 ==> r == LockoutDuration(cfg) * MillisPerMinute
  {
    Wrap32(LockoutDuration(cfg) * 60 * 1000)
  }

  /**
   * `isAuthenticationEnabled`: true when the key is absent; a value that is not a
   * boolean makes the cast fail.
   */
  function AuthenticationEnabled(cfg: Settings): (r: Result<bool, string>)
    ensures "enabled" !in cfg ==> r == Ok(true)
    ensures "enabled" in cfg ==> (r.Ok? <==> cfg["enabled"].BoolValue?)
    ensures r.Ok? && "enabled" in cfg ==> r.value == cfg["enabled"].b
  {
    if "enabled" !in cfg then Ok(true)
    else if cfg["enabled"].BoolValue? then Ok(cfg["enabled"].b)
    else Err("ClassCastException")
  }

  /**
   * The `permission` key of a user entry: missing, present with a null value, or text.
   * `getOrDefault` tells the first two apart.
   */
  datatype PermissionEntry = NoPermission | NullPermission | PermissionText(text: string)

  /** An entry of the `users` list; a missing key reads as null. */
  datatype User = User(username: Option<string>, password: Option<string>, permission: PermissionEntry)

  /** `findUser`: the position of the first user whose name equals `name`. */
  function UserIndex(users: seq<User>, name: string): (r: Option<nat>)
    ensures r.None? <==> forall k :: 0 <= k < |users| ==> users[k].username != Some(name)
    ensures r.Some? ==> r.value < |users| && users[r.value].username == Some(name)
    ensures r.Some? ==> forall k :: 0 <= k < r.value ==> users[k].username != Some(name)
    decreases |users|
  {
    if |users| == 0 then None
    else if users[0].username == Some(name) then Some(0)
    else match UserIndex(users[1..], name)
      case None => None
      case Some(i) => Some(i + 1)
  }

  predicate Known(users: seq<User>, name: string) {
    UserIndex(users, name).Some?
  }

  // ---------------------------------------------------------------------------------
  // The credentials parser

  predicate IsJsonPunct(c: char) {
    c == '{' || c == '}' || c == '"'
  }

  /** `replaceAll("[{}\"]", "")`. */
  function StripJsonPunct(s: string): (r: string)
    ensures |r| <= |s|
    ensures forall k :: 0 <= k < |r| ==> !IsJsonPunct(r[k])
    ensures (forall k :: 0 <= k < |s| ==> !IsJsonPunct(s[k])) ==> r == s
    decreases |s|
  {
    if |s| == 0 then ""
    else (if IsJsonPunct(s[0]) then "" else [s[0]]) + StripJsonPunct(s[1..])
  }

  /** A field `key<sep>value` that splits into exactly two parts; JSON mode trims both. */
  function PairOf(field: string, sep: char, trim: bool): Option<(string, string)> {
    var kv := JavaSplit(field, sep);
    if |kv| != 2 then None
    else if trim then Some((JavaTrim(kv[0]), JavaTrim(kv[1])))
    else Some((kv[0], kv[1]))
  }

  /** Each field read as a pair, or as nothing when it is malformed. */
  function PairsOf(fields: seq<string>, sep: char, trim: bool): (r: seq<Option<(string, string)>>)
    ensures |r| == |fields|
    ensures forall k :: 0 <= k < |fields| ==> r[k] == PairOf(fields[k], sep, trim)
  {
    seq(|fields|, k requires 0 <= k < |fields| => PairOf(fields[k], sep, trim))
  }

  /** `result.put(key, value)` for a well-formed pair; nothing for a malformed one. */
  function Put(m: map<string, string>, pair: Option<(string, string)>): map<string, string> {
    if pair.Some? then m[pair.value.0 := pair.value.1] else m
  }

  /** The map a loop fills by putting each well-formed pair of `pairs` in order. */
  function Fill(pairs: seq<Option<(string, string)>>): map<string, string>
    decreases |pairs|
  {
    if |pairs| == 0 then map[] else Put(Fill(pairs[..|pairs| - 1]), pairs[|pairs| - 1])
  }

  lemma FillSnoc(pairs: seq<Option<(string, string)>>, i: nat)
    requires i < |pairs|
    ensures Fill(pairs[..i + 1]) == Put(Fill(pairs[..i]), pairs[i])
  {
    assert pairs[..i + 1][..i] == pairs[..i];
  }

  /** The names of the credentials the login handler reads. */
  const UsernameKey: string := "user" + "name"
  const PasswordKey: string := "pass" + "word"

  /** The one method `handleLogin` accepts, compared ignoring case. */
  const Post: string := "PO" + "ST"

  /** The permission of a user entry without one. */
  const DefaultPermission: string := "vi" + "ew"

  /**
   * `getOrDefault("permission", "view")`: the default when the key is missing, null when
   * it holds null, the text otherwise.
   */
  function GrantedPermission(p: PermissionEntry): (r: Option<string>)
    ensures r.None? <==> p.NullPermission?
    ensures r == Some(DefaultPermission) <==> p.NoPermission? || p == PermissionText(DefaultPermission)
    ensures p.PermissionText? ==> r == Some(p.text)
  {
    match p
    case NoPermission => Some(DefaultPermission)
    case NullPermission => None
    case PermissionText(t) => Some(t)
  }

  /**
   * `parseCredentials`: a body starting with '{' is read as flat JSON (punctuation
   * removed, split on ',' and ':', trimmed) and never falls back; any other body is
   * read as a form (split on '&' and '=', untrimmed).
   */
  function Credentials(body: string): map<string, string> {
    if StartsWith(body, "{") then Fill(PairsOf(JavaSplit(StripJsonPunct(body), ','), ':', true))
    else Fill(PairsOf(JavaSplit(body, '&'), '=', false))
  }

  predicate Defines(pair: Option<(string, string)>, key: string) {
    pair.Some? && pair.value.0 == key
  }

  /** A key is present exactly when some well-formed pair defines it. */
  lemma {:induction false} FillKeys(pairs: seq<Option<(string, string)>>, key: string)
    ensures key in Fill(pairs) <==> exists k :: 0 <= k < |pairs| && Defines(pairs[k], key)
    decreases |pairs|
  {
    if |pairs| > 0 {
      var init := pairs[..|pairs| - 1];
      FillKeys(init, key);
      if exists k :: 0 <= k < |init| && Defines(init[k], key) {
        var k :| 0 <= k < |init| && Defines(init[k], key);
        assert pairs[k] == init[k];
      }
      if exists k :: 0 <= k < |pairs| && Defines(pairs[k], key) {
        var k :| 0 <= k < |pairs| && Defines(pairs[k], key);
        if k < |init| {
          assert init[k] == pairs[k];
        }
      }
    }
  }

  /** The value of a key is the one of the last well-formed pair that defines it. */
  lemma {:induction false} FillLast(pairs: seq<Option<(string, string)>>, k: nat)
    requires k < |pairs| && pairs[k].Some?
    requires forall j :: k < j < |pairs| ==> !Defines(pairs[j], pairs[k].value.0)
    ensures pairs[k].value.0 in Fill(pairs) && Fill(pairs)[pairs[k].value.0] == pairs[k].value.1
    decreases |pairs|
  {
    if k < |pairs| - 1 {
      var init := pairs[..|pairs| - 1];
      assert init[k] == pairs[k];
      forall j | k < j < |init|
        ensures !Defines(init[j], pairs[k].value.0)
      {
        assert init[j] == pairs[j];
      }
      FillLast(init, k);
      assert !Defines(pairs[|pairs| - 1], pairs[k].value.0);
    }
  }

  /** The body a login form posts. */
  function FormBody(name: string, password: string): string {
    UsernameKey + "=" + name + "&" + PasswordKey + "=" + password
  }

  predicate FormSafe(s: string) {
    s != "" && '&' !in s && '=' !in s
  }

  /** One form field `key=value` with safe parts reads back as that pair. */
  lemma FormPair(key: string, value: string)
    requires FormSafe(key) && FormSafe(value)
    ensures '&' !in key + "=" + value
    ensures PairOf(key + "=" + value, '=', false) == Some((key, value))
  {
    JavaSplitTwo(key, '=', value);
    assert key + "=" + value == key + ['='] + value;
  }

  /** A login form splits into its two fields, and is not taken for JSON. */
  lemma FormFields(name: string, password: string)
    requires FormSafe(name) && FormSafe(password)
    ensures !StartsWith(FormBody(name, password), "{")
    ensures JavaSplit(FormBody(name, password), '&') == [UsernameKey + "=" + name, PasswordKey + "=" + password]
  {
    var u := UsernameKey + "=" + name;
    var p := PasswordKey + "=" + password;
    FormPair(UsernameKey, name);
    FormPair(PasswordKey, password);
    assert FormBody(name, password) == u + ['&'] + p;
    JavaSplitTwo(u, '&', p);
    assert FormBody(name, password)[0] == 'u';
  }

  lemma FillTwo(a: (string, string), b: (string, string))
    ensures Fill([Some(a), Some(b)]) == map[a.0 := a.1][b.0 := b.1]
  {
    var pairs := [Some(a), Some(b)];
    assert pairs[..1] == [Some(a)] && pairs[..1][..0] == [];
    assert Fill(pairs[..1]) == Put(Fill([]), Some(a)) == map[a.0 := a.1];
    assert Fill(pairs) == Put(Fill(pairs[..1]), Some(b));
  }

  /** A login form with safe fields is read back exactly. */
  lemma FormRoundTrip(name: string, password: string)
    requires FormSafe(name) && FormSafe(password)
    ensures Credentials(FormBody(name, password)) == map[UsernameKey := name, PasswordKey := password]
  {
    var u := UsernameKey + "=" + name;
    var p := PasswordKey + "=" + password;
    FormFields(name, password);
    FormPair(UsernameKey, name);
    FormPair(PasswordKey, password);
    assert PairsOf([u, p], '=', false) == [Some((UsernameKey, name)), Some((PasswordKey, password))];
    FillTwo((UsernameKey, name), (PasswordKey, password));
  }

  // ---------------------------------------------------------------------------------
  // The lockout state machine

  /** `loginFailureCount` and `accountLockTime`, as values. */
  datatype Lockout = Lockout(failures: map<string, int>, locks: map<string, int>) {
    /** `getFailureCount`. */
    function Failures(name: string): int {
      if name in failures then failures[name] else 0
    }
  }

  /** `incrementFailureCount`. */
  function Increment(lo: Lockout, name: string): (r: Lockout)
    ensures r.Failures(name) == lo.Failures(name) + 1 && r.locks == lo.locks
    ensures forall n :: n != name ==> r.Failures(n) == lo.Failures(n)
  {
    Lockout(lo.failures[name := lo.Failures(name) + 1], lo.locks)
  }

  /** `lockAccount`: locked until `lockout-duration` minutes from now. */
  function Lock(lo: Lockout, cfg: Settings, name: string, now: int): Lockout {
    Lockout(lo.failures, lo.locks[name := now + LockoutMillis(cfg)])
  }

  /** `resetFailureCount`: forgets both the count and the lock. */
  function Reset(lo: Lockout, name: string): (r: Lockout)
    ensures name !in r.failures && name !in r.locks && r.Failures(name) == 0
    ensures forall n :: n != name ==> r.Failures(n) == lo.Failures(n)
  {
    Lockout(lo.failures - {name}, lo.locks - {name})
  }

  /**
   * `isAccountLocked`: locked while now is not past the lock time; a lock that has
   * passed is removed, and the failure count is kept.
   */
  function LockCheck(lo: Lockout, name: string, now: int): (r: (bool, Lockout))
    ensures r.0 <==> name in lo.locks && now <= lo.locks[name]
    ensures r.1.failures == lo.failures
    ensures r.1.locks == if name in lo.locks && now > lo.locks[name] then lo.locks - {name} else lo.locks
  {
    if name !in lo.locks then (false, lo)
    else if now > lo.locks[name] then (false, Lockout(lo.failures, lo.locks - {name}))
    else (true, lo)
  }

  /**
   * `getRemainingLockTime`: whole minutes left, counted up; 0 when there is no lock or
   * it has passed.
   */
  function RemainingLockTime(lo: Lockout, name: string, now: int): (r: int)
    ensures r >= 0
    ensures r == 0 <==> name !in lo.locks || lo.locks[name] <= now
    ensures r > 0 ==> (r - 1) * MillisPerMinute <= lo.locks[name] - now < r * MillisPerMinute
  {
    if name !in lo.locks then 0
    else
      var remaining := lo.locks[name] - now;
      if remaining <= 0 then 0 else remaining / (60 * 1000) + 1
  }

  /** What `handleLogin` answers, short of its JSON text. */
  datatype Verdict =
    | MethodNotAllowed
    | MissingCredentials
    | AccountLocked(minutes: int)
    | UnknownUser
    | WrongPassword
    | LockedOut(minutes: int)
    | Granted(username: string, permission: Option<string>)

  /** The HTTP status that goes with each answer. */
  function StatusOf(v: Verdict): (r: int)
    ensures r == 200 <==> v.Granted?
    ensures r == 401 <==> v.AccountLocked? || v.UnknownUser? || v.WrongPassword? || v.LockedOut?
  {
    match v
    case MethodNotAllowed => 405
    case MissingCredentials => 400
    case Granted(_, _) => 200
    case _ => 401
  }

  /** A response of `handleLogin`: status, answer, and the session cookie when one was issued. */
  datatype Response = Response(status: int, verdict: Verdict, session: Option<string>, setCookie: Option<string>)

  /** The `Set-Cookie` header of a successful login; `Max-Age` is computed in `int`. */
  function SessionCookie(sessionId: string, cfg: Settings): string {
    "session=" + sessionId + "; Path=/; Max-Age=" + IntToString(Wrap32(SessionTimeout(cfg) * 60))
  }

  function Render(v: Verdict, sessionId: string, cfg: Settings): (r: Response)
    ensures r.status == StatusOf(v) && r.verdict == v
    ensures r.session.Some? <==> v.Granted?
    ensures r.setCookie.Some? <==> v.Granted?
  {
    if v.Granted? then Response(200, v, Some(sessionId), Some(SessionCookie(sessionId, cfg)))
    else Response(StatusOf(v), v, None, None)
  }

  /** The request is a POST whose credentials name this user and password. */
  predicate Submits(verb: string, creds: map<string, string>, name: string, password: string) {
    EqualsIgnoreCase(verb, Post) &&
    UsernameKey in creds && creds[UsernameKey] == name &&
    PasswordKey in creds && creds[PasswordKey] == password
  }

  /**
   * The decision of `handleLogin` on a request with method `verb` whose body parses to
   * `creds`, and the lockout state afterwards.
   */
  function Attempt(lo: Lockout, users: seq<User>, cfg: Settings, verb: string, creds: map<string, string>, now: int): (Verdict, Lockout) {
    if !EqualsIgnoreCase(verb, Post) then (MethodNotAllowed, lo)
    else
      if UsernameKey !in creds || PasswordKey !in creds then (MissingCredentials, lo)
      else
        var name := creds[UsernameKey];
        var (locked, lo1) := LockCheck(lo, name, now);
        if locked then (AccountLocked(RemainingLockTime(lo1, name, now)), lo1)
        else match UserIndex(users, name)
          case None => (UnknownUser, lo1)
          case Some(i) =>
            if Some(creds[PasswordKey]) != users[i].password then
              var lo2 := Increment(lo1, name);
              if lo2.Failures(name) >= MaxLoginAttempts(cfg) then (LockedOut(LockoutDuration(cfg)), Lock(lo2, cfg, name, now))
              else (WrongPassword, lo2)
            else (Granted(name, GrantedPermission(users[i].permission)), Reset(lo1, name))
  }

  /** Missing credentials are answered with 400 before any lockout check or lookup. */
  lemma MissingCredentialsFirst(lo: Lockout, users: seq<User>, cfg: Settings, verb: string, creds: map<string, string>, now: int)
    requires EqualsIgnoreCase(verb, Post)
    requires UsernameKey !in creds || PasswordKey !in creds
    ensures Attempt(lo, users, cfg, verb, creds, now) == (MissingCredentials, lo)
  {
  }

  /** While a lock holds, every attempt is refused with the minutes left and nothing changes. */
  lemma LockedAttemptRefused(lo: Lockout, users: seq<User>, cfg: Settings, verb: string, creds: map<string, string>, name: string, password: string, now: int)
    requires Submits(verb, creds, name, password)
    requires name in lo.locks && now <= lo.locks[name]
    ensures Attempt(lo, users, cfg, verb, creds, now) == (AccountLocked(RemainingLockTime(lo, name, now)), lo)
    ensures now < lo.locks[name] ==> RemainingLockTime(lo, name, now) >= 1
  {
  }

  /** An unknown name gets 401 and is never counted: its failure count stays 0. */
  lemma UnknownUserNotCounted(lo: Lockout, users: seq<User>, cfg: Settings, verb: string, creds: map<string, string>, name: string, password: string, now: int)
    requires Submits(verb, creds, name, password)
    requires !Known(users, name)
    ensures var (v, lo') := Attempt(lo, users, cfg, verb, creds, now);
      (v == UnknownUser || v.AccountLocked?) && lo'.failures == lo.failures
  {
  }

  /**
   * A wrong password for a known, unlocked user raises its count by one, and locks the
   * account for the configured duration exactly when the count reaches the maximum.
   */
  lemma WrongPasswordCounted(lo: Lockout, users: seq<User>, cfg: Settings, verb: string, creds: map<string, string>, name: string, password: string, now: int)
    requires Submits(verb, creds, name, password)
    requires !LockCheck(lo, name, now).0
    requires Known(users, name) && users[UserIndex(users, name).value].password != Some(password)
    ensures var (v, lo') := Attempt(lo, users, cfg, verb, creds, now);
      lo'.Failures(name) == lo.Failures(name) + 1 &&
      (lo'.Failures(name) >= MaxLoginAttempts(cfg) ==>
        v == LockedOut(LockoutDuration(cfg)) && name in lo'.locks && lo'.locks[name] == now + LockoutMillis(cfg)) &&
      (lo'.Failures(name) < MaxLoginAttempts(cfg) ==> v == WrongPassword && name !in lo'.locks)
  {
  }

  /**
   * Lock expiry keeps the count: once a lock set after `max-login-attempts` failures has
   * passed, a single further wrong password locks the account again.
   */
  lemma ExpiredLockRelocks(lo: Lockout, users: seq<User>, cfg: Settings, verb: string, creds: map<string, string>, name: string, password: string, now: int)
    requires Submits(verb, creds, name, password)
    requires name in lo.locks && now > lo.locks[name]
    requires lo.Failures(name) >= MaxLoginAttempts(cfg)
    requires Known(users, name) && users[UserIndex(users, name).value].password != Some(password)
    ensures var (v, lo') := Attempt(lo, users, cfg, verb, creds, now);
      v == LockedOut(LockoutDuration(cfg)) && lo'.locks[name] == now + LockoutMillis(cfg)
  {
  }

  /** The right password clears the count and the lock, and grants the user's permission ("view" by default). */
  lemma RightPasswordGranted(lo: Lockout, users: seq<User>, cfg: Settings, verb: string, creds: map<string, string>, name: string, password: string, now: int)
    requires Submits(verb, creds, name, password)
    requires !LockCheck(lo, name, now).0
    requires Known(users, name) && users[UserIndex(users, name).value].password == Some(password)
    ensures var (v, lo') := Attempt(lo, users, cfg, verb, creds, now);
      v == Granted(name, GrantedPermission(users[UserIndex(users, name).value].permission)) &&
      name !in lo'.failures && name !in lo'.locks
  {
  }

  /** An attempt changes no other user's count or lock. */
  lemma AttemptTouchesOnlyItsUser(lo: Lockout, users: seq<User>, cfg: Settings, verb: string, creds: map<string, string>, name: string, password: string, now: int, other: string)
    requires Submits(verb, creds, name, password)
    requires other != name
    ensures var lo' := Attempt(lo, users, cfg, verb, creds, now).1;
      lo'.Failures(other) == lo.Failures(other) &&
      (other in lo'.locks <==> other in lo.locks) &&
      (other in lo.locks ==> lo'.locks[other] == lo.locks[other])
  {
  }

  /** Every lock belongs to a counted user, and only known users are counted. */
  ghost predicate Consistent(lo: Lockout, users: seq<User>) {
    lo.locks.Keys <= lo.failures.Keys &&
    forall n :: n in lo.failures ==> Known(users, n)
  }

  lemma StepsConsistent(lo: Lockout, users: seq<User>, cfg: Settings, name: string, now: int)
    requires Consistent(lo, users)
    ensures Consistent(LockCheck(lo, name, now).1, users)
    ensures Consistent(Reset(lo, name), users)
    ensures Known(users, name) ==> Consistent(Increment(lo, name), users)
    ensures Known(users, name) ==> Consistent(Lock(Increment(lo, name), cfg, name, now), users)
  {
  }

  /** The lockout state after an attempt is one of the helpers' results. */
  lemma AttemptShape(lo: Lockout, users: seq<User>, cfg: Settings, verb: string, creds: map<string, string>, now: int)
    requires EqualsIgnoreCase(verb, Post) && UsernameKey in creds && PasswordKey in creds
    ensures var name := creds[UsernameKey];
      var lo1 := LockCheck(lo, name, now).1;
      var r := Attempt(lo, users, cfg, verb, creds, now).1;
      r == lo1 || r == Reset(lo1, name) ||
      (Known(users, name) && (r == Increment(lo1, name) || r == Lock(Increment(lo1, name), cfg, name, now)))
  {
  }

  /** Every attempt keeps the lockout state consistent with the user list. */
  lemma AttemptConsistent(lo: Lockout, users: seq<User>, cfg: Settings, verb: string, creds: map<string, string>, now: int)
    requires Consistent(lo, users)
    ensures Consistent(Attempt(lo, users, cfg, verb, creds, now).1, users)
  {
    if EqualsIgnoreCase(verb, Post) && UsernameKey in creds && PasswordKey in creds {
      var name := creds[UsernameKey];
      StepsConsistent(lo, users, cfg, name, now);
      StepsConsistent(LockCheck(lo, name, now).1, users, cfg, name, now);
      AttemptShape(lo, users, cfg, verb, creds, now);
    }
  }

  // ---------------------------------------------------------------------------------
  // The session id of a request

  const SessionKey: string := "ses" + "sion"

  /** The value of a `session=<v>` pair, trimmed first in cookies; anything else yields nothing. */
  function SessionPair(pair: string, trim: bool): Option<string> {
    var kv := JavaSplit(if trim then JavaTrim(pair) else pair, '=');
    if |kv| == 2 && kv[0] == SessionKey then Some(kv[1]) else None
  }

  /** The session id of the first pair that carries one. */
  function FirstSession(pairs: seq<string>, trim: bool): Option<string>
    decreases |pairs|
  {
    if |pairs| == 0 then None
    else if SessionPair(pairs[0], trim).Some? then SessionPair(pairs[0], trim)
    else FirstSession(pairs[1..], trim)
  }

  /** The first pair that carries a session id decides. */
  lemma {:induction false} FirstSessionIsFirst(pairs: seq<string>, trim: bool, k: nat)
    requires k < |pairs| && SessionPair(pairs[k], trim).Some?
    requires forall j :: 0 <= j < k ==> SessionPair(pairs[j], trim).None?
    ensures FirstSession(pairs, trim) == SessionPair(pairs[k], trim)
    decreases k
  {
    if k > 0 {
      var rest := pairs[1..];
      forall j | 0 <= j < k - 1 ensures SessionPair(rest[j], trim).None? {
        assert rest[j] == pairs[j + 1];
      }
      FirstSessionIsFirst(rest, trim, k - 1);
      assert FirstSession(pairs, trim) == FirstSession(rest, trim);
    }
  }

  /** No session id is found exactly when no pair carries one. */
  lemma {:induction false} FirstSessionAbsent(pairs: seq<string>, trim: bool)
    ensures FirstSession(pairs, trim).None? <==> forall k :: 0 <= k < |pairs| ==> SessionPair(pairs[k], trim).None?
    decreases |pairs|
  {
    if |pairs| > 0 {
      FirstSessionAbsent(pairs[1..], trim);
      assert forall k :: 1 <= k < |pairs| ==> pairs[k] == pairs[1..][k - 1];
    }
  }

  /** The session id one `Cookie` header carries: its first `session=` pair. */
  function HeaderSession(header: string): Option<string> {
    FirstSession(JavaSplit(header, ';'), true)
  }

  /**
   * The session id of all `Cookie` headers together: the `break` leaves only the inner
   * loop, so a later header that carries one overrides the earlier ones.
   */
  function CookieSession(headers: seq<string>): Option<string>
    decreases |headers|
  {
    if |headers| == 0 then None
    else if HeaderSession(headers[|headers| - 1]).Some? then HeaderSession(headers[|headers| - 1])
    else CookieSession(headers[..|headers| - 1])
  }

  /** The last header that carries a session id decides. */
  lemma {:induction false} CookieSessionIsLast(headers: seq<string>, k: nat)
    requires k < |headers| && HeaderSession(headers[k]).Some?
    requires forall j :: k < j < |headers| ==> HeaderSession(headers[j]).None?
    ensures CookieSession(headers) == HeaderSession(headers[k])
    decreases |headers|
  {
    if k < |headers| - 1 {
      var init := headers[..|headers| - 1];
      assert init[k] == headers[k];
      forall j | k < j < |init|
        ensures HeaderSession(init[j]).None?
      {
        assert init[j] == headers[j];
      }
      CookieSessionIsLast(init, k);
    }
  }

  /** The session id of the query string, consulted only when it mentions "session=". */
  function QuerySession(query: Option<string>): Option<string> {
    if query.Some? && Contains(query.value, SessionKey + "=") then FirstSession(JavaSplit(query.value, '&'), false)
    else None
  }

  /** The session id `validateSession` and `getSessionData` look up: cookies first, then the query. */
  function RequestSession(headers: seq<string>, query: Option<string>): (r: Option<string>)
    ensures CookieSession(headers).Some? ==> r == CookieSession(headers)
    ensures CookieSession(headers).None? ==> r == QuerySession(query)
  {
    if CookieSession(headers).Some? then CookieSession(headers) else QuerySession(query)
  }

  /** The cookie a browser sends back after a successful login yields the issued id. */
  lemma CookieRoundTrip(sessionId: string)
    requires sessionId != "" && '=' !in sessionId && ';' !in sessionId
    requires sessionId[|sessionId| - 1] > ' '
    ensures CookieSession([SessionKey + "=" + sessionId]) == Some(sessionId)
  {
    var c := SessionKey + "=" + sessionId;
    assert c == SessionKey + ['='] + sessionId;
    assert ';' !in c;
    FieldsOfSepFree(c, ';');
    assert JavaTrim(c) == c by {
      assert c[0] == 's' && c[|c| - 1] == sessionId[|sessionId| - 1];
    }
    JavaSplitTwo(SessionKey, '=', sessionId);
    assert SessionPair(c, true) == Some(sessionId);
    assert HeaderSession(c) == Some(sessionId);
  }

  /** The search over the pairs of one header or query, written as the source's loop with `break`. */
  method FindSession(pairs: seq<string>, trim: bool) returns (id: Option<string>)
    ensures id == FirstSession(pairs, trim)
  {
    id := None;
    var j := 0;
    while j < |pairs|
      invariant 0 <= j <= |pairs|
      invariant FirstSession(pairs[j..], trim) == FirstSession(pairs, trim)
    {
      var v := SessionPair(pairs[j], trim);
      if v.Some? {
        id := v;
        break;
      }
      assert pairs[j..][1..] == pairs[j + 1..];
      j := j + 1;
    }
  }

  /** The two nested loops over `Cookie` headers and their pairs. */
  method FindCookieSession(headers: seq<string>) returns (id: Option<string>)
    ensures id == CookieSession(headers)
  {
    id := None;
    var i := 0;
    while i < |headers|
      invariant 0 <= i <= |headers|
      invariant id == CookieSession(headers[..i])
    {
      var found := FindSession(JavaSplit(headers[i], ';'), true);
      if found.Some? {
        id := found;
      }
      assert headers[..i + 1][..i] == headers[..i];
      assert id == CookieSession(headers[..i + 1]);
      i := i + 1;
    }
    assert headers[..|headers|] == headers;
  }

  /** The response to `handleCheckSession`: logged in, and as whom. */
  datatype SessionStatus = LoggedOut | LoggedIn(username: string, permission: Option<string>)

  class AuthController {
    /** The `authentication` section. */
    var settings: Settings
    /** The `users` list. */
    var users: seq<User>
    const sessionManager: SessionManager
    var loginFailureCount: map<string, int>
    var accountLockTime: map<string, int>

    ghost predicate Valid()
      reads this, sessionManager
    {
      sessionManager.Valid()
    }

    function Current(): Lockout
      reads this
    {
      Lockout(loginFailureCount, accountLockTime)
    }

    /**
     * The controller over a loaded `passwd.yml`: a missing section reads as empty, and
     * the session manager gets the configured timeout.
     */
    constructor (authentication: Option<Settings>, userList: Option<seq<User>>)
      ensures settings == authentication.GetOr(map[]) && users == userList.GetOr([])
      ensures loginFailureCount == map[] && accountLockTime == map[]
      ensures fresh(sessionManager) && sessionManager.sessions == map[]
      ensures sessionManager.sessionTimeout == SessionTimeout(settings) * MillisPerMinute
      ensures Valid()
    {
      settings := authentication.GetOr(map[]);
      users := userList.GetOr([]);
      loginFailureCount := map[];
      accountLockTime := map[];
      sessionManager := new SessionManager(SessionTimeout(authentication.GetOr(map[])));
    }

    method IncrementFailureCount(name: string)
      modifies this
      ensures Current() == Increment(old(Current()), name)
      ensures settings == old(settings) && users == old(users)
    {
      var count := if name in loginFailureCount then loginFailureCount[name] else 0;
      loginFailureCount := loginFailureCount[name := count + 1];
    }

    method ResetFailureCount(name: string)
      modifies this
      ensures Current() == Reset(old(Current()), name)
      ensures settings == old(settings) && users == old(users)
    {
      loginFailureCount := loginFailureCount - {name};
      accountLockTime := accountLockTime - {name};
    }

    method LockAccount(name: string, now: int)
      modifies this
      ensures Current() == Lock(old(Current()), settings, name, now)
      ensures settings == old(settings) && users == old(users)
    {
      accountLockTime := accountLockTime[name := now + Wrap32(LockoutDuration(settings) * 60 * 1000)];
    }

    method IsAccountLocked(name: string, now: int) returns (locked: bool)
      modifies this
      ensures (locked, Current()) == LockCheck(old(Current()), name, now)
      ensures settings == old(settings) && users == old(users)
    {
      if name !in accountLockTime {
        return false;
      }
      if now > accountLockTime[name] {
        accountLockTime := accountLockTime - {name};
        return false;
      }
      return true;
    }

    /** The credentials parser's loops over the fields of the body. */
    method ParseCredentials(body: string) returns (result: map<string, string>)
      ensures result == Credentials(body)
    {
      var fields, sep, trim;
      if StartsWith(body, "{") {
        fields, sep, trim := JavaSplit(StripJsonPunct(body), ','), ':', true;
      } else {
        fields, sep, trim := JavaSplit(body, '&'), '=', false;
      }
      ghost var pairs := PairsOf(fields, sep, trim);
      result := map[];
      var i := 0;
      while i < |fields|
        invariant 0 <= i <= |fields|
        invariant result == Fill(pairs[..i])
      {
        var pair := PairOf(fields[i], sep, trim);
        FillSnoc(pairs, i);
        ghost var before := result;
        if pair.Some? {
          result := result[pair.value.0 := pair.value.1];
        }
        assert result == Put(before, pairs[i]);
        assert result == Fill(pairs[..i + 1]);
        i := i + 1;
      }
      assert pairs[..|fields|] == pairs;
    }

    /**
     * `handleLogin` for a request with this method and body, at time `now`; `freshId`
     * stands for the random session id a successful login draws.
     */
    method HandleLogin(verb: string, body: string, now: int, freshId: string) returns (resp: Response)
      requires Valid()
      modifies this, sessionManager
      ensures Valid()
      ensures settings == old(settings) && users == old(users)
      ensures (resp.verdict, Current()) == Attempt(old(Current()), users, settings, verb, Credentials(body), now)
      ensures resp == Render(resp.verdict, freshId, settings)
      ensures resp.verdict.Granted? ==>
        sessionManager.Current() == Create(old(sessionManager.Current()), resp.verdict.username, resp.verdict.permission, freshId, now)
      ensures !resp.verdict.Granted? ==> sessionManager.Current() == old(sessionManager.Current())
      ensures sessionManager.sessionTimeout == old(sessionManager.sessionTimeout)
    {
      if !EqualsIgnoreCase(verb, Post) {
        return Render(MethodNotAllowed, freshId, settings);
      }
      var creds := ParseCredentials(body);
      if UsernameKey !in creds || PasswordKey !in creds {
        return Render(MissingCredentials, freshId, settings);
      }
      var name := creds[UsernameKey];
      var password := creds[PasswordKey];
      var locked := IsAccountLocked(name, now);
      if locked {
        return Render(AccountLocked(RemainingLockTime(Current(), name, now)), freshId, settings);
      }
      var index := UserIndex(users, name);
      if index.None? {
        return Render(UnknownUser, freshId, settings);
      }
      var user := users[index.value];
      if Some(password) != user.password {
        IncrementFailureCount(name);
        var failures := loginFailureCount[name];
        if failures >= MaxLoginAttempts(settings) {
          LockAccount(name, now);
          return Render(LockedOut(LockoutDuration(settings)), freshId, settings);
        }
        return Render(WrongPassword, freshId, settings);
      }
      ResetFailureCount(name);
      var permission := GrantedPermission(user.permission);
      var sessionId := sessionManager.CreateSession(name, permission, freshId, now);
      resp := Render(Granted(name, permission), sessionId, settings);
    }

    /**
     * `login`: the programmatic login. It compares the same plain-text password but
     * neither consults nor updates the lockout state.
     */
    method Login(name: string, password: string, now: int, freshId: string) returns (sessionId: Option<string>)
      requires Valid()
      modifies sessionManager
      ensures Valid()
      ensures sessionId.Some? <==> Known(users, name) && users[UserIndex(users, name).value].password == Some(password)
      ensures sessionId.Some? ==> sessionId.value == freshId
      ensures sessionId.Some? ==> sessionManager.Current() == Create(old(sessionManager.Current()), name, GrantedPermission(users[UserIndex(users, name).value].permission), freshId, now)
      ensures sessionId.None? ==> sessionManager.Current() == old(sessionManager.Current())
      ensures sessionManager.sessionTimeout == old(sessionManager.sessionTimeout)
    {
      var index := UserIndex(users, name);
      if index.None? {
        return None;
      }
      var user := users[index.value];
      if user.password.None? || password != user.password.value {
        return None;
      }
      var id := sessionManager.CreateSession(name, GrantedPermission(user.permission), freshId, now);
      sessionId := Some(id);
    }

    /** `logout`. */
    method Logout(sessionId: Option<string>)
      requires Valid()
      modifies sessionManager
      ensures Valid()
      ensures sessionManager.Current() == Remove(old(sessionManager.Current()), sessionId)
      ensures sessionManager.sessionTimeout == old(sessionManager.sessionTimeout)
    {
      if sessionId.Some? {
        sessionManager.RemoveSession(sessionId);
      }
    }

    /** `isValidSession(id)`: a non-null id whose session data can be read. */
    method IsValidSession(sessionId: Option<string>, now: int) returns (valid: bool)
      requires Valid()
      modifies sessionManager
      ensures Valid()
      ensures valid <==> Check(old(sessionManager.Current()), old(sessionManager.sessionTimeout), sessionId, now).0
      ensures sessionManager.Current() == Check(old(sessionManager.Current()), old(sessionManager.sessionTimeout), sessionId, now).1
      ensures sessionManager.sessionTimeout == old(sessionManager.sessionTimeout)
    {
      if sessionId.None? {
        return false;
      }
      var data := sessionManager.GetSessionData(sessionId, now);
      valid := data.Some?;
    }

    /** `validateSession`: the request's session id, from cookies or the query, checked. */
    method ValidateSession(headers: seq<string>, query: Option<string>, now: int) returns (valid: bool)
      requires Valid()
      modifies sessionManager
      ensures Valid()
      ensures (valid, sessionManager.Current()) ==
        Check(old(sessionManager.Current()), old(sessionManager.sessionTimeout), RequestSession(headers, query), now)
      ensures sessionManager.sessionTimeout == old(sessionManager.sessionTimeout)
    {
      var id := FindCookieSession(headers);
      if id.None? && query.Some? && Contains(query.value, SessionKey + "=") {
        id := FindSession(JavaSplit(query.value, '&'), false);
      }
      valid := sessionManager.IsValidSession(id, now);
    }

    /** `handleCheckSession`: who the request's session belongs to, if it is valid. */
    method HandleCheckSession(headers: seq<string>, query: Option<string>, now: int) returns (status: SessionStatus)
      requires Valid()
      modifies sessionManager
      ensures Valid()
      ensures var (data, t) := Lookup(old(sessionManager.Current()), old(sessionManager.sessionTimeout), RequestSession(headers, query), now);
        sessionManager.Current() == t &&
        (data.None? ==> status == LoggedOut) &&
        (data.Some? ==> status == LoggedIn(data.value.username, data.value.permission))
      ensures sessionManager.sessionTimeout == old(sessionManager.sessionTimeout)
    {
      var id := FindCookieSession(headers);
      if id.None? && query.Some? && Contains(query.value, SessionKey + "=") {
        id := FindSession(JavaSplit(query.value, '&'), false);
      }
      var data := sessionManager.GetSessionData(id, now);
      if data.None? {
        return LoggedOut;
      }
      status := LoggedIn(data.value.username, data.value.permission);
    }

    /**
     * `handleLogout`: only cookies are consulted; the session is removed and the
     * returned header clears the cookie.
     */
    method HandleLogout(headers: seq<string>) returns (setCookie: string)
      requires Valid()
      modifies sessionManager
      ensures Valid()
      ensures sessionManager.Current() == Remove(old(sessionManager.Current()), CookieSession(headers))
      ensures setCookie == "session=; Path=/; Max-Age=0"
      ensures sessionManager.sessionTimeout == old(sessionManager.sessionTimeout)
    {
      var id := FindCookieSession(headers);
      if id.Some? {
        sessionManager.RemoveSession(id);
      }
      setCookie := "session=; Path=/; Max-Age=0";
    }

    /**
     * `reload` from a freshly loaded `passwd.yml`: a section that is present replaces
     * the current one (a null section empties it); a new `authentication` section also
     * resets the session timeout. The lockout state and the sessions are kept.
     */
    method Reload(authentication: Option<Settings>, userList: Option<seq<User>>)
      requires Valid()
      modifies this, sessionManager
      ensures Valid()
      ensures users == if userList.Some? then userList.value else old(users)
      ensures settings == if authentication.Some? then authentication.value else old(settings)
      ensures authentication.Some? ==> sessionManager.sessionTimeout == SessionTimeout(settings) * MillisPerMinute
      ensures authentication.None? ==> sessionManager.sessionTimeout == old(sessionManager.sessionTimeout)
      ensures Current() == old(Current())
      ensures sessionManager.Current() == old(sessionManager.Current())
    {
      if userList.Some? {
        users := [];
        users := users + userList.value;
      }
      if authentication.Some? {
        settings := map[];
        settings := settings + authentication.value;
        sessionManager.SetSessionTimeout(SessionTimeout(settings));
      }
    }
  }
}
