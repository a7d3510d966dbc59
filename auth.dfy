/** The account routes: signup, login, logout and "who am I". The user
    collection is a sequence of user documents held by `UserStore`; bcrypt's
    hash and compare and JWT's sign and verify are supplied by the caller as an
    opaque hash text and opaque functions. The environment the routes read
    (`JWT_EXPIRES_IN`, `COOKIE_NAME`, `COOKIE_SECURE`) is a `Config` value. */
module Auth {
  import opened Common
  import opened Decimal

  datatype Config = Config(
    jwtExpiresIn: Option<string>,
    cookieName: Option<string>,
    cookieSecure: Option<string>)

  const DayMs: int := 24 * 60 * 60 * 1000
  const WeekMs: int := 7 * 24 * 60 * 60 * 1000

  /** `process.env.JWT_EXPIRES_IN || "7d"`: the token lifetime text. */
  function ExpiryText(cfg: Config): string {
    if TruthyText(cfg.jwtExpiresIn) then cfg.jwtExpiresIn.value else "7d"
  }

  /** `process.env.COOKIE_NAME || "ngs_token"`. */
  function CookieName(cfg: Config): string {
    if TruthyText(cfg.cookieName) then cfg.cookieName.value else "ngs_token"
  }

  /** `process.env.COOKIE_SECURE === "true"`. */
  predicate Secure(cfg: Config) {
    cfg.cookieSecure == Some("true")
  }

  // ---------------------------------------------------------------------
  // JavaScript's parseInt(s) with no radix argument

  /** The characters the ECMAScript grammar calls StrWhiteSpaceChar:
      white space (including every space separator) and line terminators. */
  predicate IsJsSpace(c: char) {
    ('\t' <= c <= '\r') || c == ' ' || c == '\U{A0}' || c == '\U{1680}' ||
    ('\U{2000}' <= c <= '\U{200A}') || c == '\U{2028}' || c == '\U{2029}' ||
    c == '\U{202F}' || c == '\U{205F}' || c == '\U{3000}' || c == '\U{FEFF}'
  }

  function TrimStart(s: string): string {
    if |s| > 0 && IsJsSpace(s[0]) then TrimStart(s[1..]) else s
  }

  /** Skipping white space keeps a suffix of the text. */
  lemma {:induction false} TrimStartIsSuffix(s: string)
    ensures var t := TrimStart(s); |t| <= |s| && forall i :: 0 <= i < |t| ==> t[i] == s[|s| - |t| + i]
  {
    if |s| > 0 && IsJsSpace(s[0]) {
      TrimStartIsSuffix(s[1..]);
    }
  }

  /** The leading run of digits of base `radix` in `s`. */
  function DigitPrefix(s: string, radix: nat): (p: string)
    ensures AllDigitsIn(p, radix)
  {
    if |s| > 0 && IsDigitIn(s[0], radix) then
      var rest := DigitPrefix(s[1..], radix);
      assert forall i :: 0 <= i < |rest| ==> ([s[0]] + rest)[i + 1] == rest[i];
      [s[0]] + rest
    else ""
  }

  /** The run is a prefix of `s`, and the longest one: the character after
      it, if any, is not a digit. */
  lemma {:induction false} DigitPrefixIsLongest(s: string, radix: nat)
    ensures var p := DigitPrefix(s, radix);
      |p| <= |s| && p == s[..|p|] && (|p| < |s| ==> !IsDigitIn(s[|p|], radix))
  {
    if |s| > 0 && IsDigitIn(s[0], radix) {
      DigitPrefixIsLongest(s[1..], radix);
      var rest := DigitPrefix(s[1..], radix);
      assert s[1..][..|rest|] == s[1..|rest| + 1];
      assert s == [s[0]] + s[1..];
    }
  }

  /** `parseInt(s)`: skip leading white space, read an optional sign, then
      the unsigned number; `None` is NaN. */
  function ParseInt(s: string): (r: Option<int>)
    ensures (forall i :: 0 <= i < |s| ==> !IsDigitIn(s[i], 10)) ==> r.None?
    ensures r.Some? && r.value < 0 ==> |TrimStart(s)| > 0 && TrimStart(s)[0] == '-'
  {
    var t := TrimStart(s);
    TrimStartIsSuffix(s);
    if |t| > 0 && t[0] == '-' then
      match ParseUnsigned(t[1..])
      case None => None
      case Some(v) => Some(-v)
    else if |t| > 0 && t[0] == '+' then ParseUnsigned(t[1..])
    else ParseUnsigned(t)
  }

  /** The number after the sign: base 16 after `0x`/`0X`, base 10 otherwise,
      read as the longest run of digits; `None` when there is no digit. */
  function ParseUnsigned(u: string): (r: Option<int>)
    ensures r.Some? ==> r.value >= 0 && |u| > 0 && IsDigitIn(u[0], 10)
  {
    var hex := |u| >= 2 && u[0] == '0' && (u[1] == 'x' || u[1] == 'X');
    var radix := if hex then 16 else 10;
    var digits := DigitPrefix(if hex then u[2..] else u, radix);
    DigitPrefixIsLongest(if hex then u[2..] else u, radix);
    assert |digits| > 0 && !hex ==> digits[0] == u[0];
    if |digits| == 0 then None else Some(ValueIn(digits, radix))
  }

  /** A run of digits followed by a non-digit reads as exactly that run. */
  lemma {:induction false} DigitPrefixAppend(p: string, rest: string, radix: nat)
    requires AllDigitsIn(p, radix)
    requires |rest| == 0 || !IsDigitIn(rest[0], radix)
    ensures DigitPrefix(p + rest, radix) == p
  {
    if |p| > 0 {
      assert (p + rest)[0] == p[0];
      assert (p + rest)[1..] == p[1..] + rest;
      DigitPrefixAppend(p[1..], rest, radix);
      assert p == [p[0]] + p[1..];
    } else {
      assert p + rest == rest;
    }
  }

  /** `parseInt(String(n) + rest) === n` whenever `rest` does not continue the
      number (no further digit, and no `x` that would make `0x` a prefix). */
  lemma ParseIntOfDecimal(n: int, rest: string)
    requires |rest| == 0 || (!IsDigitIn(rest[0], 10) && rest[0] != 'x' && rest[0] != 'X')
    ensures ParseInt(IntToDecimal(n) + rest) == Some(n)
  {
    var m: nat := if n < 0 then -n else n;
    var d := NatToDecimal(m);
    var u := d + rest;
    ParseUnsignedOfDecimal(m, rest);
    assert u[0] == d[0];
    if n < 0 {
      assert IntToDecimal(n) + rest == "-" + u;
      ParseNegative(u, m);
    } else {
      ParseUnsignedText(u);
    }
  }

  /** Text that starts with a digit has no space or sign to skip. */
  lemma ParseUnsignedText(u: string)
    requires |u| > 0 && IsDigitIn(u[0], 10)
    ensures ParseInt(u) == ParseUnsigned(u)
  {
    assert TrimStart(u) == u;
  }

  lemma ParseNegative(u: string, m: nat)
    requires ParseUnsigned(u) == Some(m)
    ensures ParseInt("-" + u) == Some(-(m as int))
  {
    var s := "-" + u;
    assert s[0] == '-' && s[1..] == u;
    assert !IsJsSpace('-');
    assert TrimStart(s) == s;
    assert ParseUnsigned(s[1..]) == Some(m);
  }

  lemma ParseUnsignedOfDecimal(m: nat, rest: string)
    requires |rest| == 0 || (!IsDigitIn(rest[0], 10) && rest[0] != 'x' && rest[0] != 'X')
    ensures ParseUnsigned(NatToDecimal(m) + rest) == Some(m)
  {
    var d := NatToDecimal(m);
    var u := d + rest;
    assert u[0] == d[0];
    assert |u| >= 2 && u[0] == '0' ==> u[1] == rest[0];
    DigitPrefixAppend(d, rest, 10);
    NatToDecimalValue(m);
  }

  /** White space in front of the text does not change what it reads as. */
  lemma {:induction false} ParseIntSkipsSpace(ws: string, s: string)
    requires forall i :: 0 <= i < |ws| ==> IsJsSpace(ws[i])
    ensures ParseInt(ws + s) == ParseInt(s)
  {
    TrimStartSkipsSpace(ws, s);
  }

  lemma {:induction false} TrimStartSkipsSpace(ws: string, s: string)
    requires forall i :: 0 <= i < |ws| ==> IsJsSpace(ws[i])
    ensures TrimStart(ws + s) == TrimStart(s)
  {
    if |ws| == 0 {
      assert ws + s == s;
    } else {
      assert (ws + s)[0] == ws[0];
      assert (ws + s)[1..] == ws[1..] + s;
      TrimStartSkipsSpace(ws[1..], s);
    }
  }

  // ---------------------------------------------------------------------
  // The token cookie

  predicate EndsWithDay(v: string) {
    |v| > 0 && v[|v| - 1] == 'd'
  }

  /** The cookie lifetime in milliseconds for an expiry text: days for a text
      ending in `d`, seven days otherwise; `None` is NaN (a `d` text with no
      leading number). */
  function MaxAge(v: string): (ms: Option<int>)
    ensures ms.None? ==> EndsWithDay(v)
  {
    if EndsWithDay(v) then
      match ParseInt(v)
      case None => None
      case Some(n) => Some(n * DayMs)
    else Some(WeekMs)
  }

  function CookieMaxAge(cfg: Config): Option<int> {
    MaxAge(ExpiryText(cfg))
  }

  /** `"Nd"` lasts N days. */
  lemma MaxAgeOfDays(n: int)
    ensures MaxAge(IntToDecimal(n) + "d") == Some(n * DayMs)
  {
    ParseIntOfDecimal(n, "d");
  }

  /** An expiry text not ending in `d`, and an unset or empty one (which
      stands for `"7d"`), both give seven days. */
  lemma SevenDayFallback(cfg: Config)
    ensures !EndsWithDay(ExpiryText(cfg)) ==> CookieMaxAge(cfg) == Some(WeekMs)
    ensures !TruthyText(cfg.jwtExpiresIn) ==> CookieMaxAge(cfg) == Some(WeekMs)
  {
    MaxAgeOfDays(7);
    assert IntToDecimal(7) + "d" == "7d";
  }

  datatype CookieAction =
    | NoCookie
    | SetCookie(name: string, value: string, httpOnly: bool, secure: bool, sameSite: string, maxAge: int)
    | ClearCookie(name: string, httpOnly: bool, secure: bool, sameSite: string)

  /** `sendTokenCookie(res, token)`, when the lifetime is a number. */
  function TokenCookie(cfg: Config, token: string, maxAge: int): CookieAction {
    SetCookie(CookieName(cfg), token, true, Secure(cfg), "lax", maxAge)
  }

  // ---------------------------------------------------------------------
  // Users and responses

  datatype User = User(id: nat, name: string, email: string, passwordHash: string, favoriteTeam: string)

  /** What the routes send back about a user: never the password hash. */
  datatype SafeUser = SafeUser(id: nat, name: string, email: string, favoriteTeam: string)

  datatype Body = Message(message: string) | UserBody(user: SafeUser)

  datatype Response = Response(status: int, cookie: CookieAction, body: Body)

  const InvalidCredentials: string := "Invalid credentials"
  const NotAuthenticated: string := "Not authenticated"
  const ServerError: string := "Server error"

  function SafeUserOf(u: User): (s: SafeUser)
    ensures s.id == u.id && s.name == u.name && s.email == u.email && s.favoriteTeam == u.favoriteTeam
  {
    SafeUser(u.id, u.name, u.email, u.favoriteTeam)
  }

  ghost predicate UniqueEmails(users: seq<User>) {
    forall i, j :: 0 <= i < j < |users| ==> users[i].email != users[j].email
  }

  ghost predicate UniqueIds(users: seq<User>) {
    forall i, j :: 0 <= i < j < |users| ==> users[i].id != users[j].id
  }

  /** The first user satisfying `p`, as a query for one document returns it. */
  function FindFirst(users: seq<User>, p: User -> bool): (r: Option<User>)
    ensures r.Some? ==> r.value in users && p(r.value)
    ensures r.None? ==> forall u :: u in users ==> !p(u)
  {
    if |users| == 0 then None
    else if p(users[0]) then Some(users[0])
    else
      var r := FindFirst(users[1..], p);
      assert forall u :: u in users ==> u == users[0] || u in users[1..];
      r
  }

  function EmailIs(email: string): User -> bool {
    (u: User) => u.email == email
  }

  function IdIs(id: nat): User -> bool {
    (u: User) => u.id == id
  }

  /** `User.findOne({ email })`: the first user with that email. */
  function FindByEmail(users: seq<User>, email: string): (r: Option<User>)
    ensures r.Some? ==> r.value in users && r.value.email == email
    ensures r.None? ==> forall u :: u in users ==> u.email != email
  {
    FindFirst(users, EmailIs(email))
  }

  /** `User.findById(id)`: the user with that id. */
  function FindById(users: seq<User>, id: nat): (r: Option<User>)
    ensures r.Some? ==> r.value in users && r.value.id == id
    ensures r.None? ==> forall u :: u in users ==> u.id != id
  {
    FindFirst(users, IdIs(id))
  }

  /** When `u` is the only user satisfying `p`, it is the one found. */
  lemma FindFirstOnly(users: seq<User>, p: User -> bool, u: User)
    requires u in users && p(u)
    requires forall v :: v in users && p(v) ==> v == u
    ensures FindFirst(users, p) == Some(u)
  {
  }

  /** With distinct emails, the user found is the one holding the email. */
  lemma FindByEmailUnique(users: seq<User>, u: User)
    requires UniqueEmails(users) && u in users
    ensures FindByEmail(users, u.email) == Some(u)
  {
    forall v | v in users && EmailIs(u.email)(v)
      ensures v == u
    {
      var i :| 0 <= i < |users| && users[i] == u;
      var j :| 0 <= j < |users| && users[j] == v;
      assert i == j;
    }
    FindFirstOnly(users, EmailIs(u.email), u);
  }

  /** With distinct ids, the user found is the one holding the id. */
  lemma FindByIdUnique(users: seq<User>, u: User)
    requires UniqueIds(users) && u in users
    ensures FindById(users, u.id) == Some(u)
  {
    forall v | v in users && IdIs(u.id)(v)
      ensures v == u
    {
      var i :| 0 <= i < |users| && users[i] == u;
      var j :| 0 <= j < |users| && users[j] == v;
      assert i == j;
    }
    FindFirstOnly(users, IdIs(u.id), u);
  }

  /** A user appended after a search that found nothing is found next time. */
  lemma {:induction false} FindFirstAppend(users: seq<User>, p: User -> bool, u: User)
    requires FindFirst(users, p).None? && p(u)
    ensures FindFirst(users + [u], p) == Some(u)
  {
    if |users| > 0 {
      assert (users + [u])[0] == users[0];
      assert (users + [u])[1..] == users[1..] + [u];
      FindFirstAppend(users[1..], p, u);
    } else {
      assert users + [u] == [u];
    }
  }

  /** Appending users does not change a search that already found one. */
  lemma {:induction false} FindFirstKeeps(users: seq<User>, more: seq<User>, p: User -> bool)
    requires FindFirst(users, p).Some?
    ensures FindFirst(users + more, p) == FindFirst(users, p)
  {
    assert (users + more)[0] == users[0];
    if !p(users[0]) {
      assert (users + more)[1..] == users[1..] + more;
      FindFirstKeeps(users[1..], more, p);
    }
  }

  // ---------------------------------------------------------------------
  // POST /api/auth/login

  datatype LoginRequest = LoginRequest(email: Option<string>, password: Option<string>)

  /** The login handler. `matches(candidate, hash)` is bcrypt's compare and
      `sign(id, expiresIn)` is `signToken`; logging in changes no user. */
  function Login(users: seq<User>, req: LoginRequest, cfg: Config,
                 matches: (string, string) -> bool, sign: (nat, string) -> string): (res: Response)
    ensures !TruthyText(req.email) || !TruthyText(req.password) ==>
      res == Response(400, NoCookie, Message("Email and password required"))
    ensures (TruthyText(req.email) && TruthyText(req.password) &&
             forall u :: u in users && u.email == req.email.value ==> !matches(req.password.value, u.passwordHash)) ==>
      res == Response(401, NoCookie, Message(InvalidCredentials))
    ensures res.status == 200 ==>
      exists u :: u in users && u.email == req.email.value && matches(req.password.value, u.passwordHash) &&
        CookieMaxAge(cfg).Some? &&
        res == Response(200, TokenCookie(cfg, sign(u.id, ExpiryText(cfg)), CookieMaxAge(cfg).value), UserBody(SafeUserOf(u)))
    ensures res.status in {200, 400, 401, 500}
    ensures res.status == 500 ==> CookieMaxAge(cfg).None? && res == Response(500, NoCookie, Message(ServerError))
  {
    if !TruthyText(req.email) || !TruthyText(req.password) then
      Response(400, NoCookie, Message("Email and password required"))
    else
      match FindByEmail(users, req.email.value)
      case None => Response(401, NoCookie, Message(InvalidCredentials))
      case Some(u) =>
        if !matches(req.password.value, u.passwordHash) then
          Response(401, NoCookie, Message(InvalidCredentials))
        else
          match CookieMaxAge(cfg)
          case None => Response(500, NoCookie, Message(ServerError))
          case Some(ms) =>
            Response(200, TokenCookie(cfg, sign(u.id, ExpiryText(cfg)), ms), UserBody(SafeUserOf(u)))
  }

  /** With distinct emails and a numeric cookie lifetime, login succeeds
      exactly when some user holds the email and the password matches its
      hash; an unknown email and a wrong password get the same answer. */
  lemma LoginSucceedsExactlyWhen(users: seq<User>, req: LoginRequest, cfg: Config,
                                 matches: (string, string) -> bool, sign: (nat, string) -> string)
    requires UniqueEmails(users) && CookieMaxAge(cfg).Some?
    ensures Login(users, req, cfg, matches, sign).status == 200 <==>
      TruthyText(req.email) && TruthyText(req.password) &&
      exists u :: u in users && u.email == req.email.value && matches(req.password.value, u.passwordHash)
  {
    if TruthyText(req.email) && TruthyText(req.password) {
      if u :| u in users && u.email == req.email.value && matches(req.password.value, u.passwordHash) {
        FindByEmailUnique(users, u);
      }
    }
  }

  // ---------------------------------------------------------------------
  // POST /api/auth/logout

  /** The logout handler: clear the token cookie; it reads no user. */
  function Logout(cfg: Config): (res: Response)
    ensures res.status == 200 && res.body == Message("Logged out")
    ensures res.cookie.ClearCookie? && res.cookie.name == CookieName(cfg) && res.cookie.httpOnly
    ensures res.cookie.secure == Secure(cfg)
    ensures res.cookie.sameSite == (if Secure(cfg) then "none" else "lax")
  {
    Response(200, ClearCookie(CookieName(cfg), true, Secure(cfg), if Secure(cfg) then "none" else "lax"),
             Message("Logged out"))
  }

  /** Logout clears the very cookie a successful login sets. */
  lemma LogoutClearsLoginCookie(users: seq<User>, req: LoginRequest, cfg: Config,
                                matches: (string, string) -> bool, sign: (nat, string) -> string)
    requires Login(users, req, cfg, matches, sign).status == 200
    ensures Logout(cfg).cookie.name == Login(users, req, cfg, matches, sign).cookie.name
    ensures Logout(cfg).cookie.secure == Login(users, req, cfg, matches, sign).cookie.secure
  {
  }

  // ---------------------------------------------------------------------
  // GET /api/auth/me

  /** `req.cookies?.[cookieName] || null`. */
  function TokenOf(cookies: map<string, string>, cfg: Config): (r: Option<string>)
    ensures r.Some? ==> r.value != "" && CookieName(cfg) in cookies && cookies[CookieName(cfg)] == r.value
    ensures r.None? ==> CookieName(cfg) !in cookies || cookies[CookieName(cfg)] == ""
  {
    if CookieName(cfg) in cookies && cookies[CookieName(cfg)] != "" then Some(cookies[CookieName(cfg)]) else None
  }

  /** The "who am I" handler. `verify(token)` is `jwt.verify`'s subject, or
      `None` when verification throws. */
  function Me(users: seq<User>, cookies: map<string, string>, cfg: Config, verify: string -> Option<nat>): (res: Response)
    ensures res.status == 200 || res == Response(401, NoCookie, Message(NotAuthenticated))
    ensures res.status == 200 <==>
      TokenOf(cookies, cfg).Some? && verify(TokenOf(cookies, cfg).value).Some? &&
      exists u :: u in users && u.id == verify(TokenOf(cookies, cfg).value).value
    ensures res.status == 200 ==>
      exists u :: u in users && u.id == verify(TokenOf(cookies, cfg).value).value &&
        res == Response(200, NoCookie, UserBody(SafeUserOf(u)))
  {
    match TokenOf(cookies, cfg)
    case None => Response(401, NoCookie, Message(NotAuthenticated))
    case Some(token) =>
      match verify(token)
      case None => Response(401, NoCookie, Message(NotAuthenticated))
      case Some(sub) =>
        match FindById(users, sub)
        case None => Response(401, NoCookie, Message(NotAuthenticated))
        case Some(u) => Response(200, NoCookie, UserBody(SafeUserOf(u)))
  }

  /** Sending back the cookie a login set, whose token verifies to the user's
      id, makes `/me` answer with the same user. */
  lemma LoginThenMe(users: seq<User>, req: LoginRequest, cfg: Config,
                    matches: (string, string) -> bool, sign: (nat, string) -> string, verify: string -> Option<nat>)
    requires UniqueIds(users)
    requires Login(users, req, cfg, matches, sign).status == 200
    requires var c := Login(users, req, cfg, matches, sign).cookie;
      c.value != "" && verify(c.value).Some? &&
      verify(c.value).value == Login(users, req, cfg, matches, sign).body.user.id
    ensures var login := Login(users, req, cfg, matches, sign);
      Me(users, map[login.cookie.name := login.cookie.value], cfg, verify) == Response(200, NoCookie, login.body)
  {
    var login := Login(users, req, cfg, matches, sign);
    var u := FindByEmail(users, req.email.value).value;
    FindByIdUnique(users, u);
  }

  // ---------------------------------------------------------------------
  // POST /api/auth/signup

  datatype SignupRequest = SignupRequest(
    name: Option<string>,
    email: Option<string>,
    password: Option<string>,
    favoriteTeam: Option<string>)

  predicate Complete(req: SignupRequest) {
    TruthyText(req.name) && TruthyText(req.email) && TruthyText(req.password)
  }

  /** The document `User.createWithPassword` stores; an absent favourite team
      takes the schema default `""`. */
  function NewUser(id: nat, req: SignupRequest, passwordHash: string): (u: User)
    requires Complete(req)
    ensures u.id == id && u.name == req.name.value && u.email == req.email.value
    ensures u.passwordHash == passwordHash && u.favoriteTeam == req.favoriteTeam.GetOr("")
  {
    User(id, req.name.value, req.email.value, passwordHash, req.favoriteTeam.GetOr(""))
  }

  /** Signing up with an email already present is refused; signing up with a
      new one and then logging in with the same password finds the new user. */
  lemma SignupThenLogin(users: seq<User>, id: nat, req: SignupRequest, passwordHash: string, cfg: Config,
                        matches: (string, string) -> bool, sign: (nat, string) -> string)
    requires Complete(req) && FindByEmail(users, req.email.value).None?
    requires matches(req.password.value, passwordHash) && CookieMaxAge(cfg).Some?
    ensures var u := NewUser(id, req, passwordHash);
      FindByEmail(users + [u], u.email) == Some(u) &&
      Login(users + [u], LoginRequest(req.email, req.password), cfg, matches, sign) ==
        Response(200, TokenCookie(cfg, sign(id, ExpiryText(cfg)), CookieMaxAge(cfg).value), UserBody(SafeUserOf(u)))
  {
    var u := NewUser(id, req, passwordHash);
    FindFirstAppend(users, EmailIs(u.email), u);
  }

  /** The user collection. `nextId` stands for the supply of fresh ObjectIds. */
  class UserStore {
    var users: seq<User>
    var nextId: nat

    /** The collection's unique index on `email`, and ids that were all handed out. */
    ghost predicate Valid()
      reads this
    {
      UniqueEmails(users) && UniqueIds(users) &&
      forall i :: 0 <= i < |users| ==> users[i].id < nextId
    }

    constructor ()
      ensures Valid() && users == [] && nextId == 0
    {
      users, nextId := [], 0;
    }

    /** The signup handler. `passwordHash` is the bcrypt hash of the
        password and `sign(id, expiresIn)` is `signToken`. The user is stored
        before the cookie is sent, so a cookie lifetime that is NaN (which
        makes sending the cookie throw) answers 500 with the user already
        stored. */
    method Signup(req: SignupRequest, cfg: Config, passwordHash: string, sign: (nat, string) -> string)
      returns (res: Response)
      requires Valid()
      modifies this
      ensures Valid()
      ensures !Complete(req) ==>
        res == Response(400, NoCookie, Message("Name, email and password are required")) &&
        users == old(users) && nextId == old(nextId)
      ensures Complete(req) && FindByEmail(old(users), req.email.value).Some? ==>
        res == Response(409, NoCookie, Message("Email already in use")) &&
        users == old(users) && nextId == old(nextId)
      ensures Complete(req) && FindByEmail(old(users), req.email.value).None? ==>
        var u := NewUser(old(nextId), req, passwordHash);
        users == old(users) + [u] && nextId == old(nextId) + 1 &&
        res == (if CookieMaxAge(cfg).Some?
                then Response(201, TokenCookie(cfg, sign(u.id, ExpiryText(cfg)), CookieMaxAge(cfg).value), UserBody(SafeUserOf(u)))
                else Response(500, NoCookie, Message(ServerError)))
    {
      if !TruthyText(req.name) || !TruthyText(req.email) || !TruthyText(req.password) {
        return Response(400, NoCookie, Message("Name, email and password are required"));
      }
      var existing := FindByEmail(users, req.email.value);
      if existing.Some? {
        return Response(409, NoCookie, Message("Email already in use"));
      }
      var user := NewUser(nextId, req, passwordHash);
      users := users + [user];
      nextId := nextId + 1;
      var token := sign(user.id, ExpiryText(cfg));
      var maxAge := CookieMaxAge(cfg);
      if maxAge.None? {
        return Response(500, NoCookie, Message(ServerError));
      }
      res := Response(201, TokenCookie(cfg, token, maxAge.value), UserBody(SafeUserOf(user)));
    }
  }

  /** Signing up twice with the same email: the second attempt is refused. */
  lemma RepeatSignupConflicts(users: seq<User>, id: nat, req: SignupRequest, passwordHash: string)
    requires Complete(req)
    ensures FindByEmail(users + [NewUser(id, req, passwordHash)], req.email.value).Some?
  {
    var u := NewUser(id, req, passwordHash);
    if FindByEmail(users, u.email).None? {
      FindFirstAppend(users, EmailIs(u.email), u);
    } else {
      FindFirstKeeps(users, [u], EmailIs(u.email));
    }
  }
}
