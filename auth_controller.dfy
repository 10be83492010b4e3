/** controllers/AuthController.js: registration, e-mail login, Google login, test login and
    token verification over the `usuarios` and `assinaturas` tables.

    bcrypt is not modelled: `register` receives the hash it stores and `login` the comparison
    it applies. Google's `verifyIdToken` is the profile it yields, absent where it throws. The
    random part of a test login's Google id is a parameter. */
module AuthController {
  import opened Base
  import opened Text
  import opened Jwt
  import opened Http
  import Tables
  import Users
  import Subscriptions
  import Store

  type UserRow = Users.UserRow
  type SubRow = Subscriptions.SubRow

  /** The `user` object of a reply. */
  datatype UserView = UserView(id: nat, email: string, name: string, avatarUrl: Option<string>)

  function ViewOf(u: UserRow): UserView
  {
    UserView(u.id, u.email, u.name, u.avatarUrl)
  }

  /** The `subscription` object of a reply: `subscription?.id` and the like, all absent when the
      user has no active subscription. */
  datatype SubView = SubView(id: Option<nat>, planType: Option<string>, status: Option<Subscriptions.SubStatus>)

  function SubViewOf(s: Option<SubRow>): SubView
  {
    match s
    case None => SubView(None, None, None)
    case Some(r) => SubView(Some(r.id), Some(r.plan), Some(r.status))
  }

  /** A reply: the token (`verify` sends none), the user and their subscription. */
  datatype Session = Session(token: Option<string>, user: UserView, subscription: SubView)

  /** `subscription?.tipo_plano || 'FREE'`. */
  function TokenPlan(s: Option<SubRow>): string
  {
    if s.Some? then OrElse(Some(s.value.plan), "FREE") else "FREE"
  }

  /** The token this controller signs for a user, under `JWT_SECRET || 'seu_secret'`; only
      `register` and `login` put a plan claim in it. */
  function Issue(codec: Codec, env: Env, u: UserRow, plan: Option<string>): string
  {
    codec.sign(Claims(Some(u.id), u.email, plan), Secret(env, IssuerDefaultSecret))
  }

  /** `User.create` followed by `Subscription.create(user.id, 'FREE')`: a new user and their
      first subscription, which is then what the user's subscription lookup finds. */
  method Enroll(db: Store.Db, googleId: Option<string>, email: string, name: string, now: int,
                avatarUrl: Option<string>, password: Option<string>) returns (user: UserRow, sub: SubRow)
    requires db.Valid()
    modifies db.users, db.subscriptions
    ensures db.Valid()
    ensures user == Users.UserRow(old(db.users.nextId), googleId, email, name, avatarUrl, password, now)
    ensures sub == Subscriptions.SubRow(old(db.subscriptions.nextId), user.id, "FREE", Subscriptions.Active, now)
    ensures db.users.rows == old(db.users.rows) + [user]
    ensures db.subscriptions.rows == old(db.subscriptions.rows) + [sub]
    ensures db.users.nextId == old(db.users.nextId) + 1 && db.subscriptions.nextId == old(db.subscriptions.nextId) + 1
    ensures Subscriptions.FindActive(db.subscriptions.rows, user.id) == Some(sub)
    ensures Users.EmailsUnique(old(db.users.rows)) && Users.FindByEmail(old(db.users.rows), email).None? ==>
              Users.EmailsUnique(db.users.rows)
  {
    user := db.users.Create(googleId, email, name, now, avatarUrl, password);
    if Users.EmailsUnique(old(db.users.rows)) && Users.FindByEmail(old(db.users.rows), email).None? {
      Users.UniqueAppend(old(db.users.rows), user);
    }
    sub := db.subscriptions.Create(user.id, now, "FREE");
    Store.OwnedSnoc(old(db.subscriptions.rows), old(db.users.nextId), db.users.nextId, sub);
    Subscriptions.FirstActiveIsFound(old(db.subscriptions.rows), sub);
  }

  /** `register`: refuses a body without name, e-mail or password, and an e-mail already
      registered, changing nothing; otherwise stores the user with the hashed password and a
      `FREE` subscription, and replies with a token whose plan is that subscription's. */
  method Register(db: Store.Db, name: Option<string>, email: Option<string>, password: Option<string>,
                  hashed: string, env: Env, codec: Codec, now: int) returns (res: Response<Session>)
    requires db.Valid()
    modifies db.users, db.subscriptions
    ensures db.Valid()
    ensures Users.EmailsUnique(old(db.users.rows)) ==> Users.EmailsUnique(db.users.rows)
    ensures !(Present(name) && Present(email) && Present(password)) ==>
              res == Err(400, MissingFields) && unchanged(db.users, db.subscriptions)
    ensures Present(name) && Present(email) && Present(password) &&
            Users.FindByEmail(old(db.users.rows), email.value).Some? ==>
              res == Err(400, EmailTaken) && unchanged(db.users, db.subscriptions)
    ensures res.Ok? <==>
              Present(name) && Present(email) && Present(password) &&
              Users.FindByEmail(old(db.users.rows), email.value).None?
    ensures res.Ok? ==>
              var u := Users.UserRow(old(db.users.nextId), None, email.value, name.value, None, Some(hashed), now);
              var s := Subscriptions.SubRow(old(db.subscriptions.nextId), u.id, "FREE", Subscriptions.Active, now);
              && db.users.rows == old(db.users.rows) + [u]
              && db.subscriptions.rows == old(db.subscriptions.rows) + [s]
              && db.users.nextId == old(db.users.nextId) + 1
              && db.subscriptions.nextId == old(db.subscriptions.nextId) + 1
              && Subscriptions.FindActive(db.subscriptions.rows, u.id) == Some(s)
              && res.body == Session(Some(Issue(codec, env, u, Some("FREE"))), ViewOf(u), SubViewOf(Some(s)))
  {
    if !Present(name) || !Present(email) || !Present(password) {
      return Err(400, MissingFields);
    }
    if Users.FindByEmail(db.users.rows, email.value).Some? {
      return Err(400, EmailTaken);
    }
    var user, sub := Enroll(db, None, email.value, name.value, now, None, Some(hashed));
    var found := Subscriptions.FindActive(db.subscriptions.rows, user.id);
    var token := codec.sign(Claims(Some(user.id), user.email, Some(TokenPlan(found))), Secret(env, IssuerDefaultSecret));
    res := Ok(Session(Some(token), ViewOf(user), SubViewOf(found)));
  }

  /** `login`: a body without e-mail or password is refused with 400; an unknown e-mail and a
      wrong password get the same 401, so a caller cannot tell which it was. A user without a
      password is compared against the empty hash. */
  function Login(users: seq<UserRow>, subs: seq<SubRow>, email: Option<string>, password: Option<string>,
                 compare: (string, string) -> bool, env: Env, codec: Codec): (res: Response<Session>)
    ensures !(Present(email) && Present(password)) ==> res == Err(400, MissingFields)
    ensures Present(email) && Present(password) && res.Err? ==> res == Err(401, BadCredentials)
    ensures Present(email) && Present(password) ==>
              (res.Ok? <==> && Users.FindByEmail(users, email.value).Some?
                            && compare(password.value, OrElse(Users.FindByEmail(users, email.value).value.password, "")))
    ensures res.Ok? ==>
              && Present(email) && Users.FindByEmail(users, email.value).Some?
              && var u := Users.FindByEmail(users, email.value).value;
                 var sub := Subscriptions.FindActive(subs, u.id);
                 && u in users && u.email == email.value
                 && res.body == Session(Some(Issue(codec, env, u, Some(TokenPlan(sub)))), ViewOf(u), SubViewOf(sub))
  {
    if !Present(email) || !Present(password) then Err(400, MissingFields)
    else match Users.FindByEmail(users, email.value)
      case None => Err(401, BadCredentials)
      case Some(u) =>
        if !compare(password.value, OrElse(u.password, "")) then Err(401, BadCredentials)
        else
          var sub := Subscriptions.FindActive(subs, u.id);
          Ok(Session(Some(Issue(codec, env, u, Some(TokenPlan(sub)))), ViewOf(u), SubViewOf(sub)))
  }

  /** When no two users share an e-mail, a user who gives their e-mail and a password their
      hash accepts is logged in as themselves. */
  lemma RegisteredUserLogsIn(users: seq<UserRow>, subs: seq<SubRow>, u: UserRow, password: string,
                             compare: (string, string) -> bool, env: Env, codec: Codec)
    requires Users.EmailsUnique(users) && u in users && u.email != "" && password != ""
    requires compare(password, OrElse(u.password, ""))
    ensures var res := Login(users, subs, Some(u.email), Some(password), compare, env, codec);
            && res.Ok?
            && res.body.user == ViewOf(u)
            && res.body.subscription == SubViewOf(Subscriptions.FindActive(subs, u.id))
  {
    Users.EmailFindsRow(users, u);
  }

  /** bcrypt refuses every password against an empty hash. */
  ghost predicate RejectsEmptyHash(compare: (string, string) -> bool)
  {
    forall p: string :: !compare(p, "")
  }

  /** A user created by a Google or test login has no password, and no password logs them in. */
  lemma PasswordlessUserCannotLogIn(users: seq<UserRow>, subs: seq<SubRow>, u: UserRow, password: string,
                                    compare: (string, string) -> bool, env: Env, codec: Codec)
    requires Users.EmailsUnique(users) && u in users && u.password.None? && u.email != ""
    requires RejectsEmptyHash(compare)
    ensures Login(users, subs, Some(u.email), Some(password), compare, env, codec).Err?
  {
    Users.EmailFindsRow(users, u);
  }

  /** The profile Google's `verifyIdToken` yields: `sub`, `email`, `name`, `picture`. */
  datatype GoogleProfile = GoogleProfile(sub: string, email: string, name: string, picture: Option<string>)

  /** `loginWithGoogle`: refuses a body without token (400) and a server without
      `GOOGLE_CLIENT_ID` (400); a token Google rejects gets 401. Otherwise the user with the
      profile's Google id logs in, created first with a `FREE` subscription when there is none,
      with a token that carries no plan. */
  method LoginWithGoogle(db: Store.Db, idToken: Option<string>, profile: Option<GoogleProfile>,
                         env: Env, codec: Codec, now: int) returns (res: Response<Session>)
    requires db.Valid()
    modifies db.users, db.subscriptions
    ensures db.Valid()
    ensures !Present(idToken) ==> res == Err(400, MissingToken) && unchanged(db.users, db.subscriptions)
    ensures Present(idToken) && !Present(env.googleClientId) ==>
              res == Err(400, GoogleNotConfigured) && unchanged(db.users, db.subscriptions)
    ensures Present(idToken) && Present(env.googleClientId) && profile.None? ==>
              res == Err(401, AuthFailed) && unchanged(db.users, db.subscriptions)
    ensures res.Ok? <==> Present(idToken) && Present(env.googleClientId) && profile.Some?
    ensures res.Ok? ==>
              var p := profile.value;
              var known := Users.FindByGoogleId(old(db.users.rows), p.sub);
              if known.Some? then
                var u := known.value;
                && unchanged(db.users, db.subscriptions)
                && res.body == Session(Some(Issue(codec, env, u, None)), ViewOf(u),
                                       SubViewOf(Subscriptions.FindActive(db.subscriptions.rows, u.id)))
              else
                var u := Users.UserRow(old(db.users.nextId), Some(p.sub), p.email, p.name, p.picture, None, now);
                var s := Subscriptions.SubRow(old(db.subscriptions.nextId), u.id, "FREE", Subscriptions.Active, now);
                && db.users.rows == old(db.users.rows) + [u]
                && db.subscriptions.rows == old(db.subscriptions.rows) + [s]
                && db.users.nextId == old(db.users.nextId) + 1
                && db.subscriptions.nextId == old(db.subscriptions.nextId) + 1
                && res.body == Session(Some(Issue(codec, env, u, None)), ViewOf(u), SubViewOf(Some(s)))
  {
    if !Present(idToken) {
      return Err(400, MissingToken);
    }
    if !Present(env.googleClientId) {
      return Err(400, GoogleNotConfigured);
    }
    if profile.None? {
      return Err(401, AuthFailed);
    }
    var p := profile.value;
    var user: UserRow;
    match Users.FindByGoogleId(db.users.rows, p.sub) {
      case Some(u) =>
        user := u;
      case None =>
        var sub;
        user, sub := Enroll(db, Some(p.sub), p.email, p.name, now, p.picture, None);
    }
    var token := Issue(codec, env, user, None);
    var found := Subscriptions.FindActive(db.subscriptions.rows, user.id);
    res := Ok(Session(Some(token), ViewOf(user), SubViewOf(found)));
  }

  /** `testLogin`: refuses a body without e-mail or name (400); otherwise the user with the
      e-mail logs in, created first (Google id `test_` followed by the time and a random word,
      here `suffix`) with a `FREE` subscription when there is none, with a token that carries
      no plan. */
  method TestLogin(db: Store.Db, email: Option<string>, name: Option<string>, suffix: string,
                   env: Env, codec: Codec, now: int) returns (res: Response<Session>)
    requires db.Valid()
    modifies db.users, db.subscriptions
    ensures db.Valid()
    ensures Users.EmailsUnique(old(db.users.rows)) ==> Users.EmailsUnique(db.users.rows)
    ensures !(Present(email) && Present(name)) ==>
              res == Err(400, MissingFields) && unchanged(db.users, db.subscriptions)
    ensures res.Ok? <==> Present(email) && Present(name)
    ensures res.Ok? ==>
              var known := Users.FindByEmail(old(db.users.rows), email.value);
              if known.Some? then
                var u := known.value;
                && unchanged(db.users, db.subscriptions)
                && res.body == Session(Some(Issue(codec, env, u, None)), ViewOf(u),
                                       SubViewOf(Subscriptions.FindActive(db.subscriptions.rows, u.id)))
              else
                var u := Users.UserRow(old(db.users.nextId), Some("test_" + suffix), email.value, name.value, None, None, now);
                var s := Subscriptions.SubRow(old(db.subscriptions.nextId), u.id, "FREE", Subscriptions.Active, now);
                && db.users.rows == old(db.users.rows) + [u]
                && db.subscriptions.rows == old(db.subscriptions.rows) + [s]
                && db.users.nextId == old(db.users.nextId) + 1
                && db.subscriptions.nextId == old(db.subscriptions.nextId) + 1
                && res.body == Session(Some(Issue(codec, env, u, None)), ViewOf(u), SubViewOf(Some(s)))
  {
    if !Present(email) || !Present(name) {
      return Err(400, MissingFields);
    }
    var user: UserRow;
    match Users.FindByEmail(db.users.rows, email.value) {
      case Some(u) =>
        user := u;
      case None =>
        var sub;
        user, sub := Enroll(db, Some("test_" + suffix), email.value, name.value, now, None, None);
    }
    var token := Issue(codec, env, user, None);
    var found := Subscriptions.FindActive(db.subscriptions.rows, user.id);
    res := Ok(Session(Some(token), ViewOf(user), SubViewOf(found)));
  }

  /** The payload of the header's bearer word under `JWT_SECRET || 'seu_secret'`; none without
      a word or where `jwt.verify` throws. */
  function HeaderClaims(header: Option<string>, env: Env, codec: Codec): Option<Claims>
  {
    var word := BearerWord(header);
    if Present(word) then codec.verify(word.value, Secret(env, IssuerDefaultSecret)) else None
  }

  /** `User.findById(decoded.userId)`: the stored user a payload names. */
  function ClaimedUser(users: seq<UserRow>, claims: Option<Claims>): Option<UserRow>
  {
    if claims.Some? && claims.value.userId.Some? then Users.FindById(users, claims.value.userId.value) else None
  }

  /** `verify`: every failure is a 401 (no token, a token that does not verify, a token whose
      user is gone); a success shows the user the token names and their subscription, and no
      token. */
  function Verify(users: seq<UserRow>, subs: seq<SubRow>, header: Option<string>, env: Env, codec: Codec)
    : (res: Response<Session>)
    ensures !Present(BearerWord(header)) ==> res == Err(401, MissingToken)
    ensures Present(BearerWord(header)) && HeaderClaims(header, env, codec).None? ==> res == Err(401, InvalidToken)
    ensures HeaderClaims(header, env, codec).Some? && ClaimedUser(users, HeaderClaims(header, env, codec)).None? ==>
              res == Err(401, UserNotFound)
    ensures res.Ok? <==> ClaimedUser(users, HeaderClaims(header, env, codec)).Some?
    ensures res.Ok? ==>
              var claims := HeaderClaims(header, env, codec);
              && claims.Some? && claims.value.userId.Some? && ClaimedUser(users, claims).Some?
              && var u := ClaimedUser(users, claims).value;
                 && u in users && u.id == claims.value.userId.value
                 && res.body == Session(None, ViewOf(u), SubViewOf(Subscriptions.FindActive(subs, u.id)))
  {
    var word := BearerWord(header);
    if !Present(word) then Err(401, MissingToken)
    else match codec.verify(word.value, Secret(env, IssuerDefaultSecret))
      case None => Err(401, InvalidToken)
      case Some(claims) =>
        var found := if claims.userId.Some? then Users.FindById(users, claims.userId.value) else None;
        if found.None? then Err(401, UserNotFound)
        else Ok(Session(None, ViewOf(found.value), SubViewOf(Subscriptions.FindActive(subs, found.value.id))))
  }

  /** Every token this controller issues for a stored user, sent back as `Bearer <token>`,
      verifies to that user and their current subscription. */
  lemma IssuedTokenVerifies(users: seq<UserRow>, next: nat, subs: seq<SubRow>, u: UserRow,
                            plan: Option<string>, env: Env, codec: Codec)
    requires RoundTrips(codec) && Compact(codec)
    requires Tables.Serial(users, Users.UserId, next) && u in users
    ensures Verify(users, subs, Some(BearerHeader(Issue(codec, env, u, plan))), env, codec)
            == Ok(Session(None, ViewOf(u), SubViewOf(Subscriptions.FindActive(subs, u.id))))
  {
    var token := Issue(codec, env, u, plan);
    BearerFieldAgrees(token);
    Users.IdFindsRow(users, next, u);
  }

  /** The token of a successful login verifies to the same user and subscription. */
  lemma LoginTokenVerifies(users: seq<UserRow>, next: nat, subs: seq<SubRow>, email: Option<string>,
                           password: Option<string>, compare: (string, string) -> bool, env: Env, codec: Codec)
    requires RoundTrips(codec) && Compact(codec)
    requires Tables.Serial(users, Users.UserId, next)
    requires Login(users, subs, email, password, compare, env, codec).Ok?
    ensures var s := Login(users, subs, email, password, compare, env, codec).body;
            Verify(users, subs, Some(BearerHeader(s.token.value)), env, codec) == Ok(s.(token := None))
  {
    var u := Users.FindByEmail(users, email.value).value;
    var sub := Subscriptions.FindActive(subs, u.id);
    var token := Issue(codec, env, u, Some(TokenPlan(sub)));
    assert Login(users, subs, email, password, compare, env, codec)
           == Ok(Session(Some(token), ViewOf(u), SubViewOf(sub)));
    IssuedTokenVerifies(users, next, subs, u, Some(TokenPlan(sub)), env, codec);
  }
}
