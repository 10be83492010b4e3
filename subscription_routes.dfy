/** routes/subscriptions.js: reading a user's subscription, subscribing to a plan with a
    bearer token, and the unauthenticated upgrade to PRO.

    `/current` takes the user id itself as the bearer word, and `/:userId` takes it from the
    path; PostgreSQL reads such text into the `integer` column, so anything but a decimal
    number within range makes the query fail, which the route answers with 500. */
module SubscriptionRoutes {
  import opened Base
  import opened Text
  import opened Jwt
  import opened Http
  import Subscriptions
  import Store
  import Recovery

  type SubRow = Subscriptions.SubRow

  /** `planMap[planId] || 'FREE'`: the three known plan ids in upper case, `FREE` for any other. */
  function PlanType(planId: string): (plan: string)
    ensures plan == "PRO" <==> planId == "pro"
    ensures plan == "ENTERPRISE" <==> planId == "enterprise"
    ensures plan != "PRO" && plan != "ENTERPRISE" ==> plan == "FREE"
  {
    if planId == "free" then "FREE"
    else if planId == "pro" then "PRO"
    else if planId == "enterprise" then "ENTERPRISE"
    else "FREE"
  }

  /** Lower-casing the plan type of a known plan id gives the id back, which is how the
      recovery routes read a token's plan. */
  lemma PlanTypeLowersBack(planId: string)
    requires planId == "free" || planId == "pro" || planId == "enterprise"
    ensures Lower(PlanType(planId)) == planId
  {
    assert Lower("FREE") == "free";
    assert Lower("PRO") == "pro";
    assert Lower("ENTERPRISE") == "enterprise";
  }

  /** The largest value of a PostgreSQL `integer`. */
  const IntMax: nat := 2147483647

  /** Text read as a user id: decimal digits whose value fits an `integer`; `None` where the
      query would fail. */
  function AsUserId(s: string): (r: Option<nat>)
    ensures r.Some? ==> ParseId(s) == r && r.value <= IntMax
    ensures ParseId(s).Some? && ParseId(s).value <= IntMax ==> r.Some?
  {
    match ParseId(s)
    case None => None
    case Some(n) => if n <= IntMax then Some(n) else None
  }

  /** Every id within range, written out, reads back as itself. */
  lemma ShownIdReadsBack(id: nat)
    requires id <= IntMax
    ensures AsUserId(Show(id)) == Some(id)
  {
    ParseShow(id);
  }

  /** What `/current` and `/:userId` send: the stored subscription, or the default
      `{ tipo_plano: 'FREE', status: 'ativo' }` when the user has none. */
  datatype Shown = Stored(row: SubRow) | DefaultFree

  function ShownOf(s: Option<SubRow>): Shown
  {
    if s.Some? then Stored(s.value) else DefaultFree
  }

  /** `GET /current`: 401 without a bearer word, 500 when the word is not a user id, and
      otherwise the user's subscription or the free default. */
  function Current(subs: seq<SubRow>, header: Option<string>): (res: Response<Shown>)
    ensures !Present(BearerWord(header)) ==> res == Err(401, NotAuthenticated)
    ensures res.Ok? <==> Present(BearerWord(header)) && AsUserId(BearerWord(header).value).Some?
    ensures Present(BearerWord(header)) && AsUserId(BearerWord(header).value).None? ==> res == Err(500, Internal)
    ensures res.Ok? ==>
              var id := AsUserId(BearerWord(header).value).value;
              && (res.body.DefaultFree? <==> forall x :: x in subs ==> !Subscriptions.IsActiveFor(x, id))
              && (res.body.Stored? ==> res.body.row in subs && Subscriptions.IsActiveFor(res.body.row, id))
  {
    var word := BearerWord(header);
    if !Present(word) then Err(401, NotAuthenticated)
    else match AsUserId(word.value)
      case None => Err(500, Internal)
      case Some(id) => Ok(ShownOf(Subscriptions.FindActive(subs, id)))
  }

  /** `GET /:userId`: 500 when the path segment is not a user id, and otherwise the user's
      subscription or the free default. */
  function ByUserId(subs: seq<SubRow>, param: string): (res: Response<Shown>)
    ensures res.Ok? <==> AsUserId(param).Some?
    ensures res.Err? ==> res == Err(500, Internal)
    ensures res.Ok? ==>
              var id := AsUserId(param).value;
              && (res.body.DefaultFree? <==> forall x :: x in subs ==> !Subscriptions.IsActiveFor(x, id))
              && (res.body.Stored? ==> res.body.row in subs && Subscriptions.IsActiveFor(res.body.row, id))
  {
    match AsUserId(param)
    case None => Err(500, Internal)
    case Some(id) => Ok(ShownOf(Subscriptions.FindActive(subs, id)))
  }

  /** The two ways of asking agree: `Bearer <id>` on `/current` shows what `/<id>` shows. */
  lemma CurrentAgreesWithByUserId(subs: seq<SubRow>, id: nat)
    requires id <= IntMax
    ensures Current(subs, Some("Bearer " + Show(id))) == ByUserId(subs, Show(id))
    ensures ByUserId(subs, Show(id)) == Ok(ShownOf(Subscriptions.FindActive(subs, id)))
  {
    ShownIdReadsBack(id);
    assert ' ' !in Show(id);
    BearerFieldAgrees(Show(id));
  }

  /** The claims of a `Bearer` header that verifies under `JWT_SECRET || 'sua-chave-secreta-aqui'`. */
  function Decoded(header: Option<string>, env: Env, codec: Codec): Option<Claims>
  {
    match BearerToken(header)
    case None => None
    case Some(token) => codec.verify(token, Secret(env, RouteDefaultSecret))
  }

  /** The reply of `/subscribe`: the new token and the renewed subscription. */
  datatype Subscribed = Subscribed(token: string, id: nat, planType: string, status: Subscriptions.SubStatus)

  /** `POST /subscribe`: 401 without a `Bearer` header, for a token that does not verify and
      for a token without user id, then 400 without a plan id; otherwise the user's active
      subscriptions take the plan, and the reply carries a token for the plan signed with the
      routes' secret. A user without an active subscription gets 500 and keeps none. */
  method Subscribe(db: Store.Db, header: Option<string>, planId: Option<string>, env: Env, codec: Codec, now: int)
    returns (res: Response<Subscribed>)
    requires db.Valid()
    modifies db.subscriptions
    ensures db.Valid()
    ensures db.subscriptions.nextId == old(db.subscriptions.nextId)
    ensures BearerToken(header).None? ==> res == Err(401, MissingToken) && unchanged(db.subscriptions)
    ensures BearerToken(header).Some? && Decoded(header, env, codec).None? ==>
              res == Err(401, InvalidToken) && unchanged(db.subscriptions)
    ensures Decoded(header, env, codec).Some? && !PresentId(Decoded(header, env, codec).value.userId) ==>
              res == Err(401, UserNotIdentified) && unchanged(db.subscriptions)
    ensures Decoded(header, env, codec).Some? && PresentId(Decoded(header, env, codec).value.userId) && !Present(planId) ==>
              res == Err(400, PlanNotSpecified) && unchanged(db.subscriptions)
    ensures Decoded(header, env, codec).Some? && PresentId(Decoded(header, env, codec).value.userId) && Present(planId) ==>
              var claims := Decoded(header, env, codec).value;
              var userId := claims.userId.value;
              var plan := PlanType(planId.value);
              && db.subscriptions.rows == Subscriptions.Renew(old(db.subscriptions.rows), userId, plan, now)
              && ((forall x :: x in old(db.subscriptions.rows) ==> !Subscriptions.IsActiveFor(x, userId)) ==>
                    res == Err(500, Internal))
              && ((exists x :: x in old(db.subscriptions.rows) && Subscriptions.IsActiveFor(x, userId)) ==>
                    && res.Ok?
                    && res.body.token == codec.sign(Claims(Some(userId), claims.email, Some(plan)),
                                                    Secret(env, RouteDefaultSecret))
                    && res.body.planType == plan && res.body.status == Subscriptions.Active
                    && exists s :: s in db.subscriptions.rows && s.id == res.body.id &&
                                   Subscriptions.IsActiveFor(s, userId) && s.plan == plan)
  {
    var token := BearerToken(header);
    if token.None? {
      return Err(401, MissingToken);
    }
    var decoded := codec.verify(token.value, Secret(env, RouteDefaultSecret));
    if decoded.None? {
      return Err(401, InvalidToken);
    }
    var claims := decoded.value;
    if !PresentId(claims.userId) {
      return Err(401, UserNotIdentified);
    }
    if !Present(planId) {
      return Err(400, PlanNotSpecified);
    }
    var userId := claims.userId.value;
    var plan := PlanType(planId.value);
    Subscriptions.RenewKeepsOwners(db.subscriptions.rows, userId, plan, now, db.users.nextId);
    var sub := db.subscriptions.UpdatePlan(userId, plan, now);
    if sub.None? {
      return Err(500, Internal);
    }
    var newToken := codec.sign(Claims(Some(userId), claims.email, Some(plan)), Secret(env, RouteDefaultSecret));
    res := Ok(Subscribed(newToken, sub.value.id, sub.value.plan, sub.value.status));
  }

  /** The token `/subscribe` issues for a known plan id is read back by the recovery routes as
      that plan id, whatever `JWT_SECRET` is: `pro` unlocks the PRO limits, and `enterprise`
      has no limits, so the recovery routes answer it with 500. */
  lemma SubscribeTokenSetsRecoveryPlan(env: Env, codec: Codec, userId: nat, email: string, planId: string)
    requires RoundTrips(codec)
    requires planId == "free" || planId == "pro" || planId == "enterprise"
    ensures var token := codec.sign(Claims(Some(userId), email, Some(PlanType(planId))), Secret(env, RouteDefaultSecret));
            var plan := Recovery.ExtractUserPlan(Some(BearerHeader(token)), env, codec);
            && plan == planId
            && (planId == "pro" ==> Recovery.PlanLimits(plan) == Some(Recovery.ProLimits))
            && (planId == "enterprise" ==> Recovery.PlanLimits(plan).None?)
  {
    Recovery.ExtractSignedPlan(env, codec, Claims(Some(userId), email, Some(PlanType(planId))));
    PlanTypeLowersBack(planId);
  }

  /** With `JWT_SECRET` unset, `/subscribe` refuses every token the auth controller issues. */
  lemma LoginTokenRefusedWithoutSecret(env: Env, codec: Codec, claims: Claims)
    requires KeyBound(codec) && !Present(env.jwtSecret)
    ensures Decoded(Some(BearerHeader(codec.sign(claims, Secret(env, IssuerDefaultSecret)))), env, codec).None?
  {
    BearerHeaderRoundTrip(codec.sign(claims, Secret(env, IssuerDefaultSecret)));
    DefaultSecretsDisagree(codec, env, claims);
  }

  /** After subscribing, both reading routes show the new plan to a user who had a
      subscription. */
  lemma SubscribeThenRead(subs: seq<SubRow>, id: nat, planId: string, now: int)
    requires id <= IntMax
    requires exists x :: x in subs && Subscriptions.IsActiveFor(x, id)
    ensures var after := Subscriptions.Renew(subs, id, PlanType(planId), now);
            var shown := ByUserId(after, Show(id));
            && shown.Ok? && shown.body.Stored?
            && shown.body.row.plan == PlanType(planId)
            && Current(after, Some("Bearer " + Show(id))) == shown
  {
    var after := Subscriptions.Renew(subs, id, PlanType(planId), now);
    Subscriptions.RenewThenFind(subs, id, PlanType(planId), now);
    CurrentAgreesWithByUserId(after, id);
  }

  /** `POST /:userId/upgrade`, which checks no credentials: 500 when the path segment is not a
      user id; otherwise the user's active subscriptions become PRO and the first of them is
      sent (none when the user has no active subscription). */
  method Upgrade(db: Store.Db, param: string, now: int) returns (res: Response<Option<SubRow>>)
    requires db.Valid()
    modifies db.subscriptions
    ensures db.Valid()
    ensures db.subscriptions.nextId == old(db.subscriptions.nextId)
    ensures AsUserId(param).None? ==> res == Err(500, Internal) && unchanged(db.subscriptions)
    ensures AsUserId(param).Some? ==>
              var id := AsUserId(param).value;
              && db.subscriptions.rows == Subscriptions.Renew(old(db.subscriptions.rows), id, "PRO", now)
              && res.Ok?
              && (res.body.None? <==> forall x :: x in old(db.subscriptions.rows) ==> !Subscriptions.IsActiveFor(x, id))
              && (res.body.Some? ==>
                    res.body.value in db.subscriptions.rows && Subscriptions.IsActiveFor(res.body.value, id)
                    && res.body.value.plan == "PRO" && res.body.value.startedAt == now)
  {
    var id := AsUserId(param);
    if id.None? {
      return Err(500, Internal);
    }
    Subscriptions.RenewKeepsOwners(db.subscriptions.rows, id.value, "PRO", now, db.users.nextId);
    var sub := db.subscriptions.UpdatePlan(id.value, "PRO", now);
    res := Ok(sub);
  }
}
