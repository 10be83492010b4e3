/** controllers/PaymentController.js: creating a payment for the PRO plan and receiving Stripe's
    webhook.

    Stripe itself is not modelled. Without a usable `STRIPE_SECRET_KEY` the controller settles
    the payment at once (the simulated mode); with one, the `client_secret` of the intent Stripe
    creates is a parameter, absent where the call throws. */
module PaymentController {
  import opened Base
  import opened Text
  import opened Jwt
  import opened Http
  import Tables
  import Users
  import Subscriptions
  import Payments
  import Store
  import Recovery

  type PaymentRow = Payments.PaymentRow
  type SubRow = Subscriptions.SubRow

  /** The price of the PRO plan, in cents. */
  const ProPrice: nat := 1599

  /** `planType === 'PRO' ? 1599 : 0`: only the exact upper-case name is paid for. */
  function Amount(planType: string): (cents: nat)
    ensures cents == ProPrice <==> planType == "PRO"
    ensures cents == 0 <==> planType != "PRO"
  {
    if planType == "PRO" then ProPrice else 0
  }

  /** `createPaymentIntent` settles without Stripe when the key is missing, is the sample key
      `sk_test_xxx`, or still holds the `USE_YOUR` placeholder. */
  predicate IsSimulated(key: Option<string>)
  {
    !Present(key) || key.value == "sk_test_xxx" || Contains(key.value, "USE_YOUR")
  }

  /** `webhook` ignores events only when the key is missing or is `sk_test_xxx`. */
  predicate WebhookIgnored(key: Option<string>)
  {
    !Present(key) || key.value == "sk_test_xxx"
  }

  /** The two handlers judge the key differently: a placeholder key makes payments settle at
      once, yet the webhook still acts on the events it receives. */
  lemma PlaceholderKeyModesDisagree()
    ensures IsSimulated(Some("sk_live_USE_YOUR_KEY"))
    ensures !WebhookIgnored(Some("sk_live_USE_YOUR_KEY"))
  {
    assert OccursAt("sk_live_USE_YOUR_KEY", "USE_YOUR", 8);
  }

  /** `user?.email || ''` for the user with the id. */
  function ContactEmail(users: seq<Users.UserRow>, userId: nat): string
  {
    match Users.FindById(users, userId)
    case None => ""
    case Some(u) => OrElse(Some(u.email), "")
  }

  /** The reply of `createPaymentIntent`: the settled payment, the renewed subscription and a
      PRO token in the simulated mode; Stripe's client secret otherwise. */
  datatype Intent =
    | Settled(clientSecret: string, paymentId: nat, payment: PaymentRow, subscription: Option<SubRow>, token: string)
    | Gateway(clientSecret: string, paymentId: nat)

  /** `Payment.updateStatus(id, 'pago')` followed by `Subscription.updatePlan(userId, 'PRO')`:
      the payment reads back paid and the user's active subscriptions are on PRO. */
  method Approve(db: Store.Db, paymentId: nat, userId: nat, now: int)
    returns (payment: Option<PaymentRow>, sub: Option<SubRow>)
    requires db.Valid()
    modifies db.payments, db.subscriptions
    ensures db.Valid()
    ensures db.payments.rows == Payments.SetStatus(old(db.payments.rows), paymentId, Payments.Paid)
    ensures db.payments.nextId == old(db.payments.nextId) && db.subscriptions.nextId == old(db.subscriptions.nextId)
    ensures payment == Payments.FindById(db.payments.rows, paymentId)
    ensures db.subscriptions.rows == Subscriptions.Renew(old(db.subscriptions.rows), userId, "PRO", now)
    ensures sub.None? <==> forall x :: x in old(db.subscriptions.rows) ==> !Subscriptions.IsActiveFor(x, userId)
    ensures sub.Some? ==> sub.value in db.subscriptions.rows && Subscriptions.IsActiveFor(sub.value, userId)
                          && sub.value.plan == "PRO"
  {
    payment := db.payments.UpdateStatus(paymentId, Payments.Paid);
    Subscriptions.RenewKeepsOwners(db.subscriptions.rows, userId, "PRO", now, db.users.nextId);
    sub := db.subscriptions.UpdatePlan(userId, "PRO", now);
  }

  /** `createPaymentIntent`: a body without user or plan gets 400, and so does any plan but
      `PRO`, before anything is stored. Otherwise a pending payment of 1599 is stored; in the
      simulated mode it is marked paid, the user's active subscription becomes PRO, and the
      reply carries a token with plan PRO even when the user had no active subscription to
      change. With Stripe the payment stays pending, and a failing Stripe call answers 500 but
      keeps the stored payment. */
  method CreatePaymentIntent(db: Store.Db, userId: Option<nat>, planType: Option<string>, env: Env,
                             codec: Codec, now: int, gateway: Option<string>) returns (res: Response<Intent>)
    requires db.Valid()
    modifies db.payments, db.subscriptions
    ensures db.Valid()
    ensures db.subscriptions.nextId == old(db.subscriptions.nextId)
    ensures PresentId(userId) && planType == Some("PRO") ==> db.payments.nextId == old(db.payments.nextId) + 1
    ensures !(PresentId(userId) && Present(planType)) ==>
              res == Err(400, IncompleteData) && unchanged(db.payments, db.subscriptions)
    ensures PresentId(userId) && Present(planType) && planType.value != "PRO" ==>
              res == Err(400, FreePlanNoPayment) && unchanged(db.payments, db.subscriptions)
    ensures PresentId(userId) && planType == Some("PRO") ==>
              var pay := Payments.PaymentRow(old(db.payments.nextId), userId.value, None, ProPrice, None, Payments.Pending, now);
              if IsSimulated(env.stripeSecretKey) then
                && db.payments.rows == old(db.payments.rows) + [pay.(status := Payments.Paid)]
                && db.subscriptions.rows == Subscriptions.Renew(old(db.subscriptions.rows), userId.value, "PRO", now)
                && res.Ok? && res.body.Settled?
                && res.body.clientSecret == "sim_" + Show(pay.id)
                && res.body.paymentId == pay.id
                && res.body.payment == pay.(status := Payments.Paid)
                && res.body.token == codec.sign(Claims(userId, ContactEmail(db.users.rows, userId.value), Some("PRO")),
                                                Secret(env, IssuerDefaultSecret))
                && (res.body.subscription.None? <==>
                      forall x :: x in old(db.subscriptions.rows) ==> !Subscriptions.IsActiveFor(x, userId.value))
                && (res.body.subscription.Some? ==>
                      var s := res.body.subscription.value;
                      s in db.subscriptions.rows && Subscriptions.IsActiveFor(s, userId.value) && s.plan == "PRO")
              else
                && db.payments.rows == old(db.payments.rows) + [pay]
                && db.subscriptions.rows == old(db.subscriptions.rows)
                && res == (if gateway.Some? then Ok(Gateway(gateway.value, pay.id)) else Err(500, Internal))
  {
    if !PresentId(userId) || !Present(planType) {
      return Err(400, IncompleteData);
    }
    var amount := Amount(planType.value);
    if amount == 0 {
      return Err(400, FreePlanNoPayment);
    }
    var payment := db.payments.Create(userId.value, None, amount, now, None, Payments.Pending);
    if !IsSimulated(env.stripeSecretKey) {
      if gateway.None? {
        return Err(500, Internal);
      }
      return Ok(Gateway(gateway.value, payment.id));
    }
    Payments.SetStatusAppended(old(db.payments.rows), old(db.payments.nextId), payment, Payments.Paid);
    var paid := payment.(status := Payments.Paid);
    Payments.CreatedIsFound(old(db.payments.rows), old(db.payments.nextId), paid);
    var updated, sub := Approve(db, payment.id, userId.value, now);
    var email := ContactEmail(db.users.rows, userId.value);
    var token := codec.sign(Claims(userId, email, Some("PRO")), Secret(env, IssuerDefaultSecret));
    res := Ok(Settled("sim_" + Show(payment.id), payment.id, paid, sub, token));
  }

  /** The name of the one event the webhook acts on. */
  const SucceededEvent: string := "payment_intent.succeeded"

  /** `event.data.object.metadata`: the payment and the user the intent was created for. */
  datatype Metadata = Metadata(paymentId: Option<nat>, userId: Option<nat>)

  /** The part of a Stripe event the webhook reads: its type and the intent's metadata, absent
      where the body has no `data.object` or the object no `metadata`. */
  datatype Event = Event(kind: string, metadata: Option<Metadata>)

  /** A succeeded intent without metadata: destructuring it throws, and the catch answers 500. */
  predicate Malformed(event: Event)
  {
    event.kind == SucceededEvent && event.metadata.None?
  }

  /** The webhook's reply `{ received: true }`, with a warning when Stripe is not configured. */
  datatype Ack = Ack(warning: bool)

  /** What a configured webhook does to the payments and the subscriptions: for a succeeded
      intent whose metadata names a stored payment, that payment becomes paid and the active
      subscription of the user the metadata names becomes PRO; anything else changes nothing.
      No row is added or removed. */
  function Settle(pays: seq<PaymentRow>, subs: seq<SubRow>, event: Event, now: int)
    : (r: (seq<PaymentRow>, seq<SubRow>))
    ensures |r.0| == |pays| && |r.1| == |subs|
    ensures event.kind != SucceededEvent || event.metadata.None? ==> r == (pays, subs)
    ensures event.metadata.Some? &&
            (event.metadata.value.paymentId.None? || Payments.FindById(pays, event.metadata.value.paymentId.value).None?) ==>
              r == (pays, subs)
  {
    if event.kind != SucceededEvent || event.metadata.None? then (pays, subs)
    else
      var m := event.metadata.value;
      if m.paymentId.None? then (pays, subs)
      else match Payments.FindById(pays, m.paymentId.value)
        case None => (pays, subs)
        case Some(p) =>
          (Payments.SetStatus(pays, p.id, Payments.Paid),
           if m.userId.Some? then Subscriptions.Renew(subs, m.userId.value, "PRO", now) else subs)
  }

  /** Stripe may deliver an event twice: the second delivery (at the same time) changes nothing. */
  lemma SettleIdempotent(pays: seq<PaymentRow>, subs: seq<SubRow>, event: Event, now: int)
    ensures var once := Settle(pays, subs, event, now);
            Settle(once.0, once.1, event, now) == once
  {
    if event.kind == SucceededEvent && event.metadata.Some? && event.metadata.value.paymentId.Some? {
      var m := event.metadata.value;
      var id := m.paymentId.value;
      var found := Payments.FindById(pays, id);
      if found.Some? {
        Payments.SetStatusThenFind(pays, id, Payments.Paid);
        Payments.SetStatusIdempotent(pays, id, Payments.Paid);
        if m.userId.Some? {
          Subscriptions.RenewIdempotent(subs, m.userId.value, "PRO", now);
        }
      }
    }
  }

  /** A settled event leaves the named payment paid and the named user's subscription, if they
      have one, on PRO; every other user's subscription is as it was. The user is taken from the
      event's metadata, not from the payment. */
  lemma SettleUpgrades(pays: seq<PaymentRow>, subs: seq<SubRow>, paymentId: nat, userId: nat, now: int, other: nat)
    requires Payments.FindById(pays, paymentId).Some?
    requires other != userId
    ensures var r := Settle(pays, subs, Event(SucceededEvent, Some(Metadata(Some(paymentId), Some(userId)))), now);
            && r.0 == Payments.SetStatus(pays, paymentId, Payments.Paid)
            && Payments.FindById(r.0, paymentId).Some?
            && Payments.FindById(r.0, paymentId).value.status == Payments.Paid
            && (Subscriptions.FindActive(subs, userId).Some? ==>
                  && Subscriptions.FindActive(r.1, userId).Some?
                  && Subscriptions.FindActive(r.1, userId).value.plan == "PRO")
            && Subscriptions.FindActive(r.1, other) == Subscriptions.FindActive(subs, other)
  {
    var r := Settle(pays, subs, Event(SucceededEvent, Some(Metadata(Some(paymentId), Some(userId)))), now);
    assert r == (Payments.SetStatus(pays, paymentId, Payments.Paid), Subscriptions.Renew(subs, userId, "PRO", now));
    Payments.SetStatusThenFind(pays, paymentId, Payments.Paid);
    Subscriptions.RenewThenFind(subs, userId, "PRO", now);
    Subscriptions.RenewOtherUser(subs, userId, "PRO", now, other);
  }

  /** `webhook`: when Stripe is not configured it warns and changes nothing; a succeeded intent
      without metadata answers 500 and changes nothing; every other event is acknowledged after
      `Settle` is applied. The event's signature is not checked. */
  method Webhook(db: Store.Db, env: Env, event: Event, now: int) returns (res: Response<Ack>)
    requires db.Valid()
    modifies db.payments, db.subscriptions
    ensures db.Valid()
    ensures db.payments.nextId == old(db.payments.nextId) && db.subscriptions.nextId == old(db.subscriptions.nextId)
    ensures WebhookIgnored(env.stripeSecretKey) ==>
              res == Ok(Ack(true)) && unchanged(db.payments, db.subscriptions)
    ensures !WebhookIgnored(env.stripeSecretKey) && Malformed(event) ==>
              res == Err(500, Internal) && unchanged(db.payments, db.subscriptions)
    ensures !WebhookIgnored(env.stripeSecretKey) && !Malformed(event) ==>
              && res == Ok(Ack(false))
              && (db.payments.rows, db.subscriptions.rows)
                 == Settle(old(db.payments.rows), old(db.subscriptions.rows), event, now)
  {
    if WebhookIgnored(env.stripeSecretKey) {
      return Ok(Ack(true));
    }
    if event.kind == SucceededEvent {
      if event.metadata.None? {
        return Err(500, Internal);
      }
      var m := event.metadata.value;
      var payment := if m.paymentId.Some? then Payments.FindById(db.payments.rows, m.paymentId.value) else None;
      if payment.Some? {
        if m.userId.Some? {
          var updated, sub := Approve(db, payment.value.id, m.userId.value, now);
        } else {
          var updated := db.payments.UpdateStatus(payment.value.id, Payments.Paid);
        }
      }
    }
    res := Ok(Ack(false));
  }

  /** With `JWT_SECRET` set, the PRO token of a settled payment unlocks the PRO limits of the
      recovery routes. */
  lemma ProTokenUnlocksProLimits(env: Env, codec: Codec, claims: Claims)
    requires RoundTrips(codec) && Present(env.jwtSecret) && claims.plan == Some("PRO")
    ensures var header := Some(BearerHeader(codec.sign(claims, Secret(env, IssuerDefaultSecret))));
            && Recovery.ExtractUserPlan(header, env, codec) == "pro"
            && Recovery.PlanLimits(Recovery.ExtractUserPlan(header, env, codec)) == Some(Recovery.ProLimits)
  {
    Recovery.ExtractSignedPlan(env, codec, claims);
    assert Lower("PRO") == "pro";
  }

  /** With `JWT_SECRET` unset, the recovery routes cannot read the PRO token of a settled
      payment and give its holder the free limits. */
  lemma UnsetSecretKeepsPayerFree(env: Env, codec: Codec, claims: Claims)
    requires KeyBound(codec) && !Present(env.jwtSecret)
    ensures var header := Some(BearerHeader(codec.sign(claims, Secret(env, IssuerDefaultSecret))));
            && Recovery.ExtractUserPlan(header, env, codec) == "free"
            && Recovery.PlanLimits(Recovery.ExtractUserPlan(header, env, codec)) == Some(Recovery.FreeLimits)
  {
    var token := codec.sign(claims, Secret(env, IssuerDefaultSecret));
    BearerHeaderRoundTrip(token);
    DefaultSecretsDisagree(codec, env, claims);
  }
}
