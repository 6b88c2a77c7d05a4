/** Payment reconciliation: a pending payment is recorded when a charge is
    initiated, and the gateway's webhook or callback marks it paid at most
    once. The gateway is an oracle: the initialize call answers with an
    authorization url or fails, and `verify(reference)` says whether the
    gateway reports that charge as successful. */
module PaymentService {
  import opened Outcomes
  import opened UserEntity
  import opened StatusService
  import opened CampaignService
  import Tables

  type PaymentId = nat

  /** A row of `payments`; `amount` is in cents and `status` a status name.
      The reference column is not unique. */
  datatype Payment = Payment(
    campaign: CampaignId,
    user: UserId,
    reference: string,
    amount: int,
    currency: string,
    status: string)

  type Payments = map<PaymentId, Payment>

  /** The tables reconciliation writes. */
  datatype Ledger = Ledger(payments: Payments, campaigns: Campaigns)

  const CURRENCY: string := "USD"
  const CHARGE_SUCCESS: string := "charge.success"

  /** The decimal notation of a natural number, as template interpolation
      prints it. */
  function Digits(n: nat): (s: string)
    ensures |s| >= 1
    ensures forall i :: 0 <= i < |s| ==> '0' <= s[i] <= '9'
  {
    var d := [(('0' as int) + n % 10) as char];
    if n < 10 then d else Digits(n / 10) + d
  }

  /** The number a string of decimal digits denotes. */
  function DigitsValue(s: string): int
  {
    if s == [] then 0 else DigitsValue(s[..|s| - 1]) * 10 + (s[|s| - 1] as int - '0' as int)
  }

  /** Printing a number and reading it back gives the number. */
  lemma {:induction false} DigitsRoundTrip(n: nat)
    ensures DigitsValue(Digits(n)) == n
  {
    var d := [(('0' as int) + n % 10) as char];
    if n >= 10 {
      DigitsRoundTrip(n / 10);
      var s := Digits(n / 10) + d;
      assert s[..|s| - 1] == Digits(n / 10);
    }
  }

  /** `REF_<now>_<draw>` with the draw reduced below 10000. */
  function Reference(now: nat, draw: nat): (s: string)
    ensures |s| >= 7 && s[..4] == "REF_"
  {
    "REF_" + Digits(now) + "_" + Digits(draw % 10000)
  }

  /** A reference determines the instant and the reduced draw it was made
      from: two payments get the same reference only when initiated in the
      same millisecond with the same draw. */
  lemma ReferenceDeterminesInputs(now1: nat, draw1: nat, now2: nat, draw2: nat)
    requires Reference(now1, draw1) == Reference(now2, draw2)
    ensures now1 == now2 && draw1 % 10000 == draw2 % 10000
  {
    var a1, a2 := Digits(now1), Digits(now2);
    var b1, b2 := Digits(draw1 % 10000), Digits(draw2 % 10000);
    var r := Reference(now1, draw1);
    assert r == "REF_" + (a1 + "_" + b1) == "REF_" + (a2 + "_" + b2);
    var s := r[4..];
    assert s == a1 + "_" + b1 && s == a2 + "_" + b2;
    // the first separator after the prefix ends the instant's digits
    assert s[|a1|] == '_' && s[|a2|] == '_';
    assert forall i :: 0 <= i < |a1| ==> s[i] == a1[i];
    assert forall i :: 0 <= i < |a2| ==> s[i] == a2[i];
    assert |a1| == |a2|;
    assert a1 == s[..|a1|] == a2;
    assert b1 == s[|a1| + 1..] == b2;
    DigitsRoundTrip(now1);
    DigitsRoundTrip(now2);
    DigitsRoundTrip(draw1 % 10000);
    DigitsRoundTrip(draw2 % 10000);
  }

  /** `findOne({ where: { reference } })`: some payment with that reference. */
  function FindPayment(payments: Payments, reference: string): (r: Option<PaymentId>)
    ensures r.Some? ==> r.value in payments && payments[r.value].reference == reference
    ensures r.None? <==> forall id :: id in payments ==> payments[id].reference != reference
  {
    Tables.FindKey(payments, (p: Payment) => p.reference == reference)
  }

  /** The body of the initialize request sent to the gateway. */
  datatype Charge = Charge(email: string, amount: int, currency: string, reference: string,
                           user: UserId, campaign: CampaignId)

  datatype Initiated = Initiated(authorizationUrl: string, reference: string, charge: Charge)

  /** `initiatePayment`, with the pending status written as evidently meant:
      fails, recording nothing, for a missing requester, a
      missing campaign, an amount other than the campaign's, or a failed
      gateway call. Otherwise exactly one pending USD payment of that amount
      under the generated reference is recorded, and the gateway is asked to
      charge the campaign amount in minor units (cents) under the same
      reference. */
  function InitiatePayment(users: Users, ledger: Ledger, requester: UserId, campaignId: CampaignId,
                           amount: int, now: nat, draw: nat, gateway: Option<string>)
    : (r: Change<Ledger, Initiated>)
    ensures r.result.Err? ==> r.state == ledger && r.result.kind == InternalServerError
    ensures requester !in users ==> r.result == Internal(UserNotFound)
    ensures requester in users && campaignId !in ledger.campaigns ==> r.result == Internal(CampaignNotFound)
    ensures requester in users && campaignId in ledger.campaigns
            && ledger.campaigns[campaignId].amount != amount ==>
              r.result == Internal(AmountMismatch)
    ensures r.result.Ok? <==>
              requester in users && campaignId in ledger.campaigns
              && ledger.campaigns[campaignId].amount == amount && gateway.Some?
    ensures r.result.Ok? ==>
              var i := r.result.value;
              && i.authorizationUrl == gateway.value
              && i.reference == Reference(now, draw)
              && r.state.campaigns == ledger.campaigns
              && (exists id: PaymentId :: id !in ledger.payments
                    && r.state.payments == ledger.payments[id := Payment(campaignId, requester, i.reference,
                                                                         amount, CURRENCY, PENDING_STATUS)])
              && i.charge == Charge(users[requester].email, ledger.campaigns[campaignId].amount, CURRENCY,
                                    i.reference, requester, campaignId)
  {
    if requester !in users then Change(ledger, Internal(UserNotFound))
    else if campaignId !in ledger.campaigns then Change(ledger, Internal(CampaignNotFound))
    else
      var reference := Reference(now, draw);
      var campaign := ledger.campaigns[campaignId];
      if campaign.amount != amount then Change(ledger, Internal(AmountMismatch))
      else
        var id := Tables.Fresh(ledger.payments.Keys);
        var p := Payment(campaignId, requester, reference, amount, CURRENCY, PENDING_STATUS);
        var charge := Charge(users[requester].email, campaign.amount, CURRENCY, reference, requester, campaignId);
        match gateway
        case None => Change(ledger, Internal(GatewayFailure))
        case Some(url) =>
          Change(ledger.(payments := ledger.payments[id := p]), Ok(Initiated(url, reference, charge)))
  }

  /** `markPaymentAsSuccess`: an unknown reference fails and a payment that
      already succeeded is acknowledged, both without writes. Otherwise the
      payment becomes "Success" and its campaign "Paid" together; when the
      campaign row is missing neither write survives. */
  function MarkPaymentAsSuccess(ledger: Ledger, reference: string): (r: Change<Ledger, ()>)
    ensures FindPayment(ledger.payments, reference).None? ==>
              r == Change(ledger, Internal(PaymentNotFound))
    ensures FindPayment(ledger.payments, reference).Some?
            && ledger.payments[FindPayment(ledger.payments, reference).value].status == SUCCESS_STATUS ==>
              r == Change(ledger, Ok(()))
    ensures r.result.Err? ==> r.state == ledger && r.result.kind == InternalServerError
    ensures r.result.Ok? <==>
              && FindPayment(ledger.payments, reference).Some?
              && var p := ledger.payments[FindPayment(ledger.payments, reference).value];
              p.status == SUCCESS_STATUS || p.campaign in ledger.campaigns
    ensures FindPayment(ledger.payments, reference).Some? ==>
              var p := ledger.payments[FindPayment(ledger.payments, reference).value];
              p.status != SUCCESS_STATUS && p.campaign !in ledger.campaigns ==>
                r == Change(ledger, Internal(NullReference))
    ensures FindPayment(ledger.payments, reference).Some? ==>
              var id := FindPayment(ledger.payments, reference).value;
              var p := ledger.payments[id];
              p.status != SUCCESS_STATUS && p.campaign in ledger.campaigns ==>
              && r.result.Ok?
              && r.state.payments == ledger.payments[id := p.(status := SUCCESS_STATUS)]
              && r.state.campaigns == ledger.campaigns[p.campaign := ledger.campaigns[p.campaign].(status := PAID_STATUS)]
              && r.state != ledger
    ensures r.state != ledger ==>
              var id := FindPayment(ledger.payments, reference).value;
              var p := ledger.payments[id];
              && r.result.Ok?
              && p.status != SUCCESS_STATUS
              && p.campaign in ledger.campaigns
              && r.state.payments == ledger.payments[id := p.(status := SUCCESS_STATUS)]
              && r.state.campaigns == ledger.campaigns[p.campaign := ledger.campaigns[p.campaign].(status := PAID_STATUS)]
    ensures r.result.Ok? ==>
              && FindPayment(ledger.payments, reference).Some?
              && var id := FindPayment(ledger.payments, reference).value;
              && id in r.state.payments && r.state.payments[id].status == SUCCESS_STATUS
  {
    match FindPayment(ledger.payments, reference)
    case None => Change(ledger, Internal(PaymentNotFound))
    case Some(id) =>
      var p := ledger.payments[id];
      if p.status == SUCCESS_STATUS then Change(ledger, Ok(()))
      else if p.campaign !in ledger.campaigns then Change(ledger, Internal(NullReference))
      else
        var c := ledger.campaigns[p.campaign];
        assert ledger.payments[id := p.(status := SUCCESS_STATUS)][id] != ledger.payments[id];
        Change(Ledger(ledger.payments[id := p.(status := SUCCESS_STATUS)],
                      ledger.campaigns[p.campaign := c.(status := PAID_STATUS)]), Ok(()))
  }

  /** `markPaymentAsSuccess` as written. The payment's status is a relation
      whose join column holds the integer id of a `campaign_statuses` row,
      and the code assigns it the status name "Success" instead. The first
      save therefore writes a name into an integer key column, the store
      refuses it and the transaction rolls back: every known reference
      fails with nothing written. (The already-succeeded check never holds
      either, because the status relation is not loaded by the lookup.) */
  function MarkPaymentAsSuccessAsWritten(ledger: Ledger, reference: string): (r: Change<Ledger, ()>)
    ensures r.state == ledger
    ensures FindPayment(ledger.payments, reference).None? ==> r.result == Internal(PaymentNotFound)
    ensures FindPayment(ledger.payments, reference).Some? ==> r.result == Internal(StatusNameNotAnId)
  {
    match FindPayment(ledger.payments, reference)
    case None => Change(ledger, Internal(PaymentNotFound))
    case Some(_) => Change(ledger, Internal(StatusNameNotAnId))
  }

  /** As written no payment is ever marked: the marking leaves the ledger as
      it was and fails, while the intended marking turns a pending payment
      of an existing campaign into "Success" and the campaign into "Paid". */
  lemma NoPaymentMarkedAsWritten(ledger: Ledger, reference: string)
    requires FindPayment(ledger.payments, reference).Some?
    requires var p := ledger.payments[FindPayment(ledger.payments, reference).value];
             p.status == PENDING_STATUS && p.campaign in ledger.campaigns
    ensures var w := MarkPaymentAsSuccessAsWritten(ledger, reference);
            w.state == ledger && w.result.Err?
    ensures var id := FindPayment(ledger.payments, reference).value;
            var p := ledger.payments[id];
            var m := MarkPaymentAsSuccess(ledger, reference);
            && m.result.Ok?
            && m.state.payments[id].status == SUCCESS_STATUS
            && m.state.campaigns[p.campaign].status == PAID_STATUS
            && m.state != ledger
  {
  }

  /** Marking twice is marking once: the second call finds the payment
      already succeeded (or fails exactly as the first did) and writes
      nothing. */
  lemma MarkIdempotent(ledger: Ledger, reference: string)
    ensures var once := MarkPaymentAsSuccess(ledger, reference);
            MarkPaymentAsSuccess(once.state, reference) == once
  {
    var once := MarkPaymentAsSuccess(ledger, reference);
    if once.state != ledger {
      var id := FindPayment(ledger.payments, reference).value;
      Tables.FindKeyStable(ledger.payments, once.state.payments, (p: Payment) => p.reference == reference);
    }
  }

  /** What a webhook or callback did: the state it left, its outcome and the
      references it asked the gateway to verify, in order. */
  datatype Handled<T> = Handled(state: Ledger, result: Result<T>, queried: seq<string>)

  /** `handleWebhook`: a signature header other than the digest computed over
      the body is refused before the gateway is asked anything. A
      `charge.success` event for a reference the gateway verifies marks that
      payment; any other event, or an unverified one, changes nothing. */
  function HandleWebhook(ledger: Ledger, signature: Option<string>, computed: string,
                         event: string, reference: string, verify: string -> bool)
    : (r: Handled<()>)
    ensures signature != Some(computed) ==>
              r == Handled(ledger, Err(Unauthorized, InvalidSignature), [])
    ensures signature == Some(computed) ==>
              (r.queried == [reference] <==> event == CHARGE_SUCCESS)
    ensures signature == Some(computed) && !(event == CHARGE_SUCCESS && verify(reference)) ==>
              r.state == ledger && r.result == Ok(())
    ensures signature == Some(computed) && event == CHARGE_SUCCESS && verify(reference) ==>
              var m := MarkPaymentAsSuccess(ledger, reference);
              r.state == m.state && r.result == m.result
    ensures r.state != ledger ==> event == CHARGE_SUCCESS && verify(reference) && signature == Some(computed)
  {
    if signature != Some(computed) then Handled(ledger, Err(Unauthorized, InvalidSignature), [])
    else if event != CHARGE_SUCCESS then Handled(ledger, Ok(()), [])
    else if !verify(reference) then Handled(ledger, Ok(()), [reference])
    else
      var m := MarkPaymentAsSuccess(ledger, reference);
      Handled(m.state, m.result, [reference])
  }

  /** A redelivered webhook changes nothing beyond the first delivery. */
  lemma WebhookReplayIsHarmless(ledger: Ledger, signature: Option<string>, computed: string,
                                event: string, reference: string, verify: string -> bool)
    ensures var once := HandleWebhook(ledger, signature, computed, event, reference, verify);
            var twice := HandleWebhook(once.state, signature, computed, event, reference, verify);
            twice.state == once.state && twice.result == once.result
  {
    MarkIdempotent(ledger, reference);
  }

  /** The callback's answer: whether the gateway verified the reference. */
  datatype Callback = Callback(verified: bool, reference: string)

  /** `handleCallback`: always asks the gateway about the reference; a
      verified reference is marked, otherwise the failure is reported as a
      normal answer and nothing changes. */
  function HandleCallback(ledger: Ledger, reference: string, verify: string -> bool)
    : (r: Handled<Callback>)
    ensures r.queried == [reference]
    ensures !verify(reference) ==> r.state == ledger && r.result == Ok(Callback(false, reference))
    ensures verify(reference) ==>
              var m := MarkPaymentAsSuccess(ledger, reference);
              && r.state == m.state
              && (m.result.Ok? ==> r.result == Ok(Callback(true, reference)))
              && (m.result.Err? ==> r.result == Err(m.result.kind, m.result.msg))
  {
    if verify(reference) then
      var m := MarkPaymentAsSuccess(ledger, reference);
      match m.result
      case Err(k, msg) => Handled(m.state, Err(k, msg), [reference])
      case Ok(_) => Handled(m.state, Ok(Callback(true, reference)), [reference])
    else Handled(ledger, Ok(Callback(false, reference)), [reference])
  }

  /** Once a webhook has marked a payment, the gateway's callback for the
      same reference changes nothing and reports the payment verified. */
  lemma CallbackAfterWebhookChangesNothing(ledger: Ledger, signature: Option<string>, computed: string,
                                           reference: string, verify: string -> bool)
    requires signature == Some(computed) && verify(reference)
    requires HandleWebhook(ledger, signature, computed, CHARGE_SUCCESS, reference, verify).result.Ok?
    ensures var once := HandleWebhook(ledger, signature, computed, CHARGE_SUCCESS, reference, verify);
            var cb := HandleCallback(once.state, reference, verify);
            cb.state == once.state && cb.result == Ok(Callback(true, reference))
  {
    MarkIdempotent(ledger, reference);
  }
}
