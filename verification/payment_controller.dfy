/**
 * The payment handlers: the creation of a hosted checkout session for an
 * amount chosen by the guest, and the retired payment-intent route.
 */
module PaymentController {
  import opened Base
  import opened Js
  import opened Text

  const AmountRequired := "Le montant (amount) est requis et doit être un nombre"
  const AmountNotPositive := "Le montant doit être supérieur à 0"
  const CurrencyNotString := "La devise (currency) doit être une chaîne de caractères"
  const IncompleteConfig := "Configuration Stripe incomplète"
  const NoCheckoutUrl := "Impossible de créer l'URL de checkout"
  const CheckoutFailed := "Erreur lors de la création de la session de paiement"
  const NotImplemented := "Fonctionnalité non implémentée"
  const DefaultCurrency := "eur"

  /** The request body's two properties. */
  datatype CheckoutBody = CheckoutBody(amount: Value, currency: Value)

  /** What the handler asks the payment provider for. */
  datatype CheckoutParams = CheckoutParams(amount: real, currency: Value, productId: string)

  /** The provider's session (its URL may be missing) or the error it threw,
      whose `message` may be absent. */
  datatype Session = Session(url: Option<string>)
  datatype ProviderError = ProviderError(message: Option<string>)

  datatype PaymentBody = PaymentFailure(error: string) | CheckoutUrl(message: string)

  /** A response, or no response at all because the error handler itself
      threw. */
  datatype Outcome =
    | Responded(status: int, body: PaymentBody)
    | NoResponse

  /** The outcome and the calls made to the provider. */
  datatype Checkout = Checkout(outcome: Outcome, calls: seq<CheckoutParams>)

  /** `body.currency || "eur"`. */
  function CurrencyOf(currency: Value): Value
  {
    if Truthy(currency) then currency else Str(DefaultCurrency)
  }

  /** The validation ladder in front of the provider: the first failing
      check's message, or the amount. */
  function ValidateCheckout(body: CheckoutBody): (r: Result<real, string>)
    ensures r.Ok? <==> body.amount.Num? && body.amount.n.Finite? && body.amount.n.r > 0.0
                       && (!Truthy(body.currency) || body.currency.Str?)
    ensures r.Ok? ==> r.value == body.amount.n.r
    ensures !Truthy(body.amount) || !body.amount.Num? ==> r == Err(AmountRequired)
    ensures body.amount.Num? && body.amount.n.Finite? && body.amount.n.r < 0.0 ==> r == Err(AmountNotPositive)
    ensures (body.amount.Num? && body.amount.n.Finite? && body.amount.n.r > 0.0
             && Truthy(body.currency) && !body.currency.Str?) ==> r == Err(CurrencyNotString)
  {
    if !Truthy(body.amount) || !body.amount.Num? then Err(AmountRequired)
    else if body.amount.n.r <= 0.0 then Err(AmountNotPositive)
    else if Truthy(body.currency) && !body.currency.Str? then Err(CurrencyNotString)
    else Ok(body.amount.n.r)
  }

  /** The catch block as written: `error.message.includes("montant")` is
      read before the fallback, so an error without a message makes the
      catch block itself throw, and the handler sends nothing. */
  function ProviderFailureAsWritten(e: ProviderError): (r: Outcome)
    ensures r.NoResponse? <==> e.message.None?
    ensures e.message.Some? ==> r.Responded? && r.body.PaymentFailure?
    ensures e.message.Some? ==> (r.status == 400 <==> Contains(e.message.value, "montant"))
    ensures e.message.Some? && r.status != 400 ==> r.status == 500
  {
    match e.message
    case None => NoResponse
    case Some(m) =>
      if Contains(m, "montant") then Responded(400, PaymentFailure(m))
      else Responded(500, PaymentFailure(if m != "" then m else CheckoutFailed))
  }

  /** A provider error that carries no message gets no answer at all. */
  lemma MessagelessErrorUnanswered()
    ensures ProviderFailureAsWritten(ProviderError(None)) == NoResponse
  {
  }

  /** The catch block with the message read optionally: every error is
      answered, with the fallback text when the message is absent or empty. */
  function ProviderFailure(e: ProviderError): (r: Outcome)
    ensures r.Responded? && r.body.PaymentFailure?
    ensures r.status == 400 <==> e.message.Some? && Contains(e.message.value, "montant")
    ensures r.status != 400 ==> r.status == 500
    ensures e.message.None? ==> r == Responded(500, PaymentFailure(CheckoutFailed))
    ensures e.message.Some? && e.message.value != "" ==> r.body.error == e.message.value
  {
    var m := if e.message.Some? then e.message.value else "";
    if Contains(m, "montant") then Responded(400, PaymentFailure(m))
    else Responded(500, PaymentFailure(if m != "" then m else CheckoutFailed))
  }

  /** The two catch blocks agree on every error that has a message. */
  lemma ProviderFailureAgrees(e: ProviderError)
    requires e.message.Some?
    ensures ProviderFailureAsWritten(e) == ProviderFailure(e)
  {
  }

  /** The answer to the provider's session: 201 with its URL, or 500 when
      the URL is missing or empty. */
  function SessionOutcome(session: Session): Outcome
  {
    if session.url.None? || session.url.value == "" then Responded(500, PaymentFailure(NoCheckoutUrl))
    else Responded(201, CheckoutUrl(session.url.value))
  }

  /** The body of `createCheckoutSession`, with the catch block `onError`.
      `productId` is the configured product, and `provider` the payment
      provider's session call. */
  function CheckoutWith(body: CheckoutBody, productId: Option<string>,
                        provider: CheckoutParams -> Result<Session, ProviderError>,
                        onError: ProviderError -> Outcome): Checkout
  {
    match ValidateCheckout(body)
    case Err(message) => Checkout(Responded(400, PaymentFailure(message)), [])
    case Ok(amount) =>
      if productId.None? || productId.value == "" then
        Checkout(Responded(500, PaymentFailure(IncompleteConfig)), [])
      else
        var params := CheckoutParams(amount, CurrencyOf(body.currency), productId.value);
        var outcome :=
          match provider(params)
          case Err(e) => onError(e)
          case Ok(session) => SessionOutcome(session);
        Checkout(outcome, [params])
  }

  /** The parameters the provider is asked for: the amount, the currency or
      "eur" when none is given, and the configured product. */
  function ExpectedParams(body: CheckoutBody, productId: string): CheckoutParams
    requires body.amount.Num? && body.amount.n.Finite?
  {
    CheckoutParams(body.amount.n.r,
                   if body.currency.Str? && body.currency.s != "" then body.currency else Str(DefaultCurrency),
                   productId)
  }

  /** Whether the provider is asked at all: the body passed validation and a
      product is configured. */
  predicate ReachesProvider(body: CheckoutBody, productId: Option<string>)
  {
    ValidateCheckout(body).Ok? && productId.Some? && productId.value != ""
  }

  /** `createCheckoutSession` as written. Validation failures and a missing
      product answer without asking the provider; otherwise the provider is
      asked exactly once, and its error goes to the catch block as written,
      which leaves an error without a message unanswered. */
  function CreateCheckoutSession(body: CheckoutBody, productId: Option<string>,
                                 provider: CheckoutParams -> Result<Session, ProviderError>): (r: Checkout)
    ensures ValidateCheckout(body).Err? ==>
              r == Checkout(Responded(400, PaymentFailure(ValidateCheckout(body).error)), [])
    ensures ValidateCheckout(body).Ok? && (productId.None? || productId.value == "") ==>
              r == Checkout(Responded(500, PaymentFailure(IncompleteConfig)), [])
    ensures ReachesProvider(body, productId) ==> r.calls == [ExpectedParams(body, productId.value)]
    ensures !ReachesProvider(body, productId) ==> r.calls == []
    ensures |r.calls| == 1 && provider(r.calls[0]).Err? ==>
              r.outcome == ProviderFailureAsWritten(provider(r.calls[0]).error)
    ensures |r.calls| == 1 && provider(r.calls[0]).Ok? && (provider(r.calls[0]).value.url.None? || provider(r.calls[0]).value.url.value == "") ==>
              r.outcome == Responded(500, PaymentFailure(NoCheckoutUrl))
    ensures r.outcome.NoResponse? <==>
              |r.calls| == 1 && provider(r.calls[0]).Err? && provider(r.calls[0]).error.message.None?
    ensures r.outcome.Responded? && r.outcome.status == 201 <==>
              |r.calls| == 1 && provider(r.calls[0]).Ok? && provider(r.calls[0]).value.url.Some?
              && provider(r.calls[0]).value.url.value != ""
    ensures r.outcome.Responded? && r.outcome.status == 201 ==>
              r.outcome.body == CheckoutUrl(provider(r.calls[0]).value.url.value)
  {
    CheckoutWith(body, productId, provider, ProviderFailureAsWritten)
  }

  /** `createCheckoutSession` with the corrected catch block: the same
      handler, except that every provider error is answered. */
  function CreateCheckoutSessionCorrected(body: CheckoutBody, productId: Option<string>,
                                          provider: CheckoutParams -> Result<Session, ProviderError>): (r: Checkout)
    ensures r.outcome.Responded?
    ensures ReachesProvider(body, productId) ==> r.calls == [ExpectedParams(body, productId.value)]
    ensures !ReachesProvider(body, productId) ==> r.calls == []
    ensures |r.calls| == 1 && provider(r.calls[0]).Err? ==>
              r.outcome == ProviderFailure(provider(r.calls[0]).error)
  {
    CheckoutWith(body, productId, provider, ProviderFailure)
  }

  /** The corrected handler answers exactly as the written one whenever the
      written one answers at all. */
  lemma CorrectedCheckoutAgrees(body: CheckoutBody, productId: Option<string>,
                                provider: CheckoutParams -> Result<Session, ProviderError>)
    ensures var written := CreateCheckoutSession(body, productId, provider);
            var corrected := CreateCheckoutSessionCorrected(body, productId, provider);
            && corrected.calls == written.calls
            && (written.outcome.Responded? ==> corrected == written)
  {
    if ReachesProvider(body, productId) {
      var params := ExpectedParams(body, productId.value);
      if provider(params).Err? {
        var e := provider(params).error;
        if e.message.Some? {
          ProviderFailureAgrees(e);
        }
      }
    }
  }

  /** Whatever the request and the provider do, the corrected checkout is
      answered with 201, 400 or 500. */
  lemma CheckoutStatuses(body: CheckoutBody, productId: Option<string>,
                         provider: CheckoutParams -> Result<Session, ProviderError>)
    ensures var r := CreateCheckoutSessionCorrected(body, productId, provider);
            r.outcome.status in {201, 400, 500}
  {
    var r := CreateCheckoutSessionCorrected(body, productId, provider);
    if ReachesProvider(body, productId) {
      var params := ExpectedParams(body, productId.value);
      if provider(params).Err? {
        assert r.outcome == ProviderFailure(provider(params).error);
      }
    }
  }

  /** `createPaymentIntent`: the route is retired and always answers 501. */
  function CreatePaymentIntent<Request>(request: Request): (r: Outcome)
    ensures r.Responded? && r.status == 501 && r.body == PaymentFailure(NotImplemented)
  {
    Responded(501, PaymentFailure(NotImplemented))
  }
}
