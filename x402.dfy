/**
 * The payment challenge of the download endpoint (src/lib/x402.ts): the
 * body of an HTTP 402 Payment Required response (section 15.5.3 of RFC 9110)
 * in version 2 of the x402 protocol, built from configuration read once from
 * the environment. The verifier library and the decoding of the payment
 * header are parameters.
 */
module X402 {
  import opened Options

  /** The environment variables the module reads; `None` is an unset variable. */
  datatype Env = Env(
    facilitatorUrl: Option<string>,
    walletAddress: Option<string>,
    network: Option<string>,
    skillPrice: Option<string>)

  datatype Config = Config(facilitatorUrl: string, walletAddress: string, network: string, skillPrice: string)

  const DefaultFacilitatorUrl: string := "https://facilitator.stacksx402.com"
  const DefaultNetwork: string := "stacks:2147483648"
  /** Two STX in micro-STX. */
  const DefaultSkillPrice: string := "2000000"

  /** `process.env.X || fallback`: an unset or empty variable gives the fallback. */
  function OrDefault(v: Option<string>, fallback: string): (r: string)
    ensures v.Some? && v.value != "" ==> r == v.value
    ensures v.None? || v.value == "" ==> r == fallback
  {
    match v
    case Some(s) => if s != "" then s else fallback
    case None => fallback
  }

  /**
   * The four module constants: a variable that is set and non-empty wins;
   * otherwise the facilitator, network and price have non-empty defaults and
   * the wallet stays empty.
   */
  function LoadConfig(env: Env): (r: Config)
    ensures env.facilitatorUrl.Some? && env.facilitatorUrl.value != "" ==> r.facilitatorUrl == env.facilitatorUrl.value
    ensures env.walletAddress.Some? && env.walletAddress.value != "" ==> r.walletAddress == env.walletAddress.value
    ensures env.network.Some? && env.network.value != "" ==> r.network == env.network.value
    ensures env.skillPrice.Some? && env.skillPrice.value != "" ==> r.skillPrice == env.skillPrice.value
    ensures r.facilitatorUrl != "" && r.network != "" && r.skillPrice != ""
    ensures env.walletAddress.None? ==> r.walletAddress == ""
  {
    Config(
      OrDefault(env.facilitatorUrl, DefaultFacilitatorUrl),
      OrDefault(env.walletAddress, ""),
      OrDefault(env.network, DefaultNetwork),
      OrDefault(env.skillPrice, DefaultSkillPrice))
  }

  datatype Resource = Resource(url: string, description: string, mimeType: string)

  datatype PaymentOption = PaymentOption(
    scheme: string,
    network: string,
    amount: string,
    asset: string,
    payTo: string,
    maxTimeoutSeconds: nat)

  datatype PaymentRequirements = PaymentRequirements(x402Version: nat, resource: Resource, accepts: seq<PaymentOption>)

  /** The one payment option offered: the exact price in STX, to the configured wallet. */
  function Offer(cfg: Config): PaymentOption {
    PaymentOption("exact", cfg.network, cfg.skillPrice, "STX", cfg.walletAddress, 300)
  }

  /** `getPaymentRequirements(resourceUrl)`. */
  function GetPaymentRequirements(resourceUrl: string, cfg: Config): (r: PaymentRequirements)
    ensures r.x402Version == 2 && |r.accepts| == 1
    ensures r.resource == Resource(resourceUrl, "Claude Code skill package download", "application/zip")
  {
    PaymentRequirements(2, Resource(resourceUrl, "Claude Code skill package download", "application/zip"), [Offer(cfg)])
  }

  datatype PaymentConfig = PaymentConfig(walletAddress: string, network: string, amount: string, asset: string, facilitatorUrl: string)

  /** `getPaymentConfig()`: the wallet, network, price and asset of the one offer, and the facilitator. */
  function GetPaymentConfig(cfg: Config): (r: PaymentConfig)
    ensures r.walletAddress == Offer(cfg).payTo && r.network == Offer(cfg).network
    ensures r.amount == Offer(cfg).amount && r.asset == Offer(cfg).asset == "STX"
    ensures r.facilitatorUrl == cfg.facilitatorUrl
  {
    PaymentConfig(cfg.walletAddress, cfg.network, cfg.skillPrice, "STX", cfg.facilitatorUrl)
  }

  /**
   * `verifyAndSettlePayment`: the decoded payload and the first accepted
   * option go to the facilitator at the configured address. `decode` stands
   * for the base64 and JSON decoding and `settle` for the verifier call.
   */
  function VerifyAndSettlePayment<Payload, Outcome>(
    paymentSignature: string,
    resourceUrl: string,
    cfg: Config,
    decode: string -> Payload,
    settle: (string, Payload, PaymentOption) -> Outcome): (r: Outcome)
    ensures r == settle(cfg.facilitatorUrl, decode(paymentSignature), Offer(cfg))
  {
    var requirements := GetPaymentRequirements(resourceUrl, cfg);
    settle(cfg.facilitatorUrl, decode(paymentSignature), requirements.accepts[0])
  }

  // ---------------------------------------------------------------------------
  // Properties

  /** With nothing set, the documented defaults, and no wallet. */
  lemma DefaultConfig()
    ensures LoadConfig(Env(None, None, None, None))
      == Config("https://facilitator.stacksx402.com", "", "stacks:2147483648", "2000000")
  {
  }

  /** The single option: exact scheme, STX, five minutes, and the configured price, network and wallet. */
  lemma ChallengeOffer(resourceUrl: string, env: Env)
    ensures var o := GetPaymentRequirements(resourceUrl, LoadConfig(env)).accepts[0];
      && o.scheme == "exact" && o.asset == "STX" && o.maxTimeoutSeconds == 300
      && o.amount == OrDefault(env.skillPrice, "2000000")
      && o.network == OrDefault(env.network, "stacks:2147483648")
      && o.payTo == OrDefault(env.walletAddress, "")
  {
  }

  /** What `getPaymentConfig` reports agrees with the option of every challenge. */
  lemma ConfigMatchesChallenge(resourceUrl: string, cfg: Config)
    ensures var o := GetPaymentRequirements(resourceUrl, cfg).accepts[0];
      var p := GetPaymentConfig(cfg);
      p.walletAddress == o.payTo && p.network == o.network && p.amount == o.amount && p.asset == o.asset
  {
  }

  /**
   * The option the verifier checks does not depend on the resource: a payment
   * made for one URL is checked against the same requirements as for any other.
   */
  lemma SettlementIgnoresResource<Payload, Outcome>(
    sig: string, url1: string, url2: string, cfg: Config,
    decode: string -> Payload, settle: (string, Payload, PaymentOption) -> Outcome)
    ensures VerifyAndSettlePayment(sig, url1, cfg, decode, settle) == VerifyAndSettlePayment(sig, url2, cfg, decode, settle)
    ensures GetPaymentRequirements(url1, cfg).accepts == GetPaymentRequirements(url2, cfg).accepts
  {
  }
}
