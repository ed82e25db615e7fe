/**
 * The link-creation handler (app/api/create/route.ts): an ordered chain of
 * input guards, then `createLink` on the store. URL validity
 * (`isValidUrl`), wallet validity (`isValidSolanaAddress`) and the generated
 * id (`generateLinkId`) are oracles and parameters.
 */
module CreateRoute {
  import opened Wrappers
  import opened Json
  import opened Ledger

  /** The JSON response: the created link, or an error with its status. */
  datatype CreateResponse = Created(id: string, url: string, price: real, wallet: string) | Rejected(status: nat, error: string)

  /** The inputs that passed every guard. */
  datatype NewLink = NewLink(apiUrl: string, price: real, wallet: string)

  const MISSING_FIELDS := "Missing required fields"
  const INVALID_URL := "Invalid API URL"
  const INVALID_PRICE := "Price must be between 0 and 1000 USDC"
  const INVALID_WALLET := "Invalid Solana wallet address"
  const CREATE_FAILED := "Failed to create link"

  /** The largest price a link may charge, in USDC. */
  const MAX_PRICE: real := 1000.0

  /** `!apiUrl || !price || !wallet` fails. */
  predicate AllPresent(apiUrl: Option<JsonValue>, price: Option<JsonValue>, wallet: Option<JsonValue>) {
    Truthy(apiUrl) && Truthy(price) && Truthy(wallet)
  }

  predicate UrlOk(apiUrl: Option<JsonValue>, isValidUrl: string -> bool) {
    apiUrl.Some? && apiUrl.value.JStr? && isValidUrl(apiUrl.value.s)
  }

  /** `typeof price === 'number'` and `0 < price <= 1000`. */
  predicate PriceOk(price: Option<JsonValue>) {
    price.Some? && price.value.JNum? && 0.0 < price.value.n <= MAX_PRICE
  }

  predicate WalletOk(wallet: Option<JsonValue>, isValidWallet: string -> bool) {
    wallet.Some? && wallet.value.JStr? && isValidWallet(wallet.value.s)
  }

  /**
   * The guards in their order: presence of all three fields, URL, price,
   * wallet. The first one that fails decides the 400 response; inputs that
   * pass them all are handed on.
   */
  function Validate(apiUrl: Option<JsonValue>, price: Option<JsonValue>, wallet: Option<JsonValue>,
                    isValidUrl: string -> bool, isValidWallet: string -> bool): (r: Result<NewLink, CreateResponse>)
    ensures r == Failure(Rejected(400, MISSING_FIELDS)) <==> !AllPresent(apiUrl, price, wallet)
    ensures r == Failure(Rejected(400, INVALID_URL)) <==>
      AllPresent(apiUrl, price, wallet) && !UrlOk(apiUrl, isValidUrl)
    ensures r == Failure(Rejected(400, INVALID_PRICE)) <==>
      AllPresent(apiUrl, price, wallet) && UrlOk(apiUrl, isValidUrl) && !PriceOk(price)
    ensures r == Failure(Rejected(400, INVALID_WALLET)) <==>
      AllPresent(apiUrl, price, wallet) && UrlOk(apiUrl, isValidUrl) && PriceOk(price) && !WalletOk(wallet, isValidWallet)
    ensures r.Success? <==>
      AllPresent(apiUrl, price, wallet) && UrlOk(apiUrl, isValidUrl) && PriceOk(price) && WalletOk(wallet, isValidWallet)
    ensures r.Success? ==>
      && r.value == NewLink(apiUrl.value.s, price.value.n, wallet.value.s)
      && 0.0 < r.value.price <= MAX_PRICE
      && isValidUrl(r.value.apiUrl) && isValidWallet(r.value.wallet)
  {
    if !AllPresent(apiUrl, price, wallet) then Failure(Rejected(400, MISSING_FIELDS))
    else if !UrlOk(apiUrl, isValidUrl) then Failure(Rejected(400, INVALID_URL))
    else if !PriceOk(price) then Failure(Rejected(400, INVALID_PRICE))
    else if !WalletOk(wallet, isValidWallet) then Failure(Rejected(400, INVALID_WALLET))
    else Success(NewLink(apiUrl.value.s, price.value.n, wallet.value.s))
  }

  /**
   * The price guard at its edges, with a valid URL and wallet: 1000 is
   * accepted, anything above it or below 0 is refused as a bad price, a
   * numeric string is refused as a bad price, and 0 is reported as a missing
   * field because it is falsy.
   */
  lemma PriceEdges(url: string, wallet: string, p: real, isValidUrl: string -> bool, isValidWallet: string -> bool)
    requires url != "" && wallet != "" && isValidUrl(url) && isValidWallet(wallet)
    ensures Validate(Some(JStr(url)), Some(JNum(MAX_PRICE)), Some(JStr(wallet)), isValidUrl, isValidWallet)
            == Success(NewLink(url, MAX_PRICE, wallet))
    ensures Validate(Some(JStr(url)), Some(JNum(0.0)), Some(JStr(wallet)), isValidUrl, isValidWallet)
            == Failure(Rejected(400, MISSING_FIELDS))
    ensures p < 0.0 || p > MAX_PRICE ==>
      Validate(Some(JStr(url)), Some(JNum(p)), Some(JStr(wallet)), isValidUrl, isValidWallet)
      == Failure(Rejected(400, INVALID_PRICE))
    ensures Validate(Some(JStr(url)), Some(JStr("5")), Some(JStr(wallet)), isValidUrl, isValidWallet)
            == Failure(Rejected(400, INVALID_PRICE))
  {
  }

  /**
   * Once all three fields are present, a URL that fails decides the outcome
   * alone: any other present price and wallet, and any wallet check, give the
   * same response.
   */
  lemma UrlCheckedBeforePriceAndWallet(apiUrl: Option<JsonValue>, price1: Option<JsonValue>, wallet1: Option<JsonValue>,
                                       price2: Option<JsonValue>, wallet2: Option<JsonValue>,
                                       isValidUrl: string -> bool, isValidWallet1: string -> bool, isValidWallet2: string -> bool)
    requires AllPresent(apiUrl, price1, wallet1) && AllPresent(apiUrl, price2, wallet2) && !UrlOk(apiUrl, isValidUrl)
    ensures Validate(apiUrl, price1, wallet1, isValidUrl, isValidWallet1)
            == Validate(apiUrl, price2, wallet2, isValidUrl, isValidWallet2)
  {
  }

  /**
   * POST /api/create. A body that cannot be parsed or destructured, and a
   * createLink that throws (here: the generated id is already taken), give
   * 500; a failing guard gives its 400 and leaves the store alone; otherwise
   * the link is stored with zero counters and echoed back.
   */
  method PostCreate(db: LinkDb, body: Body, isValidUrl: string -> bool, isValidWallet: string -> bool,
                    newId: string, now: int)
    returns (resp: CreateResponse)
    requires db.Valid()
    modifies db
    ensures db.Valid()
    ensures !Destructurable(body) ==> resp == Rejected(500, CREATE_FAILED) && db.Snapshot() == old(db.Snapshot())
    ensures Destructurable(body) ==>
      var v := Validate(Property(body.value, "apiUrl"), Property(body.value, "price"), Property(body.value, "wallet"), isValidUrl, isValidWallet);
      && (v.Failure? ==> resp == v.error && db.Snapshot() == old(db.Snapshot()))
      && (v.Success? && newId in old(db.links) ==> resp == Rejected(500, CREATE_FAILED) && db.Snapshot() == old(db.Snapshot()))
      && (v.Success? && newId !in old(db.links) ==>
            && resp == Created(newId, v.value.apiUrl, v.value.price, v.value.wallet)
            && db.links == old(db.links)[newId := Link(newId, v.value.apiUrl, v.value.price, v.value.wallet, now, 0, 0.0)]
            && db.requests == old(db.requests)
            && db.nextRequestId == old(db.nextRequestId))
  {
    if !Destructurable(body) {
      return Rejected(500, CREATE_FAILED);
    }
    var apiUrl := Property(body.value, "apiUrl");
    var v := Validate(apiUrl, Property(body.value, "price"), Property(body.value, "wallet"), isValidUrl, isValidWallet);
    if v.Failure? {
      return v.error;
    }
    var created := db.CreateLink(newId, v.value.apiUrl, v.value.price, v.value.wallet, now);
    match created
    case Failure(_) =>
      resp := Rejected(500, CREATE_FAILED);
    case Success(link) =>
      resp := Created(link.id, apiUrl.value.s, link.price, link.receiver_wallet);
  }
}
