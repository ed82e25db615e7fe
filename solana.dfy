/**
 * The payment verification decision and the payment request record of
 * lib/solana.ts. The RPC lookup `connection.getTransaction` is the oracle
 * `ledger`; the random reference text is a parameter.
 */
module Solana {
  import opened Wrappers

  /** Commitment levels an RPC query can ask for. */
  datatype Commitment = Processed | Confirmed | Finalized

  /** The arguments verifyPayment passes to `getTransaction`. */
  datatype TxQuery = TxQuery(signature: string, commitment: Commitment, maxSupportedTransactionVersion: nat)

  /** What the lookup can do: return a transaction, return null, or throw. */
  datatype Lookup = TxFound | TxMissing | LookupThrew

  /** The two payment headers as `headers.get` returns them (`None` for `null`). */
  datatype PaymentHeaders = PaymentHeaders(signature: Option<string>, from: Option<string>)

  /** The record verifyPayment returns; absent optional fields are `None`. */
  datatype PaymentVerification = PaymentVerification(
    verified: bool,
    signature: Option<string>,
    amount: Option<real>,
    payer: Option<string>,
    error: Option<string>)

  /** The record generatePaymentRequest returns. */
  datatype PaymentRequest = PaymentRequest(recipient: string, amount: real, reference: Option<string>)

  const NO_PROOF_ERROR := "No payment proof provided. Please include x-payment-signature header."
  const TX_NOT_FOUND_ERROR := "Transaction not found or not confirmed"
  const INVALID_SIGNATURE_ERROR := "Invalid transaction signature"

  /** JavaScript truthiness of a header value: `null` and `""` are falsy. */
  predicate Present(h: Option<string>) {
    h.Some? && h.value != ""
  }

  /** The only query verifyPayment ever issues for a signature. */
  function ConfirmedQuery(signature: string): TxQuery {
    TxQuery(signature, Confirmed, 0)
  }

  function Unverified(error: string): PaymentVerification {
    PaymentVerification(false, None, None, None, Some(error))
  }

  /**
   * verifyPayment: no (or an empty) `x-payment-signature` header fails
   * without a lookup; otherwise the outcome is decided by the one lookup at
   * commitment `confirmed`. A found transaction is accepted as it is: the
   * recipient and the amount are never compared with the transaction, and the
   * reported amount is the expected one.
   */
  function VerifyPayment(headers: PaymentHeaders, expectedRecipient: string, expectedAmount: real,
                         ledger: TxQuery -> Lookup): (r: PaymentVerification)
    ensures r.verified <==> r.error.None?
    ensures !Present(headers.signature) ==> r == Unverified(NO_PROOF_ERROR)
    ensures r.verified <==> Present(headers.signature) && ledger(ConfirmedQuery(headers.signature.value)) == TxFound
    ensures Present(headers.signature) && ledger(ConfirmedQuery(headers.signature.value)) == TxMissing ==>
      r == Unverified(TX_NOT_FOUND_ERROR)
    ensures Present(headers.signature) && ledger(ConfirmedQuery(headers.signature.value)) == LookupThrew ==>
      r == Unverified(INVALID_SIGNATURE_ERROR)
    ensures r.verified ==>
      && r.signature == headers.signature
      && r.amount == Some(expectedAmount)
      && r.payer == (if Present(headers.from) then headers.from else None)
  {
    if !Present(headers.signature) then
      Unverified(NO_PROOF_ERROR)
    else
      var signature := headers.signature.value;
      match ledger(ConfirmedQuery(signature))
      case TxMissing => Unverified(TX_NOT_FOUND_ERROR)
      case LookupThrew => Unverified(INVALID_SIGNATURE_ERROR)
      case TxFound =>
        PaymentVerification(true, Some(signature), Some(expectedAmount),
                            if Present(headers.from) then headers.from else None, None)
  }

  /** Without a payment proof the ledger is never consulted: any two ledgers give the same result. */
  lemma NoProofNoLookup(headers: PaymentHeaders, recipient: string, amount: real, l1: TxQuery -> Lookup, l2: TxQuery -> Lookup)
    requires !Present(headers.signature)
    ensures VerifyPayment(headers, recipient, amount, l1) == VerifyPayment(headers, recipient, amount, l2)
  {
  }

  /** The result depends on the ledger only through the confirmed-commitment lookup of the header's signature. */
  lemma OnlyConfirmedLookupMatters(headers: PaymentHeaders, recipient: string, amount: real, l1: TxQuery -> Lookup, l2: TxQuery -> Lookup)
    requires Present(headers.signature)
    requires l1(ConfirmedQuery(headers.signature.value)) == l2(ConfirmedQuery(headers.signature.value))
    ensures VerifyPayment(headers, recipient, amount, l1) == VerifyPayment(headers, recipient, amount, l2)
  {
  }

  /**
   * Whether a payment verifies, and with which error it fails, never depends
   * on the expected recipient or amount.
   */
  lemma OutcomeIgnoresPolicy(headers: PaymentHeaders, ledger: TxQuery -> Lookup,
                             recipient1: string, amount1: real, recipient2: string, amount2: real)
    ensures VerifyPayment(headers, recipient1, amount1, ledger).verified == VerifyPayment(headers, recipient2, amount2, ledger).verified
    ensures VerifyPayment(headers, recipient1, amount1, ledger).error == VerifyPayment(headers, recipient2, amount2, ledger).error
  {
  }

  /**
   * generatePaymentRequest: the given recipient and amount, and as reference
   * `Math.random().toString(36).substring(7)`, the base-36 text of the random
   * number (`randomText`) from its eighth character on, which is empty when
   * the text is shorter.
   */
  function GeneratePaymentRequest(recipient: string, amount: real, randomText: string): (r: PaymentRequest)
    ensures r.recipient == recipient && r.amount == amount
    ensures r.reference.Some?
    ensures |randomText| <= 7 ==> r.reference.value == ""
    ensures |randomText| > 7 ==> randomText == randomText[..7] + r.reference.value
  {
    PaymentRequest(recipient, amount, Some(if |randomText| <= 7 then "" else randomText[7..]))
  }
}
