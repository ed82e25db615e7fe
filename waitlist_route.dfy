/**
 * The waitlist sign-up handler (app/api/waitlist/route.ts): a presence check
 * and the email pattern before the store's `addToWaitlist`, which is the
 * oracle `addToWaitlist` here (`None` when it throws).
 */
module WaitlistRoute {
  import opened Wrappers
  import opened Json
  import opened EmailSyntax

  /** What addToWaitlist resolves to. */
  datatype JoinResult = JoinResult(success: bool, message: string)

  /** The JSON response: the echoed join result, or an error with its status. */
  datatype WaitlistResponse = Joined(success: bool, message: string) | Rejected(status: nat, error: string)

  const EMAIL_REQUIRED := "Email is required"
  const INVALID_EMAIL := "Invalid email address"
  const INTERNAL_ERROR := "Internal server error"

  /**
   * `emailRegex.test(email)` on a truthy property value: a string is tested
   * as it is; numbers, booleans and objects turn into text with no '@' and
   * never match.
   */
  predicate EmailTest(v: JsonValue) {
    v.JStr? && IsValidEmail(v.s)
  }

  /** POST /api/waitlist. */
  function PostWaitlist(body: Body, addToWaitlist: string -> Option<JoinResult>): (r: WaitlistResponse)
    ensures !Destructurable(body) ==> r == Rejected(500, INTERNAL_ERROR)
    ensures Destructurable(body) && !Truthy(Property(body.value, "email")) ==> r == Rejected(400, EMAIL_REQUIRED)
    ensures Destructurable(body) && Truthy(Property(body.value, "email")) && !EmailTest(Property(body.value, "email").value) ==>
      r == Rejected(400, INVALID_EMAIL)
    ensures r.Joined? ==>
      && Destructurable(body)
      && Property(body.value, "email").Some? && Property(body.value, "email").value.JStr?
      && var email := Property(body.value, "email").value.s;
      && MatchesEmailPattern(email)
      && addToWaitlist(email) == Some(JoinResult(r.success, r.message))
    ensures Destructurable(body) && Truthy(Property(body.value, "email")) && EmailTest(Property(body.value, "email").value) ==>
      var email := Property(body.value, "email").value.s;
      && (addToWaitlist(email).None? ==> r == Rejected(500, INTERNAL_ERROR))
      && (addToWaitlist(email).Some? ==> r == Joined(addToWaitlist(email).value.success, addToWaitlist(email).value.message))
    ensures r.Rejected? ==> r.status == 400 || r.status == 500
  {
    if !Destructurable(body) then Rejected(500, INTERNAL_ERROR)
    else
      var email := Property(body.value, "email");
      if !Truthy(email) then Rejected(400, EMAIL_REQUIRED)
      else if !EmailTest(email.value) then Rejected(400, INVALID_EMAIL)
      else
        CheckerMatchesPattern(email.value.s);
        match addToWaitlist(email.value.s)
        case None => Rejected(500, INTERNAL_ERROR)
        case Some(result) => Joined(result.success, result.message)
  }

  /** A missing or rejected email never reaches addToWaitlist: the response is the same whatever it would do. */
  lemma RejectedEmailNeverJoins(body: Body, join1: string -> Option<JoinResult>, join2: string -> Option<JoinResult>)
    requires Destructurable(body)
    requires !Truthy(Property(body.value, "email")) || !EmailTest(Property(body.value, "email").value)
    ensures PostWaitlist(body, join1) == PostWaitlist(body, join2)
    ensures PostWaitlist(body, join1).Rejected? && PostWaitlist(body, join1).status == 400
  {
  }
}
