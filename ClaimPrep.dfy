/**
 * The claim preparation form: its validation rules, the values it starts
 * with, and the request body it sends, with the amount converted to cents.
 * The amount field is a JavaScript number, modelled as a real.
 */
module ClaimPrep {
  import opened Wrappers

  datatype ClaimFormData = ClaimFormData(policyId: string, amount: real, description: string)

  const PolicyRequired := "Policy is required"
  const AmountTooSmall := "Amount must be greater than 0"
  const DescriptionTooShort := "Description must be at least 10 characters"

  /** `claimSchema`: every failed rule adds its message, in the order of the fields. */
  function Validate(d: ClaimFormData): (errors: seq<string>)
    ensures |errors| <= 3
    ensures PolicyRequired in errors <==> |d.policyId| < 1
  {
    (if |d.policyId| < 1 then [PolicyRequired] else [])
    + (if d.amount < 1.0 then [AmountTooSmall] else [])
    + (if |d.description| < 10 then [DescriptionTooShort] else [])
  }

  /** The three messages are different texts. */
  lemma MessagesDistinct()
    ensures PolicyRequired != AmountTooSmall && PolicyRequired != DescriptionTooShort
    ensures AmountTooSmall != DescriptionTooShort
  {
    assert PolicyRequired[0] != AmountTooSmall[0];
    assert PolicyRequired[0] != DescriptionTooShort[0];
    assert AmountTooSmall[0] != DescriptionTooShort[0];
  }

  /** Each rule reports exactly its own failure, and the form is accepted exactly when all three rules hold. */
  lemma ValidateReportsEachRule(d: ClaimFormData)
    ensures AmountTooSmall in Validate(d) <==> d.amount < 1.0
    ensures DescriptionTooShort in Validate(d) <==> |d.description| < 10
    ensures Validate(d) == [] <==> |d.policyId| >= 1 && d.amount >= 1.0 && |d.description| >= 10
  {
    MessagesDistinct();
  }

  /** `defaultValues`: the policy id from the query string, or empty, no amount, no description. */
  function DefaultValues(queryPolicyId: Option<string>): (d: ClaimFormData)
    ensures d.amount == 0.0 && d.description == ""
    ensures d.policyId == queryPolicyId.GetOr("")
  {
    ClaimFormData(queryPolicyId.GetOr(""), 0.0, "")
  }

  /** The form as it starts never passes validation. */
  lemma DefaultsNeverValidate(queryPolicyId: Option<string>)
    ensures Validate(DefaultValues(queryPolicyId)) != []
    ensures AmountTooSmall in Validate(DefaultValues(queryPolicyId))
  {
    ValidateReportsEachRule(DefaultValues(queryPolicyId));
  }

  /** `Math.round(amount * 100)`: the nearest whole number of cents, halves rounded up. */
  function ToCents(amount: real): (cents: int)
    ensures cents as real - 0.5 <= amount * 100.0 < cents as real + 0.5
  {
    (amount * 100.0 + 0.5).Floor
  }

  /** An amount given to the cent converts to exactly that many cents. */
  lemma ToCentsExact(c: int)
    ensures ToCents(c as real / 100.0) == c
  {
    assert (c as real / 100.0) * 100.0 == c as real;
  }

  /** An amount that passes validation is at least one hundred cents. */
  lemma AcceptedAmountInCents(d: ClaimFormData)
    requires Validate(d) == []
    ensures ToCents(d.amount) >= 100
  {
    ValidateReportsEachRule(d);
  }

  /** What the form posts: `{ ...data, amount: Math.round(data.amount * 100) }` */
  datatype ClaimRequest = ClaimRequest(policyId: string, amount: int, description: string)

  function SubmitBody(d: ClaimFormData): (r: ClaimRequest)
    ensures r.policyId == d.policyId && r.description == d.description
    ensures r.amount == ToCents(d.amount)
  {
    ClaimRequest(d.policyId, ToCents(d.amount), d.description)
  }
}
