/**
 * The records of the shared data model: users, uploaded policies, their AI
 * analyses, claims with their preparation checklist and status updates, and the
 * catalogue of insurance products. Columns the database fills with a default
 * are plain fields here, filled by the store; nullable columns are `Option`s.
 * The status columns are free strings in the database; each vocabulary is an
 * enumeration plus a case for any other string, with a rendering `Name()` and a
 * parser that undo each other.
 */
module Schema {
  import opened Wrappers

  type Id = string

  /** A timestamp, as milliseconds (`Date.getTime()`). */
  type Time = int

  // ---------------------------------------------------------------- vocabularies

  /** `policies.analysisStatus`: pending, processing, completed, failed. */
  datatype PolicyStatus = Pending | Processing | Completed | Failed | OtherPolicyStatus(name: string) {
    function Name(): string {
      match this
      case Pending => "pending"
      case Processing => "processing"
      case Completed => "completed"
      case Failed => "failed"
      case OtherPolicyStatus(n) => n
    }

    /** An `OtherPolicyStatus` never spells one of the four known words. */
    predicate Canonical() {
      OtherPolicyStatus? ==> name !in {"pending", "processing", "completed", "failed"}
    }
  }

  function ParsePolicyStatus(s: string): (r: PolicyStatus)
    ensures r.Canonical()
    ensures r.Name() == s
  {
    if s == "pending" then Pending
    else if s == "processing" then Processing
    else if s == "completed" then Completed
    else if s == "failed" then Failed
    else OtherPolicyStatus(s)
  }

  lemma PolicyStatusRoundTrip(st: PolicyStatus)
    requires st.Canonical()
    ensures ParsePolicyStatus(st.Name()) == st
  {
  }

  /** `claims.status`: submitted, under_review, processing, decision, payment, completed. */
  datatype ClaimStatus =
    | Submitted | UnderReview | ClaimProcessing | Decision | Payment | ClaimCompleted
    | OtherClaimStatus(name: string)
  {
    function Name(): string {
      match this
      case Submitted => "submitted"
      case UnderReview => "under_review"
      case ClaimProcessing => "processing"
      case Decision => "decision"
      case Payment => "payment"
      case ClaimCompleted => "completed"
      case OtherClaimStatus(n) => n
    }

    predicate Canonical() {
      OtherClaimStatus? ==>
        name !in {"submitted", "under_review", "processing", "decision", "payment", "completed"}
    }
  }

  function ParseClaimStatus(s: string): (r: ClaimStatus)
    ensures r.Canonical()
    ensures r.Name() == s
  {
    if s == "submitted" then Submitted
    else if s == "under_review" then UnderReview
    else if s == "processing" then ClaimProcessing
    else if s == "decision" then Decision
    else if s == "payment" then Payment
    else if s == "completed" then ClaimCompleted
    else OtherClaimStatus(s)
  }

  lemma ClaimStatusRoundTrip(st: ClaimStatus)
    requires st.Canonical()
    ensures ParseClaimStatus(st.Name()) == st
  {
  }

  /** `claimUpdates.updateType`: status_change, document_request, general_update. */
  datatype UpdateType = StatusChange | DocumentRequest | GeneralUpdate | OtherUpdateType(name: string) {
    function Name(): string {
      match this
      case StatusChange => "status_change"
      case DocumentRequest => "document_request"
      case GeneralUpdate => "general_update"
      case OtherUpdateType(n) => n
    }

    predicate Canonical() {
      OtherUpdateType? ==> name !in {"status_change", "document_request", "general_update"}
    }
  }

  function ParseUpdateType(s: string): (r: UpdateType)
    ensures r.Canonical()
    ensures r.Name() == s
  {
    if s == "status_change" then StatusChange
    else if s == "document_request" then DocumentRequest
    else if s == "general_update" then GeneralUpdate
    else OtherUpdateType(s)
  }

  lemma UpdateTypeRoundTrip(t: UpdateType)
    requires t.Canonical()
    ensures ParseUpdateType(t.Name()) == t
  {
  }

  /** The risk level of an analysis or of one flagged clause. */
  datatype RiskLevel = Low | Medium | High {
    function Name(): string {
      match this
      case Low => "low"
      case Medium => "medium"
      case High => "high"
    }
  }

  /** One clause the analysis flagged. */
  datatype FlaggedClause = FlaggedClause(
    title: string,
    summary: string,
    originalText: string,
    riskLevel: RiskLevel,
    category: string)

  // ---------------------------------------------------------------- records

  datatype User = User(
    id: Id,
    email: Option<string>,
    firstName: Option<string>,
    lastName: Option<string>,
    profileImageUrl: Option<string>,
    createdAt: Time,
    updatedAt: Time)

  /** What `upsertUser` is given; a missing or empty id asks for a fresh one. */
  datatype UpsertUser = UpsertUser(
    id: Option<Id>,
    email: Option<string>,
    firstName: Option<string>,
    lastName: Option<string>,
    profileImageUrl: Option<string>)

  datatype Policy = Policy(
    id: Id,
    userId: Id,
    fileName: string,
    fileSize: int,
    mimeType: string,
    uploadedAt: Time,
    extractedText: Option<string>,
    analysisStatus: PolicyStatus,
    createdAt: Time)

  /** What `createPolicy` is given; a status it carries is ignored. */
  datatype InsertPolicy = InsertPolicy(
    userId: Id,
    fileName: string,
    fileSize: int,
    mimeType: string,
    extractedText: Option<string>,
    analysisStatus: Option<PolicyStatus>)

  datatype Analysis = Analysis(
    id: Id,
    policyId: Id,
    riskScore: Option<real>,
    riskLevel: Option<string>,
    summary: Option<string>,
    flaggedClauses: Option<seq<FlaggedClause>>,
    recommendations: Option<string>,
    completedAt: Time)

  datatype InsertAnalysis = InsertAnalysis(
    policyId: Id,
    riskScore: Option<real>,
    riskLevel: Option<string>,
    summary: Option<string>,
    flaggedClauses: Option<seq<FlaggedClause>>,
    recommendations: Option<string>)

  /** A claim; `amount` is in cents. */
  datatype Claim = Claim(
    id: Id,
    userId: Id,
    policyId: Id,
    claimNumber: string,
    status: ClaimStatus,
    amount: Option<int>,
    description: Option<string>,
    estimatedProcessingDays: int,
    submittedAt: Time,
    updatedAt: Time)

  /** What `createClaim` is given; number, status and processing days it carries are ignored. */
  datatype InsertClaim = InsertClaim(
    userId: Id,
    policyId: Id,
    claimNumber: Option<string>,
    status: Option<ClaimStatus>,
    amount: Option<int>,
    description: Option<string>,
    estimatedProcessingDays: Option<int>)

  /**
   * What the claim insert schema lets through: the claim columns without `id`,
   * `claimNumber`, `submittedAt` and `updatedAt`, which therefore cannot be
   * supplied by a request.
   */
  datatype ClaimInput = ClaimInput(
    userId: Id,
    policyId: Id,
    status: Option<ClaimStatus>,
    amount: Option<int>,
    description: Option<string>,
    estimatedProcessingDays: Option<int>)
  {
    /** `{ ...claimData, claimNumber }` */
    function WithClaimNumber(claimNumber: string): (c: InsertClaim)
      ensures c.claimNumber == Some(claimNumber)
      ensures c.userId == userId && c.policyId == policyId && c.status == status
      ensures c.amount == amount && c.description == description
      ensures c.estimatedProcessingDays == estimatedProcessingDays
    {
      InsertClaim(userId, policyId, Some(claimNumber), status, amount, description, estimatedProcessingDays)
    }
  }

  datatype ChecklistItem = ChecklistItem(
    id: Id,
    claimId: Id,
    title: string,
    description: Option<string>,
    isCompleted: bool,
    order: int,
    requiredDocuments: Option<seq<string>>,
    uploadedDocuments: Option<seq<string>>,
    completedAt: Option<Time>)

  /** What `createChecklistItem` is given; a completion flag it carries is ignored. */
  datatype InsertChecklistItem = InsertChecklistItem(
    claimId: Id,
    title: string,
    description: Option<string>,
    isCompleted: Option<bool>,
    order: int,
    requiredDocuments: Option<seq<string>>,
    uploadedDocuments: Option<seq<string>>,
    completedAt: Option<Time>)

  /** `Partial<ChecklistItem>`: a field that is `Some` replaces the stored one. */
  datatype ChecklistPatch = ChecklistPatch(
    claimId: Option<Id>,
    title: Option<string>,
    description: Option<string>,
    isCompleted: Option<bool>,
    order: Option<int>,
    requiredDocuments: Option<seq<string>>,
    uploadedDocuments: Option<seq<string>>,
    completedAt: Option<Time>)

  datatype ClaimUpdate = ClaimUpdate(
    id: Id,
    claimId: Id,
    title: string,
    description: Option<string>,
    updateType: UpdateType,
    createdAt: Time)

  datatype InsertClaimUpdate = InsertClaimUpdate(
    claimId: Id,
    title: string,
    description: Option<string>,
    updateType: UpdateType)

  /** The descriptive fields of a catalogue product; coverage is in lakhs, premium in rupees. */
  datatype ProductInfo = ProductInfo(
    policyName: string,
    insurer: string,
    category: string,
    coverage: int,
    premium: int,
    waitingPeriod: int,
    copay: int,
    claimSettlementRatio: int,
    exclusions: string,
    keyFeatures: seq<string>,
    ageLimit: string,
    familyFloater: bool,
    preExistingDiseasesCovered: bool,
    noClaimBonus: int,
    roomRentCapping: string)

  /** A catalogue product: its descriptive fields plus the id and creation time the store adds. */
  datatype PolicyProduct = PolicyProduct(id: Id, info: ProductInfo, createdAt: Time)
}
