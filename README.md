# ClaimMatePro core, modelled in Dafny

ClaimMatePro is a health insurance assistant. A user uploads a policy
document. The server reads its text with OCR, has a language model analyse
it, and stores the analysis. The user files claims, and each claim gets a
preparation checklist and a stream of status updates. The client pages
derive progress bars, step lists, comparison badges and form checks from
those records.

The project models:

- **Schema** (`Schema.dfy`): the records of the shared data model and the
  three status vocabularies. Each vocabulary is an enumeration plus a case
  for any other string, with a parser and a rendering that undo each other.
- **Storage** (`Storage.dfy`): the in-memory store `MemStorage`, as a class.
  Its seven fields are insertion-ordered maps (`JsCollections.OrderedMap`,
  the JavaScript `Map`).
  - Its creation and update methods change those fields in place.
  - Its queries are functions over the values in insertion order.
  - `Valid()` says that every map is well formed and keys every record by
    its own id. Every method keeps it.
  - A ghost log records every policy status write, in order.
- **Routes** (`Routes.dfy`): the request handlers that compose store calls:
  - the upload guard;
  - the background policy processing;
  - the not-found checks of the analysis and claim fetches;
  - claim creation with its default checklist and first update;
  - the checklist update.
- **OpenAi** (`OpenAi.dfy`): the sanitiser that turns the language model's
  parsed JSON into an analysis, and the fixed fallbacks of the three
  language model calls.
- **The client derivations**, one module per page or component:
  `StatusTracker`, `ClaimTracker`, `ChecklistTimeline`, `PolicyComparison`,
  `AnalysisPage`, `AnalysisOverview`, `ClaimPrep`, `WalletConnect`.
- **Support modules**: `Wrappers` (Option), `JsCollections` (`Map`,
  `filter`, `find`, `findIndex`, stable `sort`, `slice`) and `JsStrings`
  (`slice` with negative and clamped positions, `indexOf`, `includes`,
  `split`, numerals).

What each entry point takes as a parameter instead:

- Ids from `randomUUID()`, the clock `new Date()`, the text of
  `Math.random()` and the current year.
- The outcome of the OCR engine: the text, or `None` when it throws.
- The outcome of each language model call: the parsed JSON, no content, a
  malformed answer, or a failed call.
- The outcome of `insertClaimSchema.parse`.

Monetary amounts in claims are integers in cents. Catalogue coverage is
in lakhs.

## Model

| member | source | states |
|---|---|---|
| Schema.ParsePolicyStatus | shared/schema.ts:46 | The parsed status renders back to the same string and is in canonical form. |
| Schema.PolicyStatusRoundTrip | shared/schema.ts:46 | Parsing the rendering of a canonical policy status gives that status back. |
| Schema.ParseClaimStatus | shared/schema.ts:68 | The parsed claim status renders back to the same string and is in canonical form. |
| Schema.ClaimStatusRoundTrip | shared/schema.ts:68 | Parsing the rendering of a canonical claim status gives that status back. |
| Schema.ParseUpdateType | shared/schema.ts:95 | The parsed update type renders back to the same string and is in canonical form. |
| Schema.UpdateTypeRoundTrip | shared/schema.ts:95 | Parsing the rendering of a canonical update type gives it back. |
| Schema.ClaimInput.WithClaimNumber | shared/schema.ts:122-127 | The validated claim input has no id, number or timestamps. Adding a claim number keeps every other field. |
| Storage.ClaimNumber | server/storage.ts:156 | The claim number is `CLM-`, the year's numeral, `-`, then at most six characters. |
| Storage.ClaimNumberRoundTrip | server/storage.ts:156 | The year and the random suffix can be read back from a claim number. The suffix has at most six characters. |
| Storage.ClaimNumberSuffixDigits | server/storage.ts:156 | When the random text is `0.` followed by digits, the suffix is all digits. |
| Storage.ApplyPatch | server/storage.ts:207 | `{ ...item, ...updates }` for a patch of the item's data fields: every field the patch carries replaces the stored one, and every other field is kept. |
| Storage.ApplyPatchTwice | server/storage.ts:207 | Merging the same patch a second time changes nothing. |
| Storage.CompletionPatchSetsFlag | server/routes.ts:186-188 | The endpoint's `{ isCompleted }` patch changes the completion flag and no other field. |
| Storage.SeedProducts | server/storage.ts:266-403 | The eight catalogue products, product `i` under id `ids[i]`, all stamped with the same time. |
| Storage.TopSimilarAreSimilar | server/storage.ts:253-262 | Every product in the top five passes the similarity filter. |
| Storage.TopSimilarOrdered | server/storage.ts:253-262 | The top five are in non-increasing order of settlement ratio. |
| Storage.TopSimilarLeftOut | server/storage.ts:253-262 | No similar product left out has a better settlement ratio than one returned. |
| Storage.SimilarAmong | server/storage.ts:253-262 | Exactly `min(5, number similar)` products. Each is in the category with coverage in [c/2, 2c]. They are ordered by ratio, are a prefix of the stably sorted similar products, and no left-out product has a better ratio. |
| Storage.MemStorage.constructor | server/storage.ts:73-82 | Every map is empty except the products, which hold the seeded catalogue in catalogue order. No status write has been made yet. |
| Storage.MemStorage.SeedPolicyProducts | server/storage.ts:405-413 | The loop adds the catalogue one product after the other, under the given ids. |
| Storage.MemStorage.GetUser | server/storage.ts:85-87 | Some exactly when the id is stored, and then the very user stored under that id. |
| Storage.MemStorage.UpsertUser | server/storage.ts:89-99 | The user is stored under the given id, or under a fresh one when the id is missing or empty. It gets the given fields and the update time. An existing user keeps its creation time. |
| Storage.MemStorage.CreatePolicy | server/storage.ts:102-113 | The policy is stored with status pending, whatever status the input carries. A fresh id is appended to the order, and no other policy changes. |
| Storage.MemStorage.GetPolicy | server/storage.ts:115-117 | Some exactly when the id is stored, and then the stored policy. |
| Storage.MemStorage.GetPoliciesByUser | server/storage.ts:119-121 | The policies stored under the user's keys, one per key, in insertion order. Each policy of the user is returned as often as it is stored, and no other policy. |
| Storage.MemStorage.UpdatePolicyText | server/storage.ts:123-128 | No change for an unknown id. Otherwise only that policy's extracted text changes, and the key order is kept. |
| Storage.MemStorage.UpdatePolicyAnalysisStatus | server/storage.ts:130-135 | No change for an unknown id. Otherwise only that policy's status changes. Every call, known id or not, is appended to the log of status writes. |
| Storage.MemStorage.CreateAnalysis | server/storage.ts:138-147 | The analysis is stored with the given fields and the completion time. A fresh id is appended to the order. |
| Storage.MemStorage.GetAnalysisByPolicy | server/storage.ts:149-151 | None exactly when no analysis has that policy. Otherwise the earliest-inserted analysis of the policy. |
| Storage.MemStorage.CreateClaim | server/storage.ts:154-168 | The store's own claim number replaces any the caller supplied. The status is submitted and the processing time is 10 days. Uniqueness of the number is not checked. |
| Storage.MemStorage.GetClaimsByUser | server/storage.ts:170-172 | The claims stored under the user's keys, one per key, in insertion order. Each claim of the user is returned as often as it is stored, and no other claim. |
| Storage.MemStorage.GetClaim | server/storage.ts:174-176 | Some exactly when the id is stored, and then the stored claim. |
| Storage.MemStorage.UpdateClaimStatus | server/storage.ts:178-183 | No change for an unknown id. Otherwise only that claim's status and update time change. |
| Storage.MemStorage.CreateChecklistItem | server/storage.ts:186-195 | The item is stored never completed, whatever the input carries. |
| Storage.MemStorage.GetChecklistItemsByClaim | server/storage.ts:197-201 | A permutation of the claim's stored items, ascending by `order`. |
| Storage.MemStorage.UpdateChecklistItem | server/storage.ts:203-212 | No change for an unknown id. Otherwise the patch is merged and `completedAt` is stamped only when the patch marks the item completed. Unchecking keeps an earlier `completedAt`. |
| Storage.MemStorage.CreateClaimUpdate | server/storage.ts:215-224 | The update is stored with the given fields and the creation time. |
| Storage.MemStorage.GetClaimUpdatesByClaim | server/storage.ts:226-230 | A permutation of the claim's stored updates, newest first. |
| Storage.MemStorage.CreatePolicyProduct | server/storage.ts:233-242 | The product is stored with the creation time, and a fresh id is appended to the order. |
| Storage.MemStorage.GetAllPolicyProducts | server/storage.ts:244-246 | Every stored product, in insertion order. |
| Storage.MemStorage.GetPolicyProductsByCategory | server/storage.ts:248-251 | The products stored under the category's keys, one per key, in insertion order. Each product of the category is returned as often as it is stored, and no other product. |
| Storage.MemStorage.FindSimilarPolicies | server/storage.ts:253-262 | Exactly `min(5, number similar)` products of the category with coverage in [c/2, 2c]. They are ordered best settlement ratio first, are a prefix of the stably sorted similar products, and no similar product left out has a better ratio. |
| Routes.UploadPolicy | server/routes.ts:17-38 | Without a file: 400 and no policy. Otherwise exactly one pending policy of the anonymous user, whose id is answered. |
| Routes.ProcessOcr | server/routes.ts:46-72 | The store's log of status writes grows by processing, then completed on success or failed when OCR throws. On success the text and exactly one analysis, with its score in [0, 100], are stored and the analysis fetch succeeds. When OCR throws, no analysis is stored. |
| Routes.StoredAnalysisIsReady | server/routes.ts:80-88 | Once an analysis of an existing policy is stored, the analysis fetch succeeds. |
| Routes.FetchAnalysis | server/routes.ts:75-90 | "Policy not found" comes first, then "Analysis not ready". Otherwise the policy and its earliest analysis. |
| Routes.FetchClaim | server/routes.ts:162-175 | "Claim not found" exactly when the id is unknown. Otherwise the claim with its sorted checklist and its updates. |
| Routes.DefaultChecklist | server/routes.ts:119-132 | The five default items. |
| Routes.DefaultChecklistShape | server/routes.ts:119-132 | Five items of the claim, none completed, with orders 1 to 5 and the listed titles. |
| Routes.DefaultChecklistOrdered | server/routes.ts:119-132 | The default items are already sorted by `order`. |
| Routes.AddDefaultChecklist | server/routes.ts:127-132 | The loop stores the five default items under the given ids, in order. |
| Routes.CreateClaimRoute | server/routes.ts:110-146 | When parsing fails: 500 and no claim, item or update. Otherwise one claim of the anonymous user with the store's number, the five default items and one "Claim Submitted" `status_change` update. Fetching the claim then gives exactly those items and that update. |
| Routes.FetchNewClaim | server/routes.ts:110-146 | Right after creation under fresh ids, the claim fetch answers the claim, the default checklist and the single update. |
| Routes.NewClaimChecklist | server/routes.ts:119-132 | The checklist of a new claim reads back as the default checklist. |
| Routes.NewClaimUpdates | server/routes.ts:135-140 | The updates of a new claim read back as the single initial update. |
| Routes.InitialUpdate | server/routes.ts:135-140 | The first update is "Claim Submitted", of type `status_change`, for the new claim. |
| Routes.UpdateChecklistRoute | server/routes.ts:183-189 | Success is reported even for an unknown id. Only the completion flag is forwarded. |
| OpenAi.TextOr | server/openai.ts:87-95 | A missing or empty string is replaced by its default. |
| OpenAi.ToNumber | server/openai.ts:85 | A falsy value reads as 0. An object reads as NaN. |
| OpenAi.Clamp | server/openai.ts:85 | `Math.max(0, Math.min(100, x))`: the result lies in [0, 100], is x inside the range and the nearer bound outside it. |
| OpenAi.ClampScoreAsWritten | server/openai.ts:85 | `riskScore \|\| 0`, then the clamp. NaN exactly for a truthy score that does not read as a number. Otherwise a number in [0, 100], 0 for a missing score, and the clamped value of a JSON number. |
| OpenAi.NonNumericScoreEscapes | server/openai.ts:85 | The reply score "N/A" makes the source's clamp give NaN. |
| OpenAi.ClampScore | server/openai.ts:85 | The corrected clamp: the score lies in [0, 100] for every JSON value. It agrees with the source's clamp wherever that gives a number, and gives 0 where the source gives NaN. |
| OpenAi.LevelOr | server/openai.ts:86 | A level is kept when it is low, medium or high. Otherwise it is medium. |
| OpenAi.LevelOrName | server/openai.ts:86 | Every known level survives sanitising. |
| OpenAi.ParseLevel | server/openai.ts:92 | The named level renders as its name. |
| OpenAi.SanitizeClause | server/openai.ts:88-94 | A null clause is rejected, as the source's property access would throw. Otherwise title, summary and category are non-empty. |
| OpenAi.SanitizeClauses | server/openai.ts:88-94 | The clause list is accepted exactly when every clause is an object. It keeps the length and order, with one sanitised clause per input clause. |
| OpenAi.NullClauseFails | server/openai.ts:88-94 | The clause list is rejected exactly when some entry is null. |
| OpenAi.Sanitize | server/openai.ts:84-96 | The sanitiser throws exactly for a null reply, a truthy non-array `flaggedClauses`, or a null clause in the list. Otherwise the score lies in [0, 100]. |
| OpenAi.SanitizeScore | server/openai.ts:85 | A missing score, or one that does not read as a number, gives 0. A readable score gives its clamped value, and an in-range JSON number is kept. |
| OpenAi.SanitizeTexts | server/openai.ts:87-95 | A non-empty summary or recommendations text is kept. A missing or empty one gives its default. |
| OpenAi.SanitizeLevels | server/openai.ts:86-92 | The top-level level and each clause's level are kept when known, otherwise medium. There is one sanitised clause per listed clause. |
| OpenAi.SanitizeClauseList | server/openai.ts:88-94 | A missing or falsy list gives `[]`. Otherwise the same length and order as the input, each clause sanitised field by field. |
| OpenAi.AnalyzePolicy | server/openai.ts:24-112 | The score always lies in [0, 100]. A parsed reply the sanitiser accepts gives the sanitised analysis. An unparsed reply, or one the sanitiser throws on, gives the fixed fallback. |
| OpenAi.AnalyzePolicyFallsBack | server/openai.ts:84-111 | A parsed reply gives the fallback exactly when the sanitiser throws on it, or sanitises it to the fallback itself. |
| OpenAi.ClausesToRaw | server/openai.ts:88-94 | Turns clauses back into raw JSON clauses, one for one. |
| OpenAi.SanitizeIsSanitized | server/openai.ts:84-96 | A sanitised analysis already meets every default and bound. |
| OpenAi.SanitizeFixesSanitized | server/openai.ts:84-96 | Sanitising an analysis that meets every default gives it back unchanged. |
| OpenAi.SanitizeClausesOf | server/openai.ts:88-94 | Clause-wise sanitising determines the sanitised list. |
| OpenAi.SanitizeIdempotent | server/openai.ts:84-96 | Sanitising twice is the same as sanitising once. |
| OpenAi.FallbackIsSanitized | server/openai.ts:100-111 | The fallback analysis passes sanitising unchanged. |
| OpenAi.AnalyzeSpecificClause | server/openai.ts:115-165 | A parsed reply is returned as is. The fallback echoes the clause text, with level medium and category general. |
| OpenAi.ClauseFallbackReads | server/openai.ts:155-163 | The clause fallback, once sanitised, is the fixed clause around the given text. |
| OpenAi.GenerateClaimGuidance | server/openai.ts:168-216 | The given list of step texts when present. The one-step list when the content or steps are missing. The five-step list on any failure. |
| OpenAi.GuidanceEmptyOnlyWhenGiven | server/openai.ts:198-215 | The guidance is empty exactly when the model answered an empty step list. |
| StatusTracker.CompletedSteps | client/src/components/status-tracker.tsx:18 | The count never exceeds the steps. It equals their number exactly when all are completed, and is 0 exactly when none are. |
| StatusTracker.CompletedStepsCount | client/src/components/status-tracker.tsx:18 | The count is the number of indices whose step is completed. |
| StatusTracker.CompletedPrefixCount | client/src/components/status-tracker.tsx:18 | When exactly the first k steps are completed, the count is k. |
| StatusTracker.ProgressWidth | client/src/components/status-tracker.tsx:19 | No number for an empty list (the source divides by zero). Otherwise it lies in [0, 100], is 100 exactly when all steps are completed and 0 exactly when none are. |
| StatusTracker.PercentBounds | client/src/components/status-tracker.tsx:19 | `c / n * 100` lies in [0, 100]. It is 100 exactly when c = n and 0 exactly when c = 0. |
| StatusTracker.StepLook | client/src/components/status-tracker.tsx:52-77 | Completed takes precedence over current. The look is active exactly when current and not completed. |
| StatusTracker.DotOnlyWhenActive | client/src/components/status-tracker.tsx:60-62 | The pulsing dot shows exactly when the step is current and not completed. |
| StatusTracker.ProgressLabel | client/src/components/status-tracker.tsx:101 | Split at spaces, the label reads "Progress:", the completed count, "of", the number of steps, "steps", "completed". |
| ClaimTracker.StatusSteps | client/src/pages/claim-tracker.tsx:86-127 | Five steps in progression order. Submitted is always completed and dated with the submission date. |
| ClaimTracker.StepCompletedIff | client/src/pages/claim-tracker.tsx:86-127 | Step k is completed exactly when k = 0 or the status is step k's id or a later one. |
| ClaimTracker.CompletedFormPrefix | client/src/pages/claim-tracker.tsx:86-127 | Whenever a step is completed, every earlier step is. |
| ClaimTracker.CompletedCountOfKnown | client/src/pages/claim-tracker.tsx:99-122 | A status at progression index i completes 1 + min(i, 4) steps. |
| ClaimTracker.CompletedCountOfUnknown | client/src/pages/claim-tracker.tsx:88-94 | An unrecognised status completes only the submitted step. |
| ClaimTracker.ProgressionDistinct | client/src/pages/claim-tracker.tsx:86-127 | The six progression words are distinct. |
| ClaimTracker.CurrentIsOwnStatus | client/src/pages/claim-tracker.tsx:106-124 | A step is current exactly when it is one of the last three and is the status itself. A current step is also completed. |
| ClaimTracker.AtMostOneCurrent | client/src/pages/claim-tracker.tsx:106-124 | At most one step is current. |
| ClaimTracker.PaymentDateLabel | client/src/pages/claim-tracker.tsx:124 | The payment step reads "Completed" exactly for status completed, and "In Progress" exactly for status payment. |
| ClaimTracker.MiddleDateLabels | client/src/pages/claim-tracker.tsx:100-116 | The middle steps read "In Progress" exactly when the status is their own, and are blank otherwise. |
| ClaimTracker.IsBlockchainSecured | client/src/pages/claim-tracker.tsx:72-77 | Secured exactly when some update has "Blockchain" or "Yellow Network" in its title, or the lock or "Yellow Network" in its description. |
| ClaimTracker.IsBlockchainSecuredAsWritten | client/src/pages/claim-tracker.tsx:72-77 | The same with the lock spelled as the source's bytes. |
| ClaimTracker.BlockchainUpdates | client/src/pages/claim-tracker.tsx:80-84 | Only updates with "Blockchain" or "Yellow Network" in the title or the lock in the description. |
| ClaimTracker.BlockchainUpdatesAsWritten | client/src/pages/claim-tracker.tsx:80-84 | The same with the lock spelled as the source's bytes. |
| ClaimTracker.ChainUpdatesAreTheMarkedOnes | client/src/pages/claim-tracker.tsx:80-84 | An update is listed exactly when it is stored and marked. |
| ClaimTracker.ChainUpdatesMeanSecured | client/src/pages/claim-tracker.tsx:72-84 | A non-empty blockchain list implies secured. Secured with an empty list happens only through a description with "Yellow Network". |
| ClaimTracker.SecuredWithoutChainUpdates | client/src/pages/claim-tracker.tsx:72-84 | An update whose only marker is "Yellow Network" is secured but not listed. |
| ClaimTracker.NoLockInYellowNetwork | client/src/pages/claim-tracker.tsx:72-84 | The words "Yellow Network" do not contain the lock. |
| ClaimTracker.LockedUpdateIsOnChain | client/src/pages/claim-tracker.tsx:72-84 | An update with the lock in its description makes the claim secured and is listed. |
| ClaimTracker.AsWrittenMissesLock | client/src/pages/claim-tracker.tsx:72-84 | An update locked with the real lock character is neither secured nor listed by the source as written, but is by the corrected checks. |
| ChecklistTimeline.CurrentItemIndex | client/src/components/checklist-timeline.tsx:53 | The first incomplete item, with every earlier item completed. -1 exactly when all are completed. |
| ChecklistTimeline.ItemIcon | client/src/components/checklist-timeline.tsx:47-59 | A check exactly for completed items. A pulsing dot exactly for the current item. |
| ChecklistTimeline.ItemStyle | client/src/components/checklist-timeline.tsx:61-72 | The success circle exactly for completed items. The current circle exactly for the current item. |
| ChecklistTimeline.OneCurrentItem | client/src/components/checklist-timeline.tsx:47-72 | Icon and style agree on the current item, and at most one item is current. It is incomplete, and every earlier item shows a check. |
| ChecklistTimeline.WaitingMeansEarlierOpen | client/src/components/checklist-timeline.tsx:47-59 | A grey dot exactly for an incomplete item with an earlier incomplete item. |
| ChecklistTimeline.ConnectorStyle | client/src/components/checklist-timeline.tsx:74-81 | No connector exactly for the last item. Otherwise the success line exactly when the item is completed. |
| ChecklistTimeline.HandleItemToggle | client/src/components/checklist-timeline.tsx:43-45 | The request names the item and asks for the negation of its flag. |
| ChecklistTimeline.MarkComplete | client/src/components/checklist-timeline.tsx:214-224 | Offered exactly for incomplete items, and it always asks for true. |
| PolicyComparison.PolicyIdOf | client/src/pages/policy-comparison.tsx:40 | A third `/` segment exists exactly when there are more than two segments, and it contains no `/`. |
| PolicyComparison.PolicyIdOfCompare | client/src/pages/policy-comparison.tsx:40 | `/compare/X`, where X has no `/`, gives X. |
| PolicyComparison.Select | client/src/pages/policy-comparison.tsx:48-57 | Selecting a selected id removes it. An absent id is appended when fewer than three are selected, and the list is unchanged otherwise. |
| PolicyComparison.DeselectCutsOut | client/src/pages/policy-comparison.tsx:50-51 | Deselecting cuts the id out and keeps the others in order. |
| PolicyComparison.SelectKeepsValid | client/src/pages/policy-comparison.tsx:48-57 | At most three ids, without duplicates, is kept by one selection. |
| PolicyComparison.SelectAllKeepsValid | client/src/pages/policy-comparison.tsx:48-57 | Any run of selections keeps it. |
| PolicyComparison.SelectTwiceRestores | client/src/pages/policy-comparison.tsx:48-57 | Selecting an absent id twice, with room, restores the list. |
| PolicyComparison.ComparisonIcon | client/src/pages/policy-comparison.tsx:72-82 | Neutral exactly for equal values. Upward exactly when the alternative is better in the chosen direction. |
| PolicyComparison.BadgeVariantOf | client/src/pages/policy-comparison.tsx:84-89 | Secondary exactly for equal values. Default exactly when the alternative is better. |
| PolicyComparison.BadgeMatchesIcon | client/src/pages/policy-comparison.tsx:72-89 | The badge and the icon tell the same story. |
| PolicyComparison.BetterIsOneSided | client/src/pages/policy-comparison.tsx:72-89 | For distinct values, exactly one is better. Flipping the direction swaps them. |
| PolicyComparison.FormatCoverage | client/src/pages/policy-comparison.tsx:68-70 | The prefix literal comes first. The text ends in "s" exactly when the amount is not 1. |
| PolicyComparison.FormatCoverageReadsBack | client/src/pages/policy-comparison.tsx:68-70 | After the prefix, split at spaces, the text reads the amount's numeral, then "Lakh" for 1 and "Lakhs" otherwise. |
| PolicyComparison.FormatCoverageInjective | client/src/pages/policy-comparison.tsx:68-70 | Different amounts give different texts. |
| AnalysisPage.RecommendationsData | client/src/pages/analysis.tsx:108-116 | Missing or empty text gives two empty parts. The main part is a prefix of the text. A blockchain part appears only when the text holds the delimiter. |
| AnalysisPage.RecommendationsWithoutHeading | client/src/pages/analysis.tsx:108-116 | Missing text, or text without the delimiter, gives all of it as the main part and an empty blockchain part. |
| AnalysisPage.RecommendationsWithHeading | client/src/pages/analysis.tsx:108-116 | With the delimiter, the main part is the text before its first occurrence and has none. The blockchain part is the text up to the next occurrence. |
| AnalysisPage.RecommendationsReassemble | client/src/pages/analysis.tsx:108-116 | Main part, delimiter and blockchain part form a prefix of the text. They are all of it exactly when the delimiter does not recur. |
| AnalysisPage.PrefixOfJoin | client/src/pages/analysis.tsx:108-116 | Helper for the prefix property of the split. |
| AnalysisPage.DelimiterHoldsMarker | client/src/pages/analysis.tsx:104-105 | The delimiter contains the verification marker. |
| AnalysisPage.IsBlockchainVerified | client/src/pages/analysis.tsx:104-105 | Missing text is never verified. |
| AnalysisPage.HeadingMeansVerified | client/src/pages/analysis.tsx:104-116 | Text holding the blockchain heading is always shown as verified. |
| AnalysisPage.BlockchainSectionMeansVerified | client/src/pages/analysis.tsx:104-116 | A non-empty blockchain part implies the analysis shows as verified. |
| AnalysisPage.FlaggedClausesShown | client/src/pages/analysis.tsx:92 | Missing flagged clauses give `[]`. |
| AnalysisOverview.OverviewOf | client/src/pages/analysis-overview.tsx:25-27 | Undefined policies give three empty lists and total 0. Otherwise the total is the number of policies. |
| AnalysisOverview.ListsHoldTheirStatus | client/src/pages/analysis-overview.tsx:25-27 | Each list holds exactly the policies of its status, each as often as in the input. |
| AnalysisOverview.ListsAreDisjoint | client/src/pages/analysis-overview.tsx:25-27 | No policy is in two lists. |
| AnalysisOverview.PartitionSizes | client/src/pages/analysis-overview.tsx:25-27 | The three lists and the others together account for every policy. |
| AnalysisOverview.ListSizesAndTotal | client/src/pages/analysis-overview.tsx:25-90 | The three sizes sum to at most the total. They equal it exactly when no policy has another status. |
| ClaimPrep.Validate | client/src/pages/claim-prep.tsx:20-24 | At most three messages. The policy message appears exactly when the policy id is empty. |
| ClaimPrep.ValidateReportsEachRule | client/src/pages/claim-prep.tsx:20-24 | Each message appears exactly when its rule fails, and there are none exactly when all rules hold. |
| ClaimPrep.MessagesDistinct | client/src/pages/claim-prep.tsx:21-23 | The three messages are distinct. |
| ClaimPrep.DefaultValues | client/src/pages/claim-prep.tsx:81-86 | Amount 0 and an empty description. The policy id comes from the query, or is empty. |
| ClaimPrep.DefaultsNeverValidate | client/src/pages/claim-prep.tsx:81-86 | The default values never pass validation. |
| ClaimPrep.ToCents | client/src/pages/claim-prep.tsx:58 | The cents are within half a cent of the amount times 100. |
| ClaimPrep.ToCentsExact | client/src/pages/claim-prep.tsx:58 | A whole number of cents converts back exactly. |
| ClaimPrep.AcceptedAmountInCents | client/src/pages/claim-prep.tsx:22-58 | An accepted amount is at least 100 cents. |
| ClaimPrep.SubmitBody | client/src/pages/claim-prep.tsx:55-60 | The request carries the policy and description as entered, and the amount in cents. |
| WalletConnect.FormatAddress | client/src/components/wallet-connect.tsx:48-50 | The first six characters, `...`, then the last four. |
| WalletConnect.FormatAddressLength | client/src/components/wallet-connect.tsx:48-50 | An address of at least ten characters gives 13 characters. |
| WalletConnect.FormatAddressEnds | client/src/components/wallet-connect.tsx:48-50 | The result starts with the first `min(6, n)` characters and ends with the last `min(4, n)`. |
| WalletConnect.FormatAddressOfShort | client/src/components/wallet-connect.tsx:49 | Below four characters, both halves are the whole address. |

## Left out

- The language model calls themselves are not modelled: prompts, `JSON.parse` of the answer and the answers. Only their outcome is modelled, as a `Reply` value.
- Tesseract OCR, multer, Express routing and the HTTP response objects are left out. OCR is modelled as text or a throw, and a response as a status and body value.
- The fire-and-forget start of `processOCR` after the upload answer is left out, as is any interleaving of concurrent requests. Each handler is one sequential run.
- `randomUUID()`, `Math.random()`, `new Date()` and `getFullYear()` are parameters. The store uses one time per call, while the source reads the clock several times.
- Storage.MemStorage.CreateClaim: the claim number's uniqueness is not enforced, matching the in-memory store (the database column would be unique).
- Routes.CreateClaimRoute: the route's own `CM-` number is passed in and discarded, because the store always overwrites it with its `CLM-` number.
- Routes.UpdateChecklistRoute: a request without `isCompleted` stores `undefined` in the source. The model stores false, which every reader of the flag treats the same way. The body's `isCompleted` is forwarded unchecked in the source, so a non-boolean such as the string `"false"` is stored as is, and stamps `completedAt` when truthy. The model's flag is a boolean and does not capture that.
- Storage.ApplyPatch: the source's `Partial<ChecklistItem>` may also carry an `id`, which the spread writes over the stored one while the item stays under its old key. An explicit `null` in the patch clears a field, and a non-boolean `isCompleted` is stored as is and stamps `completedAt` when truthy. The model's patch has no `id`, reads a missing field as "keep", and has a boolean flag, so none of these is modelled. The only caller sends `{ isCompleted }` alone.
- The drizzle-zod internals of `insertClaimSchema` are not visible. Parsing is an `Option` outcome, and the omitted columns are absent from `ClaimInput`.
- The schema has no products table. Catalogue products carry the fields the seed data uses.
- Floating point is left out. Scores, coverage bounds in `findSimilarPolicies` and form amounts are Dafny reals, so `Math.round` ties and binary rounding are not modelled. `ProgressWidth` gives `None` where the source would compute NaN. `toFixed`, `formatAmount` and the gauge are display code.
- ClaimPrep.Validate: string lengths are counted in characters, not UTF-16 code units.
- ClaimTracker.StatusSteps: the submitted date is its locale rendering, passed in as a string.
- The formatting of `analyzeSpecificClause` and `generateClaimGuidance` is modelled, but `server/routes.ts` has no caller for either.
- The list handlers `GET /api/policies` and `GET /api/claims` only forward one store query and are not modelled separately. The store queries they call are modelled.
- yellowSdk, the Pinata client, the wallet hook and every CSS or presentation lookup are left out, because they contain no logic.
- OpenAi.Sanitize: text fields of the reply are strings or missing in the model. A truthy non-string `summary`, `recommendations` or clause field passes through unchanged in JavaScript and is not modelled. A non-string level reads as missing, which gives medium as in the source.
- OpenAi.Sanitize: the model sanitises with the corrected clamp `ClampScore`. The source's clamp is `ClampScoreAsWritten` (see Findings).
- OpenAi.GenerateClaimGuidance: the reply's `steps` is a list of strings or missing in the model. `result.steps || [...]` returns any truthy value as is, so a string or a list of numbers would come back unchanged, and a falsy value such as `""`, `0` or `null` gives the one-step list. Neither is modelled.
- OpenAi.ToNumber: what `Number()` reads from a non-empty string or an array is carried with the JSON value rather than computed from its characters. Infinity (as JSON `1e400` parses) is not a Dafny real and is not modelled.
- PolicyComparison.FormatCoverage: the prefix is kept as the three characters the file actually holds (U+00E2, U+201A, U+00B9), a mis-decoded rupee sign. It is display-only, so no finding is claimed.

## Findings

| source | as written | input that shows it | evidently intended | confidence | as-written member | corrected member |
|---|---|---|---|---|---|---|
| client/src/pages/claim-tracker.tsx:72-84 | The lock marker tested by `isBlockchainSecured` and `blockchainUpdates` is the four characters U+00F0 U+0178 U+201D U+2019: the UTF-8 bytes of U+1F512 decoded as Windows-1252. | An update with title "" and description "\U{1F512}" (the lock character, as the analysis page writes it). | An update carrying the lock character counts as secured and is listed as a blockchain update. | not executed | ClaimTracker.AsWrittenMissesLock | ClaimTracker.LockedUpdateIsOnChain |
| server/openai.ts:85 | `Math.max(0, Math.min(100, analysis.riskScore \|\| 0))` is NaN for a truthy score that `Number()` cannot read, and `processOCR` stores that NaN as the analysis score. | A reply `{"riskScore": "N/A"}`. | The stored score lies in [0, 100] whatever the reply holds. | not executed | OpenAi.ClampScoreAsWritten | OpenAi.ClampScore |
