# Verified model of the loan-origination platform

This project models, in Dafny, the parts of the platform whose correctness depends on long runs, on
interleavings or on arithmetic, and proves what those parts keep:

- the loan origination saga, as a step function over workflow histories and as the workflow object that
  its signal handlers and its `run` body update (`LoanSaga*.dfy`);
- decision receipts: canonical JSON, the hash chain, its producer and its verifier
  (`JsonReader.dfy`, `CanonicalJson.dfy`, `Receipts.dfy`);
- erasure and retention over one database (`PlatformData*.dfy`);
- the rate limiter and the breach consumer, both against counting over a full history
  (`SlidingWindows.dfy`, `RateLimit.dfy`, `BreachConsumer.dfy`);
- detached JWS signatures, base64url and the key integers of a JWK (`Base64Url.dfy`, `Jws.dfy`), after
  section 5 of RFC 4648, Appendix C of RFC 7515, section 3 of RFC 7797 and section 6.3.1 of RFC 7518;
- the application store of the borrower gateway, in memory and over a database (`Gateway*.dfy`);
- the trust score, the paged backfill of encrypted columns, and the scoring queries
  (`TrustGraph.dfy`, `Backfill.dfy`, `ScoringQueries.dfy`).

`Wrappers.dfy`, `Octets.dfy`, `Hashing.dfy` and `Fractions.dfy` hold shared helpers.  Code that updates state in place is
a class or a method with a loop, proved against a function; the laws are lemmas about the function.
`dafny verify dfyconfig.toml` checks everything.

## How the surroundings enter

- **Workflow host.** A history is the sequence of completions, exhausted retries, fired timers and signals
  that the host delivers, one at a time.  Activity results come from the history; two lemmas then look at
  what the shipped activities make of it.
- **Cryptography.** SHA-256, HMAC, RSA and AES-GCM are function parameters.  Collision freedom is asked only
  of the texts of the chains at hand, injectivity of pseudonyms only of the identifiers in the table, and
  RSA and AES-GCM only that verification accepts a signature made with the key and that decryption undoes
  encryption.
- **Clocks, identifiers, nonces** are inputs.  Where a result needs a clock that does not go back, or fresh
  identifiers, it says so.
- **Text** is a sequence of characters that stand for UTF-8 bytes.  Decimals and SQL numerics are reals.

## What the code does and its documentation does not say

- The workflow hands its decision activity no context (services/la_orchestrator/workflows.py:203-212), so
  the shipped activity always answers with no lenders and nothing is ever submitted
  (`LoanSagaProgress.ShippedDecisionsNeverSubmit`).  The safety results therefore leave decisions to the
  history, and `LoanSagaProgress.OfferIsReachable` shows that the runs they speak about exist.
- Erasing by a pseudonym re-pseudonymises it, and its rows get another owner; owners survive every erasure
  exactly when requests name raw identifiers (`PlatformDataLaws.EraseKeepsOwnersExactlyWhenRaw`).  A vendor
  and a loan that both carry the pseudonym move together; they are parted exactly when just one of them does,
  as after vendor retention (`PlatformDataLaws.ErasePartsExactly`, `PlatformDataLaws.EraseByPseudonymParts`).
- Loan retention lifts legal holds as soon as its period is set below the 2555 days of the hold
  (`PlatformDataLaws.RetentionKeepsHoldsExactly`); the configured 2555 days are just enough.
- Vendors whose pseudonyms collide make a commit fail, and then it matters whether vendor retention or an
  erasure comes first (`PlatformDataLaws.VendorRetentionCommutesWithErase`,
  `PlatformDataLaws.CollidingPseudonymsShowOrder`).
- The chain verifier does not look at signatures, so tamper evidence holds up to signatures
  (`Receipts.TamperEvidence`).  Cutting receipts off the end of a chain is not detectable without knowing
  its last hash (`Receipts.PrefixAccepted`).
- The two JWS verifiers differ on one family of inputs: undecodable signature text is a refusal for one and
  an exception for the other (`Jws.VerifiersAgree`, `Jws.LetterIsUndecodable`).  Both ignore the middle part
  of the text, so a token with a payload segment passes for a detached signature (`Jws.AcceptedExactly`,
  `Jws.MiddleIsIgnored`).
- An empty idempotency key, and extras other than the sanctioned amount, can split the two gateway backends
  (`GatewayLaws.EmptyKeyAgreesExactly` and `GatewayLaws.SecondEmptyKeySplits`,
  `GatewayLaws.ExtrasAgreeExactly` and `GatewayLaws.SelectedLenderSplits`).
- Two sessions that ask for the same new key at once: the second to commit is told of a conflict
  (`GatewaySessions.SecondCommitConflicts`), although one after the other both would get the application
  (`GatewaySessions.InterleavingIsSequential`).  A conflict is told exactly when the key has come into use
  between select and commit, or is an empty one in use before (`GatewaySessions.ConflictExactly`).
- The backfill's suggested check, that no encrypted column is null afterwards, fails for null plaintext and
  for rows inserted before the offset (`Backfill.EncryptedNullsExactly`, `Backfill.NullPlaintextIsCounted`,
  `Backfill.LateInsertIsMissed`).
- `loan_application_id` of the staging query is declared unique, but a second repayment or origination event
  duplicates it (`ScoringQueries.StagedLoansUniqueExactly`, `ScoringQueries.SecondRepaymentDuplicates`).
- An attestation for a pair can lower that pair's own score, or leave it where it is
  (`TrustGraph.AttestationRaisesExactly`, `TrustGraph.AttestationLowersExactly`,
  `TrustGraph.AttestationCanLower`, `TrustGraph.FirstAttestationCanBeOffset`).

## Model

| member | source | states |
|---|---|---|
| LoanSaga.LoanOriginationWorkflow.constructor | services/la_orchestrator/workflows.py:58-61 | a new workflow object stands where the replay of the empty history stands: first gate requested, no response, no hold |
| LoanSaga.LoanOriginationWorkflow.LenderResponseReceived | services/la_orchestrator/workflows.py:63-66 | the signal handler, at any await, leaves the object in the state the replay of the longer history gives; it wakes the final wait |
| LoanSaga.LoanOriginationWorkflow.OpsHoldRequested | services/la_orchestrator/workflows.py:68-72 | same, for a hold request: the body only sees it between D3 and submission |
| LoanSaga.LoanOriginationWorkflow.OpsHoldReleased | services/la_orchestrator/workflows.py:74-78 | same, for a release: it wakes a held workflow, which then submits |
| LoanSaga.LoanOriginationWorkflow.TimeOut | services/la_orchestrator/workflows.py:222-281 | same, for the 72-hour and 24-hour timers: each ends the run with its own rejection |
| LoanSaga.LoanOriginationWorkflow.FailActivity | services/la_orchestrator/workflows.py:100-105 | same, for an activity whose retries are used up: the run fails |
| LoanSaga.LoanOriginationWorkflow.CompleteActivity | services/la_orchestrator/workflows.py:109-296 | resuming `run` at any of its activities and advancing it to the next await refines one step of the replay |
| LoanSaga.LoanOriginationWorkflow.Deliver | services/la_orchestrator/workflows.py:63-296 | whatever the host delivers next, the object afterwards stands where the replay of the longer history stands |
| LoanSaga.Replay | services/la_orchestrator/workflows.py:80-296 | replaying any legal history through the object ends in the state the step function computes |
| LoanSaga.RunResumes | services/la_orchestrator/workflows.py:80-296 | a replay can be split at any point: state and legality of the whole follow from the first part and the rest |
| LoanSagaSafety.FlagsHold | services/la_orchestrator/workflows.py:63-78 | the hold flag is up exactly when the last hold signal is a request; the stored response is the last lender signal |
| LoanSagaSafety.PhaseHolds | services/la_orchestrator/workflows.py:109-296 | invariant of every reachable state: where the run stands is determined by which gates have passed |
| LoanSagaSafety.CommandsFollowScript | services/la_orchestrator/workflows.py:109-296 | in every run, under every interleaving, the commands are a prefix of the one script fixed by the input, the hold and D3's lenders |
| LoanSagaSafety.CommandsAre | services/la_orchestrator/workflows.py:91-275 | the commands of every run word by word: each gate's activity with its gate, ruleset, application, GSTIN, principal and purposes, then the 72-hour timer if held, both submissions and the 24-hour timer |
| LoanSagaSafety.RejectionNamesGate | services/la_orchestrator/workflows.py:122-281 | a rejection names the gate whose command was the last one issued |
| LoanSagaSafety.OutcomeIsDecided | services/la_orchestrator/workflows.py:122-296 | a finished run's outcome is the one an independent definition reads off the completions and the last lender response; a rejection names the first gate that failed |
| LoanSagaSafety.LenderDecides | services/la_orchestrator/workflows.py:283-296 | without an immediate offer the last lender response decides: a nonempty offer goes to D3's lenders, anything else is a rejection with the lender's reason or `lender_declined` |
| LoanSagaSafety.ReadyMeansSubmitting | services/la_orchestrator/workflows.py:222-246 | once all gates passed and no hold is up, the run is submitting to exactly the lenders D3 matched |
| LoanSagaSafety.SubmissionSafety | services/la_orchestrator/workflows.py:109-246 | a submission was issued by a prefix in which consent (if a principal is given), D0, account data, D1, D2 and D3 all passed with the hold down at that step; it names exactly D3's nonempty lender list and is the only one |
| LoanSagaSafety.SubmittedIffReady | services/la_orchestrator/workflows.py:109-246 | a run has submitted if and only if some prefix of its history is ready |
| LoanSagaSafety.PrefixCommands | services/la_orchestrator/workflows.py:80-296 | a prefix of the history issues a prefix of the commands |
| LoanSagaSafety.HeldWhileWaiting | services/la_orchestrator/workflows.py:222-234 | a run waits for a release only while the hold flag is up |
| LoanSagaReplay.HoldsAfterSubmissionAreNoise | services/la_orchestrator/workflows.py:68-78 | deleting every hold and release signal after submission started keeps the history legal and changes nothing but the flag itself |
| LoanSagaReplay.OnlyHoldsDropped | services/la_orchestrator/workflows.py:68-78 | what that deletes: every hold and release, and nothing else |
| LoanSagaReplay.ResponsesAreNoise | services/la_orchestrator/workflows.py:258-268 | lender signals change nothing while the body cannot consult them: for the whole run with an immediate offer, else up to the final wait |
| LoanSagaReplay.OnlyResponsesDropped | services/la_orchestrator/workflows.py:63-66 | what that deletes: every lender signal, and nothing else |
| LoanSagaReplay.OnlyLastResponseCounts | services/la_orchestrator/workflows.py:270-296 | before the final wait only the last lender signal matters, for the state and for every future |
| LoanSagaProgress.CompletionsMakeProgress | services/la_orchestrator/workflows.py:109-296 | a measure drops at every completion and never rises at a signal |
| LoanSagaProgress.RunIsBounded | services/la_orchestrator/workflows.py:109-296 | every run issues at most eight activities and two timers, and an open run always has a completion to wait for |
| LoanSagaProgress.EndedRunsStayEnded | services/la_orchestrator/workflows.py:122-296 | a run ends once: nothing legal follows its result |
| LoanSagaProgress.OfferIsReachable | services/la_orchestrator/workflows.py:214-296 | witness: a run that is held, released, submitted and gets the offer of a lender signal |
| LoanSagaProgress.NoGstinNeverPassesAa | services/la_orchestrator/activities.py:194-196 | with the shipped account-data activity an application without a GSTIN, as every bare application id is, never gets past `aa_fetch`, is rejected there or at an earlier gate, and never submits |
| LoanSagaProgress.AaPassesExactly | services/la_orchestrator/activities.py:194-228 | with the shipped activity the account-data gate passes if and only if there is a GSTIN and the consent is approved |
| LoanSagaProgress.ShippedDecisionsNeverSubmit | services/la_orchestrator/activities.py:160-167 | with the shipped decision activity no run ever submits: a run that ends is rejected for consent, for account data, or by D3 for want of lenders |
| CanonicalJson.LeastIsUnique | libs/audit/receipts.py:28-33 | the key order of canonical JSON is total: exactly one least key in any nonempty set |
| CanonicalJson.AtMostExactly | libs/audit/receipts.py:33-33 | keys are ordered by the first character in which they differ, prefixes first |
| CanonicalJson.EscapeReadsBack | libs/audit/receipts.py:33-33 | every escape is one of RFC 8259 and reads back as its character |
| CanonicalJson.EscapeShape | libs/audit/receipts.py:33-33 | characters are written as they are, but for the seven short escapes and four lower-case hexadecimal digits for other control characters |
| CanonicalJson.ReadsBack | libs/audit/receipts.py:28-33 | an independent reader of JSON gets the value back from the front of any delimited text it was written to |
| CanonicalJson.CanonicalTextReadsBack | libs/audit/receipts.py:28-33 | the whole text reads back as the value, with nothing left over |
| CanonicalJson.ObjectText | libs/audit/receipts.py:28-33 | the text of an object is a brace, its members in ascending order of their keys, quoted key, colon and value, joined by commas, and a brace |
| CanonicalJson.KeysInOrder | libs/audit/receipts.py:33-33 | every object has such a list of keys |
| CanonicalJson.ArrayText | libs/audit/receipts.py:28-33 | the text of an array is its items in order, joined by commas, in brackets |
| CanonicalJson.CanonicalTextIdentifies | libs/audit/receipts.py:28-33 | canonical JSON is injective: equal texts come from equal values |
| CanonicalJson.ObjectTextEnds | libs/audit/receipts.py:28-33 | the text of an object ends in a closing brace |
| Receipts.ReceiptSigner.CreateReceipt | libs/audit/receipts.py:80-116 | the receipt signs and hashes its own text as it was before signature and chain hash were set; any mode but `hmac` fails |
| Receipts.FieldsReadBack | libs/audit/receipts.py:94-107 | a receipt has exactly eleven members, each its own field, signature and chain hash null when empty |
| Receipts.ReceiptText | libs/audit/receipts.py:107-114 | what is signed and hashed, letter by letter: those members in ascending order of their keys |
| Receipts.VerifyChain | libs/audit/receipts.py:122-138 | the verifier loop answers true if and only if every link holds |
| Receipts.CreateChain | libs/audit/receipts.py:80-116 | chain completeness: receipts created in a row, each given its predecessor's hash, are accepted |
| Receipts.AppendKeepsAccepted | libs/audit/receipts.py:110-114 | a correctly linked receipt extends an accepted chain to an accepted chain |
| Receipts.PrefixAccepted | libs/audit/receipts.py:126-138 | every prefix of an accepted chain is accepted |
| Receipts.ChainInputIdentifies | libs/audit/receipts.py:110-114 | the two byte layouts cannot be confused: the hashed text determines the receipt and the hash before it |
| Receipts.SameEndSameChain | libs/audit/receipts.py:123-138 | two accepted sequences that reach the same chain hash have the same length up to there and agree but for signatures |
| Receipts.SignaturesDoNotMatter | libs/audit/receipts.py:127-134 | the verifier ignores signatures |
| Receipts.TamperEvidence | libs/audit/receipts.py:119-138 | a sequence ending in the hash of receipt j is accepted if and only if it is the chain's first j + 1 receipts, signatures aside |
| Receipts.ChainHashesAreDistinct | libs/audit/receipts.py:110-114 | no two receipts of an accepted chain share a chain hash |
| Receipts.DeletionIsDetected | libs/audit/receipts.py:119-138 | taking out receipts anywhere but at the end is rejected |
| Receipts.ReorderIsDetected | libs/audit/receipts.py:119-138 | every permutation but the identity is rejected |
| PlatformData.PlatformDb.CheckLegalHold | libs/db/data_source.py:133-151 | a hold exists if and only if some loan of the vendor is disbursed, repaying or closed and younger than 2555 days |
| PlatformData.PlatformDb.EraseVendorRow | libs/db/data_source.py:94-106 | column by column: name and `gstin` from the digest, registration number and the five encrypted or index columns empty, id and onboarding date kept; all other rows untouched |
| PlatformData.PlatformDb.EraseLoanRows | libs/db/data_source.py:108-116 | column by column: exactly the vendor's loan rows lose `vendor_gstin` and its two shadow columns, keep all else, and are stamped |
| PlatformData.PlatformDb.EraseConsentRows | libs/db/data_source.py:118-122 | exactly the principal's consents are pseudonymised |
| PlatformData.PlatformDb.EraseSubject | libs/db/data_source.py:81-131 | erasure in full: blocked exactly by a hold, rolled back exactly on a uniqueness conflict, otherwise all three tables rewritten column by column |
| PlatformData.PlatformDb.EnforceLoanRetention | libs/db/retention_handlers.py:35-63 | the loop masks, column by column, vendor and anchor of exactly the loans that are closed, not updated for longer than the period and not masked yet, and returns their number |
| PlatformData.PlatformDb.MaskDormantVendors | libs/db/retention_handlers.py:76-105 | the loop masks, column by column, exactly the vendors onboarded longer ago than the period, not masked yet and without a created, disbursed or repaying loan |
| PlatformData.PlatformDb.EnforceVendorRetention | libs/db/retention_handlers.py:72-111 | the same with its commit: rolled back exactly when it would break the uniqueness of `gstin` |
| PlatformData.PlatformDb.EnforcePolicies | services/la_orchestrator/activities.py:321-371 | one pass over the policies, each at the clock reading its handler takes: tables and per-policy report after each, nothing in a dry run, stopping at the first failed commit |
| PlatformDataLaws.RunKeepsOwners | libs/db/data_source.py:92-122 | over every run of raw erasures and retention passes each vendor and loan row keeps its owner, id, and the loan its status and age |
| PlatformDataLaws.EraseKeepsOwnersExactlyWhenRaw | libs/db/data_source.py:92-116 | erasing by an identifier keeps owners in every table if and only if it is raw or its own pseudonym |
| PlatformDataLaws.ErasePartsExactly | libs/db/data_source.py:92-116 | an erasure parts a vendor from a loan of the same owner if and only if it is asked for by a pseudonym that is not its own, no hold blocks it, and just one of the two rows carries that pseudonym |
| PlatformDataLaws.EraseByPseudonymParts | libs/db/data_source.py:92-116 | a vendor masked by vendor retention with a closed loan still raw is such a case |
| PlatformDataLaws.DistinctOwnersNeverConflict | libs/db/models.py:112-112 | from distinct owners no run ever violates the uniqueness of `vendors.gstin` |
| PlatformDataLaws.SharedOwnerConflicts | libs/db/models.py:112-112 | two vendors with one owner can always be driven into a violation |
| PlatformDataLaws.ConstraintSurvivesExactlyWhenOwnersDistinct | libs/db/models.py:112-112 | the constraint survives every run if and only if owners are distinct at the start |
| PlatformDataLaws.PlainTablesHaveDistinctOwners | libs/db/data_source.py:156-158 | with pseudonyms injective on its identifiers, a table of raw identifiers starts with distinct owners |
| PlatformDataLaws.EraseUnfiles | libs/db/data_source.py:92-122 | an erasure that goes through leaves no row under the identifier; for consents exactly unless a pseudonym equals it |
| PlatformDataLaws.ErasedStaysErased | libs/db/data_source.py:92-122 | no later run brings the identifier back |
| PlatformDataLaws.AnonymousStaysAnonymous | libs/db/data_source.py:98-106 | no run, even one that erases by pseudonyms, brings back a vendor's name, registration number or encrypted columns |
| PlatformDataLaws.MaskedRowsAreFinal | libs/db/retention_handlers.py:41-45 | no raw run touches a masked vendor or loan row again |
| PlatformDataLaws.ErasureForgets | libs/db/data_source.py:98-116 | non-interference: tables that differ in name, registration number or encrypted columns of the erased vendor alone are the same afterwards |
| PlatformDataLaws.RetentionForgets | libs/db/retention_handlers.py:49-104 | the same for the secrets of the rows that the two retention passes mask |
| PlatformDataLaws.EraseTwice | libs/db/data_source.py:81-131 | erasing again, at whatever time, changes nothing |
| PlatformDataLaws.RetainLoansTwice | libs/db/retention_handlers.py:35-63 | a second loan retention pass changes nothing |
| PlatformDataLaws.RetainVendorsTwice | libs/db/retention_handlers.py:72-111 | a second vendor retention pass changes nothing |
| PlatformDataLaws.RetentionKeepsHoldsExactly | libs/db/retention_handlers.py:36-57 | loan retention leaves every legal hold of every table as it was if and only if its period is at least 2555 days |
| PlatformDataLaws.RetentionPassesCommute | libs/db/retention_handlers.py:35-111 | the two retention passes commute on every table with unique `gstin`, rolled back or not, whatever their periods and clocks |
| PlatformDataLaws.VendorRetentionCommutesWithErase | libs/db/retention_handlers.py:72-111 | vendor retention and a raw erasure, with their rollbacks, commute if and only if the erased vendor has no rival: no dormant vendor with the same pseudonym while the erased one is not dormant, no hold blocks, and each masking fits the other rows; with distinct owners there is none |
| PlatformDataLaws.OnlyOneFitsExactly | libs/db/retention_handlers.py:72-111 | having a rival, read off the rows, is the same as each operation going through alone but not after the other |
| PlatformDataLaws.CollidingPseudonymsShowOrder | libs/db/retention_handlers.py:96-98 | two identifiers with one pseudonym give a table where the order does show |
| PlatformDataLaws.LoanRetentionAndErase | libs/db/retention_handlers.py:35-63 | loan retention and erasure, with their rollbacks and any two clocks under which retention leaves the holds alone, differ in anchor columns and update stamps only, under one clock in anchor columns only, and do so exactly when the erasure goes through and hides an expired loan |
| PlatformDataLaws.PassMasksExactly | services/la_orchestrator/activities.py:336-368 | a whole pass masks exactly the rows that some policy asks for at the start, each just once, a loan with the stamp of the first policy that finds it expired |
| PlatformDataLaws.PolicyOrderIsIrrelevant | services/la_orchestrator/activities.py:333-368 | any rearrangement of the policies, each keeping its clock reading, leaves the same tables up to update stamps; under one clock the very same tables |
| PlatformDataLaws.PassesAgreeExactly | services/la_orchestrator/activities.py:333-368 | two passes whose policies have clock readings of their own leave the same tables up to update stamps if and only if they ask for the same rows |
| SlidingWindows.PruneAgain | libs/common/rate_limit.py:37-38 | pruning twice is pruning once with the later cutoff |
| SlidingWindows.PrunedCounts | services/breach_consumer/consumer.py:42-44 | the length of a pruned list is the count of the full history in the window that ends now |
| SlidingWindows.CountIsExact | services/breach_consumer/consumer.py:42-44 | the count is the number of places whose time is after the start of the window and not after its end |
| SlidingWindows.PruneAppended | services/breach_consumer/consumer.py:41-43 | appending to a pruned list and pruning again equals pruning the full history |
| RateLimit.RateLimiter.Arrive | libs/common/rate_limit.py:29-46 | a request is admitted if and only if its client's admissions in the 60 seconds that end with it, counted over the full history, are fewer than the limit; disabled, it admits and records nothing |
| RateLimit.RateLimiter.Record | libs/common/rate_limit.py:37-46 | only the client's own list changes, pruned and, on admission, appended to |
| RateLimit.RateLimiter.Remaining | libs/common/rate_limit.py:48-51 | the header lies between 0 and the limit less one, however many requests came in during the await |
| RateLimit.ListsKeepFit | libs/common/rate_limit.py:37-46 | invariant: every client's stored list stays its admissions, pruned no later than any window still to come |
| RateLimit.WindowBound | libs/common/rate_limit.py:40-46 | at no moment has a client more than the limit of admissions in the last 60 seconds |
| RateLimit.StretchBound | libs/common/rate_limit.py:40-46 | k windows in a row hold at most k times the limit |
| RateLimit.IntervalBound | libs/common/rate_limit.py:40-46 | a closed interval of length L admits at most limit * (floor(L / 60) + 1) requests of a client |
| RateLimit.ClosedIsExact | libs/common/rate_limit.py:37-40 | the count it bounds is the number of admissions in the closed interval, by place |
| RateLimit.RefusedExactlyWhenFull | libs/common/rate_limit.py:40-44 | a refusal means that the window holds exactly the limit |
| RateLimit.RoomIs | libs/common/rate_limit.py:33-40 | room is fewer than the limit of admissions of the client, or of all clients without an address together, in the 60 seconds that end with the request |
| BreachConsumer.SlidingWindow.Add | services/breach_consumer/consumer.py:38-44 | true if and only if the full history holds the threshold in the window |
| BreachConsumer.SlidingWindow.Count | services/breach_consumer/consumer.py:46-51 | the full history's count in the window; the history is unchanged |
| BreachConsumer.SlidingWindow.Observe | services/breach_consumer/consumer.py:122-140 | `add` and two reads of the count, at three clock readings |
| BreachConsumer.Consumer.constructor | services/breach_consumer/consumer.py:77-83 | one empty window per configured rule, none shared |
| BreachConsumer.Consumer.Reset | services/breach_consumer/consumer.py:149-153 | a new empty window for the rule; the others stay the very same objects |
| BreachConsumer.Consumer.Process | services/breach_consumer/consumer.py:122-156 | alert exactly when the events since the last reset reach the threshold; a failed start keeps the window, a successful one empties it |
| BreachConsumer.Consumer.Handle | services/breach_consumer/consumer.py:111-156 | a message changes the window of the rule that its event type counts for and no other; events and rules without a counterpart do nothing |
| BreachConsumer.Consumer.HandleNext | services/breach_consumer/consumer.py:103-156 | one more message gets the one answer the full record allows, and keeps every rule in step with it |
| BreachConsumer.Consumer.Run | services/breach_consumer/consumer.py:103-156 | over every message stream each message gets the answer its rule's full record allows: no alert, a failed start, or a start with the exact count sent; events since reset and alerts started are those of the record, and alerts * threshold <= events |
| BreachConsumer.AnswersByEventType | services/breach_consumer/consumer.py:64-71 | event type by event type: `bulk_pii_access`, `pii_export` and `auth_failed` count for `bulk_access`, `export_without_dsr` and `failed_auth`, an alert exactly when the threshold is reached within 60 seconds times the rule's minutes; any other type is answered with nothing |
| BreachConsumer.RulesCountTheirEvents | services/breach_consumer/consumer.py:64-71 | a rule's record is the messages of its own event type; a rule no event maps to has none |
| BreachConsumer.LedgerStep | services/breach_consumer/consumer.py:122-153 | one message and its answer move a rule's full record on; messages of other rules do not |
| BreachConsumer.AlertsUseDisjointEvents | services/breach_consumer/consumer.py:122-153 | no event backs two alerts: alerts * threshold + events since the last one <= events |
| BreachConsumer.ReadsDoNotMatter | services/breach_consumer/consumer.py:46-51 | any number of reads of the count before an `add` leaves its answer and the window unchanged |
| BreachConsumer.ConfirmationCountsExpiry | services/la_orchestrator/activities.py:402-418 | a started workflow is confirmed if and only if the events counted at `add`, less those expired before the count was sent, reach the threshold |
| BreachConsumer.ConfirmedWhenNothingExpires | services/la_orchestrator/activities.py:402-418 | so with nothing expiring in between every started workflow is confirmed |
| BreachConsumer.AlertsConfirmedExactly | services/la_orchestrator/activities.py:402-418 | the alerts of a run: message i started a workflow because its rule was breached, and it is confirmed if and only if the events since the last reset, less those expired before the count was sent, reach the threshold |
| Base64Url.EncodedShape | libs/ocen_client/jws/signer.py:165-166 | encoded text uses the URL alphabet only, has no padding and a length never 1 mod 4 |
| Base64Url.RoundTrip | libs/ocen_client/jws/signer.py:165-173 | decoding undoes encoding for every byte string |
| Base64Url.EncodeIsInjective | libs/ocen_client/jws/signer.py:165-166 | distinct byte strings have distinct texts |
| Base64Url.DecodableExactly | libs/ocen_client/jws/signer.py:169-173 | over the URL alphabet decoding fails exactly at lengths 1 mod 4 |
| Base64Url.StandardDecodesAlike | libs/ocen_client/jws/signer.py:169-173 | text in the standard alphabet decodes as its URL form does |
| Base64Url.OthersAreSkipped | libs/ocen_client/jws/signer.py:173-173 | a character of neither alphabet is skipped by the decoder wherever it stands |
| BigEndian.ByteLengthFits | libs/ocen_client/jws/signer.py:84-86 | the bit length rounded up to bytes always has room for the number, and one byte per digit to base 256 |
| BigEndian.BytesRoundTrip | libs/ocen_client/jws/signer.py:113-115 | big-endian bytes read back as the number |
| BigEndian.FirstByteNonZero | libs/ocen_client/jws/signer.py:84-86 | the published bytes are minimal |
| BigEndian.MinimalIsUnique | libs/ocen_client/jws/signer.py:84-86 | the only minimal byte string of a number is the one published |
| Jws.SplitThenJoin | libs/ocen_client/jws/signer.py:65-67 | splitting at dots loses nothing and leaves no dot in a part |
| Jws.SignatureHasThreeParts | libs/ocen_client/jws/signer.py:46-58 | a detached signature splits into header, empty payload and the signature of header, dot and payload, and its first part decodes to the header |
| Jws.HeaderReadsBack | libs/ocen_client/jws/signer.py:46-52 | to any reader of JSON the header says RS256, this key id, unencoded payload, and that the latter is critical |
| Jws.DumpedReadsBack | libs/ocen_client/jws/signer.py:52-52 | every key id, with quotes, control characters and characters beyond the basic plane, reads back from its escapes |
| Jws.DumpShape | libs/ocen_client/jws/signer.py:52-52 | printable ASCII is written as it is, but for quote and backslash; seven characters have a short escape, all others a UTF-16 escape in lower case |
| Jws.JwkRoundTrip | libs/ocen_client/jws/signer.py:80-96 | the key numbers survive publication and parsing |
| Jws.VerifiersAgree | libs/ocen_client/jws/signer.py:60-128 | the two verifiers agree on every text and payload, except that undecodable signature text raises in one |
| Jws.UndecodableSignatureSplits | libs/ocen_client/jws/signer.py:72-78 | signature text of length 1 mod 4 is refused by one verifier and raises in the other |
| Jws.LetterIsUndecodable | libs/ocen_client/jws/signer.py:120-128 | the text "..A" is such an input |
| Jws.AcceptedExactly | libs/ocen_client/jws/signer.py:65-76 | the texts accepted for a payload are exactly those of three parts without dots whose last part decodes to a signature of the first part and the payload |
| Jws.MiddleIsIgnored | libs/ocen_client/jws/signer.py:65-73 | a text with a nonempty middle part is accepted if and only if the detached form without it is |
| Jws.SignThenVerify | libs/ocen_client/jws/signer.py:37-128 | both verifiers accept what the signer made |
| Jws.SigningInputIdentifies | libs/ocen_client/jws/signer.py:54-54 | the signing input determines header and payload, dots in the payload notwithstanding |
| Gateway.BorrowerGatewayService.InitiateApplication | services/borrower_gateway/service.py:31-76 | a keyed repeat returns the first application and changes nothing; otherwise one application is added that holds exactly what the request says, at its first gate, with its own workflow id |
| Gateway.BorrowerGatewayService.GetStatus | services/borrower_gateway/service.py:78-92 | an error exactly for ids no call of the history created; otherwise every field shown is the last value any call wrote to it, extras included |
| Gateway.BorrowerGatewayService.UpdateGate | services/borrower_gateway/service.py:94-115 | gate and status are overwritten, then every extra, on that application only |
| Gateway.AsyncDbGatewayService.InitiateApplication | services/borrower_gateway/service.py:121-174 | as in memory, row by column, but the unique key also rejects a second empty key |
| Gateway.WorkflowIdsDiffer | services/borrower_gateway/service.py:44-45 | a workflow id is `loan-` and the application id, so distinct applications have distinct workflows |
| Gateway.AsyncDbGatewayService.GetStatus | services/borrower_gateway/service.py:176-197 | the same over rows, where of the extras only the known columns are ever written |
| Gateway.AsyncDbGatewayService.UpdateGate | services/borrower_gateway/service.py:199-229 | gate, status and the three known extras, on that row only |
| GatewayLaws.CallsKeepValid | services/borrower_gateway/service.py:31-229 | no call breaks either store: indexed applications exist, keys stay unique |
| GatewayLaws.BackendsAgree | services/borrower_gateway/service.py:24-229 | over every run with missing or nonempty keys and no extra but the sanctioned amount, both backends give equal answers |
| GatewayLaws.NewServicesAgree | services/borrower_gateway/service.py:27-30 | in particular from the empty stores both services start with |
| GatewayLaws.RepeatReturnsFirstInMemory | services/borrower_gateway/service.py:31-61 | idempotence: whatever calls come in between, a request with a nonempty key seen before gets the first application and adds nothing |
| GatewayLaws.RepeatReturnsFirstInDb | services/borrower_gateway/service.py:129-143 | the same over the database, with the first request's invoice |
| GatewayLaws.EmptyKeyAgreesExactly | services/borrower_gateway/service.py:31-161 | a new application is answered alike if and only if its key is not an empty one the database has seen |
| GatewayLaws.SecondEmptyKeySplits | services/borrower_gateway/service.py:145-160 | two first requests with an empty key: memory stores the second, the database refuses it |
| GatewayLaws.ExtrasAgreeExactly | services/borrower_gateway/service.py:105-224 | after an update with arbitrary extras the backends give the same status, and the same answers to repeats of the key, if and only if the extras are harmless to what these show |
| GatewayLaws.SelectedLenderSplits | services/borrower_gateway/service.py:219-223 | an update that names the selected lender is told by the database and not by the dictionary |
| GatewayLaws.FirstApplicationHasNoLender | services/borrower_gateway/service.py:148-158 | the first application of empty stores is one such case |
| GatewaySessions.StepKeepsInv | services/borrower_gateway/service.py:129-160 | invariant over single selects and commits of any session: unique keys, the table of a sequential run, answers explained by it, and every answer naming a row with its key |
| GatewaySessions.RunKeepsInv | services/borrower_gateway/service.py:129-160 | the same over every interleaving |
| GatewaySessions.InterleavingIsSequential | services/borrower_gateway/service.py:129-174 | every interleaving leaves the table of one session that deals with the requests in the order they are answered, and gives its answers, but for conflicts where that session would have returned the existing application |
| GatewaySessions.ConflictExactly | services/borrower_gateway/service.py:129-160 | a session that selects, finds nothing and commits later is told of a conflict if and only if another request for its key was answered with an application in between, or its key is an empty one in use before; otherwise it gets its own application |
| GatewaySessions.SecondCommitConflicts | services/borrower_gateway/service.py:129-160 | two sessions select one new key before either commits: the first gets its application, the second a conflict |
| GatewaySessions.SilentSessionWaits | services/borrower_gateway/service.py:129-160 | a session with a row to commit keeps waiting whatever others do, and a key comes into use exactly as others are answered with an application |
| GatewaySessions.OneApplicationPerKey | libs/db/models.py:39-39 | under every interleaving all successful answers to one nonempty key name one application |
| TrustGraph.TrustGraphService.RecordAttestation | services/trust_graph/service.py:63-65 | the stored counts, and their sum, stay those of the full record |
| TrustGraph.TrustGraphService.RecordRepayment | services/trust_graph/service.py:68-78 | the stored repayments stay those of the full record, in order |
| TrustGraph.TrustGraphService.SumAttestations | services/trust_graph/service.py:98-98 | the sum over all pairs is the number of recorded attestations |
| TrustGraph.TrustGraphService.ComputeTrustScore | services/trust_graph/service.py:81-123 | each part multiplied out from the full record: ten points an attestation up to thirty, forty in proportion to repayments on time, two a dealing up to twenty, less twenty in proportion to the share past a half; the score is their sum, within [0, 90] |
| TrustGraph.SumWithout | services/trust_graph/service.py:98-98 | the sum over a dictionary does not depend on the order of its entries |
| TrustGraph.PairsShareTheTotal | services/trust_graph/service.py:98-103 | two pairs never hold more attestations than there are |
| TrustGraph.AtMostOnePenalised | services/trust_graph/service.py:98-105 | at most one pair carries a concentration penalty, the one with more than half of all attestations |
| TrustGraph.ClampsNeverAct | services/trust_graph/service.py:114-115 | the sum of the parts always lies in [0, 90], so neither clamp acts |
| TrustGraph.OnTimeRepaymentNeverLowers | services/trust_graph/service.py:87-96 | an on-time repayment never lowers its pair's score |
| TrustGraph.OnTimeRepaymentRaisesExactly | services/trust_graph/service.py:87-96 | it raises the score unless dealings count for nothing more and all earlier repayments were on time |
| TrustGraph.LateRepaymentExactly | services/trust_graph/service.py:87-96 | a late repayment lowers the repayment part if and only if an earlier one was on time; it lowers or raises the score exactly as that part loses more or less than the two points the dealing may bring |
| TrustGraph.OtherAttestationNeverLowers | services/trust_graph/service.py:98-105 | an attestation for another pair never lowers a pair's score |
| TrustGraph.AttestationRaisesExactly | services/trust_graph/service.py:84-115 | an attestation raises its own pair's score if and only if the pair has fewer than three attestations or ten dealings and it is not the first attestation of all for a pair with ten repayments |
| TrustGraph.AttestationLowersExactly | services/trust_graph/service.py:84-115 | it lowers the score if and only if the pair is saturated and its share of all attestations moves, past a half |
| TrustGraph.AttestationCanLower | services/trust_graph/service.py:98-103 | ten attestations for the pair and ten for another: one more for the pair lowers its score |
| TrustGraph.FirstAttestationCanBeOffset | services/trust_graph/service.py:98-103 | ten repayments and no attestation yet: the first attestation leaves the score where it is |
| Backfill.DecryptUndoesEncrypt | migrations/versions/003_backfill_encrypted_columns.py:41-49 | the stored format decrypts to the plaintext |
| Backfill.FillRow | migrations/versions/003_backfill_encrypted_columns.py:85-108 | every non-null column of a row gets a value that decrypts to it and, where asked, its blind index; plaintext and nulls are left alone |
| Backfill.BackfillPage | migrations/versions/003_backfill_encrypted_columns.py:78-111 | a page encrypts exactly the at most 1000 rows from the offset on, in place, and touches no other |
| Backfill.BackfillTable | migrations/versions/003_backfill_encrypted_columns.py:66-111 | the loop ends, and the table is what it would be without the backfill, inserted rows included, with exactly those rows encrypted and indexed that stood on a page when it was read, and every other row untouched |
| Backfill.RowsAheadAreRead | migrations/versions/003_backfill_encrypted_columns.py:76-111 | a row at the offset or behind it is read in the end, whatever is inserted between pages |
| Backfill.NothingLost | migrations/versions/003_backfill_encrypted_columns.py:76-111 | the final table holds the original rows and the accepted inserts, each once |
| Backfill.ReadExactlyFromOffset | migrations/versions/003_backfill_encrypted_columns.py:76-111 | with no smaller ids still to come a row is read if and only if it stands at the offset or behind it, so an insert that lands before the offset stays unencrypted |
| Backfill.LateInsertIsMissed | migrations/versions/003_backfill_encrypted_columns.py:79-83 | a row inserted after the only page, before the others in id order, is never read |
| Backfill.NothingSkipped | migrations/versions/003_backfill_encrypted_columns.py:76-111 | no row of the original table is skipped, whatever other sessions insert |
| Backfill.EncryptedNullsExactly | migrations/versions/003_backfill_encrypted_columns.py:7-7 | afterwards an encrypted column is null exactly where it was before and the plaintext is null or the row came too late to be read; the suggested count is zero if and only if there is no such row |
| Backfill.NullPlaintextIsCounted | migrations/versions/003_backfill_encrypted_columns.py:7-7 | one row with a null plaintext is such a row |
| Grouping.GroupsPartition | services/trust-graph/models/marts/trust_scores.sql:8-22 | grouping conserves rows: the groups kept hold exactly the rows whose key is kept |
| ScoringQueries.JoinCounts | services/trust-graph/models/staging/stg_loan_applications.sql:28-43 | the staging table has the sum over originations of max(1, repayments) rows |
| ScoringQueries.StagedRowsAre | services/trust-graph/models/staging/stg_loan_applications.sql:7-43 | what the staging rows are: every origination with each of its repayments, or alone, with the status that goes with it |
| ScoringQueries.StagedLoansUniqueExactly | services/trust-graph/models/staging/schema.yml:24-26 | application ids are unique in it if and only if none was originated or repaid twice |
| ScoringQueries.SecondRepaymentDuplicates | services/trust-graph/models/staging/stg_loan_applications.sql:42-43 | one origination with two repayments is staged twice |
| ScoringQueries.TrustScoresInRange | services/trust-graph/models/marts/trust_scores.sql:42-54 | every trust score lies in [0, 100] |
| ScoringQueries.TrustRowCounts | services/trust-graph/models/marts/trust_scores.sql:8-22 | every trust row counts the staged rows of its pair, all, repaid and active |
| ScoringQueries.TrustScoreIs | services/trust-graph/models/marts/trust_scores.sql:43-54 | the score multiplied out: half the repayment rate below three loans, else 70 points of it, a point a loan up to 20, and 10 for an average of 30 days or less, rounded halves up |
| ScoringQueries.AverageBetween | services/trust-graph/models/marts/trust_scores.sql:16-16 | the average of days is missing exactly when none is known, and lies between any bounds on those known |
| ScoringQueries.JoinAddsNoRows | services/trust-graph/models/marts/vendor_profiles.sql:29-30 | the attestation join yields one row per trust row, in place |
| ScoringQueries.LifetimeLoansAreStagedRows | services/trust-graph/models/marts/vendor_profiles.sql:20-20 | a vendor's lifetime loans are its rows in the staging table |
| ScoringQueries.EveryVendorHasProfile | services/trust-graph/models/marts/vendor_profiles.sql:17-31 | every vendor of the staging table has a profile |
| ScoringQueries.ProfilesHaveDistinctVendors | services/trust-graph/models/marts/schema.yml:17-18 | no vendor has two profiles, although attestation counts are grouping columns |
| ScoringQueries.AnchorCountIsExact | services/trust-graph/models/marts/vendor_profiles.sql:19-19 | the anchor count is the number of distinct non-null anchors the vendor has loans with |
| ScoringQueries.AverageAtMostMaximum | services/trust-graph/models/marts/vendor_profiles.sql:23-24 | average score <= maximum score, both in [0, 100] |
| ScoringQueries.ScoresAreExact | services/trust-graph/models/marts/vendor_profiles.sql:23-24 | a profile's average is that of its pairs' scores, and its maximum is one of them with none above it |
| ScoringQueries.AttestationCountsAreExact | services/trust-graph/models/marts/vendor_profiles.sql:7-15 | a profile counts its vendor's attestation events, and those of kind 1; a null vendor joins none |

## Left out

- LoanSaga.Replay: one event is one step. Several events handled in one activation are not modelled: a release and a new hold request in one activation submit in the model, while the workflow looks at the flag after both and stays held. Missing keys in an activity's result and results of the wrong type are left out as well.
- LoanSaga: retry policies, timeouts of single activities and heartbeats appear only as their result, a failed activity.
- LoanSagaProgress.NoGstinNeverPassesAa: the account aggregator and the consent ledger are reduced to the consent status they report.
- BreachConsumer.ConfirmationCountsExpiry: of the breach workflow only the confirm branch is modelled, not the notifications; a rule missing from the configuration at that point is left out.
- BreachConsumer.Consumer.Run: the endless poll loop is a loop over the messages received; broker errors, empty polls and undecodable messages, which the loop skips, are left out, and so are exceptions raised before the window is touched.
- BreachConsumer.SlidingWindow.Add: times are reals, and a clock that goes back is excluded.
- RateLimit.RateLimiter.Arrive: times are reals, and a clock that goes back is excluded; the response and its other headers are not modelled.
- CanonicalJson.CanonicalTextReadsBack: numbers are kept as the tokens the serialiser prints, so printing of floats, and dates and identifiers that print as strings, are outside the result.
- Receipts.ReceiptSigner.CreateReceipt: identifiers and time stamps are inputs; the key-management mode, which the code does not implement, is its error.
- PlatformData.PlatformDb.EraseSubject: rows are values in sequences that the methods replace; column widths and the moment at which pending changes are flushed are not modelled, only that a commit that breaks the uniqueness of `gstin` is rolled back.
- Collecting data for access requests, corrections and grievances: reads without state.
- Base64Url.DecodableExactly: says nothing about text outside the alphabet, which `Base64Url.OthersAreSkipped` is about.
- Jws.JwkRoundTrip: the JSON text around the published fields, the loading of private keys and the generation of key pairs are left out; RSA is a pair of functions.
- Jws.SignThenVerify: payloads given as bytes and payloads given as text are the same sequence of characters.
- GatewayLaws.BackendsAgree: time stamps are left out, amounts are not rounded to two decimals, and identifiers are drawn by the caller.
- GatewayLaws.ExtrasAgreeExactly: says what is told right after one update; a later update with other extras may mend or split the stores again.
- GatewaySessions.InterleavingIsSequential: a select and a commit are atomic, and only application requests interleave; other isolation effects of the database are left out.
- The workflow ids used by the lender callback differ from the ids workflows are started with, so nothing is claimed about callbacks reaching a workflow.
- TrustGraph.TrustGraphService.ComputeTrustScore: decimals are reals, so rounding to 28 digits is left out; nodes, edges and their listing are not modelled.
- Backfill.BackfillTable: rows are inserted between pages, never during one, and never updated or deleted by others; the randomness of nonces is not modelled, so nothing is said about their reuse.
- Backfill.FillRow: the row is a value that is replaced in the table, one UPDATE at a time.
- The tables and columns the backfill is called for, its downgrade and the other schema migrations: lists without loops.
- ScoringQueries.TrustScoresInRange: rounding is to the nearest integer, halves up, as for non-negative numerics; the repayment rate column, the repaid loans of a profile, and the sums, averages and dates of amounts are left out.
- ScoringQueries.StagedLoansUniqueExactly: says nothing about nulls, which the uniqueness declaration ignores; the not-null declarations are left out.
- The staging of raw events and the extraction of payload fields: a projection without aggregation.
- Decision tables, the rules engine, the due-diligence data product, webhook retries, token caches, sandbox scenarios, HTTP handlers, logging, tracing and deployment.
- Kafka, Temporal, SQLAlchemy and the consent and identity libraries themselves: only the events, rows and results they deliver.
