# Intent routing: a verified model

This project models, in Dafny, the parts of the intent routing service whose correctness spans several
functions or a whole run, and proves what they promise. `dafny verify dfyconfig.toml` checks the whole project.

## What is modelled

**Stored raw text.** A runtime query or an intent example is stored as an encrypted envelope of eight columns.
`Encryption` has the envelope and the keyring, over uninterpreted cryptographic primitives whose only assumed
property is that opening undoes sealing (sections 7.1 and 7.2 of NIST SP 800-38D) and that the UTF-8 codec
undoes itself. `RawText` has the columns, how they are listed and how they are counted. `Rewrap` says what one
key-rewrap run makes of the two tables and what it counts; `RewrapTheorems` and `RewrapRuns` prove how runs end,
how many are needed, when they stall, and that a completed run lets the legacy keys be retired.
`RawTextRepository` and `RewrapJob` are the same job as the program runs it, with records changed in place batch
by batch, and are proved to do exactly that. `Retention` erases old queries. `Lifecycle` puts all writers and
readers together and proves, over every interleaving, that a logged query can be viewed until it is redacted, that
a view shows the query that was logged, and that a redacted query is never seen again. `KeyRetirement` says when a catalog version, loaded after the keys were
retired, can still be read.

**Governed actions.** `Governance` is the state machine of view requests, single-use tokens, publish requests and
release activation; `GovernanceTheorems` and `GovernanceRuns` prove its invariant and its safety over runs;
`GovernanceReplies` says exactly when each endpoint succeeds, written out over roles and scopes;
`GovernanceAudit` proves that the audit log tells the whole story of every request. `GovernanceStore` and
`GovernedEndpoints` are the records of a session and the endpoints that change them, in the program's order:
a record may already be changed when a check refuses, and what was not committed is rolled back.

**Ownership.** `Ownership`, `OwnershipTheorems`, `OwnershipReplies`, `OwnershipStore` and `OwnershipEndpoints` treat
who holds `system_admin`, across bootstrap, startup, managed users, access requests, patches and transfer.

**Catalog versions.** `CatalogDraft`, `CatalogTheorems`, `CatalogVersions` and `CatalogStore` treat creating a
catalog version from the live tables and loading one back into them.

**Routing and its test gate.** `Scoring` and `Routing` have the confidence of an intent, the decision ladder, the
engine, the CSV test runner and the runtime answer; `CaseFiles` and `RiskPack` read and merge the test cases,
`Gate` and `Baseline` have the verdicts over test runs.

**Masking.** `PiiMasking` has the three chained substitutions of personal numbers.

In every area the shape is the same: pure functions say what a step or a run does, methods that work step by step
are proved equal to them, and the theorems are about the functions.

## Where the code surprises

Each of these is a lemma, listed below with the others.

- A phone number survives masking when it starts in the last three digits of another one, unless its own second
  half starts a third (`PhoneSurvivesIffSkipped`); resident and account numbers never survive.
- With a clarify margin of zero, which the policy allows, the order of the candidates can decide. The answer does
  not depend on it exactly if all the best candidates give the same one (`WithoutMarginOrderIsIgnoredIff`).
- The first positive example of an intent lowers its score if its similarity is negative (`MorePositivesLowerIff`).
- A rewrap whose first `limit` legacy rows cannot be decrypted picks the same rows for ever (`StallIsForever`).
- The expiry sweep stamps used tokens as expired as well; only the request's status is guarded (`SweepMeaning`).
- Baseline acceptance chains only while results are PASS, REVIEW or FAIL (`UngradedResultBreaksTheChain`).
- Startup provisioning may make somebody the holder who cannot log in: exactly if the configured e-mail is that
  of a disabled account, or of one whose directory entry is switched off or missing (`StartupLocksOutIff`).
- The guard on patches looks at oneself only. That is enough, even if several users held the role, while the
  caller's session is current (`GuardLeavesAHolder`); a caller who has just handed the role over, and whose
  request was admitted before, can still take it from the new holder (`StaleCallerLosesHolder`). No other call
  can leave the service without a holder (`StepLosesHolderIff`).
- The organization directory can lock the holder out (`SwitchLocksOutIff`).
- A version may not load although both catalogs are fine: if an intent listed later holds by now the route key of
  one listed earlier, as after swapping two route keys (`CreatedVersionLoadsIff`, `SwappedRoutesFail`).
- A load copies stored envelopes back, and these are never rewrapped: after the legacy keys were retired, examples
  of older versions cannot be read (`LoadAfterRetirement`).

## Model

| member | source | states |
|---|---|---|
| `Encryption.EncryptorRoundTrip` | src/intent_routing/security/encryption.py:35-102 | What one key encrypts, the same key decrypts to the same text under the same context; every length check passes on the way, so the tags are split where decryption joins them. |
| `Encryption.EnvelopeIsSealed` | src/intent_routing/security/encryption.py:35-71 | What an envelope is: the text sealed under a key drawn for it, that key sealed under the key-encryption key, each with its own iv and its last 16 bytes apart, both bound to key id, algorithm and context. |
| `Encryption.EnvelopeOpensIff` | src/intent_routing/security/encryption.py:73-102 | What it reads as: a text exactly if algorithm, key id and lengths are right, both layers open under that binding, and the message decodes to it. |
| `Encryption.DecryptedTextEncodes` | src/intent_routing/security/encryption.py:73-102 | Whatever text a decryption returns can be encrypted again, so re-encryption can fail at decryption only. |
| `Encryption.KeyringRoundTrip` | src/intent_routing/security/keyring.py:58-78 | A text written under one keyring is stored under its active key and read back by every keyring that still has that key under that id. |
| `Encryption.ReencryptKeepsText` | src/intent_routing/security/rewrap.py:30-37 | Re-encrypting an envelope under another key succeeds exactly where decrypting it does; the result is under the active key and reads as the same text for every keyring that has the active key. |
| `Encryption.FromValues` | src/intent_routing/security/keyring.py:20-49 | The loop over the configured keys builds the keyring of the specification or stops with the error of the first key it refuses. |
| `Encryption.KeyringFromMeaning` | src/intent_routing/security/keyring.py:20-49 | A keyring is built exactly if all ids, stripped, are different and not blank and all keys decode to 32 bytes; it then holds exactly those keys under those ids. |
| `Encryption.StripIsDone` | src/intent_routing/security/keyring.py:28-38 | Stripping an id leaves no blank at either end and is final, which is why comparing the unstripped legacy ids adds nothing. |
| `RawText.ReadEnvelope` | src/intent_routing/security/rewrap.py:67-98 | The envelope is read exactly if all eight columns are there, and storing it again gives the same columns. |
| `RawText.ListingMatchesCount` | src/intent_routing/db/repositories.py:2438-2510 | On rows as the writers leave them, the rewrap listing, which ignores deletion, picks exactly the rows the key counts count, and no row is ever "incomplete". |
| `RawText.DeletedRowWithRawIsOnlyListed` | src/intent_routing/db/repositories.py:2438-2510 | Without the writers' invariant the two differ: a deleted row with raw columns would be listed and not counted. |
| `RawText.LegacyCountedIffAny` | scripts/rewrap_raw_text.py:453-463 | The per-key counts show a positive legacy count exactly if some legacy row is stored. |
| `RawText.KeyCountsMeaning` | src/intent_routing/db/repositories.py:2469-2510 | The per-key counts list exactly the key ids that rows of the service have, each with the number of its rows; logs count only if whole and not deleted. |
| `RawText.SourceRowsAreLegacy` | src/intent_routing/security/rewrap.py:127-141 | The rows listed for the source keys of an included table are exactly its rows under any other key than the active one. |
| `Rewrap.TallyMeaning` | scripts/rewrap_raw_text.py:348-437 | For every list of outcomes: scanned is their number and the sum by table, each counter is the number of its outcomes, every cell of the nested failure map is the number of candidates that failed that way, and the cells sum to failed. |
| `Rewrap.RecordFailureAddsOne` | scripts/rewrap_raw_text.py:428-437 | Recording a failure raises the total of the nested failure map by one, whichever of its levels existed. |
| `RewrapTheorems.RewrapRowsAt` | scripts/rewrap_raw_text.py:348-403 | The j-th chosen row becomes what its outcome makes of it, every other row of the table stays. |
| `RewrapTheorems.ChosenIsFirst` | src/intent_routing/db/repositories.py:2416-2467 | A listing returns min(limit, matching rows) rows, in table order. |
| `RewrapTheorems.ChosenLeavesNoneOut` | src/intent_routing/db/repositories.py:2416-2467 | And no matching row before a returned one is left out. |
| `RewrapTheorems.DecideMeaning` | scripts/rewrap_raw_text.py:366-402 | A legacy candidate is never skipped and never incomplete; it is rewrapped exactly in an execute run that can decrypt it. |
| `RewrapTheorems.OutcomeMeaning` | scripts/rewrap_raw_text.py:362-425 | What becomes of any row, in either mode, and under which key id and for which reason each failure is booked. |
| `RewrapTheorems.DryRunStatus` | scripts/rewrap_raw_text.py:440-450 | A dry run ends "completed_with_failures" exactly if some candidate names a key that is not configured, else "completed", and never "partial_remaining". |
| `RewrapTheorems.RunConservesLegacy` | scripts/rewrap_raw_text.py:111-247 | In every run, whatever fails, the legacy rows of an included table before are those after plus those rewrapped; its candidates are min(limit, legacy rows). |
| `RewrapTheorems.RunAccounting` | scripts/rewrap_raw_text.py:348-437 | The books balance: nothing is skipped, "incomplete_envelope" never occurs, an execute run has scanned = rewrapped + failed, a dry run rewraps nothing. |
| `RewrapTheorems.FailsIffUnopened` | scripts/rewrap_raw_text.py:440-450 | An execute run ends "completed_with_failures" exactly if some candidate cannot be decrypted. |
| `RewrapTheorems.CompletedIff` | scripts/rewrap_raw_text.py:440-463 | An execute run ends "completed" exactly if every included table has at most limit legacy rows and all of them can be decrypted. |
| `RewrapRuns.RunKeepsRows` | scripts/rewrap_raw_text.py:348-425 | A run leaves each row as it is, or with the same text under the active key and everything else the same. |
| `RewrapRuns.RunKeepsStore` | scripts/rewrap_raw_text.py:348-403 | A run keeps the writers' invariant; a dry run changes no row at all. |
| `RewrapRuns.CompletedRunRetiresKeys` | scripts/rewrap_raw_text.py:440-463 | After an execute run over both tables that ends "completed", every envelope of the service that could be read reads as the same text under a keyring with the active key only. |
| `RewrapRuns.ReadyRun` | scripts/rewrap_raw_text.py:111-247 | With every legacy row readable, a run rewraps min(limit, legacy) rows of each included table, fails on none, and the next run is in the same position. |
| `RewrapRuns.Convergence` | scripts/rewrap_raw_text.py:111-247 | After n such runs a table that had m legacy rows has max(0, m - n * limit). |
| `RewrapRuns.CampaignLength` | scripts/rewrap_raw_text.py:440-463 | Run number max over the tables of ceil(legacy / limit) ends "completed", all earlier ones "partial_remaining", all later ones "completed". |
| `RewrapRuns.ProgressIff` | scripts/rewrap_raw_text.py:314-403 | An execute run changes something exactly if some candidate can be decrypted. |
| `RewrapRuns.UnconfiguredKeysStall` | scripts/rewrap_raw_text.py:366-387 | A run whose candidates are all under keys the keyring does not have cannot decrypt any of them. |
| `RewrapRuns.StallIsForever` | scripts/rewrap_raw_text.py:314-403 | If no candidate can be, no number of further runs changes anything, and each ends "completed_with_failures". |
| `RawTextRepository.IntentExample.ApplyEncryptedText` | src/intent_routing/security/rewrap.py:53-64 | Assigning the eight fields replaces the stored envelope and nothing else. |
| `RawTextRepository.RuntimeLog.ApplyEncryptedQuery` | src/intent_routing/security/rewrap.py:101-112 | Assigning the eight fields replaces the stored envelope and nothing else. |
| `RawTextRepository.RuntimeLog.EraseRawQuery` | src/intent_routing/db/repositories.py:2710-2722 | Redaction clears all eight fields and records who deleted them, when and why. |
| `RawTextRepository.Repository.ListIntentExamplesForRewrap` | src/intent_routing/db/repositories.py:2416-2436 | The records of the first matching rows, all different. |
| `RawTextRepository.Repository.ListRuntimeLogsForRewrap` | src/intent_routing/db/repositories.py:2438-2467 | The records of the first matching rows, all different. |
| `RewrapJob.RewrapCounts.RecordFailed` | scripts/rewrap_raw_text.py:428-437 | The three nested dictionaries are updated in place to the specified failure map. |
| `RewrapJob.ProcessCandidate` | scripts/rewrap_raw_text.py:362-402 | One candidate: its record and the counters become what its specified outcome makes of them, on every path through the body. |
| `RewrapJob.ProcessCandidates` | scripts/rewrap_raw_text.py:348-403 | For every batch size each candidate is visited exactly once, in order; the records and the counters are those of the specification. |
| `RewrapJob.ListCandidates` | scripts/rewrap_raw_text.py:314-345 | The candidates are the records of the chosen examples followed by those of the chosen logs, all different, and none if there is no source key. |
| `RewrapJob.RewrapTables` | scripts/rewrap_raw_text.py:166-180 | Listing and processing turn the two tables and the counters into exactly what the run is specified to make of them. |
| `RewrapJob.RunRawTextRewrap` | scripts/rewrap_raw_text.py:111-247 | A refused run changes nothing; any other leaves the specified tables, status, key counts and counters, one stored run and, if it executes, one audit row. |
| `Retention.PlanRedaction` | src/intent_routing/ops/retention.py:22-56 | A plan is refused for a negative age, then for a limit below one; otherwise it has the first eligible rows: min(limit, eligible) of them, each once, in table order, with no eligible row before one of them left out, and the number already redacted. |
| `Retention.ApplyRedaction` | src/intent_routing/ops/retention.py:59-97 | Exactly the listed logs that still hold anything are erased, with one audit row each; their number is returned. |
| `Retention.PlanIsApplied` | src/intent_routing/ops/retention.py:22-97 | Applying a plan erases exactly the planned rows, so the eligible rows shrink by their number. |
| `Retention.RedactionKeepsRow` | src/intent_routing/db/repositories.py:2694-2726 | Exactly a row of the service that is listed, not yet redacted and holds anything loses its columns and records the deletion; that keeps the writers' invariant, and redacting again changes nothing. |
| `Lifecycle.StepKeeps` | src/intent_routing/logging/trace.py:156-281 | Logging, rewrapping, redacting and viewing, with any arguments, keep: every log that still has an envelope holds the query logged for its trace. |
| `Lifecycle.RunKeeps` | src/intent_routing/api/admin.py:4983-5069 | So does every run of such steps, under any keyrings whose keys never change their ids. |
| `Lifecycle.ReadMeaning` | src/intent_routing/logging/audit.py:15-22 | A log is read exactly if it is there with its envelope and the keyring has its key, and then as the query logged. |
| `Lifecycle.ViewIff` | src/intent_routing/api/admin.py:4983-5069 | A view succeeds exactly for a permitted caller with a usable token, if the log still has its envelope and the keyring its key; it returns the query logged for the trace. |
| `Lifecycle.ViewShowsWhatWasLogged` | src/intent_routing/logging/trace.py:156-281 | Whatever happens between, a view returns the very query that log_success, or log_error with encrypt_raw_query, was given for the trace. |
| `KeyRetirement.ReadableAfterRun` | scripts/rewrap_raw_text.py:440-463 | After a completed run the active key alone reads every example of the catalog that could be read before. |
| `KeyRetirement.LoadAfterRetirement` | src/intent_routing/api/admin.py:5636-5663 | A load copies stored envelopes back, which no run rewraps: after it the active key alone still reads every example exactly if every stored row of the version is under the active key. |
| `Lifecycle.RedactedIsNeverViewed` | src/intent_routing/api/admin.py:5032-5047 | Once a trace is redacted, no later view of it succeeds, under any keyring. |
| `Lifecycle.LoggedIsStored` | src/intent_routing/logging/trace.py:156-281 | What is logged for a new trace is stored, all eight columns, under the writer's active key, for its service, and reads as the query. |
| `Lifecycle.LoggedCanBeViewed` | src/intent_routing/api/admin.py:4983-5069 | End to end: as long as no redaction asks for its trace, a logged query is shown by exactly the permitted views under a keyring with the key its envelope is under by then, which is the writer's active key or that of a later rewrap run. |
| `Lifecycle.RedactionRedacts` | src/intent_routing/db/repositories.py:2694-2726 | A redaction that asks for the trace of a log with its envelope redacts it. |
| `Lifecycle.WrittenIsFaithful` | src/intent_routing/logging/trace.py:208-281 | What a writer stores for a query decrypts to that query. |
| `Lifecycle.InsertKeeps` | src/intent_routing/logging/trace.py:156-281 | Inserting a log, with an envelope or without, keeps the invariant; a trace id that exists is refused. |
| `Lifecycle.EmptyWorld` | src/intent_routing/logging/trace.py:156-281 | The empty tables satisfy the invariant, so it holds in every reachable state. |
| `Lifecycle.GovernedRun` | src/intent_routing/api/admin.py:4983-5069 | The governed records of such a run go through a governed run, so single use and the two-person rule hold in it. |
| `GovernanceTheorems.IssueKeeps` | src/intent_routing/db/repositories.py:1510-1548 | Issuing a token keeps: a request has one token exactly if its status says so, never two, and the token ends within 900 seconds of its issue. |
| `GovernanceTheorems.ConsumeKeeps` | src/intent_routing/db/repositories.py:1550-1575 | Using a token makes one more viewed request, one more used token and one more view in the audit log. |
| `GovernanceTheorems.ExpireKeeps` | src/intent_routing/db/repositories.py:1577-1602 | Expiring a token on use keeps the invariant. |
| `GovernanceTheorems.SweepKeeps` | src/intent_routing/db/repositories.py:1635-1653 | So does sweeping all tokens past their end. |
| `GovernanceRuns.StepKeeps` | src/intent_routing/api/admin.py:4768-5069 | Every endpoint, called by anyone with any arguments at any time, keeps the invariant. |
| `GovernanceRuns.SingleUseAndConservation` | src/intent_routing/db/repositories.py:1510-1653 | In every reachable state no request has two tokens, viewed requests, used tokens and audited views are equally many, each view is before the token's end, at most 900 seconds after issue, and nobody decided their own request. |
| `GovernanceRuns.StepMoves` | src/intent_routing/db/repositories.py:1463-1602 | A step moves a request only from pending to approved or rejected by another person, from approved to token_issued (raw query) or activated (release), or from token_issued to viewed or expired. |
| `GovernanceRuns.RequestsMoveForward` | src/intent_routing/db/repositories.py:1463-1602 | Along every run a request only moves forward, and keeps what was asked and who decided it. |
| `GovernanceRuns.TokenServesOnce` | src/intent_routing/db/repositories.py:1550-1575 | A token that gave a raw query once never gives one again, to anyone, at any later time. |
| `GovernanceRuns.RequestActivatesOnce` | src/intent_routing/api/admin.py:6166-6216 | A publish request activates its release at most once. |
| `GovernanceRuns.ViewTakesTwo` | src/intent_routing/api/admin.py:4983-5069 | Whoever reads a raw query uses, before its end, a token of a request for that trace which someone other than its author approved, and is that author or a system_admin. |
| `GovernanceRuns.IssueTakesTwo` | src/intent_routing/api/admin.py:4922-4976 | A token is issued only on a request approved by another person, to its author or a system_admin; it is new, usable for that trace, and ends exactly as many seconds later as were asked for, 900 at most. |
| `GovernanceRuns.DecisionTakesTwo` | src/intent_routing/api/admin.py:1597-1664 | Only someone with the right to decide, who is not the author, decides a request, once. |
| `GovernanceRuns.ActivationTakesTwo` | src/intent_routing/api/admin.py:6166-6216 | A publish request that activates was approved by someone other than its author; its release is then the one active release of its service and environment. |
| `GovernanceRuns.SweepMeaning` | src/intent_routing/db/repositories.py:1635-1653 | After a sweep no request waits on a token past its end and nothing viewed is un-viewed, yet used tokens past their end are stamped too. |
| `GovernanceRuns.SetActiveMeaning` | src/intent_routing/db/repositories.py:2381-2398 | The activated release is the only active one of its service and environment; others stay as they were. |
| `GovernanceReplies.ViewRequestSucceedsIff` | src/intent_routing/api/admin.py:4768-4809 | Exactly when a view request is accepted, by role, log and reason, and the pending request it leaves. |
| `GovernanceReplies.PublishRequestSucceedsIff` | src/intent_routing/api/admin.py:6017-6061 | Exactly when a publish request is accepted, and the pending request it leaves. |
| `GovernanceReplies.DecisionSucceedsIff` | src/intent_routing/api/admin.py:4816-4915 | Exactly when an approval or a rejection succeeds, by role, status, author and reason, and what it writes on the request. |
| `GovernanceReplies.IssueSucceedsIff` | src/intent_routing/api/admin.py:4922-4976 | Exactly when a token is issued, by lifetime, request, caller and hash, and the token it leaves, ending the lifetime asked for from now. |
| `GovernanceReplies.ViewSucceedsIff` | src/intent_routing/api/admin.py:4983-5069 | Exactly when a raw query is shown, by token, request, caller and log, and that token and request are then used up. |
| `GovernanceReplies.ActivationSucceedsIff` | src/intent_routing/api/admin.py:6170-6216 | Exactly when a release is activated, with or without a request, and what then changes. |
| `GovernanceAudit.StepLeavesOneRow` | src/intent_routing/api/admin.py:4768-5069 | Every endpoint is all or nothing and on the record: a refusal changes nothing, but for a token found to have ended; anything done adds exactly one audit row, of its kind and by the caller, and changes no request, token or release but those it is about. |
| `GovernanceAudit.AuditLogTellsAll` | src/intent_routing/api/admin.py:4768-5069 | Over every run the audit log tells of each request its whole story, once and in order: by whom and when it was asked for and decided, that and by whom its token was issued, and that it was found to have ended; it has no such row for anything else. |
| `GovernanceStore.Store.RejectRequest` | src/intent_routing/db/repositories.py:1485-1508 | A rejection is assigned before its reason is looked at: refused for a blank reason, and for nothing else, it leaves the record saying rejected, to be rolled back. |
| `GovernanceStore.Store.IssueViewToken` | src/intent_routing/db/repositories.py:1510-1548 | The status is assigned before the issuer and the hash are looked at: refused for one of these, and for nothing else, it leaves the request saying token_issued without a token, to be rolled back. |
| `GovernanceStore.Store.ExpireViewTokens` | src/intent_routing/db/repositories.py:1635-1653 | Sweeping token by token, in any order, gives the specified sweep. |
| `GovernanceStore.Store.SetActive` | src/intent_routing/db/repositories.py:2381-2398 | Clearing the flags of the environment and setting one gives the specified releases. |
| `GovernedEndpoints.RejectRawQueryViewRequest` | src/intent_routing/api/admin.py:4868-4915 | Whatever the session was left with, a refusal leaves the committed records as they were; a rejection adds exactly one audit row and changes nothing but its request. |
| `GovernedEndpoints.IssueRawQueryViewToken` | src/intent_routing/api/admin.py:4922-4976 | Whatever the session was left with, a refusal leaves the committed records as they were; an issue commits the token specified, adds exactly one audit row and changes nothing but its request and its token. |
| `GovernedEndpoints.DecryptRawRuntimeQuery` | src/intent_routing/api/admin.py:4983-5069 | The token is consumed first; where a later check fails the consumption is rolled back, while an expiry found is committed together with the refusal. |
| `GovernedEndpoints.RejectPublishRequest` | src/intent_routing/api/admin.py:6118-6163 | As for view requests, with the right to decide on publishing. |
| `GovernedEndpoints.ActivatePublishRequest` | src/intent_routing/api/admin.py:6170-6216 | Release flags, status and one audit row are committed together and nothing else changes; for a request that is not approved or a release that is gone nothing is committed. |
| `OwnershipTheorems.EnsureRoleMeaning` | src/intent_routing/db/repositories.py:1101-1137 | Giving a role keeps one holder at most: system_admin is given only where nobody else has it. |
| `OwnershipTheorems.BootstrapMeaning` | src/intent_routing/api/admin_auth.py:161-199 | Bootstrap succeeds only without a holder and then makes the new user the one holder, able to log in. |
| `OwnershipTheorems.StartupMeaning` | src/intent_routing/security/admin_provisioning.py:56-128 | Startup never moves the role; where it succeeds there is exactly one holder. |
| `OwnershipTheorems.StartupLocksOutIff` | src/intent_routing/security/admin_provisioning.py:79-122 | With no holder yet, exactly when startup succeeds; and it leaves nobody who holds the role and can log in exactly if the configured e-mail belongs to a user who cannot, disabled or switched off in the directory. |
| `OwnershipTheorems.StartupPicksLockedOutUser` | src/intent_routing/security/admin_provisioning.py:99-122 | Both happen: a disabled account, and an active one whose directory entry is switched off. |
| `OwnershipTheorems.CreateManagedMeaning` | src/intent_routing/api/admin.py:3650-3728 | Creating a user never touches the holder; asking for system_admin while there is one fails as a whole. |
| `OwnershipTheorems.ApproveAccessMeaning` | src/intent_routing/api/admin.py:3491-3591 | Approving an access request changes neither the holder nor who can log in among holders. |
| `OwnershipTheorems.PatchedMeaning` | src/intent_routing/api/admin.py:3769-3818 | What a patch that passed its checks does to the holders, in terms of the roles asked for. |
| `OwnershipTheorems.PatchKeepsHolder` | src/intent_routing/api/admin.py:3732-3887 | By a current caller, no patch moves, loses or locks out the holder. |
| `OwnershipTheorems.PatchOfHolderSucceedsIff` | src/intent_routing/api/admin.py:3732-3887 | What a patch of the holder by somebody else needs to succeed, read off before the call: admitted as system_admin, e-mail free, a linked entry usable where the account is set active. |
| `OwnershipTheorems.PatchLosesHolderIff` | src/intent_routing/api/admin.py:3732-3887 | Whoever calls, a patch leaves nobody with the role exactly if it is such a patch of the holder and leaves the role out; any other leaves the role where it is. |
| `OwnershipTheorems.StaleCallerLosesHolder` | src/intent_routing/api/admin.py:1509-1519 | A caller who is no longer the holder gets past the guard and can leave nobody with the role. |
| `OwnershipTheorems.GuardLeavesAHolder` | src/intent_routing/api/admin.py:1509-1519 | However many users hold the role, a patch by a current holder leaves one who can log in. |
| `OwnershipTheorems.TransferMeaning` | src/intent_routing/api/admin.py:3891-3971 | A transfer makes the target, who can log in, the one holder and swaps the two users' roles; any refusal changes nothing. |
| `OwnershipTheorems.SwitchLocksOutIff` | src/intent_routing/db/repositories.py:1180-1200 | Switching an organization user locks the holder out exactly if it switches off the holder's own entry. |
| `OwnershipTheorems.StepKeepsInv` | src/intent_routing/api/admin.py:3732-3971 | Whoever calls, each ownership step keeps one holder at most. |
| `OwnershipTheorems.StepLosesHolderIff` | src/intent_routing/api/admin.py:3732-3971 | Where there is a holder, a step leaves none exactly if it is a patch that takes the role from them; otherwise the holder stays, except that a transfer moves the role to its target. |
| `OwnershipTheorems.CurrentCallerTakesNothing` | src/intent_routing/api/admin.py:1509-1519 | A patch by a caller whose session is current is never of that kind. |
| `OwnershipTheorems.StepLocksOutIff` | src/intent_routing/api/admin.py:3732-3971 | Where the holder can log in, a step leaves no such user exactly if it is a patch by somebody else that takes the role from the holder or disables them, or switches off their directory entry. |
| `OwnershipTheorems.RunKeepsInv` | src/intent_routing/api/admin.py:3732-3971 | Over every run, of any calls by anyone, there is never more than one holder. |
| `OwnershipTheorems.RunKeepsHolderIff` | src/intent_routing/api/admin.py:3732-3971 | Once there is a holder, there is one at every later moment of a run exactly if no step of it is a patch that takes the role from the holder. |
| `OwnershipReplies.BootstrapSucceedsIff` | src/intent_routing/api/admin_auth.py:161-199 | Exactly when bootstrap succeeds, and the user and role it leaves. |
| `OwnershipReplies.StartupSucceedsIff` | src/intent_routing/security/admin_provisioning.py:56-128 | Exactly when startup succeeds, and whom it makes the holder. |
| `OwnershipReplies.CreateManagedSucceedsIff` | src/intent_routing/api/admin.py:3650-3728 | Exactly when a managed user is created, and the user and the roles it leaves. |
| `OwnershipReplies.ApproveAccessSucceedsIff` | src/intent_routing/api/admin.py:3491-3591 | Exactly when an access request is approved, and the entry, the account and the role it leaves. |
| `OwnershipReplies.PatchSucceedsIff` | src/intent_routing/api/admin.py:3732-3887 | Exactly when a patch succeeds, for any caller and user. |
| `OwnershipReplies.PatchLeaves` | src/intent_routing/api/admin.py:3732-3887 | A patch leaves the status and e-mail given, exactly the roles given, and everything else as it was; a refused one changes nothing. |
| `OwnershipReplies.TransferSucceedsIff` | src/intent_routing/api/admin.py:3891-3971 | Exactly when a transfer succeeds: the holder themselves, to another active user with a usable link who is an application_admin. |
| `OwnershipStore.AdminStore.GiveRole` | src/intent_routing/db/repositories.py:1125-1137 | The role is given as specified, and no flush sees two holders. |
| `OwnershipStore.AdminStore.TakeRole` | src/intent_routing/db/repositories.py:1163-1178 | The role is taken as specified, and no flush sees two holders. |
| `OwnershipStore.AdminStore.ChangeUser` | src/intent_routing/db/repositories.py:1049-1074 | The user's fields change as specified, keeping e-mail addresses unique. |
| `OwnershipEndpoints.BootstrapAdmin` | src/intent_routing/api/admin_auth.py:161-199 | The first holder is created with its role in one transaction, or nothing is; no flush sees two holders. |
| `OwnershipEndpoints.ConfigureStartupSystemAdmin` | src/intent_routing/security/admin_provisioning.py:56-128 | Startup provisioning does what is specified, never flushing two holders, and leaves nothing of a refusal. |
| `OwnershipEndpoints.CreateManagedAdminUser` | src/intent_routing/api/admin.py:3650-3728 | Creating a managed user, with its roles, does what is specified or leaves nothing; no flush sees two holders. |
| `OwnershipEndpoints.ApproveAdminAccessRequest` | src/intent_routing/api/admin.py:3491-3591 | Organization user, account and role are created together or not at all; no flush sees two holders. |
| `OwnershipEndpoints.PatchManagedAdminUser` | src/intent_routing/api/admin.py:3732-3887 | Checks, fields, roles given, roles taken: all of it or nothing; no flush sees two holders. |
| `OwnershipEndpoints.TransferSystemAdmin` | src/intent_routing/api/admin.py:3891-3971 | The source loses the role before the target gets it, so no flush sees two holders; a refusal undoes all of it. |
| `CatalogTheorems.LoadMeaning` | src/intent_routing/api/admin.py:5577-5679 | After a load the service's intents are exactly the snapshot's, as drafts, changed by the actor now and made by whoever made them before; its examples are exactly the stored ones with their envelopes, unapproved, without embedding or test case, made by the actor now; other services are untouched and no example refers to a missing intent. |
| `CatalogTheorems.LoadSucceedsIff` | src/intent_routing/api/admin.py:5577-5679 | A load succeeds exactly if no example that stays hangs on an intent that goes, each snapshot intent finds its route key free in its turn, and every stored example names a snapshot intent and an id no other service uses. |
| `CatalogTheorems.SwappedRoutesFail` | src/intent_routing/api/admin.py:5610-5635 | A snapshot that swaps the route keys of two live intents cannot be loaded. |
| `CatalogTheorems.SecondLoad` | src/intent_routing/api/admin.py:5577-5679 | Loading the same snapshot again succeeds exactly if no item asks for a route key another intent has by then, a condition on the snapshot alone, and changes nothing but who did it last, and when. |
| `CatalogTheorems.DistinctIsReloadable` | src/intent_routing/api/admin.py:5592-5635 | A snapshot of different intents that could be loaded once can be loaded again. |
| `CatalogTheorems.RepeatedIntentLoadsOnce` | src/intent_routing/api/admin.py:5610-5635 | The condition matters: a snapshot that listed an intent twice, which the program never takes, loads into an empty service once and then never again. |
| `CatalogVersions.SnapshotRoundTrip` | src/intent_routing/versions/catalogs.py:177-206 | Where the stored rows are just the snapshot's examples, a loaded snapshot is at once the snapshot of what it made of the service. |
| `CatalogVersions.VersionIsContent` | src/intent_routing/versions/catalogs.py:87-137 | A created version tells exactly the content of its service: two catalogs have it in common if and only if they have the same intents with the same fields and the same examples with the same envelopes. |
| `CatalogVersions.LoadRestoresOrigin` | src/intent_routing/api/admin.py:5577-5679 | Whatever the tables hold by now, loading a version restores the content it was created from, and a version created right after is the same one again. |
| `CatalogVersions.CreatedVersionLoadsIff` | src/intent_routing/api/admin.py:5577-5679 | A created version loads exactly if no stored example that is still there hangs on an intent it lacks, no intent listed later holds live the route key of one listed earlier, and no other service has taken an example id. |
| `CatalogVersions.LoadAtOnce` | src/intent_routing/api/admin.py:5577-5679 | Loaded at once, before anything else changed, it always loads and changes no content. |
| `CatalogVersions.SnapshotIsUnique` | src/intent_routing/versions/catalogs.py:177-206 | A catalog has one snapshot only, so it is the one the program stores. |
| `CatalogStore.Tables.CreateCatalogVersion` | src/intent_routing/versions/catalogs.py:52-137 | The loops over the listed intents and examples build the snapshot of the service, whatever the status of its intents and approved or not, and one row with the envelope of each example. |
| `CatalogDraft.DraftItemsMeaning` | src/intent_routing/api/admin.py:5610-5635 | Drafting the items leaves each listed intent a draft with the fields of its last item, keeping who made it, and every other as it was, with unique route keys. |
| `CatalogDraft.RestoreRowsMeaning` | src/intent_routing/api/admin.py:5636-5663 | Restoring the rows leaves each listed example as its last row says, unapproved, without embedding or test case, and every other as it was. |
| `CatalogStore.Tables.DeleteExamples` | src/intent_routing/api/admin.py:5604-5606 | Exactly the service's examples that are not stored are deleted. |
| `CatalogStore.Tables.DeleteIntents` | src/intent_routing/api/admin.py:5607-5609 | Exactly the service's intents that are not listed are deleted, unless an example still refers to one. |
| `CatalogStore.Tables.LoadCatalogVersionToDraft` | src/intent_routing/api/admin.py:5577-5679 | The four loops, one after the other, do the specified load, or nothing. |
| `Scoring.AcceptedPolicyIsOrdered` | src/intent_routing/api/admin.py:809-827 | Every policy the endpoint accepts gives a configuration whose bars are ordered as the decision table needs; the defaults are accepted with every preset. |
| `Scoring.IntentConfidence` | src/intent_routing/routing/scoring.py:126-150 | Every confidence lies between 0 and 1. |
| `Scoring.ConfidenceInFigures` | src/intent_routing/routing/scoring.py:126-150 | The confidence in figures: greatest positive similarity, 0.02 up for each of four matching keywords, 0.03 down for each of four excluded ones, half of what the greatest negative similarity is above 0.55, cut off at 0 and 1. |
| `Scoring.EffectsAreBounded` | src/intent_routing/routing/scoring.py:126-150 | Keywords move a confidence by 0.08 up and 0.12 down at most, reached by four matches; a negative example counts only above 0.55. |
| `Scoring.MorePositivesRaise` | src/intent_routing/routing/scoring.py:126-150 | More positive evidence of non-negative similarity never lowers a confidence. |
| `Scoring.MorePositivesLowerIff` | src/intent_routing/routing/scoring.py:126-150 | A further positive row lowers the positive score exactly if it is the first and its similarity is negative. |
| `Scoring.MoreNegativesLower` | src/intent_routing/routing/scoring.py:126-150 | More negative evidence never raises a confidence. |
| `Scoring.RankedIsStableSort` | src/intent_routing/routing/scoring.py:159-175 | The ranking is a descending rearrangement that keeps the order of equals. |
| `Scoring.StableSortIsUnique` | src/intent_routing/routing/scoring.py:159-175 | There is only one such ranking, so any stable sort gives it. |
| `Scoring.ConfidentIffWinner` | src/intent_routing/routing/scoring.py:159-268 | With a positive clarify margin the decision is confident exactly if some candidate is allowed, reaches both bars and beats every other candidate and 0 by the margin, whatever the order; and it is that candidate. |
| `Scoring.WithoutMarginRoutesIff` | src/intent_routing/routing/scoring.py:159-268 | With a margin of zero, some order of the candidates routes to a given one exactly if it is allowed, reaches both bars and none is better. |
| `Scoring.WithoutMarginOrderIsIgnoredIff` | src/intent_routing/routing/scoring.py:159-268 | With a margin of zero, the intent answered does not depend on the order exactly if all the best candidates, put first, give the same: one intent, all of them passing, or none passing. |
| `Scoring.WithoutMarginOrderDecides` | src/intent_routing/routing/scoring.py:159-268 | It can depend on it: one pair of candidates and a policy for which two orders route to two intents. |
| `Scoring.DecisionTable` | src/intent_routing/routing/scoring.py:159-268 | For every accepted policy, its margin zero or not, exactly when each decision of the ladder is taken. |
| `Scoring.ReasonTable` | src/intent_routing/routing/scoring.py:159-361 | For every accepted policy, exactly when each reason is given. |
| `Scoring.PayloadMeaning` | src/intent_routing/routing/scoring.py:159-361 | What every decision carries of the ranking; intent and route key only if it is confident. |
| `Scoring.ScopeMeaning` | src/intent_routing/routing/scoring.py:390-407 | Which candidates a call's sets, or else the composer's, allow; an empty set is no limit. |
| `Scoring.ClarifyPayload` | src/intent_routing/routing/scoring.py:294-334 | Offered for clarification is exactly the part of the ranking that reaches the candidate floor, as far as the maximum allows, and at least one; without clarification nothing is. |
| `Scoring.ComposeIsRobust` | src/intent_routing/routing/scoring.py:159-268 | The confident candidate stays confident when it gains and the others lose confidence. |
| `Routing.KeywordMatchCount` | src/intent_routing/routing/engine.py:212-218 | The loop counts the keywords that match. |
| `Routing.SemanticMatches` | src/intent_routing/api/runtime.py:387-409 | Grouping keeps, for each candidate, its positive and its negative similarities in order, and drops all other rows. |
| `Routing.GroupedSuffices` | src/intent_routing/routing/engine.py:178-210 | An intent missing from the groups has no rows, so scoring it with two empty lists is right. |
| `Routing.MatchCountMeaning` | src/intent_routing/routing/engine.py:212-218 | The count is the number of keywords that match. |
| `Routing.ScoredMeaning` | src/intent_routing/routing/engine.py:178-210 | Each candidate is ranked under its own names, with a confidence in figures from its own rows and keywords. |
| `Routing.RouteMeaning` | src/intent_routing/routing/engine.py:100-176 | Which part of the engine answers: risk exactly for a risky query, before any candidate is looked at; else a confident decision of the ladder; else off-topic exactly where that policy matches; else the decision of the ladder. |
| `Routing.ScopeOnlyWithholds` | src/intent_routing/routing/engine.py:100-148 | A key's scope can withhold a route, never change it. |
| `Routing.ConfidentUnderScope` | src/intent_routing/routing/scoring.py:390-407 | A confident route is withheld exactly if the scope excludes its intent or its route key. |
| `Routing.ConfidentIsRobust` | src/intent_routing/routing/engine.py:100-210 | A further positive row for the winner, of non-negative similarity, or a negative one for any other intent keeps the same confident route, through grouping, scoring and the ladder. |
| `CaseFiles.ParseLine` | src/intent_routing/testing/csv_runner.py:144-216 | A line is a case exactly if it has no cell too many, its required cells are not blank, its type is known, an intent stands exactly where one is expected, and its id is new; the case has its cells without blanks and an intent exactly if it expects a confident route. |
| `CaseFiles.ExpectedByType` | src/intent_routing/testing/csv_runner.py:23-34 | The decision a case expects, from the type written in the file; and its id, query, memo and intent as written. |
| `CaseFiles.ParseCases` | src/intent_routing/testing/csv_runner.py:144-216 | A file is read exactly if it has a line and all are such; then case by case in order. Otherwise the error is that of the first line with a fault. |
| `CaseFiles.HydrateExpectedRouteKeys` | src/intent_routing/testing/csv_runner.py:114-141 | Route keys are filled in from the catalog exactly if it knows every expected intent; otherwise the error names the first case whose intent it lacks. |
| `Routing.PassedCaseIsServed` | src/intent_routing/testing/csv_runner.py:506-569 | A case that passed with an expected intent is answered at runtime with that intent and the tested route key under every key whose scope allows both, and withheld under every other. |
| `Routing.ServedWasTestable` | src/intent_routing/api/runtime.py:442-462 | No key is served an intent or a route key that the test run would not have produced. |
| `Routing.VerdictMeaning` | src/intent_routing/testing/csv_runner.py:539-569 | REVIEW is a clarification nobody asked for; PASS is the decision the type of the case asks for, with the expected intent and its catalog route key; nothing else passes. |
| `Routing.PassedRefusalIsServed` | src/intent_routing/routing/engine.py:100-148 | A query that passed as a risk, or as off topic, is answered so under every key. |
| `RiskPack.MergeTestCases` | src/intent_routing/testing/risk_pack.py:104-114 | The merged cases are all cases, exactly if all ids differ; otherwise the first repeated id is reported. |
| `Gate.GateMeaning` | src/intent_routing/testing/gate.py:26-58 | The gate opens exactly for at least 70% passes, some risk case, and every risk case passed. |
| `Gate.GateIgnoresOrder` | src/intent_routing/testing/csv_runner.py:572-587 | The gate does not depend on the order of the results. |
| `Gate.JudgesAgree` | src/intent_routing/api/admin.py:6315-6334 | Recomputing the gate from the stored results in any order gives the stored one; a run is eligible exactly if no reason blocks it, exactly if the gate passed and no release exists; the required-preset gate gives the same verdict. |
| `Gate.PassedGateRates` | src/intent_routing/ops/quality_gate.py:17-42 | A passed gate clears the required preset's own bars. |
| `Baseline.FreezeIgnoresRowOrder` | src/intent_routing/ops/csv_baseline.py:46-71 | The frozen baseline does not depend on the order of the report. |
| `Baseline.FrozenParts` | src/intent_routing/ops/csv_baseline.py:46-71 | Exactly when a report freezes, and what is frozen: its rates, no allowances, and its rows by case id. |
| `Baseline.CompareBaseline` | src/intent_routing/ops/csv_baseline.py:73-196 | The loop fills the lists of the specified comparison. |
| `Baseline.ComparisonMeaning` | src/intent_routing/ops/csv_baseline.py:73-196 | What a comparison says: which cases each list names, with the frozen and the current value; which are missing; and each reason exactly where it applies. |
| `Baseline.AcceptedMeaning` | src/intent_routing/ops/csv_baseline.py:73-196 | A report is accepted exactly if its rates reach the baseline's, the file is the same, and every frozen case is there, unchanged in decision, intent and route key and not fallen from PASS. |
| `Baseline.AcceptanceIsReflexive` | src/intent_routing/ops/csv_baseline.py:46-196 | A report passes against its own baseline exactly if each row is repeated by the last row of its case id, so always if case ids differ. |
| `Baseline.AcceptanceIsTransitive` | src/intent_routing/ops/csv_baseline.py:46-196 | What passes against the baseline of an accepted report passes against the first baseline. |
| `Baseline.UngradedResultBreaksTheChain` | src/intent_routing/ops/csv_baseline.py:73-196 | Through a report with any other result than PASS, REVIEW or FAIL, acceptance does not chain. |
| `PiiMasking.MaskPiiIsComplete` | src/intent_routing/security/pii.py:6-10 | For every text, the output contains no resident number and no account number anywhere. |
| `PiiMasking.PassCreatesNoMatch` | src/intent_routing/security/pii.py:6-10 | No pass creates a match of another pattern. |
| `PiiMasking.MaskStars` | src/intent_routing/security/pii.py:6-10 | A pass keeps every position and only writes stars, in the tails of matches. |
| `PiiMasking.MatchIsStarred` | src/intent_routing/security/pii.py:6-10 | Every match of the input, overlapped or not, gets a star. |
| `PiiMasking.TakesIff` | src/intent_routing/security/pii.py:6-10 | A pass takes exactly the matches that do not start inside one taken before. |
| `PiiMasking.ResidentIsMasked` | src/intent_routing/security/pii.py:8 | Of a resident number that is taken the first eight characters stay and the other six are stars. |
| `PiiMasking.AccountIsMasked` | src/intent_routing/security/pii.py:9 | Of an account number that is taken the first seven characters stay and the other five are stars. |
| `PiiMasking.OutsideIsUnchanged` | src/intent_routing/security/pii.py:8-9 | Whatever lies in no number that is taken stays as it is. |
| `PiiMasking.PhoneIsMasked` | src/intent_routing/security/pii.py:10 | Of a phone number that is taken the first four and last five characters stay around four stars; any other character the pass stands at stays. |
| `PiiMasking.PhoneLength` | src/intent_routing/security/pii.py:10 | The output is longer by one for each number with three middle digits, and no longer. |
| `PiiMasking.LoneNumber` | src/intent_routing/security/pii.py:6-10 | A text that is one number is masked from end to end as its pattern says, through all three passes. |
| `PiiMasking.MaskedTexts` | src/intent_routing/security/pii.py:6-10 | So four texts, one of each kind. |
| `PiiMasking.PhoneSurvivesIffSkipped` | src/intent_routing/security/pii.py:6-10 | A phone number is left in the output exactly if the left-to-right pass skips one that starts in the last digits of another and is not cut by a third. |
| `PiiMasking.PhoneCanSurvive` | src/intent_routing/security/pii.py:6-10 | One text for which that happens. |
| `PiiMasking.CleanTextIsUnchanged` | src/intent_routing/security/pii.py:6-10 | A text without any of the three kinds of number is returned as it is. |

## Left out

- Encryption.EncryptorRoundTrip: AES-GCM, base64 and UTF-8 are uninterpreted; nothing is said about envelopes that were tampered with, and a context is taken in its encoded form.
- Encryption.FromValues: the environment variables the values come from are not part of the model.
- RewrapJob.ProcessCandidates: the candidates are taken to be different records, as the listing returns them.
- RewrapJob.RunRawTextRewrap: the command line, the run id, the written reports and the approval's own checks are not modelled; a run is one serial transaction.
- RawTextRepository.Repository.ListIntentExamplesForRewrap: the order of a table is the order in which it lists its records; that it is by creation time is not used.
- Retention.PlanRedaction: times are whole seconds.
- Lifecycle.RunKeeps: steps are serial; edits of examples may be anything that leaves complete envelopes, and stored catalog versions, whose envelopes are never rewrapped, are not among the tables (`KeyRetirement` says what a load then does).
- GovernanceRuns.StepKeeps: tokens are keyed by their hash; request ids and hashes are inputs; releases are not created here, and rollback of a release is left out.
- GovernedEndpoints.DecryptRawRuntimeQuery: what the log gives on decryption is an input here; `Lifecycle` connects it with the stored rows.
- OwnershipTheorems.StepLosesHolderIff: passwords, sessions and the bootstrap token are not modelled; a step is atomic, and a caller is current if they still hold the role when it happens.
- OwnershipEndpoints.ApproveAdminAccessRequest: the request record and the department are one yes-or-no input.
- CatalogTheorems.LoadMeaning: malformed snapshot entries, which the program skips, are taken to be absent, and missing fields to be filled with their defaults.
- CatalogVersions.LoadRestoresOrigin: the examples of an intent are compared as a set; a load gives them one creation time, so their order may change. Embeddings, display numbers and the vector index of a version are left out.
- CaseFiles.ParseCases: splitting a file into cells, and telling its format by the header, are inputs; risk files go through the same loop with their own columns.
- Scoring.ConfidentIffWinner: numbers are reals, without rounding.
- Routing.SemanticMatches: embedding and vector search are outside; a query comes with the rows the search returned. Keyword matching is an uninterpreted predicate.
- Baseline.CompareBaseline: file hashes are inputs; sorting the frozen cases is a function, not a sort in place.
- PiiMasking.MaskPiiIsComplete: the digit class is any that contains the ASCII digits and neither '-' nor '*'.
- HTTP, request validation, rendering of reports, SQL, the directory of organizations and the console are plumbing and left out; queries are filters, orders and limits over the stored rows.
- API keys, evidence redaction, metrics and the pilot scripts would add easy members only.
