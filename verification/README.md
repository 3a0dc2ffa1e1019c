# Verified model of the cluster limiter, snapshot, billing and coordination code

This project states in Dafny what four parts of the CLIProxyAPI Home server do with their shared
tables and values, and proves what they promise.

* **In-flight snapshots.** A CPA node sends a revision of its in-flight requests as numbered parts.
  Parts are staged row by row, with a part count and a byte count that are kept incrementally, and the last
  part publishes the assembled snapshot or rejects the revision. Any order and any repetition of the same valid parts
  ends in the same rows. A paginated cursor store serves stable views of the result.
  (`InFlightFrames`, `InFlightIngest`, `InFlightRuns`, `InFlightVerdicts`, `InFlightConfluence`, `SnapshotRows`, `SnapshotCursor`, `SnapshotHistory`)
* **Credential concurrency limiter.** Admissions count requests against the limits of a policy, releases are
  cumulative, and policies and Home processes meet at one activation gate.
  (`Limiter`, `LimiterProtocol`, `LimiterReleases`, `LimiterTables`, `LimiterLaws`, `PolicyPatch`, `HomeIncarnations`, `ActivationProtocol`)
* **Pricing.** A lexer, a precedence-climbing parser and an evaluator for pricing expressions; the scaling of an
  expression at source level; the carving and folding of token buckets; the choice of a price rule; the column
  charge, the credit ledger and price imports.
  (`BillingLexer`, `BillingSyntax`, `BillingParser`, `BillingCompile`, `BillingProgram`, `BillingPrinter`, `BillingEval`, `BillingLaws`,
  `BillingScaling`, `BillingCarving`, `BillingFolding`, `BillingTokens`, `BillingMarginal`, `BillingCharge`, `PriceMatch`, `BillingLedger`, `PriceRules`, `PriceImport`)
* **Coordination.** Master election, the race between lease timers and notifications, the coalescing refresh
  scheduler, and the batched permission index of an API key.
  (`Election`, `MasterNotification`, `SnapshotScheduler`, `AccessIndex`, `ModelKeys`, `ModelAccess`, `AccessMeaning`)

`Wrappers`, `TableSums`, `TokenTotals` and `TextOrder` hold what the others share. `dafny verify dfyconfig.toml` checks everything.

## How it is modelled

Rows are maps in Dafny classes. A transaction is one method that changes the fields it names; its postcondition ties
the new rows to the old ones through a function or a relation, and the lemmas are about that: what it keeps over every run, and
what it answers in terms that do not use it (`InFlightVerdicts`, `LimiterLaws`, `BillingLaws`, `AccessMeaning`). Where a row lock carries the
argument (`LimiterProtocol`, `ActivationProtocol`) or threads interleave (`MasterNotification`), a state machine takes
the steps one by one and the lock holder is part of the state; `SnapshotScheduler.Scheduler` is called in any order.

Assumptions, each made once:

* Database time and process time never go backwards; identifiers that are generated are new.
* Keys that are built by helpers (`rebalanceHomeKey`, `nodeSortKey`, hashes) are injective, so the model uses what they are built from.
* JSON decoding is a deterministic function of the bytes (`InFlightFrames.Codec`); Unicode classes, `strconv.ParseFloat`, time
  zones and case folding are functions of the language's runtime (`BillingLexer.Runtime`).
* `MaxPartCount` is positive and at most 2^39 - 1, so that with parts of at most 16 MiB the byte sum stays within int64.
* Lowercasing works character by character, is idempotent and leaves parentheses and spaces apart from other characters.
* Money is in units of 1e-8 dollars and prices and expression values are real numbers. Strings are sequences of Unicode characters.

Where the code does less than one may expect, the model follows the code and says exactly when:

* Scaling an expression keeps its meaning if the original compiles, and compiles exactly if one more nesting level and the
  new length fit the limits (`ScalingPreservesMeaning`). The scaled source compiles to a product exactly if the body has the
  tokens of a tree and the whole fits, so for a source within the length limit only if the original compiles
  (`ScaledCompiles`). A body that does not compile may still compile once scaled, but not to a product of it (`ScalingRepairs`).
* The batched access index looks a model's channels up under the key of its key. It agrees with the resolver on a model
  exactly if its key is its own key or empty or no detail of its key binds channels (`IndexExact`), and on every model exactly if no
  bound detail is stored under a name with two suffixes left (`AlwaysIndexable`). Storing strips one suffix, so such
  details come from names with three (`ThreeSuffixes`). The catalog policy still agrees with dispatch on such a model unless the model is
  listed (`CatalogExact`), which takes another detail with one suffix more (`LooseModels`, `SuffixesOfM`); then it shows
  the model without its channel restriction.
* A callback that is set while the node already knows its role ends up with the current value exactly if the notification of
  that role was still waiting or the role changed afterwards, and is told nothing otherwise (`Told`, `FirstCallback`); one
  that is there from the start always ends with the current value (`LastDelivered`).

## Model

| member | source | states |
|---|---|---|
| InFlightFrames.AggregatesAccepted | internal/cluster/in_flight_ingest.go:764-798 | aggregates are accepted if and only if every text and count is valid, no two share credential, model and status, and the counts sum within int64 |
| InFlightFrames.PayloadAccepted | internal/cluster/in_flight_ingest.go:764-798 | the complete-payload validation accepts exactly the publishable payloads |
| InFlightFrames.ValidateComplete | internal/cluster/in_flight_ingest.go:764-798 | the validation loops, with their seen set and totals map, answer no error exactly for publishable payloads and otherwise the error of the first violation |
| InFlightFrames.CompletePayload | internal/cluster/in_flight_ingest.go:724-762 | assembly answers the concatenation of the parts in index order or the error the checks call for; what it answers is publishable |
| InFlightFrames.ConcatenatedFlat | internal/cluster/in_flight_ingest.go:732-752 | what assembly concatenates is the aggregates and the details of all frames, frame after frame in row order |
| InFlightFrames.EncodedFlat | internal/cluster/in_flight_ingest.go:807-817 | the encoded size is the length of all payloads together |
| InFlightFrames.FirstFault | internal/cluster/in_flight_ingest.go:768-789 | the error reported for aggregates is that of the first entry that has one: an overflow exactly for a usable, unrepeated entry whose count is negative or takes the sum beyond int64 |
| InFlightIngest.QueryParts | internal/cluster/in_flight_ingest.go:540-565 | the completion query lists exactly the staged parts of the revision by ascending index |
| InFlightIngest.ListsUnique | internal/cluster/in_flight_ingest.go:540-565 | that query has one answer |
| InFlightIngest.InFlightRows.RejectAttempt | internal/cluster/in_flight_ingest.go:819-836 | rejection zeroes the incremental counts and deletes the revision's parts, leaving the visible snapshot |
| InFlightIngest.InFlightRows.StagePartRow | internal/cluster/in_flight_ingest.go:484-596 | staging one part changes the three kinds of rows exactly as the staging function says: replay, conflict, mismatch, overflow, progress, publication or rejection |
| InFlightIngest.InFlightRows.StageFrameRow | internal/cluster/in_flight_ingest.go:408-482 | a frame starts, continues, overflows or is stale for the attempt as the frame function says, in every attempt state |
| InFlightIngest.InFlightRows.MarkRejectedRow | internal/cluster/in_flight_ingest.go:619-667 | an undecodable frame uses up its revision, by state and by order |
| InFlightIngest.InFlightRows.IngestFrame | internal/cluster/in_flight_ingest.go:40-100 | one delivery of raw bytes leaves the rows and the outcome the ingest function gives |
| InFlightRuns.IngestKeepsInv | internal/cluster/in_flight_ingest.go:408-667 | every delivery keeps: staging rows count and weigh exactly the staged parts of the highest revision, rejected and overflowed attempts have none, a complete attempt is the visible revision; and a settled revision does not change |
| InFlightRuns.RunSafety | internal/cluster/in_flight_ingest.go:408-667 | over every run, under limits that may change per frame: the invariant holds, the highest revision never falls, published revisions strictly increase, no rejected or overflowed revision is published, and the last published one is visible |
| InFlightRuns.LastPartFills | internal/cluster/in_flight_ingest.go:526-565 | pigeonhole: when the incremental count reaches the part count, the staged indices are exactly 0 to count - 1, every row is good, and their bytes are the incremental sum, within int64 |
| InFlightRuns.LastPartCompletes | internal/cluster/in_flight_ingest.go:526-595 | so at completion under unchanged limits no length, index, metadata or sum check can fail: the outcome is decided by payload validation alone |
| InFlightVerdicts.IngestVerdict | internal/cluster/in_flight_ingest.go:40-667 | for every byte string and every state that can be reached, what the delivery leaves and answers: ignored as stale or conflicting, known already, rejected with its cause and no parts left, stored beside the others, published or overflowed, each exactly under its condition |
| InFlightVerdicts.StageVerdict | internal/cluster/in_flight_ingest.go:408-596 | the same for a strict frame: in the attempt that is staging, other bytes at a staged index reject the revision with a conflict, equal bytes change nothing, and a part that does not fit the first one is invalid |
| InFlightVerdicts.PartArrives | internal/cluster/in_flight_ingest.go:501-596 | a part that was not there is stored with its bytes, and the last one publishes under the metadata of its frame or rejects the revision |
| InFlightVerdicts.ConflictEnds | internal/cluster/in_flight_ingest.go:487-500 | a valid part with other bytes than those staged at its index rejects the revision, drops its parts, leaves the visible snapshot, answers a revision conflict, and in no later run is the revision published |
| InFlightVerdicts.NeverPublished | internal/cluster/in_flight_ingest.go:408-667 | a revision that was rejected for any cause is not published by any later run |
| InFlightVerdicts.StrictExactly | internal/cluster/in_flight_ingest.go:363-406 | a frame passes the strict decoder if and only if it decodes and meets every limit of the list |
| InFlightConfluence.DeliverOne | internal/cluster/in_flight_ingest.go:484-596 | delivering part i after any set of parts reaches the rows given in closed form for the set with i |
| InFlightConfluence.Confluence | internal/cluster/in_flight_ingest.go:484-596 | two deliveries of the same valid parts of a new revision, in any orders, with any repetitions, at any times, end in the same attempt, parts and snapshot |
| InFlightConfluence.WholeDelivery | internal/cluster/in_flight_ingest.go:724-762 | once every part has arrived, the snapshot published has the aggregates and details of all frames, part after part, if and only if the bytes together fit the limit and it is publishable; otherwise the revision is rejected and the old snapshot stays |
| SnapshotCursor.Store.Create | internal/cluster/in_flight_cursor.go:51-109 | a capture is written completely under a new cursor, after one cleanup pass; for a lifetime that is not positive, a repeated observed credential, state or model, or a lifetime that is over by the time it is written, nothing changes and the pass is undone; every other capture stays what it is |
| SnapshotCursor.Store.BuildObserved | internal/cluster/in_flight_cursor.go:169-195 | the rows of the observed credentials, refused exactly if one repeats |
| SnapshotCursor.Store.BuildStates | internal/cluster/in_flight_cursor.go:197-268 | the rows of the limiter states and of their models, refused exactly if a credential or a model of one state repeats |
| SnapshotCursor.Store.NumberItems | internal/cluster/in_flight_cursor.go:134-167 | the nested batch loops write every detail once, numbered by its position |
| SnapshotCursor.Store.ReadPage | internal/cluster/in_flight_cursor.go:272-390 | a read succeeds exactly for an unexpired cursor with its own filters and a proper page, and then returns that page of the capture; the integrity errors cannot occur, and nothing changes |
| SnapshotCursor.CommitsKeep | internal/cluster/in_flight_cursor.go:51-390 | every transaction keeps unexpired cursors complete and every capture unchanged |
| SnapshotHistory.ReadsRebuild | internal/cluster/in_flight_cursor.go:272-390 | over every history of creations, cleanups and reads: successful reads of a cursor, each from where the one before it ended, whatever committed in between, give the beginning of the one capture made under it, and all of it exactly if they asked for that much |
| SnapshotHistory.ReadSucceeds | internal/cluster/in_flight_cursor.go:284-319 | over every history a read of a cursor succeeds exactly if it comes after the creation and before the expiry, with the filters of the creation and a proper page |
| SnapshotCursor.Store.DeletePair | internal/cluster/in_flight_cursor.go:557-590 | a later child table loses rows only after the earlier one is empty, and the rows removed are counted |
| SnapshotCursor.Store.DeleteCursor | internal/cluster/in_flight_cursor.go:557-607 | one cursor loses at most the limit and at least one row, fewer than the limit only if nothing of it is left; its header goes only after all its children, and no other cursor loses any |
| SnapshotCursor.Store.QueryExpired | internal/cluster/in_flight_cursor.go:530-543 | the query answers the first eight expired cursors by time of expiry and then by name, or all if there are fewer |
| SnapshotCursor.Store.CleanupExpired | internal/cluster/in_flight_cursor.go:530-555 | a pass touches only expired cursors; the rows of expired cursors in the whole table drop by exactly the number removed, at most 1000; looking back to any time, fewer rows are left of what had expired by then, if there were any; and a pass that removes fewer than 1000 removes eight expired cursors or all |
| SnapshotRows.ShrunkRows | internal/cluster/in_flight_cursor.go:557-607 | whatever one cursor loses, the rows of all cursors that had expired by some time drop by exactly that if it is one of them, and else stay |
| SnapshotHistory.Drained | internal/cluster/in_flight_cursor.go:64-72 | over every history, whatever had expired at some time is gone after as many later passes as it had rows, whatever expires, is created or is read meanwhile |
| LimiterTables.AdmitCounts | internal/cluster/concurrency_admission.go:214-228 | a counted admission raises its credential's and its model's total by one each, to no more than the limits in force |
| LimiterTables.AdmitExact | internal/cluster/concurrency_admission.go:208-237 | a request is unaccounted, counted, or refused for the protocol, the credential's or the model's limit exactly under the stated conditions on the policy's fields, protocol, totals and row; a counted one adds one to its row and any other changes nothing |
| LimiterTables.AdmitRunsAlone | internal/cluster/concurrency_admission.go:163-238 | the small steps of an admission, run without interference, leave what the whole transaction leaves |
| LimiterTables.Tables.Admit | internal/cluster/concurrency_admission.go:163-238 | the transaction answers unaccounted, accounted or refused, and changes the counters, as the admission function of the policy and the totals says; a refusal changes nothing |
| LimiterTables.Tables.IncrementRow | internal/cluster/concurrency_admission.go:299-333 | the upsert starts a row at one or adds one within int64, keeping the release baseline |
| LimiterTables.Tables.ApplyRelease | internal/cluster/concurrency_release.go:48-83 | a cumulative release leaves the row with its admissions less the sequence active and the sequence released, ignores what is old, and refuses what exceeds the active count; every other row stays |
| LimiterTables.Tables.DeleteFingerprint | internal/cluster/concurrency_release.go:103-112 | all rows of the closed fingerprint go and no others |
| LimiterTables.Tables.ReadTotals | internal/cluster/concurrency_admission.go:366-408 | the totals built from the grouped rows are, for every credential with a policy, the ones admission compares with its limit; the read fails if and only if a counter row of such a credential is negative or its total exceeds int64 |
| LimiterTables.OverflowCorrupt | internal/cluster/concurrency_admission.go:395-398 | a partial total beyond int64 means that the credential's whole total cannot be reported |
| LimiterLaws.RowReleases | internal/cluster/concurrency_release.go:48-83 | the table function of a release, in every table: with a sequence beyond what was released and within what was admitted the row reads admissions less sequence, sequence; otherwise nothing changes, with the error of the first failing check |
| LimiterLaws.TotalsDrop | internal/cluster/concurrency_release.go:63-82 | a release drops the totals of its own credential and model by exactly what it newly released and changes no other total |
| LimiterLaws.TableLargest | internal/cluster/concurrency_release.go:72-82 | on whole tables: after any list of releases each row has released the largest delivered sequence within its admissions, if larger than before, and the rest of its admissions is active |
| LimiterLaws.TableConfluence | internal/cluster/concurrency_release.go:72-82 | on whole tables: releases in any order with any repetition leave the same rows |
| LimiterLaws.StepCounters | internal/cluster/concurrency_release.go:48-112 | of all interleaved steps only a committed release releases, only a committed admission counts, and only a deletion deletes exactly the rows of its fingerprint |
| LimiterLaws.CommitAdmitExact | internal/cluster/concurrency_admission.go:208-237 | a committing admission counts if and only if there is room under both limits of the policy it read and its row can still count |
| LimiterLaws.LimitedExactly | internal/cluster/concurrency_admission.go:209-213 | an admission is limited if and only if its policy has a positive limit for it |
| LimiterTables.GovernedTotal | internal/cluster/concurrency_admission.go:386-391 | leaving out the counters of credentials without a policy changes no total of a credential that has one |
| LimiterProtocol.CommitAdmitSafe | internal/cluster/concurrency_admission.go:175-238 | an admission that read its totals under the policy lock may commit against them later, whatever ran in between |
| LimiterProtocol.StepSafe | internal/cluster/concurrency_admission.go:175-238 | every step of every interleaved admission, release, deletion and patch keeps the invariant (locks exclusive, read policies current, read totals upper bounds, active plus released equal to admitted) and raises a credential's or model's total only to within the limit in force |
| LimiterProtocol.RunWithin | internal/cluster/concurrency_admission.go:242-258 | in every interleaving in which no limit is lowered or introduced, no credential or model total ever exceeds its limit |
| LimiterProtocol.RunFromEmpty | internal/cluster/concurrency_admission.go:242-258 | in particular in every such interleaving that begins without counters |
| LimiterProtocol.AdmittedRaises | internal/cluster/concurrency_admission.go:299-333 | an increment raises the totals of its own credential and model by at most one and no other total |
| LimiterProtocol.ReleasedKeeps | internal/cluster/concurrency_release.go:63-82 | a release keeps active plus released equal to the accounted admissions of every row and raises no total |
| LimiterReleases.DeliveredLargest | internal/cluster/concurrency_release.go:72-82 | after any list of releases a row's sequence is the largest delivered one that does not exceed its admissions, if larger than before, and its admissions are unchanged |
| LimiterReleases.ReleaseConfluence | internal/cluster/concurrency_release.go:72-82 | releases in any order with any repetition end in the same row |
| PolicyPatch.NormalizeModels | internal/cluster/concurrency_policy.go:329-356 | the filling and pruning loops accept exactly the entries that are all valid and name no model twice, and keep exactly the positive limits under canonical names |
| PolicyPatch.Normalize | internal/cluster/concurrency_policy.go:316-356 | a patch is accepted exactly if its limit and its model map are; what it may store is positive and bounded, and its models are exactly the positive entries under their canonical names |
| PolicyPatch.PatchStores | internal/cluster/concurrency_policy.go:237-313 | a patch fails exactly for the wrong version; one that sets nothing changes nothing, and any other stores the next row, raises the barrier by one and sets the gate to the number of active policies |
| PolicyPatch.PatchSets | internal/cluster/concurrency_policy.go:254-300 | what a patch stores: a total or models that are set are those stored, what is not set stays, and version and barrier are the next ones |
| PolicyPatch.PatchAgrees | internal/cluster/concurrency_policy.go:237-313 | every patch keeps the gate equal to the number of credentials with a limit, limits positive and bounded, and barrier revisions distinct and at most the global one; every patch that sets something raises its version and the barrier by one and leaves the other rows |
| PolicyPatch.ActivationCarriesLimit | internal/cluster/concurrency_policy.go:226-254 | a patch that makes the first policy active carries a limit, so it is one whose activation is verified |
| PolicyPatch.PolicyStore.ApplyPatch | internal/cluster/concurrency_policy.go:237-313 | the writes of a patch, with the gate moved only when activity changes, are those of the patch function, and an error leaves all rows |
| HomeIncarnations.VerifiedReady | internal/cluster/concurrency_policy.go:446-472 | activation is verified if and only if no legacy membership is active, every active Home has the limiter capability and, on SQLite, at most one Home is active; and each error has its cause |
| HomeIncarnations.HomeTable.Verify | internal/cluster/concurrency_policy.go:456-472 | the loop over the active Homes finds the error of the verification, or none |
| HomeIncarnations.RegisterReady | internal/cluster/home_incarnation.go:55-118 | a registration adds one active row that is later than every earlier one of its address, loses none, and keeps a limiter in force ready; it is refused only while a policy is active |
| HomeIncarnations.RegisterStores | internal/cluster/home_incarnation.go:55-118 | a registration stores for its new row exactly the capabilities given, active and seen at its start, which is now unless the address has no earlier start; no cutoff up to now expires it and every other row is that of the expired table; it is refused exactly while a policy is active, for a missing capability or another active Home on SQLite |
| HomeIncarnations.HomeTable.RegisterHome | internal/cluster/home_incarnation.go:41-118 | registration leaves the rows that the registration function gives, with the capabilities that were given, or every row as it was |
| HomeIncarnations.HomeTable.HeartbeatHome | internal/cluster/home_incarnation.go:121-160 | a heartbeat refreshes an active row only |
| HomeIncarnations.HomeTable.RetireHome | internal/cluster/home_incarnation.go:163-175 | retirement ends an active row only |
| HomeIncarnations.HomeTable.FenceHome | internal/cluster/home_incarnation.go:178-194 | fencing ends an active row and is idempotent |
| HomeIncarnations.TransitionsAge | internal/cluster/home_incarnation.go:121-194 | no transition loses a row, changes its capabilities or revives one that has left the active state |
| HomeIncarnations.TransitionsExact | internal/cluster/home_incarnation.go:121-194 | a heartbeat changes the time of an active row and nothing else, retirement and fencing its state and nothing else, and a row that is not active answers why |
| HomeIncarnations.LifeCycle | internal/cluster/home_incarnation.go:121-207 | exactly the active Homes may send a heartbeat, and one that just did is not expired; retirement and fencing remove exactly that Home from the active ones for good; fencing is idempotent |
| HomeIncarnations.ExpireAges | internal/cluster/home_incarnation.go:196-207 | expiry ends exactly the active rows not seen since the cutoff |
| ActivationProtocol.StepKeepsInv | internal/cluster/concurrency_policy.go:226-313 | every step of patches and registrations under the gate lock, and of heartbeats, retirements, fences and expiries without it, keeps the invariant below |
| ActivationProtocol.ActivationSafety | internal/cluster/home_incarnation.go:55-118 | in every state reachable from an empty database: while any policy has a limit, every active Home has the capability and, on SQLite, at most one Home is active; and the derived counters agree |
| ActivationProtocol.StepStores | internal/cluster/concurrency_policy.go:226-313 | what every step leaves in the policies and among the Homes |
| ActivationProtocol.DeclaredSafety | internal/cluster/home_incarnation.go:96-109 | over every run each Home has the capabilities of the registration that created it, so while a policy has a limit every active Home registered with the limiter capability |
| ActivationProtocol.ActivationHappens | internal/cluster/concurrency_policy.go:226-313 | a limiter does get into force: a patch with a limit is verified and committed over a Home that declares the capability |
| BillingLexer.LexAll | internal/billingexpr/billingexpr.go:312-379 | the scanning loop answers the token sequence of the recursive lexer, with an end marker, or its failure |
| BillingLexer.LexBefore | internal/billingexpr/billingexpr.go:312-379 | a closing parenthesis ends whatever token precedes it: text that lexes keeps its tokens when text starting with one follows |
| BillingLexer.LexPrinted | internal/billingexpr/billingexpr.go:326-345 | a printed number is read back as one token with its value |
| BillingLexer.NumeralReads | internal/billingexpr/billingexpr.go:326-345 | a numeral is read as the number its characters stand for once underscores are left out, or fails |
| BillingLexer.LexScaled | internal/cluster/billing_import.go:1330-1333 | the wrapped source lexes to the body's tokens between the new ones |
| BillingLexer.LexScaledFails | internal/billingexpr/billingexpr.go:312-379 | a body that does not lex does not lex once wrapped |
| BillingParser.ExpressionSound | internal/billingexpr/billingexpr.go:419-461 | a parse consumes exactly the tokens of the tree it returns, which respects precedence and left associativity, binds tighter than the minimum and is no deeper than the room, and it stops before the end marker at the latest |
| BillingParser.ExpressionFound | internal/billingexpr/billingexpr.go:419-461 | every well-formed tree that fits the depth and is followed by a token that cannot extend it is found again |
| BillingCompile.Parser.ParseExpression | internal/billingexpr/billingexpr.go:419-461 | the loop over the mutable position, depth and variable set agrees with the parsing function in result, position, variables and error, never passes the end marker, and restores the depth on every return |
| BillingCompile.Parser.ParseUnary | internal/billingexpr/billingexpr.go:464-479 | the same for prefix operators, which count against the depth |
| BillingCompile.Parser.ParsePrimary | internal/billingexpr/billingexpr.go:481-523 | the same for literals, variables with their aliases, calls and parentheses |
| BillingCompile.Parser.ParseCall | internal/billingexpr/billingexpr.go:525-564 | the same for calls, their arity and their time zones |
| BillingProgram.ParseAllAccepts | internal/billingexpr/billingexpr.go:188-198 | a token list is accepted as tree t if and only if it is t's token sequence, t is well formed and t fits the depth |
| BillingProgram.CompileAccepts | internal/billingexpr/billingexpr.go:175-202 | a source compiles to t if and only if it is short enough and the tokens of its body are those of t, well formed and within the depth: sound, complete and unambiguous |
| BillingProgram.TrimIdempotent | internal/billingexpr/billingexpr.go:176-180 | trimming leaves no surrounding space and nothing to trim |
| BillingProgram.TrimTakes | internal/billingexpr/billingexpr.go:176-180 | trimming takes away surrounding spaces and nothing else |
| BillingProgram.VersionPrefix | internal/billingexpr/billingexpr.go:177-180 | a version prefix makes no difference to what a source compiles to |
| BillingProgram.CompileProgram | internal/billingexpr/billingexpr.go:175-202 | the compiler keeps the erased tree and exactly its variables, or answers the error of the first failing check |
| BillingPrinter.LexPrint | internal/billingexpr/billingexpr.go:312-379 | round trip: a list of ASCII tokens printed with single spaces lexes to itself |
| BillingPrinter.PrintCompiles | internal/billingexpr/billingexpr.go:175-202 | round trip: every well-formed tree within the limits whose tokens can be printed has a source that compiles to it |
| BillingEval.EvalDepends | internal/billingexpr/billingexpr.go:574-828 | evaluation depends only on the variables of the tree, the request count that fixed() uses, the lookups and the clock |
| BillingEval.ExtremeIsExtreme | internal/billingexpr/billingexpr.go:743-754 | min and max answer an argument that no other argument is below or above |
| BillingEval.ExtremeNeedsNumbers | internal/billingexpr/billingexpr.go:743-754 | they fail exactly if some argument is not a number |
| BillingEval.RoundNearest | internal/billingexpr/billingexpr.go:755-770 | round() goes to a nearest whole number, halves away from zero |
| BillingLaws.Arithmetics | internal/billingexpr/billingexpr.go:617-686 | for all operands of all values in every environment: sum, difference, product, quotient and its error, and the six comparisons |
| BillingLaws.ChoosesExtreme | internal/billingexpr/billingexpr.go:671-700 | x < y ? x : y evaluates as min(x, y) and x > y ? x : y as max(x, y) |
| BillingLaws.Opposites | internal/billingexpr/billingexpr.go:593-686 | the negation of a comparison evaluates as the opposite comparison |
| BillingLaws.Undoes | internal/billingexpr/billingexpr.go:660-664 | x - y + y evaluates as x |
| BillingLaws.Divides | internal/billingexpr/billingexpr.go:664-670 | x / y * y evaluates as x unless y is zero |
| BillingLaws.Signs | internal/billingexpr/billingexpr.go:755-769 | x < 0 ? -x : x evaluates as abs(x) |
| BillingLaws.Roundings | internal/billingexpr/billingexpr.go:761-769 | floor, ceil and round answer the whole number below, above and nearest |
| BillingLaws.Negatives | internal/billingexpr/billingexpr.go:593-613 | minus negates |
| BillingLaws.Negates | internal/billingexpr/billingexpr.go:593-613 | the logical negation answers the other flag |
| BillingLaws.Connects | internal/billingexpr/billingexpr.go:617-639 | conjunction and disjunction are those of logic |
| BillingLaws.ShortCircuits | internal/billingexpr/billingexpr.go:617-639 | a first operand that decides is all that is evaluated |
| BillingLaws.Chooses | internal/billingexpr/billingexpr.go:687-700 | a conditional evaluates as its chosen branch |
| BillingLaws.WrongOperands | internal/billingexpr/billingexpr.go:593-686 | operators fail for operands of a wrong type |
| BillingLaws.TextsCompare | internal/billingexpr/billingexpr.go:645-659 | texts are equal if they are when case is ignored |
| BillingLaws.UsdIs | internal/billingexpr/billingexpr.go:770-775 | usd of an amount is worth that amount |
| BillingLaws.FixedIs | internal/billingexpr/billingexpr.go:776-787 | fixed of an amount is worth it once per request |
| BillingLaws.TierIs | internal/billingexpr/billingexpr.go:788-798 | tier passes its amount on and leaves its name as the matched tier |
| BillingLaws.Lookups | internal/billingexpr/billingexpr.go:717-824 | what the lookup, text and clock functions answer |
| BillingLaws.PrecedenceIsLevel | internal/billingexpr/billingexpr.go:414-417 | the binary operators are on six levels |
| BillingLaws.Groups | internal/billingexpr/billingexpr.go:419-461 | of two operators the one on the tighter level groups first, and of one level the left one |
| BillingLaws.LegalExactly | internal/billingexpr/billingexpr.go:525-564 | a call is legal exactly if the table has its name and its number of arguments and its time zone exists |
| BillingLaws.WordsMean | internal/billingexpr/billingexpr.go:488-505 | true and false are the flags, and any other word is the variable of its canonical name |
| BillingLaws.VarsSpelled | internal/billingexpr/billingexpr.go:488-505 | every variable of a program is spelled out in its tokens |
| BillingLaws.BandsCharge | internal/billingexpr/billingexpr.go:175-257 | end to end: a source with the tokens of p < t ? p * low : p * high compiles, and charges the low rate if and only if p is below the threshold |
| BillingScaling.Unambiguous | internal/billingexpr/billingexpr.go:419-564 | two well-formed trees with the same tokens are one tree |
| BillingScaling.ScaledCompiles | internal/cluster/billing_import.go:1328-1333 | for every source and tree: the scaled source compiles to the product of the tree and the multiplier if and only if the body has the tokens of the tree and the scaled source fits the limits; within the length limit, if and only if the source compiles to the tree and the scaled one fits |
| BillingScaling.ScalingPreservesMeaning | internal/cluster/billing_import.go:1328-1333 | for a positive multiplier the scaled program refers to the same variables and in every environment fails exactly when the original does, matches the same tier and is worth the multiplier times as much |
| BillingScaling.ScalingRepairs | internal/cluster/billing_import.go:1328-1333 | a source that does not compile, whose scaled form does and is not a product |
| BillingCarving.CarveInputModalities | internal/cluster/billing_dimensions.go:416-449 | the reassignments compute the carving function |
| BillingCarving.CarveDisjoint | internal/cluster/billing_dimensions.go:416-449 | whatever is reported, the modality buckets stay within the uncached and the cached tokens, count no media token twice and leave the text known to be uncached |
| BillingCarving.CarveExact | internal/cluster/billing_dimensions.go:416-449 | a coherent report is carved exactly as reported |
| BillingCarving.CountsReported | internal/cluster/billing_expression.go:62-92 | each bucket of a coherent report holds the detail that was reported for it, and the plain buckets what is left |
| BillingCarving.CountsInTurn | internal/cluster/billing_expression.go:66-76 | whatever is reported, cache writes and output details are served in turn: none gets more than was reported, none anything while an earlier one lacks something, and nothing is left while one lacks something |
| BillingCarving.ReadsInTurn | internal/cluster/billing_dimensions.go:416-449 | so are cache reads when the report counts text |
| BillingCarving.MediaInTurn | internal/cluster/billing_dimensions.go:416-449 | and so is the uncached part of each medium, out of what is not known to be text |
| BillingCarving.MediaCached | internal/cluster/billing_dimensions.go:416-449 | a medium whose total alone is reported counts as cached exactly if it exceeds the uncached tokens and fits what is left of the cache |
| BillingCarving.CountsAdd | internal/cluster/billing_expression.go:62-92 | the expression buckets of complete accounting add up to the reported input and output |
| BillingCarving.CountNatural | internal/cluster/billing_expression.go:62-92 | none of them is negative |
| BillingFolding.TokenTable.FoldTokens | internal/billingexpr/billingexpr.go:259-293 | after the moves every bucket holds the tokens whose nearest used coarser bucket it is, only used buckets and plain input and output hold any, and both family sums are unchanged |
| BillingFolding.TargetLands | internal/billingexpr/billingexpr.go:259-293 | where tokens land, told without the moves: a cache write in the used cache write of the greatest retention not above its own, cached text and media in plain cache reads if those are used, everything else in its root |
| BillingFolding.FoldedWrites | internal/billingexpr/billingexpr.go:267-279 | the cache-write part of the folded table: each used bucket ends with its own tokens and those of the unused ones of longer retention down to it, so 12-hour tokens are billed as one-hour ones exactly if those are used and 12-hour ones are not |
| BillingFolding.FoldedReads | internal/billingexpr/billingexpr.go:280-284 | plain cache reads end with their own tokens and those of the unused kinds |
| BillingFolding.FoldedOwn | internal/billingexpr/billingexpr.go:259-293 | a finer bucket that is used ends with its own tokens |
| BillingFolding.FoldedOutput | internal/billingexpr/billingexpr.go:259-293 | plain output ends with the output of all kinds that are not used |
| BillingFolding.FoldTwice | internal/billingexpr/billingexpr.go:259-293 | folding twice is folding once |
| BillingFolding.TableFamilies | internal/cluster/billing_expression.go:62-92 | the two families of the table handed to folding are the reported totals |
| BillingFolding.ExpressionTokens | internal/cluster/billing_expression.go:62-131 | for any set of used buckets: every bucket holds what lands there, none is negative, every non-zero one is used or plain input or output, and together they are the reported totals |
| BillingTokens.ExpressionAmount | internal/cluster/billing_expression.go:124-165 | from report to evaluation: the source is compiled, the buckets are folded for the variables the program refers to, and the amount is the value of the program on exactly the folded buckets under their names and the other numbers; tokens are left only in buckets it refers to and in p and c |
| BillingTokens.ReportedNumbers | internal/cluster/billing_expression.go:62-131 | the variables a program uses read what a coherent report says, each its own detail |
| BillingTokens.SameBuckets | internal/cluster/billing_expression.go:124-165 | reports that put the same tokens into the buckets a program refers to cost the same |
| BillingTokens.PlainAmount | internal/cluster/billing_expression.go:124-165 | a program that refers to no finer bucket than p and c is worth what it is worth on all reported input as p and all output as c, whatever the details |
| BillingMarginal.Charge.RecordItems | internal/cluster/billing_expression.go:162-200 | every bucket that holds tokens gets its item with its marginal cost, and the numbers that are zeroed for a moment are restored |
| BillingMarginal.MarginalBounds | internal/cluster/billing_expression.go:185-199 | a marginal cost is between nothing and the whole amount, and nothing for a bucket the expression does not refer to |
| BillingMarginal.MarginalNothing | internal/cluster/billing_expression.go:176-199 | an item has its bucket's tokens, and no cost exactly if the expression fails or costs no less without them |
| BillingMarginal.MarginalShare | internal/cluster/billing_expression.go:185-199 | where a bucket has a share of a sum to itself, its marginal cost is what that share is worth |
| BillingMarginal.SharesAdd | internal/cluster/billing_expression.go:162-200 | for two buckets with a rate each the items are the products and add up to the amount |
| TokenTotals.MovedTotal | internal/billingexpr/billingexpr.go:260-266 | a move changes no total that selects both or neither of its buckets |
| TokenTotals.SettledLandings | internal/billingexpr/billingexpr.go:259-293 | in a settled table every bucket holds exactly what lands there |
| BillingCharge.LinesAdd | internal/cluster/billing.go:1782-1829 | the lines of a column charge bill every reported token once |
| BillingCharge.OwnInputPrices | internal/cluster/billing.go:1782-1829 | once all prices are set the input cost is the sum of each kind of tokens at its own price |
| BillingCharge.OwnOutputPrices | internal/cluster/billing.go:1806-1829 | the same for the output |
| BillingCharge.UnsetRetentions | internal/cluster/billing.go:1796-1804 | a retention price left out charges as if the next coarser one were written out: for twelve hours the one-hour price, else the thirty-minute price, else that of any write |
| BillingCharge.UnsetWrites | internal/cluster/billing.go:1796-1801 | cache writes without a price charge as input |
| BillingCharge.UnsetReasoning | internal/cluster/billing.go:1811-1814 | reasoning without a price charges as output |
| BillingCharge.UnsetInputs | internal/cluster/billing.go:1816-1818 | an image or audio price left out is the input price |
| BillingCharge.UnsetOutputs | internal/cluster/billing.go:1826-1827 | or the output price |
| BillingCharge.CarvingNeutralInput | internal/cluster/billing.go:1782-1829 | without detail prices the input cost is that of the canonical buckets, whatever the details |
| BillingCharge.CarvingNeutralOutput | internal/cluster/billing.go:1806-1829 | the same for the output cost |
| BillingCharge.CarvingNeutral | internal/cluster/billing.go:1782-1829 | without detail prices, any details cost the same as none |
| BillingCharge.CostBreakdown.Add | internal/cluster/billing.go:1689-1699 | a line with tokens is itemized and added to the total, one without changes nothing |
| BillingCharge.CostBreakdown.ChargeComplete | internal/cluster/billing.go:1785-1829 | exactly the lines that bill anything are itemized, each with its tokens, price and cost, and the total is the sum of the costs |
| PriceMatch.SortKeys | internal/cluster/billing_match.go:132-132 | the distinct keys by descending length |
| PriceMatch.SelectPriceRule | internal/cluster/billing_match.go:112-144 | the loops answer the best eligible rule (longest key, then exact tier, then earliest row), and none if and only if none is eligible |
| PriceMatch.BestOnce | internal/cluster/billing_match.go:112-144 | there is only one best rule |
| PriceMatch.BestBand | internal/cluster/billing_match.go:112-144 | of several bands of its key and tier it has the greatest |
| PriceMatch.FindPrice | internal/cluster/billing_match.go:79-108 | the best rule of the first level and candidate that has an eligible one; none if and only if no level and candidate has one |
| PriceMatch.FoundMeans | internal/cluster/billing_match.go:74-144 | nothing is found exactly if no rule can price any candidate; what is found can price its candidate and is preferred to whatever else could: own provider, then full name, then earlier candidate, then longer pattern, then own tier, then greater band |
| BillingLedger.Ledger.ApplyDelta | internal/cluster/billing.go:1067-1104 | a delta moves the credits of a metered user, leaves an unlimited one, and fails exactly for a missing user |
| BillingLedger.DeltaMoves | internal/cluster/billing.go:1067-1104 | a delta moves the credits of exactly a metered user by exactly that much and changes nobody else |
| BillingLedger.Ledger.ApplyBalance | internal/cluster/billing.go:490-547 | a balance record is written with its balances before and after and moves the credits, all or nothing; for a user that never was unlimited, credits stay the opening balance plus recharges minus deductions minus charges |
| BillingLedger.Ledger.CreateCharge | internal/cluster/billing.go:780-908 | a payload is charged at most once under any of its hashes, and the charge and the deduction are one step; the ledger equation is kept |
| BillingLedger.Ledger.SetUnlimited | internal/cluster/billing.go:1077-1098 | switching a user to unlimited credits ends the equation for that user only |
| PriceImport.NotCommitted | internal/cluster/billing_import.go:424-451 | a request whose preview is alive and whose key has no record was never committed under that key |
| PriceRules.CurrentIsSeen | internal/cluster/billing_import.go:1149-1163 | a rule at the revision a preview recorded is the very rule the preview saw, because every change raises the revision or deletes it |
| PriceRules.WrittenMeans | internal/cluster/billing_import.go:1047-1098 | the written rules: each replaced one was exactly what the preview saw and has its row's content on the next revision, each created one is new and, if enabled, had no live rival, and no other rule changed |
| PriceRules.TakenAfter | internal/cluster/billing.go:2222-2222 | after some insertions exactly the identities taken before and the inserted ones are taken |
| PriceRules.InsertBatch | internal/cluster/billing_import.go:1086-1091 | an INSERT is refused exactly if one of its enabled rows has the identity of a live rule or of another enabled row; no two live rules ever share one |
| PriceRules.InsertAll | internal/cluster/billing_import.go:1086-1091 | the batches of creations succeed exactly if one INSERT of all rows would |
| PriceRules.UpdateBatch | internal/cluster/billing_import.go:1101-1168 | a batch is written if and only if the rules of all its rows are current; then the unique index cannot refuse it |
| PriceRules.WriteRows | internal/cluster/billing_import.go:1047-1098 | creations and replacements in batches succeed exactly if every replaced rule is current and no enabled created row has a live or created rival, and then every row is written |
| PriceImport.Imports.CreateRule | internal/cluster/billing.go:381-418 | a rule is refused exactly if it is enabled and its identity is taken; imports see it as a change |
| PriceImport.Imports.UpdateRule | internal/cluster/billing.go:436-469 | a change is refused for a missing rule or a taken identity, and otherwise raises the revision; an empty patch changes nothing |
| PriceImport.PatchedSets | internal/cluster/billing.go:436-469 | what is set is what the rule then has, all else stays, and the revision is the next one |
| PriceImport.Imports.DeleteRule | internal/cluster/billing.go:471-488 | a rule that is there is marked deleted, its revision unchanged |
| PriceImport.Imports.CreatePreview | internal/cluster/billing_import.go:315-364 | a new preview, planned on the rules there are, keeps the invariant that what its rows would replace can be recognised by its revision |
| PriceImport.Imports.Apply | internal/cluster/billing_import.go:403-502 | a request commits if and only if it is proper, has no record under its key, its preview is alive and of its revision, its selection is applicable and confirmed, every rule to be replaced is current, and no rule to be created has a rival among the live rules or the selection; then it is the first under its key and writes all its rows; it is a replay if and only if it is on record; a replay or an error changes nothing; and no two live rules ever share an identity |
| PriceImport.FreshCommits | internal/cluster/billing_import.go:403-502 | as long as the rules are those its preview was planned on, every request that may be tried commits |
| PriceImport.AsksOnce | internal/cluster/billing_import.go:415-421 | the order in which rows are selected makes no difference to the request that is hashed and kept |
| TextOrder.SortDistinct | internal/cluster/billing_import.go:1491-1502 | a selection is brought into ascending order, and refused exactly if a key repeats or is empty |
| TextOrder.LessMeans | internal/cluster/billing_import.go:1491-1502 | the order is that of the first difference, with a prefix first |
| PriceImport.Imports.Cleanup | internal/cluster/billing_import.go:1511-1524 | exactly the old previews and operations are purged, and a purged request still cannot commit again |
| Election.ClusterTables.Elect | internal/cluster/coordinator.go:422-487 | a heartbeat and election leaves the node rows and the gate that the election relation says |
| Election.LeastOf | internal/cluster/coordinator.go:585-597 | the first live node in sorted order |
| Election.OneLeader | internal/cluster/coordinator.go:585-597 | there is only one least live node |
| Election.ElectionHolds | internal/cluster/coordinator.go:422-487 | after an election exactly one row is flagged, the least live one; the term rises by one exactly if the master changed or its lease had lapsed; and the lease lasts exactly as long as the master counts as live |
| Election.ElectionStores | internal/cluster/coordinator.go:422-492 | told from the rows before: the sender's row has its start time and the time of the heartbeat, the other rows change in their flag at most, the master has the least start time and then the least key of the rows seen within the timeout, and the lease ends the timeout after it was seen |
| Election.TermsNameOneMaster | internal/cluster/coordinator.go:455-475 | over every history terms never decrease and one term never names two masters |
| MasterNotification.LeasedStep | internal/cluster/coordinator.go:532-566 | a master's own lease is always still to expire, and only an election or that expiry ends its mastership |
| MasterNotification.OldTimersHarmless | internal/cluster/coordinator.go:555-566 | in every interleaving an earlier lease's timer does not demote a newer lease |
| MasterNotification.MasterUntilExpiry | internal/cluster/coordinator.go:532-566 | after the last election, in every interleaving, a node is master if and only if that election made it one and the lease it was given has not expired |
| MasterNotification.LastDelivered | internal/cluster/coordinator.go:568-582 | in every interleaving, with a callback in place, once no notification is pending the last value delivered is the current one |
| MasterNotification.Told | internal/cluster/coordinator.go:379-387 | from any moment at which a callback is set that nothing was delivered to, in every interleaving, once nothing is pending it has the current value if and only if a notification of the value at that moment was still waiting or the flag has changed since, and otherwise was told nothing |
| MasterNotification.FirstCallback | internal/cluster/coordinator.go:379-387 | the same over every history of a coordinator in which the callback is first set at some step |
| MasterNotification.LateCallback | internal/cluster/coordinator.go:379-387 | both cases occur: a callback set after the first election was notified is not told that the node is master, one set before is |
| MasterNotification.Coordinator.SetMaster | internal/cluster/coordinator.go:532-553 | the critical section takes the corresponding step and reports a change exactly when a notification is due |
| MasterNotification.Coordinator.ExpireMasterLease | internal/cluster/coordinator.go:555-566 | the same for the expiry of a lease |
| MasterNotification.Coordinator.NotifyMasterChanged | internal/cluster/coordinator.go:568-582 | the callback is called exactly if the flag still has the value |
| SnapshotScheduler.Scheduler.RequestRefresh | internal/cluster/coordinator_snapshot.go:14-19 | a request never blocks and leaves the signal in the channel |
| SnapshotScheduler.Scheduler.Receive | internal/cluster/coordinator_snapshot.go:34-35 | a received signal becomes pending |
| SnapshotScheduler.Scheduler.Begin | internal/cluster/coordinator_snapshot.go:42-62 | a tick synchronises exactly if a request is known or the interval has passed, and always if a request has not been served |
| SnapshotScheduler.Scheduler.End | internal/cluster/coordinator_snapshot.go:63-72 | a success serves the requests that came before it, a failure keeps them; requests that came meanwhile are still in the channel |
| AccessIndex.ModelChannelGroupIDs | internal/cluster/api_keys.go:896-919 | the loop collects the channels of the model's details, or fails if one of them cannot be decoded |
| AccessIndex.AllowedAuthIDs | internal/cluster/api_keys.go:1103-1127 | one pass over the rows yields the channels' credentials in order of first appearance |
| AccessIndex.AuthIDsForChannels | internal/cluster/api_key_model_access.go:65-82 | visiting the per-channel lists yields the credentials of the chained rows |
| AccessIndex.ChainedIsOnePass | internal/cluster/api_key_model_access.go:58-82 | visiting ascending channels one by one is one pass over the table sorted by channel |
| AccessMeaning.CollectMeans | internal/cluster/api_keys.go:896-919 | the channels of a key are exactly those its details bind; it is restricted exactly if one of them binds any, and fails exactly if one cannot be decoded |
| AccessMeaning.IdentifiersMembers | internal/cluster/api_keys.go:1103-1127 | a credential is listed exactly if some row has it |
| AccessMeaning.IdentifiersOrder | internal/cluster/api_keys.go:1103-1127 | credentials are listed once each in the order in which the rows first have them |
| AccessIndex.BuildIndex | internal/cluster/api_key_model_access.go:36-90 | the index holds exactly the restricted keys of the grouped details with their credentials, and fails if and only if a group cannot be decoded |
| AccessIndex.IndexAgrees | internal/cluster/api_key_model_access.go:36-90 | for every model whose key is its own key the index gives the resolver's restriction flag and credential sequence |
| AccessIndex.BaseAgrees | internal/cluster/api_key_model_access.go:83-86 | index and resolver give the same credential sequence for the base channels |
| AccessIndex.IndexFails | internal/cluster/api_key_model_access.go:44-48 | a group cannot be decoded exactly when its key is its own key and the resolver fails for the model |
| AccessIndex.IndexExact | internal/cluster/api_key_model_access.go:36-90 | index and resolver agree on the restriction and the credential sequence of a model if and only if its key is its own key or empty or no detail of its key binds channels |
| ModelKeys.OwnKey | internal/cliproxy/auth/selector.go:176-187 | the key of a model is its own key if and only if its canonical name has no further suffix |
| ModelKeys.SuffixStripped | internal/cliproxy/auth/model_suffix.go:13-26 | canonicalisation strips exactly the last parenthesised suffix |
| ModelAccess.NewModelAccess | internal/cliproxy/auth/model_access.go:14-44 | the policy has under each normalised key the credentials of all entries normalised to it |
| ModelAccess.IntersectAllowed | internal/cluster/api_keys.go:922-951 | base and model credentials are intersected in the order of the base, each once; without a base all model credentials stay |
| ModelAccess.AllowedDispatch | internal/cluster/api_keys.go:842-894 | the resolver answers a failure, no restriction or the list that the dispatch function gives |
| AccessMeaning.DispatchMeans | internal/cluster/api_keys.go:842-951 | dispatch permits a credential if and only if the details of the model's key decode, a base channel reaches it if there are base channels, and, if a detail binds the model, a channel of such a detail does |
| AccessMeaning.IntersectionOrder | internal/cluster/api_keys.go:922-951 | the intersection keeps the order of the base credentials |
| ModelAccess.AllowedModelIDs | internal/cluster/api_keys.go:1166-1185 | the canonical names of the details, each once whatever its case; none if the API key has no model groups |
| AccessMeaning.ModelNamesApart | internal/cluster/api_keys.go:1166-1185 | no two listed names differ in case only |
| AccessMeaning.ModelNamesFrom | internal/cluster/api_keys.go:1166-1185 | each listed name is the canonical name of a detail |
| AccessMeaning.ModelNamesCover | internal/cluster/api_keys.go:1166-1185 | every detail that has a canonical name has it listed in some case |
| ModelAccess.NamesListed | internal/cliproxy/auth/model_access.go:14-24 | the policy lists them under their keys, canonicalised once more: the keys of the keys of the details |
| ModelAccess.CatalogAccess | internal/cluster/api_key_model_access.go:13-91 | the policy built for an API key has its base credentials, the listed models and the entries of the index, and none is built exactly if the channels of a model cannot be decoded |
| ModelAccess.AllowsExact | internal/cluster/api_key_model_access.go:13-91 | for every model the index is right about and every credential, the policy allows it if and only if dispatch decides for it: the model is listed and the resolver, which also intersects with the base credentials, permits it |
| AccessMeaning.CatalogMeans | internal/cluster/api_key_model_access.go:13-91 | the same for the policy in terms of details and rows: for a model the index is right about it allows a credential exactly if the model is listed, its details decode, and base channels and bound channels reach the credential |
| ModelAccess.AllowsWide | internal/cluster/api_key_model_access.go:13-91 | for any other listed model the policy only knows the base credentials, so it never hides a credential that dispatch decides for |
| ModelAccess.CatalogExact | internal/cluster/api_key_model_access.go:13-91 | catalog and dispatch agree on a model, whatever its channels and their credentials are, if and only if the index is right about it or it is not listed |
| ModelAccess.LooseModels | internal/cluster/api_key_model_access.go:36-56 | the catalog shows some model without its restriction if and only if a detail that binds channels has a key with another key and that key is listed |
| ModelAccess.AlwaysIndexable | internal/cluster/api_key_model_access.go:36-56 | the index is right about every model if and only if no detail that binds channels is stored under a name that has a suffix left after its own one is stripped |
| ModelAccess.ThreeSuffixes | internal/cluster/model_groups.go:201-226 | binding a name with three suffixes stores one the index is wrong about, but alone it is listed under its stem and shown by neither side; a name with two suffixes is fine |
| ModelAccess.Misses | internal/cluster/api_key_model_access.go:36-56 | with a second detail that lists its key, such a model is allowed to everyone by the policy that is built and to no one by dispatch |
| ModelAccess.SuffixesOfM | internal/cluster/model_groups.go:201-226 | for example m(a)(b) and m(a)(x)(y), stored for m(a)(b)(c) and m(a)(x)(y)(z) |

## Left out

- GORM, SQL text, dialect differences, indexes other than the unique one on live price rules, migrations and connection pools: rows are maps, and a query's answer is computed from them or is a parameter with a predicate that says it is right.
- Failures of the database itself: a transaction that fails for such a reason leaves its rows, as any other error does.
- HTTP, RESP, TLS, certificates, hashing and random identifiers.
- JSON and gjson decoding, beyond being functions of the bytes; the texts of error messages, the positions of tokens in them, and timestamps such as updated_at that no rule reads.
- IEEE floating point, NaN and infinity, and the rounding of amounts to eight decimals.
- Integer wrap-around other than where the source checks for it: revisions, versions, lease numbers and token counts are unbounded.
- The publication row of a certificate whose lifetime is replaced by a later one: `InFlightIngest.Rows` is one lifetime.
- Membership, quiescence and session affinity: an admission or release is that of an active lifetime.
- LimiterProtocol.StepSafe: a counter row is read and written in one step, because both happen under that row's own lock.
- ActivationProtocol.StepKeepsInv: while a verified patch is open, no Home changes state, because the patch holds the rows of the active Homes.
- PolicyPatch.NormalizeModels: which of several errors is reported depends on Go's map order, so an error is only known to be one that some entry has.
- PriceMatch.FindPrice: starts from the rows its query returns; the query compares names in lower case but untrimmed.
- PriceImport.Imports.Apply: does not model two transactions under one key at once, where the loser replays the winner's record.
- MasterNotification.FirstCallback: replacing one callback by another is not modelled.
- Election.LeastOf: the library sort is not modelled, only its first element.
- SnapshotCursor.Store.ReadPage: the projection of observed credentials and limiter states beside the details is not modelled; their rows only count for the cleanup.
- ModelAccess.AllowsExact: identifiers of credentials are those trimmed already.
- BillingLedger.Ledger.CreateCharge: a charge is one atomic step; the unique index of the charges covers the primary hash only, so two transactions that are open at once under different primary hashes of one payload are not covered.
- PriceImport.Imports.CreatePreview: the planning of the rows is stated by `PriceImport.Planned`, not modelled.
- Legacy token accounting, advisor iterations, surcharges, and effort and user multipliers.
- The choice of price candidates for a usage, catalogue matching and the planning of import previews.
- The program cache, time-zone cache and Validate's sample environment, which is one of the environments the theorems cover.
- Policy export and import, database snapshots, application logs, overview queries, and the create, read, update and delete operations of groups and keys.
