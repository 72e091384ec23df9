# Verification of the payroll SDK core

This Dafny project models the self-contained algorithms of `packages/core` of the zero-knowledge payroll SDK and proves
what they compute, what every run of them keeps, and how separately written parts agree. Each module follows one
source file or a small group of them. Methods keep the loops and the mutable fields of the source and are proved
against specification functions; lemmas then prove what those functions mean.

| files | subject |
|---|---|
| `AmountParsing`, `AmountLaws`, `AmountRounding`, `AmountRoutes` (with `Digits`, `Assets`) | decimal amounts: parsing with rounding and carry, rescaling, printing, a second parser |
| `Semaphore` | the FIFO semaphore under every interleaving |
| `PaginationGuardrails` | traversal of an arbitrary page source with budgets and cycle detection |
| `Polling` | polling against a clock |
| `Pagination`, `BatchPagination` | cursor pagination and batch iteration |
| `CanonicalJson`, `AuditPackage`, `JsonText` (with `Sorting`) | canonical JSON, hashing and verification of audit packages |
| `ArchiveFilterBuilder`, `ArchiveQuery` | query builder, string parameters, reparsed filter, stream, summary |
| `CommitmentDiff`, `BatchDiffEngine`, `BatchDiffReport`, `PayrollBatchDiff`, `PayrollBatchReport` | roster differences, and what their reports hold |
| `MultiSigner` | multi-signer approval |
| `ProofArtifacts` | artifact loading through an untrusted cache and loader |
| `MemoryCache` | cache with lifetimes and lazy eviction |
| `AssetRegistry` | a two-index registry |
| `BatchPayloads`, `Deduplication`, `EmployeeBatches` | batch validation, duplicate groups, employee batches |
| `Prelude`, `Text`, `OrderedMaps` | options and results, string operations, insertion-ordered maps |

Run `dafny verify dfyconfig.toml` to check everything. Every lemma switches automatic induction off, so that each proof is the one
written.

Several promises turn out to hold only under a condition. In each case the code is modelled as it is, and a lemma
gives the exact condition: rounding up at zero decimals, `CEIL` in the string parser, the size limit and the zero check
of parsed amounts, negative texts in the second parser, `FLOOR` and `HALF_UP` on negative amounts, `HALF_UP` through two
precisions, a release closure called twice, following the previous cursor and then the next, comma-joined identifiers,
per-asset sums with inherited property names, commitments with a separator inside a field, metadata reads at the
instant of expiry, identifiers repeated in an initial registry list, and absent amounts in a batch. For symbols shared by
assets of the registry there is a sufficient condition and a failing run. Comments in
the source describe HALF_UP as rounding half away from zero, CEIL as rounding away from zero and zero amounts as refused;
the code differs on negative amounts in `roundAmount` and on texts such as "00", and the model follows the code.

What lies outside the program is a parameter of the model: clock readings, answers of page sources, status calls,
loaders and caches, abort signals, SHA-256, date parsing, cursor encoding, the printing and reading of JSON text, and the
platform's conversion of non-decimal number texts. Lemmas name the few facts they need about them (`Faithful`,
`Standard`, `Fair`, `Collates`); `JsonText` shows that the assumption about JSON can be met.

## Model

| member | source | states |
|---|---|---|
| `AmountParsing.ParsePayrollAmount` | packages/core/src/assets/amountParsing.ts:320-461 | The digit-string code (cut, pad, carry, overflow and bounds checks, scale memo) returns, on every input, exactly what the integer specification `ParseSpec` says, errors included, and leaves the memo of powers of ten correct. |
| `AmountParsing.FitFraction` | packages/core/src/assets/amountParsing.ts:386-407 | The excess-precision step: whatever is cut, padded or carried, the two digit strings denote floor(W.F * 10^d) plus the rounding unit (counted twice after a carry at zero decimals), and the whole part is the carried one. |
| `AmountParsing.NumericIsThePattern` | packages/core/src/assets/amountParsing.ts:343 | The shape test used by the model accepts exactly the two alternatives of the numeric pattern. |
| `AmountParsing.CutValue` | packages/core/src/assets/amountParsing.ts:389-394 | Cutting a fraction after `d` digits is taking the floor, and the digits cut off are the remainder. |
| `AmountParsing.CarryDigits` | packages/core/src/assets/amountParsing.ts:401 | After a carry `padStart(...).slice(-decimals)` leaves zeros, except that at zero decimals the carry digit itself is kept. |
| `AmountLaws.ParseMeetsArithmetic` | packages/core/src/assets/amountParsing.ts:320-461 | For every accepted text W.F, mode and precision: TRUNCATE and FLOOR give floor(W.F * 10^d); HALF_UP gives floor(W.F * 10^d + 1/2) exactly outside the failing case; CEIL is the ceiling exactly when its test can see it; amounts stay below 2^53 * 10^d for d >= 1; unrounded results are exact. |
| `AmountLaws.HalfUpExact` | packages/core/src/assets/amountParsing.ts:386-407 | HALF_UP is floor(W.F * 10^d + 1/2) if and only if no round-up happens at zero decimals. |
| `AmountLaws.HalfAtZeroDecimals` | packages/core/src/assets/amountParsing.ts:401 | Parsing ".5" at zero decimals gives 2 where rounding gives 1, for every asset whose symbol cannot be part of a number. |
| `AmountLaws.CeilExact` | packages/core/src/assets/amountParsing.ts:263-269 | CEIL is the mathematical ceiling if and only if nothing but zeros is cut, or the first excess digit is not zero (and d >= 1). |
| `AmountLaws.CeilMissesLaterDigits` | packages/core/src/assets/amountParsing.ts:263-269 | Parsing "1.005" with CEIL to one decimal gives 1.0: an excess behind a zero digit is not rounded up. |
| `AmountLaws.HalfIsFirstDigit` | packages/core/src/assets/amountParsing.ts:257-262 | The first excess digit is at least 5 if and only if the excess is at least half a unit. |
| `AmountLaws.AmountBelowLimit` | packages/core/src/assets/amountParsing.ts:415-423 | A result that passed the overflow check is below 2^53 * 10^d, except for one carry at zero decimals. |
| `AmountLaws.RefusedExactly` | packages/core/src/assets/amountParsing.ts:320-423 | Every refusal of every text by its condition: empty, not matching the pattern, negative, zero (of one whole digit at most), and a whole part above 2^53 - 1 after rounding. |
| `AmountLaws.BoundsOnlyRefuse` | packages/core/src/assets/amountParsing.ts:425-458 | Bounds refuse an amount below the minimum if one is set, otherwise an amount above the maximum if one is set, and change nothing else. |
| `AmountLaws.FormattingIgnored` | packages/core/src/assets/amountParsing.ts:227-235 | Commas and currency signs anywhere in a number change nothing: the text without them parses alike, for every symbol with a character of its own. |
| `AmountLaws.ZeroRefused` | packages/core/src/assets/amountParsing.ts:374-384 | The zero error is reported exactly for value zero with a one-digit whole part. |
| `AmountLaws.DoubleZeroAccepted` | packages/core/src/assets/amountParsing.ts:374-384 | Parsing "00" gives amount zero, for every asset with such a symbol, every precision and mode, and all bounds that admit zero. |
| `AmountLaws.UnroundedIsExact` | packages/core/src/assets/amountParsing.ts:405-407 | When no digit is dropped the amount denotes the text exactly. |
| `AmountRounding.ExactnessIsOneThing` | packages/core/src/assets/amountRounding.ts:304-318 | For amounts of either sign and every mode, `wasRounded` is false if and only if `canRepresentExactly` holds, if and only if scaling back restores the amount. |
| `AmountRounding.RoundAmountExactly` | packages/core/src/assets/amountRounding.ts:115-192 | The whole result for every amount, mode and two precisions: precisions outside 0 to 18 refused, exact scaling up, division in the selected mode (with HALF_UP on negative amounts as coded), the flag, and the reported inputs. |
| `AmountRounding.RoundParsedExactly` | packages/core/src/assets/amountRounding.ts:248-262 | Rounding a text is parsing at the source precision, then rescaling the amount in the same mode; parse errors pass through. |
| `AmountRounding.DefaultIsHalfUp` | packages/core/src/assets/amountRounding.ts:121 | An absent mode means HALF_UP, in parsing and in rescaling. |
| `AmountRounding.UpThenDownIsIdentity` | packages/core/src/assets/amountRounding.ts:143-147 | Raising the precision and lowering it again returns the amount unrounded, whatever the two modes. |
| `AmountRounding.RoundViaIntermediate` | packages/core/src/assets/amountRounding.ts:115-192 | An intermediate precision at or above either end does not change the result (for HALF_UP: at or above the source, or equal to the target). |
| `AmountRounding.QuotientsCompose` | packages/core/src/assets/amountRounding.ts:153-177 | TRUNCATE, FLOOR and CEIL compose across any two divisors, for amounts of either sign. |
| `AmountRounding.RoundedBracket` | packages/core/src/assets/amountRounding.ts:148-182 | For amounts >= 0: HALF_UP errs by at most half a target unit (ties upward), CEIL by less than one unit upward, the others by less than one unit downward. |
| `AmountRounding.HalfUpTwice` | packages/core/src/assets/amountRounding.ts:160-165 | HALF_UP through two precisions equals HALF_UP at once if and only if the remainder is outside the band just below the half. |
| `AmountRounding.HalfUpDoubleRoundingExample` | packages/core/src/assets/amountRounding.ts:160-165 | 0.445 rounded twice gives 0.5, rounded once 0.4. |
| `AmountRounding.CeilIsCeiling` | packages/core/src/assets/amountRounding.ts:167-171 | CEIL is the mathematical ceiling for amounts of either sign. |
| `AmountRounding.FloorIsFloor` | packages/core/src/assets/amountRounding.ts:173-177 | FLOOR is the mathematical floor if and only if the amount is non-negative or divides exactly. |
| `AmountRounding.HalfUpIsHalfAway` | packages/core/src/assets/amountRounding.ts:160-165 | HALF_UP rounds half away from zero if and only if the amount is non-negative or its magnitude's remainder is below half. |
| `AmountRoutes.ParseAmount` | packages/core/src/assets/formatters.ts:134-178 | The second parser, which removes the symbol as a regular expression, rewrites its fraction digits and fills its own memo, computes its specification on every text and symbol. |
| `AmountRoutes.ParseAmountTakesFloor` | packages/core/src/assets/formatters.ts:160-177 | On every unsigned decimal text the second parser returns floor(W.F * 10^d). |
| `AmountRoutes.ParseAmountRefuses` | packages/core/src/assets/formatters.ts:134-178 | Every failure of the second parser by its condition, and the zero a strict caller gets for a text that is no number. |
| `AmountRoutes.NegativeAmounts` | packages/core/src/assets/formatters.ts:167-177 | Every negative text "-" + W.F is read as the negated amount if and only if it does not start "-." and no kept fraction digit is significant: the sign reaches only the whole part. |
| `AmountRoutes.RoutesAgree` | packages/core/src/assets/amountRounding.ts:248-262 | In truncating mode, on the same cleaned text, three separately written routes agree: parsing at the target precision, the second parser, and parsing at any finer precision then rescaling; the first and the last also accept the same texts. |
| `AmountRoutes.PlainSymbolsCleanAlike` | packages/core/src/assets/formatters.ts:143-147 | For a symbol without regular-expression characters the two parsers clean every input alike. |
| `AmountRoutes.FloorOfFiner` | packages/core/src/assets/amountRounding.ts:248-262 | Truncating at a finer precision first loses nothing. |
| `AmountRoutes.PrintersAgree` | packages/core/src/assets/amountParsing.ts:472-481 | The two printers, written separately, print the same text for amounts of either sign. |
| `AmountRoutes.ParseUndoesFormat` | packages/core/src/assets/amountRounding.ts:338-349 | Parsing the printed text returns the amount with `wasRounded` false, in every mode, if and only if the amount is positive and its whole part is at most 2^53 - 1; for every symbol that is empty or has a character other than digits, points and spaces. |
| `AmountRoutes.DigitSymbolBreaksRoundTrip` | packages/core/src/assets/amountParsing.ts:227-235 | A symbol that is a digit is removed from the number instead of from its end. |
| `Semaphores.Semaphore.constructor` | packages/core/src/core/concurrency.ts:38-45 | A new semaphore has all its permits and no waiter. |
| `Semaphores.Semaphore.Acquire` | packages/core/src/core/concurrency.ts:50-64 | A free permit is taken at once; otherwise the caller is queued last. The whole new state is stated. |
| `Semaphores.Semaphore.Release` | packages/core/src/core/concurrency.ts:89-98 | The permit goes to the longest waiter without touching the counter; with no waiter the counter drops, never below zero. |
| `Semaphores.EveryRunKeepsInv` | packages/core/src/core/concurrency.ts:50-98 | Every interleaving of requests and releases in which a release closure fires at most once keeps the full invariant (holders equal the counter, queue only at saturation, grants in request order). |
| `Semaphores.SemaphoreSafety` | packages/core/src/core/concurrency.ts:50-98 | From the start: holders = active <= permits, waiters only when saturated, grants are a prefix of requests, and once nobody holds a permit all requests were granted and all permits are back. |
| `Semaphores.WaitersProgress` | packages/core/src/core/concurrency.ts:89-98 | No starvation: the waiter at position i holds a permit after at most i + 1 further releases. |
| `Semaphores.SpentClosure` | packages/core/src/core/concurrency.ts:50-98 | Calling a release closure a second time keeps permits conserved if and only if the semaphore is idle. |
| `Semaphores.BodiesAreBounded` | packages/core/src/core/concurrency.ts:70-77 | However `runExclusive` calls interleave, fail or finish from a state linked to their phases, the bodies running at once equal the active count and never exceed the permits, and the finished calls are those that have released. |
| `Semaphores.RunExclusiveSafety` | packages/core/src/core/concurrency.ts:70-77 | The same from a fresh semaphore: at no time do more bodies run than there are permits. |
| `PaginationGuardrails.ResolveGuardrails` | packages/core/src/pagination-guardrails.ts:101-127 | Options are refused exactly when a budget is not a positive integer or the page budget exceeds its ceiling; accepted ones have a page size clamped to its range. |
| `PaginationGuardrails.GuardrailsExactly` | packages/core/src/pagination-guardrails.ts:101-127 | Each refusal by its condition; granted budgets are those asked for or the defaults, and a page size is kept in range or moved to the nearer end. |
| `PaginationGuardrails.IterateGuardedPages` | packages/core/src/pagination-guardrails.ts:206-251 | Against any page source: at most `maxPages` fetches with pairwise distinct cursors; at most `maxRecords` items, a prefix of the fetched pages; normal return yields all of them, and happens exactly for finite acyclic sources within both budgets that are not aborted; an abort, a rejection or a malformed page yields exactly the pages before it, and is reported only when it happened. |
| `PaginationGuardrails.FinishReaches` | packages/core/src/pagination-guardrails.ts:206-251 | A source that finishes is running, well-formed and within budget at every earlier fetch, and stops exactly where its chain ends. |
| `PaginationGuardrails.TraversalIsDetermined` | packages/core/src/pagination-guardrails.ts:206-251 | The stated stopping condition determines the number of fetches, the records yielded and the reason, for every source, signal and limits. |
| `PaginationGuardrails.RepeatMeansCycle` | packages/core/src/pagination-guardrails.ts:240-246 | A repeated cursor proves that the source never finishes within any number of fetches. |
| `PaginationGuardrails.CollectGuardedPages` | packages/core/src/pagination-guardrails.ts:267-274 | Collecting succeeds exactly for finishing sources, and then returns all their records. |
| `Polling.PollPayrollCompletion` | packages/core/src/polling.ts:219-286 | With a clock that never goes back and sleeps no shorter than requested: at most ceil(timeout / interval) status calls whatever each call costs, requested sleeps total at most the timeout, every later call starts before the deadline, each sleep is the interval cut short to the time left, and every outcome (completion, timeout, cancellation, failure of the call or of the test) is reported exactly under its condition on the world. |
| `Polling.PollUntil` | packages/core/src/polling.ts:241-286 | The loop terminates, with the same bounds and the same exact conditions, although its guard only reads the clock. |
| `Polling.RoundsFit` | packages/core/src/polling.ts:245-286 | Fewer than ceil(timeout / interval) whole intervals fit strictly before the timeout. |
| `Polling.OutcomeIsDetermined` | packages/core/src/polling.ts:241-286 | Those conditions leave no choice: one outcome after one number of calls. |
| `Pagination.StartIndex` | packages/core/src/pagination.ts:190-203 | The start index never leaves the list, whatever the cursor, page number or direction. |
| `Pagination.PageSizeExactly` | packages/core/src/pagination.ts:157-162 | A requested size between 1 and 100 is kept, another moved to the nearer end, and the default is 20. |
| `Pagination.StartExactly` | packages/core/src/pagination.ts:190-203 | Where a page starts: at the index of a readable cursor, else after the pages before the requested one, else at an end of the list. |
| `Pagination.PageExactly` | packages/core/src/pagination.ts:205-234 | The slice and every metadata field of a page, with what its two cursors decode to. |
| `Pagination.NextThenPrevious` | packages/core/src/pagination.ts:205-234 | Following the next cursor and then the previous one returns the same page with all its metadata. |
| `Pagination.PreviousThenNext` | packages/core/src/pagination.ts:205-234 | The other way round it does so if and only if the page is not empty and starts at least one page size in. |
| `Pagination.PaginateIterator` | packages/core/src/pagination.ts:286-297 | The stream terminates and its pages concatenate to the records from the start index on, only the last page short, all pages what `paginate` returns. |
| `Pagination.StreamsEverything` | packages/core/src/pagination.ts:185-203 | The stream starts at the first record if and only if no later page is asked for and the direction is forward, or one page holds everything. |
| `BatchPagination.IterateBatches` | packages/core/src/batch/paginate.ts:150-171 | Batches concatenate to the input, are as many as `totalPages`, and the k-th equals `getBatchPage(items, pageSize, k)` in every field; only a non-positive page size is refused. |
| `BatchPagination.BatchExactly` | packages/core/src/batch/paginate.ts:108-134 | Each refusal by its condition, and every field of the batch, `totalPages` being the least number of pages that holds all items. |
| `BatchPagination.BatchShapes` | packages/core/src/batch/paginate.ts:108-148 | Every batch but the last is full, none is empty on a non-empty list, and the successor flag is right. |
| `BatchPagination.PastTheEnd` | packages/core/src/batch/paginate.ts:108-148 | An index past the last batch gives an empty batch, not an error. |
| `CanonicalJson.CanonIffSame` | packages/core/src/audit/auditPackage.ts:232-245 | Two JSON values have the same canonical form if and only if they have the same content, whatever the key order at any depth (reference definition `Same`). |
| `CanonicalJson.CanonIdempotent` | packages/core/src/audit/auditPackage.ts:232-245 | Canonicalisation is idempotent. |
| `CanonicalJson.FieldOrderIgnored` | packages/core/src/audit/auditPackage.ts:232-245 | Permuting the fields of an object does not change its canonical form. |
| `CanonicalJson.EnumerationOrder` | packages/core/src/audit/auditPackage.ts:236-244 | The fields of a canonical object are enumerated with array indices first, by magnitude, and then the other names in code-unit order. |
| `CanonicalJson.GetCanon` | packages/core/src/audit/auditPackage.ts:232-245 | Reading a property commutes with canonicalising, except for `__proto__`. |
| `CanonicalJson.ReadsExactly` | packages/core/src/audit/auditPackage.ts:173-218 | Reading a property gives the first field of that name, and undefined for every other name and for values that are no objects. |
| `CanonicalJson.ProtoFieldForgotten` | packages/core/src/audit/auditPackage.ts:236-244 | A field named `__proto__` is lost. |
| `AuditPackage.ValidateAuditPackageShape` | packages/core/src/audit/auditPackage.ts:169-218 | The loops that push errors return exactly the specified error list, in order. |
| `AuditPackage.ShapeErrorsExactly` | packages/core/src/audit/auditPackage.ts:169-230 | Each shape error is reported if and only if its fault is present (fields, scope, proofs, keys, commitments), once, in the order of the checks. |
| `AuditPackage.VerifyExactly` | packages/core/src/audit/auditPackage.ts:103-121 | Verification adds the hash error if and only if the carried hash is not the digest of the canonical text. |
| `AuditPackage.TruthyExactly` | packages/core/src/audit/auditPackage.ts:176-186 | What counts as missing in a required field. |
| `AuditPackage.CreateExactly` | packages/core/src/audit/auditPackage.ts:76-101 | A package is created if and only if it has no fault while its hash is blank; otherwise exactly those faults are reported. |
| `AuditPackage.CreatedHolds` | packages/core/src/audit/auditPackage.ts:76-101 | A created package holds the fields of its input and the digest of its own canonical text. |
| `AuditPackage.CreatedVerifies` | packages/core/src/audit/auditPackage.ts:76-121 | For every platform, a created package verifies at exactly the times before its scope expires, and later reports expiry and nothing else (a digest that is the empty text would be reported as missing). |
| `AuditPackage.RoundTripVerifies` | packages/core/src/audit/auditPackage.ts:103-133 | When printing parses back on data the platform can print, a serialised and deserialised package is its canonical form, has the same content, and gets the same verification result at every time. |
| `AuditPackage.VerifyIgnoresLayout` | packages/core/src/audit/auditPackage.ts:103-121 | Verification gives the same errors for a package and its canonical form, on every platform. |
| `AuditPackage.HashOfSameContent` | packages/core/src/audit/auditPackage.ts:159-167 | The integrity hash depends on content only. |
| `AuditPackage.HashBindsContent` | packages/core/src/audit/auditPackage.ts:159-167 | Two packages have the same integrity hash if and only if they have the same content or their two different hashed texts have one digest. |
| `AuditPackage.AcceptedHashesBind` | packages/core/src/audit/auditPackage.ts:103-121 | The same of the hashes that two accepted packages carry. |
| `JsonText.FaithfulPlatformExists` | packages/core/src/audit/auditPackage.ts:123-133 | The assumption that printing parses back can be met: a printing of all data with whole numbers, under any digest, satisfies it. |
| `AuditPackage.DisclosureIsExact` | packages/core/src/audit/auditPackage.ts:135-157 | The disclosed commitments are exactly the allowed ones, as often and in the order given, and filtering again changes nothing. |
| `AuditPackage.ScopeDiscloses` | packages/core/src/audit/auditPackage.ts:135-157 | Each list scope keeps the commitments whose employee, period or defined department is in its list, in order; every other scope keeps all. |
| `AuditPackage.CreatedDiscloses` | packages/core/src/audit/auditPackage.ts:76-101 | The commitments of a created package are those of the input that its scope lists. |
| `ArchiveFilterBuilder.Builder.ForPeriod` | packages/core/src/archived/ArchiveFilterBuilder.ts:101-105 | The new builder state as a whole: sets both bounds. |
| `ArchiveFilterBuilder.Builder.ForEmployee` | packages/core/src/archived/ArchiveFilterBuilder.ts:110-113 | The new builder state as a whole: adds one identifier, once. |
| `ArchiveFilterBuilder.Builder.ForEmployees` | packages/core/src/archived/ArchiveFilterBuilder.ts:118-123 | The new builder state as a whole: adds identifiers in first-occurrence order. |
| `ArchiveFilterBuilder.Builder.WithAsset` | packages/core/src/archived/ArchiveFilterBuilder.ts:128-131 | The new builder state as a whole: adds one asset, once. |
| `ArchiveFilterBuilder.Builder.WithAssets` | packages/core/src/archived/ArchiveFilterBuilder.ts:136-141 | The new builder state as a whole: adds assets in first-occurrence order. |
| `ArchiveFilterBuilder.Builder.WithStatus` | packages/core/src/archived/ArchiveFilterBuilder.ts:147-150 | The new builder state as a whole: sets the status. |
| `ArchiveFilterBuilder.Builder.WithMinAmount` | packages/core/src/archived/ArchiveFilterBuilder.ts:157-163 | The new builder state as a whole: refuses a negative minimum and then changes nothing. |
| `ArchiveFilterBuilder.Builder.WithMaxAmount` | packages/core/src/archived/ArchiveFilterBuilder.ts:170-179 | The new builder state as a whole: refuses a maximum below the minimum and then changes nothing. |
| `ArchiveFilterBuilder.Builder.Reset` | packages/core/src/archived/ArchiveFilterBuilder.ts:194-204 | The new builder state as a whole: returns to the initial state. |
| `ArchiveFilterBuilder.Builder.Build` | packages/core/src/archived/ArchiveFilterBuilder.ts:210-225 | The snapshot is the state at the call, as a value no later call can reach. |
| `ArchiveFilterBuilder.ToParams` | packages/core/src/archived/ArchiveFilterBuilder.ts:25-61 | The record filled field by field holds exactly the set filters, each as its text. |
| `ArchiveFilterBuilder.RunKeepsClean` | packages/core/src/archived/ArchiveFilterBuilder.ts:101-204 | Over every run of calls with non-empty, comma-free identifiers and assets, the state stays clean and the minimum non-negative. |
| `ArchiveFilterBuilder.LastCallDecides` | packages/core/src/archived/ArchiveFilterBuilder.ts:101-204 | Over every run, the period, status, page options and amounts are those of the last call that set them; a refused amount leaves the earlier one. |
| `ArchiveFilterBuilder.NamedExactly` | packages/core/src/archived/ArchiveFilterBuilder.ts:110-204 | The identifiers and assets of any run are exactly those named since the last reset, each once. |
| `ArchiveFilterBuilder.AddAllOrder` | packages/core/src/archived/ArchiveFilterBuilder.ts:118-141 | New identifiers are appended in the order of their first occurrence. |
| `ArchiveFilterBuilder.ResetForgets` | packages/core/src/archived/ArchiveFilterBuilder.ts:194-204 | A run is the run of the calls after its last reset. |
| `ArchiveFilterBuilder.BoundsMayCross` | packages/core/src/archived/ArchiveFilterBuilder.ts:157-179 | Setting the maximum before the minimum is accepted with an empty range. |
| `ArchiveQuery.IdsSurvive` | packages/core/src/archived/internal.ts:28-35 | Joining identifiers with commas and splitting again restores their set if and only if each is non-empty and comma-free. |
| `ArchiveQuery.QueryMeansSnapshot` | packages/core/src/archived/internal.ts:21-91 | Serialising a snapshot to string parameters, reparsing and filtering is filtering by the snapshot directly. |
| `ArchiveQuery.BigIntExactly` | packages/core/src/archived/internal.ts:46-47 | The amount texts that read back, and as what. |
| `ArchiveQuery.QueryOfAnyRun` | packages/core/src/archived/internal.ts:21-91 | The same for the state reached by any run of clean builder calls. |
| `ArchiveQuery.PageOfSnapshot` | packages/core/src/archived/query.ts:64-91 | A page of a built query is the page of the records its snapshot selects, with call-site options overriding the embedded ones; it is refused exactly when the two dates parse and are out of order. |
| `ArchiveQuery.ArchiveIterator` | packages/core/src/archived/query.ts:117-135 | The streamed pages concatenate to the filtered records, each once, only the last page short. |
| `ArchiveQuery.BuildArchiveSummaryReport` | packages/core/src/archived/summary.ts:36-88 | One pass: totals count the filtered records, completed and failed add up, and the breakdown holds for each own key exactly its counts. |
| `ArchiveQuery.BreakdownSums` | packages/core/src/archived/summary.ts:52-71 | Per-asset counts sum to the totals if and only if no record's asset names a property every object inherits. |
| `ArchiveQuery.BreakdownExactly` | packages/core/src/archived/summary.ts:52-71 | The entry of a key counts the records filed under it, completed and failed; absent and empty assets are filed under "unknown". |
| `CommitmentDiff.ComparePayrollCommitments` | packages/core/src/batch/diff.ts:3-35 | The two loops return additions and modifications in proposed order, then removals in current order, of the two last-wins indexes. |
| `CommitmentDiff.IndexKeepsLast` | packages/core/src/batch/diff.ts:8-9 | The index holds each recipient's last commitment. |
| `CommitmentDiff.DiffIsAPatch` | packages/core/src/batch/diff.ts:3-35 | Applying the difference to the current roster, checking every old value on the way, gives the proposed roster. |
| `CommitmentDiff.EmptyIffEqual` | packages/core/src/batch/diff.ts:3-35 | The difference is empty if and only if the rosters are equal. |
| `BatchDiffEngine.DiffBatches` | packages/core/src/batches/engine.ts:50-116 | The loops and in-place sorts compute the specified report. |
| `BatchDiffEngine.IndexKeepsFirst` | packages/core/src/batches/engine.ts:57-64 | The index holds the first record of each key. |
| `BatchDiffEngine.SwappingArguments` | packages/core/src/batches/engine.ts:50-116 | Swapping the batches swaps added and removed, and keeps the changed ids, fields, kinds and their order. |
| `BatchDiffEngine.NoDifferences` | packages/core/src/batches/engine.ts:73-115 | No difference is reported if and only if both batches have the same keys with equal amount texts, assets, and the four other compared fields (text differences only). |
| `BatchDiffEngine.ReportHidesAmounts` | packages/core/src/batches/engine.ts:40-44 | Unless amounts are to be shown, no record in a report carries one. |
| `BatchDiffReport.EntriesExactly` | packages/core/src/batches/engine.ts:65-107 | The three lists hold exactly the entries of the keys only one batch has and of those whose records differ, with kind, fields and both records as reported, each key once in text order; the total counts them. |
| `BatchDiffReport.FieldsExactly` | packages/core/src/batches/engine.ts:76-93 | The changed fields are exactly those that differ, the amount first, the asset next, the others in text order. |
| `BatchDiffReport.KeyExactly` | packages/core/src/batches/engine.ts:25-28 | A record goes by its id, or by its position where the id is missing or blank. |
| `BatchDiffReport.AmountTextExactly` | packages/core/src/batches/engine.ts:35-39 | The texts by which amounts are compared; an amount of another type counts as none. |
| `PayrollBatchDiff.DiffPayrollBatches` | packages/core/src/batches/diff.ts:115-275 | The loops over both drafts, the draft-level comparisons and the final sorts compute the specified report: recipients with amounts, assets and commitments, the three id lists, asset and metadata changes, the two metadata commitments, and the ordered field names. |
| `PayrollBatchDiff.ComparePayrollDrafts` | packages/core/src/batches/diff.ts:313-322 | The comparison for approvals has the verdict and changed fields of the revealing difference. |
| `PayrollBatchDiff.IndexRecipients` | packages/core/src/batches/diff.ts:325-337 | The index loop computes the first-occurrence index. |
| `PayrollBatchDiff.IndexKeepsFirst` | packages/core/src/batches/diff.ts:325-337 | That index holds the first recipient of each id. |
| `PayrollBatchDiff.NoDifferenceMeansAgreement` | packages/core/src/batches/diff.ts:115-275 | No difference is reported if and only if the first-occurrence rosters (amounts compared numerically) and all compared metadata agree. |
| `PayrollBatchDiff.ShowingChangesNoVerdict` | packages/core/src/batches/diff.ts:366-368 | Revealing amounts does not change which fields are reported. |
| `PayrollBatchDiff.RecipientsListed` | packages/core/src/batches/diff.ts:131-190 | The recipients listed are exactly the added, removed and edited ones, and each list is in collated order. |
| `PayrollBatchReport.ListsExactly` | packages/core/src/batches/diff.ts:131-194 | The added, removed and edited ids are exactly those only in the modified draft, only in the original, and in both with a numerically different amount or another asset; each once, in code-unit order. |
| `PayrollBatchReport.EntriesExactly` | packages/core/src/batches/diff.ts:131-190 | The reported recipients are exactly the true entries, with the previous and current amount, asset and commitment of the two drafts, and none is reported twice. |
| `PayrollBatchReport.EntriesOrdered` | packages/core/src/batches/diff.ts:234-238 | Entries come by collated id, then by kind: added, removed, edited. |
| `PayrollBatchReport.FieldsExactly` | packages/core/src/batches/diff.ts:192-263 | The changed fields are exactly those in which the drafts differ, each once, in the documented order. |
| `PayrollBatchReport.ChangesExactly` | packages/core/src/batches/diff.ts:160-243 | The asset changes and the metadata changes are exactly the changed ones, with both values (totals shown or hidden), in collated order. |
| `PayrollBatchReport.CommitmentsExactly` | packages/core/src/batches/diff.ts:245-299 | The two metadata commitments are the prefixed digests of the bar-joined metadata, and are flagged as changed exactly when they differ. |
| `PayrollBatchDiff.KeyOrder` | packages/core/src/batches/diff.ts:235-238 | The sort key orders by collated id first and by kind second. |
| `PayrollBatchDiff.OrderIrrelevant` | packages/core/src/batches/diff.ts:234-243 | When distinct names collate differently, the whole report does not depend on the order of the recipients in either draft. |
| `PayrollBatchDiff.AmountsHidden` | packages/core/src/batches/diff.ts:366-368 | Unless amounts are revealed, no recipient amount and no total is reported. |
| `PayrollBatchDiff.CommitmentChanges` | packages/core/src/batches/diff.ts:245-272 | When the two texts do not collide, the commitment of a draft without separators changes if and only if the metadata does. |
| `PayrollBatchDiff.CommitmentBindsMetadata` | packages/core/src/batches/diff.ts:288-299 | The committed text of a draft determines its metadata, among all drafts, if and only if none of its fields holds the separator (policy and approvals ranging over all texts). |
| `PayrollBatchDiff.CommitmentAmbiguous` | packages/core/src/batches/diff.ts:288-299 | Two drafts with different ids and totals that are committed to by one text. |
| `MultiSigner.MultiSignerCoordinator.CreateAuthorizationRequest` | packages/core/src/authorization/MultiSignerCoordinator.ts:25-52 | The whole new state: stores a request with one pending, unassigned slot for each role. |
| `MultiSigner.MultiSignerCoordinator.AddSigner` | packages/core/src/authorization/MultiSignerCoordinator.ts:54-70 | The whole new state: assigns the first slot of the role, or refuses and changes nothing. |
| `MultiSigner.MultiSignerCoordinator.RecordSignature` | packages/core/src/authorization/MultiSignerCoordinator.ts:72-112 | The whole new state: all five refusals, else the slot is signed and the nonce remembered. |
| `MultiSigner.MultiSignerCoordinator.RecordRejection` | packages/core/src/authorization/MultiSignerCoordinator.ts:114-136 | The whole new state: all four refusals, else the first slot of the address is rejected. |
| `MultiSigner.MultiSignerCoordinator.RevokeSignature` | packages/core/src/authorization/MultiSignerCoordinator.ts:138-150 | The whole new state: the first slot of the address is revoked in any state. |
| `MultiSigner.RunEvolves` | packages/core/src/authorization/MultiSignerCoordinator.ts:54-150 | Over every run, a slot keeps its role and assigned address, moves only from pending to a decision and from anything to revoked, and revoked absorbs. |
| `MultiSigner.RefusedExactly` | packages/core/src/authorization/MultiSignerCoordinator.ts:54-150 | Each refusal of each call by its condition, the slot in question being the first one with the given role or address. |
| `MultiSigner.EffectExactly` | packages/core/src/authorization/MultiSignerCoordinator.ts:54-150 | What an accepted call changes: that slot, the nonces after a signature, and nothing else. |
| `MultiSigner.CreatedExactly` | packages/core/src/authorization/MultiSignerCoordinator.ts:25-52 | A new request has one pending, unassigned slot for each role and expires after the given span. |
| `MultiSigner.NoReplay` | packages/core/src/authorization/MultiSignerCoordinator.ts:97-108 | A nonce accepted for a request and an address is never accepted again, whatever calls happen in between. |
| `MultiSigner.HistoryKeyInjective` | packages/core/src/authorization/MultiSignerCoordinator.ts:97 | History keys of colon-free request ids are shared by no two (request, address) pairs. |
| `MultiSigner.SignedInTime` | packages/core/src/authorization/MultiSignerCoordinator.ts:82-111 | A slot becomes signed only by a signature call for it, from pending, with the checked clock reading not past the expiry. |
| `MultiSigner.NothingSignedAfterExpiry` | packages/core/src/authorization/MultiSignerCoordinator.ts:82-84 | Once readings are past the expiry, no run signs a slot. |
| `MultiSigner.RecordedAfterExpiry` | packages/core/src/authorization/MultiSignerCoordinator.ts:82-111 | The stored signing time exceeds the expiry if and only if the clock passes it between the check and the second reading. |
| `MultiSigner.RunKeepsAssigned` | packages/core/src/authorization/MultiSignerCoordinator.ts:86-95 | With non-empty addresses, only assigned slots are ever decided. |
| `MultiSigner.UnanimousMeans` | packages/core/src/authorization/MultiSignerCoordinator.ts:214-218 | Unanimous approval holds if and only if the request is not expired and every slot that is not rejected is signed. |
| `MultiSigner.ThresholdMeans` | packages/core/src/authorization/MultiSignerCoordinator.ts:220-222 | Threshold approval holds if and only if the request is not expired, the threshold is present and not zero, and at least that many slots are signed. |
| `MultiSigner.WeightedMeans` | packages/core/src/authorization/MultiSignerCoordinator.ts:224-240 | Weighted approval holds if and only if the request is not expired and twice the weight of the signed slots, summed role by role, is at least the weight of all slots. |
| `MultiSigner.StatusMeans` | packages/core/src/authorization/MultiSignerCoordinator.ts:152-190 | The other figures of a status, as numbers of slots in a state, and exactly one of approved, pending and expired. |
| `MultiSigner.AllRejectedIsApproved` | packages/core/src/authorization/MultiSignerCoordinator.ts:25-218 | After a run in which the only signer rejects, the request counts as unanimously approved exactly until it expires. |
| `MultiSigner.ApprovalPersists` | packages/core/src/authorization/MultiSignerCoordinator.ts:152-245 | Under every policy with non-negative weights, an approved request stays approved over any run without a revocation of it, until and only until it expires. |
| `ProofArtifacts.ValidateCompatibility` | packages/core/src/artifacts/ProofArtifactLifecycleManager.ts:132-153 | Versions are accepted if and only if all four agree. |
| `ProofArtifacts.VerifyHash` | packages/core/src/artifacts/ProofArtifactLifecycleManager.ts:184-201 | Bytes are accepted if and only if their hash is the descriptor's, case folded, and their length the declared one. |
| `ProofArtifacts.LoadedMatches` | packages/core/src/artifacts/ProofArtifactLifecycleManager.ts:155-182 | Whatever cache and loader answer, the artifact returned and the entry written match the descriptor. |
| `ProofArtifacts.DeliveredExactly` | packages/core/src/artifacts/ProofArtifactLifecycleManager.ts:155-182 | Exactly when an artifact is delivered and from where; a fresh entry that fails its check is not replaced by a load, and a failed cache write counts as a failed load. |
| `ProofArtifacts.StaleExactly` | packages/core/src/artifacts/ProofArtifactLifecycleManager.ts:168-181 | A delivered artifact is stale if and only if it is an expired cached entry used after a failed load with the fallback allowed. |
| `ProofArtifacts.WrittenExactly` | packages/core/src/artifacts/ProofArtifactLifecycleManager.ts:168-173 | An entry is stored if and only if no usable one was found, the policy asks for it and the load matches; it holds the loaded bytes and the clock reading. |
| `ProofArtifacts.FailureExactly` | packages/core/src/artifacts/ProofArtifactLifecycleManager.ts:155-182 | Which error is reported when nothing is delivered. |
| `ProofArtifacts.ManifestExactly` | packages/core/src/artifacts/ProofArtifactLifecycleManager.ts:100-130 | A manifest is accepted if and only if it is named, lists every kind and has well-formed hashes. |
| `ProofArtifacts.MismatchExactly` | packages/core/src/artifacts/ProofArtifactLifecycleManager.ts:132-153 | The reported version is the first of the four that differs. |
| `ProofArtifacts.KeysTellApart` | packages/core/src/artifacts/ProofArtifactLifecycleManager.ts:207-215 | Within one manifest two descriptors share a cache entry if and only if they have the same kind and hash. |
| `ProofArtifacts.ReturnedSetMatches` | packages/core/src/artifacts/ProofArtifactLifecycleManager.ts:77-130 | A returned set holds each required kind, as the manifest's last descriptor of that kind, matching its well-formed hash and its size. |
| `ProofArtifacts.ByKindLast` | packages/core/src/artifacts/ProofArtifactLifecycleManager.ts:88-97 | Folding by kind keeps the last artifact of each kind that occurs. |
| `ProofArtifacts.MemoryProofArtifactCache.LoadThrough` | packages/core/src/artifacts/ProofArtifactLifecycleManager.ts:155-182 | Loading one artifact over the in-memory cache: result and new cache content as specified. |
| `ProofArtifacts.RunConsistent` | packages/core/src/artifacts/ProofArtifactLifecycleManager.ts:171-173 | Any interleaving of writes by such loads, whatever they had read, leaves only entries whose hash is the one their key ends in. |
| `ProofArtifacts.HitFailsOnlyOnSize` | packages/core/src/artifacts/ProofArtifactLifecycleManager.ts:163-166 | Over such a cache a usable entry can fail its check only over the declared size, even when keys of different circuits or versions collide. |
| `MemoryCache.MemoryCacheProvider.Get` | packages/core/src/cache/MemoryCacheProvider.ts:24-36 | The answer and the whole new store: an entry strictly past its expiry is dropped and not returned, and a stored `null` reads as absent. |
| `MemoryCache.MemoryCacheProvider.Has` | packages/core/src/cache/MemoryCacheProvider.ts:72-74 | The answer and the whole new store: answers as `get`, with its eviction. |
| `MemoryCache.MemoryCacheProvider.SetWithMetadata` | packages/core/src/cache/MemoryCacheProvider.ts:62-70 | The answer and the whole new store: the entry replaces the key's previous one; a zero lifetime never ends. |
| `MemoryCache.MemoryCacheProvider.GetWithMetadata` | packages/core/src/cache/MemoryCacheProvider.ts:42-60 | The answer and the whole new store: an entry at or past its expiry is dropped and not returned. |
| `MemoryCache.LazyEvictionInvisible` | packages/core/src/cache/MemoryCacheProvider.ts:24-40 | Over every run of set, get and has with a non-decreasing clock, each answer is that of a log that forgets no write. |
| `MemoryCache.AnswersExactly` | packages/core/src/cache/MemoryCacheProvider.ts:24-74 | What each read answers, said of the last write of its key alone, lifetimes, `null`, age and revision included. |
| `MemoryCache.NeverWritten` | packages/core/src/cache/MemoryCacheProvider.ts:24-74 | A key that was never written is found by no read. |
| `MemoryCache.VisibleExactly` | packages/core/src/cache/MemoryCacheProvider.ts:24-60 | With metadata reads in the run, an answer differs from the log's if and only if it is a get or has, of an entry that is not `null`, at the very instant of expiry after a metadata read at that instant. |
| `MemoryCache.MetadataReadEvicts` | packages/core/src/cache/MemoryCacheProvider.ts:28-46 | A concrete run: found, evicted by a metadata read, then gone, all at the instant of expiry. |
| `MemoryCache.MetadataNeverStale` | packages/core/src/cache/MemoryCacheProvider.ts:42-60 | A returned entry is never marked stale, and its age is the time since its write. |
| `MemoryCache.NullReadsAsAbsent` | packages/core/src/cache/MemoryCacheProvider.ts:24-74 | A stored `null` reads as absent through get and has until it expires, while its metadata is still returned. |
| `AssetRegistry.AssetRegistryClass.constructor` | packages/core/src/assets/AssetRegistry.ts:81-96 | The initial list is added in order to both maps. |
| `AssetRegistry.AssetRegistryClass.Register` | packages/core/src/assets/AssetRegistry.ts:119-133 | The whole new state: the replaced asset's symbol entry is dropped before the new one is added. |
| `AssetRegistry.AssetRegistryClass.RegisterMany` | packages/core/src/assets/AssetRegistry.ts:141-145 | The whole new state: the inputs registered one after the other. |
| `AssetRegistry.AssetRegistryClass.Remove` | packages/core/src/assets/AssetRegistry.ts:213-219 | The whole new state: both entries are dropped; an unknown identifier changes nothing. |
| `AssetRegistry.AssetRegistryClass.Get` | packages/core/src/assets/AssetRegistry.ts:163-175 | Looks up the identifier, then the symbol index, and changes nothing. |
| `AssetRegistry.RunSound` | packages/core/src/assets/AssetRegistry.ts:81-133 | After any run from a well indexed initial list, every symbol entry points to a live asset with that case-folded symbol. |
| `AssetRegistry.LiveExactly` | packages/core/src/assets/AssetRegistry.ts:119-219 | Over every run, the last operation on an identifier decides whether it is live, and it is stored as given, only an absent display format becoming decimal. |
| `AssetRegistry.UntouchedExactly` | packages/core/src/assets/AssetRegistry.ts:81-96 | An identifier no operation names stays as its last entry in the initial list. |
| `AssetRegistry.AlwaysSound` | packages/core/src/assets/AssetRegistry.ts:81-219 | No symbol entry dangles after any run at all if and only if the initial list is well indexed. |
| `AssetRegistry.InitialSoundExactly` | packages/core/src/assets/AssetRegistry.ts:81-96 | Any initial list is indexed soundly if and only if, for each entry whose folded symbol does not recur later, the last entry with its identifier still has that folded symbol. |
| `AssetRegistry.DistinctIdsIndexed` | packages/core/src/assets/AssetRegistry.ts:81-96 | Distinct identifiers make an initial list well indexed. |
| `AssetRegistry.FindsOnlyMatches` | packages/core/src/assets/AssetRegistry.ts:163-175 | Hence a lookup only ever finds an asset with that identifier or symbol, and always finds a live identifier. |
| `AssetRegistry.RepeatedInitialId` | packages/core/src/assets/AssetRegistry.ts:81-96 | Of two entries with one identifier and different symbols, the first symbol is left pointing at an asset that does not have it. |
| `AssetRegistry.LookupIsScan` | packages/core/src/assets/AssetRegistry.ts:163-175 | From a well indexed list, if no two live assets ever share a symbol, a lookup equals the identifier lookup followed by a linear scan of the live assets. |
| `AssetRegistry.SharedSymbolHides` | packages/core/src/assets/AssetRegistry.ts:213-219 | With a shared symbol, removing one asset hides the other from lookups by symbol. |
| `Deduplication.ValidateDeduplicationInput` | packages/core/src/batch/deduplication.ts:29-72 | Input is accepted if and only if there are entries and keys, all keys are known and every entry has every field. |
| `Deduplication.DetectDuplicates` | packages/core/src/batch/deduplication.ts:110-148 | The nested loops over a map of index lists return the specified groups, key by key, in the order the values first occur. |
| `Deduplication.GroupsAreClasses` | packages/core/src/batch/deduplication.ts:119-145 | The groups under a key are exactly the classes of equal values with more than one member, with all their indices ascending. |
| `Deduplication.GroupsDistinct` | packages/core/src/batch/deduplication.ts:135-144 | No group is reported twice. |
| `Deduplication.GroupsInOrder` | packages/core/src/batch/deduplication.ts:119-145 | Groups come key by key, and under a key in the order in which their values first occur. |
| `Deduplication.FaultExactly` | packages/core/src/batch/deduplication.ts:29-72 | Which fault of the input is reported: the first unknown key, or the first key and entry with a field missing. |
| `Deduplication.FieldExactly` | packages/core/src/batch/deduplication.ts:48-69 | The fields that can be compared, and what absent ones count as. |
| `Deduplication.SameTextSameValue` | packages/core/src/batch/deduplication.ts:125-126 | Comparing normalised texts is comparing values, for amounts too. |
| `Deduplication.DuplicateErrorsMatchGroups` | packages/core/src/batch/BatchPayloadBuilder.ts:92-116 | The number of duplicate-recipient errors equals the sum of (group size - 1) over the groups; groups of a blank recipient, reported as missing instead, count nothing. |
| `BatchPayloads.BatchPayloadBuilder.Add` | packages/core/src/batch/BatchPayloadBuilder.ts:56-59 | The entry is appended. |
| `BatchPayloads.BatchPayloadBuilder.AddMany` | packages/core/src/batch/BatchPayloadBuilder.ts:62-67 | The entries are appended in order. |
| `BatchPayloads.BatchPayloadBuilder.Validate` | packages/core/src/batch/BatchPayloadBuilder.ts:80-138 | The loop over a seen-map returns exactly the specified errors in order, each duplicate naming the first entry with its recipient. |
| `BatchPayloads.BatchPayloadBuilder.Build` | packages/core/src/batch/BatchPayloadBuilder.ts:145-157 | Errors first, then the failing sum, else the payload. |
| `BatchPayloads.BuiltExactly` | packages/core/src/batch/BatchPayloadBuilder.ts:69-157 | A payload is built if and only if the batch is non-empty, fully described, with positive amounts and distinct recipients; it then holds the entries and their sum. |
| `BatchPayloads.ErrorsExactly` | packages/core/src/batch/BatchPayloadBuilder.ts:80-138 | Each validation error is reported if and only if its fault is present, once, entry by entry; a duplicate names the first entry with its recipient. |
| `BatchPayloads.AbsentAmountPasses` | packages/core/src/batch/BatchPayloadBuilder.ts:118-151 | An absent amount passes validation, and building then fails without a validation error. |
| `BatchPayloads.ValidationMissesExactly` | packages/core/src/batch/BatchPayloadBuilder.ts:80-157 | A batch passes validation and still cannot be built if and only if it is valid but for at least one absent amount. |
| `EmployeeBatches.EmployeeBatchSchemaValidator.Validate` | packages/core/src/batch/employeeBatchSchemaValidator.ts:71-151 | The loop over two seen-maps returns exactly the specified errors in order. |
| `EmployeeBatches.EmployeeBatchSchemaValidator.Build` | packages/core/src/batch/employeeBatchSchemaValidator.ts:153-165 | Errors, or the batch with the sum of the salaries. |
| `EmployeeBatches.ErrorsCorrespond` | packages/core/src/batch/employeeBatchSchemaValidator.ts:48-54 | For every list of employees, validating the converted batch reports, in order, exactly the employee errors that concern payments (an absent salary excepted). |
| `EmployeeBatches.ErrorsExactly` | packages/core/src/batch/employeeBatchSchemaValidator.ts:71-151 | Each validation error is reported if and only if its fault is present, once, employee by employee. |
| `EmployeeBatches.ValidConverts` | packages/core/src/batch/employeeBatchSchemaValidator.ts:48-165 | A valid employee batch converts to a payload with the same entries and the same total. |
| `EmployeeBatches.ConvertsExactly` | packages/core/src/batch/employeeBatchSchemaValidator.ts:48-54 | The converted batch is built if and only if only identifiers were wrong. |

## Left out

- Soroban and RPC clients, contract wrappers, event decoding, `PayrollService`, safe submission, idempotency, retries: calls into code that is not part of this model.
- `formatAmount`: it prints through binary floating point and the platform's locale data.
- Amount parsing: case folding beyond ASCII letters; in the second parser, what a symbol with regular-expression characters removes is a parameter; a symbol of digits, points and spaces only in the printing round trip.
- Fractional or `NaN` decimals, page sizes and thresholds: decimals, indices and thresholds are integers (page and record budgets are reals, because the code tests whether they are integers).
- `roundToIncrement`, `getMinimumRepresentableAmount`, `makeBoundsFromStrings`, `tryRoundAmount`: settled by reading one branch.
- Pagination: cursors are the abstract pair `encode`/`decode` with the round trip as an assumption; a payload with a non-integer index is not modelled; the backward stream starts on its last page and is only shown to cover what follows.
- Record filters in `pagination.ts` (`filterPayrollRecords`, `filterAuditRecords`): single conjunctions.
- Semaphore: the constructor's error for a permit count that is not a positive integer.
- `pollPayrollCompletion`: the `onAttempt` callback and the texts of its errors; `pollTransaction` and `waitForPayrollRunCompletion`.
- Audit packages: packages of the wrong shape on which the code throws a type error (`WellTyped`); message texts, kept as codes and indices; numbers and strings print abstractly, and which numbers print is a parameter.
- Archive queries: call-site options explicitly set to `undefined`; parameter names are an enumeration; `generatedAt` of the summary.
- Payroll draft differences: `localeCompare` orders by an abstract sort key; policy and approvals are present as their stable texts.
- `diffBatches`: the summary sentence, and the errors for arguments that are not objects.
- Multi-signer: approval percentage, generated ids and nonces, signing payloads, rejection reasons; requests are values, so a caller mutating a returned request is not modelled; weights are reals.
- `ProofArtifacts.LoadEach`: reports the first failure by position; when several loads fail the code reports the first in time. The fetching loader is one of the arbitrary loaders.
- Artifact cache: two loads of one key are interleaved only at their write, which is the only step that changes the map.
- Memory cache: lifetimes are exact reals, and the errors for a failing platform map are not modelled.
- Asset registry: icon, custom data, `getOrThrow`, `has`, the shared instance.
- Batches: a field that is `null` rather than `undefined` (the payment validator rejects a `null` amount); redaction and the summary text of duplicates; optional employee names.
- Role transfer, approval and access expiry, compliance, archive eligibility, configuration validators: short case analyses that would add only easy members.
