# Verification model of the ERP backend

A Dafny model of the parts of the backend where state, arithmetic or a graph algorithm carries a guarantee, with
proofs of those guarantees.

- **Ledger.** `Ledger` gives the posting engine's commands on values; `PostingEngine` is the engine with its rows
  updated in place, each method proved against them. `LedgerCommands` says what each command demands and leaves behind,
  read off the tables. `LedgerInvariant` shows what every run keeps, `TrialBalance`,
  `TrialBalanceRows` and `AccountCard` what the reports then show, `LedgerHistory` what never changes again. `Documents`,
  `PostingService`, `DocumentCommands` and `DocumentsInvariant` do the same for source documents that post through the engine.
- **Report formulas.** `FormulaText` has the two tokenisers and the evaluator, `FormulaMeaning` what formulas are worth,
  `TopologicalSort` the queue algorithm, `EvaluationOrder` its properties, `FormulaRows` the amounts of a whole report.
- **Document chain.** `DocumentGraph` and `CycleGuard` for the bounded search and the guard built on it, `Capacity`,
  `CapacityRules` and `CapacityInvariant` for claims, proposals and consumption.
- **Audit trail.** `CanonicalJson`, `CanonicalText`, `CanonicalJsonProofs` and `KeySorting` for the hashed text, `AuditLog`,
  `AuditLogProofs` and `TamperEvidence` for the hash chain, `AuditDiff` and `DiffContents` for the differences between
  snapshots.
- **Approvals.** `Approvals`, `ApprovalRules`, `ApprovalDesk`, `ApprovalsInvariant` for what runs keep, `ApprovalOutcome`
  for the status a document ends up with.
- **Money.** `Rounding`, `Calendar`, `PrepaidExpense`, `ScheduleMeaning`, `CostAllocation` and `CostAllocationProofs` for
  amounts whose last share absorbs rounding; `CashTransfers`, `CashDesks`, `CashCommands`, `CashTransfersInvariant` and
  `CashBalances` for cash moved between desks.
- `Wrappers`, `Seqs` and `Ordering` hold what the others share.

One public method or transaction body is one atomic step; a step that throws leaves the state as it was, except
where the code writes outside a transaction before throwing (an expired or stale proposal). Tables are maps or
sequences. Ledger amounts count units of the fourth decimal, chain quantities of the sixth, cash and expenses cents;
shares are exact fractions. What lives elsewhere is a parameter: open periods, the chart, posting handlers,
eligibility adapters, the approver rule, generated ids, clocks and the hash function.

Findings, some of them places where the code differs from what its comments say; the model follows the code:

- An audit event recorded without old or without new values is hashed without that key but verified with null, so it
  is reported as a mismatch for ever (`MismatchIff`, `WindowVerifiesIff`), although an untouched event is meant never to
  be reported (`backend/src/audit/audit-canonical-json.util.ts:4-12`).
- Tenants and organizations are set up with audit rows written past the recorder, without a hash
  (`backend/src/tenant/tenant.service.ts:59-69`, `backend/src/org-structure/organization.service.ts:62-72`). They are never
  reported, the next event starts the chain anew, and what is deleted right before that is not noticed (`DeletedBlockIff`).
- A chain fork is said to be a candidate for review and not an invalid verdict
  (`backend/src/audit-trail/audit-integrity.service.ts:20-26`); `verify` calls the log invalid (`ForkIsReportedIff`).
- A document whose plan consists of skipped steps only stays PENDING until it is planned again (`AllSkippedNeverApproved`);
  what becomes of it otherwise is decided by the plan made last (`DecidedIffNotAllSkipped`).
- Editing a document's lines plans it again until a step was decided (`RunKeepsDecisions`). So NOT_REQUIRED and PENDING are
  never final for the types that do so, and APPROVED stays through later edits (`FinalIff`); and an empty plan over steps
  skipped earlier leaves NOT_REQUIRED beside steps (`ReplanShowsIff`).
- The inbox is said never to drift from what a decision accepts (`backend/src/approvals/approval.service.ts:72-74`);
  it lists the creator's own documents, which a decision refuses (`InboxShowsDecisions`).
- Unposting a reversal leaves its original REVERSED for good (`UnpostedReversalStrandsOriginal`), and a document's entry
  reversed by hand is missed by the document's own unpost (`ReversedByHandThenUnposted`).
- The formula parser and the evaluator disagree on two names side by side and on rows named like numbers
  (`TokenisersAgreeIff`, `NumeralIsReadNotReported`).
- The cycle guard looks 50 links far (`LongChainEscapes`, `GuardedRunIff`), and nothing under `backend/src` calls it. Document
  keys can clash when a type holds a colon (`KeyClash`); the search is complete exactly when they do not.
- Claims may be negative (`NegativeClaimOverruns`), and two transformation codes do not see each other's consumption
  of one line (`TwoCodesOverrun`). A STALE proposal is accepted after all when its hash fits again
  (`StaleIsForgotten`).
- A reordered collection is never reported, although a change type for it is declared
  (`ReorderingIsNotReported`), and a field that changes between a list and a number, a truth value or an object makes
  the comparison throw (`DiffIff`).
- An allocation can end in a negative last line that the ledger refuses (`ThreeCentsCannotBePosted`,
  `DirectRunPostsIff`). The source amount is said to be of posted claim lines
  (`backend/src/expenses/cost-allocation.service.ts:74-76`); any approved line counts (`UnpostedClaimsCount`).
- A prepaid expense that ends before its start's month gets no schedule at all (`WholeAmountIff`).
- Unposting a transfer can overdraw a desk whose policy is never to be negative (`UnpostOverdraws`).

## Model

| member | source | states |
|---|---|---|
| `PostingEngine.AccountingPostingEngine.CreateDraft` | backend/src/accounting-core/accounting-posting-engine.service.ts:81-126 | creates a DRAFT entry with the written lines, or changes nothing and reports a shape or dimension error |
| `PostingEngine.AccountingPostingEngine.PostDraft` | backend/src/accounting-core/accounting-posting-engine.service.ts:128-181 | posts a draft at the expected version in an open period after validation, appending one movement per line; otherwise the stated error and no change |
| `PostingEngine.AccountingPostingEngine.Unpost` | backend/src/accounting-core/accounting-posting-engine.service.ts:189-227 | removes exactly the entry's movements and returns it to DRAFT, or fails without change |
| `PostingEngine.AccountingPostingEngine.Reverse` | backend/src/accounting-core/accounting-posting-engine.service.ts:236-355 | adds a posted entry with flipped lines and marks the original REVERSED, without validating the lines; rolled back on an unknown dimension |
| `PostingEngine.AccountingPostingEngine.PostBatch` | backend/src/accounting-core/accounting-posting-engine.service.ts:364-442 | duplicate, shape and period checks, then lines, validation and movements of a new POSTED entry, all or nothing |
| `PostingEngine.AccountingPostingEngine.CheckBatch` | backend/src/accounting-core/accounting-posting-engine.service.ts:366-379 | the order of the refusals made before any line of a batch is written |
| `PostingEngine.AccountingPostingEngine.AssertShapeValid` | backend/src/accounting-core/accounting-posting-engine.service.ts:448-458 | true exactly for a non-empty list of lines with positive amounts |
| `PostingEngine.AccountingPostingEngine.WriteLines` | backend/src/accounting-core/accounting-posting-engine.service.ts:460-505 | stores the resolved lines in order, or names the first unknown dimension |
| `PostingEngine.AccountingPostingEngine.WriteEntry` | backend/src/accounting-core/accounting-posting-engine.service.ts:90-126 | creates the entry with its resolved lines under the next id, or leaves nothing behind on an unknown dimension |
| `PostingEngine.AccountingPostingEngine.ValidateLinesForPosting` | backend/src/accounting-core/accounting-posting-engine.service.ts:507-552 | the first failing account or dimension check in line order, else a refusal exactly when total debits differ from total credits |
| `PostingEngine.AccountingPostingEngine.CreateMovementsForLines` | backend/src/accounting-core/accounting-posting-engine.service.ts:554-617 | appends one movement per line in line order, dated and keyed like the entry |
| `PostingEngine.AccountingPostingEngine.DeleteDrafts` | backend/src/document-framework/document-posting.service.ts:109-116 | deletes the draft entries of one source and nothing else |
| `LedgerCommands.ValidationPassesIff` | backend/src/accounting-core/accounting-posting-engine.service.ts:507-552 | validation passes exactly when debits equal credits and every account is known, active and open to posting and every binding required-dimension rule in force on the date is met; else the first line that fails decides the error, and only then the totals |
| `LedgerCommands.LinesAreStored` | backend/src/accounting-core/accounting-posting-engine.service.ts:460-505 | lines are stored one for one as given, each dimension under the last definition with that code or id, exactly when all are defined |
| `LedgerCommands.DraftIsCreated` | backend/src/accounting-core/accounting-posting-engine.service.ts:81-126 | a draft is made exactly of well-formed lines with defined dimensions, with the given organization, date and lines; nothing is posted |
| `LedgerCommands.DraftIsPosted` | backend/src/accounting-core/accounting-posting-engine.service.ts:128-181 | exact condition for posting a draft, the error of the first check that fails, and the one row per line that the register gains |
| `LedgerCommands.EntryIsUnposted` | backend/src/accounting-core/accounting-posting-engine.service.ts:189-227 | exact condition and errors of unposting; exactly the rows of the entry are gone |
| `LedgerCommands.EntryIsReversed` | backend/src/accounting-core/accounting-posting-engine.service.ts:236-355 | exact condition and errors of a reversal: accounts and balance are not looked at again |
| `LedgerCommands.ReversalIsEntered` | backend/src/accounting-core/accounting-posting-engine.service.ts:302-355 | the reversal is a posted entry of its own under the next id, and the original is only marked |
| `LedgerCommands.ReversalIsMirrored` | backend/src/accounting-core/accounting-posting-engine.service.ts:281-300 | it has the lines of the original on the other side, with the same account, amount, detail and dimensions |
| `LedgerCommands.BatchIsPosted` | backend/src/accounting-core/accounting-posting-engine.service.ts:364-442 | exact condition for posting a batch, the error of the first check that fails, and the entry and rows that it leaves |
| `LedgerCommands.DraftsAreDeleted` | backend/src/document-framework/document-posting.service.ts:109-116 | an entry is gone exactly when it is a draft of the source |
| `LedgerInvariant.ReversalLinesSound` | backend/src/accounting-core/accounting-posting-engine.service.ts:281-300 | the mirrored lines of a balanced entry are balanced, positive and opposite line by line, dimensions included, although nothing validates them |
| `LedgerInvariant.ReverseKeeps` | backend/src/accounting-core/accounting-posting-engine.service.ts:236-355 | a reversal keeps the ledger consistent; its balance follows from the original's |
| `LedgerInvariant.StepKeeps` | backend/src/accounting-core/accounting-posting-engine.service.ts:81-442 | every command, refused or not, keeps the ledger consistent |
| `LedgerInvariant.RunKeeps` | backend/src/accounting-core/accounting-posting-engine.service.ts:128-442 | in every reachable ledger movements exist only for POSTED and REVERSED entries, match their lines one for one, share one date and organization, and every such entry balances; a reversal mirrors exactly one earlier REVERSED entry |
| `TrialBalance.CutBalances` | backend/src/accounting-core/accounting-query.service.ts:47-61 | in a consistent ledger debits equal credits over any choice of organizations and dates |
| `TrialBalance.GroupToMap` | backend/src/accounting-core/accounting-query.service.ts:208-218 | the map holds for each account and side the sum of the last row listed for them, zero when there is none |
| `TrialBalance.GroupingIsFigure` | backend/src/accounting-core/accounting-query.service.ts:47-64 | grouped sums, a missing group counting as zero, are the true sums of the movements |
| `TrialBalance.ComputeTrialBalance` | backend/src/accounting-core/accounting-query.service.ts:47-82 | the rows computed from the two grouped sums show each account's true opening, turnover and closing figures |
| `TrialBalance.TrialBalanceBalances` | backend/src/accounting-core/accounting-query.service.ts:66-81 | opening, turnover and closing columns of a full-chart trial balance each have equal debit and credit totals, for any from and to |
| `TrialBalance.RunStaysOnChart` | backend/src/accounting-core/accounting-posting-engine.service.ts:522-526 | over every run movements name only accounts of the chart, reversals included |
| `TrialBalance.TrialBalanceAfterAnyRun` | backend/src/accounting-core/accounting-query.service.ts:33-82 | after any run from the empty ledger the trial balance over the whole chart balances in all three pairs of columns |
| `TrialBalanceRows.OneMoreMovement` | backend/src/accounting-core/accounting-query.service.ts:47-77 | a movement before the period raises the opening column of its own side on the row of its account, one within it the turnover column, by its amount; no other of these columns changes |
| `TrialBalanceRows.ClosingShowsNet` | backend/src/accounting-core/accounting-query.service.ts:69-79 | neither closing column is negative, at most one is not zero, and their difference is the net of the other four |
| `TrialBalanceRows.OneMoreOnCard` | backend/src/accounting-core/accounting-query.service.ts:133-145 | the balance of a card through a day gains each debit and loses each credit of the account dated up to it |
| `AccountCard.ComputeAccountCard` | backend/src/accounting-core/accounting-query.service.ts:111-153 | at the end of each day the running balance is the account's true balance through that day, whatever the order within the day, and the closing balance is the trial balance's |
| `AccountCard.DayEnd` | backend/src/accounting-core/accounting-query.service.ts:133-145 | the listed rows up to the end of a day sum to the account's net movement from the start of the card to that day |
| `LedgerHistory.RunKeepsClosed` | backend/src/accounting-core/accounting-posting-engine.service.ts:147-202 | while a set of dates stays closed the register on those dates is frozen row for row over every run |
| `LedgerHistory.ClosedTrialBalanceIsConstant` | backend/src/accounting-core/accounting-query.service.ts:47-81 | a trial balance whose whole past is closed has the same rows at the end of any run, reversals into open dates included |
| `LedgerHistory.RunKeepsReversed` | backend/src/accounting-core/accounting-posting-engine.service.ts:143-145 | a REVERSED entry, its lines and its movements never change again |
| `LedgerHistory.ReversalsAlternate` | backend/src/accounting-core/accounting-posting-engine.service.ts:236-355 | after k successive reversals the chain nets, on every account and dimension set and every cut holding the dates, to the original when k is even and to zero when k is odd |
| `LedgerHistory.ReversalNet` | backend/src/accounting-core/accounting-posting-engine.service.ts:281-296 | each reversal nets to the negative of the entry before it, per account and dimension set |
| `LedgerHistory.UnpostedReversalStrandsOriginal` | backend/src/accounting-core/accounting-posting-engine.service.ts:189-208 | unposting a reversal restores the register, but the original stays REVERSED with its movements in every later run |
| `LedgerHistory.VersionIsUsedOnce` | backend/src/accounting-core/accounting-posting-engine.service.ts:141-163 | once a post, unpost or reversal at some version of an entry went through, none at that version ever goes through again |
| `PostingService.DocumentPostingService.Post` | backend/src/document-framework/document-posting.service.ts:50-191 | guards in order, register rows rewritten and numbered from one, stale drafts dropped, the batch posted and the document marked POSTED, everything rolled back when a step fails |
| `PostingService.DocumentPostingService.SaveMovements` | backend/src/document-framework/document-posting.service.ts:86-106 | register rows are numbered one, two, three in the handler's order |
| `PostingService.DocumentPostingService.Unpost` | backend/src/document-framework/document-posting.service.ts:193-254 | guards in order, register rows removed and the source's active entry unposted, or no change |
| `PostingService.DocumentPostingService.FindActiveEntry` | backend/src/document-framework/document-posting.service.ts:220-222 | finds the earliest POSTED entry of the source, if there is one |
| `PostingService.DocumentPostingService.Cancel` | backend/src/document-framework/document-posting.service.ts:256-291 | marks an unposted document at the expected version CANCELLED, or fails without change |
| `DocumentCommands.PostGuardIff` | backend/src/document-framework/document-posting.service.ts:61-80 | the guards of posting, unposting and cancelling in order, the period being asked for the posting date or else the document date |
| `DocumentCommands.PostedDocumentIs` | backend/src/document-framework/document-posting.service.ts:86-163 | a posted document has the next version, its register rows are the movements of the handler numbered from one, and nothing else changes |
| `DocumentCommands.PostedEntryIs` | backend/src/document-framework/document-posting.service.ts:109-148 | the entry carries the key and organization of the document, its posting date or else its document date, and the lines of the batch |
| `DocumentCommands.PostIsRefused` | backend/src/document-framework/document-posting.service.ts:54-160 | guards first, then the handler, then the ledger |
| `DocumentCommands.UnpostedDocumentIs` | backend/src/document-framework/document-posting.service.ts:204-244 | an unposted document has the next version and no register rows, and those of others stay |
| `DocumentCommands.UnpostedEntryIs` | backend/src/document-framework/document-posting.service.ts:220-230 | the first posted entry of the source goes back to a draft and its rows go; without one the ledger stays |
| `DocumentCommands.CancelledDocumentIs` | backend/src/document-framework/document-posting.service.ts:256-291 | exact condition of cancelling; only the status and version change |
| `Documents.FindPosted` | backend/src/document-framework/document-posting.service.ts:220-222 | an entry it returns is POSTED and of that source, and none exists when it returns nothing |
| `DocumentsInvariant.RunMovesKeeps` | backend/src/document-framework/document-posting.service.ts:50-291 | over every run each source has at most one entry, POSTED only while its document is; register rows belong to posted documents and are numbered; no document is both CANCELLED and POSTED |
| `DocumentsInvariant.ManualCommandKeepsIff` | backend/src/document-framework/document-posting.service.ts:216-225 | a successful manual journal command keeps documents and journal together exactly when it does not reverse, hand-post or duplicate a document's entry |
| `DocumentsInvariant.ReversedByHandThenUnposted` | backend/src/document-framework/document-posting.service.ts:220-225 | without that guard: after a manual reversal, unposting the document leaves the original's movements with the document NOT_POSTED |
| `DocumentsInvariant.PostThenUnpostRestores` | backend/src/document-framework/document-posting.service.ts:204-244 | unposting what was just posted restores both registers exactly and the document but for its version |
| `DocumentsInvariant.PostAppends` | backend/src/document-framework/document-posting.service.ts:82-148 | posting appends one entry's movements and the document's register rows, and nothing else |
| `DocumentsInvariant.RepostEqualsPost` | backend/src/document-framework/document-posting.service.ts:82-148 | post, unpost, post with the same handler answers leaves the movements of a single post but for the entry's id |
| `FormulaText.Evaluate` | backend/src/financial-reporting/financial-report-formula.service.ts:67-77 | the loop over the tokens computes the value of the formula |
| `FormulaText.ValueIsMeaning` | backend/src/financial-reporting/financial-report-formula.service.ts:67-77 | the sign-tracking scan equals the signed sum over the segments between signs |
| `FormulaMeaning.SingleCode` | backend/src/financial-reporting/financial-report-formula.service.ts:67-83 | a formula that is one code has the amount of that row, or the value of the code as a literal when there is no such row |
| `FormulaMeaning.PlusAdds` | backend/src/financial-reporting/financial-report-formula.service.ts:67-77 | joining two formulas by a plus adds their values |
| `FormulaMeaning.MinusSubtracts` | backend/src/financial-reporting/financial-report-formula.service.ts:67-77 | joining a part without signs by a minus takes its value off |
| `FormulaMeaning.ValueIsLinear` | backend/src/financial-reporting/financial-report-formula.service.ts:67-83 | the value is linear in the amounts and the literals |
| `FormulaMeaning.WellSpacedValue` | backend/src/financial-reporting/financial-report-formula.service.ts:67-83 | the value of a well-spaced formula is the signed sum over its parts of the amounts of the rows they name, literals for the rest |
| `FormulaMeaning.DependenciesOfJoin` | backend/src/financial-reporting/financial-report-formula.service.ts:18-23 | what is reported for two formulas joined by a sign is what is reported for either, in order |
| `FormulaMeaning.DependencyOfPart` | backend/src/financial-reporting/financial-report-formula.service.ts:18-23 | a part without signs is reported as one trimmed name unless it is blank or a number |
| `FormulaMeaning.NumeralIff` | backend/src/financial-reporting/financial-report-formula.service.ts:22 | numbers are digits, or digits, a point and digits |
| `FormulaText.TokenisersAgreeIff` | backend/src/financial-reporting/financial-report-formula.service.ts:18-23 | the names the evaluator reads are those the parser reports, same order and number, if and only if no segment holds two names side by side |
| `FormulaText.SideBySideExample` | backend/src/financial-reporting/financial-report-formula.service.ts:68 | "A B" reads two rows and reports neither |
| `FormulaText.NumeralIsReadNotReported` | backend/src/financial-reporting/financial-report-formula.service.ts:22 | a numeral is read as an operand but never reported as a dependency |
| `FormulaText.ValueDependsOnDependencies` | backend/src/financial-reporting/financial-report-formula.service.ts:67-83 | the value of a well-spaced formula depends only on the reported rows and on rows named like numbers |
| `TopologicalSort.BuildGraph` | backend/src/financial-reporting/financial-report-formula.service.ts:30-40 | in-degrees and dependents count every occurrence of a dependency, repeats included |
| `TopologicalSort.TellAll` | backend/src/financial-reporting/financial-report-formula.service.ts:47-54 | telling the dependents of a placed row lowers their counts and queues exactly those that became ready, once each, in order |
| `TopologicalSort.PlaceNext` | backend/src/financial-reporting/financial-report-formula.service.ts:44-55 | one round places the front of the queue and keeps queue and counts right |
| `TopologicalSort.TopologicalOrder` | backend/src/financial-reporting/financial-report-formula.service.ts:29-62 | returns the greedy order when it holds every row, else the rows that never became ready |
| `EvaluationOrder.GreedyIsUnique` | backend/src/financial-reporting/financial-report-formula.service.ts:42-55 | the order is determined by the dependencies alone |
| `EvaluationOrder.InsertionOrderIsIrrelevant` | backend/src/financial-reporting/financial-report-formula.service.ts:30-60 | neither the order nor the reported rows depend on the order in which the map was filled |
| `EvaluationOrder.GreedyIsLeast` | backend/src/financial-reporting/financial-report-formula.service.ts:42-53 | the order is the lexicographically least valid one |
| `EvaluationOrder.StuckMeansCycle` | backend/src/financial-reporting/financial-report-formula.service.ts:57-60 | the rows reported on failure contain a cycle |
| `EvaluationOrder.SucceedsIffAcyclic` | backend/src/financial-reporting/financial-report-formula.service.ts:57-61 | the order is complete exactly when the dependency graph is acyclic |
| `EvaluationOrder.OrderContract` | backend/src/financial-reporting/financial-report-formula.service.ts:29-62 | complete exactly on acyclic graphs, then a permutation with every dependency earlier, and the least such order |
| `FormulaRows.OrderFormulas` | backend/src/financial-reporting/financial-report-formula.service.ts:29-62 | on formulas as text: success exactly when acyclic, the least valid order, else rows that are stuck |
| `FormulaRows.ResolveRows` | backend/src/financial-reporting/financial-report-formula.service.ts:64-83 | evaluates the rows one after the other in the given order |
| `FormulaRows.ResolvedSolves` | backend/src/financial-reporting/financial-report-formula.service.ts:64-77 | the amounts computed in a valid order satisfy every row equation |
| `FormulaRows.SolutionIsUnique` | backend/src/financial-reporting/financial-report-formula.service.ts:64-77 | the row equations have one solution for given leaf amounts |
| `FormulaRows.WellSpacedIsReadable` | backend/src/financial-reporting/financial-report-formula.service.ts:18-23 | every row read by a formula is reported when names are kept apart and no formula row is named like a number |
| `FormulaRows.AnyOrderSameAmounts` | backend/src/financial-reporting/financial-report-formula.service.ts:25-83 | every valid order gives the same amounts, and they are the only solution |
| `DocumentGraph.TransitiveClosure` | backend/src/document-chain/document-dependency-graph.service.ts:44-64 | on any links, cyclic or not, only documents within the depth, no key twice; every such document but the start, nearest first, over real edges, exactly when no two of them share a key |
| `DocumentGraph.ExploreLayer` | backend/src/document-chain/document-dependency-graph.service.ts:50-61 | one layer adds only documents one hop further, and all of them when keys do not clash |
| `DocumentGraph.KeyIsInjective` | backend/src/document-chain/document-dependency-graph.service.ts:54 | type:id keys tell documents apart when types hold no colon |
| `DocumentGraph.PlainTypesKeepApart` | backend/src/document-chain/document-dependency-graph.service.ts:54 | keys do not clash when no document type holds a colon |
| `CycleGuard.WithinIffPath` | backend/src/document-chain/document-dependency-graph.service.ts:44-64 | a document is found at a depth bound exactly when a path of at most that many links leads to it |
| `CycleGuard.ForwardMirrorsBackward` | backend/src/document-chain/document-dependency-graph.service.ts:30-38 | y is forward of x exactly when x is backward of y, at every depth bound |
| `CycleGuard.AssertNoCycle` | backend/src/document-chain/document-dependency-graph.service.ts:70-78 | a refusal always means that source and target are the same or the source lies forward of the target within the bound; it accepts exactly otherwise when keys do not clash |
| `CycleGuard.PassesIff` | backend/src/document-chain/document-dependency-graph.service.ts:44-77 | a link passes the guard exactly when no path of at most 50 active links leads from its target back to its source |
| `CycleGuard.AddedLinkIff` | backend/src/document-chain/document-dependency-graph.service.ts:66-69 | an added link keeps an acyclic graph acyclic exactly when its source is not reachable from its target |
| `CycleGuard.GuardedRunIff` | backend/src/document-chain/document-dependency-graph.service.ts:66-78 | links added one after the other through the guard leave an acyclic graph acyclic exactly when no accepted link had a way back at all; that a way back within the bound is never accepted is `AssertNoCycle`, that a longer one is, `LongChainEscapes` |
| `CycleGuard.GuardSuffices` | backend/src/document-chain/document-dependency-graph.service.ts:70-78 | when no shortest path is longer than 50 links, passing the guard and staying acyclic are the same; together with `LongChainEscapes` this says what the bound costs |
| `CycleGuard.LongChainEscapes` | backend/src/document-chain/document-dependency-graph.service.ts:44 | in every chain of more than 50 links, linking the end to the beginning passes the guard and closes a cycle |
| `Capacity.DocumentChainStore.PlaceClaim` | backend/src/document-chain/source-creation-claim.service.ts:29-64 | records an active claim exactly when the quantity fits the remaining capacity |
| `Capacity.DocumentChainStore.Release` | backend/src/document-chain/source-creation-claim.service.ts:66-72 | releases an active claim, leaves any other as it is |
| `Capacity.DocumentChainStore.Commit` | backend/src/document-chain/source-creation-claim.service.ts:74-81 | commits a known claim whatever its status |
| `Capacity.DocumentChainStore.ExpireDue` | backend/src/document-chain/source-creation-claim.service.ts:88-94 | expires exactly the active claims that are due and counts them |
| `Capacity.DocumentChainStore.GenerateProposal` | backend/src/document-chain/document-creation-proposal.service.ts:60-115 | proposes for each requested line the lesser of request and remaining capacity, under the source's hash |
| `Capacity.DocumentChainStore.AcceptProposal` | backend/src/document-chain/document-creation-proposal.service.ts:132-220 | status, expiry and staleness checks in order, then each line re-checked against what is left by then; consumption is all or nothing while expiry and staleness are recorded |
| `Capacity.DocumentChainStore.Cancel` | backend/src/document-chain/document-creation-proposal.service.ts:222-226 | cancels any proposal that is not accepted |
| `CapacityRules.OneMoreLinkCounts` | backend/src/document-chain/remaining-to-create.service.ts:56-83 | a consuming link takes its quantity from its own line, metric and code, a release or reversal gives it back, an adjustment does nothing |
| `CapacityRules.OneMoreClaimCounts` | backend/src/document-chain/source-creation-claim.service.ts:83-94 | a claim counts while it is active and its time is not up, whatever code made it |
| `CapacityRules.RemainingIff` | backend/src/document-chain/remaining-to-create.service.ts:56-83 | what is left is the capacity less what is committed and claimed and never negative; without an adapter there is an error |
| `CapacityRules.ClaimIsMadeIff` | backend/src/document-chain/source-creation-claim.service.ts:29-64 | exact condition for a claim, its expiry and its place in the table |
| `CapacityRules.ClaimsExpireIff` | backend/src/document-chain/source-creation-claim.service.ts:88-94 | a claim expires exactly when it is active and its time is over |
| `CapacityRules.LinesAreProposed` | backend/src/document-chain/document-creation-proposal.service.ts:66-90 | each proposed line is the request, or all that is left when nothing was asked or less is left |
| `CapacityRules.ProposalIsGeneratedIff` | backend/src/document-chain/document-creation-proposal.service.ts:60-115 | exact condition for a proposal and what it records |
| `CapacityRules.AcceptanceFails` | backend/src/document-chain/document-creation-proposal.service.ts:141-191 | which check refuses an acceptance first, and that only expiry and staleness are recorded |
| `CapacityRules.AcceptanceWrites` | backend/src/document-chain/document-creation-proposal.service.ts:185-214 | an acceptance writes one consuming link per line with something to take, in order, marks the proposal, and changes nothing else |
| `CapacityInvariant.RunKeepsCapacity` | backend/src/document-chain/document-creation-proposal.service.ts:185-212 | over every run with non-negative claims each code's committed consumption stays within a line's capacity, proposals naming a line twice included |
| `CapacityInvariant.RunKeepsReserved` | backend/src/document-chain/remaining-to-create.service.ts:56-83 | on a line that one code uses, committed consumption plus live claims stays within capacity over every run, whatever codes share the other lines |
| `CapacityInvariant.RunConsumesOnce` | backend/src/document-chain/document-creation-proposal.service.ts:142-214 | a proposal that is not accepted has consumed nothing; once accepted, its status and consumption never change |
| `CapacityInvariant.NegativeClaimOverruns` | backend/src/document-chain/source-creation-claim.service.ts:46 | a negative claim is accepted and lets the line be overdrawn by its amount |
| `CapacityInvariant.TwoCodesOverrun` | backend/src/document-chain/remaining-to-create.service.ts:60 | two codes whose proposals for all of a free line are generated and accepted in turn together consume the line twice over |
| `CapacityInvariant.ConsumeSucceedsIff` | backend/src/document-chain/document-creation-proposal.service.ts:185-212 | the re-checks line by line succeed exactly when every source line has room for all that the proposal takes from it, and exactly that is consumed |
| `CapacityInvariant.AcceptSucceedsIff` | backend/src/document-chain/document-creation-proposal.service.ts:141-214 | an acceptance goes through exactly when the proposal is GENERATED or STALE, not expired, its hash fits, the source exists and every source line has room for all that is taken from it; exactly that is then consumed |
| `CapacityInvariant.StaleIsForgotten` | backend/src/document-chain/document-creation-proposal.service.ts:142-156 | being marked STALE changes nothing: once the hash fits again the acceptance has the outcome it would have had |
| `CanonicalJsonProofs.TextIsInjective` | backend/src/audit/audit-canonical-json.util.ts:14-16 | the JSON printer is injective, string escaping as in section 7 of RFC 8259 |
| `CanonicalJsonProofs.CanonicalIff` | backend/src/audit/audit-canonical-json.util.ts:14-28 | two values have the same canonical text exactly when they differ only in key order at any depth |
| `CanonicalJsonProofs.SameSortsEqually` | backend/src/audit/audit-canonical-json.util.ts:18-28 | values that differ in key order sort to the same value |
| `KeySorting.SortKeysDeep` | backend/src/audit/audit-canonical-json.util.ts:18-28 | the recursion sorts the keys at every depth |
| `KeySorting.SortObject` | backend/src/audit/audit-canonical-json.util.ts:21-25 | filling an object over sorted keys enumerates index-like keys first, then the rest in order |
| `CanonicalText.KeysAreOrdered` | backend/src/audit/audit-canonical-json.util.ts:18-28 | the canonical form prints each key once: index keys first by number, then the others by text |
| `CanonicalText.IndexIff` | backend/src/audit/audit-canonical-json.util.ts:21-25 | index keys are the numbers up to 4294967294 without leading zeros |
| `CanonicalText.TextIs` | backend/src/audit/audit-canonical-json.util.ts:14-16 | the text of each kind of value as in RFC 8259, without white space |
| `CanonicalText.StringReadsBack` | backend/src/audit/audit-canonical-json.util.ts:14-16 | every string is read back from its quoted form by the rules of section 7 of RFC 8259 |
| `AuditLog.RedactDeep` | backend/src/audit/audit.service.ts:142-157 | the recursion masks the value of every sensitive key at any depth |
| `AuditLog.RedactedHasNoSecrets` | backend/src/audit/audit.service.ts:142-157 | no sensitive key keeps its value after redaction, at any depth |
| `AuditLog.RedactIsIdentityIff` | backend/src/audit/audit.service.ts:142-157 | redaction changes exactly the values that hold a secret, so it is idempotent |
| `AuditLog.AuditTrail.Record` | backend/src/audit/audit.service.ts:67-127 | appends one event chained to the hash of the last, telling what the caller passed: old values as old, new ones as new, masked below the six sensitive keys only |
| `AuditLog.AuditTrail.Verify` | backend/src/audit-trail/audit-integrity.service.ts:32-61 | checks the events between the two dates |
| `AuditLog.CheckEvents` | backend/src/audit-trail/audit-integrity.service.ts:38-60 | reports every event whose recomputed hash differs and every broken link, in order |
| `AuditLogProofs.ContentDetermines` | backend/src/audit/audit.service.ts:79-89 | two hashed contents that agree up to key order agree in every hashed field |
| `AuditLogProofs.FieldsDetermine` | backend/src/audit/audit.service.ts:79-89 | events that agree in every hashed field up to key order have the same hashed content |
| `TamperEvidence.RecordedIsBuilt` | backend/src/audit/audit.service.ts:72-127 | every log made by record calls, with whatever ids and times, is properly chained |
| `TamperEvidence.RecordedTells` | backend/src/audit/audit.service.ts:75-127 | event by event a recorded log holds what the callers passed, but for what lies below sensitive keys |
| `TamperEvidence.PlainValuesAreKept` | backend/src/audit/audit.service.ts:75-127 | values passed without secrets are stored as they were passed |
| `TamperEvidence.HashedFields` | backend/src/audit/audit.service.ts:79-89 | the fields that the hash is taken of, a missing value column leaving none |
| `TamperEvidence.SelectedIff` | backend/src/audit-trail/audit-integrity.service.ts:33-36 | verification looks at the events between the two dates, both included |
| `TamperEvidence.WrittenIsMixed` | backend/src/tenant/tenant.service.ts:59-69 | with rows written past the recorder in between, every row is hashed and chained to the row before it or not hashed at all |
| `TamperEvidence.MismatchIff` | backend/src/audit-trail/audit-integrity.service.ts:43-55 | a recorded event fails its own hash check exactly when one of its value columns is empty; a row without a hash never does |
| `TamperEvidence.WindowVerifiesIff` | backend/src/audit-trail/audit-integrity.service.ts:38-60 | a contiguous part of the table, rows without a hash included, verifies exactly when all its hashed events have both values; its chain is never reported broken |
| `TamperEvidence.WindowIsSlice` | backend/src/audit-trail/audit-integrity.service.ts:33-36 | with increasing timestamps two dates select a contiguous part of the log |
| `TamperEvidence.DatesVerifyIff` | backend/src/audit-trail/audit-integrity.service.ts:32-61 | with increasing timestamps, verification between any two dates accepts exactly when every hashed event between them has both values |
| `TamperEvidence.DigestsAreDistinct` | backend/src/audit/audit.service.ts:72-90 | all hashes of a recorded log differ |
| `TamperEvidence.AlterationIsNoticed` | backend/src/audit-trail/audit-integrity.service.ts:54-55 | altering a hashed field of an event is reported at that event |
| `TamperEvidence.RehashedAlterationIsNoticed` | backend/src/audit-trail/audit-integrity.service.ts:56-57 | altering and rehashing an event that is not the last is reported at the next one |
| `TamperEvidence.DeletionIsNoticed` | backend/src/audit-trail/audit-integrity.service.ts:56-57 | deleting any events between the first and the last is reported |
| `TamperEvidence.DeletedBlockIff` | backend/src/audit-trail/audit-integrity.service.ts:56-57 | with rows without a hash in between, a deleted block is reported exactly when the row after it names a predecessor other than the last hash before the gap |
| `TamperEvidence.LateEventBreaksIff` | backend/src/audit-trail/audit-integrity.service.ts:56-57 | an event after a recorded log is reported as a break exactly when it names another predecessor than the last event |
| `TamperEvidence.ForkIsReportedIff` | backend/src/audit-trail/audit-integrity.service.ts:18-60 | two events recorded over the same last event: the second is reported as a break and the log invalid, exactly when the log was not empty |
| `TamperEvidence.KeyOrderIsHarmless` | backend/src/audit/audit-canonical-json.util.ts:2-12 | a log whose JSON columns come back in another key order gets the same verdict |
| `AuditDiff.CompareItems` | backend/src/audit-trail/audit-diff.service.ts:57-69 | added and updated items in order of the later list, then removed ones in order of the earlier |
| `AuditDiff.CompareCollections` | backend/src/audit-trail/audit-diff.service.ts:51-70 | items compared by id when all have one, else the lists as a whole; throws on what is not a collection |
| `AuditDiff.Compare` | backend/src/audit-trail/audit-diff.service.ts:31-49 | field by field over the keys of both snapshots, lists by item |
| `AuditDiff.ReplayReachesAfter` | backend/src/audit-trail/audit-diff.service.ts:57-68 | carrying out the reported changes turns the earlier collection, by id, into the later one |
| `AuditDiff.NoItemChangeIff` | backend/src/audit-trail/audit-diff.service.ts:57-68 | nothing is reported exactly when both sides hold the same last item under the same ids |
| `AuditDiff.ReorderingIsNotReported` | backend/src/audit-trail/audit-diff.service.ts:57-68 | with unique ids nothing is reported exactly when both sides have the same items, in whatever order |
| `AuditDiff.DiffIff` | backend/src/audit-trail/audit-diff.service.ts:31-49 | no change is reported exactly when every field is alike, and the comparison throws exactly when a list meets a value it cannot be compared with |
| `DiffContents.SnapshotChangesIff` | backend/src/audit-trail/audit-diff.service.ts:31-49 | a change is reported exactly when it is one that some key of either snapshot gives rise to, the earlier value as old and the later as new |
| `DiffContents.PlainFieldIff` | backend/src/audit-trail/audit-diff.service.ts:43-47 | a field that is no list is reported once, with its old and new value, exactly when they read differently |
| `DiffContents.ListFieldIff` | backend/src/audit-trail/audit-diff.service.ts:38-56 | a list field is compared item by item when all items have ids, and reported as a whole otherwise |
| `DiffContents.ListAgainstOtherIff` | backend/src/audit-trail/audit-diff.service.ts:38-56 | a list against a text is reported as a whole unless the text is empty and all items have ids; that and a list against any other value throws |
| `DiffContents.ItemChangesIff` | backend/src/audit-trail/audit-diff.service.ts:57-69 | an item is reported exactly as added, removed or updated, with its last occurrence on each side as old and new value |
| `DiffContents.ItemChangesInOrder` | backend/src/audit-trail/audit-diff.service.ts:57-69 | additions and updates in order of the later list, then removals in order of the earlier, no id twice among either |
| `Approvals.ActionableIff` | backend/src/approvals/approval.service.ts:141-148 | when no two steps that were not skipped share a sequence number, the step acted on is the one earliest pending step |
| `Approvals.EarliestIsActionable` | backend/src/approvals/approval.service.ts:81-89 | the first entries per document of the type's pending list are the steps that a decision acts on |
| `ApprovalDesk.ApprovalService.CreateStepsForDocument` | backend/src/approvals/approval.service.ts:31-55 | one step per plan item, SKIPPED or PENDING, and the status of the document; an empty plan needs no approval; an unregistered type or an unknown document changes nothing |
| `ApprovalDesk.ApprovalService.CreateDocument` | backend/src/approvals/approval.service.ts:28-55 | a document is stored together with its steps, or not at all |
| `ApprovalDesk.ApprovalService.ReplanAfterEdit` | backend/src/sales-documents/sales-order.service.ts:280-289 | after an edit of the lines: nothing when a step was approved or rejected, else the PENDING steps are replaced by those of the new plan and SKIPPED ones stay |
| `ApprovalDesk.ApprovalService.Decide` | backend/src/approvals/approval.service.ts:121-190 | guards in order, the earliest pending step decided, the rest skipped on rejection, the document approved when nothing is pending |
| `ApprovalDesk.ApprovalService.GetPendingApprovalsForUser` | backend/src/approvals/approval.service.ts:76-111 | lists exactly the documents whose actionable step the user may act on, once each, with that step, oldest first |
| `ApprovalDesk.ApprovalService.CollectType` | backend/src/approvals/approval.service.ts:80-107 | the listed items of one document type |
| `ApprovalDesk.EarliestByDocument` | backend/src/approvals/approval.service.ts:86-89 | keeps the first step of each document |
| `ApprovalRules.StepsArePlanned` | backend/src/approvals/approval.service.ts:36-54 | one step per plan item in order, with its sequence, type and status, under fresh numbers; and the status of the document |
| `ApprovalRules.DocumentIsReplanned` | backend/src/sales-documents/sales-order.service.ts:280-289 | what an edit of the lines does to the steps, decided, pending and skipped |
| `ApprovalRules.DecisionGoesThroughIff` | backend/src/approvals/approval.service.ts:130-151 | exact condition for a decision, and the error of the first check that fails |
| `ApprovalRules.DecisionWrites` | backend/src/approvals/approval.service.ts:153-175 | the row of the due step holds the decision and the user, a rejection skips what else is pending, every other row stays |
| `ApprovalRules.DecisionSettles` | backend/src/approvals/approval.service.ts:163-188 | REJECTED on a rejection, APPROVED when nothing is pending any more; no other document changes |
| `ApprovalRules.ListedIff` | backend/src/approvals/approval.service.ts:80-96 | the inbox lists a document for those the rule of its type lets act on its due step |
| `ApprovalsInvariant.RunKeeps` | backend/src/approvals/approval.service.ts:31-190 | every run of creations, plans made anew and decisions keeps the step table sound: at most one rejection with everything before it cleared and everything else of the document skipped |
| `ApprovalsInvariant.ReplanKeeps` | backend/src/sales-documents/sales-order.service.ts:280-289 | planning again keeps the table sound whatever sequence numbers the skipped steps left over from earlier plans have |
| `ApprovalsInvariant.ReachableShape` | backend/src/approvals/approval.service.ts:121-190 | in every reachable state, after any edits: one rejection at most, earlier steps approved or skipped, all others skipped; an approved document has only cleared steps; nobody decided on a document of their own |
| `ApprovalsInvariant.DecisionLowersPending` | backend/src/approvals/approval.service.ts:153-182 | every successful decision leaves fewer pending steps |
| `ApprovalsInvariant.DecisionsEnd` | backend/src/approvals/approval.service.ts:121-190 | no run of decisions succeeds more often than there were pending steps |
| `ApprovalsInvariant.InboxShowsDecisions` | backend/src/approvals/approval.service.ts:76-175 | a decision goes through and acts on a step exactly when the inbox shows that step and the user did not create the document; the step shown is the row then written, and on documents of the user's own that the inbox shows the decision is refused |
| `ApprovalsInvariant.DecideActsOnListedStep` | backend/src/approvals/approval.service.ts:147-175 | the decision is recorded on the very step the inbox shows |
| `ApprovalOutcome.RunKeepsTold` | backend/src/approvals/approval.service.ts:31-190 | every run, plans made anew included, keeps the status of a document what its steps and the plan in force say |
| `ApprovalOutcome.StatusIsExact` | backend/src/approvals/approval.service.ts:31-190 | in every reachable state: approved exactly when every step is cleared and some step approved, rejected exactly when some step is, not required exactly when the plan made last is empty, which it is without steps |
| `ApprovalOutcome.ReplanShowsIff` | backend/src/sales-documents/sales-order.service.ts:286-289 | after planning again, NOT_REQUIRED shows in the steps alone exactly when the new plan is not empty or no earlier plan left a skipped step |
| `ApprovalOutcome.DecidedIffNotAllSkipped` | backend/src/approvals/approval.service.ts:42-188 | over every run, once nothing is pending: NOT_REQUIRED when the plan made last is empty, PENDING when it has skipped items only, else REJECTED or APPROVED as a step was rejected or none was |
| `ApprovalOutcome.AllSkippedNeverApproved` | backend/src/approvals/approval.service.ts:42-54 | a plan of skipped steps only leaves the document awaiting approval, with nothing to decide, until it is planned again |
| `ApprovalOutcome.RunKeepsDecisions` | backend/src/sales-documents/sales-order.service.ts:280-289 | a step that was approved or rejected stays in the table unchanged over every run of edits and decisions |
| `ApprovalOutcome.ClosedStaysClosed` | backend/src/approvals/approval.service.ts:147-148 | a document with nothing pending and a decided step, or of a type that edits do not plan again, keeps its status in every run |
| `ApprovalOutcome.FinalIff` | backend/src/sales-documents/sales-order.service.ts:280-289 | no run can change the status of a document exactly when nothing is pending and some step was approved or rejected, or edits of its type never plan again |
| `Rounding.RoundHalfUpIff` | backend/src/expenses/cost-allocation.service.ts:108 | rounding yields the one nearest whole cent, a tie going away from zero |
| `Rounding.SplitSums` | backend/src/expenses/cost-allocation.service.ts:106-110 | shares whose last one takes the rest add up to the amount |
| `Rounding.SplitNear` | backend/src/expenses/cost-allocation.service.ts:108 | every share before the last is within half a cent of its proportion |
| `Rounding.SplitLast` | backend/src/expenses/cost-allocation.service.ts:108 | when the parts make up the whole, the last share is within (n - 1) / 2 cents of its proportion |
| `CostAllocation.AllocateLines` | backend/src/expenses/cost-allocation.service.ts:105-111 | the loop writes the split of the source amount, the last line absorbing rounding |
| `CostAllocation.CostAllocationService.Calculate` | backend/src/expenses/cost-allocation.service.ts:77-116 | a run with the split source amount, or a refusal for a missing driver or a driver total that is not positive |
| `CostAllocation.CostAllocationService.Post` | backend/src/expenses/cost-allocation.service.ts:118-138 | posts a CALCULATED run once through the ledger engine and marks it POSTED, else no change |
| `CostAllocationProofs.WeightsMakeWhole` | backend/src/expenses/cost-allocation.service.ts:90-100 | the weights add up to one for direct rules, and for driver-based rules with distinct targets |
| `CostAllocationProofs.OneMoreClaim` | backend/src/expenses/cost-allocation.service.ts:83-86 | which claim lines add to the source amount, and what |
| `CostAllocationProofs.CalculatedIff` | backend/src/expenses/cost-allocation.service.ts:88-96 | a run is refused exactly for a driver-based rule without a driver or with values that do not add up to something |
| `CostAllocationProofs.CalculatedShape` | backend/src/expenses/cost-allocation.service.ts:103-114 | one line per target in order; source amount, allocated amount, residual and status of the run |
| `CostAllocationProofs.DriverShares` | backend/src/expenses/cost-allocation.service.ts:94-111 | under a driver-based rule each target gets the share of its value in the total of the rows in force, within half a cent, the last within (n - 1) / 2 cents |
| `CostAllocationProofs.DirectShares` | backend/src/expenses/cost-allocation.service.ts:90-111 | under a direct rule each of n targets gets an n-th, within half a cent, the last within (n - 1) / 2 cents |
| `CostAllocationProofs.NothingRemainsIff` | backend/src/expenses/cost-allocation.service.ts:103-112 | lines plus residual are the source amount, and the residual is zero exactly when there is a target or nothing to allocate |
| `CostAllocationProofs.LinesNear` | backend/src/expenses/cost-allocation.service.ts:106-111 | each line before the last within half a cent of its weighted share, the last within (n - 1) / 2 cents of its own |
| `CostAllocationProofs.BatchBalancedIff` | backend/src/expenses/cost-allocation.service.ts:131-132 | the batch balances exactly when no line is negative |
| `CostAllocationProofs.ExpenseOnlyMoves` | backend/src/expenses/cost-allocation.service.ts:131-132 | each cost center is debited with what was allocated to it and the source credited with all of it |
| `CostAllocationProofs.PostingSucceedsIff` | backend/src/expenses/cost-allocation.service.ts:130-134 | with period, accounts and dimensions in order, the ledger accepts the run exactly when the amount is positive and no line is negative |
| `CostAllocationProofs.EnoughForTheLast` | backend/src/expenses/cost-allocation.service.ts:108 | no line is negative when the last target is due at least (n - 1) / 2 cents |
| `CostAllocationProofs.NoNegativeLineIff` | backend/src/expenses/cost-allocation.service.ts:105-111 | no line is negative exactly when the rounded shares before the last do not exceed the amount |
| `CostAllocationProofs.DirectRunPostsIff` | backend/src/expenses/cost-allocation.service.ts:91-134 | a direct run over n targets can be posted exactly when the amount is positive and n - 1 times the rounded n-th of it does not exceed it |
| `CostAllocationProofs.ThreeCentsCannotBePosted` | backend/src/expenses/cost-allocation.service.ts:91-134 | claims worth three cents over the five targets of a direct rule give lines 1, 1, 1, 1, -1: complete, but refused by the ledger |
| `Calendar.YearsStart` | backend/src/expenses/prepaid-expense.service.ts:75 | month starts agree with the closed Gregorian formula |
| `PrepaidExpense.CollectMonths` | backend/src/expenses/prepaid-expense.service.ts:74-75 | the loop collects the calendar months from the start's to the end's |
| `PrepaidExpense.BuildSchedule` | backend/src/expenses/prepaid-expense.service.ts:73-103 | one row per month with the month's share, by days or equally |
| `PrepaidExpense.AllotByDay` | backend/src/expenses/prepaid-expense.service.ts:79-89 | shares in proportion to day counts, the last taking the rest |
| `PrepaidExpense.AllotEqually` | backend/src/expenses/prepaid-expense.service.ts:95-102 | equal shares rounded once, the last taking the rest |
| `PrepaidExpense.MonthsPartition` | backend/src/expenses/prepaid-expense.service.ts:82-84 | the months' parts of the period are consecutive, non-empty and run from start to end |
| `PrepaidExpense.EveryDayCountedOnce` | backend/src/expenses/prepaid-expense.service.ts:82-84 | every day of the period belongs to exactly one month of the schedule |
| `PrepaidExpense.DaysAddUp` | backend/src/expenses/prepaid-expense.service.ts:79-84 | the months' day counts add up to the total number of days |
| `PrepaidExpense.WholeAmountIff` | backend/src/expenses/prepaid-expense.service.ts:74-76 | the schedule adds up to the amount exactly when the end is not before the start's month, or the amount is zero |
| `PrepaidExpense.SharesNear` | backend/src/expenses/prepaid-expense.service.ts:86 | every share before the last is within half a cent of its proportion by days or months |
| `PrepaidExpense.LastShareNear` | backend/src/expenses/prepaid-expense.service.ts:86-99 | the last of n shares is within (n - 1) / 2 cents of its proportion |
| `ScheduleMeaning.MonthStarts` | backend/src/expenses/prepaid-expense.service.ts:75 | months start where the Gregorian calendar puts them |
| `ScheduleMeaning.CoversIff` | backend/src/expenses/prepaid-expense.service.ts:82-84 | a row stands for the days of the period that lie in its calendar month |
| `ScheduleMeaning.ShareIs` | backend/src/expenses/prepaid-expense.service.ts:79-100 | a row before the last gets the share of its days in all days, or an n-th, within half a cent |
| `CashBalances.BalanceIsNet` | backend/src/cash/cash-movement.service.ts:80-87 | the balance `getBalance` returns, inflow less outflow, is the signed total of the desk's live movements in the currency, so each movement can be followed through one sum |
| `CashDesks.CashDeskService.Record` | backend/src/cash/cash-movement.service.ts:32-72 | amount, desk, currency and negative-balance checks in order, then one live movement |
| `CashDesks.CashDeskService.Reverse` | backend/src/cash/cash-movement.service.ts:74-76 | marks exactly the live movements of the source |
| `CashDesks.CashDeskService.BuildAccountingBatch` | backend/src/cash/cash-desk-transfer.posting-handler.ts:28-57 | outflow leg, and for INSTANT the inflow leg, with the new state; nothing when a leg is refused |
| `CashDesks.CashDeskService.UndoSideEffects` | backend/src/cash/cash-desk-transfer.posting-handler.ts:59-66 | refused once a TWO_STEP transfer has been received in part; else legs struck out and state reset |
| `CashDesks.CashDeskService.Post` | backend/src/document-framework/document-posting.service.ts:61-163 | document guards, then the handler, then the POSTED status |
| `CashDesks.CashDeskService.Unpost` | backend/src/document-framework/document-posting.service.ts:197-238 | document guards, then the undoing, then the NOT_POSTED status |
| `CashDesks.CashDeskService.Receive` | backend/src/cash/cash-desk-transfer.service.ts:42-62 | records an arrival of at most a cent more than was sent in total and decides RECEIVED within a cent |
| `CashCommands.OneMoreInBalance` | backend/src/cash/cash-movement.service.ts:80-87 | a live movement raises or lowers the balance of its own desk and currency by its amount |
| `CashCommands.MovementIsRecordedIff` | backend/src/cash/cash-movement.service.ts:32-72 | exact condition for a movement; it is recorded as given |
| `CashCommands.MovementsAreReversed` | backend/src/cash/cash-movement.service.ts:74-76 | exactly the movements of the source are marked |
| `CashCommands.TransferIsPostedIff` | backend/src/cash/cash-desk-transfer.posting-handler.ts:28-57 | guards first, then amount, desks and legs |
| `CashCommands.TransferIsPosted` | backend/src/cash/cash-desk-transfer.posting-handler.ts:39-57 | out of the source and, at once, into the destination; state, received amount and version |
| `CashCommands.TransferIsUnpostedIff` | backend/src/cash/cash-desk-transfer.posting-handler.ts:59-66 | exact condition of unposting and what it resets |
| `CashCommands.ArrivalIsReceivedIff` | backend/src/cash/cash-desk-transfer.service.ts:42-62 | exact condition for an arrival, the movement it records and the state it leads to |
| `CashTransfersInvariant.RunKeeps` | backend/src/cash/cash-desk-transfer.posting-handler.ts:39-66 | every run keeps each transfer's state, its received amount and its live legs in step, and cash conserved |
| `CashBalances.CashIsConserved` | backend/src/cash/cash-movement.service.ts:74-87 | in every run, per currency, desk balances plus posted amounts not yet received equal what other documents brought in |
| `CashBalances.TransfersConserve` | backend/src/cash/cash-desk-transfer.posting-handler.ts:39-66 | creating, posting, unposting, cancelling and receiving transfers never changes desk balances plus cash in transit |
| `CashBalances.ReceivedIsInflow` | backend/src/cash/cash-desk-transfer.service.ts:47-59 | the received amount is the live inflow, at most a cent over the amount, and within a cent of it once RECEIVED |
| `CashBalances.DesksHoldAll` | backend/src/cash/cash-movement.service.ts:80-87 | the balances of all desks add up to the net of all live movements |
| `CashBalances.UnpostMovesBalance` | backend/src/cash/cash-movement.service.ts:74-76 | unposting takes exactly the transfer's own legs off every desk |
| `CashBalances.PostThenUnpostRestores` | backend/src/cash/cash-desk-transfer.posting-handler.ts:39-66 | posting and unposting a transfer restores every desk's balance in every currency |
| `CashBalances.RunKeepsSolvent` | backend/src/cash/cash-movement.service.ts:41-46 | a desk that must never be negative is not, as long as nothing is unposted or reversed |
| `CashBalances.UnpostKeepsSolventIff` | backend/src/cash/cash-movement.service.ts:74-76 | unposting keeps such desks non-negative exactly when the destination still holds what it received |
| `CashBalances.ReverseKeepsSolventIff` | backend/src/cash/cash-movement.service.ts:74-76 | reversing another document keeps such desks non-negative exactly when each desk it has live movements at still holds what these brought in |
| `CashBalances.UnpostOverdraws` | backend/src/cash/cash-movement.service.ts:74-76 | a run in which unposting leaves such a desk 100 cents short |

## Left out

- Tenants: every table is read for one tenant, so one instance of the model is one tenant.
- Access checks, permissions, logging, journal and document numbers, descriptions and operation labels.
- Concurrent transactions: a step is atomic, so lost updates and the optimistic status patch do not arise, and runs of
  `AuditTrail` hold no forks; `ForkIsReportedIff` states what verification makes of one.
- Audit and tax rows written beside posting; tax movements are not part of this model.
- The link from each reversal movement to an original movement, which is positional over rows read without an order.
- Rows read without an order by the code are taken in order of creation; entry lines are read as stored.
- A batch with only one half of a source key, and documents without an organization.
- The source line id and description of a line: the description is not carried, the source line id is.
- Amounts with more decimals than their column; the 20-digit precision of decimal.js, so a weight or quotient is exact.
- Two-decimal display of report figures; the amounts are exact.
- The general ledger listing, the journal viewer of a document and the expansion of an account to its descendants.
- The loop that evaluates a report's rows in order is the model's own; how rows get their leaf amounts is not part of this
  model.
- Number parsing of formula literals beyond their being a function of the token; ratio rows and division.
- Strings are ordered by code point where the runtime compares UTF-16 units; unpaired surrogates are not escaped.
- The property name `__proto__`, negative zero, dates and decimals inside audit values, and undefined inside nested values.
- Audit columns that are not hashed: metadata, reason, request context and the like; checkpoints.
- Ids of collection items that are themselves objects or lists, the text form of a change's path, and the storing of
  changes with fingerprints for sensitive fields.
- Target creation, header mapping, link rows, idempotency keys and recorded exceptions of an accepted proposal.
- Eligibility blockers and warnings, which do not influence quantities.
- The date check of `getBalance`, the cash limit warning, cashiers and branches, and amounts received in fractions of a cent.
- Recognition of prepaid expenses, allocation rules themselves and the account mapping.
- Time zones and times of day: dates are calendar days.
- Contract capacity, expense allocation and payment schedules, which repeat the shapes proved here.
- AssertNoCycle: when keys of documents clash, only refusals are characterised, since which of the clashing documents is
  found depends on the order of the rows.
- GetPendingApprovalsForUser: sequence numbers differ within a document, skipped steps aside, because the database leaves the
  order of equal ones open.
- RunKeeps: in `ApprovalsInvariant` the items of a plan that are not skipped have distinct sequence numbers, for the same reason.
- ReplanAfterEdit: the guards of the edit itself (POSTED, CANCELLED, version) and the lines are not part of this model, so a
  document can be planned again at any time; purchase orders and requirements, whose edits never plan again, are types
  outside the set that `FinalIff` takes.
- RunKeepsCapacity: claims are not negative and capacities do not change during the run; the code checks neither.
- DatesVerifyIff: timestamps increase; rows of equal time come back in an order the database leaves open.
- RunMovesKeeps: manual commands leave documents' entries alone; `ManualCommandKeepsIff` shows that this is needed.
- ResolvedSolves: formula rows that a formula reads are among those reported for it, and given leaf amounts are not those of
  formula rows; `SideBySideExample` and `NumeralIsReadNotReported` show why, `WellSpacedIsReadable` what is enough.
- Decide: an empty user name as creator, which the code treats as none, is not special here.
