# KIRA backend: verified models

A Dafny model of the stateful parts of a supply-chain compliance backend, with machine-checked proofs. The project
needs nothing outside itself; `dafny verify dfyconfig.toml` checks all of it.

| file | what it models |
|---|---|
| `BomQuery.dfy` | the recursive bill-of-materials query on an arbitrary, possibly cyclic parts table, with SQL's `NOT IN` and the depth cap |
| `BomTree.dfy` | the in-place assembly of the returned tree from linked nodes |
| `AuditTrail.dfy` | hash-linked audit rows written by interleaved writers without a lock, and the chain checker |
| `DataGateway.dfy` | the confidence gate over extraction records |
| `Pipeline.dfy` | the batch pipeline: router, work nodes with arbitrary outcomes, human interrupts, crashes, repeated starts |
| `ParseClaims.dfy` | document parsing under duplicate delivery, crashes, a commit in the middle, and a re-enqueuing sweeper |
| `MasterForm.dfy` | the master-form submission: factory sync under foreign keys inside one transaction |
| `Coercion.dfy` | reading one extracted value as the type of its form field |
| `Prefill.dfy` | merging extraction results into a form draft, per supplier and per factory |
| `Submissions.dfy` | the data-request lifecycle, its history and events, overlapping sessions on one request, and the guard that tells at most one approval to enqueue the pipeline |
| `BomVersions.dfy` | the BOM version machine with one active version per product, serially and with overlapping transactions |
| `HitlReviews.dfy` | opening and deciding human reviews, serially and with overlapping calls |
| `RiskScores.dfy` | the two writers of a risk profile and its append-only history, serially and overlapping |
| `EventBus.dfy` | leader election by advisory lock among listening processes, and dispatch to handlers |
| `Selections.dfy` | what it means that a filter keeps exactly these positions, in order |
| `ManagerChain.dfy` | the walk up a manager graph |

Code that changes state in the source is imperative here: classes, methods and loops, each proved against a
specification. Protocols between processes are state machines whose steps may interleave in any order, with a theorem
over all runs. Database rows are maps and sequences; a row order the SQL does not fix is left arbitrary. Outside
answers (model verdicts, supplier lists, whether a user exists, when a process dies, which statement raises) are
parameters, so each theorem covers all of them. UUIDs are natural numbers, hashes are opaque strings, confidences are
exact reals.

## Where the code does not do what it says

Each of these is proved: the input that shows it, and the exact condition under which the code does meet the intent.

- The tree query's comment calls its anchors the parts without a parent. Because the filter is `NOT IN` on a nullable
  column, a declared top part is returned if and only if no declared part has a parent
  (`BomQuery.TopPartsReturnedOnlyAlone`, `BomQuery.PackIsDropped`).
- A break in the audit chain is described as confirmed tampering. Two writers that read the same tail cause one too:
  unless a repeated step echoes an earlier output, the chain is accepted if and only if no step number repeats, and step
  numbers repeat exactly when an insert was stale (`AuditTrail.ValidIffNoDuplicate`, `AuditTrail.DuplicatesAreRaces`,
  `AuditTrail.RaceReadsAsTampering`). Deleting the end of the trail is never noticed
  (`AuditTrail.DeletionNoticedUnlessSuffix`).
- The parse worker's comments say that claim, rows and completion commit together and that a failed attempt can be
  retried. Parsing commits first, so a document is stranded in processing for good exactly when its execution crashes
  between the two commits, and a document that is done has two rows exactly when its execution committed midway
  (`ParseClaims.CrashStrandsIff`, `ParseClaims.StrandedForever`, `ParseClaims.DoneHasTwoRowsIff`).
- A human may approve a batch for which no supplier was found, and the run then cannot complete. A run that has neither
  crashed nor been rejected can still end if and only if risk scoring is behind it, or suppliers are known, or the gateway
  is still ahead and there is a product (`Pipeline.CanEndIff`, `Pipeline.ApprovedWithoutSuppliersIsStuck`). Across
  starts, a batch can still be finished if and only if its present run can end or it has a product, so only a batch
  without a product is ever stuck for good (`Pipeline.CanFinishIff`).
- The review look-up is said to keep a replayed interrupt from inserting a duplicate. A replay inserts another row if and
  only if the first review was decided in between, which is when a graph is resumed
  (`HitlReviews.ReplayInsertsIffDecided`, `HitlReviews.ResumedInterruptLeavesASecondReview`).
- Deciding a review by its id decides whichever review of the same batch the lookup returns; that is sure to be the
  named one if and only if the batch has no other (`HitlReviews.DecisionHitsItsReviewIff`).
- One open review per batch, reason and stage, and one active version per product, are serial rules: nothing locks the
  key or the product. Over any interleaving each rule holds throughout if and only if no insert, or no commit, was stale
  (`HitlReviews.OneOpenThroughoutIff`, `HitlReviews.OverlappingCreationsOpenTwo`, `BomVersions.OneActiveThroughoutIff`,
  `BomVersions.OverlapLeavesTwoActive`).
- The version machine's header allows deprecated to active; serially the code never does (`BomVersions.DeprecatedIsFinal`).
  Over any interleaving a deprecated version stays so if and only if no step commits an activation of it, and such a
  commit belongs to a transaction that had checked the version as a draft, so the version was deprecated after that check
  (`BomVersions.DeprecatedThroughoutIff`, `BomVersions.RevivedAfterItsCheck`, `BomVersions.DeprecatedComesBack`).
- A resolved review is said not to be decided again. The guard looks at a copy loaded without a lock: over any
  interleaving a resolved review keeps its resolution, text and decider if and only if no decision that loaded it before
  states another resolution, text or user (`HitlReviews.ResolvedThroughoutIff`, `HitlReviews.SecondDecisionOverwrites`).
- Level and score of a risk profile are meant to agree, and each history entry to start where the one before ended. Over
  any interleaving of the two writers both hold if and only if no write was stale; otherwise a profile can end at 15
  points and critical (`RiskScores.FaithfulThroughoutIff`, `RiskScores.OverlappingScoringsDisagree`).
- Starting a batch sets its stage and keeps whatever its thread already holds. A start without an error reason costs at
  most 20 visits and 4 interrupts; one that inherits an error reason from an earlier run costs up to 22 and 5, and
  all four bounds are reached (`Pipeline.RunsAreShort`, `Pipeline.RestartIsAStart`, `Pipeline.CleanStartCostsFour`,
  `Pipeline.LeftoverErrorCostsFive`).
- A submission on behalf of a mine is documented to leave contacts and manufacturing alone. Pruning a factory unlinks its
  contacts and deletes its carbon declarations. The contacts, and likewise the declarations, are untouched if and only if
  none belongs to a factory of this supplier that neither the form nor a supply ratio nor an audit record names
  (`MasterForm.OnBehalfChangesExactly`, `MasterForm.OnBehalfContactsUntouchedIff`,
  `MasterForm.OnBehalfDeclarationsUntouchedIff`, `MasterForm.OnBehalfUnlinksAContact`,
  `MasterForm.OnBehalfDeletesADeclaration`). A re-listed inactive factory stays inactive
  (`MasterForm.RelistingKeepsTheActiveFlag`).
- The submission row is locked before it is changed, but a session that loaded it earlier goes on working with its own
  copy. The history replays to the stored status if and only if no write was stale, and a decided request changes exactly
  when a stale write reaches it (`Submissions.HistoryReplaysIffNoStaleWrite`, `Submissions.DecidedChangesIff`,
  `Submissions.ApprovalOverARejection`).
- An approval acts on the batch it read before the transition, which is the stored one if and only if nothing was
  submitted in between (`Submissions.ApprovalActsOnTheStoredBatchIff`, `Submissions.ApprovalCanActOnAnOldBatch`). The
  pipeline guard answers yes at most once, and it does so if and only if the process that committed the key lived to
  answer (`Submissions.ToldIffTheCommitAnswered`, `Submissions.TriggerCanBeLost`).
- A listener whose reconnect fails ends for good. From any state somebody can ever listen again if and only if somebody
  does now or some process has neither ended nor is waiting for the lock on a dropped session; events published while
  nobody listens are lost (`EventBus.HeardAgainIff`, `EventBus.OutageSilencesALoneProcess`,
  `EventBus.DeliveredIffHeardAtOnce`).
- An absolute score update does not maintain the high-risk flag: afterwards it is right if and only if it was already
  right for the new score, and a first update to 60 leaves it wrong (`RiskScores.FlagAgreesAfterUpsertIff`,
  `RiskScores.FlagCanBeWrong`).

## Model

| member | source | states |
|---|---|---|
| BomQuery.Anchors | backend/domains/product/repository.py:541-568 | the first level holds, per part, its anchor rows with multiplicity, under three-valued `NOT IN` |
| BomQuery.NextLevel | backend/domains/product/repository.py:576-597 | one recursion step yields exactly the next level's rows with multiplicity, and none past depth 5 |
| BomQuery.FetchRows | backend/domains/product/repository.py:537-603 | the query stops on every parent graph, cyclic ones included, with exactly the rows that the per-part count prescribes |
| BomQuery.DepthIsAncestorRun | backend/domains/product/repository.py:560-597 | when some declared part has a parent, a part has rows at depth d iff it and its first d ancestors are declared with a parent and the next one is not |
| BomQuery.OneDepth | backend/domains/product/repository.py:570-597 | no part has rows at two depths, however often it is declared |
| BomQuery.RowsExactly | backend/domains/product/repository.py:556-597 | exactly which parts come back, in both the empty and the non-empty subquery case |
| BomQuery.OneRowPerPart | backend/domains/product/repository.py:572-575 | with one item row per part each returned part is returned once |
| BomQuery.ReturnedWays | backend/domains/product/repository.py:572-597 | a returned part comes once for each way of choosing an item row for it and for each ancestor it climbs past |
| BomQuery.CyclesNeverAppear | backend/domains/product/repository.py:591-597 | a part on or below a cycle of declared parts is never returned |
| BomQuery.TopPartsReturnedOnlyAlone | backend/domains/product/repository.py:540-567 | a declared part without a parent is returned iff no declared part has one |
| BomQuery.PackIsDropped | backend/domains/product/repository.py:560-567 | the smallest catalogue in which the top part is lost |
| BomTree.IndexNodes | backend/domains/product/repository.py:631-651 | one fresh childless node per distinct part, carrying that part's columns, listed in the order of the parts' first rows |
| BomTree.LinkNode | backend/domains/product/repository.py:655-657 | a node is appended to its own parent's children only, and only when the parent was fetched |
| BomTree.LinkChildren | backend/domains/product/repository.py:653-657 | afterwards every node lists exactly the parts naming it as parent, in order |
| BomTree.CollectRoots | backend/domains/product/repository.py:678-681 | the depth-0 nodes in order |
| BomTree.ChooseRoot | backend/domains/product/repository.py:684-704 | one root stands for itself; several are the children of a new node that carries the product id, no parent and depth 0 |
| BomTree.BuildTree | backend/domains/product/repository.py:631-704 | for rows in any order: nothing is returned iff there are no rows, else linked nodes that unfold to finite trees, under the product when there are several roots, siblings everywhere in the order of their first rows |
| BomTree.GetBomTree | backend/domains/product/repository.py:537-704 | the same end to end, for every parts table and item list |
| BomTree.FetchedRowsAreLeveled | backend/domains/product/repository.py:590-597 | every fetched non-root part's parent was fetched one level up; no root's parent was fetched |
| BomTree.RootExists | backend/domains/product/repository.py:678-683 | a non-empty row set always has a root |
| BomTree.TreeVisits | backend/domains/product/repository.py:653-657 | a walk meets a part once for its start plus as often as it meets the part's parent |
| BomTree.ForestConservesParts | backend/domains/product/repository.py:653-704 | walking all roots visits exactly the fetched parts, each once |
| BomTree.LinkedNodesUnfold | backend/domains/product/repository.py:653-657 | the pointer structure below any node is a finite tree |
| BomTree.EveryPartVisitedOnce | backend/domains/product/repository.py:631-704 | walking the returned root, or the product node's children, visits every returned part exactly once and nothing else |
| BomTree.ChildrenSitUnderTheirParent | backend/domains/product/repository.py:654-657 | every child names its node as parent and is one level deeper, so no root is a child |
| AuditTrail.VerifyChain | backend/domains/audit/service.py:178-226 | the verdict is the absence of breaks; breaks and warnings are the lists that BreaksExactly and WarningsExactly describe |
| AuditTrail.BreaksExactly | backend/domains/audit/service.py:186-203 | one break, in row order, for each row that does not carry the output of the row above, naming its step and both hashes, and whether it is the first row |
| AuditTrail.WarningsExactly | backend/domains/audit/service.py:205-218 | one warning for each row and reason, in row order and duplicate before gap, naming its step |
| AuditTrail.GapExactly | backend/domains/audit/service.py:212-218 | a gap is a numbered row whose nearest numbered row above is not one lower |
| AuditTrail.BrokenLinksExactly | backend/domains/audit/service.py:186-203 | a position is reported iff its link fails, each once and in order |
| AuditTrail.ValidExactly | backend/domains/audit/service.py:186-223 | for any rows, valid iff every link holds |
| AuditTrail.PrevColumnFixesOutputs | backend/domains/audit/service.py:186-203 | two valid trails with equal prev columns agree on every output but the last |
| AuditTrail.AuditTable.WriteAudit | backend/infrastructure/trace.py:121-163 | an uninterrupted write extends a serial trail by one linked row, whichever tail the query picks; without a batch nothing is written |
| AuditTrail.NextKeepsInv | backend/infrastructure/trace.py:125-163 | any single read, insert or abandon keeps every stored and pending row linked to a row one step lower |
| AuditTrail.RunKeepsInv | backend/infrastructure/trace.py:125-163 | the same for every interleaving of any number of writers |
| AuditTrail.NoHoles | backend/infrastructure/trace.py:137-139 | step numbers are 1..max without a hole |
| AuditTrail.GapsAreDuplicates | backend/domains/audit/service.py:205-218 | on a written trail gap warnings coincide with duplicate warnings row by row |
| AuditTrail.NoDuplicateMeansValid | backend/domains/audit/service.py:182-226 | a written trail without a repeated step has no break and no warning |
| AuditTrail.ValidIffNoDuplicate | backend/domains/audit/service.py:182-226 | on any written trail: no warning iff no repeated step, which then is valid; a valid one echoes an output at every repeated step; without an echo, valid iff no repeated step |
| AuditTrail.EchoIsAccepted | backend/infrastructure/trace.py:125-163 | a run in which one writer inserts a result and two that read the same tail insert it again: a step repeats and the checker accepts |
| AuditTrail.DuplicatesAreRaces | backend/infrastructure/trace.py:125-163 | in a run, steps repeat iff some insert used a number taken since its writer read the tail |
| AuditTrail.RunWithoutRacesVerifies | backend/infrastructure/trace.py:125-163 | a run without such an insert passes the checker cleanly |
| AuditTrail.RaceReadsAsTampering | backend/domains/audit/service.py:170-173 | two writers on an empty trail make the checker report a break though nothing was altered |
| AuditTrail.SerialVerifies | backend/domains/audit/service.py:182-226 | serially written rows give no break and no warning |
| AuditTrail.UninterruptedWriteIsSerial | backend/infrastructure/trace.py:125-163 | a read and insert of one writer with nothing in between do what an uninterrupted write does |
| AuditTrail.DeletionNoticedUnlessSuffix | backend/domains/audit/service.py:186-223 | deleting any rows of a serial trail goes unnoticed iff what is left is a prefix |
| AuditTrail.RemovingOneRow | backend/domains/audit/service.py:186-223 | removing one row is noticed iff it is not the last |
| DataGateway.MissingFields | backend/agents/data_gateway.py:515-531 | missing iff some required field of the type was not parsed; a type without a row requires nothing |
| DataGateway.RunGate | backend/agents/data_gateway.py:580-597 | passes iff every record is confident throughout, confirmed and complete; the score is the least stated confidence |
| DataGateway.LowestIsUnique | backend/agents/data_gateway.py:580-586 | the reported score is determined by the records |
| Pipeline.JudgeAll | backend/agents/compliance.py:1020-1060 | verdicts for exactly the applicable regulations that have a judge, one stored result for each in order, and review iff one of them asked for it |
| Pipeline.ResultsExactly | backend/agents/compliance.py:1037-1060 | the stored results are those of exactly the regulations with a judge, in their order |
| Pipeline.NextKeepsInv | backend/agents/graph.py:185-204 | every node visit with every outcome, approval or crash keeps the invariant on state, position and work done |
| Pipeline.RegulationsExactly | backend/agents/compliance.py:143-173 | which regulations apply for which destination |
| Pipeline.RegulationsStay | backend/agents/supervisor.py:12-21 | in every run the regulations are chosen once, by the destination of the start that first chose them |
| Pipeline.GatewayOutcome | backend/agents/data_gateway.py:541-635 | a batch passes exactly when it has a product and results that are all confirmed, complete and confident; confidence and suppliers are what was found |
| Pipeline.GeoOutcome | backend/agents/geo_audit.py:75-84 | a finding, and nothing else, raises geographical_risk and asks for a human |
| Pipeline.ComplianceOutcome | backend/agents/compliance.py:1020-1114 | low_confidence is raised exactly when an applicable regulation has a judge that asked for a human; the confidence never changes |
| Pipeline.ScoringEscalatesIff | backend/agents/automation.py:42-71 | a geographic finding adds 30 points, and risk_escalated is raised exactly when the supplier's score then reaches 70 |
| Pipeline.ScoringCountsTheFinding | backend/agents/automation.py:42-71 | in every run the scoring counts what the geographic audit found, whatever was approved in between |
| Pipeline.ApprovalOutcome | backend/agents/graph.py:152-166 | an approval clears the error reason, lifts the confidence to 0.85 if it is below, and changes nothing else |
| Pipeline.WorkRunsInOrder | backend/agents/supervisor.py:27-41 | the work nodes run in the fixed order, each at most once and without gaps |
| Pipeline.WorkNeverRunsUnderAnOpenError | backend/agents/supervisor.py:23-25 | a work node sees no error reason, and past the gateway a confidence of at least 0.85 and hitl_required false |
| Pipeline.RaisedErrorsAreApproved | backend/agents/graph.py:162-172 | an error reason raised at any point of a run is gone later only if an interrupt was approved in between |
| Pipeline.WorkWaitsForApproval | backend/agents/supervisor.py:23-25 | between a raised error and any later work node there was an approval |
| Pipeline.HitlRequiredMeansPending | backend/agents/graph.py:166-172 | hitl_required implies a pending error reason |
| Pipeline.PassingGateIsConfident | backend/agents/data_gateway.py:580-623 | a passed gate reports at least the threshold |
| Pipeline.BudgetOverRun | backend/agents/graph.py:185-204 | visits so far plus visits left never exceed 20, interrupts 4, or 22 and 5 for a start with an error reason left over |
| Pipeline.RunsAreShort | backend/agents/graph.py:237-254 | every run has at most 20 node visits and 4 interrupts when it starts without an error reason, and at most 22 and 5 when it starts with one |
| Pipeline.BatchesStart | backend/agents/graph.py:237-341 | a new batch is a start, and so is a resume without a checkpoint at any stage |
| Pipeline.RestartIsAStart | backend/handlers/batch_trigger.py:33-66 | starting the batch again at any point of any run gives a start that these bounds cover |
| Pipeline.CleanStartCostsFour | backend/agents/graph.py:237-254 | for a queued batch without an error reason, a run of 20 visits with 4 interrupts to the end |
| Pipeline.LeftoverErrorCostsFive | backend/agents/graph.py:237-254 | for a queued batch with an error reason left over, a run of 22 visits with 5 interrupts to the end |
| Pipeline.EndedMeansAllWorkDone | backend/agents/supervisor.py:38-41 | a run that ends did all its work, with no error reason left and hitl_required false |
| Pipeline.EndedMeansSuppliersKnown | backend/agents/graph.py:64-69 | a run entering before risk scoring ends only if it started queued, with a product, and suppliers were found |
| Pipeline.OnlyMissingSuppliersBlock | backend/agents/graph.py:64-69 | from any position a step without an exception exists unless it is risk scoring without suppliers |
| Pipeline.CanEndIff | backend/agents/graph.py:64-69 | from any point of any run a continuation to the end exists iff risk scoring is behind, or suppliers are known, or the gateway is ahead and there is a product |
| Pipeline.ApprovedWithoutSuppliersIsStuck | backend/agents/data_gateway.py:570-578 | a run with one approval that reaches risk scoring without suppliers and can never end |
| Pipeline.LifeKeepsInv | backend/agents/graph.py:237-254 | visits, crashes and repeated starts in any order keep the invariant on state, position and work done |
| Pipeline.CanFinishIff | backend/workers/pipeline_worker.py:7-15 | over any life of visits and starts, a continuation, with later starts or not, ends iff the present run can or the batch has a product |
| ParseClaims.Database.ProcessDocument | backend/workers/document_parse_worker.py:60-146 | for every parse outcome and late failure: the answer and exactly what is committed |
| ParseClaims.WorkerFollowsTheProtocol | backend/workers/document_parse_worker.py:60-146 | the job body is a run of the interleaved protocol, from any state in which its claim is not blocked |
| ParseClaims.NextKeepsInv | backend/workers/document_parse_worker.py:60-143 | each step of any worker, queue or sweeper keeps claims, owners and rows consistent |
| ParseClaims.OneExecutionPerDocument | backend/domains/submission/repository.py:346-358 | in every run all committed rows of a document come from one execution, at most two, and only under a claim |
| ParseClaims.ClaimsAreForever | backend/domains/submission/repository.py:361-373 | a committed claim never disappears or changes owner; done and failed are final |
| ParseClaims.SweeperSkipsClaimedDocuments | backend/workers/document_parse_worker.py:166-184 | the sweeper never selects a document with a committed claim |
| ParseClaims.SweeperRequeues | backend/workers/document_parse_worker.py:166-200 | a document without a committed claim can be swept at any time, and then its message is in the queue again |
| ParseClaims.CrashIsRetryableIff | backend/workers/document_parse_worker.py:139-143 | a crash gives the claim back iff it strikes before the commit inside parsing |
| ParseClaims.CrashStrandsIff | backend/agents/data_gateway.py:456-473 | a crash strands its document iff it strikes between the two commits |
| ParseClaims.StrandedForever | backend/workers/document_parse_worker.py:62-73 | no delivery, retry or sweep ever finishes a stranded document |
| ParseClaims.StrandingHappens | backend/workers/document_parse_worker.py:122-143 | a concrete run that strands a document |
| ParseClaims.RowsByHistory | backend/workers/document_parse_worker.py:97-130 | in every run a claimed document has one row if its execution committed midway and one if it is done |
| ParseClaims.DoneHasTwoRowsIff | backend/workers/document_parse_worker.py:97-130 | in every run a document that is done has two rows iff its execution committed midway, else one |
| ParseClaims.SuccessWritesTwoRows | backend/workers/document_parse_worker.py:97-130 | the two commits of a success leave two rows |
| MasterForm.Session.WriteFactory | backend/domains/supplier/repository.py:743-756 | an owned id is kept, anything else gets an id no factory had; an old row keeps all but its values |
| MasterForm.Session.UpsertFactories | backend/domains/supplier/repository.py:714-758 | one id per entry in order; each listed row has its last entry's values, every other row is untouched |
| MasterForm.Session.RemoveFactory | backend/domains/supplier/repository.py:766-775 | one unlisted factory goes, or is switched off when its key is in use; every foreign key still holds |
| MasterForm.Session.PruneStale | backend/domains/supplier/repository.py:764-775 | unlisted factories are gone, or inactive when referenced; contacts lose and declarations follow a deleted factory |
| MasterForm.Session.WriteFactories | backend/domains/supplier/repository.py:687-792 | the whole sync row by row, including the one-time country backfill |
| MasterForm.Session.WriteContacts | backend/domains/supplier/repository.py:796-806 | this supplier's contacts are replaced by the form's, linked by index; others stay |
| MasterForm.Session.InsertDeclarations | backend/domains/supplier/repository.py:839-851 | exactly the declarations whose index points at a factory are inserted, in order |
| MasterForm.Session.WriteManufacturing | backend/domains/supplier/repository.py:810-852 | details replaced, the listed factories' declarations replaced, others stay |
| MasterForm.Session.SubmitMasterForm | backend/domains/supplier/service.py:176-252 | all or nothing for a failure at any statement; who is refused; what is stored is what OwnSubmissionExactly or OnBehalfChangesExactly describes |
| MasterForm.OwnSubmissionExactly | backend/domains/supplier/repository.py:668-852 | for the supplier's own submission: company columns, a blank country filled from the first mining entry that states one, every factory row, contacts, declarations, details and self-risk, each exactly, and everybody else's rows untouched |
| MasterForm.SectionsExactly | backend/domains/supplier/service.py:200-245 | the sections reported are exactly those written, each once, in the fixed order |
| MasterForm.UpsertThenPrune | backend/domains/supplier/repository.py:714-775 | the two loops together achieve the sync and keep every foreign key |
| MasterForm.PinnedFactoriesSurvive | backend/domains/supplier/repository.py:694-702 | a factory named by a supply ratio or an audit record survives with its owner |
| MasterForm.FactoryStaysIff | backend/domains/supplier/repository.py:694-775 | a stored factory survives a sync iff the form names it, a supply ratio or audit record does, or it is another supplier's |
| MasterForm.RelistingKeepsTheActiveFlag | backend/domains/supplier/repository.py:721-750 | listing a factory again does not change its active flag |
| MasterForm.OnBehalfChangesExactly | backend/domains/supplier/service.py:190-245 | an on-behalf submission leaves self-risk, details and all supplier rows, but for an empty country that the first mining entry stating one fills; of contacts and carbon declarations exactly those of a factory of this supplier that the form does not name and nothing references lose their link or are deleted |
| MasterForm.OnBehalfContactsUntouchedIff | backend/domains/supplier/service.py:190-194 | contacts are untouched iff none belongs to a factory of this supplier that the form does not name and nothing references |
| MasterForm.OnBehalfDeclarationsUntouchedIff | backend/domains/supplier/service.py:190-194 | carbon declarations are untouched iff none belongs to a factory of this supplier that the form does not name and nothing references |
| MasterForm.OnBehalfUnlinksAContact | backend/domains/supplier/repository.py:764-775 | a mine and an empty factory list for which every such submission unlinks its contact |
| MasterForm.OnBehalfDeletesADeclaration | docker/01_schema.sql:544 | a mine and an empty factory list for which every such submission deletes its carbon declaration |
| MasterForm.ContactsLinkByIndex | backend/domains/supplier/repository.py:799-805 | each contact links to exactly the factory at its in-range index, else to none |
| MasterForm.DeclarationsLinkByIndex | backend/domains/supplier/repository.py:834-851 | a listed factory's declarations are exactly the submitted ones whose index points at it |
| Prefill.MergeRecord | backend/domains/supplier/service.py:313-322 | one record's readings reach the supplier's table and, if material, its own bucket and no other, in any field order |
| Prefill.MergeRecords | backend/domains/supplier/service.py:306-324 | every bucket is the best of the records attributed to it, the factories come in the order of their first material reading, and unconfirmed records are counted |
| Prefill.FirstSeenExactly | backend/domains/supplier/service.py:319-322 | that order holds exactly the factories with a material reading of their own, each once |
| Prefill.FirstSeenInOrder | backend/domains/supplier/service.py:319-322 | of two factories in it, the first has a material reading in a record before any of the second's |
| Prefill.AttributeTheRest | backend/domains/supplier/service.py:328-332 | unattributed readings reach a factory iff it is the supplier's only one, and lose ties to its own |
| Prefill.FirstMostConfidentWins | backend/domains/supplier/service.py:300-318 | each field holds the value of the earliest record with maximal confidence, and no read field is lost |
| Prefill.BestIsUnique | backend/domains/supplier/service.py:300-304 | that record and value are unique |
| Prefill.BestOfBoth | backend/domains/supplier/service.py:328-332 | merging two merged tables is merging all their records in order |
| Prefill.OthersDoNotMatter | backend/domains/supplier/service.py:321-332 | another factory's record never changes a factory's materials; an unattributed one only for a single factory |
| Prefill.AttributedExactly | backend/domains/supplier/service.py:306-324 | the records attributed to one owner are exactly that owner's, in order, each reduced to its material fields |
| Prefill.UnconfirmedExactly | backend/domains/supplier/service.py:323-324 | the count is the number of records that nobody confirmed |
| Prefill.ToMasterFormPrefill | backend/domains/supplier/masterform_prefill.py:175-196 | the form holds exactly the known readable fields, converted, and the list exactly those below 0.85, in catalogue order |
| Prefill.EntryExactly | backend/domains/supplier/masterform_prefill.py:175-196 | an entry is filled exactly when its field was read as something its kind allows, and is doubtful below 0.85 |
| Prefill.GetMasterFormPrefill | backend/domains/supplier/service.py:288-355 | the whole draft: form, list and counts over all records, and one draft for exactly the factories whose usable readings hold a readable material, with the best of these, in the order in which the factories came up |
| Coercion.StripExactly | backend/domains/supplier/masterform_prefill.py:134-136 | stripping removes exactly the spaces at both ends |
| Coercion.Search | backend/domains/supplier/masterform_prefill.py:141-145 | the scan stops at the first position where a numeral starts |
| Coercion.SearchIsLeftmostLongest | backend/domains/supplier/masterform_prefill.py:141-145 | the number found is the leftmost numeral of the text and as long as possible; none is found only where there is none |
| Coercion.FoundIffDigit | backend/domains/supplier/masterform_prefill.py:141-145 | a number is found iff the text has a digit |
| Coercion.DigitsReadBack | backend/domains/supplier/masterform_prefill.py:146-147 | the value of a decimal notation is the number it denotes |
| Coercion.WholeReadsBack | backend/domains/supplier/masterform_prefill.py:146-147 | a numeral without sign and fraction is worth the number whose notation it is |
| Coercion.MinusNegates | backend/domains/supplier/masterform_prefill.py:146-147 | a leading minus negates |
| Coercion.PointMovesTenfold | backend/domains/supplier/masterform_prefill.py:146-147 | moving the point one place to the right multiplies by ten |
| Coercion.Coerce | backend/domains/supplier/masterform_prefill.py:127-149 | null, blank text for a text field and text without a digit for a number field are unreadable; a text is itself without the blanks around it; a number is itself or what the leftmost, longest numeral of the text denotes, and for int the whole number next to it toward zero |
| Coercion.ReadingIsUnique | backend/domains/supplier/masterform_prefill.py:127-149 | that description admits one answer per value and kind |
| Coercion.PartsAreUnique | backend/domains/supplier/masterform_prefill.py:141-147 | a numeral splits into sign, whole part and fraction in one way only, so it denotes one number |
| Coercion.CoercedIsReading | backend/domains/supplier/masterform_prefill.py:127-149 | the conversion as a function meets that description too |
| Coercion.TruncatedTowardZero | backend/domains/supplier/masterform_prefill.py:147 | an int field is cut toward zero, for either sign |
| Coercion.UnreadableIff | backend/domains/supplier/masterform_prefill.py:127-149 | a value is unreadable iff it is null, blank for a text field, or text without a digit for a number field |
| Submissions.Desk.CreateAndRequest | backend/domains/submission/service.py:123-174 | row and first history entry go in together or not at all; events only after success |
| Submissions.Desk.UpdateSubmissionStatus | backend/domains/submission/service.py:286-363 | which check refuses first, what a success changes and announces, for a session with or without an earlier copy of the row; a refusal changes and announces nothing |
| Submissions.AcceptedIff | backend/domains/submission/service.py:299-336 | an update goes through exactly when the table allows the move, a rejection is grounded, a submission is complete and the actor is known |
| Submissions.RefusalsAreTrue | backend/domains/submission/service.py:299-336 | each refusal names a condition that holds |
| Submissions.MovedExactly | backend/domains/submission/state_machine.py:38-51 | an accepted update sets the status, adds one entry with actor and reason, replaces the batch only by a submission, and keeps the supplier |
| Submissions.LogFollowsHistory | backend/domains/submission/service.py:338-363 | what a run announces is its history move by move: a status change each, followed by the event of its kind and by nothing else |
| Submissions.PayloadsExactly | backend/domains/submission/service.py:338-363 | an approval announces its command's batch, a submission its batch and whether it came as files or as a form |
| Submissions.AccessKeepsFaithfulIff | backend/domains/submission/state_machine.py:25-51 | a step of any session keeps the history replaying to the stored status iff it is not a stale write |
| Submissions.HistoryReplaysIffNoStaleWrite | backend/domains/submission/state_machine.py:25-51 | over any interleaving of sessions the history replays to the stored status iff no write was stale |
| Submissions.UpdateIsAnAccess | backend/domains/submission/state_machine.py:25-51 | the update of a session is a step of that model: it sees its own copy if it loaded one, the stored row otherwise |
| Submissions.DecidedChangesIff | backend/domains/submission/state_machine.py:25-51 | an approved or rejected request changes iff a stale write reaches it |
| Submissions.ApprovalOverARejection | backend/domains/submission/state_machine.py:25-39 | two sessions that loaded a request in review: it is rejected and then approved |
| Submissions.HistoryReplays | backend/domains/submission/state_machine.py:30-51 | after any commands the history replays from nothing, along the table, to the current status |
| Submissions.HistoryShape | backend/domains/submission/models.py:183-191 | a replaying history's length and its counts of every kind follow from its reworks and final status |
| Submissions.SubmittedMinusRework | backend/domains/submission/models.py:183-191 | submissions exceed reworks by one exactly in submitted, review, approved and rejected, else not |
| Submissions.BatchIsTheLatestSubmitted | backend/domains/submission/state_machine.py:41-43 | the stored batch is the last announced submission's, present iff anything was submitted |
| Submissions.DecidedIsFinal | backend/domains/submission/models.py:189-190 | an approved or rejected request never changes again |
| Submissions.RejectionsAreGrounded | backend/domains/submission/state_machine.py:36-37 | every rejection in a history carries a reason |
| Submissions.ApprovalActsOnTheStoredBatchIff | backend/domains/submission/router.py:242-271 | the batch read before approval is still the stored one iff nothing was submitted in between |
| Submissions.ApprovalCanActOnAnOldBatch | backend/domains/submission/router.py:242-271 | a concrete run in which an approval goes through for a replaced batch |
| Submissions.GuardStep | backend/domains/submission/service.py:387-417 | each step of any caller keeps one writer per key, none once committed, and one yes per key |
| Submissions.PipelineTriggersAtMostOnce | backend/domains/submission/service.py:387-417 | under any interleaving and crashes at most one call per request is told to run |
| Submissions.LostTriggerStaysLost | backend/domains/submission/service.py:398-404 | once the key is committed and a caller was not told to run, it never will be |
| Submissions.OneMoveCommitsEachKey | backend/domains/submission/service.py:406-414 | a key is recorded iff some move of the run committed it, and exactly one did |
| Submissions.ToldByTheCommit | backend/domains/submission/service.py:398-417 | a call is told to run iff it made the move that committed its key and lived to answer |
| Submissions.ToldIffTheCommitAnswered | backend/domains/submission/service.py:387-417 | for a recorded key some call is told to run iff the move that committed it answered |
| Submissions.TriggerCanBeLost | backend/domains/submission/service.py:406-417 | a crash between commit and answer leaves nobody told, for good |
| Submissions.CallsThatEnd | backend/domains/submission/service.py:406-417 | a call that loses the insert, or whose process dies first, ends without an answer |
| BomVersions.Registry.ActivateBomVersion | backend/domains/product/state_machine.py:80-133 | on success the version is the only active one of its product; who is refused |
| BomVersions.Registry.DeprecateBomVersion | backend/domains/product/state_machine.py:140-178 | who is refused, and that only this version changes |
| BomVersions.Registry.GetActiveBomVersionId | backend/domains/submission/repository.py:59-69 | an answer is the product's sole active version; none means there is not exactly one |
| BomVersions.AnswersExactly | backend/domains/product/state_machine.py:80-178 | an activation needs a draft, a deprecation a version that is not deprecated; an unknown version is not found |
| BomVersions.SuccessChangesExactly | backend/domains/product/state_machine.py:113-178 | a success changes the version itself and, on an activation, the product's active versions, and nothing else |
| BomVersions.WholeLife | backend/domains/product/models.py:912-922 | a draft can always be activated and then deprecated |
| BomVersions.RunKeepsOneActive | backend/domains/product/state_machine.py:119-129 | any serial run keeps at most one active version per product |
| BomVersions.LookupFailsOnlyWithoutOne | backend/domains/submission/repository.py:59-69 | from such a state the lookup answers none only when there is none |
| BomVersions.DeprecatedIsFinal | backend/domains/product/models.py:912-922 | over serial commands a deprecated version never changes again |
| BomVersions.ActiveAtMostOnce | backend/domains/product/models.py:912-922 | no version becomes active twice, and only a draft ever does |
| BomVersions.SuccessRaisesRank | backend/domains/product/models.py:912-922 | every success strictly raises the sum of ranks |
| BomVersions.SuccessesAreBounded | backend/domains/product/models.py:912-922 | on n versions at most 2n calls succeed, over any serial run |
| BomVersions.StepKeepsOneActiveIff | backend/domains/product/state_machine.py:104-131 | a check, bulk update, commit or abort of any transaction keeps one active version per product iff it is not a stale commit |
| BomVersions.OneActiveThroughoutIff | backend/domains/product/state_machine.py:104-131 | over any interleaving of any number of transactions the rule holds throughout iff no commit was stale |
| BomVersions.StepRevivesIff | backend/domains/product/state_machine.py:113-131 | a step of any transaction takes a version out of deprecated iff it commits an activation of it |
| BomVersions.DeprecatedThroughoutIff | backend/domains/product/state_machine.py:104-178 | over any interleaving a deprecated version stays deprecated from one point to another iff no step between commits an activation of it |
| BomVersions.RevivedAfterItsCheck | backend/domains/product/state_machine.py:104-131 | whenever a step takes a version out of deprecated, its transaction had checked that version as a draft before |
| BomVersions.DeprecatedComesBack | backend/domains/product/state_machine.py:104-178 | for any draft a run of two transactions that deprecates it and then makes it active |
| BomVersions.UninterruptedIsSerial | backend/domains/product/state_machine.py:104-178 | a transaction with nothing in between does what the serial operation does, and is not stale |
| BomVersions.OverlapLeavesTwoActive | backend/domains/product/state_machine.py:104-131 | for any two drafts of one product a run that leaves both active |
| HitlReviews.Queue.CreatePending | backend/domains/audit/repository.py:265-298 | created iff the key has no open review; the id returned is its newest open one |
| HitlReviews.Queue.ResolveReview | backend/hitl/state_machine.py:9-25 | who is refused, and that only this review changes |
| HitlReviews.Queue.ResolveBatch | backend/hitl/service.py:84-115 | decides the row the lookup returned; a rejection moves only a waiting batch and signals once |
| HitlReviews.Queue.DecideReview | backend/hitl/router.py:198-225 | the review named only supplies the batch |
| HitlReviews.DecisionExactly | backend/hitl/state_machine.py:9-25 | who is refused; a decision writes its outcome, text and author to that review alone |
| HitlReviews.DecisionHitsItsReviewIff | backend/hitl/router.py:210-224 | a decision is sure to reach the review it names iff the batch has no other |
| HitlReviews.OpenReviewBehindAResolvedOne | backend/hitl/repository.py:15-18 | with an earlier resolved review the lookup may refuse the open one's decision, changing nothing |
| HitlReviews.AtMostOneOpenReview | backend/domains/audit/repository.py:265-298 | any serial run keeps at most one open review per batch, reason and stage |
| HitlReviews.CreatedEqualsResolvedPlusOpen | backend/domains/audit/repository.py:265-298 | the created answers for a key equal its resolved plus open reviews |
| HitlReviews.ResolvedIsImmutable | backend/hitl/state_machine.py:12-13 | over serial operations a resolved review's resolution, text and decider never change |
| HitlReviews.ResolvedChangesIff | backend/hitl/state_machine.py:9-25 | a step changes a resolved review iff it assigns, from an earlier copy, a decision with another resolution, text or user |
| HitlReviews.ResolvedThroughoutIff | backend/hitl/repository.py:15-18 | over any interleaving a resolved review keeps its resolution, text and decider iff no decision that loaded it earlier has another resolution, text or user |
| HitlReviews.UninterruptedDecisionIsSerial | backend/hitl/state_machine.py:9-25 | a load and assignment with nothing in between are the serial decision |
| HitlReviews.SecondDecisionOverwrites | backend/hitl/state_machine.py:9-25 | a run in which two decisions load one open review: it is approved and then rejected |
| HitlReviews.ReplayInsertsIffDecided | backend/domains/audit/repository.py:259-282 | a replayed creation inserts another row iff the review was decided in between |
| HitlReviews.ResumedInterruptLeavesASecondReview | backend/agents/graph.py:113-166 | create, approve, create leaves a decided and a new pending review |
| HitlReviews.StepKeepsOneOpenIff | backend/domains/audit/repository.py:265-298 | a look, insert, load, assignment or abandoned call keeps one open review per key iff it is not a stale insert |
| HitlReviews.OneOpenThroughoutIff | backend/domains/audit/repository.py:265-298 | over any interleaving of calls and decisions the rule holds throughout iff no insert was stale |
| HitlReviews.UninterruptedCreationIsSerial | backend/domains/audit/repository.py:265-298 | a look and insert with nothing in between is the serial creation, and is not stale |
| HitlReviews.OverlappingCreationsOpenTwo | backend/domains/audit/repository.py:265-298 | a run of two overlapping creations that leaves two open reviews of one key |
| RiskScores.RiskBook.CalculateRiskScore | backend/domains/risk/service.py:24-86 | the new profile and history entry for any violations, and escalation iff critical |
| RiskScores.RiskBook.UpsertRiskScore | backend/domains/supplier/service.py:669-697 | the absolute update and its history entry, none when nothing changed |
| RiskScores.PointsExactly | backend/domains/risk/service.py:36-44 | 50 points for each violation or rejection, 30 for each geographic finding, 15 for each warning |
| RiskScores.ReasonsExactly | backend/domains/risk/service.py:46-47 | every stated reason is kept, in order |
| RiskScores.ScoringExactly | backend/domains/risk/state_machine.py:22-35 | the score is capped at 100, level and flag follow it, the reasons are appended |
| RiskScores.UpsertExactly | backend/domains/supplier/service.py:669-697 | score and level are set, flag and reasons kept |
| RiskScores.RunsReplay | backend/domains/risk/state_machine.py:22-35 | over any serial mix of both writers the level is the band of the score and the history replays to the profile |
| RiskScores.HistoryOnlyGrows | backend/domains/risk/service.py:57-69 | a shorter run's history is a prefix of a longer one's |
| RiskScores.ScoringSaturates | backend/domains/risk/service.py:36-51 | any sequence of scorings ends at the capped sum of everything added |
| RiskScores.EscalationSticks | backend/domains/risk/state_machine.py:27-35 | under scoring alone, critical stays critical |
| RiskScores.FlagAgreesAfterUpsertIff | backend/domains/supplier/service.py:677-683 | after an absolute update the high-risk flag is right iff it was already right for the new score |
| RiskScores.FlagCanBeWrong | backend/domains/supplier/repository.py:180-198 | for a supplier without a profile, an update to 60 gives a high-risk level without the flag |
| RiskScores.StepKeepsFaithfulIff | backend/domains/supplier/repository.py:170-203 | a read or write keeps them in agreement iff it is not a stale write |
| RiskScores.FaithfulThroughoutIff | backend/domains/supplier/service.py:669-699 | over any interleaving of both writers, level, score and history agree throughout iff no write was stale |
| RiskScores.UninterruptedIsSerial | backend/domains/risk/service.py:24-72 | a read and write with nothing in between do what the serial writer does, and are not stale |
| RiskScores.OverlappingScoringsDisagree | backend/domains/risk/service.py:24-72 | two scorers that load one low profile leave it at 15 points and critical |
| EventBus.Subscribers.Subscribe | backend/infrastructure/event_bus.py:64-74 | a handler is added last for its event; other events keep theirs |
| EventBus.Subscribers.Dispatch | backend/infrastructure/event_bus.py:77-98 | every handler of the event is called once, in order, whichever of them raise |
| EventBus.NextKeepsOneListener | backend/infrastructure/event_bus.py:124-158 | every step or failure of every process, and every drop by the server, keeps the lock's live holder the only listener and each session with the process that opened it |
| EventBus.OneListenerAlways | backend/infrastructure/event_bus.py:101-158 | in every run at most one live session listens and no two processes hold one session |
| EventBus.EachEnvelopeReachesAtMostOne | backend/infrastructure/event_bus.py:101-158 | in every run each envelope goes to at most one session |
| EventBus.EachHandlerCalledAtMostOnce | backend/infrastructure/event_bus.py:77-158 | in every run an envelope is dispatched in one process at most, and there each registered handler is called at most once |
| EventBus.DispatchCallsEveryHandler | backend/infrastructure/event_bus.py:77-98 | in every run a dispatched envelope calls every handler registered for its name in the process that heard it, for good |
| EventBus.WaitsForDispatch | backend/infrastructure/event_bus.py:119-122 | a heard envelope waits until it is dispatched, whatever else happens |
| EventBus.WaitingCanBeDispatched | backend/infrastructure/event_bus.py:119-122 | whatever waits can be dispatched |
| EventBus.RegisterExactly | backend/infrastructure/event_bus.py:64-74 | registering adds one handler at the end of one list |
| EventBus.StoppingReleases | backend/infrastructure/event_bus.py:144-158 | a leader that is stopped gives up its session and the lock |
| EventBus.FailuresExactly | backend/infrastructure/event_bus.py:124-158 | a stop ends the loop anywhere; an exception ends it outside the try block and inside only starts it over |
| EventBus.LateFailuresExactly | backend/infrastructure/event_bus.py:127-141 | an exception after the server did its part leaves the lock held, or the session listening |
| EventBus.DeliveredIffHeardAtOnce | backend/infrastructure/event_bus.py:43-61 | an envelope reaches a session iff that session listened when it was published |
| EventBus.LeadershipCanBeTaken | backend/infrastructure/event_bus.py:124-139 | while the lock is free a connecting process can be leader in three steps |
| EventBus.CanLead | backend/infrastructure/event_bus.py:124-158 | any process that has not ended nor waits on a dropped session can still come to listen |
| EventBus.HeardAgainIff | backend/infrastructure/event_bus.py:124-158 | somebody can ever listen again iff somebody does now or such a process is left |
| EventBus.SilenceIsForever | backend/infrastructure/event_bus.py:124-127 | once nobody listens and no such process is left, nothing is ever delivered |
| EventBus.OutageSilencesALoneProcess | backend/infrastructure/event_bus.py:124-158 | a dropped session and one failed reconnect silence a lone process for good |
| ManagerChain.GetManagerChain | backend/domains/users/repository.py:66-95 | stops on every graph with a chain of managers, nobody twice and never the start, stopping only where it must |
| ManagerChain.ChainExactly | backend/domains/users/repository.py:71-95 | in plain terms: it starts with the user's manager, each entry is the stored manager of the one before, nobody twice, and it stops only without a manager, at an unknown one, or at one already met |
| ManagerChain.ChainIsUnique | backend/domains/users/repository.py:71-95 | that description admits one chain only |

## Left out

- MasterForm.OnBehalfChangesExactly: contacts and carbon declarations do not all stay, because the code prunes factories; OnBehalfContactsUntouchedIff and OnBehalfDeclarationsUntouchedIff give the exact condition.
- Submissions.PipelineTriggersAtMostOnce: at most once, not exactly once; ToldIffTheCommitAnswered says exactly when.
- BomVersions.RunKeepsOneActive: serial runs only, because nothing locks the product; OneActiveThroughoutIff covers every interleaving.
- HitlReviews.AtMostOneOpenReview: serial runs only, because no index enforces it; OneOpenThroughoutIff covers every interleaving.
- BomVersions.DeprecatedIsFinal: serial runs only; DeprecatedThroughoutIff covers every interleaving.
- HitlReviews.ResolvedIsImmutable: serial runs only, because the review is loaded without a lock; ResolvedThroughoutIff covers every interleaving.
- RiskScores.RunsReplay: serial runs only, because the profile is read without a lock; FaithfulThroughoutIff covers every interleaving.
- Pipeline.RunsAreShort: bounds one start; how often a batch is started altogether is not modelled, because the announced SubmissionApproved and SubmissionCompleted start the graph as well as the enqueued job, nor are two starts of one thread at the same time.
- Pipeline.CanFinishIff: a start is taken to go through and to leave the product as it is; the event handler's look at the stored stage, and a resume without a checkpoint in the middle of a life, are not modelled.
- Submissions.HistoryReplays: commands with a fresh read of the row; HistoryReplaysIffNoStaleWrite covers sessions that work on an earlier copy.
- Coercion.Coerce: characters are ASCII digits and blanks and numbers are exact, so other digits and blanks of Unicode, rounding, and numerals too large for a float are not modelled; nor are confidences that are not a number (NaN).
- Pipeline.JudgeAll: a judge's answer is a parameter; the per-regulation rules are not modelled.
- Pipeline.EndedMeansSuppliersKnown: the stored compliance result is not modelled beyond the fact that the scorer reads a key nobody writes.
- BomVersions.StepKeepsOneActiveIff: row locks are not modelled, because two activations of different drafts write no common row that decides the rule.
- Timestamps, such as when a review was decided or a risk was last reviewed.
- Row order within one depth of the BOM query: the tree assembly is proved for every order instead.
- Quantities, prices and the other display columns of BOM rows, and the branch for a product without a BOM.
- SHA-256 and JSON serialisation: hashes are opaque, and outputs are assumed distinct nowhere.
- Language models, embeddings, S3, mail, geocoding, PostGIS, Redis and HTTP: answers are parameters.
- Supply-chain queries (N-tier suppliers, ancestors, geographic rules): answers are parameters.
- Authentication, tenants, access lists, notification wording, summaries and response shapes.
- The sweeper's time window, retry counts and dead-letter queue: a sweep may happen at any time.
- How the graph library persists state between visits; an interrupt counts as one visit.
- The supplier table's cached risk level, reminders and response status: easy members only.
- Unlinking a deleted factory from uploaded documents: same shape as for contacts.
- Field-completeness rules behind the blocking check: their answer is a parameter.
