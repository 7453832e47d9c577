# Change engine and governance: a verified model

This project models the decision logic of the service under `apps/api/app` and proves what it promises, for all inputs
and all runs. The database is an in-memory store of typed rows: one `database.session` block is one atomic step that
leaves nothing behind if it raises. Where a table's constraints or triggers decide the outcome they are part of the
model. SHA-256 over canonical JSON is an arbitrary injective function, clocks and identifiers are parameters, and text
that is only shown to people is left out.

Code that changes things step by step is a class or a method with loops, proved against a specification function; what
the source promises is then proved about that function.

| files | subject |
|---|---|
| `Ordering` | keys and the stable sort that ORDER BY and `sorted` share |
| `Estate`, `Traversal`, `TraversalSound`, `TraversalReach`, `TraversalBudget`, `TraversalCut`, `TraversalPolicy`, `TraversalShape`, `TraversalTrace`, `TraversalStops`, `TraversalPlain`, `TraversalChoice`, `ImpactTraversal` | the policy-driven impact walk: its query, its specification, soundness, completeness at least depth, budgets, the exact condition on policies, paths and determinism, every fetched row accounted for, when stopped branches are told apart, and the loops themselves |
| `Findings`, `Simulation`, `SimulationProofs`, `SimulationKeys`, `SimulationStored`, `Seeds`, `SimulationRerun`, `SimulationRuns`, `SimulationBudgets`, `SimulationPlain`, `SimulationClosing`, `SimulationLimits` | a simulation run: its seed query, finding keys as text, shared budgets, completeness of a SUCCEEDED run, exactly when stored findings are the hashed ones, limitations and status, exactly when re-execution gives the same hash, and runs that show the failures |
| `SimulationQueue`, `SimulationRetry` | claim, retry, cancel and crash of simulation runs, with and without the immutability triggers |
| `ChangeConflicts`, `ChangeScopes`, `ChangeTally` | change set conflicts, order independence, and the scope partition |
| `Submission` | idempotent submission of change sets, observed outcomes and simulations |
| `Harness`, `HarnessEvidence`, `HarnessGovernance`, `HarnessGate`, `HarnessDrafts`, `HarnessRace`, `HarnessStore` | evaluations, the promotion gate, two-person promotion, champions and rollback |
| `Envelope`, `Authorization`, `AuthorizationSafety`, `AgentDesk` | capability envelopes, approvals, the kill switch and the decision log |
| `FlightRecorder` | the hash-chained flight recorder and its audit |
| `Neighbourhood`, `NeighbourhoodPlain` | the two neighbourhood readers |
| `InsightCache`, `InsightFreshness`, `InsightServed`, `InsightService` | the insight cache and how fresh what it serves is |

## Results that are not what one would expect

- Terminal simulation runs are protected by the database triggers alone; with them in force a worker that commits a
  result always fails afterwards and never comes back, because the interpretation it then stores is refused
  (`SimulationQueue`).
- A run whose worker crashed is never claimed again (`SimulationQueue.OrphanWaitsForCancel`).
- A walk that uses its edge budget up exactly is reported as truncated when another query, even one that would find
  nothing, is still to be run (`TraversalCut.EdgeBudgetCutsExactly`).
- Capability rows beyond a mutation's node share are cut without any limitation
  (`SimulationClosing.EveryCapabilityIsTold`).
- Rules that share (predicate, direction, classification) lose targets (`TraversalPolicy.CoherenceIsExact`).
- Rollback restores the version sighted at the proposal, which need not be the one replaced, and works one deep
  (`HarnessGovernance`, `HarnessRace`).
- A conditional operation can never be permitted, a DENY verdict does not stop an executable row, and the actor that
  asked may approve (`AuthorizationSafety`, `AgentDesk`).
- The audit of an untouched flight record fails when an event's time was written with another offset than the
  session's (`FlightRecorder.AuditIsExact`, `FlightRecorder.UntouchedRecordFailsAudit`).
- A request answered by fingerprint can later be refused as key reuse (`Submission.RepeatsExactlyWhenBound`).
- Stored findings can be fewer than the hashed ones: evidence-less edges into one entity, one edge under two
  classifications, or a dependency on a package registered twice (`SimulationStored.StoredIsHashedInEstate`).
- The result hash can depend on the order in which registry identities of one package are stored: exactly when a
  dependency the policy accepts joins two that give it different versions
  (`SimulationRerun.HashForgetsStorageExactly`, `SimulationRuns.TwoVersionsChangeTheHash`).
- The two neighbourhood readers agree under a namespace filter only where it disturbs no shortest path
  (`Neighbourhood.ReadersAgreeExactly`).
- An invalidation that falls inside a cache fill is lost (`InsightFreshness.InvalidationInsideAFillIsLost`).

The comment on `_change_set_conflicts` says the check keeps a set's effect from depending on application order. The code
compares scopes by id, so nested scopes escape it, and subjects by entity although dependents are found by package name,
so two entities of one name escape it too. The model follows the code (`ChangeScopes.OrderFreeExactlyWhenAgreeing`).

## Model

| member | source | states |
|---|---|---|
| `ImpactTraversal.Traverser.Expand` | apps/api/app/impact_traversal.py:254-357 | The mutating level loop (seen dict, frontier, grouped rules, budgets, stops) computes exactly the walk function `Traversal.Expanded` for every graph, policy, seed list and pair of budgets |
| `ImpactTraversal.Traverser.Group` | apps/api/app/impact_traversal.py:273-281 | The dictionary of nodes by (predicate, direction, classification) lists, for the level, each key some rule admits and with it exactly the frontier nodes it admits |
| `ImpactTraversal.Traverser.TakeRows` | apps/api/app/impact_traversal.py:309-349 | One rule's rows, in order: stopped, already seen, added, or cut at the node budget |
| `Estate.QueryForgetsStorageOrder` | apps/api/app/impact_traversal.py:359-395 | The edge query's ORDER BY is total when fact ids are unique, so its result does not depend on how facts are stored |
| `Estate.AllRowsMembers` | apps/api/app/impact_traversal.py:368-393 | A row is returned by the edge query exactly when some fact joins: direction, relation, type filter and no self-edge |
| `TraversalSound.ExpandedIsSound` | apps/api/app/impact_traversal.py:282-349 | Under any budgets the nodes are the distinct seeds followed by nodes each grown from an earlier one along an eligible edge a rule admits; no entity appears twice |
| `TraversalSound.ExpandedStopsAreSound` | apps/api/app/impact_traversal.py:309-325 | Every recorded STOP is an admitted but ineligible edge out of a recorded node, with the reason eligibility gives |
| `TraversalSound.EdgeBudgetHolds` | apps/api/app/impact_traversal.py:290-307 | No walk counts more edges than its edge budget |
| `TraversalBudget.NodeBudgetHolds` | apps/api/app/impact_traversal.py:264-269 | The recorded nodes exceed the node budget only as far as the distinct seeds, which are added unchecked, already did |
| `TraversalBudget.SmallerBudgetIsPrefix` | apps/api/app/impact_traversal.py:290-333 | Shrinking either budget yields a prefix of the node list |
| `TraversalBudget.EnoughBudgetSuffices` | apps/api/app/impact_traversal.py:290-333 | A node per entity and an edge per rule, fact and level are enough for nothing to be truncated |
| `TraversalCut.EdgeBudgetCutsExactly` | apps/api/app/impact_traversal.py:290-307 | With room for its nodes, an edge budget cuts a walk exactly when it is less than the edges the uncut walk walks or is used up when that walk runs its last query; any other budget leaves the walk as it is |
| `TraversalReach.UncappedStopsAreExact` | apps/api/app/impact_traversal.py:309-325 | When nothing was truncated a STOP is recorded exactly for each admitted edge of a recorded node that eligibility refuses |
| `TraversalReach.UncappedWalkIsGroupedReach` | apps/api/app/impact_traversal.py:254-357 | An untruncated walk from seeds of one depth lists exactly the entities reachable by policy-admitted eligible hops, each once and at its least depth, for every policy as the engine groups it |
| `TraversalPlain.NodesLieAcross` | apps/api/app/impact_traversal.py:318-346 | Under any budgets every node past the seeds lies across a fact of the estate from an earlier node: a rule takes that node's type at that depth (the step within both the rule's and the policy's bound), the fact has the rule's relation and direction, evidence and enough confidence, and the node carries the fact, its confidence, the rule's classification and weight and the path extended by one |
| `TraversalPlain.CrossedIsRecorded` | apps/api/app/impact_traversal.py:173-179 | When nothing was cut, whatever a rule takes a recorded node to, in those same terms, is recorded, no deeper than one step on |
| `TraversalPlain.StoppedExactly` | apps/api/app/impact_traversal.py:309-325 | When nothing was cut, a branch is recorded as stopped exactly for a fact that a rule takes a recorded node across and that lacks evidence or confidence, with the reason that is so and the fact cited only if there is evidence |
| `TraversalChoice.FirstEdgeIsTaken` | apps/api/app/impact_traversal.py:282-349 | When nothing was cut, a node is recorded across the first of all eligible edges that lead to its entity from the level above: by relation, direction and classification as texts, then by the origin's key, absent ones last, then by fact id |
| `TraversalPlain.SeedsComeFirst` | apps/api/app/impact_traversal.py:264-269 | The walk lists first one seed of each entity, by key and id, and no entity of a seed again |
| `TraversalPlain.DepthBoundIsNoted` | apps/api/app/impact_traversal.py:352-356 | MAX_DEPTH is noted exactly when the policy names it as a stop condition and some node sits at the policy's depth bound |
| `TraversalPolicy.UniqueKeysAreCoherent` | apps/api/app/impact_traversal.py:283-288 | When no two rules share (predicate, direction, classification), taking the first rule of a key grants what the rules grant, from seeds at any depth |
| `TraversalPolicy.CoherentWalkMeetsPolicy` | apps/api/app/impact_traversal.py:168-179 | Under a policy coherent from the seeds' depth an untruncated walk lists exactly what the rules, as written, reach, at least depth |
| `TraversalPolicy.CoherenceIsExact` | apps/api/app/impact_traversal.py:278-288 | For every depth of the seeds, the service's depth 1 among them: a policy is walked as written on every graph, every seed list at that depth and every sufficient budget if and only if grouping grants what the rules grant to every type at every depth at which the rules can lead to that type |
| `TraversalPolicy.CoherenceIsChecked` | apps/api/app/impact_traversal.py:283-288 | A finite check, rule by rule over its own types, depths and targets, decides coherence from a depth |
| `TraversalPolicy.SharedKeyLosesTargets` | apps/api/app/impact_traversal.py:283-288 | Two rules that share a key but not a target type, with seeds at depth 1: the second one's targets are lost |
| `TraversalShape.PathIsSimple` | apps/api/app/impact_traversal.py:318-346 | A node's path runs from its seed over recorded entities, all different, with a length that tracks depth |
| `TraversalShape.RecordsArePaidFor` | apps/api/app/impact_traversal.py:307-349 | Nodes added and branches stopped never outnumber the edges walked |
| `TraversalTrace.EdgesAreTraced` | apps/api/app/impact_traversal.py:306 | The edges walked are exactly the rows fetched, over all levels and queries |
| `TraversalTrace.RowsAreAccountedFor` | apps/api/app/impact_traversal.py:307-349 | The node budget refuses no fetched row of the walk, whether or not the edge budget cuts it, if and only if all fetched rows are accounted for: the ineligible ones are the stopped branches, in order; the others' entities are, with the seeds, the recorded ones; and the edges walked are branches stopped plus nodes added plus rows that led to an entity already recorded |
| `TraversalTrace.CutIsFull` | apps/api/app/impact_traversal.py:326-333 | Where a row was refused the node budget is full and the walk is marked truncated |
| `TraversalStops.TraceIsExact` | apps/api/app/impact_traversal.py:273-307 | An untruncated walk fetches exactly the admitted edges out of the nodes it records |
| `TraversalStops.StopsDifferExactly` | apps/api/app/impact_traversal.py:309-325 | The stopped branches of an untruncated walk are told apart by relation, fact (or its absence) and entity if and only if no two different refused edges that the policy reaches, each at its entity's least depth and under one rule key, share those three |
| `TraversalStops.LabelsShared` | apps/api/app/phase2_changes.py:2010-2014 | Two refused edges share a label in exactly two ways: one evidenced fact under two classifications, or no evidence, one relation and one target |
| `TraversalStops.TwoClassificationsCollide` | apps/api/app/impact_traversal.py:273-281 | One edge refused under two classifications of its relation and direction is stopped twice under one label, evidence or not |
| `TraversalStops.EvidencelessStopsCollide` | apps/api/app/phase2_changes.py:2010-2014 | Two recorded entities with evidence-less edges of one relation, under any rules, into one entity produce two stopped branches of one label |
| `TraversalShape.TruncationIsAnnounced` | apps/api/app/impact_traversal.py:290-333 | The truncated flag is set exactly when the TRAVERSAL_BUDGET limitation is noted |
| `TraversalShape.TraversalIsDeterministic` | apps/api/app/impact_traversal.py:264-269 | Over one snapshot and policy the walk does not depend on the order of the seeds or of the stored facts |
| `Seeds.SeedRowsMembers` | apps/api/app/phase2_changes.py:2085-2117 | A row of the seed query is a current dependency, in scope, of an entity of a type the policy starts from, joined to one registry identity of the package's name, with the version that pair gives |
| `Seeds.SeedRowsTell` | apps/api/app/phase2_changes.py:2098-2117 | The seed rows, field by field and in their order: the lockfile's version wins over the registry's and that over the declared one; by the dependent's key, then by component, absent ones last, then by fact |
| `Seeds.SeedsForgetStorageExactly` | apps/api/app/phase2_changes.py:2098-2117 | The seed query has one result, however facts, registry identities and links are stored, if and only if no dependency in scope joins two registry identities that give it different versions |
| `Seeds.FactsApartExactly` | stackgraph-foundation/schema.sql:167-173 | A fact comes up twice among the seed rows exactly when a dependency in scope joins two registry identities, which the table allows one entity to have |
| `Simulation.SimulateMutation` | apps/api/app/phase2_changes.py:1847-2076 | The seed query over facts and registry identities, the seed loop, the walk under what the seeds left of the edge budget, the curated capability join, and the findings and limitations it appends, for one mutation |
| `Simulation.AddCapabilities` | apps/api/app/phase2_changes.py:2155-2196 | The dictionary of query rows by capability yields one finding a capability, in the order of its id, naming the first application of its group |
| `Simulation.Execute` | apps/api/app/phase2_changes.py:1749-1844 | Every mutation under its share of the budgets; status, limitations with one of each code, the hash over sorted findings and limitations (labels, entities, evidence, paths, confidence and what the payload says of versions, component, relation, depth, weight, reason, criticality, source and applications), and the findings table of the run |
| `SimulationBudgets.BudgetsAreShared` | apps/api/app/phase2_changes.py:1771-1787 | Summed over the mutations, seed rows and walked edges stay within the setting and, unless it is zero, the policy's own edge budget, or are one a mutation; walked nodes likewise |
| `SimulationBudgets.EachKeepsToItsShare` | apps/api/app/phase2_changes.py:1771-1776 | No mutation spends more of either budget than every mutation could |
| `SimulationBudgets.RoomForAllIsUnlimited` | apps/api/app/phase2_changes.py:1771-1787 | If what every mutation needs, with one edge to spare, fits the setting and the policy's budget as many times as there are mutations, no mutation is limited |
| `SimulationProofs.StatusIsExact` | apps/api/app/phase2_changes.py:1796-1803 | SUCCEEDED is reported exactly when no mutation was limited and each had an eligible dependent |
| `SimulationProofs.OtherStatusesAreExact` | apps/api/app/phase2_changes.py:1796-1803 | NOT_SIMULATABLE is reported exactly when no mutation had an eligible dependent, LIMITED exactly when one had and some mutation was limited or had none |
| `SimulationProofs.SucceededIsComplete` | apps/api/app/phase2_changes.py:1781-1803 | In a SUCCEEDED run a mutation has a hashed finding that it affects an entity exactly when the policy, as grouped, reaches that entity from a dependent it accepts |
| `SimulationProofs.SucceededMeetsPolicy` | apps/api/app/phase2_changes.py:1781-1803 | The same for the policy as written, when it is coherent from depth 1 |
| `Findings.LabelReads` | apps/api/app/phase2_changes.py:1909-2014 | The text of a finding key determines what it is about, except that a node reached under a STOP rule and a stopped branch write the same text |
| `Findings.KeyReads` | apps/api/app/phase2_changes.py:1893-1905 | Keys of different ordinals never collide; within one ordinal two keys are equal exactly when their labels coincide |
| `Findings.Persist` | apps/api/app/phase2_changes.py:1816-1836 | INSERT ... ON CONFLICT DO NOTHING finding by finding keeps the first finding of each key |
| `Findings.OneRowEach` | infrastructure/database/migrations/047_phase2_change_compiler.sql:142 | The table holds as many rows as findings exactly when no two share a key |
| `Findings.RowsAreFindings` | apps/api/app/phase2_changes.py:1816-1836 | When no two findings share a key, the row under each finding's key is that finding |
| `SimulationKeys.OutcomeKeys` | apps/api/app/phase2_changes.py:1909-2014 | Within a mutation keys are distinct exactly when its seed findings and its stopped branches are: walked nodes never collide with anything |
| `Findings.KeysSpell` | apps/api/app/phase2_changes.py:1909-2049 | The keys of seed, capability and closing findings, letter by letter |
| `Findings.WalkKeysSpell` | apps/api/app/phase2_changes.py:1981-2013 | The keys of walked nodes and stopped branches, letter by letter, an absent fact spelled None |
| `Findings.DecimalCounts` | apps/api/app/phase2_changes.py:1893 | The ordinal in a key is the decimal of the mutation's position, without leading zeros |
| `SimulationPlain.SeedsAreTold` | apps/api/app/phase2_changes.py:1908-1953 | Whatever the budgets, a finding about a dependency is of a dependency in scope, moved from its version and cited when accepted, stopped for want of evidence or confidence when refused |
| `SimulationPlain.EverySeedIsTold` | apps/api/app/phase2_changes.py:1908-1953 | When nothing was cut every dependency in scope has such a finding for every registry identity it joins |
| `SimulationPlain.RecordedAreTold` | apps/api/app/phase2_changes.py:1953-1960 | Every entity a mutation's walk records is an accepted dependent, with the depth, terms and path the program gives it, or lies across an admitted edge from a recorded entity |
| `SimulationPlain.NodesAreTold` | apps/api/app/phase2_changes.py:1976-2008 | Whatever the budgets, a finding about an entity the walk led to names the fact it lies across, the rule's classification and weight, and the depth and path of its node |
| `SimulationPlain.EveryNodeIsTold` | apps/api/app/phase2_changes.py:1976-2008 | Every entity recorded past the seeds has such a finding |
| `SimulationPlain.StopsAreTold` | apps/api/app/phase2_changes.py:2010-2029 | Whatever the budgets, a finding about a stopped branch names the fact if there is evidence for it, and why the branch stopped |
| `SimulationPlain.EveryStopIsTold` | apps/api/app/phase2_changes.py:2010-2029 | Every stopped branch has such a finding |
| `SimulationPlain.OnlyEvidenceIsCited` | apps/api/app/phase2_changes.py:1917-2056 | Nothing is cited in any finding, under any budgets, that the estate has no evidence for |
| `SimulationClosing.CapabilitiesAreTold` | apps/api/app/phase2_changes.py:2155-2196 | A capability's finding names a most critical delivery to a reached application, of a type and depth the rule takes, and only such applications |
| `SimulationClosing.EveryCapabilityIsTold` | apps/api/app/phase2_changes.py:2133-2138 | Every capability delivered to a reached application has a finding, provided the query's rows are no more than the mutation's node share, at which they are cut without a limitation |
| `SimulationClosing.ClosingIsTold` | apps/api/app/phase2_changes.py:2036-2067 | The version spread cites each accepted dependency once, in order, and counts what moves, what stays and the recorded nodes that are transitive or context; remembered outcomes are noted only if there are any |
| `SimulationClosing.LimitationsAreExact` | apps/api/app/phase2_changes.py:1964-2074 | Each limitation of a mutation is there exactly when what it says is so: cut by a budget, at the policy's depth bound, no application reached, none of those reached mapped, no dependency accepted |
| `SimulationClosing.RefusedAreCited` | apps/api/app/phase2_changes.py:2069-2074 | Where no dependency was accepted, the limitation cites exactly those found that have evidence |
| `SimulationLimits.MutationNotesInOrder` | apps/api/app/phase2_changes.py:1868-2070 | A mutation reports each limitation once and in one order: budget, depth bound, capabilities, lack of accepted dependents |
| `SimulationLimits.RefusedAreCitedInOrder` | apps/api/app/phase2_changes.py:2065-2070 | The limitation about refused dependencies cites those with evidence, in the order they were found |
| `SimulationLimits.RunReportsFirst` | apps/api/app/phase2_changes.py:1792-1794 | A run reports, of each code, what the first mutation to note it noted, in the order they were noted |
| `SimulationClosing.HashedReads` | apps/api/app/phase2_changes.py:1804-1806 | What is hashed is the run's findings by classification, in the program's order of them, and then by key as text |
| `SimulationKeys.SeedKeysDiffer` | apps/api/app/phase2_changes.py:1909-1944 | The seed findings have keys of their own if and only if the rows taken up do not repeat a fact with one verdict |
| `SimulationKeys.StoredIsHashed` | apps/api/app/phase2_changes.py:1804-1836 | Stored findings are the hashed findings one for one exactly when in every mutation the seed rows taken up do not repeat a fact with one verdict and no two stopped branches share relation, fact (or its absence) and entity |
| `SimulationKeys.StoredIsHashedExactly` | apps/api/app/phase2_changes.py:1804-1836 | For a run no budget limited the same as a condition on estate, policy and seed rows alone: no fact twice among seeds with one verdict, and no two refused edges reachable from the accepted dependents with one label |
| `SimulationStored.StoredIsComplete` | apps/api/app/phase2_changes.py:1816-1836 | In a SUCCEEDED run over any change set, its seeds as the query finds them, the stored rows, too, say that a mutation affects an entity exactly when the policy as grouped reaches it: rows lost to a shared key lose nothing of this |
| `SimulationStored.StoredMeetsPolicy` | apps/api/app/phase2_changes.py:1816-1836 | The same for the policy as written, when it is coherent from depth 1 |
| `SimulationStored.StoredIsHashedInEstate` | apps/api/app/phase2_changes.py:1804-1836 | A run that no budget limited stores as many rows as it hashed if and only if, over the stored tables, no dependency in scope of a change joins two registry identities and no two refused edges the policy meets from the accepted dependents share a label |
| `SimulationStored.LimitationsTellStatus` | apps/api/app/phase2_changes.py:1792-1803 | A run reports SUCCEEDED exactly when its merged limitations name neither TRAVERSAL_BUDGET nor NO_ELIGIBLE_IMPACT_PATH |
| `SimulationRerun.ReexecutionIsIdempotent` | apps/api/app/phase2_changes.py:1749-1844 | Running a change set again over the same tables, stored in any order, gives the same status, limitations and result hash and leaves the findings table as it is, when no accepted dependency joins registry identities of different versions and no two maps link one capability to one application at one criticality |
| `SimulationRerun.LinksForgetStorageExactly` | apps/api/app/impact_traversal.py:409-425 | The capability query has one result, however the tables are stored and whatever applications were reached, if and only if no capability is linked to one application at one criticality by two maps |
| `SimulationRerun.HashForgetsStorageExactly` | apps/api/app/phase2_changes.py:1804-1814 | A run that no budget limited has one result hash, in whatever order the tables are stored, if and only if no accepted dependency of its changes joins registry identities that give it different versions |
| `SimulationRuns.TwoVersionsChangeTheHash` | apps/api/app/phase2_changes.py:1932-1953 | A run over one dependency on a package entity registered under two versions: the order in which the two identities are stored decides the hash, and two findings are hashed but one is stored |
| `SimulationRuns.SharedServiceLosesAStop` | apps/api/app/phase2_changes.py:1816-1836 | A run over two dependents with evidence-less edges into one service: two stops are hashed under one key and one is stored |
| `SimulationQueue.QueueIsSafe` | apps/api/app/phase2_changes.py:1694-1745 | Over every interleaving of workers, crashes and cancels: at most one active worker per run, none while it is QUEUED, and claims never exceed the attempts allowed |
| `SimulationQueue.CancelledRunIsOverwritten` | apps/api/app/phase2_changes.py:1669-1692 | Without the row triggers, a run in which a worker's late result overwrites a cancelled row |
| `SimulationQueue.FinishedRunIsRequeued` | apps/api/app/phase2_changes.py:1837-1845 | Without the row triggers, a run in which a failure after the result commit puts a finished run back in the queue |
| `SimulationQueue.TriggersMakeTerminalAbsorbing` | infrastructure/database/migrations/047_phase2_change_compiler.sql:179-190 | Terminal status is absorbing over all runs if and only if the immutability triggers are in force |
| `SimulationQueue.GuardedRowsAreWhole` | infrastructure/database/migrations/051_phase2_immutability_and_flags.sql:11-29 | With the triggers a run has a result hash exactly when its status is a result, findings only then, and no interpretation ever |
| `SimulationQueue.CommittedWorkerNeverReturns` | apps/api/app/phase2_changes.py:1845 | With the triggers the interpretation after a commit raises, the failure handler's own update raises too, and the worker never claims again |
| `SimulationQueue.OrphanWaitsForCancel` | apps/api/app/phase2_changes.py:1694-1717 | A run whose worker crashed is claimed by nobody and changes only by a cancellation |
| `SimulationQueue.CrashOrphans` | apps/api/app/phase2_changes.py:1694-1717 | A worker that crashes while executing leaves such a run behind |
| `SimulationQueue.QuietStays` | apps/api/app/phase2_changes.py:1669-1686 | Triggers or not, a terminal run with no worker on it, and no cancellation in flight unless it is cancelled already, never changes again |
| `SimulationQueue.QuietIsExact` | apps/api/app/phase2_changes.py:1669-1745 | Without the triggers, in every interleaving, that is exact: a terminal run that a worker is still on, or that a pending cancellation would still relabel, has a continuation that changes it |
| `SimulationRetry.ResultsWereCommitted` | apps/api/app/phase2_changes.py:1815-1844 | With the triggers, in every run, a row that shows a result carries the status, hash and findings that one step committed, by a worker executing that run |
| `SimulationRetry.ResultIsStored` | apps/api/app/phase2_changes.py:1815-1844 | Whichever of the three results a worker commits to its running run, the row then shows it and nothing else changes |
| `SimulationRetry.OnlyResultsAreStored` | apps/api/app/phase2_changes.py:1815-1844 | No worker commits a status that is not a result |
| `SimulationRetry.FailureIsRetried` | apps/api/app/phase2_changes.py:1721-1745 | In every interleaving a failed attempt puts the run back in the queue, free to be claimed, as long as an attempt is left, and otherwise marks it failed |
| `SimulationRetry.FailedSpentItsAttempts` | apps/api/app/phase2_changes.py:1721-1745 | In every interleaving a run that failed for good was claimed as often as it may be |
| `SimulationRetry.RunIsTriedUntilSpent` | apps/api/app/phase2_changes.py:1694-1745 | A run that fails every time is tried exactly as often as it may be |
| `SimulationRetry.ClaimIsExact` | apps/api/app/phase2_changes.py:1697-1717 | An idle worker takes a run exactly when it is queued and no live lease is on it, and then nothing else changes |
| `SimulationRetry.InterpretationIsExact` | apps/api/app/phase2_changes.py:2374-2398 | Storing an interpretation frees the worker; the triggers refuse it on a terminal row, and then the attempt has failed |
| `SimulationRetry.CancellationIsExact` | apps/api/app/phase2_changes.py:1669-1692 | A cancellation is taken up for an unfinished run and marks it cancelled, whatever happened since, unless the triggers refuse |
| `SimulationQueue.Store.CommitResult` | apps/api/app/phase2_changes.py:1815-1844 | The result transaction merges findings and writes status and hash, or raises on a terminal row and changes nothing |
| `SimulationQueue.Store.HandleFailure` | apps/api/app/phase2_changes.py:1721-1745 | Requeue, or FAILED once attempts are spent; raises on a terminal row |
| `SimulationQueue.Store.RecordInterpretation` | apps/api/app/phase2_changes.py:2374-2398 | Storing an interpretation is refused once the run is terminal, and then nothing is stored |
| `SimulationQueue.Store.ReadForCancellation` | apps/api/app/phase2_changes.py:1669-1681 | The first cancellation transaction answers not found or already terminal and otherwise only reads |
| `SimulationQueue.Store.WriteCancellation` | apps/api/app/phase2_changes.py:1682-1692 | The second writes CANCELLED without looking at the status again |
| `SimulationQueue.Store.ClaimRun` | apps/api/app/phase2_changes.py:1697-1717 | The claim takes a QUEUED row without a live lease, marks it RUNNING and counts the attempt |
| `ChangeConflicts.Conflicts` | apps/api/app/phase2_changes.py:163-197 | The pass with a dictionary of target sets reports DUPLICATE_MUTATION exactly when a fingerprint repeats and CONFLICTING_MUTATIONS exactly when two drafts move one subject in one scope to different targets |
| `ChangeConflicts.OrderFreeExactly` | apps/api/app/phase2_changes.py:163-170 | Applying a change set has one effect in every order if and only if no two of its drafts that touch one dependency differ in target |
| `ChangeConflicts.NoConflictIsOrderFree` | apps/api/app/phase2_changes.py:163-197 | A set without conflict whose different scopes share no dependency has one effect in every order |
| `ChangeConflicts.RepeatsAreFewer` | apps/api/app/phase2_changes.py:171-178 | A fingerprint repeats exactly when the set has fewer fingerprints than drafts |
| `ChangeConflicts.ClashesRead` | apps/api/app/phase2_changes.py:179-197 | Drafts clash exactly when two of the set, in whatever order, name one subject and scope and different targets |
| `ChangeScopes.BuildScopes` | apps/api/app/phase2_changes.py:848-880 | Grouping by repository and component in order of appearance builds, for the estate and each group, a row with its count, version tally and facts |
| `ChangeScopes.EstateIsTheSum` | apps/api/app/phase2_changes.py:864-874 | The estate's count, and its count of every version, is the sum of the repositories' |
| `ChangeScopes.ComponentsFillRepository` | apps/api/app/phase2_changes.py:867-879 | A repository's components count at most what it counts, with equality exactly when every row of it names a component |
| `ChangeScopes.DistributionSumsToCount` | apps/api/app/phase2_changes.py:849-862 | Every scope's version distribution sums to its affected count |
| `ChangeTally.RowsAreTold` | apps/api/app/phase2_changes.py:849-862 | A scope row counts each dependent lying in it once, tallies them by version and lists exactly their facts |
| `ChangeTally.OfferedExactly` | apps/api/app/phase2_changes.py:847-880 | A scope is offered exactly when a dependent lies in it, a repository's root being no component |
| `ChangeTally.OfferedInOrder` | apps/api/app/phase2_changes.py:862-879 | The estate comes first, then repositories, then components, each kind in the order its members are first met |
| `ChangeScopes.OverlapIsNesting` | apps/api/app/phase2_changes.py:864-879 | Two scopes with different ids share a dependent in some estate exactly when one is nested in the other |
| `ChangeScopes.OrderFreeExactlyWhenAgreeing` | apps/api/app/phase2_changes.py:163-182 | A change set has one effect in every order, in every estate, if and only if its drafts that can meet (subjects whose names can be one package's, scopes the same or nested) ask for one version |
| `ChangeScopes.UnnestedIsOrderFree` | apps/api/app/phase2_changes.py:163-197 | A conflict-free set whose drafts can meet only on one subject and one scope has one effect in every order |
| `ChangeScopes.NestedScopesEscapeTheCheck` | apps/api/app/phase2_changes.py:179-182 | `estate` and `repository:X` are compared by id only: no reason is reported, yet the order matters |
| `ChangeScopes.SameNameEscapesTheCheck` | apps/api/app/phase2_changes.py:2104-2108 | Dependents are found by package name but subjects compared by entity: two entities of one name moved to two versions raise no reason, yet the order matters |
| `Submission.IdsAreContents` | apps/api/app/phase2_changes.py:1184-1252 | Over any run of submissions two successes return one id exactly when they asked for one content, whichever row the lookup prefers |
| `Submission.SuccessLasts` | apps/api/app/phase2_changes.py:373-414 | The row a success points at stays, with the fingerprint asked for |
| `Submission.ReuseIsRefusedExactly` | apps/api/app/phase2_changes.py:1562-1580 | Key reuse is refused exactly when the key is bound to other content and, for simulations, no newer row holds the requested content |
| `Submission.RepeatsExactlyWhenBound` | apps/api/app/phase2_changes.py:1189-1211 | A replayed request succeeds with the same id in every future if and only if its key is stored: a replay found by fingerprint does not bind the key |
| `Submission.CreationRepeats` | apps/api/app/phase2_changes.py:1220-1231 | The request that created a row is answered with that row in every future |
| `Submission.SharedPartIsRefused` | infrastructure/database/migrations/047_phase2_change_compiler.sql:88-89 | Over every run a change set with a new key and new content is refused if and only if some request that created one before it had a mutation in common, and otherwise created |
| `Submission.Desk.Receive` | apps/api/app/phase2_changes.py:1546-1580 | Lookup, conflict, replay or insert in one transaction |
| `HarnessEvidence.CleanEvaluationPassedAll` | apps/api/app/immune_system.py:880-919 | A completed evaluation without failures or inconclusive outcomes passed every selected scenario: counters are counts of recorded results, and there are as many as scenarios |
| `HarnessEvidence.EvidenceStepKeepsInv` | apps/api/app/immune_system.py:818-878 | Recording and completing keep counters equal to the results per outcome and results inside the selection |
| `HarnessEvidence.ClearGateIsBacked` | apps/api/app/immune_system.py:985-1119 | A gate without reasons means a completed, fully passed evaluation of exactly that harness and version and a later passed rollback drill |
| `HarnessEvidence.EligibleNeedsOnlyADrill` | apps/api/app/immune_system.py:1121-1152 | With a drill cited the gate is clear exactly when the posture is ELIGIBLE and the drill is a passed rollback drill no older than the evaluation |
| `HarnessGate.ClearGateExactly` | apps/api/app/immune_system.py:985-1119 | In every run the gate is clear if and only if the evaluation is a finished, fully passed one of this version with a later passed rollback drill, scenarios were derived, every kind of them was tested, and the champion is another version none of whose scenarios was left out |
| `HarnessGate.EvaluationReasonsAreExact` | apps/api/app/immune_system.py:996-1033 | Each reason about the evaluation is given exactly when it is so |
| `HarnessGate.CoverageReasonsAreExact` | apps/api/app/immune_system.py:1035-1087 | In every run each reason about scenarios and champion is given exactly when it is so, in sets of scenarios |
| `HarnessGate.DrillReasonsAreExact` | apps/api/app/immune_system.py:1089-1118 | Each reason about the cited drill is given exactly when it is so |
| `HarnessGate.RaisedInOrder` | apps/api/app/immune_system.py:985-1119 | The reasons come in the order of the program |
| `HarnessDrafts.EvaluationsAreUniform` | apps/api/app/immune_system.py:774-816 | In every run an evaluation selects different, derived scenarios, at least one, all of one watermark |
| `HarnessDrafts.StartIsRefused` | apps/api/app/immune_system.py:774-816 | What each refusal to start an evaluation says is so, and it starts exactly when none is |
| `HarnessDrafts.RecordIsRefused` | apps/api/app/immune_system.py:818-878 | The same of recording an outcome |
| `HarnessDrafts.CompletionIsRefused` | apps/api/app/immune_system.py:880-919 | The same of completing an evaluation |
| `HarnessGovernance.ChampionsAreProven` | apps/api/app/immune_system.py:1209-1343 | In every run a champion row names a promotion of its harness that put its version there, forwards or by rollback, and the version was challenger of a promotion with a clear gate, two people and standing evidence |
| `HarnessGovernance.PromotionsOnlyAdvance` | infrastructure/database/migrations/062_harness_promotion.sql:100-121 | Over any run a promotion is decided at most once and then at most rolled back; its terms never change |
| `HarnessDrafts.PromotionsWereDrafted` | apps/api/app/immune_system.py:1154-1196 | In every run each promotion carries what its own gate raised over the tables of that moment and the version running when its proposal first looked, after the gate; it cites an existing drill and waits for a decision exactly if its gate was clear |
| `HarnessDrafts.NoChampionSucceedsItself` | infrastructure/database/migrations/062_harness_promotion.sql:79-90 | In no run is a champion row's version its previous one |
| `HarnessDrafts.DecisionIsRefused` | apps/api/app/immune_system.py:1209-1268 | What each refusal to decide a promotion says is so, and it is decided exactly when none is |
| `HarnessDrafts.RollbackIsRefused` | apps/api/app/immune_system.py:1270-1343 | The same of rolling one back |
| `HarnessDrafts.ProposalIsRefused` | apps/api/app/immune_system.py:1154-1207 | A gate is refused only for an unknown evaluation, a proposal exactly when no drill or an unknown one is cited |
| `HarnessGovernance.RollbackRestoresTheSightedVersion` | apps/api/app/immune_system.py:1289-1334 | However long a promotion ran, its rollback restores the version running at its decision if and only if that is the version sighted at its proposal, and touches no other harness |
| `HarnessGovernance.StrandedForever` | apps/api/app/immune_system.py:1296-1308 | A promotion in force that no champion row names is refused as SUPERSEDED by every later rollback |
| `HarnessGovernance.RollbackIsOneDeep` | apps/api/app/immune_system.py:1296-1334 | Once a promotion replaced an earlier one the earlier one can never be rolled back again, even after its version runs again |
| `HarnessRace.OverlappingProposalsLoseTheChampion` | apps/api/app/immune_system.py:1175-1196 | A run of two proposals drafted before either was decided: rolling back the second leaves no champion although the first version was running |
| `HarnessStore.Service.StartEvaluation` | apps/api/app/immune_system.py:774-816 | Unknown scenarios and mixed watermarks are refused; otherwise a RUNNING evaluation with zero counters is stored |
| `HarnessStore.Service.RecordResult` | apps/api/app/immune_system.py:818-878 | One result per selected scenario of a running evaluation, and its counter |
| `HarnessStore.Service.CompleteEvaluation` | apps/api/app/immune_system.py:880-919 | COMPLETED needs an outcome for every scenario; ABANDONED does not |
| `HarnessStore.Service.EvaluationGate` | apps/api/app/immune_system.py:985-1119 | The gate returns every reason that holds, in its order, rather than stopping at the first |
| `HarnessStore.Service.Sight` | apps/api/app/immune_system.py:1175-1178 | A proposal reads the running version after its gate, in a transaction of its own |
| `HarnessStore.Service.Propose` | apps/api/app/immune_system.py:1179-1196 | A clear gate stores a PENDING promotion, a blocked one a REFUSED promotion with its reasons; a drill that does not exist is refused by the table |
| `HarnessStore.Service.Decide` | apps/api/app/immune_system.py:1209-1268 | Second person, status change, and the champion upsert with the table's own refusal of an unchanged version |
| `HarnessStore.Service.RollBack` | apps/api/app/immune_system.py:1270-1343 | Only the champion's own promoted promotion rolls back; the champion row is rewritten or deleted |
| `Envelope.TokensStandInKey` | apps/api/app/agent_control.py:114-115 | The tokens of an operation key are exactly its pieces bounded by dots, colons or the ends |
| `Envelope.Compile` | apps/api/app/agent_control.py:110-172 | The loop and the no-evidence rule compute each operation's band and codes, and the mildest verdict that meets all of them |
| `Envelope.PiecesAreTokens` | apps/api/app/agent_control.py:114-115 | A token is a piece of the key between dots, colons or the ends |
| `Envelope.BandsAreExact` | apps/api/app/agent_control.py:113-125 | A row is prohibited by policy or request; else a read stays a read; else low confidence, a tier-0 request, a contradiction or a destructive operation, each alone, escalates it, and nothing else changes its band |
| `Envelope.CodesAreExact` | apps/api/app/agent_control.py:119-141 | Each reason code is on a row exactly when what it names was so |
| `Envelope.VerdictIsExact` | apps/api/app/agent_control.py:119-165 | The verdict in terms of the rows' bands and the evidence |
| `Envelope.VerdictIsOrderFree` | apps/api/app/agent_control.py:110-172 | The verdict depends on which operations are asked for, not on their order |
| `Envelope.VerdictNeverRelaxes` | apps/api/app/agent_control.py:116-172 | More contradictions, tier-0 risk, less confidence, less evidence, destructive marks or more operations never relax a band or the verdict |
| `Envelope.EscalationNamesAReason` | apps/api/app/agent_control.py:229-238 | A row carries a reason code exactly when its band asks for more than ALLOW, so the approval an escalated row opens never needs the fallback |
| `Envelope.AllowNamesNoReason` | apps/api/app/agent_control.py:116-172 | An envelope compiles to ALLOW exactly when no operation was given a reason and evidence is at hand for anything but reads |
| `Envelope.DecidesOnce` | apps/api/app/agent_control.py:116-172 | At most one verdict is the mildest that meets the rows and the evidence rule, so `Compile` has one possible answer |
| `AuthorizationSafety.MutationsAreControlled` | apps/api/app/agent_control.py:301-348 | Every log entry that permits a mutation, in every run, was written by the step that answered a request read at an earlier step: execution on at that read, the kill switch present and off at that answer, the envelope's own actor before expiry, and for an escalated operation an approval of that operation in that envelope, approved before, unexpired, and decided only once |
| `AuthorizationSafety.PermissionIsWarranted` | apps/api/app/agent_control.py:301-324 | Every log entry that permits anything, reads included, in every run, answers a request read at an earlier step, of the envelope's own actor, before expiry, for an operation stored in that envelope and not prohibited |
| `AuthorizationSafety.DecisionIsExact` | apps/api/app/agent_control.py:315-348 | In every run a request is allowed if and only if the envelope offers the operation to its actor and, unless it only reads, execution is on, the switch off, and an escalated one approved; deferred if and only if nothing but approval is lacking |
| `AuthorizationSafety.CauseIsTheFirst` | apps/api/app/agent_control.py:315-332 | A denial records the first check that failed |
| `AuthorizationSafety.OwnReadIsPermitted` | apps/api/app/agent_control.py:325-328 | In every desk state the envelope's own actor is permitted a stored read before expiry, whatever flag, switch and approvals say |
| `AuthorizationSafety.TurnsAreCounted` | apps/api/app/agent_control.py:422-449 | After every run the switch's version is the number of turns accepted in it, no row standing for none |
| `AuthorizationSafety.LastTurnHolds` | apps/api/app/agent_control.py:422-449 | A turn that names that number is accepted after every run, sets the switch and raises its version by one |
| `AuthorizationSafety.ConditionalIsNeverPermitted` | apps/api/app/agent_control.py:229-238 | Approvals exist only for escalated rows, so CONSTRAIN is never recorded and a conditional operation is never permitted |
| `AuthorizationSafety.RejectionIsFinal` | apps/api/app/agent_control.py:367-397 | A rejected operation is never permitted afterwards in that envelope |
| `AuthorizationSafety.DecisionIsRefused` | apps/api/app/agent_control.py:367-397 | What each refusal to decide an approval says is so, and otherwise it is decided as asked and its version advances |
| `AuthorizationSafety.DecidedOnce` | apps/api/app/agent_control.py:374-384 | After a decision every other attempt to decide the approval is refused |
| `AuthorizationSafety.ExpiryIsNeverStored` | apps/api/app/agent_control.py:385-390 | No run stores EXPIRED; that the mark is written and then rolled back with the error it precedes is in the method `AgentDesk.Service.DecideApproval` |
| `AuthorizationSafety.KillSwitchStopsEverything` | apps/api/app/agent_control.py:329-332 | While nobody releases the switch no mutating operation is permitted, not even one asked for before |
| `AgentDesk.Service.FinishAuthorize` | apps/api/app/agent_control.py:297-358 | The branch order of authorization and the one logged decision |
| `AgentDesk.Service.Issue` | apps/api/app/agent_control.py:185-238 | Compiling and storing an envelope, its operations and approvals for escalated ones only |
| `AgentDesk.Service.DecideApproval` | apps/api/app/agent_control.py:367-397 | Terminal, version and expiry checks in order; the EXPIRED mark goes back with the error; otherwise the decision and the next version |
| `AgentDesk.Service.UpdateKillSwitch` | apps/api/app/agent_control.py:422-449 | A stale expected version changes nothing; otherwise the switch is set and its version advances by one |
| `AgentDesk.ActorMayApproveItself` | apps/api/app/agent_control.py:301-397 | A run from an empty desk, for every actor and operation, in which the requester approves its own escalated operation and the log then allows it |
| `AgentDesk.SelfApprovalIsPermitted` | apps/api/app/agent_control.py:301-397 | In every desk state where execution is on and the switch off, a pending unexpired approval decided by the actor that asked for it permits that actor's operation |
| `AgentDesk.VerdictIsNotConsulted` | apps/api/app/agent_control.py:315-348 | Two runs that differ in nothing but the verdicts their envelopes were compiled to record the same decisions, approvals and operations |
| `AgentDesk.DeniedEnvelopeStillExecutes` | apps/api/app/agent_control.py:315-348 | A run whose envelope compiled to DENY and whose executable operation is allowed |
| `FlightRecorder.AuditIsExact` | apps/api/app/agent_control.py:598-615 | After any run the audit passes exactly when every accepted event comes back from storage as it was hashed: same payload, and its time written with the offset the session renders |
| `FlightRecorder.UntouchedRecordFailsAudit` | apps/api/app/agent_control.py:598-615 | A run of one record and one event, with nothing tampered, whose audit fails: the event's time was written with another offset than the session renders |
| `FlightRecorder.TamperingIsEvident` | apps/api/app/agent_control.py:482-515 | Whatever events are put in place of a record's own, they pass the audit only if they are, field by field, what was submitted |
| `FlightRecorder.OnlyOneHistoryPasses` | apps/api/app/agent_control.py:598-615 | At most one list of events passes the audit of a record |
| `FlightRecorder.DigestsNeverRepeat` | infrastructure/database/migrations/055_e1_estate_fidelity_and_agent_control.sql:389 | No two events of a record carry one digest, so the unique key on it never refuses an append |
| `FlightRecorder.SuccessWasVerified` | apps/api/app/agent_control.py:530-539 | A SUCCEEDED record has a verification event |
| `FlightRecorder.FinishedIsFrozen` | apps/api/app/agent_control.py:489-491 | A finished record keeps its row and its events |
| `FlightRecorder.AppendIsRefused` | apps/api/app/agent_control.py:474-491 | In every run an active record takes an event exactly unless its time is more than five minutes ahead, and each refusal says why |
| `FlightRecorder.FinishIsRefused` | apps/api/app/agent_control.py:517-539 | A record is finished exactly when it is active and, for a success, holds a verification event |
| `FlightRecorder.Service.AppendEvent` | apps/api/app/agent_control.py:474-515 | Sequence, previous hash and digest of the appended event, and the record's new count and head |
| `FlightRecorder.Service.FinalizeRecord` | apps/api/app/agent_control.py:517-549 | Only an active record is finalized, and SUCCEEDED needs a verification event |
| `FlightRecorder.Service.Audit` | apps/api/app/agent_control.py:598-615 | The audit loop decides exactly whether the chain links and count and head match |
| `Neighbourhood.WalkHasTrail` | apps/api/app/neo4j_graph.py:157-163 | Every walk can be cut to a relationship-unique path between the same ends, no longer than it |
| `Neighbourhood.UnfilteredDepthsAgree` | apps/api/app/age_graph.py:117-136 | Without a namespace filter trails and recursive walks see every entity at the same least depth, or not at all |
| `NeighbourhoodPlain.WalkDepthIsShortest` | apps/api/app/age_graph.py:117-136 | The recursive reader's depth is the length of the shortest route of wanted edges, taken either way, through wanted entities |
| `NeighbourhoodPlain.TrailDepthIsShortest` | apps/api/app/neo4j_graph.py:157-171 | The graph store's is the length of the shortest route of wanted edges to a wanted entity |
| `NeighbourhoodPlain.DepthIsSymmetric` | apps/api/app/age_graph.py:125-128 | Without a namespace filter an entity is as far from another as that one is from it |
| `NeighbourhoodPlain.EdgesReachBothWays` | apps/api/app/age_graph.py:125-128 | Whichever end of a wanted edge is the centre, the other end is one step away |
| `NeighbourhoodPlain.WalkAnswerTells` | apps/api/app/age_graph.py:117-173 | An answer lists every entity seen, or the nearest up to the limit, in order, and exactly the wanted facts between two of those listed, ascending |
| `NeighbourhoodPlain.TrailAnswerTells` | apps/api/app/neo4j_graph.py:157-211 | The same of the graph store's answer, which there is none of while its projection is behind |
| `Neighbourhood.ReadersAgree` | apps/api/app/neo4j_graph.py:157-211 | Over one edge set, without a namespace filter and with the projection up to date, both readers return the same entities, depths, order, cap and facts |
| `Neighbourhood.DepthsAgreeExactly` | apps/api/app/neo4j_graph.py:157-171 | Under any filter the two readers see an entity at one depth, or both not at all, if and only if a shortest path to it stays, past the centre, in wanted namespaces, or it is in no wanted one (the centre: if it is wanted) |
| `Neighbourhood.ReadersAgreeExactly` | apps/api/app/neo4j_graph.py:157-211 | The two readers give one answer under every limit if and only if that holds of every entity of the topology |
| `Neighbourhood.FilteredWalksInsideTrails` | apps/api/app/age_graph.py:124-135 | With a filter every entity but the centre that the recursive walk finds is found by the trails, no farther away |
| `Neighbourhood.FilteredReadersDiffer` | apps/api/app/neo4j_graph.py:164-171 | An entity behind one outside the namespace is found by the trails and lost to the walks |
| `Neighbourhood.CentreIsFilteredOnlyByTrails` | apps/api/app/neo4j_graph.py:169-171 | A centre outside the namespace is always an answer of the walk and never of the trails |
| `InsightCache.OneRuleIsFiltered` | apps/api/app/deterministic_insights.py:142-166 | Evaluating one rule is the full evaluation filtered by that rule, even when the estate changes between the rules' queries |
| `InsightCache.EitherWayTheSame` | apps/api/app/deterministic_insights.py:127-184 | A request is served the same from a one-rule evaluation as from the cached full one |
| `InsightServed.EvaluationsAreFound` | apps/api/app/deterministic_insights.py:142-161 | An evaluation holds exactly what the enabled rules found for enough repositories, each in what its own query read, rated by the context |
| `InsightCache.PageIsTop` | apps/api/app/deterministic_insights.py:165-176 | A page lists in order as many of the matching insights as its limit allows, and none left out has a higher priority, or comes before by title and id, than one listed |
| `InsightFreshness.RepliesAreEvaluations` | apps/api/app/deterministic_insights.py:121-189 | Every reply in every interleaving was given by one step to a request asked before, and serves the full evaluation that one request read, rule by rule and the context last, at moments in order; a cached one was given by the lookup of its own request, less than 30 seconds after the first of those reads and after every invalidation that followed the fill |
| `InsightFreshness.UndisturbedReplyIsOneEstate` | apps/api/app/deterministic_insights.py:142-161 | Where the tenant's estate stood still over those moments the reply is the evaluation of that one estate |
| `InsightFreshness.CachedReplyIsFreshExactly` | apps/api/app/deterministic_insights.py:73-76 | For every cached reply of every run, given by the lookup at its own step: what its fill read by a given query postdates the tenant's last invalidation before that lookup exactly when none fell between that query and the end of the fill |
| `InsightServed.FreshEvaluationIsServed` | apps/api/app/deterministic_insights.py:125-164 | Whoever asks under the same policies less than 30 seconds after the lookup that began a full evaluation, and after its end, is served it, unless the tenant was invalidated or another evaluation stored meanwhile |
| `InsightServed.FillStartedAtItsLookup` | apps/api/app/deterministic_insights.py:125 | That time is the clock at the filling request's own lookup |
| `InsightServed.ChangesAreSeen` | apps/api/app/deterministic_insights.py:118-124 | A change of one tenant's estate or policies is seen by that tenant and no other |
| `InsightFreshness.InvalidationInsideAFillIsLost` | apps/api/app/deterministic_insights.py:73-76 | An invalidation that falls inside a fill is lost: the next reader is served the estate as it was before |
| `InsightService.Server.Purge` | apps/api/app/deterministic_insights.py:126-128 | Purging drops exactly the expired entries of all tenants |
| `InsightService.Server.InvalidateTenant` | apps/api/app/deterministic_insights.py:73-76 | Invalidating drops exactly the tenant's entries, and is the model's Invalidate step |
| `InsightService.Server.Find` | apps/api/app/deterministic_insights.py:125-132 | Purge and lookup, up to the first await of a miss, are the model's LookUp step |
| `InsightService.Server.Read` | apps/api/app/deterministic_insights.py:142-149 | Each await of a fill, a rule's query or the context, is the model's Fetch step |
| `InsightService.Server.Keep` | apps/api/app/deterministic_insights.py:162-166 | Storing a full evaluation and answering are the model's Finish step |
| `InsightService.EvaluateRules` | apps/api/app/deterministic_insights.py:142-161 | The loop over the rules' queries, with nothing in between, computes the evaluation of one estate |
| `InsightService.Page` | apps/api/app/deterministic_insights.py:165-176 | Filtering by rule and scope, ordering and paging |

## Left out

- SQL text, row-level security, tenants in queries, connection handling and JSON encoding; a query is the rows it returns.
- Severities, titles and details of findings, and the payload fields that the mutation, the cited fact or another field determines; labels, entities, evidence, paths, confidence and the rest of the payload are kept.
- The package resolution, target validation and gates of one draft; a draft enters as resolved or not.
- The remembered outcomes of a mutation enter `Simulation` as a yes or no; its finding then carries no outcomes, neither their evidence nor their confidence.
- `_interpret_simulation`: a model call; the queue only knows that storing its result may fail.
- Two transactions inside one change set compile (select, then insert) overlapping with another; here the transaction is atomic, so the second insert's unique violation does not appear.
- Creation times equal to the transaction start; in `Submission` newer means stored later.
- The promotion gate reads its rows in several queries; here it reads one state, and the champion's version is read in a later step.
- The feature flags of the harness endpoints and their audit records; a disabled endpoint changes nothing.
- The first two concurrent inserts of a kill switch row, which can both succeed with version 1; here the update is atomic.
- AgentDesk.Service.Issue: does not model the return of a stored envelope whose hash, clock reading included, is identical, which writes nothing; here an envelope id is issued once.
- The clamp of an envelope's lifetime; its end is a parameter.
- The envelope and actor checks before a flight record is created.
- The scores of an insight are given; only that the context read last adds to its priority is kept.
- The order of versions inside a scope's distribution.
- Neo4j deployment lookup and credentials; only whether its projection is behind, and the depth range it accepts, are kept.
- Policy parsing and validation; a policy enters as its typed rules.
- Scenario derivation, estate fidelity and governance read models, AI Ask, authentication, the web application and scripts.
- Simulation.SimulateMutation: does not collect scanner versions, which no finding, status or hash depends on, nor the messages of limitations.
- Simulation.Execute: does not collect scanner versions; the hash also covers the change set, watermark and policy, which are fixed for a run.
- Neighbourhood.ReadersAgree: both readers are given one edge set; the recursive SQL also drops SAME_AS edges whose identity was rejected, which the graph query does not.
- SimulationRerun.HashForgetsStorageExactly: takes the capability links as settled (no two maps link one capability to one application at one criticality); what that condition decides is `SimulationRerun.LinksForgetStorageExactly`.
- TraversalShape.TraversalIsDeterministic: needs seeds with one id to be equal, because the stable sort keeps the first of several.
