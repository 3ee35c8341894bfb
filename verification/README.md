# Traffic Engineering Fabric: verification model

The fabric plans bandwidth: it takes a snapshot of resources, reservations, demands and candidate paths, derives
what is available, places each demand's hard floor and soft target on shared paths, proves by a minimum cut when
that cannot be done, and carries the resulting plan through a durable life cycle under one coordinator. This
project models that behaviour in Dafny and proves what holds of every input, every run and every crash.

## Components

| files | models |
|---|---|
| `Numeric`, `Sums`, `Fabric` | checked and saturating 64-bit arithmetic; resources, paths and demands |
| `FlowTheory`, `Residual`, `Layers`, `Augmentation`, `Phases`, `MaxFlow` | flows and cuts; Dinic's algorithm over adjacency lists changed in place |
| `Relaxation`, `CertificateNetwork`, `InfeasibilityCertificate`, `CeilingSearch` | the relaxed problem, Hall's condition, the infeasibility certificate, the bisection on the utilisation ceiling |
| `LedgerState`, `Ledger`, `Construction`, `Solver` | the books of the greedy allocator, placement, repair, consolidation, the phases of `solve` |
| `Derive`, `Verifier`, `Planning` | derivation of the planning inputs; the independent check of an allocation; derivation and solver together, and plans that cannot be read back |
| `Bytes`, `RecordFormat`, `DurableLog`, `Recovery`, `DurableRuns`, `Intact`, `Persistence` | the byte-level log: record images, snapshot and journal, replay, whole runs with crashes, and which files are intact |
| `Authority`, `PlanLifecycle`, `PlanLog`, `EngineModel`, `EngineSafety`, `EngineGates`, `EngineObject`, `EngineDurability` | the plan engine: authority comparison, transition table, log, operations, recovery; engine and byte-level log together |
| `CoordinatorModel`, `CoordinatorObject` | sessions over one durable directory: epochs, registration, fencing |
| `Sha256`, `Crc32c` | streaming SHA-256 and table-driven CRC-32C |
| `Codec`, `CodecStreams`, `Formats` | formats as data, the writer and reader over them, the snapshot and plan formats |

How the parts fit together:

- Code that updates an object in place is a class (`FlowNetwork`, `Problem`, `Directory`, `PlanRepository`, `Engine`,
  `Coordinator`, `Sha256Stream`, `Writer`, `Reader`). Its methods are proved equal to, or within, a specification
  on values (a flow, `Books`, a list of log entries, `EngineModel.State`, `CoordinatorModel.Session`, a digest, a
  byte string), and the safety theorems are about that specification.
- The flow part follows the classical argument: a residual network stands for a flow; a blocking phase makes the
  sink's level rise; an unreached sink gives a saturated cut; the cut turns into a violated Hall inequality.
- The solver part rests on one invariant, that a resource's load is exactly the sum of the shares crossing it. It
  holds between every grant and the revocation that follows, so every move of the repair keeps it.
- The log part works on bytes. A crash may cut a journal write after any byte. A disk *holds* a list of entries
  when reopening it must return that list; every step is shown to lead from one such disk to another.
- The engine part has an invariant on the log itself, so a crash followed by a recovery is one more step. It also holds
  of the readable part of the log, so records that recovery has to skip do not endanger it
  (`PlanLog.ReadablesAreGood`).
- `EngineDurability` puts the engine on the byte-level log: one run theorem for operations, compactions, crashes at
  any byte and restarts.

## Conventions

- Identities (demands, paths, resources, reservations, plans) are natural numbers: their ranks in the canonical order.
  Comparing identities is comparing ranks. Publishers and boots are the numbers that their bytes spell, so there are
  finitely many of them.
- 64-bit integers are `Numeric.int64`; every sum of the source that may saturate is written with `SatAdd`, and the
  proofs show where saturation cannot happen or does no harm.
- Snapshots are canonical and structurally valid (`Derive.Valid`, `Verifier.Snapshot.WithinLimits`), as
  `solve` and `verify_allocation` assume.
- The digest and checksum used by the log are arbitrary functions (`Integrity`). No theorem about recovery needs them to
  be collision free, except where a statement says which digests must differ.
- The payload formats of epochs and fences enter the coordinator proofs as functions that round-trip (`Protocol`);
  `CoordinatorModel.FixedWidthRoundTrips` exhibits such functions. The plan format enters the recovery proofs as
  functions that return a plan exactly when it is within the decoder's bounds on allocations (`PlanCodec`,
  `PlanLog.Readable`). `Formats.PlanRoundTrip` proves the round trip of the real format within all of its bounds.
- `order_paths` is an arbitrary permutation of the eligible list, chosen anew at each call (`Preference`).
- The engine takes the solver's answer and the churn decision as inputs. An append of a plan record succeeds or the
  process dies; the coordinator and the repository go on after a failed append, as in the source.

## What the code does differently from what is written about it

Each point is a theorem of the model, or visible in a contract of it.

- `docs/persistence.md` says that after a crash between the two replacements of a compaction the old journal is
  verified and skipped. The code compares the first old record's predecessor digest with the last digest of the
  snapshot, stops there, and cuts the journal back to its header (src/persist.cpp:1308). Nothing is lost
  (`DurableRuns.StaleJournalIsDropped`).
- An append acknowledged after a failed append is kept if the failed one left no byte in the journal, or if all of
  its bytes are there and it is the same record again. Otherwise it is lost at the next opening, unless the bytes in
  the way happen to read as one record together with it (`DurableRuns.AppendAfterFailure`,
  `DurableRuns.RemnantIsNoRecord`). A complete compaction before that saves it
  (`Persistence.PlanRepository.CompactLocked`).
- So a fence can be acknowledged and forgotten: the coordinator answers a failed fence append and goes on
  (src/coordinator.cpp:341-349), and after a crash the replaced boot registers again
  (`CoordinatorModel.FenceIsLost`). Runs without an append behind a failed one keep every fence
  (`CoordinatorModel.FencedForever`, `CoordinatorModel.AcknowledgedFence`).
- `encode_plan` writes any number of path shares, `decode_plan` refuses more than 64 for one demand
  (src/persist.cpp:629). A plan over 65 paths is solved, verified, committed and acknowledged, and STALE after a
  crash (`Planning.WidePlanIsForgotten`). Recovery restores a plan exactly if its record can be read
  (`EngineSafety.RecoveryAgrees`); a policy bound of 1 to 64 paths per demand is enough
  (`Planning.PlanSnapshot`), but 0, no bound, is the default (include/tef/model.hpp:328).
- A fence refused because the bound on fences is reached is already on disk, and the chain has advanced past it
  while the record list has not (`Persistence.PlanRepository.Append`). The next snapshot has a gap there and can be
  read only if two digests agree (`DurableLog.SnapshotWithGap`).
- A snapshot above the file bound is written without complaint and cannot be opened again (`Recovery.OpenStored`,
  `DurableLog.OpenSnapshotFile`).
- The certificate's list of saturated resources holds those on the sink side of the cut. The violated inequality is
  about the others, the ones inside the reachable side (`InfeasibilityCertificate.Certify`).
- `docs/algorithm.md` says repair moves lower-priority bandwidth. The code moves the bandwidth of any other demand,
  lowest priority first (`Ledger.Problem.CollectMovers`).
- `docs/algorithm.md` calls a floor above its demand's maximum a reservation conflict. `derive` only adds a note to
  the demand (src/derived.cpp:229-239); conflicts come from over-claimed resources alone
  (`Derive.DeriveSnapshot`).
- With a reservation conflict and an unmet floor, `solve` does not mark the allocation degraded, so its own check fails
  and the status is `conflicting_input`, not `infeasible_reservation_conflict`. This happens whenever the relaxation is
  infeasible under the cap (`Solver.Solve`, `Solver.ConflictIsReportedAsInput`).
- The search on the ceiling reports infeasibility also when a certificate could not be built
  (src/solver.cpp:857, 866). A network that passes a size bound is always rejected, even if the request could be met
  (`Solver.LegalRequestIsRejected`); within the bounds a rejection is right unless a flow budget ran out
  (`Solver.Solve`).
- `verify_allocation` accepts two entries for one demand whose total exceeds its maximum. It bounds what each demand
  is granted exactly if no demand is listed twice (`Verifier.MaximaKeptIffDistinct`).
- A crash between the two records of a commit leaves no plan committed (`EngineSafety.CrashInsideCommit`).
- Explicit supersession needs two committed plans, which no run reaches: it is always refused
  (`EngineSafety.SupersedeAlwaysRefused`).
- A plan reference without an identity is read with any generation, which is dropped (`Codec.LooseRefIsNotExact`).
- The writer does not bound texts, the reader does: a longer text is written and cannot be read back
  (`Formats.LongTextIsRefused`).
- Every session has the incarnation `first()`; only the epoch tells sessions apart
  (`CoordinatorModel.OldBindingsAreRefused`).

## Model

| member | source | states |
|---|---|---|
| Numeric.AddChecked | include/tef/numeric.hpp:16-20 | a sum is returned exactly when it fits in 64 bits, and then it is the sum |
| Numeric.SatAdd | include/tef/numeric.hpp:66-70 | the saturating sum is the exact sum clamped to the 64-bit range |
| Numeric.ClampAdd | include/tef/numeric.hpp:66-70 | folding non-negative amounts with saturation is clamping the exact total: no intermediate loss |
| Numeric.MulChecked | include/tef/numeric.hpp:29-55 | a product is returned exactly when it fits in 64 bits; the division-based overflow tests are exact for every sign |
| FlowTheory.WeakDuality | src/solver.cpp:500-506 | no flow exceeds the capacity of any cut |
| FlowTheory.SaturatedCutIsOptimal | src/solver.cpp:62-81 | a flow and a saturated cut certify each other: the flow is maximum and the cut minimum |
| FlowTheory.InflowLimitedByOutlets | src/solver.cpp:475-496 | an arc into an inner node carries at most what its outgoing arcs can take away |
| Residual.PushDivergence | src/solver.cpp:136-142 | charging an edge and its reverse moves flow between its two end nodes and changes no other balance |
| Residual.PushRepresents | src/solver.cpp:136-142 | the adjacency lists keep encoding a flow: pair sums of capacities are kept and stay non-negative |
| Residual.ExtendRepresents | src/solver.cpp:54-59 | adding an edge leaves every existing arc and its flow untouched; the new arc carries none |
| Layers.DistancesGrow | src/solver.cpp:109-145 | between two phases no residual distance from the source shrinks, because the current-arc pointers skipped no admissible path |
| Layers.PhaseRaisesSink | src/solver.cpp:64-81 | a phase ends in a blocking flow: the level of the sink rises strictly |
| Layers.UnreachedSinkIsCut | src/solver.cpp:109-127 | when the search misses the sink, the reached nodes are a cut closed under residual edges |
| Layers.ClosedIsSaturated | src/solver.cpp:84-100 | a node set closed under residual edges is a saturated cut |
| Phases.NextPhase | src/solver.cpp:70-79 | after a phase that ends at the source, the next search finds the sink strictly further away or not at all |
| Phases.BlockedIsMaximum | src/solver.cpp:62-81 | when the sink is unreachable the flow is maximum and the reached side is a minimum cut of equal capacity |
| MaxFlow.FlowNetwork.constructor | src/solver.cpp:47 | an empty network of isolated nodes |
| MaxFlow.FlowNetwork.AddNode | src/solver.cpp:49-52 | one more isolated node; arcs and flow unchanged |
| MaxFlow.FlowNetwork.AddEdge | src/solver.cpp:54-59 | one more arc without flow; forward and backward slots point at each other |
| MaxFlow.FlowNetwork.BuildLevels | src/solver.cpp:109-127 | levels are exactly the residual breadth-first distances, and the answer says whether the sink has one |
| MaxFlow.FlowNetwork.Augment | src/solver.cpp:129-145 | a positive result is delivered from the node to the sink along admissible edges within the limit; zero means every edge of the node is exhausted |
| MaxFlow.FlowNetwork.MaxFlow | src/solver.cpp:63-81 | a non-negative result is the clamped value of a flow that is maximum; phases are fewer than the nodes, independently of the budget |
| MaxFlow.FlowNetwork.SourceSide | src/solver.cpp:84-100 | the least set containing the source and closed under residual edges |
| Fabric.CeilingMonotone | src/solver.cpp:183-190 | raising the utilisation ceiling never lowers the residual left on a resource |
| Fabric.CeilingIsTheCap | src/solver.cpp:183-190 | a positive load is within the ceiling exactly when it is available and, with what is claimed already, within the permille of the usable capacity |
| Relaxation.RelaxedMonotone | src/solver.cpp:183-190 | relaxed feasibility is monotone in the ceiling |
| Relaxation.AllocationFits | src/solver.cpp:420-519 | any shares that give a set of demands their floors within the ceilings satisfy the Hall inequality of that set |
| Relaxation.LegalImpliesRelaxed | src/solver.cpp:500-506 | any allocation on eligible paths within the ceilings that meets every floor makes the relaxation feasible |
| CertificateNetwork.UnboundedArcsKeepRoom | src/solver.cpp:39-39 | within the model limits no flow ever fills an edge of the "infinite" capacity |
| CertificateNetwork.ClosedCut | src/solver.cpp:466-496 | a cut that no unbounded arc leaves costs the floors outside it plus the ceilings inside it |
| CertificateNetwork.ShortfallBreaksHall | src/solver.cpp:505-518 | a maximum flow below the floors exhibits a set of demands whose floors exceed the ceilings of all resources on their paths |
| CertificateNetwork.FullFlowFits | src/solver.cpp:505-506 | a flow that reaches the floors satisfies every Hall inequality |
| CertificateNetwork.FlowDecidesHall | src/solver.cpp:505-506 | the maximum flow reaches the total floor if and only if the Hall condition holds for every set of demands |
| InfeasibilityCertificate.Collect | src/solver.cpp:424-437 | the clamped total of all floors, the demands with no path, and the demands that enter the network |
| InfeasibilityCertificate.UsedPaths | src/solver.cpp:446-449 | exactly the paths that some demand of the network may use, each once, in canonical order |
| InfeasibilityCertificate.NumberNodes | src/solver.cpp:461-467 | consecutive nodes for demands, used paths and resources |
| InfeasibilityCertificate.AddDemandArcs | src/solver.cpp:469-480 | source-to-demand arcs of the floors and demand-to-path arcs; gives up exactly when these edges alone pass the bound |
| InfeasibilityCertificate.AddPathArcs | src/solver.cpp:481-491 | path-to-resource arcs of every used path; gives up exactly when all edges so far pass the bound |
| InfeasibilityCertificate.AddResourceArcs | src/solver.cpp:492-496 | resource-to-sink arcs with the ceilings of the probed utilisation |
| InfeasibilityCertificate.Verdict | src/solver.cpp:503-506 | comparing the saturated flow with the saturated total never creates a false infeasible verdict |
| InfeasibilityCertificate.SinkSide | src/solver.cpp:507-517 | the reported resources and demands are exactly those outside the reachable side, the least set that holds the source and is closed under residual edges |
| InfeasibilityCertificate.Certify | src/solver.cpp:420-519 | a built certificate is feasible exactly when the Hall condition holds (total floor within 64 bits); an infeasible one without starved demands names a violated Hall inequality, whose resources are disjoint from the reported ones; it is not built when the network passes the node or the edge bound, and otherwise only if the flow computation spends more than its budget |
| CeilingSearch.SearchCeiling | src/solver.cpp:848-865 | at most ten probes; if all are built, the least feasible ceiling in 1..cap, or 0 exactly when the cap itself is infeasible; all are built unless the network is oversized, when the answer is 0, or a flow budget runs out |
| Derive.BindingOwner | src/derived.cpp:110-120 | the first demand in canonical order that binds the reservation |
| Derive.ReservationsAreConserved | src/derived.cpp:122-180 | every reservation is inactive, displaced, charged to one demand or held on its resources, and the bandwidths add up |
| Derive.DispositionMeaning | src/derived.cpp:74-86 | in the fields of the snapshot: which reservation is inactive, which may be displaced, which is a floor of which demand, which is held on its resources |
| Derive.AccountingMeaning | src/derived.cpp:122-180 | held and charged bandwidth are the sums over exactly these reservations |
| Derive.AccountReservations | src/derived.cpp:122-180 | obligations and held bandwidth are the clamped exact sums of the reservations charged to each demand and held on each resource |
| Derive.HoldBack | src/derived.cpp:167-178 | each resource of a held reservation is charged once |
| Derive.Availability | src/derived.cpp:182-204 | availability is usable minus claimed, or 0 with a conflict exactly where the exact claim exceeds the usable capacity |
| Derive.FindObstacle | src/derived.cpp:264-321 | the first rule that excludes a path from a demand, and none exactly when it is eligible |
| Derive.EligibleMeaning | src/derived.cpp:264-322 | a path is eligible exactly when none of the nine rules excludes it |
| Derive.PathLessMeaning | src/derived.cpp:50-58 | cheaper first; at equal cost known latency before unknown and lower before higher; then the identity |
| Derive.SortEligible | src/derived.cpp:263-326 | exactly the paths without an obstacle, in the canonical order |
| Derive.EligiblePaths | src/derived.cpp:325-345 | the best eligible paths in canonical order, as many as the policy bound allows |
| Derive.EligibleListIsUnique | src/derived.cpp:52-58 | the eligible list is determined by the snapshot |
| Derive.DeriveDemand | src/derived.cpp:206-364 | floor, desired, maximum, exclusion and eligible list of one demand |
| Derive.DeriveSnapshot | src/derived.cpp:90-373 | a derived snapshot meets every precondition of solver, certificate and verifier; availability and floors in the fields of the snapshot; it is in conflict exactly when some resource is over-claimed over unbounded integers, and derivation fails only then |
| LedgerState.GrantBalances | src/solver.cpp:225-230 | a grant within the headroom of its path keeps every resource load equal to the shares crossing it |
| LedgerState.RevokeBalances | src/solver.cpp:232-241 | a revocation keeps them equal too |
| Ledger.Problem.constructor | src/solver.cpp:802-830 | fresh books: nothing granted, ceilings at the availability |
| Ledger.Problem.SetCeiling | src/solver.cpp:192-195 | every ceiling recomputed, nothing else changed; the books stay valid exactly when no resource carries more than its new ceiling |
| Ledger.Problem.PathHeadroom | src/solver.cpp:197-207 | the least room along the path; 0 exactly when some resource of it is full |
| Ledger.Problem.Consume | src/solver.cpp:209-214 | each resource of the path is charged the exact amount: the saturating sum never saturates |
| Ledger.Problem.Release | src/solver.cpp:216-223 | each resource of the path is credited the exact amount: the clamp at 0 is never hit |
| Ledger.Problem.Grant | src/solver.cpp:225-230 | share, grant and loads grow by exactly the amount |
| Ledger.Problem.Revoke | src/solver.cpp:232-241 | share, grant and loads shrink by exactly the amount; a share of 0 disappears |
| Ledger.Problem.Take | src/solver.cpp:334-342 | up to a limit from one path; if less, the path is full |
| Ledger.Problem.Place | src/solver.cpp:326-344 | the maximum is never passed; if less was placed than asked for and allowed, every path of the list is full; loads grow by at most what was placed |
| Ledger.SortIsSorted | src/solver.cpp:368-372 | movers come in order of priority, demand and path |
| Ledger.Problem.CollectMovers | src/solver.cpp:349-372 | every positive share of another demand across the resource, once each, in moving order |
| Ledger.Problem.Relocate | src/solver.cpp:375-401 | the share shrinks and the resource is relieved by exactly what was relocated; the demand keeps its grant; less than wanted means no alternative path had more room |
| Ledger.Problem.RepairResource | src/solver.cpp:346-404 | no demand gains or loses and the blocked one is untouched; the answer is whether the resource really carries the deficit less; the movers are dealt with in turn, each as far as its alternatives allow |
| Ledger.Problem.ConsolidatePaths | src/solver.cpp:738-758 | only one demand is touched and it keeps its grant; its least preferred path gives up as much as any other path had room for |
| Construction.RepairRound | src/solver.cpp:923-944 | repairs keep all books exact, every grant, and the demand in question untouched |
| Construction.PlaceFloor | src/solver.cpp:915-947 | no demand loses and no other is granted anything; the demand gets its floor and no more, its maximum, or at least as much more as any of its paths had room for |
| Construction.RunMinimums | src/solver.cpp:913-957 | every participating demand of the order is dealt with in turn, the number of unmet floors is exact, and nobody gets more than its floor |
| Construction.UnmetNone | src/solver.cpp:949-956 | that number is 0 exactly when every participating floor is met |
| Construction.FillOne | src/solver.cpp:999-1006 | afterwards the demand has its target and no more, or every eligible path is full; no demand loses and no load shrinks |
| Construction.FillInOrder | src/solver.cpp:1008-1009 | work conserving for every demand of the order |
| Construction.GroupByTenant | src/solver.cpp:1011-1014 | the groups partition the order |
| Construction.FillByTenant | src/solver.cpp:1010-1022 | round-robin over tenants visits each demand exactly once and is work conserving for all of them |
| Construction.SatisfiedPersists | src/solver.cpp:997-1022 | a demand that was dealt with stays so while others are filled |
| Verifier.ChargePath | src/allocation.cpp:162-164 | each resource of a path is charged once |
| Verifier.VerifyShare | src/allocation.cpp:114-165 | the per-share checks report nothing exactly when the share is acceptable |
| Verifier.VerifyShares | src/allocation.cpp:111-165 | distinct paths, exact share totals and exact resource totals, despite saturation |
| Verifier.VerifyEntry | src/allocation.cpp:100-188 | the per-demand checks report nothing exactly when the entry is acceptable |
| Verifier.VerifyAllocation | src/allocation.cpp:74-208 | an empty result is equivalent to acceptability over unbounded integers: known current demands, distinct eligible current authorised paths, exact totals, floors, maxima, and every resource within its availability |
| Verifier.MaximaKeptIffDistinct | src/allocation.cpp:86-188 | for a list of demand names, every verified allocation with these names keeps all maxima if and only if no demand is listed twice |
| Solver.ProcessingOrder | src/solver.cpp:243-256 | exactly the active demands, by descending priority and then identity |
| Solver.ListShares | src/solver.cpp:1043-1069 | one entry per positive share, in path order, with the current path generation |
| Solver.MarkReserved | src/solver.cpp:726-734 | marking reserved bandwidth changes nothing else; the marked total is the floor as far as it was granted, taken from the first shares first |
| Solver.BuildAllocation | src/solver.cpp:1033-1079 | the allocation lists exactly the books, with the reservation floor of each demand marked as far as it was granted |
| Solver.ConstructionVerdict | src/solver.cpp:1302-1310 | the constructed allocation is acceptable if and only if every used path is authorised and (unless degraded) every floor is met |
| Solver.NewProblem | src/solver.cpp:802-834 | fresh books under the ceiling, which stays below the policy cap |
| Solver.Construct | src/solver.cpp:913-957 | minimums placed in processing order on fresh books under the given ceiling |
| Solver.Widen | src/solver.cpp:966-995 | the widened ceiling lies between the old one and the policy cap, and the minimums are placed under it |
| Solver.SoftPhases | src/solver.cpp:997-1031 | no demand loses; without consolidation the result is work conserving |
| Solver.Classify | src/solver.cpp:1128-1272 | the reported status, case by case; a certified status rules out every legal allocation under the policy cap and blames the policy only if the relaxation is feasible without it |
| Solver.RejectedBySearch | src/solver.cpp:866-902 | when the certificates decide, the early answer blames the policy exactly when the cap is infeasible and the relaxation feasible without it |
| Solver.PlaceMinimums | src/solver.cpp:959-995 | minimums placed under a ceiling between the searched one and the policy cap |
| Solver.Solve | src/solver.cpp:778-1316 | the allocation respects every maximum, grants nothing to demands that take no part and nobody more than it asks for, and keeps claimed and planned load within the policy cap in plain arithmetic; verification fails exactly for an unauthorised path or a conflict with an unmet floor, so the fallback is dead otherwise, and is taken whenever a conflict meets an infeasible relaxation; the ceiling search rejects every oversized request and otherwise, within the flow budget, exactly the infeasible ones |
| Solver.MetFloorsAreLegal | src/solver.cpp:1128-1142 | books that meet every floor under the cap are a legal allocation, so the relaxation is feasible |
| Solver.BookedIsWithinCap | src/solver.cpp:183-195 | books within their ceilings keep claimed and planned load within the permille of the usable capacity |
| Solver.SharesWithinEligible | src/solver.cpp:1042-1065 | no demand gets more shares than it has eligible paths |
| Solver.UniformEdges | src/solver.cpp:468-491 | the exact size condition for one demand over n paths of m resources |
| Solver.LegalRequestIsRejected | src/solver.cpp:848-902 | a request that could be met is rejected for lack of capacity when its certificate has too many edges: 7900 paths of 256 resources, for instance |
| Solver.ConflictIsReportedAsInput | src/solver.cpp:1144-1148 | a reservation conflict with a floor that cannot be met ends as conflicting input |
| Planning.PlanSnapshot | src/solver.cpp:778-1316 | derivation and solver together: whatever is planned honours the fields of the snapshot (who takes part, maxima, path rules, utilisation cap); without an over-claimed resource and with all paths authorised the plan passes its own check; a policy path bound of 1 to 64 makes its record readable |
| Planning.PlannedHonoursDemands | src/derived.cpp:206-364 | a demand gets bandwidth only if it takes part, no more than it may have, and only on paths that no rule excludes |
| Planning.PlannedHonoursCap | src/solver.cpp:183-195 | where anything is planned, committed, held and planned load together stay under the policy cap |
| Planning.VerifiedHonoursSnapshot | src/allocation.cpp:74-208 | what a verified allocation is worth in the fields of the snapshot: exact totals, maxima, floors, path rules, authority, and capacity net of commitments and reservations |
| Planning.CanonicalOrderPermutes | src/solver.cpp:304-323 | the canonical order of the eligible paths is a permutation of them, as the solver is assumed to use |
| Planning.PlanFitsRecord | src/derived.cpp:325-345 | with a policy path bound of 1 to 64 no demand gets more than 64 shares |
| Bytes.DecodeEncode | include/tef/binary.hpp:36-46 | reading back a big-endian field gives the value |
| Bytes.EncodeDecode | include/tef/binary.hpp:116-132 | writing back a field that was read gives the same bytes |
| RecordFormat.ReadImage | src/persist.cpp:1276-1300 | a complete record image is read back exactly, whatever follows it |
| RecordFormat.TornImage | src/persist.cpp:1277-1293 | no proper prefix of a record image is ever taken for a record |
| Intact.SnapshotFrameMeaning | src/persist.cpp:1197-1236 | a snapshot record is read exactly when its header describes its payload and the digest of exactly these bytes follows |
| Intact.FrameMeaning | src/persist.cpp:1277-1304 | a journal record likewise, with version, kind, length bound and payload checksum |
| DurableLog.ChainRecord | src/persist.cpp:1391-1405 | record i carries sequence i + 1 and the digest of its predecessor |
| DurableLog.OpenSnapshotFile | src/persist.cpp:1154-1192 | a snapshot file opens to its records exactly when it is within the size bound |
| Intact.RecordsMeaning | src/persist.cpp:1194-1240 | a snapshot payload is read exactly when it is a row of intact records, each naming the digest of its predecessor |
| Intact.SnapshotMeaning | src/persist.cpp:1154-1246 | a snapshot file opens exactly when header fields, payload checksum, digest of all bytes before it and every record are intact, and to what it says |
| Intact.DamagedSnapshotIsRefused | src/persist.cpp:1179-1192 | one wrong byte before its digest and the file is refused, unless two digests agree |
| Intact.DamagedRecordIsRefused | src/persist.cpp:1296-1304 | the same for one record of either file |
| Intact.JournalHeaderMeaning | src/persist.cpp:1014-1035 | a journal header is accepted exactly with magic, version and the checksum of these bytes |
| Intact.DamagedJournalHeaderIsRefused | src/persist.cpp:1014-1035 | one wrong byte in its checked part and the header is refused, unless two checksums agree |
| DurableLog.ChainReadsBack | src/persist.cpp:1194-1238 | an unbroken digest chain in a snapshot is taken over exactly |
| DurableLog.SnapshotWithGap | src/persist.cpp:1422-1424 | a snapshot that lacks a record in the middle can be read if and only if the digests on both sides of the gap agree |
| DurableLog.ReplayKeeps | src/persist.cpp:1276-1335 | replaying the rest of the chain completes it and goes on with what follows |
| DurableLog.ReplaySkips | src/persist.cpp:1313-1319 | records the snapshot covers are skipped, provided the first one chains on |
| DurableLog.ReplayRefuses | src/persist.cpp:1306-1308 | a journal that does not chain on to the snapshot contributes nothing |
| Intact.ReplayMeaning | src/persist.cpp:1273-1332 | the replay of any journal takes the longest row of intact records that chain on and continue the sequence, and nothing else |
| Intact.FollowsIsUnique | src/persist.cpp:1273-1332 | there is only one such row |
| Intact.OpenMeaning | src/persist.cpp:1153-1360 | open accepts exactly the intact disks and takes over exactly what they hold |
| Recovery.OpenStored | src/persist.cpp:1095-1379 | opening any disk that holds a log rebuilds exactly that log, leaves the journal ready for appends, and fails exactly when the snapshot exceeds the size bound |
| Recovery.TornAppendIsStored | src/persist.cpp:1399-1401 | an append cut at any byte leaves the log as it was |
| Recovery.AppendIsClean | src/persist.cpp:1391-1428 | a complete append extends the log by exactly the entry |
| Recovery.SnapshotIsStored | src/persist.cpp:1449-1470 | between the two replacements of a compaction the disk still holds the log |
| Recovery.CompactedIsClean | src/persist.cpp:1449-1485 | after a compaction the disk holds the log and the journal is ready for appends |
| DurableRuns.SizeOfImages | src/persist.cpp:1443-1465 | the size of the snapshot file of a log |
| DurableRuns.RunRefinesLog | src/persist.cpp:1095-1486 | over every run of appends, compactions, crashes at any byte and restarts, reopening succeeds and yields the digest chain of exactly the acknowledged entries plus those interrupted ones whose last byte was written |
| DurableRuns.StaleJournalIsDropped | src/persist.cpp:1306-1319 | the code cuts a stale journal back to its header rather than verifying and skipping it, unless two digests collide |
| DurableRuns.AppendAfterFailure | src/persist.cpp:1399-1401 | what is acknowledged after a failed append is kept exactly when no byte of the failed record is in the journal, or all are and it is the same record; otherwise lost, unless the remnant and the next image read as one record |
| DurableRuns.RemnantIsNoRecord | src/persist.cpp:1277-1304 | that does not happen for a cut in the first eight bytes, nor behind the length field when too few bytes follow; otherwise only if 32 bytes happen to be the digest of those before them |
| Persistence.Directory.ReplaceSnapshot | src/persist.cpp:1047-1066 | the file is replaced as a whole or not at all |
| Persistence.Directory.ReplaceJournal | src/persist.cpp:1047-1066 | the file is replaced as a whole or not at all |
| Persistence.Directory.AppendJournal | src/persist.cpp:115-119 | any prefix of the bytes may reach the file, and every prefix up to it is a possible crash image |
| Persistence.ScanSnapshot | src/persist.cpp:1194-1238 | the loop follows the digest chain |
| Persistence.ReadSnapshot | src/persist.cpp:1154-1246 | the snapshot part of open |
| Persistence.ScanJournal | src/persist.cpp:1272-1335 | the loop is the replay |
| Persistence.FoldRecords | src/persist.cpp:1365-1376 | largest epoch and list of fences among the records |
| Persistence.PlanRepository.Open | src/persist.cpp:1095-1379 | refuses a disk exactly when a file on it is not intact, and otherwise holds exactly what the intact files say; if the disk held a log, that log is taken over and no crash image on the way endangers it |
| Persistence.PlanRepository.WriteRecord | src/persist.cpp:1391-1403 | the journal grows by a prefix of the image; as long as memory and disk agreed, every crash image of the write holds the old log or the extended one |
| Persistence.PlanRepository.TakeOver | src/persist.cpp:1411-1427 | epoch and fences follow the records; false exactly when the fence bound is reached |
| Persistence.PlanRepository.Append | src/persist.cpp:1381-1435 | success means the entry is next in memory and its image next in the journal, whatever happened before; from a sound repository, the exact effect of every outcome on memory and disk, and every error path; a fence refused for its number is on disk all the same |
| Persistence.PlanRepository.CompactLocked | src/persist.cpp:1437-1486 | memory unchanged, disk rewritten from it, also after a failed append; from a sound repository no crash image loses the log |
| Persistence.PlanRepository.Compact | src/persist.cpp:1495-1499 | the same, refused after close |
| Authority.DeltaIsExact | src/authority.cpp:133-192 | for valid vectors the three lists say exactly, for each of the 21 fields, which generations advanced or went back and which content differs |
| Authority.IdenticalMeansEqual | src/authority.cpp:133-192 | the comparison is identical if and only if the vectors are equal |
| PlanLifecycle.PathsAreShort | src/plan.cpp:95-122 | the transition table has no cycle: at most eight transitions |
| PlanLifecycle.ReachesOnwards | src/plan.cpp:95-122 | REJECTED and RETIRED are absorbing; nothing leads back to a live state or to COMMITTED |
| PlanLifecycle.TableByTarget | src/plan.cpp:95-122 | the table read backwards: from which states each state can be entered |
| PlanLog.GoodLogConsistent | src/engine.cpp:467-490 | in every prefix of the log at most one plan is committed, and every supersedes link is answered by its superseded_by link |
| PlanLog.HistoryFollowsTable | src/engine.cpp:680-694 | the records of one plan follow the transition table |
| PlanLog.CommitsOnce | src/engine.cpp:405-419 | each plan commits at most once, under one commit identity |
| PlanLog.SupersededEarlier | src/engine.cpp:467-488 | a superseded plan committed before its successor |
| PlanLog.SupersededWasCommitted | src/engine.cpp:467-488 | if the log shows its commit at all, a superseded plan has a commit record before its successor |
| PlanLog.LineageIsAcyclic | src/engine.cpp:482-488 | following supersedes never comes back to a plan |
| PlanLog.LineageIsLinear | src/engine.cpp:482-488 | no two plans supersede the same plan, and a plan whose commit the log shows names its successor |
| PlanLog.ReadablesAreGood | src/engine.cpp:686-694 | the readable part of a good log is a good log, and shows each plan as the whole log does, or as it was before it was solved |
| EngineSafety.AtMostOneCommitted | src/engine.cpp:467-490 | at most one plan is committed, and it is the incumbent |
| EngineSafety.NeverOutdated | src/engine.cpp:111-124 | a live or committed plan always compares identical to the live authority |
| EngineSafety.SubmitKeeps | src/engine.cpp:96-126 | a new snapshot stales exactly the plans bound to another authority and keeps the invariant |
| EngineSafety.DeclareKeeps | src/engine.cpp:128-178 | declare keeps the invariant |
| EngineSafety.ValidateKeeps | src/engine.cpp:180-219 | validate keeps the invariant; its branch without a snapshot is unreachable |
| EngineSafety.SolveKeeps | src/engine.cpp:221-317 | solve keeps the invariant |
| EngineSafety.AuthorizeKeeps | src/engine.cpp:319-390 | authorize keeps the invariant |
| EngineSafety.CommitKeeps | src/engine.cpp:392-501 | commit keeps the invariant |
| EngineSafety.SupersedeAlwaysRefused | src/engine.cpp:503-554 | explicit supersession is refused in every reachable state and changes nothing |
| EngineSafety.MarkStaleKeeps | src/engine.cpp:556-574 | mark_stale keeps the invariant |
| EngineSafety.RetireKeeps | src/engine.cpp:576-594 | retire keeps the invariant |
| EngineSafety.RevalidateKeeps | src/engine.cpp:645-669 | revalidate keeps the invariant |
| EngineSafety.RecoverKeeps | src/engine.cpp:671-720 | recovery from any prefix of the log, whatever of it cannot be read, reaches a good state |
| EngineSafety.RecoveryAgrees | src/engine.cpp:696-717 | recovery restores a plan as it was in memory (live ones STALE), and the incumbent with it, if and only if its record can be read; otherwise the plan is STALE and without its commit |
| EngineSafety.EveryRunIsSafe | src/engine.cpp:96-720 | over every run of operations, crashes and recoveries, records that cannot be read included: one committed plan at most, the incumbent, bound to the live authority, and restored by recovery exactly if its record can be read |
| EngineSafety.CommitGate | src/engine.cpp:415-465 | a plan is committed only from AUTHORIZED, under the live authority, with an allocation that passes verification |
| EngineSafety.CommitReplay | src/engine.cpp:405-414 | replaying an accepted commit changes nothing; any other commit of the plan is refused |
| EngineSafety.CrashInsideCommit | src/engine.cpp:492-499 | a crash between the two records of a commit leaves no plan committed: the new one stale, the old one superseded if its record can be read |
| EngineSafety.UnreadableCommitIsLost | src/persist.cpp:627-631 | a commit whose record cannot be read is acknowledged and gone after the next recovery |
| Planning.WideIsAcceptable | src/allocation.cpp:74-208 | the plan of one demand over n unit paths passes verification, and its record can be read if and only if n is at most 64 |
| Planning.WidePlanIsForgotten | src/persist.cpp:627-631 | the run: a plan over 65 paths is solved, verified, committed and acknowledged, and STALE after a crash; over up to 64 it is still the incumbent |
| EngineSafety.LineageLinksBack | src/engine.cpp:482-488 | a plan that supersedes another is named by it in turn, exactly if the commit of the other was not lost |
| EngineSafety.StepFollowsTable | src/engine.cpp:96-669 | every operation only appends to the log, keeps every plan, and moves states along the table |
| EngineGates.SubmitExactly | src/engine.cpp:96-126 | every admissible snapshot is accepted, and stales exactly the live and committed plans bound to another authority |
| EngineGates.DeclareExactly | src/engine.cpp:128-178 | a plan is declared exactly if there is a snapshot, all identities are present and there is room for it; the fields of the new plan |
| EngineGates.ValidateExactly | src/engine.cpp:180-219 | a plan is validated exactly if it is DECLARED |
| EngineGates.SolveExactly | src/engine.cpp:221-317 | the state each solver outcome leads to |
| EngineGates.AuthorizeExactly | src/engine.cpp:319-390 | a plan is authorised exactly if it is PROPOSED, or DEGRADED under a policy that allows it, and churn does not hold it back; what each refusal does |
| EngineGates.CommitExactly | src/engine.cpp:392-465 | a plan not committed yet commits exactly if it is AUTHORIZED and its allocation passes verification |
| EngineGates.CommitEffect | src/engine.cpp:467-499 | what a commit changes: this plan, the one it supersedes, the incumbent, two records in this order, and nothing else |
| EngineGates.MarkStaleAndRetireExactly | src/engine.cpp:556-594 | which plans can be marked stale or retired, and what that changes |
| EngineGates.RevalidateExactly | src/engine.cpp:645-669 | applicability is current exactly if the plan is bound to the live authority; no state or log changes |
| EngineGates.OnlyAuthorizeAuthorizes | src/engine.cpp:381-387 | no other operation writes an AUTHORIZED record |
| EngineGates.DegradedOnlyByConsent | src/engine.cpp:362-373 | over every run a plan whose solve ended degraded is AUTHORIZED or COMMITTED only if the policy of its authority allows degraded commits |
| EngineDurability.PlansOfChain | src/engine.cpp:680-694 | the plans read from the durable records are those of the log entries |
| EngineDurability.AppendedPlans | src/engine.cpp:686-694 | of appended plan records recovery reads the readable ones, in order |
| EngineDurability.EventKeeps | src/engine.cpp:671-720 | every operation, record of another kind, compaction, crash at any byte and restart keeps engine and log in step; a crash leads to what recovery makes of the records durable by then |
| EngineDurability.EngineSurvivesRuns | src/engine.cpp:96-720 | over every run from an empty directory each reopening succeeds, the engine is in a good state, and reopening would read exactly the readable part of its log |
| EngineObject.Engine.SubmitSnapshot | src/engine.cpp:96-126 | the loop stales every outdated plan |
| EngineObject.Engine.Declare | src/engine.cpp:128-178 | declare, with every refusal |
| EngineObject.Engine.Validate | src/engine.cpp:180-219 | validate, with every refusal |
| EngineObject.Engine.Solve | src/engine.cpp:221-317 | solve, for every solver outcome |
| EngineObject.Engine.Authorize | src/engine.cpp:319-390 | authorize, with every refusal |
| EngineObject.Engine.InstallPlan | src/engine.cpp:467-499 | the superseded plan is logged before the committed one |
| EngineObject.Engine.Commit | src/engine.cpp:392-501 | commit, with every refusal; the allocation is verified before |
| EngineObject.Engine.WalkLineage | src/engine.cpp:524-539 | the bounded walk back along the lineage |
| EngineObject.Engine.Supersede | src/engine.cpp:503-554 | explicit supersession |
| EngineObject.Engine.MarkStale | src/engine.cpp:556-574 | mark_stale |
| EngineObject.Engine.Retire | src/engine.cpp:576-594 | retire clears the incumbent when it is the plan |
| EngineObject.Engine.Revalidate | src/engine.cpp:645-669 | revalidate, and the applicability it answers |
| EngineObject.Engine.CollapseLog | src/engine.cpp:680-694 | the latest readable record of each plan |
| EngineObject.Engine.DemoteAll | src/engine.cpp:696-711 | live plans become STALE, the others need revalidation |
| EngineObject.Engine.FindIncumbent | src/engine.cpp:713-716 | the committed plan becomes the incumbent |
| EngineObject.Engine.RecoverFromRepository | src/engine.cpp:671-720 | recovery skips what cannot be read, computes the recovered state of the rest and writes nothing |
| CoordinatorModel.OldBindingsAreRefused | src/coordinator.cpp:100-105 | session epochs strictly increase, and a binding or registration of an earlier session is refused in every later one, over every run of writes, failed or not |
| CoordinatorModel.FixedWidthRoundTrips | src/persist.cpp:869-915 | payload formats that round-trip, as the model assumes, exist: fixed-width fields are one |
| CoordinatorModel.FencedForever | src/coordinator.cpp:106-110 | a fenced boot never registers or mutates again, in this session or a later one, over every run without an append behind a failed one |
| CoordinatorModel.CarefulRunKeeps | src/coordinator.cpp:341-351 | over a run without an append behind a failed one no fence in memory is forgotten by the log or by a later session |
| CoordinatorModel.AcknowledgedFence | src/coordinator.cpp:341-351 | an acknowledged fence is durable if and only if no failed append had broken the journal before |
| CoordinatorModel.FenceIsLost | src/coordinator.cpp:341-351 | the failing run: after a fence append that fails half-way and is repeated, a crash lets the replaced boot register again |
| CoordinatorModel.ReplacementFences | src/coordinator.cpp:324-355 | a newer boot fences the one it replaces; from then on complete bindings of it are permitted, and none of any other boot of the publisher |
| CoordinatorModel.AcceptedExactly | src/coordinator.cpp:303-355 | a registration is accepted exactly with the current epoch and incarnation, for a boot that is not fenced, once the boot it replaces is fenced durably |
| CoordinatorModel.RegisteredIsAccepted | src/coordinator.cpp:352-355 | over every run the registered boot of a publisher is the one whose registration the session accepted last |
| CoordinatorModel.PermittedExactly | src/coordinator.cpp:91-120 | over every run a binding is permitted exactly if it is complete, carries the epoch of a session that is not stopping, and names the boot accepted last for its publisher |
| CoordinatorModel.RunKeeps | src/coordinator.cpp:178-216 | over every run a session holds the newest epoch, only fences it holds in memory, and no fenced registered boot |
| CoordinatorObject.FoldsAgree | src/persist.cpp:1365-1376 | what recovery folds out of the records is what the log says |
| CoordinatorObject.Coordinator.Start | src/coordinator.cpp:178-217 | the epoch of a session is durable before it is used; a failed start leaves the log with or without it |
| CoordinatorObject.Coordinator.Register | src/coordinator.cpp:299-363 | the old boot is fenced durably before the new one takes its place; every outcome of the write, whatever state the journal is in |
| CoordinatorObject.Coordinator.Validate | src/coordinator.cpp:91-120 | validate_binding |
| CoordinatorObject.Coordinator.IsFenced | src/coordinator.cpp:78-84 | a linear search through the fences |
| Sha256.PaddingIsInjective | src/digest.cpp:176-192 | messages below 2^61 bytes have distinct padded forms (FIPS 180-4, section 5.1.1) |
| Sha256.DomainsAreSeparate | src/digest.cpp:220-229 | labelled digests hash the same bytes only for the same label and payload |
| Sha256.ExpandBlock | src/digest.cpp:91-103 | the message schedule of section 6.2.2 of FIPS 180-4 |
| Sha256.InitialHashIsSquareRoots | src/digest.cpp:85-88 | the initial hash value: fractional parts of the square roots of the first eight primes |
| Sha256.Row0IsCubeRoots | src/digest.cpp:15-26 | round constants: fractional parts of the cube roots of eight consecutive primes, from 2 on |
| Sha256.Row1IsCubeRoots | src/digest.cpp:15-26 | round constants: fractional parts of the cube roots of eight consecutive primes |
| Sha256.Row2IsCubeRoots | src/digest.cpp:15-26 | round constants: fractional parts of the cube roots of eight consecutive primes |
| Sha256.Row3IsCubeRoots | src/digest.cpp:15-26 | round constants: fractional parts of the cube roots of eight consecutive primes |
| Sha256.Row4IsCubeRoots | src/digest.cpp:15-26 | round constants: fractional parts of the cube roots of eight consecutive primes |
| Sha256.Row5IsCubeRoots | src/digest.cpp:15-26 | round constants: fractional parts of the cube roots of eight consecutive primes |
| Sha256.Row6IsCubeRoots | src/digest.cpp:15-26 | round constants: fractional parts of the cube roots of eight consecutive primes |
| Sha256.Row7IsCubeRoots | src/digest.cpp:15-26 | round constants: fractional parts of the cube roots of eight consecutive primes |
| Sha256.ChChooses | src/digest.cpp:115-115 | choice, bit by bit |
| Sha256.MajIsMajority | src/digest.cpp:118-118 | majority, bit by bit |
| Sha256.SumsOnWords | src/digest.cpp:98-117 | the four sums on single bits and on words in which bits cancel out |
| Sha256.CompressInto | src/digest.cpp:90-139 | the compression loop computes the hash value of section 6.2.2 of FIPS 180-4 |
| Sha256.Sha256Stream.constructor | src/digest.cpp:85-88 | the initial hash value of section 5.3.3 of FIPS 180-4 |
| Sha256.Sha256Stream.Update | src/digest.cpp:141-170 | only the concatenation of the data matters, and fewer than 64 bytes stay buffered |
| Sha256.Sha256Stream.PadZeros | src/digest.cpp:183-185 | the padding loop ends, after the smallest number of zero bytes |
| Sha256.Sha256Stream.Pad | src/digest.cpp:179-192 | update is fed exactly the padding of section 5.1.1 of FIPS 180-4 |
| Sha256.Sha256Stream.Finish | src/digest.cpp:176-200 | the digest is SHA-256 of everything fed; a second call gives the same |
| Sha256.HashParts | src/digest.cpp:202-206 | however a message is split, the digest is that of the whole |
| Crc32c.MakeTable | src/digest.cpp:39-49 | each table entry is its index shifted eight times |
| Crc32c.Crc32cEntry | src/digest.cpp:31-37 | eight rounds of the shift register |
| Crc32c.ComputeCrc32c | src/digest.cpp:212-218 | the table-driven loop computes the bitwise division of section 12.1 of RFC 3720, reflected and complemented |
| Crc32c.RegisterIsChecksum | src/digest.cpp:212-218 | the shift register is the division seen in a mirror |
| Crc32c.BurstIsDetected | src/persist.cpp:1296-1297 | damage within four consecutive bytes, in particular one changed byte, always changes the checksum |
| Codec.ReadsBack | include/tef/binary.hpp:25-69 | what was written is read back, whatever follows it |
| Codec.OnlyWritten | include/tef/binary.hpp:91-217 | an accepted input is the encoding of the value it yields |
| Codec.DecodeIsLocal | include/tef/binary.hpp:91-217 | what follows a value does not change how it is read |
| Codec.RoundTrip | include/tef/binary.hpp:25-217 | a payload is read back; every proper prefix and every extension is rejected |
| Codec.ParseIsExact | include/tef/binary.hpp:91-217 | for a strict format, accepted inputs and valid values correspond one to one |
| Codec.LooseRefIsNotExact | src/persist.cpp:704-715 | a plan reference that names nothing is accepted with any generation, which is dropped |
| CodecStreams.Writer.Write | include/tef/binary.hpp:29-69 | the writer appends exactly the encoding |
| CodecStreams.Writer.Put | include/tef/binary.hpp:29-48 | big-endian, most significant byte first |
| CodecStreams.Reader.Ensure | include/tef/binary.hpp:201-208 | a short read fails the reader for good |
| CodecStreams.Reader.Number | include/tef/binary.hpp:101-139 | fixed-width big-endian read |
| CodecStreams.Reader.Str | include/tef/binary.hpp:159-170 | length-prefixed read within the bound |
| CodecStreams.Reader.Read | include/tef/binary.hpp:91-217 | the reader accepts exactly what the format describes and advances past it |
| CodecStreams.Reader.ReadAll | src/model.cpp:87-108 | the list loop |
| CodecStreams.Reader.ReadWhole | src/model.cpp:1262-1387 | one value and nothing behind it |
| Formats.SnapshotFormatIsExact | src/model.cpp:1223-1387 | decode_snapshot accepts exactly the encodings of snapshots within its bounds, and returns what was encoded |
| Formats.SnapshotRoundTrip | src/model.cpp:1223-1387 | decoding undoes encoding; prefixes and extensions are rejected |
| Formats.PlanRoundTrip | src/persist.cpp:364-746 | decode_plan undoes encode_plan for plans within its bounds; prefixes and extensions are rejected |
| Formats.LongTextIsRefused | include/tef/binary.hpp:59-62 | a text is read back if and only if it is within the reader bound, which the writer does not check |

## Left out

- Objective scoring, `compare_churn`, alternatives, metrics: long sums that no safety property depends on.
- Explanations, summaries, constraint details, statistics and ticks: rendering only.
- The comparator of `order_paths`: the results hold for every permutation of the eligible list.
- `src/net.cpp`, `src/publisher.cpp`, frames, command-line tools: transport.
- Threads and locks: each operation and each request handler is one step. The register handler drops its lock between
  decision and update, so nothing is claimed about two registrations of one publisher at the same time.
- The manifest file, temporary files, fsync and the file system: a replacement of a file is atomic.
- `Rational`, `permille`, `gcd_u64`: not used by what is modelled.
- `validate_structure` and the sorting of `canonicalize`: their accepted results are the inputs of the model, and
  decoding ends before them. On a canonical valid snapshot both leave the value unchanged.
- An engine without a repository: it is the same machine with a log nobody reads.
- `PlanStateMachine::holds_allocation` and the read-only queries of the engine and the coordinator.
- `content_digest`: not modelled as such; equal plan encodings are shown to mean equal plans.
- CeilingSearch.SearchCeiling: does not promise a least ceiling when some probe could not be built, because the loop then stops early, nor when the floors add up to more than 64 bits, because the comparison then saturates.
- InfeasibilityCertificate.Certify: promises nothing but the shape of its answer when the network exceeds its bounds or the iteration budget runs out; how many iterations a network takes is not predicted.
- Solver.Widen: does not promise the tightest ceiling, because constructive success is not monotone in it.
- Solver.SoftPhases: is work conserving only without path consolidation, which may free room afterwards.
- Solver.Solve: does not promise that a floor the relaxation allows is placed, because the bounded repair is a heuristic.
- Sha256.CompressInto: sums are taken modulo 2^32 as bit-vectors, so the order of additions is not distinguished.
- DurableRuns.RunRefinesLog: covers runs without failed appends or refused fences and with snapshots within the file bound; `AppendAfterFailure`, `PlanRepository.Append` and `DurableLog.SnapshotWithGap` say what happens beyond.
- EngineDurability.EngineSurvivesRuns: has the bounds of `DurableRuns.RunRefinesLog`, and takes plan records whose payload fits into a record.
- EngineSafety.RecoveryAgrees: of the bounds of `decode_plan` it knows the two on allocations, 4096 demands and 64 shares each; the texts of a plan are not modelled.
- CoordinatorModel.FencedForever: does not follow a session beyond a fence that was refused for its number, which leaves memory behind the disk (`Persistence.PlanRepository.Append`).
- Formats.SnapshotFormatIsExact: ends before `validate_structure` and `canonicalize`, which are not modelled.
- Formats.SnapshotRoundTrip: ends there too.
- Ledger.Problem.ConsolidatePaths: says how far the least preferred path is emptied, and of the paths between only that the demand keeps its grant.
- Construction.RepairRound: does not say what a reported progress achieved; `Ledger.Problem.RepairResource` says it for each resource.
- EngineGates.DegradedOnlyByConsent: takes the policy to be determined by the authority vector, which names it by identity, generation and content digest.
- Sha256.SumsOnWords: fixes the four sums on eight words each, not on all words.
