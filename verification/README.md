# Family tree: verified model

This project models the parts of the family tree backend whose correctness is not visible in any single function, and
proves what they promise together. Each module follows one component:

- **Graph layout** (`Graphs`, `AdjacencyLists`, `TopologicalPass`, `Generations`, `UnionAlignment`, `Ordering`, `Scene`,
  `SceneEdges`, `ScenePicture`, `Rasteriser`): the generation ranks of the visual exports, the geometry built on them
  and the integer line of the PNG export.
- **Ancestry** (`AncestryTables`, `RelationQuery`, `Ancestry`, `PersonRestore`, `Manifest`, `ManifestRelations`,
  `TreeBackup`, `RestoreWitnesses`): the lock and the recursive query that keep ancestry acyclic, what a person restore
  does to it, and the second check that a backup restore makes.
- **GEDCOM** (`GedcomFamilies`, `GedcomRelations`, `GedcomUnions`, `GedcomLines`, `GedcomRecords`, `GedcomMeaning`,
  `GedcomWriting`, `GedcomExport`): the translation into FAM and INDI records, the line printer, the order that makes
  the text depend on the snapshot alone, and a reader that recovers the family relations from the text.
- **Jobs and exports** (`JobQueue`, `QueueProtocol`, `JobRepository`, `JobWorker`, `ExportRows`, `ExportProtocol`,
  `ExportWorkers`, `JobAttempts`, `GenerationJobs`, `DeadJobs`, `MediaJobs`, `DeadMediaJobs`, `LastAttempts`,
  `DeadJobWitnesses`, `DeadMediaWitnesses`): the lease-based queue, the export life cycle over a database and an object
  store, and the queue together with exports and with media.
- **Backups** (`ChecksumList`, `BackupFiles`, `BackupSources`, `BackupArchive`, `BackupRoundTrip`, `BackupAcceptance`,
  `BackupWitness`, `RestoreSaga`): building and parsing archives, and the restore with its compensation.
- **Media and limits** (`PrimaryMedia`, `MediaRepository`, `MediaRestore`, `RateLimit`): primary pointers under
  concurrent transactions and after a restore, and the fixed-window rate limiter.

`Texts`, `Faults` and `Arrangements` hold what several of them need. `dafny verify dfyconfig.toml` checks the whole project.

## Modelling decisions

- UUIDs are natural numbers in the order of their text, 0 being the nil UUID; printed forms are parameters that are
  assumed to be different for different UUIDs. Times are integers and clock readings are arbitrary unless stated.
- A walk over a Go map is a choice of any remaining key, so the proofs cover every iteration order.
- An SQL statement is a guarded step on tables. Protocols are state machines whose events are the statements of all
  participants; a property of "every interleaving" is about every sequence of events from the empty system. Beside
  them, the repositories are classes whose methods are the statements, and the workers are methods that let everybody
  else take any steps between their own.
- SHA-256, ZIP and JSON are parameters. A digest is assumed to be free of collisions only where a contract says so:
  for the names of relation families and for the recorded size of an export.
- A relative path is safe when cleaning it leaves it alone, written as a condition on its segments.

## Where the code and its promises differ

- Restoring a person re-activates relations without a cycle check and without the tree's lock, while the creation query
  ignores paths through deleted persons. `RestoreWitnesses.RestoreCanCloseCycle` is a run that ends in a cycle, and
  `RestoreWitnesses.RestoreRacesWithCreation` one in which the cycle is closed by a creation that had passed its check
  before the restore. `PersonRestore.RestoreKeepsInvIff` and `PersonRestore.SafeIffRestoresHarmless` say exactly when
  restores are harmless.
- The restorer follows relations of soft-deleted persons, the creation query does not: a tree that the application
  accepts can have a backup that the restorer refuses (`RestoreWitnesses.BackupOfReachableTreeRefused`).
  `TreeBackup.BackupAcceptedIff` says exactly when it does.
- A dead generation job does not imply a settled export: a claim can bury the job, the last attempt reports an error at
  once if it cannot acquire the export or when it cannot mark it, and a handler that panics or is missing never marks
  anything (`DeadJobWitnesses.DeadJobLeavesExportOpen`). `DeadJobs.DeadJobLeavesExportOpenIff` gives the exact condition.
  The same holds of processing jobs and their assets (`DeadMediaWitnesses.DeadJobLeavesAssetOpen`,
  `DeadMediaJobs.DeadJobLeavesAssetOpenIff`).
- The restorer accepts manifests from which primary media are restored that are not ready
  (`MediaRestore.ChecksAdmitUnsafe`); `MediaRestore.RestoredPrimariesHoldIff` says which manifests are safe, and
  `MediaRestore.BackupsAreSafe` that the application's own backups are.
- A rate-limited caller who comes back at the named time can still be refused, when the table is full
  (`RateLimit.ReturnCanFindNoRoom`); `RateLimit.RetryIsExact` gives the exact condition.
- The archive builder's size sum leaves out the checksum list, and only the parser caps the number of entries
  (`BackupRoundTrip.SameLimitCanRefuse`, `BackupWitness.RefusalHappens`); `BackupRoundTrip.RoundTrip` gives the exact
  condition.
- A restore whose commit answer is lost and whose check fails deletes the files of a committed tree
  (`RestoreSaga.LostCommitLosesFiles`). A lost upload answer leaves an object behind; `RestoreSaga.AtomicExactly` lists
  all such cases.
- Relation types outside the six known ones are written as unknown and cannot be recovered
  (`GedcomRecords.PedigreeReadsBack`).
- Unions count as deleted by their last row in the visual exports, but as active by any live row in the GEDCOM export;
  both are modelled as they are.

## Model

| member | source | states |
|---|---|---|
| `Generations.GenerationRanks` | `internal/features/exports/visual/scene.go:209-241` | Succeeds exactly when the parent-child graph is acyclic, for every order of the queue; then each person's rank is the length of their longest chain of ancestors. |
| `TopologicalPass.ExhaustedDecides` | `internal/features/exports/visual/scene.go:217-239` | When no vertex is left to pop, all persons have been visited if and only if the multigraph has no cycle. Shared by both topological passes. |
| `TopologicalPass.SomeUnvisitedMeansCycle` | `internal/features/exports/visual/scene.go:217-239` | A person left unvisited lies behind a cycle: indegrees count parallel edges, so a stuck frontier has a predecessor for every vertex. |
| `UnionAlignment.AlignUnionRanks` | `internal/features/exports/visual/scene.go:263-296` | For every iteration order of the maps: reports success exactly when some assignment above the given ranks puts children strictly below parents and partners level; the result is then such an assignment and lies below every other one. |
| `UnionAlignment.PassesReachFixpoint` | `internal/features/exports/visual/scene.go:263-296` | If the constraints are solvable, a run of passes that each change something is no longer than the number of persons, so the bound of personCount + 1 passes always sees a quiet one. |
| `UnionAlignment.QuietPassSolves` | `internal/features/exports/visual/scene.go:268-293` | A pass that changes nothing has found a solution of all constraints. |
| `UnionAlignment.IntegerSolutionShifts` | `internal/features/exports/visual/scene.go:263-296` | Any integer assignment that satisfies the constraints can be shifted to a non-negative one: failure means that no assignment at all exists. |
| `UnionAlignment.AlignedUnique` | `internal/features/exports/visual/scene.go:263-296` | Two aligned results from the same start agree on every person, whatever order the maps were walked in. |
| `Scene.CollectGraph` | `internal/features/exports/visual/scene.go:71-96` | The child lists and the parent lists hold exactly the active relations between active persons, each pair once whatever its types, with matching indegrees. |
| `Scene.ActiveUnionMembers` | `internal/features/exports/visual/scene.go:243-261` | A person is listed under a union exactly when the last row of the union is not deleted and the person is an active member; entered once, a member is listed once. |
| `Scene.LayoutRanks` | `internal/features/exports/visual/scene.go:97-104` | Both rank computations together succeed exactly when the constraints are solvable, and give the least non-negative solution. |
| `Scene.RowsInhabited` | `internal/features/exports/visual/scene.go:105-113` | Every row from 0 to the largest rank holds somebody. |
| `ScenePicture.BuildScene` | `internal/features/exports/visual/scene.go:57-207` | Every outcome has its exact cause: an unsolvable manifest is refused as such, a picture beyond the node or pixel limits as too large, and any other manifest is drawn with the least ranks, sorted rows, computed card places, one line for each active relation and the bars of the active unions. |
| `Scene.LayoutUnique` | `internal/features/exports/visual/scene.go:105-188` | The manifest alone determines the layout: two runs with different map orders draw the same canvas. |
| `ScenePicture.LinesUnique` | `internal/features/exports/visual/scene.go:171-207` | It determines the lines as well: two drawings of one manifest have the same lines in the same order, provided nobody is entered into a union twice. |
| `Scene.SceneGeometry` | `internal/features/exports/visual/scene.go:123-170` | Every active person has exactly one card; cards keep the horizontal and vertical gaps from each other, lie between margins, header and footer, children lie a full row below their parents, and partners share a row. |
| `Scene.ElbowsRunDown` | `internal/features/exports/visual/scene.go:171-196` | The line of every drawn relation is axis-parallel, runs strictly downward and bends inside the gap between two rows. |
| `SceneEdges.BuildParentEdges` | `internal/features/exports/visual/scene.go:171-203` | One line for each listed pair of a child and a parent with cards, and no other, by child and then by parent: the elbow between their cards. |
| `SceneEdges.BuildUnionEdges` | `internal/features/exports/visual/scene.go:298-337` | Union after union by identifier, its members are put into drawing order and joined neighbour by neighbour; there is no other bar. |
| `SceneEdges.BarsAreLevel` | `internal/features/exports/visual/scene.go:316-332` | Bars between partners that are listed once are level, run left to right and are at least as long as the gap; the branch that swaps the ends is never taken. |
| `Arrangements.SortBy` | `internal/features/exports/processing/archive.go:26-29` | Sorting by any strict order keeps the members and puts them in ascending order. |
| `Arrangements.AscendingUnique` | `internal/features/exports/gedcom/gedcom.go:354-370` | A set has only one ascending arrangement under a strict order: what is sorted does not depend on the order it came in. |
| `Arrangements.StringsAreOrdered` | `internal/features/exports/gedcom/gedcom.go:110` | The order of strings that record names and paths are sorted by is total. |
| `Ordering.Sort` | `internal/features/exports/visual/scene.go:114-122` | The sort by name and identifier keeps the members and makes every row strictly ordered. |
| `Ordering.SortedUnique` | `internal/features/exports/visual/scene.go:114-122` | There is only one such arrangement, so the order of the input does not matter. |
| `Rasteriser.Image.DrawLine` | `internal/features/exports/visual/png.go:183-218` | Ends for all integer endpoints after exactly max(|dx|, |dy|) + 1 centres, starts and ends on the given points, every centre is within half a pixel of the segment, and exactly the pixels covered by the dots are painted. |
| `Rasteriser.StepStaysNear` | `internal/features/exports/visual/png.go:199-217` | One pass of the error-driven step keeps the deviation 2 * abs(dx * j - dy * i) at most max(dx, dy) and advances the longer axis. |
| `Rasteriser.StopsAtEnd` | `internal/features/exports/visual/png.go:194-198` | The loop meets its end point only after all steps of both axes. |
| `Rasteriser.Image.DrawCircle` | `internal/features/exports/visual/png.go:220-228` | A dot paints exactly the pixels within its radius that lie on the image. |
| `RelationQuery.Descendants` | `internal/features/relationships/repository/postgres/repository.go:75-98` | The recursive query lists exactly the simple paths from the child: no path is missed or invented. |
| `RelationQuery.CreatesCycle` | `internal/features/relationships/repository/postgres/repository.go:73-106` | The query finds the parent exactly when the parent is reachable from the child. |
| `RelationQuery.RefusalIsExact` | `internal/features/relationships/repository/postgres/repository.go:73-106` | An insert is refused exactly when the new edge would close a cycle among the active relations of active persons. |
| `Ancestry.StepKeepsInv` | `internal/features/relationships/repository/postgres/repository.go:26-131` | Every statement of every transaction keeps: live edges are acyclic, one lock holder at most, and whoever has checked for a cycle still stands before an insert that closes none. |
| `Ancestry.AncestryStaysAcyclic` | `internal/features/relationships/repository/postgres/repository.go:26-131` | Over every interleaving of relation creations, updates and deletions and person deletions, from an empty tree, active relations between active persons stay acyclic. |
| `Ancestry.RelationRepository.CreateAcyclicEditable` | `internal/features/relationships/repository/postgres/repository.go:26-131` | Each refusal has its exact cause, a cycle being refused if and only if the new edge closes one; only a created relation changes the tables, and the lock is released on every path. |
| `Ancestry.UndisturbedSteps` | `internal/features/relationships/repository/postgres/repository.go:26-131` | The method is the protocol: undisturbed, the transaction's steps lead from its begin to its commit. |
| `Graphs.AddEdgeAcyclic` | `internal/features/relationships/repository/postgres/repository.go:73-106` | Adding an edge to an acyclic graph keeps it acyclic if and only if its parent is not reachable from its child. |
| `Graphs.Shorten` | `internal/features/relationships/repository/postgres/repository.go:75-98` | Every walk shortens to a simple one between the same ends, so a query over simple paths misses nothing. |
| `Graphs.NoSourceMeansCycle` | `internal/features/exports/visual/scene.go:235-240` | A non-empty finite set in which everybody has a predecessor contains a cycle. |
| `PersonRestore.RestoreKeepsInvIff` | `internal/features/persons/repository/postgres/repository.go:277-371` | In every state of the protocol, a restore keeps ancestry acyclic, also after the write of the creation that is under way, exactly when no active or planned child of the person reaches an active or planned parent over the active relations and the planned one. |
| `PersonRestore.HarmfulRestoreClosesCycle` | `internal/features/persons/repository/postgres/repository.go:277-371` | Any other restore closes a cycle among active persons: at once if no creation is under way, and otherwise by the write of that creation. |
| `PersonRestore.SafeIffRestoresHarmless` | `internal/features/persons/repository/postgres/repository.go:265-371` | Over every history of relation transactions, person deletions and restores: ancestry is safe at every point if and only if every restore in it was harmless at its time. |
| `PersonRestore.HistoryKeepsRows` | `internal/features/relationships/repository/postgres/repository.go:26-131` | After any history no relation joins a person with itself and no two undeleted relations have the same parent, child and type. |
| `RestoreWitnesses.RestoreCanCloseCycle` | `internal/features/persons/repository/postgres/repository.go:270-371` | The restore does not check: a reachable tree of three persons becomes cyclic by restoring one of them. |
| `RestoreWitnesses.RestoreRacesWithCreation` | `internal/features/persons/repository/postgres/repository.go:285-330` | The restore does not take the lock: between the cycle check and the write of a creation it can look harmless, leave ancestry acyclic, and still let the write close a cycle. |
| `TreeBackup.BackupAcceptedIff` | `internal/features/exports/restore/archive.go:157-268` | After any history, the restorer accepts the persons and relations of a tree exactly when its undeleted relations form no cycle, those of deleted persons included; otherwise it refuses them as cyclic. |
| `TreeBackup.CheckBackup` | `internal/features/exports/restore/archive.go:157-268` | Run on the rows of such a tree, the check answers that they are valid or that they contain a cycle, and nothing else. |
| `TreeBackup.SafeTreeHasBackup` | `internal/features/exports/restore/archive.go:213-268` | After harmless restores, a tree in which no undeleted relation touches a deleted person passes. |
| `RestoreWitnesses.BackupOfReachableTreeRefused` | `internal/features/exports/restore/archive.go:213-268` | A reachable tree that is acyclic for the queries can make a backup that the restorer refuses as cyclic, because the restorer also follows relations of deleted persons. |
| `RestoreWitnesses.WitnessHasManifest` | `internal/features/exports/restore/archive.go:213-268` | There is a manifest that describes this tree. |
| `ManifestRelations.ValidateManifestRelations` | `internal/features/exports/restore/archive.go:157-268` | Accepts exactly the manifests whose person identifiers are unique and non-empty, whose relations are well formed and unique, and whose active relations, parallel types included, form no cycle. |
| `ManifestRelations.CheckPersons` | `internal/features/exports/restore/archive.go:181-191` | Valid exactly when all identifiers are non-empty and distinct. |
| `ManifestRelations.CollectRelations` | `internal/features/exports/restore/archive.go:213-249` | Refuses exactly the malformed relation lists; otherwise the lists and indegrees count every active relation, parallel ones separately. |
| `GedcomFamilies.PartnerPairs` | `internal/features/exports/gedcom/gedcom.go:630-639` | The first member with each of the others: every member stands in some pair, nobody twice in one. |
| `GedcomFamilies.ChunksCover` | `internal/features/exports/gedcom/gedcom.go:641-648` | The chunks of a parent list together hold exactly its members. |
| `GedcomRelations.MatchingFamily` | `internal/features/exports/gedcom/gedcom.go:650-665` | Finds the first family with exactly these partners that does not list the child yet, or none. |
| `GedcomRelations.RelationGroups` | `internal/features/exports/gedcom/gedcom.go:323-406` | One group per child and type, by child and then by type, holding exactly the parents of the active relations of that child and type, in ascending order. |
| `GedcomRelations.AddChunk` | `internal/features/exports/gedcom/gedcom.go:295-318` | One more chunk of parents adds exactly the relations of these parents to the child; names stay distinct and links mirror the lists. |
| `GedcomUnions.BuildUnionFamilies` | `internal/features/exports/gedcom/gedcom.go:228-287` | The families of each active union list exactly its active members; every family has one or two distinct partners; family names differ. |
| `GedcomRelations.AddParentChildFamilies` | `internal/features/exports/gedcom/gedcom.go:289-321` | The families tell exactly the active relations with their types: none lost, merged or invented, whatever families they join. |
| `GedcomUnions.BuildFamilies` | `internal/features/exports/gedcom/gedcom.go:78-82` | All of it together: person links mirror family lists, no child is listed twice or with itself as partner, and unions and relations are both represented exactly. |
| `GedcomFamilies.ChildKeepsInv` | `internal/features/exports/gedcom/gedcom.go:312-318` | Adding a child to a family keeps every link and list in agreement. |
| `GedcomRecords.FamilyNamesDiffer` | `internal/features/exports/gedcom/gedcom.go:264-267` | Names of family records are the same only for the same family: pair numbers, unions and relation digests cannot be confused. |
| `GedcomRecords.PedigreeReadsBack` | `internal/features/exports/gedcom/gedcom.go:726-741` | The pedigree table is inverted by a reader for exactly the six known relation types; any other type reads as unknown. |
| `GedcomRecords.IndividualReads` | `internal/features/exports/gedcom/gedcom.go:408-468` | Reading the lines of a person's record yields exactly the person's spouse and child links with their pedigrees. |
| `GedcomRecords.FamilyReads` | `internal/features/exports/gedcom/gedcom.go:497-525` | Reading the lines of a family's record yields exactly its partners and children. |
| `GedcomRecords.NamingsExist` | `internal/features/exports/gedcom/gedcom.go:676-683` | The assumption on printed identifiers and digests can be met. |
| `GedcomMeaning.TellsIsConcluded` | `internal/features/exports/gedcom/gedcom.go:289-321` | Every relation that the families tell is concluded by a reader of the records. |
| `GedcomMeaning.ConcludedIsTold` | `internal/features/exports/gedcom/gedcom.go:289-321` | Nothing else is concluded. |
| `GedcomMeaning.PointersMirror` | `internal/features/exports/gedcom/gedcom.go:408-468` | In the written records, HUSB and WIFE pointers match FAMS pointers and CHIL pointers match FAMC pointers, one for one. |
| `GedcomWriting.WriteIndividual` | `internal/features/exports/gedcom/gedcom.go:408-468` | Writes exactly the lines of the person's record, with each family once, in the order of their names. |
| `GedcomWriting.WriteFamily` | `internal/features/exports/gedcom/gedcom.go:497-525` | Writes exactly the lines of the family's record, children in ascending order. |
| `GedcomWriting.SortFamilies` | `internal/features/exports/gedcom/gedcom.go:110` | The families are put into the one order of their names, and say the same in it. |
| `GedcomWriting.LinksAre` | `internal/features/exports/gedcom/gedcom.go:228-321` | The families determine the links of every person. |
| `GedcomExport.Render` | `internal/features/exports/gedcom/gedcom.go:78-119` | The text is that of the snapshot alone, whatever order the maps were walked in. From the text alone a reader recovers the active parent-child relations with their types, the members of the active unions, and every pointer from both of its ends. |
| `GedcomExport.RelationsDetermineText` | `internal/features/exports/gedcom/gedcom.go:67-119` | The same relations make the same text, in whatever order and however often they are listed. |
| `GedcomExport.TextDeterminesRelations` | `internal/features/exports/gedcom/gedcom.go:68-119` | Two snapshots exported to the same text have the same relations, up to types outside the known six, which are written as unknown. |
| `GedcomExport.TextDeterminesKnownRelations` | `internal/features/exports/gedcom/gedcom.go:68-119` | With the six known types only, the text determines every relation and its type. |
| `GedcomLines.CleanTextFixes` | `internal/features/exports/gedcom/gedcom.go:793-806` | Cleaned text holds no carriage return and no control character but line feeds and tabs; cleaning leaves exactly such text alone, so it is idempotent. |
| `GedcomLines.CleanInlineIsClean` | `internal/features/exports/gedcom/gedcom.go:808-817` | Inline text is clean, on one line, with plain blanks only, and has the words of the original in their order. |
| `GedcomLines.EscapedReadsBack` | `internal/features/exports/gedcom/gedcom.go:823-828` | Escaped text reads back as itself and never as a pointer, also when it starts with an at sign. |
| `GedcomLines.RawsReadBack` | `internal/features/exports/gedcom/gedcom.go:762-791` | The framing is unambiguous: the line ends of a printed text are where the printer put them. |
| `GedcomLines.DocumentReadsBack` | `internal/features/exports/gedcom/gedcom.go:762-791` | The reader of section 1.3 of the FamilySearch GEDCOM 7.0 specification returns every printed line: level, name, tag, pointers as pointers and texts as cleaned texts. |
| `GedcomLines.Writer.WriteLine` | `internal/features/exports/gedcom/gedcom.go:762-787` | Appends exactly the printed form of the line, continuation lines included. |
| `GedcomLines.Writer.WritePointer` | `internal/features/exports/gedcom/gedcom.go:789-791` | Appends exactly the printed form of the pointer line. |
| `JobRepository.Repository.EnqueueWith` | `internal/core/jobs/postgres/repository.go:37-92` | A deduplication key never yields a second row: the same request finds the existing job, a different one is a conflict. |
| `JobRepository.Candidate` | `internal/core/jobs/postgres/repository.go:126-137` | Picks the first claimable row that no other transaction has locked, in the order of availability, creation and identifier, and none only if there is none. |
| `JobRepository.Repository.Claim` | `internal/core/jobs/postgres/repository.go:101-166` | Buries every exhausted job and lends out the first claimable one, all on the same snapshot; the caller becomes its latest claimant, with one attempt more than before. |
| `JobRepository.Repository.Heartbeat` | `internal/core/jobs/postgres/repository.go:168-195` | Only the job's latest claimant can extend its lease, and only while the lease lasts; afterwards it still holds the job, and no other job has changed. |
| `JobRepository.Repository.Succeed` | `internal/core/jobs/postgres/repository.go:197-227` | Only the job's latest claimant ends it, before its lease is over; afterwards the job is terminal and nobody holds it at any time. |
| `JobRepository.Repository.Fail` | `internal/core/jobs/postgres/repository.go:229-279` | Only the job's latest claimant reports a failure; the job dies exactly if it has been claimed as often as allowed, and otherwise can be claimed from the given time on. |
| `JobQueue.RetryDelay` | `internal/core/jobs/worker/worker.go:246-258` | The delay doubles with each attempt up to the maximum and never exceeds it on the way. |
| `QueueProtocol.StepKeepsInv` | `internal/core/jobs/postgres/repository.go:101-267` | Every step keeps: lease and lock exactly on running rows, attempts equal to the number of claims, workers never ahead of their jobs, deduplication keys unique. |
| `QueueProtocol.Fencing` | `internal/core/jobs/worker/worker.go:117-188` | Under arbitrary clock readings, whoever passes the row guard is the job's latest claimant, on its latest attempt. |
| `QueueProtocol.LatestClaimIsLast` | `internal/core/jobs/postgres/repository.go:101-166` | The latest claim is the last one in the history of its job. |
| `QueueProtocol.ClaimsAreBounded` | `internal/core/jobs/postgres/repository.go:101-166` | Claims of a job equal its attempts and never exceed its allowance; a dead job has used all of it. |
| `QueueProtocol.TerminalAbsorbs` | `internal/core/jobs/postgres/repository.go:197-279` | Succeeded and dead are final, and no job disappears. |
| `QueueProtocol.StepsAreBounded` | `internal/core/jobs/postgres/repository.go:112-258` | Without new jobs, all claims, acknowledgements, failures and burials together are at most twice the sum of the allowances. |
| `JobWorker.Worker.Process` | `internal/core/jobs/worker/worker.go:117-188` | Whatever is reported about a job was recorded for the very attempt this worker had claimed, whatever everybody else did meanwhile; afterwards the worker is free. If nothing disturbs it and its lease lasts, a success is reported as done, and a failure or a panic of the handler as a retry or the end. |
| `JobWorker.Worker.Heartbeats` | `internal/core/jobs/worker/worker.go:207-244` | Heartbeats leave the worker with its job and stop exactly at the first that fails or finds the lease gone; otherwise the worker held its job at the last of them. |
| `QueueProtocol.HowJobsDie` | `internal/core/jobs/postgres/repository.go:112-125` | A job dies exactly by its worker's timely failure of the last attempt or by burial in somebody's claim. |
| `JobAttempts.StepKeepsInv` | `internal/core/jobs/worker/worker.go:117-205` | Every step of the queue keeps: an attempt belongs to the worker that holds its job, and whoever asks for a retry has attempts left. |
| `JobAttempts.AttendedDeath` | `internal/core/jobs/worker/worker.go:159-181` | A job that does not die unattended dies by the answer of a last attempt that has marked its target or found it settled. |
| `GenerationJobs.StepKeepsInv` | `internal/features/exports/processing/generator.go:60-180` | In the queue and the exports taken together, every statement keeps: an attempt in progress works on its own job's export, and a run that answers with success, after marking, or with an undeleted object leaves a settled export. A handler may panic at any point. |
| `DeadJobs.DeathLeavesOpenIff` | `internal/features/exports/processing/generator.go:66-180` | When a generation job dies, its export is left open exactly when it was open and the death is unattended: a burial, or a last attempt that could not acquire the export, could not mark it, found no handler or panicked. |
| `DeadJobs.DeadJobLeavesExportOpenIff` | `internal/core/jobs/postgres/repository.go:112-125` | Over every run: the export of a dead job is open if and only if the job died unattended and no generator or user ever settled the export. Without such deaths, a dead job does mean a settled export. |
| `DeadJobs.OpenUntilSettled` | `internal/features/exports/processing/generator.go:60-180` | An open export is settled by exactly four events: a generator records its result, gives up on the last attempt and marks it, refuses it and marks it, or a user expires it. |
| `DeadJobWitnesses.DeadJobLeavesExportOpen` | `internal/features/exports/processing/generator.go:66-72` | Five runs of one system, one for each unattended death: the job has used all five attempts and its export stays queued or running. |
| `MediaJobs.StepKeepsInv` | `internal/features/media/processing/processor.go:60-166` | In the queue and the media tables taken together, every statement keeps: a job's asset has been uploaded, an attempt at work has acquired it, and a run that answers with success or after rejecting leaves it settled: ready, rejected, deleted or gone. |
| `DeadMediaJobs.DeathLeavesOpenIff` | `internal/features/media/processing/processor.go:66-166` | When a processing job dies, its asset is left open exactly when it was open and the death is unattended. |
| `DeadMediaJobs.OpenUntilSettled` | `internal/features/media/processing/processor.go:66-166` | An open asset is settled by exactly three events: a processor makes it ready, a processor rejects it, or a user deletes it. |
| `DeadMediaJobs.DeadJobLeavesAssetOpenIff` | `internal/features/media/processing/processor.go:60-166` | Over every run: the asset of a dead job is open if and only if the job died unattended and nobody ever settled the asset. Without such deaths, a dead job does mean a settled asset. |
| `DeadMediaWitnesses.DeadJobLeavesAssetOpen` | `internal/features/media/processing/processor.go:66-84` | Five runs, one for each unattended death: the job has used all five attempts and its asset stays uploaded or under processing. |
| `ExportRows.KeyDeterminesChecksum` | `internal/features/exports/processing/generator.go:182-197` | Results of one export share an object key exactly when their checksums agree. |
| `ExportRows.ExportRepository.MarkCompletedUpdate` | `internal/features/exports/repository/postgres/worker.go:342-369` | Only a running export takes up a result; a recorded result is never replaced, and no other row changes. |
| `ExportRows.ExportRepository.AcquireForGeneration` | `internal/features/exports/repository/postgres/worker.go:15-56` | The generator is told to go on exactly for exports that can still be completed; all others keep their state, and results are left alone. |
| `ExportRows.ExportRepository.MarkFailed` | `internal/features/exports/repository/postgres/worker.go:385-412` | Afterwards nobody can complete the export, whatever the caller is told; a conflict is reported exactly for a completed export, whose result stays. |
| `ExportRows.ExportRepository.ReserveCleanupCandidates` | `internal/features/exports/repository/postgres/worker.go:414-454` | Reserves at most the limit of stale rows that nobody has locked, each once and the oldest first, expires exactly these, and misses none while there is room. |
| `ExportRows.ExportRepository.ExpireAccessible` | `internal/features/exports/repository/postgres/repository.go:194-273` | Afterwards the export is expired, still names its object, and has a deletion job, also when it was expired before. |
| `ExportRows.ExportRepository.CreateAccessible` | `internal/features/exports/repository/postgres/repository.go:29-116` | An export and its generation job appear together; a repeated request finds the export it made, the same request identifier for something else is a conflict, and no other row changes. |
| `ExportProtocol.StepKeepsInv` | `internal/features/exports/processing/generator.go:60-165` | Every statement of generators, users and cleaners keeps: objects lie under the key of their own checksum, a completed row has its object, a running row's uploaded result is in the store, and whoever is about to delete an object knows that its row can never need it. |
| `ExportProtocol.CompletedHasObject` | `internal/features/exports/processing/generator.go:60-165` | In every interleaving of duplicate or stale generators, user expiry, cleanup and deletion, a completed export has its object in the store under the recorded key, with the recorded checksum and size. |
| `ExportProtocol.StatesMoveForward` | `internal/features/exports/repository/postgres/worker.go:342-490` | Export states only move forward and a completed result is never replaced. |
| `ExportWorkers.Runner.Handle` | `internal/features/exports/processing/generator.go:60-180` | When a generation job reports success, its export is settled, whatever everybody else did between its statements. When the last attempt reports an error, the export is settled if the run could record an end; undisturbed, exactly then or if it was settled before. A failed acquisition is reported at once and settles nothing. |
| `ExportWorkers.Runner.Finish` | `internal/features/exports/processing/generator.go:143-164` | After an upload the result is recorded, found recorded already, or taken back; success means that the export is settled. |
| `ExportWorkers.Cleanup.Handle` | `internal/features/exports/processing/cleanup.go:36-58` | Succeeds exactly if every deletion and every clearing works; then every reserved result is deleted and forgotten. Other objects and rows stay as they are in any case. |
| `ExportWorkers.Cleanup.DeleteCandidate` | `internal/features/exports/processing/cleanup.go:80-87` | The row forgets its result only after the object is gone, whichever call fails. |
| `ExportWorkers.Cleanup.HandleDeletion` | `internal/features/exports/processing/cleanup.go:64-78` | An export that is not expired is left alone; an expired one loses its object and its result exactly if all calls work. |
| `ChecksumList.ParseChecksums` | `internal/features/exports/restore/archive.go:418-433` | Accepts exactly the lists whose text lines are printed forms of good sums and names, no name twice, and returns these sums by name. |
| `ChecksumList.ListReadsBack` | `internal/features/exports/processing/archive.go:57-76` | The restorer reads from a printed list exactly the sums that were printed. |
| `BackupFiles.ApplyArchivePaths` | `internal/features/exports/processing/archive.go:87-110` | Fails exactly on duplicate paths; otherwise every asset and variant gets the path of its source, or none. |
| `BackupFiles.PathsDiffer` | `internal/features/exports/repository/postgres/worker.go:276-322` | Canonical paths of different originals and variants differ. |
| `BackupFiles.ExpectedExactly` | `internal/features/exports/restore/archive.go:355-416` | The restorer accepts a manifest's references exactly when they are canonical, unique and complete for live media, and then expects exactly the files they name. |
| `BackupSources.RefsAreSources` | `internal/features/exports/processing/archive.go:87-110` | The references of an exported manifest are exactly the sources of its snapshot, whatever order the files were in. |
| `BackupSources.SourcePathsDistinct` | `internal/features/exports/repository/postgres/worker.go:250-330` | A loaded snapshot never has two sources with one path. |
| `BackupArchive.BuildZIP` | `internal/features/exports/processing/archive.go:19-85` | Builds exactly when paths are distinct, sources intact, and sizes within the limit; the archive then holds the manifest, every file and the list of their checksums. Each refusal has its cause. |
| `BackupArchive.OrderUnique` | `internal/features/exports/processing/archive.go:26-29` | Files with different paths have one order by path, whatever order they come in, so the archive does not depend on it. |
| `BackupArchive.ParseZIP` | `internal/features/exports/restore/archive.go:33-130` | The loops over entries, sums and files compute the specification of accepted archives, for every body and limit. |
| `BackupAcceptance.ParsedExactly` | `internal/features/exports/restore/archive.go:33-130` | For every body: it is accepted, and as this document, if and only if sizes and entry count are within bounds, entry names safe and distinct, the checksum list complete and right, and the manifest is this document, is acceptable and refers to exactly the other entries. |
| `BackupAcceptance.ParsedFiles` | `internal/features/exports/restore/archive.go:107-128` | What an accepted body yields are all its entries but the manifest and the checksum list, unchanged. |
| `BackupAcceptance.OpensExactly` | `internal/features/exports/restore/archive.go:45-73` | Any list of entries opens exactly when its names are safe and distinct and its uncompressed total is within the limit. |
| `BackupArchive.ParsedIsValid` | `internal/features/exports/restore/archive.go:132-155` | The second validation of a parsed archive never refuses. |
| `BackupRoundTrip.OpensWithinLimit` | `internal/features/exports/restore/archive.go:45-73` | An archive with safe, distinct names opens exactly when its uncompressed total is within the limit. |
| `BackupRoundTrip.RoundTrip` | `internal/features/exports/restore/archive.go:33-130` | A built archive is accepted under a limit exactly when its bytes, its uncompressed total with the checksum list and its entry count are within bounds and the manifest passes the checks; then manifest and file bytes come back unchanged. |
| `BackupRoundTrip.SameLimitCanRefuse` | `internal/features/exports/processing/archive.go:37-50` | The same limit on both sides is not enough: the builder does not count the checksum list, and an archive it builds can be refused as too large. |
| `BackupWitness.RefusalHappens` | `internal/features/exports/processing/archive.go:37-50` | Such an archive exists: a packer, an encoding and a tree that meet all assumptions, built and refused under one limit. |
| `BackupWitness.RoundTripHappens` | `internal/features/exports/restore/archive.go:33-130` | The assumptions of the round trip can be met: a family of two with a photo and its thumbnail is built, accepted and returned with both files. |
| `RestoreSaga.Restorer.Restore` | `internal/features/exports/restore/postgres.go:45-95` | The outcome of every run is the specified one: validation, tree row, uploads, rows, commit, check and compensation in this order. |
| `RestoreSaga.Restorer.RestoreObjects` | `internal/features/exports/restore/postgres.go:102-142` | Objects are stored one after the other, only where there is none, until the first failure. |
| `RestoreSaga.Restorer.CleanupObjects` | `internal/features/exports/restore/postgres.go:163-173` | The uploaded objects are deleted latest first, also after a failed deletion. |
| `RestoreSaga.NothingForeignIsTouched` | `internal/features/exports/restore/postgres.go:45-173` | No run overwrites or deletes an object or tree that was there before, whatever goes wrong. |
| `RestoreSaga.AtomicExactly` | `internal/features/exports/restore/postgres.go:45-194` | A restore is all-or-nothing exactly when what goes wrong is recoverable: no lost upload answer or failed deletion in a run that is undone, and no lost commit answer whose check cannot be made. |
| `RestoreSaga.AtomicWithoutLostAnswers` | `internal/features/exports/restore/postgres.go:45-194` | Provided deletions and the check after the commit work and no upload answer is lost, every run either commits with every file stored or leaves database and object store as they were. |
| `RestoreSaga.LostCommitLosesFiles` | `internal/features/exports/restore/postgres.go:82-90` | If the commit took effect but its answer and the check fail, the committed tree loses all its files. |
| `PrimaryMedia.StepKeepsInv` | `internal/features/media/repository/postgres/repository.go:193-562` | Every statement keeps: primary media are attached and ready, attached photos are ready or at an end, and row locks keep what each open transaction has seen true until it commits. |
| `PrimaryMedia.StepKeepsOrder` | `internal/features/media/repository/postgres/repository.go:193-562` | In a tree that has grown here, every statement also keeps: attached assets are ready or deleted, and deleted assets are marked so. |
| `PrimaryMedia.PrimaryIsAttachedAndReady` | `internal/features/media/repository/postgres/repository.go:497-562` | In every interleaving of media and attachment transactions, a primary medium is attached to its person, ready and not deleted. |
| `PrimaryMedia.StatusMovesForward` | `internal/features/media/repository/postgres/worker.go:14-211` | Asset status only moves forward: pending, uploaded, processing, then ready or rejected, or deleted. |
| `PrimaryMedia.ProcessingIsUnattached` | `internal/features/media/repository/postgres/worker.go:176-203` | An asset under processing is attached to nobody, so a rejection finds neither pointer nor attachment to clear. |
| `MediaRepository.Repository.SetPrimaryPersonMediaEditable` | `internal/features/media/repository/postgres/repository.go:497-562` | Each refusal has its exact cause, a missing attachment or a stale version; on success the person's primary medium is this one, which is attached. |
| `MediaRepository.Repository.AttachToPersonEditable` | `internal/features/media/repository/postgres/repository.go:373-435` | Attaches exactly when the asset is ready, the person active and the pair not yet attached. |
| `MediaRepository.Repository.DetachFromPersonEditable` | `internal/features/media/repository/postgres/repository.go:437-495` | Detaches exactly an existing attachment of an active person, and leaves no pointer to it. |
| `MediaRepository.Repository.SoftDeleteEditable` | `internal/features/media/repository/postgres/repository.go:293-371` | Deletes exactly an asset that is not deleted and whose version the caller knows, and nobody points to it afterwards. |
| `MediaRepository.Repository.AcquireForProcessing` | `internal/features/media/repository/postgres/worker.go:14-64` | Moves exactly an uploaded asset on, and tells the worker how the asset stands. |
| `MediaRepository.Repository.MarkProcessingReady` | `internal/features/media/repository/postgres/worker.go:66-149` | Succeeds exactly for an asset under processing or one that is ready already, which is ready afterwards. |
| `MediaRepository.Repository.RejectProcessing` | `internal/features/media/repository/postgres/worker.go:151-211` | Succeeds exactly for an asset under processing or one that is rejected or deleted already; a rejection leaves neither pointer nor attachment. |
| `MediaRestore.CheckMedia` | `internal/features/exports/restore/archive.go:293-347` | Accepts exactly the manifests whose media and attachments are unique and refer to known rows, and whose primary media are known. |
| `MediaRestore.RestoreRows` | `internal/features/exports/restore/postgres.go:335-447` | The restored rows are those of the manifest, with pending uploads rejected and unfinished processing started over: exactly the assets that wait for it get a job. |
| `MediaRestore.RestoredPrimariesHoldIff` | `internal/features/exports/restore/postgres.go:335-447` | After a restore, primary media are attached and ready in every interleaving of later transactions if and only if in the manifest every primary medium is attached and ready and no attached photo has yet to be processed. |
| `MediaRestore.BackupsAreSafe` | `internal/features/exports/restore/postgres.go:335-447` | Every backup of a tree that has grown here passes the checks, meets that condition, and restores to a tree of which the same holds. |
| `MediaRestore.ChecksAdmitUnsafe` | `internal/features/exports/restore/archive.go:339-345` | The checks alone do not ask for it: a manifest whose primary medium has yet to be processed passes them. |
| `RateLimit.MemoryStore.Increment` | `internal/features/auth/ratelimit/memory.go:32-62` | Counts in a live window, opens a window otherwise, and refuses a new key only when eviction of expired counters leaves no room. |
| `RateLimit.MemoryStore.Evict` | `internal/features/auth/ratelimit/memory.go:49-57` | Eviction removes exactly the expired counters. |
| `RateLimit.Allow` | `internal/features/auth/ratelimit/limiter.go:47-83` | Allows exactly the counted requests within the limit; a denial always names a positive time to wait. |
| `RateLimit.ValidScope` | `internal/features/auth/ratelimit/limiter.go:92-105` | Valid exactly for non-empty scopes of the permitted characters. |
| `RateLimit.TableStaysBounded` | `internal/features/auth/ratelimit/memory.go:47-58` | The table never outgrows its capacity, whatever keys arrive. |
| `RateLimit.LiveCountersSurvive` | `internal/features/auth/ratelimit/memory.go:38-57` | A request never makes a live counter of another key disappear or change. |
| `RateLimit.AtMostTheLimitPerWindow` | `internal/features/auth/ratelimit/memory.go:32-62` | No counter window allows more than the limit. |
| `RateLimit.AtMostTwiceTheLimit` | `internal/features/auth/ratelimit/memory.go:32-62` | With a clock that does not run backwards and one rule per key, no interval as long as the window sees more than twice the limit, also across evictions. |
| `RateLimit.RetryIsExact` | `internal/features/auth/ratelimit/limiter.go:74-82` | A denial names the exact time to come back, whatever other keys do in between: denied before, and from then on allowed exactly if the key's expired counter is still there or live counters leave room. |
| `RateLimit.ReturnCanFindNoRoom` | `internal/features/auth/ratelimit/memory.go:49-57` | That exception happens: another key takes the place of an expired counter in a full table, and the return is refused for want of capacity. |

## Left out

- Transport, authentication, authorization joins, audit rows, configuration, logging and metrics: plumbing around the modelled steps.
- Names, dates, notes, confidence and status of GEDCOM records: carried as lines that state no family link (`GedcomRecords.Details`); their texts are covered by the line printer's round trip.
- GEDCOM multimedia records: carried as further records (`GedcomWriting.OtherRecords`).
- GedcomRelations.RelationGroups: confidence and notes of relations are not grouped; their lines are a parameter of the record.
- Invalid UTF-8 in texts: strings are sequences of characters, so the replacement of malformed bytes is not modelled.
- ManifestRelations.ValidateManifestRelations: covers the checks of persons and parent-child relations; those of media, attachments and primary pointers are `MediaRestore.CheckMedia`, and together with those of tree metadata, members, names and unions they are one parameter of the archive parser (`BackupArchive.Env`).
- BackupArchive.BuildZIP: entry timestamps and compression methods are not modelled.
- The GEDZIP variant of the archive: its checks repeat those of the backup.
- RestoreSaga.Restorer.Restore: the rows of a restored tree are written or not written as a whole; the restored media rows and their jobs are those of `MediaRestore.RestoreRows`. That an enqueued job of a restored asset can be an earlier one with the same key is not modelled.
- ScenePicture.BuildScene: display names are integer sort keys and texts, colours, fonts and rounded corners are not drawn; coordinates are exact where the source uses floating point.
- Dashed lines: their segments are computed in floating point.
- JobRepository.Repository.EnqueueWith: request validation is reduced to identifier, kind, key length and attempt range; the payload stands for its canonical JSON form.
- JobWorker.Worker.Process: the handler's statements, which do not touch the queue, are no part of the method; between heartbeats they are events of `GenerationJobs` and `MediaJobs`. The endless claim loop, polling and shutdown are not modelled. Worker identifiers are unique.
- The queue protocol's claim trims worker identifiers in the source and its acknowledgements do not; identifiers are modelled as trimmed.
- ExportWorkers.Runner.Handle: loading the snapshot and rendering are one parameter; no claim is made about objects that a stopped generator leaves behind.
- GenerationJobs.StepKeepsInv: jobs of other kinds end in any way.
- MediaJobs.StepKeepsInv: downloading, inspecting and storing files are one choice between going on, an error and unusable content; assets and jobs of restored trees do not occur in the runs.
- ExportRows.ExportRepository.MarkFailed: one step, where the source updates the row and then reads its status; a row that expires in between changes only what the caller is told.
- MediaRepository.Repository.SetPrimaryPersonMediaEditable: a row's version is a parameter that tells whether the caller knows it.
- PrimaryMedia.StepKeepsInv: metadata updates, variants and clean-up deadlines are left out; a row lock that is not granted makes the statement wait, and any transaction may roll back.
- RateLimit.Allow: the keyed digest of the subject and its emptiness are parameters; a shared store outside the process is not modelled.
- Ancestry.RelationRepository.CreateAcyclicEditable: authorization, versions of the relation's descriptive columns and audit rows are not modelled.
