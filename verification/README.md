# Net Toolbox: verified models of its engines

Net Toolbox keeps network documentation, an IPAM, a device and cabling inventory, rack plans and DHCP
configurations in SQLite. Behind the request handlers sit several small engines: a publication journal
that writes page trees to Confluence, an address-space engine, a move of subnets between tenants, the
reconciliation of device ports and cables, a rack planner, a parser for VLAN lists, and two stores of
drafts and versions. This project models them in Dafny and proves what they keep over every run.

Tables are finite maps, a transaction is one step, and a refused transaction leaves every table as it
was. Some functions of `server/db.py` check before their first write opens a transaction (`add_dhcp_pool`,
`add_address`, the moves, the planning of an import); check and write are taken as one step there too. Code that updates rows or variables step by step is modelled by classes and loops
(`JournalStore`, `AddressSpace`, `TenantPair`, `PortInventory`, `DataCenter`, `DocumentRow`,
`DhcpConfiguration`, and the loops of `AllocationSearch`, `Vlans`, `Render`, `Hierarchy`). Each of these
methods is proved to end in exactly the state that a specification function describes and to keep the
invariant of its tables, and the theorems are about those functions and about runs of them.

`dafny verify dfyconfig.toml` checks the whole project.

## How the modules belong together

- **Publication.** `PublicationJournal` holds the job and step rows and their transactions.
  `PublicationSystem` adds workers that stall or crash between any two actions, a remote that may apply
  a write long after its sender gave up on it, outside editors, operators and a clock; a run is any
  sequence of events. `PublicationLease` (order, parents, leases, finality), `PublicationOnce` (send
  marks), `PublicationSends` (what takes effect), `PublicationEffects` (page versions),
  `PublicationRevival` (abandoned jobs), `PublicationDecisions`/`PublicationFidelity` (the operator's decisions and
  the contents of writes) and `PublicationTransactions` (acceptance and effect of each transaction) prove
  properties of all runs; `PublicationProgress` says what an undisturbed worker answers. `Render` shows that the
  page tree is created parent first, with distinct keys.
- **Address space.** `Cidr` is the arithmetic of blocks (section 3.1 of RFC 4632), `Hierarchy` parent_id,
  `Ipam`/`IpamEdits` the tables and operations, `Relocation` the automatic rehoming of DHCP pools,
  `IpamImport` and `IpamRestore`/`IpamUndo` bulk import and archives, `IpamRun` runs of transactions,
  `Allocation`/`AllocationSearch` the searches for free blocks and the freshness token, `IpamStore` the
  class that changes the tables in place. `IpamEffects` and `ImportEffects` say when each transaction is accepted
  and what it leaves, row by row.
- **Tenant transfer.** `Transfer`, `TransferProof`, `TransferStore`, and `TransferEffects` for what is moved and what stays.
- **Devices.** `DevicePorts`, `PortReconciliation`, `DeviceUpdates` (groups, ports, previews),
  `DeviceEffects` (the device that a request leads to), `Cabling`, `CablingProof` (cables and assignments),
  `NetworkRun`, `NetworkVersions` (what a device version guarantees), `NetworkStore`, and
  `Racks`, `RackEffects`, `RackStore` for placement.
- **Lists and versions.** `Text`, `VlanRanges`, `Vlans`, `VlansProof`; `Documents`, `DocumentEffects`,
  `DocumentStore`; `DhcpDrafts`, `DhcpEffects`, `DhcpStore`.

## What the code does not keep

Some expectations turned out false of the code; the model keeps the code as it is.

- *An abandoned publication is final* — it is final exactly when no live worker owns its lease, over all
  runs (`AbandonedFinalIff`). `control` leaves the lease owner in place, so the worker that holds an expired
  lease can still report, unless another active job has taken the destination. `AbandonedIsNotFinal` is a run,
  for every plan, that abandons a job and makes it active again.
- *A deleted subnet can always be restored* — it can when every row of it passes the checks that restore
  applies (`RestoreAcceptsIff`). Operations that check less can break that: `ResizeCanMakeArchiveRefused`
  resizes a block so that a recorded address becomes the network address.
- *Allocation finds the next available address* — the search offers a host recorded as free, and the
  insertion then refuses it as a duplicate, however many hosts above it are available
  (`AllocatesLowestHost`, with an example in `FreeHostBlocksAllocation`).
- *A free block can be found inside any block* — search and plan find something exactly when there is room
  and no stored block strictly contains the parent (`FindsIffNoSupernet`). `EmptyBlockOffersNothing` is a
  stored /8 with an empty /16 in which no /24 is found.

## Model

| member | source | states |
|---|---|---|
| PublicationJournal.FirstOpen | server/documentation/confluence_publish.py:86-87 | what the ordered query selects: the first step that is not done, and none exactly when all are |
| PublicationJournal.InitialStepsFit | server/documentation/confluence_publish.py:60-64 | start writes pending, unsent steps, pages first and in plan order, each matching the plan, the audience step last |
| PublicationTransactions.EveryPartHasOneStep | server/documentation/confluence_publish.py:60-64 | every page, attachment and check of the plan has exactly one step, in the order pages, attachments, checks, audience |
| PublicationJournal.FinishConsistent | server/documentation/confluence_publish.py:241-267 | a result for the step that was claimed keeps done steps in order, completed exactly when all are done, active exactly when neither completed nor abandoned, and the lease owner on the first open step |
| PublicationJournal.JournalStore.Claim | server/documentation/confluence_publish.py:75-93 | keeps the journal consistent; the refusals; an accepted claim takes lease, revision and the first open step, marked for recovery exactly when its write may have happened, and there always is an open step to hand out |
| PublicationJournal.JournalStore.Finish | server/documentation/confluence_publish.py:241-267 | keeps the journal consistent; only the lease owner finishes a step, even after expiry, unless that would make a second job of the destination active; the job status follows from the steps that remain |
| PublicationJournal.JournalStore.Control | server/documentation/confluence_jobs.py:76-87 | keeps the journal consistent; pausing and abandoning with their refusals; the lease owner stays in place |
| PublicationJournal.JournalStore.Revalidate | server/documentation/confluence_publish.py:310-317 | keeps the journal consistent; applies only to the revision that was read, and resets exactly the steps stopped by a profile change |
| PublicationJournal.JournalStore.Unresolved | server/documentation/confluence_publish.py:320-326 | an operator is shown the first step whose write may or may not have happened |
| PublicationTransactions.ClaimAcceptedIff | server/documentation/confluence_publish.py:75-93 | exactly when a claim is accepted, which step it hands out and when that is to be recovered; it takes the lease for 180 seconds and one revision, and changes no step |
| PublicationTransactions.SentEffect | server/documentation/confluence_publish.py:96-100 | a send is marked only by the owner of an unexpired lease; the mark changes its own step alone and keeps the result known so far |
| PublicationTransactions.StashEffect | server/documentation/confluence_publish.py:103-107 | a known id is stored only by the lease owner, and only in its own step |
| PublicationTransactions.FinishEffect | server/documentation/confluence_publish.py:241-267 | exactly when a report is accepted; the step takes the reported status and result, the lease is handed back, and the job is completed exactly when this was the last open step |
| PublicationTransactions.ControlEffect | server/documentation/confluence_jobs.py:76-87 | exactly when pausing and abandoning are accepted; abandoning is refused while a sent write is unresolved; no step changes |
| PublicationTransactions.RevalidateEffect | server/documentation/confluence_publish.py:310-317 | exactly the steps that a changed connection stopped are open and unsent again, and only at the revision and profile that were reviewed |
| PublicationTransactions.ResolveEffect | server/documentation/confluence_publish.py:346-354 | a resolved step either takes the named page, still uncertain, or is open and unsent again; no other step changes |
| PublicationTransactions.ResolveNeedsEvidence | server/documentation/confluence_publish.py:328-345 | an operator can name only a visible page with both markers (the mapped one, if there is one), and can confirm that nothing was applied only for a create or upload of which nothing is visible |
| PublicationTransactions.RevisionsGrow | server/documentation/confluence_publish.py:75-354 | in every run each change of the job raises its revision, so an unchanged revision means an unchanged job |
| PublicationTransactions.LeaseExcludesOthers | server/documentation/confluence_publish.py:82-91 | in every run, until a lease runs out or its owner reports, the job stays as the claim left it and no claim, pause, abandonment or review of anybody else is accepted |
| PublicationLease.NextKeeps | server/documentation/confluence_publish.py:75-354 | every event, by whichever worker or operator and however events interleave, keeps order, leases and hosts consistent |
| PublicationLease.ReachableProgress | server/documentation/confluence_publish.py:75-93 | in every reachable journal the done steps form a prefix, and the job has succeeded exactly when all steps are done |
| PublicationLease.ReachableParents | server/documentation/confluence_publish.py:110-114 | in every run no worker finds the parent page, or the host of its attachment or check, unconfirmed |
| PublicationLease.CompletedIsFinal | server/documentation/confluence_jobs.py:76-87 | no event of any run changes the journal of a succeeded publication |
| PublicationLease.LostLeaseIsPowerless | server/documentation/confluence_publish.py:96-107 | a worker whose lease was taken over never gets it back: whatever happens in between, it changes no journal row and marks no further send; a write marked before may still reach the remote |
| PublicationRevival.AbandonedFinalIff | server/documentation/confluence_publish.py:241-267 | in every reachable state an abandoned job is final exactly when no live worker owns its lease: then no continuation changes its journal, and otherwise some continuation makes it active or completed again |
| PublicationRevival.AbandonedIsNotFinal | server/documentation/confluence_jobs.py:83-85 | for every plan, a run of five transactions that abandons the job and then makes it active again |
| PublicationOnce.SendMarksAreSeparated | server/documentation/confluence_publish.py:75-183 | in every run two send marks of one create or upload are separated by a definite rejection, a recorded conflict, or an operator's confirmation that the write was not applied |
| PublicationSends.BlindWritesTakeEffectOnce | server/documentation/confluence_publish.py:135-219 | no create and no upload takes effect twice, however late the remote applies a write, provided that a create or upload repeated after a conflict or a confirmation finds that record true; updates and repeats after a definite rejection are unrestricted |
| PublicationEffects.AcceptedUpdateReplacesReviewed | server/documentation/confluence_publish.py:144-164 | in every run an update that the remote accepts replaces exactly the version and the content that the preview captured |
| PublicationEffects.UpdateAcceptedOnce | server/documentation/confluence_publish.py:144-150 | a page step has at most one accepted update, even when recovery repeats it |
| PublicationEffects.SuccessIsOwnWrite | server/documentation/confluence_publish.py:135-183 | a page or upload recorded as succeeded had its own write applied; for an update, the version after the reviewed one was written by this very step |
| PublicationEffects.WritesFollowReview | server/documentation/confluence_publish.py:117-169 | in every run each version that the job wrote directly follows the reviewed version, or is the first of a page it created |
| PublicationEffects.OutsideEditStopsUpdate | server/documentation/confluence_publish.py:117-127 | once somebody else wrote the version after the reviewed one, the step that reviewed the page has not written and never will, in any continuation |
| PublicationFidelity.KeptIsNeverWritten | server/documentation/confluence_publish.py:154-186 | in every run nothing is sent for a page the operator keeps or for its attachments, nor for an unchanged mapped page that is not to be replaced, nor for an attachment that exists already |
| PublicationFidelity.PageEndsAsDecided | server/documentation/confluence_publish.py:154-163 | in every run a finished page step is kept exactly for a page the operator keeps, and skipped exactly when the page is mapped, unchanged, not kept and not to be replaced; both times with the reviewed id, version, digest and title |
| PublicationFidelity.PartsEndAsDecided | server/documentation/confluence_publish.py:186-238 | in every run attachments and checks end kept exactly for kept pages; an existing attachment is skipped as reviewed, and only a new one succeeds, as a first version |
| PublicationFidelity.SentAsPlanned | server/documentation/confluence_publish.py:138-174 | in every run each write carries the planned title, text, markers and bytes, and goes to the mapped page, below the confirmed parent, or to the confirmed host |
| PublicationFidelity.ConfirmedPageStands | server/documentation/confluence_publish.py:117-132 | in every run a finished page step names a version that the remote stored, with the recorded digest and title, below the confirmed parent; a written one carries the planned title and the marker of this step in the version that its write makes |
| PublicationFidelity.SendsOnlyWhenClear | server/documentation/confluence_publish.py:161-172 | a write is prepared only when no other visible page has the title, or no file of the host has the name |
| PublicationFidelity.AttachmentWasSeen | server/documentation/confluence_publish.py:214-219 | an attachment ends uploaded or skipped only while the remote holds it with the planned bytes, a new one also with the comment of this step |
| PublicationFidelity.UploadIdIsStored | server/documentation/confluence_publish.py:210-219 | the id of an uploaded file is stored before its version, comment and bytes are judged, so that an ambiguous upload can be recovered |
| PublicationFidelity.HostIsUnchanged | server/documentation/confluence_publish.py:187-191 | attachments and checks go on only while the confirmed page has its confirmed version, content, title and parent |
| PublicationFidelity.CheckSeesAttachments | server/documentation/confluence_publish.py:231-238 | a check succeeds only while every uploaded or skipped attachment of the page is at its host with the id and version that its step confirmed |
| PublicationFidelity.ChangedSettingsStop | server/documentation/confluence_publish.py:275-287 | a changed connection or audience stops a step with its own error and without a success |
| PublicationDecisions.RecoverAdopts | server/documentation/confluence_publish.py:138-153 | recovery adopts a page only by both markers, and never another page in place of the mapped one |
| PublicationProgress.ReviewedPageGoesOn | server/documentation/confluence_publish.py:154-169 | a mapped page that is still as reviewed is kept, skipped or updated, as decided, with the exact result or write |
| PublicationProgress.NewPageGoesOn | server/documentation/confluence_publish.py:170-176 | a new page whose title is free is created below its confirmed parent |
| PublicationProgress.WrittenPageEnds | server/documentation/confluence_publish.py:177-183 | a page whose write was applied and is found with its marker succeeds with the version that the write makes |
| PublicationProgress.AnswersAreTakenAsGiven | server/documentation/confluence_publish.py:284-288 | a lost answer or one without an id leaves the result uncertain; a definite rejection is a conflict or a failure, as reported, with its retry time |
| PublicationProgress.RecoveryOfUpdate | server/documentation/confluence_publish.py:138-153 | an interrupted update is adopted when the page carries both markers, repeated exactly when the page is still as reviewed, and a conflict otherwise |
| PublicationProgress.RecoveryOfCreate | server/documentation/confluence_publish.py:138-153 | an interrupted create is adopted exactly when one page of the title alone carries both markers, and stays uncertain otherwise |
| PublicationProgress.AttachmentGoesOn | server/documentation/confluence_publish.py:186-207 | attachments of kept pages are kept, new ones are uploaded when the name is free, existing ones compared, all others are conflicts |
| PublicationProgress.CheckEnds | server/documentation/confluence_publish.py:222-238 | a page that is still as confirmed passes its check, kept exactly if the page was |
| Render.RenderTable | server/documentation/confluence_render.py:94-103 | a large table becomes one child page per started block of 100 rows, in order, below its chapter; it fails exactly when a title is too long |
| Render.RenderChapters | server/documentation/confluence_render.py:59-74 | the root and one page per chapter; fails exactly when a title is too long |
| Render.RenderPages | server/documentation/confluence_render.py:57-119 | rendering succeeds exactly when there are chapters, titles fit, the tree has at most 200 pages and every page parses; every page then comes after its parent and every block of a table sits below its chapter |
| Render.RenderedPlan | server/documentation/confluence_render.py:62-66 | rendered pages satisfy what the publication relies on |
| Render.PageKeysDistinct | server/documentation/confluence_render.py:71-103 | with distinct chapter and table ids no two pages of a tree have the same key, so a journal step finds its page by key |
| Cidr.OverlapNests | server/db.py:868-876 | a block that overlaps a block of at least its size lies inside it |
| Cidr.Laminar | server/db.py:868-876 | CIDR blocks are nested or disjoint |
| Cidr.AlignedIff | server/db.py:4275-4275 | clear low bits mean a multiple of the block size |
| Cidr.AlignedBelow | server/db.py:4275-4275 | taking off the low bits, which a mask selects, gives a multiple of the block size |
| Cidr.AlignedToSmaller | server/db.py:4259-4278 | base and end of a block are multiples of every smaller block size |
| Hierarchy.FindSmallest | server/db.py:961-979 | the scan finds the smallest block among the candidates, whatever the row order |
| Hierarchy.Recompute | server/db.py:932-958 | the nested loops give every subnet its smallest strict supernet, or none |
| Hierarchy.ParentsUnique | server/db.py:932-958 | parent_id is a function of the stored blocks |
| Hierarchy.ChainIsSupernets | server/db.py:932-958 | following parent_id visits exactly the stored strict supernets, each once, in increasing size |
| Hierarchy.DescendantsFit | server/db.py:1805-1853 | when the direct children fit a new block, every descendant does |
| Hierarchy.ResizeKeepsDescendants | server/db.py:1805-1853 | after such a resize every descendant still has the block among its ancestors |
| Relocation.RelocateAllKeeps | server/db.py:982-1024 | relocation keeps pools inside their subnets, disjoint and free of recorded addresses |
| Relocation.RelocateAllMoves | server/db.py:982-1024 | a pass changes nothing but the home of automatic pools, and a pool only moves to the one best subnet for its range |
| Relocation.MovesShrink | server/db.py:982-1024 | a pool that moves, moves into a strictly smaller subnet inside its old one |
| Relocation.IdlePassIffAtRest | server/db.py:982-1024 | a pass changes nothing exactly when every automatic pool is home or its target holds a clashing pool or a recorded address |
| Relocation.PassesComeToRest | server/db.py:982-1024 | with a fixed set of subnets, as many passes as there are misplaced pools reach a state of rest |
| Relocation.HomeIsFinal | server/db.py:982-1024 | a pool at home is never moved again, so no pool moves twice |
| IpamInvariant.AddPoolKeeps | server/db.py:3033-3113 | adding a pool keeps pools inside, disjoint and free of addresses |
| IpamInvariant.UpdatePoolKeeps | server/db.py:3260-3347 | so does changing a range |
| IpamInvariant.PlacedKeeps | server/db.py:3561-3626 | moving a pool by hand, which marks it as placed, keeps pools inside, disjoint and free of addresses |
| IpamInvariant.BulkMoveKeeps | server/db.py:3350-3440 | so does moving pools in bulk, in any row order |
| IpamInvariant.DeletePoolKeeps | server/db.py:3129-3157 | deleting a pool into an archive keeps the tables consistent, and the archived id is never handed out again |
| IpamInvariant.AddAddressKeeps | server/db.py:1913-1988 | recording an address keeps addresses inside their subnet, unique and outside pools |
| IpamInvariant.UpdateAddressKeeps | server/db.py:1991-2120 | changing an address keeps addresses inside their subnet, unique and outside pools |
| IpamInvariant.MoveAddressKeeps | server/db.py:1216-1267 | so does reassigning an address, which deletes and inserts the row |
| IpamInvariant.DeleteAddressKeeps | server/db.py:2165-2209 | deleting an address into an archive keeps tables and foreign keys consistent |
| IpamInvariant.AllocatesLowestHost | server/db.py:1047-1185 | allocation takes the lowest host that is not excluded, reserved, pooled or used; it is exhausted exactly when there is none; a host recorded as free is offered and then refused |
| IpamInvariant.FreeHostBlocksAllocation | server/db.py:1047-1185 | a block whose first host is recorded as free: the second host is available, and the allocation is refused as a duplicate |
| IpamInvariant.UpdateSubnetKeeps | server/db.py:1780-1853 | the guards of a resize are enough for everything recorded in the subnet |
| IpamInvariant.DeleteSubnetKeeps | server/db.py:1876-1910 | deleting a subnet with its archive and cascades leaves consistent tables |
| IpamEffects.AddPoolEffect | server/db.py:3033-3113 | a pool is added exactly where there is room, with the sent range, and one relocation pass follows |
| IpamEffects.UpdatePoolEffect | server/db.py:3260-3347 | a pool takes the sent range exactly where there is room and the record is unchanged; its subnet and marking stay, and so does every other row |
| IpamEffects.MovePoolEffect | server/db.py:3561-3626 | an accepted move puts exactly this pool into the destination, placed by hand, with its range, description and stamp; accepted exactly when there is room |
| IpamEffects.BulkMoveEffect | server/db.py:3350-3440 | in any row order every listed pool ends in the destination, placed by hand, unless there is no room for it among what is there in the end; every other row is unchanged |
| IpamEffects.AddAddressEffect | server/db.py:1913-1988 | exactly which addresses are recorded, and the row that is written |
| IpamEffects.UpdateAddressEffect | server/db.py:1991-2120 | exactly which changes are accepted, a reservation being looked at only when the address changes, and the row that is written |
| IpamEffects.MoveAddressEffect | server/db.py:1216-1267 | exactly which moves are accepted; the row comes back in the destination under a fresh id without its tags |
| IpamEffects.AllocateEffect | server/db.py:1047-1185 | the lowest host that is not used, reserved, excluded or in a pool is recorded with the sent values, exactly when it has no row |
| IpamEffects.DeleteAddressEffect | server/db.py:2165-2209 | the row and its tags go into an archive for 30 days, and nothing else changes |
| IpamEffects.DeletePoolEffect | server/db.py:3129-3157 | the row goes into an archive for 30 days, and nothing else changes |
| IpamEffects.CreateSubnetEffect | server/db.py:1744-1777 | a subnet is created exactly for a new block and a valid VLAN, with the sent values; then parents are recomputed |
| IpamEffects.UpdateSubnetEffect | server/db.py:1780-1853 | a subnet is changed exactly when everything recorded in it and every subnet below it lies in the new block, which no other subnet has |
| IpamEffects.DeleteSubnetEffect | server/db.py:1859-1910 | exactly the rows of the subnet go into the archive; every row of other subnets stays, up to the home of automatic pools |
| IpamRestore.RestoreKeeps | server/db.py:3174-3257 | whatever restore accepts leaves consistent tables |
| IpamEffects.RestoreEffect | server/db.py:3174-3257 | an archive is restored only within its 30 days; its rows come back under their ids with a new stamp and the tags that still exist, beside unchanged rows |
| IpamUndo.RestoreAcceptsIff | server/db.py:3174-3257 | with nothing in between and within the retention, restore accepts exactly when the deleted rows passed its own checks before the deletion |
| IpamUndo.DeleteThenRestore | server/db.py:1859-1910 | delete followed by restore brings back the same rows under the same ids and the same parent of every subnet, up to stamps and the home of automatic pools |
| IpamUndo.ResizeCanMakeArchiveRefused | server/db.py:1805-1853 | a resize the code accepts can make the later archive unrestorable |
| IpamImport.ImportSucceedsIff | server/db.py:1270-1359 | a confirmed import succeeds exactly when planning reported no error and the planned VLANs are valid; no planned row collides with a stored or another planned one |
| ImportEffects.PlanOneIff | server/db.py:1285-1330 | a record is planned without an error exactly when it fits after the records before it, and as one insertion exactly when it is new |
| ImportEffects.ImportAcceptedIff | server/db.py:1270-1336 | a confirmed import is accepted exactly when there are at most 1000 records, each fits after those before it, and the VLANs of new subnets are valid; without a confirmation nothing is written |
| ImportEffects.ImportStoresRecords | server/db.py:1337-1352 | an accepted import stores exactly the new records, each with the sent values in the subnet of its block; no other row appears and none changes, up to parents and relocation |
| IpamImport.ImportKeeps | server/db.py:1270-1359 | an import keeps the tables consistent and stores exactly the planned blocks, addresses and pools |
| IpamImport.ApplyOnlyAdds | server/db.py:1340-1353 | every row stored before an import is there afterwards, unchanged |
| IpamRun.StepKeeps | server/db.py:932-1024 | every transaction keeps pools, addresses, foreign keys and parents consistent |
| IpamRun.ReachableTables | server/db.py:3480-3515 | in every state of every run pools lie inside their subnet and apart, no address of a subnet lies in its pools, and the parent chain visits exactly the strict supernets |
| IpamRun.ResizeKeepsWholeSubtree | server/db.py:1805-1853 | after any accepted resize every descendant is still below the subnet |
| IpamStore.AddressSpace.RelocatePools | server/db.py:982-1024 | the loop over the rows is one relocation pass, each pool seeing the moves before it |
| IpamStore.AddressSpace.RecomputeHierarchy | server/db.py:932-958 | parents are recomputed, then pools relocated |
| IpamStore.AddressSpace.AddDhcpPool | server/db.py:3033-3113 | keeps the tables valid (see StepKeeps); ends in the specified tables after one relocation pass, or refuses and changes nothing |
| IpamStore.AddressSpace.BulkMoveDhcpPools | server/db.py:3350-3440 | keeps the tables valid; every pool that fits moves, the others are skipped, each seeing the moves before it |
| IpamStore.AddressSpace.AllocateNextAddress | server/db.py:1111-1185 | keeps the tables valid; a loop over the hosts finds the address that is recorded, or refused |
| IpamStore.AddressSpace.AddSubnet | server/db.py:1744-1777 | keeps the tables valid; inserts the block and recomputes the hierarchy by the loops |
| IpamStore.AddressSpace.ResizeSubnet | server/db.py:1780-1853 | keeps the tables valid; the guards of a resize, then the hierarchy and pools of the new blocks |
| IpamStore.AddressSpace.CreateAllocatedSubnet | server/db.py:4106-4144 | keeps the tables valid; token and tables are looked at in the transaction that inserts |
| IpamStore.AddressSpace.RemoveSubnet | server/db.py:1876-1910 | keeps the tables valid; archives the subtree rows, cascades, recomputes |
| IpamStore.AddressSpace.RestoreArchive | server/db.py:3174-3257 | keeps the tables valid; inserts first, validates the result, rolls back when a check fails |
| IpamStore.AddressSpace.ImportRecords | server/db.py:1270-1359 | keeps the tables valid; plans every record first and inserts all or nothing |
| Allocation.SearchIsFirstOfPlan | server/db.py:4147-4357 | with addresses inside their subnets and no pool meeting the parent, the gap search finds the first entry of the exhaustive plan |
| Allocation.FreeIffNoSupernet | server/db.py:4172-4187 | a slot that meets no stored block inside the parent and no recorded address (for the plan, no pool either) is free exactly when no stored block strictly contains the parent |
| Allocation.FindsIffNoSupernet | server/db.py:4147-4357 | search and plan find something exactly when there is such a slot and no stored block strictly contains the parent |
| Allocation.EmptyBlockOffersNothing | server/db.py:4172-4187 | a stored /8 with an empty stored /16 in it: neither finds a /24 in the /16 |
| Allocation.SnapshotDeterminesTaken | server/db.py:4010-4047 | the occupied addresses are a function of the snapshot behind the token |
| Allocation.MeetsRangesIff | server/db.py:4050-4073 | cutting the occupied ranges to the parent hides nothing: the child meets a range exactly when one of its addresses is taken |
| Allocation.CreateAllocatedIff | server/db.py:4106-4144 | exactly when an allocation is accepted |
| IpamEffects.AllocateSubnetEffect | server/db.py:4106-4144 | an accepted allocation stores exactly the block with its VLAN, description and tags |
| Allocation.PlanEntryStaysCreatable | server/db.py:4076-4144 | every entry of a plan can be created as long as the token matches, whatever happened in between |
| Allocation.AllocatedUnderParent | server/db.py:4106-4144 | the created subnet overlaps no stored subnet but its parent and gets that parent as parent_id |
| AllocationSearch.Merge | server/db.py:4227-4235 | merged ranges cover the same addresses, with at least one address between neighbours |
| AllocationSearch.AddUncovered | server/db.py:4237-4253 | the blocks stay, and an occupied range is added only when no range listed before contains it |
| AllocationSearch.AlignUp | server/db.py:4274-4277 | rounding up gives the first multiple of the block size from there on |
| AllocationSearch.ScanGaps | server/db.py:4258-4350 | the loop over the gaps finds the lowest aligned block that meets no blocked range, and nothing exactly when none exists |
| AllocationSearch.FindNextContiguous | server/db.py:4147-4357 | the lowest aligned block of the requested size inside the parent that meets no other stored subnet and no recorded address, and none exactly when there is none |
| AllocationSearch.GetAllocationPlan | server/db.py:4076-4103 | the first ten free blocks in order |
| Transfer.DepartureKeeps | server/ipam_transfer/repository.py:111-117 | what is left behind is consistent and its parent_id needs no recomputation |
| TransferProof.MovedParent | server/ipam_transfer/repository.py:76-96 | the renamed parent of a moved subnet is its smallest strict supernet in the destination |
| TransferProof.ArrivalKeeps | server/ipam_transfer/repository.py:59-126 | the destination keeps every invariant, and every parent_id there is still the smallest strict supernet although no recomputation runs |
| TransferEffects.TransferableIff | server/ipam_transfer/repository.py:29-45 | a move is possible exactly when no scan runs on an overlapping subnet, nothing at the destination lies in or over the block, and no tag that moves looks different there |
| TransferEffects.MoveEffect | server/ipam_transfer/repository.py:76-117 | the source keeps exactly the rows outside the block; every subnet, address, pool, reservation, exclude and schedule inside has one copy at the destination, in the copy of its subnet and with its tags, and there nothing else is new or different |
| TransferEffects.VersionShowsRows | server/ipam_transfer/repository.py:46-73 | a move under the version of a preview moves exactly the rows that the preview showed |
| TransferStore.CopySubnets | server/ipam_transfer/repository.py:76-96 | an id-renamed copy of the rows in which every moving parent was copied before its children |
| TransferStore.MatchTags | server/ipam_transfer/repository.py:97-104 | a used tag becomes the destination's tag of that name, inserted when missing |
| TransferStore.TenantPair.TransferSubnet | server/ipam_transfer/repository.py:59-126 | exactly when a move is accepted; it then leaves an isomorphic copy in the destination, removes the subtree from the source and touches nothing else; a preview writes nothing |
| Vlans.ParseList | server/device_visualization/vlans.py:16-25 | the loop over the tokens gives the denoted VLAN set, or the first refusal |
| Vlans.GroupVlans | server/device_visualization/vlans.py:26-29 | the loop that extends the last group gives the runs of the sorted set |
| Vlans.NormalizeTrunk | server/device_visualization/vlans.py:4-30 | the whole normalisation with all its branches |
| VlanRanges.CanonicalUnique | server/device_visualization/vlans.py:26-29 | sorted, non-adjacent ranges are determined by the set they cover |
| VlanRanges.AddWeight | server/device_visualization/vlans.py:26-30 | absorbing ranges never prints longer than the parts |
| VlansProof.GroupsAreAbsorbed | server/device_visualization/vlans.py:26-29 | the grouping loop gives the same list as absorbing the ranges one by one |
| VlansProof.PrintParses | server/device_visualization/vlans.py:17-30 | a printed list parses back to exactly the ranges printed |
| VlansProof.NormalForm | server/device_visualization/vlans.py:4-30 | the stored text denotes the same VLANs, shows maximal ascending non-adjacent ranges, is stored unchanged when entered again, and is never longer than what was entered |
| VlansProof.AcceptedIff | server/device_visualization/vlans.py:5-24 | exactly what is accepted, with the word all kept apart from lists |
| VlansProof.EqualSetsEqualText | server/device_visualization/vlans.py:4-30 | two lists are stored as the same text exactly when they denote the same VLANs |
| PortReconciliation.ApplyAllEffect | server/device_visualization/repository.py:372-386 | what the loop over the proposals does to groups and ports, as one statement |
| PortReconciliation.PreviewIsExact | server/device_visualization/service.py:40-48 | apply_groups deletes exactly the ports of the preview, keeps all data of the others, adds only blank ports, and every group ends with exactly ports 1..count |
| DeviceUpdates.ProposalsFit | server/device_visualization/service.py:3-37 | a valid request never names a group twice, nor one of another device, nor a key already taken |
| DeviceEffects.UpdatedAsRequested | server/device_visualization/repository.py:412-447 | after an accepted update the device has exactly the requested groups: one of each family with its count and speed, one for each card in its physical slot with its name, and the expansion and management groups, each with ports 1..count; no group of another device changes |
| DeviceEffects.CreatedAsRequested | server/device_visualization/repository.py:394-409 | a created device has exactly the requested groups and ports, at version 1 |
| DeviceEffects.CreatedFromRequestAlone | server/device_visualization/service.py:3-16 | a new device has expansion and management groups only as requested, a shelf two expansion ports |
| DeviceEffects.PortStaysIff | server/device_visualization/service.py:40-43 | a port stays exactly when the request asks for its group again, a card by its id, with the same family and at least this many ports |
| DeviceEffects.RemovedCardIff | server/device_visualization/service.py:44-45 | the preview counts exactly the cards that the request does not name by their id |
| DeviceEffects.PreviewCounts | server/device_visualization/service.py:40-48 | the preview shows exactly the ports and counts the cards that the request does not keep, and counts how many of these ports are assigned, labelled, and configured or cabled |
| DeviceEffects.CreateAcceptedIff | server/device_visualization/service.py:19-37 | a device is created from every valid request that names no existing card |
| DeviceEffects.UpdateAcceptedIff | server/device_visualization/repository.py:412-432 | an update is accepted exactly at the current version and kind, with known cards in their slots, and with a confirmation when a port that does not stay holds data |
| DeviceUpdates.ConfirmationIff | server/device_visualization/service.py:40-48 | a confirmation is asked for exactly when some removed port holds data |
| DeviceUpdates.UpdateRemovesPreview | server/device_visualization/repository.py:412-447 | an update removes exactly the previewed ports and the cables that end on them, and nothing else changes in ports or cables |
| DeviceUpdates.UnconfirmedLosesNothing | server/device_visualization/repository.py:425-432 | an unconfirmed update loses no label, destination, address, VLAN, module or cable |
| DeviceUpdates.CreateDeviceKeeps | server/device_visualization/repository.py:394-409 | creating a device keeps groups filled and cables a matching |
| DeviceUpdates.DeleteDeviceKeeps | server/device_visualization/repository.py:484-497 | so does deleting one, with its cascades |
| DeviceUpdates.CreateOnlyAdds | server/device_visualization/repository.py:394-409 | creating a device keeps every port and cable and brings only blank ports of the new device |
| DeviceUpdates.DeleteRemovesOwn | server/device_visualization/repository.py:484-497 | deleting a device removes exactly its ports and the cables that end on them |
| CablingProof.ConnectKeeps | server/dc_inventory/connections.py:93-112 | connecting keeps every port in at most one cable, on different devices, SAS with SAS |
| CablingProof.DisconnectKeeps | server/dc_inventory/connections.py:120-129 | so does disconnecting |
| CablingProof.WritePortKeeps | server/device_visualization/repository.py:463-481 | so does writing notes and settings of a port |
| CablingProof.WithTablesLoses | server/dc_inventory/connections.py:10-33 | removing ports loses exactly the cables that end on one of them |
| CablingProof.AssignMakesPeers | server/device_visualization/linked_assignment.py:18-69 | assign succeeds exactly when its checks pass and the new settings suit the family of the port; it leaves the two ports joined with notes naming each other, writes exactly the requested note and settings, clears the note of a displaced peer exactly when the old link had generated it, and keeps every other port and cable |
| NetworkVersions.AssignEffect | server/device_visualization/linked_assignment.py:48-68 | the two ports are joined and name each other; exactly the cables that led from them elsewhere go, exactly the notes that named a cut-off port are cleared, and every other port and cable stays |
| NetworkVersions.WithoutReviewNothingIsReplaced | server/device_visualization/linked_assignment.py:42-46 | without the token of a review no cable goes and no destination is overwritten or cleared |
| NetworkVersions.ConnectEffect | server/dc_inventory/connections.py:93-112 | exactly when two ports are connected; one new cable, and one version more for each of the two devices |
| NetworkVersions.DisconnectEffect | server/dc_inventory/connections.py:120-129 | exactly when a cable goes; only this cable, and one version more for each of the two devices at its ends |
| NetworkVersions.UpdatePortEffect | server/device_visualization/repository.py:450-481 | exactly when a port request is accepted; the sent fields are written, unsent ones stay, and the version rises exactly when something changes |
| NetworkRun.PerformKeeps | server/device_visualization/repository.py:412-497 | every operation keeps the matching, the groups and the devices consistent |
| NetworkRun.CablesAreAMatching | server/dc_inventory/connections.py:18-26 | after any sequence of operations cables are a matching between different devices, SAS only with SAS, and every group holds exactly its ports |
| NetworkRun.ReplacementIsReviewed | server/device_visualization/linked_assignment.py:39-46 | when an assignment replaces something, the ports, devices and links it touches are those the review with this token showed, and so is the request |
| NetworkVersions.UpdatedRows | server/device_visualization/repository.py:435-444 | an update writes the sent name and description; of other devices at most the versions rise |
| NetworkVersions.SameVersionSameDevice | server/device_visualization/repository.py:357-359 | after any sequence of operations, while a device has the version that was read, its row, its groups, its ports and the cables on them are the ones that were read |
| NetworkStore.ApplyProposals | server/device_visualization/repository.py:367-386 | the deletions and the loop end in the specified tables |
| NetworkStore.PortInventory.DisconnectCable | server/dc_inventory/connections.py:120-129 | keeps the matching; the cable goes and the devices at its ends get a new version |
| NetworkStore.PortInventory.LinkPort | server/device_visualization/linked_assignment.py:18-69 | keeps the matching; deletions, note clearing, writes and the new cable in order; without a token for the present state an occupied port only yields the review |
| NetworkStore.PortInventory.RegisterDevice | server/device_visualization/repository.py:394-409 | keeps groups filled and cables a matching; the loop over the proposals creates the ports |
| NetworkStore.PortInventory.ConfigureDevice | server/device_visualization/repository.py:412-447 | keeps groups filled and cables a matching; preview, confirmation, the loop over the proposals, and the cables that go with removed ports |
| NetworkStore.PortInventory.RemoveDevice | server/device_visualization/repository.py:484-497 | keeps groups filled and cables a matching; ports and cables go one by one |
| Racks.PlacementKeeps | server/dc_inventory/service.py:7-33 | an accepted placement lies within the rack and apart from every installed device |
| Racks.PlacementAcceptedIff | server/dc_inventory/service.py:7-33 | a placement is accepted exactly when a panel keeps its one unit and either no rack is chosen and no position sent, or every unit the device would cover exists in the rack and is covered by no other device |
| RackEffects.PlaceEffect | server/dc_inventory/service.py:7-33 | exactly when a placement is accepted; rack, position and height are the sent ones, or the current ones where not sent; no other device and no rack changes |
| RackEffects.InstallEffect | server/dc_inventory/service.py:7-33 | the same for a device that is created |
| RackEffects.PlaceMovesUnits | server/dc_inventory/repository.py:49-53 | placing a device moves its units from its old rack to its new one and changes the used units of no other rack |
| RackEffects.InstallAddsUnits | server/dc_inventory/repository.py:49-53 | installing a device raises the used units of its rack by its height, and of no other |
| RackEffects.UninstallFreesUnits | server/dc_inventory/repository.py:49-53 | removing a device frees exactly its units |
| RackEffects.AddRackEffect | server/dc_inventory/service.py:58-72 | a rack is added exactly under a new name, with the sent height |
| RackEffects.ResizeRackEffect | server/dc_inventory/service.py:36-76 | exactly when a rack is changed: every installed device still fits; height and name are the sent ones, and no device moves |
| RackEffects.DeleteRackEffect | server/dc_inventory/service.py:36-50 | exactly an empty rack is deleted, at its version and with a confirmation |
| Racks.HeightsAreUnits | server/dc_inventory/repository.py:49-53 | the heights of installed devices add up to the number of units they cover |
| Racks.RunKeeps | server/dc_inventory/service.py:36-92 | placing, installing, removing and resizing keep devices disjoint and within their racks |
| Racks.UsedFitsHeight | server/dc_inventory/repository.py:49-53 | after any sequence of operations the reported used units never exceed the height of the rack |
| RackStore.DataCenter.ChangeRack | server/dc_inventory/service.py:51-69 | a rack shrinks only as far as its highest installed device |
| Documents.RunKeeps | server/documentation/repository.py:140-217 | in every run version numbers are 1..n, draft revisions grow with them, and publishedVersion names a published version |
| Documents.PublishNeverExists | server/documentation/repository.py:140-213 | publishing is accepted exactly for a ready document under review at the expected revision, and never meets an existing version |
| Documents.PublishedIsSubmitted | server/documentation/repository.py:197-217 | what publish freezes is exactly the form and the source snapshot that were submitted |
| Documents.VersionsOnlyGrow | server/documentation/repository.py:140-154 | no run changes or drops a version |
| Documents.RestoreBringsBackFrozen | server/documentation/repository.py:260-267 | restoring a version brings back the content frozen in it, whatever happened since |
| DocumentEffects.SaveEffect | server/documentation/repository.py:122-137 | exactly when a save is accepted; the form is the sent one, and the sources are the old ones exactly when the scope is the same, else the collected ones |
| DocumentEffects.RefreshEffect | server/documentation/repository.py:230-238 | exactly when a refresh is accepted; the sources are the collected ones, and form, status and versions stay |
| DocumentEffects.RestoreEffect | server/documentation/repository.py:260-267 | exactly when a restore is accepted; form and sources are those of the version with this number |
| DocumentEffects.CreateVersionEffect | server/documentation/repository.py:140-161 | exactly when a version is created; it holds the present content under the next number, and the draft stays |
| DocumentEffects.SubmitEffect | server/documentation/repository.py:197-205 | exactly when a draft is submitted; only status and revision change |
| DocumentEffects.ReturnEffect | server/documentation/repository.py:206-207 | a document returns to draft from review or publication; only status and revision change |
| DocumentEffects.PublishEffect | server/documentation/repository.py:208-217 | publishing freezes the present content under the next number, which it names as the published version |
| DocumentEffects.SameRevisionSameDraft | server/documentation/repository.py:106-109 | in every run, while the revision is the one that was read, so are form, sources, status and publication |
| DocumentStore.DocumentRow.FreezeDraft | server/documentation/repository.py:140-154 | the next number is one more than the largest; refused when this revision has a version |
| DocumentStore.DocumentRow.PublishReviewed | server/documentation/repository.py:208-217 | the same for publishing |
| DhcpDrafts.VersionsAreFaithful | server/dhcp_generator/service.py:27-32 | in every interleaving each stored artifact was generated from the configuration stored beside it, numbers are 1..n, and each revision is published at most once |
| DhcpDrafts.CommitIff | server/dhcp_generator/repository.py:186-197 | a publication goes through exactly when nothing was saved or published since its preparation read the draft |
| DhcpDrafts.RestoreYieldsVersion | server/dhcp_generator/repository.py:137-150 | restoring yields the version's configuration at a new, unpublished revision |
| DhcpEffects.SaveEffect | server/dhcp_generator/repository.py:137-150 | a save stores the sent configuration, one revision later exactly when it differs |
| DhcpEffects.RestoreEffect | server/dhcp_generator/repository.py:137-150 | exactly when a restore is accepted; it stores the configuration of the named version at a new revision |
| DhcpEffects.PrepareEffect | server/dhcp_generator/service.py:27-31 | a preparation writes nothing but remembers what it generated from the present configuration |
| DhcpEffects.CommitEffect | server/dhcp_generator/repository.py:186-197 | a commit appends the prepared artifact with the configuration it was generated from under the next number, and leaves the draft |
| DhcpEffects.SameRevisionSameConfiguration | server/dhcp_generator/repository.py:137-150 | in every run, while the revision is the one that was read, so is the configuration, and no version changes |
| DhcpStore.DhcpConfiguration.CommitVersion | server/dhcp_generator/repository.py:186-197 | the revision is checked again in the transaction that stores the version |

## Left out

Publication

- The control flow of page_step, asset_step and verify_step is a step machine over program counters, so that other events can happen between any two actions; it is not one imperative method.
- The remote, its transport and its authentication: a write is applied at some point, definitely rejected, or lost, and the worker may or may not learn which. A definite rejection is only reported for a write that will never be applied.
- Rows of documentation_confluence_pages, the validation of decisions in start, and the contents of profiles and audiences. A change of profile or audience, and another job that becomes active for the same destination, are choices of the environment.
- A send is one event with its mark; the time until the request leaves the worker is part of the time until the remote decides, which is unbounded.
- A step's ordinal stands for its operation_id, and sha256 is taken as injective: a digest is the body it was computed from, a freshness or replacement token is the state it was computed from.
- Steps name pages by position in the plan, the code by key; the two agree because rendered keys are distinct (`Render.PageKeysDistinct`), given distinct chapter and table ids.
- Whether the markup of a page parses as XML is an input of rendering. The checksum of a frozen attachment, the read restrictions of a new page and the references that survive in its storage format are choices of the environment; a worker that finds a mismatch there stops.
- The text of pages (Markdown, storage markup, links): a body is its text with the operation and ownership markers found in it. Table ids are taken as already made safe for keys.

Address space

- Parsing of CIDR and address text, and IPv6: blocks and addresses are numbers; text that is not a block or an address is an absent value where an import must reject it.
- apply_scan_result: it can record an address inside a pool, so scan inserts are not part of the runs.
- Edits of range reservations, scan excludes, schedules and tags appear as one side-table edit that respects foreign keys; reservations are no invariant of pools or addresses, because several operations do not check them.
- bulk_update_addresses, bulk_delete_addresses, bulk_move_addresses and release_address: repetitions of single edits that are modelled.
- The kind of an allocation, audit rows and the text of timestamps; a stamp is a number that a caller may ask to be unchanged.

Tenant transfer

- Scans, scan jobs and audit rows are not copied in the model, and the version compares the modelled rows only; a running scan is a set of subnets.
- The atomic commit of two attached databases is taken as given.

Devices, racks

- Storage bays, models, vendors and the naming of ports: titles are a parameter of an assignment.
- The UNIQUE name of a device, and data-centre rows. Rack names are compared exactly, the code ignores case.
- The placement that device creation and configuration carry along is modelled with the racks, separately from ports and cables.

Lists and versions

- Lower-casing of letters outside ASCII, which only matters for which refusal a bad list gets, and values that are no strings.
- Permissions, the rendering of document artifacts, and the completeness check of a document, which is a flag of the request.
- The DHCP generator is uninterpreted: an artifact is identified by the configuration and the id it was generated from. The uniqueness of firewall names is left out.

Also left out as easy: single-record reads, search, paging, dashboards, sessions and roles, the HTTP layer and the user interface, drivers and scanners of network devices.
