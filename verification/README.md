# ours-cowork: a verified model of its stateful core

ours-cowork keeps mission rooms: durable archives of messages and files, relayed to the members of a
room by a daemon that may be stopped at any moment. This project models the parts of it whose
correctness depends on more than one function and proves what they promise together.

- `SupervisorLock.dfy`, `SoloAcquisition.dfy`: the generation lock as a state machine. One step is one file-system call or one
  look at the process table; contenders crash, listings go stale, generation files are re-created and
  PIDs are reused between any two of them. The lock is safe under all of that, and can be had.
- `ReplyThreading.dfy`, `Threads.dfy`, `ThreadAncestry.dfy`, `ThreadRouting.dfy`, `ThreadHistory.dfy`,
  `ThreadRuns.dfy`, `WireNames.dfy`, `ThreadRetries.dfy`, `ThreadPrivacy.dfy`, `ThreadRenumbering.dfy`,
  `PublicAuthors.dfy`, `ThreadDelivery.dfy`, `OrdinaryDelivery.dfy`: messages and scoped reply threads.
  Every recipient knows a message by its own wire ID, and whether a row is private is recomputed from
  native reply ancestry. The results are the round trip of wire translation, the exact meaning of a
  verdict, its stability as the archive grows, confinement of every send over whole runs,
  noninterference of the history a member reads, sequence numbers included, and the other half: what
  everybody must be sent and shown, under which name, and what a wire means to whom.
- `RelayLedger.dfy`, `RelayAnswers.dfy`: the journal of items, intents and results with its work table, the loops that
  complete and relay it, crashes between any two commits, and the exact outcome of a relay pass given
  what each send answers.
- `InviteLineage.dfy`, `Aliases.dfy`, `Membership.dfy`, `StoredSchema.dfy`,
  `Reconciliation.dfy`, `ReconciledRoom.dfy`, `RoomService.dfy`: seats, epochs, aliases, grants and invite recovery. Every operation keeps one invariant that implies the
  stored schema and the browser's stricter check.
- `CloseRoom.dfy`, `IntakeSettlement.dfy`: closing a room under crashes, throws and retries, and the
  pump's whole pass: commands, listings and acknowledgements of the SDK inbox, settled into the journal
  by the intake decision of the threads, and the relay at its end.
- `RoomMutex.dfy`, `BlobStore.dfy`: the re-entrant room mutex and the crash ordering of file blobs.
- `Base64.dfy`, `EventStream.dfy`, `ResourceFrames.dfy`, `ResourceOutput.dfy`, `ResourceHistory.dfy`,
  `ResourceViews.dfy`: framing, bounded delivery, paged history and certification of resource views.

`Prelude.dfy` holds shared value types and sequence facts, `Rooms.dfy` the stored room.

Classes model what the daemon updates in place; each method is proved against a function or an
explicit statement of the new state. A parameter `steady` says that no crash, no storage error and no
request to pause falls into a call; without it any step may be the last. Identifiers and wires are
opaque strings, times an ordered clock, minted ULIDs, invite IDs and wires are fresh, external invite IDs are disjoint from minted
ones, and an inspection of a process reports it gone only when it is. The SDK hands out its oldest
unread row, a read mark is never taken back, and every inbox row has an ID of its own. Callers of the
store mark, clear and fail a pending source under one scope, as all of them in `src/daemon-runtime.ts:239`,
`:252`, `:378`, `:414` and `:568` do; `ResourceViews.MisleadsIffUnannounced` says exactly what would
mislead a view otherwise, and `ResourceViews.MismatchedScopeMisleads` gives such a run.

Three promises do not hold of the code as they stand, and the model keeps the code as it is:

- A committed file row can refer to a blob that a power loss takes away. `persistBlob` accepts a final
  file that is already there without syncing its directory, so after a directory sync failure that the
  process survived, the same bytes are committed on an entry that was never made durable.
  `BlobStore.Blobs.AppendFile` gives the exact condition, `BlobStore.SurvivedSyncFailure` the run.
- The stored schema does not make invite lineage acyclic, which the browser requires.
  `InviteLineage.SchemaAllowsCycle` is a room the daemon would load and the browser would refuse;
  `InviteLineage.AcyclicIffSpentRanked` says exactly when a stored lineage is acyclic, and every lineage
  the operations produce is.
- A row can be consumed and lost. The SDK marks a text read when it hands it out, and both the
  acknowledgement loop and the command drain may be handed a text nobody has settled. A consumed row is
  unsettled if and only if processing stopped between handing it out and committing its record, which
  `IntakeSettlement.Pump.Valid` keeps over every run, at most one row for each such stop
  (`IntakeSettlement.LostAtMostOnePerStop`); `IntakeSettlement.InterruptedPromotion` and
  `IntakeSettlement.InterruptedCommandDrain` are the two failing runs.

## Model

| member | source | states |
|---|---|---|
| `SupervisorLock.DeathEvidenceIsSound` | src/supervisor-lock.ts:180-194 | A process that is running is never judged dead, whatever incarnation metadata the record or the inspection lacks. |
| `SupervisorLock.HolderIsTop` | src/supervisor-lock.ts:36-48 | In every state the invariant allows, a running holder sits on the highest generation ever linked and the file there is its own untombstoned record. |
| `SupervisorLock.StepKeepsInv` | src/supervisor-lock.ts:49-101 | Every file-system call of every contender, every process start, exit and PID reuse, and every crash keeps the protocol invariant. |
| `SupervisorLock.RunKeepsInv` | src/supervisor-lock.ts:49-101 | The invariant holds in every state of every interleaving of any number of contenders. |
| `SupervisorLock.AtMostOneSupervisor` | src/supervisor-lock.ts:36-48 | At most one running contender has been granted the lock and not yet left its tombstone, stale listings and re-created generation files included. |
| `SupervisorLock.MaximumNeverDecreases` | src/supervisor-lock.ts:158-164 | The highest listed generation equals the highest ever linked, so it never decreases along a run. |
| `SupervisorLock.FinishedIsTrue` | src/supervisor-lock.ts:107-126 | When the listing, the read and the inspection of one query answer finished, at whatever distance from each other, the original creator of that generation released or died, and stays so. |
| `SupervisorLock.HeldIsNotFinished` | src/supervisor-lock.ts:107-126 | While the creator of a generation holds the lock and runs, the query answers not finished. |
| `SupervisorLock.LockDirectory.LastGeneration` | src/supervisor-lock.ts:158-164 | The listing loop returns the largest listed generation, or 0. |
| `SupervisorLock.LockDirectory.Sweep` | src/supervisor-lock.ts:75-77 | Exactly the listed generations below the new one are unlinked; every other file is untouched. |
| `SupervisorLock.LockDirectory.Acquire` | src/supervisor-lock.ts:49-101 | Run alone, the loop refuses a live holder, otherwise creates the next generation and leaves it the only listed one; it changes nothing when it does not acquire. |
| `SupervisorLock.LockDirectory.Release` | src/supervisor-lock.ts:80-95 | Only the holder's own untombstoned record is replaced by its tombstone; a second release changes nothing. |
| `SoloAcquisition.SoloAcquires` | src/supervisor-lock.ts:49-101 | A contender of the protocol that is left alone is refused by a live holder, and otherwise ends up holding the next generation with every other listed one swept away. |
| `SoloAcquisition.SoloReleases` | src/supervisor-lock.ts:80-95 | A holder that is left alone replaces its record by its tombstone. |
| `SoloAcquisition.AttemptsAreBounded` | src/supervisor-lock.ts:49-101 | In every run no contender starts over more often than it may, and it gives up exactly then. |
| `SoloAcquisition.DeathIsNoticed` | src/supervisor-lock.ts:180-194 | A holder that no longer runs is judged dead when nobody has its PID, or when both incarnations are known. |
| `SoloAcquisition.FinishedIsSeen` | src/supervisor-lock.ts:107-126 | In every run a generation is answered finished once a higher one is linked, its creator released, or its creator's death can be inspected. |
| `ReplyThreading.LinkedWireResolvesBack` | src/reply-threading.ts:68-113 | For every archive, a wire chosen for a recipient resolves back in that recipient's namespace to the same logical parent, at every later position. |
| `ReplyThreading.OwnersStable` | src/reply-threading.ts:24-45 | A fresh row never changes who owns a wire that already has an owner in a namespace. |
| `ReplyThreading.ResolvedForever` | src/reply-threading.ts:68-85 | A resolved reference keeps resolving to the same parent in every extension by fresh rows. |
| `ReplyThreading.LinkedWireResolvesForever` | src/reply-threading.ts:87-113 | The round trip of a linked wire survives every fresh extension of the archive. |
| `WireNames.RunKeepsNames` | src/reply-threading.ts:24-66 | Over every run a wire of one participant names at most one item, every result answers an archived intent, and both come after the item they are about. |
| `WireNames.ReferencesAreExact` | src/reply-threading.ts:68-85 | Over every run a reference resolves to an item if and only if its sender knows that earlier item by that wire: it sent the item as that, or a result queued to it recorded the wire. |
| `WireNames.LinksAreExact` | src/reply-threading.ts:87-113 | Over every run a reply is linked for exactly the recipients that know its parent, by their own original wire, else by the first wire of their earliest queued copy. |
| `WireNames.AmbiguousOwnWireIsSkipped` | src/reply-threading.ts:87-113 | In a corrupt archive a recipient's original wire that also names another item is not used; the earliest copy's is. |
| `Threads.WalkAncestry` | src/threads.ts:165-185 | The ancestry loop computes the recursive walk, and terminates because the sequence number of the visited row strictly decreases. |
| `Threads.ClassifyThreadAssociation` | src/threads.ts:165-208 | The two loops of the classification compute the fold of link checks from the oldest ancestor to the row itself, for every archive. |
| `Threads.RootFoundIffLone` | src/threads.ts:119-152 | A thread's root is found if and only if exactly one archived row is a candidate for it and that row meets every condition on the shape of a root. |
| `ThreadAncestry.LinkedAreAncestors` | src/threads.ts:165-185 | The walk visits exactly the native ancestors of the row, in order. |
| `ThreadAncestry.OrdinaryIffNothingPrivate` | src/threads.ts:159-164 | A row is ordinary exactly when the walk completes and neither the row nor any native ancestor carries a scope or a thread root, for every archive. |
| `ThreadAncestry.ScopedStaysInThread` | src/threads.ts:186-208 | A scoped verdict means the whole native ancestry stays in one thread and ends at that thread's root. |
| `ThreadAncestry.VerdictStable` | src/threads.ts:165-208 | A verdict whose references all resolve is the same after any fresh row. |
| `ThreadAncestry.ScopedForever` | src/threads.ts:165-208 | A scoped verdict keeps its root and its parent in every fresh extension. |
| `ThreadRouting.IntakeScopeIsRelayScope` | src/threads.ts:211-239 | A reply archived with the scope chosen at intake is classified as scoped with the same root and parent key, in that archive and in every fresh extension of it. |
| `ThreadRouting.SelectedMembersValid` | src/threads.ts:62-82 | The selected members are pairwise distinct by participant and by CID. |
| `ThreadRouting.StartedRootIsWellFormed` | src/service.ts:413-513 | A started root satisfies every root condition, and its recipients are exactly the CIDs whose active seat it selected. |
| `ThreadRouting.ScopedSendIsConfined` | src/intake.ts:622-669 | In any archive, a row with a scope, a root or private ancestry is sent only to a saved recipient that is a root member and active under the participant ID the root selected. |
| `ThreadRouting.ScopedReplyLinksParentCopy` | src/intake.ts:646-656 | A scoped reply is sent only linked to the recipient's own wire for its immediate parent, which resolves back to that parent. |
| `ThreadRuns.AppendKeepsArchive` | src/threads.ts:165-208 | Appending a row with fresh names keeps every earlier verdict settled, as soon as the new row itself is. |
| `ThreadRuns.IntakeSettled` | src/intake.ts:338-403 | A row that intake appends is settled at once: ordinary, or scoped in the thread it declares. |
| `ThreadRuns.StepKeepsInv` | src/intake.ts:593-765 | Intake, thread creation, operator posts, intents, relay attempts and membership changes all keep the archive and confinement invariant. |
| `ThreadRuns.RunKeepsInv` | src/intake.ts:593-765 | The invariant holds along every run of one room. |
| `ThreadRuns.EverySendIsConfined` | src/intake.ts:622-669 | Over whole runs, every attempted send of a private row went to a saved recipient that was an active selected participant of its thread in the room as it then was. |
| `ThreadRuns.RunGrows` | src/threads.ts:165-208 | Along a run rows and sends are only added, seats evolve, and no verdict ever changes. |
| `ThreadRetries.StartsExactlyWhen` | src/service.ts:413-513 | A thread is started if and only if the room is open, the caller is an active member with the grant that asks for the first time under its key, every selected participant is named once and active, the caller among them, and the announcement fits. |
| `ThreadRetries.StartedRootIsTheRequest` | src/service.ts:457-486 | The root says what was asked for, under the creator's name or alias, lists exactly the selected participants, and is addressed to all of them. |
| `ThreadRetries.RunKeepsOneRoot` | src/service.ts:431-437 | Over every run a creator has at most one thread root per idempotency key. |
| `ThreadRetries.NeverDuplicateRoots` | src/service.ts:437 | The error for duplicate roots can never be thrown in a run. |
| `ThreadRetries.RetryFindsItsThread` | src/service.ts:438-447 | However long after a thread was started, a request of its creator under the same key starts no other: the same request gets the same thread ID, a different one a conflict, and a creator who rejoined in a new seat is refused. |
| `ThreadRuns.RejoinedCidGetsNothing` | src/threads.ts:84-94 | Once a selected participant was removed, its CID receives nothing of that thread for the rest of the run, even after it rejoined under a new participant ID. |
| `ThreadHistory.VisibleMessages` | src/thread-history.ts:79-101 | The projection loop yields exactly the messages the viewer may see, in archive order. |
| `ThreadHistory.FillPage` | src/thread-history.ts:102-117 | The page loop returns the longest run of visible rows after the cursor that fits the limit and the byte budget, or reports a row too large for a page. |
| `ThreadHistory.ProjectParticipantHistory` | src/thread-history.ts:69-117 | A page is computed for active members of an active room only, and is the page of that viewer's visible messages. |
| `ThreadHistory.PagesAreConsecutive` | src/thread-history.ts:69-117 | Following the cursor from page to page never skips, repeats or reorders a visible message, and an empty page means there is no more. |
| `PublicAuthors.ShownContent` | src/thread-history.ts:79-108 | A message is shown with its own content and thread, and under its alias whenever it carries one and is ordinary or in an anonymous room. |
| `PublicAuthors.OrdinaryIsRead` | src/thread-history.ts:93-96 | An ordinary message is hidden if and only if its alias is unusable. |
| `PublicAuthors.ShownMetadata` | src/threads.ts:28-60 | A thread's metadata is its topic and time, its participants in order, and its creator's public name. |
| `PublicAuthors.PagesShowPublicNames` | src/thread-history.ts:69-117 | Every row of every page shows an archived message under its author's public name. |
| `PublicAuthors.MembersStayAnonymous` | src/thread-history.ts:79-96 | Over every run of an anonymous room, whoever reads a member's message is shown the participant ID and alias of one of its seats. |
| `PublicAuthors.OrdinaryIsAlwaysRead` | src/thread-history.ts:79-101 | Over every run an ordinary message of a member is read by every reader of the room. |
| `ThreadPrivacy.VerdictWithout` | src/threads.ts:165-208 | A row outside the hidden threads has the same verdict whether or not those threads and their relay records are in the archive. |
| `ThreadPrivacy.HistoryWithout` | src/thread-history.ts:69-117 | With the records of threads a viewer is outside of taken away, every page, ordinal and cursor of that viewer is the same. |
| `ThreadPrivacy.OutsiderSeesNothing` | src/thread-history.ts:69-117 | Noninterference over all reachable archives: an outsider reads what it would read with those threads' records taken out of the archive, the others keeping their numbers. |
| `ThreadRenumbering.VerdictMoved` | src/threads.ts:165-208 | Classification depends on the order of the rows only: renumbering any archive in an order-preserving way keeps every verdict. |
| `ThreadRenumbering.HistoryMoved` | src/thread-history.ts:69-117 | No page, ordinal or cursor of anybody's history depends on the sequence numbers of the archive. |
| `ThreadRenumbering.HiddenThreadsLeaveNoTrace` | src/thread-history.ts:69-117 | Two runs that hold, outside the hidden threads, the same archive in the same order, each with the numbers its own hidden rows left it, read the same to an outsider, wherever those rows stood: as if the threads had never existed. |
| `ThreadDelivery.ScopedRelayIsExact` | src/intake.ts:634-671 | A scoped row is sent to a saved recipient if and only if that recipient is active under its selected participant ID and the row is the root or can be linked to the recipient's own copy of its parent. |
| `ThreadDelivery.StartedRootReachesMembers` | src/service.ts:413-513 | The root of a thread just started is sent to every member it selected, as that thread and without a reply target. |
| `ThreadDelivery.ScopedReplyAddressesMembers` | src/threads.ts:234-238 | The recipients saved with a scoped reply are exactly the other members that are active under their selected participant IDs. |
| `ThreadDelivery.MembersAddressedInOrder` | src/threads.ts:234-238 | A scoped reply is addressed to members in the order in which the root lists them. |
| `ThreadDelivery.MemberSeesThread` | src/thread-history.ts:85-92 | A member active under its selected participant ID sees every message of its thread, marked with the thread, and the root with its metadata. |
| `OrdinaryDelivery.IntakeAnswers` | src/intake.ts:338-403 | Intake ignores strangers and what does not come from an active member of an open room, refuses replies whose target is unknown, unusable or not writable and files in threads, and takes everything else. |
| `OrdinaryDelivery.AppendedIsTheMessage` | src/intake.ts:366-389 | The archived row is the inbox row: its content, date, source, wire and reply, under the name, role and alias of the sender's active seat. |
| `OrdinaryDelivery.OrdinaryRowAddressesRoom` | src/threads.ts:211-239 | Outside threads a row is addressed to exactly the other CIDs with an active seat, each once, in seat order. |
| `OrdinaryDelivery.OrdinaryRelayIsExact` | src/intake.ts:658-669 | An ordinary row is skipped for a saved recipient if and only if that was removed and holds no active seat, and is otherwise sent outside any thread with the linked wire, if any, as reply target. |
| `OrdinaryDelivery.OrdinaryReplyTarget` | src/intake.ts:626-669 | Over every run an ordinary reply is sent with a reply target exactly to the recipients that know its parent, by the wire they prefer. |
| `OrdinaryDelivery.OrdinaryMessageReachesMembers` | src/intake.ts:338-403 | Over every run an ordinary message is taken, addressed to every other active member, and sent to each that still has its seat whenever its intent is tried. |
| `RelayAnswers.SendIsRecorded` | src/intake.ts:673-765 | A message is one call; a file is its notice and, once that is queued, its bytes; the status is that of the last call made, the wires are kept unless empty, and any call that throws leaves the intent open. |
| `RelayAnswers.OrdinaryPassIsExact` | src/intake.ts:593-765 | After a pass an intent of an ordinary item is recorded as skipped for a removed recipient, and otherwise as what its own sends answered, or left open because one of them threw. |
| `RelayAnswers.ScopedSkipIsExact` | src/intake.ts:634-651 | A scoped row is held back as removed if its recipient is a thread member without its selected seat, and as unavailable in every other case. |
| `RelayLedger.ExactlyOnePlace` | src/storage.ts:294-313 | At a commit point each recipient of each archived item is in exactly one place: a work row or its one relay intent. |
| `RelayLedger.Journal.AppendItem` | src/storage.ts:276-308 | An item is committed together with one work row per recipient, and the work table stays equal to what a full scan finds owed. |
| `RelayLedger.Journal.AppendIntent` | src/storage.ts:307-313 | An intent is committed together with the removal of exactly the work it discharges; the table stays equal to the full scan. |
| `RelayLedger.Journal.RecordsNeedingIntents` | src/storage.ts:385-402 | A batch is the first items with work left in sequence order, at most the limit of them, and is empty exactly when no work is left. |
| `RelayLedger.Journal.RecipientsNeedingIntent` | src/storage.ts:404-415 | The first distinct recipients still owed an intent in index order, at most the limit of them, and all when they are fewer. |
| `RelayLedger.Journal.CompleteItem` | src/intake.ts:539-580 | One call discharges at least one recipient if any is owed, and all of them when fewer than 64 are; a crash in between leaves work row or intent for each. |
| `RelayLedger.Journal.CompleteSnapshot` | src/intake.ts:516-537 | The loop terminates with the number of work rows as measure and empties the table; it appends nothing but intents that name an archived item and one of its recipients. |
| `RelayLedger.Journal.PostRoomMessage` | src/service.ts:1682-1712 | A posted room message owes nothing once the call returns; after a crash its remaining recipients still have their work rows. |
| `RelayLedger.NamedIntentIsDecided` | src/intake.ts:615-671 | Only an intent whose source is missing or does not name its recipient is passed over without a send or a skip. |
| `RelayLedger.Journal.RelayPending` | src/intake.ts:593-765 | A completed pass is exactly the attempts of all intents pending at the start in sequence order, with an error surfacing if and only if some send threw; an interrupted one stopped after some of them with at most one more send made; the paged loop terminates. |
| `RelayLedger.RelayIsExact` | src/intake.ts:605-765 | After a pass an intent is left without a result because of a throw if and only if it was to be sent and its own send threw; every other named intent has the one result that its own decision or its own answers give, status and wires; what other sends did does not matter. |
| `RelayLedger.EveryNamedIntentIsSettled` | src/intake.ts:618-620 | After a pass every intent that names an archived source and recipient has its one result unless its own send threw. |
| `RelayLedger.AttemptIsARelayStep` | src/intake.ts:593-765 | Every attempt of the loop, thrown ones included, is one relay step of the thread runs, so what holds over those runs holds of the loop. |
| `InviteLineage.RefineRoomLineage` | src/contracts.ts:398-441 | The refinement loop accepts exactly the lineages whose pointers are valid and that have one pending replacement per source. |
| `InviteLineage.ClimbsToRoot` | web/src/api/types.ts:356-366 | The browser's climb accepts an invite only if following its pointers never returns to it, and rejects only cyclic or dangling lineages. |
| `InviteLineage.BrowserAcceptsLineage` | web/src/api/types.ts:356-366 | With unique invite IDs the browser's climb accepts exactly the acyclic lineages without a missing source. |
| `InviteLineage.SoundIsValid` | src/contracts.ts:378-441 | A sound lineage always passes the stored schema. |
| `InviteLineage.SoundIsAcyclic` | web/src/api/types.ts:356-366 | A sound lineage is acyclic, which the stored schema does not say. |
| `InviteLineage.SchemaAllowsCycle` | src/contracts.ts:398-441 | The schema alone does admit a cyclic lineage: a concrete one of two revoked invites. |
| `InviteLineage.OnlySpentInvitesCycle` | src/contracts.ts:405-419 | On any cycle the schema admits, every invite is revoked or awaits replacement and replaces another such invite, never two awaiting ones in a row. |
| `InviteLineage.AcyclicIffSpentRanked` | src/contracts.ts:398-441 | The exact condition: a lineage the schema accepts is acyclic if and only if the pointers of its revoked and replacement-required invites alone can be ranked downwards. |
| `InviteLineage.MintKeepsSound` | src/service.ts:830-841 | Recording a freshly minted invite keeps the lineage sound. |
| `InviteLineage.CascadeKeepsSound` | src/service.ts:1034-1046 | Revoking an invite together with its pending replacements keeps the lineage sound. |
| `InviteLineage.ReplacementKeepsSound` | src/service.ts:1080-1093 | Recording a pending replacement of a lost invite keeps the lineage sound. |
| `InviteLineage.ConfirmKeepsSound` | src/service.ts:1161-1180 | Confirming a replacement, with its source revoked in the same save, keeps the lineage sound. |
| `InviteLineage.ReconcileKeepsSound` | src/service.ts:1814-1822 | Consuming and losing live invites keeps the lineage sound. |
| `Aliases.AliasInjective` | src/service.ts:2214-2220 | Role and ordinal can be read back from an alias, even when the role contains the separator. |
| `Aliases.AliasesDistinct` | src/service.ts:2214-2220 | No two seats of an anonymous room ever share an alias, across roles and states. |
| `Aliases.NextAliasMinted` | src/service.ts:2218-2220 | The minted alias is the seat's role with its ordinal among the seats of that role. |
| `StoredSchema.SchemaIsExact` | src/contracts.ts:224-596 | The checks of seats, invites, lineage and grants accept exactly the rooms whose seats are complete for their state and apart from each other, whose invites are complete and replace matching ones, and whose grants belong to active identities. |
| `Membership.HealthyIsValid` | src/contracts.ts:398-441 | The invariant the operations keep implies the seat, alias, grant, invite and lineage rules of the stored schema and the browser's lineage check. |
| `Membership.CreatedIsHealthy` | src/service.ts:232-256 | A newly created room satisfies the invariant. |
| `Membership.StepOneSeat` | src/service.ts:913-976 | Moving one seat to its next state moves the epoch by exactly the difference of the seat weights and keeps all seat rules. |
| `Membership.AppendKeepsSeats` | src/service.ts:785-800 | Appending a fresh seat for a CID without one keeps all seat rules. |
| `Membership.GrantsStillValid` | src/service.ts:967-976 | Dropping the grants of the CIDs that left leaves only grants of active identities. |
| `Reconciliation.DepartMissing` | src/service.ts:1731-1738 | The departure pass removes active seats without a contact, each at the next epoch in seat order. |
| `Reconciliation.DepartKeepsSeats` | src/service.ts:1729-1743 | Departures keep every seat rule, with the epoch law holding at the new epoch. |
| `Reconciliation.DeparturesKeepHealthy` | src/service.ts:1729-1743 | The first save of a reconciliation keeps the room healthy. |
| `Reconciliation.FirstContactsSameCids` | src/service.ts:1719-1726 | Deduplicating contacts loses no CID. |
| `Reconciliation.AdmittingInvite` | src/service.ts:1776-1788 | An admitting invite is live, usable, the one the contact names if it names one, and minted after the CID was last removed. |
| `Reconciliation.AdmitContacts` | src/service.ts:1776-1802 | The admission loop adds exactly the seats the admission rules give, in listing order. |
| `Reconciliation.AdmissionsKeepSeats` | src/service.ts:1776-1802 | Admissions keep every seat rule and take one epoch each. |
| `Reconciliation.AdmissionsAreAllowed` | src/service.ts:1776-1802 | Every admitted seat belongs to a listed contact and came through a usable invite minted after every removal of that CID. |
| `Reconciliation.RecountKeepsSound` | src/service.ts:1804-1823 | Recounting accepts and moving invite states keeps the lineage sound and pending invites unused. |
| `Reconciliation.AdmissionsKeepHealthy` | src/service.ts:1757-1852 | The second save of a reconciliation keeps the room healthy. |
| `RoomService.OperationsEvolve` | src/service.ts:896-987 | What the membership operations do to a healthy room is a membership change the thread runs allow: seats keep CID and participant, and removed ones stay removed. |
| `RoomService.RoomRecord.CreateInvite` | src/service.ts:731-750 | An invite is recorded exactly when the room is mutable, the request is valid and, without provenance, no other invitation is open. |
| `RoomService.RoomRecord.SeatExternal` | src/service.ts:766-802 | A pending seat is added exactly when the CID is the expected one, was no contact before, and holds no open seat. |
| `RoomService.RoomRecord.RemoveParticipant` | src/service.ts:873-987 | The seat meant is the first open one with that CID or participant ID, else the first removed one; a pending seat is cancelled, an active one takes the next epoch and its grants go, a removed one stays; the status and the notice reported are what the SDK answered; nothing happens if nobody is meant, the room is closing, or the SDK throws. |
| `RoomService.RoomRecord.MarkBounced` | src/intake.ts:487-513 | A notice is owed exactly if the sender's first removed seat is unmarked and the CID holds no active seat; the mark is saved first and changes nothing else. |
| `RoomService.RoomRecord.GrantCommand` | src/service.ts:1410-1433 | A grant is recorded once and only for an active identity. |
| `RoomService.RoomRecord.RevokeCommand` | src/service.ts:1436-1450 | Exactly the named grant is dropped. |
| `RoomService.RoomRecord.RevokeInvite` | src/service.ts:1025-1049 | The invite and exactly its pending replacements become revoked in one save; a second revocation changes nothing. |
| `ReconciledRoom.ReconciliationIsExact` | src/service.ts:1713-1837 | In terms of the SDK's listing: exactly the unlisted active seats are removed and the listed pending ones opened, every listed CID without a seat that an invite lets in gets one through that invite and nobody else does, accepts and invite states are recounted, and the room opens when its requirements are met. |
| `RoomService.RoomRecord.Reconcile` | src/service.ts:1714-1853 | Departures are saved first, then activations, admissions, recount and activation of the room, which together are exactly what the listing asks for; a failure in between leaves the first save. |
| `RoomService.RoomRecord.RotateInvites` | src/service.ts:1055-1126 | Every lost invite stays and gets exactly one pending replacement, earlier pending ones revoked, and no save is ever refused. |
| `RoomService.RoomRecord.ConfirmRecovered` | src/service.ts:1131-1182 | Confirmation succeeds exactly for a matching pending replacement still in the SDK, or as a repetition of one already saved. |
| `RoomService.RoomRecord.BeginClose` | src/service.ts:1545-1550 | Entering or re-entering the closing state changes nothing else. |
| `CloseRoom.IntentKeepsNotices` | src/service.ts:1885-1904 | A close intent is only added when the recipient has none open, so at most one ever is. |
| `CloseRoom.ResultKeepsNotices` | src/service.ts:1906-1921 | A result resolves exactly its own open intent, once, and claims a delivered notice only if the removal returned it. |
| `CloseRoom.CloseJournal.ResolveUncertain` | src/service.ts:1869-1882 | The paged loop terminates and only appends: uncertain results, never notified, for exactly the open intents whose contact is no longer listed. |
| `CloseRoom.CloseJournal.RemoveContact` | src/service.ts:1884-1921 | Earlier rows stay; the open intent is reused or one is added, the result records exactly what the removal returned, and a throw leaves the intent open. |
| `CloseRoom.CloseJournal.RemoveContacts` | src/service.ts:1881-1918 | Every row the loop adds belongs to a listed contact, a completed loop recorded each contact's own answer, and a notice counts as delivered only for a contact whose removal returned it. |
| `CloseRoom.CloseJournal.Close` | src/service.ts:1855-1955 | However it ends, a close only adds rows, uncertain ones or what a listed contact's removal returned, so over any retries each intent keeps its at most one result and notified only if the removal said so; a completed close leaves no unresolved intent. |
| `IntakeSettlement.AppendedRow` | src/intake.ts:366-389 | A row intake appends carries its inbox source, matches the inbox row on everything a replay is compared on, and has distinct recipients. |
| `IntakeSettlement.Pump.CommitRejection` | src/intake.ts:450-473 | The durable rejection comes first and is the claim for the one notice attempt. |
| `IntakeSettlement.Pump.Process` | src/intake.ts:338-403 | A source settles to at most one record, the item or rejection its decision gives, with its relay obligations in the same commit; a replay records and notifies nothing, and completes outstanding intents. |
| `IntakeSettlement.Pump.GetMessages` | src/packets.ts:711-716 | The SDK read-marks the row it hands out, the oldest text there is, and the row is held unless its source is settled. |
| `IntakeSettlement.Pump.AcknowledgeMessage` | src/packets.ts:707-724 | The loop terminates; unless paused or stopped short the expected row is consumed, or typed rows were handled and it waits for the next listing; every row consumed on the way is settled, but for one held at a stop. |
| `IntakeSettlement.Pump.AcknowledgeFile` | src/packets.ts:735-741 | Exactly the settled file is read-marked, or nothing. |
| `IntakeSettlement.Pump.DrainCommands` | src/packets.ts:671-687 | The command drain consumes rows too; it terminates, ends with no typed row first, and settles whatever text it was handed, but for one held at a stop. |
| `IntakeSettlement.Pump.DrainSnapshot` | src/intake.ts:251-264 | After a completed drain every listed row is settled and consumed, or settled and left behind a typed row; whatever else was consumed is settled too. |
| `IntakeSettlement.Pump.DrainInbox` | src/intake.ts:242-265 | Round after round terminates; a completed drain leaves no file and no text ahead of a typed row, and an empty inbox if nothing more arrives; each consumed row is unsettled if and only if it is the one held when processing stopped, and what is settled was decided so by the room. |
| `IntakeSettlement.TruthCarried` | src/intake.ts:338-403 | Carrying out a decision made with the room and the archive of the moment keeps this true of all the pump settled: each record, refusal or silence is what intake decides for an inbox row in a room that was loaded, with the rows archived before it. |
| `IntakeSettlement.Pump.DrainAndRelay` | src/intake.ts:240-271 | A completed pass owes nothing, made exactly the sends of one relay pass over what was then pending, with an error surfacing if and only if one of them threw, and otherwise every named intent has its result; each consumed row is settled, by what intake decides for it, unless it was held when processing stopped. |
| `IntakeSettlement.LostAtMostOnePerStop` | src/packets.ts:707-724 | Over any run the consumed but unsettled rows are no more than the times processing stopped short. |
| `IntakeSettlement.InterruptedPromotion` | src/packets.ts:711-723 | The loss is real: a crash right after a row was handed out ahead of the expected one leaves it read and unsettled. |
| `IntakeSettlement.InterruptedCommandDrain` | src/packets.ts:671-687 | The same loss without any expected row: a text that became the oldest after the listing is handed to the command drain, and a crash right then loses it. |
| `RoomMutex.StepKeepsInv` | src/storage.ts:158-196 | Issuing, starting, settling, releasing and resolving all keep the queue and ownership invariant. |
| `RoomMutex.Exclusion` | src/storage.ts:86-96 | First come, first served exclusion: when a call has started, every earlier one has finished its root and nested work and released. |
| `RoomMutex.OneHolder` | src/storage.ts:158-196 | Work in progress always belongs to the one ticket that holds the room. |
| `RoomMutex.OutcomeIsExact` | src/storage.ts:180-195 | The outer call succeeds exactly when its root and every nested call it admitted did, and reports the root's failure first. |
| `RoomMutex.LateWorkQueues` | src/storage.ts:159-169 | Work issued in a context whose ownership has ended takes the next place in the queue. |
| `RoomMutex.NeverStuck` | src/storage.ts:86-96 | As long as a queued call is unfinished, some step that finishes work is possible. |
| `BlobStore.Blobs.PersistBlob` | src/storage.ts:655-677 | A new blob is durable before it is reported; every failure leaves the other entries as they were, and the surviving one of this digest is determined by the failing step. |
| `BlobStore.Blobs.RemoveUnreferenced` | src/storage.ts:679-690 | The cleanup of a failed append touches only an entry that no committed row refers to. |
| `BlobStore.Blobs.Reconcile` | src/storage.ts:692-715 | A completed reconciliation leaves exactly the referenced blobs; an interrupted one harms none of them. |
| `BlobStore.Blobs.Commit` | src/storage.ts:276-325 | A row is safe exactly when the blob it refers to was durable at the commit. |
| `BlobStore.Blobs.AppendFile` | src/storage.ts:258-325 | Committed rows keep durable blobs if and only if the blob was placed by this append or was already durable; always so unless a directory sync failure was survived. |
| `BlobStore.Blobs.Recover` | src/storage.ts:101-107 | After any power loss every committed row still refers to a whole blob, and reconciling leaves exactly those. |
| `BlobStore.RestartedSyncFailure` | src/storage.ts:591-600 | The failing case ends with the process: after a restart the next append reconciles first, and no power loss takes its blob. |
| `BlobStore.SurvivedSyncFailure` | src/storage.ts:660-663 | The failing case in one run: after a survived directory sync failure the same bytes are committed without another sync, and a power loss takes the blob. |
| `Base64.RoundTrip` | src/resource-views.ts:60-61 | Decoding the base64 text of a chunk gives its bytes back. |
| `Base64.EncodedLength` | src/resource-views.ts:60-61 | The text takes four characters for every three bytes begun. |
| `EventStream.Reader.Feed` | web/src/state/poller.ts:297-305 | One read leaves the buffer and yields the event frames that cutting the whole text at blank lines gives, comments passed over; it fails exactly if the buffer exceeds 8 MiB or a frame 512 KiB, after the frames before it. |
| `EventStream.SegmentationIrrelevant` | web/src/state/poller.ts:294-303 | How the stream is split into reads makes no difference to the frames. |
| `EventStream.WrittenFramesComeBack` | src/resource-views.ts:136-139 | A stream of one-line frames is cut back into exactly those frames. |
| `EventStream.BodyParsesBack` | web/src/state/poller.ts:306-308 | Read as the browser reads it, the first event line and all data lines joined, a written frame gives back the event and data it was written from. |
| `ResourceFrames.Frames` | src/resource-views.ts:46-64 | The generator's loop over offsets yields the frames of the record, or none above 16 MiB. |
| `ResourceFrames.ReassemblyRoundTrip` | web/src/state/poller.ts:321-339 | For every record within 16 MiB the browser delivers exactly the bytes that were framed, once, and ends idle. |
| `ResourceFrames.EveryFrameFits` | src/resource-views.ts:38-64 | At most 64 parts, every frame within 512 KiB, and no chunked frame contains a line break. |
| `ResourceFrames.Assembler.Take` | web/src/state/poller.ts:321-339 | Whatever frames arrive, an assembled record has exactly the announced size and the announced binding. |
| `ResourceOutput.Output.Send` | src/resource-views.ts:97-116 | A record is admitted exactly within the limits, taking the next number of each of its bindings; otherwise the connection closes and no number is taken. |
| `ResourceOutput.Output.WriteFrame` | src/resource-views.ts:132-141 | Only the next frame of the active record goes on the wire. |
| `ResourceOutput.Output.Shift` | src/resource-views.ts:143-146 | The next waiting record becomes active with the byte count still exact. |
| `ResourceOutput.AdmissionsStayGapless` | src/resource-views.ts:294-308 | The numbers of every binding run 1, 2, 3, ... in admission order. |
| `ResourceOutput.NothingInterleaves` | src/resource-views.ts:132-146 | On the wire the frames of one record are consecutive. |
| `ResourceViews.StepKeepsInv` | src/resource-views.ts:212-232 | Every commit, announced report about a source, silent one, and refresh step keeps the certification invariant. |
| `ResourceViews.ReportsAreCounted` | src/storage.ts:130-137 | A report about a source moves the store's position exactly if it changes whether the source has failed or is pending, and is then on record under its scope. |
| `ResourceViews.CertificatesAreSound` | src/resource-views.ts:309-380 | Under any interleaving in which the end of every pending time is announced to the view, no commit to the room lies between the projection that produced certified content and the position it is certified at. |
| `ResourceViews.KeptScopesAnnounce` | src/daemon-runtime.ts:239-252 | Callers that mark, clear and fail each source under one scope, as the daemon's do, announce every end of a pending time to every view. |
| `ResourceViews.NoWakeUpIsLost` | src/resource-views.ts:214-232 | Over every run, a commit to the view's room and an announced end of a pending time leave the view failed, or knowing that it is out of date and with a refresh under way that can go on. |
| `ResourceViews.CoverageIsCurrent` | src/resource-views.ts:295-308 | A coverage claim misses nothing that was committed to the room up to that moment. |
| `ResourceViews.MisleadsIffUnannounced` | src/storage.ts:123-140 | While a view waits for a pending source and its room has changed, an event of the store lets a false coverage claim follow if and only if it ends the waiting unannounced: by clearing or failing the source in another room's name, or marking it again under one. |
| `ResourceHistory.EmitPages` | src/resource-views.ts:350-358 | The paging loop sends the pages of a history in order, and only the last one is complete and carries the source. |
| `ResourceHistory.PagesHoldEverything` | src/resource-views.ts:350-358 | However a history is cut into pages, the pages add up to it and there is always a last one. |
| `ResourceHistory.PagesFit` | src/resource-views.ts:350-358 | No page exceeds 3 MiB unless it holds a single record. |
| `ResourceHistory.PagesMerge` | web/src/state/poller.ts:255-264 | Applying the pages of an open record ends with its whole history; nothing is shown or certified before the last page. |
| `ResourceHistory.CaptureRoundTrip` | web/src/state/poller.ts:240-273 | A first capture, whole or paged, and its ready message show exactly the captured room once and certify the announced position. |
| `ResourceHistory.IncrementRoundTrip` | web/src/state/poller.ts:251-293 | An increment leaves the browser with the old history followed by what was added, shown once, and moves the certified position only for a new revision. |
| `ResourceHistory.RecaptureRoundTrip` | web/src/state/poller.ts:240-293 | A capture sent again to a ready view, whole or paged, is shown once and certified if it is new. |
| `ResourceHistory.RefusesExactly` | web/src/state/poller.ts:224-293 | The connection is given up over exactly the messages that are stale, out of order, out of sequence, or take the certified position back. |
| `ResourceHistory.ApplyIsCautious` | web/src/state/poller.ts:224-293 | Whatever arrives, the certified position never moves back and an incomplete record shows nothing. |
| `ResourceViews.MismatchedScopeMisleads` | src/storage.ts:130-136 | The scope discipline is needed: a pending source cleared under another scope makes a view certify content past a commit to its own room. |

## Left out

- The SDK, SQLite, SHA-256, Zod and JSON: abstract operations, with atomic transactions, collision-free digests and injective serialization; one-time use of invites is the SDK's own rule.
- HTTP and Unix transport, the CLI, service units, React components and consumer callbacks: plumbing and user interface.
- File modes, owners, symbolic links and hard-link counts, including the temporary aliases of a generation file and the validation of holder records: hardening, not protocol. An unexpected file-system error ends an acquisition, or leaves a release without its tombstone.
- Timers, backoff and liveness of delivery, and lost wake-ups of `pump`, whose last dirty test and map deletion are separated by an await.
- Briefings, role briefings, membership notices, message texts, sentence numbers of replies, Unicode and name truncation.
- Deleting rooms, discarding a provisioning sentinel, migration of old metadata, crashes inside `create` before metadata exists, and the fallback scans for partial stores.
- Rooms-list views, and registration, retry, health and expiry in the browser session. Sequence numbers are modelled where they are given out, revisions and sources where they are applied.
- The paging loop that reads reply rows: classification is given the whole archive.
- Sorting of thread members by participant ID and of grants by caller: both are kept in seat or insertion order. The request digest of a thread, and whether its announcement fits the message size, are parameters.
- Several reads of the clock inside one operation give one time.
- RelayLedger.Journal.CompleteItem: it discharges one batch of at most 64, as the code does, so a larger fan-out is completed by the snapshot loop.
- ThreadRuns.IntakeSettled: an intake rejection of a row without a wire, which the daemon refuses by throwing, appears in the thread runs as an ordinary rejection.
- ThreadHistory.FillPage: the serialized size of a row is a parameter, because it depends on the JSON text.
- IntakeSettlement.Pump.Process: a file is drained whatever its name, MIME type and size, which are taken as valid and stand, with its bytes, as one content string; the bounce to a removed sender is modelled with the rooms.
- Membership.HealthyIsValid: the rules about an empty identity CID and the packet_pending status, which concern a room before its packet exists.
- RoomService.RoomRecord.RemoveParticipant: the notice to the remaining members is not modelled.
- BlobStore.Blobs.AppendFile: a digest stands for its bytes, so a collision of two contents under one digest cannot occur.
- ResourceFrames.ReassemblyRoundTrip: the JSON parser is a parameter that returns the binding fields of the record; base64 text outside the encoder's own form, which a browser would also decode, fails here.
- EventStream.WrittenFramesComeBack: a record whose JSON text contains a raw line break is excluded, since JSON escapes line breaks.
