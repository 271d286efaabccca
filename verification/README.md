# mailboxd, modelled and proved

mailboxd serves Microsoft Graph mail and calendar calls from IMAP, JMAP, CalDAV and Sieve
backends. This project models the parts of it that hold algorithms and protocols, and proves
what they promise. `dafny verify dfyconfig.toml` checks everything.

| files | what they model |
|---|---|
| `Delta`, `Replica`, `MessageIds` | IMAP delta pages behind opaque tokens, and the replica a client builds from them while the mailbox keeps changing |
| `Filter`, `MessageList` | `$filter` translated to a coarse SEARCH and made exact afterwards; the unfiltered window of sequence numbers |
| `Participants`, `RosterLaws` | organizer and attendees kept in one map under sortable keys |
| `Invitations`, `InviteStore` | invitations, their mail form, and `ProcessRequest` over a calendar store |
| `Scheduling`, `Addressees`, `Bookkeeping`, `EndToEnd` | what a PATCH mails to whom, and what the attendee's calendar ends up holding |
| `ConnPool`, `PoolProtocol`, `PoolRefinement`, `Custody` | the connection pool, as an object, as a machine of interleaved critical sections, and the object's methods as runs of that machine |
| `SpecTree`, `SpecClosure` | pruning an OpenAPI tree and closing over its references |
| `Watch`, `Delivery`, `MailboxHistory` | the coalescing change signal, the drain loop over real delta pages of a folder that keeps changing, and what it delivers |
| `WatchManager`, `ManagerRefinement` | the registry of per-principal watches, as an object and as a machine, the object's methods as runs of that machine, and lifecycle notifications |
| `Series`, `InstanceIds` | a CalDAV series object: expansion, lookup and override in place; ids of occurrences |
| `BatchOrder` | the order of the sub-requests of a `$batch` |
| `Sieve`, `SieveLaws`, `RuleStore` | the rule compiler and importer, and rule CRUD over one stored script |
| `Wrappers`, `Sequences`, `Decimal` | shared helpers |

Code that updates state in place is modelled by classes and loops proved against
specification functions; the laws are lemmas about those functions. Concurrent code is a state
machine whose steps are the critical sections, and its laws hold for every sequence of steps.
Servers, clocks, the mail relay and the libraries appear as parameters: what they answered is
an argument, and what their standard requires of them is a `requires` clause.

## Where the code differs from what is claimed for it

Each of these is kept as the code has it. The members named give the input and the condition,
exact (if and only if) unless said otherwise.

- calendar_write.go:272-285 promises to stamp the mailbox as organizer. With an attendee who is
  an owner too, the keys `a1`, `a2` and so on sort before `organizer`, so that attendee is read
  as the organizer, the mailbox that was stamped is dropped on the next rewrite, and the attendee
  is stored twice, once without the delivery status: `Bookkeeping.DoubleRoleKeepsMailboxOut` is
  the input. `Bookkeeping.RecordedOrganizerIff` and `Bookkeeping.RecordedOrganizerOfNineIff` say
  when the mailbox ends up as organizer, `Bookkeeping.RecordedRosterIff` and
  `Bookkeeping.PatchKeepsBooks` when each attendee is stored once.
- `filter.go` calls a header `eq` exact and negates it, but emits a substring search:
  `not (subject eq 'a')` loses a message with subject "ab"
  (`FilterTranslation.NegatedSubjectLosesAb`). An empty literal asks for the field to exist.
  `FilterTranslation.LeafNeverLosesIffSafe` says exactly when one predicate or its negation
  loses nothing. For compound filters that condition on the leaves is sufficient
  (`FilterTranslation.SearchIsSuperset`) and not necessary (`FilterTranslation.SafeIsNotNeeded`).
- The 32-bit conversions of Top and Skip: `MessageList.WindowIsPagingIff`, with the input
  `MessageList.SkipWraps`.
- A delta token with mod-sequence 0 sends neither CHANGEDSINCE nor VANISHED, and then expunged
  messages stay (`Replica.ZeroTokenKeepsExpunged`): `Replica.TokenConvergesIff`.
- manager.go:270-271 calls notifications idempotent, and they repeat: delta.go:136 takes the next
  token from the SELECT and delta.go:120 reads at the FETCH, so a change between the two is delivered
  by this sync and by the next one (`Delivery.ArrivalDeliveredTwice`, and
  `Delivery.DeliveredTwiceIff` for exactly which are). Expunges raise the signal
  (imap.go:108-118) and are delivered to nobody, because notify.go:70 drops the removed ids:
  `Delivery.ExpungesAreSilent`. Several changes of a message between two syncs are one id:
  `Delivery.ReportedOnce`.
- Attendees come back in the order written only up to nine of them (`a10` sorts before `a2`):
  `RosterLaws.OrderKeptIffAtMostNine`. Rewriting the roster duplicates an organizer who is an
  attendee too (`RosterLaws.EachAttendeeRewritesRoster`) and may change who the organizer is
  (`RosterLaws.EachAttendeeKeepsOrganizer`).
- `UpdateEvent` failing after an invitation was mailed leaves the stored event without the outcome
  that the answer reports: `Scheduling.Handler.InviteAttendees`.
- A SEQUENCE of 2^63 or more turns negative and is clamped to 0 by the attendee's side:
  `EndToEnd.SuccessorReplacesIff`. A CANCEL carries the SEQUENCE of the event it
  withdraws, although itip.go:404 calls it bumped: `Addressees.PatchMailsExactly`.
- A signalled change whose sync fails stays undelivered until the next signal:
  `Delivery.DrainDeliversIff`, `Delivery.FailureStrands`.
- The expansion of a series uses the last of several overrides for one occurrence and a lookup
  the first; for a master with a span of zero or less they also disagree about the duration:
  `Series.LookupAgreesIff`, with the input `Series.TwoOverridesDisagree`.
- A series path with a space does not decode as a series: `InstanceIds.SeriesIdRoundTripIff`.
- A rule created without a Sequence evaluates last until the highest Sequence is 2^63-1:
  `RuleStore.NewRuleIsLastIff`, with the input `RuleStore.SequenceWraps`.
- connpool.go:191 says leases returned after `closeAll` are torn down; `checkin` parks them.
  `ConnPool.Pool.CloseAll` and `ConnPool.Pool.Checkin` say what happens.

## Model

| member | source | states |
|---|---|---|
| Delta.Client.Delta | internal/mail/imap/delta.go:67-137 | returns the page or the error for every outcome of token, capability, SELECT and FETCH, whatever an earlier command left in `vanished`, and leaves it cleared after reporting removals |
| Delta.Client.FetchDelta | internal/mail/imap/delta.go:155-177 | an empty range fetches nothing; otherwise the fetched messages newest first, with the VANISHED of the round trip collected |
| Delta.Client.OnVanished | internal/mail/imap/imap.go:113-118 | VANISHED responses accumulate in the order received |
| Delta.NewestFirstAt | internal/mail/imap/delta.go:155-177 | message i of a page is the buffer i places from the end |
| Mailbox.UntouchedSince | internal/mail/imap/delta.go:51-56 | a message whose last mod-sequence is at most that of an earlier state is as it was then, over any run of server changes in one UIDVALIDITY |
| Replica.UpsertFetched | internal/mail/imap/delta.go:113-137 | applying a page sets exactly the fetched ids, to the fetched data |
| Replica.TombstonesAt | internal/mail/imap/delta.go:124-136 | the removed ids are exactly the vanished UIDs of this UIDVALIDITY, ranges expanded |
| Replica.IncrementalPage | internal/mail/imap/delta.go:113-137 | an incremental page read at any later state brings every message into agreement |
| Replica.FullPage | internal/mail/imap/delta.go:101-110 | a full page brings a replica that holds nothing of this UIDVALIDITY into agreement for every message not touched between SELECT and FETCH |
| Replica.SyncKeepsSynced | internal/mail/imap/delta.go:67-137 | one sync keeps the invariant "everything unchanged since the held token is replicated", with the server changing before SELECT and between SELECT and FETCH, and with a missing capability, a failing SELECT or a failing FETCH |
| Replica.RunKeepsSynced | internal/mail/imap/delta.go:67-137 | so does any run of syncs, failing ones included |
| Replica.QuietSyncConverges | internal/mail/imap/delta.go:67-137 | after any run, one successful sync on a quiet mailbox makes replica and folder equal, and touches no id of another UIDVALIDITY |
| Replica.TokenConvergesIff | internal/mail/imap/delta.go:113-166 | the pages of a token of the present UIDVALIDITY always converge exactly when its mod-sequence is not 0 |
| Replica.ZeroTokenKeepsExpunged | internal/mail/imap/delta.go:155-166 | with mod-sequence 0 a replica keeps an expunged message |
| Replica.ZeroTokenConverges | internal/mail/imap/delta.go:155-166 | one page of such a token converges exactly when each expunged message the replica holds is reported all the same |
| MessageIds.MessageIdRoundTrip | internal/mail/imap/id.go:27-50 | a message id decodes to its parts exactly for mailbox names without NUL, and is an error otherwise |
| MessageIds.MessageIdInjective | internal/mail/imap/id.go:27-30 | no two messages share an id, whatever the mailbox names |
| MessageIds.DeltaTokenRoundTrip | internal/mail/imap/delta.go:23-46 | a token decodes to its numbers exactly when they fit 32 and 64 bits |
| MessageIds.UnquoteQuote | internal/odata/odata.go:319-323 | unquoting a quoted OData literal gives the text back, runs of quotes included |
| ImapSearch.AndMatches | internal/mail/imap/filter.go:55-88 | merging criteria means both, also where day bounds are merged |
| FilterTranslation.FindAddress | internal/mail/imap/filter.go:297-312 | the loop decides whether some recipient equals the value, and its negation for `ne` |
| FilterTranslation.SearchIsSuperset | internal/mail/imap/filter.go:51-203 | every message a safe filter keeps satisfies the translated criteria |
| FilterTranslation.TranslationMeaning | internal/mail/imap/filter.go:55-203 | what the criteria of each construct select: whole days, the Seen flag exactly, the connectives as themselves |
| FilterTranslation.LeafNeverLosesIffSafe | internal/mail/imap/filter.go:93-138 | one predicate, negated or not, never loses a message exactly when it is safe |
| FilterTranslation.NegatedSubjectLosesAb | internal/mail/imap/filter.go:93-138 | `not (subject eq 'a')` keeps a message with subject "ab" and SEARCH does not find it |
| FilterTranslation.SafeIsNotNeeded | internal/mail/imap/filter.go:55-138 | a compound filter that is not safe may still lose nothing |
| MessageList.FilteredListingIsExact | internal/mail/imap/imap.go:321-355 | SEARCH then re-check keeps exactly what the filter keeps of all messages |
| MessageList.ListFiltered | internal/mail/imap/imap.go:321-355 | the filtered listing is the paging of the newest-first list of exactly the kept messages, and never lists another |
| MessageList.Recheck | internal/mail/imap/imap.go:343-351 | the loop keeps exactly the candidates the filter accepts |
| MessageList.WindowIsPagingIff | internal/mail/imap/imap.go:286-313 | the sequence-number window equals paging the newest-first list exactly when the page survives 32 bits |
| MessageList.SkipWraps | internal/mail/imap/imap.go:286-313 | a Skip of 2^32 passes over nothing |
| Participants.SortedParticipantKeys | internal/calendar/jscal.go:173-180 | the keys in ascending string order, whatever the map order |
| Participants.AscendingUnique | internal/calendar/jscal.go:173-180 | an ascending listing of given keys is unique |
| Participants.ReadBack | internal/calendar/jscal.go:163-229 | reading the written map with a role gives, as a multiset, the attendees and the organizer with that role |
| RosterLaws.WrittenRosterIsRead | internal/calendar/jscal.go:163-229 | Attendees after SetOrganizerAttendees is a permutation of the input exactly when all have the role and the organizer lacks it |
| RosterLaws.EachAttendeeRewritesRoster | internal/server/calendar_write.go:599-617 | eachAttendee applies its function to the roster as a multiset exactly when the organizer is no attendee |
| RosterLaws.WrittenOrganizer | internal/calendar/jscal.go:152-229 | the organizer read back is the first attendee by key who is an owner, and the organizer written when there is none |
| RosterLaws.EachAttendeeOrganizer | internal/server/calendar_write.go:599-617 | the organizer eachAttendee leaves: the rewritten first attendee who is an owner, else the one there was |
| RosterLaws.EachAttendeeKeepsOrganizer | internal/server/calendar_write.go:599-617 | it keeps the organizer exactly when the first attendee by key who is an owner, if there is one, is rewritten to the organizer |
| RosterLaws.TenthIsReadSecond | internal/calendar/jscal.go:217-229 | with ten or more attendees the tenth is read second |
| RosterLaws.OrderKeptIffAtMostNine | internal/calendar/jscal.go:163-229 | distinct attendees come back in order exactly up to nine |
| Invitations.RequestRoundTrip | internal/scheduling/scheduling.go:193-321 | a built REQUEST parses back to its invitation: names sanitized, trailing space of addresses trimmed, unaddressed attendees dropped, every PARTSTAT reset |
| Invitations.AddressCarried | internal/scheduling/scheduling.go:430-481 | a built address parses back to the sanitized name and trimmed email |
| InviteStore.Store.ProcessRequest | internal/itip/itip.go:227-287 | the new store and the answer for every message, port and backend failure: override, duplicate or stale kept, higher SEQUENCE updated, else created |
| InviteStore.OnePerUidKeptIff | internal/itip/itip.go:264-286 | a master REQUEST leaves one event per UID exactly when UIDs can be looked up or there was nothing to look up |
| InviteStore.StreamAdvances | internal/itip/itip.go:227-287 | any stream of messages, failures included, keeps one event per UID and never lowers a stored SEQUENCE |
| InviteStore.StepHolds | internal/itip/itip.go:264-286 | one message replaces the held event exactly when its clamped SEQUENCE is higher and no call to the backend fails |
| InviteStore.StreamHolds | internal/itip/itip.go:264-286 | the store ends with the latest of what it held and what the messages carried that no backend failure lost |
| InviteStore.LatestIsFirstOfMaximal | internal/itip/itip.go:259-273 | which is the first message of maximal SEQUENCE, a held event winning ties |
| InviteStore.StreamsConverge | internal/itip/itip.go:227-287 | streams of which the same messages land, in any order and repetition, whatever calls fail, leave the same event per UID when equal SEQUENCE means equal content |
| Scheduling.RewriteAttendees | internal/server/calendar_write.go:611-617 | the loop rewrites every attendee and puts the roster back |
| Scheduling.RecordSchedulingOutcome | internal/server/calendar_write.go:276-285 | puts the mailbox in as organizer unless it is, then the status on each recipient; who is read as organizer afterwards is `Bookkeeping.RecordedOrganizerIff` |
| Scheduling.BuildInvite | internal/itip/itip.go:146-175 | the invitation of a stored event |
| Scheduling.RemovedRecipients | internal/server/calendar_write.go:172-184 | the current recipients whose folded address no merged recipient has, in order |
| Scheduling.RosterAdded | internal/server/calendar_write.go:188-199 | whether some merged recipient's folded address is new |
| Scheduling.Handler.SendRequest | internal/server/calendar_write.go:103-120 | mails exactly the buildable REQUEST the relay takes, and reports sent or undelivered accordingly |
| Scheduling.Handler.SendCancelTo | internal/server/calendar_write.go:141-161 | mails the CANCEL to the given recipients, none when there are none or none has an address |
| Scheduling.Handler.InviteAttendees | internal/server/calendar_write.go:81-97 | the stored event, the answer and the mail of a creation, also when storing the outcome fails; nothing without recipients or under a native scheduler |
| Scheduling.Handler.ReinviteOnUpdate | internal/server/calendar_write.go:302-338 | the event to store and the mail, in order, of a PATCH |
| Addressees.EachAttendeeKeepsAddresses | internal/server/calendar_write.go:599-617 | bookkeeping on the roster changes no address on it, double roles included |
| Addressees.RemovedAre | internal/server/calendar_write.go:172-184 | the dropped recipients are exactly the set difference of folded addresses |
| Addressees.PatchMailsExactly | internal/server/calendar_write.go:302-338 | a PATCH mails CANCEL to exactly the dropped recipients at the revision they hold, and REQUEST to exactly the merged roster one revision up; when each is mailed |
| Addressees.PatchMailsDisjoint | internal/server/calendar_write.go:302-338 | no address hears both, the organizer hears neither |
| Bookkeeping.PatchKeepsBooks | internal/server/calendar_write.go:201-338 | a PATCH that re-invites stores, as a multiset, each merged attendee once, recipients with the delivery status and pending answers after a significant change, exactly when no attendee is an owner (for other changes also when the organizer is the mailbox and no attendee) |
| Bookkeeping.RecordedOrganizerIff | internal/server/calendar_write.go:272-285 | the recorded event has the mailbox as organizer exactly when the first attendee by key who is an owner, if there is one, is the mailbox |
| Bookkeeping.RecordedOrganizer | internal/server/calendar_write.go:272-285 | it has when every owner among the attendees is the mailbox, and has not when there are owners among them and none is |
| Bookkeeping.RecordedOrganizerOfNineIff | internal/server/calendar_write.go:272-285 | for up to nine attendees, exactly when the first owner in their order is the mailbox |
| Bookkeeping.DoubleRoleKeepsMailboxOut | internal/server/calendar_write.go:272-285 | one attendee who is an owner too: the mailbox is on nobody and the attendee is stored twice, once without the status |
| Bookkeeping.RecordedRosterIff | internal/server/calendar_write.go:276-285 | the stored attendees are the stamped ones, as a multiset, exactly when no attendee is an owner or the organizer is the mailbox and no attendee; else there is one too many |
| Bookkeeping.PatchStampsOrganizerIff | internal/server/calendar_write.go:302-338 | exactly when a PATCH that re-invites stores the mailbox as organizer |
| Bookkeeping.StoredInviteKeepsAttendees | internal/itip/itip.go:81-175 | the attendees of an invitation survive being stored as an event, with the answers the calendar knows |
| EndToEnd.RequestAgrees | internal/itip/itip.go:81-175 | a mailed event read back agrees with the revision: identity, title, times, SEQUENCE, organizer, invited addresses |
| EndToEnd.PatchIsSound | internal/server/calendar_write.go:302-338 | one PATCH keeps the SEQUENCE or raises it by one, and any REQUEST carries the new one |
| EndToEnd.RunIsSound | internal/server/calendar_write.go:302-338 | over any run of PATCHes the REQUESTs carry strictly increasing revisions, each agreeing with the event stored with it |
| EndToEnd.LifeIsSound | internal/server/calendar_write.go:81-120 | the same with the invitation of the creation in front |
| EndToEnd.AttendeeHoldsHighestDelivered | internal/itip/itip.go:264-286 | under any loss, reordering, repetition and failing calendar calls the attendee holds the meeting exactly when a REQUEST landed, as stored by the organizer at the highest SEQUENCE that landed |
| EndToEnd.MailedIs | internal/itip/itip.go:146-175 | a mailed event is read back with its identity, its times and its SEQUENCE as a signed integer |
| EndToEnd.SuccessorReplacesIff | internal/itip/itip.go:264-286 | an attendee holding revision n who receives revision n + 1 ends with the new one exactly when n + 1 is below 2^63 and the backend does not fail |
| EndToEnd.MailedEndKeptIff | internal/itip/itip.go:81-175 | the end instant survives mail and store exactly when the offset addDuration adds is not negative and fits a time.Duration |
| ConnPool.Pool.Pop | cmd/mailboxd/connpool.go:109-124 | takes the last parked connection of the principal and nothing else |
| ConnPool.Pool.Get | cmd/mailboxd/connpool.go:76-104 | hands out the last usable parked connection, closes exactly the unusable ones above it newest first, dials only when none is usable |
| ConnPool.Pool.Checkin | cmd/mailboxd/connpool.go:137-151 | parks with the current time, or closes when the token is too old or the principal is full |
| ConnPool.Pool.Compact | cmd/mailboxd/connpool.go:163-175 | splits a slice into fresh and dead, order kept |
| ConnPool.Pool.Reap | cmd/mailboxd/connpool.go:157-185 | every principal keeps exactly its fresh connections in order, exactly the others are closed, each once when each was parked once |
| ConnPool.Pool.CloseAll | cmd/mailboxd/connpool.go:192-202 | closes exactly what is parked, each once when each was parked once, and empties the pool; leases stay out |
| ConnPool.Lease.Close | cmd/mailboxd/connpool.go:128-133 | gives the connection back once; closing again changes nothing |
| PoolProtocol.StepKeepsInv | cmd/mailboxd/connpool.go:76-202 | every critical section keeps each connection in exactly one place, under its principal and within the limits |
| PoolProtocol.EveryConnectionInOnePlace | cmd/mailboxd/connpool.go:76-202 | in every interleaving each dialled connection is at exactly one place and is closed at most once |
| PoolProtocol.OwnersAndLimitsHold | cmd/mailboxd/connpool.go:76-212 | in every interleaving a connection is parked only under its own principal, at most maxIdle of them, and reused only by it, with more than skew left and not idled out at the clock of the call |
| PoolProtocol.SecondCloseChangesNothing | cmd/mailboxd/connpool.go:128-133 | a stale lease closed again later changes nothing, whatever happened between |
| PoolRefinement.Pop | cmd/mailboxd/connpool.go:109-124 | the object's pop is the protocol's step, on every state the object shows |
| PoolRefinement.Checkin | cmd/mailboxd/connpool.go:137-151 | a checkin is a release followed by settling it |
| PoolRefinement.Reap | cmd/mailboxd/connpool.go:157-185 | a sweep is one step, and closes each connection that step takes out, once, and no other |
| PoolRefinement.CloseAll | cmd/mailboxd/connpool.go:192-202 | so is a shutdown |
| PoolRefinement.Get | cmd/mailboxd/connpool.go:76-104 | a whole get is a run of pops and rejections ending in a grant, a dial or a failed dial, with the connection leased that the protocol says |
| SpecTree.StripIsClean | internal/specsubset/specsubset.go:351-388 | after pruning no map at any depth has a vendor key or a discriminator |
| SpecTree.StripRefs | internal/specsubset/specsubset.go:351-510 | pruning introduces no reference |
| SpecTree.StripProperties | internal/specsubset/specsubset.go:351-510 | of any object's properties, whatever the flattenings rewrite beside them, exactly the navigation ones and names that are vendor keys or "discriminator" disappear |
| SpecTree.StripKeepsOnlyKept | internal/specsubset/specsubset.go:351-510 | every property in any properties map of the pruned tree, at any depth, is a kept property of the original under its name, pruned |
| SpecClosure.RefToLocInjective | internal/specsubset/specsubset.go:514-524 | two references to one component are the same text |
| SpecClosure.Closure | internal/specsubset/specsubset.go:129-169 | the loop ends, for any order of popping, with exactly the components and warnings of the reachable references |
| SpecClosure.KeepPaths | internal/specsubset/specsubset.go:94-103 | the kept paths that exist, and in order those that do not |
| SpecClosure.Subset | internal/specsubset/specsubset.go:87-169 | outputs the kept paths pruned and exactly the existing, not dropped components reachable from them, pruned; one warning for each kept path the document lacks and one for each unresolved reference |
| SpecClosure.NothingDangles | internal/specsubset/specsubset.go:135-169 | every reference left resolves in the output, names a dropped schema or has exactly one warning |
| SpecClosure.PrunedWithinNaive | internal/specsubset/specsubset.go:118-169 | the pruned closure never exceeds the one over the original nodes |
| Watch.RunResource.OnChange | internal/notify/notify.go:116-139 | a failed sync keeps the token; a successful one advances it and delivers a non-empty batch |
| Watch.Adapt | internal/notify/notify.go:69-79 | the ids of the changed messages in order, the removed ones dropped |
| Watch.OutcomeIs | internal/mail/imap/delta.go:67-137 | a sync from a token the loop holds succeeds and yields the token of its SELECT |
| Watch.StepKeepsInv | internal/mail/imap/idle.go:51-74 | a change, a push, a taken signal, a SELECT, a FETCH, a finish and a failure each keep the invariant |
| Watch.NothingLost | internal/notify/notify.go:109-139 | in every interleaving a change signalled beyond the token is pending, taken, selected or read far enough, or met by a failed sync; each sync starts from the token of the one before; and the batches are what the syncs reported |
| Delivery.ReportsChangedIff | internal/mail/imap/delta.go:113-137 | a sync reports exactly the messages present at its FETCH that changed after its token |
| Delivery.ReportsPresent | internal/mail/imap/delta.go:101-110 | a sync of a recreated folder is a first sync: it reports messages present at its SELECT, and all of them still there at its FETCH |
| Delivery.ReportedOnce | internal/mail/imap/delta.go:155-177 | one sync reports a message once, however often it changed |
| Delivery.ExpungesAreSilent | internal/notify/notify.go:69-79 | a sync over expunges alone reports nothing |
| Delivery.ChainPays | internal/notify/notify.go:116-139 | syncs that follow each other without gap have reported every message still there that changed since the baseline |
| Delivery.RestIsComplete | internal/notify/notify.go:109-139 | at rest after a successful sync the token covers everything signalled, and every message still there that changed between baseline and token was delivered at least once |
| Delivery.DeliveredTwiceIff | internal/mail/imap/delta.go:94-136 | a change is delivered by at most two syncs, neighbours, and by both exactly when it fell between SELECT and FETCH of the first and the message has not changed since |
| Delivery.ArrivalDeliveredTwice | internal/mail/imap/delta.go:94-136 | a run in which a message arriving between SELECT and FETCH is delivered twice |
| Delivery.DrainDeliversIff | internal/mail/imap/idle.go:65-74 | however the server answers, the loop left alone comes to rest with everything signalled behind its token exactly when something was pending, taken, or selected or read far enough |
| Delivery.DrainEnds | internal/mail/imap/idle.go:65-74 | and it can come to rest from every reachable state |
| Delivery.FailureStrands | internal/notify/notify.go:116-125 | a failed last sync strands a signalled change |
| WatchManager.Manager.StartLoops | internal/notify/manager.go:104-140 | the number of loops started and the minimum of the non-zero expiries |
| WatchManager.Manager.OnSubscribe | internal/notify/manager.go:93-153 | registers the watch for its principal and tears down exactly the one replaced, or changes nothing |
| WatchManager.Manager.Swap | internal/notify/manager.go:272-280 | replaces one entry and hands its old watch to teardown |
| WatchManager.Manager.ReapOwner | internal/notify/manager.go:241-252 | drops the entry of a principal without subscriptions and hands its watch to teardown |
| WatchManager.StepKeepsInv | internal/notify/manager.go:93-285 | every critical section keeps each watch in one place |
| WatchManager.EveryStartedWatchOwnedOnce | internal/notify/manager.go:93-285 | in every interleaving a started watch is being built, its own principal's entry, on its way to teardown or torn down once, and in no two of these |
| ManagerRefinement.OnSubscribe | internal/notify/manager.go:93-153 | a subscription run alone is a run of the machine: build, start each loop, then drop, or swap in and tear down the one replaced |
| ManagerRefinement.ReapOwner | internal/notify/manager.go:241-252 | reaping one principal is taking its entry out and tearing it down, or nothing |
| WatchManager.LifecycleInOrder | internal/notify/manager.go:158-201 | a watch's events form a prefix of reauthorizationRequired, missed, or of missed alone when stale at scheduling, none before its time |
| WatchManager.MissedNotBeforeSoonest | internal/notify/manager.go:104-184 | missed is not emitted before the minimum non-zero expiry |
| Series.CollectOverrides | internal/calendar/caldav/recurrence.go:69-82 | the first master, and for each id the last override |
| Series.ExpandInstances | internal/calendar/caldav/recurrence.go:60-163 | the errors, the single event, or an expansion: strictly ascending, one instance per rule occurrence or override id in the window, the override wherever one exists |
| Series.FromOverrides | internal/calendar/caldav/recurrence.go:139-157 | adds exactly the overrides in the window that no occurrence surfaced, in any map order |
| Series.ExpansionUnique | internal/calendar/caldav/recurrence.go:142-161 | the expansion does not depend on map order |
| Series.Object.WriteInstanceOverride | internal/calendar/caldav/write.go:139-186 | the children keep their order, stale overrides of the occurrence go, the fresh one is appended; no RecurrenceID, a failing read, an object without data and a failing write are errors that leave the object |
| Series.OverrideChangesOneInstance | internal/calendar/caldav/write.go:160-186 | the override changes the expansion at one recurrence id only, for every window, and is listed there |
| Series.OccurrenceTimes | internal/calendar/caldav/recurrence.go:104-137 | an occurrence without override starts at its recurrence id, lasts as long as the master and is no series itself |
| Series.Object.InstanceFromObject | internal/calendar/caldav/caldav.go:225-268 | the first override for the instant, else the occurrence made from the master, else nothing |
| Series.LookupAgreesIff | internal/calendar/caldav/caldav.go:225-268 | exactly when a lookup agrees with the listing apart from the ETag |
| Series.TwoOverridesDisagree | internal/calendar/caldav/caldav.go:225-268 | with two overrides for one occurrence the listing shows the second and a lookup the first |
| Series.LookupAgrees | internal/calendar/caldav/caldav.go:225-268 | it does with one override for the id and a positive span |
| InstanceIds.InstantRoundTripIff | internal/calendar/caldav/id.go:47-50 | the compact timestamp reads back exactly for the years 0 to 9999 |
| InstanceIds.InstanceIdRoundTripIff | internal/calendar/caldav/id.go:56-80 | an instance id decodes to any path and its instant exactly for those years |
| InstanceIds.SeriesIdRoundTripIff | internal/calendar/caldav/id.go:30-80 | a series id decodes as a series exactly without a space in its path |
| InstanceIds.InstanceIdsInjective | internal/calendar/caldav/id.go:56-59 | no two occurrences share an id |
| BatchOrder.ExecutionOrder | internal/batch/batch.go:164-213 | succeeds exactly for distinct non-empty ids, known dependencies and no cycle; then a permutation with dependencies first; an error names a real defect |
| BatchOrder.Sorter.Visit | internal/batch/batch.go:184-205 | the recursive visit ends, keeping finished sub-requests listed after their dependencies |
| BatchOrder.CycleOnStack | internal/batch/batch.go:184-205 | meeting a sub-request under visit means a cycle through it |
| BatchOrder.OrderedIsAcyclic | internal/batch/batch.go:164-213 | an order with dependencies first exists only without a cycle |
| Sieve.Encode | internal/sieve/sieve.go:40-60 | rules in stable Sequence order, each as its metadata and, when enabled, its test and actions |
| Sieve.BuildActions | internal/sieve/sieve.go:141-165 | the commands of a rule, stop last |
| Sieve.Decode | internal/sieve/sieve.go:65-99 | metadata rules when there are any, else the imported blocks; unreadable metadata is an error |
| Sieve.Draft.ConditionsFromTest | internal/sieve/sieve.go:187-219 | folds a test into the conditions through nested allof |
| Sieve.Draft.ActionsFromCommands | internal/sieve/sieve.go:222-251 | folds a command list into the actions |
| SieveLaws.StableSortSorts | internal/sieve/sieve.go:41-42 | the sort is sorted, keeps every rule, and keeps equal Sequences in order |
| SieveLaws.StableOrderUnique | internal/sieve/sieve.go:41-42 | which determines the order |
| SieveLaws.DecodeInvertsEncode | internal/sieve/sieve.go:40-99 | decoding an encoded list gives it stably sorted |
| SieveLaws.TestInverts | internal/sieve/sieve.go:111-219 | the importer inverts the condition compiler for all conditions, display names erased |
| SieveLaws.ActionsInvert | internal/sieve/sieve.go:141-251 | and the action compiler |
| SieveLaws.TestMeansConditions | internal/sieve/sieve.go:111-136 | the compiled test holds exactly when every populated field matches by any of its values |
| SieveLaws.ActionsRun | internal/sieve/sieve.go:141-165 | the compiled actions have the rule's effects and halt exactly for a stop rule |
| SieveLaws.ScriptDoesWhatRulesSay | internal/sieve/sieve.go:40-60 | the encoded script has on every message the effects of interpreting the rules directly |
| SieveLaws.DisabledRulesDoNothing | internal/sieve/sieve.go:45-54 | leaving out disabled rules changes no effect on any message |
| RuleStore.FreshId | internal/mailfilter/mailfilter.go:127-137 | the lowest unused id, within one more try than there are rules |
| RuleStore.FindMaxSequence | internal/mailfilter/mailfilter.go:140-148 | the highest Sequence, or 0 |
| RuleStore.Client.List | internal/mailfilter/mailfilter.go:36-49 | no script is no rules; otherwise the decoded rules or the error |
| RuleStore.Client.Get | internal/mailfilter/mailfilter.go:52-63 | the first rule with the id, or not found |
| RuleStore.Client.Create | internal/mailfilter/mailfilter.go:66-79 | appends the rule under the lowest free id with a Sequence; a failure leaves the store |
| RuleStore.Client.Update | internal/mailfilter/mailfilter.go:82-98 | replaces the first rule with the id; not found never writes |
| RuleStore.Client.Delete | internal/mailfilter/mailfilter.go:101-116 | removes the id; not found never writes |
| RuleStore.CreateRefines | internal/mailfilter/mailfilter.go:66-79 | creating adds one new id to the map |
| RuleStore.UpdateRefines | internal/mailfilter/mailfilter.go:82-98 | updating changes the map at one id it had |
| RuleStore.DeleteRefines | internal/mailfilter/mailfilter.go:101-116 | deleting takes one id out of the map |
| RuleStore.StepRefinesMap | internal/mailfilter/mailfilter.go:36-124 | a written operation keeps ids unique, makes exactly its change to the map (a create adds the lowest free id, with the caller's Sequence or one more than the highest) and leaves the list sorted; a failed one changes nothing |
| RuleStore.RunRefinesMap | internal/mailfilter/mailfilter.go:36-124 | in every run from an empty or foreign script each written operation makes exactly its change to the map, and the others none |
| RuleStore.Perform | internal/mailfilter/mailfilter.go:66-116 | a call of the client is a step of the store, written exactly when it reports success |
| RuleStore.PerformAll | internal/mailfilter/mailfilter.go:66-116 | any list of calls with any answers is a run of the store |
| RuleStore.NewRuleIsLastIff | internal/mailfilter/mailfilter.go:66-79 | a rule created with Sequence 0 is listed last exactly while the highest Sequence can be exceeded |
| RuleStore.SequenceWraps | internal/mailfilter/mailfilter.go:66-79 | after a rule at 2^63-1 the rule created next gets -2^63 and is listed first |

## Left out

- Network, TLS, SASL, SMTP, HTTP handlers, JSON, MIME and flag parsing, and the generated Graph API: plumbing without state of its own. base64url, JSON and the iCalendar TEXT escapes are taken as lossless, as constructors.
- Text comparison: ToLower, EqualFold and the server's comparator are one folding per character (in `ImapSearch` any such folding, elsewhere ASCII); Unicode case pairs that differ between the Go functions are not modelled.
- Time is an integer: nanoseconds in `ImapSearch`, seconds in the calendar modules. Fractions of a second, named time zones and nominal units of a duration are not modelled.
- The IMAP FETCH is one read of the mailbox; what a server may answer for a message expunged meanwhile is left open, and no folder is recreated under an open selection.
- In-place updates of aliased Go maps: `SpecTree` returns the rewritten tree, so a node shared by two parents is pruned as two.
- SpecTree.StripProperties: a `properties` map in which a property named `anyOf` or `oneOf` has a list for its schema is taken for a union by the source; for such a map only the keys its flattening leaves are stated, because the list decides them. `injectDeltaTokenParams`, `injectIfMatchParams`, `injectODataEtag` and `stripSendResponseDefault` add or drop single fields.
- Idempotence of the pruning, which needs a second pass over nested nullable unions.
- Mail is sent before the event is written (internal/server/calendar_write.go:382-384); a failing write of a creation is in the model, a failing write of a PATCH is not, and the PATCHes of a run do not overlap.
- EndToEnd.AttendeeHoldsHighestDelivered: is about REQUESTs for the whole series and REQUESTs with a UID, because an instance REQUEST bypasses the SEQUENCE comparison (internal/itip/itip.go:241-257); the location is not part of an invitation.
- Where a PATCH's merged event comes from: `mergeEventPatch` and `mergeAttendees` overlay fields; any merged event with the identity and SEQUENCE of the current one is allowed.
- Bookkeeping.RecordedOrganizerIff: beyond nine attendees its condition is on the roster the code writes back, because that roster is in the string order of the keys; `Bookkeeping.RecordedOrganizer` holds on the given roster for any number.
- UpdateEvent's effect on stored overrides, and the REPLY direction of scheduling.
- PoolProtocol: does not claim that leases returned after a shutdown are torn down, because they are parked.
- WatchManager: does not claim that Reap never stops a principal that subscribes again, because it checks and deletes in separate critical sections.
- Changes between the notify baseline and the installed callback, which only a later signal covers: the wake-up law starts at the installation. A change of flags alone raises no signal at all (internal/mail/imap/imap.go:101-118), so a push tells of any part of the history.
- Watch: is about the mail loop, whose SyncFunc is the IMAP delta; the calendar and contact loops share RunResource over the JMAP deltas, which are not part of this model.
- `mapEvent`, `eventToICal` and the recurrence rules are uninterpreted: a component carries the event the bridge reads from it, a rule is the set of instants it generates.
- InstanceIds.InstantRoundTripIff: text with fractional seconds, which time.Parse would accept, counts as malformed.
- `Fields` and `Validate` of the filter tree, which list and check field paths.
- The cap of 20 sub-requests and the dispatching loop of `$batch`.
- Effects of Sieve flags on the stored copy: traces are of commands. Comments and JSON are one constructor; a script the parser refuses is `Unparsable`.
- JMAP deltas and the JMAP `$filter`, contacts, quota, permissions, authentication and token exchange: thin wrappers, lookups, or claims with no clean law.
