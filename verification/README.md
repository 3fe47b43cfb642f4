# Purchase activity, outreach and their neighbours

A Dafny model of the shop's purchase evidence and of what it does with it. `dafny verify dfyconfig.toml` checks all of it.

**Evidence** (`Evidence`, `Entitlements`, `Activity`, `ActivityHistory`, `Qualities`). Each poll folds a set of remote
traffic counters into one `PurchaseActivity` row. The row is an object updated field by field; a log of accepted polls is
kept beside it. For every sequence of polls the row is a function of the log, and the "active" and "inactive" answers hold
exactly when the log contains certain evidence. `Entitlements` says what each judgement means in the columns of order, cups
and sources, and `Qualities` what each quality, state, cycle and answer means in the samples of the log and the columns of
the polls. `Candidates` adds the choice of a message and the days that the inactivity message states.

**Outreach** (`Outreach`, `OutreachSafety`, `OutreachCaps`, `SlidingWindow`, `OutreachAnswers`, `OutreachService`). Workers
reserve an event under locks, check again without them, send, and record the outcome by a conditional update; sweeps, retries
and preparations run beside them. The protocol is a state machine over these atomic steps, with an arbitrary clock reading in
each step, arbitrary interleaving and crashes. `Service` holds the functions of the program as methods; each method is proved
to be a sequence of protocol steps, so what holds of every run holds of the tables that the methods produce
(`TablesAreSafe`). The other contracts of `Service` are for calls that no other worker interrupts; `OutreachAnswers` says
what an answer, a check and a sweep mean in every run, whatever other workers do in between. `SweptInFlight` is one such run.
`Permissions` says, in the columns that the program reads, exactly when a reservation is granted and a check passed, and that
every held event and every attempt of every run rests on that.

**Attribution and ownership** (`Attribution`, `AttributionSafety`, `FailClosed`, `Ownership`, `RightfulOwners`, `Collection`,
`Provenance`). Delivered sources are resolved to remote rows, claims are collected, and a purchase gets only the rows that it
alone claims. Renewals move clients between purchases before that. `RightfulOwners` and `FailClosed` say in the columns of
the tables, and in digests and aliases, who owns a client, what a purchase is given, and what a measured row excludes.
`Collection` puts the two together, from the tables to what is handed over to be recorded. `Provenance` leads an "inactive"
answer back through the recorded polls to what each collection behind it found.

**Lease** (`Lease`). The lease row is a state machine over its conditional updates, with any number of collectors, clocks and
crashes; what holds of every run holds of the row that the collector's methods produce (`CollectorIsFenced`). The other
contracts of `ActivityCollector` are for a collection that no other collector interrupts.

**Pagination** (`Pagination`), **notifications** (`Notifications`), **panel deletion** (`Deletion`,
`DeletionExact`, `DeletionRun`), **Shadowsocks links** (`Links` over `Utf8`, `Base64` and `Percent`: the SIP002 URI
scheme, sections 4 and 5 of RFC 4648, section 2.1 of RFC 3986) and **bank messages** (`Sms`) are models of their own.

Instants are integers in microseconds. Hashes are an abstract identity that is injective on the stripped text. Loops over
dictionaries, sets and query sets take their elements in any order.

## What was found

- `entitlement` compares `used_bytes` with the quota without checking that it is there. A PasarGuard account with a positive
  quota and no known usage that is neither expired nor limited makes it raise; the reader of the other panels puts 0 in the
  place of a missing usage. Attribution refuses such a row for its missing counters and hands it over all the same
  (`MissingUsageIsReal`). The exception rolls the poll back and ends the whole collection, so that the purchases after it
  are not recorded in that run (`CollectActivity` ends with `Raised`).
- A source that stands for one client, be it the client's own or that of a link to it, lands in no purchase but the client's
  owner exactly when every other purchase that carries it in a cup is one that the client has moved on from, which fails,
  for one, when the owner is the client's own order again. `OwnRenewalBringsBack` is an order that renews its own client
  after another renewal; both purchases are then given the source. The client's traffic is measured for the owner or for no
  purchase even so (`TrafficIsTheOwners`).
- A link that names a client may be attributed to a row that does not carry the link's own credential: any identity of the
  client is enough, unless the client is a PasarGuard account (`CredentialIsOnRowExactly`).
- `dispatch` returns true whenever the transport accepted the message, also when a sweep has made the event uncertain in the
  meantime, as in the run of `TrueIsAnsweredForUncertain`. `sent_this_run` is the number of events that are sent plus the
  number of those (`TrueAnswersCount`).
- The release of a notification compares time stamps. Claims may read the same time without harm if and only if none of them
  is for a new order, because only its release clears a second field (`NotifiesOnceExactly`); otherwise the receipt may be
  notified twice.
- The deletion preview stops at a model that it has visited as an ancestor. It agrees with the deletion for every database
  exactly when no cascade leads back to its own model; otherwise it shows too little, never too much.
- The dictionary of matched rows depends on the order of the sources exactly when two matched rows share a key
  (`KnownIsUniqueExactly`). Two clients of one inbound with the same first identifier have rows that do, and a purchase of
  both then has two answers (`SharedKeyHasTwoAnswers`).

## Assumptions

- Collector tokens are fresh. A retry of an event, a read followed by an unconditional save in the program, is one atomic
  step, and so is the creation of a candidate's event together with the conditional update after it. An order's customer and store do not change.
- `minimum_bytes()` is the same throughout a run. Only PasarGuard panels use the node name "pasarguard".
- The share of a quota that is left is compared over the real numbers, where the program divides floating-point numbers.
- The local hour, the renewal state, the customer's bot, the support conversations and the counts from the legacy offer
  log are read anew in each step and may be anything.

## Model

| member | source | states |
|---|---|---|
| Evidence.CollectStates | customer_activity/services.py:53-67 | the states of all sources as a set, and the known ends; it stops exactly when some row makes the comparison raise |
| Evidence.ComputeEntitlement | customer_activity/services.py:49-88 | the judgement of a purchase is that of the set of its sources' states, whatever their order, with the latest end only when every source ended at a known time; the four rows below say what that is |
| Entitlements.StatesExactly | customer_activity/services.py:53-88 | when a purchase is valid, unknown, disabled, expired, exhausted or ended, each if and only if, by the columns of order, cups and sources; half a service is never a valid one |
| Entitlements.RefusalsExactly | customer_activity/services.py:50-84 | when it is superseded, closed or in conflict, and for which reason, each if and only if |
| Entitlements.EndExactly | customer_activity/services.py:53-88 | an end is known exactly when all sources of a delivered purchase expired at known dates, and is the last of these |
| Entitlements.RaisesExactly | customer_activity/services.py:57-61 | reading the sources raises exactly when one with a positive quota, neither expired nor limited, has no usage |
| Activity.PurchaseActivity.constructor | customer_activity/models.py:18-30 | a new row has nothing observed, cycle 1 and an empty log |
| Activity.PurchaseActivity.RecordPurchase | customer_activity/services.py:91-172 | one call moves row and log to the next state of the history; an old poll or a raising one changes nothing |
| Activity.PurchaseActivity.Apply | customer_activity/services.py:139-169 | the field updates of one poll, including those of the columns that are kept |
| Activity.NextMarks | customer_activity/services.py:139-161 | the start of the unbroken run and the last counted growth after a poll |
| Activity.Examine | customer_activity/services.py:97-161 | the quality, state, counters, start and growth of one poll, for every row and every poll |
| Activity.Measure | customer_activity/services.py:120-138 | the growth is the sum over all keys and starts at the earliest previous sample, exactly when the counters compare |
| Activity.ReadCounters | customer_activity/services.py:106-116 | counters are read for all rows or reported missing exactly when one of them lacks a value |
| Activity.TotalGrowth | customer_activity/services.py:137 | the loop's total is the sum of the increments of all keys |
| ActivityHistory.RowSummarisesHistory | customer_activity/services.py:117-171 | for every sequence of polls: the log is strictly ordered and linked, the evidence columns depend only on the entries since the last that is not "ok", the cycle is one more than the logged changes, and the end is the last known one of the current stretch of ended entries, or the time when that was first seen |
| ActivityHistory.RunIsMonotone | customer_activity/services.py:127-138 | along an unbroken run every key keeps its terms and never decreases |
| ActivityHistory.GrowthTelescopes | customer_activity/services.py:137 | the logged growths of a run add up to the usage at its end less that at its start |
| ActivityHistory.InactiveExactly | customer_activity/services.py:175-195 | "inactive" is answered exactly when the log holds complete and quiet evidence for the whole window |
| ActivityHistory.ActiveExactly | customer_activity/services.py:175-195 | "active" is answered exactly when the last counted growth of the current run began inside the window |
| ActivityHistory.InactiveIsSound | customer_activity/services.py:117-195 | an inactive verdict rests on an unbroken chain of complete samples with the same keys and terms, steps of at most 45 minutes, from before t-48h to t-90min, each step after the cutoff below the threshold |
| ActivityHistory.InactiveMeansFrozen | customer_activity/services.py:17-195 | with the threshold of one byte every counter equals its value at a sample taken at or before t-48h |
| ActivityHistory.NothingMoves | customer_activity/services.py:129-138 | between entries without counted growth no counter moves |
| ActivityHistory.InactiveNeedsObservations | customer_activity/services.py:17-195 | an inactive verdict needs at least 62 consecutive "ok" observations after the baseline |
| ActivityHistory.ActiveIsSound | customer_activity/services.py:175-195 | an active verdict rests on two linked samples inside the window with growth of at least the threshold |
| ActivityHistory.PartialIsOneSided | customer_activity/services.py:124-161 | a partial entry in the current run withholds "inactive", and full coverage after one starts a new baseline |
| Qualities.QualitiesExactly | customer_activity/services.py:117-138 | for every history: each of the six qualities of an entry with counters, if and only if, by the keys, times, quotas, expiries and counters of the entry and the one before it |
| Qualities.CycleCountsServices | customer_activity/services.py:117-163 | for every history the cycle is one more than the number of entries with other keys or, without an interruption, with other terms or a lower counter; never for a gap |
| Qualities.CountersExactly | customer_activity/services.py:97-161 | counters are kept exactly when there is no reason against it, all rows have them and they are recent; they are those of the rows, and partial exactly when attribution says so |
| Qualities.ReasonExactly | customer_activity/services.py:97-161 | otherwise the quality is the first reason that applies |
| Qualities.StateExactly | customer_activity/services.py:97-167 | the state is that of the entitlement, or unknown exactly when it is none of three and the evidence is not complete |
| Qualities.ValidExactly | customer_activity/services.py:49-167 | after any history, a poll makes the row valid exactly when the whole of a delivered purchase was measured, is recent and usable |
| Qualities.AnswersExactly | customer_activity/services.py:175-195 | the other five answers, if and only if, by the last entry of the log |
| Qualities.EndIsNotedExactly | customer_activity/services.py:168 | an end is noted exactly while the last state is one of the four ended ones |
| Candidates.ComputeKind | customer_activity/outreach.py:53-99 | the kind of message, in the order in which the kinds are tried |
| Permissions.KindExactly | customer_activity/outreach.py:53-99 | when a purchase is a candidate for each kind, if and only if, by the columns of order, cups, settings and row |
| Candidates.UpcomingEnd | customer_activity/outreach.py:73-99 | the loop's lists and minima answer whether some counter ends within a span or has at most a given part of its quota left |
| Candidates.CollectCounters | customer_activity/outreach.py:75-90 | the times and shares left of all counters, or nothing exactly when some sample is too old or in the future |
| Candidates.SmallestShare | customer_activity/outreach.py:83-98 | the smallest share is at most 1/n exactly when n times some remaining volume is at most its quota |
| Candidates.MessageIsHonest | customer_activity/outreach.py:53-72 | for every history: an inactivity message counts days that have passed since the last counted growth, at least two without the floor, on at least 62 observations |
| Candidates.EndedIsRecent | customer_activity/outreach.py:75-76 | for every history: the message about an ended service goes out only within 48 hours of the end of a stretch of ended entries that still lasts |
| Outreach.PathIsPlay | customer_activity/outreach.py:175-288 | the run that the service records is a run of the protocol |
| OutreachSafety.DeliveryKept | customer_activity/outreach.py:175-268 | every step of every worker keeps: one worker per event in flight, whose event is sending or uncertain; all earlier attempts refused |
| OutreachSafety.DeliveryAlways | customer_activity/outreach.py:175-268 | this holds in every run |
| OutreachSafety.AtMostOneDelivery | customer_activity/models.py:105 | in every run each (order, cycle, kind) reaches its customer at most once, every attempt but the last was refused, and "sent" means that the last was accepted |
| OutreachSafety.FinalStatuses | customer_activity/outreach.py:228-268 | no step of anyone leaves "sent" or "uncertain" |
| OutreachSafety.StepStatuses | customer_activity/outreach.py:175-268 | the statuses that one step can lead from and to |
| SlidingWindow.CappedGrows | customer_activity/outreach.py:156-169 | a claim that finds fewer recent claims than its limit keeps every claim within its own limit, whatever the order of the clocks |
| SlidingWindow.WindowBound | customer_activity/outreach.py:156-169 | the claims of any window number at most the limit in force at the last of them to be made |
| OutreachCaps.CapsKept | customer_activity/outreach.py:145-225 | every step keeps the spacing and both limits |
| OutreachCaps.CapsAlways | customer_activity/outreach.py:145-225 | they hold in every run |
| OutreachCaps.CustomerCapHolds | customer_activity/outreach.py:156-165 | in every run, across all stores: no day holds two reserved events of a customer, no seven days hold more than three |
| OutreachCaps.StoreCapHolds | customer_activity/outreach.py:166-169 | in every run, any day's reserved events of a store number at most the limit in force at the last reservation among them |
| OutreachCaps.PersonalQuery | customer_activity/outreach.py:156-165 | the query of suppression selects exactly the recent claims of the customer |
| OutreachCaps.BackedAlways | customer_activity/outreach.py:200-225 | every reservation was made on a prefix of the order's polls whose row was then a candidate of the event's cycle and kind |
| OutreachCaps.InactivityMessageIsBacked | customer_activity/outreach.py:212-223 | in every run, a reserved inactivity message rests on at least 62 complete observations and states honest days |
| OutreachService.Service.constructor | customer_activity/models.py:79-106 | empty tables are the start of a run |
| OutreachCaps.GrantKeepsCaps | customer_activity/outreach.py:145-225 | a reservation that suppression lets through, at any clock reading, keeps the spacing of the customer's events and both limits |
| OutreachService.Service.Reserve | customer_activity/outreach.py:199-225 | a reservation is one protocol step; a granted one makes a ready event "sending" with this claim time, a refused one leaves no reservation behind |
| Permissions.ReservesExactly | customer_activity/outreach.py:145-225 | in whatever world, a reservation is granted if and only if the store is live, the event ready and its message deserved, the hour is in the window, the customer neither muted nor in support, both limits have room, and there is a target |
| Permissions.RefusesExactly | customer_activity/outreach.py:199-221 | what a refused reservation does to the event: nothing, a cancellation, or a note of what holds it back, each by its condition |
| Permissions.BlockExactly | customer_activity/outreach.py:145-172 | what holds a message back is the first of seven conditions, each by the columns |
| Permissions.HeldWasPermitted | customer_activity/outreach.py:199-225 | in every run, each event that is sending, sent or uncertain was reserved when all of this held, at the time that it carries |
| OutreachAnswers.SendsAreChecked | customer_activity/outreach.py:231-248 | in every run no attempt is made but on an event that the same worker, after reserving it, found live, current, unsuppressed and addressed as before |
| OutreachAnswers.TransmittedMessageIsHonest | customer_activity/outreach.py:231-248 | in every run the evidence behind an inactivity message held once more, in the same cycle, when it was checked before the attempt |
| Permissions.ChecksExactly | customer_activity/outreach.py:231-243 | in whatever world, a reserved event is cleared for sending if and only if all of this still holds and its target is the one reserved for; otherwise it is cancelled |
| Permissions.AttemptsArePermitted | customer_activity/outreach.py:231-248 | in every run, before each attempt the same worker has found its event cleared in this sense |
| OutreachService.Service.CheckAgain | customer_activity/outreach.py:231-243 | an event that is no longer due is cancelled if it is still "sending" |
| OutreachService.Service.Transmit | customer_activity/outreach.py:244-255 | the outcome of the transport is recorded once, and only on an event still "sending" |
| Permissions.OutcomesExactly | customer_activity/outreach.py:244-255 | an event still sending becomes sent, failed or uncertain exactly when the message was accepted, refused or neither, with the reason for it; any other event stays as it is |
| Permissions.FailedWasRefused | customer_activity/outreach.py:249-252 | in every run, the last attempt on a failed event was refused by the transport |
| OutreachService.Service.Dispatch | customer_activity/outreach.py:228-261 | without interruption, true means that the event was ready, is sent, and got one more attempt, which was accepted |
| OutreachAnswers.SweptStaysUncertain | customer_activity/outreach.py:266-268 | what a sweep has made uncertain stays so in every run: no result, retry or reservation changes it |
| OutreachAnswers.AcknowledgedIsSentExactly | customer_activity/outreach.py:244-261 | when a dispatch returns true the event is sent or uncertain, and it is sent exactly when it was still "sending" at that step |
| SweptInFlight.TrueIsAnsweredForUncertain | customer_activity/outreach.py:244-268 | a run in which it is uncertain: two polls, a preparation, a reservation, a check, an accepted attempt and a sweep eleven minutes after the claim |
| OutreachAnswers.AnsweredAreClosed | customer_activity/outreach.py:244-268 | in every run beside other workers, true is returned at most once for an event, which is sent or uncertain from then on |
| OutreachAnswers.TrueAnswersCount | customer_activity/outreach.py:275-285 | in every run the count of true answers is that of the worker's sent events plus that of those a sweep has made uncertain |
| OutreachAnswers.SentIsAnswered | customer_activity/outreach.py:252-261 | nothing becomes sent but by a dispatch that returns true |
| OutreachService.TablesAreSafe | customer_activity/outreach.py:175-288 | the tables that the methods leave behind have every property of all runs: delivery, spacing and limits |
| OutreachService.Service.RetryFailed | customer_activity/outreach_views.py:33-42 | only a rejected event goes back to the queue, without its claim |
| OutreachService.Service.PrepareOrder | customer_activity/outreach.py:175-191 | a candidate's event is created or updated if it is still pending |
| Permissions.PreparesExactly | customer_activity/outreach.py:175-191 | in whatever world, the event of the deserved kind is queued, or previewed unless the store is live, with the first thing that holds it back, unless it is reserved or settled; no other event changes |
| OutreachService.Service.PrepareStore | customer_activity/outreach.py:175-196 | the store's candidates are queued, its other pending events cancelled, and no reserved, settled or foreign event changes |
| OutreachService.Service.RunStore | customer_activity/outreach.py:275-280 | without interruption, the count of sent events is the number of events that became "sent" in this call |
| OutreachService.Service.RecordPoll | customer_activity/services.py:91-172 | recording a poll of an order is one protocol step |
| OutreachService.SentByThisCall | customer_activity/outreach.py:276-280 | the delivered events are exactly those that are sent now and were not before |
| Attribution.ResolveSource | customer_activity/mapping.py:180-191 | a source resolves to the only row that it matches, or not at all |
| FailClosed.ResolvesExactly | customer_activity/mapping.py:180-191 | a source resolves to a row if and only if that is the only one with its panel, inbound, node, required digest and one of its digests |
| Attribution.CollectClaims | customer_activity/mapping.py:193-207 | the nested loops compute the claimants of every key: resolved sources, and unresolved or unowned ones that touch it on their panel |
| Attribution.AnswerPurchase | customer_activity/mapping.py:208-228 | the answer is a judgement on the matched rows and the unshared keys |
| Attribution.JudgeKnown | customer_activity/mapping.py:212-228 | the reasons in the order in which they are tried, and the exclusive part as a fallback |
| Attribution.ResolveMaps | customer_activity/mapping.py:177-233 | every purchase gets an answer that meets the declarative claim relation |
| FailClosed.AnswersExactly | customer_activity/mapping.py:208-228 | each of the six answers, if and only if, by the purchase's conflict, whether its sources fit one row each, and which of these rows have counters and concern nobody else |
| FailClosed.MeasuredIsSafe | customer_activity/mapping.py:193-228 | a measured row shares no digest with an unresolved source of another purchase, nor with a source without an owner, whose panel is unknown or its own, and no other purchase's source resolves to its key |
| FailClosed.SafeIsMeasured | customer_activity/mapping.py:193-228 | the other way round: the own row of a purchase without conflict that satisfies this and has counters is measured |
| Attribution.KnownIsClaimed | customer_activity/mapping.py:193-199 | a purchase is a claimant of each of its matched rows |
| AttributionSafety.MeasuredIsExclusive | customer_activity/mapping.py:208-228 | measured rows are matched, have counters and are claimed by their purchase alone |
| AttributionSafety.MeasuredIsAll | customer_activity/mapping.py:208-228 | without a conflict every matched, unshared row with counters is measured |
| AttributionSafety.NoDoubleCount | customer_activity/mapping.py:193-228 | no key is measured for two purchases |
| AttributionSafety.BytesAreConserved | customer_activity/mapping.py:193-228 | the used bytes of the rows measured for all purchases together never exceed those of the distinct remote rows |
| AttributionSafety.WeightsAreConserved | customer_activity/mapping.py:193-228 | the same for any other weight of the keys |
| AttributionSafety.ResolvePermutes | customer_activity/mapping.py:180-191 | resolving does not depend on the order of the rows |
| AttributionSafety.ClaimantsPermute | customer_activity/mapping.py:193-207 | claims do not depend on the order of purchases, orphans or rows |
| AttributionSafety.AnswersPermute | customer_activity/mapping.py:177-233 | nor do the answers |
| AttributionSafety.KnownIsUniqueExactly | customer_activity/mapping.py:193-199 | the matched rows form one dictionary exactly when no two of them share a key |
| AttributionSafety.SharedKeyHasTwoAnswers | customer_activity/mapping.py:193-210 | two rows with one key that different sources resolve to, and a purchase with an answer for each of them |
| AttributionSafety.OrphansOnlyShrink | customer_activity/mapping.py:200-228 | another source without an owner can only take measured rows away |
| Ownership.CredentialIsOnRowExactly | customer_activity/mapping.py:80-104 | the rows that a link to a client may resolve to carry the link's credential exactly when the client is a PasarGuard account or has no other identity |
| Ownership.IdentityIsOnRowExactly | customer_activity/mapping.py:80-104 | they carry an identity of the client exactly when it is not a PasarGuard account without a name |
| RightfulOwners.ClientRowsExactly | customer_activity/mapping.py:34-46 | the rows that fit a client: its panel, inbound and node, and one of its four identifiers |
| RightfulOwners.AccountRowsExactly | customer_activity/mapping.py:34-41 | the rows that fit a PasarGuard account: its panel and its name |
| RightfulOwners.AccountLinkRowsExactly | customer_activity/mapping.py:85-91 | the rows that fit a link to such an account: its panel, its name and the link's credential |
| RightfulOwners.ClientLinkExactly | customer_activity/mapping.py:85-95 | a link to another client stands for it if and only if their identifiers agree, and else may be any row known by either on any panel |
| RightfulOwners.LooseLinkRowsExactly | customer_activity/mapping.py:96-104 | the rows that fit a link without a client |
| Ownership.SortOrders | customer_activity/mapping.py:115 | all orders, by time of payment and then by key |
| Ownership.AssignOwners | customer_activity/mapping.py:113-133 | the loop over renewals leaves every client with its own order or the last qualifying renewal, and collects exactly the qualifying and the conflicting ones |
| RightfulOwners.OwnerExactly | customer_activity/mapping.py:113-126 | a client's owner is, if and only if, the last by payment time and key of the fulfilled, verified orders that name it, of the customer of its own order and in its store, or its own order where there is none |
| RightfulOwners.OwnerIsRightful | customer_activity/mapping.py:120-124 | any other owner than the own order is such an order |
| Ownership.CollectOwn | customer_activity/mapping.py:134-135 | every purchase gets exactly the sources of the clients that it owns |
| Ownership.CollectOrphans | customer_activity/mapping.py:135 | the sources of clients without an owner |
| Ownership.CollectTransferred | customer_activity/mapping.py:113-147 | exactly the purchases that had a client and no longer own it |
| Ownership.CollectCup | customer_activity/mapping.py:136-165 | the sources of a cup without the clients that have moved on |
| Ownership.CollectCups | customer_activity/mapping.py:136-165 | what the cups deliver to each purchase and to none, and which purchases have another customer's cup |
| Ownership.LoadMaps | customer_activity/mapping.py:107-169 | the relevant purchases with exactly their sources, cups, conflicts and supersession, and all orphans |
| RightfulOwners.LoadedExactly | customer_activity/mapping.py:107-169 | a purchase is loaded if and only if it is fulfilled, has a cup, or is given a source |
| RightfulOwners.GivenExactly | customer_activity/mapping.py:134-165 | it is given a source if and only if it owns its client, or a cup of it carries it by a client or an active link of an active item whose client has not left |
| RightfulOwners.OrphansExactly | customer_activity/mapping.py:135-165 | the same for the sources that no purchase is given |
| RightfulOwners.ConflictExactly | customer_activity/mapping.py:120-145 | it has a conflict if and only if it is a paid renewal naming a client of another customer or store, or has another customer's cup |
| RightfulOwners.ForeignRenewalIsLoaded | customer_activity/mapping.py:120-169 | such a renewal is always loaded with the conflict, and does not own the client |
| RightfulOwners.SupersessionExactly | customer_activity/mapping.py:130-169 | it is superseded if and only if it has no source and had a client that is owned by another now |
| Ownership.OneOwner | customer_activity/mapping.py:113-133 | a client has exactly one owner, and no qualifying renewal is later than it |
| Ownership.SourceLands | customer_activity/mapping.py:113-165 | a source that stands for a client, its own or that of a link to it, is given to a purchase exactly when it is the client's own and the purchase its owner, or a cup of the purchase carries it and the client has not moved on from there |
| Ownership.SourceIsOrphanExactly | customer_activity/mapping.py:135-165 | it is an orphan exactly when it is the client's own and the client has no owner, or a cup of no purchase carries it |
| Ownership.LandsOnceExactly | customer_activity/mapping.py:113-165 | it lands in no purchase but the owner exactly when every other purchase that carries it is one that the client has moved on from; the client's own does land in its owner |
| Ownership.LoadedSourceLands | customer_activity/mapping.py:107-169 | the maps and orphans that the loading returns have it in exactly these places |
| Ownership.CupsDoNotBringBackExactly | customer_activity/mapping.py:147-161 | a purchase that lost the client and carries a source in a cup that stands for it, its own or that of a link, is given the source exactly when the client's owner is its own order again |
| Ownership.OwnRenewalBringsBack | customer_activity/mapping.py:113-161 | the exception, on concrete tables: two purchases are given the source of one client |
| Ownership.SupersededExactly | customer_activity/mapping.py:167-169 | a loaded purchase that lost the client is superseded exactly when it has no other source than the client's, and a cup has not brought that back |
| Ownership.CupsLoseNothingNew | customer_activity/mapping.py:147-169 | a cup can only lose a client that its purchase has lost already |
| Collection.AttributeAll | customer_activity/services.py:219-230 | from the tables and the rows: the loaded maps and an answer for each that meets the claim relation |
| FailClosed.TablesFailClosed | customer_activity/mapping.py:107-228 | from the tables: a measured row has nothing to do with any source of another loaded purchase or without an owner, and its purchase has no conflict |
| FailClosed.StaleLinkBlocks | customer_activity/mapping.py:92-207 | a stale link in a cup elsewhere keeps every row known by its client's identifiers or its credential from being measured, on whatever panel |
| Collection.TablesAreConserved | customer_activity/services.py:219-230 | from the tables to the answers no row is measured twice and the used bytes are conserved |
| Collection.TrafficIsTheOwners | customer_activity/mapping.py:107-228 | the traffic of a client's remote row is measured for the client's owner or for no purchase, whatever renewals and cups there are |
| Collection.MissingUsageRaises | customer_activity/mapping.py:219-228 | a purchase whose only row lacks its counters is refused with that row, and cannot be recorded if it has a quota and is neither expired nor limited |
| Collection.MissingUsageIsReal | customer_activity/panels.py:121-138 | such a purchase, concretely: a PasarGuard account whose panel does not say how much has been used |
| Provenance.InactiveRestsOnItsClients | customer_activity/services.py:175-240 | in every collection behind an inactive answer each source of the purchase resolved to a row that it alone claimed, the counters are those of these rows, and the clients counted are exactly the ones that the purchase owned |
| Provenance.EntryIsRecord | customer_activity/services.py:91-172 | every entry of the log is the record of one of the polls |
| Provenance.CompleteAnswer | customer_activity/mapping.py:208-228 | an answer without a reason holds the rows of all sources, each claimed by the purchase alone |
| Lease.FencedAlways | customer_activity/services.py:198-254 | in every run with arbitrary clocks and crashes the row belongs to the last writer, and each token writes one block |
| Lease.WritesFormBlocks | customer_activity/services.py:198-254 | the effects of a token are contiguous |
| Lease.OldTokenIsFenced | customer_activity/services.py:207-254 | once another token holds the row, the old one never records, extends, completes, fails or releases again |
| Lease.ClaimNeedsFreeLease | customer_activity/services.py:198-212 | in every run a claim that follows a claim or heartbeat, with no release in between, reads a clock at least ten minutes later |
| Lease.EffectsExactly | customer_activity/services.py:198-254 | in every run, which steps have an effect, if and only if, by the steps that had one before: who took the last, and when the lease that they add up to ends |
| Lease.RowIsTold | customer_activity/services.py:198-254 | in every run each column of the row is told by the steps that had an effect: who took the last, when the lease ends, the last sign of life, the last completion, and whether the last summary is a failure |
| Lease.CollectorIsFenced | customer_activity/services.py:198-254 | the row that the collector leaves behind has every property of all runs |
| Lease.ActivityCollector.Update | customer_activity/services.py:198-212 | each conditional update takes effect exactly when its filter matches |
| Lease.ActivityCollector.ReadPanels | customer_activity/services.py:222-228 | the heartbeats before and after the panels, up to the first that fails |
| Lease.ActivityCollector.RecordAll | customer_activity/services.py:232-246 | purchases are recorded one by one until the lease is lost or one raises, which is rolled back |
| Lease.ActivityCollector.CollectActivity | customer_activity/services.py:215-254 | without interruption, a collection is skipped exactly when the lease is held; otherwise it always ends with the lease released, and all purchases recorded or, after a lost lease or an exception, only those before it, with an error noted; the steps attempted are a heartbeat before each panel and after the last, a record and a heartbeat for each purchase, the summary or the error, and the release |
| Pagination.ReadPage | customer_activity/panels.py:113-138 | a page is absorbed whole or broken at the first malformed or repeated user |
| Pagination.ReadUsers | customer_activity/panels.py:101-151 | the loop returns the result of fifty turns of the page automaton |
| Pagination.ReturnsRowsExactly | customer_activity/panels.py:101-151 | rows are returned exactly when at most fifty consecutive distinct slices make them up to the reported total |
| Pagination.AllOrNothing | customer_activity/panels.py:141-151 | any other status comes without rows |
| Pagination.UnreachableExactly | customer_activity/panels.py:106-151 | the panel counts as unreachable if and only if its first answer fails before any user |
| Pagination.StableListExactly | customer_activity/panels.py:101-151 | a stable list is returned whole and in order exactly when fifty pages reach its end |
| Pagination.ReachedAtLeast | customer_activity/panels.py:106-140 | pages of at least a given size reach at least that many users each |
| Notifications.OrderRow.ClaimNotification | store/admin_notifications.py:117-137 | a claim succeeds exactly when nothing forbids it, and stamps exactly the fields of its entry point |
| Notifications.ClaimsExactly | store/admin_notifications.py:117-137 | a claim stamps its fields if and only if a bot is configured, the order does not suppress it, a receipt has evidence, and its own field is free |
| Notifications.DeliveriesAreAllowed | store/admin_notifications.py:117-224 | in every run, each delivered notification was claimed when all of this held |
| Notifications.OrderRow.Notify | store/admin_notifications.py:140-224 | the count is the number of bots that delivered; the claim stands if there is one and is given back otherwise |
| Notifications.SafeAlways | store/admin_notifications.py:117-224 | unless a claim for a new order shares its time, every sender and every delivered notification holds its fields and shares none |
| Notifications.AtMostOnePerField | store/admin_notifications.py:117-224 | unless a claim for a new order shares its time, at most one notification per field succeeds, whichever entry points race |
| Notifications.ReleaseClearsOnlyItsOwn | store/admin_notifications.py:214-224 | likewise a failed sender's release leaves every other sender's claim in place |
| Notifications.ThenNewOrderNotifiesTwice | store/admin_notifications.py:214-224 | a run in which a claim for a new order has the time of an earlier one, and the receipt is notified twice |
| Notifications.AfterNewOrderNotifiesTwice | store/admin_notifications.py:214-224 | a run in which any claim has the time of an earlier one for a new order, and the receipt is notified twice |
| Notifications.NotifiesOnceExactly | store/admin_notifications.py:117-224 | no field is notified twice in any run whose claims share times only as allowed, if and only if claims for new orders may share theirs with no others |
| Deletion.Preview.Visit | store/admin_deletion.py:56-64 | the recursive visit ends on every model graph and lists exactly the rows that it can reach past its ancestors |
| Deletion.VisitDecreases | store/admin_deletion.py:56-64 | each visit meets a new model, or one whose children cannot repeat it |
| Deletion.CountDeletedObjects | store/admin_deletion.py:66-80 | each listed row is counted once under its model, and empty models are left out |
| DeletionExact.ReachIsClosed | store/admin_deletion.py:56-64 | without cascade cycles a visit lists every dependent of what it lists |
| DeletionExact.PreviewIsPartOfDeletion | store/admin_deletion.py:49-82 | on every graph the preview lists only rows that the deletion removes |
| DeletionExact.AcyclicIsExact | store/admin_deletion.py:49-108 | without cascade cycles it lists exactly these rows |
| DeletionExact.CycleIsMissed | store/admin_deletion.py:60 | for every cascade cycle there are rows that the deletion removes and the preview misses |
| DeletionExact.PreviewIsExactExactly | store/admin_deletion.py:49-108 | the preview is exact for every database and selection if and only if no cascade leads back to its own model |
| DeletionRun.DeletionsJoin | store/admin_deletion.py:101-107 | deleting frozen rows in two goes, with SET_NULL in between, removes what one deletion of both would |
| DeletionRun.Tables.Delete | store/admin_deletion.py:106 | the rows that still exist, with everything that depends on them, counted by model |
| DeletionRun.Tables.DeletePanels | store/admin_deletion.py:85-108 | the loop removes exactly the closure of all frozen rows and its totals count them |
| DeletionRun.NothingDangles | store/admin_deletion.py:101-107 | after a deletion no key leads to a removed row, and every other key of every remaining row is as it was |
| DeletionRun.PreviewAgrees | store/admin_deletion.py:49-108 | without cascade cycles preview and report show the same number for every model |
| DeletionRun.PreviewNeverOverstates | store/admin_deletion.py:49-108 | in any case the preview shows no more than the report |
| Utf8.EncodingIsUndone | customer_activity/mapping.py:61 | strict decoding and decoding with replacement both undo the encoding of any text |
| Base64.PrintedIsRead | customer_activity/mapping.py:60-61 | any bytes are read back from either alphabet, padded or not |
| Percent.SpellingIsUndone | customer_activity/mapping.py:66 | every way of escaping a text is undone |
| Links.BodyIsRead | customer_activity/mapping.py:63-73 | in each printed form the body is cut into method:password and server again |
| Links.BodyIsCut | customer_activity/mapping.py:63 | a query or a fragment, whatever is in it, does not change the body |
| Links.JudgeSplits | customer_activity/mapping.py:67-77 | the split at the first colon gives the password with any further colons in it |
| Links.PrintedLinkIsRead | customer_activity/mapping.py:49-77 | for every method without a colon, password, server, form, scheme spelling, suffix and surrounding white space: the password is read, or the link rejected exactly when method or password is empty or the server lacks a host or a port |
| Sms.NormalizeIsIdempotent | payments/sms_parser.py:22-64 | normalising twice is normalising once |
| Sms.WrittenNumberIsRead | payments/sms_parser.py:67-71 | every number is read back from digits in any of the three scripts with any separators that hold no decimal digit of any script |
| Sms.AmountIsFirstMatch | payments/sms_parser.py:55-56 | the scan finds exactly the leftmost, longest match of the amount pattern |
| Sms.ExtractDepositAmount | payments/sms_parser.py:81-97 | the amount is that of the first line with a keyword, or else of the first line with an amount, never of a balance line; none exactly when no line has one |
| Sms.DepositLineIsUnique | payments/sms_parser.py:81-97 | at most one line can be the deposit line |
| Sms.PrintedAmountIsRead | payments/sms_parser.py:55-71 | an amount behind text without digits is read back from its line |
| Sms.BalanceIsFirstMatch | payments/sms_parser.py:57-78 | the scan finds exactly the leftmost match of the balance pattern, with the longest amount |
| Sms.PrintedBalanceIsRead | payments/sms_parser.py:57-78 | every balance is read back behind the first balance word, with or without a colon, in any of the three scripts and with any handled separators |

## Left out

- Views, forms, templates, labels, translated text, CSV export, permissions and display names.
- The network: remote panels, the bot API and the clock are parameters; the transport answers accepted, refused or unknown.
- `read_panel` for the other panel family, `_expiry`, and the fields that `read_pasarguard` derives from each user.
- `collect_activity`: which panel's status replaces "unmapped_source" (`Provenance` allows any reason), the summary and the
  diagnostics.
- `collector_healthy`, `renewal_state`, `personal_target`, `keyboard` and the text of `message_body` but for the days.
- `run_outreach`: the order of the queue by priority (any order is allowed), the per-store summary, the legacy log that a
  sent message adds (legacy counts are arbitrary), message ids and `converted_order`.
- OutreachService.Service.Dispatch: its contract is that of a call without interruption; for interrupted ones see
  `OutreachAnswers.AcknowledgedIsSentExactly`.
- OutreachService.Service.RunStore: likewise; for the count beside other workers see `OutreachAnswers.TrueAnswersCount`.
- OutreachService.Service.RetryFailed: the read and the unconditional save are one step, as assumed above.
- Lease.ActivityCollector.CollectActivity: likewise; beside other collectors see `Lease.FencedAlways` and `Lease.OldTokenIsFenced`.
- Legacy offer logs are an environment: the limits are stated for outreach events only.
- Links of other kinds are read by another parser, which is not part of this model; `Ownership`
  takes the credential of a link as given.
- `Links`: the checks of URL parsing for addresses in brackets and for NFKC-equivalent characters in a host.
- `panel_deletion_scopes`: the selections are parameters. Relations that the framework hides from `related_objects`
  (many-to-many tables), PROTECT and database row locks are not modelled.
- `_send_claimed_notification` when the process is killed between the delivery and the return.
- `Sms`: the table of the other scripts' decimal digits is a parameter; the splitting of a message into lines, dates and times.
- `payments/payment_matching.py`, `store/admin_catalog.py`, `store/admin_campaigns.py`, `store/admin_access.py`,
  `store/admin_plan_fulfillment.py`: decision tables that would only add easy members.
