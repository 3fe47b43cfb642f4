/** The outreach protocol: events, concurrent workers, and the atomic database steps between which they interleave
    (customer_activity/outreach.py, and the retry branch of customer_activity/outreach_views.py). */
module Outreach {
  import opened Prelude
  import opened Activity
  import opened Candidates

  datatype EventStatus = Previewed | Ready | Sending | Sent | Uncertain | Failed | Cancelled

  datatype Block = SwitchedOff | QuietHours | Muted | OpenSupport | CustomerCap | StoreCap | NoTarget

  datatype Reason = NoReason | BlockedBy(block: Block) | NotEligible | TransportUnknown | WorkerInterrupted | TelegramRejected

  // An event is identified by what the unique constraint covers.
  datatype EventKey = EventKey(order: nat, cycle: nat, kind: Kind)

  datatype Event = Event(status: EventStatus, reason: Reason, claimedAt: Option<Instant>, target: Option<nat>)

  const NEW_EVENT := Event(Previewed, NoReason, None, None)

  // Where an order belongs.
  datatype Place = Place(customer: Option<nat>, store: nat)

  // What suppression reads outside the events: the local hour, the customer's choices and the legacy offer log.
  datatype Surroundings = Surroundings(
    hour: nat, muted: bool, openSupport: bool, legacyDay: bool, legacyWeek: nat, otherSent: nat, target: Option<nat>)

  // What a sending attempt came to: acknowledged, refused with an error code, or anything else.
  datatype Outcome = Accepted | TurnedDown | Ambiguous

  datatype Phase = Claimed | Checked | Attempted(outcome: Outcome)

  datatype Flight = Flight(event: EventKey, phase: Phase)

  // The record of the reservation that an event last went through.
  datatype Ticket = Ticket(number: nat, at: Instant, settings: Settings, facts: OrderFacts, polls: seq<Poll>)

  // The polls of each order and the row they made, the events, the workers in flight, and a record of
  // what was attempted and reserved.
  datatype World = World(
    places: map<nat, Place>, minimum: int,
    histories: map<nat, seq<Poll>>, rows: map<nat, Row>, events: map<EventKey, Event>,
    flights: map<nat, Flight>, attempts: map<EventKey, seq<Outcome>>,
    tickets: map<EventKey, Ticket>, issued: nat)

  predicate Pending(status: EventStatus) {
    status == Previewed || status == Ready || status == EventStatus.Cancelled
  }

  predicate Reserved(status: EventStatus) {
    status == Sending || status == Sent || status == Uncertain
  }

  function CustomerOf(places: map<nat, Place>, key: EventKey): Option<nat> {
    if key.order in places then places[key.order].customer else None
  }

  function StoreOf(places: map<nat, Place>, key: EventKey): Option<nat> {
    if key.order in places then Some(places[key.order].store) else None
  }

  // ---------- Suppression ----------

  predicate ClaimedSince(events: map<EventKey, Event>, key: EventKey, since: Instant) {
    key in events && Reserved(events[key].status) && events[key].claimedAt.Some? && events[key].claimedAt.value >= since
  }

  /** The other reserved events of the customer, as the query for the personal cap selects them. */
  function PersonalSince(places: map<nat, Place>, events: map<EventKey, Event>, key: EventKey, since: Instant): set<EventKey> {
    set k | k in events && k != key && CustomerOf(places, k) == CustomerOf(places, key) && ClaimedSince(events, k, since)
  }

  function StoreSince(places: map<nat, Place>, events: map<EventKey, Event>, key: EventKey, since: Instant): set<EventKey> {
    set k | k in events && k != key && StoreOf(places, k) == StoreOf(places, key) && ClaimedSince(events, k, since)
  }

  function Suppression(places: map<nat, Place>, events: map<EventKey, Event>, key: EventKey, settings: Settings, now: Instant, around: Surroundings): Option<Block> {
    if settings.mode == Off then Some(SwitchedOff)
    else if !(settings.startHour <= around.hour < settings.endHour) then Some(QuietHours)
    else if around.muted then Some(Muted)
    else if around.openSupport then Some(OpenSupport)
    else if |PersonalSince(places, events, key, now - DAY)| > 0 || around.legacyDay
         || |PersonalSince(places, events, key, now - 7 * DAY)| + around.legacyWeek >= 3 then Some(CustomerCap)
    else if |StoreSince(places, events, key, now - DAY)| + around.otherSent >= settings.dailyLimit then Some(StoreCap)
    else if around.target.None? then Some(NoTarget)
    else None
  }

  // ---------- Atomic steps on the events ----------

  datatype Step =
    | Observed(order: nat, poll: Poll)
    | Prepare(order: nat, settings: Settings, facts: OrderFacts, now: Instant, around: Surroundings)
    | CancelOthers(store: nat, active: set<EventKey>)
    | Reserve(worker: nat, key: EventKey, now: Instant, settings: Settings, facts: OrderFacts, around: Surroundings)
    | Revalidate(worker: nat, settings: Settings, facts: OrderFacts, now: Instant, later: Instant, around: Surroundings, target: Option<nat>)
    | Send(worker: nat, outcome: Outcome)
    | Finish(worker: nat)
    | Crash(worker: nat)
    | Sweep(now: Instant)
    | Retry(key: EventKey)

  datatype Decision = NotReady | NoCustomer | NoLongerEligible | Suppressed(block: Block) | Granted

  predicate SameCustomer(places: map<nat, Place>, key: EventKey, facts: OrderFacts) {
    CustomerOf(places, key) == facts.customer
  }

  /** What the locked section of reserve decides. */
  function Decide(places: map<nat, Place>, events: map<EventKey, Event>, key: EventKey, row: Row, now: Instant,
                  settings: Settings, facts: OrderFacts, around: Surroundings): Decision
    requires key in events
  {
    if CustomerOf(places, key).None? then NoCustomer
    else if settings.mode != Live || events[key].status != Ready then NotReady
    else if row.cycle != key.cycle || CandidateKind(row, facts, settings, now) != Some(key.kind) then NoLongerEligible
    else
      var block := Suppression(places, events, key, settings, now, around);
      if block.Some? then Suppressed(block.value) else Granted
  }

  function Decided(events: map<EventKey, Event>, key: EventKey, decision: Decision, now: Instant, target: Option<nat>): map<EventKey, Event>
    requires key in events
  {
    var e := events[key];
    match decision
    case NotReady => events
    case NoCustomer => if e.status == Ready then events[key := e.(status := EventStatus.Cancelled, reason := NotEligible)] else events
    case NoLongerEligible => events[key := e.(status := EventStatus.Cancelled, reason := NotEligible)]
    case Suppressed(block) => events[key := e.(reason := BlockedBy(block))]
    case Granted => events[key := Event(Sending, NoReason, Some(now), target)]
  }

  /** A conditional update: only an event still "sending" takes the new status. */
  function Settled(events: map<EventKey, Event>, key: EventKey, status: EventStatus, reason: Reason): map<EventKey, Event> {
    if key in events && events[key].status == Sending then events[key := events[key].(status := status, reason := reason)]
    else events
  }

  /** The checks between the reservation and the transport. */
  predicate StillDue(places: map<nat, Place>, events: map<EventKey, Event>, key: EventKey, row: Row,
                     settings: Settings, facts: OrderFacts, now: Instant, later: Instant, around: Surroundings, target: Option<nat>)
    requires key in events
  {
    && settings.mode == Live && row.cycle == key.cycle
    && CandidateKind(row, facts, settings, now) == Some(key.kind)
    && Suppression(places, events, key, settings, later, around).None?
    && target.Some? && target == events[key].target
  }

  function Swept(events: map<EventKey, Event>, now: Instant): map<EventKey, Event> {
    map k | k in events ::
      if events[k].status == Sending && events[k].claimedAt.Some? && events[k].claimedAt.value < now - 10 * MINUTE
      then events[k].(status := Uncertain, reason := WorkerInterrupted) else events[k]
  }

  function Retried(events: map<EventKey, Event>, key: EventKey): map<EventKey, Event> {
    if key in events && events[key].status == Failed
    then events[key := events[key].(status := Ready, reason := NoReason, claimedAt := None)] else events
  }

  function CreatedIfNew(events: map<EventKey, Event>, key: EventKey): map<EventKey, Event> {
    if key in events then events else events[key := NEW_EVENT]
  }

  /** get_or_create, then the update of an event that is still pending. */
  function Prepared(places: map<nat, Place>, events: map<EventKey, Event>, key: EventKey, settings: Settings, now: Instant, around: Surroundings): map<EventKey, Event> {
    var created := CreatedIfNew(events, key);
    var e := created[key];
    if !Pending(e.status) then created
    else
      var block := Suppression(places, created, key, settings, now, around);
      created[key := e.(status := if settings.mode == Live then Ready else Previewed,
                        reason := if block.Some? then BlockedBy(block.value) else NoReason)]
  }

  function OthersCancelled(places: map<nat, Place>, events: map<EventKey, Event>, store: nat, active: set<EventKey>): map<EventKey, Event> {
    map k | k in events ::
      if StoreOf(places, k) == Some(store) && Pending(events[k].status) && k !in active
      then events[k].(status := EventStatus.Cancelled, reason := NotEligible) else events[k]
  }

  function PollsOf(w: World, order: nat): seq<Poll> {
    if order in w.histories then w.histories[order] else []
  }

  function Attempts(w: World, key: EventKey): seq<Outcome> {
    if key in w.attempts then w.attempts[key] else []
  }

  function OutcomeStatus(outcome: Outcome): EventStatus {
    match outcome case Accepted => Sent case TurnedDown => Failed case Ambiguous => Uncertain
  }

  function OutcomeReason(outcome: Outcome): Reason {
    match outcome case Accepted => NoReason case TurnedDown => TelegramRejected case Ambiguous => TransportUnknown
  }

  // ---------- Steps of the protocol ----------

  /** A step that is not enabled changes nothing. */
  ghost predicate Enabled(w: World, s: Step) {
    match s
    case Observed(order, _) => order in w.places
    case Prepare(order, settings, facts, now, _) =>
      && order in w.places && order in w.rows && w.places[order].customer == facts.customer
      && CandidateKind(w.rows[order], facts, settings, now).Some?
    case CancelOthers(_, _) => true
    case Reserve(worker, key, _, _, facts, _) =>
      && worker !in w.flights && key in w.events && key.order in w.rows && SameCustomer(w.places, key, facts)
    case Revalidate(worker, _, _, _, _, _, _) =>
      && worker in w.flights && w.flights[worker].phase == Claimed && w.flights[worker].event in w.events
      && w.flights[worker].event.order in w.rows
    case Send(worker, _) => worker in w.flights && w.flights[worker].phase == Checked
    case Finish(worker) => worker in w.flights && w.flights[worker].phase.Attempted?
    case Crash(worker) => worker in w.flights
    case Sweep(_) => true
    case Retry(_) => true
  }

  ghost function Candidate(w: World, order: nat, settings: Settings, facts: OrderFacts, now: Instant): EventKey
    requires order in w.rows && CandidateKind(w.rows[order], facts, settings, now).Some?
  {
    EventKey(order, w.rows[order].cycle, CandidateKind(w.rows[order], facts, settings, now).value)
  }

  ghost function DecisionOf(w: World, s: Step): Decision
    requires s.Reserve? && Enabled(w, s)
  {
    Decide(w.places, w.events, s.key, w.rows[s.key.order], s.now, s.settings, s.facts, s.around)
  }

  ghost predicate Reserves(w: World, s: Step)
    requires Enabled(w, s)
  {
    s.Reserve? && DecisionOf(w, s) == Granted
  }

  ghost predicate DueOf(w: World, s: Step)
    requires s.Revalidate? && Enabled(w, s)
  {
    var key := w.flights[s.worker].event;
    StillDue(w.places, w.events, key, w.rows[key.order], s.settings, s.facts, s.now, s.later, s.around, s.target)
  }

  ghost function EventsAfter(w: World, s: Step): map<EventKey, Event>
    requires Enabled(w, s)
  {
    match s
    case Prepare(order, settings, facts, now, around) =>
      Prepared(w.places, w.events, Candidate(w, order, settings, facts, now), settings, now, around)
    case CancelOthers(store, active) => OthersCancelled(w.places, w.events, store, active)
    case Reserve(_, key, now, _, _, around) => Decided(w.events, key, DecisionOf(w, s), now, around.target)
    case Revalidate(worker, _, _, _, _, _, _) =>
      if DueOf(w, s) then w.events else Settled(w.events, w.flights[worker].event, EventStatus.Cancelled, NotEligible)
    case Finish(worker) =>
      var outcome := w.flights[worker].phase.outcome;
      Settled(w.events, w.flights[worker].event, OutcomeStatus(outcome), OutcomeReason(outcome))
    case Sweep(now) => Swept(w.events, now)
    case Retry(key) => Retried(w.events, key)
    case _ => w.events
  }

  ghost function FlightsAfter(w: World, s: Step): map<nat, Flight>
    requires Enabled(w, s)
  {
    match s
    case Reserve(worker, key, _, _, _, _) => if Reserves(w, s) then w.flights[worker := Flight(key, Claimed)] else w.flights
    case Revalidate(worker, _, _, _, _, _, _) =>
      if DueOf(w, s) then w.flights[worker := Flight(w.flights[worker].event, Checked)] else w.flights - {worker}
    case Send(worker, outcome) => w.flights[worker := Flight(w.flights[worker].event, Attempted(outcome))]
    case Finish(worker) => w.flights - {worker}
    case Crash(worker) => w.flights - {worker}
    case _ => w.flights
  }

  ghost function AttemptsAfter(w: World, s: Step): map<EventKey, seq<Outcome>>
    requires Enabled(w, s)
  {
    if s.Send? then
      var key := w.flights[s.worker].event;
      w.attempts[key := Attempts(w, key) + [s.outcome]]
    else w.attempts
  }

  ghost function TicketsAfter(w: World, s: Step): map<EventKey, Ticket>
    requires Enabled(w, s)
  {
    if Reserves(w, s) then w.tickets[s.key := Ticket(w.issued, s.now, s.settings, s.facts, PollsOf(w, s.key.order))] else w.tickets
  }

  ghost function RowsAfter(w: World, s: Step): map<nat, Row> {
    if s.Observed? then w.rows[s.order := NextRow(if s.order in w.rows then w.rows[s.order] else NEW_ROW, s.poll, w.minimum)] else w.rows
  }

  ghost function HistoriesAfter(w: World, s: Step): map<nat, seq<Poll>> {
    if s.Observed? then w.histories[s.order := PollsOf(w, s.order) + [s.poll]] else w.histories
  }

  ghost function Apply(w: World, s: Step): World {
    if !Enabled(w, s) then w
    else World(w.places, w.minimum, HistoriesAfter(w, s), RowsAfter(w, s), EventsAfter(w, s), FlightsAfter(w, s),
               AttemptsAfter(w, s), TicketsAfter(w, s), if Reserves(w, s) then w.issued + 1 else w.issued)
  }

  lemma RevalidateShape(w: World, s: Step, key: EventKey, due: bool)
    requires s.Revalidate? && s.worker in w.flights && w.flights[s.worker] == Flight(key, Claimed)
    requires key in w.events && key.order in w.rows
    requires due <==> StillDue(w.places, w.events, key, w.rows[key.order], s.settings, s.facts, s.now, s.later, s.around, s.target)
    ensures Apply(w, s) ==
            if due then w.(flights := w.flights[s.worker := Flight(key, Checked)])
            else w.(events := Settled(w.events, key, EventStatus.Cancelled, NotEligible), flights := w.flights - {s.worker})
  {
  }

  /** Only a poll changes the rows, and only a granted reservation changes the tickets. */
  lemma RecordsStep(w: World, s: Step)
    ensures
      var w' := Apply(w, s);
      && w'.minimum == w.minimum && w'.places == w.places
      && (!s.Observed? ==> w'.rows == w.rows && w'.histories == w.histories)
      && (!s.Reserve? ==> w'.tickets == w.tickets)
  {
    if Enabled(w, s) {
      match s
      case Reserve(_, _, _, _, _, _) =>
      case Revalidate(_, _, _, _, _, _, _) =>
      case _ =>
    }
  }

  /** A reservation, in the terms of what was decided. */
  lemma ReserveShape(w: World, s: Step, decision: Decision)
    requires s.Reserve? && Enabled(w, s)
    requires decision == Decide(w.places, w.events, s.key, w.rows[s.key.order], s.now, s.settings, s.facts, s.around)
    ensures var w' := Apply(w, s);
      && w'.events == Decided(w.events, s.key, decision, s.now, s.around.target)
      && w'.flights == (if decision == Granted then w.flights[s.worker := Flight(s.key, Claimed)] else w.flights)
      && w'.places == w.places && w'.minimum == w.minimum && w'.rows == w.rows && w'.attempts == w.attempts
  {
  }

  ghost function Start(places: map<nat, Place>, minimum: int): World {
    World(places, minimum, map[], map[], map[], map[], map[], map[], 0)
  }

  /** The world after any sequence of steps, taken by any workers in any order. */
  ghost function Play(w: World, steps: seq<Step>): World {
    if steps == [] then w else Apply(Play(w, steps[..|steps| - 1]), steps[|steps| - 1])
  }

  /** The worlds passed through on the way from start to end. */
  ghost predicate Path(start: World, worlds: seq<World>, steps: seq<Step>, end: World) {
    && |worlds| == |steps| + 1 && worlds[0] == start && worlds[|steps|] == end
    && forall i :: 0 <= i < |steps| ==> worlds[i + 1] == Apply(worlds[i], steps[i])
  }

  lemma {:induction false} PathIsPlay(start: World, worlds: seq<World>, steps: seq<Step>, end: World)
    requires Path(start, worlds, steps, end)
    ensures end == Play(start, steps)
    decreases |steps|
  {
    if steps != [] {
      var n := |steps| - 1;
      PathIsPlay(start, worlds[..n + 1], steps[..n], worlds[n]);
    }
  }
}
