/**
 * The outreach functions as they run in one worker: each call is a sequence of the protocol's atomic steps. The contracts are
 * those of a call that no other worker interrupts; OutreachAnswers says what an answer means when others do.
 */
module OutreachService {
  import opened Prelude
  import opened Activity
  import opened Candidates
  import opened Outreach
  import opened OutreachSafety
  import opened OutreachCaps

  // What a worker reads about one order while it prepares or sends.
  datatype View = View(facts: OrderFacts, around: Surroundings)

  // What it reads again between the reservation and the transport.
  datatype Recheck = Recheck(settings: Settings, view: View, now: Instant, later: Instant, target: Option<nat>)

  // All that one call of dispatch reads, and the answer of the transport.
  datatype Delivery = Delivery(now: Instant, settings: Settings, view: View, recheck: Recheck, outcome: Outcome)

  class Service {
    const places: map<nat, Place>
    const minimum: int
    var events: map<EventKey, Event>
    var activities: map<nat, Row>
    // The protocol state that the tables stand for, and how it was reached.
    ghost var world: World
    ghost var path: seq<World>
    ghost var trace: seq<Step>

    ghost predicate Valid()
      reads this
    {
      && world.events == events && world.places == places && world.minimum == minimum
      && activities == world.rows
      && (forall key :: key in events ==> key.order in activities)
    }

    /** The tables are those of a run of the protocol, so every property of all runs holds of them. */
    ghost predicate Reachable()
      reads this
    {
      Path(Start(places, minimum), path, trace, world)
    }

    constructor (places: map<nat, Place>, minimum: int)
      ensures Valid() && Reachable() && trace == []
    {
      this.places, this.minimum := places, minimum;
      events, activities := map[], map[];
      world, path, trace := Start(places, minimum), [Start(places, minimum)], [];
    }

    /** One step of the protocol. */
    ghost method Take(step: Step)
      requires Reachable()
      modifies `world, `path, `trace
      ensures Reachable() && world == Apply(old(world), step) && trace == old(trace) + [step]
    {
      world := Apply(world, step);
      path, trace := path + [world], trace + [step];
    }

    method ReserveDecision(key: EventKey, now: Instant, settings: Settings, view: View) returns (decision: Decision)
      requires key in events && key.order in activities
      ensures decision == Decide(places, events, key, activities[key.order], now, settings, view.facts, view.around)
    {
      if CustomerOf(places, key).None? {
        return NoCustomer;
      }
      if settings.mode != Live || events[key].status != Ready {
        return NotReady;
      }
      var row := activities[key.order];
      var kind := ComputeKind(row, view.facts, settings, now);
      if row.cycle != key.cycle || kind != Some(key.kind) {
        return NoLongerEligible;
      }
      var block := Suppression(places, events, key, settings, now, view.around);
      return if block.Some? then Suppressed(block.value) else Granted;
    }

    /** The locked section: settings, customer and event are held until the decision is saved. */
    method Reserve(worker: nat, key: EventKey, now: Instant, settings: Settings, view: View) returns (granted: bool)
      requires Valid() && Reachable() && key in events && worker !in world.flights && CustomerOf(places, key) == view.facts.customer
      modifies `events, `world, `path, `trace
      ensures Valid() && Reachable()
      ensures trace == old(trace) + [Step.Reserve(worker, key, now, settings, view.facts, view.around)]
      ensures world.rows == old(world.rows) && events.Keys == old(events.Keys)
      ensures forall k :: k in events && k != key ==> events[k] == old(events[k])
      ensures if granted then
                && old(events[key].status) == Ready && events[key] == Event(Sending, NoReason, Some(now), view.around.target)
                && world.flights == old(world.flights)[worker := Flight(key, Claimed)]
              else events[key] == old(events[key]) || !Reserved(events[key].status)
      ensures !granted ==> world.flights == old(world.flights)
      ensures world.attempts == old(world.attempts)
    {
      var decision := ReserveDecision(key, now, settings, view);
      ghost var step := Step.Reserve(worker, key, now, settings, view.facts, view.around);
      ReserveShape(world, step, decision);
      Take(step);
      granted := decision == Granted;
      SaveDecision(key, decision, now, view.around.target);
    }

    /** What a decision does to the event. */
    method SaveDecision(key: EventKey, decision: Decision, now: Instant, target: Option<nat>)
      requires key in events
      modifies `events
      ensures events == Decided(old(events), key, decision, now, target)
    {
      var event := events[key];
      match decision {
        case NoCustomer =>
          if event.status == Ready {
            events := events[key := event.(status := EventStatus.Cancelled, reason := NotEligible)];
          }
        case NotReady =>
        case NoLongerEligible =>
          events := events[key := event.(status := EventStatus.Cancelled, reason := NotEligible)];
        case Suppressed(block) =>
          events := events[key := event.(reason := BlockedBy(block))];
        case Granted =>
          events := events[key := Event(Sending, NoReason, Some(now), target)];
      }
    }

    /** Reserve, check again, send, and record what came back. */
    method Dispatch(worker: nat, key: EventKey, now: Instant, settings: Settings, view: View, recheck: Recheck, outcome: Outcome)
      returns (sent: bool)
      requires Valid() && Reachable() && key in events && worker !in world.flights && CustomerOf(places, key) == view.facts.customer
      modifies `events, `world, `path, `trace
      ensures Valid() && Reachable() && world.flights == old(world.flights)
      ensures world.rows == old(world.rows) && events.Keys == old(events.Keys)
      ensures forall k :: k in events && k != key ==> events[k] == old(events[k])
      ensures sent ==> old(events[key].status) == Ready && events[key].status == Sent
                       && Attempts(world, key) == Attempts(old(world), key) + [Accepted]
      ensures !sent ==> events[key] == old(events[key]) || events[key].status != Sent
    {
      sent := false;
      var granted := Reserve(worker, key, now, settings, view);
      if !granted {
        return;
      }
      sent := SendReserved(worker, key, recheck, outcome);
    }

    /** What follows a reservation: check again, send, and record what came back. */
    method SendReserved(worker: nat, key: EventKey, recheck: Recheck, outcome: Outcome) returns (sent: bool)
      requires Valid() && Reachable() && key in events && events[key].status == Sending
      requires worker in world.flights && world.flights[worker] == Flight(key, Claimed)
      modifies `events, `world, `path, `trace
      ensures Valid() && Reachable() && world.rows == old(world.rows) && world.flights == old(world.flights) - {worker}
      ensures exists status, reason :: events == Settled(old(events), key, status, reason) && (sent <==> status == Sent)
      ensures sent ==> Attempts(world, key) == Attempts(old(world), key) + [Accepted]
    {
      var due := CheckAgain(worker, key, recheck);
      if !due {
        return false;
      }
      Transmit(worker, key, outcome);
      sent := outcome == Accepted;
    }

    method RecheckEvent(key: EventKey, recheck: Recheck) returns (due: bool)
      requires key in events && key.order in activities
      ensures due <==> StillDue(places, events, key, activities[key.order], recheck.settings, recheck.view.facts,
                                recheck.now, recheck.later, recheck.view.around, recheck.target)
    {
      var row := activities[key.order];
      var kind := ComputeKind(row, recheck.view.facts, recheck.settings, recheck.now);
      due := recheck.settings.mode == Live && row.cycle == key.cycle && kind == Some(key.kind)
             && Suppression(places, events, key, recheck.settings, recheck.later, recheck.view.around).None?
             && recheck.target.Some? && recheck.target == events[key].target;
    }

    method CheckAgain(worker: nat, key: EventKey, recheck: Recheck) returns (due: bool)
      requires Valid() && Reachable() && key in events && worker in world.flights && world.flights[worker] == Flight(key, Claimed)
      modifies `events, `world, `path, `trace
      ensures Valid() && Reachable() && world.rows == old(world.rows) && world.attempts == old(world.attempts)
      ensures due ==> events == old(events) && world.flights == old(world.flights)[worker := Flight(key, Checked)]
      ensures !due ==> events == Settled(old(events), key, EventStatus.Cancelled, NotEligible)
                       && world.flights == old(world.flights) - {worker}
    {
      due := RecheckEvent(key, recheck);
      ghost var step := Revalidate(worker, recheck.settings, recheck.view.facts, recheck.now, recheck.later, recheck.view.around, recheck.target);
      RevalidateShape(world, step, key, due);
      Take(step);
      if !due {
        events := Settled(events, key, EventStatus.Cancelled, NotEligible);
      }
    }

    /** The transport and the conditional update after it. */
    method Transmit(worker: nat, key: EventKey, outcome: Outcome)
      requires Valid() && Reachable() && worker in world.flights && world.flights[worker] == Flight(key, Checked)
      modifies `events, `world, `path, `trace
      ensures Valid() && Reachable() && world.rows == old(world.rows)
      ensures events == Settled(old(events), key, OutcomeStatus(outcome), OutcomeReason(outcome))
      ensures world.flights == old(world.flights) - {worker}
      ensures Attempts(world, key) == Attempts(old(world), key) + [outcome]
    {
      TransmitShape(world, worker, key, outcome);
      Take(Send(worker, outcome));
      Take(Finish(worker));
      events := Settled(events, key, OutcomeStatus(outcome), OutcomeReason(outcome));
    }

    /** Records one poll of an order. */
    method RecordPoll(order: nat, activity: PurchaseActivity, poll: Poll)
      requires Valid() && Reachable() && order in places && activity.Valid()
      requires activity.Columns() == if order in activities then activities[order] else NEW_ROW
      modifies `activities, `world, `path, `trace, activity
      ensures Valid() && Reachable() && activity.Valid()
      ensures activities == old(activities)[order := activity.Columns()]
      ensures trace == old(trace) + [Observed(order, poll)]
    {
      var raised := activity.RecordPurchase(poll.purchase, poll.rows, poll.attribution, poll.now, minimum);
      Take(Observed(order, poll));
      activities := activities[order := Row(activity.observedAt, activity.state, activity.note, activity.counters, activity.continuousSince,
                                            activity.lastStart, activity.lastAt, activity.sources, activity.cycle, activity.endedAt)];
    }

    /** Events left "sending" for more than ten minutes become "uncertain"; nothing else changes. */
    method SweepInterrupted(now: Instant)
      requires Valid() && Reachable()
      modifies `events, `world, `path, `trace
      ensures Valid() && Reachable() && trace == old(trace) + [Sweep(now)] && events.Keys == old(events.Keys)
      ensures forall key :: key in events ==>
                var before := old(events)[key];
                if before.status == Sending && before.claimedAt.Some? && before.claimedAt.value < now - 10 * MINUTE
                then events[key] == Event(Uncertain, WorkerInterrupted, before.claimedAt, before.target) else events[key] == before
      ensures world.flights == old(world.flights)
    {
      Take(Sweep(now));
      events := Swept(events, now);
    }

    /** An operator puts a rejected event back in the queue, without its claim. */
    method RetryFailed(key: EventKey)
      requires Valid() && Reachable()
      modifies `events, `world, `path, `trace
      ensures Valid() && Reachable() && trace == old(trace) + [Retry(key)]
      ensures events == if key in old(events) && old(events)[key].status == Failed
                        then old(events)[key := old(events)[key].(status := Ready, reason := NoReason, claimedAt := None)] else old(events)
    {
      Take(Retry(key));
      events := Retried(events, key);
    }

    method PrepareOrder(order: nat, settings: Settings, view: View, now: Instant) returns (prepared: Option<EventKey>)
      requires Valid() && Reachable() && order in activities && order in places && places[order].customer == view.facts.customer
      modifies `events, `world, `path, `trace
      ensures Valid() && Reachable() && world.flights == old(world.flights) && world.rows == old(world.rows)
      ensures prepared.Some? <==> CandidateKind(activities[order], view.facts, settings, now).Some?
      ensures prepared.Some? ==> prepared.value == EventKey(order, activities[order].cycle, CandidateKind(activities[order], view.facts, settings, now).value)
      ensures prepared.None? ==> events == old(events)
      ensures prepared.Some? ==> events == Prepared(places, old(events), prepared.value, settings, now, view.around)
    {
      var kind := ComputeKind(activities[order], view.facts, settings, now);
      if kind.None? {
        return None;
      }
      var key := EventKey(order, activities[order].cycle, kind.value);
      prepared := Some(key);
      Take(Prepare(order, settings, view.facts, now, view.around));
      if key !in events {
        events := events[key := NEW_EVENT];
      }
      if Pending(events[key].status) {
        var block := Suppression(places, events, key, settings, now, view.around);
        events := events[key := events[key].(status := if settings.mode == Live then Ready else Previewed,
                                             reason := if block.Some? then BlockedBy(block.value) else NoReason)];
      }
    }

    /** Queues the current candidates of a store and cancels what is pending without being one. */
    method PrepareStore(store: nat, orders: seq<nat>, settings: Settings, views: map<nat, View>, now: Instant) returns (active: set<EventKey>)
      requires Valid() && Reachable()
      requires forall order :: order in orders ==>
                 && order in activities && order in places && places[order].store == store
                 && order in views && views[order].facts.customer == places[order].customer
      modifies `events, `world, `path, `trace
      ensures Valid() && Reachable() && world.flights == old(world.flights) && world.rows == old(world.rows)
      ensures active == CandidateKeys(activities, orders, settings, views, now)
      ensures Queued(places, old(events), events, store, active, settings.mode)
    {
      active := QueueOrders(store, orders, settings, views, now);
      QueueDone(places, old(events), events, store, active, settings.mode);
      Take(CancelOthers(store, active));
      events := OthersCancelled(places, events, store, active);
    }

    /** The loop over a store's orders. */
    method QueueOrders(store: nat, orders: seq<nat>, settings: Settings, views: map<nat, View>, now: Instant) returns (active: set<EventKey>)
      requires Valid() && Reachable()
      requires forall order :: order in orders ==>
                 && order in activities && order in places && places[order].store == store
                 && order in views && views[order].facts.customer == places[order].customer
      modifies `events, `world, `path, `trace
      ensures Valid() && Reachable() && world.flights == old(world.flights) && world.rows == old(world.rows)
      ensures active == CandidateKeys(activities, orders, settings, views, now)
      ensures QueuedSoFar(places, old(events), events, store, active, settings.mode)
    {
      active := {};
      ghost var before := events;
      for i := 0 to |orders|
        invariant Valid() && Reachable() && world.flights == old(world.flights) && world.rows == old(world.rows)
        invariant active == CandidateKeys(activities, orders[..i], settings, views, now)
        invariant QueuedSoFar(places, before, events, store, active, settings.mode)
      {
        active := QueueNext(before, active, store, orders[i], settings, views[orders[i]], now);
        CandidateKeysStep(activities, orders, i, settings, views, now);
      }
      assert orders[..|orders|] == orders;
    }

    /** One turn of the loop over a store's orders. */
    method QueueNext(ghost before: map<EventKey, Event>, active: set<EventKey>, store: nat, order: nat, settings: Settings, view: View, now: Instant)
      returns (more: set<EventKey>)
      requires Valid() && Reachable() && order in activities && order in places && places[order] == Place(view.facts.customer, store)
      requires QueuedSoFar(places, before, events, store, active, settings.mode)
      modifies `events, `world, `path, `trace
      ensures Valid() && Reachable() && world.flights == old(world.flights) && world.rows == old(world.rows)
      ensures more == active + CandidateOf(activities[order], order, settings, view, now)
      ensures QueuedSoFar(places, before, events, store, more, settings.mode)
    {
      ghost var events0 := events;
      var prepared := PrepareOrder(order, settings, view, now);
      more := active;
      if prepared.Some? {
        QueueOne(places, before, events0, store, active, prepared.value, settings, now, view.around);
        more := active + {prepared.value};
      }
    }

    /** Prepares a store and dispatches its queue in some order; the count is that of the events sent by this call. */
    method RunStore(store: nat, orders: seq<nat>, settings: Settings, views: map<nat, View>, now: Instant, worker: nat, deliveries: map<EventKey, Delivery>)
      returns (active: set<EventKey>, sent: nat)
      requires Valid() && Reachable() && worker !in world.flights
      requires forall order :: order in orders ==>
                 && order in activities && order in places && places[order].store == store
                 && order in views && views[order].facts.customer == places[order].customer
      requires forall key :: key in CandidateKeys(activities, orders, settings, views, now) ==>
                 key in deliveries && deliveries[key].view.facts.customer == CustomerOf(places, key)
      modifies `events, `world, `path, `trace
      ensures Valid() && Reachable() && world.flights == old(world.flights)
      ensures active == CandidateKeys(activities, orders, settings, views, now) && events.Keys == old(events.Keys) + active
      ensures sent == |NewlySent(old(events), events, active)|
    {
      active := PrepareStore(store, orders, settings, views, now);
      ghost var queued := events;
      ghost var delivered;
      sent, delivered := DispatchQueue(active, worker, deliveries);
      SentByThisCall(places, old(events), queued, events, store, active, delivered, settings.mode);
    }

    method DispatchQueue(active: set<EventKey>, worker: nat, deliveries: map<EventKey, Delivery>) returns (sent: nat, ghost delivered: set<EventKey>)
      requires Valid() && Reachable() && worker !in world.flights && active <= events.Keys
      requires forall key :: key in active ==> key in deliveries && deliveries[key].view.facts.customer == CustomerOf(places, key)
      modifies `events, `world, `path, `trace
      ensures Valid() && Reachable() && world.flights == old(world.flights)
      ensures sent == |delivered| && Dispatched(old(events), events, active, {}, delivered)
    {
      sent, delivered := 0, {};
      var queue := set k | k in active && events[k].status == Ready;
      ghost var queued := events;
      NoneDispatched(queued, active, queue);
      while queue != {}
        invariant Valid() && Reachable() && world.flights == old(world.flights) && world.rows == old(world.rows)
        invariant queue <= active && sent == |delivered|
        invariant Dispatched(queued, events, active, queue, delivered)
      {
        var key :| key in queue;
        var accepted := DispatchNext(queued, active, queue, delivered, key, worker, deliveries[key]);
        queue := queue - {key};
        if accepted {
          sent, delivered := sent + 1, delivered + {key};
        }
      }
    }

    /** One turn of the loop over the queue. */
    method DispatchNext(ghost queued: map<EventKey, Event>, ghost active: set<EventKey>, ghost queue: set<EventKey>, ghost delivered: set<EventKey>,
                        key: EventKey, worker: nat, d: Delivery)
      returns (accepted: bool)
      requires Valid() && Reachable() && worker !in world.flights && d.view.facts.customer == CustomerOf(places, key)
      requires key in queue && queue <= active && Dispatched(queued, events, active, queue, delivered)
      modifies `events, `world, `path, `trace
      ensures Valid() && Reachable() && world.flights == old(world.flights) && world.rows == old(world.rows)
      ensures Dispatched(queued, events, active, queue - {key}, if accepted then delivered + {key} else delivered)
      ensures accepted ==> key !in delivered && |delivered + {key}| == |delivered| + 1
    {
      ghost var before := events;
      accepted := Dispatch(worker, key, d.now, d.settings, d.view, d.recheck, d.outcome);
      DispatchOne(queued, before, events, active, queue, delivered, key, accepted);
    }
  }

  /** What holds of every run holds of the tables that the methods leave behind. */
  lemma TablesAreSafe(service: Service, customer: nat, start: Instant)
    requires service.Valid() && service.Reachable()
    ensures DeliverySafe(service.world) && CapsSafe(service.world) && service.world.events == service.events
    ensures |CustomerWindow(service.world, customer, start, DAY)| <= 1 && |CustomerWindow(service.world, customer, start, 7 * DAY)| <= 3
  {
    PathIsPlay(Start(service.places, service.minimum), service.path, service.trace, service.world);
    DeliveryAlways(service.places, service.minimum, service.trace);
    CapsAlways(service.places, service.minimum, service.trace);
    CustomerCapHolds(service.places, service.minimum, service.trace, customer, start);
  }

  // ---------- What preparing and dispatching a store amount to ----------

  /** The events that a store's purchases are candidates for. */
  ghost function CandidateKeys(rows: map<nat, Row>, orders: seq<nat>, settings: Settings, views: map<nat, View>, now: Instant): set<EventKey>
    requires forall order :: order in orders ==> order in rows && order in views
  {
    set order | order in orders && CandidateKind(rows[order], views[order].facts, settings, now).Some? ::
      EventKey(order, rows[order].cycle, CandidateKind(rows[order], views[order].facts, settings, now).value)
  }

  ghost function CandidateOf(row: Row, order: nat, settings: Settings, view: View, now: Instant): set<EventKey> {
    var kind := CandidateKind(row, view.facts, settings, now);
    if kind.Some? then {EventKey(order, row.cycle, kind.value)} else {}
  }

  lemma CandidateKeysStep(rows: map<nat, Row>, orders: seq<nat>, i: nat, settings: Settings, views: map<nat, View>, now: Instant)
    requires i < |orders| && forall order :: order in orders ==> order in rows && order in views
    ensures CandidateKeys(rows, orders[..i + 1], settings, views, now)
         == CandidateKeys(rows, orders[..i], settings, views, now) + CandidateOf(rows[orders[i]], orders[i], settings, views[orders[i]], now)
  {
    assert orders[..i + 1] == orders[..i] + [orders[i]];
  }

  predicate Queueable(before: map<EventKey, Event>, key: EventKey) {
    key !in before || Pending(before[key].status)
  }

  /** The active events are queued or left as they were reserved or settled; no other event has changed. */
  ghost predicate QueuedSoFar(places: map<nat, Place>, before: map<EventKey, Event>, after: map<EventKey, Event>, store: nat, active: set<EventKey>, mode: Mode) {
    && after.Keys == before.Keys + active
    && (forall k :: k in active ==> StoreOf(places, k) == Some(store))
    && (forall k :: k in active && Queueable(before, k) ==> after[k].status == if mode == Live then Ready else Previewed)
    && (forall k :: k in before && !(k in active && Queueable(before, k)) ==> after[k] == before[k])
  }

  /** In addition, the store's other pending events are cancelled. */
  ghost predicate Queued(places: map<nat, Place>, before: map<EventKey, Event>, after: map<EventKey, Event>, store: nat, active: set<EventKey>, mode: Mode) {
    && after.Keys == before.Keys + active
    && (forall k :: k in active && Queueable(before, k) ==> after[k].status == if mode == Live then Ready else Previewed)
    && (forall k :: k in before && k !in active && StoreOf(places, k) == Some(store) && Pending(before[k].status) ==>
          after[k] == before[k].(status := EventStatus.Cancelled, reason := NotEligible))
    && (forall k :: k in before && (!Pending(before[k].status) || (k !in active && StoreOf(places, k) != Some(store))) ==>
          after[k] == before[k])
  }

  lemma QueueOne(places: map<nat, Place>, before: map<EventKey, Event>, events: map<EventKey, Event>, store: nat, active: set<EventKey>,
                 key: EventKey, settings: Settings, now: Instant, around: Surroundings)
    requires QueuedSoFar(places, before, events, store, active, settings.mode) && StoreOf(places, key) == Some(store)
    ensures QueuedSoFar(places, before, Prepared(places, events, key, settings, now, around), store, active + {key}, settings.mode)
  {
  }

  lemma QueueDone(places: map<nat, Place>, before: map<EventKey, Event>, events: map<EventKey, Event>, store: nat, active: set<EventKey>, mode: Mode)
    requires QueuedSoFar(places, before, events, store, active, mode)
    ensures Queued(places, before, OthersCancelled(places, events, store, active), store, active, mode)
  {
  }

  /** Of the queued events, the delivered ones are sent, and no other event has become sent. */
  ghost predicate Dispatched(queued: map<EventKey, Event>, events: map<EventKey, Event>, active: set<EventKey>, queue: set<EventKey>, delivered: set<EventKey>) {
    && events.Keys == queued.Keys && delivered <= active && delivered !! queue && active <= queued.Keys
    && (forall k :: k in queue && k in queued ==> events[k] == queued[k])
    && (forall k :: k in delivered && k in queued ==> events[k].status == Sent && queued[k].status == Ready)
    && (forall k :: k in queued && k !in delivered ==> events[k] == queued[k] || events[k].status != Sent)
  }

  lemma NoneDispatched(queued: map<EventKey, Event>, active: set<EventKey>, queue: set<EventKey>)
    requires active <= queued.Keys
    ensures Dispatched(queued, queued, active, queue, {})
  {
  }

  lemma DispatchOne(queued: map<EventKey, Event>, before: map<EventKey, Event>, after: map<EventKey, Event>,
                    active: set<EventKey>, queue: set<EventKey>, delivered: set<EventKey>, key: EventKey, accepted: bool)
    requires Dispatched(queued, before, active, queue, delivered) && key in queue && queue <= active
    requires after.Keys == before.Keys && forall k :: k in before && k != key ==> after[k] == before[k]
    requires if accepted then before[key].status == Ready && after[key].status == Sent
             else after[key] == before[key] || after[key].status != Sent
    ensures Dispatched(queued, after, active, queue - {key}, if accepted then delivered + {key} else delivered)
  {
  }

  ghost function NewlySent(before: map<EventKey, Event>, after: map<EventKey, Event>, active: set<EventKey>): set<EventKey> {
    set k | k in active && k in after && after[k].status == Sent && (k !in before || before[k].status != Sent)
  }

  lemma SentByThisCall(places: map<nat, Place>, before: map<EventKey, Event>, queued: map<EventKey, Event>, after: map<EventKey, Event>,
                       store: nat, active: set<EventKey>, delivered: set<EventKey>, mode: Mode)
    requires Queued(places, before, queued, store, active, mode) && Dispatched(queued, after, active, {}, delivered)
    ensures delivered == NewlySent(before, after, active)
  {
  }

  lemma TransmitShape(w: World, worker: nat, key: EventKey, outcome: Outcome)
    requires worker in w.flights && w.flights[worker] == Flight(key, Checked)
    ensures
      var sent := Apply(w, Send(worker, outcome));
      && sent == w.(flights := w.flights[worker := Flight(key, Attempted(outcome))], attempts := w.attempts[key := Attempts(w, key) + [outcome]])
      && Apply(sent, Finish(worker)) == sent.(events := Settled(w.events, key, OutcomeStatus(outcome), OutcomeReason(outcome)),
                                              flights := w.flights - {worker})
  {
    var sent := Apply(w, Send(worker, outcome));
    assert sent.flights - {worker} == w.flights - {worker};
  }
}
