/** What every interleaving of the outreach protocol keeps. */
module OutreachSafety {
  import opened Prelude
  import opened Candidates
  import opened Outreach

  // ---------- Delivery ----------

  ghost predicate AllRefused(attempts: seq<Outcome>) {
    forall i :: 0 <= i < |attempts| ==> attempts[i] == TurnedDown
  }

  ghost predicate RefusedBeforeLast(attempts: seq<Outcome>) {
    forall i :: 0 <= i < |attempts| - 1 ==> attempts[i] == TurnedDown
  }

  /** A flight's event is sending or uncertain, and its earlier attempts were all refused. */
  ghost predicate FlightSafe(w: World, worker: nat)
    requires worker in w.flights
  {
    var f := w.flights[worker];
    && f.event in w.events && (w.events[f.event].status == Sending || w.events[f.event].status == Uncertain)
    && (if f.phase.Attempted? then
          var a := Attempts(w, f.event);
          a != [] && a[|a| - 1] == f.phase.outcome && AllRefused(a[..|a| - 1])
        else AllRefused(Attempts(w, f.event)))
  }

  ghost predicate EventSafe(w: World, key: EventKey) {
    var a := Attempts(w, key);
    && RefusedBeforeLast(a)
    && (key !in w.events || !Reserved(w.events[key].status) ==> AllRefused(a))
    && (key in w.events && w.events[key].status == Sent ==> a != [] && a[|a| - 1] == Accepted)
  }

  ghost predicate DeliverySafe(w: World) {
    && (forall x :: x in w.flights ==> FlightSafe(w, x))
    && (forall x, y :: x in w.flights && y in w.flights && x != y ==> w.flights[x].event != w.flights[y].event)
    && (forall key :: EventSafe(w, key))
  }

  /** Statuses change only along these lines in one step, and "sent" and "uncertain" never change. */
  ghost predicate StatusStep(before: EventStatus, after: EventStatus) {
    || before == after
    || (Pending(before) && Pending(after))
    || (before == Ready && after == Sending)
    || (before == Sending && after in {Sent, Uncertain, Failed, EventStatus.Cancelled})
    || (before == Failed && after == Ready)
  }

  lemma PreparedStatuses(places: map<nat, Place>, events: map<EventKey, Event>, prepared: EventKey, settings: Settings, now: Instant, around: Surroundings)
    ensures var after := Prepared(places, events, prepared, settings, now, around);
      forall key :: key in events ==> key in after && StatusStep(events[key].status, after[key].status)
  {
  }

  lemma DecidedStatuses(events: map<EventKey, Event>, reserved: EventKey, decision: Decision, now: Instant, target: Option<nat>)
    requires reserved in events && (decision !in {NotReady, NoCustomer} ==> events[reserved].status == Ready)
    ensures var after := Decided(events, reserved, decision, now, target);
      forall key :: key in events ==> key in after && StatusStep(events[key].status, after[key].status)
  {
  }

  lemma StepStatuses(w: World, s: Step, key: EventKey)
    requires key in w.events
    ensures key in Apply(w, s).events && StatusStep(w.events[key].status, Apply(w, s).events[key].status)
  {
    if Enabled(w, s) {
      match s
      case Prepare(order, settings, facts, now, around) =>
        PreparedStatuses(w.places, w.events, Candidate(w, order, settings, facts, now), settings, now, around);
      case Reserve(_, reserved, now, settings, facts, around) =>
        DecidedStatuses(w.events, reserved, Decide(w.places, w.events, reserved, w.rows[reserved.order], now, settings, facts, around), now, around.target);
      case _ =>
    }
  }

  /** A change of statuses that starts no attempt, ends none, and releases no reservation of a flight. */
  ghost predicate OnlyStatuses(w: World, w': World) {
    && w'.flights == w.flights && w'.attempts == w.attempts
    && (forall key :: key in w.events ==> key in w'.events)
    && (forall key :: key in w'.events ==>
          var after := w'.events[key].status;
          if key in w.events then
            var before := w.events[key].status;
            after == before || (!Reserved(before) && !Reserved(after)) || (before == Sending && after == Uncertain)
          else !Reserved(after))
  }

  lemma OnlyStatusesKeepsDelivery(w: World, w': World)
    requires DeliverySafe(w) && OnlyStatuses(w, w')
    ensures DeliverySafe(w')
  {
    forall x | x in w'.flights
      ensures FlightSafe(w', x)
    {
      assert FlightSafe(w, x);
    }
    forall key
      ensures EventSafe(w', key)
    {
      assert EventSafe(w, key);
    }
  }

  /** A reservation: a ready event becomes "sending" and gets its only worker. */
  ghost predicate Grants(w: World, w': World, worker: nat, key: EventKey) {
    && worker !in w.flights && key in w.events && w.events[key].status == Ready
    && w'.events.Keys == w.events.Keys && w'.events[key].status == Sending
    && (forall k :: k in w.events && k != key ==> w'.events[k] == w.events[k])
    && w'.flights == w.flights[worker := Flight(key, Claimed)] && w'.attempts == w.attempts
  }

  lemma GrantKeepsEvents(w: World, w': World, worker: nat, key: EventKey)
    requires (forall k :: EventSafe(w, k)) && Grants(w, w', worker, key)
    ensures forall k :: EventSafe(w', k)
  {
    forall k
      ensures EventSafe(w', k)
    {
      assert EventSafe(w, k);
    }
  }

  /** The reserved event was in no other worker's hands, and stays in this one's alone. */
  lemma GrantKeepsFlight(w: World, w': World, worker: nat, key: EventKey, x: nat)
    requires Grants(w, w', worker, key) && x in w.flights && FlightSafe(w, x)
    ensures w.flights[x].event != key && FlightSafe(w', x)
  {
  }

  lemma GrantKeepsDelivery(w: World, w': World, worker: nat, key: EventKey)
    requires DeliverySafe(w) && Grants(w, w', worker, key)
    ensures DeliverySafe(w')
  {
    assert EventSafe(w, key);
    assert FlightSafe(w', worker);
    forall x | x in w.flights
      ensures w.flights[x].event != key && FlightSafe(w', x)
    {
      GrantKeepsFlight(w, w', worker, key, x);
    }
    GrantKeepsEvents(w, w', worker, key);
  }

  lemma ReserveOutcome(w: World, s: Step)
    requires s.Reserve? && Enabled(w, s)
    ensures
      var w' := Apply(w, s);
      if Decide(w.places, w.events, s.key, w.rows[s.key.order], s.now, s.settings, s.facts, s.around) == Granted
      then Grants(w, w', s.worker, s.key)
      else OnlyStatuses(w, w') && w'.tickets == w.tickets && w'.issued == w.issued
  {
  }

  lemma ReserveKeepsDelivery(w: World, s: Step)
    requires DeliverySafe(w) && s.Reserve? && Enabled(w, s)
    ensures DeliverySafe(Apply(w, s))
  {
    ReserveOutcome(w, s);
    if Grants(w, Apply(w, s), s.worker, s.key) {
      GrantKeepsDelivery(w, Apply(w, s), s.worker, s.key);
    } else {
      OnlyStatusesKeepsDelivery(w, Apply(w, s));
    }
  }

  /** A worker that leaves its event unsent, refused or settled. */
  lemma LeaveKeepsDelivery(w: World, w': World, worker: nat, status: EventStatus, reason: Reason)
    requires DeliverySafe(w) && worker in w.flights
    requires w' == w.(events := w'.events, flights := w.flights - {worker})
    requires w'.events == w.events || w'.events == Settled(w.events, w.flights[worker].event, status, reason)
    requires w'.events != w.events ==>
      || (!w.flights[worker].phase.Attempted? && status == EventStatus.Cancelled)
      || (w.flights[worker].phase.Attempted? && status == OutcomeStatus(w.flights[worker].phase.outcome))
    ensures DeliverySafe(w')
  {
    assert FlightSafe(w, worker);
    forall x | x in w'.flights
      ensures FlightSafe(w', x)
    {
      assert FlightSafe(w, x) && w.flights[x].event != w.flights[worker].event;
    }
    forall key
      ensures EventSafe(w', key)
    {
      assert EventSafe(w, key);
    }
  }

  /** An attempt of one worker on its event. */
  ghost predicate Tries(w: World, w': World, worker: nat, key: EventKey, outcome: Outcome) {
    && worker in w.flights && w.flights[worker] == Flight(key, Checked)
    && w' == w.(flights := w.flights[worker := Flight(key, Attempted(outcome))], attempts := w.attempts[key := Attempts(w, key) + [outcome]])
  }

  lemma SendKeepsFlight(w: World, w': World, worker: nat, key: EventKey, outcome: Outcome, x: nat)
    requires DeliverySafe(w) && Tries(w, w', worker, key, outcome) && x in w.flights
    ensures FlightSafe(w', x)
  {
    assert FlightSafe(w, x);
    if x == worker {
      assert Attempts(w', key)[..|Attempts(w', key)| - 1] == Attempts(w, key);
    } else {
      assert w.flights[x].event != key;
      assert Attempts(w', w.flights[x].event) == Attempts(w, w.flights[x].event);
    }
  }

  lemma SendKeepsEvent(w: World, w': World, worker: nat, key: EventKey, outcome: Outcome, k: EventKey)
    requires DeliverySafe(w) && Tries(w, w', worker, key, outcome)
    ensures EventSafe(w', k)
  {
    assert EventSafe(w, k) && FlightSafe(w, worker);
    if k != key {
      assert Attempts(w', k) == Attempts(w, k);
    }
  }

  lemma SendKeepsDelivery(w: World, w': World, worker: nat, key: EventKey, outcome: Outcome)
    requires DeliverySafe(w) && Tries(w, w', worker, key, outcome)
    ensures DeliverySafe(w')
  {
    forall x | x in w'.flights
      ensures FlightSafe(w', x)
    {
      SendKeepsFlight(w, w', worker, key, outcome, x);
    }
    forall k
      ensures EventSafe(w', k)
    {
      SendKeepsEvent(w, w', worker, key, outcome, k);
    }
  }

  lemma CheckKeepsDelivery(w: World, s: Step)
    requires DeliverySafe(w) && s.Revalidate? && Enabled(w, s)
    ensures DeliverySafe(Apply(w, s))
  {
    var key := w.flights[s.worker].event;
    var due := StillDue(w.places, w.events, key, w.rows[key.order], s.settings, s.facts, s.now, s.later, s.around, s.target);
    RevalidateShape(w, s, key, due);
    if due {
      CheckedKeepsDelivery(w, Apply(w, s), s.worker);
    } else {
      LeaveKeepsDelivery(w, Apply(w, s), s.worker, EventStatus.Cancelled, NotEligible);
    }
  }

  lemma CheckedKeepsDelivery(w: World, w': World, worker: nat)
    requires DeliverySafe(w) && worker in w.flights && w.flights[worker].phase == Claimed
    requires w' == w.(flights := w.flights[worker := Flight(w.flights[worker].event, Checked)])
    ensures DeliverySafe(w')
  {
    forall x | x in w'.flights
      ensures FlightSafe(w', x)
    {
      assert FlightSafe(w, x);
    }
    forall k
      ensures EventSafe(w', k)
    {
      assert EventSafe(w, k);
    }
  }

  lemma PreparedOnlyStatuses(w: World, key: EventKey, settings: Settings, now: Instant, around: Surroundings)
    ensures OnlyStatuses(w, w.(events := Prepared(w.places, w.events, key, settings, now, around)))
  {
  }

  lemma CancelledOnlyStatuses(w: World, store: nat, active: set<EventKey>)
    ensures OnlyStatuses(w, w.(events := OthersCancelled(w.places, w.events, store, active)))
  {
  }

  lemma OthersOnlyStatuses(w: World, s: Step)
    requires Enabled(w, s) && (s.Observed? || s.Prepare? || s.CancelOthers? || s.Sweep? || s.Retry?)
    ensures OnlyStatuses(w, Apply(w, s))
  {
    match s
    case Prepare(order, settings, facts, now, around) =>
      PreparedOnlyStatuses(w, Candidate(w, order, settings, facts, now), settings, now, around);
    case CancelOthers(store, active) => CancelledOnlyStatuses(w, store, active);
    case _ =>
  }

  lemma DeliveryKept(w: World, s: Step)
    requires DeliverySafe(w)
    ensures DeliverySafe(Apply(w, s))
  {
    if Enabled(w, s) {
      match s
      case Reserve(_, _, _, _, _, _) => ReserveKeepsDelivery(w, s);
      case Revalidate(_, _, _, _, _, _, _) => CheckKeepsDelivery(w, s);
      case Send(worker, outcome) => SendKeepsDelivery(w, Apply(w, s), worker, w.flights[worker].event, outcome);
      case Finish(worker) =>
        var outcome := w.flights[worker].phase.outcome;
        LeaveKeepsDelivery(w, Apply(w, s), worker, OutcomeStatus(outcome), OutcomeReason(outcome));
      case Crash(worker) => LeaveKeepsDelivery(w, Apply(w, s), worker, EventStatus.Cancelled, NoReason);
      case _ =>
        OthersOnlyStatuses(w, s);
        OnlyStatusesKeepsDelivery(w, Apply(w, s));
    }
  }

  /** The attempts that may have reached the customer. */
  ghost function Arrivals(attempts: seq<Outcome>): set<int> {
    set i | 0 <= i < |attempts| && attempts[i] != TurnedDown
  }

  lemma {:induction false} DeliveryAlways(places: map<nat, Place>, minimum: int, steps: seq<Step>)
    ensures DeliverySafe(Play(Start(places, minimum), steps))
  {
    if steps == [] {
      assert forall key :: EventSafe(Start(places, minimum), key);
    } else {
      DeliveryAlways(places, minimum, steps[..|steps| - 1]);
      DeliveryKept(Play(Start(places, minimum), steps[..|steps| - 1]), steps[|steps| - 1]);
    }
  }

  /** In every run, each (order, cycle, kind) reaches its customer at most once, and "sent" means that it did. */
  lemma AtMostOneDelivery(places: map<nat, Place>, minimum: int, steps: seq<Step>, key: EventKey)
    ensures
      var w := Play(Start(places, minimum), steps);
      var a := Attempts(w, key);
      && |Arrivals(a)| <= 1
      && (forall i :: 0 <= i < |a| - 1 ==> a[i] == TurnedDown)
      && (key in w.events && w.events[key].status == Sent ==> a != [] && a[|a| - 1] == Accepted)
      && (forall x :: x in w.flights && w.flights[x].event == key ==>
            key in w.events && w.events[key].status in {Sending, Uncertain}
            && forall y :: y in w.flights && w.flights[y].event == key ==> y == x)
  {
    DeliveryAlways(places, minimum, steps);
    var w := Play(Start(places, minimum), steps);
    var a := Attempts(w, key);
    assert EventSafe(w, key);
    assert Arrivals(a) <= {|a| - 1};
    SubsetSize(Arrivals(a), {|a| - 1});
    forall x | x in w.flights && w.flights[x].event == key
      ensures key in w.events && w.events[key].status in {Sending, Uncertain}
    {
      assert FlightSafe(w, x);
    }
  }

  /** Once an event is sent or uncertain, no further step of anyone changes its status. */
  lemma {:induction false} FinalStatuses(w: World, steps: seq<Step>, key: EventKey)
    requires key in w.events && w.events[key].status in {Sent, Uncertain}
    ensures key in Play(w, steps).events && Play(w, steps).events[key].status == w.events[key].status
  {
    if steps != [] {
      FinalStatuses(w, steps[..|steps| - 1], key);
      StepStatuses(Play(w, steps[..|steps| - 1]), steps[|steps| - 1], key);
    }
  }
}
