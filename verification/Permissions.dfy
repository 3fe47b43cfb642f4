/** What a reservation and an attempt rest on, by the columns that the program reads (customer_activity/outreach.py). */
module Permissions {
  import opened Prelude
  import opened Evidence
  import opened Activity
  import opened Candidates
  import opened Outreach
  import opened OutreachSafety
  import opened OutreachCaps
  import opened OutreachAnswers

  // ---------- Candidates ----------

  /** The order and its store may be written to, and the row is the word of the panels on the whole purchase, at most 45 minutes old. */
  ghost predicate Attested(row: Row, order: OrderFacts, now: Instant) {
    && order.customer.Some? && order.storeActive && (order.status == Confirmed || order.status == Completed) && order.verified
    && row.note.quality == Ok && !row.note.partial
    && row.observedAt.Some? && row.observedAt.value <= now && now - row.observedAt.value <= 45 * MINUTE
  }

  /** A cup that is neither disabled nor at its end, nor changed since then, with its items and their links. */
  ghost predicate CupUntouched(cup: CupFacts, seen: Instant, now: Instant) {
    && !cup.disabled && (cup.expiresAt.None? || cup.expiresAt.value > now)
    && forall j :: 0 <= j < |cup.updates| ==> cup.updates[j] <= seen
  }

  /** Since the row was observed nothing of the purchase has been changed, no cup has ended, and no renewal is made or awaited. */
  ghost predicate Untouched(row: Row, order: OrderFacts, now: Instant)
    requires row.observedAt.Some?
  {
    var seen := row.observedAt.value;
    && order.updatedAt <= seen && !order.renewing
    && (forall i :: 0 <= i < |order.clientUpdates| ==> order.clientUpdates[i] <= seen)
    && (forall i :: 0 <= i < |order.cups| ==> CupUntouched(order.cups[i], seen, now))
  }

  ghost predicate Trusted(row: Row, order: OrderFacts, now: Instant) {
    Attested(row, order, now) && Untouched(row, order, now)
  }

  /** Every sample of the row is at most 45 minutes old and none is from the future. */
  ghost predicate AllFresh(counters: Samples, now: Instant) {
    counters != map[] && forall key :: key in counters ==> counters[key].at <= now && now - counters[key].at <= 45 * MINUTE
  }

  /** Some source ends within so many hours, and has not ended yet. */
  ghost predicate EndsSoon(counters: Samples, now: Instant, hours: int) {
    exists key :: key in counters && counters[key].expiry.Some? && now < counters[key].expiry.value <= now + hours * HOUR
  }

  /** Some source with a quota has at most so many hundredths of it left. */
  ghost predicate RunsLow(counters: Samples, percent: int) {
    exists key :: key in counters && counters[key].quota.Some? && counters[key].quota.value > 0
                  && 100 * (counters[key].quota.value - counters[key].used) <= percent * counters[key].quota.value
  }

  ghost predicate IsQuiet(row: Row, settings: Settings, now: Instant) {
    settings.inactivity && row.state == Valid && ActivityStatus(row, now) == IsInactive
  }

  /** The service has ended within the last two days. */
  ghost predicate JustEnded(row: Row, now: Instant) {
    (row.state == Expired || row.state == Exhausted || row.state == Ended)
    && row.endedAt.Some? && row.endedAt.value <= now && now - row.endedAt.value <= 48 * HOUR
  }

  /** A valid service whose counters say how long it will last; inactivity goes first. */
  ghost predicate Lasting(row: Row, settings: Settings, now: Instant) {
    settings.renewal && row.state == Valid && !IsQuiet(row, settings, now) && AllFresh(row.counters, now)
  }

  /** What each kind of message says of the purchase; the more urgent goes first. */
  ghost predicate Deserves(row: Row, settings: Settings, now: Instant, kind: Kind) {
    match kind
    case Inactive48h => IsQuiet(row, settings, now)
    case EndedService => settings.renewal && JustEnded(row, now)
    case Expiry24h => Lasting(row, settings, now) && EndsSoon(row.counters, now, 24)
    case Volume5 => Lasting(row, settings, now) && !EndsSoon(row.counters, now, 24) && RunsLow(row.counters, 5)
    case Expiry72h => Lasting(row, settings, now) && !EndsSoon(row.counters, now, 24) && !RunsLow(row.counters, 5) && EndsSoon(row.counters, now, 72)
    case Volume20 => Lasting(row, settings, now) && !RunsLow(row.counters, 5) && !EndsSoon(row.counters, now, 72) && RunsLow(row.counters, 20)
  }

  lemma ChangedExactly(updates: seq<Instant>, at: Instant)
    ensures !ChangedAfter(updates, at) <==> forall j :: 0 <= j < |updates| ==> updates[j] <= at
  {
    if u :| u in updates && u > at {
      var j :| 0 <= j < |updates| && updates[j] == u;
    }
    if j :| 0 <= j < |updates| && updates[j] > at {
      assert updates[j] in updates;
    }
  }

  lemma CupsExactly(cups: seq<CupFacts>, seen: Instant, now: Instant)
    ensures (forall cup :: cup in cups ==> !cup.disabled && !Past(cup.expiresAt, now) && !ChangedAfter(cup.updates, seen))
            <==> forall i :: 0 <= i < |cups| ==> CupUntouched(cups[i], seen, now)
  {
    forall cup: CupFacts
      ensures !cup.disabled && !Past(cup.expiresAt, now) && !ChangedAfter(cup.updates, seen) <==> CupUntouched(cup, seen, now)
    {
      ChangedExactly(cup.updates, seen);
    }
    assert forall i :: 0 <= i < |cups| ==> cups[i] in cups;
  }

  lemma TrustedExactly(row: Row, order: OrderFacts, now: Instant)
    ensures Trustworthy(row, order, now) <==> Trusted(row, order, now)
  {
    if row.observedAt.Some? {
      CupsExactly(order.cups, row.observedAt.value, now);
      ChangedExactly(order.clientUpdates, row.observedAt.value);
    }
  }

  lemma EndsSoonExactly(counters: Samples, now: Instant, days: int)
    ensures ExpiresWithin(counters, now, days * DAY) <==> EndsSoon(counters, now, 24 * days)
  {
    if EndsSoon(counters, now, 24 * days) {
      var key :| key in counters && counters[key].expiry.Some? && now < counters[key].expiry.value <= now + 24 * days * HOUR;
      assert 0 < counters[key].expiry.value - now <= days * DAY;
    }
  }

  lemma RunsLowExactly(counters: Samples, n: int, percent: int)
    requires n * percent == 100 && n > 0 && percent > 0
    ensures AlmostUsedUp(counters, n) <==> RunsLow(counters, percent)
  {
    forall key | key in counters && counters[key].quota.Some? && counters[key].quota.value > 0
      ensures n * Remaining(counters[key]) <= counters[key].quota.value
              <==> 100 * (counters[key].quota.value - counters[key].used) <= percent * counters[key].quota.value
    {
      LowShare(counters[key].quota.value, counters[key].used, n, percent);
    }
  }

  lemma LowShare(quota: int, used: int, n: int, percent: int)
    requires n * percent == 100 && n > 0 && percent > 0 && quota > 0
    ensures n * (if quota > used then quota - used else 0) <= quota <==> 100 * (quota - used) <= percent * quota
  {
    var left := quota - used;
    assert percent * (n * left) == 100 * left;
    if left <= 0 {
      assert percent * quota > 0;
    } else if n * left <= quota {
      assert percent * (n * left) <= percent * quota;
    } else {
      assert percent * (n * left) > percent * quota;
    }
  }

  /** A purchase is a candidate for a kind of message exactly when its row can be trusted and it deserves that kind. */
  lemma KindExactly(row: Row, order: OrderFacts, settings: Settings, now: Instant, kind: Kind)
    ensures CandidateKind(row, order, settings, now) == Some(kind) <==> Trusted(row, order, now) && Deserves(row, settings, now, kind)
  {
    TrustedExactly(row, order, now);
    EndsSoonExactly(row.counters, now, 1);
    EndsSoonExactly(row.counters, now, 3);
    RunsLowExactly(row.counters, 20, 5);
    RunsLowExactly(row.counters, 5, 20);
    assert AllFresh(row.counters, now) <==> row.counters != map[] && AllMeasured(row.counters, now);
  }

  // ---------- Reservations ----------

  predicate Held(status: EventStatus) {
    status == Sending || status == Sent || status == Uncertain
  }

  /** Another event of the same customer, in whatever store, that was claimed since then and is not known to have failed. */
  ghost function SameCustomerSince(w: World, key: EventKey, since: Instant): set<EventKey> {
    set k | k in w.events && k != key && CustomerOf(w.places, k) == CustomerOf(w.places, key)
            && Held(w.events[k].status) && w.events[k].claimedAt.Some? && w.events[k].claimedAt.value >= since
  }

  ghost function SameStoreSince(w: World, key: EventKey, since: Instant): set<EventKey> {
    set k | k in w.events && k != key && StoreOf(w.places, k) == StoreOf(w.places, key)
            && Held(w.events[k].status) && w.events[k].claimedAt.Some? && w.events[k].claimedAt.value >= since
  }

  predicate InHours(settings: Settings, around: Surroundings) {
    settings.startHour <= around.hour && around.hour < settings.endHour
  }

  /** No message of the last day, this program's or the legacy campaigns', and fewer than three of the last week. */
  ghost predicate CustomerRests(w: World, key: EventKey, now: Instant, around: Surroundings) {
    && SameCustomerSince(w, key, now - 24 * HOUR) == {} && !around.legacyDay
    && |SameCustomerSince(w, key, now - 7 * 24 * HOUR)| + around.legacyWeek < 3
  }

  ghost predicate StoreHasRoom(w: World, key: EventKey, settings: Settings, now: Instant, around: Surroundings) {
    |SameStoreSince(w, key, now - 24 * HOUR)| + around.otherSent < settings.dailyLimit
  }

  /** The customer may be written to now. */
  ghost predicate Permitted(w: World, key: EventKey, settings: Settings, now: Instant, around: Surroundings) {
    && InHours(settings, around) && !around.muted && !around.openSupport
    && CustomerRests(w, key, now, around) && StoreHasRoom(w, key, settings, now, around) && around.target.Some?
  }

  lemma SameSets(w: World, key: EventKey, since: Instant)
    ensures PersonalSince(w.places, w.events, key, since) == SameCustomerSince(w, key, since)
    ensures StoreSince(w.places, w.events, key, since) == SameStoreSince(w, key, since)
  {
  }

  /** What holds a message back is the first of these, in this order, and nothing else. */
  lemma BlockExactly(w: World, key: EventKey, settings: Settings, now: Instant, around: Surroundings)
    ensures Suppression(w.places, w.events, key, settings, now, around) ==
              if settings.mode == Off then Some(SwitchedOff)
              else if !InHours(settings, around) then Some(QuietHours)
              else if around.muted then Some(Muted)
              else if around.openSupport then Some(OpenSupport)
              else if !CustomerRests(w, key, now, around) then Some(CustomerCap)
              else if !StoreHasRoom(w, key, settings, now, around) then Some(StoreCap)
              else if around.target.None? then Some(NoTarget)
              else None
  {
    SameSets(w, key, now - DAY);
    SameSets(w, key, now - 7 * DAY);
  }

  lemma PermittedExactly(w: World, key: EventKey, settings: Settings, now: Instant, around: Surroundings)
    ensures Suppression(w.places, w.events, key, settings, now, around).None? <==> settings.mode != Off && Permitted(w, key, settings, now, around)
  {
    BlockExactly(w, key, settings, now, around);
  }

  /** The row is that of the event's cycle and deserves the event's kind of message. */
  ghost predicate Warranted(w: World, key: EventKey, settings: Settings, facts: OrderFacts, now: Instant) {
    && key.order in w.rows && w.rows[key.order].cycle == key.cycle
    && Trusted(w.rows[key.order], facts, now) && Deserves(w.rows[key.order], settings, now, key.kind)
  }

  /** All that a reservation needs. */
  ghost predicate MayReserve(w: World, s: Step)
    requires s.Reserve?
  {
    && s.worker !in w.flights && s.key in w.events && w.events[s.key].status == Ready
    && CustomerOf(w.places, s.key).Some? && CustomerOf(w.places, s.key) == s.facts.customer
    && s.settings.mode == Live && Warranted(w, s.key, s.settings, s.facts, s.now)
    && Permitted(w, s.key, s.settings, s.now, s.around)
  }

  /** The worker has the event in hand, reserved and unchecked, by this step. */
  ghost predicate TakesInHand(w: World, s: Step)
    requires s.Reserve?
  {
    s.worker !in w.flights && s.worker in Apply(w, s).flights && Apply(w, s).flights[s.worker] == Flight(s.key, Claimed)
  }

  lemma DecisionExactly(w: World, s: Step)
    requires s.Reserve? && Enabled(w, s)
    ensures DecisionOf(w, s) == Granted <==> MayReserve(w, s)
  {
    KindExactly(w.rows[s.key.order], s.facts, s.settings, s.now, s.key.kind);
    PermittedExactly(w, s.key, s.settings, s.now, s.around);
  }

  /** In whatever world, a reservation is granted exactly when it has all that it needs. */
  lemma ReservesExactly(w: World, s: Step)
    requires s.Reserve?
    ensures TakesInHand(w, s) <==> MayReserve(w, s)
  {
    if Enabled(w, s) {
      DecisionExactly(w, s);
    }
  }

  /** What a reservation that is not granted does to the event: nothing, a cancellation, or a note of what holds it back. */
  lemma RefusesExactly(w: World, s: Step)
    requires s.Reserve? && Enabled(w, s) && !MayReserve(w, s)
    ensures Apply(w, s).flights == w.flights
    ensures var before, block := w.events[s.key], Suppression(w.places, w.events, s.key, s.settings, s.now, s.around);
      if before.status != Ready || (CustomerOf(w.places, s.key).Some? && s.settings.mode != Live) then Apply(w, s).events == w.events
      else if CustomerOf(w.places, s.key).None? || !Warranted(w, s.key, s.settings, s.facts, s.now)
      then Apply(w, s).events == w.events[s.key := before.(status := EventStatus.Cancelled, reason := NotEligible)]
      else block.Some? && Apply(w, s).events == w.events[s.key := before.(reason := BlockedBy(block.value))]
  {
    KindExactly(w.rows[s.key.order], s.facts, s.settings, s.now, s.key.kind);
    DecisionExactly(w, s);
    ReserveShape(w, s, DecisionOf(w, s));
  }

  /** The event is new, or neither reserved nor settled. */
  ghost predicate Open(w: World, key: EventKey) {
    key in w.events ==> w.events[key].status in {Previewed, Ready, EventStatus.Cancelled}
  }

  /** A preparation queues the event of the kind that the purchase deserves, with what holds it back, and changes no other event. */
  lemma PreparesExactly(w: World, s: Step, key: EventKey)
    requires s.Prepare? && s.order in w.places && s.order in w.rows && w.places[s.order].customer == s.facts.customer
    requires key.order == s.order && Warranted(w, key, s.settings, s.facts, s.now)
    ensures var after := Apply(w, s).events;
      && after.Keys == w.events.Keys + {key} && (forall k :: k in w.events && k != key ==> after[k] == w.events[k])
      && if !Open(w, key) then after[key] == w.events[key]
         else
           var block := Suppression(w.places, w.events, key, s.settings, s.now, s.around);
           && after[key].status == (if s.settings.mode == Live then Ready else Previewed)
           && after[key].reason == (if block.Some? then BlockedBy(block.value) else NoReason)
           && (key in w.events ==> after[key].claimedAt == w.events[key].claimedAt && after[key].target == w.events[key].target)
  {
    KindExactly(w.rows[s.order], s.facts, s.settings, s.now, key.kind);
    assert Candidate(w, s.order, s.settings, s.facts, s.now) == key;
    CreatedHoldsNothing(w, key, s.settings, s.now, s.around);
  }

  /** A new event is not counted against any limit. */
  lemma CreatedHoldsNothing(w: World, key: EventKey, settings: Settings, now: Instant, around: Surroundings)
    ensures Suppression(w.places, CreatedIfNew(w.events, key), key, settings, now, around) == Suppression(w.places, w.events, key, settings, now, around)
  {
    forall since
      ensures PersonalSince(w.places, CreatedIfNew(w.events, key), key, since) == PersonalSince(w.places, w.events, key, since)
      ensures StoreSince(w.places, CreatedIfNew(w.events, key), key, since) == StoreSince(w.places, w.events, key, since)
    {
    }
  }

  /** All that a check needs to find an event still due: the same as a reservation, with another clock, and the target reserved for. */
  ghost predicate StillPermitted(w: World, s: Step, key: EventKey)
    requires s.Revalidate? && key in w.events
  {
    && s.settings.mode == Live && Warranted(w, key, s.settings, s.facts, s.now)
    && Permitted(w, key, s.settings, s.later, s.around)
    && s.target.Some? && w.events[key].target == s.target
  }

  /** In whatever world, a reserved event is cleared for sending exactly when it is still permitted; otherwise it is let go. */
  lemma ChecksExactly(w: World, s: Step, key: EventKey)
    requires s.Revalidate? && s.worker in w.flights && w.flights[s.worker] == Flight(key, Claimed) && key in w.events && key.order in w.rows
    ensures if StillPermitted(w, s, key) then Apply(w, s).flights == w.flights[s.worker := Flight(key, Checked)] && Apply(w, s).events == w.events
            else Apply(w, s).flights == w.flights - {s.worker}
                 && (w.events[key].status == Sending ==> Apply(w, s).events[key] == w.events[key].(status := EventStatus.Cancelled, reason := NotEligible))
  {
    KindExactly(w.rows[key.order], s.facts, s.settings, s.now, key.kind);
    PermittedExactly(w, key, s.settings, s.later, s.around);
    RevalidateShape(w, s, key, StillDue(w.places, w.events, key, w.rows[key.order], s.settings, s.facts, s.now, s.later, s.around, s.target));
  }

  // ---------- Whole runs ----------

  /** Step n of the run reserves the event, with all that this needs at that moment. */
  ghost predicate ReservedAt(start: World, steps: seq<Step>, n: int, key: EventKey) {
    0 <= n < |steps| && steps[n].Reserve? && steps[n].key == key && MayReserve(Play(start, steps[..n]), steps[n])
  }

  /** Step n of the run is a check by the worker that finds the event still permitted. */
  ghost predicate ClearedAt(start: World, steps: seq<Step>, n: int, worker: nat, key: EventKey) {
    && 0 <= n < |steps| && steps[n].Revalidate? && steps[n].worker == worker
    && key in Play(start, steps[..n]).events && StillPermitted(Play(start, steps[..n]), steps[n], key)
  }

  /** One step holds no event that was not held before, but the one that it reserves. */
  lemma HeldBefore(w: World, s: Step, key: EventKey)
    requires key in Apply(w, s).events && Held(Apply(w, s).events[key].status)
    ensures || (key in w.events && Held(w.events[key].status) && w.events[key].claimedAt == Apply(w, s).events[key].claimedAt)
            || (s.Reserve? && s.key == key && MayReserve(w, s) && Apply(w, s).events[key].claimedAt == Some(s.now))
  {
    if Enabled(w, s) && Reserves(w, s) {
      DecisionExactly(w, s);
      ReserveShape(w, s, Granted);
    } else {
      NonGrantsRelease(w, s);
      assert Holds(Apply(w, s), key);
    }
  }

  /** The event was reserved by step n, and carries its time. */
  ghost predicate ClaimedAt(start: World, steps: seq<Step>, n: int, key: EventKey, at: Option<Instant>) {
    ReservedAt(start, steps, n, key) && at == Some(steps[n].now)
  }

  lemma ClaimStays(start: World, steps: seq<Step>, n: int, key: EventKey, at: Option<Instant>)
    requires steps != [] && ClaimedAt(start, steps[..|steps| - 1], n, key, at)
    ensures ClaimedAt(start, steps, n, key, at)
  {
    assert steps[..|steps| - 1][..n] == steps[..n];
  }

  /** In every run, each event that is sending, sent or uncertain was reserved with all that a reservation needs. */
  lemma {:induction false} HeldWasPermitted(start: World, steps: seq<Step>, key: EventKey)
    requires start.events == map[]
    requires key in Play(start, steps).events && Held(Play(start, steps).events[key].status)
    ensures exists n :: ClaimedAt(start, steps, n, key, Play(start, steps).events[key].claimedAt)
    decreases |steps|
  {
    if steps != [] {
      var init, s := steps[..|steps| - 1], steps[|steps| - 1];
      var before, at := Play(start, init), Play(start, steps).events[key].claimedAt;
      HeldBefore(before, s, key);
      if key in before.events && Held(before.events[key].status) && before.events[key].claimedAt == at {
        HeldWasPermitted(start, init, key);
        var n :| ClaimedAt(start, init, n, key, at);
        ClaimStays(start, steps, n, key, at);
      } else {
        assert ClaimedAt(start, steps, |init|, key, at);
      }
    }
  }

  lemma DueExactly(w: World, s: Step, key: EventKey)
    requires s.Revalidate? && key in w.events && key.order in w.rows
    ensures StillDue(w.places, w.events, key, w.rows[key.order], s.settings, s.facts, s.now, s.later, s.around, s.target) <==> StillPermitted(w, s, key)
  {
    KindExactly(w.rows[key.order], s.facts, s.settings, s.now, key.kind);
    PermittedExactly(w, key, s.settings, s.later, s.around);
  }

  /** In every run, before each attempt the same worker has found the event still permitted. */
  lemma AttemptsArePermitted(start: World, steps: seq<Step>, m: nat, worker: nat, outcome: Outcome)
    requires start.flights == map[] && m < |steps| && steps[m] == Send(worker, outcome) && Enabled(Play(start, steps[..m]), steps[m])
    ensures exists n :: n < m && ClearedAt(start, steps, n, worker, InHand(Play(start, steps[..m]), worker))
  {
    var key := InHand(Play(start, steps[..m]), worker);
    var n := SendsAreChecked(start, steps[..m], worker);
    FoundIsCleared(start, steps, m, n, worker, key);
  }

  lemma FoundIsCleared(start: World, steps: seq<Step>, m: nat, n: nat, worker: nat, key: EventKey)
    requires n < m <= |steps| && FoundDue(start, steps[..m], n, worker, key)
    ensures ClearedAt(start, steps, n, worker, key)
  {
    assert steps[..m][..n] == steps[..n] && steps[..m][n] == steps[n];
    DueExactly(Play(start, steps[..n]), steps[n], key);
  }

  // ---------- Outcomes ----------

  /** What an attempt came to decides what becomes of an event that is still "sending"; any other event stays as it is. */
  lemma OutcomesExactly(w: World, worker: nat, key: EventKey, outcome: Outcome)
    requires worker in w.flights && w.flights[worker] == Flight(key, Attempted(outcome)) && key in w.events
    ensures key in Apply(w, Finish(worker)).events
    ensures var before, after := w.events[key], Apply(w, Finish(worker)).events[key];
      if before.status != Sending then after == before
      else
        && (after.status == Sent <==> outcome == Accepted)
        && (after.status == Failed <==> outcome == TurnedDown)
        && (after.status == Uncertain <==> outcome == Ambiguous)
        && after == before.(status := after.status, reason := after.reason)
        && after.reason == (if outcome == TurnedDown then TelegramRejected else if outcome == Ambiguous then TransportUnknown else NoReason)
  {
  }

  ghost predicate LastRefused(w: World, key: EventKey) {
    Attempts(w, key) != [] && Attempts(w, key)[|Attempts(w, key)| - 1] == TurnedDown
  }

  ghost predicate FailedSafe(w: World) {
    forall key :: key in w.events && w.events[key].status == Failed ==> LastRefused(w, key)
  }

  lemma OnlyRefusalsFail(w: World, s: Step, key: EventKey)
    requires key in Apply(w, s).events && Apply(w, s).events[key].status == Failed
    requires !(key in w.events && w.events[key].status == Failed)
    ensures s.Finish? && s.worker in w.flights && w.flights[s.worker] == Flight(key, Attempted(TurnedDown)) && Apply(w, s).attempts == w.attempts
  {
    if Enabled(w, s) {
      match s
      case Prepare(order, settings, facts, now, around) =>
      case Reserve(_, _, _, _, _, _) =>
      case _ =>
    }
  }

  lemma BecomesFailed(w: World, s: Step, key: EventKey)
    requires DeliverySafe(w) && key in Apply(w, s).events && Apply(w, s).events[key].status == Failed
    requires !(key in w.events && w.events[key].status == Failed)
    ensures LastRefused(Apply(w, s), key)
  {
    OnlyRefusalsFail(w, s, key);
    assert FlightSafe(w, s.worker);
  }

  lemma StaysFailed(w: World, s: Step, key: EventKey)
    requires DeliverySafe(w) && key in w.events && w.events[key].status == Failed && LastRefused(w, key)
    ensures LastRefused(Apply(w, s), key)
  {
    if Enabled(w, s) && s.Send? {
      assert FlightSafe(w, s.worker);
    }
  }

  /** In every run, an event has failed only after the transport refused it, and only such events go back to the queue. */
  lemma {:induction false} FailedWasRefused(places: map<nat, Place>, minimum: int, steps: seq<Step>)
    ensures FailedSafe(Play(Start(places, minimum), steps))
  {
    if steps != [] {
      var init, s := steps[..|steps| - 1], steps[|steps| - 1];
      var before := Play(Start(places, minimum), init);
      FailedWasRefused(places, minimum, init);
      DeliveryAlways(places, minimum, init);
      forall key | key in Apply(before, s).events && Apply(before, s).events[key].status == Failed
        ensures LastRefused(Apply(before, s), key)
      {
        if key in before.events && before.events[key].status == Failed {
          StaysFailed(before, s, key);
        } else {
          BecomesFailed(before, s, key);
        }
      }
    }
  }
}
