/** Rate limits and evidence behind the messages, for every interleaving and any clocks. */
module OutreachCaps {
  import opened Prelude
  import opened Activity
  import opened Candidates
  import opened SlidingWindow
  import opened Outreach

  ghost predicate Holds(w: World, key: EventKey) {
    key in w.events && Reserved(w.events[key].status)
  }

  /** Every reserved event carries the time of its ticket and belongs to a customer. */
  ghost predicate Ticketed(w: World) {
    forall k :: Holds(w, k) ==> k in w.tickets && w.events[k].claimedAt == Some(w.tickets[k].at) && CustomerOf(w.places, k).Some?
  }

  ghost predicate Issued(w: World) {
    && (forall k :: k in w.tickets ==> w.tickets[k].number < w.issued)
    && (forall j, k :: j in w.tickets && k in w.tickets && j != k ==> w.tickets[j].number != w.tickets[k].number)
  }

  ghost function PersonalClaims(w: World, customer: nat): map<EventKey, Claim> {
    map k | k in w.events && Reserved(w.events[k].status) && k in w.tickets && CustomerOf(w.places, k) == Some(customer) ::
      Claim(w.tickets[k].number, w.tickets[k].at, 3)
  }

  ghost function StoreClaims(w: World, store: nat): map<EventKey, Claim> {
    map k | k in w.events && Reserved(w.events[k].status) && k in w.tickets && StoreOf(w.places, k) == Some(store) ::
      Claim(w.tickets[k].number, w.tickets[k].at, w.tickets[k].settings.dailyLimit)
  }

  /** Of two reserved events of a customer, the one reserved later was claimed more than a day later. */
  ghost predicate DaysApart(w: World) {
    forall j, k ::
      Holds(w, j) && Holds(w, k) && j in w.tickets && k in w.tickets && CustomerOf(w.places, j) == CustomerOf(w.places, k)
      ==> (w.tickets[j].number < w.tickets[k].number ==> w.tickets[j].at + DAY < w.tickets[k].at)
  }

  ghost predicate CapsSafe(w: World) {
    && Ticketed(w) && Issued(w) && DaysApart(w)
    && (forall c: nat :: Capped(PersonalClaims(w, c), 7 * DAY))
    && (forall s: nat :: Capped(StoreClaims(w, s), DAY))
  }

  /** No step but a granted reservation adds to the reserved events or touches the tickets. */
  ghost predicate OnlyReleases(w: World, w': World) {
    && w'.tickets == w.tickets && w'.issued == w.issued && w'.places == w.places
    && forall k :: Holds(w', k) ==> Holds(w, k) && w'.events[k].claimedAt == w.events[k].claimedAt
  }

  lemma ReleasesKeepCaps(w: World, w': World)
    requires CapsSafe(w) && OnlyReleases(w, w')
    ensures CapsSafe(w')
  {
    forall c
      ensures Capped(PersonalClaims(w', c), 7 * DAY)
    {
      forall k | k in PersonalClaims(w', c)
        ensures k in PersonalClaims(w, c) && PersonalClaims(w', c)[k] == PersonalClaims(w, c)[k]
      {
        assert Holds(w', k);
      }
      CappedShrinks(PersonalClaims(w, c), PersonalClaims(w', c), 7 * DAY);
    }
    forall s
      ensures Capped(StoreClaims(w', s), DAY)
    {
      forall k | k in StoreClaims(w', s)
        ensures k in StoreClaims(w, s) && StoreClaims(w', s)[k] == StoreClaims(w, s)[k]
      {
        assert Holds(w', k);
      }
      CappedShrinks(StoreClaims(w, s), StoreClaims(w', s), DAY);
    }
  }

  /** Every reserved event was reserved before, with the same claim. */
  ghost predicate Releases(before: map<EventKey, Event>, after: map<EventKey, Event>) {
    forall k :: k in after && Reserved(after[k].status) ==>
      k in before && Reserved(before[k].status) && after[k].claimedAt == before[k].claimedAt
  }

  lemma PreparedReleases(places: map<nat, Place>, events: map<EventKey, Event>, key: EventKey, settings: Settings, now: Instant, around: Surroundings)
    ensures Releases(events, Prepared(places, events, key, settings, now, around))
  {
  }

  lemma DecidedReleases(events: map<EventKey, Event>, key: EventKey, decision: Decision, now: Instant, target: Option<nat>)
    requires key in events && decision != Granted
    ensures Releases(events, Decided(events, key, decision, now, target))
  {
  }

  lemma OthersCancelledReleases(places: map<nat, Place>, events: map<EventKey, Event>, store: nat, active: set<EventKey>)
    ensures Releases(events, OthersCancelled(places, events, store, active))
  {
  }

  lemma SettledReleases(events: map<EventKey, Event>, key: EventKey, status: EventStatus, reason: Reason)
    ensures Releases(events, Settled(events, key, status, reason))
  {
  }

  lemma EventsRelease(w: World, s: Step)
    requires Enabled(w, s) && !Reserves(w, s)
    ensures Releases(w.events, EventsAfter(w, s))
  {
    match s
    case Prepare(order, settings, facts, now, around) =>
      PreparedReleases(w.places, w.events, Candidate(w, order, settings, facts, now), settings, now, around);
    case CancelOthers(store, active) => OthersCancelledReleases(w.places, w.events, store, active);
    case Reserve(_, key, now, _, _, around) => DecidedReleases(w.events, key, DecisionOf(w, s), now, around.target);
    case Revalidate(worker, _, _, _, _, _, _) => SettledReleases(w.events, w.flights[worker].event, EventStatus.Cancelled, NotEligible);
    case Finish(worker) =>
      var outcome := w.flights[worker].phase.outcome;
      SettledReleases(w.events, w.flights[worker].event, OutcomeStatus(outcome), OutcomeReason(outcome));
    case _ =>
  }

  lemma NonGrantsRelease(w: World, s: Step)
    requires Enabled(w, s) ==> !Reserves(w, s)
    ensures OnlyReleases(w, Apply(w, s))
  {
    if Enabled(w, s) {
      EventsRelease(w, s);
    }
  }

  /** A reservation granted at clock reading now, after suppression passed. */
  ghost predicate GrantsAt(w: World, w': World, key: EventKey, now: Instant, settings: Settings, around: Surroundings) {
    && key in w.events && !Reserved(w.events[key].status)
    && key in w'.events && Reserved(w'.events[key].status) && w'.events[key].claimedAt == Some(now)
    && CustomerOf(w.places, key).Some? && w'.places == w.places
    && w'.events.Keys == w.events.Keys && (forall k :: k in w.events && k != key ==> w'.events[k] == w.events[k])
    && key in w'.tickets && w'.tickets[key].number == w.issued && w'.tickets[key].at == now && w'.tickets[key].settings == settings
    && w'.tickets.Keys == w.tickets.Keys + {key} && (forall k :: k in w.tickets && k != key ==> w'.tickets[k] == w.tickets[k])
    && w'.issued == w.issued + 1
    && Suppression(w.places, w.events, key, settings, now, around).None?
  }

  lemma SuppressionPassed(places: map<nat, Place>, events: map<EventKey, Event>, key: EventKey, settings: Settings, now: Instant, around: Surroundings)
    requires Suppression(places, events, key, settings, now, around).None?
    ensures PersonalSince(places, events, key, now - DAY) == {}
    ensures |PersonalSince(places, events, key, now - 7 * DAY)| < 3
    ensures |StoreSince(places, events, key, now - DAY)| < settings.dailyLimit
  {
  }

  lemma PersonalClaimsGrow(w: World, w': World, key: EventKey, now: Instant, settings: Settings, around: Surroundings, c: nat)
    requires GrantsAt(w, w', key, now, settings, around)
    ensures PersonalClaims(w', c) ==
            if CustomerOf(w.places, key) == Some(c) then PersonalClaims(w, c)[key := Claim(w.issued, now, 3)] else PersonalClaims(w, c)
  {
  }

  lemma StoreClaimsGrow(w: World, w': World, key: EventKey, now: Instant, settings: Settings, around: Surroundings, s: nat)
    requires GrantsAt(w, w', key, now, settings, around)
    ensures StoreClaims(w', s) ==
            if StoreOf(w.places, key) == Some(s) then StoreClaims(w, s)[key := Claim(w.issued, now, settings.dailyLimit)] else StoreClaims(w, s)
  {
  }

  /** The queries of suppression count exactly the recent claims. */
  lemma PersonalQuery(w: World, key: EventKey, c: nat, since: Instant)
    requires Ticketed(w) && CustomerOf(w.places, key) == Some(c) && !Holds(w, key)
    ensures Recent(PersonalClaims(w, c), since) == PersonalSince(w.places, w.events, key, since)
  {
    assert forall k :: k in PersonalSince(w.places, w.events, key, since) ==> Holds(w, k);
    assert forall k :: k in PersonalClaims(w, c) ==> Holds(w, k);
  }

  lemma StoreQuery(w: World, key: EventKey, s: nat, since: Instant)
    requires Ticketed(w) && StoreOf(w.places, key) == Some(s) && !Holds(w, key)
    ensures Recent(StoreClaims(w, s), since) == StoreSince(w.places, w.events, key, since)
  {
    assert forall k :: k in StoreSince(w.places, w.events, key, since) ==> Holds(w, k);
    assert forall k :: k in StoreClaims(w, s) ==> Holds(w, k);
  }

  lemma NumbersBelow(w: World, claims: map<EventKey, Claim>)
    requires Issued(w) && forall k :: k in claims ==> k in w.tickets && claims[k].number == w.tickets[k].number
    ensures forall k :: k in claims ==> claims[k].number < w.issued
  {
  }

  lemma PersonalCapGrows(w: World, key: EventKey, now: Instant, c: nat)
    requires Ticketed(w) && Issued(w) && Capped(PersonalClaims(w, c), 7 * DAY)
    requires CustomerOf(w.places, key) == Some(c) && !Holds(w, key)
    requires |PersonalSince(w.places, w.events, key, now - 7 * DAY)| < 3
    ensures Capped(PersonalClaims(w, c)[key := Claim(w.issued, now, 3)], 7 * DAY)
  {
    PersonalQuery(w, key, c, now - 7 * DAY);
    NumbersBelow(w, PersonalClaims(w, c));
    CappedGrows(PersonalClaims(w, c), key, Claim(w.issued, now, 3), 7 * DAY);
  }

  lemma StoreCapGrows(w: World, key: EventKey, now: Instant, s: nat, limit: nat)
    requires Ticketed(w) && Issued(w) && Capped(StoreClaims(w, s), DAY)
    requires StoreOf(w.places, key) == Some(s) && !Holds(w, key)
    requires |StoreSince(w.places, w.events, key, now - DAY)| < limit
    ensures Capped(StoreClaims(w, s)[key := Claim(w.issued, now, limit)], DAY)
  {
    StoreQuery(w, key, s, now - DAY);
    NumbersBelow(w, StoreClaims(w, s));
    CappedGrows(StoreClaims(w, s), key, Claim(w.issued, now, limit), DAY);
  }

  lemma GrantIsDayLater(w: World, w': World, key: EventKey, now: Instant, settings: Settings, around: Surroundings, k: EventKey)
    requires CapsSafe(w) && GrantsAt(w, w', key, now, settings, around)
    requires Holds(w, k) && CustomerOf(w.places, k) == CustomerOf(w.places, key)
    ensures k != key && k in w.tickets && w.tickets[k].at + DAY < now && w.tickets[k].number < w.issued
  {
    SuppressionPassed(w.places, w.events, key, settings, now, around);
    assert k !in PersonalSince(w.places, w.events, key, now - DAY);
  }

  lemma GrantKeepsTickets(w: World, w': World, key: EventKey, now: Instant, settings: Settings, around: Surroundings)
    requires Ticketed(w) && Issued(w) && GrantsAt(w, w', key, now, settings, around)
    ensures Ticketed(w') && Issued(w')
  {
    forall k | Holds(w', k)
      ensures k == key || Holds(w, k)
    {
    }
  }

  lemma GrantKeepsDaysApart(w: World, w': World, key: EventKey, now: Instant, settings: Settings, around: Surroundings)
    requires CapsSafe(w) && GrantsAt(w, w', key, now, settings, around)
    ensures DaysApart(w')
  {
    forall j, k | Holds(w', j) && Holds(w', k) && j in w'.tickets && k in w'.tickets && CustomerOf(w'.places, j) == CustomerOf(w'.places, k)
      ensures w'.tickets[j].number < w'.tickets[k].number ==> w'.tickets[j].at + DAY < w'.tickets[k].at
    {
      assert j == key || Holds(w, j);
      assert k == key || Holds(w, k);
      if j != key && k == key {
        GrantIsDayLater(w, w', key, now, settings, around, j);
      } else if j == key && k != key {
        GrantIsDayLater(w, w', key, now, settings, around, k);
      }
    }
  }

  lemma GrantKeepsPersonalCap(w: World, w': World, key: EventKey, now: Instant, settings: Settings, around: Surroundings, c: nat)
    requires CapsSafe(w) && GrantsAt(w, w', key, now, settings, around)
    ensures Capped(PersonalClaims(w', c), 7 * DAY)
  {
    PersonalClaimsGrow(w, w', key, now, settings, around, c);
    if CustomerOf(w.places, key) == Some(c) {
      SuppressionPassed(w.places, w.events, key, settings, now, around);
      PersonalCapGrows(w, key, now, c);
    }
  }

  lemma GrantKeepsStoreCap(w: World, w': World, key: EventKey, now: Instant, settings: Settings, around: Surroundings, s: nat)
    requires CapsSafe(w) && GrantsAt(w, w', key, now, settings, around)
    ensures Capped(StoreClaims(w', s), DAY)
  {
    StoreClaimsGrow(w, w', key, now, settings, around, s);
    if StoreOf(w.places, key) == Some(s) {
      SuppressionPassed(w.places, w.events, key, settings, now, around);
      StoreCapGrows(w, key, now, s, settings.dailyLimit);
    }
  }

  lemma GrantKeepsCaps(w: World, w': World, key: EventKey, now: Instant, settings: Settings, around: Surroundings)
    requires CapsSafe(w) && GrantsAt(w, w', key, now, settings, around)
    ensures CapsSafe(w')
  {
    GrantKeepsTickets(w, w', key, now, settings, around);
    GrantKeepsDaysApart(w, w', key, now, settings, around);
    forall c: nat
      ensures Capped(PersonalClaims(w', c), 7 * DAY)
    {
      GrantKeepsPersonalCap(w, w', key, now, settings, around, c);
    }
    forall s: nat
      ensures Capped(StoreClaims(w', s), DAY)
    {
      GrantKeepsStoreCap(w, w', key, now, settings, around, s);
    }
  }

  lemma GrantShape(w: World, s: Step)
    requires Enabled(w, s) && Reserves(w, s)
    ensures GrantsAt(w, Apply(w, s), s.key, s.now, s.settings, s.around)
  {
  }

  lemma CapsKept(w: World, s: Step)
    requires CapsSafe(w)
    ensures CapsSafe(Apply(w, s))
  {
    if Enabled(w, s) && Reserves(w, s) {
      GrantShape(w, s);
      GrantKeepsCaps(w, Apply(w, s), s.key, s.now, s.settings, s.around);
    } else {
      NonGrantsRelease(w, s);
      ReleasesKeepCaps(w, Apply(w, s));
    }
  }

  lemma {:induction false} CapsAlways(places: map<nat, Place>, minimum: int, steps: seq<Step>)
    ensures CapsSafe(Play(Start(places, minimum), steps))
  {
    if steps == [] {
      forall c
        ensures Capped(PersonalClaims(Start(places, minimum), c), 7 * DAY)
      {
        assert PersonalClaims(Start(places, minimum), c) == map[];
      }
    } else {
      CapsAlways(places, minimum, steps[..|steps| - 1]);
      CapsKept(Play(Start(places, minimum), steps[..|steps| - 1]), steps[|steps| - 1]);
    }
  }

  // ---------- The limits ----------

  /** The reserved events of a customer claimed within a window, by the times stored in the events. */
  ghost function CustomerWindow(w: World, customer: nat, start: Instant, width: int): set<EventKey> {
    set k | k in w.events && Reserved(w.events[k].status) && CustomerOf(w.places, k) == Some(customer)
            && w.events[k].claimedAt.Some? && start <= w.events[k].claimedAt.value <= start + width
  }

  ghost function StoreWindow(w: World, store: nat, start: Instant, width: int): set<EventKey> {
    set k | k in w.events && Reserved(w.events[k].status) && StoreOf(w.places, k) == Some(store)
            && w.events[k].claimedAt.Some? && start <= w.events[k].claimedAt.value <= start + width
  }

  /** A customer is never reserved twice within a day, nor more than three times within seven days, across all stores. */
  lemma CustomerCapHolds(places: map<nat, Place>, minimum: int, steps: seq<Step>, customer: nat, start: Instant)
    ensures
      var w := Play(Start(places, minimum), steps);
      && |CustomerWindow(w, customer, start, DAY)| <= 1
      && |CustomerWindow(w, customer, start, 7 * DAY)| <= 3
  {
    CapsAlways(places, minimum, steps);
    CustomerWindows(Play(Start(places, minimum), steps), customer, start);
  }

  lemma CustomerWindows(w: World, customer: nat, start: Instant)
    requires CapsSafe(w)
    ensures |CustomerWindow(w, customer, start, DAY)| <= 1
    ensures |CustomerWindow(w, customer, start, 7 * DAY)| <= 3
  {
    CustomerDay(w, customer, start);
    CustomerWeek(w, customer, start);
  }

  lemma CustomerDay(w: World, customer: nat, start: Instant)
    requires Ticketed(w) && Issued(w) && DaysApart(w)
    ensures |CustomerWindow(w, customer, start, DAY)| <= 1
  {
    var day := CustomerWindow(w, customer, start, DAY);
    if day != {} {
      var j := Pick(day);
      forall k | k in day
        ensures k == j
      {
        assert Holds(w, j) && Holds(w, k);
      }
      assert day == {j};
    }
  }

  lemma CustomerWeek(w: World, customer: nat, start: Instant)
    requires Ticketed(w) && Issued(w) && Capped(PersonalClaims(w, customer), 7 * DAY)
    ensures |CustomerWindow(w, customer, start, 7 * DAY)| <= 3
  {
    var claims, week := PersonalClaims(w, customer), CustomerWindow(w, customer, start, 7 * DAY);
    assert forall k :: k in week ==> Holds(w, k);
    assert forall k :: k in claims ==> Holds(w, k);
    assert week == Window(claims, start, 7 * DAY);
    if week != {} {
      var last := WindowBound(claims, start, 7 * DAY);
    }
  }

  /** Any day's reservations of a store number at most the limit in force at the last of them to be made. */
  lemma StoreCapHolds(places: map<nat, Place>, minimum: int, steps: seq<Step>, store: nat, start: Instant) returns (last: EventKey)
    requires StoreWindow(Play(Start(places, minimum), steps), store, start, DAY) != {}
    ensures
      var w := Play(Start(places, minimum), steps);
      var window := StoreWindow(w, store, start, DAY);
      && last in window && (forall k :: k in window ==> k in w.tickets && last in w.tickets && w.tickets[k].number <= w.tickets[last].number)
      && |window| <= w.tickets[last].settings.dailyLimit
  {
    CapsAlways(places, minimum, steps);
    last := StoreWindowBound(Play(Start(places, minimum), steps), store, start);
  }

  lemma StoreWindowBound(w: World, store: nat, start: Instant) returns (last: EventKey)
    requires CapsSafe(w) && StoreWindow(w, store, start, DAY) != {}
    ensures
      var window := StoreWindow(w, store, start, DAY);
      && last in window && (forall k :: k in window ==> k in w.tickets && last in w.tickets && w.tickets[k].number <= w.tickets[last].number)
      && |window| <= w.tickets[last].settings.dailyLimit
  {
    var claims, window := StoreClaims(w, store), StoreWindow(w, store, start, DAY);
    assert forall k :: k in window ==> Holds(w, k);
    assert forall k :: k in claims ==> Holds(w, k);
    assert window == Window(claims, start, DAY);
    last := WindowBound(claims, start, DAY);
  }

  // ---------- The evidence ----------

  ghost predicate RowsMatch(w: World) {
    forall order :: order in w.rows ==> w.rows[order] == History(PollsOf(w, order), w.minimum).row
  }

  /** The ticket of an event was issued on the history of its order, whose row then made it a candidate of its kind. */
  ghost predicate Backed(w: World, key: EventKey)
    requires key in w.tickets
  {
    var t := w.tickets[key];
    var row := History(t.polls, w.minimum).row;
    && t.polls <= PollsOf(w, key.order)
    && row.cycle == key.cycle && CandidateKind(row, t.facts, t.settings, t.at) == Some(key.kind)
  }

  ghost predicate AllBacked(w: World) {
    forall k :: k in w.tickets ==> Backed(w, k)
  }

  lemma HistoryGrows(polls: seq<Poll>, poll: Poll, minimum: int)
    ensures History(polls + [poll], minimum).row == NextRow(History(polls, minimum).row, poll, minimum)
  {
    assert (polls + [poll])[..|polls|] == polls;
  }

  lemma RowsKept(w: World, s: Step)
    requires RowsMatch(w) && (forall order :: order in w.histories ==> order in w.rows)
    ensures RowsMatch(Apply(w, s)) && Apply(w, s).minimum == w.minimum
    ensures forall order :: order in Apply(w, s).histories ==> order in Apply(w, s).rows
  {
    RecordsStep(w, s);
    if s.Observed? && Enabled(w, s) {
      ObservationKeepsRows(w, s.order, s.poll, Apply(w, s));
    }
  }

  lemma ObservationKeepsRows(w: World, order: nat, poll: Poll, w': World)
    requires RowsMatch(w) && (order in w.histories ==> order in w.rows)
    requires w'.minimum == w.minimum && w'.histories == w.histories[order := PollsOf(w, order) + [poll]]
    requires w'.rows == w.rows[order := NextRow(if order in w.rows then w.rows[order] else NEW_ROW, poll, w.minimum)]
    ensures RowsMatch(w')
  {
    var polls := PollsOf(w, order);
    HistoryGrows(polls, poll, w.minimum);
    forall o | o in w'.rows
      ensures w'.rows[o] == History(PollsOf(w', o), w'.minimum).row
    {
      if o != order {
        assert PollsOf(w', o) == PollsOf(w, o);
      } else if order !in w.rows {
        assert polls == [] && History(polls, w.minimum).row == NEW_ROW;
      }
    }
  }

  lemma PollsGrow(w: World, s: Step, order: nat)
    ensures PollsOf(w, order) <= PollsOf(Apply(w, s), order)
  {
    RecordsStep(w, s);
  }

  lemma NewTicket(w: World, s: Step)
    requires s.Reserve?
    ensures
      var w' := Apply(w, s);
      w'.tickets == w.tickets
      || (&& Enabled(w, s) && w'.tickets == w.tickets[s.key := Ticket(w.issued, s.now, s.settings, s.facts, PollsOf(w, s.key.order))]
          && w.rows[s.key.order].cycle == s.key.cycle
          && CandidateKind(w.rows[s.key.order], s.facts, s.settings, s.now) == Some(s.key.kind))
  {
  }

  lemma BackedKept(w: World, s: Step)
    requires AllBacked(w) && RowsMatch(w)
    ensures AllBacked(Apply(w, s))
  {
    var w' := Apply(w, s);
    RecordsStep(w, s);
    if s.Reserve? {
      NewTicket(w, s);
    }
    forall k | k in w'.tickets
      ensures Backed(w', k)
    {
      PollsGrow(w, s, k.order);
      if k in w.tickets && w'.tickets[k] == w.tickets[k] {
        assert Backed(w, k);
      } else {
        assert k == s.key;
      }
    }
  }

  lemma {:induction false} BackedAlways(places: map<nat, Place>, minimum: int, steps: seq<Step>)
    ensures
      var w := Play(Start(places, minimum), steps);
      AllBacked(w) && RowsMatch(w) && w.minimum == minimum && forall order :: order in w.histories ==> order in w.rows
  {
    if steps != [] {
      var before := Play(Start(places, minimum), steps[..|steps| - 1]);
      BackedAlways(places, minimum, steps[..|steps| - 1]);
      BackedKept(before, steps[|steps| - 1]);
      RowsKept(before, steps[|steps| - 1]);
      assert Play(Start(places, minimum), steps) == Apply(before, steps[|steps| - 1]);
    }
  }

  /** An inactivity message reserved in any run rests on at least 62 complete observations and states honest days. */
  lemma InactivityMessageIsBacked(places: map<nat, Place>, minimum: int, steps: seq<Step>, key: EventKey) returns (b: int)
    requires
      var w := Play(Start(places, minimum), steps);
      key in w.events && Reserved(w.events[key].status) && key.kind == Inactive48h
    ensures
      var w := Play(Start(places, minimum), steps);
      && key in w.tickets && w.tickets[key].polls <= PollsOf(w, key.order)
      && w.events[key].claimedAt == Some(w.tickets[key].at)
      && var h := History(w.tickets[key].polls, minimum);
         Honest(h.row, h.log, b, w.tickets[key].at, minimum) && b + 62 < |h.log|
  {
    var w := Play(Start(places, minimum), steps);
    CapsAlways(places, minimum, steps);
    BackedAlways(places, minimum, steps);
    assert Holds(w, key);
    assert Backed(w, key);
    var t := w.tickets[key];
    b := MessageIsHonest(t.polls, minimum, t.facts, t.settings, t.at);
  }
}
