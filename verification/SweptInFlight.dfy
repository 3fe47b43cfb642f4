/** A run in which a dispatch returns true for an event that a sweep has made uncertain (customer_activity/outreach.py). */
module SweptInFlight {
  import opened Prelude
  import opened Identities
  import opened Evidence
  import opened Activity
  import opened Candidates
  import opened Outreach
  import opened OutreachAnswers

  const KEY: RowKey := RowKey(1, "", "1", Hash("id"))

  const CUSTOMER: nat := 1
  const ORDER: nat := 1
  const WORKER: nat := 1

  // Two polls half an hour apart of a service that ends within a day, then a preparation and a dispatch that takes too long.
  const PLACES: map<nat, Place> := map[ORDER := Place(Some(CUSTOMER), 1)]
  const START: Instant := 0
  const NEXT: Instant := 30 * MINUTE
  const CLAIM: Instant := 31 * MINUTE
  const SWEEP: Instant := 42 * MINUTE
  const EXPIRY: Instant := 12 * HOUR

  function Rows(at: Instant): map<RowKey, Reading> {
    map[KEY := Reading(Some(0), Some(0), Some(0), at, Some(100), Some(EXPIRY), OtherRemoteStatus, Some(true))]
  }

  function PollAt(at: Instant): Poll {
    Poll(Purchase(false, Completed, true, []), Rows(at), Complete, at)
  }

  function SamplesAt(at: Instant): Samples {
    map[KEY := Sample(0, 0, 0, at, Some(100), Some(EXPIRY))]
  }

  const SETTINGS: Settings := Settings(Live, false, true, 1, 0, 24)
  const FACTS: OrderFacts := OrderFacts(Some(CUSTOMER), true, Completed, true, START, [], [], false)
  const AROUND: Surroundings := Surroundings(12, false, false, false, 0, 0, Some(1))
  const EVENT: EventKey := EventKey(ORDER, 1, Expiry24h)

  // ---------- The row ----------

  lemma PollIsValid(at: Instant)
    requires START <= at <= NEXT
    ensures Readable(Rows(at), at) && Verdict(PollAt(at)) == Judgement(Valid, None, None)
    ensures AllCounted(Rows(at)) && SamplesOf(Rows(at)) == SamplesAt(at) && Fresh(SamplesAt(at), at)
  {
    assert RowState(Rows(at)[KEY], at) == Valid;
    assert States(Rows(at), at) == {Valid};
    assert KEY in Rows(at) && KEY in SamplesAt(at);
  }

  ghost predicate IsBaseline(row: Row) {
    row.observedAt == Some(START) && row.note == Note(false, Baseline) && row.counters == SamplesAt(START) && row.cycle == 1
  }

  /** The service ends within a day, and the evidence is fresh. */
  ghost predicate AboutToEnd(row: Row) {
    row.observedAt == Some(NEXT) && row.state == Valid && row.note == Note(false, Ok) && row.counters == SamplesAt(NEXT) && row.cycle == 1
  }

  lemma FirstPoll()
    ensures Recorded(NEW_ROW, PollAt(START)) && IsBaseline(NextRow(NEW_ROW, PollAt(START), 1))
  {
    PollIsValid(START);
  }

  lemma SecondQuality(row: Row)
    requires IsBaseline(row)
    ensures Compare(row, SamplesAt(NEXT), false, NEXT) == Ok
  {
    assert KEY in SamplesAt(START) && KEY in SamplesAt(NEXT);
    PollIsValid(NEXT);
  }

  lemma SecondPoll(row: Row)
    requires IsBaseline(row)
    ensures AboutToEnd(NextRow(row, PollAt(NEXT), 1))
  {
    PollIsValid(NEXT);
    SecondQuality(row);
  }

  lemma KindOfRow(row: Row)
    requires AboutToEnd(row)
    ensures CandidateKind(row, FACTS, SETTINGS, CLAIM) == Some(Expiry24h)
  {
    assert KEY in row.counters && row.counters[KEY] == SamplesAt(NEXT)[KEY];
    assert AllMeasured(row.counters, CLAIM);
    assert ExpiresWithin(row.counters, CLAIM, DAY);
  }

  // ---------- The run ----------

  const OBSERVE: Step := Observed(ORDER, PollAt(START))
  const OBSERVE_AGAIN: Step := Observed(ORDER, PollAt(NEXT))
  const PREPARE: Step := Prepare(ORDER, SETTINGS, FACTS, CLAIM, AROUND)
  const RESERVE: Step := Step.Reserve(WORKER, EVENT, CLAIM, SETTINGS, FACTS, AROUND)
  const CHECK: Step := Revalidate(WORKER, SETTINGS, FACTS, CLAIM, CLAIM, AROUND, Some(1))

  const QUEUED: map<EventKey, Event> := map[EVENT := Event(Ready, NoReason, None, None)]
  const RESERVED: map<EventKey, Event> := map[EVENT := Event(Sending, NoReason, Some(CLAIM), Some(1))]
  const SWEPT: map<EventKey, Event> := map[EVENT := Event(Uncertain, WorkerInterrupted, Some(CLAIM), Some(1))]

  // The run up to the sweep; the dispatch of the worker ends after it.
  const RUN: seq<Step> := [OBSERVE, OBSERVE_AGAIN, PREPARE, RESERVE, CHECK, Send(WORKER, Accepted), Sweep(SWEEP)]

  ghost predicate HasBeenObserved(w: World) {
    && w.places == PLACES && w.minimum == 1 && w.flights == map[] && w.attempts == map[]
    && ORDER in w.rows && AboutToEnd(w.rows[ORDER])
  }

  /** The first poll is the baseline. */
  ghost predicate HasBaseline(w: World) {
    && w.places == PLACES && w.minimum == 1 && w.flights == map[] && w.attempts == map[] && w.events == map[]
    && ORDER in w.rows && IsBaseline(w.rows[ORDER])
  }

  lemma ThenObserved(w: World, w': World)
    requires w == Start(PLACES, 1) && w' == Apply(w, OBSERVE)
    ensures HasBaseline(w')
  {
    FirstPoll();
  }

  lemma ThenObservedAgain(w: World, w': World)
    requires HasBaseline(w) && w' == Apply(w, OBSERVE_AGAIN)
    ensures HasBeenObserved(w') && w'.events == map[]
  {
    SecondPoll(w.rows[ORDER]);
  }

  lemma ThenPrepared(w: World, w': World)
    requires HasBeenObserved(w) && w.events == map[] && w' == Apply(w, PREPARE)
    ensures HasBeenObserved(w') && w'.events == QUEUED
  {
    KindOfRow(w.rows[ORDER]);
    NoneSince(map[EVENT := NEW_EVENT], CLAIM);
  }

  /** No other event holds this one back. */
  lemma NoneSince(events: map<EventKey, Event>, now: Instant)
    requires events.Keys == {EVENT}
    ensures Suppression(PLACES, events, EVENT, SETTINGS, now, AROUND).None?
  {
    assert PersonalSince(PLACES, events, EVENT, now - DAY) == {};
    assert PersonalSince(PLACES, events, EVENT, now - 7 * DAY) == {};
    assert StoreSince(PLACES, events, EVENT, now - DAY) == {};
  }

  /** The event is in the worker's hands. */
  ghost predicate InHandOf(w: World, phase: Phase) {
    w.events == RESERVED && w.flights == map[WORKER := Flight(EVENT, phase)]
  }

  ghost predicate AboutToBeChecked(w: World) {
    w.places == PLACES && ORDER in w.rows && AboutToEnd(w.rows[ORDER])
  }

  lemma ThenReserved(w: World, w': World)
    requires HasBeenObserved(w) && w.events == QUEUED && w' == Apply(w, RESERVE)
    ensures InHandOf(w', Claimed) && AboutToBeChecked(w')
  {
    KindOfRow(w.rows[ORDER]);
    NoneSince(w.events, CLAIM);
    ReserveShape(w, RESERVE, Granted);
  }

  lemma ThenChecked(w: World, w': World)
    requires AboutToBeChecked(w) && InHandOf(w, Claimed) && w' == Apply(w, CHECK)
    ensures InHandOf(w', Checked)
  {
    KindOfRow(w.rows[ORDER]);
    NoneSince(w.events, CLAIM);
    RevalidateShape(w, CHECK, EVENT, true);
  }

  lemma ThenSent(w: World, w': World)
    requires InHandOf(w, Checked) && w' == Apply(w, Send(WORKER, Accepted))
    ensures InHandOf(w', Attempted(Accepted))
  {
  }

  lemma ThenSwept(w: World, w': World)
    requires InHandOf(w, Attempted(Accepted)) && w' == Apply(w, Sweep(SWEEP))
    ensures w'.events == SWEPT && w'.flights == map[WORKER := Flight(EVENT, Attempted(Accepted))]
  {
  }

  /** What holds after the first n steps of the run. */
  ghost predicate Reached(n: nat, w: World) {
    match n
    case 0 => w == Start(PLACES, 1)
    case 1 => HasBaseline(w)
    case 2 => HasBeenObserved(w) && w.events == map[]
    case 3 => HasBeenObserved(w) && w.events == QUEUED
    case 4 => InHandOf(w, Claimed) && AboutToBeChecked(w)
    case 5 => InHandOf(w, Checked)
    case 6 => InHandOf(w, Attempted(Accepted))
    case _ => w.events == SWEPT && w.flights == map[WORKER := Flight(EVENT, Attempted(Accepted))]
  }

  lemma ThenNext(n: nat, w: World, w': World)
    requires n < |RUN| && Reached(n, w) && w' == Apply(w, RUN[n])
    ensures Reached(n + 1, w')
  {
    match n
    case 0 => ThenObserved(w, w');
    case 1 => ThenObservedAgain(w, w');
    case 2 => ThenPrepared(w, w');
    case 3 => ThenReserved(w, w');
    case 4 => ThenChecked(w, w');
    case 5 => ThenSent(w, w');
    case 6 => ThenSwept(w, w');
  }

  /** What each step carries over to the next place of a run holds at every place. */
  lemma {:induction false} HoldsAlong(start: World, steps: seq<Step>, holds: (nat, World) -> bool, n: nat)
    requires n <= |steps| && holds(0, start)
    requires forall k: nat, w :: k < |steps| && holds(k, w) ==> holds(k + 1, Apply(w, steps[k]))
    ensures holds(n, Play(start, steps[..n]))
  {
    if n > 0 {
      HoldsAlong(start, steps, holds, n - 1);
      assert steps[..n][..n - 1] == steps[..n - 1];
    }
  }

  /** After the run the worker's dispatch returns true, and the event is uncertain. */
  lemma TrueIsAnsweredForUncertain()
    ensures var w := Play(Start(PLACES, 1), RUN);
      && Acknowledges(w, Finish(WORKER), WORKER) && InHand(w, WORKER) == EVENT
      && EVENT in Apply(w, Finish(WORKER)).events && Apply(w, Finish(WORKER)).events[EVENT].status == Uncertain
  {
    var reached := (n: nat, w: World) => Reached(n, w);
    forall k: nat, w: World | k < |RUN| && reached(k, w)
      ensures reached(k + 1, Apply(w, RUN[k]))
    {
      ThenNext(k, w, Apply(w, RUN[k]));
    }
    HoldsAlong(Start(PLACES, 1), RUN, reached, 7);
    assert RUN[..7] == RUN;
    assert reached(7, Play(Start(PLACES, 1), RUN));
  }
}
