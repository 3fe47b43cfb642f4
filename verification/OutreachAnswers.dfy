/** What the answers of the outreach workers, their checks and their sweeps mean, whatever other workers do in between. */
module OutreachAnswers {
  import opened Prelude
  import opened Activity
  import opened Candidates
  import opened Outreach
  import opened OutreachSafety
  import opened OutreachCaps

  // ---------- Answers of dispatch ----------

  /** The end of a dispatch that returns true: the transport had accepted the message, whatever became of the event meanwhile. */
  ghost predicate Acknowledges(w: World, s: Step, worker: nat) {
    s == Finish(worker) && Enabled(w, s) && w.flights[worker].phase.outcome == Accepted
  }

  /** The event that the worker has in hand. */
  ghost function InHand(w: World, worker: nat): EventKey
    requires worker in w.flights
  {
    w.flights[worker].event
  }

  /** The events for which a worker's dispatches return true in a run. */
  ghost function Answered(w: World, steps: seq<Step>, worker: nat): set<EventKey> {
    if steps == [] then {}
    else
      var before, s := Play(w, steps[..|steps| - 1]), steps[|steps| - 1];
      Answered(w, steps[..|steps| - 1], worker) + if Acknowledges(before, s, worker) then {InHand(before, worker)} else {}
  }

  /** How often they return true, which is the count that a run of the outreach reports. */
  ghost function TrueAnswers(w: World, steps: seq<Step>, worker: nat): nat {
    if steps == [] then 0
    else
      var before, s := Play(w, steps[..|steps| - 1]), steps[|steps| - 1];
      TrueAnswers(w, steps[..|steps| - 1], worker) + if Acknowledges(before, s, worker) then 1 else 0
  }

  /** After true is returned the event is sent or uncertain, and it is sent exactly when it was still "sending" at that step. */
  lemma AcknowledgedIsSentExactly(w: World, s: Step, worker: nat)
    requires DeliverySafe(w) && Acknowledges(w, s, worker)
    ensures var key := InHand(w, worker);
      && key in w.events && key in Apply(w, s).events
      && Apply(w, s).events[key].status in {Sent, Uncertain}
      && (Apply(w, s).events[key].status == Sent <==> w.events[key].status == Sending)
  {
    assert FlightSafe(w, worker);
  }

  /** A settled event: sent or uncertain, and in no worker's hands. */
  ghost predicate Closed(w: World, key: EventKey) {
    && key in w.events && w.events[key].status in {Sent, Uncertain}
    && forall x :: x in w.flights ==> w.flights[x].event != key
  }

  lemma ClosedStays(w: World, s: Step, key: EventKey)
    requires Closed(w, key)
    ensures Closed(Apply(w, s), key)
  {
    StepStatuses(w, s, key);
    forall x | x in Apply(w, s).flights
      ensures Apply(w, s).flights[x].event != key
    {
      FlightsOfStep(w, s, x);
    }
  }

  /** A flight was there before, with the same event, or has just reserved a ready one. */
  lemma FlightsOfStep(w: World, s: Step, x: nat)
    requires x in Apply(w, s).flights
    ensures var f := Apply(w, s).flights[x];
      (x in w.flights && w.flights[x].event == f.event) || (f.event in w.events && w.events[f.event].status == Ready && f.phase == Claimed)
  {
    if Enabled(w, s) {
      match s
      case Reserve(_, _, _, _, _, _) =>
      case _ =>
    }
  }

  lemma AcknowledgedIsClosed(w: World, s: Step, worker: nat)
    requires DeliverySafe(w) && Acknowledges(w, s, worker)
    ensures Closed(Apply(w, s), InHand(w, worker))
  {
    AcknowledgedIsSentExactly(w, s, worker);
    assert Apply(w, s).flights == w.flights - {worker};
  }

  lemma {:induction false} DeliveryStays(w: World, steps: seq<Step>)
    requires DeliverySafe(w)
    ensures DeliverySafe(Play(w, steps))
  {
    if steps != [] {
      DeliveryStays(w, steps[..|steps| - 1]);
      DeliveryKept(Play(w, steps[..|steps| - 1]), steps[|steps| - 1]);
    }
  }

  /** True is returned at most once for an event, and every event for which it was is and stays sent or uncertain. */
  lemma {:induction false} AnsweredAreClosed(w: World, steps: seq<Step>, worker: nat)
    requires DeliverySafe(w)
    ensures TrueAnswers(w, steps, worker) == |Answered(w, steps, worker)|
    ensures forall key :: key in Answered(w, steps, worker) ==> Closed(Play(w, steps), key)
  {
    if steps != [] {
      var init, s := steps[..|steps| - 1], steps[|steps| - 1];
      var before := Play(w, init);
      DeliveryStays(w, init);
      AnsweredAreClosed(w, init, worker);
      forall key | key in Answered(w, init, worker)
        ensures Closed(Apply(before, s), key)
      {
        ClosedStays(before, s, key);
      }
      if Acknowledges(before, s, worker) {
        AcknowledgedIsClosed(before, s, worker);
        assert InHand(before, worker) !in Answered(w, init, worker);
      }
    }
  }

  ghost function WithStatus(w: World, keys: set<EventKey>, status: EventStatus): set<EventKey> {
    set key | key in keys && key in w.events && w.events[key].status == status
  }

  /**
   * In every run, from any point on and beside any other workers: the count of a worker's true answers is the number of
   * its events that are sent now plus the number of those that a sweep made uncertain in the meantime.
   */
  lemma TrueAnswersCount(places: map<nat, Place>, minimum: int, earlier: seq<Step>, steps: seq<Step>, worker: nat)
    ensures var w := Play(Start(places, minimum), earlier);
      var answered := Answered(w, steps, worker);
      var w' := Play(w, steps);
      TrueAnswers(w, steps, worker) == |WithStatus(w', answered, Sent)| + |WithStatus(w', answered, Uncertain)|
  {
    var w := Play(Start(places, minimum), earlier);
    DeliveryAlways(places, minimum, earlier);
    AnsweredAreClosed(w, steps, worker);
    var w', answered := Play(w, steps), Answered(w, steps, worker);
    var sent, uncertain := WithStatus(w', answered, Sent), WithStatus(w', answered, Uncertain);
    forall key | key in answered
      ensures key in sent + uncertain
    {
      assert Closed(w', key);
    }
    assert sent !! uncertain && answered == sent + uncertain;
  }

  /** Nothing becomes sent but by a dispatch that returns true. */
  lemma {:induction false} SentIsAnswered(w: World, steps: seq<Step>, key: EventKey) returns (worker: nat)
    requires key in Play(w, steps).events && Play(w, steps).events[key].status == Sent
    ensures (key in w.events && w.events[key].status == Sent) || key in Answered(w, steps, worker)
    decreases |steps|
  {
    worker := 0;
    if steps != [] {
      var init, s := steps[..|steps| - 1], steps[|steps| - 1];
      var before := Play(w, init);
      if key in before.events && before.events[key].status == Sent {
        worker := SentIsAnswered(w, init, key);
      } else {
        BecomesSent(before, s, key);
        worker := s.worker;
      }
    }
  }

  lemma BecomesSent(w: World, s: Step, key: EventKey)
    requires key in Apply(w, s).events && Apply(w, s).events[key].status == Sent
    requires !(key in w.events && w.events[key].status == Sent)
    ensures s.Finish? && Acknowledges(w, s, s.worker) && InHand(w, s.worker) == key
  {
    if Enabled(w, s) {
      match s
      case Prepare(order, settings, facts, now, around) =>
      case Reserve(_, _, _, _, _, _) =>
      case _ =>
    }
  }

  // ---------- Checks before sending ----------

  /** A step of the run in which the worker found the event in its hands still due. */
  ghost predicate FoundDue(start: World, steps: seq<Step>, n: nat, worker: nat, key: EventKey)
    requires n < |steps|
  {
    var before, s := Play(start, steps[..n]), steps[n];
    s.Revalidate? && s.worker == worker && Enabled(before, s) && InHand(before, worker) == key && DueOf(before, s)
  }

  /** In every run, no attempt is made but on an event that the same worker has found due after reserving it. */
  lemma {:induction false} SendsAreChecked(start: World, steps: seq<Step>, worker: nat) returns (n: nat)
    requires start.flights == map[] && worker in Play(start, steps).flights && Play(start, steps).flights[worker].phase != Claimed
    ensures n < |steps| && FoundDue(start, steps, n, worker, InHand(Play(start, steps), worker))
    decreases |steps|
  {
    n := 0;
    if steps != [] {
      var init, s := steps[..|steps| - 1], steps[|steps| - 1];
      var before := Play(start, init);
      if worker in before.flights && before.flights[worker].phase != Claimed {
        n := SendsAreChecked(start, init, worker);
        FlightsOfStep(before, s, worker);
        assert steps[..n] == init[..n] && steps[n] == init[n];
      } else {
        n := |init|;
        assert steps[..n] == init;
      }
    }
  }

  /** The evidence behind an inactivity message held once more when it was checked, just before it was sent. */
  lemma TransmittedMessageIsHonest(places: map<nat, Place>, minimum: int, steps: seq<Step>, worker: nat) returns (n: nat, b: int)
    requires var w := Play(Start(places, minimum), steps);
      worker in w.flights && w.flights[worker].phase != Claimed && InHand(w, worker).kind == Inactive48h
    ensures n < |steps| && steps[n].Revalidate? && steps[n].worker == worker
    ensures var key := InHand(Play(Start(places, minimum), steps), worker);
      var h := History(PollsOf(Play(Start(places, minimum), steps[..n]), key.order), minimum);
      h.row.cycle == key.cycle && Honest(h.row, h.log, b, steps[n].now, minimum) && b + 62 < |h.log|
  {
    var start := Start(places, minimum);
    n := SendsAreChecked(start, steps, worker);
    var before, key := Play(start, steps[..n]), InHand(Play(start, steps), worker);
    BackedAlways(places, minimum, steps[..n]);
    assert before.rows[key.order] == History(PollsOf(before, key.order), minimum).row;
    b := MessageIsHonest(PollsOf(before, key.order), minimum, steps[n].facts, steps[n].settings, steps[n].now);
  }

  // ---------- Sweeps ----------

  /** A sweep leaves no event "sending" on a claim older than ten minutes by its clock. */
  lemma SweepLeavesNoneBehind(w: World, now: Instant, key: EventKey)
    requires key in Apply(w, Sweep(now)).events && Apply(w, Sweep(now)).events[key].status == Sending
    ensures w.events[key].claimedAt.Some? ==> now - 10 * MINUTE <= w.events[key].claimedAt.value
  {
  }

  /** What a sweep has made uncertain stays so: neither its worker's result nor a retry nor another reservation changes it. */
  lemma SweptStaysUncertain(w: World, now: Instant, steps: seq<Step>, key: EventKey)
    requires key in w.events && w.events[key].status == Sending
    requires w.events[key].claimedAt.Some? && w.events[key].claimedAt.value < now - 10 * MINUTE
    ensures var w' := Play(Apply(w, Sweep(now)), steps);
      key in w'.events && w'.events[key].status == Uncertain
  {
    FinalStatuses(Apply(w, Sweep(now)), steps, key);
  }
}
