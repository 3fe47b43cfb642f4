/** What each quality, state and answer says about the samples and the polls behind it (customer_activity/services.py). */
module Qualities {
  import opened Prelude
  import opened Identities
  import opened Evidence
  import opened Activity
  import opened ActivityHistory
  import Entitlements

  // ---------- An entry and the one before it ----------

  /** There is nothing to compare with: no counters before, or full coverage after a part of it. */
  ghost predicate Restarts(a: Entry, e: Entry) {
    a.counters == map[] || (a.note.partial && !e.note.partial)
  }

  ghost predicate KeysDiffer(a: Entry, e: Entry) {
    exists key :: (key in a.counters) != (key in e.counters)
  }

  /** More than 45 minutes between the polls, or between two samples of a key, or a sample that is not newer. */
  ghost predicate Interrupted(a: Entry, e: Entry) {
    || e.at > a.at + 45 * MINUTE
    || exists key :: key in a.counters && key in e.counters
         && (e.counters[key].at <= a.counters[key].at || e.counters[key].at > a.counters[key].at + 45 * MINUTE)
  }

  ghost predicate TermsDiffer(a: Entry, e: Entry) {
    exists key :: key in a.counters && key in e.counters
      && (e.counters[key].quota != a.counters[key].quota || e.counters[key].expiry != a.counters[key].expiry)
  }

  ghost predicate SomeLower(a: Entry, e: Entry) {
    exists key :: key in a.counters && key in e.counters
      && (e.counters[key].used < a.counters[key].used || e.counters[key].up < a.counters[key].up || e.counters[key].down < a.counters[key].down)
  }

  /** The six qualities of an entry with counters, each by what the counters say. */
  ghost predicate QualitySays(a: Entry, e: Entry) {
    var quality := e.note.quality;
    && (quality == Baseline <==> Restarts(a, e))
    && (quality == MappingChanged <==> !Restarts(a, e) && KeysDiffer(a, e))
    && (quality == Gap <==> !Restarts(a, e) && !KeysDiffer(a, e) && Interrupted(a, e))
    && (quality == CycleChanged <==> !Restarts(a, e) && !KeysDiffer(a, e) && !Interrupted(a, e) && TermsDiffer(a, e))
    && (quality == CounterReset <==> !Restarts(a, e) && !KeysDiffer(a, e) && !Interrupted(a, e) && !TermsDiffer(a, e) && SomeLower(a, e))
    && (quality == Ok <==> !Restarts(a, e) && !KeysDiffer(a, e) && !Interrupted(a, e) && !TermsDiffer(a, e) && !SomeLower(a, e))
  }

  /** A different service: other keys, or, without an interruption, other terms or a lower counter. */
  ghost predicate NewService(a: Entry, e: Entry) {
    e.counters != map[] && !Restarts(a, e) && (KeysDiffer(a, e) || (!Interrupted(a, e) && (TermsDiffer(a, e) || SomeLower(a, e))))
  }

  /** Every entry says by its quality how it continues the one before it; the first one with counters is a baseline. */
  ghost predicate Judged(log: seq<Entry>, i: nat)
    requires i < |log|
  {
    log[i].counters != map[] ==> if i > 0 then QualitySays(log[i - 1], log[i]) else log[i].note.quality == Baseline
  }

  lemma ComparedByKeys(row: Row, a: Entry, e: Entry, partial: bool)
    requires row.note == a.note && row.counters == a.counters && row.observedAt == Some(a.at)
    requires Fresh(e.counters, e.at) && e.note.partial == partial
    ensures Compare(row, e.counters, partial, e.at) == Baseline <==> Restarts(a, e)
    ensures Compare(row, e.counters, partial, e.at) == MappingChanged <==> !Restarts(a, e) && KeysDiffer(a, e)
  {
    if row.counters.Keys != e.counters.Keys {
      assert exists key :: (key in a.counters) != (key in e.counters);
    }
  }

  lemma ComparedByTimes(row: Row, a: Entry, e: Entry)
    requires row.counters == a.counters && row.observedAt == Some(a.at) && a.counters.Keys == e.counters.Keys
    ensures Continues(row, e.counters, e.at) <==> !Interrupted(a, e)
  {
  }

  lemma ComparedByValues(a: Entry, e: Entry)
    requires a.counters.Keys == e.counters.Keys
    ensures SameTerms(a.counters, e.counters) <==> !TermsDiffer(a, e)
    ensures NonDecreasing(a.counters, e.counters) <==> !SomeLower(a, e)
  {
  }

  lemma ComparedSays(row: Row, a: Entry, e: Entry)
    requires row.note == a.note && row.counters == a.counters && row.observedAt == Some(a.at)
    requires Fresh(e.counters, e.at) && e.note.quality == Compare(row, e.counters, e.note.partial, e.at)
    ensures QualitySays(a, e)
  {
    ComparedByKeys(row, a, e, e.note.partial);
    if !KeysDiffer(a, e) {
      assert a.counters.Keys == e.counters.Keys;
      ComparedByTimes(row, a, e);
      ComparedByValues(a, e);
    }
  }

  lemma CountersAreCompared(row: Row, poll: Poll)
    requires (poll.purchase.superseded || Readable(poll.rows, poll.now)) && Observe(row, poll).counters != map[]
    ensures var e := Observe(row, poll);
      e.note.quality == Compare(row, e.counters, e.note.partial, e.at) && Fresh(e.counters, e.at)
  {
  }

  lemma JudgedStep(row: Row, log: seq<Entry>, poll: Poll, minimum: int)
    requires Summarises(row, log, minimum) && Recorded(row, poll)
    requires forall i: nat :: i < |log| ==> Judged(log, i)
    ensures forall i: nat :: i < |log| + 1 ==> Judged(log + [Observe(row, poll)], i)
  {
    var e := Observe(row, poll);
    var next := log + [e];
    if e.counters != map[] {
      CountersAreCompared(row, poll);
      if log != [] {
        ComparedSays(row, log[|log| - 1], e);
      }
    }
    assert next[|log|] == e && Judged(next, |log|);
    forall i: nat | i < |log|
      ensures Judged(next, i)
    {
      assert Judged(log, i);
    }
  }

  /** For every history, each quality says exactly how the samples of its entry continue those of the entry before. */
  lemma {:induction false} QualitiesExactly(polls: seq<Poll>, minimum: int)
    ensures forall i: nat :: i < |History(polls, minimum).log| ==> Judged(History(polls, minimum).log, i)
  {
    if polls != [] {
      var init, poll := polls[..|polls| - 1], polls[|polls| - 1];
      var before := History(init, minimum);
      QualitiesExactly(init, minimum);
      RowSummarisesHistory(init, minimum);
      if Recorded(before.row, poll) {
        JudgedStep(before.row, before.log, poll, minimum);
      }
    }
  }

  // ---------- Cycles ----------

  ghost predicate BeginsService(log: seq<Entry>, i: int) {
    0 < i < |log| && NewService(log[i - 1], log[i])
  }

  ghost function NewServices(log: seq<Entry>): set<int> {
    set i | 0 < i < |log| && BeginsService(log, i)
  }

  /** For every history, the cycle goes up exactly with each new service, and never for an interruption or a new baseline. */
  lemma CycleCountsServices(polls: seq<Poll>, minimum: int)
    ensures History(polls, minimum).row.cycle == 1 + |NewServices(History(polls, minimum).log)|
  {
    var log := History(polls, minimum).log;
    RowSummarisesHistory(polls, minimum);
    QualitiesExactly(polls, minimum);
    forall i | 0 <= i < |log|
      ensures NewCycle(log[i].note.quality) <==> BeginsService(log, i)
    {
      assert Judged(log, i) && Logged(log, i);
      ChangesAreServices(log, i);
    }
    assert CycleChanges(log) == NewServices(log);
    if log == [] {
      assert NewServices(log) == {};
    }
  }

  lemma ChangesAreServices(log: seq<Entry>, i: nat)
    requires i < |log| && Judged(log, i) && Logged(log, i)
    ensures NewCycle(log[i].note.quality) <==> BeginsService(log, i)
  {
  }

  // ---------- A poll and its entry ----------

  predicate HasCounters(row: Reading) {
    row.used.Some? && row.used.value >= 0 && row.up.Some? && row.up.value >= 0 && row.down.Some? && row.down.value >= 0
  }

  ghost predicate Countable(rows: map<RowKey, Reading>) {
    forall key :: key in rows ==> HasCounters(rows[key])
  }

  /** There are samples, none from the future and none older than 45 minutes. */
  ghost predicate Recent(rows: map<RowKey, Reading>, now: Instant) {
    rows != map[] && forall key :: key in rows ==> rows[key].capturedAt <= now <= rows[key].capturedAt + 45 * MINUTE
  }

  ghost predicate IsSampleOf(sample: Sample, row: Reading) {
    && row.used == Some(sample.used) && row.up == Some(sample.up) && row.down == Some(sample.down)
    && sample.at == row.capturedAt && sample.quota == row.quota && sample.expiry == row.expiry
  }

  /** The counters of the poll are kept. */
  ghost predicate Kept(poll: Poll)
    requires poll.purchase.superseded || Readable(poll.rows, poll.now)
  {
    Verdict(poll).reason.None? && !poll.attribution.Refused? && Countable(poll.rows) && Recent(poll.rows, poll.now)
  }

  lemma CountersExactly(row: Row, poll: Poll)
    requires poll.purchase.superseded || Readable(poll.rows, poll.now)
    ensures var e := Observe(row, poll);
      && e.at == poll.now && e.sources == |poll.rows| && e.ended == Verdict(poll).ended
      && (e.counters != map[] <==> Kept(poll))
      && (e.note.partial <==> Kept(poll) && poll.attribution == PartialCoverage)
      && (Kept(poll) ==> e.counters.Keys == poll.rows.Keys && forall key :: key in poll.rows ==> IsSampleOf(e.counters[key], poll.rows[key]))
  {
    assert Countable(poll.rows) <==> AllCounted(poll.rows);
    if Obstacle(poll).None? {
      var current := SamplesOf(poll.rows);
      assert current.Keys == poll.rows.Keys;
      assert current == map[] <==> poll.rows == map[];
      assert Fresh(current, poll.now) <==> Recent(poll.rows, poll.now);
      ComparableUnlessStale(row, current, Partial(poll), poll.now);
    }
  }

  /** Why counters are not kept: the first reason that applies. */
  lemma ReasonExactly(row: Row, poll: Poll)
    requires (poll.purchase.superseded || Readable(poll.rows, poll.now)) && !Kept(poll)
    ensures var e, reason := Observe(row, poll), Verdict(poll).reason;
      e.note == Note(false, if reason.Some? then reason.value else if poll.attribution.Refused? then poll.attribution.quality
                            else if !Countable(poll.rows) then MissingCounters else Stale)
  {
    assert Countable(poll.rows) <==> AllCounted(poll.rows);
    if Obstacle(poll).None? {
      var current := SamplesOf(poll.rows);
      assert current.Keys == poll.rows.Keys;
      assert Fresh(current, poll.now) <==> Recent(poll.rows, poll.now);
    }
  }

  lemma StateFollows(judged: Judgement, attribution: Attribution, quality: Quality, kept: bool)
    requires judged.reason.Some? ==> judged.state == (if judged.reason == Some(SupersededBy) then Superseded else Conflict)
    requires judged.state == Superseded ==> judged.reason.Some?
    requires judged.reason.Some? ==> quality == judged.reason.value && !kept
    requires judged.reason.None? && attribution.Refused? ==> quality == attribution.quality && !kept
    requires judged.reason.None? && !attribution.Refused? ==> (kept <==> !Voids(quality)) && quality != SupersededBy
    ensures StateAfter(judged, attribution, quality)
         == if judged.state in {Closed, Conflict, Superseded} || (kept && attribution == Complete) then judged.state else Unknown
  {
  }

  lemma ReasonGivesState(p: Purchase, rows: map<RowKey, Reading>, now: Instant)
    requires p.superseded || Readable(rows, now)
    ensures var judged := Entitlement(p, rows, now);
      && (judged.reason.Some? ==> judged.state == (if judged.reason == Some(SupersededBy) then Superseded else Conflict))
      && (judged.state == Superseded ==> judged.reason.Some?)
  {
  }

  lemma QualityOfKept(row: Row, poll: Poll)
    requires (poll.purchase.superseded || Readable(poll.rows, poll.now)) && Verdict(poll).reason.None? && !poll.attribution.Refused?
    ensures var quality := Observe(row, poll).note.quality;
      (Kept(poll) <==> !Voids(quality)) && quality != SupersededBy
  {
    if Kept(poll) {
      CountersExactly(row, poll);
      CountersAreCompared(row, poll);
      ComparableUnlessStale(row, Observe(row, poll).counters, Observe(row, poll).note.partial, poll.now);
    } else {
      ReasonExactly(row, poll);
    }
  }

  /** The state is that of the entitlement unless something is missing of the evidence, which makes all but three states unknown. */
  lemma StateExactly(row: Row, poll: Poll)
    requires poll.purchase.superseded || Readable(poll.rows, poll.now)
    ensures var judged := Verdict(poll).state;
      Observe(row, poll).state == if judged in {Closed, Conflict, Superseded} || (Kept(poll) && poll.attribution == Complete) then judged else Unknown
  {
    ReasonGivesState(poll.purchase, poll.rows, poll.now);
    if !Kept(poll) {
      ReasonExactly(row, poll);
    }
    if Verdict(poll).reason.None? && !poll.attribution.Refused? {
      QualityOfKept(row, poll);
    }
    StateFollows(Verdict(poll), poll.attribution, Observe(row, poll).note.quality, Kept(poll));
  }

  lemma HistoryGrows(polls: seq<Poll>, poll: Poll, minimum: int)
    ensures History(polls + [poll], minimum) == Record(History(polls, minimum), poll, minimum)
  {
    assert (polls + [poll])[..|polls|] == polls;
  }

  /** After any history, a poll makes the row valid exactly when the whole of a delivered purchase was measured and is usable. */
  lemma ValidExactly(polls: seq<Poll>, minimum: int, poll: Poll)
    requires Recorded(History(polls, minimum).row, poll)
    ensures History(polls + [poll], minimum).row.state == Valid <==>
              && Entitlements.Delivered(poll.purchase, poll.rows, poll.now) && Entitlements.AllUsable(poll.rows, poll.now)
              && poll.attribution == Complete && Countable(poll.rows) && Recent(poll.rows, poll.now)
  {
    HistoryGrows(polls, poll, minimum);
    StateExactly(History(polls, minimum).row, poll);
    Entitlements.StatesExactly(poll.purchase, poll.rows, poll.now);
    Entitlements.RefusalsExactly(poll.purchase, poll.rows, poll.now);
  }

  // ---------- The answers ----------

  /** The last entry of the log is at most 45 minutes old. */
  ghost predicate UpToDate(log: seq<Entry>, t: Instant) {
    log != [] && t <= log[|log| - 1].at + 45 * MINUTE
  }

  ghost predicate Answerless(state: State) {
    state == Conflict || state == Superseded || state == Closed
  }

  /** The answers that are not about the traffic, and those that withhold one. */
  lemma AnswersExactly(polls: seq<Poll>, minimum: int, t: Instant)
    ensures var h := History(polls, minimum);
      var answer := ActivityStatus(h.row, t);
      && (answer == IsConflict <==> UpToDate(h.log, t) && h.log[|h.log| - 1].state == Conflict)
      && (answer == IsSuperseded <==> UpToDate(h.log, t) && h.log[|h.log| - 1].state == Superseded)
      && (answer == IsClosed <==> UpToDate(h.log, t) && h.log[|h.log| - 1].state == Closed)
      && (answer == IsCollecting <==>
            && UpToDate(h.log, t) && !Answerless(h.log[|h.log| - 1].state)
            && h.log[|h.log| - 1].counters != map[] && !h.log[|h.log| - 1].note.partial
            && !Busy(h.log, t, minimum) && !Quiet(h.log, t, minimum))
      && (answer == IsUnknown <==>
            || !UpToDate(h.log, t)
            || (!Answerless(h.log[|h.log| - 1].state)
                && (h.log[|h.log| - 1].counters == map[] || (h.log[|h.log| - 1].note.partial && !Busy(h.log, t, minimum)))))
  {
    var h := History(polls, minimum);
    RowSummarisesHistory(polls, minimum);
    InactiveInLog(h.row, h.log, minimum, t);
    ActiveInLog(h.row, h.log, minimum, t);
    if h.log != [] {
      assert Logged(h.log, |h.log| - 1);
    }
  }

  /** An end is noted exactly while the last state is one of the four ended ones. */
  lemma EndIsNotedExactly(polls: seq<Poll>, minimum: int)
    ensures var h := History(polls, minimum);
      h.row.endedAt.Some? <==> h.log != [] && h.log[|h.log| - 1].state in {Expired, Exhausted, Disabled, Ended}
  {
    var h := History(polls, minimum);
    EndedAlways(polls, minimum);
    if h.log != [] && HasEnded(h.log[|h.log| - 1].state) {
      var s :| EndedSince(h.log, s);
      if !NoKnownEnd(h.log, s) {
        var c := LastEndKnown(h.log, s, |h.log|);
      }
    }
  }

  lemma {:induction false} LastEndKnown(log: seq<Entry>, s: int, n: int) returns (c: int)
    requires 0 <= s <= n <= |log| && (exists i :: s <= i < n && log[i].ended.Some?)
    requires forall i :: n <= i < |log| ==> log[i].ended.None?
    ensures LastKnownEnd(log, s, c)
    decreases n
  {
    c := n - 1;
    if log[c].ended.None? {
      c := LastEndKnown(log, s, n - 1);
    }
  }
}
