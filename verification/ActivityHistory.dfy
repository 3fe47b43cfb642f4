/** What a row says about its whole history, for every sequence of polls. */
module ActivityHistory {
  import opened Prelude
  import opened Evidence
  import opened Activity

  // ---------- The log ----------

  /** The second entry continues the counters of the first. */
  ghost predicate Linked(a: Entry, b: Entry) {
    && b.counters != map[] && a.counters.Keys == b.counters.Keys
    && Spaced(a.counters, b.counters) && SameTerms(a.counters, b.counters) && NonDecreasing(a.counters, b.counters)
    && b.delta == Some(Growth(a.counters, b.counters)) && b.start == Some(Earliest(a.counters))
    && (a.note.partial ==> b.note.partial)
  }

  ghost predicate Sound(e: Entry) {
    && (Comparable(e.note.quality) <==> e.counters != map[])
    && (e.counters != map[] ==> Fresh(e.counters, e.at))
    && (e.note.partial ==> e.counters != map[])
  }

  ghost predicate Follows(a: Entry, e: Entry) {
    && a.at < e.at
    && (if e.note.quality == Ok then Linked(a, e) else e.delta.None?)
    && (a.note.partial && !e.note.partial && e.counters != map[] ==> e.note.quality == Baseline)
  }

  ghost predicate Logged(log: seq<Entry>, i: nat)
    requires i < |log|
  {
    Sound(log[i]) && if i > 0 then Follows(log[i - 1], log[i]) else log[i].note.quality != Ok && log[i].delta.None?
  }

  ghost predicate WellLogged(log: seq<Entry>) {
    forall i: nat :: i < |log| ==> Logged(log, i)
  }

  /** Entry b is the last one that is not "ok". */
  ghost predicate StartsRun(log: seq<Entry>, b: int) {
    && 0 <= b < |log| && log[b].note.quality != Ok
    && forall i :: b < i < |log| ==> log[i].note.quality == Ok
  }

  /** Entry c is the last one after b whose growth reaches the minimum. */
  ghost predicate LastCounted(log: seq<Entry>, b: int, c: int, minimum: int) {
    && 0 <= b < c < |log| && Counts(log[c], minimum)
    && forall i :: c < i < |log| ==> !Counts(log[i], minimum)
  }

  ghost predicate NoneCounted(log: seq<Entry>, b: int, minimum: int) {
    forall i :: 0 <= b < i < |log| ==> !Counts(log[i], minimum)
  }

  ghost function CycleChanges(log: seq<Entry>): set<int> {
    set i | 0 <= i < |log| && NewCycle(log[i].note.quality)
  }

  ghost predicate SomePartial(log: seq<Entry>, b: int) {
    exists i :: 0 <= b <= i < |log| && log[i].note.partial
  }

  /** Observation has been continuous since the baseline of the run, if the run is complete and has one. */
  ghost function RunSince(log: seq<Entry>, b: int): Option<Instant>
    requires 0 <= b < |log|
  {
    if log[b].counters == map[] || SomePartial(log, b) then None else Some(Latest(log[b].counters))
  }

  ghost predicate RunActivity(row: Row, log: seq<Entry>, b: int, minimum: int) {
    && (NoneCounted(log, b, minimum) ==> row.lastStart == None && row.lastAt == None)
    && forall c :: LastCounted(log, b, c, minimum) && log[c].counters != map[] ==>
         row.lastStart == log[c].start && row.lastAt == Some(Latest(log[c].counters))
  }

  /** The evidence columns, as a function of the entries from b on. */
  ghost predicate RunColumns(row: Row, log: seq<Entry>, b: int, minimum: int)
    requires StartsRun(log, b)
  {
    row.continuousSince == RunSince(log, b) && RunActivity(row, log, b, minimum)
  }

  ghost predicate Summarises(row: Row, log: seq<Entry>, minimum: int) {
    if log == [] then row == NEW_ROW
    else
      var e := log[|log| - 1];
      && row.observedAt == Some(e.at) && row.note == e.note && row.state == e.state
      && row.counters == e.counters && row.sources == e.sources
      && row.cycle == 1 + |CycleChanges(log)|
      && (exists b :: StartsRun(log, b))
      && (forall b :: StartsRun(log, b) ==> RunColumns(row, log, b, minimum))
  }

  // ---------- One more poll ----------

  lemma ObstacleIsNotComparable(poll: Poll)
    requires (poll.purchase.superseded || Readable(poll.rows, poll.now)) && Obstacle(poll).Some?
    ensures !Comparable(Obstacle(poll).value)
  {
  }

  lemma ComparableUnlessStale(row: Row, current: Samples, partial: bool, now: Instant)
    ensures Compare(row, current, partial, now) != Stale ==> Fresh(current, now) && Comparable(Compare(row, current, partial, now))
  {
  }

  lemma ObservedIsSound(row: Row, poll: Poll)
    requires poll.purchase.superseded || Readable(poll.rows, poll.now)
    ensures Sound(Observe(row, poll))
  {
    if Obstacle(poll).Some? {
      ObstacleIsNotComparable(poll);
    } else {
      ComparableUnlessStale(row, SamplesOf(poll.rows), Partial(poll), poll.now);
    }
  }

  lemma ObservedFollows(row: Row, a: Entry, poll: Poll)
    requires row.observedAt == Some(a.at) && row.note == a.note && row.counters == a.counters
    requires Newer(row, poll.now) && (poll.purchase.superseded || Readable(poll.rows, poll.now))
    ensures Follows(a, Observe(row, poll))
  {
  }

  lemma ObserveLogged(row: Row, log: seq<Entry>, poll: Poll, minimum: int)
    requires WellLogged(log) && Summarises(row, log, minimum)
    requires Newer(row, poll.now) && (poll.purchase.superseded || Readable(poll.rows, poll.now))
    ensures WellLogged(log + [Observe(row, poll)])
  {
    var e := Observe(row, poll);
    var next := log + [e];
    ObservedIsSound(row, poll);
    if log != [] {
      ObservedFollows(row, log[|log| - 1], poll);
    }
    assert next[|log|] == e && Logged(next, |log|);
    forall i: nat | i < |next|
      ensures Logged(next, i)
    {
      if i < |log| {
        assert Logged(log, i);
      }
    }
  }

  lemma CycleChangesStep(log: seq<Entry>, e: Entry)
    ensures |CycleChanges(log + [e])| == |CycleChanges(log)| + (if NewCycle(e.note.quality) then 1 else 0)
  {
    var before, after := CycleChanges(log), CycleChanges(log + [e]);
    if NewCycle(e.note.quality) {
      assert after == before + {|log|};
    } else {
      assert after == before;
    }
  }

  lemma RunSinceStep(log: seq<Entry>, e: Entry, b: int)
    requires 0 <= b < |log|
    ensures RunSince(log + [e], b) == if e.note.partial then None else RunSince(log, b)
  {
    var next := log + [e];
    assert next[|log|] == e && next[b] == log[b];
    if SomePartial(log, b) {
      var i :| b <= i < |log| && log[i].note.partial;
      assert next[i].note.partial;
    }
  }

  lemma RunActivityStep(row: Row, log: seq<Entry>, e: Entry, b: int, minimum: int)
    requires 0 <= b < |log| && RunActivity(row, log, b, minimum)
    requires e.note.quality == Ok && e.counters != map[]
    ensures RunActivity(Advance(row, e, minimum), log + [e], b, minimum)
  {
    var next := log + [e];
    assert next[|log|] == e;
    if !Counts(e, minimum) {
      assert forall i :: 0 <= i < |log| ==> next[i] == log[i];
      if NoneCounted(next, b, minimum) {
        assert NoneCounted(log, b, minimum);
      }
      forall c | LastCounted(next, b, c, minimum)
        ensures LastCounted(log, b, c, minimum)
      {
      }
    } else {
      forall c | LastCounted(next, b, c, minimum)
        ensures c == |log|
      {
      }
    }
  }

  lemma RunStep(row: Row, log: seq<Entry>, e: Entry, b: int, minimum: int)
    requires Summarises(row, log, minimum) && WellLogged(log + [e])
    requires StartsRun(log + [e], b)
    ensures RunColumns(Advance(row, e, minimum), log + [e], b, minimum)
  {
    var next := log + [e];
    assert Logged(next, |log|) && next[|log|] == e;
    if e.note.quality != Ok {
      assert b == |log|;
      assert SomePartial(next, b) <==> next[b].note.partial;
    } else {
      assert next[b] == log[b];
      assert forall i :: b < i < |log| ==> next[i] == log[i];
      assert StartsRun(log, b) && RunColumns(row, log, b, minimum);
      RunSinceStep(log, e, b);
      RunActivityStep(row, log, e, b, minimum);
    }
  }

  lemma AdvanceSummarises(row: Row, log: seq<Entry>, e: Entry, minimum: int)
    requires Summarises(row, log, minimum) && WellLogged(log + [e])
    ensures Summarises(Advance(row, e, minimum), log + [e], minimum)
  {
    var next := log + [e];
    assert Logged(next, |log|) && next[|log|] == e;
    CycleChangesStep(log, e);
    if log == [] {
      assert CycleChanges(log) == {};
    }
    if e.note.quality != Ok {
      assert StartsRun(next, |log|);
    } else {
      var b :| StartsRun(log, b);
      assert StartsRun(next, b);
    }
    forall b | StartsRun(next, b)
      ensures RunColumns(Advance(row, e, minimum), next, b, minimum)
    {
      RunStep(row, log, e, b, minimum);
    }
  }

  // ---------- The end of a service ----------

  /** Entry s is the first of the last stretch of entries whose state is an ended one. */
  ghost predicate EndedSince(log: seq<Entry>, s: int) {
    && 0 <= s < |log| && (forall i :: s <= i < |log| ==> HasEnded(log[i].state)) && (s > 0 ==> !HasEnded(log[s - 1].state))
  }

  /** Entry c is the last of the stretch for which the panels knew when the service ended. */
  ghost predicate LastKnownEnd(log: seq<Entry>, s: int, c: int) {
    && 0 <= s <= c < |log| && log[c].ended.Some? && forall i :: c < i < |log| ==> log[i].ended.None?
  }

  ghost predicate NoKnownEnd(log: seq<Entry>, s: int) {
    0 <= s <= |log| && forall i :: s <= i < |log| ==> log[i].ended.None?
  }

  /** The end is kept only while the state is an ended one: the last known end, or else the time when it was first seen. */
  ghost predicate EndedColumn(ended: Option<Instant>, log: seq<Entry>) {
    if log == [] || !HasEnded(log[|log| - 1].state) then ended.None?
    else
      && (exists s :: EndedSince(log, s))
      && forall s :: EndedSince(log, s) ==>
           (NoKnownEnd(log, s) ==> ended == Some(log[s].at)) && forall c :: LastKnownEnd(log, s, c) ==> ended == log[c].ended
  }

  lemma EndedStretchStep(log: seq<Entry>, e: Entry, s: int)
    requires HasEnded(e.state)
    ensures EndedSince(log + [e], s) <==>
              if log != [] && HasEnded(log[|log| - 1].state) then EndedSince(log, s) else s == |log|
  {
    var next := log + [e];
    assert next[|log|] == e;
    if EndedSince(next, s) && s < |log| {
      assert HasEnded(next[|log| - 1].state);
      forall i | s <= i < |log|
        ensures HasEnded(log[i].state)
      {
        assert next[i] == log[i];
      }
    }
    if EndedSince(next, s) && s == |log| && s > 0 {
      assert next[s - 1] == log[s - 1];
    }
  }

  lemma EndedStep(ended: Option<Instant>, log: seq<Entry>, e: Entry)
    requires EndedColumn(ended, log)
    ensures EndedColumn(EndedAfter(ended, e), log + [e])
  {
    var next, ended' := log + [e], EndedAfter(ended, e);
    assert next[|log|] == e;
    if HasEnded(e.state) {
      if log != [] && HasEnded(log[|log| - 1].state) {
        var s :| EndedSince(log, s);
        EndedStretchStep(log, e, s);
      } else {
        EndedStretchStep(log, e, |log|);
      }
      forall s | EndedSince(next, s)
        ensures NoKnownEnd(next, s) ==> ended' == Some(next[s].at)
        ensures forall c :: LastKnownEnd(next, s, c) ==> ended' == next[c].ended
      {
        EndedStretchStep(log, e, s);
        EndedOfStretch(ended, log, e, s);
      }
    }
  }

  lemma EndedOfStretch(ended: Option<Instant>, log: seq<Entry>, e: Entry, s: int)
    requires HasEnded(e.state) && EndedColumn(ended, log) && 0 <= s <= |log|
    requires if log != [] && HasEnded(log[|log| - 1].state) then EndedSince(log, s) else s == |log|
    ensures NoKnownEnd(log + [e], s) ==> EndedAfter(ended, e) == Some((log + [e])[s].at)
    ensures forall c :: LastKnownEnd(log + [e], s, c) ==> EndedAfter(ended, e) == (log + [e])[c].ended
  {
    var next := log + [e];
    assert next[|log|] == e && forall i :: 0 <= i < |log| ==> next[i] == log[i];
    if NoKnownEnd(next, s) {
      assert NoKnownEnd(log, s);
    }
    forall c | LastKnownEnd(next, s, c)
      ensures EndedAfter(ended, e) == next[c].ended
    {
      if c < |log| {
        assert e.ended.None?;
        assert LastKnownEnd(log, s, c);
        assert EndedSince(log, s);
      }
    }
  }

  lemma {:induction false} EndedAlways(polls: seq<Poll>, minimum: int)
    ensures EndedColumn(History(polls, minimum).row.endedAt, History(polls, minimum).log)
  {
    if polls != [] {
      var init, poll := polls[..|polls| - 1], polls[|polls| - 1];
      var before := History(init, minimum);
      EndedAlways(init, minimum);
      if Recorded(before.row, poll) {
        EndedStep(before.row.endedAt, before.log, Observe(before.row, poll));
      }
    }
  }

  /** The row kept poll by poll is a function of the logged history, for every sequence of polls. */
  lemma {:induction false} RowSummarisesHistory(polls: seq<Poll>, minimum: int)
    ensures WellLogged(History(polls, minimum).log)
    ensures Summarises(History(polls, minimum).row, History(polls, minimum).log, minimum)
    ensures EndedColumn(History(polls, minimum).row.endedAt, History(polls, minimum).log)
  {
    EndedAlways(polls, minimum);
    if polls != [] {
      var t := History(polls[..|polls| - 1], minimum);
      var poll := polls[|polls| - 1];
      RowSummarisesHistory(polls[..|polls| - 1], minimum);
      if Newer(t.row, poll.now) && (poll.purchase.superseded || Readable(poll.rows, poll.now)) {
        ObserveLogged(t.row, t.log, poll, minimum);
        AdvanceSummarises(t.row, t.log, Observe(t.row, poll), minimum);
      }
    }
  }

  // ---------- Runs of linked entries ----------

  /** Between entries m and n of a run every key keeps its terms, never decreases, and moves forward by at most MAX_GAP a step. */
  lemma {:induction false} RunIsMonotone(log: seq<Entry>, b: int, m: int, n: int)
    requires WellLogged(log) && StartsRun(log, b) && b <= m <= n < |log|
    ensures log[n].counters.Keys == log[m].counters.Keys
    ensures SameTerms(log[m].counters, log[n].counters) && NonDecreasing(log[m].counters, log[n].counters)
    ensures forall key :: key in log[m].counters ==>
              log[m].counters[key].at + (n - m) <= log[n].counters[key].at <= log[m].counters[key].at + (n - m) * MAX_GAP
    decreases n - m
  {
    if m < n {
      RunIsMonotone(log, b, m, n - 1);
      assert Logged(log, n);
    }
  }

  lemma LatestIsMonotone(log: seq<Entry>, b: int, m: int, n: int)
    requires WellLogged(log) && StartsRun(log, b) && b <= m <= n < |log| && log[m].counters != map[]
    ensures log[n].counters != map[] && Latest(log[m].counters) <= Latest(log[n].counters)
  {
    RunIsMonotone(log, b, m, n);
    var key :| key in log[m].counters && log[m].counters[key].at == Latest(log[m].counters);
    assert key in log[n].counters;
  }

  /** A run with a growth has counters from its start on. */
  lemma RunHasCounters(log: seq<Entry>, b: int)
    requires WellLogged(log) && StartsRun(log, b) && b < |log| - 1
    ensures log[b].counters != map[]
  {
    assert Logged(log, b + 1);
  }

  lemma {:induction false} LastCountedExists(log: seq<Entry>, b: int, n: int, minimum: int) returns (c: int)
    requires 0 <= b < n <= |log| && forall i :: n <= i < |log| ==> !Counts(log[i], minimum)
    ensures if c == b then NoneCounted(log, b, minimum) else LastCounted(log, b, c, minimum)
    decreases n
  {
    c := n - 1;
    if b < c && !Counts(log[c], minimum) {
      c := LastCountedExists(log, b, c, minimum);
    }
  }

  /** The logged growths of a run telescope. */
  ghost function LoggedGrowth(log: seq<Entry>, m: int, n: int): int
    requires 0 <= m <= n < |log|
    requires forall i :: m < i <= n ==> log[i].delta.Some?
    decreases n - m
  {
    if m == n then 0 else LoggedGrowth(log, m, n - 1) + log[n].delta.value
  }

  lemma {:induction false} LogTelescopes(log: seq<Entry>, m: int, n: int)
    requires WellLogged(log) && 0 <= m <= n < |log| && forall i :: m < i <= n ==> log[i].note.quality == Ok
    ensures forall i :: m < i <= n ==> log[i].delta.Some?
    ensures LoggedGrowth(log, m, n) == Sum(Usage(log[n].counters)) - Sum(Usage(log[m].counters))
    decreases n - m
  {
    if m < n {
      LogTelescopes(log, m, n - 1);
      assert Logged(log, n);
      var a, b := log[n - 1].counters, log[n].counters;
      SumDifference(Usage(a), Usage(b), Increments(a, b));
    }
  }

  lemma GrowthTelescopes(polls: seq<Poll>, minimum: int, m: int, n: int)
    requires var log := History(polls, minimum).log;
      0 <= m <= n < |log| && forall i :: m < i <= n ==> log[i].note.quality == Ok
    ensures var log := History(polls, minimum).log;
      && (forall i :: m < i <= n ==> log[i].delta.Some?)
      && LoggedGrowth(log, m, n) == Sum(Usage(log[n].counters)) - Sum(Usage(log[m].counters))
  {
    RowSummarisesHistory(polls, minimum);
    LogTelescopes(History(polls, minimum).log, m, n);
  }

  // ---------- Verdicts ----------

  ghost predicate Current(log: seq<Entry>, t: Instant) {
    && log != [] && t - log[|log| - 1].at <= 45 * MINUTE
    && log[|log| - 1].state !in {Conflict, Superseded, Closed}
  }

  /** Complete observation since before the window, in which no growth that counts ends inside the window. */
  ghost predicate QuietSince(log: seq<Entry>, b: int, t: Instant, minimum: int) {
    && StartsRun(log, b) && log[b].counters != map[] && !SomePartial(log, b)
    && Latest(log[b].counters) <= t - 48 * HOUR
    && forall i :: b < i < |log| && Counts(log[i], minimum) && log[i].counters != map[] ==> Latest(log[i].counters) <= t - 48 * HOUR
  }

  /** The log ends with current evidence that was quiet for the whole window. */
  ghost predicate Quiet(log: seq<Entry>, t: Instant, minimum: int) {
    Current(log, t) && exists b :: QuietSince(log, b, t, minimum)
  }

  /** The last growth that counts began inside the window, in the current run. */
  ghost predicate BusyAt(log: seq<Entry>, b: int, c: int, t: Instant, minimum: int) {
    && StartsRun(log, b) && LastCounted(log, b, c, minimum)
    && log[c].start.Some? && log[c].start.value >= t - 48 * HOUR
  }

  /** The log ends with current evidence whose last counted growth began inside the window. */
  ghost predicate Busy(log: seq<Entry>, t: Instant, minimum: int) {
    Current(log, t) && exists b, c :: BusyAt(log, b, c, t, minimum)
  }

  lemma StartBeforeEnd(log: seq<Entry>, b: int, c: int)
    requires WellLogged(log) && StartsRun(log, b) && b < c < |log|
    ensures log[c].counters != map[] && log[c].start.Some? && log[c].start.value < Latest(log[c].counters)
  {
    assert Logged(log, c);
    var key := Pick(log[c].counters.Keys);
    assert key in log[c - 1].counters && key in log[c].counters;
  }

  /** The columns that the inactive verdict reads say exactly that the run is complete and quiet. */
  lemma QuietColumns(row: Row, log: seq<Entry>, b: int, t: Instant, minimum: int)
    requires WellLogged(log) && StartsRun(log, b) && RunColumns(row, log, b, minimum)
    ensures QuietSince(log, b, t, minimum) <==>
              Past(row.continuousSince, t - WINDOW) && (row.lastAt.None? || Past(row.lastAt, t - WINDOW))
    ensures row.lastAt.Some? ==> row.lastStart.Some? && row.lastStart.value < row.lastAt.value
    ensures row.lastAt.None? ==> row.lastStart.None?
  {
    var c := LastCountedExists(log, b, |log|, minimum);
    if b < c {
      StartBeforeEnd(log, b, c);
      forall i | b < i <= c && log[i].counters != map[]
        ensures Latest(log[i].counters) <= Latest(log[c].counters)
      {
        LatestIsMonotone(log, b, i, c);
      }
    }
  }

  /** "inactive" is answered exactly when the log holds complete and quiet evidence for the whole window. */
  lemma InactiveExactly(polls: seq<Poll>, minimum: int, t: Instant)
    ensures ActivityStatus(History(polls, minimum).row, t) == IsInactive <==> Quiet(History(polls, minimum).log, t, minimum)
  {
    RowSummarisesHistory(polls, minimum);
    InactiveInLog(History(polls, minimum).row, History(polls, minimum).log, minimum, t);
  }

  lemma QuietIsComparable(log: seq<Entry>, b: int, t: Instant, minimum: int)
    requires WellLogged(log) && QuietSince(log, b, t, minimum)
    ensures Comparable(log[|log| - 1].note.quality) && !log[|log| - 1].note.partial
  {
    var last := |log| - 1;
    RunIsMonotone(log, b, b, last);
    assert log[last].counters != map[] by {
      assert Pick(log[b].counters.Keys) in log[last].counters;
    }
    assert Logged(log, last);
    assert log[last].note.partial ==> SomePartial(log, b);
  }

  /** Only the last unbroken run can be the quiet one. */
  lemma QuietIsTheRun(log: seq<Entry>, b: int, t: Instant, minimum: int)
    requires StartsRun(log, b)
    ensures (exists b' :: QuietSince(log, b', t, minimum)) <==> QuietSince(log, b, t, minimum)
  {
    assert forall b' :: QuietSince(log, b', t, minimum) ==> b' == b;
  }

  lemma InactiveInLog(row: Row, log: seq<Entry>, minimum: int, t: Instant)
    requires WellLogged(log) && Summarises(row, log, minimum)
    ensures ActivityStatus(row, t) == IsInactive <==> Quiet(log, t, minimum)
  {
    if log != [] {
      var b :| StartsRun(log, b);
      assert RunColumns(row, log, b, minimum);
      QuietColumns(row, log, b, t, minimum);
      QuietIsTheRun(log, b, t, minimum);
      if QuietSince(log, b, t, minimum) {
        QuietIsComparable(log, b, t, minimum);
      }
    }
  }

  /** "active" is answered exactly when a growth that counts began inside the window, with or without full coverage. */
  lemma ActiveExactly(polls: seq<Poll>, minimum: int, t: Instant)
    ensures ActivityStatus(History(polls, minimum).row, t) == IsActive <==> Busy(History(polls, minimum).log, t, minimum)
  {
    RowSummarisesHistory(polls, minimum);
    ActiveInLog(History(polls, minimum).row, History(polls, minimum).log, minimum, t);
  }

  lemma ActiveInLog(row: Row, log: seq<Entry>, minimum: int, t: Instant)
    requires WellLogged(log) && Summarises(row, log, minimum)
    ensures ActivityStatus(row, t) == IsActive <==> Busy(log, t, minimum)
  {
    if log != [] {
      var b :| StartsRun(log, b);
      assert Logged(log, |log| - 1);
      assert RunColumns(row, log, b, minimum);
      var c := LastCountedExists(log, b, |log|, minimum);
      if b < c {
        StartBeforeEnd(log, b, c);
        RunHasCounters(log, b);
        if log[c].start.value >= t - WINDOW {
          assert BusyAt(log, b, c, t, minimum);
        }
      }
      forall b', c' | BusyAt(log, b', c', t, minimum)
        ensures b' == b && c' == c
      {
        assert b' == b;
        assert Counts(log[c'], minimum);
      }
    }
  }

  // ---------- What the verdicts guarantee ----------

  /** Every entry from b on has full coverage, the keys and terms of entry b, and follows its predecessor without a gap. */
  ghost predicate Unbroken(log: seq<Entry>, b: int) {
    && 0 <= b < |log| && log[b].counters != map[]
    && (forall i :: b <= i < |log| ==>
          !log[i].note.partial && log[i].counters.Keys == log[b].counters.Keys && SameTerms(log[b].counters, log[i].counters))
    && (forall i :: b < i < |log| ==>
          log[i].note.quality == Ok && log[i - 1].at < log[i].at && Linked(log[i - 1], log[i]))
  }

  ghost predicate SampledBy(counters: Samples, t: Instant) {
    forall key :: key in counters ==> counters[key].at <= t
  }

  ghost predicate SampledFrom(counters: Samples, t: Instant) {
    forall key :: key in counters ==> counters[key].at >= t
  }

  lemma QuietIsUnbroken(log: seq<Entry>, b: int, t: Instant, minimum: int)
    requires WellLogged(log) && QuietSince(log, b, t, minimum)
    ensures Unbroken(log, b)
  {
    forall i | b <= i < |log|
      ensures !log[i].note.partial && log[i].counters.Keys == log[b].counters.Keys && SameTerms(log[b].counters, log[i].counters)
    {
      RunIsMonotone(log, b, b, i);
    }
    forall i | b < i < |log|
      ensures log[i].note.quality == Ok && log[i - 1].at < log[i].at && Linked(log[i - 1], log[i])
    {
      assert Logged(log, i);
    }
  }

  /** The evidence of a quiet run, seen from time t. */
  ghost predicate QuietEvidence(log: seq<Entry>, b: int, t: Instant, minimum: int) {
    && Unbroken(log, b)
    && SampledBy(log[b].counters, t - 48 * HOUR) && SampledFrom(log[|log| - 1].counters, t - 90 * MINUTE)
    && forall i :: b < i < |log| && Latest(log[i].counters) > t - 48 * HOUR ==>
         Growth(log[i - 1].counters, log[i].counters) < minimum
  }

  lemma QuietSamples(log: seq<Entry>, b: int, t: Instant, minimum: int)
    requires WellLogged(log) && Current(log, t) && QuietSince(log, b, t, minimum)
    ensures SampledBy(log[b].counters, t - WINDOW) && SampledFrom(log[|log| - 1].counters, t - 2 * MAX_GAP)
  {
    assert Logged(log, |log| - 1);
  }

  lemma QuietGrowth(log: seq<Entry>, b: int, t: Instant, minimum: int, i: int)
    requires QuietSince(log, b, t, minimum) && b < i < |log| && Linked(log[i - 1], log[i]) && Latest(log[i].counters) > t - WINDOW
    ensures Growth(log[i - 1].counters, log[i].counters) < minimum
  {
    assert !Counts(log[i], minimum);
  }

  lemma QuietIsEvidence(log: seq<Entry>, b: int, t: Instant, minimum: int)
    requires WellLogged(log) && Current(log, t) && QuietSince(log, b, t, minimum)
    ensures QuietEvidence(log, b, t, minimum)
  {
    QuietIsUnbroken(log, b, t, minimum);
    QuietSamples(log, b, t, minimum);
    forall i | b < i < |log| && Latest(log[i].counters) > t - WINDOW
      ensures Growth(log[i - 1].counters, log[i].counters) < minimum
    {
      assert Linked(log[i - 1], log[i]);
      QuietGrowth(log, b, t, minimum, i);
    }
  }

  /** An inactive verdict rests on an unbroken chain of complete samples over the window, quiet after the cutoff. */
  lemma InactiveIsSound(polls: seq<Poll>, minimum: int, t: Instant)
    requires ActivityStatus(History(polls, minimum).row, t) == IsInactive
    ensures exists b :: QuietEvidence(History(polls, minimum).log, b, t, minimum)
  {
    RowSummarisesHistory(polls, minimum);
    InactiveExactly(polls, minimum, t);
    var log := History(polls, minimum).log;
    var b :| QuietSince(log, b, t, minimum);
    QuietIsEvidence(log, b, t, minimum);
  }

  /** Between two entries without counted growth nothing moves, when every byte counts. */
  lemma {:induction false} NothingMoves(log: seq<Entry>, b: int, m: int, n: int, minimum: int)
    requires WellLogged(log) && StartsRun(log, b) && b <= m <= n < |log| && minimum <= 1
    requires forall i :: m < i <= n ==> !Counts(log[i], minimum)
    ensures log[n].counters.Keys == log[m].counters.Keys
    ensures forall key :: key in log[n].counters ==> log[n].counters[key].used == log[m].counters[key].used
    decreases n - m
  {
    if m < n {
      NothingMoves(log, b, m, n - 1, minimum);
      assert Logged(log, n);
      var a, c := log[n - 1].counters, log[n].counters;
      SumNonNegative(Increments(a, c));
      forall key | key in c
        ensures c[key].used == a[key].used
      {
        assert Increments(a, c)[key] <= 0;
      }
    }
  }

  /** With the default threshold of one byte, no counter has moved since a sample taken before the window. */
  lemma InactiveMeansFrozen(polls: seq<Poll>, minimum: int, t: Instant)
    requires minimum <= 1 && ActivityStatus(History(polls, minimum).row, t) == IsInactive
    ensures exists j :: FrozenSince(History(polls, minimum).log, j, t)
  {
    InactiveExactly(polls, minimum, t);
    RowSummarisesHistory(polls, minimum);
    var j := QuietIsFrozen(History(polls, minimum).log, minimum, t);
  }

  /** Entry j was sampled before the window, and every counter at the end of the log equals that of entry j. */
  ghost predicate FrozenSince(log: seq<Entry>, j: int, t: Instant) {
    && 0 <= j < |log| && log[j].counters != map[]
    && log[|log| - 1].counters.Keys == log[j].counters.Keys
    && (forall i :: j < i < |log| ==> log[i].note.quality == Ok && !log[i].note.partial)
    && forall key :: key in log[j].counters ==>
         log[j].counters[key].at <= t - 48 * HOUR && log[|log| - 1].counters[key].used == log[j].counters[key].used
  }

  lemma QuietIsFrozen(log: seq<Entry>, minimum: int, t: Instant) returns (j: int)
    requires WellLogged(log) && minimum <= 1 && Quiet(log, t, minimum)
    ensures FrozenSince(log, j, t)
  {
    var b :| QuietSince(log, b, t, minimum);
    j := LastCountedExists(log, b, |log|, minimum);
    if b < j {
      StartBeforeEnd(log, b, j);
    }
    NothingMoves(log, b, j, |log| - 1, minimum);
  }

  lemma QuietIsLong(log: seq<Entry>, b: int, t: Instant, minimum: int)
    requires WellLogged(log) && Current(log, t) && QuietSince(log, b, t, minimum)
    ensures b + 62 < |log|
  {
    var last := |log| - 1;
    RunIsMonotone(log, b, b, last);
    var key := Pick(log[b].counters.Keys);
    assert key in log[b].counters && key in log[last].counters;
    assert Logged(log, last);
  }

  /** An inactive verdict needs at least 62 consecutive "ok" observations after the baseline. */
  lemma InactiveNeedsObservations(polls: seq<Poll>, minimum: int, t: Instant)
    requires ActivityStatus(History(polls, minimum).row, t) == IsInactive
    ensures exists b :: LongObserved(History(polls, minimum).log, b)
  {
    RowSummarisesHistory(polls, minimum);
    InactiveExactly(polls, minimum, t);
    var b := QuietIsObserved(History(polls, minimum).log, minimum, t);
  }

  /** At least 62 entries follow entry b, and all of them are "ok" with full coverage. */
  ghost predicate LongObserved(log: seq<Entry>, b: int) {
    0 <= b && b + 62 < |log| && forall i :: b < i < |log| ==> log[i].note == Note(false, Ok)
  }

  lemma QuietIsObserved(log: seq<Entry>, minimum: int, t: Instant) returns (b: int)
    requires WellLogged(log) && Quiet(log, t, minimum)
    ensures LongObserved(log, b)
  {
    b :| QuietSince(log, b, t, minimum);
    QuietIsUnbroken(log, b, t, minimum);
    QuietIsLong(log, b, t, minimum);
  }

  /** An active verdict rests on two samples at most MAX_GAP apart, inside the window, with counted growth between them. */
  lemma ActiveIsSound(polls: seq<Poll>, minimum: int, t: Instant)
    requires ActivityStatus(History(polls, minimum).row, t) == IsActive
    ensures exists c :: GrewAt(History(polls, minimum).log, c, t, minimum)
  {
    ActiveExactly(polls, minimum, t);
    RowSummarisesHistory(polls, minimum);
    var c := BusyGrew(History(polls, minimum).log, minimum, t);
  }

  /** Entry c continues its predecessor's counters, which were sampled inside the window, with growth that counts. */
  ghost predicate GrewAt(log: seq<Entry>, c: int, t: Instant, minimum: int) {
    && 0 < c < |log| && Linked(log[c - 1], log[c])
    && SampledFrom(log[c - 1].counters, t - 48 * HOUR)
    && Growth(log[c - 1].counters, log[c].counters) >= minimum
  }

  lemma BusyGrew(log: seq<Entry>, minimum: int, t: Instant) returns (c: int)
    requires WellLogged(log) && Busy(log, t, minimum)
    ensures GrewAt(log, c, t, minimum)
  {
    var b, last :| BusyAt(log, b, last, t, minimum);
    c := last;
    assert Logged(log, c);
  }

  /** A partial entry in the current run withholds "inactive", and full coverage after a partial entry starts a new baseline. */
  lemma PartialIsOneSided(polls: seq<Poll>, minimum: int, t: Instant, i: int)
    requires
      var log := History(polls, minimum).log;
      0 <= i < |log| && log[i].note.partial
    ensures
      var h := History(polls, minimum);
      && ((forall j :: i < j < |h.log| ==> h.log[j].note.quality == Ok) ==> ActivityStatus(h.row, t) != IsInactive)
      && (i + 1 < |h.log| && !h.log[i + 1].note.partial && h.log[i + 1].counters != map[] ==> h.log[i + 1].note.quality == Baseline)
  {
    RowSummarisesHistory(polls, minimum);
    InactiveExactly(polls, minimum, t);
    var log := History(polls, minimum).log;
    if i + 1 < |log| {
      assert Logged(log, i + 1);
    }
    if forall j :: i < j < |log| ==> log[j].note.quality == Ok {
      forall b | StartsRun(log, b)
        ensures SomePartial(log, b)
      {
        assert b <= i;
      }
    }
  }
}
