/** Which message a purchase is a candidate for, and what the inactivity message claims (customer_activity/outreach.py). */
module Candidates {
  import opened Prelude
  import opened Identities
  import opened Evidence
  import opened Activity
  import opened ActivityHistory

  datatype Kind = Inactive48h | EndedService | Expiry24h | Volume5 | Expiry72h | Volume20

  datatype Mode = Off | PreviewOnly | Live

  datatype Settings = Settings(mode: Mode, inactivity: bool, renewal: bool, dailyLimit: nat, startHour: nat, endHour: nat)

  // A cup, with the update times of itself, its items and their links.
  datatype CupFacts = CupFacts(disabled: bool, expiresAt: Option<Instant>, updates: seq<Instant>)

  // What is read of the order at the moment of the call. "renewing" is a non-empty answer of renewal_state.
  datatype OrderFacts = OrderFacts(
    customer: Option<nat>, storeActive: bool, status: OrderStatus, verified: bool,
    updatedAt: Instant, cups: seq<CupFacts>, clientUpdates: seq<Instant>, renewing: bool)

  predicate ChangedAfter(updates: seq<Instant>, at: Instant) {
    exists u :: u in updates && u > at
  }

  /** The evidence is of full quality, fresh, and newer than every local change of the purchase. */
  predicate Trustworthy(row: Row, order: OrderFacts, now: Instant) {
    && order.customer.Some? && order.storeActive && Fulfilled(order.status) && order.verified
    && row.note == Note(false, Ok)
    && row.observedAt.Some? && row.observedAt.value <= now <= row.observedAt.value + MAX_GAP
    && order.updatedAt <= row.observedAt.value
    && (forall cup :: cup in order.cups ==>
          !cup.disabled && !Past(cup.expiresAt, now) && !ChangedAfter(cup.updates, row.observedAt.value))
    && !ChangedAfter(order.clientUpdates, row.observedAt.value)
    && !order.renewing
  }

  predicate AllMeasured(counters: Samples, now: Instant) {
    forall key :: key in counters ==> 0 <= now - counters[key].at <= MAX_GAP
  }

  predicate ExpiresWithin(counters: Samples, now: Instant, span: int) {
    exists key :: key in counters && counters[key].expiry.Some? && 0 < counters[key].expiry.value - now <= span
  }

  /** At most one part in n of some quota is left. */
  predicate AlmostUsedUp(counters: Samples, n: int) {
    exists key :: key in counters && counters[key].quota.Some? && counters[key].quota.value > 0
                  && n * Remaining(counters[key]) <= counters[key].quota.value
  }

  function Remaining(sample: Sample): int
    requires sample.quota.Some?
  {
    if sample.quota.value > sample.used then sample.quota.value - sample.used else 0
  }

  /** The kind of message, in the order in which the kinds are tried. */
  function CandidateKind(row: Row, order: OrderFacts, settings: Settings, now: Instant): Option<Kind> {
    if !Trustworthy(row, order, now) then None
    else if settings.inactivity && row.state == Valid && ActivityStatus(row, now) == IsInactive then Some(Inactive48h)
    else if !settings.renewal then None
    else if row.state == Expired || row.state == Exhausted || row.state == Ended then
      if row.endedAt.Some? && now - WINDOW <= row.endedAt.value <= now then Some(EndedService) else None
    else if row.state != Valid || row.counters == map[] || !AllMeasured(row.counters, now) then None
    else if ExpiresWithin(row.counters, now, DAY) then Some(Expiry24h)
    else if AlmostUsedUp(row.counters, 20) then Some(Volume5)
    else if ExpiresWithin(row.counters, now, 3 * DAY) then Some(Expiry72h)
    else if AlmostUsedUp(row.counters, 5) then Some(Volume20)
    else None
  }

  /** The smallest of the values is at most the bound. */
  ghost predicate SomeAtMost(values: seq<real>, bound: real) {
    exists v :: v in values && v <= bound
  }

  method MinReal(values: seq<real>) returns (m: real)
    requires values != []
    ensures m in values && forall v :: v in values ==> m <= v
  {
    m := values[0];
    for i := 1 to |values|
      invariant exists j :: 0 <= j < |values| && values[j] == m
      invariant forall j :: 0 <= j < i ==> m <= values[j]
    {
      if values[i] < m {
        m := values[i];
      }
    }
  }

  lemma RatioBelow(sample: Sample, n: int, part: real)
    requires sample.quota.Some? && sample.quota.value > 0 && n > 0 && part * n as real == 1.0
    ensures Remaining(sample) as real / sample.quota.value as real <= part
            <==> n * Remaining(sample) <= sample.quota.value
  {
    var r, q := Remaining(sample) as real, sample.quota.value as real;
    var ratio := r / q;
    assert ratio * q == r;
    assert n as real * r == (n * Remaining(sample)) as real;
    if ratio <= part {
      RealScale(ratio, part, q * n as real);
      assert (part * n as real) * q == part * (q * n as real);
      assert (ratio * q) * n as real == ratio * (q * n as real);
    } else {
      RealScaleStrict(part, ratio, q * n as real);
      assert (part * n as real) * q == part * (q * n as real);
      assert (ratio * q) * n as real == ratio * (q * n as real);
    }
  }

  lemma RealScale(a: real, b: real, c: real)
    requires a <= b && c >= 0.0
    ensures a * c <= b * c
  {
  }

  lemma RealScaleStrict(a: real, b: real, c: real)
    requires a < b && c > 0.0
    ensures a * c < b * c
  {
  }

  ghost predicate TimesListed(counters: Samples, keys: set<RowKey>, now: Instant, expiry: seq<int>) {
    && (forall key :: key in counters && key in keys && counters[key].expiry.Some? && counters[key].expiry.value > now ==>
          counters[key].expiry.value - now in expiry)
    && (forall e :: e in expiry ==> e > 0 && exists key :: key in counters && counters[key].expiry == Some(now + e))
  }

  predicate Limited(sample: Sample) {
    sample.quota.Some? && sample.quota.value > 0
  }

  function Share(sample: Sample): real
    requires Limited(sample)
  {
    Remaining(sample) as real / sample.quota.value as real
  }

  ghost predicate SharesListed(counters: Samples, keys: set<RowKey>, remaining: seq<real>) {
    && (forall key :: key in counters && key in keys && Limited(counters[key]) ==> Share(counters[key]) in remaining)
    && (forall r :: r in remaining ==> exists key :: key in counters && Limited(counters[key]) && r == Share(counters[key]))
  }

  /** The loop over the counters, with the list of times left and the list of shares left. */
  method CollectCounters(counters: Samples, now: Instant) returns (measured: bool, expiry: seq<int>, remaining: seq<real>)
    ensures measured <==> AllMeasured(counters, now)
    ensures measured ==> TimesListed(counters, counters.Keys, now, expiry) && SharesListed(counters, counters.Keys, remaining)
  {
    measured, expiry, remaining := true, [], [];
    var done, todo := {}, counters.Keys;
    while todo != {}
      invariant todo <= counters.Keys && done == counters.Keys - todo
      invariant forall key :: key in done ==> 0 <= now - counters[key].at <= MAX_GAP
      invariant TimesListed(counters, done, now, expiry)
      invariant SharesListed(counters, done, remaining)
    {
      var key :| key in todo;
      var values := counters[key];
      if !(0 <= now - values.at <= MAX_GAP) {
        return false, expiry, remaining;
      }
      if values.expiry.Some? && values.expiry.value > now {
        expiry := expiry + [values.expiry.value - now];
      }
      if Limited(values) {
        remaining := remaining + [Share(values)];
      }
      todo, done := todo - {key}, done + {key};
    }
    assert done == counters.Keys;
  }

  method ComputeKind(row: Row, order: OrderFacts, settings: Settings, now: Instant) returns (kind: Option<Kind>)
    ensures kind == CandidateKind(row, order, settings, now)
  {
    if !Trustworthy(row, order, now) {
      return None;
    }
    if settings.inactivity && row.state == Valid && ActivityStatus(row, now) == IsInactive {
      return Some(Inactive48h);
    }
    if !settings.renewal {
      return None;
    }
    if row.state == Expired || row.state == Exhausted || row.state == Ended {
      return if row.endedAt.Some? && now - WINDOW <= row.endedAt.value <= now then Some(EndedService) else None;
    }
    if row.state != Valid || row.counters == map[] {
      return None;
    }
    kind := UpcomingEnd(row.counters, now);
  }

  method UpcomingEnd(counters: Samples, now: Instant) returns (kind: Option<Kind>)
    ensures kind ==
      if !AllMeasured(counters, now) then None
      else if ExpiresWithin(counters, now, DAY) then Some(Expiry24h)
      else if AlmostUsedUp(counters, 20) then Some(Volume5)
      else if ExpiresWithin(counters, now, 3 * DAY) then Some(Expiry72h)
      else if AlmostUsedUp(counters, 5) then Some(Volume20)
      else None
  {
    var measured, expiry, remaining := CollectCounters(counters, now);
    if !measured {
      return None;
    }
    var oneDay := EndsWithin(counters, now, expiry, DAY);
    var twentieth := ShareBelow(counters, remaining, 20, 0.05);
    var threeDays := EndsWithin(counters, now, expiry, 3 * DAY);
    var fifth := ShareBelow(counters, remaining, 5, 0.2);
    kind := if oneDay then Some(Expiry24h)
      else if twentieth then Some(Volume5)
      else if threeDays then Some(Expiry72h)
      else if fifth then Some(Volume20)
      else None;
  }

  method EndsWithin(counters: Samples, now: Instant, expiry: seq<int>, span: int) returns (within: bool)
    requires TimesListed(counters, counters.Keys, now, expiry)
    ensures within <==> ExpiresWithin(counters, now, span)
  {
    SoonestTime(counters, now, expiry, span);
    if expiry == [] {
      return false;
    }
    var soonest := Smallest(expiry);
    within := soonest <= span;
  }

  method ShareBelow(counters: Samples, remaining: seq<real>, n: int, bound: real) returns (below: bool)
    requires n > 0 && bound * n as real == 1.0 && SharesListed(counters, counters.Keys, remaining)
    ensures below <==> AlmostUsedUp(counters, n)
  {
    SmallestShare(counters, remaining, n, bound);
    if remaining == [] {
      return false;
    }
    var share := MinReal(remaining);
    below := share <= bound;
  }

  lemma SoonestTime(counters: Samples, now: Instant, expiry: seq<int>, span: int)
    requires TimesListed(counters, counters.Keys, now, expiry)
    ensures ExpiresWithin(counters, now, span) <==> exists e :: e in expiry && e <= span
  {
  }

  lemma SmallestShare(counters: Samples, remaining: seq<real>, n: int, bound: real)
    requires n > 0 && bound * n as real == 1.0 && SharesListed(counters, counters.Keys, remaining)
    ensures AlmostUsedUp(counters, n) <==> SomeAtMost(remaining, bound)
  {
    forall key | key in counters && Limited(counters[key])
      ensures Share(counters[key]) <= bound <==> n * Remaining(counters[key]) <= counters[key].quota.value
    {
      RatioBelow(counters[key], n, bound);
    }
    if AlmostUsedUp(counters, n) {
      var key :| key in counters && counters[key].quota.Some? && counters[key].quota.value > 0
                 && n * Remaining(counters[key]) <= counters[key].quota.value;
      assert Share(counters[key]) in remaining;
    }
  }

  // ---------- The inactivity message ----------

  /** The time from which the message counts. */
  function QuietStart(row: Row): Option<Instant> {
    if row.lastAt.Some? then row.lastAt else row.continuousSince
  }

  /** The N of "at least N days", when the row has a time to count from. */
  function MessageDays(row: Row, now: Instant): Option<int> {
    if QuietStart(row).None? then None
    else
      var days := (now - QuietStart(row).value) / DAY;
      Some(if days < 2 then 2 else days)
  }

  /** No counted growth of the run from b on, nor its baseline, is more recent than the given number of days. */
  ghost predicate QuietFor(log: seq<Entry>, b: int, now: Instant, days: int, minimum: int) {
    && 0 <= b < |log| && log[b].counters != map[]
    && Latest(log[b].counters) + days * DAY <= now
    && forall i :: b < i < |log| && Counts(log[i], minimum) && log[i].counters != map[] ==> Latest(log[i].counters) + days * DAY <= now
  }

  lemma DaysElapsed(now: Instant, since: Instant)
    requires since <= now - WINDOW
    ensures (now - since) / DAY >= 2 && since + (now - since) / DAY * DAY <= now
  {
  }

  /** The days stated are those elapsed since the last counted growth, or since the baseline, without the floor of two. */
  ghost predicate Honest(row: Row, log: seq<Entry>, b: int, now: Instant, minimum: int) {
    && QuietStart(row).Some? && (now - QuietStart(row).value) / DAY >= 2
    && MessageDays(row, now) == Some((now - QuietStart(row).value) / DAY)
    && QuietFor(log, b, now, MessageDays(row, now).value, minimum)
  }

  /** The days stated to the customer never overstate the quiet time, and rest on at least 62 complete observations. */
  lemma MessageIsHonest(polls: seq<Poll>, minimum: int, order: OrderFacts, settings: Settings, now: Instant) returns (b: int)
    requires CandidateKind(History(polls, minimum).row, order, settings, now) == Some(Inactive48h)
    ensures Honest(History(polls, minimum).row, History(polls, minimum).log, b, now, minimum)
    ensures b + 62 < |History(polls, minimum).log|
  {
    RowSummarisesHistory(polls, minimum);
    InactiveKind(History(polls, minimum).row, order, settings, now);
    b := InactiveIsHonest(History(polls, minimum).row, History(polls, minimum).log, minimum, now);
  }

  lemma InactiveKind(row: Row, order: OrderFacts, settings: Settings, now: Instant)
    requires CandidateKind(row, order, settings, now) == Some(Inactive48h)
    ensures ActivityStatus(row, now) == IsInactive
  {
  }

  lemma InactiveIsHonest(row: Row, log: seq<Entry>, minimum: int, now: Instant) returns (b: int)
    requires WellLogged(log) && Summarises(row, log, minimum) && ActivityStatus(row, now) == IsInactive
    ensures Honest(row, log, b, now, minimum) && b + 62 < |log|
  {
    b := QuietAndLong(row, log, minimum, now);
    DaysQuiet(row, log, b, now, minimum);
  }

  lemma QuietAndLong(row: Row, log: seq<Entry>, minimum: int, now: Instant) returns (b: int)
    requires WellLogged(log) && Summarises(row, log, minimum) && ActivityStatus(row, now) == IsInactive
    ensures Current(log, now) && QuietSince(log, b, now, minimum) && b + 62 < |log|
  {
    InactiveInLog(row, log, minimum, now);
    b :| QuietSince(log, b, now, minimum);
    QuietIsLong(log, b, now, minimum);
  }

  lemma DaysQuiet(row: Row, log: seq<Entry>, b: int, now: Instant, minimum: int)
    requires WellLogged(log) && Summarises(row, log, minimum) && QuietSince(log, b, now, minimum)
    ensures QuietStart(row).Some?
    ensures (now - QuietStart(row).value) / DAY >= 2
    ensures QuietFor(log, b, now, (now - QuietStart(row).value) / DAY, minimum)
  {
    assert RunColumns(row, log, b, minimum);
    QuietColumns(row, log, b, now, minimum);
    var since := QuietStart(row).value;
    DaysElapsed(now, since);
    var c := LastCountedExists(log, b, |log|, minimum);
    if b < c {
      StartBeforeEnd(log, b, c);
      LatestIsMonotone(log, b, b, c);
    }
    forall i | b < i < |log| && Counts(log[i], minimum) && log[i].counters != map[]
      ensures Latest(log[i].counters) <= since
    {
      if i <= c {
        LatestIsMonotone(log, b, i, c);
      }
    }
  }

  // ---------- The message about an ended service ----------

  /** The time t is that of the end in the last stretch of ended entries, as the panels gave it or as it was first seen. */
  ghost predicate EndOfStretch(log: seq<Entry>, s: int, t: Instant) {
    && EndedSince(log, s)
    && ((NoKnownEnd(log, s) && t == log[s].at) || exists c :: LastKnownEnd(log, s, c) && log[c].ended == Some(t))
  }

  lemma {:induction false} KnownEndExists(log: seq<Entry>, s: int, n: int)
    requires 0 <= s <= n <= |log| && forall i :: n <= i < |log| ==> log[i].ended.None?
    ensures NoKnownEnd(log, s) || exists c :: LastKnownEnd(log, s, c)
    decreases n
  {
    if s < n {
      if log[n - 1].ended.Some? {
        assert LastKnownEnd(log, s, n - 1);
      } else {
        KnownEndExists(log, s, n - 1);
      }
    }
  }

  /** The message that a service has ended goes out only within the window after the end of a stretch that still lasts. */
  lemma EndedIsRecent(polls: seq<Poll>, minimum: int, order: OrderFacts, settings: Settings, now: Instant) returns (s: int, t: Instant)
    requires CandidateKind(History(polls, minimum).row, order, settings, now) == Some(EndedService)
    ensures EndOfStretch(History(polls, minimum).log, s, t) && now - WINDOW <= t <= now
  {
    RowSummarisesHistory(polls, minimum);
    var row, log := History(polls, minimum).row, History(polls, minimum).log;
    EndedKind(row, order, settings, now);
    s, t := EndedRowIsRecent(row, log, now);
  }

  lemma EndedKind(row: Row, order: OrderFacts, settings: Settings, now: Instant)
    requires CandidateKind(row, order, settings, now) == Some(EndedService)
    ensures row.endedAt.Some? && now - WINDOW <= row.endedAt.value <= now
  {
  }

  lemma EndedRowIsRecent(row: Row, log: seq<Entry>, now: Instant) returns (s: int, t: Instant)
    requires EndedColumn(row.endedAt, log) && row.endedAt.Some? && now - WINDOW <= row.endedAt.value <= now
    ensures EndOfStretch(log, s, t) && now - WINDOW <= t <= now
  {
    t := row.endedAt.value;
    s :| EndedSince(log, s);
    KnownEndExists(log, s, |log|);
  }
}
