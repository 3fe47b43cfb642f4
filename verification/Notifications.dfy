/** Claim, send and release of the notifications about one order (store/admin_notifications.py). */
module Notifications {
  import opened Prelude

  // The two time stamps of an order that mark its notifications as claimed.
  datatype Field = AdminNotified | ReceiptNotified

  // The three entry points.
  datatype Entry = NewOrder | PaymentReceipt | NeedsReview

  // What is read of the order and of the bots when an entry point is called.
  datatype Facts = Facts(configured: bool, suppressed: bool, evidence: bool)

  datatype Row = Row(adminAt: Option<Instant>, receiptAt: Option<Instant>)

  function Stamp(row: Row, f: Field): Option<Instant> {
    if f == AdminNotified then row.adminAt else row.receiptAt
  }

  function WithStamp(row: Row, f: Field, at: Option<Instant>): Row {
    if f == AdminNotified then row.(adminAt := at) else row.(receiptAt := at)
  }

  /** The field that an entry point must claim. */
  function Primary(entry: Entry): Field {
    if entry == NewOrder then AdminNotified else ReceiptNotified
  }

  predicate MayClaim(row: Row, entry: Entry, facts: Facts) {
    facts.configured && !facts.suppressed && (entry == PaymentReceipt ==> facts.evidence) && Stamp(row, Primary(entry)).None?
  }

  /** A new order with evidence of payment also claims the receipt, if no one has. */
  function ClaimedFields(row: Row, entry: Entry, facts: Facts): set<Field> {
    {Primary(entry)} + if entry == NewOrder && facts.evidence && row.receiptAt.None? then {ReceiptNotified} else {}
  }

  function Claimed(row: Row, fields: set<Field>, now: Instant): Row {
    Row(if AdminNotified in fields then Some(now) else row.adminAt, if ReceiptNotified in fields then Some(now) else row.receiptAt)
  }

  /** The conditional update of a release: only a stamp with the claimant's time is cleared. */
  function Released(row: Row, f: Field, at: Instant): Row {
    if Stamp(row, f) == Some(at) then WithStamp(row, f, None) else row
  }

  // ---------- One caller ----------

  /** The bots that delivered. */
  ghost function Successes(delivered: seq<bool>): set<int> {
    set i | 0 <= i < |delivered| && delivered[i]
  }

  lemma OneMore(delivered: seq<bool>, i: nat)
    requires i < |delivered|
    ensures |Successes(delivered[..i + 1])| == |Successes(delivered[..i])| + if delivered[i] then 1 else 0
  {
    assert Successes(delivered[..i + 1]) == Successes(delivered[..i]) + if delivered[i] then {i} else {};
  }

  class OrderRow {
    var adminAt: Option<Instant>
    var receiptAt: Option<Instant>

    function Stamps(): Row
      reads this
    {
      Row(adminAt, receiptAt)
    }

    constructor ()
      ensures Stamps() == Row(None, None)
    {
      adminAt, receiptAt := None, None;
    }

    /** The locked section. */
    method ClaimNotification(entry: Entry, facts: Facts, now: Instant) returns (claimed: bool)
      modifies this
      ensures claimed <==> MayClaim(old(Stamps()), entry, facts)
      ensures Stamps() == if claimed then Claimed(old(Stamps()), ClaimedFields(old(Stamps()), entry, facts), now) else old(Stamps())
    {
      if !facts.configured || facts.suppressed || (entry == PaymentReceipt && !facts.evidence) {
        return false;
      }
      if entry == NewOrder {
        if adminAt.Some? {
          return false;
        }
        adminAt := Some(now);
        if facts.evidence && receiptAt.None? {
          receiptAt := Some(now);
        }
      } else {
        if receiptAt.Some? {
          return false;
        }
        receiptAt := Some(now);
      }
      return true;
    }

    /** Claims, tries every bot, and gives the claim back when none of them delivered; otherwise the claim stands. */
    method Notify(entry: Entry, facts: Facts, now: Instant, delivered: seq<bool>) returns (sent: nat)
      modifies this
      ensures sent == if MayClaim(old(Stamps()), entry, facts) then |Successes(delivered)| else 0
      ensures sent > 0 ==> Stamps() == Claimed(old(Stamps()), ClaimedFields(old(Stamps()), entry, facts), now)
      ensures sent == 0 ==> Stamps().adminAt == old(adminAt)
                            && (receiptAt == old(receiptAt) || (entry == NewOrder && old(receiptAt) == Some(now) && receiptAt == None && old(adminAt) == None))
    {
      var claimed := ClaimNotification(entry, facts, now);
      if !claimed {
        return 0;
      }
      sent := 0;
      ghost var stamps := Stamps();
      for i := 0 to |delivered|
        invariant Stamps() == stamps
        invariant sent == |Successes(delivered[..i])|
      {
        OneMore(delivered, i);
        if delivered[i] {
          sent := sent + 1;
        }
      }
      assert delivered[..|delivered|] == delivered;
      if sent == 0 {
        if entry == NewOrder {
          if adminAt == Some(now) {
            adminAt := None;
          }
          if receiptAt == Some(now) {
            receiptAt := None;
          }
        } else if receiptAt == Some(now) {
          receiptAt := None;
        }
      }
    }
  }

  // ---------- Concurrent callers ----------

  datatype Phase = Sending | Releasing

  // A caller between its claim and its end: the fields it claimed, with its time.
  datatype Flight = Flight(entry: Entry, at: Instant, fields: set<Field>, phase: Phase)

  // The row, the callers in flight, the notifications that were delivered, and the entry points and times of all claims.
  datatype World = World(row: Row, flights: map<nat, Flight>, delivered: seq<Flight>, claims: set<(Entry, Instant)>)

  datatype Step =
    | Claim(worker: nat, entry: Entry, facts: Facts, now: Instant)
    | Deliver(worker: nat)
    | Fail(worker: nat)
    | FinishRelease(worker: nat)
    | Crash(worker: nat)

  const START := World(Row(None, None), map[], [], {})

  function Apply(w: World, s: Step): World {
    match s
    case Claim(worker, entry, facts, now) =>
      if worker in w.flights || !MayClaim(w.row, entry, facts) then w
      else
        var fields := ClaimedFields(w.row, entry, facts);
        World(Claimed(w.row, fields, now), w.flights[worker := Flight(entry, now, fields, Sending)], w.delivered, w.claims + {(entry, now)})
    case Deliver(worker) =>
      if worker !in w.flights || w.flights[worker].phase != Sending then w
      else w.(flights := w.flights - {worker}, delivered := w.delivered + [w.flights[worker]])
    case Fail(worker) =>
      if worker !in w.flights || w.flights[worker].phase != Sending then w
      else
        var f := w.flights[worker];
        w.(row := Released(w.row, Primary(f.entry), f.at), flights := w.flights[worker := f.(phase := Releasing)])
    case FinishRelease(worker) =>
      if worker !in w.flights || w.flights[worker].phase != Releasing then w
      else
        var f := w.flights[worker];
        w.(row := if f.entry == NewOrder then Released(w.row, ReceiptNotified, f.at) else w.row, flights := w.flights - {worker})
    case Crash(worker) => w.(flights := w.flights - {worker})
  }

  ghost function Play(w: World, steps: seq<Step>): World {
    if steps == [] then w else Apply(Play(w, steps[..|steps| - 1]), steps[|steps| - 1])
  }

  // ---------- What a claim rests on ----------

  /** All that a claim needs, by the columns that the entry points read. */
  predicate Allowed(row: Row, entry: Entry, facts: Facts) {
    && facts.configured && !facts.suppressed
    && match entry
       case NewOrder => row.adminAt.None?
       case PaymentReceipt => facts.evidence && row.receiptAt.None?
       case NeedsReview => row.receiptAt.None?
  }

  /** Where it is allowed, a claim stamps its own field, and one for a new order that shows payment the free receipt as well. */
  lemma ClaimsExactly(w: World, worker: nat, entry: Entry, facts: Facts, now: Instant)
    requires worker !in w.flights
    ensures var w' := Apply(w, Claim(worker, entry, facts, now));
      if !Allowed(w.row, entry, facts) then w' == w
      else
        && w'.row.adminAt == (if entry == NewOrder then Some(now) else w.row.adminAt)
        && w'.row.receiptAt == (if entry != NewOrder || (facts.evidence && w.row.receiptAt.None?) then Some(now) else w.row.receiptAt)
        && worker in w'.flights && w'.flights[worker].entry == entry && w'.flights[worker].at == now && w'.flights[worker].phase == Sending
        && (AdminNotified in w'.flights[worker].fields <==> entry == NewOrder)
        && (ReceiptNotified in w'.flights[worker].fields <==> entry != NewOrder || (facts.evidence && w.row.receiptAt.None?))
  {
  }

  /** Step n of the run is the claim behind the flight, allowed at that moment. */
  ghost predicate ClaimedAt(steps: seq<Step>, n: int, f: Flight) {
    && 0 <= n < |steps| && steps[n].Claim? && steps[n].entry == f.entry && steps[n].now == f.at
    && Allowed(Play(START, steps[..n]).row, steps[n].entry, steps[n].facts)
  }

  lemma ClaimStays(steps: seq<Step>, n: int, f: Flight)
    requires steps != [] && ClaimedAt(steps[..|steps| - 1], n, f)
    ensures ClaimedAt(steps, n, f)
  {
    assert steps[..|steps| - 1][..n] == steps[..n];
  }

  /** The flight without its phase. */
  ghost predicate SameClaim(f: Flight, g: Flight) {
    f.entry == g.entry && f.at == g.at
  }

  lemma FlightsOfStep(w: World, s: Step, x: nat)
    requires x in Apply(w, s).flights
    ensures var f := Apply(w, s).flights[x];
      (x in w.flights && SameClaim(f, w.flights[x])) || (s.Claim? && s.entry == f.entry && s.now == f.at && Allowed(w.row, s.entry, s.facts))
  {
  }

  /** In every run, each sender made a claim that was allowed: none for an order that suppresses it, nor for a stamped field. */
  lemma {:induction false} SendersAreAllowed(steps: seq<Step>, x: nat)
    requires x in Play(START, steps).flights
    ensures exists n :: ClaimedAt(steps, n, Play(START, steps).flights[x])
    decreases |steps|
  {
    if steps != [] {
      var init, s := steps[..|steps| - 1], steps[|steps| - 1];
      var before, f := Play(START, init), Play(START, steps).flights[x];
      FlightsOfStep(before, s, x);
      if x in before.flights && SameClaim(f, before.flights[x]) {
        SendersAreAllowed(init, x);
        var n :| ClaimedAt(init, n, before.flights[x]);
        ClaimStays(steps, n, before.flights[x]);
        assert ClaimedAt(steps, n, f);
      } else {
        assert ClaimedAt(steps, |init|, f);
      }
    }
  }

  lemma DeliveriesOfStep(w: World, s: Step, i: nat)
    requires i < |Apply(w, s).delivered|
    ensures if i < |w.delivered| then Apply(w, s).delivered[i] == w.delivered[i]
            else s.Deliver? && s.worker in w.flights && Apply(w, s).delivered[i] == w.flights[s.worker]
  {
  }

  /** In every run, so did the sender of each delivered notification. */
  lemma {:induction false} DeliveriesAreAllowed(steps: seq<Step>, i: nat)
    requires i < |Play(START, steps).delivered|
    ensures exists n :: ClaimedAt(steps, n, Play(START, steps).delivered[i])
    decreases |steps|
  {
    if steps != [] {
      var init, s := steps[..|steps| - 1], steps[|steps| - 1];
      var before, f := Play(START, init), Play(START, steps).delivered[i];
      DeliveriesOfStep(before, s, i);
      if i < |before.delivered| {
        DeliveriesAreAllowed(init, i);
      } else {
        SendersAreAllowed(init, s.worker);
      }
      var n :| ClaimedAt(init, n, f);
      ClaimStays(steps, n, f);
    }
  }

  // ---------- Claims that read the same time ----------

  // Which entry points may read the same time: pairs of the earlier and the later claim.
  type Sharing = set<(Entry, Entry)>

  /** Two claims of a run read the same time only where their entry points may. */
  ghost predicate Shares(steps: seq<Step>, sharing: Sharing) {
    forall i, j :: 0 <= i < j < |steps| && steps[i].Claim? && steps[j].Claim? && steps[i].now == steps[j].now ==>
      (steps[i].entry, steps[j].entry) in sharing
  }

  /** No claim for a new order reads the time of another claim. */
  ghost predicate NewOrdersApart(sharing: Sharing) {
    forall pair :: pair in sharing ==> pair.0 != NewOrder && pair.1 != NewOrder
  }

  /** A sender or a delivered notification still has all the fields that it claimed. */
  ghost predicate Holds(row: Row, f: Flight) {
    Primary(f.entry) in f.fields && forall field :: field in f.fields ==> Stamp(row, field) == Some(f.at)
  }

  /** A claim at this time by this entry point keeps claims for new orders apart from all others. */
  ghost predicate Apart(w: World, entry: Entry, now: Instant) {
    forall c :: c in w.claims && c.1 == now ==> entry != NewOrder && c.0 != NewOrder
  }

  ghost predicate Recorded(w: World) {
    && (forall x :: x in w.flights ==> (w.flights[x].entry, w.flights[x].at) in w.claims)
    && (forall i :: 0 <= i < |w.delivered| ==> (w.delivered[i].entry, w.delivered[i].at) in w.claims)
  }

  /** Senders and delivered notifications hold their fields, and share none. */
  ghost predicate Holding(w: World) {
    && (forall x :: x in w.flights && w.flights[x].phase == Sending ==> Holds(w.row, w.flights[x]))
    && (forall i :: 0 <= i < |w.delivered| ==> Holds(w.row, w.delivered[i]))
    && (forall x, y :: x in w.flights && y in w.flights && x != y && w.flights[x].phase == Sending && w.flights[y].phase == Sending ==>
          w.flights[x].fields !! w.flights[y].fields)
    && (forall i, x :: 0 <= i < |w.delivered| && x in w.flights && w.flights[x].phase == Sending ==>
          w.delivered[i].fields !! w.flights[x].fields)
    && (forall i, j :: 0 <= i < j < |w.delivered| ==> w.delivered[i].fields !! w.delivered[j].fields)
  }

  /** No one else has the time of a caller for a new order. */
  ghost predicate Separate(w: World) {
    && (forall x, y :: x in w.flights && y in w.flights && x != y && w.flights[x].entry == NewOrder ==> w.flights[x].at != w.flights[y].at)
    && (forall i, x :: 0 <= i < |w.delivered| && x in w.flights && w.flights[x].entry == NewOrder ==> w.delivered[i].at != w.flights[x].at)
  }

  /** Where a caller for a new order is involved, times are not shared, not even with what was delivered before. */
  ghost predicate Safe(w: World) {
    Recorded(w) && Holding(w) && Separate(w)
  }

  lemma RecordedKept(w: World, s: Step)
    requires Recorded(w)
    ensures Recorded(Apply(w, s))
  {
  }

  lemma SeparateKept(w: World, s: Step)
    requires Recorded(w) && Separate(w) && (s.Claim? ==> Apart(w, s.entry, s.now))
    ensures Separate(Apply(w, s))
  {
  }

  /** A claim takes only fields that no one holds. */
  lemma ClaimKeepsHolding(w: World, s: Step)
    requires Holding(w) && s.Claim?
    ensures Holding(Apply(w, s))
  {
  }

  /** A release clears only a stamp that no sender and no delivered notification holds. */
  lemma HoldingKept(w: World, s: Step)
    requires Holding(w) && Separate(w) && !s.Claim?
    ensures Holding(Apply(w, s))
  {
    match s
    case Deliver(worker) => DeliverKeepsHolding(w, worker);
    case Fail(worker) => FailKeepsHolding(w, worker);
    case FinishRelease(worker) => ReleaseKeepsHolding(w, worker);
    case Crash(worker) =>
  }

  lemma DeliverKeepsHolding(w: World, worker: nat)
    requires Holding(w)
    ensures Holding(Apply(w, Deliver(worker)))
  {
  }

  lemma FailKeepsHolding(w: World, worker: nat)
    requires Holding(w)
    ensures Holding(Apply(w, Fail(worker)))
  {
  }

  lemma ReleaseKeepsHolding(w: World, worker: nat)
    requires Holding(w) && Separate(w)
    ensures Holding(Apply(w, FinishRelease(worker)))
  {
  }

  lemma SafeKept(w: World, s: Step)
    requires Safe(w) && (s.Claim? ==> Apart(w, s.entry, s.now))
    ensures Safe(Apply(w, s))
  {
    RecordedKept(w, s);
    SeparateKept(w, s);
    if s.Claim? {
      ClaimKeepsHolding(w, s);
    } else {
      HoldingKept(w, s);
    }
  }

  /** The claims of a world are those of the steps that led to it. */
  ghost predicate ClaimedBy(w: World, steps: seq<Step>) {
    forall c :: c in w.claims ==> exists i :: 0 <= i < |steps| && steps[i].Claim? && (steps[i].entry, steps[i].now) == c
  }

  lemma {:induction false} ClaimedByAlways(steps: seq<Step>)
    ensures ClaimedBy(Play(START, steps), steps)
  {
    if steps != [] {
      var init := steps[..|steps| - 1];
      ClaimedByAlways(init);
      forall c | c in Play(START, steps).claims
        ensures exists i :: 0 <= i < |steps| && steps[i].Claim? && (steps[i].entry, steps[i].now) == c
      {
        if c in Play(START, init).claims {
          var i :| 0 <= i < |init| && init[i].Claim? && (init[i].entry, init[i].now) == c;
          assert steps[i] == init[i];
        } else {
          assert steps[|steps| - 1].Claim?;
        }
      }
    }
  }

  /** In every run that keeps claims for new orders apart, senders and delivered notifications hold their fields and share none. */
  lemma {:induction false} SafeAlways(steps: seq<Step>, sharing: Sharing)
    requires Shares(steps, sharing) && NewOrdersApart(sharing)
    ensures Safe(Play(START, steps))
  {
    if steps != [] {
      var init, s := steps[..|steps| - 1], steps[|steps| - 1];
      SafeAlways(init, sharing);
      ClaimedByAlways(init);
      forall c | s.Claim? && c in Play(START, init).claims && c.1 == s.now
        ensures s.entry != NewOrder && c.0 != NewOrder
      {
        var i :| 0 <= i < |init| && init[i].Claim? && (init[i].entry, init[i].now) == c;
        assert steps[i] == init[i];
        assert (steps[i].entry, s.entry) in sharing;
      }
      SafeKept(Play(START, init), s);
    }
  }

  /** No field is notified twice in the run. */
  ghost predicate NotifiesOnce(steps: seq<Step>) {
    var delivered := Play(START, steps).delivered;
    forall i, j :: 0 <= i < j < |delivered| ==> delivered[i].fields !! delivered[j].fields
  }

  /** Unless a claim for a new order shares its time, no field is notified twice, whichever entry points race. */
  lemma AtMostOnePerField(steps: seq<Step>, sharing: Sharing)
    requires Shares(steps, sharing) && NewOrdersApart(sharing)
    ensures NotifiesOnce(steps)
  {
    SafeAlways(steps, sharing);
  }

  /** Unless a claim for a new order shares its time, a failed sender's release leaves every other claim in place. */
  lemma ReleaseClearsOnlyItsOwn(steps: seq<Step>, sharing: Sharing, s: Step, x: nat)
    requires Shares(steps, sharing) && NewOrdersApart(sharing) && (s.Fail? || s.FinishRelease?) && s.worker != x
    requires x in Play(START, steps).flights && Play(START, steps).flights[x].phase == Sending
    ensures Holds(Apply(Play(START, steps), s).row, Play(START, steps).flights[x])
  {
    SafeAlways(steps, sharing);
    SafeKept(Play(START, steps), s);
  }

  // ---------- Claims for new orders that share their time ----------

  const PAID := Facts(true, false, true)
  const UNPAID := Facts(true, false, false)

  /** A claim by a receipt or a review, then one for a new order at the same time, which fails and clears the receipt. */
  function ThenNewOrder(entry: Entry): seq<Step> {
    [Claim(1, entry, PAID, 5), Claim(2, NewOrder, PAID, 5), Fail(2), FinishRelease(2), Claim(3, NeedsReview, PAID, 6), Deliver(3), Deliver(1)]
  }

  /** A failing claim for a new order without payment, then a claim at the same time before the release has ended. */
  function AfterNewOrder(entry: Entry): seq<Step> {
    [Claim(1, NewOrder, UNPAID, 5), Fail(1), Claim(2, entry, PAID, 5), FinishRelease(1), Claim(3, NeedsReview, PAID, 6), Deliver(3), Deliver(2)]
  }

  /** What each step carries over to the next place of a run holds at every place. */
  lemma {:induction false} HoldsAlong(steps: seq<Step>, holds: (nat, World) -> bool, n: nat)
    requires n <= |steps| && holds(0, START)
    requires forall k: nat, w :: k < |steps| && holds(k, w) ==> holds(k + 1, Apply(w, steps[k]))
    ensures holds(n, Play(START, steps[..n]))
  {
    if n > 0 {
      HoldsAlong(steps, holds, n - 1);
      assert steps[..n][..n - 1] == steps[..n - 1];
    }
  }

  const REVIEW := Flight(NeedsReview, 6, {ReceiptNotified}, Sending)

  function Sender(entry: Entry, fields: set<Field>): Flight {
    Flight(entry, 5, fields, Sending)
  }

  function NewOrderSender(phase: Phase): Flight {
    Flight(NewOrder, 5, {AdminNotified}, phase)
  }

  /** Nothing is delivered, one caller is sending, and the receipt that it claimed is no longer stamped. */
  ghost predicate Lost(w: World, worker: nat, f: Flight) {
    w.row.receiptAt == None && w.flights == map[worker := f] && w.delivered == [] && f.phase == Sending && ReceiptNotified in f.fields
  }

  /** From there on: a review claims the receipt that the caller has lost, and both deliver. */
  ghost predicate AfterLoss(n: nat, w: World, worker: nat, f: Flight) {
    match n
    case 0 => Lost(w, worker, f)
    case 1 => w.flights == map[worker := f, 3 := REVIEW] && w.delivered == []
    case 2 => w.flights == map[worker := f] && w.delivered == [REVIEW]
    case _ => w.delivered == [REVIEW, f]
  }

  lemma LossIsReviewed(w: World, worker: nat, f: Flight)
    requires Lost(w, worker, f) && worker != 3
    ensures AfterLoss(1, Apply(w, Claim(3, NeedsReview, PAID, 6)), worker, f)
  {
    assert ClaimedFields(w.row, NeedsReview, PAID) == {ReceiptNotified};
  }

  lemma BothDeliver(w: World, worker: nat, f: Flight)
    requires worker != 3 && f.phase == Sending
    ensures AfterLoss(1, w, worker, f) ==> AfterLoss(2, Apply(w, Deliver(3)), worker, f)
    ensures AfterLoss(2, w, worker, f) ==> AfterLoss(3, Apply(w, Deliver(worker)), worker, f)
  {
  }

  lemma TwiceNotified(steps: seq<Step>, f: Flight)
    requires Play(START, steps).delivered == [REVIEW, f] && ReceiptNotified in f.fields
    ensures !NotifiesOnce(steps)
  {
    var delivered := Play(START, steps).delivered;
    assert delivered[0] == REVIEW && delivered[1] == f;
    assert ReceiptNotified in delivered[0].fields && ReceiptNotified in delivered[1].fields;
  }

  /** What the first run has led to after n steps. */
  ghost predicate ThenReached(entry: Entry, n: nat, w: World) {
    var first := Sender(entry, {ReceiptNotified});
    match n
    case 0 => w == START
    case 1 => w.row == Row(None, Some(5)) && w.flights == map[1 := first] && w.delivered == []
    case 2 => w.row == Row(Some(5), Some(5)) && w.flights == map[1 := first, 2 := NewOrderSender(Sending)] && w.delivered == []
    case 3 => w.row == Row(None, Some(5)) && w.flights == map[1 := first, 2 := NewOrderSender(Releasing)] && w.delivered == []
    case _ => AfterLoss(n - 4, w, 1, first)
  }

  lemma ThenNext(entry: Entry, n: nat, w: World)
    requires entry != NewOrder && n < 7 && ThenReached(entry, n, w)
    ensures ThenReached(entry, n + 1, Apply(w, ThenNewOrder(entry)[n]))
  {
    var first := Sender(entry, {ReceiptNotified});
    match n
    case 0 => assert ClaimedFields(START.row, entry, PAID) == {ReceiptNotified};
    case 1 => assert ClaimedFields(w.row, NewOrder, PAID) == {AdminNotified};
    case 2 =>
    case 3 =>
    case 4 => LossIsReviewed(w, 1, first);
    case _ => BothDeliver(w, 1, first);
  }

  /** The receipt is notified twice, by a review at the later time and by the caller whose claim was cleared. */
  lemma ThenNewOrderNotifiesTwice(entry: Entry)
    requires entry != NewOrder
    ensures Shares(ThenNewOrder(entry), {(entry, NewOrder)}) && !NotifiesOnce(ThenNewOrder(entry))
  {
    var steps, reached := ThenNewOrder(entry), (n: nat, w: World) => ThenReached(entry, n, w);
    forall n: nat, w | n < |steps| && reached(n, w)
      ensures reached(n + 1, Apply(w, steps[n]))
    {
      ThenNext(entry, n, w);
    }
    HoldsAlong(steps, reached, 7);
    assert steps[..7] == steps && reached(7, Play(START, steps));
    TwiceNotified(steps, Sender(entry, {ReceiptNotified}));
  }

  function SecondSender(entry: Entry): Flight {
    Sender(entry, ClaimedFields(Row(None, None), entry, PAID))
  }

  /** What the second run has led to after n steps. */
  ghost predicate AfterReached(entry: Entry, n: nat, w: World) {
    var second := SecondSender(entry);
    match n
    case 0 => w == START
    case 1 => w.row == Row(Some(5), None) && w.flights == map[1 := NewOrderSender(Sending)] && w.delivered == []
    case 2 => w.row == Row(None, None) && w.flights == map[1 := NewOrderSender(Releasing)] && w.delivered == []
    case 3 => w.row.receiptAt == Some(5) && w.flights == map[1 := NewOrderSender(Releasing), 2 := second] && w.delivered == []
    case _ => AfterLoss(n - 4, w, 2, second)
  }

  lemma AfterNext(entry: Entry, n: nat, w: World)
    requires n < 7 && AfterReached(entry, n, w)
    ensures AfterReached(entry, n + 1, Apply(w, AfterNewOrder(entry)[n]))
  {
    var second := SecondSender(entry);
    match n
    case 0 => assert ClaimedFields(START.row, NewOrder, UNPAID) == {AdminNotified};
    case 1 =>
    case 2 =>
    case 3 => assert ReceiptNotified in second.fields;
    case 4 => LossIsReviewed(w, 2, second);
    case _ => BothDeliver(w, 2, second);
  }

  lemma AfterNewOrderNotifiesTwice(entry: Entry)
    ensures Shares(AfterNewOrder(entry), {(NewOrder, entry)}) && !NotifiesOnce(AfterNewOrder(entry))
  {
    var steps, reached := AfterNewOrder(entry), (n: nat, w: World) => AfterReached(entry, n, w);
    forall n: nat, w | n < |steps| && reached(n, w)
      ensures reached(n + 1, Apply(w, steps[n]))
    {
      AfterNext(entry, n, w);
    }
    HoldsAlong(steps, reached, 7);
    assert steps[..7] == steps && reached(7, Play(START, steps));
    assert ReceiptNotified in SecondSender(entry).fields;
    TwiceNotified(steps, SecondSender(entry));
  }

  /**
   * Which entry points may read the same time: no field is notified twice in any such run if and only if
   * claims for new orders share their time with no others.
   */
  lemma NotifiesOnceExactly(sharing: Sharing)
    ensures (forall steps :: Shares(steps, sharing) ==> NotifiesOnce(steps)) <==> NewOrdersApart(sharing)
  {
    if NewOrdersApart(sharing) {
      forall steps | Shares(steps, sharing)
        ensures NotifiesOnce(steps)
      {
        AtMostOnePerField(steps, sharing);
      }
    } else {
      var pair :| pair in sharing && !(pair.0 != NewOrder && pair.1 != NewOrder);
      if pair.0 == NewOrder {
        AfterNewOrderNotifiesTwice(pair.1);
        assert Shares(AfterNewOrder(pair.1), sharing);
      } else {
        ThenNewOrderNotifiesTwice(pair.0);
        assert Shares(ThenNewOrder(pair.0), sharing);
      }
    }
  }
}
