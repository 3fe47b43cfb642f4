/** The fenced lease of the activity collector, with crashes and arbitrary clocks (customer_activity/services.py). */
module Lease {
  import opened Prelude

  const LEASE: int := 10 * MINUTE

  type Token = nat

  // The single lease row.
  datatype Row = Row(token: Option<Token>, until: Option<Instant>, heartbeatAt: Option<Instant>, completedAt: Option<Instant>, failed: bool)

  const NO_LEASE := Row(None, None, None, None, false)

  datatype Step =
    | Claim(token: Token, now: Instant)
    | Heartbeat(token: Token, now: Instant)
    | Record(token: Token, now: Instant)
    | Complete(token: Token, now: Instant)
    | Fail(token: Token)
    | Release(token: Token)

  // The row, the tokens ever drawn, and the steps that had an effect, in order. A crashed collector takes no more steps.
  datatype World = World(row: Row, drawn: set<Token>, effects: seq<Step>)

  const START := World(NO_LEASE, {}, [])

  /** The lease is free for a claimant whose clock reads now. */
  predicate Free(row: Row, now: Instant) {
    row.until.None? || row.until.value <= now
  }

  predicate HeldBy(row: Row, token: Token, now: Instant) {
    row.token == Some(token) && row.until.Some? && row.until.value > now
  }

  /** The condition of each update, as its filter or its guard states it. A claim draws a token never drawn before. */
  predicate Effective(w: World, s: Step) {
    match s
    case Claim(token, now) => token !in w.drawn && Free(w.row, now)
    case Heartbeat(token, now) => HeldBy(w.row, token, now)
    case Record(token, now) => HeldBy(w.row, token, now)
    case Complete(token, _) => w.row.token == Some(token)
    case Fail(token) => w.row.token == Some(token)
    case Release(token) => w.row.token == Some(token)
  }

  function Written(row: Row, s: Step): Row {
    match s
    case Claim(token, now) => row.(token := Some(token), until := Some(now + LEASE), heartbeatAt := Some(now))
    case Heartbeat(_, now) => row.(until := Some(now + LEASE), heartbeatAt := Some(now))
    case Record(_, _) => row
    case Complete(_, now) => row.(completedAt := Some(now), failed := false)
    case Fail(_) => row.(failed := true)
    case Release(_) => row.(until := None)
  }

  function Apply(w: World, s: Step): World {
    World(if Effective(w, s) then Written(w.row, s) else w.row,
          if s.Claim? then w.drawn + {s.token} else w.drawn,
          if Effective(w, s) then w.effects + [s] else w.effects)
  }

  ghost function Play(w: World, steps: seq<Step>): World {
    if steps == [] then w else Apply(Play(w, steps[..|steps| - 1]), steps[|steps| - 1])
  }

  // ---------- Fencing ----------

  /** Effect i is the first of its token's block. */
  ghost predicate Opens(effects: seq<Step>, i: int) {
    0 <= i < |effects| && (i > 0 ==> effects[i - 1].token != effects[i].token)
  }

  /** The effects of a token begin with its claim and follow one another without any other token's in between. */
  ghost predicate Blocks(effects: seq<Step>) {
    && (forall i, j, k :: 0 <= i <= j <= k < |effects| && effects[i].token == effects[k].token ==> effects[j].token == effects[i].token)
    && (forall i :: Opens(effects, i) ==> effects[i].Claim?)
  }

  ghost predicate Fenced(w: World) {
    && Blocks(w.effects)
    && (forall i :: 0 <= i < |w.effects| ==> w.effects[i].token in w.drawn)
    && (if w.effects == [] then w.row.token == None else w.row.token == Some(w.effects[|w.effects| - 1].token))
  }

  lemma FencedKept(w: World, s: Step)
    requires Fenced(w)
    ensures Fenced(Apply(w, s))
  {
    var w' := Apply(w, s);
    if Effective(w, s) {
      var n := |w.effects|;
      forall i, j, k | 0 <= i <= j <= k < |w'.effects| && w'.effects[i].token == w'.effects[k].token
        ensures w'.effects[j].token == w'.effects[i].token
      {
        if k == n && i < n {
          assert w.effects[i].token == w.effects[n - 1].token;
          assert j < n ==> w.effects[j].token == w.effects[i].token;
        }
      }
      forall i | Opens(w'.effects, i)
        ensures w'.effects[i].Claim?
      {
        if i < n {
          assert Opens(w.effects, i);
        }
      }
    }
  }

  lemma {:induction false} FencedAlways(steps: seq<Step>)
    ensures Fenced(Play(START, steps))
  {
    if steps != [] {
      FencedAlways(steps[..|steps| - 1]);
      FencedKept(Play(START, steps[..|steps| - 1]), steps[|steps| - 1]);
    }
  }

  /** In every run, the writes of a collector form one block that its claim opens. */
  lemma WritesFormBlocks(steps: seq<Step>, i: int, j: int, k: int)
    requires 0 <= i <= j <= k < |Play(START, steps).effects|
    requires Play(START, steps).effects[i].token == Play(START, steps).effects[k].token
    ensures Play(START, steps).effects[j].token == Play(START, steps).effects[i].token
  {
    FencedAlways(steps);
  }

  /** Once another token holds the row, no step of the old token has any effect, however many steps follow. */
  lemma {:induction false} OldTokenIsFenced(w: World, steps: seq<Step>, stale: Token)
    requires w.row.token != Some(stale) && stale in w.drawn
    ensures
      var w' := Play(w, steps);
      && w'.row.token != Some(stale) && stale in w'.drawn
      && |w.effects| <= |w'.effects| && w'.effects[..|w.effects|] == w.effects
      && forall i :: |w.effects| <= i < |w'.effects| ==> w'.effects[i].token != stale
  {
    if steps != [] {
      OldTokenIsFenced(w, steps[..|steps| - 1], stale);
    }
  }

  // ---------- Waiting ----------

  /** When the lease ends, by the steps that had an effect. */
  ghost function LeaseEnd(effects: seq<Step>): Option<Instant> {
    if effects == [] then None
    else
      match effects[|effects| - 1]
      case Claim(_, now) => Some(now + 10 * MINUTE)
      case Heartbeat(_, now) => Some(now + 10 * MINUTE)
      case Release(_) => None
      case _ => LeaseEnd(effects[..|effects| - 1])
  }

  /** A claim that had an effect read a clock at which the lease so far had ended or been released. */
  ghost predicate Waited(effects: seq<Step>, j: int)
    requires 0 <= j < |effects|
  {
    effects[j].Claim? ==> LeaseEnd(effects[..j]).None? || LeaseEnd(effects[..j]).value <= effects[j].now
  }

  /** The row says when the lease ends, and every claim has waited for it. */
  ghost predicate Timed(w: World) {
    w.row.until == LeaseEnd(w.effects) && forall j :: 0 <= j < |w.effects| ==> Waited(w.effects, j)
  }

  lemma TimedKept(w: World, s: Step)
    requires Timed(w)
    ensures Timed(Apply(w, s))
  {
    if Effective(w, s) {
      var after := w.effects + [s];
      assert after[..|w.effects|] == w.effects;
      forall j | 0 <= j < |after|
        ensures Waited(after, j)
      {
        if j < |w.effects| {
          assert after[..j] == w.effects[..j];
          assert Waited(w.effects, j);
        }
      }
    }
  }

  lemma {:induction false} TimedAlways(steps: seq<Step>)
    ensures Timed(Play(START, steps))
  {
    if steps != [] {
      TimedAlways(steps[..|steps| - 1]);
      TimedKept(Play(START, steps[..|steps| - 1]), steps[|steps| - 1]);
    }
  }

  lemma {:induction false} LeaseLasts(effects: seq<Step>, i: int, j: int)
    requires 0 <= i < j <= |effects| && (effects[i].Claim? || effects[i].Heartbeat?)
    requires forall k :: i < k < j ==> effects[k].Record? || effects[k].Complete? || effects[k].Fail?
    ensures LeaseEnd(effects[..j]) == Some(effects[i].now + 10 * MINUTE)
    decreases j
  {
    assert effects[..j][..j - 1] == effects[..j - 1];
    if i < j - 1 {
      LeaseLasts(effects, i, j - 1);
    }
  }

  /**
   * In every run, a claim that follows another collector's claim or heartbeat, with no release in between, reads a clock
   * that is at least ten minutes later.
   */
  lemma ClaimNeedsFreeLease(steps: seq<Step>, i: int, j: int)
    requires var effects := Play(START, steps).effects;
      && 0 <= i < j < |effects| && (effects[i].Claim? || effects[i].Heartbeat?) && effects[j].Claim?
      && forall k :: i < k < j ==> effects[k].Record? || effects[k].Complete? || effects[k].Fail?
    ensures Play(START, steps).effects[j].now >= Play(START, steps).effects[i].now + 10 * MINUTE
  {
    TimedAlways(steps);
    var effects := Play(START, steps).effects;
    LeaseLasts(effects, i, j);
    assert Waited(effects, j);
  }

  /** The collector whose steps had an effect last. */
  ghost function Holder(effects: seq<Step>): Option<Token> {
    if effects == [] then None else Some(effects[|effects| - 1].token)
  }

  /**
   * In every run, which steps have an effect, by the steps that had one before: a claim when the lease has ended, a heartbeat or a
   * record when its collector is the last and its lease still runs, anything else when its collector is the last.
   */
  lemma EffectsExactly(steps: seq<Step>, s: Step)
    ensures var w := Play(START, steps);
      var end := LeaseEnd(w.effects);
      Apply(w, s).effects == w.effects + [s] <==>
        match s
        case Claim(token, now) => token !in w.drawn && (end.None? || end.value <= now)
        case Heartbeat(token, now) => Holder(w.effects) == Some(token) && end.Some? && now < end.value
        case Record(token, now) => Holder(w.effects) == Some(token) && end.Some? && now < end.value
        case Complete(token, _) => Holder(w.effects) == Some(token)
        case Fail(token) => Holder(w.effects) == Some(token)
        case Release(token) => Holder(w.effects) == Some(token)
  {
    FencedAlways(steps);
    TimedAlways(steps);
    assert Effective(Play(START, steps), s) <==> Apply(Play(START, steps), s).effects == Play(START, steps).effects + [s];
  }

  /** The clock of the last claim or heartbeat. */
  ghost function LastBeat(effects: seq<Step>): Option<Instant> {
    if effects == [] then None
    else
      match effects[|effects| - 1]
      case Claim(_, now) => Some(now)
      case Heartbeat(_, now) => Some(now)
      case _ => LastBeat(effects[..|effects| - 1])
  }

  ghost function LastCompletion(effects: seq<Step>): Option<Instant> {
    if effects == [] then None
    else if effects[|effects| - 1].Complete? then Some(effects[|effects| - 1].now) else LastCompletion(effects[..|effects| - 1])
  }

  /** The last summary is that of a failure. */
  ghost predicate EndedInFailure(effects: seq<Step>) {
    effects != [] && !effects[|effects| - 1].Complete? && (effects[|effects| - 1].Fail? || EndedInFailure(effects[..|effects| - 1]))
  }

  ghost predicate Told(w: World) {
    w.row == Row(Holder(w.effects), LeaseEnd(w.effects), LastBeat(w.effects), LastCompletion(w.effects), EndedInFailure(w.effects))
  }

  lemma ToldKept(w: World, s: Step)
    requires Told(w)
    ensures Told(Apply(w, s))
  {
    if Effective(w, s) {
      assert (w.effects + [s])[..|w.effects|] == w.effects;
    }
  }

  /** In every run each column of the row is told by the steps that had an effect. */
  lemma {:induction false} RowIsTold(steps: seq<Step>)
    ensures Told(Play(START, steps))
  {
    if steps != [] {
      RowIsTold(steps[..|steps| - 1]);
      ToldKept(Play(START, steps[..|steps| - 1]), steps[|steps| - 1]);
    }
  }

  // ---------- The collector ----------

  // How a collection ends: it may also be ended by an exception that recording a purchase raises.
  datatype Ending = AlreadyRunning | Finished | LeaseLost | Raised

  /** Heartbeats at so many consecutive readings of the clock. */
  ghost function Beats(token: Token, clock: nat -> Instant, first: nat, n: nat): seq<Step> {
    if n == 0 then [] else Beats(token, clock, first, n - 1) + [Heartbeat(token, clock(first + n - 1))]
  }

  /** So many records, each with a heartbeat after it. */
  ghost function Rounds(token: Token, clock: nat -> Instant, first: nat, n: nat): seq<Step> {
    if n == 0 then []
    else Rounds(token, clock, first, n - 1) + [Record(token, clock(first + 2 * (n - 1))), Heartbeat(token, clock(first + 2 * (n - 1) + 1))]
  }

  /** The same, and then perhaps a record that comes too late, without a heartbeat. */
  ghost function Attempts(token: Token, clock: nat -> Instant, first: nat, n: nat, late: bool): seq<Step> {
    Rounds(token, clock, first, n) + if late then [Record(token, clock(first + 2 * n))] else []
  }

  ghost function Closing(token: Token, finished: bool, now: Instant): seq<Step> {
    [if finished then Complete(token, now) else Fail(token), Release(token)]
  }

  /** So many heartbeats and records, and the end: heartbeats are missing and records come too late only when the lease is lost. */
  ghost predicate ScriptOf(steps: seq<Step>, token: Token, panels: nat, purchases: nat, clock: nat -> Instant, ending: Ending, recorded: nat,
                           beats: nat, late: bool) {
    && steps == Beats(token, clock, 1, beats) + Attempts(token, clock, panels + 2, recorded, late)
                + Closing(token, ending == Finished, clock(panels + 2 * purchases + 4))
    && beats <= panels + 1 && (late ==> ending == LeaseLost)
    && (beats < panels + 1 ==> ending == LeaseLost && recorded == 0 && !late)
  }

  /** What a collection under its lease attempts, step by step. */
  ghost predicate Script(steps: seq<Step>, token: Token, panels: nat, purchases: nat, clock: nat -> Instant, ending: Ending, recorded: nat) {
    exists beats: nat, late: bool :: ScriptOf(steps, token, panels, purchases, clock, ending, recorded, beats, late)
  }

  lemma AttemptsStep(before: seq<Step>, token: Token, clock: nat -> Instant, first: nat, n: nat, written: bool)
    ensures before + Attempts(token, clock, first, n, false)
            + (if written then [Record(token, clock(first + 2 * n)), Heartbeat(token, clock(first + 2 * n + 1))] else [Record(token, clock(first + 2 * n))])
         == before + Attempts(token, clock, first, if written then n + 1 else n, !written)
  {
    var rounds := Rounds(token, clock, first, n);
    assert rounds + [] == rounds;
    if written {
      assert Rounds(token, clock, first, n + 1) + [] == Rounds(token, clock, first, n + 1);
    }
  }

  class ActivityCollector {
    var row: Row
    ghost var world: World
    ghost var path: seq<World>
    ghost var trace: seq<Step>

    /** The row is that of a run of the protocol. */
    ghost predicate Valid()
      reads this
    {
      world.row == row && Path(path, trace, world)
    }

    constructor ()
      ensures Valid() && trace == []
    {
      row, world, path, trace := NO_LEASE, START, [START], [];
    }

    /** One conditional update. */
    method Update(s: Step) returns (updated: bool)
      requires Valid() && (s.Claim? ==> s.token !in world.drawn)
      modifies this
      ensures Valid() && trace == old(trace) + [s] && world == Apply(old(world), s)
      ensures updated <==> Effective(old(world), s)
      ensures Adds(old(world.effects), world.effects, s.token, if updated && s.Record? then 1 else 0)
    {
      updated := match s
        case Claim(_, now) => Free(row, now)
        case Heartbeat(token, now) => HeldBy(row, token, now)
        case Record(token, now) => HeldBy(row, token, now)
        case Complete(token, _) => row.token == Some(token)
        case Fail(token) => row.token == Some(token)
        case Release(token) => row.token == Some(token);
      if updated {
        row := Written(row, s);
      }
      AddsOne(world.effects, s);
      world := Apply(world, s);
      PathExtends(path, trace, old(world), s);
      path, trace := path + [world], trace + [s];
    }

    /** The heartbeats while the panels are read. */
    method ReadPanels(token: Token, panels: nat, clock: nat -> Instant) returns (alive: bool, ghost beats: nat)
      requires Valid() && row.token == Some(token)
      modifies this
      ensures Valid() && row.token == Some(token) && row.completedAt == old(row.completedAt)
      ensures Adds(old(world.effects), world.effects, token, 0)
      ensures trace == old(trace) + Beats(token, clock, 1, beats) && beats <= panels + 1 && (alive ==> beats == panels + 1)
    {
      alive, beats := true, 0;
      ghost var before := world.effects;
      var i := 0;
      while alive && i < panels + 1
        invariant Valid() && row.token == Some(token) && row.completedAt == old(row.completedAt)
        invariant Adds(before, world.effects, token, 0)
        invariant trace == old(trace) + Beats(token, clock, 1, beats) && beats == i <= panels + 1
      {
        ghost var effects := world.effects;
        alive := Update(Heartbeat(token, clock(1 + i)));
        AddsJoin(before, effects, world.effects, token, 0, 0);
        i, beats := i + 1, beats + 1;
      }
    }

    /** One guarded write and the heartbeat after it. */
    method RecordOne(token: Token, now: Instant, later: Instant) returns (alive: bool, written: bool)
      requires Valid() && row.token == Some(token)
      modifies this
      ensures Valid() && row.token == Some(token) && row.completedAt == old(row.completedAt)
      ensures (written <==> HeldBy(old(row), token, now)) && (alive ==> written)
      ensures Adds(old(world.effects), world.effects, token, if written then 1 else 0)
      ensures trace == old(trace) + if written then [Record(token, now), Heartbeat(token, later)] else [Record(token, now)]
    {
      ghost var before := world.effects;
      written := Update(Record(token, now));
      alive := written;
      if written {
        ghost var effects := world.effects;
        alive := Update(Heartbeat(token, later));
        AddsJoin(before, effects, world.effects, token, 1, 0);
      }
    }

    /**
     * The guarded writes, one for each purchase, with a heartbeat after each. A purchase whose recording raises is rolled back
     * and ends the loop, and so does a lost lease.
     */
    method RecordAll(token: Token, first: nat, purchases: nat, raising: set<nat>, clock: nat -> Instant)
      returns (alive: bool, raised: bool, recorded: nat, ghost late: bool)
      requires Valid() && row.token == Some(token)
      modifies this
      ensures Valid() && row.token == Some(token) && row.completedAt == old(row.completedAt)
      ensures Adds(old(world.effects), world.effects, token, recorded)
      ensures recorded <= purchases && (forall i :: 0 <= i < recorded ==> i !in raising)
      ensures raised ==> alive && recorded < purchases && recorded in raising
      ensures alive && !raised ==> recorded == purchases
      ensures trace == old(trace) + Attempts(token, clock, first, recorded, late) && (late ==> !alive)
    {
      alive, raised, recorded, late := true, false, 0, false;
      ghost var before := world.effects;
      while alive && recorded < purchases
        invariant Valid() && row.token == Some(token) && row.completedAt == old(row.completedAt)
        invariant Adds(before, world.effects, token, recorded)
        invariant recorded <= purchases && forall i :: 0 <= i < recorded ==> i !in raising
        invariant trace == old(trace) + Attempts(token, clock, first, recorded, late) && (late ==> !alive)
      {
        var now, later := clock(first + 2 * recorded), clock(first + 2 * recorded + 1);
        if recorded in raising && HeldBy(row, token, now) {
          raised := true;
          return;
        }
        ghost var effects := world.effects;
        AttemptsStep(old(trace), token, clock, first, recorded, HeldBy(row, token, now));
        var written;
        alive, written := RecordOne(token, now, later);
        AddsJoin(before, effects, world.effects, token, recorded, if written then 1 else 0);
        late := !written;
        if written {
          recorded := recorded + 1;
        }
      }
    }

    /** One collection: claim, read the panels, record the purchases under the guard, complete; always release. */
    method CollectActivity(token: Token, panels: nat, purchases: nat, raising: set<nat>, clock: nat -> Instant) returns (ending: Ending, recorded: nat)
      requires Valid() && token !in world.drawn
      modifies this
      ensures Valid()
      ensures ending == AlreadyRunning <==> !Free(old(row), clock(0))
      ensures ending == AlreadyRunning ==> row == old(row) && recorded == 0 && trace == old(trace) + [Claim(token, clock(0))]
      ensures ending != AlreadyRunning ==> row.token == Some(token) && row.until == None
      ensures ending == Finished ==> recorded == purchases && row.completedAt.Some? && !row.failed
      ensures ending == LeaseLost || ending == Raised ==> row.failed && row.completedAt == old(row.completedAt)
      ensures ending == Raised ==> recorded < purchases && recorded in raising
      ensures recorded <= purchases && (forall i :: 0 <= i < recorded ==> i !in raising)
      ensures Adds(old(world.effects), world.effects, token, recorded)
      ensures ending != AlreadyRunning ==> old(world.effects) + [Claim(token, clock(0))] <= world.effects
      ensures ending != AlreadyRunning ==>
                exists steps :: trace == old(trace) + [Claim(token, clock(0))] + steps && Script(steps, token, panels, purchases, clock, ending, recorded)
    {
      recorded := 0;
      ghost var before := world.effects;
      var claimed := Update(Claim(token, clock(0)));
      if !claimed {
        return AlreadyRunning, 0;
      }
      ghost var start := world.effects;
      assert start == before + [Claim(token, clock(0))];
      ghost var steps;
      ending, recorded, steps := Collect(token, panels, purchases, raising, clock);
      AddsJoin(before, start, world.effects, token, 0, recorded);
    }

    /** The panels and the purchases. */
    method Work(token: Token, panels: nat, purchases: nat, raising: set<nat>, clock: nat -> Instant)
      returns (ending: Ending, recorded: nat, ghost beats: nat, ghost late: bool)
      requires Valid() && row.token == Some(token)
      modifies this
      ensures Valid() && row.token == Some(token) && row.completedAt == old(row.completedAt)
      ensures ending != AlreadyRunning && (ending == Finished ==> recorded == purchases)
      ensures ending == Raised ==> recorded < purchases && recorded in raising
      ensures recorded <= purchases && (forall i :: 0 <= i < recorded ==> i !in raising)
      ensures Adds(old(world.effects), world.effects, token, recorded)
      ensures trace == old(trace) + (Beats(token, clock, 1, beats) + Attempts(token, clock, panels + 2, recorded, late))
      ensures beats <= panels + 1 && (late ==> ending == LeaseLost)
      ensures beats < panels + 1 ==> ending == LeaseLost && recorded == 0 && !late
    {
      ghost var start := world.effects;
      recorded, late := 0, false;
      var alive, raised;
      alive, beats := ReadPanels(token, panels, clock);
      raised := false;
      ghost var effects := world.effects;
      if alive {
        alive, raised, recorded, late := RecordAll(token, panels + 2, purchases, raising, clock);
        AddsJoin(start, effects, world.effects, token, 0, recorded);
      }
      Regrouped(old(trace), Beats(token, clock, 1, beats), Attempts(token, clock, panels + 2, recorded, late));
      ending := if raised then Raised else if alive then Finished else LeaseLost;
    }

    /** A collection under its lease. */
    method Collect(token: Token, panels: nat, purchases: nat, raising: set<nat>, clock: nat -> Instant)
      returns (ending: Ending, recorded: nat, ghost steps: seq<Step>)
      requires Valid() && row.token == Some(token)
      modifies this
      ensures Valid() && row.token == Some(token) && row.until == None
      ensures ending != AlreadyRunning
      ensures ending == Finished ==> recorded == purchases && row.completedAt.Some? && !row.failed
      ensures ending == LeaseLost || ending == Raised ==> row.failed && row.completedAt == old(row.completedAt)
      ensures ending == Raised ==> recorded < purchases && recorded in raising
      ensures recorded <= purchases && (forall i :: 0 <= i < recorded ==> i !in raising)
      ensures Adds(old(world.effects), world.effects, token, recorded)
      ensures trace == old(trace) + steps && Script(steps, token, panels, purchases, clock, ending, recorded)
    {
      ghost var start := world.effects;
      ghost var beats, late;
      ending, recorded, beats, late := Work(token, panels, purchases, raising, clock);
      ghost var effects, done := world.effects, Beats(token, clock, 1, beats) + Attempts(token, clock, panels + 2, recorded, late);
      var now := clock(panels + 2 * purchases + 4);
      Conclude(token, ending == Finished, now);
      AddsJoin(start, effects, world.effects, token, recorded, 0);
      steps := done + Closing(token, ending == Finished, now);
      Regrouped(old(trace), done, Closing(token, ending == Finished, now));
      assert ScriptOf(steps, token, panels, purchases, clock, ending, recorded, beats, late);
    }

    /** The summary or the error, and the release in any case. */
    method Conclude(token: Token, finished: bool, now: Instant)
      requires Valid() && row.token == Some(token)
      modifies this
      ensures Valid() && row.token == Some(token) && row.until == None
      ensures if finished then row.completedAt == Some(now) && !row.failed else row.failed && row.completedAt == old(row.completedAt)
      ensures Adds(old(world.effects), world.effects, token, 0)
      ensures trace == old(trace) + Closing(token, finished, now)
    {
      ghost var before := world.effects;
      var noted := Update(if finished then Complete(token, now) else Fail(token));
      ghost var effects := world.effects;
      var released := Update(Release(token));
      AddsJoin(before, effects, world.effects, token, 0, 0);
    }
  }

  lemma Regrouped<T>(a: seq<T>, b: seq<T>, c: seq<T>)
    ensures a + b + c == a + (b + c) && a + b + [] == a + b
  {
  }

  /** The number of purchases recorded. */
  ghost function Writes(effects: seq<Step>): nat {
    if effects == [] then 0 else Writes(effects[..|effects| - 1]) + if effects[|effects| - 1].Record? then 1 else 0
  }

  /** Everything written since then was written by the token, and records that many purchases. */
  ghost predicate Adds(before: seq<Step>, after: seq<Step>, token: Token, writes: nat) {
    && before <= after && (forall i :: |before| <= i < |after| ==> after[i].token == token)
    && Writes(after) == Writes(before) + writes
  }

  lemma AddsJoin(a: seq<Step>, b: seq<Step>, c: seq<Step>, token: Token, first: nat, second: nat)
    requires Adds(a, b, token, first) && Adds(b, c, token, second)
    ensures Adds(a, c, token, first + second)
  {
  }

  lemma AddsOne(effects: seq<Step>, s: Step)
    ensures Adds(effects, effects + [s], s.token, if s.Record? then 1 else 0)
  {
    assert (effects + [s])[..|effects|] == effects;
  }

  /** The worlds passed through by a run that ends in the given one. */
  ghost predicate Path(path: seq<World>, trace: seq<Step>, end: World) {
    && |path| == |trace| + 1 && path[0] == START && path[|trace|] == end
    && forall i :: 0 <= i < |trace| ==> path[i + 1] == Apply(path[i], trace[i])
  }

  lemma PathExtends(path: seq<World>, trace: seq<Step>, w: World, s: Step)
    requires Path(path, trace, w)
    ensures Path(path + [Apply(w, s)], trace + [s], Apply(w, s))
  {
  }

  /** The run that an object records is a run of the protocol. */
  lemma {:induction false} PathIsPlay(path: seq<World>, trace: seq<Step>, end: World)
    requires Path(path, trace, end)
    ensures end == Play(START, trace)
    decreases |trace|
  {
    if trace != [] {
      PathIsPlay(path[..|trace|], trace[..|trace| - 1], path[|trace| - 1]);
    }
  }

  /** What holds of every run holds of the row that the collector leaves behind. */
  lemma CollectorIsFenced(collector: ActivityCollector)
    requires collector.Valid()
    ensures Fenced(collector.world) && collector.world.row == collector.row
    ensures Timed(collector.world)
  {
    PathIsPlay(collector.path, collector.trace, collector.world);
    FencedAlways(collector.trace);
    TimedAlways(collector.trace);
  }
}
