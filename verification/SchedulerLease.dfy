/**
 modules/darkweb/scheduler.py: N workers compete for one lock row.

 A worker claims the row with one conditional UPDATE, using a clock reading it
 took earlier; a lock older than `stale` counts as abandoned; a release clears
 the row only if it still carries the worker's own name. All workers read one
 nondecreasing clock. Each step is one database statement or one clock reading.
 */
module SchedulerLease {
  import opened Prelude

  type Worker = nat

  datatype Row = Row(lockedAt: Option<real>, lockedBy: Option<Worker>)

  /** Where a worker stands in `run_scheduled_scan`; the reading is the one its own claim used. */
  datatype Phase =
    | Idle
    | RowMissing
    | RowPresent
    | Claiming(reading: real)
    | Sweeping(reading: real)
    | Releasing(reading: real)
    | Dead

  datatype System = System(row: Option<Row>, workers: seq<Phase>, clock: real)

  datatype Event =
    | Tick(dt: real)
    | Look(w: Worker)
    | Insert(w: Worker)
    | ReadClock(w: Worker)
    | Claim(w: Worker)
    | EndSweep(w: Worker)
    | Release(w: Worker)
    | ReleaseFails(w: Worker)
    | Crash(w: Worker)

  // ----- The two UPDATE statements -----

  /** The WHERE clause of the claim: nobody holds the row, or the holder is too old. */
  predicate Claimable(row: Row, reading: real, stale: real) {
    row.lockedAt.None? || row.lockedAt.value < reading - stale
  }

  function Claimed(row: Row, w: Worker, reading: real, stale: real): Row {
    if Claimable(row, reading, stale) then Row(Some(reading), Some(w)) else row
  }

  function Released(row: Row, w: Worker): Row {
    if row.lockedBy == Some(w) then Row(None, None) else row
  }

  // ----- Steps -----

  predicate Enabled(s: System, e: Event) {
    match e
    case Tick(dt) => dt >= 0.0
    case Look(w) => w < |s.workers| && s.workers[w].Idle?
    case Insert(w) => w < |s.workers| && s.workers[w].RowMissing?
    case ReadClock(w) => w < |s.workers| && s.workers[w].RowPresent?
    case Claim(w) => w < |s.workers| && s.workers[w].Claiming? && s.row.Some?
    case EndSweep(w) => w < |s.workers| && s.workers[w].Sweeping?
    case Release(w) => w < |s.workers| && s.workers[w].Releasing? && s.row.Some?
    case ReleaseFails(w) => w < |s.workers| && s.workers[w].Releasing?
    case Crash(w) => w < |s.workers|
  }

  function Next(s: System, stale: real, e: Event): System
    requires Enabled(s, e)
  {
    match e
    case Tick(dt) => s.(clock := s.clock + dt)
    case Look(w) => s.(workers := s.workers[w := if s.row.None? then RowMissing else RowPresent])
    case Insert(w) => // a second INSERT of the same job violates the primary key and ends the run
      if s.row.None? then s.(row := Some(Row(None, None)), workers := s.workers[w := RowPresent])
      else s.(workers := s.workers[w := Idle])
    case ReadClock(w) => s.(workers := s.workers[w := Claiming(s.clock)])
    case Claim(w) =>
      var reading := s.workers[w].reading;
      s.(row := Some(Claimed(s.row.value, w, reading, stale)),
         workers := s.workers[w := if Claimable(s.row.value, reading, stale) then Sweeping(reading) else Idle])
    case EndSweep(w) => s.(workers := s.workers[w := Releasing(s.workers[w].reading)])
    case Release(w) => s.(row := Some(Released(s.row.value, w)), workers := s.workers[w := Idle])
    case ReleaseFails(w) => s.(workers := s.workers[w := Idle])
    case Crash(w) => s.(workers := s.workers[w := Dead])
  }

  function Start(n: nat, row: Option<Row>, clock: real): System {
    System(row, seq(n, i => Idle), clock)
  }

  ghost predicate RunOk(s: System, stale: real, events: seq<Event>)
    decreases |events|
  {
    events != [] ==> Enabled(s, events[0]) && RunOk(Next(s, stale, events[0]), stale, events[1..])
  }

  function Run(s: System, stale: real, events: seq<Event>): System
    requires RunOk(s, stale, events)
    decreases |events|
  {
    if events == [] then s else Run(Next(s, stale, events[0]), stale, events[1..])
  }

  // ----- What holds whatever the timing -----

  /** Holds whatever is assumed about how long sweeps take. */
  ghost predicate Inv(s: System) {
    && (s.row.Some? ==>
          && (s.row.value.lockedAt.Some? <==> s.row.value.lockedBy.Some?)
          && (s.row.value.lockedAt.Some? ==> s.row.value.lockedAt.value <= s.clock))
    && forall w: Worker | w < |s.workers| ::
         && (s.workers[w].Claiming? || s.workers[w].Sweeping? || s.workers[w].Releasing? ==>
               s.row.Some? && s.workers[w].reading <= s.clock)
         && (s.workers[w].RowPresent? ==> s.row.Some?)
         && ((s.workers[w].Sweeping? || s.workers[w].Releasing?) && s.row.value.lockedBy == Some(w) ==>
               s.row.value.lockedAt == Some(s.workers[w].reading))
  }

  lemma StepKeepsInv(s: System, stale: real, e: Event)
    requires Inv(s) && Enabled(s, e)
    ensures Inv(Next(s, stale, e))
  {
  }

  lemma {:induction false} RunKeepsInv(s: System, stale: real, events: seq<Event>)
    requires Inv(s) && RunOk(s, stale, events)
    ensures Inv(Run(s, stale, events))
    decreases |events|
  {
    hide Inv, Next, Enabled;
    if events != [] {
      StepKeepsInv(s, stale, events[0]);
      RunKeepsInv(Next(s, stale, events[0]), stale, events[1..]);
    }
  }

  /** A release never clears a lock another worker has reclaimed: it clears the row exactly if that is still the claim the releaser made. */
  lemma ReleaseOnlyOwnClaim(s: System, stale: real, w: Worker)
    requires Inv(s) && Enabled(s, Release(w))
    ensures var after := Next(s, stale, Release(w)).row;
            && (s.row == Some(Row(Some(s.workers[w].reading), Some(w))) ==> after == Some(Row(None, None)))
            && (s.row != Some(Row(Some(s.workers[w].reading), Some(w))) ==> after == s.row)
    ensures Next(s, stale, Release(w)).workers == s.workers[w := Idle]
  {
  }

  // ----- Mutual exclusion -----

  /** No sweep has outlived `stale`, counted from the clock reading its own claim used. */
  ghost predicate Timely(s: System, stale: real) {
    forall w: Worker | w < |s.workers| && s.workers[w].Sweeping? :: s.clock <= s.workers[w].reading + stale
  }

  /** Timely in every state of the run. */
  ghost predicate AlwaysTimely(s: System, stale: real, events: seq<Event>)
    requires RunOk(s, stale, events)
    decreases |events|
  {
    Timely(s, stale) && (events != [] ==> AlwaysTimely(Next(s, stale, events[0]), stale, events[1..]))
  }

  /** Whoever is sweeping owns the row, with the reading it claimed at. */
  ghost predicate SweeperOwnsRow(s: System) {
    forall w: Worker | w < |s.workers| && s.workers[w].Sweeping? ::
      s.row == Some(Row(Some(s.workers[w].reading), Some(w)))
  }

  lemma StepKeepsOwnership(s: System, stale: real, e: Event)
    requires Inv(s) && Enabled(s, e) && SweeperOwnsRow(s) && Timely(s, stale)
    ensures SweeperOwnsRow(Next(s, stale, e))
  {
  }

  lemma {:induction false} RunKeepsOwnership(s: System, stale: real, events: seq<Event>)
    requires Inv(s) && SweeperOwnsRow(s) && RunOk(s, stale, events) && AlwaysTimely(s, stale, events)
    ensures SweeperOwnsRow(Run(s, stale, events))
    decreases |events|
  {
    hide Inv, Next, Enabled, SweeperOwnsRow, Timely;
    if events != [] {
      StepKeepsInv(s, stale, events[0]);
      StepKeepsOwnership(s, stale, events[0]);
      RunKeepsOwnership(Next(s, stale, events[0]), stale, events[1..]);
    }
  }

  /** Main result: as long as every sweep ends in time, no two workers are ever in the sweep together. */
  lemma NoTwoSweepers(n: nat, row: Option<Row>, clock: real, stale: real, events: seq<Event>, v: Worker, w: Worker)
    requires Inv(Start(n, row, clock)) && RunOk(Start(n, row, clock), stale, events)
    requires AlwaysTimely(Start(n, row, clock), stale, events)
    requires var s := Run(Start(n, row, clock), stale, events);
             v < |s.workers| && w < |s.workers| && s.workers[v].Sweeping? && s.workers[w].Sweeping?
    ensures v == w
  {
    RunKeepsOwnership(Start(n, row, clock), stale, events);
  }

  /**
   Exactly when a worker in the sweep can be overtaken: while it still owns the row, another
   worker's claim succeeds if and only if that worker read the clock after the sweep's time was up.
   */
  lemma OvertakenExactlyWhenLate(s: System, stale: real, sweeper: Worker, other: Worker)
    requires Inv(s) && sweeper < |s.workers| && sweeper != other && s.workers[sweeper].Sweeping?
    requires s.row == Some(Row(Some(s.workers[sweeper].reading), Some(sweeper)))
    requires Enabled(s, Claim(other))
    ensures Next(s, stale, Claim(other)).workers[other].Sweeping?
            <==> s.workers[other].reading > s.workers[sweeper].reading + stale
    ensures s.workers[other].reading > s.workers[sweeper].reading + stale ==> !Timely(s, stale)
  {
  }

  /** Without the assumption two workers do sweep together: worker 0 outlives its two units, worker 1 reclaims. */
  lemma OverstayedSweepOverlaps()
    ensures var start := Start(2, Some(Row(None, None)), 0.0);
            var events := [Look(0), ReadClock(0), Claim(0), Tick(3.0), Look(1), ReadClock(1), Claim(1)];
            && RunOk(start, 2.0, events)
            && Run(start, 2.0, events).workers == [Sweeping(0.0), Sweeping(3.0)]
            && !AlwaysTimely(start, 2.0, events)
  {
    hide RunOk, Run, AlwaysTimely;
    var s0 := Start(2, Some(Row(None, None)), 0.0);
    var s1 := Next(s0, 2.0, Look(0));
    var s2 := Next(s1, 2.0, ReadClock(0));
    var s3 := Next(s2, 2.0, Claim(0));
    var s4 := Next(s3, 2.0, Tick(3.0));
    var s5 := Next(s4, 2.0, Look(1));
    var s6 := Next(s5, 2.0, ReadClock(1));
    var s7 := Next(s6, 2.0, Claim(1));
    assert s4.workers[0] == Sweeping(0.0) && !Timely(s4, 2.0);
    assert s7.workers == [Sweeping(0.0), Sweeping(3.0)];
    RunNothing(s7, 2.0);
    Unroll(s6, 2.0, Claim(1), []);
    Unroll(s5, 2.0, ReadClock(1), [Claim(1)] + []);
    Unroll(s4, 2.0, Look(1), [ReadClock(1)] + ([Claim(1)] + []));
    var tail := [Look(1)] + ([ReadClock(1)] + ([Claim(1)] + []));
    Unroll(s3, 2.0, Tick(3.0), tail);
    Unroll(s2, 2.0, Claim(0), [Tick(3.0)] + tail);
    Unroll(s1, 2.0, ReadClock(0), [Claim(0)] + ([Tick(3.0)] + tail));
    Unroll(s0, 2.0, Look(0), [ReadClock(0)] + ([Claim(0)] + ([Tick(3.0)] + tail)));
    assert [Look(0), ReadClock(0), Claim(0), Tick(3.0), Look(1), ReadClock(1), Claim(1)]
        == [Look(0)] + ([ReadClock(0)] + ([Claim(0)] + ([Tick(3.0)] + tail)));
  }

  lemma RunNothing(s: System, stale: real)
    ensures RunOk(s, stale, []) && Run(s, stale, []) == s
  {
  }

  lemma Unroll(s: System, stale: real, e: Event, rest: seq<Event>)
    requires Enabled(s, e) && RunOk(Next(s, stale, e), stale, rest)
    ensures RunOk(s, stale, [e] + rest)
    ensures Run(s, stale, [e] + rest) == Run(Next(s, stale, e), stale, rest)
    ensures AlwaysTimely(s, stale, [e] + rest) ==> Timely(s, stale) && AlwaysTimely(Next(s, stale, e), stale, rest)
  {
    assert ([e] + rest)[1..] == rest;
  }

  // ----- The lock can never be wedged -----

  /** A claim wins exactly when the row is free or its reading is later than locked_at + stale. */
  lemma ClaimWinsIff(s: System, stale: real, w: Worker)
    requires Enabled(s, Claim(w))
    ensures Next(s, stale, Claim(w)).workers[w].Sweeping?
            <==> s.row.value.lockedAt.None? || s.workers[w].reading > s.row.value.lockedAt.value + stale
    ensures Next(s, stale, Claim(w)).workers[w].Sweeping? ==>
              Next(s, stale, Claim(w)).row == Some(Row(Some(s.workers[w].reading), Some(w)))
    ensures !Next(s, stale, Claim(w)).workers[w].Sweeping? ==> Next(s, stale, Claim(w)).row == s.row
  {
  }

  /** What an idle worker does from here when nobody interferes, after letting `dt` pass. */
  function Attempt(s: System, w: Worker, dt: real): seq<Event> {
    [Tick(dt), Look(w)] + (if s.row.None? then [Insert(w)] else []) + [ReadClock(w), Claim(w)]
  }

  /**
   From every reachable state, whoever crashed in the middle of whatever, an idle worker that
   waits until later than locked_at + stale and tries undisturbed ends up in the sweep.
   */
  lemma NeverWedged(s: System, stale: real, w: Worker, dt: real)
    requires Inv(s) && w < |s.workers| && s.workers[w].Idle? && dt >= 0.0
    requires s.row.Some? && s.row.value.lockedAt.Some? ==> s.clock + dt > s.row.value.lockedAt.value + stale
    ensures RunOk(s, stale, Attempt(s, w, dt))
    ensures Run(s, stale, Attempt(s, w, dt))
            == System(Some(Row(Some(s.clock + dt), Some(w))), s.workers[w := Sweeping(s.clock + dt)], s.clock + dt)
  {
    hide RunOk, Run, AlwaysTimely;
    var s1 := Next(s, stale, Tick(dt));
    var s2 := Next(s1, stale, Look(w));
    var s3 := if s.row.None? then Next(s2, stale, Insert(w)) else s2;
    var s4 := Next(s3, stale, ReadClock(w));
    var rest := [ReadClock(w), Claim(w)];
    RunNothing(Next(s4, stale, Claim(w)), stale);
    assert [Claim(w)] == [Claim(w)] + [] && rest == [ReadClock(w)] + [Claim(w)];
    Unroll(s4, stale, Claim(w), []);
    Unroll(s3, stale, ReadClock(w), [Claim(w)]);
    if s.row.None? {
      Unroll(s2, stale, Insert(w), rest);
      rest := [Insert(w)] + rest;
    }
    Unroll(s1, stale, Look(w), rest);
    Unroll(s, stale, Tick(dt), [Look(w)] + rest);
    assert Attempt(s, w, dt) == [Tick(dt)] + ([Look(w)] + rest);
  }

  /**
   From every state in which a worker that owns the row has swept for too long, an idle one that
   tries undisturbed sweeps together with it.
   */
  lemma LateSweepOverlaps(s: System, stale: real, sweeper: Worker, other: Worker)
    requires Inv(s) && sweeper < |s.workers| && other < |s.workers| && s.workers[other].Idle?
    requires s.workers[sweeper].Sweeping? && s.row == Some(Row(Some(s.workers[sweeper].reading), Some(sweeper)))
    requires s.clock > s.workers[sweeper].reading + stale
    ensures RunOk(s, stale, Attempt(s, other, 0.0))
    ensures var end := Run(s, stale, Attempt(s, other, 0.0));
            |end.workers| == |s.workers| && end.workers[sweeper].Sweeping? && end.workers[other].Sweeping? && sweeper != other
  {
    NeverWedged(s, stale, other, 0.0);
  }

  // ----- The row in place -----

  /** The lock row as the database holds it; `system` is what all the workers are doing around it. */
  class SchedulerLock {
    var lockedAt: Option<real>
    var lockedBy: Option<Worker>
    ghost var system: System

    function Contents(): Row
      reads this
    {
      Row(lockedAt, lockedBy)
    }

    ghost predicate Valid()
      reads this
    {
      Inv(system) && system.row == Some(Contents())
    }

    /** The row just inserted, with `n` idle workers around. */
    constructor (ghost n: nat, ghost clock: real)
      ensures Valid() && system == Start(n, Some(Row(None, None)), clock)
    {
      lockedAt, lockedBy := None, None;
      system := Start(n, Some(Row(None, None)), clock);
    }

    /** The conditional UPDATE of `_acquire_lock` is the protocol's claim, and the row count says who sweeps. */
    method AcquireLock(worker: Worker, now: real, staleAfter: real) returns (won: bool)
      requires Valid() && Enabled(system, Claim(worker)) && system.workers[worker].reading == now
      modifies this
      ensures Valid() && system == Next(old(system), staleAfter, Claim(worker))
      ensures won <==> system.workers[worker].Sweeping?
    {
      StepKeepsInv(system, staleAfter, Claim(worker));
      var staleBefore := now - staleAfter;
      won := lockedAt.None? || lockedAt.value < staleBefore;
      if won {
        lockedAt, lockedBy := Some(now), Some(worker);
      }
      system := Next(system, staleAfter, Claim(worker));
    }

    /** The conditional UPDATE of `_release_lock` is the protocol's release. */
    method ReleaseLock(worker: Worker, ghost staleAfter: real)
      requires Valid() && Enabled(system, Release(worker))
      modifies this
      ensures Valid() && system == Next(old(system), staleAfter, Release(worker))
    {
      StepKeepsInv(system, staleAfter, Release(worker));
      if lockedBy == Some(worker) {
        lockedAt, lockedBy := None, None;
      }
      system := Next(system, staleAfter, Release(worker));
    }

    /** Every other step of a worker, or of the clock, leaves the row alone. */
    ghost method Elsewhere(e: Event, staleAfter: real)
      requires Valid() && Enabled(system, e) && !e.Claim? && !e.Release?
      modifies this`system
      ensures Valid() && system == Next(old(system), staleAfter, e)
    {
      StepKeepsInv(system, staleAfter, e);
      system := Next(system, staleAfter, e);
    }
  }

  /**
   One worker's `run_scheduled_scan` with nobody in between: it sweeps exactly if the row was
   claimable at its reading of the clock, and then leaves the row free.
   */
  method RunScheduledScan(lock: SchedulerLock, worker: Worker, now: real, staleAfter: real) returns (swept: bool)
    requires lock.Valid() && now == lock.system.clock
    requires worker < |lock.system.workers| && lock.system.workers[worker].Idle?
    modifies lock
    ensures lock.Valid() && lock.system.workers == old(lock.system.workers) && lock.system.clock == now
    ensures swept <==> Claimable(old(lock.Contents()), now, staleAfter)
    ensures lock.Contents() == if swept then Row(None, None) else old(lock.Contents())
  {
    lock.Elsewhere(Look(worker), staleAfter);
    lock.Elsewhere(ReadClock(worker), staleAfter);
    swept := lock.AcquireLock(worker, now, staleAfter);
    if swept {
      lock.Elsewhere(EndSweep(worker), staleAfter);
      lock.ReleaseLock(worker, staleAfter);
    }
  }
}
