/**
 modules/ai/triage_engine.py: `classify_findings_batch` as interleaved steps.

 Every finding is one task. A step runs one task from one `await` to the next:
 obtaining the semaphore, coming back from the limiter, coming back from the
 model thread, coming back from seeding. The scheduler picks the order; the
 clock readings and what the model thread did are part of the step.
 */
module TriageBatch {
  import opened Prelude
  import TB = TokenBucket

  /** What a finding gets. `Answer` is whatever classify_finding returned, its own fallback included. */
  datatype Result = Answer(text: string) | Deferred(reset: real) | CallFailed

  datatype Phase =
    | Queued
    | Acquiring
    | Calling
    | Seeding(readAt: real, used: nat, limit: int, retryAfter: Option<real>)
    | Finished(result: Result)

  /** How the model thread ended: normally, with a captured real daily 429, or by raising. */
  datatype ThreadEnd = Returned(text: string) | Hit429(readAt: real, used: nat, limit: int, retryAfter: Option<real>) | Raised

  datatype Event =
    | Enter(task: nat)
    | AcquireEnds(task: nat, readings: seq<real>, wall: real)
    | ThreadEnds(task: nat, end: ThreadEnd)
    | SeedEnds(task: nat, wall: real)

  /** `estimates[i]` is estimate_tokens of finding i; `slots` is the semaphore's limit. */
  datatype Config = Config(estimates: seq<int>, slots: nat, lim: TB.Limits, dailyLimit: int)

  datatype Batch = Batch(phases: seq<Phase>, free: int, latch: bool, resets: seq<real>,
                         succeeded: nat, deferred: nat, raised: nat,
                         started: seq<nat>, startedLate: nat, limiter: TB.Trace)

  // ----- Steps -----

  function Start(cfg: Config, clock: real): Batch {
    Batch(seq(|cfg.estimates|, i => Queued), cfg.slots, false, [], 0, 0, 0, [], 0,
          TB.Fresh(cfg.lim, cfg.dailyLimit, clock))
  }

  ghost predicate Enabled(cfg: Config, s: Batch, e: Event) {
    && e.task < |s.phases|
    && match e
       case Enter(i) => s.phases[i].Queued? && s.free > 0
       case AcquireEnds(i, readings, _) =>
         && s.phases[i].Acquiring? && i < |cfg.estimates|
         && TB.Nondecreasing(readings, s.limiter.clock)
         && TB.Acquire(s.limiter, cfg.lim, TB.AtLeastOne(cfg.estimates[i]), readings).1 != TB.StillWaiting
       case ThreadEnds(i, _) => s.phases[i].Calling?
       case SeedEnds(i, _) => s.phases[i].Seeding?
  }

  /** Leave the semaphore with a result. */
  function Finish(s: Batch, i: nat, r: Result): Batch
    requires i < |s.phases|
  {
    s.(phases := s.phases[i := Finished(r)], free := s.free + 1)
  }

  /** Store the reset time and set the latch unless it is set already, then defer with the stored time. */
  function Exhaust(s: Batch, i: nat, reset: real): Batch
    requires i < |s.phases|
  {
    var resets := if s.latch then s.resets else s.resets + [reset];
    Finish(s.(latch := true, resets := resets, deferred := s.deferred + 1), i,
           Deferred(if resets == [] then reset else resets[0]))
  }

  function Next(cfg: Config, s: Batch, e: Event): Batch
    requires Enabled(cfg, s, e)
  {
    match e
    case Enter(i) =>
      if s.latch && s.resets != [] then
        s.(phases := s.phases[i := Finished(Deferred(s.resets[0]))], deferred := s.deferred + 1)
      else s.(phases := s.phases[i := Acquiring], free := s.free - 1)
    case AcquireEnds(i, readings, wall) =>
      var (limiter, o) := TB.Acquire(s.limiter, cfg.lim, TB.AtLeastOne(cfg.estimates[i]), readings);
      if o.Granted? then
        s.(limiter := limiter, phases := s.phases[i := Calling], started := s.started + [i],
           startedLate := s.startedLate + if s.latch then 1 else 0)
      else Exhaust(s.(limiter := limiter), i, wall + o.resetIn)
    case ThreadEnds(i, end) =>
      (match end
       case Returned(text) => Finish(s.(succeeded := s.succeeded + 1), i, Answer(text))
       case Hit429(readAt, used, limit, retryAfter) => s.(phases := s.phases[i := Seeding(readAt, used, limit, retryAfter)])
       case Raised => Finish(s.(raised := s.raised + 1), i, CallFailed))
    case SeedEnds(i, wall) =>
      var Seeding(readAt, used, limit, retryAfter) := s.phases[i];
      var retry := if retryAfter.Some? then retryAfter.value else cfg.lim.dailyWindow;
      Exhaust(s.(limiter := TB.Reseed(s.limiter, cfg.lim, readAt, used, limit, retryAfter)), i, wall + TB.Max(0.0, retry))
  }

  // ----- Counting -----

  datatype Kind = InQueue | InAcquire | InCall | InSeed | Answered | WasDeferred | Failed

  function KindOf(p: Phase): Kind {
    match p
    case Queued => InQueue
    case Acquiring => InAcquire
    case Calling => InCall
    case Seeding(_, _, _, _) => InSeed
    case Finished(Answer(_)) => Answered
    case Finished(Deferred(_)) => WasDeferred
    case Finished(CallFailed) => Failed
  }

  function Count(ps: seq<Phase>, k: Kind): nat {
    if ps == [] then 0 else (if KindOf(ps[0]) == k then 1 else 0) + Count(ps[1..], k)
  }

  /** Tasks holding the semaphore. */
  function Holding(ps: seq<Phase>): nat {
    Count(ps, InAcquire) + Count(ps, InCall) + Count(ps, InSeed)
  }

  function FinishedCount(ps: seq<Phase>): nat {
    Count(ps, Answered) + Count(ps, WasDeferred) + Count(ps, Failed)
  }

  lemma {:induction false} CountUpdate(ps: seq<Phase>, i: nat, p: Phase, k: Kind)
    requires i < |ps|
    ensures Count(ps[i := p], k) + (if KindOf(ps[i]) == k then 1 else 0)
            == Count(ps, k) + (if KindOf(p) == k then 1 else 0)
  {
    if i == 0 {
      assert ps[i := p][1..] == ps[1..];
    } else {
      CountUpdate(ps[1..], i - 1, p, k);
      assert ps[i := p][1..] == ps[1..][i - 1 := p];
    }
  }

  lemma CountsAfter(ps: seq<Phase>, i: nat, p: Phase)
    requires i < |ps|
    ensures forall k :: Count(ps[i := p], k) + (if KindOf(ps[i]) == k then 1 else 0)
                        == Count(ps, k) + (if KindOf(p) == k then 1 else 0)
  {
    forall k ensures Count(ps[i := p], k) + (if KindOf(ps[i]) == k then 1 else 0)
                     == Count(ps, k) + (if KindOf(p) == k then 1 else 0) {
      CountUpdate(ps, i, p, k);
    }
  }

  lemma {:induction false} CountsAddUp(ps: seq<Phase>)
    ensures Count(ps, InQueue) + Holding(ps) + FinishedCount(ps) == |ps|
  {
    if ps != [] {
      CountsAddUp(ps[1..]);
    }
  }

  lemma {:induction false} CountPositive(ps: seq<Phase>, i: nat)
    requires i < |ps|
    ensures Count(ps, KindOf(ps[i])) >= 1
  {
    if i > 0 {
      CountPositive(ps[1..], i - 1);
    }
  }

  // ----- The invariant -----

  /** The counters say how the tasks stand, and the semaphore's slots are all accounted for. */
  ghost predicate Tallied(cfg: Config, s: Batch) {
    && s.free >= 0 && s.free + Holding(s.phases) == cfg.slots
    && s.succeeded == Count(s.phases, Answered)
    && s.deferred == Count(s.phases, WasDeferred)
    && s.raised == Count(s.phases, Failed)
  }

  /** The latch goes with exactly one stored time, which every deferred result carries. */
  ghost predicate Latched(cfg: Config, s: Batch) {
    && |s.resets| == (if s.latch then 1 else 0)
    && (forall i | 0 <= i < |s.phases| && s.phases[i].Finished? && s.phases[i].result.Deferred? ::
          s.latch && s.phases[i].result.reset == s.resets[0])
    && (if s.latch then s.startedLate + Count(s.phases, InAcquire) + 1 <= cfg.slots else s.startedLate == 0)
  }

  /** Each model call was paid for by its own grant of its own finding's estimate. */
  ghost predicate PaidFor(estimates: seq<int>, ps: seq<Phase>, started: seq<nat>, grants: seq<TB.Entry>) {
    && |started| == |grants|
    && (forall k | 0 <= k < |started| ::
          && started[k] < |ps| && started[k] < |estimates|
          && !ps[started[k]].Queued? && !ps[started[k]].Acquiring?
          && grants[k].tokens == TB.AtLeastOne(estimates[started[k]]))
    && (forall j, k | 0 <= j < k < |started| :: started[j] != started[k])
    && (forall i | 0 <= i < |ps| && KindOf(ps[i]) in {InCall, InSeed, Answered, Failed} :: i in started)
  }

  ghost predicate Paid(cfg: Config, s: Batch) {
    PaidFor(cfg.estimates, s.phases, s.started, s.limiter.History())
  }

  ghost predicate Inv(cfg: Config, s: Batch) {
    && |s.phases| == |cfg.estimates|
    && Tallied(cfg, s) && Latched(cfg, s)
    && Paid(cfg, s)
    && TB.Inv(cfg.lim, s.limiter)
  }

  lemma TallyKept(cfg: Config, s: Batch, e: Event)
    requires Inv(cfg, s) && Enabled(cfg, s, e)
    ensures Tallied(cfg, Next(cfg, s, e))
  {
    hide Count, TB.Acquire, TB.Reseed, Paid, TB.Inv;
    CountsAfter(s.phases, e.task, Next(cfg, s, e).phases[e.task]);
  }

  lemma LatchKept(cfg: Config, s: Batch, e: Event)
    requires Inv(cfg, s) && Enabled(cfg, s, e)
    ensures Latched(cfg, Next(cfg, s, e))
  {
    hide Count, TB.Acquire, TB.Reseed, Paid, TB.Inv;
    CountsAfter(s.phases, e.task, Next(cfg, s, e).phases[e.task]);
    CountPositive(s.phases, e.task);
  }

  /** `acquire` adds to the history one entry for what was asked if it granted, and nothing otherwise. */
  lemma {:induction false} AcquireAddsOneGrant(t: TB.Trace, lim: TB.Limits, tokens: nat, readings: seq<real>, tries: nat)
    ensures var (next, o) := TB.Acquire(t, lim, tokens, readings, tries);
            if o.Granted? then
              |next.History()| == |t.History()| + 1 && next.History()[..|t.History()|] == t.History()
              && next.History()[|t.History()|].tokens == tokens
            else next.History() == t.History()
    decreases |readings|
  {
    if readings != [] {
      var (next, v) := TB.TraceAttempt(t, lim, readings[0], tokens);
      if v.Wait? {
        AcquireAddsOneGrant(next, lim, tokens, readings[1..], tries + 1);
      }
    }
  }

  /** A step without a grant moves one task on, never back in front of the limiter. */
  lemma PaidStill(estimates: seq<int>, ps: seq<Phase>, i: nat, p: Phase, started: seq<nat>, grants: seq<TB.Entry>)
    requires PaidFor(estimates, ps, started, grants) && i < |ps| && !p.Queued?
    requires p.Acquiring? ==> ps[i].Queued?
    requires KindOf(p) in {InCall, InSeed, Answered, Failed} ==> KindOf(ps[i]) in {InCall, InSeed, Answered, Failed}
    ensures PaidFor(estimates, ps[i := p], started, grants)
  {
  }

  lemma PaidNow(estimates: seq<int>, ps: seq<Phase>, i: nat, started: seq<nat>, grants: seq<TB.Entry>, more: seq<TB.Entry>)
    requires PaidFor(estimates, ps, started, grants) && i < |ps| && i < |estimates| && ps[i].Acquiring?
    requires |more| == |grants| + 1 && more[..|grants|] == grants && more[|grants|].tokens == TB.AtLeastOne(estimates[i])
    ensures PaidFor(estimates, ps[i := Calling], started + [i], more)
  {
    forall k | 0 <= k < |grants| ensures more[k] == grants[k] {
      assert more[..|grants|][k] == grants[k];
    }
  }

  lemma PaymentKept(cfg: Config, s: Batch, e: Event)
    requires Inv(cfg, s) && Enabled(cfg, s, e)
    ensures Paid(cfg, Next(cfg, s, e))
  {
    hide Count, TB.Acquire, TB.Inv, PaidFor;
    var next, i := Next(cfg, s, e), e.task;
    if e.AcquireEnds? {
      AcquireAddsOneGrant(s.limiter, cfg.lim, TB.AtLeastOne(cfg.estimates[i]), e.readings, 0);
    }
    if next.phases[i].Calling? {
      PaidNow(cfg.estimates, s.phases, i, s.started, s.limiter.History(), next.limiter.History());
    } else {
      assert next.limiter.History() == s.limiter.History();
      PaidStill(cfg.estimates, s.phases, i, next.phases[i], s.started, s.limiter.History());
    }
  }

  /** Every step keeps the invariant. */
  lemma StepKeepsInv(cfg: Config, s: Batch, e: Event)
    requires Inv(cfg, s) && Enabled(cfg, s, e) && cfg.lim.window >= 0.0 && cfg.lim.dailyWindow >= 0.0
    ensures Inv(cfg, Next(cfg, s, e))
  {
    hide Count, TB.Acquire, TB.Reseed, TB.Inv, PaidFor, Paid, Latched, Tallied;
    TallyKept(cfg, s, e);
    LatchKept(cfg, s, e);
    PaymentKept(cfg, s, e);
    match e {
      case AcquireEnds(i, readings, _) =>
        TB.AcquireKeepsInv(s.limiter, cfg.lim, TB.AtLeastOne(cfg.estimates[i]), readings, 0);
      case SeedEnds(i, _) =>
        var Seeding(readAt, used, limit, retryAfter) := s.phases[i];
        TB.ReseedKeepsInv(s.limiter, cfg.lim, readAt, used, limit, retryAfter);
      case _ =>
    }
  }

  // ----- Runs -----

  ghost predicate RunOk(cfg: Config, s: Batch, events: seq<Event>)
    decreases |events|
  {
    events != [] ==> Enabled(cfg, s, events[0]) && RunOk(cfg, Next(cfg, s, events[0]), events[1..])
  }

  function Run(cfg: Config, s: Batch, events: seq<Event>): Batch
    requires RunOk(cfg, s, events)
    decreases |events|
  {
    if events == [] then s else Run(cfg, Next(cfg, s, events[0]), events[1..])
  }

  lemma {:induction false} StartInv(cfg: Config, clock: real)
    ensures Inv(cfg, Start(cfg, clock))
  {
    hide TB.Inv, Count;
    var ps := Start(cfg, clock).phases;
    forall k: Kind | k != InQueue ensures Count(ps, k) == 0 {
      AllQueued(ps, k);
    }
    TB.FreshInv(cfg.lim, cfg.dailyLimit, clock);
  }

  lemma {:induction false} AllQueued(ps: seq<Phase>, k: Kind)
    requires (forall i | 0 <= i < |ps| :: ps[i] == Queued) && k != InQueue
    ensures Count(ps, k) == 0
  {
    if ps != [] {
      AllQueued(ps[1..], k);
    }
  }

  lemma {:induction false} RunKeepsInv(cfg: Config, s: Batch, events: seq<Event>)
    requires Inv(cfg, s) && RunOk(cfg, s, events) && cfg.lim.window >= 0.0 && cfg.lim.dailyWindow >= 0.0
    ensures Inv(cfg, Run(cfg, s, events))
    decreases |events|
  {
    hide Inv, Next;
    if events != [] {
      StepKeepsInv(cfg, s, events[0]);
      RunKeepsInv(cfg, Next(cfg, s, events[0]), events[1..]);
    }
  }

  /**
   Main result for every interleaving: the latch is set exactly when one reset time is stored
   and every deferred finding carries it; at most slots - 1 model calls start once it is set;
   the three counters account for every finished finding; the model calls of any interval of the
   minute window's length that holds two or more stay within the minute limit; and so does, in the
   daily window, what was granted since the last real 429 together with the usage it reported.
   */
  lemma EveryInterleaving(cfg: Config, clock: real, events: seq<Event>, a: real)
    requires RunOk(cfg, Start(cfg, clock), events) && cfg.lim.window >= 0.0 && cfg.lim.dailyWindow >= 0.0
    ensures var s := Run(cfg, Start(cfg, clock), events);
            && (s.latch <==> |s.resets| == 1) && (!s.latch <==> s.resets == [])
            && (forall i | 0 <= i < |s.phases| && s.phases[i].Finished? && s.phases[i].result.Deferred? ::
                  s.resets == [s.phases[i].result.reset])
            && (s.startedLate > 0 ==> s.latch && s.startedLate <= cfg.slots - 1)
            && s.succeeded + s.deferred + s.raised == FinishedCount(s.phases)
            && (var calls := TB.Within(s.limiter.History(), a, a + cfg.lim.window);
                |calls| >= 2 ==> TB.Sum(calls) <= cfg.lim.perMinute)
            && (var day := TB.Within(s.limiter.Ledger(cfg.lim), a, a + cfg.lim.dailyWindow);
                |day| >= 2 ==> TB.Sum(day) <= s.limiter.bucket.dailyLimit)
  {
    hide Inv;
    StartInv(cfg, clock);
    RunKeepsInv(cfg, Start(cfg, clock), events);
    InvMeans(cfg, Run(cfg, Start(cfg, clock), events), a);
  }

  lemma InvMeans(cfg: Config, s: Batch, a: real)
    requires Inv(cfg, s)
    ensures (s.latch <==> |s.resets| == 1) && (!s.latch <==> s.resets == [])
    ensures forall i | 0 <= i < |s.phases| && s.phases[i].Finished? && s.phases[i].result.Deferred? ::
              s.resets == [s.phases[i].result.reset]
    ensures s.startedLate > 0 ==> s.latch && s.startedLate <= cfg.slots - 1
    ensures s.succeeded + s.deferred + s.raised == FinishedCount(s.phases)
    ensures var calls := TB.Within(s.limiter.History(), a, a + cfg.lim.window);
            |calls| >= 2 ==> TB.Sum(calls) <= cfg.lim.perMinute
    ensures var day := TB.Within(s.limiter.Ledger(cfg.lim), a, a + cfg.lim.dailyWindow);
            |day| >= 2 ==> TB.Sum(day) <= s.limiter.bucket.dailyLimit
  {
    hide Count, PaidFor, TB.Within, TB.Sum, TB.DropOld, TB.Sorted, TB.Admitted;
    if |TB.Within(s.limiter.History(), a, a + cfg.lim.window)| >= 2 {
      TB.WindowBound(s.limiter.History(), cfg.lim.window, cfg.lim.perMinute, a, a + cfg.lim.window);
    }
    if |TB.Within(s.limiter.Ledger(cfg.lim), a, a + cfg.lim.dailyWindow)| >= 2 {
      TB.WindowBound(s.limiter.Ledger(cfg.lim), cfg.lim.dailyWindow, s.limiter.bucket.dailyLimit, a, a + cfg.lim.dailyWindow);
    }
  }

  /** Result i is what the model thread of finding i returned, and no step of another task touches it. */
  lemma {:induction false} ResultBelongsToItsFinding(cfg: Config, s: Batch, events: seq<Event>, i: nat, text: string)
    requires RunOk(cfg, s, events) && i < |s.phases|
    ensures |Run(cfg, s, events).phases| == |s.phases|
    ensures Run(cfg, s, events).phases[i] == Finished(Answer(text))
            <==> s.phases[i] == Finished(Answer(text)) || ThreadEnds(i, Returned(text)) in events
    decreases |events|
  {
    hide TB.Acquire, TB.Reseed, TB.AtLeastOne, TB.Max;
    if events != [] {
      var e, next := events[0], Next(cfg, s, events[0]);
      ResultBelongsToItsFinding(cfg, next, events[1..], i, text);
      assert events == [e] + events[1..];
      if s.phases[i] == Finished(Answer(text)) {
        assert e.task != i;
      }
    }
  }

  // ----- The batch comes to an end -----

  function Rank(p: Phase): nat {
    match p
    case Queued => 0
    case Acquiring => 1
    case Calling => 2
    case Seeding(_, _, _, _) => 3
    case Finished(_) => 4
  }

  function TotalRank(ps: seq<Phase>): nat {
    if ps == [] then 0 else Rank(ps[0]) + TotalRank(ps[1..])
  }

  lemma {:induction false} RankUpdate(ps: seq<Phase>, i: nat, p: Phase)
    requires i < |ps|
    ensures TotalRank(ps[i := p]) + Rank(ps[i]) == TotalRank(ps) + Rank(p)
  {
    if i == 0 {
      assert ps[i := p][1..] == ps[1..];
    } else {
      RankUpdate(ps[1..], i - 1, p);
      assert ps[i := p][1..] == ps[1..][i - 1 := p];
    }
  }

  lemma {:induction false} RankBound(ps: seq<Phase>)
    ensures TotalRank(ps) <= 4 * |ps|
  {
    if ps != [] {
      RankBound(ps[1..]);
    }
  }

  /** No interleaving has more than four steps for each finding. */
  lemma {:induction false} RunsAreShort(cfg: Config, s: Batch, events: seq<Event>)
    requires RunOk(cfg, s, events)
    ensures |events| + TotalRank(s.phases) <= 4 * |s.phases|
    decreases |events|
  {
    hide TB.Acquire, TB.Reseed;
    RankBound(s.phases);
    if events != [] {
      var e, next := events[0], Next(cfg, s, events[0]);
      RankUpdate(s.phases, e.task, next.phases[e.task]);
      RunsAreShort(cfg, next, events[1..]);
    }
  }

  /** With at least one slot the batch never gets stuck before every finding has its result. */
  lemma NeverStuck(cfg: Config, s: Batch, i: nat)
    requires Inv(cfg, s) && cfg.slots >= 1 && cfg.lim.window >= 0.0
    requires i < |s.phases| && !s.phases[i].Finished?
    ensures exists e :: Enabled(cfg, s, e)
  {
    if j: nat :| j < |s.phases| && !s.phases[j].Queued? && !s.phases[j].Finished? {
      match s.phases[j] {
        case Acquiring => AcquireCanEnd(cfg, s, j);
        case Calling => assert Enabled(cfg, s, ThreadEnds(j, Raised));
        case Seeding(_, _, _, _) => assert Enabled(cfg, s, SeedEnds(j, 0.0));
      }
    } else {
      NoneHolding(s.phases);
      assert Enabled(cfg, s, Enter(i));
    }
  }

  lemma {:induction false} NoneHolding(ps: seq<Phase>)
    requires forall j | 0 <= j < |ps| :: ps[j].Queued? || ps[j].Finished?
    ensures Holding(ps) == 0
  {
    if ps != [] {
      NoneHolding(ps[1..]);
    }
  }

  lemma AcquireCanEnd(cfg: Config, s: Batch, j: nat)
    requires Inv(cfg, s) && j < |s.phases| && s.phases[j].Acquiring? && cfg.lim.window >= 0.0
    ensures exists e :: Enabled(cfg, s, e)
  {
    hide Count, PaidFor, TB.Sum, TB.Admitted, TB.Sorted, TB.DropOld;
    var tokens := TB.AtLeastOne(cfg.estimates[j]);
    var late := s.limiter.clock + cfg.lim.window + 1.0;
    var n := TB.DropIsSuffix(s.limiter.History(), s.limiter.minuteCut);
    TB.NoWaitPastNewest(s.limiter, cfg.lim, late, tokens);
    assert Enabled(cfg, s, AcquireEnds(j, [late], 0.0));
  }

  /** Once a real 429 says the daily quota is used up, the next finding to reach the limiter is deferred without a call. */
  lemma NoCallWhileUsedUp(cfg: Config, s: Batch, e: Event)
    requires Inv(cfg, s) && Enabled(cfg, s, e) && e.AcquireEnds?
    requires s.limiter.seed.Some? && s.limiter.seed.value.used >= s.limiter.bucket.dailyLimit
    requires e.readings != [] && e.readings[0] <= s.limiter.seed.value.at + s.limiter.seed.value.retry
    ensures var next := Next(cfg, s, e);
            next.latch && next.started == s.started && next.phases[e.task] == Finished(Deferred(next.resets[0]))
  {
    hide Count, PaidFor, TB.Inv, TB.TraceAttempt, TB.Sum;
    TB.SeededAttempt(s.limiter, cfg.lim, e.readings[0], TB.AtLeastOne(cfg.estimates[e.task]));
  }

  /** What seeding brings about: the limiter counts the real usage against the real limit from then on. */
  lemma SeedTakesEffect(cfg: Config, s: Batch, i: nat, wall: real)
    requires Enabled(cfg, s, SeedEnds(i, wall))
    ensures var next, p := Next(cfg, s, SeedEnds(i, wall)), s.phases[i];
            && next.limiter.seed == Some(TB.Seed(p.readAt, p.used, if p.retryAfter.Some? then p.retryAfter.value else cfg.lim.dailyWindow))
            && next.limiter.bucket.dailyLimit == p.limit && next.limiter.since == []
            && next.limiter.History() == s.limiter.History() && next.started == s.started
  {
    assert s.limiter.History() + [] == s.limiter.History();
  }

  /** A model thread that ends hands its outcome on: an answer is the result, a 429 goes to seeding as it was reported. */
  lemma ThreadOutcome(cfg: Config, s: Batch, i: nat, end: ThreadEnd)
    requires Enabled(cfg, s, ThreadEnds(i, end))
    ensures Next(cfg, s, ThreadEnds(i, end)).phases[i] ==
            match end
            case Returned(text) => Finished(Answer(text))
            case Hit429(readAt, used, limit, retryAfter) => Seeding(readAt, used, limit, retryAfter)
            case Raised => Finished(CallFailed)
    ensures Next(cfg, s, ThreadEnds(i, end)).limiter == s.limiter
  {
  }

  /** A late start is a model call that starts with the latch set. */
  lemma LateStarts(cfg: Config, s: Batch, e: Event)
    requires Enabled(cfg, s, e)
    ensures var next := Next(cfg, s, e);
            |next.started| >= |s.started|
            && next.startedLate - s.startedLate == if s.latch then |next.started| - |s.started| else 0
  {
    hide TB.Acquire, TB.Reseed;
  }

  /** Once the latch is set, a finding that enters is deferred at once: it neither takes a slot nor asks the limiter. */
  lemma NoEntryBehindLatch(cfg: Config, s: Batch, i: nat)
    requires Inv(cfg, s) && Enabled(cfg, s, Enter(i))
    ensures var next := Next(cfg, s, Enter(i));
            && (s.latch ==> next.phases[i] == Finished(Deferred(s.resets[0])) && next.free == s.free)
            && (!s.latch ==> next.phases[i] == Acquiring && next.free == s.free - 1)
            && next.limiter == s.limiter
  {
    hide Count, PaidFor, TB.Inv;
  }

  /**
   The reset time that is stored: how long the limiter says, or the 429 said, from the wall clock at
   that moment. Whatever comes later leaves it alone.
   */
  lemma StoredReset(cfg: Config, s: Batch, e: Event)
    requires Inv(cfg, s) && Enabled(cfg, s, e)
    ensures var next := Next(cfg, s, e);
            && (s.latch ==> next.latch && next.resets == s.resets)
            && (!s.latch && next.latch ==>
                  && (e.AcquireEnds? || e.SeedEnds?)
                  && next.resets == [e.wall + if e.AcquireEnds?
                                              then TB.Acquire(s.limiter, cfg.lim, TB.AtLeastOne(cfg.estimates[e.task]), e.readings).1.resetIn
                                              else TB.Max(0.0, RetryOf(cfg, s.phases[e.task]))])
  {
    hide Count, PaidFor, TB.Inv, TB.Acquire, TB.Reseed, TB.AtLeastOne, TB.Max;
  }

  function RetryOf(cfg: Config, p: Phase): real
    requires p.Seeding?
  {
    if p.retryAfter.Some? then p.retryAfter.value else cfg.lim.dailyWindow
  }

  /** No further 429 takes effect, and every acquire first looks at the clock no later than the reset. */
  ghost predicate UpToReset(reset: real, events: seq<Event>) {
    forall e | e in events ::
      !e.SeedEnds? && (e.AcquireEnds? && e.readings != [] ==> e.readings[0] <= reset)
  }

  ghost predicate UsedUp(s: Batch, seed: TB.Seed) {
    s.limiter.seed == Some(seed) && seed.used >= s.limiter.bucket.dailyLimit
  }

  lemma LimiterAfter(cfg: Config, s: Batch, e: Event)
    requires Enabled(cfg, s, e) && !e.SeedEnds?
    ensures Next(cfg, s, e).limiter ==
            if e.AcquireEnds? then TB.Acquire(s.limiter, cfg.lim, TB.AtLeastOne(cfg.estimates[e.task]), e.readings).0 else s.limiter
    ensures !e.AcquireEnds? ==> Next(cfg, s, e).started == s.started
  {
    hide TB.Acquire, TB.AtLeastOne;
  }

  lemma UsedUpStays(cfg: Config, s: Batch, e: Event, seed: TB.Seed)
    requires Inv(cfg, s) && Enabled(cfg, s, e) && UsedUp(s, seed) && UpToReset(seed.at + seed.retry, [e])
    ensures UsedUp(Next(cfg, s, e), seed) && Next(cfg, s, e).started == s.started
  {
    assert e in [e];
    hide Inv, Next, TB.Acquire, TB.AtLeastOne;
    LimiterAfter(cfg, s, e);
    if e.AcquireEnds? {
      var tokens := TB.AtLeastOne(cfg.estimates[e.task]);
      TB.AcquireOnlyGrants(s.limiter, cfg.lim, tokens, e.readings, 0);
      NothingRead(s.limiter, cfg.lim, tokens);
      NoCallWhileUsedUp(cfg, s, e);
    }
  }

  lemma NothingRead(t: TB.Trace, lim: TB.Limits, tokens: nat)
    ensures TB.Acquire(t, lim, tokens, []).1 == TB.StillWaiting
  {
  }

  /** In every interleaving: from a real 429 that says the daily quota is used up until its reset, no model call starts. */
  lemma {:induction false} NoCallsUntilReset(cfg: Config, s: Batch, events: seq<Event>, seed: TB.Seed)
    requires Inv(cfg, s) && RunOk(cfg, s, events) && cfg.lim.window >= 0.0 && cfg.lim.dailyWindow >= 0.0
    ensures UsedUp(s, seed) && UpToReset(seed.at + seed.retry, events) ==>
              Run(cfg, s, events).started == s.started && UsedUp(Run(cfg, s, events), seed)
    decreases |events|
  {
    hide Inv, Next, UsedUp, Enabled;
    if events != [] && UsedUp(s, seed) && UpToReset(seed.at + seed.retry, events) {
      assert events[0] in events;
      UsedUpStays(cfg, s, events[0], seed);
      StepKeepsInv(cfg, s, events[0]);
      NoCallsUntilReset(cfg, Next(cfg, s, events[0]), events[1..], seed);
    }
  }

  /** So from the moment a 429 that reports a used-up quota takes effect, no model call starts until its reset. */
  lemma NoCallsAfter429(cfg: Config, s: Batch, i: nat, wall: real, events: seq<Event>)
    requires Inv(cfg, s) && cfg.lim.window >= 0.0 && cfg.lim.dailyWindow >= 0.0
    requires Enabled(cfg, s, SeedEnds(i, wall)) && s.phases[i].used >= s.phases[i].limit
    requires RunOk(cfg, Next(cfg, s, SeedEnds(i, wall)), events)
    ensures UpToReset(s.phases[i].readAt + RetryOf(cfg, s.phases[i]), events) ==>
              Run(cfg, Next(cfg, s, SeedEnds(i, wall)), events).started == s.started
  {
    hide Inv, Next, Run, RunOk;
    var p, next := s.phases[i], Next(cfg, s, SeedEnds(i, wall));
    SeedTakesEffect(cfg, s, i, wall);
    StepKeepsInv(cfg, s, SeedEnds(i, wall));
    NoCallsUntilReset(cfg, next, events, TB.Seed(p.readAt, p.used, RetryOf(cfg, p)));
  }

  /** When every finding is done, every slot is free again and the counters add up to the number of findings. */
  lemma AllDone(cfg: Config, s: Batch)
    requires Inv(cfg, s) && forall i | 0 <= i < |s.phases| :: s.phases[i].Finished?
    ensures s.free == cfg.slots && s.succeeded + s.deferred + s.raised == |cfg.estimates|
  {
    NoneHolding(s.phases);
    CountsAddUp(s.phases);
    if Count(s.phases, InQueue) > 0 {
      QueuedExists(s.phases);
    }
  }

  lemma {:induction false} QueuedExists(ps: seq<Phase>)
    requires Count(ps, InQueue) > 0
    ensures exists i | 0 <= i < |ps| :: ps[i].Queued?
  {
    if !ps[0].Queued? {
      QueuedExists(ps[1..]);
      var i :| 0 <= i < |ps| - 1 && ps[1..][i].Queued?;
      assert ps[i + 1].Queued?;
    }
  }
}
