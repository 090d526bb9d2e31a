/**
 modules/ai/rate_limiter.py: a token budget over two rolling windows.

 The minute window is waited out, the daily window fails fast, and a real 429
 reseeds the daily window. Time is a real number read from a nondecreasing
 clock; every reading is an input. The limiter's lock is held across its own
 sleeps, so the whole of one `acquire` is one operation here.
 */
module TokenBucket {
  import opened Prelude

  /** One deque element: when the tokens were granted, and how many. */
  datatype Entry = Entry(at: real, tokens: nat)

  datatype Limits = Limits(perMinute: int, window: real, dailyWindow: real)

  /** The limiter's mutable fields. */
  datatype Bucket = Bucket(events: seq<Entry>, daily: seq<Entry>, dailyLimit: int)

  /** What one pass through the loop of `acquire` decides. */
  datatype Verdict = Grant | DailyExhausted(resetIn: real) | Wait(sleepFor: real)

  /** What a whole call of `acquire` did after looking at the clock `tries` times. */
  datatype Outcome = Granted(tries: nat) | Exhausted(tries: nat, resetIn: real) | StillWaiting

  // ----- The deques -----

  function Sum(es: seq<Entry>): nat {
    if es == [] then 0 else es[0].tokens + Sum(es[1..])
  }

  /** The deque after popping from the left while the head is older than `cutoff`. */
  function DropOld(es: seq<Entry>, cutoff: real): seq<Entry> {
    if es != [] && es[0].at < cutoff then DropOld(es[1..], cutoff) else es
  }

  function Max(x: real, y: real): real {
    if x < y then y else x
  }

  /** Seconds until the head of the daily deque ages out. */
  function ResetIn(daily: seq<Entry>, lim: Limits, now: real): real
    requires daily != []
  {
    Max(0.0, daily[0].at + lim.dailyWindow - now)
  }

  /** `max(1, estimated_tokens)`. */
  function AtLeastOne(estimate: int): (tokens: nat)
    ensures tokens >= 1 && tokens >= estimate && (tokens == 1 || tokens == estimate)
  {
    if estimate < 1 then 1 else estimate
  }

  /** One pass through the loop of `acquire`, at clock reading `now`. */
  function Attempt(b: Bucket, lim: Limits, now: real, tokens: nat): (Bucket, Verdict) {
    var daily := DropOld(b.daily, now - lim.dailyWindow);
    if daily != [] && Sum(daily) + tokens > b.dailyLimit then
      (b.(daily := daily), DailyExhausted(ResetIn(daily, lim, now)))
    else
      var events := DropOld(b.events, now - lim.window);
      if events == [] || Sum(events) + tokens <= lim.perMinute then
        (Bucket(events + [Entry(now, tokens)], daily + [Entry(now, tokens)], b.dailyLimit), Grant)
      else
        (Bucket(events, daily, b.dailyLimit), Wait(events[0].at + lim.window - now))
  }

  // ----- Bookkeeping: what has been granted over the whole run -----

  /** A 429 observed at clock reading `at`: real usage, and how long until it resets. */
  datatype Seed = Seed(at: real, used: nat, retry: real)

  /**
   The limiter together with the whole history of its run: the grants before the last
   seeding, those since, the two cutoffs used by the latest pruning, and the first clock
   reading after which a call slept with the lock in its hands.
   */
  datatype Trace = Trace(bucket: Bucket, before: seq<Entry>, since: seq<Entry>, seed: Option<Seed>,
                         clock: real, minuteCut: real, dayCut: real, firstSleep: Option<real>)
  {
    /** Every grant so far. */
    function History(): seq<Entry> {
      before + since
    }

    /** What the daily deque stands for: the synthetic entry, then the grants since. */
    function Ledger(lim: Limits): seq<Entry> {
      match seed
      case None => since
      case Some(s) => [Entry(s.at + s.retry - lim.dailyWindow, s.used)] + since
    }
  }

  function Fresh(lim: Limits, dailyLimit: int, clock: real): Trace {
    Trace(Bucket([], [], dailyLimit), [], [], None, clock, clock - lim.window, clock - lim.dailyWindow, None)
  }

  function TraceAttempt(t: Trace, lim: Limits, now: real, tokens: nat): (Trace, Verdict) {
    var (b, v) := Attempt(t.bucket, lim, now, tokens);
    (Trace(b, t.before, if v.Grant? then t.since + [Entry(now, tokens)] else t.since, t.seed, now,
           if v.DailyExhausted? then t.minuteCut else now - lim.window, now - lim.dailyWindow,
           if v.Wait? && t.firstSleep.None? then Some(now) else t.firstSleep), v)
  }

  /** `acquire` with the successive clock readings it will see; none left means it is still asleep. */
  function Acquire(t: Trace, lim: Limits, tokens: nat, readings: seq<real>, tries: nat := 0): (Trace, Outcome)
    decreases |readings|
  {
    if readings == [] then (t, StillWaiting)
    else
      var (next, v) := TraceAttempt(t, lim, readings[0], tokens);
      match v
      case Grant => (next, Granted(tries + 1))
      case DailyExhausted(r) => (next, Exhausted(tries + 1, r))
      case Wait(_) => Acquire(next, lim, tokens, readings[1..], tries + 1)
  }

  /** `seed_real_tpd_usage`. `readAt` is read before the lock is taken, so it may lie behind the clock. */
  function Reseed(t: Trace, lim: Limits, readAt: real, used: nat, limit: int, retryAfter: Option<real>): Trace {
    var retry := if retryAfter.Some? then retryAfter.value else lim.dailyWindow;
    var synthetic := Entry(readAt + retry - lim.dailyWindow, used);
    t.(bucket := t.bucket.(daily := [synthetic], dailyLimit := limit), before := t.History(), since := [],
       seed := Some(Seed(readAt, used, retry)), clock := Max(t.clock, readAt),
       dayCut := if synthetic.at < t.dayCut then synthetic.at else t.dayCut)
  }

  // ----- The invariant of every run -----

  ghost predicate Sorted(es: seq<Entry>) {
    forall i, j | 0 <= i < j < |es| :: es[i].at <= es[j].at
  }

  /** Entry k fitted on top of what its window still held when it was granted. */
  ghost predicate AdmittedAt(es: seq<Entry>, k: nat, window: real, limit: int)
    requires k < |es|
  {
    var prior := DropOld(es[..k], es[k].at - window);
    prior == [] || Sum(prior) + es[k].tokens <= limit
  }

  ghost predicate Admitted(es: seq<Entry>, window: real, limit: int) {
    forall k: nat | k < |es| :: AdmittedAt(es, k, window, limit)
  }

  /** `deque` is what pruning at `cut` leaves of a log in which every entry fitted. */
  ghost predicate Keeps(deque: seq<Entry>, log: seq<Entry>, cut: real, window: real, limit: int) {
    deque == DropOld(log, cut) && Admitted(log, window, limit)
  }

  ghost predicate InOrder(log: seq<Entry>, clock: real) {
    Sorted(log) && forall e | e in log :: e.at <= clock && e.tokens >= 1
  }

  ghost predicate Inv(lim: Limits, t: Trace) {
    && Keeps(t.bucket.events, t.History(), t.minuteCut, lim.window, lim.perMinute)
    && Keeps(t.bucket.daily, t.Ledger(lim), t.dayCut, lim.dailyWindow, t.bucket.dailyLimit)
    && t.minuteCut <= t.clock - lim.window && t.dayCut <= t.clock - lim.dailyWindow
    && InOrder(t.History(), t.clock)
    && (t.seed.None? ==> t.before == [])
    && (t.seed.Some? ==> t.seed.value.at <= t.clock && forall e | e in t.since :: t.seed.value.at <= e.at)
  }

  ghost predicate Nondecreasing(readings: seq<real>, from: real) {
    (readings == [] || from <= readings[0]) && forall i, j | 0 <= i < j < |readings| :: readings[i] <= readings[j]
  }

  lemma {:induction false} SumConcat(a: seq<Entry>, b: seq<Entry>)
    ensures Sum(a + b) == Sum(a) + Sum(b)
  {
    if a == [] {
      assert a + b == b;
    } else {
      SumConcat(a[1..], b);
      assert (a + b)[1..] == a[1..] + b;
    }
  }

  /** Pruning at an earlier cutoff first changes nothing. */
  lemma {:induction false} DropTwice(es: seq<Entry>, c: real, d: real)
    requires c <= d
    ensures DropOld(DropOld(es, c), d) == DropOld(es, d)
  {
    if es != [] && es[0].at < c {
      DropTwice(es[1..], c, d);
    }
  }

  lemma {:induction false} DropShrinks(es: seq<Entry>, c: real)
    ensures |DropOld(es, c)| <= |es| && Sum(DropOld(es, c)) <= Sum(es)
    ensures forall e | e in DropOld(es, c) :: e in es
    ensures DropOld(es, c) != [] ==> DropOld(es, c)[0].at >= c
    ensures es != [] && es[0].at < c ==> |DropOld(es, c)| < |es|
  {
    if es != [] && es[0].at < c {
      DropShrinks(es[1..], c);
    }
  }

  /** Pruning cuts the log at the first entry that is recent enough. */
  lemma {:induction false} DropIsSuffix(es: seq<Entry>, c: real) returns (n: nat)
    ensures n <= |es| && DropOld(es, c) == es[n..]
    ensures (forall i | 0 <= i < n :: es[i].at < c) && (n < |es| ==> es[n].at >= c)
  {
    n := 0;
    if es != [] && es[0].at < c {
      var m := DropIsSuffix(es[1..], c);
      assert es[1..][m..] == es[m + 1..];
      forall i | 0 <= i < m + 1 ensures es[i].at < c {
        assert i > 0 ==> es[i] == es[1..][i - 1];
      }
      n := m + 1;
    }
  }

  /** On a history in time order the pruned deque is exactly the entries no older than the cutoff. */
  lemma {:induction false} DropKeepsExactlyRecent(es: seq<Entry>, c: real, e: Entry)
    requires Sorted(es)
    ensures e in DropOld(es, c) <==> e in es && e.at >= c
    ensures |DropOld(es, c)| <= |es| && DropOld(es, c) == es[|es| - |DropOld(es, c)|..]
  {
    var n := DropIsSuffix(es, c);
    if e in es && e.at >= c {
      var i :| 0 <= i < |es| && es[i] == e;
      assert es[n..][i - n] == e;
    }
  }

  lemma AdmittedExtends(es: seq<Entry>, e: Entry, window: real, limit: int)
    requires Admitted(es, window, limit)
    requires var prior := DropOld(es, e.at - window); prior == [] || Sum(prior) + e.tokens <= limit
    ensures Admitted(es + [e], window, limit)
  {
    forall k: nat | k < |es| + 1 ensures AdmittedAt(es + [e], k, window, limit) {
      assert (es + [e])[..k] == es[..k];
      if k < |es| {
        assert AdmittedAt(es, k, window, limit);
      } else {
        assert es[..k] == es;
      }
    }
  }

  lemma {:induction false} DropAppend(es: seq<Entry>, e: Entry, c: real)
    requires e.at >= c
    ensures DropOld(es + [e], c) == DropOld(es, c) + [e]
  {
    if es == [] {
      assert es + [e] == [e];
    } else if es[0].at < c {
      DropAppend(es[1..], e, c);
      assert (es + [e])[1..] == es[1..] + [e];
    }
  }

  /** Appending a grant that fits keeps a deque in step with its log. */
  lemma KeepsExtends(deque: seq<Entry>, log: seq<Entry>, cut: real, e: Entry, window: real, limit: int)
    requires Keeps(deque, log, cut, window, limit) && cut <= e.at - window && window >= 0.0
    requires var kept := DropOld(deque, e.at - window); kept == [] || Sum(kept) + e.tokens <= limit
    ensures Keeps(DropOld(deque, e.at - window) + [e], log + [e], e.at - window, window, limit)
  {
    DropTwice(log, cut, e.at - window);
    AdmittedExtends(log, e, window, limit);
    DropAppend(log, e, e.at - window);
  }

  /** Pruning a deque in step with its log leaves what pruning the whole log would. */
  lemma KeepsPruned(deque: seq<Entry>, log: seq<Entry>, cut: real, later: real, window: real, limit: int)
    requires Keeps(deque, log, cut, window, limit) && cut <= later
    ensures DropOld(deque, later) == DropOld(log, later)
    ensures Keeps(DropOld(deque, later), log, later, window, limit)
  {
    DropTwice(log, cut, later);
  }

  lemma InOrderExtends(log: seq<Entry>, clock: real, e: Entry)
    requires InOrder(log, clock) && clock <= e.at && e.tokens >= 1
    ensures InOrder(log + [e], e.at)
  {
    forall x | x in log + [e] ensures x.at <= e.at && x.tokens >= 1 {
      assert x == e || x in log;
    }
  }

  lemma GrantKeepsInv(t: Trace, lim: Limits, now: real, tokens: nat)
    requires Inv(lim, t) && t.clock <= now && tokens >= 1
    requires lim.window >= 0.0 && lim.dailyWindow >= 0.0
    requires TraceAttempt(t, lim, now, tokens).1.Grant?
    ensures Inv(lim, TraceAttempt(t, lim, now, tokens).0)
  {
    hide DropOld, Sum, Admitted, Sorted;
    var next, e := TraceAttempt(t, lim, now, tokens).0, Entry(now, tokens);
    KeepsExtends(t.bucket.events, t.History(), t.minuteCut, e, lim.window, lim.perMinute);
    KeepsExtends(t.bucket.daily, t.Ledger(lim), t.dayCut, e, lim.dailyWindow, t.bucket.dailyLimit);
    InOrderExtends(t.History(), t.clock, e);
    assert next.History() == t.History() + [e];
    assert next.Ledger(lim) == t.Ledger(lim) + [e];
  }

  lemma RefusalKeepsInv(t: Trace, lim: Limits, now: real, tokens: nat)
    requires Inv(lim, t) && t.clock <= now
    requires !TraceAttempt(t, lim, now, tokens).1.Grant?
    ensures Inv(lim, TraceAttempt(t, lim, now, tokens).0)
  {
    hide DropOld, Sum, Admitted, Sorted;
    var (next, v) := TraceAttempt(t, lim, now, tokens);
    assert InOrder(next.History(), now);
    KeepsPruned(t.bucket.daily, t.Ledger(lim), t.dayCut, now - lim.dailyWindow, lim.dailyWindow, t.bucket.dailyLimit);
    if v.Wait? {
      KeepsPruned(t.bucket.events, t.History(), t.minuteCut, now - lim.window, lim.window, lim.perMinute);
    }
  }

  /** One pass keeps the invariant. */
  lemma AttemptKeepsInv(t: Trace, lim: Limits, now: real, tokens: nat)
    requires Inv(lim, t) && t.clock <= now && tokens >= 1
    requires lim.window >= 0.0 && lim.dailyWindow >= 0.0
    ensures Inv(lim, TraceAttempt(t, lim, now, tokens).0)
  {
    if TraceAttempt(t, lim, now, tokens).1.Grant? {
      GrantKeepsInv(t, lim, now, tokens);
    } else {
      RefusalKeepsInv(t, lim, now, tokens);
    }
  }

  lemma SingletonKeeps(e: Entry, cut: real, window: real, limit: int)
    requires cut <= e.at
    ensures Keeps([e], [e], cut, window, limit)
  {
    assert [e][..0] == [];
  }

  /** Seeding keeps the invariant, whatever the real 429 reported and however stale its clock reading is. */
  lemma ReseedKeepsInv(t: Trace, lim: Limits, readAt: real, used: nat, limit: int, retryAfter: Option<real>)
    requires Inv(lim, t)
    ensures Inv(lim, Reseed(t, lim, readAt, used, limit, retryAfter))
  {
    hide DropOld, Sum, Admitted, Sorted;
    var next := Reseed(t, lim, readAt, used, limit, retryAfter);
    SingletonKeeps(next.bucket.daily[0], next.dayCut, lim.dailyWindow, limit);
    assert next.Ledger(lim) == next.bucket.daily;
    assert next.History() == t.History();
  }

  lemma {:induction false} AcquireKeepsInv(t: Trace, lim: Limits, tokens: nat, readings: seq<real>, tries: nat)
    requires Inv(lim, t) && Nondecreasing(readings, t.clock) && tokens >= 1
    requires lim.window >= 0.0 && lim.dailyWindow >= 0.0
    ensures Inv(lim, Acquire(t, lim, tokens, readings, tries).0)
    decreases |readings|
  {
    hide Inv, Attempt;
    if readings != [] {
      AttemptKeepsInv(t, lim, readings[0], tokens);
      var (next, v) := TraceAttempt(t, lim, readings[0], tokens);
      if v.Wait? {
        AcquireKeepsInv(next, lim, tokens, readings[1..], tries + 1);
      }
    }
  }

  lemma FreshInv(lim: Limits, dailyLimit: int, clock: real)
    ensures Inv(lim, Fresh(lim, dailyLimit, clock))
  {
    assert Fresh(lim, dailyLimit, clock).History() == [];
  }

  // ----- Runs -----

  datatype Op =
    | DoAcquire(estimate: int, readings: seq<real>)
    | DoSeed(readAt: real, used: nat, limit: int, retryAfter: Option<real>)

  /**
   A seeding that finds the lock free takes it at its own clock reading. One that has to queue read
   the clock while some call slept with the lock or later, since until then the lock was always
   free at once, and not before an earlier seeding did, since the lock goes round in order.
   */
  ghost predicate OpOk(t: Trace, op: Op) {
    match op
    case DoAcquire(_, readings) => Nondecreasing(readings, t.clock)
    case DoSeed(readAt, _, _, _) =>
      readAt >= t.clock || (t.firstSleep.Some? && t.firstSleep.value <= readAt && (t.seed.Some? ==> t.seed.value.at <= readAt))
  }

  function Step(t: Trace, lim: Limits, op: Op): Trace {
    match op
    case DoAcquire(estimate, readings) => Acquire(t, lim, AtLeastOne(estimate), readings).0
    case DoSeed(readAt, used, limit, retryAfter) => Reseed(t, lim, readAt, used, limit, retryAfter)
  }

  function Run(t: Trace, lim: Limits, ops: seq<Op>): Trace
    decreases |ops|
  {
    if ops == [] then t else Run(Step(t, lim, ops[0]), lim, ops[1..])
  }

  ghost predicate RunOk(t: Trace, lim: Limits, ops: seq<Op>)
    decreases |ops|
  {
    ops != [] ==> OpOk(t, ops[0]) && RunOk(Step(t, lim, ops[0]), lim, ops[1..])
  }

  lemma {:induction false} RunKeepsInv(t: Trace, lim: Limits, ops: seq<Op>)
    requires Inv(lim, t) && RunOk(t, lim, ops) && lim.window >= 0.0 && lim.dailyWindow >= 0.0
    ensures Inv(lim, Run(t, lim, ops))
    decreases |ops|
  {
    if ops != [] {
      match ops[0] {
        case DoAcquire(estimate, readings) =>
          AcquireKeepsInv(t, lim, AtLeastOne(estimate), readings, 0);
        case DoSeed(readAt, used, limit, retryAfter) =>
          ReseedKeepsInv(t, lim, readAt, used, limit, retryAfter);
      }
      RunKeepsInv(Step(t, lim, ops[0]), lim, ops[1..]);
    }
  }

  // ----- Property 1: both windows hold over every run -----

  /** The entries granted in the closed interval [a, b]. */
  function Within(es: seq<Entry>, a: real, b: real): seq<Entry> {
    if es == [] then []
    else
      var last := es[|es| - 1];
      var rest := Within(es[..|es| - 1], a, b);
      if a <= last.at <= b then rest + [last] else rest
  }

  lemma {:induction false} WithinConcat(x: seq<Entry>, y: seq<Entry>, a: real, b: real)
    ensures Within(x + y, a, b) == Within(x, a, b) + Within(y, a, b)
  {
    if y == [] {
      assert x + y == x;
    } else {
      assert (x + y)[..|x + y| - 1] == x + y[..|y| - 1];
      WithinConcat(x, y[..|y| - 1], a, b);
    }
  }

  lemma {:induction false} WithinSurvivesDrop(es: seq<Entry>, c: real, a: real, b: real)
    requires c <= a
    ensures Within(DropOld(es, c), a, b) == Within(es, a, b)
  {
    if es != [] && es[0].at < c {
      WithinSurvivesDrop(es[1..], c, a, b);
      assert es == [es[0]] + es[1..];
      WithinConcat([es[0]], es[1..], a, b);
    }
  }

  lemma {:induction false} WithinIsPart(es: seq<Entry>, a: real, b: real)
    ensures Sum(Within(es, a, b)) <= Sum(es) && |Within(es, a, b)| <= |es|
  {
    if es != [] {
      var init, last := es[..|es| - 1], es[|es| - 1];
      WithinIsPart(init, a, b);
      assert es == init + [last];
      SumConcat(init, [last]);
      SumConcat(Within(init, a, b), [last]);
    }
  }

  /** Any closed interval no longer than the window that holds two grants or more stays within the limit. */
  lemma {:induction false} WindowBound(es: seq<Entry>, window: real, limit: int, a: real, b: real)
    requires Admitted(es, window, limit)
    requires b - a <= window && |Within(es, a, b)| >= 2
    ensures Sum(Within(es, a, b)) <= limit
  {
    var init, last := es[..|es| - 1], es[|es| - 1];
    forall k: nat | k < |init| ensures AdmittedAt(init, k, window, limit) {
      assert AdmittedAt(es, k, window, limit);
      assert init[..k] == es[..k];
    }
    if a <= last.at <= b {
      assert AdmittedAt(es, |es| - 1, window, limit);
      var prior := DropOld(init, last.at - window);
      WithinSurvivesDrop(init, last.at - window, a, b);
      WithinIsPart(prior, a, b);
      SumConcat(Within(init, a, b), [last]);
    } else {
      WindowBound(init, window, limit, a, b);
    }
  }

  /**
   Main result for the windows. In every run from a fresh limiter, seeded any number of times,
   the minute window holds over the whole history; the daily window holds over everything
   since the last seeding with the synthetic entry counted, so over the whole history when
   nothing was seeded.
   */
  lemma RunsStayWithinBothWindows(lim: Limits, dailyLimit: int, start: real, ops: seq<Op>, a: real, b: real)
    requires lim.window >= 0.0 && lim.dailyWindow >= 0.0
    requires RunOk(Fresh(lim, dailyLimit, start), lim, ops)
    ensures var t := Run(Fresh(lim, dailyLimit, start), lim, ops);
            && (b - a <= lim.window && |Within(t.History(), a, b)| >= 2 ==>
                  Sum(Within(t.History(), a, b)) <= lim.perMinute)
            && (b - a <= lim.dailyWindow && |Within(t.Ledger(lim), a, b)| >= 2 ==>
                  Sum(Within(t.Ledger(lim), a, b)) <= t.bucket.dailyLimit)
            && (t.seed.None? ==> t.Ledger(lim) == t.History())
  {
    hide Within, Sum, DropOld, Admitted, Run;
    var t := Run(Fresh(lim, dailyLimit, start), lim, ops);
    FreshInv(lim, dailyLimit, start);
    RunKeepsInv(Fresh(lim, dailyLimit, start), lim, ops);
    if b - a <= lim.window && |Within(t.History(), a, b)| >= 2 {
      WindowBound(t.History(), lim.window, lim.perMinute, a, b);
    }
    if b - a <= lim.dailyWindow && |Within(t.Ledger(lim), a, b)| >= 2 {
      WindowBound(t.Ledger(lim), lim.dailyWindow, t.bucket.dailyLimit, a, b);
    }
  }

  /**
   The limiter never refuses more than it must: a pass grants exactly when both windows,
   computed from the full history, are empty or have room.
   */
  lemma AttemptIsExact(t: Trace, lim: Limits, now: real, tokens: nat)
    requires Inv(lim, t) && t.clock <= now
    ensures var day := DropOld(t.Ledger(lim), now - lim.dailyWindow);
            var minute := DropOld(t.History(), now - lim.window);
            var dayFits := day == [] || Sum(day) + tokens <= t.bucket.dailyLimit;
            var minuteFits := minute == [] || Sum(minute) + tokens <= lim.perMinute;
            var v := TraceAttempt(t, lim, now, tokens).1;
            && (v.Grant? <==> dayFits && minuteFits)
            && (v.DailyExhausted? <==> !dayFits)
  {
    hide DropOld, Sum, Admitted, Sorted;
    KeepsPruned(t.bucket.events, t.History(), t.minuteCut, now - lim.window, lim.window, lim.perMinute);
    KeepsPruned(t.bucket.daily, t.Ledger(lim), t.dayCut, now - lim.dailyWindow, lim.dailyWindow, t.bucket.dailyLimit);
  }

  // ----- Property 2: a real 429 governs the daily window until it resets -----

  lemma SeedNotDropped(t: Trace, lim: Limits, n: nat, now: real)
    requires t.seed.Some? && n <= |t.since| && now <= t.seed.value.at + t.seed.value.retry
    ensures var s := t.seed.value;
            var prior := [Entry(s.at + s.retry - lim.dailyWindow, s.used)] + t.since[..n];
            DropOld(prior, now - lim.dailyWindow) == prior && Sum(prior) == s.used + Sum(t.since[..n])
  {
    var s := t.seed.value;
    SumConcat([Entry(s.at + s.retry - lim.dailyWindow, s.used)], t.since[..n]);
  }

  /** Every grant made since the seeding took effect, up to the reported reset, fits on top of the real usage. */
  lemma SeededGrantsFit(t: Trace, lim: Limits, k: nat)
    requires Inv(lim, t) && t.seed.Some? && k < |t.since|
    requires t.since[k].at <= t.seed.value.at + t.seed.value.retry
    ensures t.seed.value.used + Sum(t.since[..k + 1]) <= t.bucket.dailyLimit
  {
    var ledger := t.Ledger(lim);
    SeedNotDropped(t, lim, k, t.since[k].at);
    assert AdmittedAt(ledger, k + 1, lim.dailyWindow, t.bucket.dailyLimit);
    assert ledger[..k + 1] == [ledger[0]] + t.since[..k];
    assert t.since[..k + 1] == t.since[..k] + [t.since[k]];
    SumConcat(t.since[..k], [t.since[k]]);
  }

  /** With the daily quota already used up there is no grant at all before the reset. */
  lemma NoGrantWhileUsedUp(t: Trace, lim: Limits, e: Entry)
    requires Inv(lim, t) && t.seed.Some? && t.seed.value.used >= t.bucket.dailyLimit
    requires e in t.since
    ensures e.at > t.seed.value.at + t.seed.value.retry
  {
    var k: nat :| k < |t.since| && t.since[k] == e;
    assert t.since[..k + 1] == t.since[..k] + [e];
    SumConcat(t.since[..k], [e]);
    assert e in t.History();
    if e.at <= t.seed.value.at + t.seed.value.retry {
      SeededGrantsFit(t, lim, k);
    }
  }

  /** Until the reported reset a pass fails fast exactly when the request does not fit, and reports that same reset. */
  lemma SeededAttempt(t: Trace, lim: Limits, now: real, tokens: nat)
    requires Inv(lim, t) && t.seed.Some? && t.clock <= now <= t.seed.value.at + t.seed.value.retry
    ensures var s := t.seed.value;
            var v := TraceAttempt(t, lim, now, tokens).1;
            && (v.DailyExhausted? <==> s.used + Sum(t.since) + tokens > t.bucket.dailyLimit)
            && (v.DailyExhausted? ==> now + v.resetIn == s.at + s.retry)
  {
    DropTwice(t.Ledger(lim), t.dayCut, now - lim.dailyWindow);
    SeedNotDropped(t, lim, |t.since|, now);
    assert t.since[..|t.since|] == t.since;
  }

  // ----- The same promise by the clock -----

  lemma {:induction false} WithinAll(es: seq<Entry>, a: real, b: real)
    requires forall e | e in es :: a <= e.at <= b
    ensures Within(es, a, b) == es
  {
    if es != [] {
      WithinAll(es[..|es| - 1], a, b);
      assert es == es[..|es| - 1] + [es[|es| - 1]];
    }
  }

  lemma {:induction false} WithinMembers(es: seq<Entry>, a: real, b: real, e: Entry)
    ensures e in Within(es, a, b) <==> e in es && a <= e.at <= b
  {
    if es != [] {
      WithinMembers(es[..|es| - 1], a, b, e);
      assert es == es[..|es| - 1] + [es[|es| - 1]];
    }
  }

  lemma {:induction false} PositiveSum(es: seq<Entry>)
    requires forall e | e in es :: e.tokens >= 1
    ensures Sum(es) == 0 <==> es == []
  {
    if es != [] {
      assert es[0] in es;
    }
  }

  /** A grant that was made at or after the seeding's clock reading and that the seeding forgot. */
  ghost predicate LostGrant(t: Trace) {
    t.seed.Some? && exists e | e in t.before :: e.at >= t.seed.value.at
  }

  /**
   What the 429 promised, by the clock: at every grant up to the reported reset, the real usage and
   everything granted from its clock reading to that grant fit the limit.
   */
  ghost predicate BoundByClock(t: Trace) {
    t.seed.Some? ==>
      forall k: nat | k < |t.since| && t.since[k].at <= t.seed.value.at + t.seed.value.retry ::
        t.seed.value.used + Sum(Within(t.before + t.since[..k + 1], t.seed.value.at, t.since[k].at)) <= t.bucket.dailyLimit
  }

  lemma BoundAtWithoutLoss(t: Trace, lim: Limits, k: nat)
    requires Inv(lim, t) && t.seed.Some? && !LostGrant(t)
    requires k < |t.since| && t.since[k].at <= t.seed.value.at + t.seed.value.retry
    ensures t.seed.value.used + Sum(Within(t.before + t.since[..k + 1], t.seed.value.at, t.since[k].at)) <= t.bucket.dailyLimit
  {
    SeededGrantsFit(t, lim, k);
    hide Inv, Sum, Within;
    var from, to := t.seed.value.at, t.since[k].at;
    WithinConcat(t.before, t.since[..k + 1], from, to);
    WithinNothing(t.before, from, to);
    WithinIsPart(t.since[..k + 1], from, to);
    assert [] + Within(t.since[..k + 1], from, to) == Within(t.since[..k + 1], from, to);
  }

  /** Where no grant was lost the promise is kept in every state of every run. */
  lemma BoundWithoutLoss(t: Trace, lim: Limits)
    requires Inv(lim, t) && !LostGrant(t)
    ensures BoundByClock(t)
  {
    hide Inv, LostGrant, Within, Sum;
    if t.seed.Some? {
      forall k: nat | k < |t.since| && t.since[k].at <= t.seed.value.at + t.seed.value.retry
        ensures t.seed.value.used + Sum(Within(t.before + t.since[..k + 1], t.seed.value.at, t.since[k].at)) <= t.bucket.dailyLimit
      {
        BoundAtWithoutLoss(t, lim, k);
      }
    }
  }

  lemma {:induction false} WithinNothing(es: seq<Entry>, a: real, b: real)
    requires forall e | e in es :: e.at < a
    ensures Within(es, a, b) == []
  {
    if es != [] {
      WithinNothing(es[..|es| - 1], a, b);
      assert es[|es| - 1] in es;
    }
  }

  ghost predicate OnlyAcquires(ops: seq<Op>) {
    forall op | op in ops :: op.DoAcquire?
  }

  /** The promise in every run of acquires up to the next seeding. */
  ghost predicate PromiseKept(t: Trace, lim: Limits) {
    forall ops | OnlyAcquires(ops) && RunOk(t, lim, ops) :: BoundByClock(Run(t, lim, ops))
  }

  lemma SumOfOne(e: Entry)
    ensures Sum([e]) == e.tokens
  {
  }

  lemma LostCounts(before: seq<Entry>, from: real, to: real, since: seq<Entry>)
    requires forall e | e in before :: e.at <= to && e.tokens >= 1
    requires exists e | e in before :: e.at >= from
    requires from <= to && forall e | e in since :: e.at == to
    ensures Sum(Within(before + since, from, to)) > Sum(since)
  {
    WithinConcat(before, since, from, to);
    WithinAll(since, from, to);
    var lost := Within(before, from, to);
    SumConcat(lost, since);
    forall e ensures e in lost <==> e in before && from <= e.at <= to {
      WithinMembers(before, from, to, e);
    }
    PositiveSum(lost);
  }

  /** Acquires add grants that are no earlier than the clock, and change nothing else of this. */
  ghost predicate OnlyGrants(t: Trace, next: Trace) {
    && next.seed == t.seed && next.before == t.before && next.bucket.dailyLimit == t.bucket.dailyLimit
    && next.clock >= t.clock && forall e | e in next.since :: e in t.since || e.at >= t.clock
  }

  lemma {:induction false} AcquireOnlyGrants(t: Trace, lim: Limits, tokens: nat, readings: seq<real>, tries: nat)
    requires Nondecreasing(readings, t.clock)
    ensures OnlyGrants(t, Acquire(t, lim, tokens, readings, tries).0)
    decreases |readings|
  {
    if readings != [] {
      var (next, v) := TraceAttempt(t, lim, readings[0], tokens);
      AcquireOnlyGrants(next, lim, tokens, readings[1..], tries + 1);
    }
  }

  lemma {:induction false} AcquiresOnlyGrant(t: Trace, lim: Limits, ops: seq<Op>)
    requires OnlyAcquires(ops) && RunOk(t, lim, ops)
    ensures OnlyGrants(t, Run(t, lim, ops))
    decreases |ops|
  {
    if ops != [] {
      assert ops[0] in ops;
      AcquireOnlyGrants(t, lim, AtLeastOne(ops[0].estimate), ops[0].readings, 0);
      AcquiresOnlyGrant(Step(t, lim, ops[0]), lim, ops[1..]);
    }
  }

  // ----- When the promise is kept -----

  function Reset(t: Trace): real
    requires t.seed.Some?
  {
    t.seed.value.at + t.seed.value.retry
  }

  /** What was granted from the seeding's clock reading until it took effect. */
  function LostTokens(t: Trace): nat
    requires t.seed.Some?
  {
    Sum(Within(t.before, t.seed.value.at, t.clock))
  }

  /** The most that can be granted up to the reset: what the seeded budget leaves, and the minute window at that time. */
  function Room(t: Trace, lim: Limits): int
    requires t.seed.Some?
  {
    var byDay := t.bucket.dailyLimit - t.seed.value.used;
    var minute := DropOld(t.bucket.events, Reset(t) - lim.window);
    if minute == [] || byDay <= lim.perMinute - Sum(minute) then byDay else lim.perMinute - Sum(minute)
  }

  lemma {:induction false} DropLater(es: seq<Entry>, c: real, d: real)
    requires c <= d
    ensures Sum(DropOld(es, d)) <= Sum(DropOld(es, c)) && (DropOld(es, d) != [] ==> DropOld(es, c) != [])
  {
    DropTwice(es, c, d);
    DropShrinks(DropOld(es, c), d);
  }

  lemma {:induction false} DropInSum(es: seq<Entry>, more: seq<Entry>, c: real)
    requires DropOld(es, c) != []
    ensures DropOld(es + more, c) == DropOld(es, c) + more
  {
    if es[0].at < c {
      DropInSum(es[1..], more, c);
      assert (es + more)[1..] == es[1..] + more;
    }
  }

  /** Grants whose windows reach back to something common share the limit with it. */
  lemma MinuteShare(before: seq<Entry>, since: seq<Entry>, k: nat, cut: real, window: real, limit: int)
    requires k < |since| && AdmittedAt(before + since, |before| + k, window, limit)
    requires since[k].at - window <= cut && DropOld(before, cut) != []
    ensures Sum(DropOld(before, cut)) + Sum(since[..k + 1]) <= limit
  {
    hide DropOld, Sum;
    var n := |before|;
    assert (before + since)[..n + k] == before + since[..k] && (before + since)[n + k] == since[k];
    DropInSum(before, since[..k], cut);
    SumConcat(DropOld(before, cut), since[..k]);
    DropLater(before + since[..k], since[k].at - window, cut);
    assert since[..k + 1] == since[..k] + [since[k]];
    SumConcat(since[..k], [since[k]]);
    SumOfOne(since[k]);
  }

  /** As long as the minute window holds something at the reset, all grants up to it share that window. */
  lemma MinuteRoom(t: Trace, end: Trace, lim: Limits, k: nat)
    requires Inv(lim, t) && t.seed.Some? && t.since == [] && t.clock <= Reset(t)
    requires Inv(lim, end) && end.before == t.before && k < |end.since| && end.since[k].at <= Reset(t)
    requires DropOld(t.bucket.events, Reset(t) - lim.window) != []
    ensures Sum(DropOld(t.bucket.events, Reset(t) - lim.window)) + Sum(end.since[..k + 1]) <= lim.perMinute
  {
    hide Inv, DropOld, Sum, AdmittedAt;
    EventsArePruned(t, lim, Reset(t) - lim.window);
    GrantWasAdmitted(end, lim, |t.before| + k);
    MinuteShare(t.before, end.since, k, Reset(t) - lim.window, lim.window, lim.perMinute);
  }

  lemma EventsArePruned(t: Trace, lim: Limits, cut: real)
    requires Inv(lim, t) && t.since == [] && t.clock - lim.window <= cut
    ensures DropOld(t.bucket.events, cut) == DropOld(t.before, cut)
  {
    hide Admitted, Sorted;
    assert t.History() == t.before;
    DropTwice(t.before, t.minuteCut, cut);
  }

  lemma GrantWasAdmitted(t: Trace, lim: Limits, i: nat)
    requires Inv(lim, t) && i < |t.before + t.since|
    ensures AdmittedAt(t.before + t.since, i, lim.window, lim.perMinute)
  {
    hide AdmittedAt, DropOld, Sorted;
  }

  lemma GrantsWithinRoom(t: Trace, end: Trace, lim: Limits, k: nat)
    requires Inv(lim, t) && t.seed.Some? && t.since == [] && t.clock <= Reset(t)
    requires Inv(lim, end) && OnlyGrants(t, end) && k < |end.since| && end.since[k].at <= Reset(t)
    ensures Sum(end.since[..k + 1]) <= Room(t, lim)
  {
    hide Inv, DropOld, Sum;
    SeededGrantsFit(end, lim, k);
    if DropOld(t.bucket.events, Reset(t) - lim.window) != [] {
      MinuteRoom(t, end, lim, k);
    }
  }

  lemma SinceInOrder(t: Trace, end: Trace, lim: Limits, k: nat)
    requires Inv(lim, end) && OnlyGrants(t, end) && t.since == [] && t.seed.Some? && k < |end.since|
    ensures t.clock <= end.since[k].at && end.since[k].tokens >= 1
    ensures forall e | e in end.since[..k + 1] :: t.seed.value.at <= e.at <= end.since[k].at
  {
    hide Keeps;
    var log, n := end.History(), |t.before|;
    assert log[n + k] == end.since[k] && end.since[k] in end.since;
    forall e | e in end.since[..k + 1] ensures t.seed.value.at <= e.at <= end.since[k].at {
      var i :| 0 <= i < k + 1 && end.since[i] == e;
      assert log[n + i] == e && e in end.since;
    }
  }

  lemma BeforeInOrder(t: Trace, lim: Limits)
    requires Inv(lim, t)
    ensures forall e | e in t.before :: e.at <= t.clock
  {
    hide Keeps, Sorted;
    assert forall e | e in t.before :: e in t.History();
  }

  /** By the clock, what was lost comes on top. */
  lemma ClockCount(t: Trace, end: Trace, lim: Limits, k: nat)
    requires Inv(lim, t) && t.seed.Some? && t.since == []
    requires Inv(lim, end) && OnlyGrants(t, end) && k < |end.since|
    ensures Sum(Within(end.before + end.since[..k + 1], t.seed.value.at, end.since[k].at))
         == LostTokens(t) + Sum(end.since[..k + 1])
  {
    hide Inv, Within, Sum;
    var from, to := t.seed.value.at, end.since[k].at;
    SinceInOrder(t, end, lim, k);
    BeforeInOrder(t, lim);
    WithinConcat(t.before, end.since[..k + 1], from, to);
    WithinAll(end.since[..k + 1], from, to);
    WithinUpTo(t.before, from, t.clock, to);
    SumConcat(Within(t.before, from, to), end.since[..k + 1]);
  }

  lemma {:induction false} WithinUpTo(es: seq<Entry>, a: real, b: real, c: real)
    requires b <= c && forall e | e in es :: e.at <= b
    ensures Within(es, a, b) == Within(es, a, c)
  {
    if es != [] {
      WithinUpTo(es[..|es| - 1], a, b, c);
      assert es[|es| - 1] in es;
    }
  }

  /** Whether the promise survives the seeding: the reset is past, nothing can be granted before it, or even the most that can leaves room for what was lost. */
  predicate LeavesRoom(t: Trace, lim: Limits)
    requires t.seed.Some?
  {
    || Reset(t) < t.clock
    || Room(t, lim) < 1
    || t.seed.value.used + LostTokens(t) + Room(t, lim) <= t.bucket.dailyLimit
  }

  lemma BoundAt(t: Trace, end: Trace, lim: Limits, k: nat)
    requires Inv(lim, t) && t.seed.Some? && t.since == [] && LeavesRoom(t, lim)
    requires Inv(lim, end) && OnlyGrants(t, end) && k < |end.since| && end.since[k].at <= Reset(t)
    ensures t.seed.value.used + Sum(Within(end.before + end.since[..k + 1], t.seed.value.at, end.since[k].at)) <= t.bucket.dailyLimit
  {
    hide Inv, DropOld, Within, Sum, Room, LostTokens;
    SinceInOrder(t, end, lim, k);
    ClockCount(t, end, lim, k);
    GrantsWithinRoom(t, end, lim, k);
    assert end.since[..k + 1] == end.since[..k] + [end.since[k]];
    SumConcat(end.since[..k], [end.since[k]]);
    SumOfOne(end.since[k]);
  }

  lemma RoomKeepsPromise(t: Trace, lim: Limits)
    requires Inv(lim, t) && t.seed.Some? && t.since == [] && LeavesRoom(t, lim)
    requires lim.window >= 0.0 && lim.dailyWindow >= 0.0
    ensures PromiseKept(t, lim)
  {
    hide Inv, OnlyAcquires, RunOk, LeavesRoom, Within, Sum, Run;
    forall ops | OnlyAcquires(ops) && RunOk(t, lim, ops) ensures BoundByClock(Run(t, lim, ops)) {
      var end := Run(t, lim, ops);
      RunKeepsInv(t, lim, ops);
      AcquiresOnlyGrant(t, lim, ops);
      forall k: nat | k < |end.since| && end.since[k].at <= end.seed.value.at + end.seed.value.retry
        ensures end.seed.value.used + Sum(Within(end.before + end.since[..k + 1], end.seed.value.at, end.since[k].at)) <= end.bucket.dailyLimit
      {
        BoundAt(t, end, lim, k);
      }
    }
  }

  /** All the room, asked for at the very reset, is granted. */
  lemma RoomIsGranted(t: Trace, lim: Limits)
    requires Inv(lim, t) && t.seed.Some? && t.since == [] && t.clock <= Reset(t) && Room(t, lim) >= 1
    ensures TraceAttempt(t, lim, Reset(t), Room(t, lim)).1 == Grant
    ensures TraceAttempt(t, lim, Reset(t), Room(t, lim)).0.since == [Entry(Reset(t), Room(t, lim))]
  {
    hide Admitted, Sorted, Sum;
    var s := t.seed.value;
    SeedNotDropped(t, lim, 0, Reset(t));
    DropTwice(t.Ledger(lim), t.dayCut, Reset(t) - lim.dailyWindow);
    assert t.Ledger(lim) == [Entry(Reset(t) - lim.dailyWindow, s.used)] + t.since[..0];
    assert Sum(t.since[..0]) == 0 by { NothingGranted(); }
  }

  lemma NothingGranted()
    ensures Sum([]) == 0
  {
  }

  lemma RoomIsAcquired(t: Trace, lim: Limits, op: Op)
    requires Inv(lim, t) && t.seed.Some? && t.since == [] && t.clock <= Reset(t) && Room(t, lim) >= 1
    requires op == DoAcquire(Room(t, lim), [Reset(t)])
    ensures OpOk(t, op) && OnlyGrants(t, Step(t, lim, op))
    ensures Step(t, lim, op).since == [Entry(Reset(t), Room(t, lim))]
  {
    RoomIsGranted(t, lim);
    hide Inv, Attempt;
    AcquireOnlyGrants(t, lim, op.estimate, op.readings, 0);
  }

  lemma OneAcquire(t: Trace, lim: Limits, op: Op)
    requires op.DoAcquire? && OpOk(t, op)
    ensures OnlyAcquires([op]) && RunOk(t, lim, [op]) && Run(t, lim, [op]) == Step(t, lim, op)
  {
    hide Step, OpOk;
    var end := Step(t, lim, op);
    assert [op][1..] == [] && RunOk(end, lim, []) && Run(end, lim, []) == end;
  }

  lemma PromiseBroken(t: Trace, lim: Limits, ops: seq<Op>)
    requires OnlyAcquires(ops) && RunOk(t, lim, ops) && !BoundByClock(Run(t, lim, ops))
    ensures !PromiseKept(t, lim)
  {
  }

  /** That grant comes on top of what was lost. */
  lemma NoRoomBreaksPromise(t: Trace, lim: Limits)
    requires Inv(lim, t) && t.seed.Some? && t.since == [] && !LeavesRoom(t, lim)
    requires lim.window >= 0.0 && lim.dailyWindow >= 0.0
    ensures !PromiseKept(t, lim)
  {
    hide Inv, TraceAttempt, Acquire, RunOk, Run, Step, OpOk, PromiseKept, Room, Within, Sum, LostTokens, BoundByClock;
    var op := DoAcquire(Room(t, lim), [Reset(t)]);
    RoomIsAcquired(t, lim, op);
    OneAcquire(t, lim, op);
    RunKeepsInv(t, lim, [op]);
    var end := Step(t, lim, op);
    ClockCount(t, end, lim, 0);
    SumOfOne(end.since[0]);
    assert end.since[..0 + 1] == end.since;
    OverAtFirst(end);
    PromiseBroken(t, lim, [op]);
  }

  lemma OverAtFirst(t: Trace)
    requires t.seed.Some? && t.since != [] && t.since[0].at <= t.seed.value.at + t.seed.value.retry
    requires t.seed.value.used + Sum(Within(t.before + t.since[..0 + 1], t.seed.value.at, t.since[0].at)) > t.bucket.dailyLimit
    ensures !BoundByClock(t)
  {
  }

  /**
   Exactly when a seeding keeps its promise by the clock in every run that follows, up to the next
   seeding. So it does when nothing was lost, and when the reset lies beyond the end of the minute
   window, only then or with nothing left to grant.
   */
  lemma SeedPromiseIff(t: Trace, lim: Limits)
    requires Inv(lim, t) && t.seed.Some? && t.since == [] && lim.window >= 0.0 && lim.dailyWindow >= 0.0
    ensures PromiseKept(t, lim) <==> LeavesRoom(t, lim)
    ensures LostTokens(t) == 0 ==> PromiseKept(t, lim)
    ensures t.clock <= Reset(t) && (forall e | e in t.bucket.events :: e.at + lim.window < Reset(t)) ==>
              (PromiseKept(t, lim) <==> LostTokens(t) == 0 || t.seed.value.used >= t.bucket.dailyLimit)
  {
    hide Inv, PromiseKept, LostTokens;
    if LeavesRoom(t, lim) {
      RoomKeepsPromise(t, lim);
    } else {
      NoRoomBreaksPromise(t, lim);
    }
    if forall e | e in t.bucket.events :: e.at + lim.window < Reset(t) {
      DropsAll(t.bucket.events, Reset(t) - lim.window);
    }
  }

  /** One grant that uses up the seeded budget is over it by what was lost. */
  lemma LostBreaksBound(t: Trace, e: Entry)
    requires t.seed.Some? && t.since == [e] && e.at <= t.seed.value.at + t.seed.value.retry
    requires t.seed.value.used + e.tokens == t.bucket.dailyLimit && t.seed.value.at <= e.at
    requires LostGrant(t) && forall x | x in t.before :: x.at <= e.at && x.tokens >= 1
    ensures !BoundByClock(t)
  {
    hide Within, Sum;
    LostCounts(t.before, t.seed.value.at, e.at, t.since);
    SumOfOne(e);
    assert t.since[..0 + 1] == t.since && t.since[0] == e;
  }

  const STALE_LIMITS := Limits(100, 60.0, 86400.0)
  const STALE_OPS := [DoAcquire(100, [0.0]), DoAcquire(100, [1.0, 61.0]), DoSeed(5.0, 100, 200, None), DoAcquire(100, [122.0])]

  lemma StaleUntilSeed(t: Trace)
    requires t == Fresh(STALE_LIMITS, 1000, 0.0)
    ensures var t2 := Step(Step(t, STALE_LIMITS, STALE_OPS[0]), STALE_LIMITS, STALE_OPS[1]);
            && t2.bucket == Bucket([Entry(61.0, 100)], [Entry(0.0, 100), Entry(61.0, 100)], 1000)
            && t2.before == [] && t2.since == [Entry(0.0, 100), Entry(61.0, 100)] && t2.seed == None
            && t2.clock == 61.0 && t2.firstSleep == Some(1.0) && Step(t, STALE_LIMITS, STALE_OPS[0]).clock == 0.0
  {
    var lim := STALE_LIMITS;
    var t1 := Step(t, lim, STALE_OPS[0]);
    assert t1.bucket == Bucket([Entry(0.0, 100)], [Entry(0.0, 100)], 1000) && t1.since == [Entry(0.0, 100)];
    StaleSleep(t1);
  }

  lemma StaleSleep(t: Trace)
    requires t.bucket == Bucket([Entry(0.0, 100)], [Entry(0.0, 100)], 1000) && t.before == [] && t.since == [Entry(0.0, 100)]
    requires t.seed == None && t.firstSleep == None
    ensures var t2 := Step(t, STALE_LIMITS, STALE_OPS[1]);
            && t2.bucket == Bucket([Entry(61.0, 100)], [Entry(0.0, 100), Entry(61.0, 100)], 1000)
            && t2.before == [] && t2.since == [Entry(0.0, 100), Entry(61.0, 100)] && t2.seed == None
            && t2.clock == 61.0 && t2.firstSleep == Some(1.0)
  {
    var lim := STALE_LIMITS;
    SumOfOne(Entry(0.0, 100));
    var (m, v) := TraceAttempt(t, lim, 1.0, 100);
    assert v == Wait(59.0) && m.bucket == t.bucket && m.firstSleep == Some(1.0);
    assert [1.0, 61.0][1..] == [61.0];
    assert Acquire(t, lim, 100, [1.0, 61.0], 0).0 == Acquire(m, lim, 100, [61.0], 1).0 == TraceAttempt(m, lim, 61.0, 100).0;
  }

  lemma StaleAfterSeed(t: Trace)
    requires t.bucket == Bucket([Entry(61.0, 100)], [Entry(5.0, 100)], 200) && t.since == [] && t.clock <= 122.0
    ensures var t4 := Step(t, STALE_LIMITS, STALE_OPS[3]);
            t4.since == [Entry(122.0, 100)] && t4.before == t.before && t4.seed == t.seed && t4.bucket.dailyLimit == 200
  {
    SumOfOne(Entry(5.0, 100));
    AcquireOnlyGrants(t, STALE_LIMITS, 100, [122.0], 0);
    assert TraceAttempt(t, STALE_LIMITS, 122.0, 100).1 == Grant;
  }

  /**
   The loss happens: an acquire sleeps from 1 to 61 with the lock, a seeding reads the clock at 5,
   queues, and takes effect after the grant at 61. Of a limit of 200 the 429 had seen 100 used; with the
   grant at 122 the usage since its reading is 300.
   */
  lemma StaleSeedForgetsGrants()
    ensures var start := Fresh(STALE_LIMITS, 1000, 0.0);
            var t := Run(start, STALE_LIMITS, STALE_OPS);
            && RunOk(start, STALE_LIMITS, STALE_OPS)
            && t.seed == Some(Seed(5.0, 100, 86400.0)) && t.bucket.dailyLimit == 200
            && t.History() == [Entry(0.0, 100), Entry(61.0, 100), Entry(122.0, 100)]
            && !BoundByClock(t)
  {
    hide Acquire, Run, RunOk, Within, Sum, BoundByClock;
    var lim, ops, t0 := STALE_LIMITS, STALE_OPS, Fresh(STALE_LIMITS, 1000, 0.0);
    StaleUntilSeed(t0);
    var t1 := Step(t0, lim, ops[0]);
    var t2 := Step(t1, lim, ops[1]);
    var t3 := Step(t2, lim, ops[2]);
    StaleAfterSeed(t3);
    var t4 := Step(t3, lim, ops[3]);
    assert OpOk(t0, ops[0]) && OpOk(t1, ops[1]) && OpOk(t2, ops[2]) && OpOk(t3, ops[3]);
    assert t4.before == [Entry(0.0, 100), Entry(61.0, 100)] && t4.since == [Entry(122.0, 100)];
    hide Step, OpOk;
    FourSteps(t0, lim, ops);
    assert t4.before[1].at >= 5.0;
    LostBreaksBound(t4, Entry(122.0, 100));
  }

  lemma FourSteps(t: Trace, lim: Limits, ops: seq<Op>)
    requires |ops| == 4
    requires var t1 := Step(t, lim, ops[0]);
             var t2 := Step(t1, lim, ops[1]);
             var t3 := Step(t2, lim, ops[2]);
             OpOk(t, ops[0]) && OpOk(t1, ops[1]) && OpOk(t2, ops[2]) && OpOk(t3, ops[3])
    ensures RunOk(t, lim, ops)
    ensures Run(t, lim, ops) == Step(Step(Step(Step(t, lim, ops[0]), lim, ops[1]), lim, ops[2]), lim, ops[3])
  {
    hide Step, OpOk;
    var t1 := Step(t, lim, ops[0]);
    var t2 := Step(t1, lim, ops[1]);
    var t3 := Step(t2, lim, ops[2]);
    var t4 := Step(t3, lim, ops[3]);
    assert ops[1..][1..] == ops[2..] && ops[2..][1..] == ops[3..] && ops[3..][1..] == [];
    assert RunOk(t4, lim, []) && Run(t4, lim, []) == t4;
    assert RunOk(t3, lim, ops[3..]) && Run(t3, lim, ops[3..]) == t4;
    assert RunOk(t2, lim, ops[2..]) && Run(t2, lim, ops[2..]) == t4;
    assert RunOk(t1, lim, ops[1..]) && Run(t1, lim, ops[1..]) == t4;
  }

  // ----- Property 3: waiting -----

  lemma HeadIsOldest(es: seq<Entry>, c: real)
    requires Sorted(es) && DropOld(es, c) != []
    ensures DropOld(es, c)[0].at >= c && forall e | e in DropOld(es, c) :: DropOld(es, c)[0].at <= e.at
  {
    var n := DropIsSuffix(es, c);
  }

  /** A sleep ends when the oldest entry ages out, so never later than the newest entry plus the window. */
  lemma SleepEndsWithOldest(t: Trace, lim: Limits, now: real, tokens: nat)
    requires Inv(lim, t) && t.clock <= now && TraceAttempt(t, lim, now, tokens).1.Wait?
    ensures var (next, v) := TraceAttempt(t, lim, now, tokens);
            && next.bucket.events != [] && v.sleepFor >= 0.0
            && now + v.sleepFor == next.bucket.events[0].at + lim.window
            && forall e | e in next.bucket.events :: now + v.sleepFor <= e.at + lim.window
  {
    hide DropOld, Sum, Admitted;
    KeepsPruned(t.bucket.events, t.History(), t.minuteCut, now - lim.window, lim.window, lim.perMinute);
    HeadIsOldest(t.History(), now - lim.window);
  }

  lemma {:induction false} DropsAll(es: seq<Entry>, c: real)
    requires forall e | e in es :: e.at < c
    ensures DropOld(es, c) == []
  {
    if es != [] {
      assert es[0] in es;
      DropsAll(es[1..], c);
    }
  }

  /** Past the newest entry plus the window there is nothing left to wait for: the call is granted or fails fast. */
  lemma NoWaitPastNewest(t: Trace, lim: Limits, now: real, tokens: nat)
    requires forall e | e in t.bucket.events :: e.at + lim.window < now
    ensures !TraceAttempt(t, lim, now, tokens).1.Wait?
  {
    DropsAll(t.bucket.events, now - lim.window);
  }

  /**
   Waking strictly past the deadline drops at least one entry; waking exactly on it drops
   none, and the loop goes round again with a zero sleep.
   */
  lemma WakeUp(t: Trace, lim: Limits, now: real, wake: real, tokens: nat)
    requires TraceAttempt(t, lim, now, tokens).1.Wait?
    requires wake >= now + TraceAttempt(t, lim, now, tokens).1.sleepFor && wake >= now
    ensures var (mid, v) := TraceAttempt(t, lim, now, tokens);
            var (next, w) := TraceAttempt(mid, lim, wake, tokens);
            && !w.DailyExhausted?
            && (wake > now + v.sleepFor ==> |DropOld(mid.bucket.events, wake - lim.window)| < |mid.bucket.events|)
            && (wake == now + v.sleepFor ==> w == Wait(0.0) && next.bucket.events == mid.bucket.events)
  {
    var mid := TraceAttempt(t, lim, now, tokens).0;
    DropShrinks(mid.bucket.daily, wake - lim.dailyWindow);
    DropShrinks(mid.bucket.events, wake - lim.window);
  }

  /** Every wake-up comes strictly after the deadline it slept for. */
  ghost predicate WakesPastDeadlines(t: Trace, lim: Limits, tokens: nat, readings: seq<real>)
    decreases |readings|
  {
    |readings| > 1 ==>
      var (next, v) := TraceAttempt(t, lim, readings[0], tokens);
      v.Wait? ==> readings[1] > readings[0] + v.sleepFor
                  && WakesPastDeadlines(next, lim, tokens, readings[1..])
  }

  lemma {:induction false} AcquireTerminatesFrom(t: Trace, lim: Limits, tokens: nat, readings: seq<real>, tries: nat)
    requires WakesPastDeadlines(t, lim, tokens, readings) && readings != [] && |readings| >= |t.bucket.events|
    requires t.bucket.events != [] ==> readings[0] > t.bucket.events[0].at + lim.window
    ensures Acquire(t, lim, tokens, readings, tries).1 != StillWaiting
    decreases |readings|
  {
    var (next, v) := TraceAttempt(t, lim, readings[0], tokens);
    DropShrinks(t.bucket.events, readings[0] - lim.window);
    if v.Wait? {
      AcquireTerminatesFrom(next, lim, tokens, readings[1..], tries + 1);
    }
  }

  /** Then `acquire` comes to an end after at most one look at the clock more than there are entries to wait for. */
  lemma AcquireLooks(t: Trace, lim: Limits, tokens: nat, readings: seq<real>)
    requires WakesPastDeadlines(t, lim, tokens, readings) && |readings| > |t.bucket.events|
    ensures Acquire(t, lim, tokens, readings).1 != StillWaiting
  {
    var (next, v) := TraceAttempt(t, lim, readings[0], tokens);
    DropShrinks(t.bucket.events, readings[0] - lim.window);
    if v.Wait? {
      AcquireTerminatesFrom(next, lim, tokens, readings[1..], 1);
    }
  }

  /**
   `acquire` terminates once the clock has passed the newest entry plus the window, however
   many of its wake-ups came early or exactly on the deadline before.
   */
  lemma {:induction false} AcquireTerminates(t: Trace, lim: Limits, tokens: nat, readings: seq<real>, tries: nat, i: nat)
    requires i < |readings| && forall e | e in t.bucket.events :: e.at + lim.window < readings[i]
    ensures Acquire(t, lim, tokens, readings, tries).1 != StillWaiting
    decreases |readings|
  {
    if i == 0 {
      NoWaitPastNewest(t, lim, readings[0], tokens);
    } else if TraceAttempt(t, lim, readings[0], tokens).1.Wait? {
      DropShrinks(t.bucket.events, readings[0] - lim.window);
      AcquireTerminates(TraceAttempt(t, lim, readings[0], tokens).0, lim, tokens, readings[1..], tries + 1, i - 1);
    }
  }

  /** A grant is dated by the reading at which the call stopped waiting, and nothing is granted otherwise. */
  lemma {:induction false} GrantIsDated(t: Trace, lim: Limits, tokens: nat, readings: seq<real>, tries: nat)
    ensures var (next, o) := Acquire(t, lim, tokens, readings, tries);
            && (o.Granted? ==> tries < o.tries <= tries + |readings|
                               && next.since == t.since + [Entry(readings[o.tries - tries - 1], tokens)])
            && (!o.Granted? ==> next.since == t.since)
    decreases |readings|
  {
    hide Attempt;
    if readings != [] {
      var (next, v) := TraceAttempt(t, lim, readings[0], tokens);
      if v.Wait? {
        GrantIsDated(next, lim, tokens, readings[1..], tries + 1);
      }
    }
  }

  /** The daily-quota exception is only ever raised at the first look at the clock, before any sleep. */
  lemma {:induction false} ExhaustedBeforeAnySleep(t: Trace, lim: Limits, tokens: nat, readings: seq<real>, tries: nat)
    requires Nondecreasing(readings, t.clock)
    ensures var o := Acquire(t, lim, tokens, readings, tries).1;
            o.Exhausted? ==> o.tries == tries + 1 && readings != []
                             && TraceAttempt(t, lim, readings[0], tokens).1 == DailyExhausted(o.resetIn)
    decreases |readings|
  {
    if readings != [] && TraceAttempt(t, lim, readings[0], tokens).1.Wait? {
      var next := TraceAttempt(t, lim, readings[0], tokens).0;
      ExhaustedBeforeAnySleep(next, lim, tokens, readings[1..], tries + 1);
      if |readings| > 1 {
        DropShrinks(next.bucket.daily, readings[1] - lim.dailyWindow);
      }
    }
  }

  // ----- The limiter itself -----

  class TokenBucketLimiter {
    const limit: int
    const windowSeconds: real
    const tpdWindowSeconds: real
    var tpdLimit: int
    var events: seq<Entry>
    var tpdEvents: seq<Entry>
    ghost var trace: Trace

    ghost function Lim(): Limits {
      Limits(limit, windowSeconds, tpdWindowSeconds)
    }

    ghost predicate Valid()
      reads this
    {
      && windowSeconds >= 0.0 && tpdWindowSeconds >= 0.0
      && trace.bucket == Bucket(events, tpdEvents, tpdLimit)
      && Inv(Lim(), trace)
    }

    constructor (limit: int, windowSeconds: real, tpdLimit: int, tpdWindowSeconds: real, ghost clock: real)
      requires windowSeconds >= 0.0 && tpdWindowSeconds >= 0.0
      ensures Valid() && Lim() == Limits(limit, windowSeconds, tpdWindowSeconds)
      ensures trace == Fresh(Lim(), tpdLimit, clock)
    {
      this.limit, this.windowSeconds := limit, windowSeconds;
      this.tpdLimit, this.tpdWindowSeconds := tpdLimit, tpdWindowSeconds;
      events, tpdEvents := [], [];
      trace := Fresh(Limits(limit, windowSeconds, tpdWindowSeconds), tpdLimit, clock);
    }

    method Prune(now: real) returns (used: nat)
      modifies this`events
      ensures events == DropOld(old(events), now - windowSeconds) && used == Sum(events)
    {
      var cutoff := now - windowSeconds;
      while events != [] && events[0].at < cutoff
        invariant DropOld(events, cutoff) == DropOld(old(events), cutoff)
        decreases |events|
      {
        events := events[1..];
      }
      used := Sum(events);
    }

    method PruneTpd(now: real) returns (used: nat)
      modifies this`tpdEvents
      ensures tpdEvents == DropOld(old(tpdEvents), now - tpdWindowSeconds) && used == Sum(tpdEvents)
    {
      var cutoff := now - tpdWindowSeconds;
      while tpdEvents != [] && tpdEvents[0].at < cutoff
        invariant DropOld(tpdEvents, cutoff) == DropOld(old(tpdEvents), cutoff)
        decreases |tpdEvents|
      {
        tpdEvents := tpdEvents[1..];
      }
      used := Sum(tpdEvents);
    }

    /** One pass through the loop of `acquire`; the caller sleeps if told to wait. */
    method TryOnce(now: real, tokens: nat) returns (v: Verdict)
      requires Valid() && trace.clock <= now && tokens >= 1
      modifies this
      ensures Valid() && (trace, v) == TraceAttempt(old(trace), Lim(), now, tokens)
    {
      hide Inv;
      AttemptKeepsInv(trace, Lim(), now, tokens);
      ghost var (next, _) := TraceAttempt(trace, Lim(), now, tokens);
      var usedTpd := PruneTpd(now);
      if tpdEvents != [] && usedTpd + tokens > tpdLimit {
        v := DailyExhausted(Max(0.0, tpdEvents[0].at + tpdWindowSeconds - now));
      } else {
        var usedTpm := Prune(now);
        if events == [] || usedTpm + tokens <= limit {
          events := events + [Entry(now, tokens)];
          tpdEvents := tpdEvents + [Entry(now, tokens)];
          v := Grant;
        } else {
          v := Wait(events[0].at + windowSeconds - now);
        }
      }
      trace := next;
    }

    /** `acquire`, given what the clock will read each time the loop comes round. */
    method AcquireTokens(estimate: int, readings: seq<real>) returns (o: Outcome)
      requires Valid() && Nondecreasing(readings, trace.clock)
      modifies this
      ensures Valid() && (trace, o) == Acquire(old(trace), Lim(), AtLeastOne(estimate), readings)
    {
      hide Inv, Attempt;
      var tokens := AtLeastOne(estimate);
      var i := 0;
      while i < |readings|
        invariant 0 <= i <= |readings| && Valid()
        invariant i < |readings| ==> trace.clock <= readings[i]
        invariant Acquire(old(trace), Lim(), tokens, readings) == Acquire(trace, Lim(), tokens, readings[i..], i)
      {
        assert readings[i..][1..] == readings[i + 1..];
        var v := TryOnce(readings[i], tokens);
        i := i + 1;
        match v {
          case Grant => return Granted(i);
          case DailyExhausted(resetIn) => return Exhausted(i, resetIn);
          case Wait(_) =>
        }
      }
      o := StillWaiting;
    }

    /** `seed_real_tpd_usage`; `wallNow` is the wall clock when the reset time is worked out. */
    method SeedRealTpdUsage(readAt: real, wallNow: real, used: nat, newLimit: int, retryAfter: Option<real>)
      returns (resetTime: real)
      requires Valid()
      modifies this
      ensures Valid() && trace == Reseed(old(trace), Lim(), readAt, used, newLimit, retryAfter)
      ensures var retry := if retryAfter.Some? then retryAfter.value else tpdWindowSeconds;
              resetTime == wallNow + Max(0.0, retry)
    {
      hide Inv, Sum;
      ReseedKeepsInv(trace, Lim(), readAt, used, newLimit, retryAfter);
      trace := Reseed(trace, Lim(), readAt, used, newLimit, retryAfter);
      tpdLimit := newLimit;
      var syntheticTs := if retryAfter.Some? then readAt + retryAfter.value - tpdWindowSeconds else readAt;
      tpdEvents := [Entry(syntheticTs, used)];
      resetTime := wallNow + Max(0.0, tpdEvents[0].at + tpdWindowSeconds - readAt);
    }
  }

  /** The synchronous sibling: it answers whether a request would cross the safety margin, and never refuses to record. */
  class DailyTokenBudget {
    const safeLimit: int
    const windowSeconds: real
    var events: seq<Entry>
    ghost var history: seq<Entry>
    ghost var clock: real
    ghost var cut: real

    ghost predicate Valid()
      reads this
    {
      && windowSeconds >= 0.0 && cut <= clock - windowSeconds
      && events == DropOld(history, cut) && InOrder(history, clock)
    }

    constructor (safeLimit: int, windowSeconds: real, ghost now: real)
      requires windowSeconds >= 0.0
      ensures Valid() && history == [] && clock == now
      ensures this.safeLimit == safeLimit && this.windowSeconds == windowSeconds
    {
      this.safeLimit, this.windowSeconds := safeLimit, windowSeconds;
      events, history := [], [];
      clock, cut := now, now - windowSeconds;
    }

    /** True exactly when the recent part of everything ever recorded leaves no room. */
    method WouldExceed(estimate: int, now: real) returns (over: bool)
      requires Valid() && clock <= now
      modifies this
      ensures Valid() && history == old(history) && clock == now
      ensures over <==> Sum(DropOld(history, now - windowSeconds)) + AtLeastOne(estimate) > safeLimit
    {
      DropTwice(history, cut, now - windowSeconds);
      var cutoff := now - windowSeconds;
      while events != [] && events[0].at < cutoff
        invariant DropOld(events, cutoff) == DropOld(old(events), cutoff)
        invariant history == old(history)
        decreases |events|
      {
        events := events[1..];
      }
      clock, cut := now, cutoff;
      over := Sum(events) + AtLeastOne(estimate) > safeLimit;
    }

    method Record(tokens: int, now: real)
      requires Valid() && clock <= now
      modifies this
      ensures Valid() && history == old(history) + [Entry(now, AtLeastOne(tokens))] && clock == now
    {
      var e := Entry(now, AtLeastOne(tokens));
      DropAppend(history, e, cut);
      InOrderExtends(history, clock, e);
      events := events + [e];
      history := history + [e];
      clock := now;
    }
  }
}
