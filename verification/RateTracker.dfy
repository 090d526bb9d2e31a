/**
 modules/firewall/ai_firewall.py: requests per IP in a sliding window, in an ordered dictionary that
 forgets the least recently touched IPs.
 */
module RateTracker {
  type Cap = n: nat | n >= 1 witness 1

  /** One call: who asked, when, and with which window. */
  datatype Call = Call(ip: string, t: real, window: int)

  datatype Entry = Entry(ip: string, times: seq<real>)

  // ----- The dictionary, oldest touch first -----

  function Recent(times: seq<real>, now: real, window: int): seq<real> {
    if times == [] then []
    else
      var last := times[|times| - 1];
      Recent(times[..|times| - 1], now, window) + if now - last < window as real then [last] else []
  }

  function TimesOf(s: seq<Entry>, ip: string): seq<real> {
    if s == [] then [] else if s[0].ip == ip then s[0].times else TimesOf(s[1..], ip)
  }

  function Without(s: seq<Entry>, ip: string): seq<Entry> {
    if s == [] then [] else if s[0].ip == ip then s[1..] else [s[0]] + Without(s[1..], ip)
  }

  function Keys(s: seq<Entry>): set<string> {
    set e | e in s :: e.ip
  }

  /** Store under `ip` and move it to the end. */
  function Touched(s: seq<Entry>, entry: Entry): seq<Entry> {
    Without(s, entry.ip) + [entry]
  }

  function Newest(s: seq<Entry>, cap: Cap): seq<Entry> {
    if |s| > cap then s[|s| - cap..] else s
  }

  // ----- What should be remembered, from the calls alone -----

  /** The IPs that called after the last call of `ip`. */
  function Since(h: seq<Call>, ip: string): set<string> {
    if h == [] || h[|h| - 1].ip == ip then {} else Since(h[..|h| - 1], ip) + {h[|h| - 1].ip}
  }

  /** `ip` has called, and fewer than `cap` other IPs have called since. */
  predicate Tracked(cap: Cap, h: seq<Call>, ip: string) {
    (exists c :: c in h && c.ip == ip) && |Since(h, ip)| < cap
  }

  function CallsOf(h: seq<Call>, ip: string): seq<Call> {
    if h == [] then []
    else CallsOf(h[..|h| - 1], ip) + if h[|h| - 1].ip == ip then [h[|h| - 1]] else []
  }

  /** The calls of `ip` since it was last crowded out by `cap` other IPs. */
  function Residency(cap: Cap, h: seq<Call>, ip: string): seq<Call> {
    if h == [] then []
    else if h[|h| - 1].ip == ip then Residency(cap, h[..|h| - 1], ip) + [h[|h| - 1]]
    else if |Since(h, ip)| < cap then Residency(cap, h[..|h| - 1], ip)
    else []
  }

  /** Call `i` was inside the window of every later one. */
  predicate Survives(calls: seq<Call>, i: nat)
    requires i < |calls|
  {
    forall j | i < j < |calls| :: calls[j].t - calls[i].t < calls[j].window as real
  }

  function Survivors(calls: seq<Call>, n: nat): seq<real>
    requires n <= |calls|
  {
    if n == 0 then []
    else Survivors(calls, n - 1) + if Survives(calls, n - 1) then [calls[n - 1].t] else []
  }

  /** The calls among the first `n` that the window of the last one contains. */
  function InWindow(calls: seq<Call>, n: nat): seq<real>
    requires n <= |calls|
  {
    if n == 0 then []
    else
      var c, last := calls[n - 1], calls[|calls| - 1];
      InWindow(calls, n - 1) + if n == |calls| || last.t - c.t < last.window as real then [c.t] else []
  }

  function Stored(cap: Cap, h: seq<Call>, ip: string): seq<real> {
    var r := Residency(cap, h, ip);
    Survivors(r, |r|)
  }

  // ----- The invariant -----

  /** The keys `after` an entry are the IPs that called since; a tracked IP holds its surviving calls. */
  ghost predicate Placed(cap: Cap, e: Entry, after: set<string>, h: seq<Call>) {
    && e.ip !in after
    && (exists c :: c in h && c.ip == e.ip)
    && Since(h, e.ip) == after
    && (Tracked(cap, h, e.ip) ==> e.times == Stored(cap, h, e.ip))
  }

  /** Keys are distinct and in the order of their last call. */
  ghost predicate Ordered(cap: Cap, s: seq<Entry>, h: seq<Call>) {
    s != [] ==> Placed(cap, s[0], Keys(s[1..]), h) && Ordered(cap, s[1..], h)
  }

  ghost predicate Inv(cap: Cap, s: seq<Entry>, h: seq<Call>) {
    && Ordered(cap, s, h)
    && |s| <= cap
    && forall ip | Tracked(cap, h, ip) :: ip in Keys(s)
  }

  lemma KeysSplit(s: seq<Entry>)
    requires s != []
    ensures Keys(s) == {s[0].ip} + Keys(s[1..])
  {
    assert s == [s[0]] + s[1..];
  }

  lemma KeysOfSum(s: seq<Entry>, e: Entry)
    ensures Keys(s + [e]) == Keys(s) + {e.ip}
  {
    assert forall x :: x in s + [e] <==> x in s || x == e;
  }

  lemma HeadIsNew(s: seq<Entry>, cap: Cap, h: seq<Call>)
    requires Ordered(cap, s, h) && s != []
    ensures s[0].ip !in Keys(s[1..])
  {
  }

  lemma {:induction false} KeysCount(s: seq<Entry>, cap: Cap, h: seq<Call>)
    requires Ordered(cap, s, h)
    ensures |Keys(s)| == |s|
  {
    if s != [] {
      hide Keys, Placed;
      KeysCount(s[1..], cap, h);
      HeadIsNew(s, cap, h);
      KeysSplit(s);
    }
  }

  lemma {:induction false} KeysWithout(s: seq<Entry>, ip: string, cap: Cap, h: seq<Call>)
    requires Ordered(cap, s, h)
    ensures Keys(Without(s, ip)) == Keys(s) - {ip}
    ensures |Without(s, ip)| <= |s|
  {
    if s != [] {
      hide Keys, Placed;
      var rest := Without(s[1..], ip);
      KeysWithout(s[1..], ip, cap, h);
      HeadIsNew(s, cap, h);
      KeysSplit(s);
      if s[0].ip != ip {
        assert ([s[0]] + rest)[1..] == rest;
        KeysSplit([s[0]] + rest);
        assert {s[0].ip} + (Keys(s[1..]) - {ip}) == Keys(s) - {ip};
      } else {
        assert Keys(s[1..]) == Keys(s) - {ip};
      }
    }
  }

  /** An IP is in the dictionary exactly if it is tracked, and then holds its surviving calls. */
  lemma {:induction false} EntryHoldsStored(cap: Cap, s: seq<Entry>, h: seq<Call>, ip: string)
    requires Ordered(cap, s, h) && |s| <= cap
    ensures ip in Keys(s) ==> Tracked(cap, h, ip) && TimesOf(s, ip) == Stored(cap, h, ip)
    ensures ip !in Keys(s) ==> TimesOf(s, ip) == []
  {
    if s != [] {
      EntryHoldsStored(cap, s[1..], h, ip);
      KeysSplit(s);
      KeysCount(s[1..], cap, h);
    }
  }

  lemma {:induction false} NothingStoredUntracked(cap: Cap, h: seq<Call>, ip: string)
    requires !Tracked(cap, h, ip)
    ensures Residency(cap, h, ip) == []
  {
    if h != [] {
      var init, last := h[..|h| - 1], h[|h| - 1];
      assert h == init + [last];
      if last.ip != ip && |Since(h, ip)| < cap {
        NothingStoredUntracked(cap, init, ip);
      }
    }
  }

  lemma SurvivesOneMore(calls: seq<Call>, c: Call, i: nat)
    requires i < |calls|
    ensures Survives(calls + [c], i) <==> Survives(calls, i) && c.t - calls[i].t < c.window as real
  {
    var all := calls + [c];
    assert all[|calls|] == c;
    assert forall j | i < j < |calls| :: all[j] == calls[j];
  }

  lemma {:induction false} SurvivorsAfter(calls: seq<Call>, c: Call, n: nat)
    requires n <= |calls|
    ensures Survivors(calls + [c], n) == Recent(Survivors(calls, n), c.t, c.window)
  {
    if n > 0 {
      hide Survives;
      SurvivorsAfter(calls, c, n - 1);
      var all, before := calls + [c], Survivors(calls, n - 1);
      SurvivesOneMore(calls, c, n - 1);
      assert all[n - 1] == calls[n - 1];
      if Survives(calls, n - 1) {
        assert (before + [calls[n - 1].t])[..|before|] == before;
      } else {
        assert Survivors(calls, n) == before;
      }
    }
  }

  /** Pruning the stored times and adding the new call is what the reference definition stores next. */
  lemma StoredAfter(cap: Cap, s: seq<Entry>, h: seq<Call>, c: Call)
    requires Inv(cap, s, h)
    ensures Stored(cap, h + [c], c.ip) == Recent(TimesOf(s, c.ip), c.t, c.window) + [c.t]
  {
    assert (h + [c])[..|h|] == h;
    EntryHoldsStored(cap, s, h, c.ip);
    if !Tracked(cap, h, c.ip) {
      NothingStoredUntracked(cap, h, c.ip);
    }
    var r := Residency(cap, h, c.ip);
    SurvivorsAfter(r, c, |r|);
  }

  lemma {:induction false} TouchKeepsOrder(cap: Cap, s: seq<Entry>, h: seq<Call>, c: Call, e: Entry)
    requires Ordered(cap, s, h) && |s| <= cap
    requires e.ip == c.ip && e.times == Stored(cap, h + [c], c.ip)
    ensures Ordered(cap, Touched(s, e), h + [c])
  {
    var next := h + [c];
    assert next[..|h|] == h && next[|h|] == c;
    if s == [] {
      assert c in next;
      assert Touched(s, e)[1..] == [];
    } else if s[0].ip == c.ip {
      RestKeepsOrder(cap, s[1..], h, c, e);
    } else {
      TouchKeepsOrder(cap, s[1..], h, c, e);
      HeadKeepsOrder(cap, s, h, c, e);
    }
  }

  lemma WithoutKeepsHead(s: seq<Entry>, ip: string)
    requires s != [] && s[0].ip != ip
    ensures Without(s, ip) == [s[0]] + Without(s[1..], ip)
  {
  }

  /** A call of another IP changes neither what is stored nor the order, unless it crowds the IP out. */
  lemma StoredUnchanged(cap: Cap, h: seq<Call>, c: Call, ip: string)
    requires ip != c.ip
    ensures Since(h + [c], ip) == Since(h, ip) + {c.ip}
    ensures Tracked(cap, h + [c], ip) ==> Tracked(cap, h, ip) && Stored(cap, h + [c], ip) == Stored(cap, h, ip)
  {
    var next := h + [c];
    assert next[..|h|] == h && next[|h|] == c;
    SmallerSet(Since(h, ip), Since(next, ip));
  }

  lemma SmallerSet<T>(a: set<T>, b: set<T>)
    requires a <= b
    ensures |a| <= |b|
  {
    assert b == a + (b - a);
  }

  lemma PlacedAfter(cap: Cap, e: Entry, after: set<string>, h: seq<Call>, c: Call)
    requires Placed(cap, e, after, h) && e.ip != c.ip
    ensures Placed(cap, e, after + {c.ip}, h + [c])
  {
    hide Stored, Tracked;
    var was :| was in h && was.ip == e.ip;
    assert was in h + [c];
    StoredUnchanged(cap, h, c, e.ip);
  }

  lemma HeadKeepsOrder(cap: Cap, s: seq<Entry>, h: seq<Call>, c: Call, e: Entry)
    requires Ordered(cap, s, h) && |s| <= cap && s != [] && s[0].ip != c.ip && e.ip == c.ip
    requires Ordered(cap, Touched(s[1..], e), h + [c])
    ensures Ordered(cap, Touched(s, e), h + [c])
  {
    hide Keys, Without, Placed;
    var rest := Touched(s[1..], e);
    assert Touched(s, e) == [s[0]] + rest by { WithoutKeepsHead(s, c.ip); }
    KeysWithout(s[1..], c.ip, cap, h);
    KeysOfSum(Without(s[1..], c.ip), e);
    PlacedAfter(cap, s[0], Keys(s[1..]), h, c);
    assert Keys(rest) == Keys(s[1..]) + {c.ip};
  }

  lemma {:induction false} RestKeepsOrder(cap: Cap, s: seq<Entry>, h: seq<Call>, c: Call, e: Entry)
    requires Ordered(cap, s, h) && |s| <= cap && c.ip !in Keys(s)
    requires e.ip == c.ip && e.times == Stored(cap, h + [c], c.ip)
    ensures Ordered(cap, s + [e], h + [c])
  {
    var next := h + [c];
    assert next[..|h|] == h && next[|h|] == c;
    if s == [] {
      assert c in next;
      assert (s + [e])[1..] == [];
    } else {
      hide Keys, Stored, Since, Tracked;
      KeysSplit(s);
      RestKeepsOrder(cap, s[1..], h, c, e);
      AbsentStays(s[1..], c.ip);
      AbsentStays(s, c.ip);
      HeadKeepsOrder(cap, s, h, c, e);
    }
  }

  lemma {:induction false} AbsentStays(s: seq<Entry>, ip: string)
    requires ip !in Keys(s)
    ensures Without(s, ip) == s
  {
    if s != [] {
      KeysSplit(s);
      AbsentStays(s[1..], ip);
    }
  }

  // ----- One call -----

  lemma CallKeepsInv(cap: Cap, s: seq<Entry>, h: seq<Call>, c: Call)
    requires Inv(cap, s, h)
    ensures var e := Entry(c.ip, Recent(TimesOf(s, c.ip), c.t, c.window) + [c.t]);
            Inv(cap, Newest(Touched(s, e), cap), h + [c]) && e.times == Stored(cap, h + [c], c.ip)
  {
    hide Stored, Keys, Without, Tracked;
    var e := Entry(c.ip, Recent(TimesOf(s, c.ip), c.t, c.window) + [c.t]);
    StoredAfter(cap, s, h, c);
    TouchKeepsOrder(cap, s, h, c, e);
    KeysWithout(s, c.ip, cap, h);
    KeysOfSum(Without(s, c.ip), e);
    var next := Touched(s, e);
    forall ip | Tracked(cap, h + [c], ip) ensures ip in Keys(next) {
      if ip != c.ip {
        StoredUnchanged(cap, h, c, ip);
      }
    }
    if |next| > cap {
      OldestIsUntracked(cap, next, h + [c]);
      KeysSplit(next);
    }
  }

  /** In a dictionary one entry too long, the first entry is the one to forget. */
  lemma OldestIsUntracked(cap: Cap, s: seq<Entry>, h: seq<Call>)
    requires Ordered(cap, s, h) && |s| == cap + 1
    ensures !Tracked(cap, h, s[0].ip)
  {
    KeysCount(s[1..], cap, h);
  }

  lemma KeptExactlyWhileTracked(cap: Cap, s: seq<Entry>, h: seq<Call>, ip: string)
    requires Inv(cap, s, h)
    ensures ip in Keys(s) <==> Tracked(cap, h, ip)
    ensures TimesOf(s, ip) == Stored(cap, h, ip)
  {
    EntryHoldsStored(cap, s, h, ip);
    if !Tracked(cap, h, ip) {
      NothingStoredUntracked(cap, h, ip);
    }
  }

  // ----- What the stored times count -----

  /** Call `i` is inside the window of the last one, which always contains itself. */
  predicate Inside(calls: seq<Call>, i: nat)
    requires i < |calls|
  {
    var last := calls[|calls| - 1];
    i == |calls| - 1 || last.t - calls[i].t < last.window as real
  }

  /** Calls outside the current window are never counted; all inside are, exactly if none was pruned by a narrower one. */
  lemma {:induction false} NeverOvercounts(calls: seq<Call>, n: nat)
    requires n <= |calls|
    ensures |Survivors(calls, n)| <= |InWindow(calls, n)|
    ensures |Survivors(calls, n)| == |InWindow(calls, n)| <==> forall i | 0 <= i < n && Inside(calls, i) :: Survives(calls, i)
    ensures |Survivors(calls, n)| == |InWindow(calls, n)| ==> Survivors(calls, n) == InWindow(calls, n)
  {
    if n > 0 {
      hide Survives;
      NeverOvercounts(calls, n - 1);
      SurvivorIsInside(calls, n - 1);
    }
  }

  lemma SurvivorIsInside(calls: seq<Call>, i: nat)
    requires i < |calls|
    ensures Survives(calls, i) ==> Inside(calls, i)
  {
  }

  /** No call came before an earlier one. */
  ghost predicate InTime(calls: seq<Call>) {
    forall i, j | 0 <= i <= j < |calls| :: calls[i].t <= calls[j].t
  }

  /** With a clock that does not run back and no earlier window narrower than the current one, the count is exact. */
  lemma CountsTheWindow(calls: seq<Call>)
    requires InTime(calls) && forall i | 0 <= i < |calls| :: calls[i].window >= calls[|calls| - 1].window
    ensures Survivors(calls, |calls|) == InWindow(calls, |calls|)
  {
    NeverOvercounts(calls, |calls|);
  }

  lemma NarrowerWindowForgets()
    ensures var calls := [Call("a", 0.0, 60), Call("a", 10.0, 5), Call("a", 20.0, 60)];
            |Survivors(calls, 3)| == 2 && |InWindow(calls, 3)| == 3
  {
    var calls := [Call("a", 0.0, 60), Call("a", 10.0, 5), Call("a", 20.0, 60)];
    assert !Survives(calls, 0) by { assert calls[1].t - calls[0].t >= calls[1].window as real; }
    assert Survives(calls, 1) && Survives(calls, 2);
    assert Survivors(calls, 1) == [] && |Survivors(calls, 2)| == 1;
    assert |InWindow(calls, 1)| == 1 && |InWindow(calls, 2)| == 2;
  }

  /** The calls since the last eviction are the IP's own, in their order. */
  lemma {:induction false} ResidencyIsInTime(cap: Cap, h: seq<Call>, ip: string)
    requires InTime(h)
    ensures forall c | c in Residency(cap, h, ip) :: c in h && c.ip == ip && c.t <= h[|h| - 1].t
    ensures InTime(Residency(cap, h, ip))
  {
    if h != [] {
      var init, last := h[..|h| - 1], h[|h| - 1];
      ResidencyIsInTime(cap, init, ip);
      var before := Residency(cap, init, ip);
      forall c | c in before ensures c in h && c.t <= last.t {
        var k :| 0 <= k < |init| && init[k] == c;
        assert h[k] == c;
      }
    }
  }

  /**
   Main result, for any number of IPs: with a clock that does not run back and one window for the
   IP, what is stored, and so counted, is every call of the IP in the window since its last eviction.
   */
  lemma CountedSinceEviction(cap: Cap, h: seq<Call>, ip: string, window: int)
    requires InTime(h) && forall c | c in h && c.ip == ip :: c.window == window
    ensures var r := Residency(cap, h, ip); Stored(cap, h, ip) == InWindow(r, |r|)
  {
    ResidencyIsInTime(cap, h, ip);
    var r := Residency(cap, h, ip);
    forall i | 0 <= i < |r| ensures r[i].window == window {
      assert r[i] in r;
    }
    CountsTheWindow(r);
  }

  // ----- With few IPs nothing is forgotten -----

  function Ips(h: seq<Call>): set<string> {
    set c | c in h :: c.ip
  }

  lemma IpsSplit(h: seq<Call>)
    requires h != []
    ensures Ips(h) == Ips(h[..|h| - 1]) + {h[|h| - 1].ip}
  {
    assert h == h[..|h| - 1] + [h[|h| - 1]];
  }

  lemma {:induction false} SinceIsOthers(h: seq<Call>, ip: string)
    ensures Since(h, ip) <= Ips(h) - {ip}
  {
    if h != [] && h[|h| - 1].ip != ip {
      SinceIsOthers(h[..|h| - 1], ip);
      IpsSplit(h);
    }
  }

  lemma {:induction false} NoCallsOfStranger(h: seq<Call>, ip: string)
    requires ip !in Ips(h)
    ensures CallsOf(h, ip) == []
  {
    if h != [] {
      IpsSplit(h);
      NoCallsOfStranger(h[..|h| - 1], ip);
    }
  }

  lemma {:induction false} FewIpsForgetNothing(cap: Cap, h: seq<Call>, ip: string)
    requires |Ips(h)| <= cap
    ensures Residency(cap, h, ip) == CallsOf(h, ip)
  {
    if h != [] {
      IpsSplit(h);
      SmallerSet(Ips(h[..|h| - 1]), Ips(h));
      FewIpsForgetNothing(cap, h[..|h| - 1], ip);
      SinceIsOthers(h, ip);
      SmallerSet(Since(h, ip), Ips(h) - {ip});
      if ip !in Ips(h) {
        NoCallsOfStranger(h, ip);
      }
    }
  }

  /** With no more than `cap` IPs that is the IP's calls in the window over the whole history. */
  lemma WholeHistoryCounted(cap: Cap, h: seq<Call>, ip: string, window: int)
    requires |Ips(h)| <= cap
    requires InTime(h) && forall c | c in h && c.ip == ip :: c.window == window
    ensures Stored(cap, h, ip) == InWindow(CallsOf(h, ip), |CallsOf(h, ip)|)
  {
    FewIpsForgetNothing(cap, h, ip);
    CountedSinceEviction(cap, h, ip, window);
  }

  // ----- The tracker in place -----

  class Tracker {
    const cap: Cap
    var entries: seq<Entry>
    ghost var history: seq<Call>

    ghost predicate Valid()
      reads this
    {
      Inv(cap, entries, history)
    }

    constructor (cap: Cap)
      ensures Valid() && this.cap == cap && history == [] && entries == []
    {
      this.cap := cap;
      entries, history := [], [];
    }

    /** The count speaks of the history alone; afterwards exactly the tracked IPs have entries. */
    method CheckRateLimit(ip: string, now: real, window: int, maxRequests: int) returns (count: nat, limited: bool)
      requires Valid()
      modifies this
      ensures Valid() && history == old(history) + [Call(ip, now, window)]
      ensures count == |Stored(cap, history, ip)| && count >= 1 && (limited <==> count > maxRequests)
      ensures |entries| <= cap && entries != [] && entries[|entries| - 1].ip == ip
      ensures forall x :: x in Keys(entries) <==> Tracked(cap, history, x)
    {
      hide Inv, Stored, Without, Recent, Keys, Tracked;
      CallKeepsInv(cap, entries, history, Call(ip, now, window));
      var requests := Recent(TimesOf(entries, ip), now, window) + [now];
      entries := Without(entries, ip) + [Entry(ip, requests)];
      ghost var touched := entries;
      while |entries| > cap
        invariant history == old(history) && Newest(entries, cap) == Newest(touched, cap)
        invariant entries != [] && entries[|entries| - 1].ip == ip
      {
        entries := entries[1..];
      }
      history := history + [Call(ip, now, window)];
      assert entries == Newest(touched, cap);
      forall x ensures x in Keys(entries) <==> Tracked(cap, history, x) {
        KeptExactlyWhileTracked(cap, entries, history, x);
      }
      count := |requests|;
      limited := count > maxRequests;
    }
  }
}
