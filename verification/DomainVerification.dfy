/**
 web/domain_verification.py: the verification records behind a scan authorization,
 the live re-check before every active scan, and the way from there to the guard.

 What a TXT lookup or a file fetch finds is an input, one outcome for each record.
 */
module DomainVerification {
  import opened Prelude
  import opened Text
  import opened ScanAuthz
  import opened ScanScope

  datatype Status = Pending | Verified | Failed | Revoked

  /** The columns of a record that the checks read or write. */
  datatype Rec = Rec(userId: int, domain: string, method_: string, status: Status,
                     verifiedAt: Option<real>, lastCheckedAt: Option<real>, lastError: Option<string>)
  {
    function Scope(): VerifiedScope {
      VerifiedScope(domain, method_)
    }
  }

  /** What one live check found; `Crashed` is an unexpected exception inside `run_check`. */
  datatype Outcome = Match | Transient(error: string) | Definitive(error: string) | Crashed

  /** The status machine of `run_check`. */
  function Checked(r: Rec, o: Outcome, now: real): Rec {
    match o
    case Match =>
      r.(verifiedAt := if r.status != Verified then Some(now) else r.verifiedAt,
         status := Verified, lastCheckedAt := Some(now), lastError := None)
    case Transient(error) =>
      r.(lastError := Some(error), status := if r.status == Pending then Failed else r.status)
    case Definitive(error) =>
      r.(status := if r.status == Verified then Revoked else Failed, lastCheckedAt := Some(now), lastError := Some(error))
    case Crashed => r
  }

  /** `validate_domain`; None stands for the ValueError. */
  function ValidateDomain(net: Net, raw: string): Option<string> {
    var domain := NormalizeHost(net, raw);
    if domain == "" || net.ipOf(domain).Some? || '.' !in domain || |domain| > 253 || net.internal(domain) then None
    else Some(domain)
  }

  /** What validation accepts: a text that is read as a name with a dot, not too long and not local; and it stores that name. */
  lemma ValidatedMeans(net: Net, raw: string)
    ensures var d := NormalizeHost(net, raw);
            ValidateDomain(net, raw) ==
            if d != "" && net.ipOf(d).None? && (exists a, b :: d == a + "." + b) && |d| <= 253 && !net.internal(d) then Some(d) else None
  {
    hide NormalizeHost;
    var d := NormalizeHost(net, raw);
    if '.' in d {
      JoinFirst(d, '.');
      assert d == Before(d, '.') + "." + After(d, '.');
    }
    forall a: string, b: string | d == a + "." + b ensures '.' in d {
      assert d[|a|] == '.';
    }
  }

  /** What a record's domain can be: the outcome of validating what the user had typed. */
  ghost predicate Storable(net: Net, domain: string) {
    exists raw :: ValidateDomain(net, raw) == Some(domain)
  }

  class VerificationRecord {
    const userId: int
    const domain: string
    const method_: string
    var status: Status
    var verifiedAt: Option<real>
    var lastCheckedAt: Option<real>
    var lastError: Option<string>

    constructor (userId: int, domain: string, method_: string)
      ensures View() == Rec(userId, domain, method_, Pending, None, None, None)
    {
      this.userId, this.domain, this.method_ := userId, domain, method_;
      status, verifiedAt, lastCheckedAt, lastError := Pending, None, None, None;
    }

    function View(): Rec
      reads this
    {
      Rec(userId, domain, method_, status, verifiedAt, lastCheckedAt, lastError)
    }

    method RunCheck(o: Outcome, now: real)
      modifies this
      ensures View() == Checked(old(View()), o, now)
    {
      match o {
        case Match =>
          if status != Verified {
            verifiedAt := Some(now);
          }
          status, lastCheckedAt, lastError := Verified, Some(now), None;
        case Transient(error) =>
          lastError := Some(error);
          if status == Pending {
            status := Failed;
          }
        case Definitive(error) =>
          status := if status == Verified then Revoked else Failed;
          lastCheckedAt, lastError := Some(now), Some(error);
        case Crashed =>
      }
    }
  }

  // ----- Statuses over any number of checks -----

  /** One check after the other, each at its own time. */
  function CheckedAt(r: Rec, os: seq<Outcome>, times: seq<real>): Rec
    requires |os| == |times|
  {
    if os == [] then r
    else
      var n := |os| - 1;
      Checked(CheckedAt(r, os[..n], times[..n]), os[n], times[n])
  }

  predicate IsVerdict(o: Outcome) {
    o.Match? || o.Definitive?
  }

  function LastVerdict(os: seq<Outcome>): Outcome {
    if os == [] then Crashed
    else if IsVerdict(os[|os| - 1]) then os[|os| - 1]
    else LastVerdict(os[..|os| - 1])
  }

  /**
   Over any series of checks a record ends up verified exactly when the last check that reached
   a verdict matched, or none did and it was verified to begin with; in particular transient
   failures and crashes never revoke, and never grant.
   */
  lemma {:induction false} VerifiedIffLastVerdictMatched(r: Rec, os: seq<Outcome>, times: seq<real>)
    requires |os| == |times|
    ensures CheckedAt(r, os, times).status == Verified
            <==> if AnyVerdict(os) then LastVerdict(os) == Match else r.status == Verified
  {
    if os != [] {
      var n := |os| - 1;
      VerifiedIffLastVerdictMatched(r, os[..n], times[..n]);
      assert os == os[..n] + [os[n]];
      assert AnyVerdict(os) <==> AnyVerdict(os[..n]) || IsVerdict(os[n]);
    }
  }

  predicate AnyVerdict(os: seq<Outcome>) {
    exists o :: o in os && IsVerdict(o)
  }

  /**
   How each status is reached: revoked only from verified, by a definitive failure; failed from
   anything else by one, and from pending by a transient one too; verified by a match; never pending again.
   */
  lemma StatusAfter(r: Rec, o: Outcome, now: real)
    ensures var after := Checked(r, o, now).status;
            && (after == Verified <==> o.Match? || (r.status == Verified && !o.Definitive?))
            && (after == Revoked <==> (r.status == Verified && o.Definitive?) || (r.status == Revoked && !o.Match? && !o.Definitive?))
            && (after == Failed <==> (r.status != Verified && o.Definitive?) || (r.status == Failed && !o.Match?)
                                     || (r.status == Pending && o.Transient?))
            && (after == Pending <==> r.status == Pending && o.Crashed?)
  {
  }

  /**
   While a record is verified, `verified_at` is the time of the match that ended its last time of not
   being so, and no later check moves it.
   */
  lemma {:induction false} VerifiedSince(r: Rec, os: seq<Outcome>, times: seq<real>, k: nat)
    requires |os| == |times| && k < |os| && os[k] == Match
    requires CheckedAt(r, os[..k], times[..k]).status != Verified
    requires forall j | k < j < |os| :: !os[j].Definitive?
    ensures CheckedAt(r, os, times).status == Verified && CheckedAt(r, os, times).verifiedAt == Some(times[k])
    decreases |os|
  {
    var n := |os| - 1;
    if k < n {
      assert os[..n][..k] == os[..k] && times[..n][..k] == times[..k];
      VerifiedSince(r, os[..n], times[..n], k);
    }
  }

  /** `last_checked_at` is the time of the last check that reached a verdict, and `last_error` that of the last check that did not match. */
  lemma {:induction false} LastChecked(r: Rec, os: seq<Outcome>, times: seq<real>, k: nat)
    requires |os| == |times| && k < |os| && IsVerdict(os[k]) && forall j | k < j < |os| :: !IsVerdict(os[j])
    ensures CheckedAt(r, os, times).lastCheckedAt == Some(times[k])
    ensures (forall j | k < j < |os| :: os[j].Crashed?) ==>
              CheckedAt(r, os, times).lastError == if os[k].Match? then None else Some(os[k].error)
    ensures !os[|os| - 1].Crashed? && !os[|os| - 1].Match? ==> CheckedAt(r, os, times).lastError == Some(os[|os| - 1].error)
    decreases |os|
  {
    var n := |os| - 1;
    if k < n {
      LastChecked(r, os[..n], times[..n], k);
    }
  }

  /** Nothing a check does touches whose record it is, for which domain, or how it is verified. */
  lemma CheckKeepsIdentity(r: Rec, o: Outcome, now: real)
    ensures var after := Checked(r, o, now);
            after.userId == r.userId && after.domain == r.domain && after.method_ == r.method_ && after.Scope() == r.Scope()
  {
  }

  /**
   A transient failure records its error and nothing else exactly if the record was not pending:
   a pending one fails.
   */
  lemma TransientChangesOnlyErrorIff(r: Rec, error: string, now: real)
    ensures Checked(r, Transient(error), now) == r.(lastError := Some(error)) <==> r.status != Pending
    ensures r.status == Pending ==> Checked(r, Transient(error), now) == r.(lastError := Some(error), status := Failed)
  {
  }

  /** A domain added a moment ago, whose name server does not answer the first lookup. */
  lemma PendingFailsOnTransient()
    ensures var r := Rec(1, "b.c", DNS_TXT, Pending, None, None, None);
            && Checked(r, Transient("timeout"), 5.0).status == Failed
            && Checked(r, Transient("timeout"), 5.0) != r.(lastError := Some("timeout"))
  {
    TransientChangesOnlyErrorIff(Rec(1, "b.c", DNS_TXT, Pending, None, None, None), "timeout", 5.0);
  }

  // ----- authorize_scan -----

  predicate ReChecked(net: Net, user: int, host: string, r: Rec) {
    r.userId == user && r.status == Verified && Covers(net, host, r.Scope())
  }

  predicate NeedsRecords(net: Net, target: string, scanTypes: seq<string>) {
    var host := NormalizeHost(net, target);
    Requested(Expanded(scanTypes), ACTIVE_CHECKS) != {} && host != "" && net.ipOf(host).None?
  }

  /** The scopes whose live check matched in this call. */
  function LiveScopes(net: Net, user: int, host: string, recs: seq<Rec>, os: seq<Outcome>): seq<VerifiedScope>
    requires |recs| == |os|
  {
    if recs == [] then []
    else
      var n := |recs| - 1;
      LiveScopes(net, user, host, recs[..n], os[..n])
      + if ReChecked(net, user, host, recs[n]) && os[n] == Match then [recs[n].Scope()] else []
  }

  function Authorized(net: Net, user: int, target: string, scanTypes: seq<string>, recs: seq<Rec>, os: seq<Outcome>): Decision
    requires |recs| == |os|
  {
    var scopes := if NeedsRecords(net, target, scanTypes)
                  then LiveScopes(net, user, NormalizeHost(net, target), recs, os) else [];
    Decide(net, target, Expanded(scanTypes), scopes)
  }

  function Views(records: seq<VerificationRecord>): seq<Rec>
    reads records
  {
    seq(|records|, i requires 0 <= i < |records| reads records => records[i].View())
  }

  lemma LiveScopesStep(net: Net, user: int, host: string, recs: seq<Rec>, os: seq<Outcome>, k: nat)
    requires |recs| == |os| && k < |recs|
    ensures LiveScopes(net, user, host, recs[..k + 1], os[..k + 1])
            == LiveScopes(net, user, host, recs[..k], os[..k])
               + if ReChecked(net, user, host, recs[k]) && os[k] == Match then [recs[k].Scope()] else []
  {
    assert recs[..k + 1][..k] == recs[..k] && os[..k + 1][..k] == os[..k];
  }

  lemma NoLiveScopes(net: Net, user: int, host: string)
    ensures LiveScopes(net, user, host, [], []) == []
  {
  }

  /** `authorize_scan` over the whole table, with the outcome each record's live check would have now. */
  method AuthorizeScan(net: Net, user: int, target: string, scanTypes: seq<string>,
                       records: seq<VerificationRecord>, outcomes: seq<Outcome>, now: real) returns (d: Decision)
    requires |records| == |outcomes|
    requires forall i, j | 0 <= i < j < |records| :: records[i] != records[j]
    modifies records
    ensures d == Authorized(net, user, target, scanTypes, old(Views(records)), outcomes)
    ensures forall i | 0 <= i < |records| ::
              records[i].View() ==
              if NeedsRecords(net, target, scanTypes) && ReChecked(net, user, NormalizeHost(net, target), old(records[i].View()))
              then Checked(old(records[i].View()), outcomes[i], now) else old(records[i].View())
  {
    hide Decide, NormalizeHost, Covers, Expanded, LiveScopes, Checked;
    var checks := ExpandChecks(scanTypes);
    var host := NormalizeHost(net, target);
    if Requested(checks, ACTIVE_CHECKS) == {} || host == "" || net.ipOf(host).Some? {
      return Decide(net, target, checks, []);
    }
    var scopes: seq<VerifiedScope> := [];
    ghost var before := Views(records);
    NoLiveScopes(net, user, host);
    for k := 0 to |records|
      invariant scopes == LiveScopes(net, user, host, before[..k], outcomes[..k])
      invariant forall i | k <= i < |records| :: records[i].View() == before[i]
      invariant forall i | 0 <= i < k :: records[i].View()
                  == if ReChecked(net, user, host, before[i]) then Checked(before[i], outcomes[i], now) else before[i]
    {
      var rec := records[k];
      LiveScopesStep(net, user, host, before, outcomes, k);
      if rec.userId == user && rec.status == Verified {
        var scope := VerifiedScope(rec.domain, rec.method_);
        if Covers(net, host, scope) {
          rec.RunCheck(outcomes[k], now);
          if outcomes[k] == Match {
            scopes := scopes + [scope];
          }
        }
      }
    }
    assert before[..|records|] == before && outcomes[..|records|] == outcomes;
    d := Decide(net, target, checks, scopes);
  }

  /** `load_verified_scopes` and `preview_authorization`: every check, verified records at face value. */
  function Previewed(net: Net, user: int, target: string, recs: seq<Rec>): Decision {
    Decide(net, target, [], LoadVerifiedScopes(user, recs))
  }

  function LoadVerifiedScopes(user: int, recs: seq<Rec>): seq<VerifiedScope> {
    if recs == [] then []
    else
      (if recs[0].userId == user && recs[0].status == Verified then [recs[0].Scope()] else [])
      + LoadVerifiedScopes(user, recs[1..])
  }

  ghost predicate LiveAt(net: Net, user: int, host: string, recs: seq<Rec>, os: seq<Outcome>, i: nat)
    requires |recs| == |os|
  {
    i < |recs| && ReChecked(net, user, host, recs[i]) && os[i] == Match
  }

  lemma {:induction false} LiveScopesAreLive(net: Net, user: int, host: string, recs: seq<Rec>, os: seq<Outcome>, s: VerifiedScope)
    requires |recs| == |os|
    ensures s in LiveScopes(net, user, host, recs, os)
            <==> exists i: nat :: LiveAt(net, user, host, recs, os, i) && recs[i].Scope() == s
  {
    hide ReChecked;
    if recs != [] {
      var n := |recs| - 1;
      LiveScopesAreLive(net, user, host, recs[..n], os[..n], s);
      forall i: nat | i < n
        ensures LiveAt(net, user, host, recs[..n], os[..n], i) <==> LiveAt(net, user, host, recs, os, i) {}
    }
  }

  ghost predicate OwnVerified(user: int, recs: seq<Rec>, i: nat) {
    i < |recs| && recs[i].userId == user && recs[i].status == Verified
  }

  /** The preview's scopes are those of the user's own verified records, and no others. */
  lemma {:induction false} LoadedScopesAreOwn(user: int, recs: seq<Rec>, s: VerifiedScope)
    ensures s in LoadVerifiedScopes(user, recs)
            <==> exists i: nat :: OwnVerified(user, recs, i) && recs[i].Scope() == s
  {
    if recs != [] {
      LoadedScopesAreOwn(user, recs[1..], s);
      forall i: nat | i > 0 ensures OwnVerified(user, recs, i) <==> OwnVerified(user, recs[1..], i - 1) {}
      if i: nat :| OwnVerified(user, recs[1..], i) && recs[1..][i].Scope() == s {
        assert OwnVerified(user, recs, i + 1);
      }
      if i: nat :| OwnVerified(user, recs, i) && recs[i].Scope() == s && i > 0 {
        assert OwnVerified(user, recs[1..], i - 1);
      }
      if OwnVerified(user, recs, 0) && recs[0].Scope() == s {
        assert s in LoadVerifiedScopes(user, recs);
      }
    }
  }

  /** What the preview shows of an active check: allowed exactly by an own verified record that covers the host, or the training table. */
  lemma PreviewMeans(net: Net, user: int, target: string, recs: seq<Rec>, c: string)
    requires c in ACTIVE_CHECKS
    ensures var host := NormalizeHost(net, target);
            c in Previewed(net, user, target, recs).allowed
            <==> host != "" && ((exists i: nat :: OwnVerified(user, recs, i) && Covers(net, host, recs[i].Scope()))
                                || (host in TRAINING_TARGETS && c in TRAINING_TARGETS[host]))
  {
    hide NormalizeHost, Decide, Covers, TRAINING_TARGETS, Expanded, LoadVerifiedScopes;
    var host, loaded := NormalizeHost(net, target), LoadVerifiedScopes(user, recs);
    EveryCheckIsAStep();
    ActiveAllowedIff(net, target, [], loaded, c);
    if s :| s in loaded && Covers(net, host, s) {
      LoadedScopesAreOwn(user, recs, s);
    }
    if i: nat :| OwnVerified(user, recs, i) && Covers(net, host, recs[i].Scope()) {
      LoadedScopesAreOwn(user, recs, recs[i].Scope());
    }
  }

  lemma {:induction false} ExpandTwice(cs: seq<string>)
    ensures forall c :: c in Expanded(Expanded(cs)) <==> c in Expanded(cs)
  {
    DistinctKeepsFirsts(cs);
    DistinctKeepsFirsts(Expanded(cs));
    assert cs != [] ==> cs[0] in Distinct(cs);
  }

  /**
   An active check that the training table does not permit is allowed exactly when one of this
   user's own records was verified on entry, covers the host and matched its live check in this call.
   */
  lemma ActiveNeedsLiveRecord(net: Net, user: int, target: string, scanTypes: seq<string>,
                              recs: seq<Rec>, os: seq<Outcome>, c: string)
    requires |recs| == |os| && c in Expanded(scanTypes) && c in ACTIVE_CHECKS
    requires var host := NormalizeHost(net, target);
             !(host in TRAINING_TARGETS && c in TRAINING_TARGETS[host])
    ensures c in Authorized(net, user, target, scanTypes, recs, os).allowed
            <==> exists i: nat :: LiveAt(net, user, NormalizeHost(net, target), recs, os, i)
  {
    hide TRAINING_TARGETS, NormalizeHost, Expanded, Decide, Covers;
    var host := NormalizeHost(net, target);
    var scopes := if NeedsRecords(net, target, scanTypes) then LiveScopes(net, user, host, recs, os) else [];
    ExpandTwice(scanTypes);
    ActiveAllowedIff(net, target, Expanded(scanTypes), scopes, c);
    assert c in Requested(Expanded(scanTypes), ACTIVE_CHECKS);
    CoveredIsName(net, host);
    forall s ensures s in LiveScopes(net, user, host, recs, os)
                     <==> exists i: nat :: LiveAt(net, user, host, recs, os, i) && recs[i].Scope() == s {
      LiveScopesAreLive(net, user, host, recs, os, s);
    }
    if i: nat :| LiveAt(net, user, host, recs, os, i) {
      assert recs[i].Scope() in LiveScopes(net, user, host, recs, os);
    }
  }

  /** A passive check needs no record. */
  lemma PassiveNeedsNoRecord(net: Net, user: int, target: string, scanTypes: seq<string>,
                             recs: seq<Rec>, os: seq<Outcome>, c: string)
    requires |recs| == |os| && c in Expanded(scanTypes) && c in PASSIVE_CHECKS
    ensures c in Authorized(net, user, target, scanTypes, recs, os).allowed <==> NormalizeHost(net, target) != ""
  {
    hide NormalizeHost, Expanded, Decide, Covers, LiveScopes;
    var scopes := if NeedsRecords(net, target, scanTypes) then LiveScopes(net, user, NormalizeHost(net, target), recs, os) else [];
    ExpandTwice(scanTypes);
    PassiveAllowedIff(net, target, Expanded(scanTypes), scopes, c);
  }

  lemma CoveredIsName(net: Net, host: string)
    ensures forall s :: Covers(net, host, s) ==> host != "" && net.ipOf(host).None?
  {
  }

  /** Over the same records the real gate never allows more than the preview showed. */
  lemma GateWithinPreview(net: Net, user: int, target: string, scanTypes: seq<string>, recs: seq<Rec>, os: seq<Outcome>)
    requires |recs| == |os|
    ensures Authorized(net, user, target, scanTypes, recs, os).allowed <= Previewed(net, user, target, recs).allowed
  {
    var host := NormalizeHost(net, target);
    var scopes := if NeedsRecords(net, target, scanTypes) then LiveScopes(net, user, host, recs, os) else [];
    var loaded := LoadVerifiedScopes(user, recs);
    forall s | s in scopes ensures s in loaded {
      LiveScopesAreLive(net, user, host, recs, os, s);
      var i: nat :| LiveAt(net, user, host, recs, os, i) && recs[i].Scope() == s;
      assert OwnVerified(user, recs, i);
      LoadedScopesAreOwn(user, recs, s);
    }
    EveryCheckIsAStep();
    DecideIsMonotone(net, target, Expanded(scanTypes), [], scopes, loaded);
  }

  lemma EveryCheckIsAStep()
    ensures forall c | c in PASSIVE_CHECKS + ACTIVE_CHECKS :: c in Expanded([])
  {
    assert SCAN_STEP_ORDER[0] == "subdomain" && SCAN_STEP_ORDER[1] == "dns" && SCAN_STEP_ORDER[2] == "whois"
        && SCAN_STEP_ORDER[3] == "nmap" && SCAN_STEP_ORDER[4] == "ssl" && SCAN_STEP_ORDER[5] == "headers"
        && SCAN_STEP_ORDER[6] == "ports" && SCAN_STEP_ORDER[7] == "xss" && SCAN_STEP_ORDER[8] == "sqli"
        && SCAN_STEP_ORDER[9] == "ssrf" && SCAN_STEP_ORDER[10] == "lfi" && SCAN_STEP_ORDER[11] == "redirect"
        && SCAN_STEP_ORDER[12] == "osint";
  }

  // ----- From the decision to the guard -----

  /** `network_scope_for`. */
  function NetworkScopeFor(net: Net, d: Decision, target: string): Option<Scope> {
    var targets := ScopeTargets(d.basis);
    if targets.None? then None
    else Some(Built(net, targets.value.0, targets.value.1, NormalizeHost(net, target)))
  }

  /** The names a scan of `target` is entitled to contact, read off the inputs rather than off the basis string. */
  predicate Entitled(net: Net, target: string, scopes: seq<VerifiedScope>, name: string) {
    var host := NormalizeHost(net, target);
    match FirstCovering(net, host, scopes)
    case Some(s) =>
      var domain := Norm(NormalizeHost(net, s.domain));
      domain != "" && (if s.method_ == DNS_TXT then UnderSuffix(name, domain) else name == domain)
    case None => host in TRAINING_TARGETS && name == Norm(host)
  }

  /** The scope that comes out admits exactly the entitled names, by name. */
  lemma ScopeNamesAreEntitled(net: Net, target: string, scanTypes: seq<string>, scopes: seq<VerifiedScope>, name: string)
    ensures var scope := NetworkScopeFor(net, Decide(net, target, scanTypes, scopes), target);
            scope.Some? && name != "" ==> (NameAllowed(scope.value, name) <==> Entitled(net, target, scopes, name))
  {
    hide NormalizeHost, Expanded, VerifiedBasis, Covers, ScopeTargets, DNS_TXT, HTTP_FILE, Norm, TRAINING_TARGETS, UnderSuffix, ResolvedNames;
    var host := NormalizeHost(net, target);
    var first := FirstCovering(net, host, scopes);
    OtherBasesRoundTrip(host);
    if first.Some? {
      CoveringMethod(net, host, first.value);
      MethodsDiffer();
      VerifiedBasisRoundTrip(net, first.value);
      OneNorm(NormalizeHost(net, first.value.domain));
    } else {
      OneNorm(host);
    }
  }

  lemma MethodsDiffer()
    ensures DNS_TXT != HTTP_FILE
  {
  }

  lemma OneNorm(n: string)
    ensures NonEmptyNorms({n}) == (if Norm(n) == "" then {} else {Norm(n)}) && NonEmptyNorms({}) == {}
  {
    hide Norm;
    if Norm(n) != "" {
      assert Norm(n) in NonEmptyNorms({n});
    }
  }

  /** The names a scope for `target` had resolved: its own, and the target's. */
  function Resolvable(net: Net, scope: Scope, target: string): set<string> {
    scope.hosts + scope.suffixes + {Norm(NormalizeHost(net, target))}
  }

  /** An address belongs to a resolvable name that the scan is entitled to contact. */
  ghost predicate EntitledAddress(net: Net, target: string, scopes: seq<VerifiedScope>, scope: Scope, ip: string) {
    exists n | n in Resolvable(net, scope, target) :: Norm(n) != "" && Entitled(net, target, scopes, Norm(n)) && ip in net.resolve(n)
  }

  /** Exactly what a connection must be for a scope's guard to let it through, said over the decision's inputs. */
  ghost predicate EntitledContact(net: Net, target: string, scopes: seq<VerifiedScope>, scope: Scope, contact: string) {
    && Norm(contact) != ""
    && (|| Entitled(net, target, scopes, Norm(contact))
        || (var ip := net.ipOf(Before(Norm(contact), '%'));
            ip.Some? && EntitledAddress(net, target, scopes, scope, ip.value)))
  }

  /**
   Confinement and reach, end to end, for every target, check list and scope list: the guard of an
   attached scope lets a connection through if and only if it goes to an entitled name, or to an
   address that one of the scope's own entries or the target resolves to, itself an entitled name.
   */
  lemma GuardPassesIff(net: Net, target: string, scanTypes: seq<string>, scopes: seq<VerifiedScope>, contact: string)
    ensures var scope := NetworkScopeFor(net, Decide(net, target, scanTypes, scopes), target);
            scope.Some? ==> (GuardPasses(net, scope, contact) <==> EntitledContact(net, target, scopes, scope.value, contact))
  {
    hide Entitled, Norm, Decide, ScopeTargets, NormalizeHost, Before;
    var attached := NetworkScopeFor(net, Decide(net, target, scanTypes, scopes), target);
    if attached.None? {
      return;
    }
    var scope, name := attached.value, Norm(contact);
    ScopeNamesAreEntitled(net, target, scanTypes, scopes, name);
    forall n | Norm(n) != ""
      ensures Entitled(net, target, scopes, Norm(n)) <==> NameAllowed(Scope(scope.hosts, scope.suffixes, {}), Norm(n))
    {
      ScopeNamesAreEntitled(net, target, scanTypes, scopes, Norm(n));
      assert NameAllowed(Scope(scope.hosts, scope.suffixes, {}), Norm(n)) <==> NameAllowed(scope, Norm(n));
    }
    NoNormOfNothing();
    forall ip ensures ip in scope.ips <==> EntitledAddress(net, target, scopes, scope, ip) {
      if n :| n in ResolvedNames(net, scope.hosts, scope.suffixes, NormalizeHost(net, target)) && ip in net.resolve(n) {
        assert n in Resolvable(net, scope, target) && Norm(n) != "";
      }
      if EntitledAddress(net, target, scopes, scope, ip) {
        var n :| n in Resolvable(net, scope, target) && Norm(n) != "" && Entitled(net, target, scopes, Norm(n)) && ip in net.resolve(n);
        assert n in ResolvedNames(net, scope.hosts, scope.suffixes, NormalizeHost(net, target));
      }
    }
  }

  lemma NoNormOfNothing()
    ensures Norm("") == ""
  {
  }

  /** One direction: nothing the guard lets through is outside what the decision covers. */
  lemma GuardConfines(net: Net, target: string, scanTypes: seq<string>, scopes: seq<VerifiedScope>, contact: string)
    ensures var scope := NetworkScopeFor(net, Decide(net, target, scanTypes, scopes), target);
            scope.Some? && GuardPasses(net, scope, contact) ==>
              || Entitled(net, target, scopes, Norm(contact))
              || exists n, ip :: net.ipOf(Before(Norm(contact), '%')) == Some(ip)
                                 && n in Resolvable(net, scope.value, target)
                                 && Entitled(net, target, scopes, Norm(n)) && ip in net.resolve(n)
  {
    hide Entitled, Norm, Decide, NetworkScopeFor, NormalizeHost, Before, GuardPasses, Resolvable;
    GuardPassesIff(net, target, scanTypes, scopes, contact);
  }

  /** The other: the addresses of the target itself are let through when its name is. */
  lemma GuardReachesTargetAddress(net: Net, target: string, scanTypes: seq<string>, scopes: seq<VerifiedScope>, contact: string, ip: string)
    requires Norm(contact) != "" && net.ipOf(Before(Norm(contact), '%')) == Some(ip)
    requires var host := Norm(NormalizeHost(net, target));
             host != "" && Norm(host) == host && Entitled(net, target, scopes, host) && ip in net.resolve(host)
    ensures GuardPasses(net, NetworkScopeFor(net, Decide(net, target, scanTypes, scopes), target), contact)
  {
    hide Entitled, Norm, Decide, NetworkScopeFor, NormalizeHost, Before;
    GuardPassesIff(net, target, scanTypes, scopes, contact);
  }

  /** The domain a decision about `host` rests on: that of the first covering scope, else the host itself. */
  function RestsOn(net: Net, host: string, scopes: seq<VerifiedScope>): string {
    var s := FirstCovering(net, host, scopes);
    if s.Some? then NormalizeHost(net, s.value.domain) else host
  }

  /**
   The other direction: when an active check was allowed there is a scope, and by name it lets the
   target itself through exactly if the domain the decision rests on starts with no blank or bracket,
   or is the target and does not consist of such characters and dots alone. Otherwise it passes only
   if what is left of it reads as an address of the scope.
   */
  lemma GuardReachesTargetIff(net: Net, target: string, scanTypes: seq<string>, scopes: seq<VerifiedScope>)
    ensures var host := NormalizeHost(net, target);
            var domain := RestsOn(net, host, scopes);
            var decision := Decide(net, target, scanTypes, scopes);
            var scope := NetworkScopeFor(net, decision, target);
            decision.allowed * ACTIVE_CHECKS != {} ==>
              && scope.Some?
              && (NameAllowed(scope.value, Norm(host)) <==> CleanFront(domain) || (host == domain && Norm(domain) != ""))
              && (GuardPasses(net, scope, host)
                  <==> CleanFront(domain) || (host == domain && Norm(domain) != "")
                       || (Norm(host) != "" && IpAllowed(net, scope.value, Norm(host))))
  {
    hide Expanded, VerifiedBasis, ScopeTargets, Norm, Decide, TRAINING_TARGETS, NormalizeHost, Lower, Entitled, ResolvedNames, IpAllowed, CleanFront;
    var host := NormalizeHost(net, target);
    if Decide(net, target, scanTypes, scopes).allowed * ACTIVE_CHECKS == {} {
      return;
    }
    NoScopeIff(net, target, scanTypes, scopes);
    EntitledTargetIff(net, target, scopes);
    var scope := NetworkScopeFor(net, Decide(net, target, scanTypes, scopes), target);
    if Norm(host) == "" {
      EmptyTargetRefused(net, target, scanTypes, scopes);
    } else {
      ScopeNamesAreEntitled(net, target, scanTypes, scopes, Norm(host));
    }
  }

  // ----- The domains that records hold -----

  /** A canonical host begins as the parsed name does. */
  lemma CanonicalFront(net: Net, hostname: string)
    requires CanonicalHost(net, hostname) != ""
    ensures hostname != "" && CanonicalHost(net, hostname)[0] == Lower(hostname)[0]
  {
    RStripFront(hostname, IsDot);
  }

  lemma DelimitersAreNoLetters()
    ensures HasNone("", DELIMITERS) && forall c | c in DELIMITERS :: !('a' <= c <= 'z')
    ensures ']' in DELIMITERS
  {
    assert DELIMITERS[4] == ']';
  }

  lemma NormalizedIsPlain(net: Net, raw: string)
    requires LawfulParse(net)
    ensures HasNone(NormalizeHost(net, raw), DELIMITERS)
  {
    hide LabelsOk, Strip, Lower, RStrip, DELIMITERS;
    DelimitersAreNoLetters();
    var hostname := net.parse(Strip(raw, IsSpace));
    RStripIsPart(hostname, IsDot);
    assert HasNone(RStrip(hostname, IsDot), DELIMITERS);
    LowerKeepsClean(RStrip(hostname, IsDot), DELIMITERS);
  }

  lemma StorableIsPlain(net: Net, domain: string)
    requires LawfulParse(net)
    ensures Storable(net, domain) ==> HasNone(domain, DELIMITERS)
  {
    hide LawfulParse, NormalizeHost, HasNone, DELIMITERS;
    if Storable(net, domain) {
      var raw :| ValidateDomain(net, raw) == Some(domain);
      NormalizedIsPlain(net, raw);
    }
  }

  /** A text without delimiters is read with its own first character, blanks aside. */
  lemma PlainReadsClean(net: Net, domain: string)
    requires LawfulParse(net) && HasNone(domain, DELIMITERS) && NormalizeHost(net, domain) != ""
    ensures !Strippable(NormalizeHost(net, domain)[0])
  {
    hide LabelsOk, Strip, DELIMITERS, RStrip;
    DelimitersAreNoLetters();
    var text := Strip(domain, IsSpace);
    StripIsPart(domain, IsSpace);
    assert HasNone(text, DELIMITERS);
    CanonicalFront(net, net.parse(text));
    assert '[' !in text;
    var front := Before(text, ':');
    assert |Lower(front)| == |front| && |Lower(net.parse(text))| == |net.parse(text)|;
    assert front != "" && front[0] == text[0];
    assert text[0] in text;
    assert NormalizeHost(net, domain)[0] == LowerChar(text[0]);
  }

  /** Read again, a record's domain has neither a blank nor a bracket in front. */
  lemma StorableReadsClean(net: Net, domain: string)
    requires LawfulParse(net)
    ensures Storable(net, domain) && NormalizeHost(net, domain) != "" ==> !Strippable(NormalizeHost(net, domain)[0])
  {
    hide LawfulParse, NormalizeHost, Strippable, HasNone, Storable;
    if Storable(net, domain) && NormalizeHost(net, domain) != "" {
      StorableIsPlain(net, domain);
      PlainReadsClean(net, domain);
    }
  }

  /**
   Main result: when an active check was allowed by scopes whose domains records can hold, there is
   a network scope and it lets the target through, for every target and check list.
   */
  lemma GuardReachesTarget(net: Net, target: string, scanTypes: seq<string>, scopes: seq<VerifiedScope>)
    requires LawfulParse(net) && forall s | s in scopes :: Storable(net, s.domain)
    ensures var decision := Decide(net, target, scanTypes, scopes);
            var scope := NetworkScopeFor(net, decision, target);
            decision.allowed * ACTIVE_CHECKS != {} ==> scope.Some? && GuardPasses(net, scope, NormalizeHost(net, target))
  {
    hide Decide, NormalizeHost, NetworkScopeFor, Norm, Storable, LawfulParse;
    var host := NormalizeHost(net, target);
    GuardReachesTargetIff(net, target, scanTypes, scopes);
    var first := FirstCovering(net, host, scopes);
    if first.Some? {
      StorableReadsClean(net, first.value.domain);
      CoveringFront(net, target, first.value);
    } else if Decide(net, target, scanTypes, scopes).allowed * ACTIVE_CHECKS != {} {
      ActiveWithoutScope(net, target, scanTypes, scopes);
      TrainingHostsClean(host);
    }
  }

  lemma CoveringFront(net: Net, target: string, s: VerifiedScope)
    requires Covers(net, NormalizeHost(net, target), s)
    ensures NormalizeHost(net, s.domain) != "" && NormalizeHost(net, s.domain)[0] != '.'
  {
    hide NormalizeHost, Lower;
    var host, d := NormalizeHost(net, target), NormalizeHost(net, s.domain);
    CoveredHostIsOk(net, target);
    if host != d {
      assert host[|host| - |d| - 1] == '.' && host[|host| - |d|] == d[0] by {
        assert host[|host| - |d| - 1..][0] == ("." + d)[0] && host[|host| - |d| - 1..][1] == ("." + d)[1];
      }
    }
  }

  lemma ActiveWithoutScope(net: Net, target: string, scanTypes: seq<string>, scopes: seq<VerifiedScope>)
    requires Decide(net, target, scanTypes, scopes).allowed * ACTIVE_CHECKS != {}
    requires FirstCovering(net, NormalizeHost(net, target), scopes).None?
    ensures NormalizeHost(net, target) in TRAINING_TARGETS
  {
    hide Decide, NormalizeHost, Covers, TRAINING_TARGETS, ScopeTargets, Expanded;
    NoScopeIff(net, target, scanTypes, scopes);
  }

  /** So over any table of records every target of an allowed active scan is reached. */
  lemma AuthorizedTargetIsReached(net: Net, user: int, target: string, scanTypes: seq<string>, recs: seq<Rec>, os: seq<Outcome>)
    requires LawfulParse(net) && |recs| == |os| && forall r | r in recs :: Storable(net, r.domain)
    ensures var decision := Authorized(net, user, target, scanTypes, recs, os);
            var scope := NetworkScopeFor(net, decision, target);
            decision.allowed * ACTIVE_CHECKS != {} ==> scope.Some? && GuardPasses(net, scope, NormalizeHost(net, target))
  {
    hide LawfulParse, Storable, NormalizeHost, NetworkScopeFor, GuardPasses, Decide, NeedsRecords, ReChecked;
    var scopes := if NeedsRecords(net, target, scanTypes) then LiveScopes(net, user, NormalizeHost(net, target), recs, os) else [];
    forall s | s in scopes ensures Storable(net, s.domain) {
      LiveScopesAreLive(net, user, NormalizeHost(net, target), recs, os, s);
      var i: nat :| LiveAt(net, user, NormalizeHost(net, target), recs, os, i) && recs[i].Scope() == s;
    }
    GuardReachesTarget(net, target, Expanded(scanTypes), scopes);
  }

  // ----- A domain text that no record holds -----

  const BLANK_URL := "https:// b.c"

  function SampleParse(t: string): string {
    if HasNone(t, DELIMITERS) then (if '[' in t then "" else Before(t, ':'))
    else if t == BLANK_URL then " b.c" else ""
  }

  /** A parser that keeps the laws, names that are no addresses, and nothing that resolves. */
  function SampleNet(): Net {
    Net(SampleParse, h => None, h => false, n => {})
  }

  lemma SampleTexts()
    ensures HasNone(" b.c", DELIMITERS) && HasNone("a. b.c", DELIMITERS) && !HasNone(BLANK_URL, DELIMITERS)
    ensures '[' !in "a. b.c" && ':' !in "a. b.c"
  {
    assert BLANK_URL[6] == '/' && DELIMITERS[0] == '/' && '/' in BLANK_URL && '/' in DELIMITERS;
  }

  lemma SampleIsLawful()
    ensures LawfulParse(SampleNet())
  {
    SampleTexts();
    hide HasNone, BLANK_URL, DELIMITERS, Lower, Before;
    forall t ensures HasNone(SampleParse(t), DELIMITERS) {
      NothingInNothing();
      if HasNone(t, DELIMITERS) && '[' !in t {
        PartHasNone(t, ':');
      }
    }
  }

  lemma NothingInNothing()
    ensures HasNone("", DELIMITERS)
  {
  }

  lemma PartHasNone(t: string, c: char)
    requires HasNone(t, DELIMITERS)
    ensures HasNone(Before(t, c), DELIMITERS)
  {
    BeforeIsPart(t, c);
  }

  /**
   A scope given by a text that parses to a name with a blank in front: every check is allowed for a
   name under it and the guard blocks that name. No record can hold such a text.
   */
  lemma BlankFrontBlocksTarget()
    ensures var net := SampleNet();
            var scopes := [VerifiedScope(BLANK_URL, DNS_TXT)];
            var decision := Decide(net, "a. b.c", ["nmap"], scopes);
            && LawfulParse(net) && !Storable(net, BLANK_URL)
            && NormalizeHost(net, "a. b.c") == "a. b.c" && decision.allowed == {"nmap"}
            && !GuardPasses(net, NetworkScopeFor(net, decision, "a. b.c"), "a. b.c")
  {
    hide LawfulParse, Storable, NormalizeHost, Norm, NetworkScopeFor, ScopeTargets, Decide, Covers, FirstCovering,
         GuardPasses, NameAllowed, CleanFront, RestsOn, BLANK_URL, Before, SampleParse;
    var net, scopes := SampleNet(), [VerifiedScope(BLANK_URL, DNS_TXT)];
    SampleIsLawful();
    BlankIsNotStored();
    BlankNames();
    BlankCovers();
    BlankIsAllowed();
    GuardReachesTargetIff(net, "a. b.c", ["nmap"], scopes);
  }

  lemma BlankIsNotStored()
    ensures !Storable(SampleNet(), BLANK_URL)
  {
    SampleIsLawful();
    SampleTexts();
    hide LawfulParse, HasNone, Storable, BLANK_URL;
    if Storable(SampleNet(), BLANK_URL) {
      StorableIsPlain(SampleNet(), BLANK_URL);
    }
  }

  lemma BlankCovers()
    ensures var scopes := [VerifiedScope(BLANK_URL, DNS_TXT)];
            && Covers(SampleNet(), "a. b.c", scopes[0]) && FirstCovering(SampleNet(), "a. b.c", scopes) == Some(scopes[0])
            && RestsOn(SampleNet(), "a. b.c", scopes) == " b.c" && !CleanFront(" b.c")
  {
    hide NormalizeHost, BLANK_URL, SampleParse;
    BlankNames();
  }

  lemma BlankIsAllowed()
    ensures var decision := Decide(SampleNet(), "a. b.c", ["nmap"], [VerifiedScope(BLANK_URL, DNS_TXT)]);
            decision.allowed == {"nmap"} && "nmap" in decision.allowed * ACTIVE_CHECKS
  {
    var net, scopes := SampleNet(), [VerifiedScope(BLANK_URL, DNS_TXT)];
    hide NormalizeHost, BLANK_URL, SampleParse, Covers, FirstCovering, RestsOn, CleanFront, Expanded, Decide;
    BlankNames();
    BlankCovers();
    OneCheck("nmap");
    assert scopes[0] in scopes;
    ActiveAllowedIff(net, "a. b.c", ["nmap"], scopes, "nmap");
    AllowedAndDeniedPartition(net, "a. b.c", ["nmap"], scopes);
  }

  lemma BlankNames()
    ensures NormalizeHost(SampleNet(), "a. b.c") == "a. b.c" && NormalizeHost(SampleNet(), BLANK_URL) == " b.c"
    ensures EndsWith("a. b.c", "." + " b.c")
  {
    hide *;
    SampleTarget();
    BlankUrlReads();
    NameUnderBlank();
  }

  lemma NameUnderBlank()
    ensures EndsWith("a. b.c", "." + " b.c")
  {
    assert "a. b.c"[1..] == "." + " b.c";
  }

  lemma SampleTarget()
    ensures NormalizeHost(SampleNet(), "a. b.c") == "a. b.c"
  {
    hide *;
    SampleTexts();
    SampleIsLawful();
    SampleStripped();
    SampleLabels();
    NormalNameIsKept(SampleNet(), "a. b.c");
  }

  lemma SampleStripped()
    ensures Strip("a. b.c", IsSpace) == "a. b.c" && SampleNet().ipOf("a. b.c").None?
  {
    NothingToStrip("a. b.c");
  }

  lemma SampleLabels()
    ensures LabelsOk("a. b.c") && LabelsOk(" b.c") && Lower("a. b.c") == "a. b.c" && Lower(" b.c") == " b.c"
  {
  }

  lemma BlankUrlReads()
    ensures NormalizeHost(SampleNet(), BLANK_URL) == " b.c"
  {
    SampleTexts();
    NothingToStrip(BLANK_URL);
    SampleLabels();
    hide HasNone, DELIMITERS, Strip, LabelsOk, Lower, BLANK_URL;
    assert SampleNet().parse(BLANK_URL) == " b.c";
    PlainNameIsKept(SampleNet(), " b.c");
  }

  lemma OneCheck(c: string)
    ensures Expanded([c]) == [c]
  {
    DistinctKeepsFirsts([c]);
    assert Distinct([]) == [] && [c][..0] == [] && Distinct([c]) == [c];
  }

  lemma PlainNameIsKept(net: Net, h: string)
    requires h != "" && h[|h| - 1] != '.' && Lower(h) == h && net.ipOf(h).None? && LabelsOk(h)
    ensures CanonicalHost(net, h) == h
  {
  }

  lemma EmptyTargetRefused(net: Net, target: string, scanTypes: seq<string>, scopes: seq<VerifiedScope>)
    ensures var host := NormalizeHost(net, target);
            Norm(host) == "" && (FirstCovering(net, host, scopes).Some? || host in TRAINING_TARGETS) ==>
              !Entitled(net, target, scopes, "")
    ensures var scope := NetworkScopeFor(net, Decide(net, target, scanTypes, scopes), target);
            scope.Some? ==> !NameAllowed(scope.value, "")
  {
    hide Norm, Decide, TRAINING_TARGETS, NormalizeHost, ScopeTargets, Built;
    var host := NormalizeHost(net, target);
    if FirstCovering(net, host, scopes).None? && host in TRAINING_TARGETS {
      TrainingHostsClean(host);
      NormUnderCleanDomain("", host);
    }
    forall hosts, suffixes ensures !NameAllowed(Built(net, hosts, suffixes, host), "") {
      EmptyNameRefused(net, hosts, suffixes, host);
    }
  }

  lemma CoveredHostIsOk(net: Net, target: string)
    requires net.ipOf(NormalizeHost(net, target)).None? && NormalizeHost(net, target) != ""
    ensures LabelsOk(NormalizeHost(net, target))
  {
  }

  lemma EntitledTargetIff(net: Net, target: string, scopes: seq<VerifiedScope>)
    ensures var host := NormalizeHost(net, target);
            var domain := RestsOn(net, host, scopes);
            FirstCovering(net, host, scopes).Some? || host in TRAINING_TARGETS ==>
              (Entitled(net, target, scopes, Norm(host)) <==> CleanFront(domain) || (host == domain && Norm(domain) != ""))
  {
    hide Norm, TRAINING_TARGETS, NormalizeHost, CleanFront;
    var host := NormalizeHost(net, target);
    var first := FirstCovering(net, host, scopes);
    if first.None? {
      if host in TRAINING_TARGETS {
        TrainingHostsClean(host);
      }
    } else {
      var d := NormalizeHost(net, first.value.domain);
      CoveringMethod(net, host, first.value);
      CoveredHostIsOk(net, target);
      MethodsDiffer();
      SuffixAdmitsHostIff(host, d);
      if CleanFront(d) {
        NormUnderCleanDomain("", d);
      }
    }
  }

  lemma TrainingHostsClean(host: string)
    requires host in TRAINING_TARGETS
    ensures CleanFront(host)
  {
  }
}
