/**
 web/scan_authz.py: which checks may run against which host, and on what basis.

 Texts are ASCII. Finding the host name in a text, recognising IP literals and
 resolving names are oracles; what is assumed of the first is `LawfulParse`.
 */
module ScanAuthz {
  import opened Prelude
  import opened Text

  /**
   `parse(t)` is the host name `urlparse` finds in a text without surrounding blanks, "https://" put in
   front if it has no scheme, and empty if there is none; `ipOf(h)` is the canonical text of an IP literal,
   None for a name; `internal(h)` says whether a host is local; `resolve(n)` gives the addresses a name has.
   */
  datatype Net = Net(parse: string -> string, ipOf: string -> Option<string>, internal: string -> bool,
                     resolve: string -> set<string>)

  const PASSIVE_CHECKS: set<string> := {"dns", "whois", "osint", "ssl", "headers"}
  const ACTIVE_CHECKS: set<string> := {"nmap", "ports", "subdomain", "xss", "sqli", "ssrf", "lfi", "redirect"}
  const SCAN_STEP_ORDER: seq<string> :=
    ["subdomain", "dns", "whois", "nmap", "ssl", "headers", "ports", "xss", "sqli", "ssrf", "lfi", "redirect", "osint"]
  const WEB_VULN_CHECKS: set<string> := {"xss", "sqli", "ssrf", "lfi", "redirect"}
  const TRAINING_TARGETS: map<string, set<string>> := map[
    "scanme.nmap.org" := {"nmap", "ports"},
    "public-firing-range.appspot.com" := {"xss", "redirect"},
    "testasp.vulnweb.com" := WEB_VULN_CHECKS,
    "testaspnet.vulnweb.com" := WEB_VULN_CHECKS,
    "demo.testfire.net" := WEB_VULN_CHECKS,
    "zero.webappsecurity.com" := WEB_VULN_CHECKS
  ]
  const DNS_TXT := "dns_txt"
  const HTTP_FILE := "http_file"

  datatype VerifiedScope = VerifiedScope(domain: string, method_: string)

  /** The human-readable `reason` is left out. */
  datatype Decision = Decision(allowed: set<string>, denied: set<string>, basis: string)

  // ----- Hosts -----

  /** What the idna codec accepts of an ASCII name: no empty label, none of 64 characters or more. */
  predicate LabelsOk(h: string) {
    && h != "" && h[0] != '.'
    && (forall i | 0 <= i < |h| - 1 :: !(h[i] == '.' && h[i + 1] == '.'))
    && (forall i: nat | i + 64 <= |h| :: !LongLabel(h, i))
  }

  predicate LongLabel(h: string, i: nat)
    requires i + 64 <= |h|
  {
    forall j | i <= j < i + 64 :: h[j] != '.'
  }

  /** The second half of `normalize_host`, from the parsed host name on. */
  function CanonicalHost(net: Net, hostname: string): string {
    var host := Lower(RStrip(hostname, IsDot));
    if host == "" then ""
    else if net.ipOf(host).Some? then host
    else if LabelsOk(host) then host else ""
  }

  /** `normalize_host`. */
  function NormalizeHost(net: Net, target: string): string {
    var text := Strip(target, IsSpace);
    if text == "" then "" else CanonicalHost(net, net.parse(text))
  }

  /** What ends a host name in a URL, and what `urlparse` takes out of the text beforehand. */
  const DELIMITERS := "/?#@]\t\n\r"

  /**
   What is assumed of `urlparse`: a host name holds no delimiter; a text without delimiters and
   brackets is its own host name up to the first colon and to letter case; and a text with an
   opening bracket, no closing one and no other delimiter is refused.
   */
  ghost predicate LawfulParse(net: Net) {
    && (forall t :: HasNone(net.parse(t), DELIMITERS))
    && (forall t | HasNone(t, DELIMITERS) && '[' !in t :: Lower(net.parse(t)) == Lower(Before(t, ':')))
    && (forall t | HasNone(t, DELIMITERS) && '[' in t :: net.parse(t) == "")
  }

  // ----- What a host name comes to -----

  /** The parts of a name between its dots. */
  function Labels(h: string): seq<string>
    decreases |h|
  {
    if '.' !in h then [h] else [Before(h, '.')] + Labels(After(h, '.'))
  }

  lemma LabelsOkStep(a: string, b: string)
    requires '.' !in a && b != ""
    ensures LabelsOk(a + ['.'] + b) <==> 1 <= |a| <= 63 && LabelsOk(b)
  {
    var h := a + ['.'] + b;
    assert forall i | 0 <= i < |b| :: h[|a| + 1 + i] == b[i];
    assert forall i | 0 <= i < |a| :: h[i] == a[i] && a[i] in a;
    if LabelsOk(h) {
      if |a| >= 64 {
        assert LongLabel(h, 0);
      }
      forall i: nat | i + 64 <= |b| ensures !LongLabel(b, i) {
        if LongLabel(b, i) {
          assert LongLabel(h, |a| + 1 + i);
        }
      }
      assert b[0] != '.' by {
        assert !(h[|a|] == '.' && h[|a| + 1] == '.');
      }
    }
    if 1 <= |a| <= 63 && LabelsOk(b) {
      forall i: nat | i + 64 <= |h| ensures !LongLabel(h, i) {
        if i > |a| {
          assert !LongLabel(b, i - |a| - 1);
          var j :| i - |a| - 1 <= j < i - |a| - 1 + 64 && b[j] == '.';
          assert h[|a| + 1 + j] == '.';
        } else {
          assert h[|a|] == '.';
        }
      }
      forall i | 0 <= i < |h| - 1 ensures !(h[i] == '.' && h[i + 1] == '.') {
        if i > |a| {
          assert h[i] == b[i - |a| - 1] && h[i + 1] == b[i - |a|];
        }
      }
    }
  }

  /** What the codec accepts of a name without a dot at its end: every label has between 1 and 63 characters. */
  lemma {:induction false} LabelsOkMeans(h: string)
    requires h != "" && h[|h| - 1] != '.'
    ensures LabelsOk(h) <==> forall l | l in Labels(h) :: 1 <= |l| <= 63
    decreases |h|
  {
    if '.' in h {
      JoinFirst(h, '.');
      var a, b := Before(h, '.'), After(h, '.');
      assert b != "" && b[|b| - 1] == h[|h| - 1];
      LabelsOkStep(a, b);
      LabelsOkMeans(b);
      assert Labels(h) == [a] + Labels(b);
    } else {
      OneLabel(h);
    }
  }

  lemma OneLabel(h: string)
    requires h != "" && '.' !in h
    ensures LabelsOk(h) <==> |h| <= 63
  {
    assert forall i | 0 <= i < |h| :: h[i] in h;
    if |h| >= 64 {
      assert LongLabel(h, 0);
    }
  }

  /** A text read as a host name: lower case, without the dots at its end, and only if it is an address or has good labels. */
  function HostText(net: Net, text: string): string {
    var h := RStrip(Lower(text), IsDot);
    if h == "" || (net.ipOf(h).None? && !LabelsOk(h)) then "" else h
  }

  lemma {:induction false} RStripLower(s: string)
    ensures Lower(RStrip(s, IsDot)) == RStrip(Lower(s), IsDot)
  {
    if s != "" {
      assert Lower(s)[..|s| - 1] == Lower(s[..|s| - 1]);
      if IsDot(s[|s| - 1]) {
        RStripLower(s[..|s| - 1]);
      }
    }
  }

  /** A target or domain given as a bare text is read as that text, blanks around it, case and a port aside. */
  lemma PlainTextReads(net: Net, target: string)
    requires LawfulParse(net) && HasNone(Strip(target, IsSpace), DELIMITERS) && '[' !in Strip(target, IsSpace)
    ensures Strip(target, IsSpace) != "" ==> NormalizeHost(net, target) == HostText(net, Before(Strip(target, IsSpace), ':'))
    ensures Strip(target, IsSpace) == "" ==> NormalizeHost(net, target) == ""
  {
    hide LabelsOk, Strip, Lower, DELIMITERS;
    var text := Strip(target, IsSpace);
    if text != "" {
      RStripLower(net.parse(text));
    }
  }

  /** So reading a name that has been read already changes nothing. */
  lemma NormalNameIsKept(net: Net, h: string)
    requires LawfulParse(net) && HasNone(h, DELIMITERS) && '[' !in h && ':' !in h
    requires Strip(h, IsSpace) == h && h != "" && Lower(h) == h && h[|h| - 1] != '.'
    ensures NormalizeHost(net, h) == if net.ipOf(h).Some? || LabelsOk(h) then h else ""
  {
    hide LawfulParse, HasNone, DELIMITERS, Lower, Strip, LabelsOk;
    PlainTextReads(net, h);
    NoSeparator(h, ':');
  }

  predicate Covers(net: Net, host: string, s: VerifiedScope) {
    var domain := NormalizeHost(net, s.domain);
    && host != "" && net.ipOf(host).None? && domain != ""
    && (if s.method_ == DNS_TXT then host == domain || EndsWith(host, "." + domain)
        else s.method_ == HTTP_FILE && host == domain)
  }

  /**
   What a scope covers: a TXT record the domain and every name under it, a file the domain alone, any
   other method nothing; and never an address.
   */
  lemma CoversMeans(net: Net, host: string, s: VerifiedScope)
    ensures var domain := NormalizeHost(net, s.domain);
            var known := host != "" && net.ipOf(host).None? && domain != "";
            && (s.method_ == DNS_TXT ==>
                  (Covers(net, host, s) <==> known && (host == domain || exists front: string :: host == front + "." + domain)))
            && (s.method_ == HTTP_FILE ==> (Covers(net, host, s) <==> known && host == domain))
            && (s.method_ != DNS_TXT && s.method_ != HTTP_FILE ==> !Covers(net, host, s))
  {
    hide NormalizeHost;
    var domain := NormalizeHost(net, s.domain);
    if EndsWith(host, "." + domain) {
      var front := host[..|host| - |domain| - 1];
      EndsWithSplit(host, "." + domain);
      assert host == front + "." + domain;
    }
    forall front: string | host == front + "." + domain ensures EndsWith(host, "." + domain) {
      assert host[|front|..] == "." + domain;
    }
  }

  /** The first scope covering `host`. */
  function FirstCovering(net: Net, host: string, scopes: seq<VerifiedScope>): (r: Option<VerifiedScope>)
    ensures r.Some? ==> r.value in scopes && Covers(net, host, r.value)
    ensures r.None? <==> forall s | s in scopes :: !Covers(net, host, s)
  {
    if scopes == [] then None
    else if Covers(net, host, scopes[0]) then Some(scopes[0])
    else FirstCovering(net, host, scopes[1..])
  }

  method HostInVerifiedScope(net: Net, host: string, scopes: seq<VerifiedScope>) returns (r: Option<VerifiedScope>)
    ensures r == FirstCovering(net, host, scopes)
  {
    if host == "" || net.ipOf(host).Some? {
      return None;
    }
    var i := 0;
    while i < |scopes|
      invariant 0 <= i <= |scopes|
      invariant FirstCovering(net, host, scopes) == FirstCovering(net, host, scopes[i..])
    {
      var s := scopes[i];
      var domain := NormalizeHost(net, s.domain);
      if domain != "" {
        if s.method_ == DNS_TXT {
          if host == domain || EndsWith(host, "." + domain) {
            return Some(s);
          }
        } else if s.method_ == HTTP_FILE {
          if host == domain {
            return Some(s);
          }
        }
      }
      i := i + 1;
    }
    r := None;
  }

  // ----- Checks -----

  /** The list with later repetitions dropped. */
  function Distinct(cs: seq<string>): seq<string> {
    if cs == [] then []
    else
      var init := Distinct(cs[..|cs| - 1]);
      if cs[|cs| - 1] in cs[..|cs| - 1] then init else init + [cs[|cs| - 1]]
  }

  /** `expand_checks`: an empty request means every step. */
  function Expanded(requested: seq<string>): seq<string> {
    if requested == [] then SCAN_STEP_ORDER else Distinct(requested)
  }

  lemma {:induction false} DistinctKeepsFirsts(cs: seq<string>)
    ensures forall c :: c in Distinct(cs) <==> c in cs
    ensures forall i, j | 0 <= i < j < |Distinct(cs)| :: Distinct(cs)[i] != Distinct(cs)[j]
  {
    if cs != [] {
      DistinctKeepsFirsts(cs[..|cs| - 1]);
    }
  }

  method ExpandChecks(requested: seq<string>) returns (out: seq<string>)
    ensures out == Expanded(requested)
  {
    if requested == [] {
      return SCAN_STEP_ORDER;
    }
    var seen: set<string> := {};
    out := [];
    for i := 0 to |requested|
      invariant out == Distinct(requested[..i])
      invariant forall c :: c in seen <==> c in requested[..i]
    {
      var c := requested[i];
      assert requested[..i + 1][..i] == requested[..i];
      if c !in seen {
        seen := seen + {c};
        out := out + [c];
      }
    }
    assert requested[..|requested|] == requested;
  }

  // ----- The decision -----

  function Requested(checks: seq<string>, kind: set<string>): set<string> {
    set c | c in checks && c in kind
  }

  function Unknown(checks: seq<string>): set<string> {
    set c | c in checks && c !in PASSIVE_CHECKS && c !in ACTIVE_CHECKS
  }

  function VerifiedBasis(net: Net, s: VerifiedScope): string {
    "verified:" + s.method_ + ":" + NormalizeHost(net, s.domain)
  }

  function Decide(net: Net, target: string, scanTypes: seq<string>, scopes: seq<VerifiedScope>): Decision {
    var checks := Expanded(scanTypes);
    var host := NormalizeHost(net, target);
    var unknown, active, passive := Unknown(checks), Requested(checks, ACTIVE_CHECKS), Requested(checks, PASSIVE_CHECKS);
    if host == "" then Decision({}, set c | c in checks, "passive_only")
    else if active == {} then Decision(passive, unknown, "passive_only")
    else
      var scope := FirstCovering(net, host, scopes);
      if scope.Some? then Decision(passive + active, unknown, VerifiedBasis(net, scope.value))
      else if host in TRAINING_TARGETS then
        Decision(passive + active * TRAINING_TARGETS[host], unknown + (active - TRAINING_TARGETS[host]), "training:" + host)
      else Decision(passive, unknown + active, "passive_only")
  }

  /** `scope_targets`: exact hosts and domain suffixes decoded from the basis; None only for "passive_only". */
  function ScopeTargets(basis: string): Option<(set<string>, set<string>)> {
    var kind, rest := Before(basis, ':'), After(basis, ':');
    if kind == "verified" then
      var how, domain := Before(rest, ':'), After(rest, ':');
      if how == DNS_TXT then Some(({}, {domain}))
      else if how == HTTP_FILE then Some(({domain}, {}))
      else Some(({}, {}))
    else if kind == "training" then Some(({rest}, {}))
    else if kind == "passive_only" then None
    else Some(({}, {}))
  }

  // ----- Properties of the decision -----

  lemma PassiveNotActive()
    ensures PASSIVE_CHECKS !! ACTIVE_CHECKS
  {
  }

  /** Every expanded check is either allowed or denied, never both. */
  lemma AllowedAndDeniedPartition(net: Net, target: string, scanTypes: seq<string>, scopes: seq<VerifiedScope>)
    ensures var d := Decide(net, target, scanTypes, scopes);
            && d.allowed !! d.denied
            && d.allowed + d.denied == set c | c in Expanded(scanTypes)
  {
    PassiveNotActive();
    hide NormalizeHost, FirstCovering, Expanded, VerifiedBasis;
  }

  /** An active check is allowed only through a covering scope or through the training table, and then always. */
  lemma ActiveAllowedIff(net: Net, target: string, scanTypes: seq<string>, scopes: seq<VerifiedScope>, c: string)
    requires c in Expanded(scanTypes) && c in ACTIVE_CHECKS
    ensures var host := NormalizeHost(net, target);
            c in Decide(net, target, scanTypes, scopes).allowed
            <==> host != "" && ((exists s | s in scopes :: Covers(net, host, s))
                                || (host in TRAINING_TARGETS && c in TRAINING_TARGETS[host]))
  {
    hide NormalizeHost, Expanded, VerifiedBasis, Covers;
    PassiveNotActive();
    assert c in Requested(Expanded(scanTypes), ACTIVE_CHECKS);
  }

  /** A passive check that was asked for is allowed whatever is verified, as long as there is a host. */
  lemma PassiveAllowedIff(net: Net, target: string, scanTypes: seq<string>, scopes: seq<VerifiedScope>, c: string)
    requires c in Expanded(scanTypes) && c in PASSIVE_CHECKS
    ensures c in Decide(net, target, scanTypes, scopes).allowed <==> NormalizeHost(net, target) != ""
  {
    hide NormalizeHost, Expanded, VerifiedBasis, Covers;
    PassiveNotActive();
    assert c in Requested(Expanded(scanTypes), PASSIVE_CHECKS);
  }

  /** A check that is neither, or was not asked for, is never allowed. */
  lemma OthersNeverAllowed(net: Net, target: string, scanTypes: seq<string>, scopes: seq<VerifiedScope>, c: string)
    requires c !in Expanded(scanTypes) || c !in PASSIVE_CHECKS + ACTIVE_CHECKS
    ensures c !in Decide(net, target, scanTypes, scopes).allowed
  {
    hide NormalizeHost, Expanded, VerifiedBasis, Covers;
  }

  /** More scopes and more requested checks never take an allowed check away. */
  lemma DecideIsMonotone(net: Net, target: string, few: seq<string>, many: seq<string>,
                         scopes: seq<VerifiedScope>, more: seq<VerifiedScope>)
    requires forall c | c in Expanded(few) && c in PASSIVE_CHECKS + ACTIVE_CHECKS :: c in Expanded(many)
    requires forall s | s in scopes :: s in more
    ensures Decide(net, target, few, scopes).allowed <= Decide(net, target, many, more).allowed
  {
    hide NormalizeHost, Expanded, VerifiedBasis, Covers;
    PassiveNotActive();
    forall c | c in Decide(net, target, few, scopes).allowed
      ensures c in Decide(net, target, many, more).allowed
    {
      if c in ACTIVE_CHECKS {
        assert c in Requested(Expanded(few), ACTIVE_CHECKS);
        ActiveAllowedIff(net, target, few, scopes, c);
        ActiveAllowedIff(net, target, many, more, c);
      } else {
        assert c in Requested(Expanded(few), PASSIVE_CHECKS);
        assert c in Requested(Expanded(many), PASSIVE_CHECKS);
      }
    }
  }

  // ----- The basis string -----

  /** Decoding a verified basis gives back the method and the whole domain, colons in the domain included. */
  lemma VerifiedBasisRoundTrip(net: Net, s: VerifiedScope)
    requires s.method_ == DNS_TXT || s.method_ == HTTP_FILE
    ensures var domain := NormalizeHost(net, s.domain);
            ScopeTargets(VerifiedBasis(net, s))
            == Some(if s.method_ == DNS_TXT then ({}, {domain}) else ({domain}, {}))
  {
    var domain := NormalizeHost(net, s.domain);
    var rest := s.method_ + ":" + domain;
    assert "verified:" + s.method_ + ":" + domain == "verified" + [':'] + rest;
    SplitJoined("verified", ':', rest);
    SplitJoined(s.method_, ':', domain);
  }

  lemma OtherBasesRoundTrip(host: string)
    ensures ScopeTargets("training:" + host) == Some(({host}, {}))
    ensures ScopeTargets("passive_only") == None
  {
    assert "training:" + host == "training" + [':'] + host;
    SplitJoined("training", ':', host);
    NoSeparator("passive_only", ':');
  }

  /** Anything else fails closed: a method or a kind of basis that is not known gives a scope that reaches nothing, not no scope. */
  lemma UnknownBasisReachesNothing(kind: string, how: string, rest: string)
    requires ':' !in kind && ':' !in how
    ensures kind !in {"verified", "training", "passive_only"} ==> ScopeTargets(kind + ":" + rest) == ScopeTargets(kind) == Some(({}, {}))
    ensures how != DNS_TXT && how != HTTP_FILE ==> ScopeTargets("verified:" + how + ":" + rest) == Some(({}, {}))
  {
    hide DNS_TXT, HTTP_FILE;
    SplitJoined(kind, ':', rest);
    NoSeparator(kind, ':');
    SplitJoined("verified", ':', how + [':'] + rest);
    SplitJoined(how, ':', rest);
    assert kind + ":" + rest == kind + [':'] + rest;
    assert "verified:" + how + ":" + rest == "verified" + [':'] + (how + [':'] + rest);
  }

  lemma {:induction false} NoSeparator(s: string, c: char)
    requires c !in s
    ensures Before(s, c) == s
  {
    if s != "" {
      NoSeparator(s[1..], c);
      assert s == [s[0]] + s[1..];
    }
  }

  /**
   No network scope is attached exactly when the decision rests on nothing active: no host, no
   active check, or nothing covering. A scope may still come with no active check allowed, in
   one case only: a training target asked for nothing it permits.
   */
  lemma NoScopeIff(net: Net, target: string, scanTypes: seq<string>, scopes: seq<VerifiedScope>)
    ensures var host := NormalizeHost(net, target);
            ScopeTargets(Decide(net, target, scanTypes, scopes).basis).None?
            <==> host == "" || Requested(Expanded(scanTypes), ACTIVE_CHECKS) == {}
                 || (host !in TRAINING_TARGETS && forall s | s in scopes :: !Covers(net, host, s))
    ensures ScopeTargets(Decide(net, target, scanTypes, scopes).basis).None?
            ==> Decide(net, target, scanTypes, scopes).allowed * ACTIVE_CHECKS == {}
    ensures var host := NormalizeHost(net, target);
            var active := Requested(Expanded(scanTypes), ACTIVE_CHECKS);
            var d := Decide(net, target, scanTypes, scopes);
            ScopeTargets(d.basis).Some? && d.allowed * ACTIVE_CHECKS == {}
            <==> host != "" && host in TRAINING_TARGETS && active != {} && active * TRAINING_TARGETS[host] == {}
                 && forall s | s in scopes :: !Covers(net, host, s)
  {
    hide NormalizeHost, Expanded, VerifiedBasis, Covers, ScopeTargets, DNS_TXT, HTTP_FILE;
    PassiveNotActive();
    var host := NormalizeHost(net, target);
    OtherBasesRoundTrip(host);
    var scope := FirstCovering(net, host, scopes);
    if scope.Some? {
      CoveringMethod(net, host, scope.value);
      VerifiedBasisRoundTrip(net, scope.value);
    }
  }

  lemma CoveringMethod(net: Net, host: string, s: VerifiedScope)
    requires Covers(net, host, s)
    ensures s.method_ == DNS_TXT || s.method_ == HTTP_FILE
  {
  }
}
