/**
 modules/scan_scope.py: the per-scan guard in front of every outgoing connection.
 */
module ScanScope {
  import opened Prelude
  import opened Text
  import opened ScanAuthz

  datatype Scope = Scope(hosts: set<string>, suffixes: set<string>, ips: set<string>)

  const MAX_RECORDED := 100

  /** `_normalize`: blanks, then brackets, then trailing dots, then lower case. */
  function Norm(host: string): string {
    Lower(RStrip(Strip(Strip(host, IsSpace), IsBracket), IsDot))
  }

  predicate UnderSuffix(name: string, suffix: string) {
    name == suffix || EndsWith(name, "." + suffix)
  }

  predicate NameAllowed(scope: Scope, name: string) {
    name in scope.hosts || exists s | s in scope.suffixes :: UnderSuffix(name, s)
  }

  predicate IpAllowed(net: Net, scope: Scope, name: string) {
    var ip := net.ipOf(Before(name, '%'));
    ip.Some? && ip.value in scope.ips
  }

  /** `ScanScope.allows`. */
  predicate Allows(net: Net, scope: Scope, host: string) {
    var name := Norm(host);
    name != "" && (NameAllowed(scope, name) || IpAllowed(net, scope, name))
  }

  function NonEmptyNorms(names: set<string>): set<string> {
    set n | n in names && Norm(n) != "" :: Norm(n)
  }

  /** The names whose addresses a scope admits. */
  function ResolvedNames(net: Net, hosts: set<string>, suffixes: set<string>, extra: string): set<string> {
    set n | n in hosts + suffixes + {Norm(extra)} && n != "" && Allows(net, Scope(hosts, suffixes, {}), n)
  }

  /** `build_scope(hosts, suffixes, [extra])`. */
  function Built(net: Net, hosts: set<string>, suffixes: set<string>, extra: string): Scope {
    var hs, ss := NonEmptyNorms(hosts), NonEmptyNorms(suffixes);
    Scope(hs, ss, set n, ip | n in ResolvedNames(net, hs, ss, extra) && ip in net.resolve(n) :: ip)
  }

  /** The loop of `build_scope` over the candidate names, in whatever order the set yields them. */
  method BuildScope(net: Net, hosts: set<string>, suffixes: set<string>, extra: string) returns (scope: Scope)
    ensures scope == Built(net, hosts, suffixes, extra)
  {
    var hs, ss := NonEmptyNorms(hosts), NonEmptyNorms(suffixes);
    var all := hs + ss + {Norm(extra)};
    var todo, ips := all, {};
    while todo != {}
      invariant todo <= all
      invariant forall ip :: ip in ips <==>
          exists n :: n in all - todo && n in ResolvedNames(net, hs, ss, extra) && ip in net.resolve(n)
      decreases |todo|
    {
      var name :| name in todo;
      if name != "" && Allows(net, Scope(hs, ss, {}), name) {
        ips := ips + net.resolve(name);
      }
      todo := todo - {name};
    }
    scope := Scope(hs, ss, ips);
  }

  // ----- The guard -----

  /** `_guarded_create_connection` and `_guarded_send`: outside a scope everything passes. */
  predicate GuardPasses(net: Net, scope: Option<Scope>, host: string) {
    scope.None? || Allows(net, scope.value, host)
  }

  /** The attempts on record after a series of blocked ones: the first hundred different ones, in order. */
  function Recorded(attempts: seq<string>): seq<string> {
    var d := Distinct(attempts);
    if |d| <= MAX_RECORDED then d else d[..MAX_RECORDED]
  }

  class ScopeGuard {
    const net: Net
    const scope: Option<Scope>
    var blocked: seq<string>
    ghost var attempts: seq<string>

    ghost predicate Valid()
      reads this
    {
      blocked == Recorded(attempts)
    }

    constructor (net: Net, scope: Option<Scope>)
      ensures Valid() && attempts == [] && this.net == net && this.scope == scope
    {
      this.net, this.scope := net, scope;
      blocked, attempts := [], [];
    }

    method RecordBlock(what: string)
      requires Valid()
      modifies this
      ensures Valid() && attempts == old(attempts) + [what]
    {
      RecordOneMore(attempts, what);
      if |blocked| < MAX_RECORDED && what !in blocked {
        blocked := blocked + [what];
      }
      attempts := attempts + [what];
    }

    /** A guarded connection: it goes ahead exactly when the guard lets the host through, and is recorded otherwise. */
    method Connect(host: string, what: string) returns (connected: bool)
      requires Valid()
      modifies this
      ensures Valid() && (connected <==> GuardPasses(net, scope, host))
      ensures attempts == if connected then old(attempts) else old(attempts) + [what]
    {
      connected := scope.None? || Allows(net, scope.value, host);
      if !connected {
        RecordBlock(what);
      }
    }
  }

  lemma RecordOneMore(attempts: seq<string>, what: string)
    ensures var before := Recorded(attempts);
            Recorded(attempts + [what])
            == if |before| < MAX_RECORDED && what !in before then before + [what] else before
  {
    assert (attempts + [what])[..|attempts|] == attempts;
    DistinctKeepsFirsts(attempts);
  }

  // ----- Normalizing twice -----

  predicate Strippable(c: char) {
    IsSpace(c) || IsBracket(c)
  }

  /** No blank or bracket in front, as in every name that exists in DNS. */
  predicate CleanFront(d: string) {
    d != "" && !Strippable(d[0]) && d[0] != '.'
  }

  /** What `_normalize` leaves of the right-hand side. */
  function RightTrim(d: string): string {
    RStrip(RStrip(RStrip(d, IsSpace), IsBracket), IsDot)
  }

  lemma StripUnder(front: string, d: string, p: char -> bool)
    requires d != "" && !p(d[0]) && !p('.')
    ensures Strip(front + ['.'] + d, p) == LStrip(front, p) + ['.'] + RStrip(d, p)
    ensures Strip(d, p) == RStrip(d, p) && RStrip(d, p) != "" && RStrip(d, p)[0] == d[0]
  {
    LStripStops(front, '.', d, p);
    RStripKeepsHead(d, p);
    RStripStops(LStrip(front, p) + ['.'], d, p);
  }

  /** A name under a clean domain keeps, after normalizing, the dot and the whole normalized domain. */
  lemma NormUnderCleanDomain(front: string, d: string)
    requires CleanFront(d)
    ensures Norm(d) == Lower(RightTrim(d)) && Norm(d) != ""
    ensures EndsWith(Norm(front + ['.'] + d), ['.'] + Norm(d))
  {
    hide Strip, LStrip, RStrip, Lower;
    StripUnder(front, d, IsSpace);
    var f1, d1 := LStrip(front, IsSpace), RStrip(d, IsSpace);
    StripUnder(f1, d1, IsBracket);
    var f2, d2 := LStrip(f1, IsBracket), RStrip(d1, IsBracket);
    RStripKeepsHead(d2, IsDot);
    RStripStops(f2 + ['.'], d2, IsDot);
    LowerConcat(f2 + ['.'], RightTrim(d));
    LowerConcat(f2, ['.']);
    DotIsLower();
    assert Norm(front + ['.'] + d) == Lower(f2) + (['.'] + Norm(d));
  }

  lemma DotIsLower()
    ensures Lower(['.']) == ['.']
  {
  }

  /** Normalizing a domain cuts off a front of blanks and brackets that every name under it keeps behind the dot. */
  lemma NormUnderUncleanDomain(under: string, d: string) returns (lead: string, kept: string)
    requires d != "" && Strippable(d[0]) && Norm(d) != ""
    ensures lead != "" && Strippable(lead[|lead| - 1])
    ensures Norm(d) == Lower(kept) && Norm(under + ['.'] + d) == Lower(lead) + Lower(kept)
  {
    hide RStrip, LStrip, Lower;
    EmptyStaysEmpty();
    var blanks := LStripSplits(d, IsSpace);
    var e := LStrip(d, IsSpace);
    var e1 := RStrip(e, IsSpace);
    var brackets := LStripSplits(e1, IsBracket);
    var g := LStrip(e1, IsBracket);
    var g1 := RStrip(g, IsBracket);
    kept := RStrip(g1, IsDot);
    LStripStops(under, '.', d, IsSpace);
    var u1 := LStrip(under, IsSpace);
    assert u1 + ['.'] + d == (u1 + ['.'] + blanks) + e;
    RStripStops(u1 + ['.'] + blanks, e, IsSpace);
    assert (u1 + ['.'] + blanks) + e1 == u1 + ['.'] + (blanks + e1);
    LStripStops(u1, '.', blanks + e1, IsBracket);
    var u2 := LStrip(u1, IsBracket);
    lead := u2 + ['.'] + blanks + brackets;
    assert u2 + ['.'] + (blanks + e1) == lead + g;
    RStripStops(lead, g, IsBracket);
    RStripStops(lead, g1, IsDot);
    LowerConcat(lead, kept);
    if brackets == "" {
      assert lead == u2 + ['.'] + blanks;
    }
  }

  /** So no name under such a domain ends in the normalized domain behind a dot. */
  lemma UncleanDomainMissesEveryName(under: string, d: string)
    requires d != "" && Strippable(d[0]) && Norm(d) != ""
    ensures !UnderSuffix(Norm(under + ['.'] + d), Norm(d))
  {
    hide Norm, Lower;
    var lead, kept := NormUnderUncleanDomain(under, d);
    LastLowered(lead);
    NoDotBefore(Lower(lead), Norm(d));
  }

  lemma EmptyStaysEmpty()
    ensures RStrip("", IsSpace) == RStrip("", IsBracket) == RStrip("", IsDot) == ""
    ensures LStrip("", IsBracket) == "" && Lower("") == ""
  {
  }

  /**
   Exactly which verified domains the guard treats as their owner would expect: every name under
   the domain is let through by the suffix if and only if the domain does not start with a blank or
   a bracket (which no name that exists in DNS does).
   */
  lemma SuffixReachesEverySubdomainIff(net: Net, d: string, extra: string)
    requires d != "" && d[0] != '.'
    ensures (forall front: string :: NameAllowed(Built(net, {}, {d}, extra), Norm(front + ['.'] + d)))
            <==> CleanFront(d)
  {
    var scope := Built(net, {}, {d}, extra);
    if CleanFront(d) {
      forall front: string ensures NameAllowed(scope, Norm(front + ['.'] + d)) {
        NormUnderCleanDomain(front, d);
        assert Norm(d) in scope.suffixes;
        assert UnderSuffix(Norm(front + ['.'] + d), Norm(d));
      }
    } else {
      UncleanDomainMissesAName(net, d, extra);
    }
  }

  lemma UncleanDomainMissesAName(net: Net, d: string, extra: string)
    requires d != "" && Strippable(d[0])
    ensures !NameAllowed(Built(net, {}, {d}, extra), Norm("a" + ['.'] + d))
  {
    hide Norm;
    var scope := Built(net, {}, {d}, extra);
    if Norm(d) != "" {
      UncleanDomainMissesEveryName("a", d);
    }
    assert forall s | s in scope.suffixes :: s == Norm(d);
  }

  /** Exactly which hosts a suffix scope for a covering domain admits. */
  lemma SuffixAdmitsHostIff(host: string, d: string)
    requires LabelsOk(host) && d != "" && (host == d || EndsWith(host, "." + d))
    ensures Norm(d) != "" && UnderSuffix(Norm(host), Norm(d)) <==> CleanFront(d) || (host == d && Norm(d) != "")
  {
    hide Norm;
    if CleanFront(d) {
      NormUnderCleanDomain("", d);
    }
    if host != d {
      EndsWithSplit(host, "." + d);
      var under := host[..|host| - |d| - 1];
      assert host == under + ['.'] + d;
      assert d[0] != '.' by {
        assert host[|under|] == '.' && host[|under| + 1] == d[0];
      }
      if CleanFront(d) {
        NormUnderCleanDomain(under, d);
      } else if Norm(d) != "" {
        UncleanDomainMissesEveryName(under, d);
      }
    }
  }

  /** A scope that was built admits no empty name. */
  lemma EmptyNameRefused(net: Net, hosts: set<string>, suffixes: set<string>, extra: string)
    ensures !NameAllowed(Built(net, hosts, suffixes, extra), "")
  {
    hide Norm;
  }

  lemma NoDotBefore(lead: string, n: string)
    requires lead != "" && lead[|lead| - 1] != '.'
    ensures !UnderSuffix(lead + n, n)
  {
    assert (lead + n)[|lead| - 1..][0] != '.';
  }

  lemma LastLowered(s: string)
    requires s != "" && Strippable(s[|s| - 1])
    ensures |Lower(s)| == |s| && Lower(s)[|s| - 1] != '.'
  {
  }
}
