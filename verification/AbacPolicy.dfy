/**
 auth/dependencies.py: the attribute-policy evaluator.

 Rendering a value as text, comparing two values, reading an IP address and
 reading a wall clock in a zone are oracles; everything the evaluator decides
 from their answers is here.
 */
module AbacPolicy {
  import opened Prelude
  import opened Text
  import BusinessHours

  type Zone = int

  /** An attribute value; a moment without a zone is a naive datetime. */
  datatype Value =
    | Absent
    | Text(s: string)
    | TextList(items: seq<string>)
    | Moment(instant: int, zone: Option<Zone>)
    | Other(id: int)

  datatype Network = Network(version: int, low: int, high: int)

  datatype World = World(show: Value -> string, same: (Value, Value) -> bool,
                         address: string -> Option<(int, int)>, wallClock: (int, Option<Zone>) -> (int, int))

  datatype Op =
    | Eq(value: Value)
    | In(values: seq<Value>)
    | NotIn(values: seq<Value>)
    | SubsetOf(allowed: set<string>)
    | InNetworks(nets: seq<Network>)
    | NotInNetworks(nets: seq<Network>)
    | WithinHours(hours: BusinessHours.Hours)
    | OutsideHours(hours: BusinessHours.Hours)

  datatype Condition = Condition(attr: string, op: Op, caseInsensitive: bool)

  datatype Effect = Allow | Deny

  datatype Rule = Rule(id: string, roles: set<string>, resource: string, conditions: seq<Condition>, effect: Effect)

  datatype Policy = Policy(rules: seq<Rule>, zone: Zone)

  datatype Reason = MissingRole | NaiveTime | MissingAttribute(attr: string) | InvalidValue | DeniedByRule | AllowedByRule | NoMatchingRule

  datatype Decision = Decision(allowed: bool, ruleId: Option<string>, reason: Reason)

  type Attrs = map<string, Value>

  // ----- Conditions -----

  /** What testing a condition comes to; `Error` is a ValueError, TypeError or AttributeError. */
  datatype Tri = Yes | No | Error

  function AsTri(b: bool): Tri {
    if b then Yes else No
  }

  function Negate(t: Tri): Tri {
    if t == Error then Error else AsTri(t == No)
  }

  predicate IsMissing(v: Value) {
    v.Absent? || (v.Text? && Strip(v.s, IsSpace) == "")
  }

  function Get(attrs: Attrs, name: string): Value {
    if name in attrs then attrs[name] else Absent
  }

  predicate Equal(w: World, a: Value, v: Value, caseInsensitive: bool) {
    if caseInsensitive then Lower(w.show(a)) == Lower(w.show(v)) else w.same(a, v)
  }

  function TestNetworks(w: World, a: Value, nets: seq<Network>): Tri {
    if nets == [] then No
    else
      var ip := w.address(w.show(a));
      if ip.None? then Error
      else AsTri(exists n | n in nets :: n.version == ip.value.0 && n.low <= ip.value.1 <= n.high)
  }

  function TestHours(w: World, a: Value, h: BusinessHours.Hours): Tri {
    if !a.Moment? then Error
    else
      var (weekday, t) := w.wallClock(a.instant, a.zone);
      AsTri(BusinessHours.Within(weekday, t, h))
  }

  /** `_holds`. */
  function Test(w: World, c: Condition, a: Value): Tri {
    match c.op
    case Eq(v) => AsTri(Equal(w, a, v, c.caseInsensitive))
    case In(vs) => AsTri(exists v | v in vs :: Equal(w, a, v, c.caseInsensitive))
    case NotIn(vs) => AsTri(forall v | v in vs :: !Equal(w, a, v, c.caseInsensitive))
    case SubsetOf(allowed) => AsTri(a.TextList? && a.items != [] && forall x | x in a.items :: x in allowed)
    case InNetworks(nets) => TestNetworks(w, a, nets)
    case NotInNetworks(nets) => Negate(TestNetworks(w, a, nets))
    case WithinHours(h) => TestHours(w, a, h)
    case OutsideHours(h) => Negate(TestHours(w, a, h))
  }

  /** `all(...)`: stops at the first condition that fails or errors. */
  function TestAll(w: World, cs: seq<Condition>, attrs: Attrs): Tri {
    if cs == [] then Yes
    else
      var first := Test(w, cs[0], Get(attrs, cs[0].attr));
      if first == Yes then TestAll(w, cs[1..], attrs) else first
  }

  predicate Targets(r: Rule, role: Value, resource: string) {
    r.resource == resource && ("*" in r.roles || (role.Text? && role.s in r.roles))
  }

  function FirstMissing(cs: seq<Condition>, attrs: Attrs): Option<string> {
    if cs == [] then None
    else if IsMissing(Get(attrs, cs[0].attr)) then Some(cs[0].attr)
    else FirstMissing(cs[1..], attrs)
  }

  // ----- Evaluation -----

  predicate IsNaive(v: Value) {
    v.Moment? && v.zone.None?
  }

  /** request_time moved into the policy's zone; other values are left alone. */
  function Localized(attrs: Attrs, zone: Zone): Attrs {
    var when := Get(attrs, "request_time");
    if when.Moment? then attrs["request_time" := Moment(when.instant, Some(zone))] else attrs
  }

  /** The loop of `evaluate` over the rules still to come, with what it has found so far. */
  function Fold(w: World, rules: seq<Rule>, attrs: Attrs, allowHit: Option<string>, missingHit: Option<Decision>): Decision {
    if rules == [] then
      if allowHit.Some? then Decision(true, allowHit, AllowedByRule)
      else if missingHit.Some? then missingHit.value
      else Decision(false, None, NoMatchingRule)
    else
      var r := rules[0];
      var missing := FirstMissing(r.conditions, attrs);
      if missing.Some? then
        var reason := Decision(false, Some(r.id), MissingAttribute(missing.value));
        if r.effect == Deny then reason
        else Fold(w, rules[1..], attrs, allowHit, if missingHit.Some? then missingHit else Some(reason))
      else
        match TestAll(w, r.conditions, attrs)
        case Error => Decision(false, Some(r.id), InvalidValue)
        case No => Fold(w, rules[1..], attrs, allowHit, missingHit)
        case Yes =>
          if r.effect == Deny then Decision(false, Some(r.id), DeniedByRule)
          else Fold(w, rules[1..], attrs, if allowHit.Some? then allowHit else Some(r.id), missingHit)
  }

  function Applicable(rules: seq<Rule>, role: Value, resource: string): seq<Rule> {
    if rules == [] then []
    else (if Targets(rules[0], role, resource) then [rules[0]] else []) + Applicable(rules[1..], role, resource)
  }

  function Evaluation(w: World, p: Policy, resource: string, attrs: Attrs): Decision {
    var role := Get(attrs, "role");
    if IsMissing(role) then Decision(false, None, MissingRole)
    else if IsNaive(Get(attrs, "request_time")) then Decision(false, None, NaiveTime)
    else Fold(w, Applicable(p.rules, role, resource), Localized(attrs, p.zone), None, None)
  }

  method Evaluate(w: World, p: Policy, resource: string, attrs: Attrs) returns (d: Decision)
    ensures d == Evaluation(w, p, resource, attrs)
  {
    var role := Get(attrs, "role");
    if IsMissing(role) {
      return Decision(false, None, MissingRole);
    }
    if IsNaive(Get(attrs, "request_time")) {
      return Decision(false, None, NaiveTime);
    }
    var local := Localized(attrs, p.zone);
    var applicable := Applicable(p.rules, role, resource);
    var allowHit: Option<string> := None;
    var missingHit: Option<Decision> := None;
    var i := 0;
    while i < |applicable|
      invariant 0 <= i <= |applicable|
      invariant Fold(w, applicable, local, None, None) == Fold(w, applicable[i..], local, allowHit, missingHit)
    {
      var rule := applicable[i];
      assert applicable[i..][1..] == applicable[i + 1..];
      i := i + 1;
      var missing := FirstMissing(rule.conditions, local);
      if missing.Some? {
        var reason := Decision(false, Some(rule.id), MissingAttribute(missing.value));
        if rule.effect == Deny {
          return reason;
        }
        missingHit := if missingHit.Some? then missingHit else Some(reason);
        continue;
      }
      match TestAll(w, rule.conditions, local) {
        case Error => return Decision(false, Some(rule.id), InvalidValue);
        case No =>
        case Yes =>
          if rule.effect == Deny {
            return Decision(false, Some(rule.id), DeniedByRule);
          }
          if allowHit.None? {
            allowHit := Some(rule.id);
          }
      }
    }
    if allowHit.Some? {
      return Decision(true, allowHit, AllowedByRule);
    }
    d := if missingHit.Some? then missingHit.value else Decision(false, None, NoMatchingRule);
  }

  // ----- What the verdict means -----

  predicate Complete(r: Rule, attrs: Attrs) {
    forall c | c in r.conditions :: !IsMissing(Get(attrs, c.attr))
  }

  /** Condition `i` errs after all before it held, so that testing gets there. */
  predicate ErrsFirst(w: World, cs: seq<Condition>, attrs: Attrs, i: nat)
    requires i < |cs|
  {
    && Test(w, cs[i], Get(attrs, cs[i].attr)) == Error
    && forall j | 0 <= j < i :: Test(w, cs[j], Get(attrs, cs[j].attr)) == Yes
  }

  predicate Errs(w: World, r: Rule, attrs: Attrs) {
    Complete(r, attrs) && exists i: nat | i < |r.conditions| :: ErrsFirst(w, r.conditions, attrs, i)
  }

  predicate Matches(w: World, r: Rule, attrs: Attrs) {
    Complete(r, attrs) && forall c | c in r.conditions :: Test(w, c, Get(attrs, c.attr)) == Yes
  }

  /** A rule that settles the matter against the request wherever it stands. */
  predicate Blocks(w: World, r: Rule, attrs: Attrs) {
    Errs(w, r, attrs) || (r.effect == Deny && (!Complete(r, attrs) || Matches(w, r, attrs)))
  }

  predicate Admits(w: World, r: Rule, attrs: Attrs) {
    r.effect == Allow && Matches(w, r, attrs)
  }

  /** The verdict, said without an order among the rules. */
  predicate Permitted(w: World, p: Policy, resource: string, attrs: Attrs) {
    var role, local := Get(attrs, "role"), Localized(attrs, p.zone);
    && !IsMissing(role) && !IsNaive(Get(attrs, "request_time"))
    && (forall r | r in p.rules && Targets(r, role, resource) :: !Blocks(w, r, local))
    && (exists r | r in p.rules && Targets(r, role, resource) :: Admits(w, r, local))
  }

  /** Testing a rule's conditions in order: all must hold, and an error counts only if everything before it held. */
  lemma {:induction false} TestAllMeans(w: World, cs: seq<Condition>, attrs: Attrs)
    ensures TestAll(w, cs, attrs) == Yes <==> forall c | c in cs :: Test(w, c, Get(attrs, c.attr)) == Yes
    ensures TestAll(w, cs, attrs) == Error <==> exists i: nat | i < |cs| :: ErrsFirst(w, cs, attrs, i)
  {
    hide Test;
    if cs != [] {
      var rest := cs[1..];
      TestAllMeans(w, rest, attrs);
      assert cs == [cs[0]] + rest;
      if Test(w, cs[0], Get(attrs, cs[0].attr)) == Yes {
        if i: nat :| i < |rest| && ErrsFirst(w, rest, attrs, i) {
          assert ErrsFirst(w, cs, attrs, i + 1);
        }
        if i: nat :| i < |cs| && ErrsFirst(w, cs, attrs, i) {
          assert rest[i - 1] == cs[i] && forall j | 0 <= j < i - 1 :: rest[j] == cs[j + 1];
          assert ErrsFirst(w, rest, attrs, i - 1);
        }
      } else if Test(w, cs[0], Get(attrs, cs[0].attr)) == Error {
        assert ErrsFirst(w, cs, attrs, 0);
      }
    }
  }

  lemma {:induction false} FirstMissingFinds(cs: seq<Condition>, attrs: Attrs)
    ensures FirstMissing(cs, attrs).None? <==> forall c | c in cs :: !IsMissing(Get(attrs, c.attr))
  {
    if cs != [] && !IsMissing(Get(attrs, cs[0].attr)) {
      FirstMissingFinds(cs[1..], attrs);
      assert cs == [cs[0]] + cs[1..];
    }
  }

  lemma {:induction false} ApplicableMembers(rules: seq<Rule>, role: Value, resource: string, r: Rule)
    ensures r in Applicable(rules, role, resource) <==> r in rules && Targets(r, role, resource)
  {
    if rules != [] {
      ApplicableMembers(rules[1..], role, resource, r);
      assert rules == [rules[0]] + rules[1..];
    }
  }

  lemma {:induction false} FoldAllows(w: World, rules: seq<Rule>, attrs: Attrs, allowHit: Option<string>, missingHit: Option<Decision>)
    requires missingHit.Some? ==> !missingHit.value.allowed
    ensures Fold(w, rules, attrs, allowHit, missingHit).allowed
            <==> (forall r | r in rules :: !Blocks(w, r, attrs)) && (allowHit.Some? || exists r | r in rules :: Admits(w, r, attrs))
    decreases |rules|
  {
    hide TestAll, IsMissing, Test, ErrsFirst, FirstMissing;
    if rules != [] {
      var r, rest := rules[0], rules[1..];
      assert rules == [r] + rest;
      TestAllMeans(w, r.conditions, attrs);
      FirstMissingFinds(r.conditions, attrs);
      assert Complete(r, attrs) <==> FirstMissing(r.conditions, attrs).None?;
      if !Complete(r, attrs) {
        var reason := Decision(false, Some(r.id), MissingAttribute(FirstMissing(r.conditions, attrs).value));
        FoldAllows(w, rest, attrs, allowHit, if missingHit.Some? then missingHit else Some(reason));
      } else if Matches(w, r, attrs) {
        FoldAllows(w, rest, attrs, if allowHit.Some? then allowHit else Some(r.id), missingHit);
      } else {
        FoldAllows(w, rest, attrs, allowHit, missingHit);
      }
      assert (forall x | x in rules :: !Blocks(w, x, attrs))
          <==> !Blocks(w, r, attrs) && forall x | x in rest :: !Blocks(w, x, attrs);
      assert (exists x | x in rules :: Admits(w, x, attrs))
          <==> Admits(w, r, attrs) || exists x | x in rest :: Admits(w, x, attrs);
    }
  }

  /**
   Main result: `evaluate` allows exactly when the role is present, request_time is not naive, no
   applicable rule errors, no applicable deny rule has a missing attribute or matches, and some
   applicable allow rule has all its attributes and matches.
   */
  lemma AllowedIffPermitted(w: World, p: Policy, resource: string, attrs: Attrs)
    ensures Evaluation(w, p, resource, attrs).allowed <==> Permitted(w, p, resource, attrs)
  {
    hide Blocks, Admits, IsMissing;
    var role, local := Get(attrs, "role"), Localized(attrs, p.zone);
    var applicable := Applicable(p.rules, role, resource);
    forall r ensures r in applicable <==> r in p.rules && Targets(r, role, resource) {
      ApplicableMembers(p.rules, role, resource, r);
    }
    FoldAllows(w, applicable, local, None, None);
  }

  // ----- Which rule the decision names -----

  /** The attribute named as missing is the first one that is. */
  lemma {:induction false} FirstMissingIsFirst(cs: seq<Condition>, attrs: Attrs, i: nat)
    requires i < |cs| && IsMissing(Get(attrs, cs[i].attr)) && forall j | 0 <= j < i :: !IsMissing(Get(attrs, cs[j].attr))
    ensures FirstMissing(cs, attrs) == Some(cs[i].attr)
  {
    hide IsMissing;
    if i > 0 {
      assert forall j | 0 <= j < i - 1 :: cs[1..][j] == cs[j + 1];
      FirstMissingIsFirst(cs[1..], attrs, i - 1);
    }
  }

  /** The applicable rules are taken in the policy's order. */
  lemma {:induction false} ApplicableInOrder(a: seq<Rule>, b: seq<Rule>, role: Value, resource: string)
    ensures Applicable(a + b, role, resource) == Applicable(a, role, resource) + Applicable(b, role, resource)
  {
    if a == [] {
      assert a + b == b;
    } else {
      var first := if Targets(a[0], role, resource) then [a[0]] else [];
      ApplicableInOrder(a[1..], b, role, resource);
      assert (a + b)[1..] == a[1..] + b;
      assert Applicable(a + b, role, resource) == first + Applicable(a[1..] + b, role, resource);
      assert Applicable(a, role, resource) == first + Applicable(a[1..], role, resource);
      hide *;
    }
  }

  function BlockedBy(w: World, r: Rule, attrs: Attrs): Decision {
    var missing := FirstMissing(r.conditions, attrs);
    Decision(false, Some(r.id), if missing.Some? then MissingAttribute(missing.value)
                                else if Errs(w, r, attrs) then InvalidValue else DeniedByRule)
  }

  predicate NoneBlocks(w: World, rules: seq<Rule>, attrs: Attrs) {
    forall r | r in rules :: !Blocks(w, r, attrs)
  }

  predicate NoneAdmits(w: World, rules: seq<Rule>, attrs: Attrs) {
    forall r | r in rules :: !Admits(w, r, attrs)
  }

  predicate AllComplete(rules: seq<Rule>, attrs: Attrs) {
    forall r | r in rules :: Complete(r, attrs)
  }

  /** A rule behind others that do not block: it blocks the request if it can. */
  lemma {:induction false} FirstBlockDecides(w: World, front: seq<Rule>, r: Rule, rest: seq<Rule>, attrs: Attrs,
                                             allowHit: Option<string>, missingHit: Option<Decision>)
    requires NoneBlocks(w, front, attrs) && Blocks(w, r, attrs)
    ensures Fold(w, front + [r] + rest, attrs, allowHit, missingHit) == BlockedBy(w, r, attrs)
    decreases |front|
  {
    hide TestAll, IsMissing, Test, ErrsFirst, FirstMissing;
    var all := front + [r] + rest;
    FirstMissingFinds(all[0].conditions, attrs);
    TestAllMeans(w, all[0].conditions, attrs);
    assert Complete(all[0], attrs) <==> FirstMissing(all[0].conditions, attrs).None?;
    if front != [] {
      var f := front[0];
      assert f in front && !Blocks(w, f, attrs) && all[0] == f && all[1..] == front[1..] + [r] + rest;
      var missing := FirstMissing(f.conditions, attrs);
      FirstBlockDecides(w, front[1..], r, rest, attrs,
                        if Admits(w, f, attrs) && allowHit.None? then Some(f.id) else allowHit,
                        if missing.Some? && missingHit.None?
                        then Some(Decision(false, Some(f.id), MissingAttribute(missing.value))) else missingHit);
    }
  }

  /** With nothing blocking, an allow found before stands. */
  lemma {:induction false} AllowStands(w: World, rules: seq<Rule>, attrs: Attrs, id: string, missingHit: Option<Decision>)
    requires NoneBlocks(w, rules, attrs)
    ensures Fold(w, rules, attrs, Some(id), missingHit) == Decision(true, Some(id), AllowedByRule)
    decreases |rules|
  {
    hide TestAll, IsMissing, Test, ErrsFirst, FirstMissing;
    if rules != [] {
      var r := rules[0];
      assert r in rules && !Blocks(w, r, attrs);
      FirstMissingFinds(r.conditions, attrs);
      TestAllMeans(w, r.conditions, attrs);
      var missing := FirstMissing(r.conditions, attrs);
      AllowStands(w, rules[1..], attrs, id,
                  if missing.Some? && missingHit.None?
                  then Some(Decision(false, Some(r.id), MissingAttribute(missing.value))) else missingHit);
    }
  }

  lemma {:induction false} FirstAllowDecides(w: World, front: seq<Rule>, r: Rule, rest: seq<Rule>, attrs: Attrs, missingHit: Option<Decision>)
    requires NoneBlocks(w, front + [r] + rest, attrs) && NoneAdmits(w, front, attrs) && Admits(w, r, attrs)
    ensures Fold(w, front + [r] + rest, attrs, None, missingHit) == Decision(true, Some(r.id), AllowedByRule)
    decreases |front|
  {
    hide TestAll, IsMissing, Test, ErrsFirst, FirstMissing;
    var all := front + [r] + rest;
    assert all[0] in all && !Blocks(w, all[0], attrs) && forall x | x in all[1..] :: x in all;
    FirstMissingFinds(all[0].conditions, attrs);
    TestAllMeans(w, all[0].conditions, attrs);
    var missing := FirstMissing(all[0].conditions, attrs);
    if front == [] {
      AllowStands(w, all[1..], attrs, r.id, missingHit);
    } else {
      assert front[0] in front && all[1..] == front[1..] + [r] + rest;
      FirstAllowDecides(w, front[1..], r, rest, attrs,
                        if missing.Some? && missingHit.None?
                        then Some(Decision(false, Some(all[0].id), MissingAttribute(missing.value))) else missingHit);
    }
  }

  /** With neither, the first allow rule that lacked an attribute is named, or none. */
  lemma {:induction false} NothingDecides(w: World, rules: seq<Rule>, attrs: Attrs, missingHit: Option<Decision>)
    requires NoneBlocks(w, rules, attrs) && NoneAdmits(w, rules, attrs)
    ensures missingHit.Some? ==> Fold(w, rules, attrs, None, missingHit) == missingHit.value
    ensures missingHit.None? && AllComplete(rules, attrs) ==>
              Fold(w, rules, attrs, None, missingHit) == Decision(false, None, NoMatchingRule)
    ensures forall i: nat | i < |rules| && missingHit.None? && AllComplete(rules[..i], attrs) && !Complete(rules[i], attrs) ::
              Fold(w, rules, attrs, None, missingHit) == BlockedBy(w, rules[i], attrs)
    decreases |rules|
  {
    hide TestAll, IsMissing, Test, ErrsFirst, FirstMissing;
    if rules != [] {
      var r, rest := rules[0], rules[1..];
      assert r in rules && !Blocks(w, r, attrs) && !Admits(w, r, attrs) && forall x | x in rest :: x in rules;
      FirstMissingFinds(r.conditions, attrs);
      TestAllMeans(w, r.conditions, attrs);
      var missing := FirstMissing(r.conditions, attrs);
      NothingDecides(w, rest, attrs,
                     if missing.Some? && missingHit.None?
                     then Some(Decision(false, Some(r.id), MissingAttribute(missing.value))) else missingHit);
      forall i: nat | i < |rules| && missingHit.None? && AllComplete(rules[..i], attrs) && !Complete(rules[i], attrs)
        ensures Fold(w, rules, attrs, None, missingHit) == BlockedBy(w, rules[i], attrs)
      {
        if i > 0 {
          assert rules[..i][0] == r && rules[i] == rest[i - 1];
          assert forall x | x in rest[..i - 1] :: x in rules[..i];
        }
      }
    }
  }

  /**
   Which rule a decision names, and why: the first applicable rule that blocks; else the first that
   admits; else the first that lacked an attribute; else none.
   */
  lemma DecisionNamesRule(w: World, p: Policy, resource: string, attrs: Attrs, i: nat)
    requires !IsMissing(Get(attrs, "role")) && !IsNaive(Get(attrs, "request_time"))
    ensures var rules, local := Applicable(p.rules, Get(attrs, "role"), resource), Localized(attrs, p.zone);
            var d := Evaluation(w, p, resource, attrs);
            && (i < |rules| && NoneBlocks(w, rules[..i], local) && Blocks(w, rules[i], local) ==> d == BlockedBy(w, rules[i], local))
            && (NoneBlocks(w, rules, local) ==>
                  && (i < |rules| && NoneAdmits(w, rules[..i], local) && Admits(w, rules[i], local) ==>
                        d == Decision(true, Some(rules[i].id), AllowedByRule))
                  && (NoneAdmits(w, rules, local) ==>
                        && (i < |rules| && AllComplete(rules[..i], local) && !Complete(rules[i], local) ==> d == BlockedBy(w, rules[i], local))
                        && (AllComplete(rules, local) ==> d == Decision(false, None, NoMatchingRule))))
  {
    hide Fold, Blocks, Admits, Complete, BlockedBy, IsMissing, IsNaive, Localized, Applicable;
    var rules, local := Applicable(p.rules, Get(attrs, "role"), resource), Localized(attrs, p.zone);
    if NoneBlocks(w, rules, local) && NoneAdmits(w, rules, local) {
      NothingDecides(w, rules, local, None);
    }
    if i < |rules| {
      assert rules == rules[..i] + [rules[i]] + rules[i + 1..];
      if NoneBlocks(w, rules[..i], local) && Blocks(w, rules[i], local) {
        FirstBlockDecides(w, rules[..i], rules[i], rules[i + 1..], local, None, None);
      }
      if NoneBlocks(w, rules, local) && NoneAdmits(w, rules[..i], local) && Admits(w, rules[i], local) {
        FirstAllowDecides(w, rules[..i], rules[i], rules[i + 1..], local, None);
      }
    }
  }

  /** Without a role, or with a naive request_time, no rule is looked at. */
  lemma NoRuleWithoutRoleOrTime(w: World, p: Policy, resource: string, attrs: Attrs)
    requires IsMissing(Get(attrs, "role")) || IsNaive(Get(attrs, "request_time"))
    ensures Evaluation(w, p, resource, attrs)
         == Decision(false, None, if IsMissing(Get(attrs, "role")) then MissingRole else NaiveTime)
  {
  }

  /** So the order of the rules, and repeating one, never changes the verdict. */
  lemma OrderDoesNotMatter(w: World, p: Policy, q: Policy, resource: string, attrs: Attrs)
    requires p.zone == q.zone && forall r :: r in p.rules <==> r in q.rules
    ensures Evaluation(w, p, resource, attrs).allowed == Evaluation(w, q, resource, attrs).allowed
  {
    AllowedIffPermitted(w, p, resource, attrs);
    AllowedIffPermitted(w, q, resource, attrs);
  }

  lemma PermutedRulesSameVerdict(w: World, p: Policy, q: Policy, resource: string, attrs: Attrs)
    requires p.zone == q.zone && multiset(p.rules) == multiset(q.rules)
    ensures Evaluation(w, p, resource, attrs).allowed == Evaluation(w, q, resource, attrs).allowed
  {
    forall r ensures r in p.rules <==> r in q.rules {
      assert r in p.rules <==> r in multiset(p.rules);
      assert r in q.rules <==> r in multiset(q.rules);
    }
    OrderDoesNotMatter(w, p, q, resource, attrs);
  }

  /** Adding a deny rule, anywhere, never turns a denial into an allow. */
  lemma AddingADenyNeverAllows(w: World, p: Policy, q: Policy, deny: Rule, resource: string, attrs: Attrs)
    requires p.zone == q.zone && deny.effect == Deny
    requires forall r :: r in q.rules <==> r in p.rules || r == deny
    ensures Evaluation(w, q, resource, attrs).allowed ==> Evaluation(w, p, resource, attrs).allowed
  {
    AllowedIffPermitted(w, p, resource, attrs);
    AllowedIffPermitted(w, q, resource, attrs);
  }

  /**
   For hours the loader accepts, within_hours holds of a moment exactly when the policy's wall clock
   is less than the window's length past the opening of a listed day; outside_hours is its exact
   complement; on anything that is not a moment both are errors.
   */
  lemma HoursConditions(w: World, start: Option<(int, int)>, end: Option<(int, int)>, days: Option<seq<int>>, a: Value, attr: string, ci: bool)
    requires BusinessHours.ParseHours(start, end, days).Some? && start.Some? && end.Some?
    requires a.Moment? ==> var (weekday, t) := w.wallClock(a.instant, a.zone);
                           0 <= weekday < 7 && 0 <= t < BusinessHours.DAY
    ensures var h := BusinessHours.ParseHours(start, end, days).value;
            var within, outside := Test(w, Condition(attr, WithinHours(h), ci), a), Test(w, Condition(attr, OutsideHours(h), ci), a);
            if a.Moment? then
              var (weekday, t) := w.wallClock(a.instant, a.zone);
              var open, close := BusinessHours.Opening(start.value), BusinessHours.Opening(end.value);
              && (within == Yes <==> exists d | 0 <= d < 7 && (days.Some? ==> d in days.value) ::
                    BusinessHours.SinceOpening(weekday, t, d, open) < BusinessHours.Length(open, close))
              && (outside == Yes <==> within == No) && within != Error
            else within == outside == Error
  {
    hide BusinessHours.SinceOpening, BusinessHours.Length, BusinessHours.Opening, BusinessHours.ParseHours, BusinessHours.Within;
    if a.Moment? {
      var (weekday, t) := w.wallClock(a.instant, a.zone);
      BusinessHours.WithinIsModular(start, end, days, weekday, t);
    }
  }

  /** Equality ignores case exactly when the condition says so. */
  lemma EqualityOperator(w: World, a: Value, attr: string, v: Value)
    ensures Test(w, Condition(attr, Eq(v), false), a) == Yes <==> w.same(a, v)
    ensures Test(w, Condition(attr, Eq(v), true), a) == Yes <==> Lower(w.show(a)) == Lower(w.show(v))
  {
  }

  /** What the list operators say of one another, whatever the comparison. */
  lemma ListOperators(w: World, a: Value, attr: string, vs: seq<Value>, ci: bool)
    ensures var within, without := Test(w, Condition(attr, In(vs), ci), a), Test(w, Condition(attr, NotIn(vs), ci), a);
            && (within == Yes <==> exists v | v in vs :: Test(w, Condition(attr, Eq(v), ci), a) == Yes)
            && (without == Yes <==> within == No) && within != Error
  {
  }

  /** Both network operators err on a text that is no address, and are otherwise complementary. */
  lemma NetworkOperators(w: World, a: Value, attr: string, nets: seq<Network>, ci: bool)
    ensures Test(w, Condition(attr, InNetworks([]), ci), a) == No && Test(w, Condition(attr, NotInNetworks([]), ci), a) == Yes
    ensures nets != [] ==>
             var inside, outside := Test(w, Condition(attr, InNetworks(nets), ci), a), Test(w, Condition(attr, NotInNetworks(nets), ci), a);
            if w.address(w.show(a)).None? then inside == outside == Error
            else
              && (outside == Yes <==> inside == No) && inside != Error
              && (inside == Yes <==> exists k | 0 <= k < |nets| :: Test(w, Condition(attr, InNetworks([nets[k]]), ci), a) == Yes)
  {
  }

  /** A network holds the addresses of its own family between its ends. */
  lemma OneNetwork(w: World, a: Value, attr: string, net: Network, ci: bool, family: int, number: int)
    requires w.address(w.show(a)) == Some((family, number))
    ensures Test(w, Condition(attr, InNetworks([net]), ci), a) == Yes <==> net.version == family && net.low <= number <= net.high
  {
    assert net in [net];
  }

  /** The scan checks asked for must be a list, not empty, and all allowed; so allowing more never refuses. */
  lemma SubsetOperator(w: World, a: Value, attr: string, allowed: set<string>, more: set<string>, ci: bool)
    requires allowed <= more
    ensures Test(w, Condition(attr, SubsetOf(allowed), ci), TextList([])) == No
    ensures !a.TextList? ==> Test(w, Condition(attr, SubsetOf(allowed), ci), a) == No
    ensures Test(w, Condition(attr, SubsetOf(allowed), ci), a) == Yes ==> Test(w, Condition(attr, SubsetOf(more), ci), a) == Yes
    ensures forall x :: Test(w, Condition(attr, SubsetOf(allowed), ci), TextList([x])) == Yes <==> x in allowed
    ensures forall xs, ys | xs != [] && ys != [] ::
              Test(w, Condition(attr, SubsetOf(allowed), ci), TextList(xs + ys)) == Yes
              <==> Test(w, Condition(attr, SubsetOf(allowed), ci), TextList(xs)) == Yes
                   && Test(w, Condition(attr, SubsetOf(allowed), ci), TextList(ys)) == Yes
  {
    forall xs: seq<string>, ys: seq<string> ensures forall x :: x in xs + ys <==> x in xs || x in ys {}
  }

  // ----- Policies of one rule, spelled out -----

  /** An attribute is missing if it is absent or a text of blanks. */
  lemma MissingMeans(attrs: Attrs, name: string)
    ensures IsMissing(Get(attrs, name))
       <==> name !in attrs || attrs[name].Absent? || (attrs[name].Text? && forall c | c in attrs[name].s :: IsSpace(c))
  {
    if name in attrs && attrs[name].Text? {
      StripsToNothing(attrs[name].s, IsSpace);
    }
  }

  /** The moment a condition sees is the request's, in the policy's zone; every other attribute is as it was given. */
  lemma LocalizedMeans(attrs: Attrs, zone: Zone, name: string)
    ensures name in Localized(attrs, zone) <==> name in attrs
    ensures name in attrs && (name != "request_time" || !attrs[name].Moment?) ==> Localized(attrs, zone)[name] == attrs[name]
    ensures "request_time" in attrs && attrs["request_time"].Moment? ==>
              Localized(attrs, zone)["request_time"] == Moment(attrs["request_time"].instant, Some(zone))
  {
  }

  /** One allow rule without conditions allows exactly its resource to its roles. */
  lemma UnconditionalRule(w: World, r: Rule, zone: Zone, resource: string, attrs: Attrs, role: string)
    requires r.effect == Allow && r.conditions == [] && "role" in attrs && attrs["role"] == Text(role)
    requires exists c :: c in role && !IsSpace(c)
    requires "request_time" in attrs ==> !attrs["request_time"].Moment? || attrs["request_time"].zone.Some?
    ensures Evaluation(w, Policy([r], zone), resource, attrs).allowed
       <==> r.resource == resource && (role in r.roles || "*" in r.roles)
  {
    AllowedIffPermitted(w, Policy([r], zone), resource, attrs);
    MissingMeans(attrs, "role");
    assert r in [r];
  }

  /** One allow rule with one condition on an attribute other than the time. */
  lemma ConditionalRule(w: World, r: Rule, zone: Zone, resource: string, attrs: Attrs, role: string, c: Condition)
    requires r.effect == Allow && r.conditions == [c] && c.attr != "request_time" && "role" in attrs && attrs["role"] == Text(role)
    requires exists x :: x in role && !IsSpace(x)
    requires "request_time" in attrs ==> !attrs["request_time"].Moment? || attrs["request_time"].zone.Some?
    ensures Evaluation(w, Policy([r], zone), resource, attrs).allowed
       <==> && r.resource == resource && (role in r.roles || "*" in r.roles)
            && c.attr in attrs && !IsMissing(attrs[c.attr]) && Test(w, c, attrs[c.attr]) == Yes
  {
    hide Test, IsMissing, Evaluation;
    AllowedIffPermitted(w, Policy([r], zone), resource, attrs);
    MissingMeans(attrs, "role");
    MissingMeans(attrs, c.attr);
    LocalizedMeans(attrs, zone, c.attr);
    assert r in [r] && c in [c];
  }

  // ----- Taking an attribute away -----

  predicate Reads(r: Rule, name: string) {
    exists c | c in r.conditions :: c.attr == name
  }

  lemma AbsentIsMissing()
    ensures IsMissing(Absent)
  {
  }

  lemma RuleIgnores(w: World, r: Rule, attrs: Attrs, name: string)
    ensures !Reads(r, name) ==> Blocks(w, r, attrs - {name}) == Blocks(w, r, attrs)
                                && Admits(w, r, attrs - {name}) == Admits(w, r, attrs)
    ensures Reads(r, name) ==> !Complete(r, attrs - {name})
  {
    hide Test, IsMissing;
    if !Reads(r, name) {
      assert forall c | c in r.conditions :: Get(attrs - {name}, c.attr) == Get(attrs, c.attr);
      assert forall i | 0 <= i < |r.conditions| :: r.conditions[i] in r.conditions;
      assert forall i: nat | i < |r.conditions| :: ErrsFirst(w, r.conditions, attrs - {name}, i) == ErrsFirst(w, r.conditions, attrs, i);
    } else {
      var c :| c in r.conditions && c.attr == name;
      assert Get(attrs - {name}, c.attr) == Absent && IsMissing(Absent) by { AbsentIsMissing(); }
    }
  }

  /**
   Exactly when taking one attribute away makes the difference between denied and allowed: given
   that the request is allowed without it, it is denied with it if and only if it is a naive
   request_time or some applicable rule that reads it errors on it.
   */
  lemma RemovalAllowsIff(w: World, p: Policy, resource: string, attrs: Attrs, name: string)
    requires Evaluation(w, p, resource, attrs - {name}).allowed
    ensures !Evaluation(w, p, resource, attrs).allowed
            <==> (name == "request_time" && IsNaive(Get(attrs, name)))
                 || exists r | r in p.rules && Targets(r, Get(attrs, "role"), resource) ::
                      Reads(r, name) && Errs(w, r, Localized(attrs, p.zone))
  {
    hide Blocks, Admits, Reads;
    AllowedIffPermitted(w, p, resource, attrs);
    AllowedIffPermitted(w, p, resource, attrs - {name});
    var local := Localized(attrs, p.zone);
    assert Localized(attrs - {name}, p.zone) == local - {name};
    forall r | r in p.rules && Targets(r, Get(attrs, "role"), resource)
      ensures Blocks(w, r, local) <==> Reads(r, name) && Errs(w, r, local)
      ensures Admits(w, r, local - {name}) ==> Admits(w, r, local)
    {
      RuleIgnores(w, r, local, name);
      BlockedOnlyByError(w, r, local, name);
    }
  }

  lemma BlockedOnlyByError(w: World, r: Rule, attrs: Attrs, name: string)
    requires !Blocks(w, r, attrs - {name})
    ensures Blocks(w, r, attrs) <==> Reads(r, name) && Errs(w, r, attrs)
    ensures Reads(r, name) ==> !Admits(w, r, attrs - {name})
  {
    RuleIgnores(w, r, attrs, name);
  }

  /** With an aware request_time and no condition erring, no attribute taken away turns a denial into an allow. */
  lemma RemovalNeverAllows(w: World, p: Policy, resource: string, attrs: Attrs, name: string)
    requires !IsNaive(Get(attrs, "request_time"))
    requires forall r | r in p.rules && Targets(r, Get(attrs, "role"), resource) :: !Errs(w, r, Localized(attrs, p.zone))
    ensures Evaluation(w, p, resource, attrs - {name}).allowed ==> Evaluation(w, p, resource, attrs).allowed
  {
    if Evaluation(w, p, resource, attrs - {name}).allowed {
      RemovalAllowsIff(w, p, resource, attrs, name);
    }
  }

  // ----- Loading -----

  /** A rule as the file has it; None for a field that is absent or of the wrong type, conditions already compiled. */
  datatype RawRule = RawRule(id: Option<string>, roles: Option<seq<string>>, resource: Option<string>,
                             effect: Option<string>, conditions: Option<seq<Condition>>, confirm: Option<bool>)
  {
    predicate WellFormed() {
      && id.Some? && id.value != ""
      && roles.Some? && roles.value != [] && (forall r | r in roles.value :: r != "")
      && resource.Some? && resource.value != ""
      && effect.Some? && effect.value in {"allow", "deny"}
      && conditions.Some? && confirm.Some?
    }

    /** The rule says what the file says. */
    function ToRule(): (r: Rule)
      requires WellFormed()
      ensures id == Some(r.id) && resource == Some(r.resource) && conditions == Some(r.conditions)
      ensures forall x :: x in r.roles <==> x in roles.value
      ensures (r.effect == Deny <==> effect == Some("deny")) && (r.effect == Allow <==> effect == Some("allow"))
    {
      Rule(id.value, (set r | r in roles.value), resource.value, conditions.value, if effect.value == "deny" then Deny else Allow)
    }
  }

  /** What makes a rule of the file unacceptable. */
  lemma IllFormedMeans(raw: RawRule)
    ensures !raw.WellFormed()
       <==> || raw.id == None || raw.id == Some("") || raw.resource == None || raw.resource == Some("")
            || raw.roles == None || raw.roles == Some([]) || (raw.roles.Some? && "" in raw.roles.value)
            || (raw.effect != Some("allow") && raw.effect != Some("deny")) || raw.conditions == None || raw.confirm == None
  {
    if raw.id.Some? && |raw.id.value| == 0 { assert raw.id.value == ""; }
    if raw.resource.Some? && |raw.resource.value| == 0 { assert raw.resource.value == ""; }
    if raw.roles.Some? && |raw.roles.value| == 0 { assert raw.roles.value == []; }
  }

  /** The loop of `policy_from_dict`: it accepts exactly the lists of well-formed rules whose ids all differ, keeping their order. */
  method LoadRules(raws: seq<RawRule>) returns (rules: Option<seq<Rule>>)
    ensures rules.Some? <==> && (forall i | 0 <= i < |raws| :: raws[i].WellFormed())
                             && (forall i, j | 0 <= i < j < |raws| :: raws[i].id != raws[j].id)
    ensures rules.Some? ==> |rules.value| == |raws| && forall i | 0 <= i < |raws| :: rules.value[i] == raws[i].ToRule()
  {
    var out: seq<Rule> := [];
    var seen: set<string> := {};
    for i := 0 to |raws|
      invariant |out| == i
      invariant forall k | 0 <= k < i :: raws[k].WellFormed() && out[k] == raws[k].ToRule()
      invariant forall id :: id in seen <==> exists k | 0 <= k < i :: raws[k].id == Some(id)
      invariant forall j, k | 0 <= j < k < i :: raws[j].id != raws[k].id
    {
      var raw := raws[i];
      if raw.id.Some? && raw.id.value in seen {
        return None;
      }
      if !raw.WellFormed() {
        return None;
      }
      seen := seen + {raw.id.value};
      out := out + [raw.ToRule()];
    }
    rules := Some(out);
  }
}
