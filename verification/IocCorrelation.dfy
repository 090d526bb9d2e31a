/**
 modules/ioc_correlation.py:84-89,172-338: indicators grouped into clusters by malware family, actor
 and subnet, with the links inside each cluster.
 */
module IocCorrelation {
  import opened Prelude
  import opened IocScoring
  import Text

  datatype Strategy = Malware | Adversary | Infrastructure

  const IP_KINDS: set<string> := {"ip", "cidr"}
  const DOMAIN_KINDS: set<string> := {"domain", "hostname"}
  const HASH_KINDS: set<string> := {"hash_md5", "hash_sha1", "hash_sha256", "hash_sha512"}
  const URL_KINDS: set<string> := {"url", "uri"}

  // ----- Grouping -----

  function Dots(s: string): nat {
    if s == "" then 0 else (if s[0] == '.' then 1 else 0) + Dots(s[1..])
  }

  /** The /24 of a dotted quad: its first three parts. */
  function Subnet(value: string): Option<string> {
    if Dots(value) != 3 then None
    else
      var second := Text.After(value, '.');
      var third := Text.After(second, '.');
      Some(Text.Before(value, '.') + "." + Text.Before(second, '.') + "." + Text.Before(third, '.') + ".0/24")
  }

  function Family(malware: Option<string>): string {
    Text.Strip(if malware.None? || malware.value == "" then "Unknown" else malware.value, Text.IsSpace)
  }

  /** The group an indicator falls into, if any. */
  function KeyOf(strategy: Strategy, ioc: Ioc): Option<string> {
    match strategy
    case Malware => Some(Family(ioc.malware))
    case Adversary => if ioc.adversary == "" then None else Some(ioc.adversary)
    case Infrastructure => if ioc.kind in IP_KINDS then Subnet(ioc.value) else None
  }

  lemma {:induction false} DotsAfter(a: string, b: string)
    requires '.' !in a
    ensures Dots(a + ['.'] + b) == 1 + Dots(b)
  {
    if a == "" {
      assert a + ['.'] + b == ['.'] + b;
    } else {
      assert (a + ['.'] + b)[1..] == a[1..] + ['.'] + b;
      DotsAfter(a[1..], b);
    }
  }

  lemma {:induction false} NoDots(s: string)
    ensures Dots(s) == 0 <==> '.' !in s
  {
    if s != "" {
      NoDots(s[1..]);
      assert s == [s[0]] + s[1..];
    }
  }

  lemma {:induction false} DotsSplit(s: string)
    requires Dots(s) > 0
    ensures '.' in s && s == Text.Before(s, '.') + ['.'] + Text.After(s, '.') && '.' !in Text.Before(s, '.')
    ensures Dots(Text.After(s, '.')) == Dots(s) - 1
  {
    NoDots(s);
    Text.JoinFirst(s, '.');
    DotsAfter(Text.Before(s, '.'), Text.After(s, '.'));
  }

  /** Four parts between dots give the first three as a /24; any other number of parts gives nothing. */
  lemma SubnetMeans(a: string, b: string, c: string, d: string)
    requires '.' !in a && '.' !in b && '.' !in c && '.' !in d
    ensures Subnet(a + ['.'] + (b + ['.'] + (c + ['.'] + d))) == Some(a + "." + b + "." + c + ".0/24")
  {
    hide Dots;
    NoDots(d);
    DotsAfter(c, d);
    DotsAfter(b, c + ['.'] + d);
    DotsAfter(a, b + ['.'] + (c + ['.'] + d));
    Text.SplitJoined(a, '.', b + ['.'] + (c + ['.'] + d));
    Text.SplitJoined(b, '.', c + ['.'] + d);
    Text.SplitJoined(c, '.', d);
  }

  lemma SubnetOnlyOfFour(value: string)
    requires Subnet(value).Some?
    ensures exists a, b, c, d :: '.' !in a && '.' !in b && '.' !in c && '.' !in d && value == a + ['.'] + (b + ['.'] + (c + ['.'] + d))
  {
    hide Dots;
    DotsSplit(value);
    var second := Text.After(value, '.');
    DotsSplit(second);
    var third := Text.After(second, '.');
    DotsSplit(third);
    NoDots(Text.After(third, '.'));
  }

  /** The key of a family is its name without blanks around it; without a name it is "Unknown". */
  lemma FamilyMeans(ioc: Ioc)
    ensures ioc.malware.None? || ioc.malware.value == "" ==> KeyOf(Malware, ioc) == Some("Unknown")
    ensures ioc.malware.Some? && ioc.malware.value != "" ==> KeyOf(Malware, ioc) == Some(Text.Strip(ioc.malware.value, Text.IsSpace))
  {
    assert Text.Strip("Unknown", Text.IsSpace) == "Unknown";
  }

  /** Attributed indicators are grouped by their actor, addresses by their subnet, nothing else by either. */
  lemma OtherKeys(ioc: Ioc)
    ensures KeyOf(Adversary, ioc).Some? <==> ioc.adversary != ""
    ensures KeyOf(Adversary, ioc).Some? ==> KeyOf(Adversary, ioc).value == ioc.adversary
    ensures ioc.kind == "ip" || ioc.kind == "cidr" ==> KeyOf(Infrastructure, ioc) == Subnet(ioc.value)
    ensures ioc.kind != "ip" && ioc.kind != "cidr" ==> KeyOf(Infrastructure, ioc) == None
  {
  }

  function Members(iocs: seq<Ioc>, strategy: Strategy, key: string): seq<Ioc> {
    if iocs == [] then []
    else
      var last := iocs[|iocs| - 1];
      Members(iocs[..|iocs| - 1], strategy, key) + if KeyOf(strategy, last) == Some(key) then [last] else []
  }

  method GroupBy(iocs: seq<Ioc>, strategy: Strategy) returns (groups: map<string, seq<Ioc>>)
    ensures forall key :: key in groups <==> Members(iocs, strategy, key) != []
    ensures forall key | key in groups :: groups[key] == Members(iocs, strategy, key)
  {
    hide KeyOf;
    groups := map[];
    for k := 0 to |iocs|
      invariant forall key :: key in groups <==> Members(iocs[..k], strategy, key) != []
      invariant forall key | key in groups :: groups[key] == Members(iocs[..k], strategy, key)
    {
      assert iocs[..k + 1][..k] == iocs[..k];
      var key := KeyOf(strategy, iocs[k]);
      if key.Some? {
        groups := groups[key.value := (if key.value in groups then groups[key.value] else []) + [iocs[k]]];
      }
    }
    assert iocs[..|iocs|] == iocs;
  }

  /** Members come in the order of the input. */
  lemma {:induction false} MembersInOrder(a: seq<Ioc>, b: seq<Ioc>, strategy: Strategy, key: string)
    ensures Members(a + b, strategy, key) == Members(a, strategy, key) + Members(b, strategy, key)
  {
    hide KeyOf;
    if b == [] {
      assert a + b == a;
    } else {
      var n := |b| - 1;
      var last := if KeyOf(strategy, b[n]) == Some(key) then [b[n]] else [];
      MembersInOrder(a, b[..n], strategy, key);
      assert (a + b)[..|a + b| - 1] == a + b[..n];
      assert Members(a + b, strategy, key) == Members(a + b[..n], strategy, key) + last;
      assert Members(b, strategy, key) == Members(b[..n], strategy, key) + last;
      hide *;
    }
  }

  lemma {:induction false} MembersCount(iocs: seq<Ioc>, strategy: Strategy, key: string, x: Ioc)
    ensures multiset(Members(iocs, strategy, key))[x]
         == if KeyOf(strategy, x) == Some(key) then multiset(iocs)[x] else 0
  {
    hide KeyOf;
    if iocs != [] {
      var init, last := iocs[..|iocs| - 1], iocs[|iocs| - 1];
      MembersCount(init, strategy, key, x);
      assert iocs == init + [last];
    }
  }

  // ----- Keys in ascending order -----

  predicate Less(a: string, b: string) {
    b != "" && (a == "" || a[0] < b[0] || (a[0] == b[0] && Less(a[1..], b[1..])))
  }

  lemma {:induction false} LessIsTotal(a: string, b: string)
    requires a != b
    ensures Less(a, b) || Less(b, a)
  {
    if a != "" && b != "" && a[0] == b[0] {
      assert a == [a[0]] + a[1..] && b == [b[0]] + b[1..];
      LessIsTotal(a[1..], b[1..]);
    }
  }

  lemma {:induction false} LessIsTransitive(a: string, b: string, c: string)
    requires Less(a, b) && Less(b, c)
    ensures Less(a, c)
  {
    if a != "" && a[0] == b[0] && b[0] == c[0] {
      LessIsTransitive(a[1..], b[1..], c[1..]);
    }
  }

  ghost predicate Ascending(keys: seq<string>) {
    forall i, j | 0 <= i < j < |keys| :: Less(keys[i], keys[j])
  }

  function InsertKey(keys: seq<string>, key: string): seq<string> {
    if keys == [] || Less(key, keys[0]) then [key] + keys else [keys[0]] + InsertKey(keys[1..], key)
  }

  lemma {:induction false} InsertKeyKeepsOrder(keys: seq<string>, key: string)
    requires Ascending(keys) && key !in keys
    ensures Ascending(InsertKey(keys, key))
    ensures forall k :: k in InsertKey(keys, key) <==> k in keys || k == key
  {
    if keys != [] {
      var head, tail := keys[0], keys[1..];
      assert keys == [head] + tail;
      if Less(key, head) {
        forall i | 0 <= i < |keys| ensures Less(key, keys[i]) {
          if i > 0 { LessIsTransitive(key, head, keys[i]); }
        }
      } else {
        InsertKeyKeepsOrder(tail, key);
        LessIsTotal(key, head);
        var rest := InsertKey(tail, key);
        forall k | k in rest ensures Less(head, k) {
          if k != key {
            var i :| 0 <= i < |tail| && tail[i] == k;
            assert keys[i + 1] == k;
          }
        }
      }
    }
  }

  method SortedKeys(keys: set<string>) returns (sorted: seq<string>)
    ensures Ascending(sorted) && forall k :: k in sorted <==> k in keys
  {
    sorted := [];
    var todo := keys;
    while todo != {}
      invariant todo <= keys && Ascending(sorted)
      invariant forall k :: k in sorted <==> k in keys && k !in todo
      decreases |todo|
    {
      var k :| k in todo;
      InsertKeyKeepsOrder(sorted, k);
      sorted := InsertKey(sorted, k);
      todo := todo - {k};
    }
  }

  // ----- Links between members of different kinds -----

  const MAX_LINKS: nat := 50

  datatype IndexPair = IndexPair(first: nat, second: nat)
  datatype Link = Link(source: Ioc, target: Ioc, relation: string)

  function Relation(a: string, b: string): string {
    var pair := {a, b};
    if pair <= IP_KINDS + DOMAIN_KINDS then "resolves_to"
    else if "url" in pair && pair * DOMAIN_KINDS != {} then "hosted_on"
    else if "url" in pair && pair * IP_KINDS != {} then "resolves_to"
    else if pair * HASH_KINDS != {} && pair * (IP_KINDS + DOMAIN_KINDS) != {} then "communicates_with"
    else if pair * HASH_KINDS != {} && pair * URL_KINDS != {} then "downloaded_from"
    else if "cve" in pair then "exploited_by"
    else "related_to"
  }

  /** What the relation of a cross-kind pair is called, whichever of the two comes first. */
  lemma RelationMeans(a: string, b: string)
    ensures Relation(a, b) == Relation(b, a)
    ensures a in IP_KINDS && b in DOMAIN_KINDS ==> Relation(a, b) == "resolves_to"
    ensures a in IP_KINDS && b in IP_KINDS ==> Relation(a, b) == "resolves_to"
    ensures a in DOMAIN_KINDS && b in DOMAIN_KINDS ==> Relation(a, b) == "resolves_to"
    ensures a == "url" && b in DOMAIN_KINDS ==> Relation(a, b) == "hosted_on"
    ensures a == "url" && b in IP_KINDS ==> Relation(a, b) == "resolves_to"
  {
    assert {a, b} == {b, a};
    EmptyMeet(a, b, DOMAIN_KINDS);
    EmptyMeet(a, b, IP_KINDS);
  }

  lemma OtherRelationsMean(a: string, b: string)
    ensures a in HASH_KINDS && b in IP_KINDS + DOMAIN_KINDS ==> Relation(a, b) == "communicates_with"
    ensures a in HASH_KINDS && b in URL_KINDS ==> Relation(a, b) == "downloaded_from"
    ensures a == "cve" ==> Relation(a, b) == "exploited_by"
    ensures a !in IP_KINDS + DOMAIN_KINDS + HASH_KINDS + URL_KINDS + {"cve"} && b != "cve" ==> Relation(a, b) == "related_to"
    ensures a in HASH_KINDS && b in HASH_KINDS ==> Relation(a, b) == "related_to"
    ensures a in URL_KINDS && b in URL_KINDS ==> Relation(a, b) == "related_to"
    ensures a == "uri" && b in IP_KINDS + DOMAIN_KINDS ==> Relation(a, b) == "related_to"
  {
    EmptyMeet(a, b, DOMAIN_KINDS);
    EmptyMeet(a, b, IP_KINDS);
    EmptyMeet(a, b, HASH_KINDS);
    EmptyMeet(a, b, URL_KINDS);
    EmptyMeet(a, b, IP_KINDS + DOMAIN_KINDS);
  }

  lemma EmptyMeet(a: string, b: string, kinds: set<string>)
    ensures {a, b} * kinds != {} <==> a in kinds || b in kinds
  {
    assert a in {a, b} && b in {a, b};
    assert a in kinds ==> a in {a, b} * kinds;
    assert b in kinds ==> b in {a, b} * kinds;
  }

  /** The pairs `(i, k)` with `i < k < j` and different kinds. */
  function Row(iocs: seq<Ioc>, i: nat, j: nat): seq<IndexPair>
    requires i < j <= |iocs|
    decreases j
  {
    if j == i + 1 then []
    else Row(iocs, i, j - 1) + if iocs[i].kind != iocs[j - 1].kind then [IndexPair(i, j - 1)] else []
  }

  /** All such pairs with a first index below `i`, in index order. */
  function Pairs(iocs: seq<Ioc>, i: nat): seq<IndexPair>
    requires i <= |iocs|
  {
    if i == 0 then [] else Pairs(iocs, i - 1) + Row(iocs, i - 1, |iocs|)
  }

  predicate Before(p: IndexPair, q: IndexPair) {
    p.first < q.first || (p.first == q.first && p.second < q.second)
  }

  /** In index order, with no repetition. */
  ghost predicate InOrder(pairs: seq<IndexPair>) {
    forall p, q | 0 <= p < q < |pairs| :: Before(pairs[p], pairs[q])
  }

  predicate CrossKind(iocs: seq<Ioc>, p: IndexPair) {
    p.first < p.second < |iocs| && iocs[p.first].kind != iocs[p.second].kind
  }

  lemma {:induction false} RowIsExact(iocs: seq<Ioc>, i: nat, j: nat)
    requires i < j <= |iocs|
    ensures forall p :: p in Row(iocs, i, j) <==> CrossKind(iocs, p) && p.first == i && p.second < j
    ensures InOrder(Row(iocs, i, j))
    decreases j
  {
    if j > i + 1 {
      RowIsExact(iocs, i, j - 1);
    }
  }

  lemma NoPairs(iocs: seq<Ioc>)
    ensures Pairs(iocs, 0) == [] && InOrder([])
  {
  }

  lemma PairsStep(iocs: seq<Ioc>, n: nat)
    requires 0 < n <= |iocs|
    ensures Pairs(iocs, n) == Pairs(iocs, n - 1) + Row(iocs, n - 1, |iocs|)
  {
    hide Row;
  }

  lemma {:induction false} PairsMembers(iocs: seq<Ioc>, n: nat, p: IndexPair)
    requires n <= |iocs|
    ensures p in Pairs(iocs, n) <==> CrossKind(iocs, p) && p.first < n
  {
    hide *;
    if n == 0 {
      NoPairs(iocs);
    } else {
      PairsStep(iocs, n);
      PairsMembers(iocs, n - 1, p);
      RowMembers(iocs, n - 1, p);
      InSum(Pairs(iocs, n - 1), Row(iocs, n - 1, |iocs|), p);
    }
  }

  lemma RowMembers(iocs: seq<Ioc>, i: nat, p: IndexPair)
    requires i < |iocs|
    ensures p in Row(iocs, i, |iocs|) <==> CrossKind(iocs, p) && p.first == i
  {
    RowIsExact(iocs, i, |iocs|);
  }

  lemma InSum(a: seq<IndexPair>, b: seq<IndexPair>, p: IndexPair)
    ensures p in a + b <==> p in a || p in b
  {
  }

  ghost predicate AllFrom(pairs: seq<IndexPair>, lo: nat, hi: nat) {
    forall p | p in pairs :: lo <= p.first < hi
  }

  lemma RowFirsts(iocs: seq<Ioc>, i: nat)
    requires i < |iocs|
    ensures AllFrom(Row(iocs, i, |iocs|), i, i + 1) && InOrder(Row(iocs, i, |iocs|))
  {
    hide Row, InOrder, CrossKind;
    RowIsExact(iocs, i, |iocs|);
  }

  lemma PairsFirsts(iocs: seq<Ioc>, n: nat)
    requires n <= |iocs|
    ensures AllFrom(Pairs(iocs, n), 0, n)
  {
    hide Pairs;
    forall p | p in Pairs(iocs, n) ensures p.first < n {
      PairsMembers(iocs, n, p);
    }
  }

  lemma {:induction false} PairsInOrder(iocs: seq<Ioc>, n: nat)
    requires n <= |iocs|
    ensures InOrder(Pairs(iocs, n))
  {
    hide *;
    if n == 0 {
      NoPairs(iocs);
    } else {
      PairsStep(iocs, n);
      PairsInOrder(iocs, n - 1);
      PairsFirsts(iocs, n - 1);
      RowFirsts(iocs, n - 1);
      InOrderSum(Pairs(iocs, n - 1), Row(iocs, n - 1, |iocs|), n - 1);
    }
  }

  /** The reference list holds exactly the cross-kind pairs, each once, in index order. */
  lemma PairsAreExact(iocs: seq<Ioc>)
    ensures forall p :: p in Pairs(iocs, |iocs|) <==> CrossKind(iocs, p) && p.first < |iocs|
    ensures InOrder(Pairs(iocs, |iocs|))
  {
    hide *;
    PairsInOrder(iocs, |iocs|);
    forall p ensures p in Pairs(iocs, |iocs|) <==> CrossKind(iocs, p) && p.first < |iocs| {
      PairsMembers(iocs, |iocs|, p);
    }
  }

  lemma InOrderSum(a: seq<IndexPair>, b: seq<IndexPair>, n: nat)
    requires InOrder(a) && InOrder(b)
    requires AllFrom(a, 0, n) && AllFrom(b, n, n + 1)
    ensures InOrder(a + b)
  {
    forall p, q | 0 <= p < q < |a + b| ensures Before((a + b)[p], (a + b)[q]) {
      if p < |a| <= q {
        assert a[p] in a && b[q - |a|] in b;
      }
    }
  }

  function LinkOf(iocs: seq<Ioc>, p: IndexPair): Link
    requires p.first < |iocs| && p.second < |iocs|
  {
    Link(iocs[p.first], iocs[p.second], Relation(iocs[p.first].kind, iocs[p.second].kind))
  }

  /** `links` are the pairs in order, cut after the fiftieth. */
  ghost predicate FirstLinks(iocs: seq<Ioc>, pairs: seq<IndexPair>, links: seq<Link>) {
    && |links| == (if |pairs| <= MAX_LINKS then |pairs| else MAX_LINKS)
    && forall k | 0 <= k < |links| ::
         pairs[k].first < |iocs| && pairs[k].second < |iocs| && links[k] == LinkOf(iocs, pairs[k])
  }

  lemma {:induction false} RowPrefix(iocs: seq<Ioc>, i: nat, j: nat, n: nat)
    requires i < j <= n <= |iocs|
    ensures Row(iocs, i, j) <= Row(iocs, i, n)
    decreases n
  {
    if j < n {
      RowPrefix(iocs, i, j, n - 1);
    }
  }

  lemma {:induction false} PairsPrefix(iocs: seq<Ioc>, i: nat, n: nat)
    requires i <= n <= |iocs|
    ensures Pairs(iocs, i) <= Pairs(iocs, n)
    decreases n
  {
    hide Row;
    if i < n {
      PairsPrefix(iocs, i, n - 1);
      PairsStep(iocs, n);
    }
  }

  /** Once fifty links are there, the pairs that follow change nothing. */
  lemma CutIsFinal(iocs: seq<Ioc>, i: nat, j: nat, links: seq<Link>)
    requires i < j <= |iocs| && |links| == MAX_LINKS
    requires FirstLinks(iocs, Pairs(iocs, i) + Row(iocs, i, j), links)
    ensures FirstLinks(iocs, Pairs(iocs, |iocs|), links)
  {
    hide Row, Pairs, FirstLinks;
    RowPrefix(iocs, i, j, |iocs|);
    PairsPrefix(iocs, i + 1, |iocs|);
    StartRow(iocs, i);
    PrefixOfSum(Pairs(iocs, i), Row(iocs, i, j), Row(iocs, i, |iocs|), Pairs(iocs, |iocs|));
    LongerPairs(iocs, Pairs(iocs, i) + Row(iocs, i, j), Pairs(iocs, |iocs|), links);
  }

  lemma PrefixOfSum(front: seq<IndexPair>, a: seq<IndexPair>, b: seq<IndexPair>, whole: seq<IndexPair>)
    requires a <= b && front + b <= whole
    ensures front + a <= whole
  {
    assert whole[..|front + a|] == (front + b)[..|front + a|] == front + a;
  }

  lemma LongerPairs(iocs: seq<Ioc>, some: seq<IndexPair>, all: seq<IndexPair>, links: seq<Link>)
    requires some <= all && |links| == MAX_LINKS && FirstLinks(iocs, some, links)
    ensures FirstLinks(iocs, all, links)
  {
    hide LinkOf;
    assert forall k | 0 <= k < |links| :: all[k] == some[k];
  }

  /** A row that adds a link, or does not. */
  lemma NextLink(iocs: seq<Ioc>, i: nat, j: nat, links: seq<Link>)
    requires i < j < |iocs| && |links| < MAX_LINKS
    requires FirstLinks(iocs, Pairs(iocs, i) + Row(iocs, i, j), links)
    ensures FirstLinks(iocs, Pairs(iocs, i) + Row(iocs, i, j + 1),
                       if iocs[i].kind == iocs[j].kind then links else links + [LinkOf(iocs, IndexPair(i, j))])
  {
    hide LinkOf, Pairs;
    var before := Pairs(iocs, i) + Row(iocs, i, j);
    var after := Pairs(iocs, i) + Row(iocs, i, j + 1);
    assert after == if iocs[i].kind == iocs[j].kind then before else before + [IndexPair(i, j)];
  }

  method BuildLinks(iocs: seq<Ioc>) returns (links: seq<Link>)
    ensures FirstLinks(iocs, Pairs(iocs, |iocs|), links)
  {
    hide FirstLinks, Pairs, Row, Relation;
    links := [];
    NoLinksYet(iocs);
    for i := 0 to |iocs|
      invariant |links| < MAX_LINKS && FirstLinks(iocs, Pairs(iocs, i), links)
    {
      StartRow(iocs, i);
      for j := i + 1 to |iocs|
        invariant |links| < MAX_LINKS && FirstLinks(iocs, Pairs(iocs, i) + Row(iocs, i, j), links)
      {
        NextLink(iocs, i, j, links);
        if iocs[i].kind == iocs[j].kind {
          continue;
        }
        links := links + [Link(iocs[i], iocs[j], Relation(iocs[i].kind, iocs[j].kind))];
        if |links| >= MAX_LINKS {
          CutIsFinal(iocs, i, j + 1, links);
          return;
        }
      }
    }
  }

  lemma NoLinksYet(iocs: seq<Ioc>)
    ensures FirstLinks(iocs, Pairs(iocs, 0), [])
  {
  }

  lemma StartRow(iocs: seq<Ioc>, i: nat)
    requires i < |iocs|
    ensures Pairs(iocs, i) + Row(iocs, i, i + 1) == Pairs(iocs, i)
    ensures Pairs(iocs, i) + Row(iocs, i, |iocs|) == Pairs(iocs, i + 1)
  {
  }

  // ----- Clusters -----

  datatype Cluster = Cluster(
    strategy: Strategy,
    key: string,
    members: seq<Ioc>,
    kindCounts: map<string, nat>,
    adversary: string,
    score: real,
    severity: string,
    links: seq<Link>)

  function Actors(members: seq<Ioc>): set<string> {
    set i | i in members && i.adversary != "" :: i.adversary
  }

  function OfKind(members: seq<Ioc>, kind: string): nat {
    if members == [] then 0
    else OfKind(members[..|members| - 1], kind) + if members[|members| - 1].kind == kind then 1 else 0
  }

  /** The actor a cluster is attributed to: its own, or any one of its members' actors. */
  predicate AttributedTo(strategy: Strategy, key: string, members: seq<Ioc>, adversary: string) {
    if strategy == Adversary then adversary == key
    else if Actors(members) == {} then adversary == ""
    else adversary in Actors(members)
  }

  /** A cluster without an actor of its own takes one of its members', and has none exactly if none of them has one. */
  lemma AttributionMeans(strategy: Strategy, key: string, members: seq<Ioc>, adversary: string)
    requires AttributedTo(strategy, key, members, adversary)
    ensures strategy == Adversary ==> adversary == key
    ensures strategy != Adversary ==> (adversary == "" <==> forall i | i in members :: i.adversary == "")
    ensures strategy != Adversary && adversary != "" ==> exists i :: i in members && i.adversary == adversary
  {
    if strategy != Adversary {
      if i :| i in members && i.adversary != "" {
        assert i.adversary in Actors(members);
      }
    }
  }

  function KindList(members: seq<Ioc>): seq<string> {
    seq(|members|, i requires 0 <= i < |members| => members[i].kind)
  }

  /** The count of a kind is how often it occurs among the members. */
  lemma {:induction false} OfKindCounts(members: seq<Ioc>, kind: string)
    ensures OfKind(members, kind) == multiset(KindList(members))[kind]
  {
    if members != [] {
      var n := |members| - 1;
      OfKindCounts(members[..n], kind);
      assert KindList(members) == KindList(members[..n]) + [members[n].kind];
    }
  }

  ghost predicate CountsKinds(strategy: Strategy, members: seq<Ioc>, counts: map<string, nat>) {
    if strategy == Infrastructure then counts == map["ip" := |members|]
    else forall kind :: (kind in counts <==> OfKind(members, kind) > 0) && (kind in counts ==> counts[kind] == OfKind(members, kind))
  }

  ghost predicate IsCluster(c: Cluster, iocs: seq<Ioc>) {
    && c.members == Members(iocs, c.strategy, c.key)
    && CountsKinds(c.strategy, c.members, c.kindCounts)
    && AttributedTo(c.strategy, c.key, c.members, c.adversary)
    && c.score == Round1(Score(c.members, c.adversary))
    && c.severity == Severity(Score(c.members, c.adversary))
    && FirstLinks(c.members, Pairs(c.members, |c.members|), c.links)
  }

  method CountKinds(members: seq<Ioc>) returns (counts: map<string, nat>)
    ensures forall kind :: (kind in counts <==> OfKind(members, kind) > 0) && (kind in counts ==> counts[kind] == OfKind(members, kind))
  {
    counts := map[];
    for k := 0 to |members|
      invariant forall kind :: kind in counts <==> OfKind(members[..k], kind) > 0
      invariant forall kind | kind in counts :: counts[kind] == OfKind(members[..k], kind)
    {
      assert members[..k + 1][..k] == members[..k];
      var kind := members[k].kind;
      counts := counts[kind := (if kind in counts then counts[kind] else 0) + 1];
    }
    assert members[..|members|] == members;
  }

  method BuildCluster(strategy: Strategy, key: string, members: seq<Ioc>, ghost iocs: seq<Ioc>) returns (c: Cluster)
    requires members == Members(iocs, strategy, key)
    ensures IsCluster(c, iocs) && c.strategy == strategy && c.key == key
  {
    hide Members, FirstLinks, Score, Round1, Severity, Pairs, OfKind;
    var adversary := "";
    if strategy == Adversary {
      adversary := key;
    } else {
      var actors := Actors(members);
      if actors != {} {
        adversary :| adversary in actors;
      }
    }
    var counts := map["ip" := |members|];
    if strategy != Infrastructure {
      counts := CountKinds(members);
    }
    var links := BuildLinks(members);
    var score := ComputeScore(members, adversary);
    c := Cluster(strategy, key, members, counts, adversary, Round1(score), Severity(score), links);
  }

  /** With scores as inputs that are not negative, every cluster score is within 0 and 100. */
  lemma ClusterScoreInRange(c: Cluster, iocs: seq<Ioc>)
    requires IsCluster(c, iocs) && forall i | i in c.members :: Rating(i) >= 0.0
    ensures 0.0 <= c.score <= 100.0
  {
    hide FirstLinks, CountsKinds, AttributedTo, Score, Severity;
    ScoreInRange(c.members, c.adversary);
    var score := Score(c.members, c.adversary);
    ShownScore(0.0, score);
    ShownScore(score, 100.0);
    assert Round1(0.0) == 0.0 && Round1(100.0) == 100.0;
  }

  ghost predicate HasKey(cs: seq<Cluster>, key: string) {
    exists i :: 0 <= i < |cs| && cs[i].key == key
  }

  /** Clusters of one strategy in key order, each with enough members. */
  ghost predicate ClusterList(cs: seq<Cluster>, iocs: seq<Ioc>, strategy: Strategy, least: nat) {
    && (forall i, j | 0 <= i < j < |cs| :: Less(cs[i].key, cs[j].key))
    && (forall i | 0 <= i < |cs| :: cs[i].strategy == strategy && |cs[i].members| >= least && IsCluster(cs[i], iocs))
  }

  /** The clusters of one strategy: one for each key with enough members. */
  ghost predicate ClustersFor(cs: seq<Cluster>, iocs: seq<Ioc>, strategy: Strategy, least: nat) {
    && ClusterList(cs, iocs, strategy, least)
    && (forall key | |Members(iocs, strategy, key)| >= least :: HasKey(cs, key))
  }

  lemma AddCluster(cs: seq<Cluster>, iocs: seq<Ioc>, strategy: Strategy, least: nat, c: Cluster)
    requires ClusterList(cs, iocs, strategy, least)
    requires forall i | 0 <= i < |cs| :: Less(cs[i].key, c.key)
    requires c.strategy == strategy && |c.members| >= least && IsCluster(c, iocs)
    ensures ClusterList(cs + [c], iocs, strategy, least)
    ensures forall key :: HasKey(cs + [c], key) <==> HasKey(cs, key) || key == c.key
  {
    hide Less, IsCluster;
    var next := cs + [c];
    assert next[|cs|] == c;
    assert forall i | 0 <= i < |cs| :: next[i] == cs[i];
  }

  method BuildClusters(iocs: seq<Ioc>, strategy: Strategy, least: nat) returns (cs: seq<Cluster>)
    requires least >= 1
    ensures ClustersFor(cs, iocs, strategy, least)
  {
    hide Members, IsCluster, Less, ClusterList, HasKey;
    var groups := GroupBy(iocs, strategy);
    var keys := SortedKeys(groups.Keys);
    cs := [];
    NoClusters(iocs, strategy, least);
    for k := 0 to |keys|
      invariant ClusterList(cs, iocs, strategy, least)
      invariant forall i | 0 <= i < |cs| :: cs[i].key in keys[..k]
      invariant forall p | 0 <= p < k && |Members(iocs, strategy, keys[p])| >= least :: HasKey(cs, keys[p])
    {
      assert keys[k] in keys && keys[..k + 1] == keys[..k] + [keys[k]];
      var members := groups[keys[k]];
      if |members| < least {
        continue;
      }
      var c := BuildCluster(strategy, keys[k], members, iocs);
      BelowNext(keys, k);
      assert c.members == Members(iocs, c.strategy, c.key) by { MembersOfCluster(c, iocs); }
      AddCluster(cs, iocs, strategy, least, c);
      cs := cs + [c];
    }
  }

  lemma NoClusters(iocs: seq<Ioc>, strategy: Strategy, least: nat)
    ensures ClusterList([], iocs, strategy, least)
  {
  }

  lemma MembersOfCluster(c: Cluster, iocs: seq<Ioc>)
    requires IsCluster(c, iocs)
    ensures c.members == Members(iocs, c.strategy, c.key)
  {
  }

  lemma BelowNext(keys: seq<string>, k: nat)
    requires Ascending(keys) && k < |keys|
    ensures forall key | key in keys[..k] :: Less(key, keys[k])
  {
    hide Less;
  }

  // ----- The whole result -----

  /** Put `c` behind every cluster that scores at least as much. */
  function InsertDown(cs: seq<Cluster>, c: Cluster): seq<Cluster> {
    if cs != [] && cs[|cs| - 1].score < c.score then InsertDown(cs[..|cs| - 1], c) + [cs[|cs| - 1]] else cs + [c]
  }

  /** The stable sort by score, greatest first. */
  function SortDown(cs: seq<Cluster>): seq<Cluster> {
    if cs == [] then [] else InsertDown(SortDown(cs[..|cs| - 1]), cs[|cs| - 1])
  }

  ghost predicate Descending(cs: seq<Cluster>) {
    forall i, j | 0 <= i < j < |cs| :: cs[i].score >= cs[j].score
  }

  function Scoring(cs: seq<Cluster>, score: real): seq<Cluster> {
    if cs == [] then []
    else Scoring(cs[..|cs| - 1], score) + if cs[|cs| - 1].score == score then [cs[|cs| - 1]] else []
  }

  ghost function Own(c: Cluster, strategy: Strategy): multiset<Ioc> {
    if c.strategy == strategy then multiset(c.members) else multiset{}
  }

  /** All members of the clusters of one strategy. */
  ghost function Pool(cs: seq<Cluster>, strategy: Strategy): multiset<Ioc> {
    if cs == [] then multiset{}
    else Pool(cs[..|cs| - 1], strategy) + Own(cs[|cs| - 1], strategy)
  }

  lemma ScoringAppend(cs: seq<Cluster>, c: Cluster, score: real, strategy: Strategy)
    ensures Scoring(cs + [c], score) == Scoring(cs, score) + if c.score == score then [c] else []
    ensures Pool(cs + [c], strategy) == Pool(cs, strategy) + Own(c, strategy)
  {
    assert (cs + [c])[..|cs|] == cs;
  }

  lemma {:induction false} InsertDownSorts(cs: seq<Cluster>, c: Cluster)
    requires Descending(cs)
    ensures Descending(InsertDown(cs, c))
    ensures forall x :: x in InsertDown(cs, c) <==> x in cs || x == c
  {
    if cs != [] && cs[|cs| - 1].score < c.score {
      var init, last := cs[..|cs| - 1], cs[|cs| - 1];
      InsertDownSorts(init, c);
      assert cs == init + [last];
      forall x | x in InsertDown(init, c) ensures x.score >= last.score {
        if x in init {
          var k :| 0 <= k < |init| && init[k] == x;
          assert cs[k] == x;
        }
      }
    }
  }

  lemma {:induction false} InsertDownKeeps(cs: seq<Cluster>, c: Cluster, score: real, strategy: Strategy)
    ensures Scoring(InsertDown(cs, c), score) == Scoring(cs + [c], score)
    ensures Pool(InsertDown(cs, c), strategy) == Pool(cs + [c], strategy)
  {
    hide Scoring, Pool;
    if cs != [] && cs[|cs| - 1].score < c.score {
      var init, last := cs[..|cs| - 1], cs[|cs| - 1];
      InsertDownKeeps(init, c, score, strategy);
      assert cs == init + [last];
      ScoringAppend(init, c, score, strategy);
      ScoringAppend(init, last, score, strategy);
      ScoringAppend(cs, c, score, strategy);
      ScoringAppend(InsertDown(init, c), last, score, strategy);
    }
  }

  lemma {:induction false} SortDownSorts(cs: seq<Cluster>)
    ensures Descending(SortDown(cs))
    ensures forall x :: x in SortDown(cs) <==> x in cs
  {
    if cs != [] {
      hide InsertDown, Descending;
      var init, last := cs[..|cs| - 1], cs[|cs| - 1];
      SortDownSorts(init);
      InsertDownSorts(SortDown(init), last);
      assert cs == init + [last];
    }
  }

  lemma SortDownStep(init: seq<Cluster>, last: Cluster)
    ensures SortDown(init + [last]) == InsertDown(SortDown(init), last)
  {
    hide InsertDown;
    EndsOf(init, last);
  }

  lemma EndsOf(init: seq<Cluster>, last: Cluster)
    ensures (init + [last])[..|init|] == init && (init + [last])[|init|] == last && |init + [last]| == |init| + 1
  {
  }

  lemma LastOf(cs: seq<Cluster>) returns (init: seq<Cluster>, last: Cluster)
    requires cs != []
    ensures cs == init + [last] && |init| < |cs|
  {
    init, last := cs[..|cs| - 1], cs[|cs| - 1];
  }

  lemma SortDownNothing()
    ensures SortDown([]) == []
  {
  }

  /** Sorting keeps the order of the clusters with the same score, and so every cluster. */
  lemma {:induction false} SortDownKeeps(cs: seq<Cluster>, score: real, strategy: Strategy)
    ensures Scoring(SortDown(cs), score) == Scoring(cs, score)
    ensures Pool(SortDown(cs), strategy) == Pool(cs, strategy)
    decreases |cs|
  {
    hide *;
    if cs == [] {
      SortDownNothing();
    } else {
      var init, last := LastOf(cs);
      SortDownStep(init, last);
      SortDownKeeps(init, score, strategy);
      InsertDownKeeps(SortDown(init), last, score, strategy);
      ScoringAppend(init, last, score, strategy);
      ScoringAppend(SortDown(init), last, score, strategy);
    }
  }

  /** An indicator occurs in the clusters of a strategy as often as in the input, if its key has a cluster. */
  lemma {:induction false} PoolCounts(cs: seq<Cluster>, iocs: seq<Ioc>, strategy: Strategy, least: nat, x: Ioc)
    requires ClusterList(cs, iocs, strategy, least)
    ensures Pool(cs, strategy)[x]
         == if KeyOf(strategy, x).Some? && HasKey(cs, KeyOf(strategy, x).value) then multiset(iocs)[x] else 0
  {
    hide KeyOf, Members, Less, IsCluster;
    if cs != [] {
      var init, last := cs[..|cs| - 1], cs[|cs| - 1];
      PoolCounts(init, iocs, strategy, least, x);
      MembersOfCluster(last, iocs);
      MembersCount(iocs, strategy, last.key, x);
      KeysDiffer(cs, iocs, strategy, least);
      assert cs == init + [last];
    }
  }

  lemma KeysDiffer(cs: seq<Cluster>, iocs: seq<Ioc>, strategy: Strategy, least: nat)
    requires ClusterList(cs, iocs, strategy, least) && cs != []
    ensures !HasKey(cs[..|cs| - 1], cs[|cs| - 1].key)
    ensures forall key :: HasKey(cs, key) <==> HasKey(cs[..|cs| - 1], key) || key == cs[|cs| - 1].key
  {
    hide IsCluster, Less;
    LessIsIrreflexive(cs[|cs| - 1].key);
    var last := |cs| - 1;
    assert forall i | 0 <= i < last :: cs[..last][i] == cs[i];
  }

  lemma {:induction false} LessIsIrreflexive(a: string)
    ensures !Less(a, a)
  {
    if a != "" {
      LessIsIrreflexive(a[1..]);
    }
  }

  /** Exactly the indicators whose group is large enough are clustered, each as often as it came in. */
  lemma ClusteredIffGroupIsLarge(cs: seq<Cluster>, iocs: seq<Ioc>, strategy: Strategy, least: nat, x: Ioc)
    requires ClustersFor(cs, iocs, strategy, least)
    ensures Pool(cs, strategy)[x]
         == var key := KeyOf(strategy, x);
            if key.Some? && |Members(iocs, strategy, key.value)| >= least then multiset(iocs)[x] else 0
  {
    hide KeyOf, Members, Less, Pool;
    PoolCounts(cs, iocs, strategy, least, x);
    var key := KeyOf(strategy, x);
    if key.Some? && HasKey(cs, key.value) {
      var i :| 0 <= i < |cs| && cs[i].key == key.value;
      MembersOfCluster(cs[i], iocs);
    }
  }

  lemma MalwareClustersPartition(cs: seq<Cluster>, iocs: seq<Ioc>)
    requires ClustersFor(cs, iocs, Malware, 1)
    ensures Pool(cs, Malware) == multiset(iocs)
  {
    hide KeyOf, Members, ClustersFor, Pool;
    forall x ensures Pool(cs, Malware)[x] == multiset(iocs)[x] {
      ClusteredIffGroupIsLarge(cs, iocs, Malware, 1, x);
      EveryIocHasAFamily(x);
      MembersCount(iocs, Malware, KeyOf(Malware, x).value, x);
      assert multiset(iocs)[x] > 0 ==> x in multiset(Members(iocs, Malware, KeyOf(Malware, x).value));
    }
  }

  lemma EveryIocHasAFamily(x: Ioc)
    ensures KeyOf(Malware, x).Some?
  {
  }

  lemma SumEnds(a: seq<Cluster>, b: seq<Cluster>)
    requires b != []
    ensures (a + b)[..|a + b| - 1] == a + b[..|b| - 1] && (a + b)[|a + b| - 1] == b[|b| - 1]
  {
  }

  lemma PoolStep(cs: seq<Cluster>, strategy: Strategy)
    requires cs != []
    ensures Pool(cs, strategy) == Pool(cs[..|cs| - 1], strategy) + Own(cs[|cs| - 1], strategy)
  {
  }

  lemma {:induction false} PoolOfSum(a: seq<Cluster>, b: seq<Cluster>, strategy: Strategy)
    ensures Pool(a + b, strategy) == Pool(a, strategy) + Pool(b, strategy)
  {
    if b == [] {
      assert a + b == a;
    } else {
      PoolOfSum(a, b[..|b| - 1], strategy);
      SumEnds(a, b);
      PoolStep(b, strategy);
      PoolStep(a + b, strategy);
      hide *;
    }
  }

  lemma {:induction false} PoolOfOther(cs: seq<Cluster>, iocs: seq<Ioc>, own: Strategy, other: Strategy, least: nat)
    requires ClusterList(cs, iocs, own, least) && own != other
    ensures Pool(cs, other) == multiset{}
  {
    hide Less, IsCluster;
    if cs != [] {
      PoolOfOther(cs[..|cs| - 1], iocs, own, other, least);
    }
  }

  /** Main result: the malware clusters of the sorted list partition the input; those of the other strategies pick their part of it. */
  lemma SortedListPartition(malware: seq<Cluster>, actors: seq<Cluster>, subnets: seq<Cluster>, iocs: seq<Ioc>)
    requires ClustersFor(malware, iocs, Malware, 1)
    requires ClustersFor(actors, iocs, Adversary, 2) && ClustersFor(subnets, iocs, Infrastructure, 2)
    ensures var all := SortDown(malware + actors + subnets);
            && Pool(all, Malware) == multiset(iocs)
            && Pool(all, Adversary) == Pool(actors, Adversary)
            && Pool(all, Infrastructure) == Pool(subnets, Infrastructure)
  {
    hide Pool, SortDown, ClusterList;
    forall s: Strategy
      ensures Pool(SortDown(malware + actors + subnets), s) == Pool(malware, s) + Pool(actors, s) + Pool(subnets, s)
      ensures s != Malware ==> Pool(malware, s) == multiset{}
      ensures s != Adversary ==> Pool(actors, s) == multiset{}
      ensures s != Infrastructure ==> Pool(subnets, s) == multiset{}
    {
      SortDownKeeps(malware + actors + subnets, 0.0, s);
      PoolOfSum(malware + actors, subnets, s);
      PoolOfSum(malware, actors, s);
      if s != Malware { PoolOfOther(malware, iocs, Malware, s, 1); }
      if s != Adversary { PoolOfOther(actors, iocs, Adversary, s, 2); }
      if s != Infrastructure { PoolOfOther(subnets, iocs, Infrastructure, s, 2); }
    }
    MalwareClustersPartition(malware, iocs);
  }

  method Correlate(iocs: seq<Ioc>)
    returns (clusters: seq<Cluster>, ghost malware: seq<Cluster>, ghost actors: seq<Cluster>, ghost subnets: seq<Cluster>)
    ensures ClustersFor(malware, iocs, Malware, 1)
    ensures ClustersFor(actors, iocs, Adversary, 2) && ClustersFor(subnets, iocs, Infrastructure, 2)
    ensures clusters == SortDown(malware + actors + subnets)
    ensures Descending(clusters) && Pool(clusters, Malware) == multiset(iocs)
  {
    hide ClustersFor, SortDown, Pool;
    var byMalware := BuildClusters(iocs, Malware, 1);
    var byActor := BuildClusters(iocs, Adversary, 2);
    var bySubnet := BuildClusters(iocs, Infrastructure, 2);
    clusters := SortDown(byMalware + byActor + bySubnet);
    malware, actors, subnets := byMalware, byActor, bySubnet;
    SortDownSorts(byMalware + byActor + bySubnet);
    SortedListPartition(malware, actors, subnets, iocs);
  }
}
