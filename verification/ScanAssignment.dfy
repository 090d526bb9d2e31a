/**
 modules/federation/federated_scan.py:195-238: dealing scan types out to the nodes of a federation.
 */
module ScanAssignment {
  import opened Prelude

  datatype Node = Node(id: string, name: string, capabilities: set<string>)
  datatype Assignment = Assignment(nodeId: string, nodeName: string, scanTypes: seq<string>)

  /** The scan types a capability stands for besides its own name. */
  function Covered(capability: string): set<string> {
    match capability
    case "recon" => {"recon", "dns", "subdomain", "whois"}
    case "vuln" => {"vuln", "xss", "sqli", "ssrf"}
    case "osint" => {"osint", "email", "social"}
    case "threat_intel" => {"threat_intel", "mitre", "ioc"}
    case _ => {}
  }

  const MAPPING: seq<string> := ["recon", "vuln", "osint", "threat_intel"]

  /** Walk the capability table, then fall back to the capability of the same name. */
  predicate CanHandleFrom(node: Node, scanType: string, k: nat)
    requires k <= |MAPPING|
    decreases |MAPPING| - k
  {
    if k == |MAPPING| then scanType in node.capabilities
    else if MAPPING[k] in node.capabilities && scanType in Covered(MAPPING[k]) then true
    else CanHandleFrom(node, scanType, k + 1)
  }

  predicate CanHandle(node: Node, scanType: string) {
    CanHandleFrom(node, scanType, 0)
  }

  /** The one capability that stands for a scan type. */
  function Owner(scanType: string): Option<string> {
    match scanType
    case "recon" => Some("recon")
    case "dns" => Some("recon")
    case "subdomain" => Some("recon")
    case "whois" => Some("recon")
    case "vuln" => Some("vuln")
    case "xss" => Some("vuln")
    case "sqli" => Some("vuln")
    case "ssrf" => Some("vuln")
    case "osint" => Some("osint")
    case "email" => Some("osint")
    case "social" => Some("osint")
    case "threat_intel" => Some("threat_intel")
    case "mitre" => Some("threat_intel")
    case "ioc" => Some("threat_intel")
    case _ => None
  }

  /** No scan type belongs to two capabilities, so a node handles it exactly through its owner or its own name. */
  lemma CoveredByOwner(capability: string, scanType: string)
    ensures scanType in Covered(capability) <==> Owner(scanType) == Some(capability)
  {
  }

  lemma CanHandleIff(node: Node, scanType: string)
    ensures CanHandle(node, scanType)
         <==> exists c :: c in node.capabilities && (c == scanType || scanType in Covered(c))
  {
    assert CanHandle(node, scanType) <==> CanHandleFrom(node, scanType, 1) || ("recon" in node.capabilities && scanType in Covered("recon"));
    assert CanHandleFrom(node, scanType, 1) <==> CanHandleFrom(node, scanType, 2) || ("vuln" in node.capabilities && scanType in Covered("vuln"));
    assert CanHandleFrom(node, scanType, 2) <==> CanHandleFrom(node, scanType, 3) || ("osint" in node.capabilities && scanType in Covered("osint"));
    assert CanHandleFrom(node, scanType, 3) <==> scanType in node.capabilities || ("threat_intel" in node.capabilities && scanType in Covered("threat_intel"));
  }

  // ----- Round robin -----

  /** The scan types among the first `k` whose turn falls on the node id. */
  function Given(types: seq<string>, nodes: seq<Node>, id: string, k: nat): seq<string>
    requires nodes != [] && k <= |types|
  {
    if k == 0 then []
    else Given(types, nodes, id, k - 1) + if nodes[(k - 1) % |nodes|].id == id then [types[k - 1]] else []
  }

  predicate DistinctIds(nodes: seq<Node>) {
    forall i, j | 0 <= i < j < |nodes| :: nodes[i].id != nodes[j].id
  }

  /** How many of the first `k` turns fall on position `j` of `n`. */
  function Load(k: nat, j: nat, n: nat): nat
    requires j < n
  {
    k / n + if j < k % n then 1 else 0
  }

  lemma NextTurn(k: nat, j: nat, n: nat)
    requires j < n
    ensures Load(k + 1, j, n) == Load(k, j, n) + if k % n == j then 1 else 0
    ensures k % n == j ==> k == Load(k, j, n) * n + j
  {
    var q, r := k / n, k % n;
    assert k == q * n + r;
    if r + 1 < n {
      DivIs(k + 1, q, r + 1, n);
    } else {
      assert k + 1 == (q + 1) * n + 0;
      DivIs(k + 1, q + 1, 0, n);
    }
  }

  lemma DivIs(k: nat, q: nat, r: nat, n: nat)
    requires r < n && k == q * n + r
    ensures k / n == q && k % n == r
  {
    var d: int := k / n - q;
    assert d * n == r - k % n by {
      assert k == (k / n) * n + k % n;
      assert d * n == (k / n) * n - q * n;
    }
    assert d >= 1 ==> d * n >= n;
    assert d <= -1 ==> d * n + n <= 0;
  }

  /** Over distinct nodes the node at position `j` gets exactly the types at positions `j`, `j + n`, `j + 2n`, ... */
  lemma {:induction false} GivenIsEveryNth(types: seq<string>, nodes: seq<Node>, j: nat, k: nat)
    requires DistinctIds(nodes) && j < |nodes| && k <= |types|
    ensures |Given(types, nodes, nodes[j].id, k)| == Load(k, j, |nodes|)
    ensures forall m | 0 <= m < Load(k, j, |nodes|) ::
              0 <= m * |nodes| + j < k && Given(types, nodes, nodes[j].id, k)[m] == types[m * |nodes| + j]
  {
    if k == 0 {
      DivIs(0, 0, 0, |nodes|);
    } else {
      hide Load, DistinctIds;
      GivenIsEveryNth(types, nodes, j, k - 1);
      NextTurn(k - 1, j, |nodes|);
      TurnOf(nodes, j, k - 1);
    }
  }

  lemma TurnOf(nodes: seq<Node>, j: nat, k: nat)
    requires DistinctIds(nodes) && j < |nodes|
    ensures nodes[k % |nodes|].id == nodes[j].id <==> k % |nodes| == j
  {
  }

  /** No two nodes' loads differ by more than one, and earlier nodes never get less. */
  lemma LoadsDifferByAtMostOne(types: seq<string>, nodes: seq<Node>, i: nat, j: nat)
    requires DistinctIds(nodes) && i <= j < |nodes|
    ensures var a, b := |Given(types, nodes, nodes[i].id, |types|)|, |Given(types, nodes, nodes[j].id, |types|)|;
            b <= a <= b + 1
  {
    GivenIsEveryNth(types, nodes, i, |types|);
    GivenIsEveryNth(types, nodes, j, |types|);
  }

  // ----- Nothing lost, nothing twice -----

  function Pooled(all: seq<Assignment>): multiset<string> {
    if all == [] then multiset{}
    else Pooled(all[..|all| - 1]) + multiset(all[|all| - 1].scanTypes)
  }

  /** Replacing one assignment changes the number of each type by the difference of the two. */
  lemma {:induction false} PooledReplace(all: seq<Assignment>, k: nat, a: Assignment, t: string)
    requires k < |all|
    ensures Pooled(all[k := a])[t] + multiset(all[k].scanTypes)[t] == Pooled(all)[t] + multiset(a.scanTypes)[t]
  {
    var n := |all| - 1;
    if k == n {
      assert all[k := a][..n] == all[..n];
    } else {
      PooledReplace(all[..n], k, a, t);
      assert all[k := a][..n] == all[..n][k := a];
    }
  }

  lemma PooledUpdate(all: seq<Assignment>, k: nat, scanType: string)
    requires k < |all|
    ensures Pooled(all[k := all[k].(scanTypes := all[k].scanTypes + [scanType])]) == Pooled(all) + multiset{scanType}
  {
    hide Pooled;
    var a := all[k].(scanTypes := all[k].scanTypes + [scanType]);
    forall t ensures Pooled(all[k := a])[t] == (Pooled(all) + multiset{scanType})[t] {
      PooledReplace(all, k, a, t);
    }
  }

  predicate Has(all: seq<Assignment>, id: string) {
    exists p :: 0 <= p < |all| && all[p].nodeId == id
  }

  method FindAssignment(all: seq<Assignment>, id: string) returns (k: nat)
    ensures k <= |all| && (k < |all| ==> all[k].nodeId == id)
    ensures k == |all| ==> !Has(all, id)
  {
    k := 0;
    while k < |all|
      invariant k <= |all| && forall i | 0 <= i < k :: all[i].nodeId != id
    {
      if all[k].nodeId == id {
        return;
      }
      k := k + 1;
    }
  }

  /** After `i` types: one assignment for each node id that had a turn, holding its types in order. */
  ghost predicate Dealt(types: seq<string>, nodes: seq<Node>, i: nat, all: seq<Assignment>)
    requires nodes != [] && i <= |types|
  {
    && (forall p, q | 0 <= p < q < |all| :: all[p].nodeId != all[q].nodeId)
    && (forall p | 0 <= p < |all| :: all[p].scanTypes == Given(types, nodes, all[p].nodeId, i) && all[p].scanTypes != [])
    && (forall id | !Has(all, id) :: Given(types, nodes, id, i) == [])
  }

  /** With distinct nodes the assignments come in node order, one for each node as far as the types reach. */
  predicate InNodeOrder(nodes: seq<Node>, i: nat, all: seq<Assignment>) {
    && |all| == (if i < |nodes| then i else |nodes|)
    && forall j | 0 <= j < |all| :: all[j].nodeId == nodes[j].id && all[j].nodeName == nodes[j].name
  }

  lemma DealToExisting(types: seq<string>, nodes: seq<Node>, i: nat, all: seq<Assignment>, k: nat)
    requires nodes != [] && i < |types| && k < |all| && all[k].nodeId == nodes[i % |nodes|].id
    ensures Dealt(types, nodes, i, all) ==> Dealt(types, nodes, i + 1, all[k := all[k].(scanTypes := all[k].scanTypes + [types[i]])])
  {
    if !Dealt(types, nodes, i, all) {
      return;
    }
    var next := all[k := all[k].(scanTypes := all[k].scanTypes + [types[i]])];
    assert forall p | 0 <= p < |all| :: next[p].nodeId == all[p].nodeId;
    forall id | !Has(next, id) ensures Given(types, nodes, id, i + 1) == [] {
      assert next[k].nodeId != id && !Has(all, id);
    }
  }

  lemma DealToNew(types: seq<string>, nodes: seq<Node>, i: nat, all: seq<Assignment>, name: string)
    requires nodes != [] && i < |types| && Dealt(types, nodes, i, all) && !Has(all, nodes[i % |nodes|].id)
    ensures Dealt(types, nodes, i + 1, all + [Assignment(nodes[i % |nodes|].id, name, [types[i]])])
  {
    var id := nodes[i % |nodes|].id;
    var next := all + [Assignment(id, name, [types[i]])];
    assert forall p | 0 <= p < |all| :: next[p] == all[p];
    forall x | !Has(next, x) ensures Given(types, nodes, x, i + 1) == [] {
      assert next[|all|].nodeId != x && !Has(all, x);
    }
  }

  /** The node whose turn it is has an assignment already exactly when the first round is over. */
  lemma TurnInNodeOrder(nodes: seq<Node>, i: nat, all: seq<Assignment>, k: nat)
    requires nodes != [] && DistinctIds(nodes) && InNodeOrder(nodes, i, all)
    requires k <= |all| && if k < |all| then all[k].nodeId == nodes[i % |nodes|].id else !Has(all, nodes[i % |nodes|].id)
    ensures k == |all| <==> i < |nodes|
    ensures i < |nodes| ==> i % |nodes| == i
  {
    if i < |nodes| {
      DivIs(i, 0, i, |nodes|);
    } else {
      assert all[i % |nodes|].nodeId == nodes[i % |nodes|].id;
    }
  }

  /**
   Main result: every type goes to the node whose turn it is, in order; none is lost and none is
   given out twice, whether or not node ids repeat.
   */
  method RoundRobin(types: seq<string>, nodes: seq<Node>) returns (all: seq<Assignment>)
    requires nodes != []
    ensures Dealt(types, nodes, |types|, all)
    ensures Pooled(all) == multiset(types)
    ensures DistinctIds(nodes) ==> InNodeOrder(nodes, |types|, all)
  {
    hide Dealt, Has, DistinctIds, InNodeOrder, Pooled;
    all := [];
    EmptyDeal(types, nodes);
    for i := 0 to |types|
      invariant Dealt(types, nodes, i, all)
      invariant Pooled(all) == multiset(types[..i])
      invariant DistinctIds(nodes) ==> InNodeOrder(nodes, i, all)
    {
      var node := nodes[i % |nodes|];
      var k := FindAssignment(all, node.id);
      DealOne(types, nodes, i, all, k);
      if k < |all| {
        all := all[k := all[k].(scanTypes := all[k].scanTypes + [types[i]])];
      } else {
        all := all + [Assignment(node.id, node.name, [types[i]])];
      }
    }
    assert types[..|types|] == types;
  }

  lemma DealOne(types: seq<string>, nodes: seq<Node>, i: nat, all: seq<Assignment>, k: nat)
    requires nodes != [] && i < |types| && Dealt(types, nodes, i, all)
    requires k <= |all| && if k < |all| then all[k].nodeId == nodes[i % |nodes|].id else !Has(all, nodes[i % |nodes|].id)
    ensures var node := nodes[i % |nodes|];
            var next := if k < |all| then all[k := all[k].(scanTypes := all[k].scanTypes + [types[i]])]
                        else all + [Assignment(node.id, node.name, [types[i]])];
            && Dealt(types, nodes, i + 1, next)
            && (Pooled(all) == multiset(types[..i]) ==> Pooled(next) == multiset(types[..i + 1]))
            && (DistinctIds(nodes) && InNodeOrder(nodes, i, all) ==> InNodeOrder(nodes, i + 1, next))
  {
    hide Dealt, Has, DistinctIds, Pooled;
    assert types[..i + 1] == types[..i] + [types[i]];
    if DistinctIds(nodes) && InNodeOrder(nodes, i, all) {
      TurnInNodeOrder(nodes, i, all, k);
    }
    if k < |all| {
      DealToExisting(types, nodes, i, all, k);
      PooledUpdate(all, k, types[i]);
    } else {
      var node := nodes[i % |nodes|];
      DealToNew(types, nodes, i, all, node.name);
      PooledAppend(all, Assignment(node.id, node.name, [types[i]]));
    }
  }

  /** Over distinct nodes: assignment `j` is node `j`'s and holds every `n`-th type from position `j` on. */
  lemma DealtEveryNth(types: seq<string>, nodes: seq<Node>, all: seq<Assignment>, j: nat)
    requires nodes != [] && DistinctIds(nodes) && j < |all|
    requires Dealt(types, nodes, |types|, all) && InNodeOrder(nodes, |types|, all)
    ensures all[j].nodeId == nodes[j].id && |all[j].scanTypes| == Load(|types|, j, |nodes|)
    ensures forall m | 0 <= m < |all[j].scanTypes| ::
              0 <= m * |nodes| + j < |types| && all[j].scanTypes[m] == types[m * |nodes| + j]
  {
    GivenIsEveryNth(types, nodes, j, |types|);
  }

  lemma EmptyDeal(types: seq<string>, nodes: seq<Node>)
    requires nodes != []
    ensures Dealt(types, nodes, 0, []) && Pooled([]) == multiset{} && InNodeOrder(nodes, 0, [])
  {
  }

  lemma PooledAppend(all: seq<Assignment>, a: Assignment)
    ensures Pooled(all + [a]) == Pooled(all) + multiset(a.scanTypes)
  {
    assert (all + [a])[..|all|] == all;
  }

  // ----- Parallel -----

  function Handled(node: Node, types: seq<string>): seq<string> {
    if types == [] then []
    else
      var n := |types| - 1;
      Handled(node, types[..n]) + if CanHandle(node, types[n]) then [types[n]] else []
  }

  /** Whether some assignment runs the type. */
  predicate Runs(all: seq<Assignment>, scanType: string) {
    exists p :: 0 <= p < |all| && scanType in all[p].scanTypes
  }

  lemma {:induction false} HandledMembers(node: Node, types: seq<string>, t: string)
    ensures t in Handled(node, types) <==> t in types && CanHandle(node, t)
  {
    if types != [] {
      hide CanHandle;
      var n := |types| - 1;
      HandledMembers(node, types[..n], t);
      assert types == types[..n] + [types[n]];
    }
  }

  /** Every assignment is that of a node with all the types it can handle, and no such node is left out. */
  ghost predicate Offered(types: seq<string>, nodes: seq<Node>, all: seq<Assignment>) {
    && (forall p | 0 <= p < |all| :: IsOffer(types, nodes, all[p]))
    && (forall i | 0 <= i < |nodes| && Handled(nodes[i], types) != [] :: OfferOf(types, nodes[i]) in all)
  }

  ghost predicate IsOffer(types: seq<string>, nodes: seq<Node>, a: Assignment) {
    a.scanTypes != [] && exists i :: 0 <= i < |nodes| && a == OfferOf(types, nodes[i])
  }

  function OfferOf(types: seq<string>, node: Node): Assignment {
    Assignment(node.id, node.name, Handled(node, types))
  }

  /** One offer for each node that can handle anything, in node order. */
  function Offers(types: seq<string>, nodes: seq<Node>): seq<Assignment> {
    if nodes == [] then []
    else
      var n := |nodes| - 1;
      Offers(types, nodes[..n]) + if Handled(nodes[n], types) == [] then [] else [OfferOf(types, nodes[n])]
  }

  lemma {:induction false} HandledInOrder(node: Node, a: seq<string>, b: seq<string>)
    ensures Handled(node, a + b) == Handled(node, a) + Handled(node, b)
  {
    if b == [] {
      assert a + b == a;
    } else {
      var n := |b| - 1;
      var last := if CanHandle(node, b[n]) then [b[n]] else [];
      HandledInOrder(node, a, b[..n]);
      assert (a + b)[..|a + b| - 1] == a + b[..n];
      assert Handled(node, a + b) == Handled(node, a + b[..n]) + last && Handled(node, b) == Handled(node, b[..n]) + last;
      hide *;
    }
  }

  /** Offers come in the order of the nodes, and the types of each in the order asked for. */
  lemma {:induction false} OffersInOrder(types: seq<string>, a: seq<Node>, b: seq<Node>)
    ensures Offers(types, a + b) == Offers(types, a) + Offers(types, b)
  {
    if b == [] {
      assert a + b == a;
    } else {
      var n := |b| - 1;
      var last := if Handled(b[n], types) == [] then [] else [OfferOf(types, b[n])];
      OffersInOrder(types, a, b[..n]);
      assert (a + b)[..|a + b| - 1] == a + b[..n];
      assert Offers(types, a + b) == Offers(types, a + b[..n]) + last && Offers(types, b) == Offers(types, b[..n]) + last;
      hide *;
    }
  }

  method HandledTypes(node: Node, types: seq<string>) returns (handled: seq<string>)
    ensures handled == Handled(node, types)
  {
    hide CanHandle;
    handled := [];
    for k := 0 to |types|
      invariant handled == Handled(node, types[..k])
    {
      assert types[..k + 1][..k] == types[..k];
      if CanHandle(node, types[k]) {
        handled := handled + [types[k]];
      }
    }
    assert types[..|types|] == types;
  }

  method Parallel(types: seq<string>, nodes: seq<Node>) returns (all: seq<Assignment>)
    ensures all == Offers(types, nodes) && Offered(types, nodes, all)
    ensures forall t :: Runs(all, t) <==> t in types && Able(nodes, t)
  {
    hide Handled, Runs, Able, CanHandle, Offered;
    all := [];
    assert Offered(types, nodes[..0], all) by { NothingOffered(types); }
    for i := 0 to |nodes|
      invariant all == Offers(types, nodes[..i]) && Offered(types, nodes[..i], all)
    {
      var nodeTypes := HandledTypes(nodes[i], types);
      OfferedOneMore(types, nodes[..i], all, nodes[i]);
      assert nodes[..i + 1] == nodes[..i] + [nodes[i]] && nodes[..i + 1][..i] == nodes[..i];
      if nodeTypes != [] {
        all := all + [Assignment(nodes[i].id, nodes[i].name, nodeTypes)];
      }
    }
    assert nodes[..|nodes|] == nodes;
    forall t ensures Runs(all, t) <==> t in types && Able(nodes, t) {
      DroppedIffUnhandled(types, nodes, all, t);
    }
  }

  /** Whether some node can handle the type. */
  predicate Able(nodes: seq<Node>, scanType: string) {
    exists i :: 0 <= i < |nodes| && CanHandle(nodes[i], scanType)
  }

  lemma NothingOffered(types: seq<string>)
    ensures Offered(types, [], [])
  {
  }

  lemma OfferedOneMore(types: seq<string>, nodes: seq<Node>, all: seq<Assignment>, node: Node)
    requires Offered(types, nodes, all)
    ensures Offered(types, nodes + [node], if Handled(node, types) == [] then all else all + [OfferOf(types, node)])
  {
    hide Handled, OfferOf, IsOffer;
    var more := nodes + [node];
    var next := if Handled(node, types) == [] then all else all + [OfferOf(types, node)];
    forall p | 0 <= p < |next| ensures IsOffer(types, more, next[p]) {
      if p < |all| {
        OfferStays(types, nodes, node, all[p]);
      } else {
        LastOffers(types, nodes, node);
      }
    }
    forall i | 0 <= i < |more| && Handled(more[i], types) != [] ensures OfferOf(types, more[i]) in next {
      if i < |nodes| {
        var p :| 0 <= p < |all| && all[p] == OfferOf(types, nodes[i]);
        assert next[p] == all[p];
      } else {
        assert next[|all|] == OfferOf(types, node);
      }
    }
  }

  lemma OfferStays(types: seq<string>, nodes: seq<Node>, node: Node, a: Assignment)
    requires IsOffer(types, nodes, a)
    ensures IsOffer(types, nodes + [node], a)
  {
    var i :| 0 <= i < |nodes| && a == OfferOf(types, nodes[i]);
    assert (nodes + [node])[i] == nodes[i];
  }

  lemma LastOffers(types: seq<string>, nodes: seq<Node>, node: Node)
    requires Handled(node, types) != []
    ensures IsOffer(types, nodes + [node], OfferOf(types, node))
  {
    assert (nodes + [node])[|nodes|] == node;
  }

  /** Parallel dispatch runs a type exactly if some node can handle it. */
  lemma DroppedIffUnhandled(types: seq<string>, nodes: seq<Node>, all: seq<Assignment>, t: string)
    requires Offered(types, nodes, all)
    ensures Runs(all, t) <==> t in types && Able(nodes, t)
  {
    hide Handled, CanHandle;
    if Runs(all, t) {
      var p :| 0 <= p < |all| && t in all[p].scanTypes;
      var i :| 0 <= i < |nodes| && all[p] == OfferOf(types, nodes[i]);
      HandledMembers(nodes[i], types, t);
    }
    if t in types && Able(nodes, t) {
      var i :| 0 <= i < |nodes| && CanHandle(nodes[i], t);
      HandledMembers(nodes[i], types, t);
      assert OfferOf(types, nodes[i]) in all;
      var p :| 0 <= p < |all| && all[p] == OfferOf(types, nodes[i]);
      assert t in all[p].scanTypes;
    }
  }
}
