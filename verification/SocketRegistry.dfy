/**
 web/websocket_manager.py: live sockets indexed twice, by scan and by user.
 */
module SocketRegistry {
  import opened Prelude

  type Socket = nat
  type ScanId = string
  type UserId = int

  /** Who a socket was connected for. */
  datatype Home = Home(scan: ScanId, user: UserId)

  datatype Registry = Registry(byScan: map<ScanId, seq<Socket>>, byUser: map<UserId, seq<Socket>>)

  // ----- One index -----

  /** `setdefault(key, []).append(ws)`. */
  function Append<K>(m: map<K, seq<Socket>>, key: K, ws: Socket): map<K, seq<Socket>> {
    m[key := (if key in m then m[key] else []) + [ws]]
  }

  /** `list.remove`, a missing element ignored. */
  function RemoveFirst(s: seq<Socket>, ws: Socket): seq<Socket> {
    if s == [] then [] else if s[0] == ws then s[1..] else [s[0]] + RemoveFirst(s[1..], ws)
  }

  /** Remove from the list under `key` and drop the list when nothing is left. */
  function Remove<K>(m: map<K, seq<Socket>>, key: K, ws: Socket): map<K, seq<Socket>> {
    if key !in m then m
    else
      var left := RemoveFirst(m[key], ws);
      if left == [] then m - {key} else m[key := left]
  }

  // ----- The operations -----

  function Connected(r: Registry, home: Home, ws: Socket): Registry {
    Registry(Append(r.byScan, home.scan, ws), Append(r.byUser, home.user, ws))
  }

  function Disconnected(r: Registry, home: Home, ws: Socket): Registry {
    Registry(Remove(r.byScan, home.scan, ws), Remove(r.byUser, home.user, ws))
  }

  /** A socket that failed while sending: its user is looked up by scanning the user lists. */
  ghost function Dropped(r: Registry, scan: ScanId, ws: Socket): Registry {
    Registry(Remove(r.byScan, scan, ws),
             if u :| u in r.byUser && ws in r.byUser[u] then Remove(r.byUser, u, ws) else r.byUser)
  }

  // ----- The invariant -----

  ghost predicate NoRepeats(s: seq<Socket>) {
    forall i, j | 0 <= i < j < |s| :: s[i] != s[j]
  }

  /** No empty list, and every socket listed once, under its own key. */
  ghost predicate Filed<K(!new)>(m: map<K, seq<Socket>>, keyOf: map<Socket, K>) {
    && (forall k | k in m :: m[k] != [] && NoRepeats(m[k]))
    && (forall k, ws | Lists(m, k, ws) :: ws in keyOf && keyOf[ws] == k)
  }

  predicate Lists<K>(m: map<K, seq<Socket>>, key: K, ws: Socket) {
    key in m && ws in m[key]
  }

  function Scans(homes: map<Socket, Home>): map<Socket, ScanId> {
    map ws | ws in homes :: homes[ws].scan
  }

  function Users(homes: map<Socket, Home>): map<Socket, UserId> {
    map ws | ws in homes :: homes[ws].user
  }

  /** `homes` remembers every socket ever connected; both indexes list the same ones of them. */
  ghost predicate Inv(r: Registry, homes: map<Socket, Home>) {
    && Filed(r.byScan, Scans(homes))
    && Filed(r.byUser, Users(homes))
    && forall ws | ws in homes :: Lists(r.byScan, homes[ws].scan, ws) <==> Lists(r.byUser, homes[ws].user, ws)
  }

  lemma HeadNotInTail(s: seq<Socket>)
    requires s != [] && NoRepeats(s)
    ensures s[0] !in s[1..] && NoRepeats(s[1..])
    ensures forall x :: x in s <==> x == s[0] || x in s[1..]
  {
    assert s == [s[0]] + s[1..];
  }

  lemma {:induction false} RemoveFirstEffect(s: seq<Socket>, ws: Socket)
    requires NoRepeats(s)
    ensures NoRepeats(RemoveFirst(s, ws))
    ensures forall x :: x in RemoveFirst(s, ws) <==> x in s && x != ws
    ensures ws !in s ==> RemoveFirst(s, ws) == s
  {
    if s != [] {
      HeadNotInTail(s);
      if s[0] != ws {
        RemoveFirstEffect(s[1..], ws);
        PrependNew(s[0], RemoveFirst(s[1..], ws));
        assert s == [s[0]] + s[1..];
      }
    }
  }

  lemma PrependNew(x: Socket, s: seq<Socket>)
    requires NoRepeats(s) && x !in s
    ensures NoRepeats([x] + s)
    ensures forall y :: y in [x] + s <==> y == x || y in s
  {
  }

  lemma AppendFiles<K(!new)>(m: map<K, seq<Socket>>, keyOf: map<Socket, K>, key: K, ws: Socket)
    requires Filed(m, keyOf) && ws !in keyOf
    ensures forall k, x :: Lists(Append(m, key, ws), k, x) <==> Lists(m, k, x) || (k == key && x == ws)
    ensures Filed(Append(m, key, ws), keyOf[ws := key])
  {
    var next := Append(m, key, ws);
    assert !Lists(m, key, ws);
    forall k, x ensures Lists(next, k, x) <==> Lists(m, k, x) || (k == key && x == ws) {}
  }

  lemma RemoveFiles<K(!new)>(m: map<K, seq<Socket>>, keyOf: map<Socket, K>, key: K, ws: Socket)
    requires Filed(m, keyOf)
    ensures forall k, x :: Lists(Remove(m, key, ws), k, x) <==> Lists(m, k, x) && !(k == key && x == ws)
    ensures Filed(Remove(m, key, ws), keyOf)
    ensures !Lists(m, key, ws) ==> Remove(m, key, ws) == m
  {
    if key in m {
      RemoveFirstEffect(m[key], ws);
    }
    var next := Remove(m, key, ws);
    forall k, x ensures Lists(next, k, x) <==> Lists(m, k, x) && !(k == key && x == ws) {}
  }

  lemma FiledWithout<K(!new)>(m: map<K, seq<Socket>>, keyOf: map<Socket, K>, key: K)
    requires Filed(m, keyOf)
    ensures Filed(m - {key}, keyOf)
    ensures forall k, x :: Lists(m - {key}, k, x) <==> Lists(m, k, x) && k != key
  {
    forall k, x ensures Lists(m - {key}, k, x) <==> Lists(m, k, x) && k != key {}
  }

  /** The user found by scanning is the socket's own: no other list holds it. */
  lemma DroppedIsDisconnected(r: Registry, homes: map<Socket, Home>, ws: Socket)
    requires Inv(r, homes) && ws in homes
    ensures Dropped(r, homes[ws].scan, ws) == Disconnected(r, homes[ws], ws)
  {
    hide Remove;
    RemoveFiles(r.byUser, Users(homes), homes[ws].user, ws);
    forall u | u in r.byUser && ws in r.byUser[u] ensures u == homes[ws].user {
      assert Lists(r.byUser, u, ws);
    }
  }

  lemma ConnectKeepsInv(r: Registry, homes: map<Socket, Home>, home: Home, ws: Socket)
    requires Inv(r, homes) && ws !in homes
    ensures Inv(Connected(r, home, ws), homes[ws := home])
  {
    hide Append, Filed;
    AppendFiles(r.byScan, Scans(homes), home.scan, ws);
    AppendFiles(r.byUser, Users(homes), home.user, ws);
    assert Scans(homes[ws := home]) == Scans(homes)[ws := home.scan];
    assert Users(homes[ws := home]) == Users(homes)[ws := home.user];
    FreshIsUnlisted(r, homes, home, ws);
  }

  lemma FreshIsUnlisted(r: Registry, homes: map<Socket, Home>, home: Home, ws: Socket)
    requires Inv(r, homes) && ws !in homes
    ensures !Lists(r.byScan, home.scan, ws) && !Lists(r.byUser, home.user, ws)
  {
  }

  lemma DisconnectKeepsInv(r: Registry, homes: map<Socket, Home>, ws: Socket)
    requires Inv(r, homes) && ws in homes
    ensures Inv(Disconnected(r, homes[ws], ws), homes)
  {
    hide Remove, Filed;
    RemoveFiles(r.byScan, Scans(homes), homes[ws].scan, ws);
    RemoveFiles(r.byUser, Users(homes), homes[ws].user, ws);
  }

  /** Disconnecting a socket that was already dropped, or already disconnected, changes nothing. */
  lemma DisconnectAfterDrop(r: Registry, homes: map<Socket, Home>, ws: Socket)
    requires Inv(r, homes) && ws in homes
    ensures var dropped := Dropped(r, homes[ws].scan, ws);
            Disconnected(dropped, homes[ws], ws) == dropped && Dropped(dropped, homes[ws].scan, ws) == dropped
  {
    DroppedIsDisconnected(r, homes, ws);
    DisconnectKeepsInv(r, homes, ws);
    hide Remove, Filed, Dropped;
    var dropped := Disconnected(r, homes[ws], ws);
    RemoveFiles(r.byScan, Scans(homes), homes[ws].scan, ws);
    RemoveFiles(r.byUser, Users(homes), homes[ws].user, ws);
    RemoveFiles(dropped.byScan, Scans(homes), homes[ws].scan, ws);
    RemoveFiles(dropped.byUser, Users(homes), homes[ws].user, ws);
    DroppedIsDisconnected(dropped, homes, ws);
  }

  // ----- Both indexes as multisets -----

  /** All the sockets an index lists, with how often. */
  ghost function Flat<K(!new)>(m: map<K, seq<Socket>>): multiset<Socket>
    decreases |m|
  {
    if m == map[] then multiset{}
    else
      var k :| k in m;
      multiset(m[k]) + Flat(m - {k})
  }

  lemma {:induction false} FlatCounts<K(!new)>(m: map<K, seq<Socket>>, keyOf: map<Socket, K>, ws: Socket)
    requires Filed(m, keyOf)
    ensures Flat(m)[ws] == if ws in keyOf && Lists(m, keyOf[ws], ws) then 1 else 0
    decreases |m|
  {
    if m != map[] {
      var k :| k in m && Flat(m) == multiset(m[k]) + Flat(m - {k});
      FiledWithout(m, keyOf, k);
      FlatCounts(m - {k}, keyOf, ws);
      CountOnce(m[k], ws);
      assert Lists(m, k, ws) <==> ws in m[k];
    }
  }

  lemma {:induction false} CountOnce(s: seq<Socket>, ws: Socket)
    requires NoRepeats(s)
    ensures multiset(s)[ws] == if ws in s then 1 else 0
  {
    if s != [] {
      CountOnce(s[1..], ws);
      assert s == [s[0]] + s[1..];
    }
  }

  lemma IndexesAgree(r: Registry, homes: map<Socket, Home>)
    requires Inv(r, homes)
    ensures Flat(r.byScan) == Flat(r.byUser)
    ensures forall k | k in r.byScan :: r.byScan[k] != []
    ensures forall u | u in r.byUser :: r.byUser[u] != []
  {
    forall ws ensures Flat(r.byScan)[ws] == Flat(r.byUser)[ws] {
      FlatCounts(r.byScan, Scans(homes), ws);
      FlatCounts(r.byUser, Users(homes), ws);
    }
  }

  // ----- Runs -----

  /**
   Disconnects and drops name the triple the socket was connected with, as the endpoint does; both
   may come late, any number of times, and in between other events, since a broadcast awaits its sends.
   */
  datatype Event = Connect(home: Home, ws: Socket) | Disconnect(ws: Socket) | DropDead(ws: Socket)

  ghost predicate EventOk(homes: map<Socket, Home>, e: Event) {
    if e.Connect? then e.ws !in homes else e.ws in homes
  }

  ghost function Next(r: Registry, homes: map<Socket, Home>, e: Event): (Registry, map<Socket, Home>)
    requires EventOk(homes, e)
  {
    match e
    case Connect(home, ws) => (Connected(r, home, ws), homes[ws := home])
    case Disconnect(ws) => (Disconnected(r, homes[ws], ws), homes)
    case DropDead(ws) => (Dropped(r, homes[ws].scan, ws), homes)
  }

  ghost predicate RunOk(r: Registry, homes: map<Socket, Home>, events: seq<Event>)
    decreases |events|
  {
    events != [] ==>
      EventOk(homes, events[0])
      && RunOk(Next(r, homes, events[0]).0, Next(r, homes, events[0]).1, events[1..])
  }

  ghost function Run(r: Registry, homes: map<Socket, Home>, events: seq<Event>): (Registry, map<Socket, Home>)
    requires RunOk(r, homes, events)
    decreases |events|
  {
    if events == [] then (r, homes)
    else Run(Next(r, homes, events[0]).0, Next(r, homes, events[0]).1, events[1..])
  }

  lemma {:induction false} RunKeepsInv(r: Registry, homes: map<Socket, Home>, events: seq<Event>)
    requires Inv(r, homes) && RunOk(r, homes, events)
    ensures Inv(Run(r, homes, events).0, Run(r, homes, events).1)
    decreases |events|
  {
    hide Inv, Dropped, Disconnected, Connected;
    if events != [] {
      var e := events[0];
      match e {
        case Connect(home, ws) => ConnectKeepsInv(r, homes, home, ws);
        case Disconnect(ws) => DisconnectKeepsInv(r, homes, ws);
        case DropDead(ws) =>
          DroppedIsDisconnected(r, homes, ws);
          DisconnectKeepsInv(r, homes, ws);
      }
      RunKeepsInv(Next(r, homes, e).0, Next(r, homes, e).1, events[1..]);
    }
  }

  /** Main result, over every run: both indexes hold the same multiset of sockets and neither keeps an empty list. */
  lemma EveryRunAgrees(events: seq<Event>)
    requires RunOk(Registry(map[], map[]), map[], events)
    ensures var r := Run(Registry(map[], map[]), map[], events).0;
            && Flat(r.byScan) == Flat(r.byUser)
            && (forall k | k in r.byScan :: r.byScan[k] != []) && (forall u | u in r.byUser :: r.byUser[u] != [])
  {
    RunKeepsInv(Registry(map[], map[]), map[], events);
    var end := Run(Registry(map[], map[]), map[], events);
    IndexesAgree(end.0, end.1);
  }

  // ----- The manager in place -----

  /** Search the lists one by one, in whatever order, and stop at the first that has the socket. */
  method FindKey<K(==)>(m: map<K, seq<Socket>>, ws: Socket) returns (key: Option<K>)
    ensures key.Some? ==> Lists(m, key.value, ws)
    ensures key.None? ==> forall k | k in m :: !Lists(m, k, ws)
  {
    var todo := m.Keys;
    while todo != {}
      invariant todo <= m.Keys && forall k | k in m && k !in todo :: !Lists(m, k, ws)
      decreases |todo|
    {
      var k :| k in todo;
      if ws in m[k] {
        return Some(k);
      }
      todo := todo - {k};
    }
    key := None;
  }

  lemma SetDefaultThenAppend<K>(m: map<K, seq<Socket>>, key: K, ws: Socket)
    ensures var some := if key in m then m else m[key := []];
            some[key := some[key] + [ws]] == Append(m, key, ws)
  {
  }

  class ConnectionManager {
    var connections: map<ScanId, seq<Socket>>
    var userConnections: map<UserId, seq<Socket>>
    ghost var homes: map<Socket, Home>

    ghost function View(): Registry
      reads this
    {
      Registry(connections, userConnections)
    }

    ghost predicate Valid()
      reads this
    {
      Inv(View(), homes)
    }

    constructor ()
      ensures Valid() && View() == Registry(map[], map[]) && homes == map[]
    {
      connections, userConnections, homes := map[], map[], map[];
    }

    method ConnectSocket(scanId: ScanId, userId: UserId, ws: Socket)
      requires Valid() && ws !in homes
      modifies this
      ensures Valid() && homes == old(homes)[ws := Home(scanId, userId)]
      ensures View() == Connected(old(View()), Home(scanId, userId), ws)
    {
      hide Inv, Append;
      ConnectKeepsInv(View(), homes, Home(scanId, userId), ws);
      SetDefaultThenAppend(connections, scanId, ws);
      SetDefaultThenAppend(userConnections, userId, ws);
      if scanId !in connections {
        connections := connections[scanId := []];
      }
      connections := connections[scanId := connections[scanId] + [ws]];
      if userId !in userConnections {
        userConnections := userConnections[userId := []];
      }
      userConnections := userConnections[userId := userConnections[userId] + [ws]];
      homes := homes[ws := Home(scanId, userId)];
    }

    method DisconnectSocket(scanId: ScanId, userId: UserId, ws: Socket)
      requires Valid() && ws in homes && homes[ws] == Home(scanId, userId)
      modifies this
      ensures Valid() && homes == old(homes)
      ensures View() == Disconnected(old(View()), Home(scanId, userId), ws)
    {
      hide Inv, RemoveFirst;
      DisconnectKeepsInv(View(), homes, ws);
      if scanId in connections {
        var left := RemoveFirst(connections[scanId], ws);
        connections := if left == [] then connections - {scanId} else connections[scanId := left];
      }
      if userId in userConnections {
        var left := RemoveFirst(userConnections[userId], ws);
        userConnections := if left == [] then userConnections - {userId} else userConnections[userId := left];
      }
    }

    /** `disconnect_dead`: the user lists are searched one by one and the search stops at the first hit. */
    method DisconnectDead(scanId: ScanId, ws: Socket)
      requires Valid() && ws in homes && homes[ws].scan == scanId
      modifies this
      ensures Valid() && homes == old(homes)
      ensures View() == Disconnected(old(View()), homes[ws], ws)
    {
      hide Inv, RemoveFirst;
      DisconnectKeepsInv(View(), homes, ws);
      ListedAtHome(View(), homes, ws);
      if scanId in connections {
        var left := RemoveFirst(connections[scanId], ws);
        connections := if left == [] then connections - {scanId} else connections[scanId := left];
      }
      assert connections == Remove(old(connections), scanId, ws);
      var user := FindKey(userConnections, ws);
      assert user.Some? ==> Lists(userConnections, user.value, ws);
      assert user.Some? ==> user.value == homes[ws].user;
      assert user.None? ==> !Lists(userConnections, homes[ws].user, ws);
      if user.Some? {
        var left := RemoveFirst(userConnections[user.value], ws);
        userConnections := if left == [] then userConnections - {user.value} else userConnections[user.value := left];
      }
      assert userConnections == Remove(old(userConnections), homes[ws].user, ws);
    }

    /** The copy of the scan's list that `broadcast` starts from; what it says of the sockets stays true, since homes are only ever added. */
    method StartBroadcast(scanId: ScanId) returns (conns: seq<Socket>)
      requires Valid()
      ensures conns == ListOf(connections, scanId) && NoRepeats(conns)
      ensures forall x :: x in conns <==> Lists(connections, scanId, x)
      ensures forall x | x in conns :: x in homes && homes[x].scan == scanId
    {
      hide Inv;
      conns := if scanId in connections then connections[scanId] else [];
      ListedHere(View(), homes, scanId);
    }

    /** The end of `broadcast`, whatever happened during its sends: the sockets whose send raised are dropped one by one. */
    method FinishBroadcast(scanId: ScanId, dead: seq<Socket>)
      requires Valid() && forall x | x in dead :: x in homes && homes[x].scan == scanId
      modifies this
      ensures Valid() && homes == old(homes)
      ensures View() == DropEach(old(View()), homes, dead)
    {
      hide Inv, Disconnected;
      for i := 0 to |dead|
        invariant Valid() && homes == old(homes)
        invariant View() == DropEach(old(View()), homes, dead[..i])
      {
        assert dead[..i + 1][..i] == dead[..i];
        DisconnectDead(scanId, dead[i]);
      }
      assert dead[..|dead|] == dead;
    }

    /** A whole `broadcast` with nothing else in between. */
    method Broadcast(scanId: ScanId, failing: set<Socket>)
      requires Valid()
      modifies this
      ensures Valid() && homes == old(homes)
      ensures View() == DropEach(old(View()), homes, Failing(ListOf(old(connections), scanId), failing))
    {
      hide Inv, Disconnected, ListOf, DropEach;
      var conns := StartBroadcast(scanId);
      var dead: seq<Socket> := [];
      for i := 0 to |conns|
        invariant View() == old(View()) && homes == old(homes)
        invariant dead == Failing(conns[..i], failing)
      {
        assert conns[..i + 1][..i] == conns[..i];
        if conns[i] in failing {
          dead := dead + [conns[i]];
        }
      }
      assert conns[..|conns|] == conns;
      FailingMembers(conns, failing);
      FinishBroadcast(scanId, dead);
    }
  }

  function ListOf(m: map<ScanId, seq<Socket>>, key: ScanId): seq<Socket> {
    if key in m then m[key] else []
  }

  /** The sockets of a list that fail, in order. */
  function Failing(conns: seq<Socket>, failing: set<Socket>): seq<Socket> {
    if conns == [] then []
    else Failing(conns[..|conns| - 1], failing) + if conns[|conns| - 1] in failing then [conns[|conns| - 1]] else []
  }

  lemma {:induction false} FailingMembers(conns: seq<Socket>, failing: set<Socket>)
    ensures forall x :: x in Failing(conns, failing) <==> x in conns && x in failing
  {
    if conns != [] {
      FailingMembers(conns[..|conns| - 1], failing);
      assert conns == conns[..|conns| - 1] + [conns[|conns| - 1]];
    }
  }

  lemma ListedHere(r: Registry, homes: map<Socket, Home>, scan: ScanId)
    requires Inv(r, homes)
    ensures forall x | x in ListOf(r.byScan, scan) :: x in homes && homes[x].scan == scan
    ensures NoRepeats(ListOf(r.byScan, scan)) && forall x :: x in ListOf(r.byScan, scan) <==> Lists(r.byScan, scan, x)
  {
    forall x | x in ListOf(r.byScan, scan) ensures x in homes && homes[x].scan == scan {
      assert Lists(r.byScan, scan, x);
    }
  }

  ghost function DropEach(r: Registry, homes: map<Socket, Home>, dead: seq<Socket>): Registry {
    if dead == [] then r
    else
      var before, last := DropEach(r, homes, dead[..|dead| - 1]), dead[|dead| - 1];
      if last in homes then Disconnected(before, homes[last], last) else before
  }

  /** After a broadcast exactly the failing sockets of that scan are gone, from both indexes. */
  lemma {:induction false} DropEachEffect(r: Registry, homes: map<Socket, Home>, dead: seq<Socket>)
    requires Inv(r, homes) && forall x | x in dead :: x in homes
    ensures Inv(DropEach(r, homes, dead), homes)
    ensures forall s, x :: Lists(DropEach(r, homes, dead).byScan, s, x) <==> Lists(r.byScan, s, x) && x !in dead
    ensures forall u, x :: Lists(DropEach(r, homes, dead).byUser, u, x) <==> Lists(r.byUser, u, x) && x !in dead
  {
    hide Remove, Filed;
    if dead != [] {
      var init, last := dead[..|dead| - 1], dead[|dead| - 1];
      assert dead == init + [last];
      DropEachEffect(r, homes, init);
      var mid := DropEach(r, homes, init);
      DisconnectKeepsInv(mid, homes, last);
      RemoveFiles(mid.byScan, Scans(homes), homes[last].scan, last);
      RemoveFiles(mid.byUser, Users(homes), homes[last].user, last);
      ListedAtHome(mid, homes, last);
    }
  }

  lemma ListedAtHome(r: Registry, homes: map<Socket, Home>, x: Socket)
    requires Inv(r, homes) && x in homes
    ensures forall s :: Lists(r.byScan, s, x) ==> s == homes[x].scan
    ensures forall u :: Lists(r.byUser, u, x) ==> u == homes[x].user
    ensures !Lists(r.byUser, homes[x].user, x) ==> Remove(r.byUser, homes[x].user, x) == r.byUser
  {
    RemoveFiles(r.byUser, Users(homes), homes[x].user, x);
  }
}
