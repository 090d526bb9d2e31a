/**
 web/auth.py and web/app.py: session tokens carrying a version counter.

 Login mints, the sliding-window middleware re-mints a cookie it verified in the
 same request, and logout bumps the user's token_version. Each request is split
 at its awaits: what it read from the users row is carried in `pending` until it
 mints or commits. A token is its claims; only issued tokens carry a good signature.
 */
module Sessions {
  import opened Prelude

  type User = nat
  type Request = nat

  datatype Account = Account(version: nat, active: bool)

  /** The claims "sub", "tv" and "exp"; tokens minted before the column existed carry no "tv". */
  datatype Token = Token(user: User, tv: Option<nat>, exp: int)

  /** Where an issued token comes from: a login that read the row at a step, or an earlier issued token. */
  datatype Origin = FromLogin(readAt: nat) | FromCookie(parent: nat)

  datatype Issue = Issue(token: Token, origin: Origin)

  datatype Pending =
    | LoginRead(user: User, version: nat, readAt: nat)
    | CookieVerified(issue: nat, user: User, version: nat)
    | LogoutRead(user: User, version: nat)

  /**
   `held[u]` is every version the row of u has had, `bumpedAt[u]` the step of u's latest
   logout commit, and `exposed` the users whose latest logout wrote a version that one of
   their tokens or pending reads already carried.
   */
  datatype State = State(accounts: seq<Account>, issued: seq<Issue>, pending: map<Request, Pending>,
                         clock: int, step: nat, bumpedAt: seq<nat>, held: seq<set<nat>>, exposed: set<User>)

  datatype Event =
    | Tick(seconds: nat)
    | LoginSelect(r: Request, user: User)
    | LoginMint(r: Request, minutes: nat)
    | Verify(r: Request, issue: nat)
    | Remint(r: Request, minutes: nat)
    | LogoutSelect(r: Request, issue: nat)
    | LogoutCommit(r: Request)
    | SetActive(user: User, active: bool)

  /** `_token_version_claim`. */
  function TokenVersionClaim(t: Token): nat {
    if t.tv.Some? then t.tv.value else 0
  }

  /** `create_access_token`. */
  function CreateAccessToken(user: User, version: nat, clock: int, minutes: nat): Token {
    Token(user, Some(version), clock + 60 * minutes)
  }

  predicate Decodes(t: Token, clock: int) {
    clock < t.exp
  }

  /** `_load_user_from_bearer`: signature good (the token was issued), not expired, user active, version unchanged. */
  predicate Accepts(s: State, t: Token) {
    && Decodes(t, s.clock)
    && t.user < |s.accounts| && s.accounts[t.user].active
    && TokenVersionClaim(t) == s.accounts[t.user].version
  }

  // ----- Steps -----

  predicate Enabled(s: State, e: Event) {
    match e
    case Tick(_) => true
    case LoginSelect(r, user) => r !in s.pending && user < |s.accounts| && s.accounts[user].active
    case LoginMint(r, _) => r in s.pending && s.pending[r].LoginRead?
    case Verify(r, k) => r !in s.pending && k < |s.issued| && Accepts(s, s.issued[k].token)
    case Remint(r, _) => r in s.pending && s.pending[r].CookieVerified?
    case LogoutSelect(r, k) => // the version claim is not looked at here
      r !in s.pending && k < |s.issued| && Decodes(s.issued[k].token, s.clock) && s.issued[k].token.user < |s.accounts|
    case LogoutCommit(r) =>
      r in s.pending && s.pending[r].LogoutRead?
      && s.pending[r].user < |s.accounts| && |s.bumpedAt| == |s.held| == |s.accounts|
    case SetActive(user, _) => user < |s.accounts|
  }

  /** What a logout that read `version` writes. */
  function Bump(s: State, user: User, version: nat): State
    requires user < |s.accounts| && |s.bumpedAt| == |s.held| == |s.accounts|
  {
    s.(accounts := s.accounts[user := s.accounts[user].(version := version + 1)],
       bumpedAt := s.bumpedAt[user := s.step],
       held := s.held[user := s.held[user] + {version + 1}],
       exposed := if Carries(s, user, version + 1) then s.exposed + {user} else s.exposed - {user})
  }

  /** An unexpired token of the user, or a request on its way to minting one, has this version. */
  predicate Carries(s: State, user: User, version: nat) {
    || (exists k: nat | k < |s.issued| ::
          var t := s.issued[k].token; t.user == user && TokenVersionClaim(t) == version && Decodes(t, s.clock))
    || (exists r | r in s.pending ::
          !s.pending[r].LogoutRead? && s.pending[r].user == user && s.pending[r].version == version)
  }

  function Effect(s: State, e: Event): State
    requires Enabled(s, e)
  {
    match e
    case Tick(seconds) => s.(clock := s.clock + seconds)
    case LoginSelect(r, user) => s.(pending := s.pending[r := LoginRead(user, s.accounts[user].version, s.step)])
    case LoginMint(r, minutes) =>
      var p := s.pending[r];
      s.(issued := s.issued + [Issue(CreateAccessToken(p.user, p.version, s.clock, minutes), FromLogin(p.readAt))],
         pending := s.pending - {r})
    case Verify(r, k) =>
      var user := s.issued[k].token.user;
      s.(pending := s.pending[r := CookieVerified(k, user, s.accounts[user].version)])
    case Remint(r, minutes) =>
      var p := s.pending[r];
      s.(issued := s.issued + [Issue(CreateAccessToken(p.user, p.version, s.clock, minutes), FromCookie(p.issue))],
         pending := s.pending - {r})
    case LogoutSelect(r, k) =>
      var user := s.issued[k].token.user;
      s.(pending := s.pending[r := LogoutRead(user, s.accounts[user].version)])
    case LogoutCommit(r) => Bump(s, s.pending[r].user, s.pending[r].version).(pending := s.pending - {r})
    case SetActive(user, active) => s.(accounts := s.accounts[user := s.accounts[user].(active := active)])
  }

  function Next(s: State, e: Event): State
    requires Enabled(s, e)
  {
    Effect(s, e).(step := s.step + 1)
  }

  /** Every account starts at version 0; tokens from before the column existed may be around. */
  ghost predicate IsStart(s: State) {
    && (forall a | a in s.accounts :: a.version == 0)
    && (forall i | i in s.issued :: i.token.tv.None? && i.token.user < |s.accounts| && i.origin == FromLogin(1))
    && s.pending == map[] && s.step == 2 && s.exposed == {}
    && |s.bumpedAt| == |s.held| == |s.accounts|
    && forall u: User | u < |s.accounts| :: s.bumpedAt[u] == 0 && s.held[u] == {0}
  }

  ghost predicate RunOk(s: State, events: seq<Event>)
    decreases |events|
  {
    events != [] ==> Enabled(s, events[0]) && RunOk(Next(s, events[0]), events[1..])
  }

  function Run(s: State, events: seq<Event>): State
    requires RunOk(s, events)
    decreases |events|
  {
    if events == [] then s else Run(Next(s, events[0]), events[1..])
  }

  // ----- Where a token comes from -----

  ghost predicate ChainsBack(issued: seq<Issue>) {
    forall k: nat | k < |issued| && issued[k].origin.FromCookie? ::
      var p := issued[k].origin.parent;
      && p < k && issued[p].token.user == issued[k].token.user
      && TokenVersionClaim(issued[p].token) == TokenVersionClaim(issued[k].token)
  }

  /** The step at which the login at the root of token k's chain read the users row. */
  ghost function LoginReadAt(issued: seq<Issue>, k: nat): nat
    requires ChainsBack(issued) && k < |issued|
    decreases k
  {
    match issued[k].origin
    case FromLogin(readAt) => readAt
    case FromCookie(p) => LoginReadAt(issued, p)
  }

  lemma {:induction false} LoginReadAtStable(issued: seq<Issue>, more: seq<Issue>, k: nat)
    requires ChainsBack(issued) && ChainsBack(issued + more) && k < |issued|
    ensures LoginReadAt(issued + more, k) == LoginReadAt(issued, k)
    decreases k
  {
    assert (issued + more)[k] == issued[k];
    if issued[k].origin.FromCookie? {
      LoginReadAtStable(issued, more, issued[k].origin.parent);
    }
  }

  // ----- The invariant -----

  ghost predicate Shape(s: State) {
    && |s.bumpedAt| == |s.held| == |s.accounts|
    && ChainsBack(s.issued)
    && (forall i | i in s.issued :: i.token.user < |s.accounts|)
    && (forall r | r in s.pending :: s.pending[r].user < |s.accounts|)
    && (forall r | r in s.pending && s.pending[r].CookieVerified? ::
          var p := s.pending[r];
          p.issue < |s.issued| && s.issued[p.issue].token.user == p.user
          && TokenVersionClaim(s.issued[p.issue].token) == p.version)
    && (forall u: User | u < |s.accounts| :: s.accounts[u].version in s.held[u] && s.bumpedAt[u] < s.step)
    && (forall r | r in s.pending && s.pending[r].LogoutRead? :: s.pending[r].version in s.held[s.pending[r].user])
  }

  /** The version of a login that read the row at step `readAt`: one the row has had, and the current one if no logout came since. */
  ghost predicate Dated(s: State, user: User, version: nat, readAt: nat)
    requires user < |s.accounts| == |s.bumpedAt| == |s.held|
  {
    readAt < s.step && version in s.held[user] && (readAt > s.bumpedAt[user] ==> version == s.accounts[user].version)
  }

  /** Holds of every user, however the logouts interleave. */
  ghost predicate AllDated(s: State)
    requires Shape(s)
  {
    && (forall k: nat | k < |s.issued| ::
          s.issued[k].token.user < |s.accounts|
          && Dated(s, s.issued[k].token.user, TokenVersionClaim(s.issued[k].token), LoginReadAt(s.issued, k)))
    && (forall r | r in s.pending && s.pending[r].LoginRead? ::
          Dated(s, s.pending[r].user, s.pending[r].version, s.pending[r].readAt))
  }

  /** Nothing of the user that goes back behind the latest logout can be accepted any more. */
  ghost predicate Settled(s: State, u: User)
    requires Shape(s) && u < |s.accounts|
  {
    && (forall k: nat | k < |s.issued| && s.issued[k].token.user == u && LoginReadAt(s.issued, k) <= s.bumpedAt[u] ::
          TokenVersionClaim(s.issued[k].token) != s.accounts[u].version || !Decodes(s.issued[k].token, s.clock))
    && (forall r | r in s.pending && s.pending[r].LoginRead? && s.pending[r].user == u ::
          s.pending[r].readAt <= s.bumpedAt[u] ==> s.pending[r].version != s.accounts[u].version)
    && (forall r | r in s.pending && s.pending[r].CookieVerified? && s.pending[r].user == u ::
          LoginReadAt(s.issued, s.pending[r].issue) <= s.bumpedAt[u] ==> s.pending[r].version != s.accounts[u].version)
  }

  ghost predicate Inv(s: State) {
    Shape(s) && AllDated(s) && forall u: User | u < |s.accounts| && u !in s.exposed :: Settled(s, u)
  }

  lemma StepKeepsShape(s: State, e: Event)
    requires Shape(s) && Enabled(s, e)
    ensures Shape(Next(s, e))
  {
  }

  /** A step adds at most one token, whose chain goes back to the login its request read from. */
  lemma MintedFrom(s: State, e: Event, k: nat)
    requires Shape(s) && Enabled(s, e) && k < |Next(s, e).issued|
    ensures ChainsBack(Next(s, e).issued)
    ensures k < |s.issued| ==> Next(s, e).issued[k] == s.issued[k]
                               && LoginReadAt(Next(s, e).issued, k) == LoginReadAt(s.issued, k)
    ensures k >= |s.issued| ==>
              && k == |s.issued| && (e.LoginMint? || e.Remint?)
              && var p := s.pending[e.r];
                 && Next(s, e).issued[k].token.user == p.user
                 && TokenVersionClaim(Next(s, e).issued[k].token) == p.version
                 && LoginReadAt(Next(s, e).issued, k) == if e.LoginMint? then p.readAt else LoginReadAt(s.issued, p.issue)
  {
    StepKeepsShape(s, e);
    var next := Next(s, e);
    var added := next.issued[|s.issued|..];
    assert next.issued == s.issued + added;
    if k < |s.issued| {
      LoginReadAtStable(s.issued, added, k);
    } else if e.Remint? {
      LoginReadAtStable(s.issued, added, s.pending[e.r].issue);
    }
  }

  lemma StepKeepsDates(s: State, e: Event)
    requires Shape(s) && AllDated(s) && Enabled(s, e)
    ensures Shape(Next(s, e)) && AllDated(Next(s, e))
  {
    StepKeepsShape(s, e);
    var next := Next(s, e);
    forall k: nat | k < |next.issued|
      ensures next.issued[k].token.user < |next.accounts|
      ensures Dated(next, next.issued[k].token.user, TokenVersionClaim(next.issued[k].token), LoginReadAt(next.issued, k))
    {
      MintedFrom(s, e, k);
      if k >= |s.issued| && e.Remint? {
        var p := s.pending[e.r];
        assert Dated(s, p.user, TokenVersionClaim(s.issued[p.issue].token), LoginReadAt(s.issued, p.issue));
      }
    }
  }

  /** A logout that writes a version nobody carries settles its user, whatever happened before. */
  lemma CommitSettles(s: State, r: Request)
    requires Shape(s) && AllDated(s) && Enabled(s, LogoutCommit(r))
    requires !Carries(s, s.pending[r].user, s.pending[r].version + 1)
    ensures Shape(Next(s, LogoutCommit(r))) && Settled(Next(s, LogoutCommit(r)), s.pending[r].user)
  {
    StepKeepsShape(s, LogoutCommit(r));
  }

  lemma StepKeepsSettled(s: State, e: Event, u: User)
    requires Shape(s) && Enabled(s, e) && u < |s.accounts| && Settled(s, u)
    requires !(e.LogoutCommit? && s.pending[e.r].user == u)
    ensures Shape(Next(s, e)) && Settled(Next(s, e), u)
  {
    StepKeepsShape(s, e);
    hide Carries;
    var next := Next(s, e);
    forall k: nat | k < |next.issued| && next.issued[k].token.user == u && LoginReadAt(next.issued, k) <= next.bumpedAt[u]
      ensures TokenVersionClaim(next.issued[k].token) != next.accounts[u].version || !Decodes(next.issued[k].token, next.clock)
    {
      MintedFrom(s, e, k);
    }
    forall r | r in next.pending && next.pending[r].CookieVerified? && next.pending[r].user == u
      ensures LoginReadAt(next.issued, next.pending[r].issue) <= next.bumpedAt[u] ==> next.pending[r].version != next.accounts[u].version
    {
      MintedFrom(s, e, next.pending[r].issue);
    }
  }

  lemma StepKeepsInv(s: State, e: Event)
    requires Inv(s) && Enabled(s, e)
    ensures Inv(Next(s, e))
  {
    hide Settled, AllDated, Shape, Carries;
    StepKeepsDates(s, e);
    var next := Next(s, e);
    forall u: User | u < |next.accounts| && u !in next.exposed ensures Settled(next, u) {
      if e.LogoutCommit? && s.pending[e.r].user == u {
        CommitSettles(s, e.r);
      } else {
        StepKeepsSettled(s, e, u);
      }
    }
  }

  lemma {:induction false} RunKeepsInv(s: State, events: seq<Event>)
    requires Inv(s) && RunOk(s, events)
    ensures Inv(Run(s, events))
    decreases |events|
  {
    hide Inv;
    if events != [] {
      StepKeepsInv(s, events[0]);
      RunKeepsInv(Next(s, events[0]), events[1..]);
    }
  }

  lemma StartInv(s: State)
    requires IsStart(s)
    ensures Inv(s)
  {
    forall k: nat | k < |s.issued| ensures s.issued[k].origin == FromLogin(1) && s.issued[k].token.tv.None? && s.issued[k].token.user < |s.accounts| {
      assert s.issued[k] in s.issued;
    }
    forall u: User | u < |s.accounts| ensures s.accounts[u].version == 0 {
      assert s.accounts[u] in s.accounts;
    }
  }

  /**
   Main result, over every interleaving: an unexpired token of an active user, presented as a
   cookie or as a bearer token, is accepted if the login at the root of its chain of re-mints
   read the user's version after that user's latest logout, and only then unless that logout
   wrote a version that was already carried.
   */
  lemma AcceptedExactlyIfLoggedInSinceLogout(start: State, events: seq<Event>, k: nat)
    requires IsStart(start) && RunOk(start, events) && k < |Run(start, events).issued|
    ensures var s := Run(start, events);
            var t := s.issued[k].token;
            Inv(s) && t.user < |s.accounts| &&
            var usable := Decodes(t, s.clock) && s.accounts[t.user].active;
            var sinceLogout := LoginReadAt(s.issued, k) > s.bumpedAt[t.user];
            && (usable && sinceLogout ==> Accepts(s, t))
            && (t.user !in s.exposed ==> (Accepts(s, t) <==> usable && sinceLogout))
  {
    StartInv(start);
    RunKeepsInv(start, events);
    var s := Run(start, events);
    assert s.issued[k] in s.issued;
    assert Dated(s, s.issued[k].token.user, TokenVersionClaim(s.issued[k].token), LoginReadAt(s.issued, k));
    if s.issued[k].token.user !in s.exposed {
      assert Settled(s, s.issued[k].token.user);
    }
  }

  // ----- How long a token lives -----

  /** A minted token decodes for exactly the minutes it was minted for. */
  lemma MintedDecodesUntil(s: State, e: Event, seconds: int)
    requires Shape(s) && Enabled(s, e) && (e.LoginMint? || e.Remint?)
    ensures |Next(s, e).issued| == |s.issued| + 1
    ensures Decodes(Next(s, e).issued[|s.issued|].token, s.clock + seconds) <==> seconds < 60 * e.minutes
  {
  }

  /**
   Over every run: the token minted in a step is accepted for exactly its minutes, as long as its user
   is active and has not logged out since the login behind it.
   */
  lemma AcceptedForItsMinutes(s: State, e: Event, events: seq<Event>)
    requires Inv(s) && Enabled(s, e) && (e.LoginMint? || e.Remint?) && RunOk(Next(s, e), events)
    ensures var end, k := Run(Next(s, e), events), |s.issued|;
            && Inv(end) && k < |end.issued| && end.issued[k] == Next(s, e).issued[k] && end.issued[k].token.user < |end.accounts|
            && var t := end.issued[k].token;
               end.accounts[t.user].active && LoginReadAt(end.issued, k) > end.bumpedAt[t.user] ==>
                 (Accepts(end, t) <==> end.clock - s.clock < 60 * e.minutes)
  {
    hide Settled, Carries;
    var end, k := Run(Next(s, e), events), |s.issued|;
    StepKeepsInv(s, e);
    RunKeepsInv(Next(s, e), events);
    IssuedStay(Next(s, e), events, k);
    MintedDecodesUntil(s, e, end.clock - s.clock);
    assert Dated(end, end.issued[k].token.user, TokenVersionClaim(end.issued[k].token), LoginReadAt(end.issued, k));
  }

  /** The sliding window: a request with an accepted cookie is verified, and its re-mint is accepted for its minutes from now. */
  lemma SlidingRemint(s: State, r: Request, k: nat, minutes: nat, seconds: nat)
    requires Shape(s) && k < |s.issued| && Accepts(s, s.issued[k].token) && r !in s.pending
    ensures Enabled(s, Verify(r, k)) && Enabled(Next(s, Verify(r, k)), Remint(r, minutes))
    ensures var last := Next(Next(Next(s, Verify(r, k)), Remint(r, minutes)), Tick(seconds));
            && |last.issued| == |s.issued| + 1 && last.pending == s.pending
            && (Accepts(last, last.issued[|s.issued|].token) <==> seconds < 60 * minutes)
            && last.issued[|s.issued|].origin == FromCookie(k)
  {
  }

  // ----- What one logout revokes -----

  /** No version above this one has been given out. */
  predicate IsHighest(held: set<nat>, version: nat) {
    forall w | w in held :: w <= version
  }

  /** Everything a user carries is a version the row has had, so the successor of the highest is carried by nobody. */
  lemma HighestIsNotCarried(s: State, u: User, version: nat)
    requires Shape(s) && AllDated(s) && u < |s.accounts| && IsHighest(s.held[u], version)
    ensures !Carries(s, u, version + 1)
  {
    forall k: nat | k < |s.issued| ensures TokenVersionClaim(s.issued[k].token) in s.held[s.issued[k].token.user] {
      assert Dated(s, s.issued[k].token.user, TokenVersionClaim(s.issued[k].token), LoginReadAt(s.issued, k));
    }
  }

  /** Some token whose login read the row before step `before` is accepted. */
  ghost predicate OldTokenAccepted(s: State, u: User, before: nat) {
    ChainsBack(s.issued)
    && exists k: nat | k < |s.issued| ::
         s.issued[k].token.user == u && LoginReadAt(s.issued, k) < before && Accepts(s, s.issued[k].token)
  }

  ghost predicate NoLogoutOf(s: State, u: User, events: seq<Event>)
    requires RunOk(s, events)
    decreases |events|
  {
    events != [] ==>
      && !(events[0].LogoutCommit? && s.pending[events[0].r].user == u)
      && NoLogoutOf(Next(s, events[0]), u, events[1..])
  }

  /** Until the user's next logout, whatever else happens, no such token is ever accepted: none issued so far and none minted later. */
  ghost predicate Revoked(s: State, u: User, before: nat) {
    forall events | RunOk(s, events) && NoLogoutOf(s, u, events) :: !OldTokenAccepted(Run(s, events), u, before)
  }

  lemma {:induction false} QuietRun(s: State, u: User, events: seq<Event>)
    requires Shape(s) && RunOk(s, events) && NoLogoutOf(s, u, events) && u < |s.accounts|
    ensures var end := Run(s, events);
            |end.bumpedAt| == |end.accounts| == |s.accounts| && end.bumpedAt[u] == s.bumpedAt[u] && (u in end.exposed <==> u in s.exposed)
    decreases |events|
  {
    if events != [] {
      StepKeepsShape(s, events[0]);
      hide Shape;
      QuietRun(Next(s, events[0]), u, events[1..]);
    }
  }

  lemma SettledAcceptsNothingOld(s: State, u: User)
    requires Shape(s) && u < |s.accounts| && Settled(s, u)
    ensures !OldTokenAccepted(s, u, s.bumpedAt[u] + 1)
  {
  }

  lemma UncarriedRevokes(s: State, r: Request)
    requires Inv(s) && Enabled(s, LogoutCommit(r)) && !Carries(s, s.pending[r].user, s.pending[r].version + 1)
    ensures Revoked(Next(s, LogoutCommit(r)), s.pending[r].user, s.step)
  {
    var u, after := s.pending[r].user, Next(s, LogoutCommit(r));
    StepKeepsInv(s, LogoutCommit(r));
    hide Carries, Settled, AllDated, RunOk;
    forall events | RunOk(after, events) && NoLogoutOf(after, u, events) ensures !OldTokenAccepted(Run(after, events), u, s.step) {
      RunKeepsInv(after, events);
      QuietRun(after, u, events);
      SettledAcceptsNothingOld(Run(after, events), u);
    }
  }

  lemma RunNothing(s: State, u: User)
    ensures RunOk(s, []) && NoLogoutOf(s, u, []) && Run(s, []) == s
  {
  }

  lemma Unroll(s: State, u: User, e: Event, rest: seq<Event>)
    requires Enabled(s, e) && !e.LogoutCommit? && RunOk(Next(s, e), rest) && NoLogoutOf(Next(s, e), u, rest)
    ensures RunOk(s, [e] + rest) && NoLogoutOf(s, u, [e] + rest)
    ensures Run(s, [e] + rest) == Run(Next(s, e), rest)
  {
    assert ([e] + rest)[1..] == rest;
  }

  /** A run that ends with an old token accepted. */
  lemma NotRevoked(s: State, u: User, before: nat, events: seq<Event>)
    requires RunOk(s, events) && NoLogoutOf(s, u, events) && OldTokenAccepted(Run(s, events), u, before)
    ensures !Revoked(s, u, before)
  {
  }

  lemma CarriedTokenSurvives(s: State, r: Request, k: nat)
    requires Inv(s) && Enabled(s, LogoutCommit(r)) && k < |s.issued|
    requires var t, p := s.issued[k].token, s.pending[r];
             t.user == p.user && TokenVersionClaim(t) == p.version + 1 && Decodes(t, s.clock)
    ensures !Revoked(Next(s, LogoutCommit(r)), s.pending[r].user, s.step)
  {
    hide Revoked, Run, RunOk, NoLogoutOf, Carries;
    var u, after := s.pending[r].user, Next(s, LogoutCommit(r));
    var activate := SetActive(u, true);
    var end := Next(after, activate);
    StepKeepsShape(s, LogoutCommit(r));
    assert Dated(s, u, TokenVersionClaim(s.issued[k].token), LoginReadAt(s.issued, k));
    hide Shape, AllDated, Settled;
    assert end.issued == s.issued && Accepts(end, end.issued[k].token);
    assert OldTokenAccepted(end, u, s.step);
    RunNothing(end, u);
    Unroll(after, u, activate, []);
    NotRevoked(after, u, s.step, [activate] + []);
  }

  /** The step with which a login or a request with a verified cookie mints its token. */
  function Minting(s: State, q: Request): Event
    requires q in s.pending
  {
    if s.pending[q].LoginRead? then LoginMint(q, 1) else Remint(q, 1)
  }

  /** The step at which the login behind a pending read looked at the users row. */
  ghost function ReadBehind(s: State, q: Request): nat
    requires Shape(s) && q in s.pending && !s.pending[q].LogoutRead?
  {
    if s.pending[q].LoginRead? then s.pending[q].readAt else LoginReadAt(s.issued, s.pending[q].issue)
  }

  lemma MintIsAccepted(s: State, q: Request, before: nat)
    requires Shape(s) && q in s.pending && !s.pending[q].LogoutRead? && ReadBehind(s, q) < before
    requires s.accounts[s.pending[q].user].active && s.pending[q].version == s.accounts[s.pending[q].user].version
    ensures Enabled(s, Minting(s, q)) && OldTokenAccepted(Next(s, Minting(s, q)), s.pending[q].user, before)
  {
    MintedFrom(s, Minting(s, q), |s.issued|);
    hide Shape;
    var end := Next(s, Minting(s, q));
    assert end.accounts == s.accounts && Accepts(end, end.issued[|s.issued|].token);
  }

  lemma CarriedReadSurvives(s: State, r: Request, q: Request)
    requires Inv(s) && Enabled(s, LogoutCommit(r)) && q in s.pending && !s.pending[q].LogoutRead?
    requires s.pending[q].user == s.pending[r].user && s.pending[q].version == s.pending[r].version + 1
    ensures !Revoked(Next(s, LogoutCommit(r)), s.pending[r].user, s.step)
  {
    hide Revoked, Run, RunOk, NoLogoutOf, Carries, OldTokenAccepted;
    var u, after := s.pending[r].user, Next(s, LogoutCommit(r));
    var mid := Next(after, SetActive(u, true));
    StepKeepsShape(s, LogoutCommit(r));
    StepKeepsShape(after, SetActive(u, true));
    assert mid.pending[q] == s.pending[q] && mid.issued == s.issued;
    assert ReadBehind(mid, q) < s.step by {
      if s.pending[q].CookieVerified? {
        var k := s.pending[q].issue;
        assert Dated(s, u, TokenVersionClaim(s.issued[k].token), LoginReadAt(s.issued, k));
      }
    }
    MintIsAccepted(mid, q, s.step);
    hide Shape, AllDated, Settled;
    var mint := Minting(mid, q);
    RunNothing(Next(mid, mint), u);
    Unroll(mid, u, mint, []);
    Unroll(after, u, SetActive(u, true), [mint] + []);
    NotRevoked(after, u, s.step, [SetActive(u, true)] + ([mint] + []));
  }

  lemma CarriedSurvives(s: State, r: Request)
    requires Inv(s) && Enabled(s, LogoutCommit(r)) && Carries(s, s.pending[r].user, s.pending[r].version + 1)
    ensures !Revoked(Next(s, LogoutCommit(r)), s.pending[r].user, s.step)
  {
    hide Inv, Revoked, Next;
    var u, version := s.pending[r].user, s.pending[r].version;
    if k: nat :| k < |s.issued| && s.issued[k].token.user == u
                 && TokenVersionClaim(s.issued[k].token) == version + 1 && Decodes(s.issued[k].token, s.clock) {
      CarriedTokenSurvives(s, r, k);
    } else {
      var q :| q in s.pending && !s.pending[q].LogoutRead? && s.pending[q].user == u && s.pending[q].version == version + 1;
      CarriedReadSurvives(s, r, q);
    }
  }

  lemma RevokesIff(s: State, r: Request)
    requires Inv(s) && Enabled(s, LogoutCommit(r))
    ensures var u, version := s.pending[r].user, s.pending[r].version;
            && (Revoked(Next(s, LogoutCommit(r)), u, s.step) <==> !Carries(s, u, version + 1))
            && (IsHighest(s.held[u], version) ==> Revoked(Next(s, LogoutCommit(r)), u, s.step))
  {
    hide Revoked, Settled, Carries, Next, IsHighest;
    var u, version := s.pending[r].user, s.pending[r].version;
    if IsHighest(s.held[u], version) {
      HighestIsNotCarried(s, u, version);
    }
    if Carries(s, u, version + 1) {
      CarriedSurvives(s, r);
    } else {
      UncarriedRevokes(s, r);
    }
  }

  /**
   Exactly when a logout revokes everything that goes back to a login before it, whatever
   happens up to the user's next logout: no unexpired token of the user, and no login or cookie
   read that is still on its way to minting one, carries the version the logout is about to
   write. That is always so when the version it read is the highest one the row has had.
   */
  lemma LogoutRevokesEverythingIff(start: State, events: seq<Event>, r: Request)
    requires IsStart(start) && RunOk(start, events) && Enabled(Run(start, events), LogoutCommit(r))
    ensures var s := Run(start, events);
            var u, version := s.pending[r].user, s.pending[r].version;
            && (Revoked(Next(s, LogoutCommit(r)), u, s.step) <==> !Carries(s, u, version + 1))
            && (IsHighest(s.held[u], version) ==> Revoked(Next(s, LogoutCommit(r)), u, s.step))
  {
    hide Revoked, RunOk, Run, Inv, Carries, Next, IsHighest, IsStart;
    StartInv(start);
    RunKeepsInv(start, events);
    RevokesIff(Run(start, events), r);
  }

  lemma {:induction false} BumpsGoForward(s: State, u: User, events: seq<Event>)
    requires Shape(s) && RunOk(s, events) && u < |s.accounts|
    ensures var end := Run(s, events);
            |end.bumpedAt| == |end.accounts| == |s.accounts| && end.bumpedAt[u] >= s.bumpedAt[u]
    decreases |events|
  {
    if events != [] {
      StepKeepsShape(s, events[0]);
      BumpsGoForward(Next(s, events[0]), u, events[1..]);
    }
  }

  /**
   A logout is final: after any events, further logouts included, no token that goes back to a
   login read before it is accepted, as long as the user's latest logout wrote an uncarried version.
   */
  lemma LogoutIsFinal(s: State, r: Request, events: seq<Event>)
    requires Inv(s) && Enabled(s, LogoutCommit(r)) && RunOk(Next(s, LogoutCommit(r)), events)
    ensures var u, end := s.pending[r].user, Run(Next(s, LogoutCommit(r)), events);
            u !in end.exposed ==> !OldTokenAccepted(end, u, s.step)
  {
    var u, after := s.pending[r].user, Next(s, LogoutCommit(r));
    StepKeepsInv(s, LogoutCommit(r));
    RunKeepsInv(after, events);
    BumpsGoForward(after, u, events);
    var end := Run(after, events);
    if u !in end.exposed {
      SettledAcceptsNothingOld(end, u);
    }
  }

  /**
   A request verified before a logout and re-minted after it, with any events before, between and
   after, gets a token that is rejected.
   */
  lemma RemintAcrossLogoutIsRejected(s: State, request: Request, logout: Request, between: seq<Event>, minutes: nat)
    requires Inv(s) && Enabled(s, LogoutCommit(logout)) && request in s.pending && s.pending[request].CookieVerified?
    requires s.pending[request].user == s.pending[logout].user
    requires RunOk(Next(s, LogoutCommit(logout)), between)
    requires var mid := Run(Next(s, LogoutCommit(logout)), between);
             request in mid.pending && mid.pending[request] == s.pending[request]
    ensures var mid := Run(Next(s, LogoutCommit(logout)), between);
            var last := Next(mid, Remint(request, minutes));
            mid.pending[request].user !in last.exposed ==> !Accepts(last, last.issued[|mid.issued|].token)
  {
    hide RunOk, Run, Carries, Settled;
    var p, after := s.pending[request], Next(s, LogoutCommit(logout));
    var mid := Run(after, between);
    assert Dated(s, p.user, TokenVersionClaim(s.issued[p.issue].token), LoginReadAt(s.issued, p.issue));
    assert after.issued == s.issued && after.bumpedAt[p.user] == s.step;
    StepKeepsInv(s, LogoutCommit(logout));
    RunKeepsInv(after, between);
    BumpsGoForward(after, p.user, between);
    IssuedStay(after, between, p.issue);
    OldRemintIsRejected(mid, request, minutes);
  }

  /** A request whose cookie goes back behind the latest logout gets a token that is rejected. */
  lemma OldRemintIsRejected(s: State, request: Request, minutes: nat)
    requires Inv(s) && request in s.pending && s.pending[request].CookieVerified?
    requires s.pending[request].issue < |s.issued| && s.pending[request].user < |s.bumpedAt|
    requires LoginReadAt(s.issued, s.pending[request].issue) <= s.bumpedAt[s.pending[request].user]
    ensures var last := Next(s, Remint(request, minutes));
            s.pending[request].user !in last.exposed ==> !Accepts(last, last.issued[|s.issued|].token)
  {
    hide Carries;
    if s.pending[request].user !in s.exposed {
      assert Settled(s, s.pending[request].user);
    }
  }

  lemma {:induction false} IssuedStay(s: State, events: seq<Event>, k: nat)
    requires Shape(s) && RunOk(s, events) && k < |s.issued|
    ensures var end := Run(s, events);
            ChainsBack(end.issued) && k < |end.issued| && end.issued[k] == s.issued[k]
            && LoginReadAt(end.issued, k) == LoginReadAt(s.issued, k)
    decreases |events|
  {
    if events != [] {
      MintedFrom(s, events[0], k);
      StepKeepsShape(s, events[0]);
      assert |Next(s, events[0]).issued| >= |s.issued|;
      IssuedStay(Next(s, events[0]), events[1..], k);
    }
  }

  // ----- Logouts of one user that overlap -----

  /** Every logout in the run commits while the row still has the version it read. */
  ghost predicate LogoutsDoNotOverlap(s: State, events: seq<Event>)
    requires RunOk(s, events)
    decreases |events|
  {
    events != [] ==>
      && (events[0].LogoutCommit? ==>
            var p := s.pending[events[0].r]; p.version == s.accounts[p.user].version)
      && LogoutsDoNotOverlap(Next(s, events[0]), events[1..])
  }

  ghost predicate AllHighest(s: State) {
    |s.held| == |s.accounts| && forall u: User | u < |s.accounts| :: IsHighest(s.held[u], s.accounts[u].version)
  }

  lemma CleanStep(s: State, e: Event)
    requires Inv(s) && AllHighest(s) && s.exposed == {} && Enabled(s, e)
    requires e.LogoutCommit? ==> s.pending[e.r].version == s.accounts[s.pending[e.r].user].version
    ensures AllHighest(Next(s, e)) && Next(s, e).exposed == {}
  {
    hide Carries;
    if e.LogoutCommit? {
      HighestIsNotCarried(s, s.pending[e.r].user, s.pending[e.r].version);
    }
  }

  /** In such a run the main result holds for every user. */
  lemma {:induction false} NoOverlapNoException(s: State, events: seq<Event>)
    requires Inv(s) && AllHighest(s) && s.exposed == {} && RunOk(s, events) && LogoutsDoNotOverlap(s, events)
    ensures Run(s, events).exposed == {}
    decreases |events|
  {
    if events != [] {
      hide Inv, AllHighest, Carries, Next;
      CleanStep(s, events[0]);
      StepKeepsInv(s, events[0]);
      NoOverlapNoException(Next(s, events[0]), events[1..]);
    }
  }

  lemma StartIsHighest(s: State)
    requires IsStart(s)
    ensures AllHighest(s) && s.exposed == {}
  {
    forall u: User | u < |s.accounts| ensures s.accounts[u].version == 0 {
      assert s.accounts[u] in s.accounts;
    }
  }

  /**
   When no two logouts of a user overlap, there is no exception: an unexpired token of an active
   user is accepted exactly if the login at its root read the row after the user's latest logout.
   */
  lemma OrderlyRunsAcceptExactly(start: State, events: seq<Event>, k: nat)
    requires IsStart(start) && RunOk(start, events) && LogoutsDoNotOverlap(start, events)
    requires k < |Run(start, events).issued|
    ensures var s := Run(start, events);
            var t := s.issued[k].token;
            Inv(s) && t.user < |s.accounts| &&
            (Accepts(s, t) <==> Decodes(t, s.clock) && s.accounts[t.user].active && LoginReadAt(s.issued, k) > s.bumpedAt[t.user])
  {
    hide Inv, IsStart, AllHighest, Accepts, Decodes, RunOk, Run;
    StartInv(start);
    StartIsHighest(start);
    NoOverlapNoException(start, events);
    AcceptedExactlyIfLoggedInSinceLogout(start, events, k);
  }

  /**
   Overlapping logouts break it whenever they happen: a logout is about to write the version
   the row already has, because another one wrote it first; a login reads that version before
   the second commit. The token of that login, whose read is older than the latest logout, is
   accepted.
   */
  lemma OverlappingLogoutsKeepAToken(s: State, u: User, second: Request, login: Request, minutes: nat)
    requires Shape(s) && u < |s.accounts| && s.accounts[u].active && minutes > 0
    requires login !in s.pending && second in s.pending && s.pending[second].LogoutRead? && s.pending[second].user == u
    requires s.pending[second].version + 1 == s.accounts[u].version
    ensures Enabled(s, LoginSelect(login, u)) && Enabled(Next(s, LoginSelect(login, u)), LoginMint(login, minutes))
    ensures var s1 := Next(s, LoginSelect(login, u));
            var s2 := Next(s1, LoginMint(login, minutes));
            && Enabled(s2, LogoutCommit(second))
            && var s3 := Next(s2, LogoutCommit(second));
            && |s3.issued| == |s.issued| + 1 && s3.issued[|s.issued|].token.user == u && u < |s3.bumpedAt|
            && s3.issued[|s.issued|].origin == FromLogin(s.step) && s.step < s3.bumpedAt[u]
            && Accepts(s3, s3.issued[|s.issued|].token)
  {
  }

  lemma {:induction false} RunSum(s: State, a: seq<Event>, b: seq<Event>)
    requires RunOk(s, a) && RunOk(Run(s, a), b)
    ensures RunOk(s, a + b) && Run(s, a + b) == Run(Run(s, a), b)
    decreases |a|
  {
    if a == [] {
      assert a + b == b;
    } else {
      RunSum(Next(s, a[0]), a[1..], b);
      assert (a + b)[1..] == a[1..] + b;
    }
  }

  lemma RunTwo(s: State, e: Event, f: Event)
    requires Enabled(s, e) && Enabled(Next(s, e), f)
    ensures RunOk(s, [e, f]) && Run(s, [e, f]) == Next(Next(s, e), f)
  {
    hide Enabled, Next;
    var end := Next(Next(s, e), f);
    assert [e, f][1..] == [f] && [f][1..] == [] && RunOk(end, []) && Run(end, []) == end;
    assert RunOk(Next(s, e), [f]) && Run(Next(s, e), [f]) == end;
  }

  lemma RunThree(s: State, e: Event, f: Event, g: Event)
    requires Enabled(s, e) && Enabled(Next(s, e), f) && Enabled(Next(Next(s, e), f), g)
    ensures RunOk(s, [e, f, g]) && Run(s, [e, f, g]) == Next(Next(Next(s, e), f), g)
  {
    hide Enabled, Next;
    RunTwo(Next(s, e), f, g);
    assert [e, f, g][1..] == [f, g];
  }

  function LoginBy(r: Request, u: User, minutes: nat): seq<Event> {
    [LoginSelect(r, u), LoginMint(r, minutes)]
  }

  /** Two logouts with the same cookie read the row before the first one commits. */
  function FirstOfTwoLogouts(k: nat): seq<Event> {
    [LogoutSelect(1, k), LogoutSelect(2, k), LogoutCommit(1)]
  }

  function LoginThenSecondLogout(u: User, minutes: nat): seq<Event> {
    [LoginSelect(3, u), LoginMint(3, minutes), LogoutCommit(2)]
  }

  lemma AfterLogin(s: State, u: User, minutes: nat)
    requires s.pending == map[] && u < |s.accounts| && s.accounts[u].active && minutes > 0
    ensures RunOk(s, LoginBy(0, u, minutes))
    ensures var end, k := Run(s, LoginBy(0, u, minutes)), |s.issued|;
            && end.pending == map[] && end.accounts == s.accounts && end.clock == s.clock
            && |end.issued| == k + 1 && end.issued[k].token.user == u && Decodes(end.issued[k].token, end.clock)
  {
    RunTwo(s, LoginSelect(0, u), LoginMint(0, minutes));
  }

  lemma AfterFirstLogout(s: State, u: User, k: nat)
    requires s.pending == map[] && u < |s.accounts| == |s.bumpedAt| == |s.held|
    requires k < |s.issued| && s.issued[k].token.user == u && Decodes(s.issued[k].token, s.clock)
    ensures RunOk(s, FirstOfTwoLogouts(k))
    ensures var end, version := Run(s, FirstOfTwoLogouts(k)), s.accounts[u].version;
            && end.pending == map[2 := LogoutRead(u, version)] && |end.accounts| == |s.accounts|
            && end.accounts[u] == s.accounts[u].(version := version + 1) && end.issued == s.issued
  {
    hide Carries, Run, RunOk;
    RunThree(s, LogoutSelect(1, k), LogoutSelect(2, k), LogoutCommit(1));
  }

  /** So the exception is reached from every start: the token of the second login is accepted although a later logout committed. */
  lemma OverlapIsReached(start: State, u: User, minutes: nat)
    requires IsStart(start) && u < |start.accounts| && start.accounts[u].active && minutes > 0
    ensures var k := |start.issued|;
            var events := LoginBy(0, u, minutes) + FirstOfTwoLogouts(k) + LoginThenSecondLogout(u, minutes);
            && RunOk(start, events)
            && var s := Run(start, events);
            && Inv(s) && k + 1 < |s.issued| && s.issued[k + 1].token.user == u && Accepts(s, s.issued[k + 1].token)
            && s.issued[k + 1].origin.FromLogin? && u < |s.bumpedAt| && s.issued[k + 1].origin.readAt < s.bumpedAt[u]
  {
    var k := |start.issued|;
    StartInv(start);
    AfterLogin(start, u, minutes);
    var one := Run(start, LoginBy(0, u, minutes));
    RunKeepsInv(start, LoginBy(0, u, minutes));
    ShapeSizes(one);
    AfterFirstLogout(one, u, k);
    var two := Run(one, FirstOfTwoLogouts(k));
    RunKeepsInv(one, FirstOfTwoLogouts(k));
    hide IsStart, AllDated, Settled, Run, RunOk, LoginBy, FirstOfTwoLogouts;
    SecondHalf(two, u, minutes);
    RunKeepsInv(two, LoginThenSecondLogout(u, minutes));
    RunSum(start, LoginBy(0, u, minutes), FirstOfTwoLogouts(k));
    RunSum(start, LoginBy(0, u, minutes) + FirstOfTwoLogouts(k), LoginThenSecondLogout(u, minutes));
  }

  lemma ShapeSizes(s: State)
    requires Inv(s)
    ensures |s.bumpedAt| == |s.held| == |s.accounts|
  {
  }

  lemma SecondHalf(s: State, u: User, minutes: nat)
    requires Shape(s) && u < |s.accounts| && s.accounts[u].active && minutes > 0
    requires s.accounts[u].version > 0 && s.pending == map[2 := LogoutRead(u, s.accounts[u].version - 1)]
    ensures RunOk(s, LoginThenSecondLogout(u, minutes))
    ensures var end, k := Run(s, LoginThenSecondLogout(u, minutes)), |s.issued|;
            && k < |end.issued| && end.issued[k].token.user == u && Accepts(end, end.issued[k].token)
            && end.issued[k].origin.FromLogin? && u < |end.bumpedAt| && end.issued[k].origin.readAt < end.bumpedAt[u]
  {
    hide Carries, Run, RunOk, Next, Enabled, Accepts, Shape;
    OverlappingLogoutsKeepAToken(s, u, 2, 3, minutes);
    RunThree(s, LoginSelect(3, u), LoginMint(3, minutes), LogoutCommit(2));
  }

  /** A later logout that writes an uncarried version ends the exception. */
  lemma CleanLogoutRestores(s: State, r: Request)
    requires Inv(s) && Enabled(s, LogoutCommit(r)) && IsHighest(s.held[s.pending[r].user], s.pending[r].version)
    ensures s.pending[r].user !in Next(s, LogoutCommit(r)).exposed
  {
    HighestIsNotCarried(s, s.pending[r].user, s.pending[r].version);
  }
}
