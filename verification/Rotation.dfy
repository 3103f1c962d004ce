/**
 * What the token registry means: every login starts a chain of refresh tokens, and a refresh
 * token is good exactly while it is the newest of its chain and has not expired. The ledger
 * below says so without any registry, revocation flag or cleanup; the registry refines it.
 */
module Rotation {
  import opened Jwt
  import opened Tokens

  /** `chainOf` numbers the login each refresh token descends from; `heads` is the newest of each chain. */
  datatype Ledger = Ledger(
    heads: seq<Claims>, owners: seq<(string, string)>, chainOf: map<Claims, nat>,
    expiry: map<Claims, Time>, signed: set<Claims>, nextJti: nat)

  const Empty := Ledger([], [], map[], map[], {}, 0)

  predicate IsHead(l: Ledger, c: Claims) {
    c in l.chainOf && l.chainOf[c] < |l.heads| && l.heads[l.chainOf[c]] == c
  }

  function LedgerAnswer(cfg: Settings, l: Ledger, e: Event): Answer {
    match e
    case Login(users, username, password, issue) =>
      if Credentials(users, username, password)
      then NewPair(cfg, l.nextJti, username, users[username].role, issue) else InvalidCredentials
    case RefreshWith(token, decodeAt, checkAt, issue) =>
      (match DecodeToken(l.signed, token, Refresh, decodeAt)
       case Err(error) => Rejected(error)
       case Ok(c) =>
         if IsHead(l, c) && c in l.expiry && checkAt <= l.expiry[c]
         then NewPair(cfg, l.nextJti, c.sub, c.role, issue) else RevokedOrExpired)
    case Cleanup(_) => Deleted(0)
  }

  /** A pair joins chain `k`: a login opens the next chain, a refresh moves its own chain's head. */
  function Grow(cfg: Settings, l: Ledger, k: nat, access: Claims, refresh: Claims, at: IssueClock): Ledger
    requires k <= |l.heads| == |l.owners|
  {
    Ledger(
      if k == |l.heads| then l.heads + [refresh] else l.heads[k := refresh],
      if k == |l.heads| then l.owners + [(access.sub, access.role)] else l.owners,
      l.chainOf[refresh := k], l.expiry[refresh := NewExpiry(cfg, at)], l.signed + {access, refresh}, l.nextJti + 2)
  }

  function LedgerNext(cfg: Settings, l: Ledger, e: Event): Ledger {
    if e.Cleanup? || |l.heads| != |l.owners| then l
    else
      match LedgerAnswer(cfg, l, e)
      case Pair(access, refresh, _) =>
        var k := if e.RefreshWith? && e.token.Signed? && IsHead(l, e.token.claims)
                 then l.chainOf[e.token.claims] else |l.heads|;
        Grow(cfg, l, k, access, refresh, e.issue)
      case _ => l
  }

  function LedgerRun(cfg: Settings, l: Ledger, events: seq<Event>): Ledger {
    if events == [] then l else LedgerNext(cfg, LedgerRun(cfg, l, events[..|events| - 1]), events[|events| - 1])
  }

  // ---------------------------------------------------------------- invariant of the ledger

  ghost predicate ChainsOk(l: Ledger) {
    && |l.heads| == |l.owners|
    && (forall c :: c in l.chainOf ==> l.chainOf[c] < |l.heads|)
    && (forall c :: c in l.chainOf ==> (c.sub, c.role) == l.owners[l.chainOf[c]] && c.kind == Refresh)
    && (forall k :: 0 <= k < |l.heads| ==> l.heads[k] in l.chainOf && l.chainOf[l.heads[k]] == k)
  }

  ghost predicate SignedOk(l: Ledger) {
    && l.expiry.Keys == l.chainOf.Keys
    && (forall c :: c in l.signed ==> c.jti < l.nextJti)
    && (forall c :: c in l.chainOf ==> c in l.signed && c.exp * SECOND <= l.expiry[c])
    && (forall c :: c in l.signed && c.kind == Refresh ==> c in l.chainOf)
  }

  ghost predicate LedgerOk(l: Ledger) {
    ChainsOk(l) && SignedOk(l)
  }

  /** The registry keeps a record of every chain's head, unrevoked, unless it was purged after it expired. */
  ghost predicate Refines(s: Auth, l: Ledger, now: Time) {
    && s.signed == l.signed && s.nextJti == l.nextJti
    && (forall c :: c in s.registry ==>
          c in l.chainOf && c in l.expiry && s.registry[c].expiresAt == l.expiry[c]
          && (s.registry[c].revoked <==> !IsHead(l, c)))
    && (forall c :: c in l.chainOf && c !in s.registry && IsHead(l, c) ==> c in l.expiry && l.expiry[c] < now)
  }

  lemma RefinesLater(s: Auth, l: Ledger, now: Time, later: Time)
    requires Refines(s, l, now) && now <= later
    ensures Refines(s, l, later)
  {
  }

  /** A token that reaches the registry check is one the ledger knows. */
  lemma SameAnswer(cfg: Settings, s: Auth, l: Ledger, now: Time, e: Event)
    requires LedgerOk(l) && Refines(s, l, now) && InOrder(e) && now <= Start(e) && !e.Cleanup?
    ensures AnswerTo(cfg, s, e) == LedgerAnswer(cfg, l, e)
  {
  }

  /** A pair minted now was never seen before. */
  lemma PairIsNew(cfg: Settings, l: Ledger, sub: string, role: string, at: IssueClock)
    requires LedgerOk(l)
    ensures var access, refresh := NewAccess(cfg, l.nextJti, sub, role, at), NewRefresh(cfg, l.nextJti, sub, role, at);
            && access !in l.signed && refresh !in l.signed && access != refresh && refresh !in l.chainOf
  {
  }

  lemma GrowOk(cfg: Settings, l: Ledger, k: nat, sub: string, role: string, at: IssueClock)
    requires LedgerOk(l) && k <= |l.heads| && at.refresh <= at.persist
    requires k < |l.heads| ==> (sub, role) == l.owners[k]
    ensures var access, refresh := NewAccess(cfg, l.nextJti, sub, role, at), NewRefresh(cfg, l.nextJti, sub, role, at);
            var t := Grow(cfg, l, k, access, refresh, at);
            && LedgerOk(t) && IsHead(t, refresh)
            && (forall c :: c in l.chainOf ==> (IsHead(t, c) <==> IsHead(l, c) && l.chainOf[c] != k))
  {
    PairIsNew(cfg, l, sub, role, at);
    var access, refresh := NewAccess(cfg, l.nextJti, sub, role, at), NewRefresh(cfg, l.nextJti, sub, role, at);
    GrowChains(cfg, l, k, access, refresh, at);
    GrowSigned(cfg, l, k, access, refresh, at);
  }

  lemma GrowSigned(cfg: Settings, l: Ledger, k: nat, access: Claims, refresh: Claims, at: IssueClock)
    requires |l.heads| == |l.owners| && k <= |l.heads| && SignedOk(l)
    requires access.kind == Access && refresh.kind == Refresh
    requires access.jti < l.nextJti + 2 && refresh.jti < l.nextJti + 2
    requires refresh.exp * SECOND <= NewExpiry(cfg, at)
    ensures SignedOk(Grow(cfg, l, k, access, refresh, at))
  {
  }

  lemma GrowChains(cfg: Settings, l: Ledger, k: nat, access: Claims, refresh: Claims, at: IssueClock)
    requires ChainsOk(l) && k <= |l.heads| && refresh !in l.chainOf && refresh.kind == Refresh
    requires (refresh.sub, refresh.role) == (access.sub, access.role)
    requires k < |l.heads| ==> (access.sub, access.role) == l.owners[k]
    ensures var t := Grow(cfg, l, k, access, refresh, at);
            && ChainsOk(t) && IsHead(t, refresh)
            && (forall c :: c in l.chainOf ==> (IsHead(t, c) <==> IsHead(l, c) && l.chainOf[c] != k))
  {
    var t := Grow(cfg, l, k, access, refresh, at);
    assert forall c :: c in t.chainOf ==> t.chainOf[c] == if c == refresh then k else l.chainOf[c];
    assert forall i :: 0 <= i < |t.heads| ==> t.heads[i] == if i == k then refresh else l.heads[i];
  }

  /** Storing a pair in chain `k`, once the chain's previous head is revoked, keeps the refinement. */
  lemma PairRefines(cfg: Settings, s: Auth, l: Ledger, k: nat, sub: string, role: string, at: IssueClock, now: Time)
    requires LedgerOk(l) && k <= |l.heads| && at.refresh <= at.persist
    requires k < |l.heads| ==> (sub, role) == l.owners[k]
    requires s.signed == l.signed && s.nextJti == l.nextJti
    requires forall c :: c in s.registry ==>
               c in l.chainOf && s.registry[c].expiresAt == l.expiry[c]
               && (s.registry[c].revoked <==> !(IsHead(l, c) && l.chainOf[c] != k))
    requires forall c :: c in l.chainOf && c !in s.registry && IsHead(l, c) && l.chainOf[c] != k ==> l.expiry[c] < now
    ensures var access, refresh := NewAccess(cfg, l.nextJti, sub, role, at), NewRefresh(cfg, l.nextJti, sub, role, at);
            var t := Grow(cfg, l, k, access, refresh, at);
            LedgerOk(t) && Refines(IssueTokenPair(cfg, s, sub, role, at), t, now)
  {
    GrowOk(cfg, l, k, sub, role, at);
    PairIsNew(cfg, l, sub, role, at);
  }

  lemma LoginStep(cfg: Settings, s: Auth, l: Ledger, now: Time, e: Event)
    requires e.Login? && LedgerOk(l) && Refines(s, l, now) && InOrder(e) && now <= Start(e)
    ensures LedgerOk(LedgerNext(cfg, l, e)) && Refines(Next(cfg, s, e), LedgerNext(cfg, l, e), End(e))
  {
    RefinesLater(s, l, now, End(e));
    if Credentials(e.users, e.username, e.password) {
      PairRefines(cfg, s, l, |l.heads|, e.username, e.users[e.username].role, e.issue, End(e));
    }
  }

  lemma RefreshStep(cfg: Settings, s: Auth, l: Ledger, now: Time, e: Event)
    requires e.RefreshWith? && LedgerOk(l) && Refines(s, l, now) && InOrder(e) && now <= Start(e)
    ensures LedgerOk(LedgerNext(cfg, l, e)) && Refines(Next(cfg, s, e), LedgerNext(cfg, l, e), End(e))
  {
    SameAnswer(cfg, s, l, now, e);
    RefinesLater(s, l, now, End(e));
    if LedgerAnswer(cfg, l, e).Pair? {
      var c := e.token.claims;
      var revoked := s.(registry := s.registry[c := s.registry[c].(revoked := true)]);
      PairRefines(cfg, revoked, l, l.chainOf[c], c.sub, c.role, e.issue, End(e));
    }
  }

  lemma CleanupStep(cfg: Settings, s: Auth, l: Ledger, now: Time, e: Event)
    requires e.Cleanup? && LedgerOk(l) && Refines(s, l, now) && now <= Start(e)
    ensures Refines(Next(cfg, s, e), LedgerNext(cfg, l, e), End(e))
  {
  }

  /** No token was signed later than `now`. */
  ghost predicate IssuedBefore(l: Ledger, now: Time) {
    forall c :: c in l.signed ==> c.iat * SECOND <= now
  }

  lemma IssuedStep(cfg: Settings, l: Ledger, e: Event, now: Time)
    requires IssuedBefore(l, now) && InOrder(e) && now <= Start(e)
    ensures IssuedBefore(LedgerNext(cfg, l, e), End(e))
  {
  }

  lemma {:induction false} RunRefines(cfg: Settings, events: seq<Event>, now: Time)
    requires Timely(events) && Before(events, now)
    ensures LedgerOk(LedgerRun(cfg, Empty, events)) && IssuedBefore(LedgerRun(cfg, Empty, events), now)
    ensures Refines(Run(cfg, Init, events), LedgerRun(cfg, Empty, events), now)
  {
    if events != [] {
      var init, e := events[..|events| - 1], events[|events| - 1];
      RunRefines(cfg, init, Start(e));
      var s, l := Run(cfg, Init, init), LedgerRun(cfg, Empty, init);
      IssuedStep(cfg, l, e, Start(e));
      match e {
        case Login(_, _, _, _) => LoginStep(cfg, s, l, Start(e), e);
        case RefreshWith(_, _, _, _) => RefreshStep(cfg, s, l, Start(e), e);
        case Cleanup(_) => CleanupStep(cfg, s, l, Start(e), e);
      }
      RefinesLater(Next(cfg, s, e), LedgerNext(cfg, l, e), End(e), now);
    }
  }

  // ---------------------------------------------------------------- main results

  /** Any request may come next at any later time: timely runs go on, from the empty one. */
  lemma TimelyRunsGoOn(events: seq<Event>, e: Event)
    requires Timely(events)
    ensures Timely(events + [e]) <==> InOrder(e) && Before(events, Start(e))
    ensures InOrder(e) <==>
              && (e.Cleanup? || e.issue.access <= e.issue.refresh <= e.issue.persist)
              && (!e.RefreshWith? || e.decodeAt <= e.checkAt <= e.issue.access)
    ensures Timely([])
  {
    var all := events + [e];
    assert forall i :: 0 <= i < |events| ==> all[i] == events[i];
    assert all[|events|] == e;
    if Timely(all) {
      assert forall i :: 0 <= i < |events| ==> End(all[i]) <= Start(all[|events|]);
      assert InOrder(all[|events|]);
    }
  }

  /**
   * At any point of a timely run, a refresh is accepted if and only if the token was signed as a
   * refresh token, has not expired at either reading, and is the newest token of its login's chain.
   */
  lemma AcceptedExactlyWhenHead(cfg: Settings, events: seq<Event>, e: Event)
    requires e.RefreshWith? && InOrder(e) && Timely(events) && Before(events, Start(e))
    ensures var l := LedgerRun(cfg, Empty, events);
            var answer := AnswerTo(cfg, Run(cfg, Init, events), e);
            && answer == LedgerAnswer(cfg, l, e)
            && (answer.Pair? <==>
                  && e.token.Signed? && IsHead(l, e.token.claims) && e.token.claims in l.expiry
                  && e.decodeAt < e.token.claims.exp * SECOND && e.checkAt <= l.expiry[e.token.claims])
  {
    RunRefines(cfg, events, Start(e));
    SameAnswer(cfg, Run(cfg, Init, events), LedgerRun(cfg, Empty, events), Start(e), e);
  }

  function LedgerAnswers(cfg: Settings, l: Ledger, events: seq<Event>): seq<Answer> {
    if events == [] then []
    else
      var init, e := events[..|events| - 1], events[|events| - 1];
      if e.Cleanup? then LedgerAnswers(cfg, l, init)
      else LedgerAnswers(cfg, l, init) + [LedgerAnswer(cfg, LedgerRun(cfg, l, init), e)]
  }

  lemma {:induction false} AnswersMatchLedger(cfg: Settings, events: seq<Event>)
    requires Timely(events)
    ensures Answers(cfg, Init, events) == LedgerAnswers(cfg, Empty, events)
  {
    if events != [] {
      var init, e := events[..|events| - 1], events[|events| - 1];
      AnswersMatchLedger(cfg, init);
      if !e.Cleanup? {
        RunRefines(cfg, init, Start(e));
        SameAnswer(cfg, Run(cfg, Init, init), LedgerRun(cfg, Empty, init), Start(e), e);
      }
    }
  }

  function WithoutCleanup(events: seq<Event>): seq<Event> {
    if events == [] then []
    else
      var init, e := WithoutCleanup(events[..|events| - 1]), events[|events| - 1];
      if e.Cleanup? then init else init + [e]
  }

  lemma {:induction false} WithoutCleanupIsTimely(events: seq<Event>)
    requires Timely(events)
    ensures Timely(WithoutCleanup(events))
    ensures forall w :: w in WithoutCleanup(events) ==> w in events
  {
    if events != [] {
      var init, e := events[..|events| - 1], events[|events| - 1];
      WithoutCleanupIsTimely(init);
      forall w | w in WithoutCleanup(init) ensures End(w) <= Start(e) && InOrder(w) {
        var i :| 0 <= i < |init| && init[i] == w;
        assert events[i] == w;
      }
      var kept := WithoutCleanup(init);
      assert forall i :: 0 <= i < |kept| ==> kept[i] in kept;
    }
  }

  lemma {:induction false} LedgerIgnoresCleanup(cfg: Settings, events: seq<Event>)
    ensures LedgerRun(cfg, Empty, WithoutCleanup(events)) == LedgerRun(cfg, Empty, events)
    ensures LedgerAnswers(cfg, Empty, WithoutCleanup(events)) == LedgerAnswers(cfg, Empty, events)
  {
    if events != [] {
      var init, e := events[..|events| - 1], events[|events| - 1];
      LedgerIgnoresCleanup(cfg, init);
      if !e.Cleanup? {
        assert WithoutCleanup(events)[..|WithoutCleanup(events)| - 1] == WithoutCleanup(init);
      }
    }
  }

  /** Purging at any points of a timely run leaves every answer of every login and refresh as it was. */
  lemma CleanupIsInvisible(cfg: Settings, events: seq<Event>)
    requires Timely(events)
    ensures Answers(cfg, Init, events) == Answers(cfg, Init, WithoutCleanup(events))
  {
    AnswersMatchLedger(cfg, events);
    WithoutCleanupIsTimely(events);
    AnswersMatchLedger(cfg, WithoutCleanup(events));
    LedgerIgnoresCleanup(cfg, events);
  }

  /** A token that has lost the head of its chain never gets it back. */
  lemma NotHeadStays(cfg: Settings, l: Ledger, e: Event, c: Claims)
    requires LedgerOk(l) && c in l.signed && !IsHead(l, c)
    requires !e.Cleanup? ==> e.issue.refresh <= e.issue.persist
    ensures c in LedgerNext(cfg, l, e).signed && !IsHead(LedgerNext(cfg, l, e), c)
  {
    match LedgerAnswer(cfg, l, e)
    case Pair(access, refresh, _) =>
      PairIsNew(cfg, l, access.sub, access.role, e.issue);
    case _ =>
  }

  /** The token a refresh is accepted with is the head of its chain no more. */
  lemma UsedLosesHead(cfg: Settings, l: Ledger, e: Event)
    requires LedgerOk(l) && e.RefreshWith? && InOrder(e) && LedgerAnswer(cfg, l, e).Pair?
    ensures e.token.Signed? && e.token.claims in LedgerNext(cfg, l, e).signed
    ensures !IsHead(LedgerNext(cfg, l, e), e.token.claims)
  {
    var c := e.token.claims;
    GrowOk(cfg, l, l.chainOf[c], c.sub, c.role, e.issue);
  }

  lemma {:induction false} OnceUsedNeverAgain(cfg: Settings, events: seq<Event>, i: nat, now: Time)
    requires Timely(events) && Before(events, now) && i < |events|
    requires events[i].RefreshWith? && AnswerTo(cfg, Run(cfg, Init, events[..i]), events[i]).Pair?
    ensures var l := LedgerRun(cfg, Empty, events);
            events[i].token.Signed? && events[i].token.claims in l.signed && !IsHead(l, events[i].token.claims)
    decreases |events|
  {
    var init, e := events[..|events| - 1], events[|events| - 1];
    RunRefines(cfg, init, Start(e));
    var s, l := Run(cfg, Init, init), LedgerRun(cfg, Empty, init);
    if i == |events| - 1 {
      SameAnswer(cfg, s, l, Start(e), e);
      UsedLosesHead(cfg, l, e);
    } else {
      assert init[..i] == events[..i];
      OnceUsedNeverAgain(cfg, init, i, Start(e));
      NotHeadStays(cfg, l, e, events[i].token.claims);
    }
  }

  /** Replay: over a timely run no refresh token is accepted twice. */
  lemma AcceptedAtMostOnce(cfg: Settings, events: seq<Event>, i: nat, j: nat)
    requires Timely(events) && i < j < |events|
    requires events[i].RefreshWith? && events[j].RefreshWith? && events[i].token == events[j].token
    requires AnswerTo(cfg, Run(cfg, Init, events[..i]), events[i]).Pair?
    ensures !AnswerTo(cfg, Run(cfg, Init, events[..j]), events[j]).Pair?
  {
    var past := events[..j];
    assert past[..i] == events[..i];
    OnceUsedNeverAgain(cfg, past, i, Start(events[j]));
    AcceptedExactlyWhenHead(cfg, past, events[j]);
  }

  /** Event `i` answered with the pair whose refresh token is `c`. */
  ghost predicate HandedOut(cfg: Settings, events: seq<Event>, i: nat, c: Claims) {
    && i < |events|
    && var answer := AnswerTo(cfg, Run(cfg, Init, events[..i]), events[i]);
       answer.Pair? && answer.refresh == c
  }

  lemma {:induction false} RefreshTokensAreHandedOut(cfg: Settings, events: seq<Event>, c: Claims)
    requires c in Run(cfg, Init, events).signed && c.kind == Refresh
    ensures exists i: nat :: HandedOut(cfg, events, i, c)
  {
    var init, e := events[..|events| - 1], events[|events| - 1];
    if c in Run(cfg, Init, init).signed {
      RefreshTokensAreHandedOut(cfg, init, c);
      var i: nat :| HandedOut(cfg, init, i, c);
      assert init[..i] == events[..i];
      assert HandedOut(cfg, events, i, c);
    } else {
      assert HandedOut(cfg, events, |init|, c);
    }
  }

  /**
   * In any run at all, a refresh is accepted only with a token that an earlier answer handed out as
   * its refresh token; an access token is rejected.
   */
  lemma AcceptedWasHandedOut(cfg: Settings, events: seq<Event>, e: Event)
    requires e.RefreshWith?
    ensures AnswerTo(cfg, Run(cfg, Init, events), e).Pair? ==>
              e.token.Signed? && exists i: nat :: HandedOut(cfg, events, i, e.token.claims)
    ensures e.token.Signed? && e.token.claims.kind == Access ==> AnswerTo(cfg, Run(cfg, Init, events), e).Rejected?
  {
    if AnswerTo(cfg, Run(cfg, Init, events), e).Pair? {
      RefreshTokensAreHandedOut(cfg, events, e.token.claims);
    }
  }

  /** User and role of each successful login, in order. */
  function LoginOwners(events: seq<Event>): seq<(string, string)> {
    if events == [] then []
    else
      var before, e := LoginOwners(events[..|events| - 1]), events[|events| - 1];
      if e.Login? && e.username in e.users && e.users[e.username].enabled && e.users[e.username].password == e.password
      then before + [(e.username, e.users[e.username].role)] else before
  }

  function Logins(events: seq<Event>): nat {
    |LoginOwners(events)|
  }

  lemma ChainsGrowAtLogin(cfg: Settings, l: Ledger, e: Event)
    requires ChainsOk(l)
    ensures var t := LedgerNext(cfg, l, e);
            && |t.heads| == |t.owners|
            && t.owners == if e.Login? && Credentials(e.users, e.username, e.password)
                           then l.owners + [(e.username, e.users[e.username].role)] else l.owners
  {
  }

  /** Chains are the successful logins, one each and in order: refreshes and cleanups open none. */
  lemma {:induction false} OneChainPerLogin(cfg: Settings, events: seq<Event>, now: Time)
    requires Timely(events) && Before(events, now)
    ensures var l := LedgerRun(cfg, Empty, events); |l.heads| == Logins(events) && l.owners == LoginOwners(events)
  {
    if events != [] {
      var init, e := events[..|events| - 1], events[|events| - 1];
      OneChainPerLogin(cfg, init, Start(e));
      RunRefines(cfg, init, Start(e));
      ChainsGrowAtLogin(cfg, LedgerRun(cfg, Empty, init), e);
    }
  }

  /** Identity: every recorded token carries the user and role of the very login its chain began with. */
  lemma ChainKeepsIdentity(cfg: Settings, events: seq<Event>, now: Time, c: Claims)
    requires Timely(events) && Before(events, now) && c in Run(cfg, Init, events).registry
    ensures var l := LedgerRun(cfg, Empty, events);
            && c in l.chainOf && l.chainOf[c] < Logins(events)
            && (c.sub, c.role) == LoginOwners(events)[l.chainOf[c]]
  {
    RunRefines(cfg, events, now);
    OneChainPerLogin(cfg, events, now);
  }

  lemma GrowsChain(cfg: Settings, l: Ledger, e: Event)
    requires LedgerOk(l) && InOrder(e) && LedgerAnswer(cfg, l, e).Pair?
    ensures var t, refresh := LedgerNext(cfg, l, e), LedgerAnswer(cfg, l, e).refresh;
            && refresh !in l.chainOf && refresh in t.chainOf
            && (e.Login? ==> t.chainOf[refresh] == |l.heads|)
            && (e.RefreshWith? ==> e.token.Signed? && e.token.claims in l.chainOf
                                   && t.chainOf[refresh] == l.chainOf[e.token.claims])
            && (forall c :: c in l.chainOf ==> c in t.chainOf && t.chainOf[c] == l.chainOf[c])
  {
    var answer := LedgerAnswer(cfg, l, e);
    PairIsNew(cfg, l, answer.access.sub, answer.access.role, e.issue);
  }

  /**
   * Which chain a pair joins: a login's is the next one, numbered by the logins before it, a refresh's
   * is the chain of the token it was given; tokens handed out before stay where they are.
   */
  lemma PairJoinsChain(cfg: Settings, events: seq<Event>, e: Event)
    requires InOrder(e) && !e.Cleanup? && Timely(events) && Before(events, Start(e))
    requires AnswerTo(cfg, Run(cfg, Init, events), e).Pair?
    ensures var l, refresh := LedgerRun(cfg, Empty, events), AnswerTo(cfg, Run(cfg, Init, events), e).refresh;
            var t := LedgerNext(cfg, l, e);
            && refresh !in l.chainOf && refresh in t.chainOf
            && (e.Login? ==> t.chainOf[refresh] == Logins(events))
            && (e.RefreshWith? ==> e.token.Signed? && e.token.claims in l.chainOf
                                   && t.chainOf[refresh] == l.chainOf[e.token.claims])
            && (forall c :: c in l.chainOf ==> c in t.chainOf && t.chainOf[c] == l.chainOf[c])
  {
    RunRefines(cfg, events, Start(e));
    OneChainPerLogin(cfg, events, Start(e));
    SameAnswer(cfg, Run(cfg, Init, events), LedgerRun(cfg, Empty, events), Start(e), e);
    GrowsChain(cfg, LedgerRun(cfg, Empty, events), e);
  }

  lemma MintedIsHead(cfg: Settings, l: Ledger, e: Event)
    requires LedgerOk(l) && InOrder(e) && LedgerAnswer(cfg, l, e).Pair?
    ensures var t, c := LedgerNext(cfg, l, e), LedgerAnswer(cfg, l, e).refresh;
            && IsHead(t, c) && c in t.signed && c.kind == Refresh
            && c in t.expiry && t.expiry[c] == NewExpiry(cfg, e.issue)
  {
    var answer := LedgerAnswer(cfg, l, e);
    var k := if e.RefreshWith? && IsHead(l, e.token.claims) then l.chainOf[e.token.claims] else |l.heads|;
    GrowOk(cfg, l, k, answer.access.sub, answer.access.role, e.issue);
  }

  /**
   * A refresh token is good for its lifetime: the one that login or refresh `e` hands out is accepted by
   * the next request if it comes, by both its readings, a second before the configured days are over.
   */
  lemma HandedOutIsAccepted(cfg: Settings, events: seq<Event>, e: Event, next: Event)
    requires !e.Cleanup? && next.RefreshWith? && Timely(events + [e] + [next])
    requires AnswerTo(cfg, Run(cfg, Init, events), e).Pair?
    requires next.token == Signed(AnswerTo(cfg, Run(cfg, Init, events), e).refresh)
    requires next.decodeAt + 1_000_000 <= e.issue.refresh + cfg.refreshTokenExpireDays * 86_400_000_000
    requires next.checkAt <= e.issue.persist + cfg.refreshTokenExpireDays * 86_400_000_000
    ensures AnswerTo(cfg, Run(cfg, Init, events + [e]), next).Pair?
  {
    var all, past := events + [e] + [next], events + [e];
    assert all[|events|] == e && all[|past|] == next && past[..|events|] == events;
    assert forall i :: 0 <= i < |events| ==> all[i] == events[i];
    assert forall i :: 0 <= i < |past| ==> all[i] == past[i];
    RunRefines(cfg, events, Start(e));
    SameAnswer(cfg, Run(cfg, Init, events), LedgerRun(cfg, Empty, events), Start(e), e);
    MintedIsHead(cfg, LedgerRun(cfg, Empty, events), e);
    AcceptedExactlyWhenHead(cfg, past, next);
    PairExactly(cfg, Run(cfg, Init, events), AnswerTo(cfg, Run(cfg, Init, events), e).access.sub,
                AnswerTo(cfg, Run(cfg, Init, events), e).access.role, e.issue);
  }

  function Unrevoked(s: Auth): set<Claims> {
    set c | c in s.registry && !s.registry[c].revoked
  }

  /** The chains whose head is gone: purged, and only after it had expired. */
  function PurgedHeads(s: Auth, l: Ledger): set<Claims> {
    set c | c in l.heads && c !in s.registry
  }

  lemma {:induction false} DistinctElements(s: seq<Claims>)
    requires forall i, j :: 0 <= i < j < |s| ==> s[i] != s[j]
    ensures |set c | c in s| == |s|
  {
    if s != [] {
      var init := s[..|s| - 1];
      DistinctElements(init);
      assert (set c | c in s) == (set c | c in init) + {s[|s| - 1]};
    }
  }

  lemma HeadsSplit(s: Auth, l: Ledger, now: Time)
    requires ChainsOk(l) && Refines(s, l, now)
    ensures forall c :: c in Unrevoked(s) <==> c in l.heads && c in s.registry
    ensures (set c | c in l.heads) == Unrevoked(s) + PurgedHeads(s, l)
  {
    forall c | c in l.heads ensures IsHead(l, c) {
      var k :| 0 <= k < |l.heads| && l.heads[k] == c;
    }
  }

  lemma HeadsAreDistinct(l: Ledger)
    requires ChainsOk(l)
    ensures |set c | c in l.heads| == |l.heads|
  {
    DistinctElements(l.heads);
  }

  lemma PurgedHasExpired(s: Auth, l: Ledger, now: Time, c: Claims)
    requires LedgerOk(l) && Refines(s, l, now) && c in PurgedHeads(s, l)
    ensures c.exp * SECOND < now
  {
    var k :| 0 <= k < |l.heads| && l.heads[k] == c;
    assert IsHead(l, c);
  }

  /**
   * Conservation: unrevoked records plus expired heads purged make up the successful logins. So
   * between a login and the purge of its last token the chain has exactly one unrevoked record.
   */
  lemma UnrevokedPlusPurgedIsLogins(cfg: Settings, events: seq<Event>, now: Time)
    requires Timely(events) && Before(events, now)
    ensures var s, l := Run(cfg, Init, events), LedgerRun(cfg, Empty, events);
            && |Unrevoked(s)| + |PurgedHeads(s, l)| == Logins(events)
            && (forall c :: c in Unrevoked(s) <==> c in l.heads && c in s.registry)
            && (forall c :: c in PurgedHeads(s, l) ==> c.exp * SECOND < now)
  {
    RunRefines(cfg, events, now);
    OneChainPerLogin(cfg, events, now);
    var s, l := Run(cfg, Init, events), LedgerRun(cfg, Empty, events);
    HeadsAreDistinct(l);
    HeadsSplit(s, l, now);
    forall c | c in PurgedHeads(s, l) ensures c.exp * SECOND < now {
      PurgedHasExpired(s, l, now, c);
    }
  }
}
