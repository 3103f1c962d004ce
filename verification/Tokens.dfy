/** Login, refresh with rotation, and the cleanup job, over one token registry. */
module Tokens {
  import opened Jwt

  datatype User = User(password: string, role: string, enabled: bool)
  datatype Record = Record(username: string, expiresAt: Time, revoked: bool)

  /** The registry table; `signed` is every token the key has signed, `nextJti` the next fresh id. */
  datatype Auth = Auth(registry: map<Claims, Record>, signed: set<Claims>, nextJti: nat)

  /** The clock readings taken while a pair is minted and stored. */
  datatype IssueClock = IssueClock(access: Time, refresh: Time, persist: Time)

  datatype Event =
    | Login(users: map<string, User>, username: string, password: string, issue: IssueClock)
    | RefreshWith(token: Token, decodeAt: Time, checkAt: Time, issue: IssueClock)
    | Cleanup(at: Time)

  datatype Answer =
    | Pair(access: Claims, refresh: Claims, expiresIn: nat)
    | InvalidCredentials
    | Rejected(error: JwtError)
    | RevokedOrExpired
    | Deleted(count: nat)

  const Init := Auth(map[], {}, 0)

  function Credentials(users: map<string, User>, username: string, password: string): bool {
    username in users && users[username].enabled && users[username].password == password
  }

  function NewAccess(cfg: Settings, nextJti: nat, sub: string, role: string, at: IssueClock): Claims {
    Encode(cfg, at.access, sub, role, Access, nextJti)
  }

  function NewRefresh(cfg: Settings, nextJti: nat, sub: string, role: string, at: IssueClock): Claims {
    Encode(cfg, at.refresh, sub, role, Refresh, nextJti + 1)
  }

  function NewExpiry(cfg: Settings, at: IssueClock): Time {
    at.persist + TtlSeconds(cfg, Refresh) * SECOND
  }

  function NewPair(cfg: Settings, nextJti: nat, sub: string, role: string, at: IssueClock): Answer {
    Pair(NewAccess(cfg, nextJti, sub, role, at), NewRefresh(cfg, nextJti, sub, role, at), TtlSeconds(cfg, Access))
  }

  function IssueTokenPair(cfg: Settings, s: Auth, sub: string, role: string, at: IssueClock): Auth {
    var access, refresh := NewAccess(cfg, s.nextJti, sub, role, at), NewRefresh(cfg, s.nextJti, sub, role, at);
    Auth(s.registry[refresh := Record(sub, NewExpiry(cfg, at), false)], s.signed + {access, refresh}, s.nextJti + 2)
  }

  predicate Purgeable(r: Record, now: Time) {
    r.revoked || r.expiresAt < now
  }

  function Purge(registry: map<Claims, Record>, now: Time): map<Claims, Record> {
    map t | t in registry && !Purgeable(registry[t], now) :: registry[t]
  }

  function AnswerTo(cfg: Settings, s: Auth, e: Event): Answer {
    match e
    case Login(users, username, password, issue) =>
      if Credentials(users, username, password)
      then NewPair(cfg, s.nextJti, username, users[username].role, issue) else InvalidCredentials
    case RefreshWith(token, decodeAt, checkAt, issue) =>
      (match DecodeToken(s.signed, token, Refresh, decodeAt)
       case Err(error) => Rejected(error)
       case Ok(c) =>
         if c !in s.registry || Purgeable(s.registry[c], checkAt) then RevokedOrExpired
         else NewPair(cfg, s.nextJti, c.sub, c.role, issue))
    case Cleanup(at) => Deleted(|s.registry.Keys - Purge(s.registry, at).Keys|)
  }

  function Next(cfg: Settings, s: Auth, e: Event): Auth {
    if e.Cleanup? then s.(registry := Purge(s.registry, e.at))
    else
      match AnswerTo(cfg, s, e)
      case Pair(access, refresh, _) =>
        var revoked := if e.RefreshWith? && e.token.Signed? && e.token.claims in s.registry
                       then s.(registry := s.registry[e.token.claims := s.registry[e.token.claims].(revoked := true)])
                       else s;
        IssueTokenPair(cfg, revoked, access.sub, access.role, e.issue)
      case _ => s
  }

  function Run(cfg: Settings, s: Auth, events: seq<Event>): Auth {
    if events == [] then s else Next(cfg, Run(cfg, s, events[..|events| - 1]), events[|events| - 1])
  }

  /** Answers to the requests of a run; the cleanup job answers nobody. */
  function Answers(cfg: Settings, s: Auth, events: seq<Event>): seq<Answer> {
    if events == [] then []
    else
      var init, e := events[..|events| - 1], events[|events| - 1];
      if e.Cleanup? then Answers(cfg, s, init)
      else Answers(cfg, s, init) + [AnswerTo(cfg, Run(cfg, s, init), e)]
  }

  // ---------------------------------------------------------------- the requests, spelled out

  /**
   * A minted pair: an access and a refresh token for the user and role, each under an id of its own,
   * signed, good for the configured minutes and days; the refresh token is recorded, unrevoked.
   */
  lemma PairExactly(cfg: Settings, s: Auth, sub: string, role: string, at: IssueClock)
    ensures var pair, t := NewPair(cfg, s.nextJti, sub, role, at), IssueTokenPair(cfg, s, sub, role, at);
            && (pair.access.kind, pair.access.sub, pair.access.role) == (Access, sub, role)
            && (pair.refresh.kind, pair.refresh.sub, pair.refresh.role) == (Refresh, sub, role)
            && s.nextJti <= pair.access.jti < t.nextJti && s.nextJti <= pair.refresh.jti < t.nextJti
            && pair.access.jti != pair.refresh.jti
            && pair.expiresIn == cfg.accessTokenExpireMinutes * 60
            && t.signed == s.signed + {pair.access, pair.refresh}
            && t.registry == s.registry[pair.refresh :=
                 Record(sub, at.persist + cfg.refreshTokenExpireDays * 86_400_000_000, false)]
    ensures var pair := NewPair(cfg, s.nextJti, sub, role, at);
            && 0 <= at.access + cfg.accessTokenExpireMinutes * 60_000_000 - pair.access.exp * 1_000_000 < 1_000_000
            && 0 <= at.refresh + cfg.refreshTokenExpireDays * 86_400_000_000 - pair.refresh.exp * 1_000_000 < 1_000_000
            && 0 <= at.access - pair.access.iat * 1_000_000 < 1_000_000
            && 0 <= at.refresh - pair.refresh.iat * 1_000_000 < 1_000_000
  {
  }

  /** A login is accepted if and only if the user exists, is enabled and has that password. */
  lemma LoginExactly(cfg: Settings, s: Auth, users: map<string, User>, username: string, password: string,
                     at: IssueClock)
    ensures var e := Login(users, username, password, at);
            if username in users && users[username].enabled && users[username].password == password
            then && AnswerTo(cfg, s, e) == NewPair(cfg, s.nextJti, username, users[username].role, at)
                 && Next(cfg, s, e) == IssueTokenPair(cfg, s, username, users[username].role, at)
            else AnswerTo(cfg, s, e) == InvalidCredentials && Next(cfg, s, e) == s
  {
  }

  /**
   * A refresh is accepted if and only if the token decodes as a refresh token and its record is there,
   * unrevoked and not past its expiry; then that record alone is revoked and a pair minted for the
   * token's own user and role. Otherwise nothing changes.
   */
  lemma RefreshExactly(cfg: Settings, s: Auth, token: Token, decodeAt: Time, checkAt: Time, at: IssueClock)
    ensures var e := RefreshWith(token, decodeAt, checkAt, at);
            match DecodeToken(s.signed, token, Refresh, decodeAt)
            case Err(error) => AnswerTo(cfg, s, e) == Rejected(error) && Next(cfg, s, e) == s
            case Ok(c) =>
              if c in s.registry && !s.registry[c].revoked && checkAt <= s.registry[c].expiresAt
              then && AnswerTo(cfg, s, e) == NewPair(cfg, s.nextJti, c.sub, c.role, at)
                   && Next(cfg, s, e) ==
                      IssueTokenPair(cfg, s.(registry := s.registry[c := s.registry[c].(revoked := true)]),
                                     c.sub, c.role, at)
              else AnswerTo(cfg, s, e) == RevokedOrExpired && Next(cfg, s, e) == s
  {
  }

  // ---------------------------------------------------------------- the clock

  function Start(e: Event): Time {
    match e
    case Login(_, _, _, issue) => issue.access
    case RefreshWith(_, decodeAt, _, _) => decodeAt
    case Cleanup(at) => at
  }

  function End(e: Event): Time {
    if e.Cleanup? then e.at else e.issue.persist
  }

  predicate InOrder(e: Event) {
    && (!e.Cleanup? ==> e.issue.access <= e.issue.refresh <= e.issue.persist)
    && (e.RefreshWith? ==> e.decodeAt <= e.checkAt <= e.issue.access)
  }

  /** Requests are serialised and the clock never goes back, within a request or between two. */
  ghost predicate Timely(events: seq<Event>) {
    && (forall i :: 0 <= i < |events| ==> InOrder(events[i]))
    && (forall i, j :: 0 <= i < j < |events| ==> End(events[i]) <= Start(events[j]))
  }

  /** Every event before `now`. */
  ghost predicate Before(events: seq<Event>, now: Time) {
    forall i :: 0 <= i < |events| ==> End(events[i]) <= now
  }

  // ---------------------------------------------------------------- the registry object

  class AuthService {
    const cfg: Settings
    var registry: map<Claims, Record>
    var nextJti: nat
    /** Stands for the signing key: the tokens whose signature it verifies. */
    var signed: set<Claims>

    ghost function State(): Auth
      reads this
    {
      Auth(registry, signed, nextJti)
    }

    constructor (cfg: Settings)
      ensures this.cfg == cfg && State() == Init
    {
      this.cfg := cfg;
      registry, nextJti, signed := map[], 0, {};
    }

    method IssuePair(sub: string, role: string, at: IssueClock) returns (answer: Answer)
      modifies this
      ensures State() == IssueTokenPair(cfg, old(State()), sub, role, at)
      ensures answer == NewPair(cfg, old(nextJti), sub, role, at)
    {
      var access := Encode(cfg, at.access, sub, role, Access, nextJti);
      var refresh := Encode(cfg, at.refresh, sub, role, Refresh, nextJti + 1);
      nextJti, signed := nextJti + 2, signed + {access, refresh};
      registry := registry[refresh := Record(sub, at.persist + TtlSeconds(cfg, Refresh) * SECOND, false)];
      answer := Pair(access, refresh, TtlSeconds(cfg, Access));
    }

    method LogIn(users: map<string, User>, username: string, password: string, at: IssueClock) returns (answer: Answer)
      modifies this
      ensures answer == AnswerTo(cfg, old(State()), Login(users, username, password, at))
      ensures State() == Next(cfg, old(State()), Login(users, username, password, at))
      ensures answer.Pair? <==>
                username in users && users[username].enabled && users[username].password == password
      ensures !answer.Pair? ==> answer == InvalidCredentials && State() == old(State())
    {
      if username !in users || !users[username].enabled || users[username].password != password {
        return InvalidCredentials;
      }
      answer := IssuePair(username, users[username].role, at);
    }

    method Rotate(token: Token, decodeAt: Time, checkAt: Time, at: IssueClock) returns (answer: Answer)
      modifies this
      ensures answer == AnswerTo(cfg, old(State()), RefreshWith(token, decodeAt, checkAt, at))
      ensures State() == Next(cfg, old(State()), RefreshWith(token, decodeAt, checkAt, at))
    {
      var decoded := DecodeToken(signed, token, Refresh, decodeAt);
      if decoded.Err? {
        return Rejected(decoded.error);
      }
      var claims := decoded.claims;
      if claims !in registry || registry[claims].revoked || registry[claims].expiresAt < checkAt {
        return RevokedOrExpired;
      }
      registry := registry[claims := registry[claims].(revoked := true)];
      answer := IssuePair(claims.sub, claims.role, at);
    }

    method CleanupRefreshTokens(now: Time) returns (count: nat)
      modifies this
      ensures State() == Next(cfg, old(State()), Cleanup(now))
      ensures AnswerTo(cfg, old(State()), Cleanup(now)) == Deleted(count)
      ensures count + |registry| == old(|registry|)
      ensures forall t :: t in registry <==>
                t in old(registry) && !old(registry)[t].revoked && now <= old(registry)[t].expiresAt
      ensures forall t :: t in registry ==> registry[t] == old(registry)[t]
      ensures signed == old(signed) && nextJti == old(nextJti)
    {
      var kept := map t | t in registry && !(registry[t].revoked || registry[t].expiresAt < now) :: registry[t];
      assert kept == Purge(registry, now);
      count := |registry.Keys - kept.Keys|;
      assert registry.Keys == kept.Keys + (registry.Keys - kept.Keys);
      registry := kept;
    }
  }
}
