/**
 * Token building and checking (RFC 7519: `exp` is section 4.1.4, `iat` is 4.1.6, `jti` is 4.1.7).
 * Times are microseconds since the epoch; a signed token is its claims, and the verifier
 * accepts exactly the claims that were signed.
 */
module Jwt {
  type Time = int
  const SECOND: Time := 1_000_000

  datatype TokenType = Access | Refresh
  datatype Claims = Claims(sub: string, role: string, kind: TokenType, jti: nat, iat: int, exp: int)
  datatype Token = Signed(claims: Claims) | Junk(text: string)

  datatype Settings = Settings(accessTokenExpireMinutes: nat, refreshTokenExpireDays: nat)

  datatype JwtError = InvalidToken | TokenExpired | WrongTokenType
  datatype Decoded = Ok(claims: Claims) | Err(error: JwtError)

  function TtlSeconds(cfg: Settings, kind: TokenType): nat {
    match kind
    case Access => cfg.accessTokenExpireMinutes * 60
    case Refresh => cfg.refreshTokenExpireDays * 24 * 60 * 60
  }

  /** Both time claims are whole numbers of seconds, so neither is later than the time it stands for. */
  function Encode(cfg: Settings, now: Time, sub: string, role: string, kind: TokenType, jti: nat): (c: Claims)
    ensures c.exp * SECOND <= now + TtlSeconds(cfg, kind) * SECOND < (c.exp + 1) * SECOND
    ensures c.iat * SECOND <= now < (c.iat + 1) * SECOND
  {
    Claims(sub, role, kind, jti, now / SECOND, (now + TtlSeconds(cfg, kind) * SECOND) / SECOND)
  }

  function DecodeToken(signed: set<Claims>, token: Token, expected: TokenType, now: Time): Decoded {
    match token
    case Junk(_) => Err(InvalidToken)
    case Signed(claims) =>
      if claims !in signed || now < claims.iat * SECOND then Err(InvalidToken)
      else if claims.exp * SECOND <= now then Err(TokenExpired)
      else if claims.kind != expected then Err(WrongTokenType)
      else Ok(claims)
  }

  /** An issued token decodes to its own claims, under its own type, from its issue until the instant it expires. */
  lemma IssuedTokenDecodes(cfg: Settings, at: Time, sub: string, role: string, kind: TokenType, jti: nat,
                           signed: set<Claims>, expected: TokenType, now: Time)
    requires Encode(cfg, at, sub, role, kind, jti) in signed
    ensures var c := Encode(cfg, at, sub, role, kind, jti);
            && (DecodeToken(signed, Signed(c), expected, now) == Ok(c)
                <==> kind == expected && c.iat * SECOND <= now < c.exp * SECOND)
            && (at <= now && now + SECOND <= at + TtlSeconds(cfg, kind) * SECOND && kind == expected ==>
                  DecodeToken(signed, Signed(c), expected, now) == Ok(c))
            && (now + SECOND <= at || at + TtlSeconds(cfg, kind) * SECOND <= now ==>
                  DecodeToken(signed, Signed(c), expected, now).Err?)
  {
  }

  /** What is wrong with a token that does not decode, in the order in which it is looked at. */
  lemma RefusalExactly(signed: set<Claims>, c: Claims, text: string, expected: TokenType, now: Time)
    ensures DecodeToken(signed, Junk(text), expected, now) == Err(InvalidToken)
    ensures DecodeToken(signed, Signed(c), expected, now) == Err(InvalidToken) <==>
              c !in signed || now < c.iat * 1_000_000
    ensures DecodeToken(signed, Signed(c), expected, now) == Err(TokenExpired) <==>
              c in signed && c.iat * 1_000_000 <= now && c.exp * 1_000_000 <= now
    ensures DecodeToken(signed, Signed(c), expected, now) == Err(WrongTokenType) <==>
              c in signed && c.iat * 1_000_000 <= now < c.exp * 1_000_000 && c.kind != expected
  {
  }
}
