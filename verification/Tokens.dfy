/** Refresh tokens on the server: the live ids in Redis and the calls that rotate or revoke them. */
module Tokens {
  import opened Prelude

  /** The Redis key `refresh_token:{userId}:{jti}`. */
  datatype Token = Token(user: string, jti: string)

  datatype Claims = Claims(token: Token, typ: string)

  datatype UserRow = UserRow(isBanned: bool, deletedAt: Option<int>) {
    predicate Active() {
      !isBanned && deletedAt.None?
    }
  }

  datatype RefreshResult = TokenInvalid | WrongTokenType | TokenRevoked | UserInactive | Pair(token: Token)

  class TokenService {
    var live: set<Token>

    constructor ()
      ensures live == {}
    {
      live := {};
    }

    /** `jti` is a new uuid. */
    method IssueTokenPair(userId: string, jti: string) returns (t: Token)
      modifies this
      ensures t == Token(userId, jti) && live == old(live) + {t}
    {
      t := Token(userId, jti);
      live := live + {t};
    }

    method RevokeRefresh(t: Token)
      modifies this
      ensures live == old(live) - {t}
    {
      live := live - {t};
    }

    method RevokeAllForUser(userId: string) returns (n: nat)
      modifies this
      ensures live == old(live) - SessionsOf(old(live), userId)
      ensures forall t :: t in live <==> t in old(live) && t.user != userId
      ensures n == |SessionsOf(old(live), userId)|
    {
      var keys := SessionsOf(live, userId);
      n := |keys|;
      live := live - keys;
    }

    predicate IsRefreshActive(t: Token)
      reads this
    {
      t in live
    }
  }

  function SessionsOf(live: set<Token>, userId: string): set<Token> {
    set t | t in live && t.user == userId
  }

  class AuthService {
    const tokens: TokenService

    constructor (tokens: TokenService)
      ensures this.tokens == tokens
    {
      this.tokens := tokens;
    }

    /** `refresh` when no other call interleaves. `claims` is the verified payload, `user` the row
        found under its subject. A presented token never survives, and a new one needs it live. */
    method Refresh(claims: Option<Claims>, user: Option<UserRow>, jti: string) returns (r: RefreshResult)
      modifies tokens
      ensures r.TokenInvalid? <==> claims.None?
      ensures r.WrongTokenType? <==> claims.Some? && claims.value.typ != "refresh"
      ensures r.TokenInvalid? || r.WrongTokenType? ==> tokens.live == old(tokens.live)
      ensures claims.Some? && claims.value.typ == "refresh" ==>
        var presented, renewed := claims.value.token, Token(claims.value.token.user, jti);
        && (r.TokenRevoked? <==> presented !in old(tokens.live))
        && (r.Pair? <==> presented in old(tokens.live) && user.Some? && user.value.Active())
        && (r.Pair? ==> r.token == renewed)
        && tokens.live == (old(tokens.live) - {presented}) + (if r.Pair? then {renewed} else {})
    {
      if claims.None? {
        return TokenInvalid;
      }
      var payload := claims.value;
      if payload.typ != "refresh" {
        return WrongTokenType;
      }
      var active := tokens.IsRefreshActive(payload.token);
      if !active {
        return TokenRevoked;
      }
      tokens.RevokeRefresh(payload.token);
      if user.None? || user.value.isBanned || user.value.deletedAt.Some? {
        return UserInactive;
      }
      var t := tokens.IssueTokenPair(payload.token.user, jti);
      return Pair(t);
    }

    /** An unverifiable token is swallowed: logging out is idempotent. */
    method Logout(userId: string, refreshToken: Option<Option<Token>>, allDevices: bool)
      modifies tokens
      ensures tokens.live == old(tokens.live) -
        (if allDevices then SessionsOf(old(tokens.live), userId)
         else if refreshToken.Some? && refreshToken.value.Some? then {refreshToken.value.value} else {})
    {
      if allDevices {
        var _ := tokens.RevokeAllForUser(userId);
        return;
      }
      if refreshToken.None? {
        return;
      }
      match refreshToken.value
      case Some(t) => tokens.RevokeRefresh(t);
      case None =>
    }

    /** `matches` is the outcome of the bcrypt comparison, if the user has a password at all. */
    method ChangePassword(userId: string, matches: Option<bool>) returns (revokedSessions: Option<nat>)
      modifies tokens
      ensures revokedSessions.Some? <==> matches == Some(true)
      ensures revokedSessions.None? ==> tokens.live == old(tokens.live)
      ensures revokedSessions.Some? ==>
        && SessionsOf(tokens.live, userId) == {}
        && (forall u :: u != userId ==> SessionsOf(tokens.live, u) == SessionsOf(old(tokens.live), u))
        && revokedSessions.value == |SessionsOf(old(tokens.live), userId)|
    {
      if matches != Some(true) {
        return None;
      }
      var n := tokens.RevokeAllForUser(userId);
      return Some(n);
    }
  }
}
