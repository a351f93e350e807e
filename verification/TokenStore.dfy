/** The refresh-token table and the authentication service on it, writing rows in place. */
module TokenStore {
  import opened ReviewTypes
  import opened RefreshTokens

  class Table {
    var tokens: seq<Token>

    constructor ()
      ensures tokens == []
    {
      tokens := [];
    }

    method CreateRefreshToken(userId: Id, hash: string, expiresAt: Time)
      modifies this
      ensures tokens == RefreshTokens.Create(old(tokens), userId, hash, expiresAt)
    {
      tokens := tokens + [Token(userId, hash, expiresAt, None)];
    }

    /** Revokes the row if it is still unrevoked and unexpired, and stores its successor in the same
        transaction. */
    method RotateRefreshToken(k: nat, userId: Id, hash: string, expiresAt: Time, now: Time) returns (rotated: bool)
      modifies this
      ensures rotated == Rotatable(old(tokens), k, now)
      ensures tokens == if rotated then RefreshTokens.Create(Revoked(old(tokens), k, now), userId, hash, expiresAt)
                        else old(tokens)
    {
      if k >= |tokens| || tokens[k].revokedAt.Some? || tokens[k].expiresAt <= now { return false; }
      tokens := tokens[k := tokens[k].(revokedAt := Some(now))];
      CreateRefreshToken(userId, hash, expiresAt);
      return true;
    }

    method RevokeAllRefreshTokens(userId: Id, now: Time)
      modifies this
      ensures tokens == RevokedAll(old(tokens), userId, now)
    {
      for k := 0 to |tokens|
        invariant |tokens| == |old(tokens)|
        invariant forall i :: k <= i < |tokens| ==> tokens[i] == old(tokens)[i]
        invariant forall i :: 0 <= i < k ==> tokens[i] == RevokedAll(old(tokens), userId, now)[i]
      {
        if tokens[k].userId == userId && tokens[k].revokedAt.None? {
          tokens := tokens[k := tokens[k].(revokedAt := Some(now))];
        }
      }
    }

    method Login(userId: Id, newHash: string, expiresAt: Time)
      modifies this
      ensures tokens == Perform(Request.Login(userId, newHash, expiresAt), old(tokens), old(tokens)).tokens
    {
      CreateRefreshToken(userId, newHash, expiresAt);
    }

    /** `read` is the table as it was when the active tokens were looked up. */
    method Refresh(userId: Id, hash: string, newHash: string, expiresAt: Time, readAt: Time, now: Time, admitted: bool,
                   read: seq<Token>)
      returns (error: Option<ErrorCode>)
      modifies this
      ensures Outcome(tokens, error)
              == Perform(Request.Refresh(userId, hash, newHash, expiresAt, readAt, now, admitted), read, old(tokens))
    {
      var k := FindActive(read, userId, hash);
      if k.None? { return Some(TokenInvalid); }
      if read[k.value].expiresAt <= readAt { return Some(TokenExpired); }
      if !admitted { return Some(UserUnavailable); }
      var rotated := RotateRefreshToken(k.value, userId, newHash, expiresAt, now);
      return if rotated then None else Some(RefreshTokenRevoked);
    }

    method Logout(userId: Id, hash: Option<string>, now: Time, read: seq<Token>)
      modifies this
      ensures var rq := if hash.None? then LogoutAll(userId, now) else Request.Logout(userId, hash.value, now);
              tokens == Perform(rq, read, old(tokens)).tokens
    {
      if hash.None? {
        RevokeAllRefreshTokens(userId, now);
        return;
      }
      var k := FindActive(read, userId, hash.value);
      if k.Some? && k.value < |tokens| {
        tokens := tokens[k.value := tokens[k.value].(revokedAt := Some(now))];
      }
    }
  }
}
