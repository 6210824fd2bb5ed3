/**
 * Session issue and revoke. A session is the Redis key `auth_<token>` holding the
 * user's id for 24 hours; logging out deletes that key. The token (a version-4 UUID,
 * section 4.4 of RFC 4122) is chosen outside and passed in.
 */
module Auth {
  import opened Wrappers
  import opened Http
  import Redis
  import Users

  /** The lifetime of a session, in seconds: 24 * 60 * 60. */
  const SessionTtl: nat := 24 * 60 * 60

  const KeyPrefix := "auth_"

  /** The Redis key of the session a token names. */
  function SessionKey(token: string): string
  {
    KeyPrefix + token
  }

  /**
   * The text a template literal makes of the `x-token` header: the header itself, or
   * `"undefined"` when the request has none (so a logout without the header deletes
   * the key `auth_undefined`).
   */
  function HeaderText(header: Option<string>): string
  {
    match header
    case Some(t) => t
    case None => "undefined"
  }

  /** What a lookup of the token's session key gives. */
  function Resolve(entries: map<string, Redis.Entry>, now: nat, token: string): Option<string>
  {
    Redis.Lookup(entries, now, SessionKey(token))
  }

  /** The store after getConnect: the session key written with the user's id and the session lifetime. */
  function Connect(entries: map<string, Redis.Entry>, now: nat, userId: string, token: string): map<string, Redis.Entry>
  {
    Redis.SetEx(entries, now, SessionKey(token), userId, SessionTtl)
  }

  /** The store after getDisconnect: the session key of the header's token deleted. */
  function Disconnect(entries: map<string, Redis.Entry>, header: Option<string>): map<string, Redis.Entry>
  {
    Redis.Delete(entries, SessionKey(HeaderText(header)))
  }

  /** Distinct tokens name distinct sessions. */
  lemma SessionKeyInjective(t1: string, t2: string)
    ensures SessionKey(t1) == SessionKey(t2) <==> t1 == t2
  {
    if SessionKey(t1) == SessionKey(t2) {
      assert t1 == SessionKey(t1)[|KeyPrefix|..];
      assert t2 == SessionKey(t2)[|KeyPrefix|..];
    }
  }

  /** getConnect: one SETEX of `auth_<token>` to the user's id for 24 hours, then 200 with that same token. */
  method GetConnect(redis: Redis.RedisClient, user: Users.UserDoc, token: string) returns (response: Response)
    requires redis.Valid()
    modifies redis`entries
    ensures redis.Valid()
    ensures redis.entries == Connect(old(redis.entries), redis.now, user.id, token)
    ensures response == Response(200, TokenBody(token))
  {
    var ok := redis.Set(SessionKey(token), user.id, SessionTtl);
    assert ok;
    response := Response(200, TokenBody(token));
  }

  /** getDisconnect: DEL of `auth_<x-token>` without any check, then 204 with an empty body. */
  method GetDisconnect(redis: Redis.RedisClient, xToken: Option<string>) returns (response: Response)
    requires redis.Valid()
    modifies redis`entries
    ensures redis.Valid()
    ensures redis.entries == Disconnect(old(redis.entries), xToken)
    ensures response == Response(204, Empty)
  {
    redis.Del(SessionKey(HeaderText(xToken)));
    response := Response(204, Empty);
  }

  /** Right after connect, and for 24 hours, the token resolves to the user's id; from then on it does not. */
  lemma ConnectThenResolve(entries: map<string, Redis.Entry>, now: nat, userId: string, token: string, later: nat)
    requires now <= later
    ensures Resolve(Connect(entries, now, userId, token), later, token)
         == if later < now + SessionTtl then Some(userId) else None
  {
  }

  /** Connect writes the one session key and nothing else. */
  lemma ConnectWritesOnlyItsKey(entries: map<string, Redis.Entry>, now: nat, userId: string, token: string)
    ensures Connect(entries, now, userId, token).Keys == entries.Keys + {SessionKey(token)}
    ensures forall k :: k in entries && k != SessionKey(token) ==> Connect(entries, now, userId, token)[k] == entries[k]
  {
  }

  /** After disconnect the token resolves to nothing, at any instant; a second disconnect changes nothing. */
  lemma DisconnectRevokes(entries: map<string, Redis.Entry>, token: string, later: nat)
    ensures Resolve(Disconnect(entries, Some(token)), later, token) == None
    ensures Disconnect(Disconnect(entries, Some(token)), Some(token)) == Disconnect(entries, Some(token))
  {
  }

  /** Two sessions with distinct tokens are independent: logging one out leaves the other readable for its whole lifetime. */
  lemma SessionsIndependent(entries: map<string, Redis.Entry>, now: nat, u1: string, t1: string, u2: string, t2: string, later: nat)
    requires t1 != t2 && now <= later
    ensures Resolve(Connect(Connect(entries, now, u1, t1), now, u2, t2), later, t1)
         == if later < now + SessionTtl then Some(u1) else None
    ensures Resolve(Disconnect(Connect(Connect(entries, now, u1, t1), now, u2, t2), Some(t2)), later, t1)
         == if later < now + SessionTtl then Some(u1) else None
    ensures Resolve(Disconnect(Connect(Connect(entries, now, u1, t1), now, u2, t2), Some(t2)), later, t2) == None
  {
    SessionKeyInjective(t1, t2);
  }

  /**
   * Whatever other requests the server handles after a connect, as long as none of them
   * writes this session's key, the token resolves to the user's id until 24 hours have
   * passed and never afterwards.
   */
  lemma SessionLastsExactlyTtl(s: Redis.Server, userId: string, token: string, cs: seq<Redis.Command>)
    requires forall i :: 0 <= i < |cs| ==> !Redis.Writes(cs[i], SessionKey(token))
    ensures var after := Redis.Run(Redis.Server(Connect(s.entries, s.now, userId, token), s.now), cs);
      Resolve(after.entries, after.now, token) == if after.now < s.now + SessionTtl then Some(userId) else None
  {
    Redis.UntouchedKeyKeepsEntry(Redis.Server(Connect(s.entries, s.now, userId, token), s.now), cs, SessionKey(token));
  }

  /**
   * A login / logout round on a fresh client: the session reads back as the user's id,
   * reads as absent after logout, and a second logout answers 204 as well.
   */
  method LoginLogoutRound(initial: map<string, Redis.Entry>, clock: nat, user: Users.UserDoc, token: string)
    returns (before: Option<string>, after: Option<string>, first: Response, second: Response)
    ensures before == Some(user.id)
    ensures after == None
    ensures first == second == Response(204, Empty)
  {
    var redis := new Redis.RedisClient(initial, clock);
    var login := GetConnect(redis, user, token);
    before := redis.Get(SessionKey(login.body.token));
    first := GetDisconnect(redis, Some(token));
    after := redis.Get(SessionKey(token));
    second := GetDisconnect(redis, Some(token));
  }
}
