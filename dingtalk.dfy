/**
 * The single-sign-on side: the process-wide one-slot cache of the
 * DingTalk access token (`getAccessToken`) and POST `/dingtalk/verifyUser`,
 * which resolves a login code to a user and upserts that user into
 * `app_users`.
 *
 * The remote gateway is not modelled: each call to it is an argument that
 * says what it answered (or that it failed). Clocks are arguments too.
 */
module DingTalk {
  import opened Wrappers

  /** Seconds subtracted from the provider's `expires_in` so that the token is refreshed early. */
  const SafetyMarginSeconds := 300

  /** A JavaScript number used as an instant in milliseconds; `NaN` comes from an answer without `expires_in`, and no comparison with it holds. */
  datatype Instant = Millis(ms: int) | NaN

  /** The value of `accessTokenCache`; an empty token stands for every falsy one. */
  datatype Cache = Cache(token: string, expireTime: Instant)

  const EmptyCache := Cache("", Millis(0))

  /** What the gettoken call produced: an answer (whose fields may be missing) or a thrown error. */
  datatype TokenReply = TokenAnswer(accessToken: string, expiresIn: Option<int>) | TokenCallFailed

  /** The outcome of `getAccessToken`: a token, or the error "获取钉钉access_token失败". */
  datatype TokenResult = Token(value: string) | TokenError

  /** One call of `getAccessToken`: its result, the cache afterwards, and whether it called the gateway. */
  datatype Lookup = Lookup(result: TokenResult, cache: Cache, fetched: bool)

  /** `accessTokenCache.token && accessTokenCache.expireTime > now`. */
  predicate Fresh(c: Cache, now: int) {
    c.token != "" && c.expireTime.Millis? && c.expireTime.ms > now
  }

  /** `now + (expires_in - 300) * 1000`. */
  function ExpiryAfter(now: int, expiresIn: Option<int>): Instant {
    if expiresIn.None? then NaN else Millis(now + (expiresIn.value - SafetyMarginSeconds) * 1000)
  }

  /** `getAccessToken()` at instant `now`, where `reply` is what the gateway would answer if asked. */
  function GetToken(c: Cache, now: int, reply: TokenReply): (r: Lookup)
    ensures !r.fetched <==> Fresh(c, now)
    ensures !r.fetched ==> r.result == Token(c.token) && r.cache == c
    ensures r.result.TokenError? <==> r.fetched && reply.TokenCallFailed?
    ensures r.result.TokenError? ==> r.cache == c
    ensures r.result.Token? ==> r.cache.token == r.result.value
    ensures r.fetched && reply.TokenAnswer? ==>
      r.result == Token(reply.accessToken) && r.cache == Cache(reply.accessToken, ExpiryAfter(now, reply.expiresIn))
  {
    if Fresh(c, now) then Lookup(Token(c.token), c, false)
    else match reply
      case TokenCallFailed => Lookup(TokenError, c, true)
      case TokenAnswer(token, expiresIn) =>
        Lookup(Token(token), Cache(token, ExpiryAfter(now, expiresIn)), true)
  }

  /** The module-level `accessTokenCache` and the function that reads and reassigns it. */
  class TokenCache {
    var token: string
    var expireTime: Instant

    function Current(): Cache
      reads this
    {
      Cache(token, expireTime)
    }

    constructor ()
      ensures Current() == EmptyCache
    {
      token, expireTime := "", Millis(0);
    }

    method GetAccessToken(now: int, reply: TokenReply) returns (result: TokenResult, fetched: bool)
      modifies this
      ensures Lookup(result, Current(), fetched) == GetToken(old(Current()), now, reply)
    {
      if token != "" && expireTime.Millis? && expireTime.ms > now {
        return Token(token), false;
      }
      fetched := true;
      match reply {
        case TokenCallFailed =>
          result := TokenError;
        case TokenAnswer(accessToken, expiresIn) =>
          token, expireTime := accessToken, ExpiryAfter(now, expiresIn);
          result := Token(accessToken);
      }
    }
  }

  /** One call of `getAccessToken` in a sequence of calls. */
  datatype Call = Call(now: int, reply: TokenReply)

  /** A run of calls against the cache: the results, the final cache, and how many calls reached the gateway. */
  datatype Run = Run(results: seq<TokenResult>, cache: Cache, fetches: nat)

  /** `getAccessToken` called once per element of `calls`, each call seeing the cache the previous one left. */
  function Replay(c: Cache, calls: seq<Call>): (r: Run)
    ensures |r.results| == |calls| && r.fetches <= |calls|
    ensures r.fetches == 0 ==> r.cache == c && forall k :: 0 <= k < |r.results| ==> r.results[k] == Token(c.token)
    ensures calls != [] && !Fresh(c, calls[0].now) ==> r.fetches >= 1
    decreases |calls|
  {
    if calls == [] then Run([], c, 0)
    else
      var first := GetToken(c, calls[0].now, calls[0].reply);
      var rest := Replay(first.cache, calls[1..]);
      Run([first.result] + rest.results, rest.cache, rest.fetches + (if first.fetched then 1 else 0))
  }

  /** While a non-empty cached token has not expired, every call returns it and none reaches the gateway. */
  lemma {:induction false} NoFetchBeforeExpiry(c: Cache, calls: seq<Call>)
    requires c.token != "" && c.expireTime.Millis?
    requires forall k :: 0 <= k < |calls| ==> calls[k].now < c.expireTime.ms
    ensures Replay(c, calls).fetches == 0 && Replay(c, calls).cache == c
    ensures forall k :: 0 <= k < |calls| ==> Replay(c, calls).results[k] == Token(c.token)
  {
    if calls != [] {
      assert forall k :: 0 <= k < |calls[1..]| ==> calls[1..][k] == calls[k + 1];
      NoFetchBeforeExpiry(c, calls[1..]);
    }
  }

  /**
   * A successful refresh with `expires_in` above the safety margin serves
   * every later call made before the new expiry from the cache: one fetch
   * in all, and the same token each time.
   */
  lemma RefreshServesUntilExpiry(c: Cache, now: int, token: string, expiresIn: int, later: seq<Call>)
    requires !Fresh(c, now) && token != ""
    requires forall k :: 0 <= k < |later| ==> now <= later[k].now < now + (expiresIn - SafetyMarginSeconds) * 1000
    ensures var run := Replay(c, [Call(now, TokenAnswer(token, Some(expiresIn)))] + later);
      && run.fetches == 1
      && (forall k :: 0 <= k < |run.results| ==> run.results[k] == Token(token))
      && run.cache == Cache(token, Millis(now + (expiresIn - SafetyMarginSeconds) * 1000))
  {
    var calls := [Call(now, TokenAnswer(token, Some(expiresIn)))] + later;
    assert calls[1..] == later;
    var refreshed := Cache(token, Millis(now + (expiresIn - SafetyMarginSeconds) * 1000));
    NoFetchBeforeExpiry(refreshed, later);
  }

  // POST /dingtalk/verifyUser

  /** A row of `app_users` without its key `userid`. */
  datatype AppUser = AppUser(username: string, companyId: int, avatar: string, lastLogin: int)

  /** The fields of the user-detail answer that the upsert writes. */
  datatype UserDetail = UserDetail(name: string, avatar: string)

  /** A gateway call other than gettoken: an answer, or a thrown error. */
  datatype Remote<T> = Answered(value: T) | CallFailed

  /** What the gateway answers to the three calls of one verification; an empty user id stands for a missing one. */
  datatype Gateway = Gateway(token: TokenReply, userInfo: Remote<string>, detail: Remote<UserDetail>)

  /** New users get the first company. */
  const DefaultCompanyId := 1

  datatype VerifyResponse =
    | MissingCode            // 400, "缺少免登授权码"
    | Unauthorized           // 401, "用户验证失败"
    | VerifyFailed           // 500, "用户验证失败"
    | Verified(data: UserDetail)   // 200, { success: true, code: 0, msg: 'success', data }

  /** The HTTP status of each response. */
  function VerifyStatus(r: VerifyResponse): int {
    match r
    case MissingCode => 400
    case Unauthorized => 401
    case VerifyFailed => 500
    case Verified(_) => 200
  }

  datatype Verification = Verification(response: VerifyResponse, cache: Cache, users: map<string, AppUser>)

  /** The SELECT, then the UPDATE of the existing row or the INSERT of a new one. */
  function Upsert(users: map<string, AppUser>, userid: string, detail: UserDetail, loginTime: int): (r: map<string, AppUser>)
    ensures r.Keys == users.Keys + {userid}
    ensures forall u :: u in users && u != userid ==> r[u] == users[u]
    ensures userid in users ==>
      && r[userid].companyId == users[userid].companyId
      && r[userid].username == detail.name && r[userid].avatar == detail.avatar && r[userid].lastLogin == loginTime
    ensures userid !in users ==> r[userid] == AppUser(detail.name, DefaultCompanyId, detail.avatar, loginTime)
  {
    if userid in users then
      users[userid := users[userid].(username := detail.name, avatar := detail.avatar, lastLogin := loginTime)]
    else
      users[userid := AppUser(detail.name, DefaultCompanyId, detail.avatar, loginTime)]
  }

  /**
   * POST `/dingtalk/verifyUser` with body field `code` (empty for absent).
   * `now` is the clock read by `getAccessToken`, `loginTime` the one
   * written to `last_login`; `storeFails` says that one of the upsert's
   * statements raised an error, which the handler logs and ignores.
   */
  function Verify(c: Cache, users: map<string, AppUser>, code: string, now: int, loginTime: int,
                  gw: Gateway, storeFails: bool): (r: Verification)
    ensures code == "" ==> r == Verification(MissingCode, c, users) && VerifyStatus(r.response) == 400
    ensures r.response == MissingCode <==> code == ""
    ensures code != "" ==> r.cache == GetToken(c, now, gw.token).cache
    ensures !r.response.Verified? ==> r.users == users
    ensures r.response == Unauthorized <==>
      code != "" && GetToken(c, now, gw.token).result.Token? && gw.userInfo == Answered("")
    ensures r.response.Verified? <==>
      code != "" && GetToken(c, now, gw.token).result.Token? &&
      gw.userInfo.Answered? && gw.userInfo.value != "" && gw.detail.Answered?
    ensures r.response.Verified? ==>
      && r.response.data == gw.detail.value
      && r.users == if storeFails then users else Upsert(users, gw.userInfo.value, gw.detail.value, loginTime)
  {
    if code == "" then Verification(MissingCode, c, users)
    else
      var lookup := GetToken(c, now, gw.token);
      if lookup.result.TokenError? then Verification(VerifyFailed, lookup.cache, users)
      else match gw.userInfo
        case CallFailed => Verification(VerifyFailed, lookup.cache, users)
        case Answered(userid) =>
          if userid == "" then Verification(Unauthorized, lookup.cache, users)
          else match gw.detail
            case CallFailed => Verification(VerifyFailed, lookup.cache, users)
            case Answered(detail) =>
              var users' := if storeFails then users else Upsert(users, userid, detail, loginTime);
              Verification(Verified(detail), lookup.cache, users')
  }

  /**
   * A verification that succeeds twice for the same user, at two different
   * instants, keeps one row, with the company it was first given.
   */
  lemma ReloginKeepsOneRow(c: Cache, users: map<string, AppUser>, code: string, now1: int, now2: int,
                           t1: int, t2: int, gw: Gateway, gw2: Gateway)
    requires Verify(c, users, code, now1, t1, gw, false).response.Verified?
    requires gw2.userInfo == gw.userInfo
    requires Verify(Verify(c, users, code, now1, t1, gw, false).cache, Verify(c, users, code, now1, t1, gw, false).users,
                    code, now2, t2, gw2, false).response.Verified?
    ensures var first := Verify(c, users, code, now1, t1, gw, false);
      var second := Verify(first.cache, first.users, code, now2, t2, gw2, false);
      var id := gw.userInfo.value;
      && second.users.Keys == users.Keys + {id}
      && second.users[id] == AppUser(gw2.detail.value.name, first.users[id].companyId, gw2.detail.value.avatar, t2)
      && (id !in users ==> second.users[id].companyId == DefaultCompanyId)
  {
  }

  /** The `app_users` table keyed by `userid`. */
  class UserTable {
    var users: map<string, AppUser>

    constructor (initial: map<string, AppUser>)
      ensures users == initial
    {
      users := initial;
    }

    /** `SELECT * FROM app_users WHERE userid = ?` returned a row. */
    method Exists(userid: string) returns (found: bool)
      ensures found <==> userid in users
    {
      found := userid in users;
    }

    /** `UPDATE app_users SET username = ?, avatar = ?, last_login = ? WHERE userid = ?`. */
    method Update(userid: string, username: string, avatar: string, lastLogin: int)
      modifies this
      ensures userid in old(users) ==>
        users == old(users)[userid := old(users)[userid].(username := username, avatar := avatar, lastLogin := lastLogin)]
      ensures userid !in old(users) ==> users == old(users)
    {
      if userid in users {
        users := users[userid := users[userid].(username := username, avatar := avatar, lastLogin := lastLogin)];
      }
    }

    /** `INSERT INTO app_users (username, company_id, userid, avatar, last_login)`. */
    method Insert(userid: string, user: AppUser)
      modifies this
      ensures users == old(users)[userid := user]
    {
      users := users[userid := user];
    }
  }

  /** The handler of POST `/dingtalk/verifyUser` against the token cache and the user table. */
  method VerifyUser(tokens: TokenCache, table: UserTable, code: string, now: int, loginTime: int,
                    gw: Gateway, storeFails: bool) returns (response: VerifyResponse)
    modifies tokens, table
    ensures Verification(response, tokens.Current(), table.users) ==
            Verify(old(tokens.Current()), old(table.users), code, now, loginTime, gw, storeFails)
  {
    if code == "" {
      return MissingCode;
    }
    var token, _ := tokens.GetAccessToken(now, gw.token);
    if token.TokenError? {
      return VerifyFailed;
    }
    if gw.userInfo.CallFailed? {
      return VerifyFailed;
    }
    var userid := gw.userInfo.value;
    if userid == "" {
      return Unauthorized;
    }
    if gw.detail.CallFailed? {
      return VerifyFailed;
    }
    var detail := gw.detail.value;
    if !storeFails {
      var found := table.Exists(userid);
      if found {
        table.Update(userid, detail.name, detail.avatar, loginTime);
      } else {
        table.Insert(userid, AppUser(detail.name, DefaultCompanyId, detail.avatar, loginTime));
      }
    }
    response := Verified(detail);
  }
}
