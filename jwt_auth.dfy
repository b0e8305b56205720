/** The token service: minting, validating and revoking tokens against the
    key/expiry store, the authentication middleware and the current-user
    dependencies. Each method is proved against the functions of `TokenSpec`
    and `RequestSpec`; the generated jti that `uuid4` would supply is a
    parameter the caller guarantees to be fresh. */
module JwtAuth {
  import opened Wrappers
  import opened Text
  import opened Store
  import opened TokenSpec
  import opened RequestSpec

  const BearerTokenType := "bearer"

  /** What `refresh_tokens` returns. */
  datatype TokenPair = TokenPair(accessToken: string, refreshToken: string, tokenType: string, sub: string)

  /** The claims `create_access_token({"sub": sub})` and
      `create_refresh_token({"sub": sub})` are given. */
  function SubjectOnly(sub: string): Claims {
    Claims(Some(sub), None, None, None)
  }

  /** `request.state`: what the middleware leaves for the route handler. */
  class RequestState {
    var user: Option<Identity>
    var userType: Option<UserType>
    var newAccessToken: Option<string>
    var newRefreshToken: Option<string>

    constructor ()
      ensures user == None && userType == None && newAccessToken == None && newRefreshToken == None
    {
      user := None;
      userType := None;
      newAccessToken := None;
      newRefreshToken := None;
    }
  }

  /** Moving one element from `rest` to the processed part of `keys`. */
  lemma SetStep<T>(done: set<T>, v: set<T>, keys: set<T>, rest: set<T>, key: T)
    requires key in rest && rest <= keys
    ensures key in v ==> done + (v * (keys - rest)) + {key} == done + (v * (keys - (rest - {key})))
    ensures key !in v ==> done + (v * (keys - rest)) == done + (v * (keys - (rest - {key})))
  {
  }

  class TokenService {
    const store: KeyStore
    const codec: Codec
    /** ACCESS_TOKEN_EXPIRE_MINUTES and REFRESH_TOKEN_EXPIRE_DAYS. */
    const accessMinutes: int
    const refreshDays: int
    /** The jtis of refresh tokens that have been redeemed or revoked. */
    ghost var retired: set<string>

    /** Every stored entry is live, signing round-trips, the refresh lifetime
        is positive, a retired refresh token never becomes active again, and
        every active refresh key holds a jti without ':'. */
    ghost predicate Valid()
      reads this, store
    {
      store.Valid() && codec.Sound() && refreshDays > 0 &&
      (forall j :: j in retired ==> RefreshKey(j) !in store.entries) &&
      ColonFreeJtis(store.entries)
    }

    /** What a `uuid4` jti guarantees here: non-empty, no ':', and unused. */
    ghost predicate Fresh(jti: string)
      reads this, store
    {
      jti != "" && ':' !in jti && jti !in retired &&
      RefreshKey(jti) !in store.entries && BlacklistKey(jti) !in store.entries
    }

    function RefreshSeconds(): int { refreshDays * SecondsPerDay }

    constructor (s: KeyStore, c: Codec, minutes: int, days: int)
      requires s.Valid() && c.Sound() && days > 0 && ColonFreeJtis(s.entries)
      ensures Valid() && retired == {}
      ensures store == s && codec == c && accessMinutes == minutes && refreshDays == days
    {
      store := s;
      codec := c;
      accessMinutes := minutes;
      refreshDays := days;
      retired := {};
    }

    /** `create_access_token`: the caller's claims with a fresh jti, an expiry
        `delta` seconds (or the configured minutes) from now and type "access";
        the token is accepted as long as it has not expired. */
    method CreateAccessToken(data: Claims, delta: Option<int>, jti: string) returns (token: string)
      requires Valid() && Fresh(jti)
      ensures var c := Stamp(data, jti, store.now + Lifetime(delta, accessMinutes * 60), AccessType);
        codec.decode(token) == Some(c) &&
        (Lifetime(delta, accessMinutes * 60) > 0 ==> Validate(codec, token, store.now, store.entries) == Success(c))
    {
      var claims := Stamp(data, jti, store.now + Lifetime(delta, accessMinutes * 60), AccessType);
      token := codec.encode(claims);
      assert codec.decode(token) == Some(claims);
    }

    /** `create_refresh_token` with its store write awaited: the token, and its
        jti registered as active for the subject for the token's lifetime. A
        missing subject raises `KeyError`; a non-positive lifetime is refused
        by the store. */
    method CreateRefreshToken(data: Claims, delta: Option<int>, jti: string) returns (r: Result<string, Fault>)
      requires Valid() && Fresh(jti)
      modifies store
      ensures Valid() && store.now == old(store.now)
      ensures var life := Lifetime(delta, RefreshSeconds());
        var c := Stamp(data, jti, store.now + life, RefreshType);
        (data.sub.None? ==> r == Failure(KeyError) && store.entries == old(store.entries)) &&
        (data.sub.Some? && life <= 0 ==> r == Failure(StoreError) && store.entries == old(store.entries)) &&
        (data.sub.Some? && life > 0 ==>
          r.Success? && codec.decode(r.value) == Some(c) &&
          store.entries == old(store.entries)[RefreshKey(jti) := Entry(data.sub.value, store.now + life)] &&
          (data.sub.value != "" ==> RedeemCheck(codec, r.value, store.now, store.entries) == Success(c)))
    {
      var life := Lifetime(delta, RefreshSeconds());
      var claims := Stamp(data, jti, store.now + life, RefreshType);
      var token := codec.encode(claims);
      assert codec.decode(token) == Some(claims);
      if data.sub.None? {
        return Failure(KeyError);
      }
      var ok := store.Setex(RefreshKey(jti), life, data.sub.value);
      if !ok {
        return Failure(StoreError);
      }
      r := Success(token);
      assert RefreshKey(jti)[|RefreshPrefix|..] == jti;
      forall j | j in retired
        ensures RefreshKey(j) !in store.entries
      {
        RefreshKeyInjective(j, jti);
      }
      BlacklistKeyNotRefreshKey(jti);
      assert BlacklistKey(jti) !in store.entries;
    }

    /** `create_refresh_token` as written: the store write is a coroutine that
        is never awaited, so nothing is registered and the token it returns can
        never be redeemed. */
    method CreateRefreshTokenUnawaited(data: Claims, delta: Option<int>, jti: string) returns (r: Result<string, Fault>)
      requires Valid() && Fresh(jti)
      ensures data.sub.None? ==> r == Failure(KeyError)
      ensures data.sub.Some? ==>
        r.Success? &&
        codec.decode(r.value) == Some(Stamp(data, jti, store.now + Lifetime(delta, RefreshSeconds()), RefreshType)) &&
        RedeemCheck(codec, r.value, store.now, store.entries).Failure?
    {
      var life := Lifetime(delta, RefreshSeconds());
      var claims := Stamp(data, jti, store.now + life, RefreshType);
      var token := codec.encode(claims);
      assert codec.decode(token) == Some(claims);
      if data.sub.None? {
        return Failure(KeyError);
      }
      r := Success(token);
    }

    /** `decode_token`: the claims of a valid token that is not blacklisted,
        else the 401 `Validate` names. */
    method DecodeToken(text: string) returns (r: Result<Claims, Fault>)
      ensures Validate(codec, text, store.now, store.entries).Success? ==>
        r == Success(Validate(codec, text, store.now, store.entries).value)
      ensures Validate(codec, text, store.now, store.entries).Failure? ==>
        r == Failure(Http(401, Validate(codec, text, store.now, store.entries).error))
    {
      var decoded := Decode(codec, text, store.now);
      if decoded.None? {
        return Failure(Http(401, DetailCouldNotValidate));
      }
      var c := decoded.value;
      if Present(c.jti) {
        var revoked := store.Exists(BlacklistKey(c.jti.value));
        if revoked {
          return Failure(Http(401, DetailRevoked));
        }
      }
      r := Success(c);
    }

    /** `revoke_token`: a token that decodes and carries a truthy jti is
        blacklisted until its expiry and, when it is a refresh token, removed
        from the active set for good. Anything else is refused with `false`. */
    method RevokeToken(text: string) returns (ok: bool)
      requires Valid()
      modifies this, store
      ensures Valid() && store.now == old(store.now)
      ensures var d := Decode(codec, text, old(store.now));
        (ok <==> d.Some? && Present(d.value.jti)) &&
        (ok ==> store.entries == RevokeEffect(d.value, old(store.now), old(store.entries)) &&
                retired == old(retired) + (if d.value.typ == Some(RefreshType) then {d.value.jti.value} else {})) &&
        (!ok ==> store.entries == old(store.entries) && retired == old(retired))
    {
      var decoded := Decode(codec, text, store.now);
      if decoded.None? || !Present(decoded.value.jti) {
        return false;
      }
      var c := decoded.value;
      var j := c.jti.value;
      var ttl := RevokeTtl(c.exp, store.now);
      var _ := store.Setex(BlacklistKey(j), ttl, BlacklistMarker);
      BlacklistKeyNotRefreshKey(j);
      if c.typ == Some(RefreshType) {
        store.Delete(RefreshKey(j));
        retired := retired + {j};
      }
      ok := true;
    }

    /** `revoke_all_user_tokens`: scans the active refresh keys batch by batch
        and, for each one whose stored subject is `user`, blacklists its jti
        for the full refresh lifetime and deletes it. */
    method RevokeAllUserTokens(user: string) returns (ok: bool)
      requires Valid()
      modifies store
      ensures Valid() && ok && store.now == old(store.now)
      ensures store.entries == RevokeAllEffect(old(store.entries), user, old(store.now) + RefreshSeconds())
    {
      ghost var e0 := store.entries;
      ghost var until := store.now + RefreshSeconds();
      assert forall j :: j in retired ==> RefreshKey(j) !in e0;
      assert ColonFreeJtis(e0);
      ScanAndRevoke(user, e0, until);
      ok := true;
      RevokedAllKeepsInvariant(e0, user, until);
    }

    /** The scan loop of the bulk revocation: walks the key table with a
        cursor until SCAN hands back cursor 0, revoking batch by batch. */
    method ScanAndRevoke(user: string, ghost e0: map<string, Entry>, ghost until: int)
      requires store.Valid() && until == store.now + RefreshSeconds() && RefreshSeconds() > 0
      requires store.entries == e0
      modifies store
      ensures store.Valid() && store.now == old(store.now)
      ensures store.entries == RevokeAllEffect(e0, user, until)
    {
      ghost var done: set<string> := {};
      assert VictimsBelow(e0, user, 0) == {};
      assert store.entries == RevokedAll(e0, done, until);
      var cursor: nat := 0;
      var finished := false;
      while !finished
        invariant store.Valid() && store.now == old(store.now)
        invariant cursor < store.slots
        invariant done == VictimsBelow(e0, user, if finished then store.slots else cursor)
        invariant store.entries == RevokedAll(e0, done, until)
        decreases store.slots - cursor + (if finished then 0 else 1)
      {
        var next;
        next, done := RevokeScanBatch(user, cursor, e0, done, until);
        if next == 0 {
          finished := true;
        } else {
          cursor := next;
        }
      }
      VictimsBelowAll(e0, user);
    }

    /** One turn of the scan loop: fetches the batch at `cursor` and revokes
        the keys of `user` in it; afterwards every victim below the next cursor
        (below the table's end when the scan is over) has been processed. */
    method RevokeScanBatch(user: string, cursor: nat, ghost e0: map<string, Entry>, ghost done: set<string>, ghost until: int)
      returns (next: nat, ghost done': set<string>)
      requires store.Valid() && until == store.now + RefreshSeconds() && RefreshSeconds() > 0
      requires cursor < store.slots
      requires done == VictimsBelow(e0, user, cursor)
      requires store.entries == RevokedAll(e0, done, until)
      modifies store
      ensures store.Valid() && store.now == old(store.now)
      ensures next == 0 || cursor < next < store.slots
      ensures done' == VictimsBelow(e0, user, if next == 0 then store.slots else next)
      ensures store.entries == RevokedAll(e0, done', until)
    {
      var keys;
      next, keys := store.Scan(cursor, RefreshPrefix);
      BatchIsUnprocessed(e0, user, done, cursor, until, keys);
      done' := RevokeBatch(user, keys, e0, done, until);
      BatchCompletes(e0, user, cursor, keys);
    }

    /** The body of one SCAN batch: every key of the batch whose stored subject
        is `user` is blacklisted and deleted. */
    method RevokeBatch(user: string, keys: set<string>, ghost e0: map<string, Entry>, ghost done: set<string>, ghost until: int)
      returns (ghost done': set<string>)
      requires store.Valid() && until == store.now + RefreshSeconds() && RefreshSeconds() > 0
      requires forall k :: k in keys ==> k in e0 && IsRefreshKey(k) && k !in done
      requires store.entries == RevokedAll(e0, done, until)
      modifies store
      ensures store.Valid() && store.now == old(store.now)
      ensures done' == done + (Victims(e0, user) * keys)
      ensures store.entries == RevokedAll(e0, done', until)
    {
      done' := done;
      var rest := keys;
      while rest != {}
        invariant rest <= keys
        invariant store.Valid() && store.now == old(store.now)
        invariant done' == done + (Victims(e0, user) * (keys - rest))
        invariant store.entries == RevokedAll(e0, done', until)
        decreases |rest|
      {
        var key :| key in rest;
        SetStep(done, Victims(e0, user), keys, rest, key);
        done' := RevokeIfOwned(user, key, e0, done', until);
        rest := rest - {key};
      }
    }

    /** One key of a batch: blacklisted and deleted when its stored subject is `user`. */
    method RevokeIfOwned(user: string, key: string, ghost e0: map<string, Entry>, ghost done: set<string>, ghost until: int)
      returns (ghost done': set<string>)
      requires store.Valid() && until == store.now + RefreshSeconds() && RefreshSeconds() > 0
      requires key in e0 && IsRefreshKey(key) && key !in done
      requires store.entries == RevokedAll(e0, done, until)
      modifies store
      ensures store.Valid() && store.now == old(store.now)
      ensures done' == if key in Victims(e0, user) then done + {key} else done
      ensures store.entries == RevokedAll(e0, done', until)
    {
      RevokedAllUnprocessed(e0, done, key, until);
      done' := done;
      var stored := store.Get(key);
      assert stored == Some(user) <==> key in Victims(e0, user);
      if stored == Some(user) {
        BlacklistAndDelete(key, e0, done, until);
        done' := done + {key};
      }
    }

    /** Blacklists the jti of the refresh key `key` for the full refresh
        lifetime and deletes the key. */
    method BlacklistAndDelete(key: string, ghost e0: map<string, Entry>, ghost done: set<string>, ghost until: int)
      requires store.Valid() && until == store.now + RefreshSeconds() && RefreshSeconds() > 0
      requires IsRefreshKey(key)
      requires store.entries == RevokedAll(e0, done, until)
      modifies store
      ensures store.Valid() && store.now == old(store.now)
      ensures store.entries == RevokedAll(e0, done + {key}, until)
    {
      var jti := JtiOfKey(key);
      ghost var before := store.entries;
      var _ := store.Setex(BlacklistKey(jti), RefreshSeconds(), BlacklistMarker);
      ghost var mid := store.entries;
      store.Delete(key);
      assert store.entries == RevokeOneMore(e0, done, key, until) by {
        assert mid == before[BlacklistKey(jti) := Entry(BlacklistMarker, until)];
        assert store.entries == mid - {key};
      }
      RevokedAllStep(e0, done, key, until);
    }

    /** The refresh keys of `user` (in the entries `e`) whose hash slot lies below `bound`. */
    ghost function VictimsBelow(e: map<string, Entry>, user: string, bound: int): set<string>
      requires store.slots > 0
    {
      set k | k in Victims(e, user) && store.Slot(k) < bound
    }

    lemma VictimsBelowAll(e: map<string, Entry>, user: string)
      requires store.slots > 0
      ensures VictimsBelow(e, user, store.slots) == Victims(e, user)
    {
    }

    /** The refresh keys one SCAN batch returns during the bulk revocation are
        exactly the original ones in those slots, none processed yet. */
    lemma BatchIsUnprocessed(e0: map<string, Entry>, user: string, done: set<string>, cursor: nat, until: int, keys: set<string>)
      requires store.slots > 0
      requires done == VictimsBelow(e0, user, cursor)
      requires keys == store.Batch(cursor, RefreshPrefix)
      requires store.entries == RevokedAll(e0, done, until)
      ensures forall k :: k in keys ==> k in e0 && IsRefreshKey(k) && k !in done && cursor <= store.Slot(k) < cursor + ScanCount
      ensures forall k :: k in e0 && IsRefreshKey(k) && cursor <= store.Slot(k) < cursor + ScanCount ==> k in keys
    {
      BlacklistKeysNotRefresh(done);
      forall k | k in e0 && IsRefreshKey(k) && cursor <= store.Slot(k) < cursor + ScanCount
        ensures k in keys
      {
        RevokedAllUnprocessed(e0, done, k, until);
      }
    }

    /** After a batch, the processed victims are those below the next cursor. */
    lemma BatchCompletes(e0: map<string, Entry>, user: string, cursor: nat, keys: set<string>)
      requires store.slots > 0 && cursor < store.slots
      requires forall k :: k in keys ==> k in e0 && IsRefreshKey(k) && cursor <= store.Slot(k) < cursor + ScanCount
      requires forall k :: k in e0 && IsRefreshKey(k) && cursor <= store.Slot(k) < cursor + ScanCount ==> k in keys
      ensures VictimsBelow(e0, user, cursor) + (Victims(e0, user) * keys) ==
        VictimsBelow(e0, user, if cursor + ScanCount >= store.slots then store.slots else cursor + ScanCount)
    {
    }

    /** The store after a bulk revocation still satisfies the invariant. */
    lemma RevokedAllKeepsInvariant(e0: map<string, Entry>, user: string, until: int)
      requires store.Valid() && codec.Sound() && refreshDays > 0
      requires forall j :: j in retired ==> RefreshKey(j) !in e0
      requires ColonFreeJtis(e0)
      requires store.entries == RevokeAllEffect(e0, user, until)
      ensures Valid()
    {
      RevokeAllRemovesExactlySubject(e0, user, until);
    }

    /** The checks before a refresh token is redeemed. */
    method Redeem(text: string) returns (r: Result<Claims, string>)
      ensures r == RedeemCheck(codec, text, store.now, store.entries)
    {
      var decoded := DecodeToken(text);
      if decoded.Failure? {
        return Failure(decoded.error.detail);
      }
      var c := decoded.value;
      if c.typ != Some(RefreshType) {
        return Failure(DetailTokenType);
      }
      if !Present(c.jti) {
        return Failure(DetailInvalidRefresh);
      }
      var active := store.Exists(RefreshKey(c.jti.value));
      if !active {
        return Failure(DetailInvalidRefresh);
      }
      if !Present(c.sub) {
        return Failure(DetailInvalidPayload);
      }
      r := Success(c);
    }

    /** Redemption of a checked refresh token: it is revoked (one-time use)
        and a new access token and a new registered refresh token are minted
        for its subject. */
    method Rotate(text: string, c: Claims, accessJti: string, refreshJti: string) returns (access: string, refresh: string)
      requires Valid() && RedeemCheck(codec, text, store.now, store.entries) == Success(c)
      requires Fresh(accessJti) && Fresh(refreshJti) && accessJti != refreshJti
      modifies this, store
      ensures Valid() && store.now == old(store.now)
      ensures store.entries == RotateEffect(c, store.now, old(store.entries), refreshJti, store.now + RefreshSeconds())
      ensures retired == old(retired) + {c.jti.value}
      ensures codec.decode(access) == Some(Stamp(SubjectOnly(c.sub.value), accessJti, store.now + accessMinutes * 60, AccessType))
      ensures RedeemCheck(codec, refresh, store.now, store.entries) ==
        Success(Stamp(SubjectOnly(c.sub.value), refreshJti, store.now + RefreshSeconds(), RefreshType))
    {
      ghost var j := c.jti.value;
      ghost var e := store.entries;
      assert RefreshKey(j) in store.entries;
      assert Decode(codec, text, store.now) == Some(c);
      RefreshKeyInjective(accessJti, j);
      RefreshKeyInjective(refreshJti, j);
      var revoked := RevokeToken(text);
      assert store.entries == RevokeEffect(c, store.now, e);
      RefreshKeyInjective(accessJti, j);
      RefreshKeyInjective(refreshJti, j);
      BlacklistKeyInjective(accessJti, j);
      BlacklistKeyInjective(refreshJti, j);
      BlacklistKeyNotRefreshKey(j);
      assert IsRefreshKey(RefreshKey(accessJti)) && IsRefreshKey(RefreshKey(refreshJti));
      assert Fresh(accessJti) && Fresh(refreshJti);
      access := CreateAccessToken(SubjectOnly(c.sub.value), None, accessJti);
      var minted := CreateRefreshToken(SubjectOnly(c.sub.value), None, refreshJti);
      refresh := minted.value;
    }

    /** `refresh_tokens`: a redeemable refresh token is exchanged for a new
        pair for its subject; otherwise the 401 of the failed check. */
    method RefreshTokens(text: string, accessJti: string, refreshJti: string) returns (r: Result<TokenPair, Fault>)
      requires Valid() && Fresh(accessJti) && Fresh(refreshJti) && accessJti != refreshJti
      modifies this, store
      ensures Valid() && store.now == old(store.now)
      ensures var check := RedeemCheck(codec, text, old(store.now), old(store.entries));
        (check.Failure? ==>
          r == Failure(Http(401, check.error)) && store.entries == old(store.entries) && retired == old(retired)) &&
        (check.Success? ==>
          var sub := check.value.sub.value;
          store.entries == RotateEffect(check.value, store.now, old(store.entries), refreshJti, store.now + RefreshSeconds()) &&
          r.Success? && r.value.sub == sub && r.value.tokenType == BearerTokenType &&
          codec.decode(r.value.accessToken) == Some(Stamp(SubjectOnly(sub), accessJti, store.now + accessMinutes * 60, AccessType)) &&
          RedeemCheck(codec, r.value.refreshToken, store.now, store.entries) ==
            Success(Stamp(SubjectOnly(sub), refreshJti, store.now + RefreshSeconds(), RefreshType)))
    {
      var check := Redeem(text);
      if check.Failure? {
        return Failure(Http(401, check.error));
      }
      var c := check.value;
      var access, refresh := Rotate(text, c, accessJti, refreshJti);
      r := Success(TokenPair(access, refresh, BearerTokenType, c.sub.value));
    }

    /** The access-token branch of the middleware. */
    method TryAccess(text: string, path: string, db: Directory) returns (s: AccessStep)
      ensures s == AccessAttempt(codec, text, store.now, store.entries, path, db)
    {
      var decoded := DecodeToken(text);
      if decoded.Failure? {
        return Rejected;
      }
      var c := decoded.value;
      if c.typ != Some(AccessType) || !Present(c.sub) {
        return Rejected;
      }
      var id := ParseInt(c.sub.value);
      if id.None? {
        return Crashed;
      }
      var asAdmin := AdminRouteForAccess(path);
      var account := Account(db, id.value, asAdmin);
      if account.None? {
        return Rejected;
      }
      s := Granted(account.value, if asAdmin then Admin else User);
    }

    /** `auth_middleware`: carries out `PlanRequest`. A final outcome leaves
        the store alone; a rotation revokes the refresh token, mints a new
        pair into the request state and then looks the subject up. An
        authenticated user is recorded on the request state. */
    method AuthMiddleware(req: Request, db: Directory, state: RequestState, accessJti: string, refreshJti: string) returns (r: Outcome)
      requires Valid() && Fresh(accessJti) && Fresh(refreshJti) && accessJti != refreshJti
      modifies this, store, state
      ensures Valid() && store.now == old(store.now)
      ensures var plan := PlanRequest(codec, req, old(store.now), old(store.entries), db);
        (plan.Finish? ==>
          r == plan.outcome && store.entries == old(store.entries) && retired == old(retired) &&
          state.newAccessToken == old(state.newAccessToken) && state.newRefreshToken == old(state.newRefreshToken)) &&
        (plan.Rotate? ==>
          var sub := plan.claims.sub.value;
          r == AfterRotation(req.path, sub, db) &&
          store.entries == RotateEffect(plan.claims, store.now, old(store.entries), refreshJti, store.now + RefreshSeconds()) &&
          retired == old(retired) + {plan.claims.jti.value} &&
          state.newAccessToken.Some? && state.newRefreshToken.Some? &&
          codec.decode(state.newAccessToken.value) == Some(Stamp(SubjectOnly(sub), accessJti, store.now + accessMinutes * 60, AccessType)) &&
          RedeemCheck(codec, state.newRefreshToken.value, store.now, store.entries) ==
            Success(Stamp(SubjectOnly(sub), refreshJti, store.now + RefreshSeconds(), RefreshType)))
      ensures r.Authenticated? ==> state.user == Some(r.user) && state.userType == Some(r.userType)
      ensures !r.Authenticated? ==> state.user == old(state.user) && state.userType == old(state.userType)
    {
      var access := AccessCredential(req);
      if access == "" {
        return Unauthenticated(req.path, DetailNotAuthenticated);
      }
      var step := TryAccess(access, req.path, db);
      match step {
        case Granted(u, t) =>
          state.user := Some(u);
          state.userType := Some(t);
          return Authenticated(u, t);
        case Crashed =>
          return Raised(ValueError);
        case Rejected =>
      }
      var refreshText := RefreshCredential(req);
      if refreshText == "" {
        return Unauthenticated(req.path, DetailNotAuthenticated);
      }
      var check := Redeem(refreshText);
      if check.Failure? {
        return Unauthenticated(req.path, DetailLoginAgain);
      }
      r := RotateSession(req, db, state, check.value, accessJti, refreshJti);
    }

    /** The refresh branch of the middleware once the refresh token has
        passed its checks: rotation, the new pair into the request state,
        then the lookup of the subject. */
    method RotateSession(req: Request, db: Directory, state: RequestState, c: Claims, accessJti: string, refreshJti: string)
      returns (r: Outcome)
      requires Valid() && RedeemCheck(codec, RefreshCredential(req), store.now, store.entries) == Success(c)
      requires Fresh(accessJti) && Fresh(refreshJti) && accessJti != refreshJti
      modifies this, store, state
      ensures Valid() && store.now == old(store.now)
      ensures r == AfterRotation(req.path, c.sub.value, db)
      ensures store.entries == RotateEffect(c, store.now, old(store.entries), refreshJti, store.now + RefreshSeconds())
      ensures retired == old(retired) + {c.jti.value}
      ensures state.newAccessToken.Some? && state.newRefreshToken.Some?
      ensures codec.decode(state.newAccessToken.value) ==
        Some(Stamp(SubjectOnly(c.sub.value), accessJti, store.now + accessMinutes * 60, AccessType))
      ensures RedeemCheck(codec, state.newRefreshToken.value, store.now, store.entries) ==
        Success(Stamp(SubjectOnly(c.sub.value), refreshJti, store.now + RefreshSeconds(), RefreshType))
      ensures r.Authenticated? ==> state.user == Some(r.user) && state.userType == Some(r.userType)
      ensures !r.Authenticated? ==> state.user == old(state.user) && state.userType == old(state.userType)
    {
      var newAccess, newRefresh := Rotate(RefreshCredential(req), c, accessJti, refreshJti);
      state.newAccessToken := Some(newAccess);
      state.newRefreshToken := Some(newRefresh);
      r := AfterRotation(req.path, c.sub.value, db);
      if r.Authenticated? {
        state.user := Some(r.user);
        state.userType := Some(r.userType);
      }
    }

    /** `get_current_user`. */
    method GetCurrentUser(text: string, db: Directory) returns (r: Result<(Identity, UserType), Fault>)
      ensures r == CurrentUser(codec, text, store.now, store.entries, db)
    {
      var decoded := DecodeToken(text);
      if decoded.Failure? {
        return Failure(decoded.error);
      }
      var c := decoded.value;
      if c.sub.None? {
        return Failure(Http(401, DetailCouldNotValidate));
      }
      var id := ParseInt(c.sub.value);
      if id.None? {
        return Failure(ValueError);
      }
      if id.value in db.admins {
        return Success((db.admins[id.value], Admin));
      }
      if id.value in db.users {
        return Success((db.users[id.value], User));
      }
      r := Failure(Http(401, DetailUserNotFound));
    }

    /** `get_current_admin`. */
    method GetCurrentAdmin(text: string, db: Directory) returns (r: Result<Identity, Fault>)
      ensures r == RequireType(CurrentUser(codec, text, store.now, store.entries, db), Admin)
    {
      var current := GetCurrentUser(text, db);
      r := RequireType(current, Admin);
    }

    /** `get_current_project_user`. */
    method GetCurrentProjectUser(text: string, db: Directory) returns (r: Result<Identity, Fault>)
      ensures r == RequireType(CurrentUser(codec, text, store.now, store.entries, db), User)
    {
      var current := GetCurrentUser(text, db);
      r := RequireType(current, User);
    }

    /** Time passes: expired entries leave the store, the invariant holds. */
    method AdvanceClock(d: nat)
      requires Valid()
      modifies store
      ensures Valid() && store.now == old(store.now) + d
      ensures store.entries == Unexpired(old(store.entries), store.now)
    {
      store.Tick(d);
    }
  }
}
