/** The token life cycle as pure functions over the key/expiry store's
    contents: what a token carries, when it is accepted, what revoking one or
    all of a subject's tokens does to the store, and when a refresh token may
    be redeemed. The methods of `JwtAuth` are proved against these. */
module TokenSpec {
  import opened Wrappers
  import opened Text
  import opened Store

  /** The claims the code reads or writes; other claims pass through untouched. */
  datatype Claims = Claims(sub: Option<string>, typ: Option<string>, jti: Option<string>, exp: Option<int>)

  /** Signing and verification with the configured secret and algorithm. Only
      the property the code relies on is assumed: verifying a signed claim set
      gives it back. Anything else the verifier may reject. */
  datatype Codec = Codec(encode: Claims -> string, decode: string -> Option<Claims>) {
    ghost predicate Sound() {
      forall c :: decode(encode(c)) == Some(c)
    }
  }

  const AccessType := "access"
  const RefreshType := "refresh"
  const RefreshPrefix := "refresh_token:"
  const BlacklistPrefix := "blacklist:"
  const BlacklistMarker := "1"
  /** Blacklist lifetime when the token carries no expiry. */
  const DefaultRevokeTtl := 3600
  const SecondsPerDay := 86400

  const DetailCouldNotValidate := "Could not validate credentials"
  const DetailRevoked := "Token has been revoked"
  const DetailTokenType := "Invalid token type"
  const DetailInvalidRefresh := "Invalid refresh token"
  const DetailInvalidPayload := "Invalid token payload"

  function RefreshKey(jti: string): string { RefreshPrefix + jti }
  function BlacklistKey(jti: string): string { BlacklistPrefix + jti }
  predicate IsRefreshKey(k: string) { StartsWith(k, RefreshPrefix) }

  /** `key.split(":")[-1]`, the jti the bulk revocation reads back from a key. */
  function JtiOfKey(k: string): string { LastSegment(k, ':') }

  lemma BlacklistKeyNotRefreshKey(j: string)
    ensures !IsRefreshKey(BlacklistKey(j))
  {
    assert BlacklistKey(j)[0] == 'b';
  }

  lemma RefreshKeyInjective(a: string, b: string)
    ensures RefreshKey(a) == RefreshKey(b) <==> a == b
  {
    if RefreshKey(a) == RefreshKey(b) {
      assert a == RefreshKey(a)[|RefreshPrefix|..];
    }
  }

  lemma BlacklistKeyInjective(a: string, b: string)
    ensures BlacklistKey(a) == BlacklistKey(b) <==> a == b
  {
    if BlacklistKey(a) == BlacklistKey(b) {
      assert a == BlacklistKey(a)[|BlacklistPrefix|..];
    }
  }

  /** A jti without ':' is read back unchanged from its refresh key. */
  lemma JtiOfRefreshKey(j: string)
    requires ':' !in j
    ensures JtiOfKey(RefreshKey(j)) == j
  {
    assert RefreshKey(j) == "refresh_token" + [':'] + j;
    LastSegmentAfter("refresh_token", ':', j);
  }

  // ---------------------------------------------------------------------------
  // Minting

  /** `if expires_delta:` — a missing or zero delta selects the configured lifetime. */
  function Lifetime(delta: Option<int>, configured: int): (t: int)
    ensures (delta.None? || delta.value == 0) ==> t == configured
    ensures delta.Some? && delta.value != 0 ==> t == delta.value
  {
    if delta.Some? && delta.value != 0 then delta.value else configured
  }

  /** The claims of a new token: the caller's data with a fresh jti, an
      expiry and the token type set, overriding any the caller supplied. */
  function Stamp(data: Claims, jti: string, exp: int, typ: string): (c: Claims)
    ensures c.sub == data.sub
    ensures c.jti == Some(jti) && c.exp == Some(exp) && c.typ == Some(typ)
  {
    data.(jti := Some(jti), exp := Some(exp), typ := Some(typ))
  }

  // ---------------------------------------------------------------------------
  // Validation

  /** Expired from the second named by `exp` on. */
  predicate Expired(c: Claims, now: int) {
    c.exp.Some? && c.exp.value <= now
  }

  /** `jwt.decode`: signature or format failure and expiry both reject. */
  function Decode(codec: Codec, text: string, now: int): (r: Option<Claims>)
    ensures r.Some? ==> codec.decode(text) == r && !Expired(r.value, now)
    ensures codec.decode(text).Some? && !Expired(codec.decode(text).value, now) ==> r.Some?
  {
    match codec.decode(text)
    case None => None
    case Some(c) => if Expired(c, now) then None else Some(c)
  }

  /** The blacklist is consulted only when the token has a truthy jti. */
  predicate Blacklisted(c: Claims, store: map<string, Entry>) {
    Present(c.jti) && BlacklistKey(c.jti.value) in store
  }

  /** `decode_token`: the claims of a valid, unrevoked token, or the detail
      of the 401 it raises. */
  function Validate(codec: Codec, text: string, now: int, store: map<string, Entry>): (r: Result<Claims, string>)
    ensures r.Success? <==> Decode(codec, text, now).Some? && !Blacklisted(Decode(codec, text, now).value, store)
    ensures r.Success? ==> Decode(codec, text, now) == Some(r.value)
  {
    match Decode(codec, text, now)
    case None => Failure(DetailCouldNotValidate)
    case Some(c) => if Blacklisted(c, store) then Failure(DetailRevoked) else Success(c)
  }

  /** A freshly signed token that has not expired is accepted unless its jti is blacklisted. */
  lemma SignedTokenAccepted(codec: Codec, c: Claims, now: int, store: map<string, Entry>)
    requires codec.Sound() && !Expired(c, now) && !Blacklisted(c, store)
    ensures Validate(codec, codec.encode(c), now, store) == Success(c)
  {
    assert codec.decode(codec.encode(c)) == Some(c);
  }

  /** Expiry is checked before the blacklist: an expired token is reported
      as invalid even when it was revoked, whatever the store holds. */
  lemma ExpiredNeverReportedRevoked(codec: Codec, text: string, now: int, store: map<string, Entry>)
    requires codec.decode(text).Some? && Expired(codec.decode(text).value, now)
    ensures Validate(codec, text, now, store) == Failure(DetailCouldNotValidate)
  {
  }

  /** A token without a truthy jti cannot be revoked: the blacklist has no
      say over it. */
  lemma NoJtiIgnoresBlacklist(codec: Codec, text: string, now: int, s1: map<string, Entry>, s2: map<string, Entry>)
    requires codec.decode(text).Some? && !Present(codec.decode(text).value.jti)
    ensures Validate(codec, text, now, s1) == Validate(codec, text, now, s2)
  {
  }

  /** Every blacklist key of `s` is one of `t`. */
  ghost predicate BlacklistGrows(s: map<string, Entry>, t: map<string, Entry>) {
    forall j :: BlacklistKey(j) in s ==> BlacklistKey(j) in t
  }

  /** Adding blacklist keys can only turn acceptance into rejection. */
  lemma ValidateMonotone(codec: Codec, text: string, now: int, s: map<string, Entry>, t: map<string, Entry>)
    requires BlacklistGrows(s, t)
    ensures Validate(codec, text, now, t).Success? ==> Validate(codec, text, now, s) == Validate(codec, text, now, t)
  {
  }

  // ---------------------------------------------------------------------------
  // Revocation of one token

  function Max(a: int, b: int): int { if a < b then b else a }

  /** `revoke_token`'s blacklist lifetime: until the token's own expiry, at
      least one second, an hour when the token has no (or a zero) expiry. */
  function RevokeTtl(exp: Option<int>, now: int): (ttl: int)
    ensures ttl >= 1
    ensures (exp.None? || exp.value == 0) ==> ttl == DefaultRevokeTtl
    ensures exp.Some? && exp.value != 0 ==> now + ttl >= exp.value
    ensures exp.Some? && exp.value != 0 && exp.value > now ==> now + ttl == exp.value
  {
    if exp.Some? && exp.value != 0 then Max(1, exp.value - now) else DefaultRevokeTtl
  }

  /** The store after revoking a decoded token with a truthy jti: its jti is
      blacklisted and, for a refresh token, its active entry is deleted. */
  function RevokeEffect(c: Claims, now: int, store: map<string, Entry>): map<string, Entry>
    requires Present(c.jti)
  {
    var j := c.jti.value;
    var s := store[BlacklistKey(j) := Entry(BlacklistMarker, now + RevokeTtl(c.exp, now))];
    if c.typ == Some(RefreshType) then s - {RefreshKey(j)} else s
  }

  /** Revoking twice at the same moment is the same as revoking once. */
  lemma RevokeIdempotent(c: Claims, now: int, store: map<string, Entry>)
    requires Present(c.jti)
    ensures RevokeEffect(c, now, RevokeEffect(c, now, store)) == RevokeEffect(c, now, store)
  {
    var j := c.jti.value;
    BlacklistKeyNotRefreshKey(j);
    assert BlacklistKey(j) != RefreshKey(j);
  }

  /** Revoking an access token leaves the set of active refresh tokens alone. */
  lemma RevokeAccessKeepsRefreshEntries(c: Claims, now: int, store: map<string, Entry>)
    requires Present(c.jti) && c.typ != Some(RefreshType)
    ensures forall k :: IsRefreshKey(k) ==>
      (k in RevokeEffect(c, now, store) <==> k in store) &&
      (k in store ==> RevokeEffect(c, now, store)[k] == store[k])
  {
    BlacklistKeyNotRefreshKey(c.jti.value);
  }

  /** After revocation, the token is refused as revoked at every later moment
      at which it would otherwise still be accepted, however many expired
      entries have been purged meanwhile. */
  lemma {:induction false} RevokedStaysRejected(codec: Codec, text: string, now: int, t: int, store: map<string, Entry>)
    requires Decode(codec, text, now).Some?
    requires Present(Decode(codec, text, now).value.jti)
    requires Decode(codec, text, now).value.exp.Some? && Decode(codec, text, now).value.exp.value != 0
    requires now <= t && Decode(codec, text, t).Some?
    ensures Validate(codec, text, t, Unexpired(RevokeEffect(Decode(codec, text, now).value, now, store), t)) == Failure(DetailRevoked)
  {
    var c := Decode(codec, text, now).value;
    var j := c.jti.value;
    var s := RevokeEffect(c, now, store);
    BlacklistKeyNotRefreshKey(j);
    assert BlacklistKey(j) in s && s[BlacklistKey(j)].expiresAt == now + RevokeTtl(c.exp, now);
    if c.exp.Some? {
      assert t < c.exp.value;
    }
    assert s[BlacklistKey(j)].expiresAt > t;
    assert BlacklistKey(j) in Unexpired(s, t);
  }

  /** A token without an expiry is blacklisted for an hour only: once the
      entry lapses, the revoked token is accepted again. */
  lemma RevocationWithoutExpiryLapses(codec: Codec, text: string, now: int, store: map<string, Entry>)
    requires Decode(codec, text, now).Some?
    requires var c := Decode(codec, text, now).value; Present(c.jti) && c.exp.None?
    ensures var c := Decode(codec, text, now).value;
      Validate(codec, text, now + DefaultRevokeTtl, Unexpired(RevokeEffect(c, now, store), now + DefaultRevokeTtl)) == Success(c)
  {
  }

  // ---------------------------------------------------------------------------
  // Redeeming a refresh token

  /** The checks `refresh_tokens` and the middleware's refresh branch apply
      before rotating: a valid unrevoked token of type refresh whose truthy
      jti is still active and whose subject is truthy; otherwise the detail
      of the 401 raised. */
  function RedeemCheck(codec: Codec, text: string, now: int, store: map<string, Entry>): (r: Result<Claims, string>)
    ensures r.Success? <==>
      Validate(codec, text, now, store).Success? &&
      var c := Validate(codec, text, now, store).value;
      c.typ == Some(RefreshType) && Present(c.jti) && RefreshKey(c.jti.value) in store && Present(c.sub)
    ensures r.Success? ==> Validate(codec, text, now, store) == Success(r.value)
    ensures Validate(codec, text, now, store).Failure? ==> r == Failure(Validate(codec, text, now, store).error)
  {
    match Validate(codec, text, now, store)
    case Failure(d) => Failure(d)
    case Success(c) =>
      if c.typ != Some(RefreshType) then Failure(DetailTokenType)
      else if !Present(c.jti) || RefreshKey(c.jti.value) !in store then Failure(DetailInvalidRefresh)
      else if !Present(c.sub) then Failure(DetailInvalidPayload)
      else Success(c)
  }

  /** An access token can never be redeemed, whatever the store holds. */
  lemma AccessTokenNotRedeemable(codec: Codec, c: Claims, now: int, store: map<string, Entry>)
    requires codec.Sound() && c.typ == Some(AccessType)
    ensures RedeemCheck(codec, codec.encode(c), now, store).Failure?
  {
    assert codec.decode(codec.encode(c)) == Some(c);
  }

  /** The store after a successful redemption: the used token revoked and a
      new refresh token for the same subject registered. */
  function RotateEffect(c: Claims, now: int, store: map<string, Entry>, newJti: string, until: int): map<string, Entry>
    requires Present(c.jti) && Present(c.sub)
  {
    RevokeEffect(c, now, store)[RefreshKey(newJti) := Entry(c.sub.value, until)]
  }

  /** One-time use: once redeemed, the same refresh token is refused as
      revoked, whatever new token was registered in its place. */
  lemma RedeemOnce(codec: Codec, text: string, now: int, store: map<string, Entry>, newJti: string, until: int)
    requires RedeemCheck(codec, text, now, store).Success?
    ensures var c := RedeemCheck(codec, text, now, store).value;
      RedeemCheck(codec, text, now, RotateEffect(c, now, store, newJti, until)) == Failure(DetailRevoked)
  {
    var c := RedeemCheck(codec, text, now, store).value;
    BlacklistKeyNotRefreshKey(c.jti.value);
    assert RefreshKey(newJti) != BlacklistKey(c.jti.value);
    assert BlacklistKey(c.jti.value) in RotateEffect(c, now, store, newJti, until);
  }

  /** Rotation only adds blacklist keys. */
  lemma RotateGrowsBlacklist(c: Claims, now: int, store: map<string, Entry>, newJti: string, until: int)
    requires Present(c.jti) && Present(c.sub)
    ensures BlacklistGrows(store, RotateEffect(c, now, store, newJti, until))
  {
    forall j | BlacklistKey(j) in store
      ensures BlacklistKey(j) in RotateEffect(c, now, store, newJti, until)
    {
      BlacklistKeyNotRefreshKey(j);
    }
  }

  // ---------------------------------------------------------------------------
  // Revoking every refresh token of a subject

  /** The active refresh entries whose stored subject is `user`. */
  function Victims(store: map<string, Entry>, user: string): (v: set<string>)
    ensures forall k :: k in v <==> k in store && IsRefreshKey(k) && store[k].value == user
  {
    set k | k in store && IsRefreshKey(k) && store[k].value == user
  }

  function BlacklistKeysOf(keys: set<string>): set<string> {
    set k | k in keys :: BlacklistKey(JtiOfKey(k))
  }

  /** The store after the refresh keys `done` have each been blacklisted
      (until `until`) and deleted. */
  function RevokedAll(store: map<string, Entry>, done: set<string>, until: int): (r: map<string, Entry>)
    ensures forall x :: x in r <==> (x in store && x !in done) || x in BlacklistKeysOf(done)
    ensures forall x :: x in r ==> r[x] == if x in BlacklistKeysOf(done) then Entry(BlacklistMarker, until) else store[x]
  {
    var b := BlacklistKeysOf(done);
    map k | k in (store.Keys - done) + b :: if k in b then Entry(BlacklistMarker, until) else store[k]
  }

  /** `revoke_all_user_tokens`' effect. */
  function RevokeAllEffect(store: map<string, Entry>, user: string, until: int): map<string, Entry> {
    RevokedAll(store, Victims(store, user), until)
  }

  /** None of the keys the bulk revocation adds is a refresh key. */
  lemma BlacklistKeysNotRefresh(keys: set<string>)
    ensures forall x :: x in BlacklistKeysOf(keys) ==> !IsRefreshKey(x)
  {
    forall x | x in BlacklistKeysOf(keys)
      ensures !IsRefreshKey(x)
    {
      var d :| d in keys && x == BlacklistKey(JtiOfKey(d));
      BlacklistKeyNotRefreshKey(JtiOfKey(d));
    }
  }

  lemma BlacklistKeysOfAdd(done: set<string>, k: string)
    ensures BlacklistKeysOf(done + {k}) == BlacklistKeysOf(done) + {BlacklistKey(JtiOfKey(k))}
  {
    var f := (d: string) => BlacklistKey(JtiOfKey(d));
    assert BlacklistKeysOf(done) == Image(done, f) by {
      BlacklistKeysOfIsImage(done, f);
    }
    assert BlacklistKeysOf(done + {k}) == Image(done + {k}, f) by {
      BlacklistKeysOfIsImage(done + {k}, f);
    }
    ImageAdd(done, k, f);
  }

  /** The image of a set of keys under a key mapping. */
  function Image(keys: set<string>, f: string -> string): set<string> {
    set k | k in keys :: f(k)
  }

  /** Adding one key adds its image and nothing else. */
  lemma ImageAdd(keys: set<string>, k: string, f: string -> string)
    ensures Image(keys + {k}, f) == Image(keys, f) + {f(k)}
  {
    forall x | x in Image(keys + {k}, f)
      ensures x in Image(keys, f) + {f(k)}
    {
      var d :| d in keys + {k} && x == f(d);
      if d != k {
        assert d in keys;
      }
    }
    forall x | x in Image(keys, f)
      ensures x in Image(keys + {k}, f)
    {
      var d :| d in keys && x == f(d);
      assert d in keys + {k};
    }
    assert k in keys + {k};
  }

  lemma BlacklistKeysOfIsImage(keys: set<string>, f: string -> string)
    requires forall d :: f(d) == BlacklistKey(JtiOfKey(d))
    ensures BlacklistKeysOf(keys) == Image(keys, f)
  {
  }

  lemma MapExtensional(a: map<string, Entry>, b: map<string, Entry>)
    requires forall x :: x in a <==> x in b
    requires forall x :: x in a ==> a[x] == b[x]
    ensures a == b
  {
  }

  /** The store after processing one more victim `k` on top of `done`. */
  function RevokeOneMore(store: map<string, Entry>, done: set<string>, k: string, until: int): map<string, Entry> {
    RevokedAll(store, done, until)[BlacklistKey(JtiOfKey(k)) := Entry(BlacklistMarker, until)] - {k}
  }

  lemma RevokeOneMoreKeys(store: map<string, Entry>, done: set<string>, k: string, until: int)
    requires IsRefreshKey(k)
    ensures forall x :: x in RevokeOneMore(store, done, k, until) <==> x in RevokedAll(store, done + {k}, until)
  {
    BlacklistKeysOfAdd(done, k);
    assert k !in BlacklistKeysOf(done + {k}) by {
      BlacklistKeysNotRefresh(done + {k});
    }
    forall x
      ensures x in RevokeOneMore(store, done, k, until) <==> x in RevokedAll(store, done + {k}, until)
    {
      RevokeOneMoreKey(store, done, k, until, x);
    }
  }

  lemma RevokeOneMoreKey(store: map<string, Entry>, done: set<string>, k: string, until: int, x: string)
    requires BlacklistKeysOf(done + {k}) == BlacklistKeysOf(done) + {BlacklistKey(JtiOfKey(k))}
    requires k !in BlacklistKeysOf(done + {k})
    ensures x in RevokeOneMore(store, done, k, until) <==> x in RevokedAll(store, done + {k}, until)
  {
    var bk := BlacklistKey(JtiOfKey(k));
    var before := RevokedAll(store, done, until);
    var after := RevokedAll(store, done + {k}, until);
    var b := BlacklistKeysOf(done);
    var b' := BlacklistKeysOf(done + {k});
    assert x in before <==> (x in store && x !in done) || x in b;
    assert x in after <==> (x in store && x !in done + {k}) || x in b';
    OneMoreMembership(before, after, store, done, k, bk, b, b', Entry(BlacklistMarker, until), x);
  }

  /** Membership after one more revoked key, on plain sets. */
  lemma OneMoreMembership(before: map<string, Entry>, after: map<string, Entry>, store: map<string, Entry>,
                          done: set<string>, k: string, bk: string, b: set<string>, b': set<string>, v: Entry, x: string)
    requires x in before <==> (x in store && x !in done) || x in b
    requires x in after <==> (x in store && x !in done + {k}) || x in b'
    requires b' == b + {bk} && k !in b'
    ensures x in before[bk := v] - {k} <==> x in after
  {
  }

  lemma RevokeOneMoreValues(store: map<string, Entry>, done: set<string>, k: string, until: int)
    ensures var left := RevokeOneMore(store, done, k, until);
      forall x :: x in left && x in RevokedAll(store, done + {k}, until) ==> left[x] == RevokedAll(store, done + {k}, until)[x]
  {
    var bk := BlacklistKey(JtiOfKey(k));
    var b := BlacklistKeysOf(done);
    var b' := BlacklistKeysOf(done + {k});
    BlacklistKeysOfAdd(done, k);
    var left := RevokeOneMore(store, done, k, until);
    var right := RevokedAll(store, done + {k}, until);
    forall x | x in left && x in right
      ensures left[x] == right[x]
    {
      if x != bk {
        assert x in b' <==> x in b;
      }
    }
  }

  /** One more processed victim: blacklisting its jti and deleting it extends `done` by it. */
  lemma RevokedAllStep(store: map<string, Entry>, done: set<string>, k: string, until: int)
    requires IsRefreshKey(k)
    ensures RevokeOneMore(store, done, k, until) == RevokedAll(store, done + {k}, until)
  {
    RevokeOneMoreKeys(store, done, k, until);
    RevokeOneMoreValues(store, done, k, until);
    MapExtensional(RevokeOneMore(store, done, k, until), RevokedAll(store, done + {k}, until));
  }

  /** A refresh key not yet processed reads as in the original store. */
  lemma RevokedAllUnprocessed(store: map<string, Entry>, done: set<string>, k: string, until: int)
    requires IsRefreshKey(k) && k !in done && k in store
    ensures k in RevokedAll(store, done, until) && RevokedAll(store, done, until)[k] == store[k]
  {
    BlacklistKeysNotRefresh(done);
  }

  /** Every active refresh key stores a jti without ':'. */
  ghost predicate ColonFreeJtis(store: map<string, Entry>) {
    forall k :: k in store && IsRefreshKey(k) ==> ':' !in k[|RefreshPrefix|..]
  }

  /** Bulk revocation deletes exactly the subject's active refresh tokens and
      keeps every other refresh entry as it was. */
  lemma {:induction false} RevokeAllRemovesExactlySubject(store: map<string, Entry>, user: string, until: int)
    ensures var r := RevokeAllEffect(store, user, until);
      forall k :: IsRefreshKey(k) ==>
        (k in r <==> k in store && store[k].value != user) &&
        (k in r ==> r[k] == store[k])
  {
    BlacklistKeysNotRefresh(Victims(store, user));
  }

  /** Each of the subject's refresh tokens is blacklisted until `until`. */
  lemma {:induction false} RevokeAllBlacklistsSubject(store: map<string, Entry>, user: string, until: int)
    requires ColonFreeJtis(store)
    ensures var r := RevokeAllEffect(store, user, until);
      forall j :: RefreshKey(j) in store && store[RefreshKey(j)].value == user ==>
        BlacklistKey(j) in r && r[BlacklistKey(j)] == Entry(BlacklistMarker, until)
  {
    var v := Victims(store, user);
    forall j | RefreshKey(j) in store && store[RefreshKey(j)].value == user
      ensures BlacklistKey(j) in BlacklistKeysOf(v)
    {
      var k := RefreshKey(j);
      assert IsRefreshKey(k);
      assert k[|RefreshPrefix|..] == j;
      JtiOfRefreshKey(j);
      assert k in v;
    }
  }

  /** Bulk revocation ends every session of the subject: a refresh token whose
      active entry records the subject can no longer be redeemed. */
  lemma RevokeAllEndsSubjectSessions(codec: Codec, text: string, now: int, store: map<string, Entry>, user: string, until: int)
    requires ColonFreeJtis(store)
    requires RedeemCheck(codec, text, now, store).Success?
    requires store[RefreshKey(RedeemCheck(codec, text, now, store).value.jti.value)].value == user
    ensures RedeemCheck(codec, text, now, RevokeAllEffect(store, user, until)) == Failure(DetailRevoked)
  {
    var c := RedeemCheck(codec, text, now, store).value;
    RevokeAllBlacklistsSubject(store, user, until);
    assert BlacklistKey(c.jti.value) in RevokeAllEffect(store, user, until);
    assert Validate(codec, text, now, RevokeAllEffect(store, user, until)) == Failure(DetailRevoked);
  }

  /** ... and spares everyone else's: a redeemable token whose entry records
      another subject stays redeemable. */
  lemma {:induction false} RevokeAllSparesOthers(codec: Codec, text: string, now: int, store: map<string, Entry>, user: string, until: int)
    requires ColonFreeJtis(store)
    requires RedeemCheck(codec, text, now, store).Success?
    requires store[RefreshKey(RedeemCheck(codec, text, now, store).value.jti.value)].value != user
    ensures RedeemCheck(codec, text, now, RevokeAllEffect(store, user, until)) == RedeemCheck(codec, text, now, store)
  {
    var c := RedeemCheck(codec, text, now, store).value;
    var j := c.jti.value;
    var r := RevokeAllEffect(store, user, until);
    var v := Victims(store, user);
    RevokeAllRemovesExactlySubject(store, user, until);
    assert IsRefreshKey(RefreshKey(j));
    assert RefreshKey(j) in r;
    // The token's own blacklist key is not one of those added.
    if BlacklistKey(j) in BlacklistKeysOf(v) {
      var d :| d in v && BlacklistKey(j) == BlacklistKey(JtiOfKey(d));
      BlacklistKeyInjective(j, JtiOfKey(d));
      var dj := d[|RefreshPrefix|..];
      assert d == RefreshKey(dj);
      JtiOfRefreshKey(dj);
      RefreshKeyInjective(j, dj);
      assert false;
    }
    assert BlacklistKey(j) !in store;
    BlacklistKeyNotRefreshKey(j);
    assert BlacklistKey(j) !in r;
  }
}
