/**
 The account-linking token server: three stores with expiry times, a request
 handler, and a background sweep that removes expired entries at any moment.
 */
module OAuth {
  import opened Wrappers

  type Token = string

  /** The client's identity, the allowed prefixes of redirect addresses, and the encoding of `code` and `state` as a query. */
  datatype Config = Config(clientId: string, clientSecret: string, allowlist: seq<string>, query: (Token, string) -> string)

  /** `_redirect_uri_allowed`: without a list every address is allowed. */
  predicate RedirectAllowed(cfg: Config, redirectUri: string) {
    cfg.allowlist == [] || exists prefix | prefix in cfg.allowlist :: prefix <= redirectUri
  }

  const CODE_LIFETIME := 300
  const ACCESS_LIFETIME := 3600
  const REFRESH_LIFETIME := 86400 * 365

  type Store = map<Token, nat>

  /** Expiry times of codes, access tokens and refresh tokens. */
  datatype Stores = Stores(codes: Store, access: Store, refresh: Store)

  datatype Grant = AuthorizationCode(code: Token) | RefreshToken(refresh: Token) | OtherGrant

  /**
   A request with the random strings drawn for it and the clock readings made while it
   is served, in order.
   */
  datatype Request =
    | Authorize(clientId: string, responseType: string, redirectUri: string, state: string, newCode: Token, at: nat)
    | TokenRequest(clientId: string, clientSecret: string, grant: Grant, newAccess: Token, newRefresh: Token,
                   at: nat, accessAt: nat, refreshAt: nat)

  // ------------------------------------------------------ who is asking

  /** The credential fields of the form or JSON body, and the Authorization header, empty where there is none. */
  datatype Sender = Sender(clientId: Option<string>, clientSecret: Option<string>, header: string)

  /** `s.split(":", 1)` on a string with a colon. */
  function SplitColon(s: string): (r: (string, string))
    requires ':' in s
    ensures r.0 + ":" + r.1 == s && ':' !in r.0
  {
    if s[0] == ':' then ("", s[1..])
    else
      var r := SplitColon(s[1..]);
      assert r.0 + ":" + r.1 == s[1..];
      ([s[0]] + r.0, r.1)
  }

  /**
   The credentials of a request: those of the body, with the configured identity and an empty
   secret as defaults, overridden by a Basic header whose decoding holds a colon. A header that
   does not decode raises.
   */
  function Credentials(cfg: Config, decode: string -> Option<string>, sender: Sender): Result<(string, string)> {
    var id := if sender.clientId.Some? then sender.clientId.value else cfg.clientId;
    var secret := if sender.clientSecret.Some? then sender.clientSecret.value else "";
    if !("Basic " <= sender.header) then Ok((id, secret))
    else
      match decode(sender.header[6..])
      case None => Raised
      case Some(decoded) => Ok(if ':' in decoded then SplitColon(decoded) else (id, secret))
  }

  lemma {:induction false} SplitColonOf(a: string, b: string)
    requires ':' !in a
    ensures ':' in a + ":" + b && SplitColon(a + ":" + b) == (a, b)
  {
    var s := a + ":" + b;
    assert s[|a|] == ':';
    if a == "" {
      assert s[1..] == b;
    } else {
      SplitColonOf(a[1..], b);
      assert s[0] == a[0] && s[1..] == a[1..] + ":" + b;
      assert [a[0]] + a[1..] == a;
    }
  }

  /** A well-formed Basic header decides alone, whatever the body says; the secret may hold colons, the identity none. */
  lemma BasicHeaderDecides(cfg: Config, decode: string -> Option<string>, sender: Sender, id: string, secret: string)
    requires "Basic " <= sender.header && decode(sender.header[6..]) == Some(id + ":" + secret) && ':' !in id
    ensures Credentials(cfg, decode, sender) == Ok((id, secret))
  {
    SplitColonOf(id, secret);
  }

  /**
   Without a Basic header, or with one whose decoding has no colon, the body decides: a missing identity is the
   configured one and a missing secret is empty. Only a Basic header that does not decode raises.
   */
  lemma BodyDecides(cfg: Config, decode: string -> Option<string>, sender: Sender)
    requires "Basic " <= sender.header ==> decode(sender.header[6..]).Some? && ':' !in decode(sender.header[6..]).value
    ensures Credentials(cfg, decode, sender).Ok?
    ensures var c := Credentials(cfg, decode, sender).value;
            && (if sender.clientId.Some? then sender.clientId == Some(c.0) else c.0 == cfg.clientId)
            && (if sender.clientSecret.Some? then sender.clientSecret == Some(c.1) else c.1 == "")
  {
  }

  lemma UndecodedHeaderRaises(cfg: Config, decode: string -> Option<string>, sender: Sender)
    ensures Credentials(cfg, decode, sender) == Raised <==> "Basic " <= sender.header && decode(sender.header[6..]).None?
  {
  }

  datatype Response =
    | BadRequest
    | Redirect(location: string, code: Token)
    | InvalidClient
    | InvalidGrant
    | UnsupportedGrant
    | Tokens(access: Token, refresh: Token)

  predicate Live(store: Store, key: Token, now: nat) {
    key in store && store[key] >= now
  }

  /** Where the client is sent with its code. */
  function RedirectUrl(cfg: Config, redirectUri: string, code: Token, state: string): string {
    redirectUri + (if '?' in redirectUri then "&" else "?") + cfg.query(code, state)
  }

  /** What one request does and answers. */
  function Serve(cfg: Config, s: Stores, r: Request): (Stores, Response) {
    match r
    case Authorize(clientId, responseType, redirectUri, state, newCode, at) =>
      if clientId != cfg.clientId || responseType != "code" || !RedirectAllowed(cfg, redirectUri) then (s, BadRequest)
      else (s.(codes := s.codes[newCode := at + CODE_LIFETIME]), Redirect(RedirectUrl(cfg, redirectUri, newCode, state), newCode))
    case TokenRequest(clientId, clientSecret, grant, newAccess, newRefresh, at, accessAt, refreshAt) =>
      if clientId != cfg.clientId || clientSecret != cfg.clientSecret then (s, InvalidClient)
      else
        match grant
        case AuthorizationCode(code) =>
          var popped := s.(codes := s.codes - {code});
          if !Live(s.codes, code, at) then (popped, InvalidGrant)
          else (Stores(popped.codes, s.access[newAccess := accessAt + ACCESS_LIFETIME],
                       s.refresh[newRefresh := refreshAt + REFRESH_LIFETIME]), Tokens(newAccess, newRefresh))
        case RefreshToken(refresh) =>
          if !Live(s.refresh, refresh, at) then (s, InvalidGrant)
          else (s.(access := s.access[newAccess := accessAt + ACCESS_LIFETIME]), Tokens(newAccess, refresh))
        case OtherGrant => (s, UnsupportedGrant)
  }

  /** A store without the entries whose expiry lies before `now`. */
  function Swept(store: Store, now: nat): Store {
    map k | k in store && store[k] >= now :: store[k]
  }

  function SweepAll(s: Stores, now: nat): Stores {
    Stores(Swept(s.codes, now), Swept(s.access, now), Swept(s.refresh, now))
  }

  // ------------------------------------------------------ the module's code

  /** The inner loop of the sweep: expired keys are collected first, then popped. */
  method SweepStore(store: Store, now: nat) returns (left: Store)
    ensures left == Swept(store, now)
    ensures forall k :: k in left <==> k in store && !(store[k] < now)
  {
    left := store;
    var expired := set k | k in store && store[k] < now;
    var todo := expired;
    while todo != {}
      invariant todo <= expired
      invariant left == map k | k in store && (k !in expired || k in todo) :: store[k]
    {
      var k :| k in todo;
      todo := todo - {k};
      left := left - {k};
    }
  }

  class Server {
    const cfg: Config
    var codes: Store
    var access: Store
    var refresh: Store

    ghost function State(): Stores
      reads this
    {
      Stores(codes, access, refresh)
    }

    constructor (cfg: Config)
      ensures this.cfg == cfg && State() == Stores(map[], map[], map[])
    {
      this.cfg, codes, access, refresh := cfg, map[], map[], map[];
    }

    /** `authorize`. */
    method AuthorizeClient(clientId: string, responseType: string, redirectUri: string, state: string, newCode: Token, at: nat)
      returns (resp: Response)
      modifies this
      ensures (State(), resp) == Serve(cfg, old(State()), Authorize(clientId, responseType, redirectUri, state, newCode, at))
    {
      if clientId != cfg.clientId {
        return BadRequest;
      }
      if responseType != "code" {
        return BadRequest;
      }
      if !RedirectAllowed(cfg, redirectUri) {
        return BadRequest;
      }
      codes := codes[newCode := at + CODE_LIFETIME];
      return Redirect(RedirectUrl(cfg, redirectUri, newCode, state), newCode);
    }

    /** `token`: a code is removed from its store before its expiry is looked at. */
    method IssueToken(r: Request) returns (resp: Response)
      requires r.TokenRequest?
      modifies this
      ensures (State(), resp) == Serve(cfg, old(State()), r)
    {
      if r.clientId != cfg.clientId || r.clientSecret != cfg.clientSecret {
        return InvalidClient;
      }
      match r.grant
      case AuthorizationCode(code) =>
        var stored := if code in codes then Some(codes[code]) else None;
        codes := codes - {code};
        if stored.None? || stored.value < r.at {
          return InvalidGrant;
        }
        access := access[r.newAccess := r.accessAt + ACCESS_LIFETIME];
        refresh := refresh[r.newRefresh := r.refreshAt + REFRESH_LIFETIME];
        return Tokens(r.newAccess, r.newRefresh);
      case RefreshToken(token) =>
        if token !in refresh || refresh[token] < r.at {
          return InvalidGrant;
        }
        access := access[r.newAccess := r.accessAt + ACCESS_LIFETIME];
        return Tokens(r.newAccess, token);
      case OtherGrant =>
        return UnsupportedGrant;
    }

    /** `token` from the received request on; Raised where the header does not decode. */
    method HandleToken(decode: string -> Option<string>, sender: Sender, grant: Grant, newAccess: Token, newRefresh: Token,
                       at: nat, accessAt: nat, refreshAt: nat)
      returns (res: Result<Response>)
      modifies this
      ensures match Credentials(cfg, decode, sender)
              case Raised => res == Raised && State() == old(State())
              case Ok(c) =>
                var r := TokenRequest(c.0, c.1, grant, newAccess, newRefresh, at, accessAt, refreshAt);
                State() == Serve(cfg, old(State()), r).0 && res == Ok(Serve(cfg, old(State()), r).1)
    {
      var c := Credentials(cfg, decode, sender);
      if c.Raised? {
        return Raised;
      }
      var resp := IssueToken(TokenRequest(c.value.0, c.value.1, grant, newAccess, newRefresh, at, accessAt, refreshAt));
      return Ok(resp);
    }

    /** One round of `_expire_oauth_entries`. */
    method ExpireEntries(now: nat)
      modifies this
      ensures State() == SweepAll(old(State()), now)
    {
      codes := SweepStore(codes, now);
      access := SweepStore(access, now);
      refresh := SweepStore(refresh, now);
    }
  }

  // --------------------------------------- who gets what, and for how long

  /** A code is handed out exactly to the configured client, for a code, to an address with an allowed prefix; nothing else changes. */
  lemma AuthorizedExactly(cfg: Config, s: Stores, r: Request)
    requires r.Authorize?
    ensures var (after, resp) := Serve(cfg, s, r);
            && (resp == BadRequest ==> after == s)
            && (resp != BadRequest <==>
                  r.clientId == cfg.clientId && r.responseType == "code"
                  && (cfg.allowlist == [] || exists prefix :: prefix in cfg.allowlist && prefix <= r.redirectUri))
            && (resp != BadRequest ==>
                  && resp == Redirect(r.redirectUri + (if '?' in r.redirectUri then "&" else "?") + cfg.query(r.newCode, r.state), r.newCode)
                  && after.access == s.access && after.refresh == s.refresh
                  && r.newCode in after.codes && forall c | c != r.newCode :: c in after.codes <==> c in s.codes)
  {
  }

  predicate RightCredentials(cfg: Config, r: Request) {
    r.TokenRequest? && r.clientId == cfg.clientId && r.clientSecret == cfg.clientSecret
  }

  /** A code lives five minutes: presented next, it buys tokens exactly up to then. */
  lemma CodeLifetime(cfg: Config, s: Stores, a: Request, r: Request)
    requires a.Authorize? && Serve(cfg, s, a).1.Redirect?
    requires RightCredentials(cfg, r) && r.grant == AuthorizationCode(a.newCode)
    ensures Serve(cfg, Serve(cfg, s, a).0, r).1 == if r.at <= a.at + 300 then Tokens(r.newAccess, r.newRefresh) else InvalidGrant
  {
  }

  /** A code that was presented with the right credentials is gone, whatever the answer. */
  lemma CodeIsSpent(cfg: Config, s: Stores, r: Request)
    requires RightCredentials(cfg, r) && r.grant.AuthorizationCode?
    ensures r.grant.code !in Serve(cfg, s, r).0.codes
    ensures Serve(cfg, s, r).1 == InvalidGrant || Serve(cfg, s, r).1 == Tokens(r.newAccess, r.newRefresh)
    ensures Serve(cfg, s, r).1 == InvalidGrant ==> Serve(cfg, s, r).0.access == s.access && Serve(cfg, s, r).0.refresh == s.refresh
  {
  }

  /** A refresh token lives a year and is not used up: it buys access tokens, and nothing else, exactly up to then. */
  lemma RefreshLifetime(cfg: Config, s: Stores, r: Request, q: Request)
    requires RightCredentials(cfg, r) && r.grant.AuthorizationCode? && Serve(cfg, s, r).1.Tokens?
    requires RightCredentials(cfg, q) && q.grant == RefreshToken(r.newRefresh)
    ensures var before := Serve(cfg, s, r).0;
            var (after, resp) := Serve(cfg, before, q);
            && resp == (if q.at <= r.refreshAt + 365 * 24 * 60 * 60 then Tokens(q.newAccess, r.newRefresh) else InvalidGrant)
            && after.codes == before.codes && after.refresh == before.refresh
  {
  }

  /** An access token of either grant is stored for one hour, and no other one changes. */
  lemma AccessLifetime(cfg: Config, s: Stores, r: Request)
    requires RightCredentials(cfg, r) && Serve(cfg, s, r).1.Tokens?
    ensures var access := Serve(cfg, s, r).0.access;
            && r.newAccess in access && access[r.newAccess] == r.accessAt + 3600
            && forall t | t != r.newAccess :: (t in access <==> t in s.access) && (t in access ==> access[t] == s.access[t])
  {
  }

  // -------------------------------------------------- an unset secret

  /** Whatever the stores hold, a token request is turned away as an unknown client exactly on wrong credentials. */
  lemma RejectedExactly(cfg: Config, s: Stores, r: Request)
    requires r.TokenRequest?
    ensures Serve(cfg, s, r).1 == InvalidClient <==> r.clientId != cfg.clientId || r.clientSecret != cfg.clientSecret
    ensures Serve(cfg, s, r).1 == InvalidClient ==> Serve(cfg, s, r).0 == s
    ensures Serve(cfg, s, r).1 == UnsupportedGrant <==>
              r.clientId == cfg.clientId && r.clientSecret == cfg.clientSecret && r.grant == OtherGrant
    ensures Serve(cfg, s, r).1 == UnsupportedGrant ==> Serve(cfg, s, r).0 == s
  {
  }

  /**
   While no secret is configured, the endpoint does not reject every request: a code handed
   out by this server buys tokens for a client that sends an empty secret in time.
   */
  lemma UnsetSecretIsAccepted(cfg: Config, s: Stores, a: Request, r: Request)
    requires cfg.clientSecret == "" && a.Authorize? && r.TokenRequest?
    requires Serve(cfg, s, a).1.Redirect? && r.at <= a.at + CODE_LIFETIME
    requires r.clientId == cfg.clientId && r.clientSecret == "" && r.grant == AuthorizationCode(a.newCode)
    ensures Serve(cfg, Serve(cfg, s, a).0, r).1 == Tokens(r.newAccess, r.newRefresh)
  {
  }

  // ---------------------------------------------- the sweep is unobservable

  datatype Op = Request(r: Request) | Sweep(at: nat)

  predicate Ordered(r: Request) {
    r.TokenRequest? ==> r.at <= r.accessAt <= r.refreshAt
  }

  function Start(op: Op): nat {
    if op.Sweep? then op.at else op.r.at
  }

  function End(op: Op): nat {
    if op.Request? && op.r.TokenRequest? then op.r.refreshAt else Start(op)
  }

  /** Operations follow each other on a clock that never goes back. */
  ghost predicate Timed(ops: seq<Op>) {
    && (forall i | 0 <= i < |ops| && ops[i].Request? :: Ordered(ops[i].r))
    && (forall i, j | 0 <= i < j < |ops| :: End(ops[i]) <= Start(ops[j]))
  }

  /** The stores after a run, and every request with its answer. */
  datatype Run = Run(stores: Stores, history: seq<(Request, Response)>)

  function Execute(cfg: Config, ops: seq<Op>): Run {
    if ops == [] then Run(Stores(map[], map[], map[]), [])
    else
      var before, last := Execute(cfg, ops[..|ops| - 1]), ops[|ops| - 1];
      match last
      case Sweep(at) => before.(stores := SweepAll(before.stores, at))
      case Request(r) =>
        var (stores, resp) := Serve(cfg, before.stores, r);
        Run(stores, before.history + [(r, resp)])
  }

  function WithoutSweeps(ops: seq<Op>): seq<Op> {
    if ops == [] then []
    else WithoutSweeps(ops[..|ops| - 1]) + if ops[|ops| - 1].Sweep? then [] else [ops[|ops| - 1]]
  }

  /** `b` is `a` without some entries that expired before `now`. */
  ghost predicate Lags(a: Store, b: Store, now: nat) {
    forall k :: if k in b then k in a && a[k] == b[k] else k in a ==> a[k] < now
  }

  ghost predicate StoresLag(a: Stores, b: Stores, now: nat) {
    Lags(a.codes, b.codes, now) && Lags(a.access, b.access, now) && Lags(a.refresh, b.refresh, now)
  }

  lemma SweepLags(a: Stores, b: Stores, then_: nat, now: nat)
    requires StoresLag(a, b, then_) && then_ <= now
    ensures StoresLag(a, SweepAll(b, now), now)
  {
  }

  lemma LagsUpdate(a: Store, b: Store, k: Token, expiry: nat, now: nat)
    requires Lags(a, b, now)
    ensures Lags(a[k := expiry], b[k := expiry], now) && Lags(a - {k}, b - {k}, now)
  {
  }

  lemma LiveAlike(a: Store, b: Store, k: Token, now: nat)
    requires Lags(a, b, now)
    ensures Live(a, k, now) == Live(b, k, now)
  {
  }

  lemma LagLater(a: Stores, b: Stores, then_: nat, now: nat)
    requires StoresLag(a, b, then_) && then_ <= now
    ensures StoresLag(a, b, now)
  {
  }

  /** A swept and an unswept server answer alike and stay alike. */
  lemma ServeAlike(cfg: Config, a: Stores, b: Stores, r: Request, now: nat)
    requires StoresLag(a, b, now) && now <= r.at
    ensures Serve(cfg, a, r).1 == Serve(cfg, b, r).1
    ensures StoresLag(Serve(cfg, a, r).0, Serve(cfg, b, r).0, r.at)
  {
    LagLater(a, b, now, r.at);
    match r
    case Authorize(_, _, _, _, newCode, at) => LagsUpdate(a.codes, b.codes, newCode, at + CODE_LIFETIME, at);
    case TokenRequest(_, _, grant, newAccess, newRefresh, at, accessAt, refreshAt) =>
      LagsUpdate(a.access, b.access, newAccess, accessAt + ACCESS_LIFETIME, at);
      LagsUpdate(a.refresh, b.refresh, newRefresh, refreshAt + REFRESH_LIFETIME, at);
      if grant.AuthorizationCode? {
        LagsUpdate(a.codes, b.codes, grant.code, 0, at);
        LiveAlike(a.codes, b.codes, grant.code, at);
      } else if grant.RefreshToken? {
        LiveAlike(a.refresh, b.refresh, grant.refresh, at);
      }
  }

  lemma {:induction false} SweepsLeaveALag(cfg: Config, ops: seq<Op>)
    requires Timed(ops)
    ensures Execute(cfg, ops).history == Execute(cfg, WithoutSweeps(ops)).history
    ensures StoresLag(Execute(cfg, WithoutSweeps(ops)).stores, Execute(cfg, ops).stores, if ops == [] then 0 else End(ops[|ops| - 1]))
  {
    if ops != [] {
      var init, last := ops[..|ops| - 1], ops[|ops| - 1];
      assert forall i | 0 <= i < |init| :: init[i] == ops[i];
      SweepsLeaveALag(cfg, init);
      var a, b := Execute(cfg, WithoutSweeps(init)).stores, Execute(cfg, init).stores;
      var then_ := if init == [] then 0 else End(init[|init| - 1]);
      assert then_ <= Start(last);
      match last
      case Sweep(at) =>
        SweepLags(a, b, then_, at);
        assert WithoutSweeps(init) + [] == WithoutSweeps(init);
      case Request(r) =>
        ServeAlike(cfg, a, b, r, then_);
        LagLater(Serve(cfg, a, r).0, Serve(cfg, b, r).0, r.at, End(last));
        assert (WithoutSweeps(init) + [last])[..|WithoutSweeps(init)|] == WithoutSweeps(init);
    }
  }

  /** With sweeps at arbitrary moments, every request is answered as without them. */
  lemma SweepIsUnobservable(cfg: Config, ops: seq<Op>)
    requires Timed(ops)
    ensures Execute(cfg, ops).history == Execute(cfg, WithoutSweeps(ops)).history
  {
    SweepsLeaveALag(cfg, ops);
  }

  // ------------------------------------------------------------ provenance

  type Exchange = (Request, Response)

  /** The answer handed out the code. */
  predicate Issues(e: Exchange, c: Token) {
    e.0.Authorize? && e.1.Redirect? && e.1.code == c
  }

  /** The answer exchanged the code for an access and a refresh token. */
  predicate Redeems(e: Exchange, c: Token) {
    e.0.TokenRequest? && e.0.grant == AuthorizationCode(c) && e.1.Tokens?
  }

  /** The answer gave a new access token for the refresh token. */
  predicate Refreshes(e: Exchange, r: Token) {
    e.0.TokenRequest? && e.0.grant == RefreshToken(r) && e.1.Tokens?
  }

  /** An answer contains the random strings drawn for its request. */
  predicate Draws(e: Exchange) {
    && (e.1.Redirect? ==> e.0.Authorize? && e.1.code == e.0.newCode)
    && (e.1.Tokens? ==> e.0.TokenRequest? && !e.0.grant.OtherGrant? && e.1.access == e.0.newAccess
                        && (e.0.grant.AuthorizationCode? ==> e.1.refresh == e.0.newRefresh))
  }

  predicate Apart(r: Request, s: Request) {
    && (r.Authorize? && s.Authorize? ==> r.newCode != s.newCode)
    && (r.TokenRequest? && s.TokenRequest? ==> r.newAccess != s.newAccess && r.newRefresh != s.newRefresh)
  }

  /** Random strings never repeat. */
  ghost predicate AllFresh(h: seq<Exchange>) {
    forall i, j | 0 <= i < j < |h| :: Apart(h[i].0, h[j].0)
  }

  /** A drawn string identifies its request. */
  lemma SameDraw(h: seq<Exchange>, i: nat, j: nat)
    requires AllFresh(h) && i < |h| && j < |h|
    ensures h[i].0.Authorize? && h[j].0.Authorize? && h[i].0.newCode == h[j].0.newCode ==> i == j
    ensures h[i].0.TokenRequest? && h[j].0.TokenRequest? && h[i].0.newAccess == h[j].0.newAccess ==> i == j
    ensures h[i].0.TokenRequest? && h[j].0.TokenRequest? && h[i].0.newRefresh == h[j].0.newRefresh ==> i == j
  {
    assert i < j ==> Apart(h[i].0, h[j].0);
    assert j < i ==> Apart(h[j].0, h[i].0);
  }

  /** Stored codes were issued and not yet redeemed. */
  ghost predicate CodesTraceable(codes: Store, h: seq<Exchange>) {
    && (forall c | c in codes :: exists i :: 0 <= i < |h| && Issues(h[i], c))
    && (forall c, i | c in codes && 0 <= i < |h| :: !Redeems(h[i], c))
  }

  /** Stored refresh tokens came from a redemption. */
  ghost predicate RefreshTraceable(refresh: Store, h: seq<Exchange>) {
    forall t | t in refresh :: exists i, c :: 0 <= i < |h| && Redeems(h[i], c) && h[i].1.refresh == t
  }

  /** Redemptions follow issues, no code is redeemed twice, refreshes follow the redemption of their token. */
  ghost predicate HistoryTraceable(h: seq<Exchange>) {
    && (forall i | 0 <= i < |h| :: Draws(h[i]))
    && (forall i, c | 0 <= i < |h| && Redeems(h[i], c) :: exists j :: 0 <= j < i && Issues(h[j], c))
    && (forall i, j, c | 0 <= i < j < |h| && Redeems(h[i], c) :: !Redeems(h[j], c))
    && (forall i, t | 0 <= i < |h| && Refreshes(h[i], t) :: exists j, c :: 0 <= j < i && Redeems(h[j], c) && h[j].1.refresh == t)
  }

  ghost predicate Traceable(run: Run) {
    && CodesTraceable(run.stores.codes, run.history)
    && RefreshTraceable(run.stores.refresh, run.history)
    && HistoryTraceable(run.history)
  }

  lemma CodesFewer(codes: Store, codes': Store, h: seq<Exchange>)
    requires CodesTraceable(codes, h) && codes'.Keys <= codes.Keys
    ensures CodesTraceable(codes', h)
  {
  }

  /** An exchange that redeems no stored code leaves the stored codes traceable. */
  lemma CodesAppend(codes: Store, h: seq<Exchange>, e: Exchange)
    requires CodesTraceable(codes, h) && forall c | c in codes :: !Redeems(e, c)
    ensures CodesTraceable(codes, h + [e])
  {
    forall c | c in codes
      ensures exists i :: 0 <= i < |h| + 1 && Issues((h + [e])[i], c)
    {
      var i :| 0 <= i < |h| && Issues(h[i], c);
      assert Issues((h + [e])[i], c);
    }
  }

  lemma RefreshAppend(refresh: Store, h: seq<Exchange>, e: Exchange)
    requires RefreshTraceable(refresh, h)
    ensures RefreshTraceable(refresh, h + [e])
  {
    forall t | t in refresh
      ensures exists i, c :: 0 <= i < |h| + 1 && Redeems((h + [e])[i], c) && (h + [e])[i].1.refresh == t
    {
      var i, c :| 0 <= i < |h| && Redeems(h[i], c) && h[i].1.refresh == t;
      assert Redeems((h + [e])[i], c);
    }
  }

  /** What an exchange must satisfy to extend a traceable history. */
  ghost predicate Follows(h: seq<Exchange>, e: Exchange) {
    && Draws(e)
    && (forall c | Redeems(e, c) :: (exists j :: 0 <= j < |h| && Issues(h[j], c)) && forall j | 0 <= j < |h| :: !Redeems(h[j], c))
    && (forall t | Refreshes(e, t) :: exists j, c :: 0 <= j < |h| && Redeems(h[j], c) && h[j].1.refresh == t)
  }

  lemma HistoryAppend(h: seq<Exchange>, e: Exchange)
    requires HistoryTraceable(h) && Follows(h, e)
    ensures HistoryTraceable(h + [e])
  {
    var h' := h + [e];
    forall i, c | 0 <= i < |h'| && Redeems(h'[i], c)
      ensures exists j :: 0 <= j < i && Issues(h'[j], c)
    {
      var j :| 0 <= j < i && Issues(h[j], c);
      assert Issues(h'[j], c);
    }
    forall i, t | 0 <= i < |h'| && Refreshes(h'[i], t)
      ensures exists j, c :: 0 <= j < i && Redeems(h'[j], c) && h'[j].1.refresh == t
    {
      var j, c :| 0 <= j < i && Redeems(h[j], c) && h[j].1.refresh == t;
      assert Redeems(h'[j], c);
    }
  }

  /** A newly issued code has not been redeemed before: it would have been issued before. */
  lemma NewCodeTraceable(codes: Store, h: seq<Exchange>, e: Exchange, expiry: nat)
    requires CodesTraceable(codes, h + [e]) && HistoryTraceable(h) && Draws(e) && e.1.Redirect? && AllFresh(h + [e])
    ensures CodesTraceable(codes[e.0.newCode := expiry], h + [e])
  {
    var h' := h + [e];
    assert Issues(h'[|h|], e.0.newCode);
    forall i | 0 <= i < |h'|
      ensures !Redeems(h'[i], e.0.newCode)
    {
      if i < |h| && Redeems(h[i], e.0.newCode) {
        var j :| 0 <= j < i && Issues(h[j], e.0.newCode);
        SameDraw(h', j, |h|);
      }
    }
  }

  lemma NewRefreshTraceable(refresh: Store, h: seq<Exchange>, e: Exchange, c: Token, expiry: nat)
    requires RefreshTraceable(refresh, h + [e]) && Redeems(e, c)
    ensures RefreshTraceable(refresh[e.1.refresh := expiry], h + [e])
  {
    assert Redeems((h + [e])[|h|], c);
  }

  lemma ServeFollows(cfg: Config, run: Run, r: Request)
    requires Traceable(run)
    ensures Follows(run.history, (r, Serve(cfg, run.stores, r).1))
  {
    var resp := Serve(cfg, run.stores, r).1;
    if r.TokenRequest? && resp.Tokens? && r.grant.AuthorizationCode? {
      assert r.grant.code in run.stores.codes;
    } else if r.TokenRequest? && resp.Tokens? && r.grant.RefreshToken? {
      assert r.grant.refresh in run.stores.refresh;
    }
  }

  lemma ServeStores(cfg: Config, run: Run, r: Request)
    requires Traceable(run)
    requires AllFresh(run.history + [(r, Serve(cfg, run.stores, r).1)])
    ensures var after, h := Serve(cfg, run.stores, r).0, run.history + [(r, Serve(cfg, run.stores, r).1)];
            CodesTraceable(after.codes, h) && RefreshTraceable(after.refresh, h)
  {
    var s, h := run.stores, run.history;
    var (s', resp) := Serve(cfg, s, r);
    var e := (r, resp);
    RefreshAppend(s.refresh, h, e);
    if resp.Redirect? {
      CodesAppend(s.codes, h, e);
      NewCodeTraceable(s.codes, h, e, r.at + CODE_LIFETIME);
    } else {
      CodesFewer(s.codes, s'.codes, h);
      CodesAppend(s'.codes, h, e);
      if resp.Tokens? && r.grant.AuthorizationCode? {
        NewRefreshTraceable(s.refresh, h, e, r.grant.code, r.refreshAt + REFRESH_LIFETIME);
      }
    }
  }

  lemma ServeTraceable(cfg: Config, run: Run, r: Request)
    requires Traceable(run)
    requires AllFresh(run.history + [(r, Serve(cfg, run.stores, r).1)])
    ensures Traceable(Run(Serve(cfg, run.stores, r).0, run.history + [(r, Serve(cfg, run.stores, r).1)]))
  {
    ServeFollows(cfg, run, r);
    HistoryAppend(run.history, (r, Serve(cfg, run.stores, r).1));
    ServeStores(cfg, run, r);
  }

  lemma {:induction false} RunTraceable(cfg: Config, ops: seq<Op>)
    requires AllFresh(Execute(cfg, ops).history)
    ensures Traceable(Execute(cfg, ops))
  {
    if ops != [] {
      var init, last := ops[..|ops| - 1], ops[|ops| - 1];
      var before, after := Execute(cfg, init), Execute(cfg, ops);
      assert before.history <= after.history;
      assert forall i | 0 <= i < |before.history| :: before.history[i] == after.history[i];
      RunTraceable(cfg, init);
      match last
      case Sweep(at) => CodesFewer(before.stores.codes, after.stores.codes, before.history);
      case Request(r) => ServeTraceable(cfg, before, r);
    }
  }

  /** Each code yields tokens at most once. */
  lemma CodeRedeemedOnce(cfg: Config, ops: seq<Op>, i: nat, j: nat, c: Token)
    requires AllFresh(Execute(cfg, ops).history)
    requires i < |Execute(cfg, ops).history| && j < |Execute(cfg, ops).history|
    requires Redeems(Execute(cfg, ops).history[i], c) && Redeems(Execute(cfg, ops).history[j], c)
    ensures i == j
  {
    RunTraceable(cfg, ops);
  }

  /** The access token was obtained for the code, directly or through the refresh token obtained for it. */
  ghost predicate TracesTo(h: seq<Exchange>, a: Token, c: Token) {
    || (exists i :: 0 <= i < |h| && Redeems(h[i], c) && h[i].1.access == a)
    || (exists i, j :: 0 <= j < i < |h| && Redeems(h[j], c) && Refreshes(h[i], h[j].1.refresh) && h[i].1.access == a)
  }

  lemma TracesSomewhere(h: seq<Exchange>, i: nat) returns (c: Token)
    requires HistoryTraceable(h) && i < |h| && h[i].1.Tokens?
    ensures TracesTo(h, h[i].1.access, c)
  {
    assert Draws(h[i]);
    if h[i].0.grant.AuthorizationCode? {
      c := h[i].0.grant.code;
      assert Redeems(h[i], c);
    } else {
      assert Refreshes(h[i], h[i].0.grant.refresh);
      var j, d :| 0 <= j < i && Redeems(h[j], d) && h[j].1.refresh == h[i].0.grant.refresh;
      c := d;
    }
  }

  /** The code at the root of an answer with tokens. */
  ghost predicate RootedAt(h: seq<Exchange>, i: nat, c: Token) {
    && i < |h|
    && (Redeems(h[i], c) || exists j :: 0 <= j < i && Redeems(h[j], c) && Refreshes(h[i], h[j].1.refresh))
  }

  lemma RootUnique(h: seq<Exchange>, i: nat, c: Token, d: Token)
    requires HistoryTraceable(h) && AllFresh(h) && RootedAt(h, i, c) && RootedAt(h, i, d)
    ensures c == d
  {
    if !Redeems(h[i], c) {
      var j :| 0 <= j < i && Redeems(h[j], c) && Refreshes(h[i], h[j].1.refresh);
      var k :| 0 <= k < i && Redeems(h[k], d) && Refreshes(h[i], h[k].1.refresh);
      assert Draws(h[j]) && Draws(h[k]);
      SameDraw(h, j, k);
    }
  }

  lemma TracesAreRoots(h: seq<Exchange>, a: Token, c: Token) returns (i: nat)
    requires TracesTo(h, a, c)
    ensures RootedAt(h, i, c) && h[i].1.Tokens? && h[i].1.access == a
  {
    if k :| 0 <= k < |h| && Redeems(h[k], c) && h[k].1.access == a {
      i := k;
    } else {
      var k, j :| 0 <= j < k < |h| && Redeems(h[j], c) && Refreshes(h[k], h[j].1.refresh) && h[k].1.access == a;
      i := k;
    }
  }

  /** Every access token ever answered traces back to exactly one code. */
  lemma AccessTracesToOneCode(cfg: Config, ops: seq<Op>, i: nat)
    requires AllFresh(Execute(cfg, ops).history)
    requires i < |Execute(cfg, ops).history| && Execute(cfg, ops).history[i].1.Tokens?
    ensures var h := Execute(cfg, ops).history;
            && (exists c :: TracesTo(h, h[i].1.access, c))
            && (forall c, d | TracesTo(h, h[i].1.access, c) && TracesTo(h, h[i].1.access, d) :: c == d)
  {
    RunTraceable(cfg, ops);
    var h := Execute(cfg, ops).history;
    var a := h[i].1.access;
    var root := TracesSomewhere(h, i);
    forall c, d | TracesTo(h, a, c) && TracesTo(h, a, d)
      ensures c == d
    {
      var j := TracesAreRoots(h, a, c);
      var k := TracesAreRoots(h, a, d);
      assert Draws(h[j]) && Draws(h[k]);
      SameDraw(h, j, k);
      RootUnique(h, j, c, d);
    }
  }
}
