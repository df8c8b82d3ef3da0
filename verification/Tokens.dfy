/** The token endpoints of services/identity/oidc (provider.go, device.go, par.go and the
    refresh-token half of revocation.go) over the tables of
    services/identity/internal/store/sqlite.go. Each handler is one atomic step. */
module Tokens {

  import opened Wrappers

  // ----- tables -----

  datatype Session = Session(
    subject: string, client: string, scope: string, code: string, challenge: string, expires: int)
  datatype RefreshToken = RefreshToken(subject: string, client: string, scope: string, expires: int, used: bool)
  datatype DeviceCode = DeviceCode(userCode: string, client: string, scope: string, subject: string,
                                   approved: bool, denied: bool, expires: int)
  datatype ParRequest = ParRequest(client: string, params: map<string, string>, expires: int)

  datatype Store = Store(
    sessions: map<string, Session>,
    refresh: map<string, RefreshToken>,
    devices: map<string, DeviceCode>,
    pars: map<string, ParRequest>)

  /** Nanoseconds. */
  const SECOND := 1_000_000_000
  const CODE_TTL := 300 * SECOND
  const REFRESH_TTL := 30 * 24 * 3600 * SECOND
  const DEVICE_TTL := 900 * SECOND
  const PAR_TTL := 90 * SECOND

  /** The hash of refresh tokens, the S256 transform of PKCE, and the client registry. */
  datatype Config = Config(hash: string -> string, s256: string -> string, registered: (string, string) -> bool)

  /** What a handler answers; `Granted` is a token response. */
  datatype Reply =
    | Refused
    | CodeIssued(code: string)
    | Granted(subject: string, client: string, scope: string, refreshToken: string)
    | DeviceStarted(deviceCode: string, userCode: string)
    | Approved
    | Pushed(uri: string)
    | Done

  // ----- the handlers -----

  function Get(q: map<string, string>, key: string): string {
    if key in q then q[key] else ""
  }

  /** par.go:91-106 */
  function ResolvePar(s: Store, uri: string, now: int): (Store, Option<map<string, string>>) {
    if uri !in s.pars then (s, None)
    else
      var s' := s.(pars := s.pars - {uri});
      if now > s.pars[uri].expires then (s', None) else (s', Some(s.pars[uri].params))
  }

  function SaveSession(s: Store, id: string, row: Session): Store {
    s.(sessions := s.sessions[id := row])
  }

  /** provider.go:69-140, once the request parameters are settled. */
  function AuthorizeWith(cfg: Config, s: Store, q: map<string, string>, subject: string, code: string, id: string,
                         now: int): (Store, Reply) {
    var client, uri := Get(q, "client_id"), Get(q, "redirect_uri");
    if client == "" || uri == "" || subject == "" then (s, Refused)
    else if Get(q, "state") == "" || Get(q, "code_challenge") == "" || Get(q, "code_challenge_method") != "S256"
      then (s, Refused)
    else if !cfg.registered(client, uri) then (s, Refused)
    else (SaveSession(s, id, Session(subject, client, Get(q, "scope"), code, Get(q, "code_challenge"), now + CODE_TTL)),
          CodeIssued(code))
  }

  /** provider.go:50-140; parameters of a pushed request take precedence over the query. */
  function Authorize(cfg: Config, s: Store, query: map<string, string>, subject: string, code: string, id: string,
                     t1: int, t2: int): (Store, Reply) {
    var requestUri := Get(query, "request_uri");
    if requestUri == "" then AuthorizeWith(cfg, s, query, subject, code, id, t2)
    else
      var (s', params) := ResolvePar(s, requestUri, t1);
      match params
      case None => (s', Refused)
      case Some(p) => AuthorizeWith(cfg, s', query + p, subject, code, id, t2)
  }

  /** provider.go:381-402 */
  function IssueSession(s: Store, row: Session, id: string, now: int): (Store, Reply) {
    (SaveSession(s, id, row.(expires := now + CODE_TTL)), CodeIssued(row.code))
  }

  /** A row the query for `code` may return. */
  predicate SessionFound(s: Store, code: string, row: Option<string>) {
    match row
    case Some(id) => id in s.sessions && s.sessions[id].code == code
    case None => forall id :: id in s.sessions ==> s.sessions[id].code != code
  }

  function SaveRefresh(s: Store, hash: string, t: RefreshToken): Store {
    s.(refresh := s.refresh[hash := if hash in s.refresh then s.refresh[hash].(used := t.used) else t])
  }

  /** provider.go:185-246, for the session found. */
  function ExchangeFor(cfg: Config, s: Store, id: string, client: string, verifier: string, authOk: string -> bool,
                       newToken: string, t1: int, t2: int): (Store, Reply)
    requires id in s.sessions
  {
    var sess := s.sessions[id];
    if t1 > sess.expires then (s, Refused)
    else if client != "" && client != sess.client then (s, Refused)
    else if verifier == "" || sess.challenge == "" || cfg.s256(verifier) != sess.challenge then (s, Refused)
    else if !authOk(sess.client) then (s, Refused)
    else
      var s1 := SaveRefresh(s, cfg.hash(newToken),
                            RefreshToken(sess.subject, sess.client, sess.scope, t2 + REFRESH_TTL, false));
      (s1.(sessions := s1.sessions - {id}), Granted(sess.subject, sess.client, sess.scope, newToken))
  }

  /** provider.go:170-246, with the row the store returned for the code. */
  function Exchange(cfg: Config, s: Store, code: string, row: Option<string>, client: string, verifier: string,
                    authOk: string -> bool, newToken: string, t1: int, t2: int): (Store, Reply)
    requires SessionFound(s, code, row)
  {
    if code == "" || row.None? then (s, Refused)
    else ExchangeFor(cfg, s, row.value, client, verifier, authOk, newToken, t1, t2)
  }

  /** provider.go:248-309 */
  function Refresh(cfg: Config, s: Store, token: string, authOk: string -> bool, newToken: string, t1: int,
                   t2: int): (Store, Reply) {
    var hash := cfg.hash(token);
    if token == "" || hash !in s.refresh then (s, Refused)
    else
      var rt := s.refresh[hash];
      if t1 > rt.expires || rt.used then (s.(refresh := s.refresh - {hash}), Refused)
      else if !authOk(rt.client) then (s, Refused)
      else
        var s1 := SaveRefresh(s, hash, rt.(used := true));
        (SaveRefresh(s1, cfg.hash(newToken), RefreshToken(rt.subject, rt.client, rt.scope, t2 + REFRESH_TTL, false)),
         Granted(rt.subject, rt.client, rt.scope, newToken))
  }

  predicate UserCodeTaken(s: Store, userCode: string) {
    exists d :: d in s.devices && s.devices[d].userCode == userCode
  }

  /** device.go:24-74; the table rejects a second row with the same user code. */
  function StartDevice(s: Store, client: string, scope: string, authOk: bool, deviceCode: string, userCode: string,
                       now: int): (Store, Reply) {
    if client == "" || !authOk then (s, Refused)
    else if UserCodeTaken(s, userCode) then (s, Refused)
    else
      (s.(devices := s.devices[deviceCode := DeviceCode(userCode, client, scope, "", false, false, now + DEVICE_TTL)]),
       DeviceStarted(deviceCode, userCode))
  }

  /** A row the query for `userCode` may return. */
  predicate DeviceFound(s: Store, userCode: string, row: Option<string>) {
    match row
    case Some(d) => d in s.devices && s.devices[d].userCode == userCode
    case None => !UserCodeTaken(s, userCode)
  }

  function ApproveFor(s: Store, d: string, subject: string, now: int): (Store, Reply)
    requires d in s.devices
  {
    if now > s.devices[d].expires then (s, Refused)
    else (s.(devices := s.devices[d := s.devices[d].(subject := subject, approved := true)]), Approved)
  }

  /** device.go:106-131, with the row the store returned for the user code. */
  function ApproveDevice(s: Store, userCode: string, row: Option<string>, subject: string, now: int): (Store, Reply)
    requires DeviceFound(s, userCode, row)
  {
    if userCode == "" || subject == "" || row.None? then (s, Refused)
    else ApproveFor(s, row.value, subject, now)
  }

  /** device.go:134-197 */
  function RedeemDevice(cfg: Config, s: Store, deviceCode: string, client: string, newToken: string, t1: int,
                        t2: int): (Store, Reply) {
    if deviceCode == "" || deviceCode !in s.devices then (s, Refused)
    else
      var dc := s.devices[deviceCode];
      if client != "" && client != dc.client then (s, Refused)
      else if t1 > dc.expires || dc.denied then (s.(devices := s.devices - {deviceCode}), Refused)
      else if !dc.approved then (s, Refused)
      else
        var s1 := SaveRefresh(s, cfg.hash(newToken),
                              RefreshToken(dc.subject, dc.client, dc.scope, t2 + REFRESH_TTL, false));
        (s1.(devices := s1.devices - {deviceCode}), Granted(dc.subject, dc.client, dc.scope, newToken))
  }

  /** par.go:20-87 */
  function PushPar(cfg: Config, s: Store, form: map<string, string>, authOk: bool, uri: string,
                   now: int): (Store, Reply) {
    var client, redirect := Get(form, "client_id"), Get(form, "redirect_uri");
    if client == "" || !authOk then (s, Refused)
    else if redirect != "" && !cfg.registered(client, redirect) then (s, Refused)
    else
      var params := map k | k in form && form[k] != "" :: form[k];
      (s.(pars := s.pars[uri := ParRequest(client, params, now + PAR_TTL)]), Pushed(uri))
  }

  /** revocation.go:72-85: a refresh token is deleted unless another client presents it. */
  function RevokeRefresh(cfg: Config, s: Store, token: string, client: string): (Store, Reply) {
    var hash := cfg.hash(token);
    if hash in s.refresh && !(client != "" && s.refresh[hash].client != client)
    then (s.(refresh := s.refresh - {hash}), Done)
    else (s, Done)
  }

  // ----- the provider -----

  class Provider {
    const cfg: Config
    var sessions: map<string, Session>
    var refresh: map<string, RefreshToken>
    var devices: map<string, DeviceCode>
    var pars: map<string, ParRequest>

    constructor (cfg: Config)
      ensures this.cfg == cfg && View() == Store(map[], map[], map[], map[])
    {
      this.cfg := cfg;
      sessions, refresh, devices, pars := map[], map[], map[], map[];
    }

    ghost function View(): Store
      reads this
    {
      Store(sessions, refresh, devices, pars)
    }

    /** sqlite.go:685-692: a second save of the same hash changes only the use mark. */
    method StoreRefresh(hash: string, t: RefreshToken)
      modifies this
      ensures View() == SaveRefresh(old(View()), hash, t)
    {
      if hash in refresh {
        refresh := refresh[hash := refresh[hash].(used := t.used)];
      } else {
        refresh := refresh[hash := t];
      }
    }

    /** provider.go:50-140 */
    method HandleAuthorize(query: map<string, string>, subject: string, code: string, id: string, t1: int,
                           t2: int) returns (reply: Reply)
      modifies this
      ensures (View(), reply) == Authorize(cfg, old(View()), query, subject, code, id, t1, t2)
    {
      var q := query;
      var requestUri := Get(query, "request_uri");
      if requestUri != "" {
        if requestUri !in pars {
          return Refused;
        }
        var par := pars[requestUri];
        pars := pars - {requestUri};
        if t1 > par.expires {
          return Refused;
        }
        q := query + par.params;
      }
      var client, uri := Get(q, "client_id"), Get(q, "redirect_uri");
      if client == "" || uri == "" || subject == "" {
        return Refused;
      }
      if Get(q, "state") == "" || Get(q, "code_challenge") == "" || Get(q, "code_challenge_method") != "S256" {
        return Refused;
      }
      if !cfg.registered(client, uri) {
        return Refused;
      }
      sessions := sessions[id := Session(subject, client, Get(q, "scope"),
                                         code, Get(q, "code_challenge"), t2 + CODE_TTL)];
      reply := CodeIssued(code);
    }

    /** provider.go:170-246 */
    method HandleExchange(code: string, client: string, verifier: string, authOk: string -> bool, newToken: string,
                          t1: int, t2: int)
      returns (reply: Reply, ghost row: Option<string>)
      modifies this
      ensures SessionFound(old(View()), code, row)
      ensures (View(), reply) == Exchange(cfg, old(View()), code, row, client, verifier, authOk, newToken, t1, t2)
    {
      if !(exists id :: id in sessions && sessions[id].code == code) {
        return Refused, None;
      }
      var id :| id in sessions && sessions[id].code == code;
      row := Some(id);
      var sess := sessions[id];
      if code == "" || t1 > sess.expires || (client != "" && client != sess.client) {
        return Refused, row;
      }
      if verifier == "" || sess.challenge == "" || cfg.s256(verifier) != sess.challenge || !authOk(sess.client) {
        return Refused, row;
      }
      StoreRefresh(cfg.hash(newToken), RefreshToken(sess.subject, sess.client, sess.scope, t2 + REFRESH_TTL, false));
      sessions := sessions - {id};
      reply := Granted(sess.subject, sess.client, sess.scope, newToken);
    }

    /** provider.go:248-309 */
    method HandleRefresh(token: string, authOk: string -> bool, newToken: string, t1: int,
                         t2: int) returns (reply: Reply)
      modifies this
      ensures (View(), reply) == Refresh(cfg, old(View()), token, authOk, newToken, t1, t2)
    {
      var hash := cfg.hash(token);
      if token == "" || hash !in refresh {
        return Refused;
      }
      var rt := refresh[hash];
      if t1 > rt.expires {
        refresh := refresh - {hash};
        return Refused;
      }
      if rt.used {
        refresh := refresh - {hash};
        return Refused;
      }
      if !authOk(rt.client) {
        return Refused;
      }
      StoreRefresh(hash, rt.(used := true));
      StoreRefresh(cfg.hash(newToken), RefreshToken(rt.subject, rt.client, rt.scope, t2 + REFRESH_TTL, false));
      reply := Granted(rt.subject, rt.client, rt.scope, newToken);
    }

    /** device.go:106-131 */
    method HandleApprove(userCode: string, subject: string, now: int) returns (reply: Reply, ghost row: Option<string>)
      modifies this
      ensures DeviceFound(old(View()), userCode, row)
      ensures (View(), reply) == ApproveDevice(old(View()), userCode, row, subject, now)
    {
      if !(exists d :: d in devices && devices[d].userCode == userCode) {
        return Refused, None;
      }
      var d :| d in devices && devices[d].userCode == userCode;
      row := Some(d);
      if userCode == "" || subject == "" || now > devices[d].expires {
        return Refused, row;
      }
      devices := devices[d := devices[d].(subject := subject, approved := true)];
      reply := Approved;
    }

    /** device.go:134-197 */
    method HandleDeviceGrant(deviceCode: string, client: string, newToken: string, t1: int,
                             t2: int) returns (reply: Reply)
      modifies this
      ensures (View(), reply) == RedeemDevice(cfg, old(View()), deviceCode, client, newToken, t1, t2)
    {
      if deviceCode == "" || deviceCode !in devices {
        return Refused;
      }
      var dc := devices[deviceCode];
      if client != "" && client != dc.client {
        return Refused;
      }
      if t1 > dc.expires || dc.denied {
        devices := devices - {deviceCode};
        return Refused;
      }
      if !dc.approved {
        return Refused;
      }
      StoreRefresh(cfg.hash(newToken), RefreshToken(dc.subject, dc.client, dc.scope, t2 + REFRESH_TTL, false));
      devices := devices - {deviceCode};
      reply := Granted(dc.subject, dc.client, dc.scope, newToken);
    }

    /** par.go:20-87 */
    method HandlePar(form: map<string, string>, authOk: bool, uri: string, now: int) returns (reply: Reply)
      modifies this
      ensures (View(), reply) == PushPar(cfg, old(View()), form, authOk, uri, now)
    {
      var client, redirect := Get(form, "client_id"), Get(form, "redirect_uri");
      if client == "" || !authOk {
        return Refused;
      }
      if redirect != "" && !cfg.registered(client, redirect) {
        return Refused;
      }
      var params := map k | k in form && form[k] != "" :: form[k];
      pars := pars[uri := ParRequest(client, params, now + PAR_TTL)];
      reply := Pushed(uri);
    }

    /** device.go:24-74 */
    method HandleDeviceAuthorization(client: string, scope: string, authOk: bool, deviceCode: string, userCode: string,
                                     now: int) returns (reply: Reply)
      modifies this
      ensures (View(), reply) == StartDevice(old(View()), client, scope, authOk, deviceCode, userCode, now)
    {
      if client == "" || !authOk {
        return Refused;
      }
      if exists d :: d in devices && devices[d].userCode == userCode {
        return Refused;
      }
      devices := devices[deviceCode := DeviceCode(userCode, client, scope, "", false, false, now + DEVICE_TTL)];
      reply := DeviceStarted(deviceCode, userCode);
    }
  }

  // ----- runs -----

  /** A bearer secret handed out by the server; refresh tokens are known by their hash. */
  datatype Secret = Code(code: string) | Device(deviceCode: string) | Refreshing(hash: string) | Par(uri: string)

  datatype Grant = Grant(subject: string, client: string, scope: string)

  datatype Redemption = Redemption(secret: Secret, at: int)

  /** The tables, and a ledger of the run so far: the expiry of every secret issued, the
      redemptions in order, what was granted to each code and device code, and the code or
      device code at the root of each refresh token's rotation chain. */
  datatype System = System(
    store: Store,
    issued: map<Secret, int>,
    redeemed: seq<Redemption>,
    granted: map<Secret, Grant>,
    roots: map<string, Secret>)

  datatype Action =
    | DoAuthorize(query: map<string, string>, subject: string, code: string, id: string, t1: int, t2: int)
    | DoIssueSession(session: Session, id: string, now: int)
    | DoExchange(code: string, row: Option<string>, client: string, verifier: string,
                 authOk: string -> bool, newToken: string, t1: int, t2: int)
    | DoRefresh(token: string, authOk: string -> bool, newToken: string, t1: int, t2: int)
    | DoStartDevice(client: string, scope: string, clientOk: bool, deviceCode: string, userCode: string, now: int)
    | DoApprove(userCode: string, row: Option<string>, subject: string, now: int)
    | DoRedeemDevice(deviceCode: string, client: string, newToken: string, t1: int, t2: int)
    | DoPushPar(form: map<string, string>, clientOk: bool, uri: string, now: int)
    | DoRevokeRefresh(token: string, client: string)
    | DoDeleteSession(id: string)
    | DoPurge(now: int)

  function Start(): System {
    System(Store(map[], map[], map[], map[]), map[], [], map[], map[])
  }

  /** New random values are fresh, and lookups return a matching row if there is one. */
  predicate Enabled(cfg: Config, sys: System, a: Action) {
    match a
    case DoAuthorize(_, _, code, id, _, _) => code != "" && Code(code) !in sys.issued && id !in sys.store.sessions
    case DoIssueSession(session, id, _) =>
      session.code != "" && Code(session.code) !in sys.issued && id !in sys.store.sessions
    case DoExchange(code, row, _, _, _, newToken, _, _) =>
      SessionFound(sys.store, code, row) && Refreshing(cfg.hash(newToken)) !in sys.issued
    case DoRefresh(_, _, newToken, _, _) => Refreshing(cfg.hash(newToken)) !in sys.issued
    case DoStartDevice(_, _, _, deviceCode, _, _) => Device(deviceCode) !in sys.issued
    case DoApprove(userCode, row, _, _) => DeviceFound(sys.store, userCode, row)
    case DoRedeemDevice(_, _, newToken, _, _) => Refreshing(cfg.hash(newToken)) !in sys.issued
    case DoPushPar(_, _, uri, _) => Par(uri) !in sys.issued
    case _ => true
  }

  function ParUsed(sys: System, query: map<string, string>, t1: int): seq<Redemption> {
    var uri := Get(query, "request_uri");
    if uri != "" && ResolvePar(sys.store, uri, t1).1.Some? then [Redemption(Par(uri), t1)] else []
  }

  // The step of each handler: the new tables, and the ledger entries its answer calls for.

  function StepAuthorize(cfg: Config, sys: System, query: map<string, string>, subject: string, code: string,
                         id: string, t1: int, t2: int): (System, Reply) {
    var (s, reply) := Authorize(cfg, sys.store, query, subject, code, id, t1, t2);
    var spent := sys.(store := s, redeemed := sys.redeemed + ParUsed(sys, query, t1));
    (if reply.CodeIssued? then WithCode(spent, code, s.sessions[id]) else spent, reply)
  }

  function StepExchange(cfg: Config, sys: System, code: string, row: Option<string>, client: string, verifier: string,
                        authOk: string -> bool, newToken: string, t1: int, t2: int): (System, Reply)
    requires SessionFound(sys.store, code, row)
  {
    var (s, reply) := Exchange(cfg, sys.store, code, row, client, verifier, authOk, newToken, t1, t2);
    (if reply.Granted? then Spend(sys.(store := s), Code(code), t1, cfg.hash(newToken), t2 + REFRESH_TTL, Code(code))
     else sys.(store := s), reply)
  }

  function StepRefresh(cfg: Config, sys: System, token: string, authOk: string -> bool, newToken: string, t1: int,
                       t2: int): (System, Reply) {
    var (s, reply) := Refresh(cfg, sys.store, token, authOk, newToken, t1, t2);
    var hash := cfg.hash(token);
    (if reply.Granted? && hash in sys.roots
     then Spend(sys.(store := s), Refreshing(hash), t1, cfg.hash(newToken), t2 + REFRESH_TTL, sys.roots[hash])
     else sys.(store := s), reply)
  }

  function WithDevice(sys: System, d: string, row: DeviceCode): System {
    sys.(issued := sys.issued[Device(d) := row.expires],
         granted := sys.granted[Device(d) := Grant(row.subject, row.client, row.scope)])
  }

  function StepStartDevice(sys: System, client: string, scope: string, clientOk: bool, deviceCode: string,
                           userCode: string, now: int): (System, Reply) {
    var (s, reply) := StartDevice(sys.store, client, scope, clientOk, deviceCode, userCode, now);
    (if reply.DeviceStarted? then WithDevice(sys.(store := s), deviceCode, s.devices[deviceCode])
     else sys.(store := s), reply)
  }

  function StepApprove(sys: System, userCode: string, row: Option<string>, subject: string, now: int): (System, Reply)
    requires DeviceFound(sys.store, userCode, row)
  {
    var (s, reply) := ApproveDevice(sys.store, userCode, row, subject, now);
    (if reply.Approved? then WithDevice(sys.(store := s), row.value, s.devices[row.value]) else sys.(store := s), reply)
  }

  function StepRedeemDevice(cfg: Config, sys: System, deviceCode: string, client: string, newToken: string, t1: int,
                            t2: int): (System, Reply) {
    var (s, reply) := RedeemDevice(cfg, sys.store, deviceCode, client, newToken, t1, t2);
    (if reply.Granted?
     then Spend(sys.(store := s), Device(deviceCode), t1, cfg.hash(newToken), t2 + REFRESH_TTL, Device(deviceCode))
     else sys.(store := s), reply)
  }

  function StepPushPar(cfg: Config, sys: System, form: map<string, string>, clientOk: bool, uri: string,
                       now: int): (System, Reply) {
    var (s, reply) := PushPar(cfg, sys.store, form, clientOk, uri, now);
    (if reply.Pushed? then sys.(store := s, issued := sys.issued[Par(uri) := now + PAR_TTL])
     else sys.(store := s), reply)
  }

  /** sqlite.go:555-558 */
  function Purged(s: Store, now: int): Store {
    s.(sessions := map id | id in s.sessions && s.sessions[id].expires >= now :: s.sessions[id])
  }

  function Step(cfg: Config, sys: System, a: Action): (System, Reply)
    requires Enabled(cfg, sys, a)
  {
    match a
    case DoAuthorize(query, subject, code, id, t1, t2) => StepAuthorize(cfg, sys, query, subject, code, id, t1, t2)
    case DoIssueSession(session, id, now) =>
      var (s, reply) := IssueSession(sys.store, session, id, now);
      (WithCode(sys.(store := s), session.code, s.sessions[id]), reply)
    case DoExchange(code, row, client, verifier, authOk, newToken, t1, t2) =>
      StepExchange(cfg, sys, code, row, client, verifier, authOk, newToken, t1, t2)
    case DoRefresh(token, authOk, newToken, t1, t2) => StepRefresh(cfg, sys, token, authOk, newToken, t1, t2)
    case DoStartDevice(client, scope, clientOk, deviceCode, userCode, now) =>
      StepStartDevice(sys, client, scope, clientOk, deviceCode, userCode, now)
    case DoApprove(userCode, row, subject, now) => StepApprove(sys, userCode, row, subject, now)
    case DoRedeemDevice(deviceCode, client, newToken, t1, t2) =>
      StepRedeemDevice(cfg, sys, deviceCode, client, newToken, t1, t2)
    case DoPushPar(form, clientOk, uri, now) => StepPushPar(cfg, sys, form, clientOk, uri, now)
    case DoRevokeRefresh(token, client) =>
      var (s, reply) := RevokeRefresh(cfg, sys.store, token, client);
      (sys.(store := s), reply)
    case DoDeleteSession(id) => (sys.(store := sys.store.(sessions := sys.store.sessions - {id})), Done)
    case DoPurge(now) => (sys.(store := Purged(sys.store, now)), Done)
  }

  function WithCode(sys: System, code: string, row: Session): System {
    sys.(issued := sys.issued[Code(code) := row.expires],
         granted := sys.granted[Code(code) := Grant(row.subject, row.client, row.scope)])
  }

  /** A secret is redeemed for a refresh token in the chain of `root`. */
  function Spend(sys: System, secret: Secret, at: int, hash: string, expires: int, root: Secret): System {
    sys.(issued := sys.issued[Refreshing(hash) := expires],
         redeemed := sys.redeemed + [Redemption(secret, at)],
         roots := sys.roots[hash := root])
  }

  predicate Reaches(cfg: Config, sys: System, actions: seq<Action>)
    decreases |actions|
  {
    |actions| == 0 || (Enabled(cfg, sys, actions[0]) && Reaches(cfg, Step(cfg, sys, actions[0]).0, actions[1..]))
  }

  function Run(cfg: Config, sys: System, actions: seq<Action>): System
    requires Reaches(cfg, sys, actions)
    decreases |actions|
  {
    if |actions| == 0 then sys else Run(cfg, Step(cfg, sys, actions[0]).0, actions[1..])
  }

  // ----- the invariant -----

  function Spent(rs: seq<Redemption>): set<Secret> {
    set i | 0 <= i < |rs| :: rs[i].secret
  }

  /** No secret is redeemed twice, and none after its expiry. */
  predicate RedeemedOnceInTime(redeemed: seq<Redemption>, issued: map<Secret, int>) {
    && (forall i, j :: 0 <= i < j < |redeemed| ==> redeemed[i].secret != redeemed[j].secret)
    && (forall i :: 0 <= i < |redeemed| ==>
          redeemed[i].secret in issued && redeemed[i].at <= issued[redeemed[i].secret])
  }

  /** A secret that is still to be redeemed, with its expiry. */
  predicate Live(issued: map<Secret, int>, spent: set<Secret>, secret: Secret, expires: int) {
    secret in issued && issued[secret] == expires && secret !in spent
  }

  predicate SessionOk(row: Session, issued: map<Secret, int>, spent: set<Secret>, granted: map<Secret, Grant>) {
    && row.code != "" && Live(issued, spent, Code(row.code), row.expires)
    && Code(row.code) in granted && granted[Code(row.code)] == Grant(row.subject, row.client, row.scope)
  }

  predicate SessionsOk(sessions: map<string, Session>, issued: map<Secret, int>, spent: set<Secret>,
                       granted: map<Secret, Grant>) {
    && (forall id :: id in sessions ==> SessionOk(sessions[id], issued, spent, granted))
    && (forall a, b :: a in sessions && b in sessions ==> (sessions[a].code == sessions[b].code ==> a == b))
  }

  predicate DeviceOk(d: string, row: DeviceCode, issued: map<Secret, int>, spent: set<Secret>,
                     granted: map<Secret, Grant>) {
    && Live(issued, spent, Device(d), row.expires)
    && Device(d) in granted && granted[Device(d)] == Grant(row.subject, row.client, row.scope)
  }

  predicate DevicesOk(devices: map<string, DeviceCode>, issued: map<Secret, int>, spent: set<Secret>,
                      granted: map<Secret, Grant>) {
    forall d :: d in devices ==> DeviceOk(d, devices[d], issued, spent, granted)
  }

  predicate ParsOk(pars: map<string, ParRequest>, issued: map<Secret, int>, spent: set<Secret>) {
    forall uri :: uri in pars ==> Live(issued, spent, Par(uri), pars[uri].expires)
  }

  predicate TokenOk(h: string, row: RefreshToken, issued: map<Secret, int>, spent: set<Secret>,
                    granted: map<Secret, Grant>, roots: map<string, Secret>) {
    && Refreshing(h) in issued && issued[Refreshing(h)] == row.expires
    && (row.used <==> Refreshing(h) in spent)
    && h in roots && roots[h] in granted && granted[roots[h]] == Grant(row.subject, row.client, row.scope)
  }

  /** Every stored refresh token carries the grant at the root of its chain. */
  predicate RefreshOk(refresh: map<string, RefreshToken>, issued: map<Secret, int>, spent: set<Secret>,
                      granted: map<Secret, Grant>, roots: map<string, Secret>) {
    forall h :: h in refresh ==> TokenOk(h, refresh[h], issued, spent, granted, roots)
  }

  /** Each chain has at most one unused token. */
  predicate OneUnused(refresh: map<string, RefreshToken>, roots: map<string, Secret>) {
    forall g, h :: g in refresh && h in refresh && g in roots && h in roots ==>
      (!refresh[g].used && !refresh[h].used && roots[g] == roots[h] ==> g == h)
  }

  predicate LedgerOk(issued: map<Secret, int>, spent: set<Secret>, granted: map<Secret, Grant>,
                     roots: map<string, Secret>) {
    && (forall h :: h in roots ==> Refreshing(h) in issued && roots[h] in spent)
    && (forall k :: k in granted ==> k in issued)
    && (forall k :: k in spent ==> k in issued)
  }

  predicate Consistent(s: Store, issued: map<Secret, int>, spent: set<Secret>, granted: map<Secret, Grant>,
                       roots: map<string, Secret>) {
    && SessionsOk(s.sessions, issued, spent, granted)
    && DevicesOk(s.devices, issued, spent, granted)
    && ParsOk(s.pars, issued, spent)
    && RefreshOk(s.refresh, issued, spent, granted, roots)
    && OneUnused(s.refresh, roots)
    && LedgerOk(issued, spent, granted, roots)
  }

  predicate Invariant(sys: System) {
    && RedeemedOnceInTime(sys.redeemed, sys.issued)
    && Consistent(sys.store, sys.issued, Spent(sys.redeemed), sys.granted, sys.roots)
  }

  lemma SpentAppend(rs: seq<Redemption>, r: Redemption)
    ensures Spent(rs + [r]) == Spent(rs) + {r.secret}
  {
    var all := rs + [r];
    forall x | x in Spent(rs) + {r.secret} ensures x in Spent(all) {
      if x in Spent(rs) {
        var i :| 0 <= i < |rs| && rs[i].secret == x;
        assert all[i].secret == x;
      } else {
        assert all[|rs|].secret == x;
      }
    }
    forall x | x in Spent(all) ensures x in Spent(rs) + {r.secret} {
      var i :| 0 <= i < |all| && all[i].secret == x;
      if i < |rs| {
        assert rs[i].secret == x;
      }
    }
  }

  lemma RedeemOne(redeemed: seq<Redemption>, issued: map<Secret, int>, secret: Secret, at: int)
    requires RedeemedOnceInTime(redeemed, issued)
    requires secret in issued && at <= issued[secret] && secret !in Spent(redeemed)
    ensures RedeemedOnceInTime(redeemed + [Redemption(secret, at)], issued)
  {
    assert forall i :: 0 <= i < |redeemed| ==> redeemed[i].secret in Spent(redeemed);
  }

  // ----- every handler keeps it -----

  ghost predicate Within<K, V>(m: map<K, V>, m': map<K, V>) {
    forall k :: k in m ==> k in m' && m[k] == m'[k]
  }

  /** Rows may be deleted and new secrets issued and granted. */
  lemma ConsistentGrows(s: Store, issued: map<Secret, int>, spent: set<Secret>, granted: map<Secret, Grant>,
                        roots: map<string, Secret>,
                        s': Store, issued': map<Secret, int>, granted': map<Secret, Grant>)
    requires Consistent(s, issued, spent, granted, roots)
    requires Within(issued, issued') && Within(granted, granted')
    requires forall k :: k in granted' ==> k in issued'
    requires Within(s'.sessions, s.sessions) && Within(s'.devices, s.devices)
    requires Within(s'.pars, s.pars) && Within(s'.refresh, s.refresh)
    ensures Consistent(s', issued', spent, granted', roots)
  {}

  /** A new session row with a fresh code. */
  lemma AddSession(s: Store, issued: map<Secret, int>, spent: set<Secret>, granted: map<Secret, Grant>,
                   roots: map<string, Secret>,
                   id: string, row: Session)
    requires Consistent(s, issued, spent, granted, roots)
    requires row.code != "" && Code(row.code) !in issued && id !in s.sessions
    ensures Consistent(SaveSession(s, id, row), issued[Code(row.code) := row.expires], spent,
                       granted[Code(row.code) := Grant(row.subject, row.client, row.scope)], roots)
  {
    var issued' := issued[Code(row.code) := row.expires];
    var granted' := granted[Code(row.code) := Grant(row.subject, row.client, row.scope)];
    ConsistentGrows(s, issued, spent, granted, roots, s, issued', granted');
    hide RefreshOk, DevicesOk, ParsOk, OneUnused;
    assert forall a :: a in s.sessions ==> SessionOk(s.sessions[a], issued, spent, granted);
  }

  /** A device row is added, or its subject changes while it is live. */
  lemma PutDevice(s: Store, issued: map<Secret, int>, spent: set<Secret>, granted: map<Secret, Grant>,
                  roots: map<string, Secret>,
                  d: string, row: DeviceCode)
    requires Consistent(s, issued, spent, granted, roots)
    requires if d in s.devices then row.expires == s.devices[d].expires else Device(d) !in issued
    ensures Consistent(s.(devices := s.devices[d := row]), issued[Device(d) := row.expires], spent,
                       granted[Device(d) := Grant(row.subject, row.client, row.scope)], roots)
  {
    var issued' := issued[Device(d) := row.expires];
    var granted' := granted[Device(d) := Grant(row.subject, row.client, row.scope)];
    assert Device(d) !in spent by {
      assert d in s.devices ==> DeviceOk(d, s.devices[d], issued, spent, granted);
    }
    assert Within(issued, issued') by {
      assert d in s.devices ==> DeviceOk(d, s.devices[d], issued, spent, granted);
    }
    assert SessionsOk(s.sessions, issued', spent, granted') by {
      hide DevicesOk, ParsOk, RefreshOk, OneUnused;
    }
    assert RefreshOk(s.refresh, issued', spent, granted', roots) by {
      hide DevicesOk, ParsOk, SessionsOk, OneUnused;
      forall h | h in s.refresh ensures TokenOk(h, s.refresh[h], issued', spent, granted', roots) {
        assert TokenOk(h, s.refresh[h], issued, spent, granted, roots);
        assert roots[h] != Device(d);
      }
    }
    hide SessionsOk, RefreshOk, OneUnused;
  }

  /** A live secret other than a refresh token is spent, and its row deleted. */
  lemma SpendRow(s: Store, issued: map<Secret, int>, spent: set<Secret>, granted: map<Secret, Grant>,
                 roots: map<string, Secret>,
                 s': Store, secret: Secret)
    requires Consistent(s, issued, spent, granted, roots)
    requires secret in issued && !secret.Refreshing?
    requires Within(s'.sessions, s.sessions) && Within(s'.devices, s.devices)
             && Within(s'.pars, s.pars) && s'.refresh == s.refresh
    requires forall id :: id in s'.sessions ==> Code(s'.sessions[id].code) != secret
    requires secret.Device? ==> secret.deviceCode !in s'.devices
    requires secret.Par? ==> secret.uri !in s'.pars
    ensures Consistent(s', issued, spent + {secret}, granted, roots)
  {}

  /** A refresh token is spent and marked used. */
  lemma SpendToken(s: Store, issued: map<Secret, int>, spent: set<Secret>, granted: map<Secret, Grant>,
                   roots: map<string, Secret>, hash: string)
    requires Consistent(s, issued, spent, granted, roots) && hash in s.refresh
    ensures Consistent(SaveRefresh(s, hash, s.refresh[hash].(used := true)),
                       issued, spent + {Refreshing(hash)}, granted, roots)
  {
    var s' := SaveRefresh(s, hash, s.refresh[hash].(used := true));
    forall h | h in s'.refresh ensures TokenOk(h, s'.refresh[h], issued, spent + {Refreshing(hash)}, granted, roots) {
      assert TokenOk(h, s.refresh[h], issued, spent, granted, roots);
    }
  }

  lemma AddTokenRow(refresh: map<string, RefreshToken>, issued: map<Secret, int>, spent: set<Secret>,
                    granted: map<Secret, Grant>, roots: map<string, Secret>, hash: string,
                    row: RefreshToken, root: Secret)
    requires RefreshOk(refresh, issued, spent, granted, roots)
    requires Refreshing(hash) !in issued && Refreshing(hash) !in spent && !row.used
    requires root in granted && granted[root] == Grant(row.subject, row.client, row.scope)
    ensures RefreshOk(refresh[hash := row], issued[Refreshing(hash) := row.expires], spent, granted,
                      roots[hash := root])
  {
    var refresh', issued', roots' := refresh[hash := row], issued[Refreshing(hash) := row.expires], roots[hash := root];
    forall h | h in refresh' ensures TokenOk(h, refresh'[h], issued', spent, granted, roots') {
      if h != hash {
        assert TokenOk(h, refresh[h], issued, spent, granted, roots);
      }
    }
  }

  lemma AddTokenUnused(refresh: map<string, RefreshToken>, roots: map<string, Secret>, hash: string, row: RefreshToken,
                       root: Secret)
    requires OneUnused(refresh, roots) && hash !in refresh
    requires forall h :: h in refresh && h in roots && !refresh[h].used ==> roots[h] != root
    ensures OneUnused(refresh[hash := row], roots[hash := root])
  {
  }

  lemma NewTokenNotStored(refresh: map<string, RefreshToken>, issued: map<Secret, int>, spent: set<Secret>,
                          granted: map<Secret, Grant>, roots: map<string, Secret>, hash: string)
    requires RefreshOk(refresh, issued, spent, granted, roots) && Refreshing(hash) !in issued
    ensures hash !in refresh
  {
    assert hash in refresh ==> TokenOk(hash, refresh[hash], issued, spent, granted, roots);
  }

  /** A new refresh token joins a chain that has no unused token. */
  lemma AddToken(s: Store, issued: map<Secret, int>, spent: set<Secret>, granted: map<Secret, Grant>,
                 roots: map<string, Secret>, hash: string, row: RefreshToken, root: Secret)
    requires Consistent(s, issued, spent, granted, roots)
    requires Refreshing(hash) !in issued && !row.used && root in spent
    requires root in granted && granted[root] == Grant(row.subject, row.client, row.scope)
    requires forall h :: h in s.refresh && h in roots && !s.refresh[h].used ==> roots[h] != root
    ensures Consistent(SaveRefresh(s, hash, row), issued[Refreshing(hash) := row.expires],
                       spent, granted, roots[hash := root])
  {
    hide SessionsOk, DevicesOk, ParsOk, RefreshOk, OneUnused;
    var issued' := issued[Refreshing(hash) := row.expires];
    NewTokenNotStored(s.refresh, issued, spent, granted, roots, hash);
    ConsistentGrows(s, issued, spent, granted, roots, s, issued', granted);
    AddTokenRow(s.refresh, issued, spent, granted, roots, hash, row, root);
    AddTokenUnused(s.refresh, roots, hash, row, root);
    assert SaveRefresh(s, hash, row).refresh == s.refresh[hash := row];
  }

  lemma OnceInTimeGrows(redeemed: seq<Redemption>, issued: map<Secret, int>, issued': map<Secret, int>)
    requires RedeemedOnceInTime(redeemed, issued) && Within(issued, issued')
    ensures RedeemedOnceInTime(redeemed, issued')
  {}

  lemma WithCodeKeeps(sys: System, id: string, row: Session)
    requires Invariant(sys) && row.code != "" && Code(row.code) !in sys.issued && id !in sys.store.sessions
    ensures Invariant(WithCode(sys.(store := SaveSession(sys.store, id, row)), row.code, row))
  {
    AddSession(sys.store, sys.issued, Spent(sys.redeemed), sys.granted, sys.roots, id, row);
    OnceInTimeGrows(sys.redeemed, sys.issued, sys.issued[Code(row.code) := row.expires]);
    hide Consistent, RedeemedOnceInTime, Spent;
  }

  lemma AuthorizeWithKeeps(cfg: Config, sys: System, q: map<string, string>, subject: string, code: string, id: string,
                           now: int)
    requires Invariant(sys) && code != "" && Code(code) !in sys.issued && id !in sys.store.sessions
    ensures var (s, reply) := AuthorizeWith(cfg, sys.store, q, subject, code, id, now);
            Invariant(if reply.CodeIssued? then WithCode(sys.(store := s), code, s.sessions[id]) else sys.(store := s))
  {
    hide Invariant;
    var (s, reply) := AuthorizeWith(cfg, sys.store, q, subject, code, id, now);
    if reply.CodeIssued? {
      WithCodeKeeps(sys, id, s.sessions[id]);
    } else {
      assert sys.(store := s) == sys;
    }
  }

  lemma ForgetKeeps(sys: System, s: Store)
    requires Invariant(sys)
    requires Within(s.sessions, sys.store.sessions) && Within(s.devices, sys.store.devices)
    requires Within(s.pars, sys.store.pars) && Within(s.refresh, sys.store.refresh)
    ensures Invariant(sys.(store := s))
  {
    ConsistentGrows(sys.store, sys.issued, Spent(sys.redeemed), sys.granted, sys.roots, s, sys.issued, sys.granted);
    hide SessionsOk, DevicesOk, ParsOk, RefreshOk, OneUnused, RedeemedOnceInTime, Spent;
  }

  lemma ParSpentKeeps(sys: System, uri: string, at: int)
    requires Invariant(sys) && uri in sys.store.pars && at <= sys.store.pars[uri].expires
    ensures Invariant(sys.(store := sys.store.(pars := sys.store.pars - {uri}),
                           redeemed := sys.redeemed + [Redemption(Par(uri), at)]))
  {
    RedeemOne(sys.redeemed, sys.issued, Par(uri), at);
    SpentAppend(sys.redeemed, Redemption(Par(uri), at));
    SpendRow(sys.store, sys.issued, Spent(sys.redeemed), sys.granted, sys.roots,
             sys.store.(pars := sys.store.pars - {uri}), Par(uri));
    hide Consistent, RedeemedOnceInTime, Spent;
  }

  lemma AuthorizeKeeps(cfg: Config, sys: System, query: map<string, string>, subject: string, code: string, id: string,
                       t1: int, t2: int)
    requires Invariant(sys) && code != "" && Code(code) !in sys.issued && id !in sys.store.sessions
    ensures Invariant(StepAuthorize(cfg, sys, query, subject, code, id, t1, t2).0)
  {
    hide Invariant, AuthorizeWith;
    var uri := Get(query, "request_uri");
    if uri == "" {
      assert sys.redeemed + [] == sys.redeemed;
      AuthorizeWithKeeps(cfg, sys, query, subject, code, id, t2);
    } else if uri in sys.store.pars {
      var s := sys.store.(pars := sys.store.pars - {uri});
      if t1 > sys.store.pars[uri].expires {
        assert sys.redeemed + [] == sys.redeemed;
        ForgetKeeps(sys, s);
      } else {
        ParSpentKeeps(sys, uri, t1);
        AuthorizeWithKeeps(cfg, sys.(store := s, redeemed := sys.redeemed + [Redemption(Par(uri), t1)]),
                           query + sys.store.pars[uri].params, subject, code, id, t2);
      }
    } else {
      assert sys.redeemed + [] == sys.redeemed;
    }
  }

  lemma NoChainYet(sys: System, secret: Secret)
    requires Invariant(sys) && secret !in Spent(sys.redeemed)
    ensures forall h :: h in sys.roots ==> sys.roots[h] != secret
  {
    hide Spent, RedeemedOnceInTime, SessionsOk, DevicesOk, ParsOk, RefreshOk, OneUnused;
  }

  /** A code or device code is redeemed for the first token of a new chain. */
  lemma RedeemKeeps(sys: System, s: Store, secret: Secret, at: int, hash: string, row: RefreshToken)
    requires Invariant(sys)
    requires secret in sys.issued && secret !in Spent(sys.redeemed) && at <= sys.issued[secret]
             && (secret.Code? || secret.Device?)
    requires Refreshing(hash) !in sys.issued && !row.used
    requires secret in sys.granted && sys.granted[secret] == Grant(row.subject, row.client, row.scope)
    requires Within(s.sessions, sys.store.sessions) && Within(s.devices, sys.store.devices)
    requires s.pars == sys.store.pars && s.refresh == sys.store.refresh
    requires forall id :: id in s.sessions ==> Code(s.sessions[id].code) != secret
    requires secret.Device? ==> secret.deviceCode !in s.devices
    ensures Invariant(Spend(sys.(store := SaveRefresh(s, hash, row)), secret, at, hash, row.expires, secret))
  {
    hide Consistent, RedeemedOnceInTime, Spent, SaveRefresh, Within;
    NoChainYet(sys, secret);
    RedeemOne(sys.redeemed, sys.issued, secret, at);
    SpentAppend(sys.redeemed, Redemption(secret, at));
    RedeemRow(sys.store, sys.issued, Spent(sys.redeemed), sys.granted, sys.roots, s, secret, hash, row);
    OnceInTimeGrows(sys.redeemed + [Redemption(secret, at)], sys.issued, sys.issued[Refreshing(hash) := row.expires]);
  }

  lemma RedeemRow(s: Store, issued: map<Secret, int>, spent: set<Secret>, granted: map<Secret, Grant>,
                  roots: map<string, Secret>,
                  s': Store, secret: Secret, hash: string, row: RefreshToken)
    requires Consistent(s, issued, spent, granted, roots)
    requires secret in issued && (secret.Code? || secret.Device?)
    requires Refreshing(hash) !in issued && !row.used
    requires secret in granted && granted[secret] == Grant(row.subject, row.client, row.scope)
    requires forall h :: h in roots ==> roots[h] != secret
    requires Within(s'.sessions, s.sessions) && Within(s'.devices, s.devices)
             && s'.pars == s.pars && s'.refresh == s.refresh
    requires forall id :: id in s'.sessions ==> Code(s'.sessions[id].code) != secret
    requires secret.Device? ==> secret.deviceCode !in s'.devices
    ensures Consistent(SaveRefresh(s', hash, row), issued[Refreshing(hash) := row.expires],
                       spent + {secret}, granted, roots[hash := secret])
  {
    assert Within(s'.pars, s.pars);
    hide Consistent, SaveRefresh, Within;
    SpendRow(s, issued, spent, granted, roots, s', secret);
    AddToken(s', issued, spent + {secret}, granted, roots, hash, row, secret);
  }

  lemma ExchangeKeeps(cfg: Config, sys: System, code: string, row: Option<string>, client: string, verifier: string,
                      authOk: string -> bool, newToken: string, t1: int, t2: int)
    requires Invariant(sys) && SessionFound(sys.store, code, row) && Refreshing(cfg.hash(newToken)) !in sys.issued
    ensures Invariant(StepExchange(cfg, sys, code, row, client, verifier, authOk, newToken, t1, t2).0)
  {
    hide Spent, DevicesOk, ParsOk, RefreshOk, OneUnused, LedgerOk, RedeemedOnceInTime;
    var reply := Exchange(cfg, sys.store, code, row, client, verifier, authOk, newToken, t1, t2).1;
    if reply.Granted? {
      var id := row.value;
      var sess := sys.store.sessions[id];
      assert SessionOk(sess, sys.issued, Spent(sys.redeemed), sys.granted);
      RedeemKeeps(sys, sys.store.(sessions := sys.store.sessions - {id}), Code(code), t1, cfg.hash(newToken),
                  RefreshToken(sess.subject, sess.client, sess.scope, t2 + REFRESH_TTL, false));
    }
  }

  lemma DeviceRowOk(sys: System, d: string)
    requires Invariant(sys)
    ensures d in sys.store.devices ==> DeviceOk(d, sys.store.devices[d], sys.issued, Spent(sys.redeemed), sys.granted)
  {
    hide Spent, DeviceOk;
  }

  lemma RedeemDeviceKeeps(cfg: Config, sys: System, deviceCode: string, client: string, newToken: string, t1: int,
                          t2: int)
    requires Invariant(sys) && Refreshing(cfg.hash(newToken)) !in sys.issued
    ensures Invariant(StepRedeemDevice(cfg, sys, deviceCode, client, newToken, t1, t2).0)
  {
    hide Invariant, Spent, Spend;
    DeviceRowOk(sys, deviceCode);
    var (s, reply) := RedeemDevice(cfg, sys.store, deviceCode, client, newToken, t1, t2);
    if reply.Granted? {
      var dc := sys.store.devices[deviceCode];
      RedeemKeeps(sys, sys.store.(devices := sys.store.devices - {deviceCode}),
                  Device(deviceCode), t1, cfg.hash(newToken),
                  RefreshToken(dc.subject, dc.client, dc.scope, t2 + REFRESH_TTL, false));
    } else {
      ForgetKeeps(sys, s);
    }
  }

  /** After the only unused token of a chain is used, the chain has none. */
  lemma ChainExhausted(sys: System, hash: string)
    requires Invariant(sys) && hash in sys.store.refresh && !sys.store.refresh[hash].used
    ensures TokenOk(hash, sys.store.refresh[hash], sys.issued, Spent(sys.redeemed), sys.granted, sys.roots)
    ensures sys.roots[hash] in Spent(sys.redeemed)
    ensures var s1 := SaveRefresh(sys.store, hash, sys.store.refresh[hash].(used := true));
            forall h :: h in s1.refresh && h in sys.roots && !s1.refresh[h].used ==> sys.roots[h] != sys.roots[hash]
  {
    assert TokenOk(hash, sys.store.refresh[hash], sys.issued, Spent(sys.redeemed), sys.granted, sys.roots);
    hide Spent, RedeemedOnceInTime, SessionsOk, DevicesOk, ParsOk, RefreshOk;
  }

  /** A refresh token is redeemed for the next one in its chain. */
  lemma RotateKeeps(sys: System, hash: string, at: int, next: string, expires: int)
    requires Invariant(sys) && hash in sys.store.refresh && !sys.store.refresh[hash].used
             && at <= sys.store.refresh[hash].expires
    requires Refreshing(next) !in sys.issued
    ensures hash in sys.roots
    ensures var rt := sys.store.refresh[hash];
            var s1 := SaveRefresh(sys.store, hash, rt.(used := true));
            var s2 := SaveRefresh(s1, next, RefreshToken(rt.subject, rt.client, rt.scope, expires, false));
            Invariant(Spend(sys.(store := s2), Refreshing(hash), at, next, expires, sys.roots[hash]))
  {
    hide Consistent, RedeemedOnceInTime, Spent, SaveRefresh;
    var rt, spent := sys.store.refresh[hash], Spent(sys.redeemed);
    ChainExhausted(sys, hash);
    RedeemOne(sys.redeemed, sys.issued, Refreshing(hash), at);
    SpentAppend(sys.redeemed, Redemption(Refreshing(hash), at));
    SpendToken(sys.store, sys.issued, spent, sys.granted, sys.roots, hash);
    var s1 := SaveRefresh(sys.store, hash, rt.(used := true));
    AddToken(s1, sys.issued, spent + {Refreshing(hash)}, sys.granted, sys.roots, next,
             RefreshToken(rt.subject, rt.client, rt.scope, expires, false), sys.roots[hash]);
    OnceInTimeGrows(sys.redeemed + [Redemption(Refreshing(hash), at)], sys.issued,
                    sys.issued[Refreshing(next) := expires]);
  }

  lemma RefreshKeeps(cfg: Config, sys: System, token: string, authOk: string -> bool, newToken: string, t1: int,
                     t2: int)
    requires Invariant(sys) && Refreshing(cfg.hash(newToken)) !in sys.issued
    ensures Invariant(StepRefresh(cfg, sys, token, authOk, newToken, t1, t2).0)
  {
    hide Invariant, SaveRefresh;
    var (s, reply) := Refresh(cfg, sys.store, token, authOk, newToken, t1, t2);
    if reply.Granted? {
      RotateKeeps(sys, cfg.hash(token), t1, cfg.hash(newToken), t2 + REFRESH_TTL);
    } else {
      ForgetKeeps(sys, s);
    }
  }

  lemma DeviceRowKeeps(sys: System, d: string, row: DeviceCode)
    requires Invariant(sys)
    requires if d in sys.store.devices then row.expires == sys.store.devices[d].expires else Device(d) !in sys.issued
    ensures Invariant(WithDevice(sys.(store := sys.store.(devices := sys.store.devices[d := row])), d, row))
  {
    PutDevice(sys.store, sys.issued, Spent(sys.redeemed), sys.granted, sys.roots, d, row);
    assert d in sys.store.devices ==> DeviceOk(d, sys.store.devices[d], sys.issued, Spent(sys.redeemed), sys.granted);
    OnceInTimeGrows(sys.redeemed, sys.issued, sys.issued[Device(d) := row.expires]);
    hide Consistent, RedeemedOnceInTime, Spent;
  }

  lemma StartDeviceKeeps(sys: System, client: string, scope: string, clientOk: bool, deviceCode: string,
                         userCode: string, now: int)
    requires Invariant(sys) && Device(deviceCode) !in sys.issued
    ensures Invariant(StepStartDevice(sys, client, scope, clientOk, deviceCode, userCode, now).0)
  {
    assert deviceCode in sys.store.devices ==>
      DeviceOk(deviceCode, sys.store.devices[deviceCode], sys.issued, Spent(sys.redeemed), sys.granted);
    hide Invariant;
    if StartDevice(sys.store, client, scope, clientOk, deviceCode, userCode, now).1.DeviceStarted? {
      DeviceRowKeeps(sys, deviceCode, DeviceCode(userCode, client, scope, "", false, false, now + DEVICE_TTL));
    }
  }

  lemma ApproveKeeps(sys: System, userCode: string, row: Option<string>, subject: string, now: int)
    requires Invariant(sys) && DeviceFound(sys.store, userCode, row)
    ensures Invariant(StepApprove(sys, userCode, row, subject, now).0)
  {
    hide Invariant;
    if ApproveDevice(sys.store, userCode, row, subject, now).1.Approved? {
      var d := row.value;
      DeviceRowKeeps(sys, d, sys.store.devices[d].(subject := subject, approved := true));
    }
  }

  /** A new pushed request under a fresh request_uri. */
  lemma AddPar(s: Store, issued: map<Secret, int>, spent: set<Secret>, granted: map<Secret, Grant>,
               roots: map<string, Secret>,
               uri: string, row: ParRequest)
    requires Consistent(s, issued, spent, granted, roots) && Par(uri) !in issued
    ensures Consistent(s.(pars := s.pars[uri := row]), issued[Par(uri) := row.expires], spent, granted, roots)
  {
    ConsistentGrows(s, issued, spent, granted, roots, s, issued[Par(uri) := row.expires], granted);
    hide SessionsOk, DevicesOk, RefreshOk, OneUnused;
  }

  lemma PushParKeeps(cfg: Config, sys: System, form: map<string, string>, clientOk: bool, uri: string, now: int)
    requires Invariant(sys) && Par(uri) !in sys.issued
    ensures Invariant(StepPushPar(cfg, sys, form, clientOk, uri, now).0)
  {
    var (s, reply) := PushPar(cfg, sys.store, form, clientOk, uri, now);
    if reply.Pushed? {
      AddPar(sys.store, sys.issued, Spent(sys.redeemed), sys.granted, sys.roots, uri, s.pars[uri]);
      OnceInTimeGrows(sys.redeemed, sys.issued, sys.issued[Par(uri) := now + PAR_TTL]);
    }
    hide Consistent, RedeemedOnceInTime, Spent;
  }

  lemma StepKeeps(cfg: Config, sys: System, a: Action)
    requires Enabled(cfg, sys, a) && Invariant(sys)
    ensures Invariant(Step(cfg, sys, a).0)
  {
    hide Invariant, StepAuthorize, StepExchange, StepRefresh, StepStartDevice, StepApprove, StepRedeemDevice,
      StepPushPar;
    match a
    case DoAuthorize(query, subject, code, id, t1, t2) => AuthorizeKeeps(cfg, sys, query, subject, code, id, t1, t2);
    case DoIssueSession(session, id, now) => WithCodeKeeps(sys, id, session.(expires := now + CODE_TTL));
    case DoExchange(code, row, client, verifier, authOk, newToken, t1, t2) =>
      ExchangeKeeps(cfg, sys, code, row, client, verifier, authOk, newToken, t1, t2);
    case DoRefresh(token, authOk, newToken, t1, t2) => RefreshKeeps(cfg, sys, token, authOk, newToken, t1, t2);
    case DoStartDevice(client, scope, clientOk, deviceCode, userCode, now) =>
      StartDeviceKeeps(sys, client, scope, clientOk, deviceCode, userCode, now);
    case DoApprove(userCode, row, subject, now) => ApproveKeeps(sys, userCode, row, subject, now);
    case DoRedeemDevice(deviceCode, client, newToken, t1, t2) =>
      RedeemDeviceKeeps(cfg, sys, deviceCode, client, newToken, t1, t2);
    case DoPushPar(form, clientOk, uri, now) => PushParKeeps(cfg, sys, form, clientOk, uri, now);
    case DoRevokeRefresh(token, client) => ForgetKeeps(sys, RevokeRefresh(cfg, sys.store, token, client).0);
    case DoDeleteSession(id) => ForgetKeeps(sys, sys.store.(sessions := sys.store.sessions - {id}));
    case DoPurge(now) => ForgetKeeps(sys, Purged(sys.store, now));
  }

  lemma {:induction false} RunKeeps(cfg: Config, sys: System, actions: seq<Action>)
    requires Reaches(cfg, sys, actions) && Invariant(sys)
    ensures Invariant(Run(cfg, sys, actions))
    decreases |actions|
  {
    hide Invariant, Step;
    if |actions| > 0 {
      StepKeeps(cfg, sys, actions[0]);
      RunKeeps(cfg, Step(cfg, sys, actions[0]).0, actions[1..]);
    }
  }

  /** In every run with fresh random values, each code, device code, refresh token and
      request_uri is redeemed at most once and never after its expiry. */
  lemma RedeemedAtMostOnce(cfg: Config, actions: seq<Action>)
    requires Reaches(cfg, Start(), actions)
    ensures var sys := Run(cfg, Start(), actions); RedeemedOnceInTime(sys.redeemed, sys.issued)
  {
    RunKeeps(cfg, Start(), actions);
  }

  /** In every such run each stored refresh token carries the subject, client and scope granted
      at the root of its rotation chain, and each chain has at most one unused token. */
  lemma ChainsKeepTheirGrant(cfg: Config, actions: seq<Action>)
    requires Reaches(cfg, Start(), actions)
    ensures var sys := Run(cfg, Start(), actions);
      RefreshOk(sys.store.refresh, sys.issued, Spent(sys.redeemed), sys.granted, sys.roots)
      && OneUnused(sys.store.refresh, sys.roots)
  {
    RunKeeps(cfg, Start(), actions);
  }

  /** The secret a request presents for redemption. */
  function PresentedSecret(cfg: Config, a: Action): Option<Redemption> {
    match a
    case DoExchange(code, _, _, _, _, _, t1, _) => Some(Redemption(Code(code), t1))
    case DoRefresh(token, _, _, t1, _) => Some(Redemption(Refreshing(cfg.hash(token)), t1))
    case DoRedeemDevice(deviceCode, _, _, t1, _) => Some(Redemption(Device(deviceCode), t1))
    case _ => None
  }

  /** The new refresh token is stored with the grant of the response, and the ledger gained exactly the
      redemption of the secret presented. */
  predicate Recorded(cfg: Config, sys: System, a: Action, sys': System, reply: Reply)
    requires reply.Granted?
  {
    var h := cfg.hash(reply.refreshToken);
    && h in sys'.store.refresh
    && GrantOf(sys'.store.refresh[h]) == Grant(reply.subject, reply.client, reply.scope)
    && PresentedSecret(cfg, a).Some? && sys'.redeemed == sys.redeemed + [PresentedSecret(cfg, a).value]
  }

  function GrantOf(t: RefreshToken): Grant {
    Grant(t.subject, t.client, t.scope)
  }

  /** Every stored refresh token was issued and belongs to a chain. */
  predicate Known(sys: System) {
    forall h :: h in sys.store.refresh ==> Refreshing(h) in sys.issued && h in sys.roots
  }

  lemma ExchangeRecorded(cfg: Config, sys: System, a: Action)
    requires a.DoExchange? && Enabled(cfg, sys, a) && Step(cfg, sys, a).1.Granted?
    requires Known(sys)
    ensures Recorded(cfg, sys, a, Step(cfg, sys, a).0, Step(cfg, sys, a).1)
  {
  }

  lemma DeviceRecorded(cfg: Config, sys: System, a: Action)
    requires a.DoRedeemDevice? && Enabled(cfg, sys, a) && Step(cfg, sys, a).1.Granted?
    requires Known(sys)
    ensures Recorded(cfg, sys, a, Step(cfg, sys, a).0, Step(cfg, sys, a).1)
  {
  }

  lemma RefreshRecorded(cfg: Config, sys: System, a: Action)
    requires a.DoRefresh? && Enabled(cfg, sys, a) && Step(cfg, sys, a).1.Granted?
    requires Known(sys)
    ensures Recorded(cfg, sys, a, Step(cfg, sys, a).0, Step(cfg, sys, a).1)
  {
  }

  lemma OthersGrantNothing(cfg: Config, sys: System, a: Action)
    requires Enabled(cfg, sys, a) && !a.DoExchange? && !a.DoRefresh? && !a.DoRedeemDevice?
    ensures !Step(cfg, sys, a).1.Granted?
  {
  }

  lemma StoredTokensKnown(sys: System)
    requires Invariant(sys)
    ensures Known(sys)
  {
    hide Spent;
    assert forall h :: h in sys.store.refresh ==>
      TokenOk(h, sys.store.refresh[h], sys.issued, Spent(sys.redeemed), sys.granted, sys.roots);
  }

  lemma GrantIsRecorded(cfg: Config, sys: System, a: Action)
    requires Invariant(sys) && Enabled(cfg, sys, a) && Step(cfg, sys, a).1.Granted?
    ensures Recorded(cfg, sys, a, Step(cfg, sys, a).0, Step(cfg, sys, a).1)
  {
    hide Step, Recorded, Enabled, Invariant, Known;
    StoredTokensKnown(sys);
    if a.DoExchange? {
      ExchangeRecorded(cfg, sys, a);
    } else if a.DoRedeemDevice? {
      DeviceRecorded(cfg, sys, a);
    } else if a.DoRefresh? {
      RefreshRecorded(cfg, sys, a);
    } else {
      OthersGrantNothing(cfg, sys, a);
    }
  }

  /** In every run, each token response enters the ledger as the redemption of the secret presented, so
      that redeeming at most once bounds the responses a secret can ever obtain. */
  lemma EveryGrantIsRecorded(cfg: Config, actions: seq<Action>, a: Action)
    requires Reaches(cfg, Start(), actions) && Enabled(cfg, Run(cfg, Start(), actions), a)
    requires Step(cfg, Run(cfg, Start(), actions), a).1.Granted?
    ensures var sys := Run(cfg, Start(), actions);
      Recorded(cfg, sys, a, Step(cfg, sys, a).0, Step(cfg, sys, a).1)
  {
    hide Step, Enabled, Recorded, Run, Reaches;
    RunKeeps(cfg, Start(), actions);
    GrantIsRecorded(cfg, Run(cfg, Start(), actions), a);
  }

  /** In every run a token response names the subject, client and scope that were granted to
      the code or device code at the root of its chain. */
  lemma ResponsesFollowTheGrant(cfg: Config, actions: seq<Action>, a: Action)
    requires Reaches(cfg, Start(), actions) && Enabled(cfg, Run(cfg, Start(), actions), a)
    requires Step(cfg, Run(cfg, Start(), actions), a).1.Granted?
    ensures var (sys', reply) := Step(cfg, Run(cfg, Start(), actions), a);
            var h := cfg.hash(reply.refreshToken);
            h in sys'.roots && sys'.roots[h] in sys'.granted
            && sys'.granted[sys'.roots[h]] == Grant(reply.subject, reply.client, reply.scope)
  {
    RunKeeps(cfg, Start(), actions);
    var sys := Run(cfg, Start(), actions);
    hide Step, Run, Reaches, Spent;
    GrantIsRecorded(cfg, sys, a);
    StepKeeps(cfg, sys, a);
  }

  /** Saving a refresh token under a known hash keeps whose token it is and changes its use mark only. */
  lemma UpsertKeepsGrant(s: Store, hash: string, t: RefreshToken)
    ensures var s' := SaveRefresh(s, hash, t);
      && s' == s.(refresh := s'.refresh) && s'.refresh.Keys == s.refresh.Keys + {hash}
      && (forall h :: h in s.refresh && h != hash ==> s'.refresh[h] == s.refresh[h])
      && (if hash in s.refresh
          then GrantOf(s'.refresh[hash]) == GrantOf(s.refresh[hash])
               && s'.refresh[hash].expires == s.refresh[hash].expires
               && s'.refresh[hash].used == t.used
          else s'.refresh[hash] == t)
  {
  }
}
