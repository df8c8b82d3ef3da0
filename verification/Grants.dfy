/** Who is granted what, in terms of the requests and answers of a run alone: a history of the codes, refresh
    tokens, device codes and pushed requests that are outstanding, kept without looking at the tables, and
    the theorem that every handler answers as that history demands. */
module Grants {

  import opened Wrappers
  import opened Tokens

  // ----- the history -----

  const MINUTE := 60 * 1_000_000_000
  const DAY := 24 * 60 * MINUTE

  /** What was asked for when a code was issued. */
  datatype CodeNote = CodeNote(
    id: string, subject: string, client: string, scope: string, challenge: string, expires: int)

  /** What an unused refresh token stands for. */
  datatype TokenNote = TokenNote(subject: string, client: string, scope: string, expires: int)

  /** A device code, and who approved it, if anyone. */
  datatype DeviceNote = DeviceNote(
    userCode: string, client: string, scope: string, approver: Option<string>, expires: int)

  datatype PushNote = PushNote(params: map<string, string>, expires: int)

  /** Everything outstanding: issued and neither redeemed, withdrawn nor dropped after expiry. */
  datatype History = History(
    codes: map<string, CodeNote>,
    tokens: map<string, TokenNote>,
    devices: map<string, DeviceNote>,
    pushes: map<string, PushNote>)

  /** The parameters of an authorization request: a pushed request overrides the query. */
  function Settled(h: History, query: map<string, string>): map<string, string> {
    var uri := Get(query, "request_uri");
    if uri != "" && uri in h.pushes then query + h.pushes[uri].params else query
  }

  /** The request_uri of an authorization request is spent by being presented. */
  function WithoutPush(h: History, query: map<string, string>): History {
    var uri := Get(query, "request_uri");
    if uri == "" then h else h.(pushes := h.pushes - {uri})
  }

  function NoteAuthorize(h: History, query: map<string, string>, subject: string, code: string, id: string, now: int,
                         reply: Reply): History {
    var q, rest := Settled(h, query), WithoutPush(h, query);
    if !reply.CodeIssued? then rest
    else
      var note := CodeNote(id, subject, Get(q, "client_id"), Get(q, "scope"),
                           Get(q, "code_challenge"), now + 5 * MINUTE);
      rest.(codes := rest.codes[code := note])
  }

  function NewToken(cfg: Config, h: History, reply: Reply, now: int): History
    requires reply.Granted?
  {
    var note := TokenNote(reply.subject, reply.client, reply.scope, now + 30 * DAY);
    h.(tokens := h.tokens[cfg.hash(reply.refreshToken) := note])
  }

  function NoteRefresh(cfg: Config, h: History, token: string, t1: int, t2: int, reply: Reply): History {
    var hash := cfg.hash(token);
    if reply.Granted? then NewToken(cfg, h.(tokens := h.tokens - {hash}), reply, t2)
    else if token != "" && hash in h.tokens && t1 > h.tokens[hash].expires then h.(tokens := h.tokens - {hash})
    else h
  }

  function NoteApproval(h: History, userCode: string, subject: string): History {
    h.(devices := map d | d in h.devices ::
         if h.devices[d].userCode == userCode then h.devices[d].(approver := Some(subject)) else h.devices[d])
  }

  function NoteRedeem(cfg: Config, h: History, deviceCode: string, client: string, t1: int, t2: int,
                      reply: Reply): History {
    if reply.Granted? then NewToken(cfg, h.(devices := h.devices - {deviceCode}), reply, t2)
    else if deviceCode != "" && deviceCode in h.devices && Names(client, h.devices[deviceCode].client)
      && t1 > h.devices[deviceCode].expires
    then h.(devices := h.devices - {deviceCode})
    else h
  }

  /** The request names this client, or none. */
  predicate Names(named: string, client: string) {
    named == "" || named == client
  }

  /** What a request and its answer change. */
  function Note(cfg: Config, h: History, a: Action, reply: Reply): History {
    match a
    case DoAuthorize(query, subject, code, id, _, t2) => NoteAuthorize(h, query, subject, code, id, t2, reply)
    case DoIssueSession(row, id, now) =>
      h.(codes := h.codes[row.code :=
         CodeNote(id, row.subject, row.client, row.scope, row.challenge, now + 5 * MINUTE)])
    case DoExchange(code, _, _, _, _, _, _, t2) =>
      if reply.Granted? then NewToken(cfg, h.(codes := h.codes - {code}), reply, t2) else h
    case DoRefresh(token, _, _, t1, t2) => NoteRefresh(cfg, h, token, t1, t2, reply)
    case DoStartDevice(client, scope, _, deviceCode, userCode, now) =>
      if reply.DeviceStarted?
      then h.(devices := h.devices[deviceCode := DeviceNote(userCode, client, scope, None, now + 15 * MINUTE)])
      else h
    case DoApprove(userCode, _, subject, _) => if reply.Approved? then NoteApproval(h, userCode, subject) else h
    case DoRedeemDevice(deviceCode, client, _, t1, t2) => NoteRedeem(cfg, h, deviceCode, client, t1, t2, reply)
    case DoPushPar(form, _, uri, now) =>
      if reply.Pushed?
      then h.(pushes := h.pushes[uri :=
           PushNote(map k | k in form && form[k] != "" :: form[k], now + 90 * 1_000_000_000)])
      else h
    case DoRevokeRefresh(token, client) =>
      if cfg.hash(token) in h.tokens && Names(client, h.tokens[cfg.hash(token)].client)
      then h.(tokens := h.tokens - {cfg.hash(token)})
      else h
    case DoDeleteSession(id) => h.(codes := map c | c in h.codes && h.codes[c].id != id :: h.codes[c])
    case DoPurge(now) => h.(codes := map c | c in h.codes && h.codes[c].expires >= now :: h.codes[c])
  }

  const NOTHING := History(map[], map[], map[], map[])

  function HistoryFrom(cfg: Config, sys: System, h: History, actions: seq<Action>): History
    requires Reaches(cfg, sys, actions)
    decreases |actions|
  {
    if |actions| == 0 then h
    else
      var (sys', reply) := Step(cfg, sys, actions[0]);
      HistoryFrom(cfg, sys', Note(cfg, h, actions[0], reply), actions[1..])
  }

  /** What is outstanding after a run from an empty store. */
  function HistoryOf(cfg: Config, actions: seq<Action>): History
    requires Reaches(cfg, Start(), actions)
  {
    HistoryFrom(cfg, Start(), NOTHING, actions)
  }

  // ----- the tables hold the history -----

  function CodeNoteOf(id: string, r: Session): CodeNote {
    CodeNote(id, r.subject, r.client, r.scope, r.challenge, r.expires)
  }

  predicate CodesMatch(sessions: map<string, Session>, codes: map<string, CodeNote>) {
    && (forall id :: id in sessions ==>
          var r := sessions[id];
          r.code in codes && codes[r.code] == CodeNoteOf(id, r))
    && (forall c :: c in codes ==> codes[c].id in sessions && sessions[codes[c].id].code == c)
  }

  function TokenNoteOf(r: RefreshToken): TokenNote {
    TokenNote(r.subject, r.client, r.scope, r.expires)
  }

  predicate TokensMatch(refresh: map<string, RefreshToken>, tokens: map<string, TokenNote>) {
    && (forall k :: k in tokens ==> k in refresh && !refresh[k].used)
    && (forall k :: k in refresh && !refresh[k].used ==>
          k in tokens && tokens[k] == TokenNoteOf(refresh[k]))
  }

  function NoteOf(r: DeviceCode): DeviceNote {
    DeviceNote(r.userCode, r.client, r.scope, if r.approved then Some(r.subject) else None, r.expires)
  }

  predicate DevicesMatch(rows: map<string, DeviceCode>, notes: map<string, DeviceNote>) {
    && rows.Keys == notes.Keys
    && (forall d :: d in rows ==> notes[d] == NoteOf(rows[d]) && !rows[d].denied)
    && (forall d, e :: d in rows && e in rows && rows[d].userCode == rows[e].userCode ==> d == e)
  }

  predicate PushesMatch(rows: map<string, ParRequest>, notes: map<string, PushNote>) {
    rows.Keys == notes.Keys && forall u :: u in rows ==> notes[u] == PushNote(rows[u].params, rows[u].expires)
  }

  predicate Matches(s: Store, h: History) {
    && CodesMatch(s.sessions, h.codes) && TokensMatch(s.refresh, h.tokens)
    && DevicesMatch(s.devices, h.devices) && PushesMatch(s.pars, h.pushes)
  }

  // ----- who is entitled to what -----

  /** A code is redeemed by whoever proves the challenge it was asked for with, in time, as its client. */
  predicate MayExchange(cfg: Config, h: History, code: string, client: string, verifier: string, authOk: string -> bool,
                        now: int) {
    && code != "" && code in h.codes
    && var c := h.codes[code];
    && now <= c.expires && Names(client, c.client)
    && verifier != "" && c.challenge != "" && cfg.s256(verifier) == c.challenge
    && authOk(c.client)
  }

  predicate MayRefresh(cfg: Config, h: History, token: string, authOk: string -> bool, now: int) {
    && token != "" && cfg.hash(token) in h.tokens
    && now <= h.tokens[cfg.hash(token)].expires && authOk(h.tokens[cfg.hash(token)].client)
  }

  predicate MayRedeem(h: History, deviceCode: string, client: string, now: int) {
    && deviceCode != "" && deviceCode in h.devices
    && var d := h.devices[deviceCode];
    && Names(client, d.client) && now <= d.expires && d.approver.Some?
  }

  predicate MayAuthorize(cfg: Config, h: History, query: map<string, string>, subject: string, now: int) {
    var uri, q := Get(query, "request_uri"), Settled(h, query);
    && (uri != "" ==> uri in h.pushes && now <= h.pushes[uri].expires)
    && subject != "" && Get(q, "client_id") != "" && Get(q, "redirect_uri") != ""
    && cfg.registered(Get(q, "client_id"), Get(q, "redirect_uri"))
    && Get(q, "state") != "" && Get(q, "code_challenge") != "" && Get(q, "code_challenge_method") == "S256"
  }

  predicate MayApprove(h: History, userCode: string, subject: string, now: int) {
    && userCode != "" && subject != ""
    && exists d :: d in h.devices && h.devices[d].userCode == userCode && now <= h.devices[d].expires
  }

  /** The answer a request is owed. */
  function Owed(cfg: Config, h: History, a: Action): Reply {
    match a
    case DoAuthorize(query, subject, code, _, t1, _) =>
      if MayAuthorize(cfg, h, query, subject, t1) then CodeIssued(code) else Refused
    case DoExchange(code, _, client, verifier, authOk, newToken, t1, _) =>
      if MayExchange(cfg, h, code, client, verifier, authOk, t1)
      then Granted(h.codes[code].subject, h.codes[code].client, h.codes[code].scope, newToken)
      else Refused
    case DoRefresh(token, authOk, newToken, t1, _) =>
      if MayRefresh(cfg, h, token, authOk, t1)
      then
        var t := h.tokens[cfg.hash(token)];
        Granted(t.subject, t.client, t.scope, newToken)
      else Refused
    case DoRedeemDevice(deviceCode, client, newToken, t1, _) =>
      if MayRedeem(h, deviceCode, client, t1)
      then
        var d := h.devices[deviceCode];
        Granted(d.approver.value, d.client, d.scope, newToken)
      else Refused
    case DoApprove(userCode, _, subject, now) => if MayApprove(h, userCode, subject, now) then Approved else Refused
    case DoStartDevice(client, _, clientOk, deviceCode, userCode, _) =>
      if client != "" && clientOk && forall d :: d in h.devices ==> h.devices[d].userCode != userCode
      then DeviceStarted(deviceCode, userCode)
      else Refused
    case DoPushPar(form, clientOk, uri, _) =>
      var client, redirect := Get(form, "client_id"), Get(form, "redirect_uri");
      if client != "" && clientOk && (redirect == "" || cfg.registered(client, redirect)) then Pushed(uri) else Refused
    case DoIssueSession(row, _, _) => CodeIssued(row.code)
    case _ => Done
  }

  // ----- every answer is the one owed -----

  /** The random values of the request are not in the tables yet. */
  predicate Unseen(cfg: Config, s: Store, a: Action) {
    match a
    case DoAuthorize(_, _, code, id, _, _) =>
      id !in s.sessions && forall i :: i in s.sessions ==> s.sessions[i].code != code
    case DoIssueSession(row, id, _) =>
      id !in s.sessions && forall i :: i in s.sessions ==> s.sessions[i].code != row.code
    case DoExchange(code, row, _, _, _, newToken, _, _) =>
      SessionFound(s, code, row) && cfg.hash(newToken) !in s.refresh
    case DoRefresh(_, _, newToken, _, _) => cfg.hash(newToken) !in s.refresh
    case DoStartDevice(_, _, _, deviceCode, _, _) => deviceCode !in s.devices
    case DoApprove(userCode, row, _, _) => DeviceFound(s, userCode, row)
    case DoRedeemDevice(_, _, newToken, _, _) => cfg.hash(newToken) !in s.refresh
    case DoPushPar(_, _, uri, _) => uri !in s.pars
    case _ => true
  }

  lemma StoredWereIssued(sys: System)
    requires Invariant(sys)
    ensures forall id :: id in sys.store.sessions ==> Code(sys.store.sessions[id].code) in sys.issued
    ensures forall d :: d in sys.store.devices ==> Device(d) in sys.issued
    ensures forall u :: u in sys.store.pars ==> Par(u) in sys.issued
    ensures Known(sys)
  {
    hide Spent;
    var spent := Spent(sys.redeemed);
    assert forall id :: id in sys.store.sessions ==> SessionOk(sys.store.sessions[id], sys.issued, spent, sys.granted);
    assert forall d :: d in sys.store.devices ==> DeviceOk(d, sys.store.devices[d], sys.issued, spent, sys.granted);
    StoredTokensKnown(sys);
  }

  lemma NewValuesUnseen(cfg: Config, sys: System, a: Action)
    requires Invariant(sys) && Enabled(cfg, sys, a)
    ensures Unseen(cfg, sys.store, a)
  {
    hide Invariant;
    StoredWereIssued(sys);
  }

  lemma AuthorizeOwed(cfg: Config, s: Store, h: History, query: map<string, string>, subject: string, code: string,
                      id: string, t1: int, t2: int)
    requires PushesMatch(s.pars, h.pushes)
    ensures Authorize(cfg, s, query, subject, code, id, t1, t2).1
         == if MayAuthorize(cfg, h, query, subject, t1) then CodeIssued(code) else Refused
  {
  }

  lemma CodeAdded(sessions: map<string, Session>, codes: map<string, CodeNote>, id: string, row: Session)
    requires CodesMatch(sessions, codes) && id !in sessions
             && forall i :: i in sessions ==> sessions[i].code != row.code
    ensures CodesMatch(sessions[id := row], codes[row.code := CodeNoteOf(id, row)])
  {
  }

  lemma PushGone(rows: map<string, ParRequest>, notes: map<string, PushNote>, uri: string)
    requires PushesMatch(rows, notes)
    ensures PushesMatch(rows - {uri}, notes - {uri})
  {
  }

  lemma PushStates(rows: map<string, ParRequest>, notes: map<string, PushNote>, uri: string)
    requires PushesMatch(rows, notes)
    ensures uri in rows <==> uri in notes
    ensures uri in rows ==> notes[uri] == PushNote(rows[uri].params, rows[uri].expires)
    ensures uri !in rows ==> rows - {uri} == rows && notes - {uri} == notes
  {
  }

  lemma AuthorizeWithNoted(cfg: Config, s: Store, h: History, q: map<string, string>, subject: string, code: string,
                           id: string, now: int)
    requires Matches(s, h) && id !in s.sessions && forall i :: i in s.sessions ==> s.sessions[i].code != code
    ensures var (s', reply) := AuthorizeWith(cfg, s, q, subject, code, id, now);
      var note := CodeNote(id, subject, Get(q, "client_id"), Get(q, "scope"),
                           Get(q, "code_challenge"), now + 5 * MINUTE);
      Matches(s', if reply.CodeIssued? then h.(codes := h.codes[code := note]) else h)
  {
    hide CodesMatch, TokensMatch, DevicesMatch, PushesMatch, Get;
    CodeAdded(s.sessions, h.codes, id,
              Session(subject, Get(q, "client_id"), Get(q, "scope"), code, Get(q, "code_challenge"), now + CODE_TTL));
  }

  lemma AuthorizeNoted(cfg: Config, s: Store, h: History, query: map<string, string>, subject: string, code: string,
                       id: string, t1: int, t2: int)
    requires Matches(s, h) && id !in s.sessions && forall i :: i in s.sessions ==> s.sessions[i].code != code
    ensures var (s', reply) := Authorize(cfg, s, query, subject, code, id, t1, t2);
      Matches(s', NoteAuthorize(h, query, subject, code, id, t2, reply))
  {
    hide CodesMatch, TokensMatch, DevicesMatch, PushesMatch, AuthorizeWith, Get;
    var uri := Get(query, "request_uri");
    if uri == "" {
      AuthorizeWithNoted(cfg, s, h, query, subject, code, id, t2);
    } else {
      PushGone(s.pars, h.pushes, uri);
      PushStates(s.pars, h.pushes, uri);
      if uri in s.pars && t1 <= s.pars[uri].expires {
        AuthorizeWithNoted(cfg, s.(pars := s.pars - {uri}), h.(pushes := h.pushes - {uri}), query + s.pars[uri].params,
                           subject, code, id, t2);
      }
    }
  }

  /** The session found for an outstanding code is the one noted. */
  lemma FoundIsNoted(s: Store, h: History, code: string, row: Option<string>)
    requires CodesMatch(s.sessions, h.codes) && SessionFound(s, code, row)
    ensures row.Some? <==> code in h.codes
    ensures row.Some? ==> h.codes[code].id == row.value
  {
  }

  lemma ExchangeOwed(cfg: Config, s: Store, h: History, code: string, row: Option<string>, client: string,
                     verifier: string, authOk: string -> bool, newToken: string, t1: int, t2: int)
    requires CodesMatch(s.sessions, h.codes) && SessionFound(s, code, row)
    ensures Exchange(cfg, s, code, row, client, verifier, authOk, newToken, t1, t2).1
         == if MayExchange(cfg, h, code, client, verifier, authOk, t1)
            then Granted(h.codes[code].subject, h.codes[code].client, h.codes[code].scope, newToken)
            else Refused
  {
    FoundIsNoted(s, h, code, row);
  }

  lemma TokenAdded(refresh: map<string, RefreshToken>, tokens: map<string, TokenNote>, hash: string, row: RefreshToken)
    requires TokensMatch(refresh, tokens) && hash !in refresh && !row.used
    ensures TokensMatch(refresh[hash := row], tokens[hash := TokenNoteOf(row)])
  {
  }

  lemma CodeSpent(sessions: map<string, Session>, codes: map<string, CodeNote>, id: string)
    requires CodesMatch(sessions, codes) && id in sessions
    ensures CodesMatch(sessions - {id}, codes - {sessions[id].code})
  {
  }

  lemma ExchangeNoted(cfg: Config, s: Store, h: History, code: string, row: Option<string>, client: string,
                      verifier: string, authOk: string -> bool, newToken: string, t1: int, t2: int)
    requires Matches(s, h) && SessionFound(s, code, row) && cfg.hash(newToken) !in s.refresh
    ensures var (s', reply) := Exchange(cfg, s, code, row, client, verifier, authOk, newToken, t1, t2);
      Matches(s', if reply.Granted? then NewToken(cfg, h.(codes := h.codes - {code}), reply, t2) else h)
  {
    hide CodesMatch, TokensMatch, DevicesMatch, PushesMatch;
    var (s', reply) := Exchange(cfg, s, code, row, client, verifier, authOk, newToken, t1, t2);
    if reply.Granted? {
      var sess := s.sessions[row.value];
      CodeSpent(s.sessions, h.codes, row.value);
      TokenAdded(s.refresh, h.tokens, cfg.hash(newToken),
                 RefreshToken(sess.subject, sess.client, sess.scope, t2 + REFRESH_TTL, false));
    }
  }

  lemma RefreshOwed(cfg: Config, s: Store, h: History, token: string, authOk: string -> bool, newToken: string, t1: int,
                    t2: int)
    requires TokensMatch(s.refresh, h.tokens)
    ensures Refresh(cfg, s, token, authOk, newToken, t1, t2).1 ==
      if MayRefresh(cfg, h, token, authOk, t1)
      then
        var t := h.tokens[cfg.hash(token)];
        Granted(t.subject, t.client, t.scope, newToken)
      else Refused
  {
  }

  lemma TokenSpent(refresh: map<string, RefreshToken>, tokens: map<string, TokenNote>, hash: string)
    requires TokensMatch(refresh, tokens) && hash in refresh
    ensures TokensMatch(refresh - {hash}, tokens - {hash})
    ensures TokensMatch(refresh[hash := refresh[hash].(used := true)], tokens - {hash})
  {
  }

  lemma RefreshNoted(cfg: Config, s: Store, h: History, token: string, authOk: string -> bool, newToken: string,
                     t1: int,
                     t2: int)
    requires Matches(s, h) && cfg.hash(newToken) !in s.refresh
    ensures var (s', reply) := Refresh(cfg, s, token, authOk, newToken, t1, t2);
      Matches(s', NoteRefresh(cfg, h, token, t1, t2, reply))
  {
    hide CodesMatch, TokensMatch, DevicesMatch, PushesMatch;
    var hash := cfg.hash(token);
    var (s', reply) := Refresh(cfg, s, token, authOk, newToken, t1, t2);
    TokenStates(s.refresh, h.tokens, hash);
    if token != "" && hash in s.refresh {
      var rt := s.refresh[hash];
      TokenSpent(s.refresh, h.tokens, hash);
      if reply.Granted? {
        TokenAdded(s.refresh[hash := rt.(used := true)], h.tokens - {hash}, cfg.hash(newToken),
                   RefreshToken(rt.subject, rt.client, rt.scope, t2 + REFRESH_TTL, false));
      }
    }
  }

  /** A token is outstanding exactly when it is stored unused. */
  lemma TokenStates(refresh: map<string, RefreshToken>, tokens: map<string, TokenNote>, hash: string)
    requires TokensMatch(refresh, tokens)
    ensures hash in tokens <==> hash in refresh && !refresh[hash].used
    ensures hash in tokens ==> tokens[hash] == TokenNoteOf(refresh[hash])
    ensures hash !in tokens ==> tokens - {hash} == tokens
  {
  }

  lemma RedeemOwed(cfg: Config, s: Store, h: History, deviceCode: string, client: string, newToken: string, t1: int,
                   t2: int)
    requires DevicesMatch(s.devices, h.devices)
    ensures RedeemDevice(cfg, s, deviceCode, client, newToken, t1, t2).1 ==
      if MayRedeem(h, deviceCode, client, t1)
      then
        var d := h.devices[deviceCode];
        Granted(d.approver.value, d.client, d.scope, newToken)
      else Refused
  {
  }

  lemma DeviceGone(rows: map<string, DeviceCode>, notes: map<string, DeviceNote>, d: string)
    requires DevicesMatch(rows, notes)
    ensures DevicesMatch(rows - {d}, notes - {d})
  {
  }

  lemma DeviceStates(rows: map<string, DeviceCode>, notes: map<string, DeviceNote>, d: string)
    requires DevicesMatch(rows, notes)
    ensures d in rows <==> d in notes
    ensures d in rows ==> notes[d] == NoteOf(rows[d]) && !rows[d].denied
  {
  }

  lemma RedeemNoted(cfg: Config, s: Store, h: History, deviceCode: string, client: string, newToken: string, t1: int,
                    t2: int)
    requires Matches(s, h) && cfg.hash(newToken) !in s.refresh
    ensures var (s', reply) := RedeemDevice(cfg, s, deviceCode, client, newToken, t1, t2);
      Matches(s', NoteRedeem(cfg, h, deviceCode, client, t1, t2, reply))
  {
    hide CodesMatch, TokensMatch, PushesMatch, DevicesMatch;
    var (s', reply) := RedeemDevice(cfg, s, deviceCode, client, newToken, t1, t2);
    DeviceStates(s.devices, h.devices, deviceCode);
    DeviceGone(s.devices, h.devices, deviceCode);
    if reply.Granted? {
      var dc := s.devices[deviceCode];
      TokenAdded(s.refresh, h.tokens, cfg.hash(newToken),
                 RefreshToken(dc.subject, dc.client, dc.scope, t2 + REFRESH_TTL, false));
    }
  }

  lemma ApproveOwed(s: Store, h: History, userCode: string, row: Option<string>, subject: string, now: int)
    requires DevicesMatch(s.devices, h.devices) && DeviceFound(s, userCode, row)
    ensures ApproveDevice(s, userCode, row, subject, now).1
         == if MayApprove(h, userCode, subject, now) then Approved else Refused
  {
    if row.Some? {
      assert row.value in h.devices && h.devices[row.value].userCode == userCode;
    }
  }

  lemma ApproveNoted(s: Store, h: History, userCode: string, row: Option<string>, subject: string, now: int)
    requires Matches(s, h) && DeviceFound(s, userCode, row)
    ensures var (s', reply) := ApproveDevice(s, userCode, row, subject, now);
      Matches(s', if reply.Approved? then NoteApproval(h, userCode, subject) else h)
  {
    hide CodesMatch, TokensMatch, PushesMatch, DevicesMatch, NoteApproval;
    if row.Some? {
      DeviceApproved(s.devices, h, row.value, subject);
    }
    NoteApprovalKeeps(h, userCode, subject);
  }

  lemma NoteApprovalKeeps(h: History, userCode: string, subject: string)
    ensures var h' := NoteApproval(h, userCode, subject);
      h'.codes == h.codes && h'.tokens == h.tokens && h'.pushes == h.pushes
  {
  }

  lemma DeviceApproved(rows: map<string, DeviceCode>, h: History, d: string, subject: string)
    requires DevicesMatch(rows, h.devices) && d in rows
    ensures DevicesMatch(rows[d := rows[d].(subject := subject, approved := true)],
                         NoteApproval(h, rows[d].userCode, subject).devices)
  {
    var userCode := rows[d].userCode;
    var rows', notes' := rows[d := rows[d].(subject := subject, approved := true)],
                         NoteApproval(h, userCode, subject).devices;
    NoteApprovalAt(h, userCode, subject);
    hide NoteApproval;
    forall e | e in rows' ensures notes'[e] == NoteOf(rows'[e]) && !rows'[e].denied {
      assert h.devices[e] == NoteOf(rows[e]);
      assert e != d ==> rows[e].userCode != userCode;
    }
  }

  lemma NoteApprovalAt(h: History, userCode: string, subject: string)
    ensures var notes := NoteApproval(h, userCode, subject).devices;
      && notes.Keys == h.devices.Keys
      && forall d :: d in notes ==>
           notes[d] == if h.devices[d].userCode == userCode then h.devices[d].(approver := Some(subject))
                       else h.devices[d]
  {
  }

  lemma StartOwed(s: Store, h: History, client: string, scope: string, clientOk: bool, deviceCode: string,
                  userCode: string, now: int)
    requires DevicesMatch(s.devices, h.devices)
    ensures StartDevice(s, client, scope, clientOk, deviceCode, userCode, now).1
         == if client != "" && clientOk && forall d :: d in h.devices ==> h.devices[d].userCode != userCode
            then DeviceStarted(deviceCode, userCode)
            else Refused
  {
    if UserCodeTaken(s, userCode) {
      var d :| d in s.devices && s.devices[d].userCode == userCode;
      assert d in h.devices && h.devices[d].userCode == userCode;
    }
  }

  lemma StartNoted(s: Store, h: History, client: string, scope: string, clientOk: bool, deviceCode: string,
                   userCode: string, now: int)
    requires Matches(s, h) && deviceCode !in s.devices
    ensures var (s', reply) := StartDevice(s, client, scope, clientOk, deviceCode, userCode, now);
      Matches(s', if reply.DeviceStarted?
                  then h.(devices := h.devices[deviceCode :=
                       DeviceNote(userCode, client, scope, None, now + 15 * MINUTE)])
                  else h)
  {
    hide CodesMatch, TokensMatch, PushesMatch;
  }

  /** In a state that holds the history, each handler answers as owed. */
  lemma StepAnswersOwed(cfg: Config, sys: System, h: History, a: Action)
    requires Enabled(cfg, sys, a) && Matches(sys.store, h)
    ensures Step(cfg, sys, a).1 == Owed(cfg, h, a)
  {
    var s := sys.store;
    hide CodesMatch, TokensMatch, DevicesMatch, PushesMatch, MayAuthorize, MayExchange, MayRefresh, MayRedeem,
      MayApprove,
      Authorize, Exchange, Refresh, RedeemDevice, ApproveDevice, StartDevice;
    match a
    case DoAuthorize(query, subject, code, id, t1, t2) => AuthorizeOwed(cfg, s, h, query, subject, code, id, t1, t2);
    case DoExchange(code, row, client, verifier, authOk, newToken, t1, t2) =>
      ExchangeOwed(cfg, s, h, code, row, client, verifier, authOk, newToken, t1, t2);
    case DoRefresh(token, authOk, newToken, t1, t2) => RefreshOwed(cfg, s, h, token, authOk, newToken, t1, t2);
    case DoRedeemDevice(deviceCode, client, newToken, t1, t2) =>
      RedeemOwed(cfg, s, h, deviceCode, client, newToken, t1, t2);
    case DoApprove(userCode, row, subject, now) => ApproveOwed(s, h, userCode, row, subject, now);
    case DoStartDevice(client, scope, clientOk, deviceCode, userCode, now) =>
      StartOwed(s, h, client, scope, clientOk, deviceCode, userCode, now);
    case _ =>
  }

  /** Each step keeps tables and history in agreement. */
  lemma StepMatches(cfg: Config, sys: System, h: History, a: Action)
    requires Invariant(sys) && Enabled(cfg, sys, a) && Matches(sys.store, h)
    ensures Matches(Step(cfg, sys, a).0.store, Note(cfg, h, a, Step(cfg, sys, a).1))
  {
    hide Invariant;
    NewValuesUnseen(cfg, sys, a);
    match a
    case DoAuthorize(_, _, _, _, _, _) => LargeStepMatches(cfg, sys, h, a);
    case DoExchange(_, _, _, _, _, _, _, _) => LargeStepMatches(cfg, sys, h, a);
    case DoRefresh(_, _, _, _, _) => LargeStepMatches(cfg, sys, h, a);
    case DoRedeemDevice(_, _, _, _, _) => LargeStepMatches(cfg, sys, h, a);
    case DoApprove(_, _, _, _) => LargeStepMatches(cfg, sys, h, a);
    case DoStartDevice(_, _, _, _, _, _) => LargeStepMatches(cfg, sys, h, a);
    case _ => SmallStepMatches(cfg, sys, h, a);
  }

  lemma LargeStepMatches(cfg: Config, sys: System, h: History, a: Action)
    requires Enabled(cfg, sys, a) && Unseen(cfg, sys.store, a) && Matches(sys.store, h)
    requires !a.DoIssueSession? && !a.DoPushPar? && !a.DoRevokeRefresh? && !a.DoDeleteSession? && !a.DoPurge?
    ensures Matches(Step(cfg, sys, a).0.store, Note(cfg, h, a, Step(cfg, sys, a).1))
  {
    var s := sys.store;
    hide Matches, NoteAuthorize, NewToken, NoteRefresh, NoteApproval, NoteRedeem,
      Authorize, Exchange, Refresh, RedeemDevice, ApproveDevice, StartDevice;
    match a
    case DoAuthorize(query, subject, code, id, t1, t2) => AuthorizeNoted(cfg, s, h, query, subject, code, id, t1, t2);
    case DoExchange(code, row, client, verifier, authOk, newToken, t1, t2) =>
      ExchangeNoted(cfg, s, h, code, row, client, verifier, authOk, newToken, t1, t2);
    case DoRefresh(token, authOk, newToken, t1, t2) => RefreshNoted(cfg, s, h, token, authOk, newToken, t1, t2);
    case DoRedeemDevice(deviceCode, client, newToken, t1, t2) =>
      RedeemNoted(cfg, s, h, deviceCode, client, newToken, t1, t2);
    case DoApprove(userCode, row, subject, now) => ApproveNoted(s, h, userCode, row, subject, now);
    case DoStartDevice(client, scope, clientOk, deviceCode, userCode, now) =>
      StartNoted(s, h, client, scope, clientOk, deviceCode, userCode, now);
  }

  lemma SmallStepMatches(cfg: Config, sys: System, h: History, a: Action)
    requires Enabled(cfg, sys, a) && Unseen(cfg, sys.store, a) && Matches(sys.store, h)
    requires a.DoIssueSession? || a.DoPushPar? || a.DoRevokeRefresh? || a.DoDeleteSession? || a.DoPurge?
    ensures Matches(Step(cfg, sys, a).0.store, Note(cfg, h, a, Step(cfg, sys, a).1))
  {
    hide Matches, Purged, IssueSession, PushPar, RevokeRefresh;
    var s := sys.store;
    match a
    case DoIssueSession(row, id, now) => IssueNoted(s, h, row, id, now);
    case DoPushPar(form, clientOk, uri, now) => PushNoted(cfg, s, h, form, clientOk, uri, now);
    case DoRevokeRefresh(token, client) => RevokeNoted(cfg, s, h, token, client);
    case DoDeleteSession(id) => DropNoted(s, h, id);
    case DoPurge(now) => PurgeNoted(s, h, now);
  }

  lemma IssueNoted(s: Store, h: History, row: Session, id: string, now: int)
    requires Matches(s, h) && id !in s.sessions && forall i :: i in s.sessions ==> s.sessions[i].code != row.code
    ensures Matches(IssueSession(s, row, id, now).0,
                    h.(codes := h.codes[row.code := CodeNote(id, row.subject, row.client, row.scope, row.challenge,
                                                             now + 5 * MINUTE)]))
  {
    hide CodesMatch, TokensMatch, DevicesMatch, PushesMatch;
    CodeAdded(s.sessions, h.codes, id, row.(expires := now + CODE_TTL));
  }

  lemma PushNoted(cfg: Config, s: Store, h: History, form: map<string, string>, clientOk: bool, uri: string, now: int)
    requires Matches(s, h)
    ensures var (s', reply) := PushPar(cfg, s, form, clientOk, uri, now);
      var note := PushNote(map k | k in form && form[k] != "" :: form[k], now + 90 * 1_000_000_000);
      Matches(s', if reply.Pushed? then h.(pushes := h.pushes[uri := note]) else h)
  {
    hide CodesMatch, TokensMatch, DevicesMatch, PushesMatch, Get;
    var params := map k | k in form && form[k] != "" :: form[k];
    PushAdded(s.pars, h.pushes, uri, ParRequest(Get(form, "client_id"), params, now + PAR_TTL));
  }

  lemma RevokeNoted(cfg: Config, s: Store, h: History, token: string, client: string)
    requires Matches(s, h)
    ensures var hash := cfg.hash(token);
      Matches(RevokeRefresh(cfg, s, token, client).0,
              if hash in h.tokens && Names(client, h.tokens[hash].client) then h.(tokens := h.tokens - {hash}) else h)
  {
    hide CodesMatch, TokensMatch, DevicesMatch, PushesMatch;
    TokenStates(s.refresh, h.tokens, cfg.hash(token));
    if cfg.hash(token) in s.refresh {
      TokenSpent(s.refresh, h.tokens, cfg.hash(token));
    }
  }

  lemma DropNoted(s: Store, h: History, id: string)
    requires Matches(s, h)
    ensures Matches(s.(sessions := s.sessions - {id}),
                    h.(codes := map c | c in h.codes && h.codes[c].id != id :: h.codes[c]))
  {
    hide CodesMatch, TokensMatch, DevicesMatch, PushesMatch;
    CodesDropped(s.sessions, h.codes, id);
  }

  lemma PurgeNoted(s: Store, h: History, now: int)
    requires Matches(s, h)
    ensures Matches(Purged(s, now), h.(codes := map c | c in h.codes && h.codes[c].expires >= now :: h.codes[c]))
  {
    hide CodesMatch, TokensMatch, DevicesMatch, PushesMatch;
    CodesPurged(s, h.codes, now);
  }

  lemma PushAdded(rows: map<string, ParRequest>, notes: map<string, PushNote>, uri: string, row: ParRequest)
    requires PushesMatch(rows, notes)
    ensures PushesMatch(rows[uri := row], notes[uri := PushNote(row.params, row.expires)])
  {
  }

  lemma CodesDropped(sessions: map<string, Session>, codes: map<string, CodeNote>, id: string)
    requires CodesMatch(sessions, codes)
    ensures CodesMatch(sessions - {id}, map c | c in codes && codes[c].id != id :: codes[c])
  {
  }

  lemma CodesPurged(s: Store, codes: map<string, CodeNote>, now: int)
    requires CodesMatch(s.sessions, codes)
    ensures CodesMatch(Purged(s, now).sessions, map c | c in codes && codes[c].expires >= now :: codes[c])
  {
  }

  lemma {:induction false} RunMatches(cfg: Config, sys: System, h: History, actions: seq<Action>)
    requires Invariant(sys) && Reaches(cfg, sys, actions) && Matches(sys.store, h)
    ensures Matches(Run(cfg, sys, actions).store, HistoryFrom(cfg, sys, h, actions))
    ensures Invariant(Run(cfg, sys, actions))
    decreases |actions|
  {
    hide Invariant, Step, Note, Matches, Enabled;
    if |actions| > 0 {
      StepMatches(cfg, sys, h, actions[0]);
      StepKeeps(cfg, sys, actions[0]);
      var (sys', reply) := Step(cfg, sys, actions[0]);
      RunMatches(cfg, sys', Note(cfg, h, actions[0], reply), actions[1..]);
    }
  }

  lemma StartMatches()
    ensures Matches(Start().store, NOTHING) && Invariant(Start())
  {
  }

  /** In every run, every request is answered as the earlier requests and answers demand. */
  lemma AnsweredAsOwed(cfg: Config, actions: seq<Action>, a: Action)
    requires Reaches(cfg, Start(), actions) && Enabled(cfg, Run(cfg, Start(), actions), a)
    ensures Step(cfg, Run(cfg, Start(), actions), a).1 == Owed(cfg, HistoryOf(cfg, actions), a)
  {
    hide Invariant, Step, Owed, Matches, Enabled, Run, Reaches, HistoryFrom;
    StartMatches();
    RunMatches(cfg, Start(), NOTHING, actions);
    StepAnswersOwed(cfg, Run(cfg, Start(), actions), HistoryOf(cfg, actions), a);
  }

  /** In every run, a code is exchanged if and only if it is outstanding and unexpired, and the request names no
      other client than the one it was issued to, authenticates it, and proves the challenge of the
      authorization request, pushed parameters included. */
  lemma ExchangeGrantedIff(cfg: Config, actions: seq<Action>, a: Action)
    requires Reaches(cfg, Start(), actions) && Enabled(cfg, Run(cfg, Start(), actions), a) && a.DoExchange?
    ensures Step(cfg, Run(cfg, Start(), actions), a).1.Granted?
       <==> MayExchange(cfg, HistoryOf(cfg, actions), a.code, a.client, a.verifier, a.authOk, a.t1)
  {
    hide Step, Run, Reaches, Enabled, MayExchange, HistoryOf;
    AnsweredAsOwed(cfg, actions, a);
  }

  /** A refresh token, if and only if it is outstanding and unexpired and its client authenticates. */
  lemma RefreshGrantedIff(cfg: Config, actions: seq<Action>, a: Action)
    requires Reaches(cfg, Start(), actions) && Enabled(cfg, Run(cfg, Start(), actions), a) && a.DoRefresh?
    ensures Step(cfg, Run(cfg, Start(), actions), a).1.Granted?
       <==> MayRefresh(cfg, HistoryOf(cfg, actions), a.token, a.authOk, a.t1)
  {
    hide Step, Run, Reaches, Enabled, MayRefresh, HistoryOf;
    AnsweredAsOwed(cfg, actions, a);
  }

  /** A device code, if and only if it is outstanding, unexpired and approved, and no other client is named;
      the subject is the approver. */
  lemma DeviceGrantedIff(cfg: Config, actions: seq<Action>, a: Action)
    requires Reaches(cfg, Start(), actions) && Enabled(cfg, Run(cfg, Start(), actions), a) && a.DoRedeemDevice?
    ensures var h, reply := HistoryOf(cfg, actions), Step(cfg, Run(cfg, Start(), actions), a).1;
      && (reply.Granted? <==> MayRedeem(h, a.deviceCode, a.client, a.t1))
      && (reply.Granted? ==> Some(reply.subject) == h.devices[a.deviceCode].approver)
  {
    hide Step, Run, Reaches, Enabled, HistoryOf;
    AnsweredAsOwed(cfg, actions, a);
  }
}
