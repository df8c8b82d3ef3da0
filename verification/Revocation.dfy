/** The access-token revocation list and its readers: services/identity/oidc/revocation.go:15-41
    and 86-98, introspect.go:23-70 and the expiry check of jwt.go:107-109. Clock readings are
    in nanoseconds; JWT times are whole seconds. */
module Revocation {

  import opened Wrappers

  const SECOND := 1_000_000_000

  datatype Claims = Claims(subject: string, audience: string, expiresAt: nat)

  /** Token parsing, signature checking and hashing. */
  datatype Config = Config(claims: string -> Option<Claims>, signed: string -> bool, hash: string -> string)

  type List = map<string, nat>

  function Unix(now: nat): nat {
    now / SECOND
  }

  /** jwt.go:90-111 */
  function Verified(cfg: Config, token: string, now: nat): bool {
    cfg.signed(token) && cfg.claims(token).Some? && Unix(now) <= cfg.claims(token).value.expiresAt
  }

  function Expiry(c: Claims): nat {
    c.expiresAt * SECOND
  }

  // ----- the handlers, run alone -----

  function Checked(cfg: Config, list: List, token: string, now: nat): (List, bool) {
    var h := cfg.hash(token);
    if h !in list then (list, false)
    else if now > list[h] then (list - {h}, false)
    else (list, true)
  }

  function Introspected(cfg: Config, list: List, token: string, t1: nat, t2: nat, t3: nat): (List, bool) {
    if !Verified(cfg, token, t1) then (list, false)
    else
      var (list', revoked) := Checked(cfg, list, token, t2);
      (list', !revoked && Unix(t3) <= cfg.claims(token).value.expiresAt)
  }

  function Revoked(cfg: Config, list: List, token: string, now: nat): List {
    match cfg.claims(token)
    case None => list
    case Some(c) => if now < Expiry(c) then list[cfg.hash(token) := Expiry(c)] else list
  }

  class RevocationList {
    const cfg: Config
    var revoked: List

    constructor (cfg: Config)
      ensures this.cfg == cfg && revoked == map[]
    {
      this.cfg, this.revoked := cfg, map[];
    }

    /** revocation.go:25-41 */
    method IsAccessTokenRevoked(token: string, now: nat) returns (r: bool)
      modifies this
      ensures (revoked, r) == Checked(cfg, old(revoked), token, now)
    {
      var h := cfg.hash(token);
      if h !in revoked {
        return false;
      }
      if now > revoked[h] {
        revoked := revoked - {h};
        return false;
      }
      return true;
    }

    /** revocation.go:86-98 */
    method Revoke(token: string, now: nat)
      modifies this
      ensures revoked == Revoked(cfg, old(revoked), token, now)
    {
      var claims := cfg.claims(token);
      if claims.Some? {
        var expiry := claims.value.expiresAt * SECOND;
        if now < expiry {
          revoked := revoked[cfg.hash(token) := expiry];
        }
      }
    }

    /** introspect.go:37-70 */
    method Introspect(token: string, t1: nat, t2: nat, t3: nat) returns (active: bool)
      modifies this
      ensures (revoked, active) == Introspected(cfg, old(revoked), token, t1, t2, t3)
    {
      if !Verified(cfg, token, t1) {
        return false;
      }
      var isRevoked := IsAccessTokenRevoked(token, t2);
      if isRevoked {
        return false;
      }
      if Unix(t3) > cfg.claims(token).value.expiresAt {
        return false;
      }
      return true;
    }
  }

  /** The token was put on the list: its entry is there, or its expiry has passed. */
  predicate Listed(cfg: Config, list: List, token: string, clock: nat) {
    && cfg.claims(token).Some?
    && if cfg.hash(token) in list then list[cfg.hash(token)] == Expiry(cfg.claims(token).value)
       else clock > Expiry(cfg.claims(token).value)
  }

  lemma UnixWindow(t: nat, s: nat)
    ensures Unix(t) <= s <==> t < (s + 1) * SECOND
  {}

  /** Exactly when a revoked token is reported active: the list is consulted after the expiry
      instant and the answer is given before the next whole second. */
  lemma RevokedButActive(cfg: Config, list: List, token: string, clock: nat, t1: nat, t2: nat, t3: nat)
    requires Listed(cfg, list, token, clock) && clock <= t1 <= t2 <= t3
    ensures var e := cfg.claims(token).value.expiresAt;
            Introspected(cfg, list, token, t1, t2, t3).1 <==>
              cfg.signed(token) && t2 > e * SECOND && t3 < (e + 1) * SECOND
  {
    var e := cfg.claims(token).value.expiresAt;
    UnixWindow(t1, e);
    UnixWindow(t3, e);
  }

  /** With clock readings in whole seconds that never happens. */
  lemma RevokedStaysInactive(cfg: Config, list: List, token: string, clock: nat, t1: nat, t2: nat, t3: nat)
    requires Listed(cfg, list, token, clock) && clock <= t1 <= t2 <= t3
    requires t2 % SECOND == 0
    ensures !Introspected(cfg, list, token, t1, t2, t3).1
  {
    RevokedButActive(cfg, list, token, clock, t1, t2, t3);
    var e := cfg.claims(token).value.expiresAt;
    WholeSeconds(t2, t3, e);
  }

  lemma WholeSeconds(t2: nat, t3: nat, e: nat)
    requires t2 % SECOND == 0 && t2 <= t3
    ensures !(t2 > e * SECOND && t3 < (e + 1) * SECOND)
  {
    var q := t2 / SECOND;
    assert t2 == q * SECOND;
    if q > e {
      assert q >= e + 1;
    }
  }

  /** For every list: a token is active exactly when it is signed, unexpired at both readings of the expiry, and
      not on the list, or on it with its entry overdue at the reading in between. */
  lemma ActiveIff(cfg: Config, list: List, token: string, t1: nat, t2: nat, t3: nat)
    ensures Introspected(cfg, list, token, t1, t2, t3).1 <==>
            && cfg.signed(token) && cfg.claims(token).Some?
            && t1 < (cfg.claims(token).value.expiresAt + 1) * SECOND
            && t3 < (cfg.claims(token).value.expiresAt + 1) * SECOND
            && (cfg.hash(token) in list ==> t2 > list[cfg.hash(token)])
  {
    if cfg.claims(token).Some? {
      UnixWindow(t1, cfg.claims(token).value.expiresAt);
      UnixWindow(t3, cfg.claims(token).value.expiresAt);
    }
    hide Unix;
  }

  /** Introspection touches no entry but the token's own, and deletes that exactly when the token verifies and
      the entry is overdue. */
  lemma ListChangesOnlyWhenOverdue(cfg: Config, list: List, token: string, t1: nat, t2: nat, t3: nat)
    ensures var list' := Introspected(cfg, list, token, t1, t2, t3).0;
      && (forall h :: h in list' ==> h in list && list'[h] == list[h])
      && (forall h :: h in list ==> (h !in list' <==>
            h == cfg.hash(token) && t2 > list[h] && cfg.signed(token) && cfg.claims(token).Some?
            && t1 < (cfg.claims(token).value.expiresAt + 1) * SECOND))
  {
    if cfg.claims(token).Some? {
      UnixWindow(t1, cfg.claims(token).value.expiresAt);
    }
    hide Unix;
  }

  /** Revoking lists an unexpired token until its expiry, and changes no other entry. */
  lemma RevokedIsListed(cfg: Config, list: List, token: string, now: nat)
    ensures var list' := Revoked(cfg, list, token, now);
      && (forall h :: h != cfg.hash(token) ==> (h in list' <==> h in list) && (h in list ==> list'[h] == list[h]))
      && (cfg.claims(token).Some? && now < cfg.claims(token).value.expiresAt * SECOND ==>
            cfg.hash(token) in list' && list'[cfg.hash(token)] == cfg.claims(token).value.expiresAt * SECOND)
      && (cfg.claims(token).None? || now >= cfg.claims(token).value.expiresAt * SECOND ==> list' == list)
  {
  }

  // ----- concurrent calls -----

  /** Where a call of the introspection endpoint stands. */
  datatype Pc =
    | Passed(token: string)
    | Looked(token: string, entry: Option<nat>)
    | Overdue(token: string)
    | Unlisted(token: string)
    | Answered(token: string, active: bool)

  /** The list, the clock, and the calls by name; locks are taken for single map operations only. */
  datatype System = System(list: List, clock: nat, calls: map<nat, Pc>)

  datatype Action =
    | Begin(id: nat, token: string, now: nat)
    | Lookup(id: nat)
    | CheckEntry(id: nat, now: nat)
    | Delete(id: nat)
    | Finish(id: nat, now: nat)
    | Insert(token: string, read: nat, now: nat)

  predicate Enabled(sys: System, a: Action) {
    match a
    case Begin(id, _, now) => id !in sys.calls && sys.clock <= now
    case Lookup(id) => id in sys.calls && sys.calls[id].Passed?
    case CheckEntry(id, now) => id in sys.calls && sys.calls[id].Looked? && sys.clock <= now
    case Delete(id) => id in sys.calls && sys.calls[id].Overdue?
    case Finish(id, now) => id in sys.calls && sys.calls[id].Unlisted? && sys.clock <= now
    case Insert(_, read, now) => read <= now && sys.clock <= now
  }

  function Entry(cfg: Config, list: List, token: string): Option<nat> {
    if cfg.hash(token) in list then Some(list[cfg.hash(token)]) else None
  }

  function AfterCheck(token: string, entry: Option<nat>, now: nat): Pc {
    match entry
    case None => Unlisted(token)
    case Some(e) => if now > e then Overdue(token) else Answered(token, false)
  }

  function AfterFinish(cfg: Config, token: string, now: nat): Pc {
    Answered(token, cfg.claims(token).Some? && Unix(now) <= cfg.claims(token).value.expiresAt)
  }

  function Step(cfg: Config, sys: System, a: Action): System
    requires Enabled(sys, a)
  {
    match a
    case Begin(id, token, now) =>
      sys.(clock := now,
           calls := sys.calls[id := if Verified(cfg, token, now) then Passed(token) else Answered(token, false)])
    case Lookup(id) =>
      sys.(calls := sys.calls[id := Looked(sys.calls[id].token, Entry(cfg, sys.list, sys.calls[id].token))])
    case CheckEntry(id, now) =>
      sys.(clock := now, calls := sys.calls[id := AfterCheck(sys.calls[id].token, sys.calls[id].entry, now)])
    case Delete(id) =>
      sys.(list := sys.list - {cfg.hash(sys.calls[id].token)}, calls := sys.calls[id := Unlisted(sys.calls[id].token)])
    case Finish(id, now) =>
      sys.(clock := now, calls := sys.calls[id := AfterFinish(cfg, sys.calls[id].token, now)])
    case Insert(token, read, now) =>
      sys.(clock := now, list := Revoked(cfg, sys.list, token, read))
  }

  predicate Reaches(cfg: Config, sys: System, actions: seq<Action>)
    decreases |actions|
  {
    |actions| == 0 || (Enabled(sys, actions[0]) && Reaches(cfg, Step(cfg, sys, actions[0]), actions[1..]))
  }

  function Run(cfg: Config, sys: System, actions: seq<Action>): System
    requires Reaches(cfg, sys, actions)
    decreases |actions|
  {
    if |actions| == 0 then sys else Run(cfg, Step(cfg, sys, actions[0]), actions[1..])
  }

  // ----- once revoked, never active again -----

  /** The call or request names no other token with the hash of `token`. */
  predicate OwnHash(cfg: Config, a: Action, token: string) {
    (a.Begin? || a.Insert?) && cfg.hash(a.token) == cfg.hash(token) ==> a.token == token
  }

  /** Strictly between the expiry instant and the next whole second. */
  predicate InLastSecond(c: Claims, now: nat) {
    c.expiresAt * SECOND < now < (c.expiresAt + 1) * SECOND
  }

  predicate WholeSecond(a: Action) {
    a.Finish? ==> a.now % SECOND == 0
  }

  /** Entries and calls about `token`, whether or not it has been revoked; e is its expiry. */
  predicate CallConsistent(cfg: Config, pc: Pc, token: string, e: nat, clock: nat) {
    && (cfg.hash(pc.token) == cfg.hash(token) ==> pc.token == token)
    && (pc.token == token ==>
          match pc
          case Looked(_, entry) => entry.Some? ==> entry.value == e
          case Overdue(_) => clock > e
          case _ => true)
  }

  predicate Consistent(cfg: Config, sys: System, token: string, e: nat) {
    && (cfg.hash(token) in sys.list ==> sys.list[cfg.hash(token)] == e)
    && forall id :: id in sys.calls ==> CallConsistent(cfg, sys.calls[id], token, e, sys.clock)
  }

  /** What a call that began after the revocation can know. */
  predicate Informed(pc: Pc, e: nat, clock: nat) {
    match pc
    case Looked(_, entry) => entry.None? ==> clock > e
    case Unlisted(_) => clock > e
    case _ => true
  }

  /** `token` was revoked, and `older` are the calls that began before. */
  predicate Since(cfg: Config, sys: System, token: string, e: nat, older: set<nat>) {
    && Consistent(cfg, sys, token, e)
    && ((cfg.hash(token) in sys.list) || sys.clock > e)
    && forall id :: id in sys.calls && id !in older && sys.calls[id].token == token ==>
         Informed(sys.calls[id], e, sys.clock)
  }

  lemma StepConsistent(cfg: Config, sys: System, a: Action, token: string, c: Claims)
    requires cfg.claims(token) == Some(c) && Enabled(sys, a) && OwnHash(cfg, a, token)
    requires Consistent(cfg, sys, token, Expiry(c))
    ensures Consistent(cfg, Step(cfg, sys, a), token, Expiry(c))
    ensures sys.clock <= Step(cfg, sys, a).clock
  {}

  lemma StepSince(cfg: Config, sys: System, a: Action, token: string, c: Claims, older: set<nat>)
    requires cfg.claims(token) == Some(c) && Enabled(sys, a) && OwnHash(cfg, a, token)
    requires Since(cfg, sys, token, Expiry(c), older)
    ensures Since(cfg, Step(cfg, sys, a), token, Expiry(c), older)
  {
    StepConsistent(cfg, sys, a, token, c);
  }

  predicate NoneActive(sys: System, token: string, older: set<nat>) {
    forall id :: id in sys.calls && id !in older && sys.calls[id].token == token && sys.calls[id].Answered? ==>
      !sys.calls[id].active
  }

  /** The step of a call that began after the revocation. */
  lemma LateFinish(cfg: Config, sys: System, a: Action, token: string, c: Claims, older: set<nat>)
    requires cfg.claims(token) == Some(c) && Since(cfg, sys, token, Expiry(c), older)
    requires a.Finish? && Enabled(sys, a) && a.id !in older && sys.calls[a.id].token == token
    ensures Step(cfg, sys, a).calls[a.id] == Answered(token, InLastSecond(c, a.now))
  {
    UnixWindow(a.now, c.expiresAt);
  }

  /** This step is the last one of a call about `token` that began after the revocation, with a clock
      reading inside the last second. */
  predicate FinishesInLastSecond(sys: System, a: Action, token: string, c: Claims, older: set<nat>)
    requires Enabled(sys, a)
  {
    a.Finish? && a.id !in older && sys.calls[a.id].token == token && InLastSecond(c, a.now)
  }

  lemma StepNoneActive(cfg: Config, sys: System, a: Action, token: string, c: Claims, older: set<nat>)
    requires cfg.claims(token) == Some(c) && Enabled(sys, a) && OwnHash(cfg, a, token)
    requires Since(cfg, sys, token, Expiry(c), older)
    ensures NoneActive(Step(cfg, sys, a), token, older)
       <==> NoneActive(sys, token, older) && !FinishesInLastSecond(sys, a, token, c, older)
  {
    if a.Finish? && a.id !in older && sys.calls[a.id].token == token {
      LateFinish(cfg, sys, a, token, c, older);
    }
    StepKeepsAnswers(cfg, sys, a);
  }

  /** Calls other than the one that steps stay as they are, and no answer is taken back. */
  lemma StepKeepsAnswers(cfg: Config, sys: System, a: Action)
    requires Enabled(sys, a)
    ensures var calls := Step(cfg, sys, a).calls;
      forall id :: id in sys.calls && sys.calls[id].Answered? ==> id in calls && calls[id] == sys.calls[id]
  {
  }

  lemma {:induction false} RunConsistent(cfg: Config, sys: System, actions: seq<Action>, token: string, c: Claims)
    requires cfg.claims(token) == Some(c) && Reaches(cfg, sys, actions)
    requires forall i :: 0 <= i < |actions| ==> OwnHash(cfg, actions[i], token)
    requires Consistent(cfg, sys, token, Expiry(c))
    ensures Consistent(cfg, Run(cfg, sys, actions), token, Expiry(c))
    decreases |actions|
  {
    hide Step, OwnHash, Consistent;
    if |actions| > 0 {
      StepConsistent(cfg, sys, actions[0], token, c);
      RunConsistent(cfg, Step(cfg, sys, actions[0]), actions[1..], token, c);
    }
  }

  /** Some step of the run finishes a late call about `token` inside the last second. */
  predicate SomeFinishInLastSecond(cfg: Config, sys: System, actions: seq<Action>, token: string, c: Claims,
                                   older: set<nat>)
    requires Reaches(cfg, sys, actions)
    decreases |actions|
  {
    |actions| > 0 &&
    (FinishesInLastSecond(sys, actions[0], token, c, older)
     || SomeFinishInLastSecond(cfg, Step(cfg, sys, actions[0]), actions[1..], token, c, older))
  }

  lemma {:induction false} RunNoneActive(cfg: Config, sys: System, actions: seq<Action>, token: string, c: Claims,
                                         older: set<nat>)
    requires cfg.claims(token) == Some(c) && Reaches(cfg, sys, actions)
    requires forall i :: 0 <= i < |actions| ==> OwnHash(cfg, actions[i], token)
    requires Since(cfg, sys, token, Expiry(c), older)
    ensures NoneActive(Run(cfg, sys, actions), token, older)
       <==> NoneActive(sys, token, older) && !SomeFinishInLastSecond(cfg, sys, actions, token, c, older)
    decreases |actions|
  {
    hide Step, OwnHash, Since, NoneActive, FinishesInLastSecond;
    if |actions| > 0 {
      StepSince(cfg, sys, actions[0], token, c, older);
      StepNoneActive(cfg, sys, actions[0], token, c, older);
      RunNoneActive(cfg, Step(cfg, sys, actions[0]), actions[1..], token, c, older);
    }
  }

  lemma {:induction false} NoFinishInLastSecond(cfg: Config, sys: System, actions: seq<Action>, token: string,
                                                c: Claims,
                                                older: set<nat>)
    requires Reaches(cfg, sys, actions)
    requires forall i :: 0 <= i < |actions| && actions[i].Finish? ==> !InLastSecond(c, actions[i].now)
    ensures !SomeFinishInLastSecond(cfg, sys, actions, token, c, older)
    decreases |actions|
  {
    hide Step;
    if |actions| > 0 {
      NoFinishInLastSecond(cfg, Step(cfg, sys, actions[0]), actions[1..], token, c, older);
    }
  }

  function Start(): System {
    System(map[], 0, map[])
  }

  /** A run in which `token`, not yet expired at `read`, is put on the list after `pre`. */
  predicate RevokedRun(cfg: Config, token: string, c: Claims, pre: seq<Action>, read: nat, now: nat,
                       post: seq<Action>) {
    && cfg.claims(token) == Some(c) && read < Expiry(c)
    && Reaches(cfg, Start(), pre) && Enabled(Run(cfg, Start(), pre), Insert(token, read, now))
    && Reaches(cfg, Listing(cfg, token, pre, read, now), post)
    && (forall i :: 0 <= i < |pre| ==> OwnHash(cfg, pre[i], token))
    && (forall i :: 0 <= i < |post| ==> OwnHash(cfg, post[i], token))
  }

  /** The state once the token is listed. */
  function Listing(cfg: Config, token: string, pre: seq<Action>, read: nat, now: nat): System
    requires Reaches(cfg, Start(), pre) && Enabled(Run(cfg, Start(), pre), Insert(token, read, now))
  {
    Step(cfg, Run(cfg, Start(), pre), Insert(token, read, now))
  }

  /** In any interleaving of calls, revocations and lazy deletions, and whatever the clock shows: a call
      that began after the revocation has reported the token active if and only if some such call took
      its last clock reading strictly between the expiry instant and the next whole second. */
  lemma ActiveOnlyInLastSecond(cfg: Config, token: string, c: Claims, pre: seq<Action>, read: nat, now: nat,
                               post: seq<Action>)
    requires RevokedRun(cfg, token, c, pre, read, now, post)
    ensures var listed, older := Listing(cfg, token, pre, read, now), Run(cfg, Start(), pre).calls.Keys;
      NoneActive(Run(cfg, listed, post), token, older) <==> !SomeFinishInLastSecond(cfg, listed, post, token, c, older)
  {
    hide OwnHash, Run, Reaches, SomeFinishInLastSecond;
    RunConsistent(cfg, Start(), pre, token, c);
    var older := Run(cfg, Start(), pre).calls.Keys;
    var listed := Listing(cfg, token, pre, read, now);
    assert Since(cfg, listed, token, Expiry(c), older);
    RunNoneActive(cfg, listed, post, token, c, older);
  }

  /** Once an access token is on the list, no call that begins later reports it active, provided no
      introspection takes its last reading inside the last second. */
  lemma RevokedForGood(cfg: Config, token: string, c: Claims, pre: seq<Action>, read: nat, now: nat, post: seq<Action>)
    requires RevokedRun(cfg, token, c, pre, read, now, post)
    requires forall i :: 0 <= i < |post| && post[i].Finish? ==> !InLastSecond(c, post[i].now)
    ensures NoneActive(Run(cfg, Listing(cfg, token, pre, read, now), post), token, Run(cfg, Start(), pre).calls.Keys)
  {
    hide OwnHash, Run, Reaches, SomeFinishInLastSecond, NoneActive, Listing;
    ActiveOnlyInLastSecond(cfg, token, c, pre, read, now, post);
    NoFinishInLastSecond(cfg, Listing(cfg, token, pre, read, now), post, token, c, Run(cfg, Start(), pre).calls.Keys);
  }

  /** In particular, never when those readings are whole seconds. */
  lemma RevokedForGoodWholeSeconds(cfg: Config, token: string, c: Claims, pre: seq<Action>, read: nat, now: nat,
                                   post: seq<Action>)
    requires RevokedRun(cfg, token, c, pre, read, now, post)
    requires forall i :: 0 <= i < |post| ==> WholeSecond(post[i])
    ensures NoneActive(Run(cfg, Listing(cfg, token, pre, read, now), post), token, Run(cfg, Start(), pre).calls.Keys)
  {
    hide RevokedRun, NoneActive, Listing;
    forall i | 0 <= i < |post| && post[i].Finish? ensures !InLastSecond(c, post[i].now) {
      WholeSeconds(post[i].now, post[i].now, c.expiresAt);
    }
    RevokedForGood(cfg, token, c, pre, read, now, post);
  }

  /** With finer readings it does happen: a token that expires at second 1 and was revoked at
      second 0 is reported active half a second after its expiry. */
  lemma SubSecondCounterexample(cfg: Config, token: string)
    requires cfg.signed(token) && cfg.claims(token).Some? && cfg.claims(token).value.expiresAt == 1
    ensures var list := Revoked(cfg, map[], token, 0);
            var t := SECOND + SECOND / 2;
            Listed(cfg, list, token, 0) && Introspected(cfg, list, token, t, t, t).1
  {
    var t := SECOND + SECOND / 2;
    RevokedButActive(cfg, Revoked(cfg, map[], token, 0), token, 0, t, t, t);
  }

  // ----- never revoked, never refused by the list -----

  /** No entry for the hash, and no call that saw one. */
  predicate NeverListed(cfg: Config, sys: System, hash: string) {
    && hash !in sys.list
    && forall id :: id in sys.calls && cfg.hash(sys.calls[id].token) == hash ==>
         !(sys.calls[id].Looked? && sys.calls[id].entry.Some?) && !sys.calls[id].Overdue?
  }

  lemma StepNeverListed(cfg: Config, sys: System, a: Action, hash: string)
    requires Enabled(sys, a) && NeverListed(cfg, sys, hash) && (a.Insert? ==> cfg.hash(a.token) != hash)
    ensures NeverListed(cfg, Step(cfg, sys, a), hash)
  {
  }

  lemma {:induction false} RunNeverListed(cfg: Config, sys: System, actions: seq<Action>, hash: string)
    requires Reaches(cfg, sys, actions) && NeverListed(cfg, sys, hash)
    requires forall i :: 0 <= i < |actions| && actions[i].Insert? ==> cfg.hash(actions[i].token) != hash
    ensures NeverListed(cfg, Run(cfg, sys, actions), hash)
    decreases |actions|
  {
    hide Step, NeverListed;
    if |actions| > 0 {
      StepNeverListed(cfg, sys, actions[0], hash);
      RunNeverListed(cfg, Step(cfg, sys, actions[0]), actions[1..], hash);
    }
  }

  /** Signed, and before the end of the second in which it expires. */
  predicate Usable(cfg: Config, token: string, now: nat) {
    cfg.signed(token) && cfg.claims(token).Some? && now < (cfg.claims(token).value.expiresAt + 1) * SECOND
  }

  /** In every interleaving in which a token's hash is never revoked, each call about it answers by signature
      and clock alone: it passes the first check exactly when signed and unexpired, is never stopped by
      the list, and answers active exactly when still unexpired. */
  lemma UnrevokedAnsweredByClock(cfg: Config, actions: seq<Action>, a: Action, token: string)
    requires Reaches(cfg, Start(), actions) && Enabled(Run(cfg, Start(), actions), a)
    requires forall i :: 0 <= i < |actions| && actions[i].Insert? ==> cfg.hash(actions[i].token) != cfg.hash(token)
    ensures a.Begin? && a.token == token ==>
      Step(cfg, Run(cfg, Start(), actions), a).calls[a.id]
        == if Usable(cfg, token, a.now) then Passed(token) else Answered(token, false)
    ensures a.CheckEntry? && Run(cfg, Start(), actions).calls[a.id].token == token ==>
      Step(cfg, Run(cfg, Start(), actions), a).calls[a.id] == Unlisted(token)
    ensures a.Finish? && Run(cfg, Start(), actions).calls[a.id].token == token && cfg.claims(token).Some? ==>
      Step(cfg, Run(cfg, Start(), actions), a).calls[a.id]
        == Answered(token, a.now < (cfg.claims(token).value.expiresAt + 1) * SECOND)
  {
    RunNeverListed(cfg, Start(), actions, cfg.hash(token));
    hide Run, Reaches, Unix;
    if (a.Begin? || a.Finish?) && cfg.claims(token).Some? {
      UnixWindow(a.now, cfg.claims(token).value.expiresAt);
    }
  }
}
