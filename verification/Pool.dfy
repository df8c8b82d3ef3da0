/** The connection pool of crates/keystone/sdk-go/pool.go. Every critical section under
    the pool's mutex is one atomic step; dialing happens between two steps, outside the lock. */
module Pool {

  import opened Wrappers

  /** A connection is named by the order in which it was dialed. */
  type Conn = nat

  datatype State = State(maxOpen: int, idle: seq<Conn>, numOpen: int, closed: bool)

  /** How one pass of Acquire's loop ends. */
  datatype Outcome = PoolClosed | ContextDone | Got(conn: Conn) | Dialing | Waiting

  /** Pops idle connections from the back until one is not broken. The results are the
      connections left, those popped and closed, and the one found. */
  function Drained(idle: seq<Conn>, broken: set<Conn>): (r: (seq<Conn>, seq<Conn>, Option<Conn>))
    ensures |r.0| + |r.1| + (if r.2.Some? then 1 else 0) == |idle|
    ensures r.2.None? ==> r.0 == []
  {
    if |idle| == 0 then ([], [], None)
    else
      var c, rest := idle[|idle| - 1], idle[..|idle| - 1];
      if c in broken then
        var (left, dropped, got) := Drained(rest, broken);
        (left, dropped + [c], got)
      else (rest, [], Some(c))
  }

  function AcquireSection(s: State, ctxDone: bool, broken: set<Conn>): (State, Outcome) {
    if s.closed then (s, PoolClosed)
    else if ctxDone then (s, ContextDone)
    else
      var (left, dropped, got) := Drained(s.idle, broken);
      var s' := s.(idle := left, numOpen := s.numOpen - |dropped|);
      if got.Some? then (s', Got(got.value))
      else if s'.numOpen < s'.maxOpen then (s'.(numOpen := s'.numOpen + 1), Dialing)
      else (s', Waiting)
  }

  function DialFailedSection(s: State): State {
    s.(numOpen := s.numOpen - 1)
  }

  function ReleaseSection(s: State, c: Conn, broken: set<Conn>): State {
    if s.closed || c in broken then s.(numOpen := s.numOpen - 1)
    else s.(idle := s.idle + [c])
  }

  function CloseSection(s: State): State {
    if s.closed then s else s.(closed := true, idle := [])
  }

  /** The configuration NewPool settles on. */
  function EffectiveMaxOpen(maxOpen: int): int {
    if maxOpen <= 0 then 1 else maxOpen
  }

  /** How many connections NewPool opens eagerly. */
  function EffectiveMinIdle(minIdle: int, maxOpen: int): nat {
    if minIdle < 0 then 0
    else if minIdle > EffectiveMaxOpen(maxOpen) then EffectiveMaxOpen(maxOpen)
    else minIdle
  }

  // ----- the object -----

  class ConnPool {
    var maxOpen: int
    var idle: seq<Conn>
    var numOpen: int
    var closed: bool

    ghost function View(): State
      reads this
    {
      State(maxOpen, idle, numOpen, closed)
    }

    constructor (maxOpen: int, warm: seq<Conn>)
      ensures View() == State(maxOpen, warm, |warm|, false)
    {
      this.maxOpen, this.idle, this.numOpen, this.closed := maxOpen, warm, |warm|, false;
    }

    /** pool.go:69-91; `dials` is what each eager Connect yields. */
    static method NewPool(minIdle: int, maxOpen: int, dials: seq<Option<Conn>>) returns (p: Option<ConnPool>)
      requires EffectiveMinIdle(minIdle, maxOpen) <= |dials|
      ensures p.None? <==> exists i :: 0 <= i < EffectiveMinIdle(minIdle, maxOpen) && dials[i] == None
      ensures p.Some? ==> fresh(p.value)
      ensures p.Some? ==> p.value.View() == State(EffectiveMaxOpen(maxOpen), p.value.idle, |p.value.idle|, false)
      ensures p.Some? ==> |p.value.idle| == EffectiveMinIdle(minIdle, maxOpen)
      ensures p.Some? ==> forall i :: 0 <= i < |p.value.idle| ==> dials[i] == Some(p.value.idle[i])
    {
      var limit := if maxOpen <= 0 then 1 else maxOpen;
      var wanted := if minIdle > limit then limit else minIdle;
      var warm: seq<Conn> := [];
      var i := 0;
      while i < wanted
        invariant 0 <= i && |warm| == i && (0 <= wanted ==> i <= wanted) && (wanted < 0 ==> i == 0)
        invariant forall k :: 0 <= k < i ==> dials[k] == Some(warm[k])
      {
        if dials[i].None? {
          return None;
        }
        warm := warm + [dials[i].value];
        i := i + 1;
      }
      var pool := new ConnPool(limit, warm);
      p := Some(pool);
    }

    /** pool.go:125-161, one pass of the loop up to unlocking or waiting. */
    method Acquire(ctxDone: bool, broken: set<Conn>) returns (outcome: Outcome)
      modifies this
      ensures (View(), outcome) == AcquireSection(old(View()), ctxDone, broken)
    {
      if closed {
        return PoolClosed;
      }
      if ctxDone {
        return ContextDone;
      }
      while |idle| > 0
        invariant !closed && maxOpen == old(maxOpen)
        invariant Drained(old(idle), broken).0 == Drained(idle, broken).0
        invariant Drained(old(idle), broken).2 == Drained(idle, broken).2
        invariant numOpen - |idle| == old(numOpen) - |old(idle)|
      {
        var c := idle[|idle| - 1];
        idle := idle[..|idle| - 1];
        if c in broken {
          numOpen := numOpen - 1;
        } else {
          return Got(c);
        }
      }
      if numOpen < maxOpen {
        numOpen := numOpen + 1;
        return Dialing;
      }
      return Waiting;
    }

    /** pool.go:152-154 */
    method DialFailed()
      modifies this
      ensures View() == DialFailedSection(old(View()))
    {
      numOpen := numOpen - 1;
    }

    /** pool.go:167-178 */
    method Release(c: Conn, broken: set<Conn>)
      modifies this
      ensures View() == ReleaseSection(old(View()), c, broken)
    {
      if closed || c in broken {
        numOpen := numOpen - 1;
        return;
      }
      idle := idle + [c];
    }

    /** pool.go:183-199 */
    method Close()
      modifies this
      ensures View() == CloseSection(old(View()))
    {
      if closed {
        return;
      }
      closed := true;
      idle := [];
    }
  }

  // ----- the pool and its callers -----

  /** `held` are the connections callers have, `dialing` the dials under way, `forsaken` the
      slots of connections that Close found idle, `next` the name of the next connection and
      `sockets` the connections opened and not yet closed by the pool. */
  datatype System = System(
    pool: State, held: multiset<Conn>, dialing: int, forsaken: int, next: Conn, sockets: set<Conn>)

  datatype Action =
    | DoAcquire(ctxDone: bool, broken: set<Conn>)
    | DialOk
    | DialFail
    | DoRelease(conn: Conn, broken: set<Conn>)
    | DoClose

  function Step(sys: System, a: Action): System {
    match a
    case DoAcquire(ctxDone, broken) =>
      var (pool, outcome) := AcquireSection(sys.pool, ctxDone, broken);
      var dropped := if sys.pool.closed || ctxDone then [] else Drained(sys.pool.idle, broken).1;
      sys.(pool := pool,
           held := if outcome.Got? then sys.held + multiset{outcome.conn} else sys.held,
           dialing := if outcome.Dialing? then sys.dialing + 1 else sys.dialing,
           sockets := sys.sockets - set c | c in dropped)
    case DialOk =>
      sys.(held := sys.held + multiset{sys.next}, dialing := sys.dialing - 1, next := sys.next + 1,
           sockets := sys.sockets + {sys.next})
    case DialFail =>
      sys.(pool := DialFailedSection(sys.pool), dialing := sys.dialing - 1)
    case DoRelease(c, broken) =>
      sys.(pool := ReleaseSection(sys.pool, c, broken), held := sys.held - multiset{c},
           sockets := if sys.pool.closed || c in broken then sys.sockets - {c} else sys.sockets)
    case DoClose =>
      sys.(pool := CloseSection(sys.pool),
           forsaken := if sys.pool.closed then sys.forsaken else sys.forsaken + |sys.pool.idle|,
           sockets := sys.sockets - set c | c in sys.pool.idle)
  }

  /** Dials finish only if under way, and callers release only what they hold, once. */
  predicate Enabled(sys: System, a: Action) {
    match a
    case DialOk => sys.dialing > 0
    case DialFail => sys.dialing > 0
    case DoRelease(c, _) => c in sys.held
    case _ => true
  }

  function Warm(n: nat): (w: seq<Conn>)
    ensures |w| == n
  {
    if n == 0 then [] else Warm(n - 1) + [n - 1]
  }

  function Start(minIdle: nat, maxOpen: int): System {
    var warm := Warm(minIdle);
    System(State(maxOpen, warm, minIdle, false), multiset{}, 0, 0, minIdle, set c | c in warm)
  }

  predicate Reaches(sys: System, actions: seq<Action>)
    decreases |actions|
  {
    |actions| == 0 || (Enabled(sys, actions[0]) && Reaches(Step(sys, actions[0]), actions[1..]))
  }

  function Run(sys: System, actions: seq<Action>): System
    decreases |actions|
  {
    if |actions| == 0 then sys else Run(Step(sys, actions[0]), actions[1..])
  }

  // ----- the invariant -----

  /** Idle and held connections together, each counted as often as it occurs. */
  function Owned(sys: System): multiset<Conn> {
    multiset(sys.pool.idle) + sys.held
  }

  /** The slot count accounts for every connection, dial and forsaken slot. */
  predicate Balanced(sys: System) {
    && sys.pool.numOpen == |sys.pool.idle| + |sys.held| + sys.dialing + sys.forsaken
    && sys.pool.numOpen <= sys.pool.maxOpen
    && sys.dialing >= 0 && sys.forsaken >= 0
    && (!sys.pool.closed ==> sys.forsaken == 0)
    && (sys.pool.closed ==> sys.pool.idle == [])
  }

  /** Every open connection is idle or held, in one place only. */
  ghost predicate Exclusive(owned: multiset<Conn>, next: Conn, sockets: set<Conn>) {
    && (forall c :: owned[c] <= 1)
    && (forall c :: c in owned ==> c < next)
    && (forall c :: c in sockets <==> c in owned)
  }

  ghost predicate Invariant(sys: System) {
    Balanced(sys) && Exclusive(Owned(sys), sys.next, sys.sockets)
  }

  function Maybe(c: Option<Conn>): multiset<Conn> {
    if c.Some? then multiset{c.value} else multiset{}
  }

  lemma {:induction false} DrainedOwned(idle: seq<Conn>, broken: set<Conn>)
    ensures var (left, dropped, got) := Drained(idle, broken);
            && multiset(left) + multiset(dropped) + Maybe(got) == multiset(idle)
            && (got.Some? ==> got.value !in broken)
    decreases |idle|
  {
    if |idle| > 0 {
      var c, rest := idle[|idle| - 1], idle[..|idle| - 1];
      assert idle == rest + [c];
      DrainedOwned(rest, broken);
    }
  }

  /** Connections that leave the books are closed; the others stay exclusive. */
  lemma Leave(owned: multiset<Conn>, next: Conn, sockets: set<Conn>, stays: multiset<Conn>, leaves: multiset<Conn>,
              closed: set<Conn>)
    requires Exclusive(owned, next, sockets) && owned == stays + leaves
    requires forall c :: c in closed <==> c in leaves
    ensures Exclusive(stays, next, sockets - closed)
  {
    assert forall c :: owned[c] == stays[c] + leaves[c];
  }

  lemma AcquireOwned(sys: System, broken: set<Conn>)
    requires !sys.pool.closed
    ensures var sys' := Step(sys, DoAcquire(false, broken));
            var dropped := Drained(sys.pool.idle, broken).1;
            && Owned(sys) == Owned(sys') + multiset(dropped)
            && |sys'.held| == |sys.held| + |Maybe(Drained(sys.pool.idle, broken).2)|
  {
    var sys' := Step(sys, DoAcquire(false, broken));
    var (left, dropped, got) := Drained(sys.pool.idle, broken);
    DrainedOwned(sys.pool.idle, broken);
    hide Drained;
    assert sys'.held == sys.held + Maybe(got);
  }

  lemma AcquireBalanced(sys: System, ctxDone: bool, broken: set<Conn>)
    requires Balanced(sys)
    ensures Balanced(Step(sys, DoAcquire(ctxDone, broken)))
  {
    hide Drained, Owned;
    if !sys.pool.closed && !ctxDone {
      AcquireOwned(sys, broken);
      DrainedLengths(sys.pool.idle, broken);
    }
  }

  lemma {:induction false} DrainedLengths(idle: seq<Conn>, broken: set<Conn>)
    ensures var (left, dropped, got) := Drained(idle, broken);
            |left| + |dropped| + |Maybe(got)| == |idle| && (got.None? ==> left == [])
    decreases |idle|
  {
    if |idle| > 0 {
      DrainedLengths(idle[..|idle| - 1], broken);
    }
  }

  lemma AcquireKeeps(sys: System, ctxDone: bool, broken: set<Conn>)
    requires Invariant(sys)
    ensures Invariant(Step(sys, DoAcquire(ctxDone, broken)))
  {
    hide Exclusive, Balanced, Drained;
    AcquireBalanced(sys, ctxDone, broken);
    var sys' := Step(sys, DoAcquire(ctxDone, broken));
    if !sys.pool.closed && !ctxDone {
      AcquireOwned(sys, broken);
      var dropped := Drained(sys.pool.idle, broken).1;
      hide Owned;
      assert forall c :: c in (set d | d in dropped) <==> c in multiset(dropped);
      Leave(Owned(sys), sys.next, sys.sockets, Owned(sys'), multiset(dropped), set d | d in dropped);
    } else {
      assert sys'.sockets == sys.sockets;
    }
  }

  lemma HeldMinusOne(idle: seq<Conn>, held: multiset<Conn>, c: Conn)
    requires c in held
    ensures multiset(idle) + held == multiset(idle) + (held - multiset{c}) + multiset{c}
    ensures multiset(idle) + held == multiset(idle + [c]) + (held - multiset{c})
    ensures |held - multiset{c}| == |held| - 1
  {}

  lemma ReleaseKeeps(sys: System, c: Conn, broken: set<Conn>)
    requires Invariant(sys) && c in sys.held
    ensures Invariant(Step(sys, DoRelease(c, broken)))
  {
    hide Exclusive;
    HeldMinusOne(sys.pool.idle, sys.held, c);
    if sys.pool.closed || c in broken {
      Leave(Owned(sys), sys.next, sys.sockets, multiset(sys.pool.idle) + (sys.held - multiset{c}), multiset{c}, {c});
    }
  }

  lemma DialOkKeeps(sys: System)
    requires Invariant(sys) && sys.dialing > 0
    ensures Invariant(Step(sys, DialOk))
  {
    var sys' := Step(sys, DialOk);
    assert sys.next !in Owned(sys);
    assert Owned(sys') == Owned(sys) + multiset{sys.next};
  }

  lemma CloseKeeps(sys: System)
    requires Invariant(sys)
    ensures Invariant(Step(sys, DoClose))
  {
    hide Exclusive;
    var sys' := Step(sys, DoClose);
    assert Owned(sys') == sys.held;
    assert forall c :: c in (set d | d in sys.pool.idle) <==> c in multiset(sys.pool.idle);
    Leave(Owned(sys), sys.next, sys.sockets, sys.held, multiset(sys.pool.idle), set d | d in sys.pool.idle);
  }

  lemma StepKeeps(sys: System, a: Action)
    requires Invariant(sys) && Enabled(sys, a)
    ensures Invariant(Step(sys, a))
  {
    match a
    case DoAcquire(ctxDone, broken) => AcquireKeeps(sys, ctxDone, broken);
    case DialOk => DialOkKeeps(sys);
    case DialFail => assert Owned(Step(sys, a)) == Owned(sys);
    case DoRelease(c, broken) => ReleaseKeeps(sys, c, broken);
    case DoClose => CloseKeeps(sys);
  }

  lemma StartValid(minIdle: nat, maxOpen: int)
    requires minIdle <= maxOpen
    ensures Invariant(Start(minIdle, maxOpen))
  {
    var warm := Start(minIdle, maxOpen).pool.idle;
    WarmDistinct(minIdle);
    assert forall c :: c in warm <==> c in multiset(warm);
    assert Owned(Start(minIdle, maxOpen)) == multiset(warm);
  }

  lemma {:induction false} WarmDistinct(n: nat)
    ensures forall c: Conn :: multiset(Warm(n))[c] <= 1
    ensures forall c: Conn :: c in multiset(Warm(n)) ==> c < n
  {
    if n > 0 {
      WarmDistinct(n - 1);
      var last: Conn := n - 1;
      assert Warm(n) == Warm(n - 1) + [last];
      assert multiset(Warm(n)) == multiset(Warm(n - 1)) + multiset{last};
    }
  }

  lemma {:induction false} RunKeeps(sys: System, actions: seq<Action>)
    requires Invariant(sys) && Reaches(sys, actions)
    ensures Invariant(Run(sys, actions))
    decreases |actions|
  {
    if |actions| > 0 {
      StepKeeps(sys, actions[0]);
      RunKeeps(Step(sys, actions[0]), actions[1..]);
    }
  }

  /** What a caller relies on. */
  ghost predicate Safe(sys: System) {
    && sys.pool.numOpen <= sys.pool.maxOpen
    && |sys.sockets| <= sys.pool.maxOpen
    && (forall c :: sys.held[c] <= 1)
    && (forall c :: c in sys.held ==> c !in sys.pool.idle)
    && (!sys.pool.closed ==> sys.pool.numOpen == |sys.pool.idle| + |sys.held| + sys.dialing)
  }

  lemma {:induction false} SetWithin(s: set<Conn>, m: multiset<Conn>)
    requires forall c :: c in s ==> c in m
    ensures |s| <= |m|
    decreases |s|
  {
    if s != {} {
      var c :| c in s;
      SetWithin(s - {c}, m[c := 0]);
      assert |m[c := 0]| == |m| - m[c];
    }
  }

  lemma InvariantIsSafe(sys: System)
    requires Invariant(sys)
    ensures Safe(sys)
  {
    SetWithin(sys.sockets, Owned(sys));
    assert |Owned(sys)| == |sys.pool.idle| + |sys.held|;
    forall c ensures sys.held[c] <= 1 && (c in sys.held ==> c !in sys.pool.idle) {
      assert Owned(sys)[c] <= 1;
      assert c in sys.pool.idle ==> c in multiset(sys.pool.idle);
    }
  }

  /** In every interleaving of pool steps in which callers release only what they hold, the
      pool never exceeds its limit and never hands one connection to two callers. */
  lemma EveryRunSafe(minIdle: int, maxOpen: int, actions: seq<Action>)
    requires Reaches(Start(EffectiveMinIdle(minIdle, maxOpen), EffectiveMaxOpen(maxOpen)), actions)
    ensures Safe(Run(Start(EffectiveMinIdle(minIdle, maxOpen), EffectiveMaxOpen(maxOpen)), actions))
  {
    var start := Start(EffectiveMinIdle(minIdle, maxOpen), EffectiveMaxOpen(maxOpen));
    StartValid(EffectiveMinIdle(minIdle, maxOpen), EffectiveMaxOpen(maxOpen));
    RunKeeps(start, actions);
    InvariantIsSafe(Run(start, actions));
  }

  // ----- the discipline is necessary -----

  /** Releasing keeps the books right exactly when the caller holds the connection. */
  lemma ReleaseKeepsIff(sys: System, c: Conn, broken: set<Conn>)
    requires Invariant(sys)
    ensures Invariant(Step(sys, DoRelease(c, broken))) <==> c in sys.held
  {
    if c in sys.held {
      ReleaseKeeps(sys, c, broken);
    } else {
      assert sys.held - multiset{c} == sys.held;
    }
  }

  lemma DrainedNone()
    ensures Drained([], {}) == ([], [], None)
  {
  }

  lemma DrainedLast(left: seq<Conn>, c: Conn)
    ensures Drained(left + [c], {}) == (left, [], Some(c))
  {
    var idle := left + [c];
    assert idle[|idle| - 1] == c && idle[..|idle| - 1] == left;
  }

  /** A new pool in which one connection has been dialed and handed out. */
  lemma FirstDial() returns (s: System)
    ensures s == Step(Step(Start(0, 2), DoAcquire(false, {})), DialOk)
    ensures s.pool == State(2, [], 1, false) && s.held == multiset{0}
  {
    DrainedNone();
    hide Drained;
    var dialing := Step(Start(0, 2), DoAcquire(false, {}));
    assert dialing.pool == State(2, [], 1, false) && dialing.held == multiset{} && dialing.next == 0;
    s := Step(dialing, DialOk);
  }

  lemma ReleasedAt(s: System, c: Conn)
    requires !s.pool.closed
    ensures Step(s, DoRelease(c, {})).pool == s.pool.(idle := s.pool.idle + [c])
    ensures Step(s, DoRelease(c, {})).held == s.held - multiset{c}
  {
  }

  lemma AcquiredLast(s: System, left: seq<Conn>, c: Conn)
    requires !s.pool.closed && s.pool.idle == left + [c]
    ensures Step(s, DoAcquire(false, {})).pool == s.pool.(idle := left)
    ensures Step(s, DoAcquire(false, {})).held == s.held + multiset{c}
  {
    DrainedLast(left, c);
    hide Drained;
  }

  /** Two callers get the same connection after it was released twice. */
  lemma DoubleReleaseSharesConnection()
    ensures var acquire := DoAcquire(false, {});
            var released := Step(Step(Step(Start(0, 2), acquire), DialOk), DoRelease(0, {}));
            Step(Step(Step(released, DoRelease(0, {})), acquire), acquire).held[0] == 2
  {
    hide Step, Start;
    var acquire, release := DoAcquire(false, {}), DoRelease(0, {});
    var s2 := FirstDial();
    var s3 := Step(s2, release);
    ReleasedAt(s2, 0);
    assert s3.held == multiset{};
    var s4 := Step(s3, release);
    ReleasedAt(s3, 0);
    assert s4.held == multiset{} && s4.pool.idle == [0] + [0];
    var s5 := Step(s4, acquire);
    AcquiredLast(s4, [0], 0);
    assert s5.pool.idle == [] + [0];
    AcquiredLast(s5, [], 0);
  }

  // ----- which way a pass of Acquire goes -----

  /** Position i holds the last idle connection that is not broken. */
  predicate LastUsable(idle: seq<Conn>, broken: set<Conn>, i: int) {
    && 0 <= i < |idle| && idle[i] !in broken
    && forall j :: i < j < |idle| ==> idle[j] in broken
  }

  predicate AllBroken(idle: seq<Conn>, broken: set<Conn>) {
    forall i :: 0 <= i < |idle| ==> idle[i] in broken
  }

  lemma {:induction false} DrainedFinds(idle: seq<Conn>, broken: set<Conn>) returns (i: int)
    ensures var (left, dropped, got) := Drained(idle, broken);
      if got.None? then i == -1 && AllBroken(idle, broken) && |dropped| == |idle|
      else LastUsable(idle, broken, i) && got == Some(idle[i]) && left == idle[..i] && |dropped| == |idle| - 1 - i
    decreases |idle|
  {
    i := -1;
    if |idle| > 0 {
      var n := |idle| - 1;
      if idle[n] in broken {
        i := DrainedFinds(idle[..n], broken);
      } else {
        i := n;
      }
    }
  }

  /** pool.go:125-161: a closed pool refuses, then a finished context does; otherwise the last idle connection that
      is not broken is handed out; without one, a connection is dialed exactly when the limit leaves a slot
      once the broken ones are gone, and the caller waits otherwise. */
  lemma AcquireOutcome(s: State, ctxDone: bool, broken: set<Conn>)
    ensures var (s', o) := AcquireSection(s, ctxDone, broken);
      && (o == PoolClosed <==> s.closed)
      && (o == ContextDone <==> !s.closed && ctxDone)
      && (s.closed || ctxDone ==> s' == s)
      && (!s.closed && !ctxDone ==>
            && (o == Dialing <==> AllBroken(s.idle, broken) && s.numOpen - |s.idle| < s.maxOpen)
            && (o == Waiting <==> AllBroken(s.idle, broken) && s.numOpen - |s.idle| >= s.maxOpen)
            && (AllBroken(s.idle, broken) ==>
                  s' == s.(idle := [], numOpen := s.numOpen - |s.idle| + if o == Dialing then 1 else 0))
            && (forall i :: LastUsable(s.idle, broken, i) ==>
                  o == Got(s.idle[i]) && s' == s.(idle := s.idle[..i], numOpen := s.numOpen - (|s.idle| - 1 - i))))
  {
    var i := DrainedFinds(s.idle, broken);
    hide Drained;
  }

  /** A healthy connection released to an open pool is the next one handed out. */
  lemma ReleasedIsReused(s: State, c: Conn, broken: set<Conn>, later: set<Conn>)
    requires !s.closed && c !in broken && c !in later
    ensures AcquireSection(ReleaseSection(s, c, broken), false, later) == (s, Got(c))
  {
    var s' := ReleaseSection(s, c, broken);
    assert LastUsable(s'.idle, later, |s.idle|);
    hide AcquireSection;
    AcquireOutcome(s', false, later);
    assert s'.idle[..|s.idle|] == s.idle;
  }

  /** A broken connection released to a pool at its limit makes room for a dial. */
  lemma ReleasedMakesRoom(s: State, c: Conn, broken: set<Conn>)
    requires !s.closed && c in broken && s.idle == [] && s.numOpen == s.maxOpen
    ensures AcquireSection(s, false, broken).1 == Waiting
    ensures AcquireSection(ReleaseSection(s, c, broken), false, broken).1 == Dialing
  {
    AcquireOutcome(s, false, broken);
    AcquireOutcome(ReleaseSection(s, c, broken), false, broken);
    hide AcquireSection;
  }

  /** The limit is at least one, and as configured when that is positive; never more are opened eagerly. */
  lemma EffectiveLimits(minIdle: int, maxOpen: int)
    ensures EffectiveMaxOpen(maxOpen) >= 1 && (maxOpen >= 1 ==> EffectiveMaxOpen(maxOpen) == maxOpen)
    ensures EffectiveMinIdle(minIdle, maxOpen) <= EffectiveMaxOpen(maxOpen)
    ensures 0 <= minIdle <= EffectiveMaxOpen(maxOpen) ==> EffectiveMinIdle(minIdle, maxOpen) == minIdle
    ensures minIdle < 0 ==> EffectiveMinIdle(minIdle, maxOpen) == 0
    ensures minIdle > EffectiveMaxOpen(maxOpen) ==> EffectiveMinIdle(minIdle, maxOpen) == EffectiveMaxOpen(maxOpen)
  {
  }

  // ----- after Close -----

  /** A closed pool stays closed, hands out nothing and keeps nothing idle. */
  lemma {:induction false} ClosedForGood(sys: System, actions: seq<Action>)
    requires Invariant(sys) && sys.pool.closed && Reaches(sys, actions)
    ensures Run(sys, actions).pool.closed && Run(sys, actions).pool.idle == []
    ensures forall ctxDone, broken :: AcquireSection(Run(sys, actions).pool, ctxDone, broken).1 == PoolClosed
    decreases |actions|
  {
    if |actions| > 0 {
      StepKeeps(sys, actions[0]);
      StaysClosed(sys, actions[0]);
      hide Step, Invariant;
      ClosedForGood(Step(sys, actions[0]), actions[1..]);
    }
  }

  lemma StaysClosed(sys: System, a: Action)
    requires sys.pool.closed
    ensures Step(sys, a).pool.closed
  {
  }

  /** Close takes effect, and once the last caller has released, no connection is left open. */
  lemma ClosedLeaksNothing(sys: System)
    requires Invariant(sys)
    ensures Step(sys, DoClose).pool.closed
    ensures sys.pool.closed && sys.held == multiset{} ==> sys.sockets == {}
  {
    if sys.pool.closed && sys.held == multiset{} {
      assert Owned(sys) == multiset{};
    }
  }
}
