/** Queries and their responses on one connection: the Go client's cursor
    (crates/keystone/sdk-go/rows.go, conn.go) and the Rust client's query loop
    (crates/keystone/tpt-keystone-harbor/src/pgwire.rs). */
module PgSession {

  import opened Wrappers
  import opened Bytes
  import opened PgWire

  // ----- responses -----

  /** The index of the first message that satisfies `p`, or |ms|. */
  function FirstIndex(ms: seq<Message>, p: Message -> bool): (i: nat)
    ensures i <= |ms| && (i < |ms| ==> p(ms[i]))
  {
    if |ms| == 0 || p(ms[0]) then 0 else 1 + FirstIndex(ms[1..], p)
  }

  lemma {:induction false} FirstIndexIs(ms: seq<Message>, p: Message -> bool, i: nat)
    requires i <= |ms| && (i < |ms| ==> p(ms[i])) && forall j :: 0 <= j < i ==> !p(ms[j])
    ensures FirstIndex(ms, p) == i
  {
    if i > 0 {
      FirstIndexIs(ms[1..], p, i - 1);
    }
  }

  /** The index of the last message that satisfies `p`, or -1. */
  function LastIndex(ms: seq<Message>, p: Message -> bool): (i: int)
    ensures -1 <= i < |ms| && (i >= 0 ==> p(ms[i]))
  {
    if |ms| == 0 then -1 else if p(ms[|ms| - 1]) then |ms| - 1 else LastIndex(ms[..|ms| - 1], p)
  }

  lemma {:induction false} LastIndexIs(ms: seq<Message>, p: Message -> bool, i: int)
    requires -1 <= i < |ms| && (i >= 0 ==> p(ms[i])) && forall j :: i < j < |ms| ==> !p(ms[j])
    ensures LastIndex(ms, p) == i
    decreases |ms|
  {
    if i < |ms| - 1 {
      LastIndexIs(ms[..|ms| - 1], p, i);
    }
  }

  /** A server response: it ends in its only ReadyForQuery. */
  predicate Response(ms: seq<Message>) {
    && |ms| > 0 && ms[|ms| - 1].Ready?
    && forall i :: 0 <= i < |ms| - 1 ==> !ms[i].Ready?
  }

  /** The cells of the data rows, in order. */
  function Rows(ms: seq<Message>): seq<seq<Cell>> {
    if |ms| == 0 then [] else (if ms[0].Row? then [ms[0].cells] else []) + Rows(ms[1..])
  }

  /** The tag of the last command completion, or `tag`. */
  function LastTag(ms: seq<Message>, tag: Text): Text {
    if |ms| == 0 then tag else LastTag(ms[1..], if ms[0].Complete? then ms[0].tag else tag)
  }

  function UpTo<T>(s: seq<T>, n: nat): seq<T> {
    if n <= |s| then s[..n] else s
  }

  // ----- the connection -----

  datatype Failure = Lost | Server(text: Text)

  /** The bytes still to come, or a connection no longer usable. */
  datatype Link = Link(pending: seq<byte>, broken: bool)

  const BROKEN := Link([], true)

  function Received(c: Client, l: Link): (r: (Option<Message>, Link))
    ensures r.0.Some? ==> !l.broken && !r.1.broken && |r.1.pending| < |l.pending|
  {
    if l.broken then (None, l)
    else
      match Take(c, l.pending)
      case None => (None, BROKEN)
      case Some((m, rest)) => (Some(m), Link(rest, false))
  }

  function Drained(c: Client, l: Link): Link
    decreases |l.pending|
  {
    var (m, after) := Received(c, l);
    if m.None? || m.value.Ready? then after else Drained(c, after)
  }

  // ----- the Go cursor -----

  datatype Cursor = Cursor(
    columns: seq<Column>, cur: seq<Cell>, done: bool, err: Option<Failure>, tag: Text, closed: bool)

  const BLANK := Cursor([], [], false, None, [], false)

  function Primed(l: Link): (Cursor, Link)
    decreases |l.pending|
  {
    var (m, after) := Received(Go, l);
    match m
    case None => (BLANK.(err := Some(Lost)), after)
    case Some(NoData) => (BLANK, after)
    case Some(Columns(columns)) => (BLANK.(columns := columns), after)
    case Some(ServerError(text)) => (BLANK.(err := Some(Server(text)), done := true), Drained(Go, after))
    case Some(_) => Primed(after)
  }

  function Advanced(c: Cursor, l: Link): (r: (bool, Cursor, Link))
    ensures r.0 ==> |r.2.pending| < |l.pending|
    decreases |l.pending|
  {
    var (m, after) := Received(Go, l);
    match m
    case None => (false, c.(err := Some(Lost), done := true), after)
    case Some(Row(cells)) => (true, c.(cur := cells), after)
    case Some(Complete(tag)) => Advanced(c.(tag := tag), after)
    case Some(Suspended) => (false, c.(done := true), Drained(Go, after))
    case Some(ServerError(text)) => (false, c.(err := Some(Server(text)), done := true), Drained(Go, after))
    case Some(Ready(_)) => (false, c.(done := true), after)
    case Some(_) => Advanced(c, after)
  }

  function NextOf(c: Cursor, l: Link): (r: (bool, Cursor, Link))
    ensures r.0 ==> |r.2.pending| < |l.pending|
  {
    if c.done || c.err.Some? then (false, c, l) else Advanced(c, l)
  }

  function Exhausted(c: Cursor, l: Link): (Cursor, Link)
    decreases |l.pending|
  {
    var (more, c', l') := NextOf(c, l);
    if more then Exhausted(c', l') else (c', l')
  }

  function ClosedOf(c: Cursor, l: Link): (Cursor, Link) {
    if c.closed then (c, l)
    else if c.done then (c.(closed := true), l)
    else Exhausted(c.(closed := true), l)
  }

  /** `n` calls of Next: the rows they delivered. */
  function CallsOf(c: Cursor, l: Link, n: nat): (seq<seq<Cell>>, Cursor, Link)
    decreases n
  {
    if n == 0 then ([], c, l)
    else
      var (more, c', l') := NextOf(c, l);
      var (rows, c'', l'') := CallsOf(c', l', n - 1);
      ((if more then [c'.cur] else []) + rows, c'', l'')
  }

  datatype Outcome = Failed(failure: Failure)
    | Finished(columns: seq<Column>, rows: seq<seq<Cell>>, err: Option<Failure>, tag: Text)

  /** One query of a caller that takes `n` steps and closes the cursor. */
  function QueryOf(l: Link, n: nat): (Outcome, Link) {
    if l.broken then (Failed(Lost), l)
    else
      var (c, l1) := Primed(l);
      if c.err.Some? then (Failed(c.err.value), l1)
      else
        var (rows, c2, l2) := CallsOf(c, l1, n);
        var (c3, l3) := ClosedOf(c2, l2);
        (Finished(c3.columns, rows, c3.err, c3.tag), l3)
  }

  function SessionOf(l: Link, ns: seq<nat>): (r: (seq<Outcome>, Link))
    ensures |r.0| == |ns|
    decreases |ns|
  {
    if |ns| == 0 then ([], l)
    else
      var (o, l1) := QueryOf(l, ns[0]);
      var (os, l2) := SessionOf(l1, ns[1..]);
      ([o] + os, l2)
  }

  // ----- what a response means to the Go client -----

  predicate Announces(m: Message) { m.NoData? || m.Columns? || m.ServerError? }

  predicate Stops(m: Message) { m.Suspended? || m.ServerError? || m.Ready? }

  /** Some message of the response announces columns, their absence or an error. */
  predicate Announced(ms: seq<Message>) {
    FirstIndex(ms, Announces) < |ms|
  }

  /** What follows the description of the columns. */
  function GoBody(ms: seq<Message>): seq<Message> {
    var a := FirstIndex(ms, Announces);
    if a < |ms| then ms[a + 1..] else []
  }

  /** The outcome as the response dictates it: the described columns, the first `n` rows before the
      response stops, the error it stopped with and the last command tag. */
  function GoExpected(ms: seq<Message>, n: nat): Outcome
    requires Response(ms) && Announced(ms)
  {
    var a := FirstIndex(ms, Announces);
    if ms[a].ServerError? then Failed(Server(ms[a].text))
    else
      Stopped(GoBody(ms), if ms[a].Columns? then ms[a].columns else [], n, [])
  }

  function Stopped(body: seq<Message>, columns: seq<Column>, n: nat, tag: Text): (o: Outcome)
    ensures o.Finished? && o.columns == columns
  {
    var e := FirstIndex(body, Stops);
    Finished(columns, UpTo(Rows(body[..e]), n),
             if e < |body| && body[e].ServerError? then Some(Server(body[e].text)) else None,
             LastTag(body[..e], tag))
  }

  // ----- the Go client follows the response -----

  lemma {:induction false} DrainsResponse(c: Client, bytes: seq<byte>, ms: seq<Message>, rest: seq<byte>)
    requires Response(ms) && Carries(c, bytes, ms, rest)
    ensures Drained(c, Link(bytes, false)) == Link(rest, false)
    decreases |ms|
  {
    hide Take;
    if |ms| > 1 {
      DrainsResponse(c, Take(c, bytes).value.1, ms[1..], rest);
    }
  }

  /** The state of a cursor that has stopped never changes again. */
  lemma {:induction false} DoneStays(c: Cursor, l: Link, n: nat)
    requires c.done
    ensures CallsOf(c, l, n) == ([], c, l)
  {
    if n > 0 {
      DoneStays(c, l, n - 1);
      assert NextOf(c, l) == (false, c, l);
      assert CallsOf(c, l, n).0 == [];
    }
  }

  function AtStop(c: Cursor, m: Message): Cursor {
    c.(done := true, err := if m.ServerError? then Some(Server(m.text)) else None)
  }

  function Tagged(c: Cursor, m: Message): Cursor {
    c.(tag := if m.Complete? then m.tag else c.tag)
  }

  /** One step of the cursor over the messages of a response. */
  lemma AdvanceStep(c: Cursor, bytes: seq<byte>, ms: seq<Message>, rest: seq<byte>)
    requires Response(ms) && Carries(Go, bytes, ms, rest) && !c.done && c.err.None?
    ensures Take(Go, bytes).Some?
    ensures var l := Link(Take(Go, bytes).value.1, false);
      && (ms[0].Row? ==> NextOf(c, Link(bytes, false)) == (true, c.(cur := ms[0].cells), l))
      && (Stops(ms[0]) ==> NextOf(c, Link(bytes, false)) == (false, AtStop(c, ms[0]), Link(rest, false)))
      && (!ms[0].Row? && !Stops(ms[0]) ==> NextOf(c, Link(bytes, false)) == NextOf(Tagged(c, ms[0]), l))
  {
    hide Take, Drained;
    var after := Take(Go, bytes).value.1;
    if Stops(ms[0]) && !ms[0].Ready? {
      DrainsResponse(Go, after, ms[1..], rest);
    }
  }

  /** Calling Next `n` times and closing. */
  function Finish(c: Cursor, l: Link, n: nat): (Outcome, Link) {
    var (rows, c2, l2) := CallsOf(c, l, n);
    var (c3, l3) := ClosedOf(c2, l2);
    (Finished(c3.columns, rows, c3.err, c3.tag), l3)
  }

  function WithRow(cells: seq<Cell>, o: Outcome): Outcome
    requires o.Finished?
  {
    o.(rows := [cells] + o.rows)
  }

  lemma StoppedStep(ms: seq<Message>, columns: seq<Column>, n: nat, tag: Text)
    requires |ms| > 0 && !Stops(ms[0])
    ensures var tag' := if ms[0].Complete? then ms[0].tag else tag;
      Stopped(ms, columns, n, tag)
        == if ms[0].Row? && n > 0 then WithRow(ms[0].cells, Stopped(ms[1..], columns, n - 1, tag'))
           else Stopped(ms[1..], columns, n, tag')
  {
    hide Stops, Rows, LastTag, FirstIndex;
    var e := FirstIndex(ms[1..], Stops);
    FirstIndexStep(ms, Stops);
    PrefixStep(ms, e, tag);
  }

  lemma FirstIndexStep(ms: seq<Message>, p: Message -> bool)
    requires |ms| > 0 && !p(ms[0])
    ensures FirstIndex(ms, p) == 1 + FirstIndex(ms[1..], p)
  {
  }

  lemma PrefixStep(ms: seq<Message>, e: nat, tag: Text)
    requires e < |ms|
    ensures Rows(ms[..e + 1]) == (if ms[0].Row? then [ms[0].cells] else []) + Rows(ms[1..][..e])
    ensures LastTag(ms[..e + 1], tag) == LastTag(ms[1..][..e], if ms[0].Complete? then ms[0].tag else tag)
  {
    assert ms[..e + 1][1..] == ms[1..][..e];
  }

  lemma FinishRow(c: Cursor, l: Link, c': Cursor, l': Link, n: nat)
    requires NextOf(c, l) == (true, c', l') && NextOf(c.(closed := true), l) == (true, c'.(closed := true), l')
    requires !c.done && !c'.done && !c.closed && !c'.closed
    ensures Finish(c, l, n)
         == if n > 0 then (WithRow(c'.cur, Finish(c', l', n - 1).0), Finish(c', l', n - 1).1)
            else Finish(c', l', 0)
  {
    hide NextOf, Advanced;
  }

  lemma FinishSkip(c: Cursor, l: Link, c': Cursor, l': Link, n: nat)
    requires NextOf(c, l) == NextOf(c', l') && NextOf(c.(closed := true), l) == NextOf(c'.(closed := true), l')
    requires !c.done && !c'.done && !c.closed && !c'.closed
    ensures Finish(c, l, n) == Finish(c', l', n)
  {
    hide NextOf, Advanced;
  }

  lemma FinishStop(c: Cursor, l: Link, c': Cursor, l': Link, n: nat)
    requires NextOf(c, l) == (false, c', l') && NextOf(c.(closed := true), l) == (false, c'.(closed := true), l')
    requires !c.done && c'.done && !c.closed && !c'.closed
    ensures Finish(c, l, n) == (Finished(c'.columns, [], c'.err, c'.tag), l')
  {
    if n > 0 {
      DoneStays(c', l', n - 1);
      assert CallsOf(c, l, n).0 == [];
    }
    hide NextOf, Advanced;
  }

  lemma {:induction false} FinishesResponse(c: Cursor, bytes: seq<byte>, ms: seq<Message>, rest: seq<byte>, n: nat)
    requires Response(ms) && Carries(Go, bytes, ms, rest)
    requires !c.done && c.err.None? && !c.closed
    ensures Finish(c, Link(bytes, false), n) == (Stopped(ms, c.columns, n, c.tag), Link(rest, false))
    decreases |ms|
  {
    hide Take, NextOf, Advanced, Finish, Stopped;
    AdvanceStep(c, bytes, ms, rest);
    AdvanceStep(c.(closed := true), bytes, ms, rest);
    var l, after := Link(bytes, false), Take(Go, bytes).value.1;
    var l' := Link(after, false);
    if Stops(ms[0]) {
      FinishStop(c, l, AtStop(c, ms[0]), Link(rest, false), n);
      StopsNow(ms, c.columns, n, c.tag);
    } else {
      StoppedStep(ms, c.columns, n, c.tag);
      if ms[0].Row? {
        var c' := c.(cur := ms[0].cells);
        FinishRow(c, l, c', l', n);
        FinishesResponse(c', after, ms[1..], rest, if n > 0 then n - 1 else 0);
      } else {
        FinishSkip(c, l, Tagged(c, ms[0]), l', n);
        FinishesResponse(Tagged(c, ms[0]), after, ms[1..], rest, n);
      }
    }
  }

  lemma StopsNow(ms: seq<Message>, columns: seq<Column>, n: nat, tag: Text)
    requires |ms| > 0 && Stops(ms[0])
    ensures Stopped(ms, columns, n, tag)
         == Finished(columns, [], if ms[0].ServerError? then Some(Server(ms[0].text)) else None, tag)
  {
  }

  /** Priming over a response that announces its columns or an error. */
  lemma {:induction false} PrimesResponse(bytes: seq<byte>, ms: seq<Message>,
                                          rest: seq<byte>) returns (after: seq<byte>)
    requires Response(ms) && Announced(ms) && Carries(Go, bytes, ms, rest)
    ensures var m := ms[FirstIndex(ms, Announces)];
      && Response(GoBody(ms)) && Carries(Go, after, GoBody(ms), rest)
      && Primed(Link(bytes, false)) ==
           if m.ServerError? then (BLANK.(err := Some(Server(m.text)), done := true), Link(rest, false))
           else (BLANK.(columns := if m.Columns? then m.columns else []), Link(after, false))
    decreases |ms|
  {
    hide Take;
    after := Take(Go, bytes).value.1;
    if Announces(ms[0]) {
      assert GoBody(ms) == ms[1..];
      DrainsResponse(Go, after, ms[1..], rest);
    } else {
      after := PrimesResponse(after, ms[1..], rest);
      assert GoBody(ms) == GoBody(ms[1..]);
    }
  }

  /** Reading never un-breaks a connection and never gives bytes back. */
  ghost predicate Within(l': Link, l: Link) {
    l'.broken || (!l.broken && |l'.pending| <= |l.pending|)
  }

  lemma {:induction false} DrainedWithin(c: Client, l: Link)
    ensures Within(Drained(c, l), l)
    decreases |l.pending|
  {
    var (m, after) := Received(c, l);
    if m.Some? && !m.value.Ready? {
      DrainedWithin(c, after);
    }
  }

  lemma {:induction false} NextWithin(c: Cursor, l: Link)
    ensures Within(NextOf(c, l).2, l)
    decreases |l.pending|
  {
    hide Drained;
    var (m, after) := Received(Go, l);
    if !c.done && c.err.None? && m.Some? {
      DrainedWithin(Go, after);
      NextWithin(if m.value.Complete? then c.(tag := m.value.tag) else c, after);
    }
  }

  lemma {:induction false} ExhaustedWithin(c: Cursor, l: Link)
    ensures Within(Exhausted(c, l).1, l)
    decreases |l.pending|
  {
    hide NextOf;
    NextWithin(c, l);
    var (more, c', l') := NextOf(c, l);
    if more {
      ExhaustedWithin(c', l');
    }
  }

  lemma {:induction false} CallsWithin(c: Cursor, l: Link, n: nat)
    ensures Within(CallsOf(c, l, n).2, l)
    decreases n
  {
    hide NextOf;
    if n > 0 {
      NextWithin(c, l);
      var (more, c', l') := NextOf(c, l);
      CallsWithin(c', l', n - 1);
    }
  }

  lemma {:induction false} PrimedConsumes(l: Link)
    requires !l.broken
    ensures Primed(l).1.broken || |Primed(l).1.pending| < |l.pending|
    decreases |l.pending|
  {
    hide Drained;
    var (m, after) := Received(Go, l);
    if m.Some? {
      DrainedWithin(Go, after);
      PrimedConsumes(after);
    }
  }

  lemma {:induction false} PrimedSkips(bytes: seq<byte>, ms: seq<Message>, rest: seq<byte>)
    requires Carries(Go, bytes, ms, rest) && !Announced(ms)
    ensures Primed(Link(bytes, false)) == Primed(Link(rest, false))
    decreases |ms|
  {
    hide Take;
    if |ms| > 0 {
      PrimedSkips(Take(Go, bytes).value.1, ms[1..], rest);
    }
  }

  lemma QueryFinishes(l: Link, n: nat)
    requires !l.broken && Primed(l).0.err.None?
    ensures QueryOf(l, n) == Finish(Primed(l).0, Primed(l).1, n)
  {
  }

  /** rows.go:41-162, conn.go:209-243: a query consumes exactly its own response if and only if the
      response announces columns, their absence or an error before it ends; and then the outcome is the
      one the response dictates, wherever the caller stops reading rows. */
  lemma QueryAlignedIff(bytes: seq<byte>, ms: seq<Message>, rest: seq<byte>, n: nat)
    requires Response(ms) && Carries(Go, bytes, ms, rest)
    ensures QueryOf(Link(bytes, false), n).1 == Link(rest, false) <==> Announced(ms)
    ensures Announced(ms) ==> QueryOf(Link(bytes, false), n).0 == GoExpected(ms, n)
  {
    hide Take, Primed, Finish, CallsOf, ClosedOf, Stopped, Announced, GoBody;
    var l := Link(bytes, false);
    if Announced(ms) {
      var after := PrimesResponse(bytes, ms, rest);
      var c := Primed(l).0;
      if c.err.None? {
        QueryFinishes(l, n);
        FinishesResponse(c, after, GoBody(ms), rest, n);
      }
    } else {
      PrimedSkips(bytes, ms, rest);
      PrimedConsumes(Link(rest, false));
      QueryWithin(l, n);
    }
  }

  lemma QueryWithin(l: Link, n: nat)
    requires !l.broken
    ensures Within(QueryOf(l, n).1, Primed(l).1)
  {
    hide CallsOf, Primed, Exhausted;
    var (c, l1) := Primed(l);
    if c.err.None? {
      CallsWithin(c, l1, n);
      var (rows, c2, l2) := CallsOf(c, l1, n);
      ExhaustedWithin(c2.(closed := true), l2);
    }
  }

  lemma {:induction false} RowsSplit(a: seq<Message>, b: seq<Message>)
    ensures Rows(a + b) == Rows(a) + Rows(b)
    decreases |a|
  {
    if |a| > 0 {
      RowsSplit(a[1..], b);
      assert (a + b)[1..] == a[1..] + b;
    } else {
      assert a + b == b;
    }
  }

  lemma {:induction false} NoRows(ms: seq<Message>)
    requires forall i :: 0 <= i < |ms| ==> !ms[i].Row?
    ensures Rows(ms) == []
  {
    if |ms| > 0 {
      NoRows(ms[1..]);
    }
  }

  lemma RowsBetween(ms: seq<Message>, i: nat, j: nat)
    requires i <= j <= |ms|
    requires forall k :: 0 <= k < i || j <= k < |ms| ==> !ms[k].Row?
    ensures Rows(ms) == Rows(ms[i..j])
  {
    hide Rows;
    var before, within, after := ms[..i], ms[i..j], ms[j..];
    assert ms == (before + within) + after;
    RowsSplit(before + within, after);
    RowsSplit(before, within);
    NoRows(before);
    NoRows(after);
    assert ([] + Rows(within)) + [] == Rows(within);
  }

  predicate Quiet(ms: seq<Message>) {
    forall i :: 0 <= i < |ms| ==> !ms[i].ServerError? && !ms[i].Suspended?
  }

  lemma AfterAnnouncement(ms: seq<Message>, a: nat)
    requires Response(ms) && Quiet(ms) && a < |ms| && Announces(ms[a])
    ensures a < |ms| - 1 && Response(ms[a + 1..]) && Quiet(ms[a + 1..]) && !ms[a].ServerError?
  {
    var body := ms[a + 1..];
    assert body[|body| - 1] == ms[|ms| - 1];
  }

  /** A response without error or suspension, and without rows before the column description, delivers
      all its rows in order. */
  lemma GoDeliversAllRows(ms: seq<Message>, n: nat)
    requires Response(ms) && Announced(ms) && Quiet(ms)
    requires forall i :: 0 <= i <= FirstIndex(ms, Announces) ==> !ms[i].Row?
    ensures GoExpected(ms, n).Finished? && GoExpected(ms, n).err.None?
    ensures GoExpected(ms, n).rows == UpTo(Rows(ms), n)
  {
    hide Rows, FirstIndex, Stopped, Announces, Response, Quiet, UpTo;
    var a := FirstIndex(ms, Announces);
    AfterAnnouncement(ms, a);
    RowsBetween(ms, a + 1, |ms|);
    assert ms[a + 1..|ms|] == ms[a + 1..];
    StoppedAtReady(ms[a + 1..], if ms[a].Columns? then ms[a].columns else [], n);
  }

  lemma StoppedAtReady(body: seq<Message>, columns: seq<Column>, n: nat)
    requires Response(body) && Quiet(body)
    ensures Stopped(body, columns, n, []).err.None? && Stopped(body, columns, n, []).rows == UpTo(Rows(body), n)
  {
    var e := |body| - 1;
    FirstIndexIs(body, Stops, e);
    RowsBetween(body, 0, e);
    assert body[0..e] == body[..e];
    hide Rows, LastTag, UpTo, FirstIndex;
  }

  // ----- whole sessions -----

  function EncodeSession(rs: seq<seq<ServerMessage>>): seq<byte> {
    if |rs| == 0 then [] else EncodeAll(rs[0]) + EncodeSession(rs[1..])
  }

  /** Responses a server can put on the wire and the client can tell apart. */
  ghost predicate Served(c: Client, rs: seq<seq<ServerMessage>>) {
    forall r :: r in rs ==> (Response(Views(c, r)) && forall m :: m in r ==> Sendable(c, m))
  }

  ghost predicate AllAnnounced(rs: seq<seq<ServerMessage>>) {
    forall r :: r in rs ==> Announced(Views(Go, r))
  }

  /** The k-th query consumes exactly the k-th response and its outcome depends on that response only. */
  lemma {:induction false} GoSessionAligned(rs: seq<seq<ServerMessage>>, ns: seq<nat>, tail: seq<byte>)
    requires |rs| == |ns| && Served(Go, rs) && AllAnnounced(rs)
    ensures var (os, l) := SessionOf(Link(EncodeSession(rs) + tail, false), ns);
      && l == Link(tail, false)
      && forall k :: 0 <= k < |rs| ==> os[k] == GoExpected(Views(Go, rs[k]), ns[k])
    decreases |rs|
  {
    hide QueryOf, GoExpected, Views, Response, Announced, EncodeAll, Sendable;
    if |rs| > 0 {
      assert rs[0] in rs;
      var rest := EncodeSession(rs[1..]) + tail;
      var bytes := EncodeSession(rs) + tail;
      assert bytes == EncodeAll(rs[0]) + rest;
      EncodedCarries(Go, rs[0], rest);
      QueryAlignedIff(bytes, Views(Go, rs[0]), rest, ns[0]);
      GoSessionAligned(rs[1..], ns[1..], tail);
      var (os, l) := SessionOf(Link(rest, false), ns[1..]);
      forall k | 0 <= k < |rs|
        ensures ([QueryOf(Link(bytes, false), ns[0]).0] + os)[k] == GoExpected(Views(Go, rs[k]), ns[k]) {
        if k > 0 {
          assert rs[1..][k - 1] == rs[k] && ns[1..][k - 1] == ns[k];
        }
      }
    } else {
      assert EncodeSession(rs) + tail == tail;
    }
  }

  /** After a response that announces nothing, priming runs past its ReadyForQuery and the query takes
      the next response for its own. */
  lemma UnannouncedTakesNext(bytes: seq<byte>, ms: seq<Message>, mid: seq<byte>, next: seq<Message>, rest: seq<byte>,
                             n: nat)
    requires Response(ms) && !Announced(ms) && Carries(Go, bytes, ms, mid)
    requires Response(next) && Announced(next) && Carries(Go, mid, next, rest)
    ensures QueryOf(Link(bytes, false), n) == (GoExpected(next, n), Link(rest, false))
  {
    PrimedSkips(bytes, ms, mid);
    QueryAlignedIff(mid, next, rest, n);
    hide Primed, CallsOf, ClosedOf, Carries, Announced, GoExpected;
  }

  lemma BareViews(status: byte)
    ensures var r := [ParseComplete, ReadyForQuery(status)];
      Views(Go, r) == [Other(0x31), Ready(status)] && forall m :: m in r ==> Sendable(Go, m)
  {
    assert View(Go, ParseComplete) == Other(0x31) && View(Go, ReadyForQuery(status)) == Ready(status);
    assert Body(ParseComplete) == [] && Body(ReadyForQuery(status)) == [status];
    hide View, Body;
  }

  lemma BareResponse(status: byte)
    ensures var vs := [Other(0x31), Ready(status)]; Response(vs) && !Announced(vs)
  {
    var vs := [Other(0x31), Ready(status)];
    FirstIndexIs(vs, Announces, 2);
    hide FirstIndex;
  }

  /** Such a response exists on the wire: a parse without description. */
  lemma UnannouncedResponse(status: byte, rest: seq<byte>)
    ensures var r := [ParseComplete, ReadyForQuery(status)];
      Response(Views(Go, r)) && !Announced(Views(Go, r)) && Carries(Go, EncodeAll(r) + rest, Views(Go, r), rest)
  {
    hide EncodeAll, Carries, Sendable, Views, Response, Announced;
    BareViews(status);
    BareResponse(status);
    EncodedCarries(Go, [ParseComplete, ReadyForQuery(status)], rest);
  }

  // ----- the Rust query loop -----

  datatype RustRow = RustRow(columns: seq<Text>, cells: seq<Cell>)

  datatype QueryResult = QueryResult(columns: seq<Text>, rows: seq<RustRow>, tag: Option<Text>)

  function Names(columns: seq<Column>): seq<Text> {
    seq(|columns|, i requires 0 <= i < |columns| => columns[i].name)
  }

  function RustLoop(rust: Client, l: Link, q: QueryResult): (Result<QueryResult, Failure>, Link)
    decreases |l.pending|
  {
    var (m, after) := Received(rust, l);
    match m
    case None => (Err(Lost), BROKEN)
    case Some(Columns(columns)) => RustLoop(rust, after, q.(columns := Names(columns), rows := []))
    case Some(Row(cells)) => RustLoop(rust, after, q.(rows := q.rows + [RustRow(q.columns, cells)]))
    case Some(Complete(tag)) => RustLoop(rust, after, q.(tag := Some(tag)))
    case Some(ServerError(text)) =>
      var drained := Drained(rust, after);
      if drained.broken then (Err(Lost), BROKEN) else (Err(Server(text)), drained)
    case Some(Ready(_)) => (Ok(q), after)
    case Some(_) => RustLoop(rust, after, q)
  }

  const NO_RESULT := QueryResult([], [], None)

  predicate EndsQuery(m: Message) { m.ServerError? || m.Ready? }

  predicate IsColumns(m: Message) { m.Columns? }

  predicate IsComplete(m: Message) { m.Complete? }

  function WithColumns(columns: seq<Text>, rows: seq<seq<Cell>>): seq<RustRow> {
    seq(|rows|, i requires 0 <= i < |rows| => RustRow(columns, rows[i]))
  }

  /** The names of the last column description. */
  function LastColumns(ms: seq<Message>, columns: seq<Text>): seq<Text> {
    var d := LastIndex(ms, IsColumns);
    if d < 0 then columns else Names(ms[d].columns)
  }

  /** The rows since the last column description, under its names. */
  function LastRows(ms: seq<Message>, q: QueryResult): seq<RustRow> {
    var d := LastIndex(ms, IsColumns);
    (if d < 0 then q.rows else []) + WithColumns(LastColumns(ms, q.columns), Rows(ms[d + 1..]))
  }

  /** What the messages of one response add to `q`. */
  function Gathered(ms: seq<Message>, q: QueryResult): QueryResult {
    var t := LastIndex(ms, IsComplete);
    QueryResult(LastColumns(ms, q.columns), LastRows(ms, q), if t < 0 then q.tag else Some(ms[t].tag))
  }

  function RustExpected(ms: seq<Message>, q: QueryResult): Result<QueryResult, Failure>
    requires Response(ms)
  {
    var e := FirstIndex(ms, EndsQuery);
    if e < |ms| && ms[e].ServerError? then Err(Server(ms[e].text)) else Ok(Gathered(ms[..e], q))
  }

  lemma {:induction false} LastIndexStep(ms: seq<Message>, p: Message -> bool)
    requires |ms| > 0
    ensures var i := LastIndex(ms[1..], p);
      LastIndex(ms, p) == if i >= 0 then i + 1 else if p(ms[0]) then 0 else -1
  {
    var n := |ms| - 1;
    if n > 0 && !p(ms[n]) {
      LastIndexStep(ms[..n], p);
      assert ms[1..][..n - 1] == ms[..n][1..];
    }
  }

  function Added(m: Message, q: QueryResult): QueryResult {
    match m
    case Columns(columns) => q.(columns := Names(columns), rows := [])
    case Row(cells) => q.(rows := q.rows + [RustRow(q.columns, cells)])
    case Complete(tag) => q.(tag := Some(tag))
    case _ => q
  }

  lemma LastColumnsStep(ms: seq<Message>, q: QueryResult)
    requires |ms| > 0
    ensures LastColumns(ms, q.columns) == LastColumns(ms[1..], Added(ms[0], q).columns)
  {
    hide LastIndex, Names;
    LastIndexStep(ms, IsColumns);
  }

  lemma LastRowsStep(ms: seq<Message>, q: QueryResult)
    requires |ms| > 0
    ensures LastRows(ms, q) == LastRows(ms[1..], Added(ms[0], q))
  {
    hide LastIndex, LastRows;
    LastIndexStep(ms, IsColumns);
    if LastIndex(ms, IsColumns) < 0 {
      RowsWithout(ms, q);
    } else {
      RowsAfter(ms, q);
    }
  }

  lemma RowsAfter(ms: seq<Message>, q: QueryResult)
    requires |ms| > 0 && LastIndex(ms, IsColumns) >= 0
    ensures LastRows(ms, q) == LastRows(ms[1..], Added(ms[0], q))
  {
    hide LastIndex, Rows, Names, WithColumns, LastColumns, LastRows, Added;
    var d := LastIndex(ms, IsColumns);
    LastColumnsStep(ms, q);
    LastIndexStep(ms, IsColumns);
    DropAfterHead(ms, d);
    DescriptionClears(ms[0], q);
    LastRowsAre(ms, q, d, ms[d + 1..]);
    LastRowsAre(ms[1..], Added(ms[0], q), d - 1, ms[d + 1..]);
  }

  lemma LastRowsAre(ms: seq<Message>, q: QueryResult, d: int, since: seq<Message>)
    requires d == LastIndex(ms, IsColumns) && since == ms[d + 1..] && (d < 0 ==> q.rows == [])
    ensures LastRows(ms, q) == WithColumns(LastColumns(ms, q.columns), Rows(since))
  {
    hide LastIndex, Rows, WithColumns, LastColumns;
    var rows := WithColumns(LastColumns(ms, q.columns), Rows(since));
    assert [] + rows == rows;
  }

  lemma DescriptionClears(m: Message, q: QueryResult)
    ensures m.Columns? ==> Added(m, q).rows == []
  {
  }

  lemma DropAfterHead<T>(s: seq<T>, d: nat)
    requires d < |s|
    ensures s[1..][d..] == s[d + 1..]
  {
  }

  lemma RowsWithout(ms: seq<Message>, q: QueryResult)
    requires |ms| > 0 && LastIndex(ms, IsColumns) < 0
    ensures LastRows(ms, q) == LastRows(ms[1..], Added(ms[0], q))
  {
    hide LastIndex, Rows, Names, WithColumns, LastColumns;
    LastIndexStep(ms, IsColumns);
    var tail, q' := ms[1..], Added(ms[0], q);
    NoDescription(ms, q.columns);
    NoDescription(tail, q.columns);
    assert ms[0..] == ms && tail[0..] == tail;
    RowsStep(ms, q.columns);
    if ms[0].Row? {
      SeqAssoc(q.rows, [RustRow(q.columns, ms[0].cells)], WithColumns(q.columns, Rows(tail)));
    }
  }

  lemma NoDescription(ms: seq<Message>, columns: seq<Text>)
    requires LastIndex(ms, IsColumns) < 0
    ensures LastColumns(ms, columns) == columns
  {
    hide LastIndex;
  }

  lemma GatheredStep(ms: seq<Message>, q: QueryResult)
    requires |ms| > 0
    ensures Gathered(ms, q) == Gathered(ms[1..], Added(ms[0], q))
  {
    hide LastIndex, LastColumns, LastRows, Names;
    LastColumnsStep(ms, q);
    LastRowsStep(ms, q);
    LastIndexStep(ms, IsComplete);
  }

  lemma SeqAssoc<T>(a: seq<T>, b: seq<T>, c: seq<T>)
    ensures a + (b + c) == (a + b) + c
  {
  }

  lemma RowsStep(ms: seq<Message>, columns: seq<Text>)
    requires |ms| > 0
    ensures WithColumns(columns, Rows(ms))
         == if ms[0].Row? then [RustRow(columns, ms[0].cells)] + WithColumns(columns, Rows(ms[1..]))
            else WithColumns(columns, Rows(ms[1..]))
  {
    hide WithColumns;
    if ms[0].Row? {
      OneMoreRow(columns, ms[0].cells, Rows(ms[1..]));
    } else {
      assert Rows(ms) == Rows(ms[1..]);
    }
  }

  lemma OneMoreRow(columns: seq<Text>, cells: seq<Cell>, rows: seq<seq<Cell>>)
    ensures WithColumns(columns, [cells] + rows) == [RustRow(columns, cells)] + WithColumns(columns, rows)
  {
  }

  lemma {:induction false} LoopFollowsResponse(rust: Client, bytes: seq<byte>, ms: seq<Message>, rest: seq<byte>,
                                               q: QueryResult)
    requires Response(ms) && Carries(rust, bytes, ms, rest)
    ensures RustLoop(rust, Link(bytes, false), q) == (RustExpected(ms, q), Link(rest, false))
    decreases |ms|
  {
    hide Take, Gathered;
    var after := Take(rust, bytes).value.1;
    var e := FirstIndex(ms, EndsQuery);
    if EndsQuery(ms[0]) {
      if ms[0].Ready? {
        GatheredNothing(q);
        assert ms[..0] == [];
      } else {
        DrainsResponse(rust, after, ms[1..], rest);
      }
    } else {
      GatheredStep(ms[..e], q);
      assert ms[..e][1..] == ms[1..][..e - 1];
      LoopFollowsResponse(rust, after, ms[1..], rest, Added(ms[0], q));
    }
  }

  lemma NothingFound(p: Message -> bool)
    ensures LastIndex([], p) == -1
  {
  }

  lemma GatheredNothing(q: QueryResult)
    ensures Gathered([], q) == q
  {
    hide Rows, Names, WithColumns, LastIndex, LastColumns, LastRows;
    NothingFound(IsColumns);
    NothingFound(IsComplete);
    NoDescription([], q.columns);
    RowsSoFar([], q);
    NoRows([]);
    NoRustRows(q.columns);
    assert q.rows + [] == q.rows;
  }

  lemma RowsSoFar(ms: seq<Message>, q: QueryResult)
    requires LastIndex(ms, IsColumns) < 0
    ensures LastRows(ms, q) == q.rows + WithColumns(q.columns, Rows(ms))
  {
    hide Rows, WithColumns, LastIndex, LastColumns;
    NoDescription(ms, q.columns);
    assert ms[0..] == ms;
  }

  lemma NoRustRows(columns: seq<Text>)
    ensures WithColumns(columns, []) == []
  {
  }

  /** pgwire.rs:277-312: a query consumes exactly its own response. */
  lemma RustQueryAligned(rust: Client, bytes: seq<byte>, ms: seq<Message>, rest: seq<byte>)
    requires Response(ms) && Carries(rust, bytes, ms, rest)
    ensures RustLoop(rust, Link(bytes, false), NO_RESULT) == (RustExpected(ms, NO_RESULT), Link(rest, false))
  {
    LoopFollowsResponse(rust, bytes, ms, rest, NO_RESULT);
  }

  /** With one column description, ahead of every row, and no error, all rows arrive in order under the
      described names. */
  lemma RustDeliversAllRows(ms: seq<Message>, d: nat)
    requires Response(ms) && d < |ms| && ms[d].Columns?
    requires forall i :: 0 <= i < |ms| ==> !ms[i].ServerError? && (ms[i].Columns? ==> i == d) && (ms[i].Row? ==> i > d)
    ensures RustExpected(ms, NO_RESULT).Ok?
    ensures RustExpected(ms, NO_RESULT).value.columns == Names(ms[d].columns)
    ensures RustExpected(ms, NO_RESULT).value.rows == WithColumns(Names(ms[d].columns), Rows(ms))
  {
    hide Rows, Names, WithColumns, FirstIndex, LastIndex;
    var n := |ms| - 1;
    FirstIndexIs(ms, EndsQuery, n);
    assert ms[..n][d] == ms[d];
    LastIndexIs(ms[..n], IsColumns, d);
    assert ms[..n][d + 1..] == ms[d + 1..n];
    RowsBetween(ms, d + 1, n);
    LastRowsAre(ms[..n], NO_RESULT, d, ms[d + 1..n]);
  }

  function RustSessionOf(rust: Client, l: Link, k: nat): (r: (seq<Result<QueryResult, Failure>>, Link))
    ensures |r.0| == k
    decreases k
  {
    if k == 0 then ([], l)
    else
      var (o, l1) := RustLoop(rust, l, NO_RESULT);
      var (os, l2) := RustSessionOf(rust, l1, k - 1);
      ([o] + os, l2)
  }

  lemma {:induction false} RustSessionAligned(rust: Client, rs: seq<seq<ServerMessage>>, tail: seq<byte>)
    requires Served(rust, rs)
    ensures var (os, l) := RustSessionOf(rust, Link(EncodeSession(rs) + tail, false), |rs|);
      && l == Link(tail, false)
      && forall k :: 0 <= k < |rs| ==>
          Response(Views(rust, rs[k])) && os[k] == RustExpected(Views(rust, rs[k]), NO_RESULT)
    decreases |rs|
  {
    hide RustLoop, RustExpected, Views, Response, EncodeAll, Sendable;
    if |rs| > 0 {
      assert rs[0] in rs;
      var rest := EncodeSession(rs[1..]) + tail;
      var bytes := EncodeSession(rs) + tail;
      assert bytes == EncodeAll(rs[0]) + rest;
      EncodedCarries(rust, rs[0], rest);
      RustQueryAligned(rust, bytes, Views(rust, rs[0]), rest);
      RustSessionAligned(rust, rs[1..], tail);
      var (os, l) := RustSessionOf(rust, Link(rest, false), |rs| - 1);
      forall k | 0 <= k < |rs|
        ensures Response(Views(rust, rs[k]))
          && ([RustLoop(rust, Link(bytes, false), NO_RESULT).0] + os)[k]
             == RustExpected(Views(rust, rs[k]), NO_RESULT)
      {
        assert rs[k] in rs;
        if k > 0 {
          assert rs[1..][k - 1] == rs[k];
        }
      }
    } else {
      assert EncodeSession(rs) + tail == tail;
    }
  }

  // ----- responses that break off -----

  /** No ReadyForQuery among the messages. */
  predicate Unfinished(ms: seq<Message>) {
    forall i :: 0 <= i < |ms| ==> !ms[i].Ready?
  }

  lemma {:induction false} DrainsToNothing(c: Client, bytes: seq<byte>, ms: seq<Message>, rest: seq<byte>)
    requires Unfinished(ms) && Carries(c, bytes, ms, rest) && Take(c, rest).None?
    ensures Drained(c, Link(bytes, false)) == BROKEN
    decreases |ms|
  {
    hide Take;
    if |ms| > 0 {
      DrainsToNothing(c, Take(c, bytes).value.1, ms[1..], rest);
    }
  }

  /** The cursor where the stream ends, or where it meets an error or a suspension before that. */
  function AtLoss(c: Cursor, ms: seq<Message>): Cursor {
    if |ms| == 0 then c.(err := Some(Lost), done := true) else AtStop(c, ms[0])
  }

  lemma LostStep(c: Cursor, bytes: seq<byte>, ms: seq<Message>, rest: seq<byte>)
    requires Unfinished(ms) && Carries(Go, bytes, ms, rest) && Take(Go, rest).None? && !c.done && c.err.None?
    ensures |ms| == 0 || Stops(ms[0]) ==> NextOf(c, Link(bytes, false)) == (false, AtLoss(c, ms), BROKEN)
    ensures |ms| > 0 ==> Take(Go, bytes).Some?
    ensures |ms| > 0 && ms[0].Row? ==>
      NextOf(c, Link(bytes, false)) == (true, c.(cur := ms[0].cells), Link(Take(Go, bytes).value.1, false))
    ensures |ms| > 0 && !Stops(ms[0]) && !ms[0].Row? ==>
      NextOf(c, Link(bytes, false)) == NextOf(Tagged(c, ms[0]), Link(Take(Go, bytes).value.1, false))
  {
    hide Take, Drained;
    if |ms| > 0 && Stops(ms[0]) {
      DrainsToNothing(Go, Take(Go, bytes).value.1, ms[1..], rest);
    }
  }

  lemma {:induction false} FinishesBroken(c: Cursor, bytes: seq<byte>, ms: seq<Message>, rest: seq<byte>, n: nat)
    requires Unfinished(ms) && Carries(Go, bytes, ms, rest) && Take(Go, rest).None?
    requires !c.done && c.err.None? && !c.closed
    ensures Finish(c, Link(bytes, false), n).1 == BROKEN
    ensures (forall i :: 0 <= i < |ms| ==> !ms[i].Suspended?) ==>
      Finish(c, Link(bytes, false), n).0.Finished? && Finish(c, Link(bytes, false), n).0.err.Some?
    decreases |ms|
  {
    hide Take, NextOf, Advanced, Finish;
    LostStep(c, bytes, ms, rest);
    LostStep(c.(closed := true), bytes, ms, rest);
    var l := Link(bytes, false);
    if |ms| == 0 || Stops(ms[0]) {
      FinishStop(c, l, AtLoss(c, ms), BROKEN, n);
    } else {
      var after := Take(Go, bytes).value.1;
      var l' := Link(after, false);
      if ms[0].Row? {
        var c' := c.(cur := ms[0].cells);
        FinishRow(c, l, c', l', n);
        FinishesBroken(c', after, ms[1..], rest, if n > 0 then n - 1 else 0);
      } else {
        FinishSkip(c, l, Tagged(c, ms[0]), l', n);
        FinishesBroken(Tagged(c, ms[0]), after, ms[1..], rest, n);
      }
    }
  }

  lemma {:induction false} PrimesBroken(bytes: seq<byte>, ms: seq<Message>, rest: seq<byte>)
    returns (after: seq<byte>, left: seq<Message>)
    requires Unfinished(ms) && Carries(Go, bytes, ms, rest) && Take(Go, rest).None?
    ensures var (c, l) := Primed(Link(bytes, false));
      if c.err.Some? then l == BROKEN
      else
        && l == Link(after, false) && Unfinished(left) && Carries(Go, after, left, rest)
        && c == BLANK.(columns := c.columns)
        && ((forall i :: 0 <= i < |ms| ==> !ms[i].Suspended?) ==> forall i :: 0 <= i < |left| ==> !left[i].Suspended?)
    decreases |ms|
  {
    hide Take;
    after, left := bytes, ms;
    if |ms| > 0 {
      after, left := Take(Go, bytes).value.1, ms[1..];
      if Announces(ms[0]) {
        DrainsToNothing(Go, after, left, rest);
      } else {
        after, left := PrimesBroken(after, left, rest);
      }
    }
  }

  /** A response that breaks off leaves the Go connection broken, and the query with an error unless the server
      had suspended it. */
  lemma BrokenOffQuery(bytes: seq<byte>, ms: seq<Message>, rest: seq<byte>, n: nat)
    requires Unfinished(ms) && Carries(Go, bytes, ms, rest) && Take(Go, rest).None?
    ensures QueryOf(Link(bytes, false), n).1 == BROKEN
    ensures (forall i :: 0 <= i < |ms| ==> !ms[i].Suspended?) ==>
      var o := QueryOf(Link(bytes, false), n).0; o.Failed? || o.err.Some?
  {
    hide Take, Primed, Finish, CallsOf, ClosedOf, Carries;
    var l := Link(bytes, false);
    var after, left := PrimesBroken(bytes, ms, rest);
    var c := Primed(l).0;
    if c.err.None? {
      QueryFinishes(l, n);
      FinishesBroken(c, after, left, rest, n);
    }
  }

  /** A broken connection refuses every later query. */
  lemma {:induction false} BrokenRefuses(ns: seq<nat>)
    ensures SessionOf(BROKEN, ns).1 == BROKEN
    ensures forall k :: 0 <= k < |ns| ==> SessionOf(BROKEN, ns).0[k] == Failed(Lost)
    decreases |ns|
  {
    if |ns| > 0 {
      BrokenRefuses(ns[1..]);
    }
  }

  /** In the Rust client a response that breaks off is an error. */
  lemma {:induction false} BrokenOffLoop(rust: Client, bytes: seq<byte>, ms: seq<Message>, rest: seq<byte>,
                                         q: QueryResult)
    requires Unfinished(ms) && Carries(rust, bytes, ms, rest) && Take(rust, rest).None?
    ensures RustLoop(rust, Link(bytes, false), q) == (Err(Lost), BROKEN)
    decreases |ms|
  {
    hide Take, Drained;
    if |ms| > 0 {
      var after := Take(rust, bytes).value.1;
      if ms[0].ServerError? {
        DrainsToNothing(rust, after, ms[1..], rest);
      } else {
        BrokenOffLoop(rust, after, ms[1..], rest, Added(ms[0], q));
      }
    }
  }

  // ----- the Go connection and its cursor as objects -----

  class GoConn {
    const wire: GoWire
    var broken: bool
    var closed: bool

    ghost function State(): Link
      reads this, wire
    {
      if broken || closed then BROKEN else Link(wire.Pending(), false)
    }

    constructor (wire: GoWire)
      ensures this.wire == wire && !broken && !closed && State() == Link(wire.Pending(), false)
    {
      this.wire := wire;
      broken := false;
      closed := false;
    }

    /** conn.go:134-170 around one readMessage: any failure leaves the connection broken. */
    method Receive() returns (m: Option<Message>)
      modifies this`broken, wire
      ensures (m, State()) == Received(Go, old(State()))
    {
      if broken || closed {
        return None;
      }
      m := wire.ReadMessage();
      if m.None? {
        broken := true;
      }
    }

    /** conn.go:209-243, after the request has been written; `flushed` says whether that worked. */
    method Query(flushed: bool) returns (rows: Option<RowsCursor>, err: Option<Failure>)
      modifies this`broken, wire
      ensures rows.Some? ==> fresh(rows.value) && rows.value.conn == this && err.None?
      ensures rows.None? ==> err.Some?
      ensures old(State()).broken || !flushed ==> err == Some(Lost) && State() == BROKEN
      ensures !old(State()).broken && flushed ==>
        var (c, l) := Primed(old(State()));
        State() == l && err == c.err && (rows.Some? ==> rows.value.Value() == c)
    {
      if broken || closed {
        return None, Some(Lost);
      }
      if !flushed {
        broken := true;
        return None, Some(Lost);
      }
      var r := new RowsCursor(this);
      r.PrimeColumns();
      if r.err.Some? {
        return None, r.err;
      }
      return Some(r), None;
    }
  }

  class RowsCursor {
    const conn: GoConn
    var columns: seq<Column>
    var cur: seq<Cell>
    var done: bool
    var err: Option<Failure>
    var tag: Text
    var closed: bool

    ghost function Value(): Cursor
      reads this
    {
      Cursor(columns, cur, done, err, tag, closed)
    }

    constructor (conn: GoConn)
      ensures this.conn == conn && Value() == BLANK
    {
      this.conn := conn;
      columns, cur, done, err, tag, closed := [], [], false, None, [], false;
    }

    /** rows.go:41-71 */
    method PrimeColumns()
      requires Value() == BLANK
      modifies this, conn`broken, conn.wire
      ensures (Value(), conn.State()) == Primed(old(conn.State()))
    {
      hide Received, Drained;
      while true
        invariant Value() == BLANK
        invariant Primed(old(conn.State())) == Primed(conn.State())
        decreases |conn.State().pending|
      {
        var m := conn.Receive();
        match m
        case None =>
          err := Some(Lost);
          return;
        case Some(NoData) =>
          return;
        case Some(Columns(cs)) =>
          columns := cs;
          return;
        case Some(ServerError(text)) =>
          err := Some(Server(text));
          DrainToReady();
          done := true;
          return;
        case Some(_) =>
      }
    }

    /** rows.go:132-147 */
    method DrainToReady()
      modifies conn`broken, conn.wire
      ensures conn.State() == Drained(Go, old(conn.State()))
    {
      hide Take;
      while true
        invariant Drained(Go, old(conn.State())) == Drained(Go, conn.State())
        decreases |conn.State().pending|
      {
        var m := conn.Receive();
        if m.None? || m.value.Ready? {
          return;
        }
      }
    }

    /** rows.go:86-127 */
    method Next() returns (more: bool)
      modifies this`cur, this`done, this`err, this`tag, conn`broken, conn.wire
      ensures (more, Value(), conn.State()) == NextOf(old(Value()), old(conn.State()))
    {
      hide Advanced;
      if done || err.Some? {
        return false;
      }
      more := Advance();
    }

    /** rows.go:90-126: read until a row or an end. */
    method Advance() returns (more: bool)
      modifies this`cur, this`done, this`err, this`tag, conn`broken, conn.wire
      ensures (more, Value(), conn.State()) == Advanced(old(Value()), old(conn.State()))
    {
      hide Received, Drained;
      while true
        invariant Advanced(old(Value()), old(conn.State())) == Advanced(Value(), conn.State())
        decreases |conn.State().pending|
      {
        var m := conn.Receive();
        match m
        case None =>
          err := Some(Lost);
          done := true;
          return false;
        case Some(Row(cells)) =>
          cur := cells;
          return true;
        case Some(Complete(t)) =>
          tag := t;
        case Some(Suspended) =>
          done := true;
          DrainToReady();
          return false;
        case Some(ServerError(text)) =>
          err := Some(Server(text));
          done := true;
          DrainToReady();
          return false;
        case Some(Ready(_)) =>
          done := true;
          return false;
        case Some(_) =>
      }
    }

    /** rows.go:152-162 */
    method Close() returns (e: Option<Failure>)
      modifies this, conn`broken, conn.wire
      ensures (Value(), conn.State()) == ClosedOf(old(Value()), old(conn.State()))
      ensures old(closed) ==> e.None?
      ensures !old(closed) ==> e == err
    {
      if closed {
        return None;
      }
      closed := true;
      if !done {
        hide NextOf;
        var more := true;
        ghost var from := Value();
        while more
          invariant if more then Exhausted(from, old(conn.State())) == Exhausted(Value(), conn.State())
                    else Exhausted(from, old(conn.State())) == (Value(), conn.State())
          decreases more, |conn.State().pending|
        {
          more := Next();
        }
      }
      e := err;
    }
  }

  /** A caller that runs a query, takes `n` steps and closes the cursor. */
  method RunQuery(conn: GoConn, n: nat) returns (o: Outcome)
    modifies conn`broken, conn.wire
    ensures (o, conn.State()) == QueryOf(old(conn.State()), n)
  {
    hide Take, Primed, NextOf, Exhausted, Received;
    var rows, err := conn.Query(true);
    if rows.None? {
      return Failed(err.value);
    }
    var r := rows.value;
    ghost var c0, l0 := r.Value(), conn.State();
    var taken: seq<seq<Cell>> := [];
    assert [] + CallsOf(c0, l0, n).0 == CallsOf(c0, l0, n).0;
    for i := 0 to n
      invariant r.conn == conn && fresh(r)
      invariant CallsFrom(c0, l0, n, taken, r.Value(), conn.State(), n - i)
    {
      ghost var c1, l1 := r.Value(), conn.State();
      var more := r.Next();
      ghost var before := taken;
      if more {
        taken := taken + [r.cur];
      }
      CallsStep(c0, l0, n, before, c1, l1, n - i);
    }
    CallsEnd(c0, l0, n, taken, r.Value(), conn.State());
    var _ := r.Close();
    o := Finished(r.columns, taken, r.err, r.tag);
  }

  /** `n` calls from (c0, l0) deliver `taken` and then what `left` calls from (c, l) deliver. */
  ghost predicate CallsFrom(c0: Cursor, l0: Link, n: nat, taken: seq<seq<Cell>>, c: Cursor, l: Link, left: nat) {
    var (rows, c', l') := CallsOf(c, l, left);
    CallsOf(c0, l0, n) == (taken + rows, c', l')
  }

  lemma CallsStep(c0: Cursor, l0: Link, n: nat, taken: seq<seq<Cell>>, c: Cursor, l: Link, left: nat)
    requires left > 0 && CallsFrom(c0, l0, n, taken, c, l, left)
    ensures var (more, c', l') := NextOf(c, l);
      CallsFrom(c0, l0, n, if more then taken + [c'.cur] else taken, c', l', left - 1)
  {
    hide NextOf;
    var (more, c', l') := NextOf(c, l);
    var rows := CallsOf(c', l', left - 1).0;
    assert taken + ([c'.cur] + rows) == taken + [c'.cur] + rows;
    assert [] + rows == rows;
  }

  lemma CallsEnd(c0: Cursor, l0: Link, n: nat, taken: seq<seq<Cell>>, c: Cursor, l: Link)
    requires CallsFrom(c0, l0, n, taken, c, l, 0)
    ensures CallsOf(c0, l0, n) == (taken, c, l)
  {
    assert taken + [] == taken;
  }

  /** One connection, one query after the other, the bytes arriving in any split: the k-th outcome is the
      one the k-th response dictates, and the bytes after the last response are untouched. */
  method RunGoSession(network: seq<seq<byte>>, ghost rs: seq<seq<ServerMessage>>, ns: seq<nat>, ghost tail: seq<byte>)
    returns (os: seq<Outcome>, wire: GoWire)
    requires |rs| == |ns| && Served(Go, rs) && AllAnnounced(rs)
    requires Concat(network) == EncodeSession(rs) + tail
    ensures |os| == |ns| && forall k :: 0 <= k < |os| ==> os[k] == GoExpected(Views(Go, rs[k]), ns[k])
    ensures wire.Pending() == tail
  {
    hide Take, QueryOf, GoExpected, Response, Announced;
    wire := new GoWire(network);
    var conn := new GoConn(wire);
    ghost var l0 := conn.State();
    GoSessionAligned(rs, ns, tail);
    os := [];
    assert ns[0..] == ns && [] + SessionOf(l0, ns).0 == SessionOf(l0, ns).0;
    for i := 0 to |ns|
      invariant conn.wire == wire && fresh(conn) && fresh(wire)
      invariant SessionFrom(l0, ns, os, conn.State(), i)
    {
      ghost var l1, before := conn.State(), os;
      var o := RunQuery(conn, ns[i]);
      os := os + [o];
      SessionStep(l0, ns, before, l1, i);
    }
    SessionEnd(l0, ns, os, conn.State());
  }

  ghost predicate SessionFrom(l0: Link, ns: seq<nat>, os: seq<Outcome>, l: Link, i: nat)
    requires i <= |ns|
  {
    var (rest, l') := SessionOf(l, ns[i..]);
    SessionOf(l0, ns) == (os + rest, l')
  }

  lemma SessionStep(l0: Link, ns: seq<nat>, os: seq<Outcome>, l: Link, i: nat)
    requires i < |ns| && SessionFrom(l0, ns, os, l, i)
    ensures var (o, l') := QueryOf(l, ns[i]); SessionFrom(l0, ns, os + [o], l', i + 1)
  {
    hide QueryOf;
    var (o, l') := QueryOf(l, ns[i]);
    assert ns[i..][1..] == ns[i + 1..];
    var rest := SessionOf(l', ns[i + 1..]).0;
    assert os + ([o] + rest) == os + [o] + rest;
  }

  lemma SessionEnd(l0: Link, ns: seq<nat>, os: seq<Outcome>, l: Link)
    requires SessionFrom(l0, ns, os, l, |ns|)
    ensures SessionOf(l0, ns) == (os, l)
  {
    assert os + [] == os;
  }

  // ----- the Rust client as an object -----

  class RustClient {
    const wire: RustWire

    constructor (wire: RustWire)
      ensures this.wire == wire
    {
      this.wire := wire;
    }

    /** pgwire.rs:277-312, after the request has been written. */
    method Query() returns (r: Result<QueryResult, Failure>)
      requires wire.Valid()
      modifies wire
      ensures wire.Valid()
      ensures var (o, l) := RustLoop(wire.client, Link(old(wire.Pending()), false), NO_RESULT);
        r == o && (!l.broken ==> wire.Pending() == l.pending)
    {
      hide Take, Drained, Names;
      var q := NO_RESULT;
      ghost var all := RustLoop(wire.client, Link(wire.Pending(), false), NO_RESULT);
      while true
        invariant wire.Valid()
        invariant all == RustLoop(wire.client, Link(wire.Pending(), false), q)
        decreases |wire.Pending()|
      {
        var m := wire.ReadMessage();
        match m
        case None =>
          return Err(Lost);
        case Some(Columns(columns)) =>
          q := q.(columns := Names(columns), rows := []);
        case Some(Row(cells)) =>
          q := q.(rows := q.rows + [RustRow(q.columns, cells)]);
        case Some(Complete(tag)) =>
          q := q.(tag := Some(tag));
        case Some(ServerError(text)) =>
          var drained := Drain();
          return if drained then Err(Server(text)) else Err(Lost);
        case Some(Ready(_)) =>
          return Ok(q);
        case Some(_) =>
      }
    }

    /** pgwire.rs:299-303 */
    method Drain() returns (ok: bool)
      requires wire.Valid()
      modifies wire
      ensures wire.Valid()
      ensures var l := Drained(wire.client, Link(old(wire.Pending()), false));
        ok == !l.broken && (ok ==> wire.Pending() == l.pending)
    {
      hide Take;
      ghost var all := Drained(wire.client, Link(wire.Pending(), false));
      while true
        invariant wire.Valid()
        invariant all == Drained(wire.client, Link(wire.Pending(), false))
        decreases |wire.Pending()|
      {
        var m := wire.ReadMessage();
        if m.None? {
          return false;
        }
        if m.value.Ready? {
          return true;
        }
      }
    }
  }

  /** The same for the Rust client: `count` queries against as many responses. */
  method RunRustSession(lossy: Text -> Text, network: seq<seq<byte>>, count: nat, ghost rs: seq<seq<ServerMessage>>,
                        ghost tail: seq<byte>)
    returns (os: seq<Result<QueryResult, Failure>>, wire: RustWire)
    requires forall i :: 0 <= i < |network| ==> network[i] != []
    requires count == |rs| && Served(Rust(lossy), rs)
    requires Concat(network) == EncodeSession(rs) + tail
    ensures |os| == count
    ensures forall k :: 0 <= k < |os| ==>
      Response(Views(Rust(lossy), rs[k]))
        && os[k] == RustExpected(Views(Rust(lossy), rs[k]), NO_RESULT)
    ensures wire.Pending() == tail
  {
    hide Take, RustLoop, RustExpected, Response, EncodeAll, Sendable, Views;
    wire := new RustWire(lossy, network);
    var client := new RustClient(wire);
    os := [];
    assert rs[0..] == rs;
    for i := 0 to count
      invariant client.wire == wire && wire.client == Rust(lossy) && fresh(wire) && wire.Valid()
      invariant |os| == i
      invariant wire.Pending() == EncodeSession(rs[i..]) + tail
      invariant forall k :: 0 <= k < i ==>
        Response(Views(Rust(lossy), rs[k]))
          && os[k] == RustExpected(Views(Rust(lossy), rs[k]), NO_RESULT)
    {
      NextResponse(Rust(lossy), rs, i, tail);
      var o := client.Query();
      os := os + [o];
    }
    assert EncodeSession(rs[count..]) + tail == tail;
  }

  lemma NextResponse(rust: Client, rs: seq<seq<ServerMessage>>, i: nat, tail: seq<byte>)
    requires i < |rs| && Served(rust, rs)
    ensures Response(Views(rust, rs[i]))
    ensures RustLoop(rust, Link(EncodeSession(rs[i..]) + tail, false), NO_RESULT)
         == (RustExpected(Views(rust, rs[i]), NO_RESULT), Link(EncodeSession(rs[i + 1..]) + tail, false))
  {
    hide Take, RustLoop, RustExpected, Response, EncodeAll, Sendable, Views;
    assert rs[i] in rs;
    var rest := EncodeSession(rs[i + 1..]) + tail;
    assert rs[i..][1..] == rs[i + 1..];
    assert EncodeSession(rs[i..]) + tail == EncodeAll(rs[i]) + rest;
    EncodedCarries(rust, rs[i], rest);
    RustQueryAligned(rust, EncodeAll(rs[i]) + rest, Views(rust, rs[i]), rest);
  }
}