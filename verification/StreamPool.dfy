/**
 Exclusive checkout of connections from `conn.rs`: the pool of idle streams, and every
 interleaving of queries on one non-multiplexed channel.
 */
module StreamPool {

  datatype Option<T> = None | Some(value: T)

  /** Connections are known by number; times are in nanoseconds. */
  datatype Idle = Idle(conn: nat, since: nat)

  const IDLE_CAP: nat := 10_000_000_000
  const IDLE_MAX: nat := 4
  const DIAL_BACKOFF: nat := 1_000_000_000

  predicate Stale(i: Idle, now: nat) {
    now > i.since + IDLE_CAP
  }

  predicate Usable(i: Idle, now: nat, alive: nat -> bool) {
    !Stale(i, now) && alive(i.conn)
  }

  /** The pool after the sweep from its oldest end. */
  function Swept(held: seq<Idle>, now: nat, alive: nat -> bool): seq<Idle> {
    if held == [] || Usable(held[0], now, alive) then held else Swept(held[1..], now, alive)
  }

  function TakeFrom(held: seq<Idle>, now: nat, alive: nat -> bool): (seq<Idle>, Option<Idle>) {
    var rest := Swept(held, now, alive);
    if rest != [] && Usable(rest[|rest| - 1], now, alive) then (rest[..|rest| - 1], Some(rest[|rest| - 1]))
    else (rest, None)
  }

  function Capped(held: seq<Idle>): seq<Idle> {
    if |held| <= IDLE_MAX then held else Capped(held[1..])
  }

  function PutBack(held: seq<Idle>, conn: nat, now: nat): seq<Idle> {
    Capped(held + [Idle(conn, now)])
  }

  class Pool {
    var idle: seq<Idle>

    constructor ()
      ensures idle == []
    {
      idle := [];
    }

    method Take(now: nat, alive: nat -> bool) returns (r: Option<Idle>)
      modifies this
      ensures (idle, r) == TakeFrom(old(idle), now, alive)
    {
      while idle != [] && (Stale(idle[0], now) || !alive(idle[0].conn))
        invariant Swept(idle, now, alive) == Swept(old(idle), now, alive)
        decreases |idle|
      {
        idle := idle[1..];
      }
      if idle != [] && Usable(idle[|idle| - 1], now, alive) {
        r := Some(idle[|idle| - 1]);
        idle := idle[..|idle| - 1];
      } else {
        r := None;
      }
    }

    method Put(conn: nat, now: nat)
      modifies this
      ensures idle == PutBack(old(idle), conn, now)
    {
      idle := idle + [Idle(conn, now)];
      while |idle| > IDLE_MAX
        invariant Capped(idle) == PutBack(old(idle), conn, now)
        decreases |idle|
      {
        idle := idle[1..];
      }
    }
  }

  // ---- the pool on its own

  lemma {:induction false} SweptIsSuffix(held: seq<Idle>, now: nat, alive: nat -> bool) returns (n: nat)
    ensures n <= |held| && Swept(held, now, alive) == held[n..]
    ensures forall i :: 0 <= i < n ==> !Usable(held[i], now, alive)
  {
    if held == [] || Usable(held[0], now, alive) {
      n := 0;
      assert held[0..] == held;
    } else {
      var m := SweptIsSuffix(held[1..], now, alive);
      n := m + 1;
      assert held[1..][m..] == held[n..];
      assert forall i :: 1 <= i < n ==> held[i] == held[1..][i - 1];
    }
  }

  /** A checkout hands out the newest idle connection exactly when that one is usable; otherwise
      it hands out nothing, even if an older one would do. */
  lemma TakeIsNewest(held: seq<Idle>, now: nat, alive: nat -> bool) returns (n: nat)
    ensures TakeFrom(held, now, alive).1
            == if held != [] && now <= held[|held| - 1].since + 10_000_000_000 && alive(held[|held| - 1].conn)
               then Some(held[|held| - 1]) else None
    ensures var rest := TakeFrom(held, now, alive).0;
            n + |rest| <= |held| && rest == held[n..n + |rest|]
  {
    n := SweptIsSuffix(held, now, alive);
    var rest := held[n..];
    if rest != [] {
      assert rest[|rest| - 1] == held[|held| - 1];
    } else if held != [] {
      assert !Usable(held[|held| - 1], now, alive);
    }
    var kept := TakeFrom(held, now, alive).0;
    assert kept == held[n..n + |kept|];
  }

  ghost predicate InOrder(held: seq<Idle>) {
    forall i, j :: 0 <= i < j < |held| ==> held[i].since <= held[j].since
  }

  /** When nothing vouches for liveness, a checkout fails only on a pool with nothing fresh in it,
      and leaves that pool empty. */
  lemma TakeMissesOnlyStale(held: seq<Idle>, now: nat)
    requires InOrder(held)
    ensures TakeFrom(held, now, _ => true).1.None? <==> forall i :: 0 <= i < |held| ==> now > held[i].since + IDLE_CAP
    ensures TakeFrom(held, now, _ => true).1.None? ==> TakeFrom(held, now, _ => true).0 == []
  {
    var alive: nat -> bool := _ => true;
    var _ := TakeIsNewest(held, now, alive);
    var n := SweptIsSuffix(held, now, alive);
    if held != [] {
      var last := |held| - 1;
      forall i | 0 <= i < |held| && Stale(held[last], now) ensures Stale(held[i], now) {
        assert i < last ==> held[i].since <= held[last].since;
      }
      var rest := held[n..];
      if rest != [] {
        assert Swept(held, now, alive) == rest;
        SweptHead(held, now, alive);
        assert rest[0] == held[n];
      }
    }
  }

  lemma {:induction false} SweptHead(held: seq<Idle>, now: nat, alive: nat -> bool)
    ensures Swept(held, now, alive) != [] ==> Usable(Swept(held, now, alive)[0], now, alive)
  {
    if held != [] && !Usable(held[0], now, alive) {
      SweptHead(held[1..], now, alive);
    }
  }

  /** Returning keeps the most recently returned, at most four. */
  lemma PutKeepsNewest(held: seq<Idle>, conn: nat, now: nat)
    requires |held| <= IDLE_MAX
    ensures PutBack(held, conn, now) == (if |held| == IDLE_MAX then held[1..] else held) + [Idle(conn, now)]
    ensures |PutBack(held, conn, now)| <= 4
  {
    var more := held + [Idle(conn, now)];
    if |held| == IDLE_MAX {
      assert more[1..] == held[1..] + [Idle(conn, now)];
      assert Capped(more) == Capped(more[1..]);
    }
  }

  // ---- queries on one channel

  /** How many query frames a connection has carried, and how many complete validated replies
      have been read off it. */
  datatype Conn = Conn(written: nat, replies: nat)

  /** What a query is doing.  `reused` says whether its connection came from the pool. */
  datatype Query =
    | Asking
    | Ready(conn: nat, reused: bool)
    | Wrote(conn: nat, reused: bool)
    | Answered(conn: nat)
    | Dialing
    | Wanting
    | Over

  datatype State = State(idle: seq<Idle>, conns: seq<Conn>, queries: seq<Query>, recent: Option<nat>, clock: nat)

  datatype Event =
    | Begin
    | Checkout(q: nat)
    | Write(q: nat)
    | Reply(q: nat)
    | Return(q: nat)
    | Fail(q: nat)       // a timeout, a short read, a reply to another question
    | StartDial(q: nat)
    | Dialed(q: nat)
    | DialFailed(q: nat)
    | Blocked(q: nat)    // a recent failure or a spent deadline answers instead of a dial
    | Abandon(q: nat)    // the future is dropped
    | Close              // every idle connection is dropped
    | Tick(span: nat)

  const INITIAL: State := State([], [], [], None, 0)

  predicate Backoff(s: State) {
    s.recent.Some? && s.recent.value > s.clock
  }

  predicate Enabled(s: State, e: Event) {
    match e
    case Begin => true
    case Checkout(q) => q < |s.queries| && s.queries[q].Asking?
    case Write(q) => q < |s.queries| && s.queries[q].Ready? && s.queries[q].conn < |s.conns|
    case Reply(q) => q < |s.queries| && s.queries[q].Wrote? && s.queries[q].conn < |s.conns|
    case Return(q) => q < |s.queries| && s.queries[q].Answered?
    case Fail(q) => q < |s.queries| && (s.queries[q].Ready? || s.queries[q].Wrote?)
    case StartDial(q) => q < |s.queries| && s.queries[q].Wanting? && !Backoff(s)
    case Dialed(q) => q < |s.queries| && s.queries[q].Dialing?
    case DialFailed(q) => q < |s.queries| && s.queries[q].Dialing?
    case Blocked(q) => q < |s.queries| && s.queries[q].Wanting?
    case Abandon(q) => q < |s.queries|
    case Close => true
    case Tick(_) => true
  }

  function To(s: State, q: nat, to: Query): State
    requires q < |s.queries|
  {
    s.(queries := s.queries[q := to])
  }

  function Step(s: State, e: Event): State
    requires Enabled(s, e)
  {
    match e
    case Begin => s.(queries := s.queries + [Asking])
    case Checkout(q) =>
      var (held, got) := TakeFrom(s.idle, s.clock, _ => true);
      To(s.(idle := held), q, if got.Some? then Ready(got.value.conn, true) else Wanting)
    case Write(q) =>
      var c := s.queries[q].conn;
      To(s.(conns := s.conns[c := Conn(s.conns[c].written + 1, s.conns[c].replies)]), q, Wrote(c, s.queries[q].reused))
    case Reply(q) =>
      var c := s.queries[q].conn;
      To(s.(conns := s.conns[c := Conn(s.conns[c].written, s.conns[c].replies + 1)]), q, Answered(c))
    case Return(q) => To(s.(idle := PutBack(s.idle, s.queries[q].conn, s.clock)), q, Over)
    case Fail(q) => To(s, q, if s.queries[q].reused then Wanting else Over)
    case StartDial(q) => To(s, q, Dialing)
    case Dialed(q) => To(s.(conns := s.conns + [Conn(0, 0)], recent := None), q, Ready(|s.conns|, false))
    case DialFailed(q) => To(s.(recent := Some(s.clock + DIAL_BACKOFF)), q, Over)
    case Blocked(q) => To(s, q, Over)
    case Abandon(q) => To(s, q, Over)
    case Close => s.(idle := [])
    case Tick(span) => s.(clock := s.clock + span)
  }

  ghost predicate Reachable(s: State, n: nat)
    decreases n
  {
    if n == 0 then s == INITIAL
    else exists p, e :: Reachable(p, n - 1) && Enabled(p, e) && s == Step(p, e)
  }

  predicate Holds(q: Query) {
    q.Ready? || q.Wrote? || q.Answered?
  }

  /** Each connection idles in one place or is held by one query, never both. */
  ghost predicate Exclusive(s: State) {
    && (forall i, j :: 0 <= i < j < |s.idle| ==> s.idle[i].conn != s.idle[j].conn)
    && (forall p, q :: 0 <= p < q < |s.queries| && Holds(s.queries[p]) && Holds(s.queries[q]) ==>
          s.queries[p].conn != s.queries[q].conn)
    && (forall i, q :: 0 <= i < |s.idle| && 0 <= q < |s.queries| && Holds(s.queries[q]) ==>
          s.idle[i].conn != s.queries[q].conn)
  }

  /** Frames and replies match, except for the one query in progress; nothing was returned after now. */
  ghost predicate Balanced(s: State) {
    && (forall i :: 0 <= i < |s.idle| ==>
          s.idle[i].since <= s.clock && s.idle[i].conn < |s.conns|
          && s.conns[s.idle[i].conn].written == s.conns[s.idle[i].conn].replies)
    && (forall q :: 0 <= q < |s.queries| ==> QueryBalanced(s, s.queries[q]))
  }

  predicate QueryBalanced(s: State, q: Query) {
    Holds(q) ==>
      q.conn < |s.conns|
      && s.conns[q.conn].written == s.conns[q.conn].replies + if q.Wrote? then 1 else 0
  }

  ghost predicate Orderly(s: State) {
    |s.idle| <= IDLE_MAX && InOrder(s.idle)
  }

  ghost predicate Inv(s: State) {
    Exclusive(s) && Balanced(s) && Orderly(s)
  }

  lemma CheckoutExclusive(s: State, q: nat)
    requires Inv(s) && Enabled(s, Checkout(q))
    ensures Exclusive(Step(s, Checkout(q)))
  {
    hide TakeFrom, Balanced, InOrder;
    var t := Step(s, Checkout(q));
    var alive: nat -> bool := _ => true;
    var n := TakeIsNewest(s.idle, s.clock, alive);
    assert forall i :: 0 <= i < |t.idle| ==> t.idle[i] == s.idle[n + i];
    TakenIsGone(s.idle, s.clock, alive);
  }

  lemma CheckoutOther(s: State, q: nat)
    requires Inv(s) && Enabled(s, Checkout(q))
    ensures Balanced(Step(s, Checkout(q))) && Orderly(Step(s, Checkout(q)))
  {
    hide TakeFrom, Exclusive;
    var t := Step(s, Checkout(q));
    var alive: nat -> bool := _ => true;
    var n := TakeIsNewest(s.idle, s.clock, alive);
    assert forall i :: 0 <= i < |t.idle| ==> t.idle[i] == s.idle[n + i];
    TakenIsGone(s.idle, s.clock, alive);
  }

  lemma TakenIsGone(held: seq<Idle>, now: nat, alive: nat -> bool)
    ensures var (rest, got) := TakeFrom(held, now, alive);
            got.Some? ==> held != [] && got.value == held[|held| - 1]
                          && forall i :: 0 <= i < |rest| ==> exists j :: 0 <= j < |held| - 1 && rest[i] == held[j]
  {
    var n := SweptIsSuffix(held, now, alive);
    var (rest, got) := TakeFrom(held, now, alive);
    if got.Some? {
      forall i | 0 <= i < |rest| ensures exists j :: 0 <= j < |held| - 1 && rest[i] == held[j] {
        assert rest[i] == held[n + i];
      }
    }
  }

  lemma ReturnExclusive(s: State, q: nat)
    requires Inv(s) && Enabled(s, Return(q))
    ensures Exclusive(Step(s, Return(q)))
  {
    hide Capped, PutBack, Balanced, InOrder;
    PutKeepsNewest(s.idle, s.queries[q].conn, s.clock);
  }

  lemma ReturnBalanced(s: State, q: nat)
    requires Inv(s) && Enabled(s, Return(q))
    ensures Balanced(Step(s, Return(q)))
  {
    hide Capped, PutBack, Exclusive, InOrder;
    PutKeepsNewest(s.idle, s.queries[q].conn, s.clock);
    assert QueryBalanced(s, s.queries[q]);
    var t := Step(s, Return(q));
    forall p | 0 <= p < |t.queries| ensures QueryBalanced(t, t.queries[p]) {
      assert QueryBalanced(s, s.queries[p]);
    }
  }

  lemma ReturnOrderly(s: State, q: nat)
    requires Inv(s) && Enabled(s, Return(q))
    ensures Orderly(Step(s, Return(q)))
  {
    hide Capped, PutBack, Exclusive, QueryBalanced;
    PutKeepsNewest(s.idle, s.queries[q].conn, s.clock);
  }

  lemma TrafficInv(s: State, e: Event)
    requires Inv(s) && Enabled(s, e) && (e.Write? || e.Reply?)
    ensures Inv(Step(s, e))
  {
    var t, c := Step(s, e), s.queries[e.q].conn;
    assert QueryBalanced(s, s.queries[e.q]);
    forall q | 0 <= q < |t.queries| ensures QueryBalanced(t, t.queries[q]) {
      assert QueryBalanced(s, s.queries[q]);
      if q != e.q && Holds(s.queries[q]) {
        assert s.queries[q].conn != c;
      }
    }
  }

  lemma DialInv(s: State, e: Event)
    requires Inv(s) && Enabled(s, e) && e.Dialed?
    ensures Inv(Step(s, e))
  {
    var t := Step(s, e);
    forall q | 0 <= q < |t.queries| ensures QueryBalanced(t, t.queries[q]) {
      assert QueryBalanced(s, s.queries[q]);
    }
    forall q | 0 <= q < |s.queries| && Holds(s.queries[q]) ensures s.queries[q].conn < |s.conns| {
      assert QueryBalanced(s, s.queries[q]);
    }
  }

  // Any other step moves no connection, except to drop one.

  lemma OtherExclusive(s: State, e: Event)
    requires Inv(s) && Enabled(s, e)
    requires !e.Checkout? && !e.Return? && !e.Write? && !e.Reply? && !e.Dialed?
    ensures Exclusive(Step(s, e))
  {
    hide Balanced, Orderly, InOrder;
  }

  lemma OtherBalanced(s: State, e: Event)
    requires Inv(s) && Enabled(s, e)
    requires !e.Checkout? && !e.Return? && !e.Write? && !e.Reply? && !e.Dialed?
    ensures Balanced(Step(s, e))
  {
    hide Exclusive, Orderly, InOrder;
    var t := Step(s, e);
    forall q | 0 <= q < |t.queries| ensures QueryBalanced(t, t.queries[q]) {
      if q < |s.queries| {
        assert QueryBalanced(s, s.queries[q]);
      }
    }
  }

  lemma OtherOrderly(s: State, e: Event)
    requires Inv(s) && Enabled(s, e)
    requires !e.Checkout? && !e.Return? && !e.Write? && !e.Reply? && !e.Dialed?
    ensures Orderly(Step(s, e))
  {
    hide Exclusive, Balanced, InOrder;
    NoneInOrder();
  }

  lemma NoneInOrder()
    ensures InOrder([])
  {
  }

  lemma InvStep(s: State, e: Event)
    requires Inv(s) && Enabled(s, e)
    ensures Inv(Step(s, e))
  {
    hide Exclusive, Balanced, Orderly, Step, Enabled;
    match e
    case Checkout(q) =>
      CheckoutExclusive(s, q);
      CheckoutOther(s, q);
    case Return(q) =>
      ReturnExclusive(s, q);
      ReturnBalanced(s, q);
      ReturnOrderly(s, q);
    case Write(_) => TrafficInv(s, e);
    case Reply(_) => TrafficInv(s, e);
    case Dialed(_) => DialInv(s, e);
    case _ =>
      OtherExclusive(s, e);
      OtherBalanced(s, e);
      OtherOrderly(s, e);
  }

  /** In every interleaving a connection is idle or held by one query, never both; every idle one
      has had as many validated replies read as queries written; at most four are kept, in order
      of return. */
  lemma {:induction false} PoolSafe(s: State, n: nat)
    requires Reachable(s, n)
    ensures Inv(s)
    decreases n
  {
    hide Step, Enabled;
    if n > 0 {
      var p, e :| Reachable(p, n - 1) && Enabled(p, e) && s == Step(p, e);
      PoolSafe(p, n - 1);
      InvStep(p, e);
    }
  }

  /** A connection handed out was the last one returned, has not idled past the cap, and has no
      reply left unread. */
  lemma CheckedOutIsClean(s: State, n: nat, q: nat)
    requires Reachable(s, n) && Enabled(s, Checkout(q)) && Step(s, Checkout(q)).queries[q].Ready?
    ensures s.idle != []
    ensures var last := s.idle[|s.idle| - 1];
            && Step(s, Checkout(q)).queries[q] == Ready(last.conn, true)
            && s.clock <= last.since + IDLE_CAP
            && last.conn < |s.conns| && s.conns[last.conn].written == s.conns[last.conn].replies
  {
    hide TakeFrom, Reachable, Exclusive, Orderly, QueryBalanced;
    PoolSafe(s, n);
    var _ := TakeIsNewest(s.idle, s.clock, _ => true);
  }

  /** Only a query whose own reply has been read and validated puts a connection back. */
  lemma OnlyAnsweredReturns(s: State, e: Event, i: nat)
    requires Enabled(s, e) && i < |Step(s, e).idle|
    ensures Step(s, e).idle[i] in s.idle || (e.Return? && s.queries[e.q] == Answered(Step(s, e).idle[i].conn))
  {
    hide Capped, TakeFrom;
    match e
    case Checkout(q) =>
      var n := TakeIsNewest(s.idle, s.clock, _ => true);
      assert Step(s, e).idle[i] == s.idle[n + i];
    case Return(q) =>
      var more := s.idle + [Idle(s.queries[q].conn, s.clock)];
      CappedMembers(more);
      assert Step(s, e).idle[i] in more;
    case _ =>
  }

  lemma {:induction false} CappedMembers(held: seq<Idle>)
    ensures forall i :: i in Capped(held) ==> i in held
  {
    if |held| > IDLE_MAX {
      CappedMembers(held[1..]);
    }
  }
}
