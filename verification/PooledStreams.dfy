/**
 The pool and the byte streams together: every interleaving of queries over pooled connections
 whose other end answers each query with one frame, right or wrong.
 */
module PooledStreams {
  import opened Bytes
  import P = StreamPool
  import X = StreamExchange

  type Decoder = ByteString -> X.Option<X.Message>

  /** Streams are numbered like the pool's connections, and requests like its queries.  `sent[q]` is
      the message in the frame that answers query `q`, and `got[q]` what that query made of it. */
  datatype State = State(pool: P.State, streams: seq<X.Conn>, requests: seq<X.Message>, sent: seq<ByteString>,
                         got: seq<X.Outcome>)

  datatype Event =
    | Ask(req: X.Message)
    | Send(q: nat, wire: ByteString, answer: ByteString)  // the query goes out; its answer will come
    | Receive(q: nat)                                     // a frame is read and checked
    | Other(e: P.Event)

  const INITIAL: State := State(P.INITIAL, [], [], [], [])

  predicate Enabled(s: State, e: Event) {
    match e
    case Ask(_) => true
    case Send(q, wire, answer) =>
      P.Enabled(s.pool, P.Write(q)) && q < |s.sent| && s.pool.queries[q].conn < |s.streams|
      && |wire| < U16_LIMIT && |answer| < U16_LIMIT
    case Receive(q) =>
      P.Enabled(s.pool, P.Reply(q)) && q < |s.requests| && q < |s.sent| && q < |s.got|
      && s.pool.queries[q].conn < |s.streams|
    case Other(p) => P.Enabled(s.pool, p) && !p.Begin? && !p.Write? && !p.Reply?
  }

  /** What query `q` reads from its stream, and what is left there. */
  function Read(s: State, q: nat, decode: Decoder): (ByteString, X.Outcome)
    requires Enabled(s, Receive(q))
  {
    X.ReadReply(s.streams[s.pool.queries[q].conn].inbox, s.requests[q], decode)
  }

  /** The pool's part in a step: a reply that is not valid is a failure. */
  function PoolEvent(s: State, e: Event, decode: Decoder): P.Event
    requires Enabled(s, e)
  {
    match e
    case Ask(_) => P.Begin
    case Send(q, _, _) => P.Write(q)
    case Receive(q) => if Read(s, q, decode).1.Answered? then P.Reply(q) else P.Fail(q)
    case Other(p) => p
  }

  function Step(s: State, e: Event, decode: Decoder): State
    requires Enabled(s, e)
  {
    var t := s.(pool := P.Step(s.pool, PoolEvent(s, e, decode)));
    match e
    case Ask(req) => t.(requests := s.requests + [req], sent := s.sent + [[]], got := s.got + [X.Failed])
    case Send(q, wire, answer) =>
      var c := s.pool.queries[q].conn;
      var x := s.streams[c];
      t.(streams := s.streams[c := X.Conn(x.outbox + X.Frame(wire), x.inbox + X.Frame(answer))],
         sent := s.sent[q := answer])
    case Receive(q) =>
      var c := s.pool.queries[q].conn;
      var (rest, outcome) := Read(s, q, decode);
      t.(streams := s.streams[c := X.Conn(s.streams[c].outbox, rest)], got := s.got[q := outcome])
    case Other(p) => if p.Dialed? then t.(streams := s.streams + [X.Conn([], [])]) else t
  }

  ghost predicate Reachable(s: State, decode: Decoder, n: nat)
    decreases n
  {
    if n == 0 then s == INITIAL
    else exists p, e :: Reachable(p, decode, n - 1) && Enabled(p, e) && s == Step(p, e, decode)
  }

  ghost predicate Sized(s: State) {
    |s.streams| == |s.pool.conns| && |s.requests| == |s.sent| == |s.got| == |s.pool.queries|
  }

  /** What a query's stream holds unread: its own answer once it has asked, and nothing otherwise. */
  predicate QueryClean(s: State, q: nat)
    requires q < |s.pool.queries| && q < |s.sent|
  {
    var g := s.pool.queries[q];
    P.Holds(g) ==>
      && g.conn < |s.streams|
      && s.streams[g.conn].inbox == (if g.Wrote? then X.Frame(s.sent[q]) else [])
      && (g.Wrote? ==> |s.sent[q]| < U16_LIMIT)
  }

  ghost predicate IdleClean(s: State) {
    forall i :: 0 <= i < |s.pool.idle| ==> s.pool.idle[i].conn < |s.streams| && s.streams[s.pool.idle[i].conn].inbox == []
  }

  ghost predicate Inv(s: State) {
    P.Inv(s.pool) && Sized(s) && IdleClean(s) && forall q :: 0 <= q < |s.pool.queries| ==> QueryClean(s, q)
  }

  /** A query's own frame is all it can read. */
  lemma ReadsOwn(s: State, q: nat, decode: Decoder)
    requires Inv(s) && Enabled(s, Receive(q))
    ensures var m := decode(s.sent[q]);
            Read(s, q, decode)
            == ([], if m.Some? && X.Valid(s.requests[q], m.value) then X.Answered(m.value) else X.Failed)
  {
    hide P.Inv, X.Frame, X.ReadFrame, X.Valid;
    assert QueryClean(s, q);
    X.FrameReads(s.sent[q], []);
    assert X.Frame(s.sent[q]) + [] == X.Frame(s.sent[q]);
  }

  /** Where the connection a query holds after a step came from. */
  lemma HeldFrom(s: P.State, e: P.Event, q: nat)
    requires P.Enabled(s, e) && q < |P.Step(s, e).queries| && P.Holds(P.Step(s, e).queries[q])
    ensures var g := P.Step(s, e).queries[q];
            || (q < |s.queries| && g == s.queries[q] && !((e.Write? || e.Reply? || e.Fail?) && e.q == q))
            || (e == P.Checkout(q) && g.Ready? && exists i :: 0 <= i < |s.idle| && s.idle[i].conn == g.conn)
            || (e == P.Dialed(q) && g.Ready? && g.conn == |s.conns|)
            || (e == P.Write(q) && q < |s.queries| && s.queries[q].Ready? && g.Wrote? && g.conn == s.queries[q].conn)
            || (e == P.Reply(q) && q < |s.queries| && s.queries[q].Wrote? && g == P.Answered(s.queries[q].conn))
  {
    hide P.TakeFrom, P.PutBack;
    if e == P.Checkout(q) {
      P.TakenIsGone(s.idle, s.clock, _ => true);
    }
  }

  lemma IdleStep(s: State, e: Event, decode: Decoder)
    requires Inv(s) && Enabled(s, e)
    ensures IdleClean(Step(s, e, decode))
  {
    var t, p := Step(s, e, decode), PoolEvent(s, e, decode);
    assert t.pool == P.Step(s.pool, p);
    hide P.Step, P.Enabled, Read, Step, P.Orderly;
    forall i | 0 <= i < |t.pool.idle|
      ensures t.pool.idle[i].conn < |t.streams| && t.streams[t.pool.idle[i].conn].inbox == []
    {
      var c := t.pool.idle[i].conn;
      P.OnlyAnsweredReturns(s.pool, p, i);
      if t.pool.idle[i] !in s.pool.idle {
        ReturnsClean(s, p.q, c);
      }
    }
  }

  lemma ReturnsClean(s: State, q: nat, c: nat)
    requires Inv(s) && q < |s.pool.queries| && s.pool.queries[q] == P.Answered(c)
    ensures c < |s.streams| && s.streams[c].inbox == []
  {
    assert QueryClean(s, q);
  }

  lemma QueryStep(s: State, e: Event, decode: Decoder, q: nat)
    requires Inv(s) && Enabled(s, e) && q < |Step(s, e, decode).pool.queries| && q < |Step(s, e, decode).sent|
    ensures QueryClean(Step(s, e, decode), q)
  {
    hide P.Step, P.Balanced, P.Orderly, Read;
    var t, p := Step(s, e, decode), PoolEvent(s, e, decode);
    assert t.pool == P.Step(s.pool, p);
    if P.Holds(t.pool.queries[q]) {
      HeldFrom(s.pool, p, q);
      if e.Send? && e.q == q {
        SendClean(s, e, decode);
      } else if e.Receive? && e.q == q {
        ReceiveClean(s, q, decode);
      } else if q < |s.pool.queries| {
        assert QueryClean(s, q);
      }
    }
  }

  lemma SendClean(s: State, e: Event, decode: Decoder)
    requires Inv(s) && Enabled(s, e) && e.Send?
    ensures var t, c := Step(s, e, decode), s.pool.queries[e.q].conn;
            t.streams[c].inbox == X.Frame(e.answer) && t.sent[e.q] == e.answer
  {
    hide P.Step, X.Frame;
    assert QueryClean(s, e.q);
    assert [] + X.Frame(e.answer) == X.Frame(e.answer);
  }

  lemma ReceiveClean(s: State, q: nat, decode: Decoder)
    requires Inv(s) && Enabled(s, Receive(q))
    ensures Step(s, Receive(q), decode).streams[s.pool.queries[q].conn].inbox == []
  {
    hide P.Step, Read;
    ReadsOwn(s, q, decode);
  }

  lemma InvStep(s: State, e: Event, decode: Decoder)
    requires Inv(s) && Enabled(s, e)
    ensures Inv(Step(s, e, decode))
  {
    var t, p := Step(s, e, decode), PoolEvent(s, e, decode);
    assert t.pool == P.Step(s.pool, p);
    hide P.Inv, P.Step, P.Enabled, Read, QueryClean, IdleClean, Step;
    P.InvStep(s.pool, p);
    IdleStep(s, e, decode);
    forall q | 0 <= q < |t.pool.queries| ensures QueryClean(t, q) {
      QueryStep(s, e, decode, q);
    }
  }

  lemma InitialInv()
    ensures Inv(INITIAL)
  {
  }

  lemma {:induction false} ReachableInv(s: State, decode: Decoder, n: nat)
    requires Reachable(s, decode, n)
    ensures Inv(s)
    decreases n
  {
    hide Step, Enabled, Inv;
    InitialInv();
    if n > 0 {
      var p, e :| Reachable(p, decode, n - 1) && Enabled(p, e) && s == Step(p, e, decode);
      ReachableInv(p, decode, n - 1);
      InvStep(p, e, decode);
    }
  }

  /** In every interleaving over pooled connections a query that reads is given the very message
      sent in answer to it, never one meant for another, and accepts it exactly when it carries the
      query's identifier and, unless nothing was asked, its question. */
  lemma RepliesAreOwn(s: State, decode: Decoder, n: nat, q: nat)
    requires Reachable(s, decode, n) && Enabled(s, Receive(q))
    ensures var req, m := s.requests[q], decode(s.sent[q]);
            Step(s, Receive(q), decode).got[q]
            == if && m.Some? && m.value.id == req.id
                  && (req.queries == []
                      || (|m.value.queries| == 1
                          && m.value.queries[0].qtype == req.queries[0].qtype
                          && m.value.queries[0].qclass == req.queries[0].qclass
                          && X.Folded(m.value.queries[0].name) == X.Folded(req.queries[0].name)))
               then X.Answered(m.value) else X.Failed
  {
    hide Inv, Reachable, P.Step, X.Valid, X.Folded;
    ReachableInv(s, decode, n);
    ReadsOwn(s, q, decode);
    if decode(s.sent[q]).Some? {
      X.ValidIff(s.requests[q], decode(s.sent[q]).value);
    }
  }

  /** A connection idles in the pool only with nothing left to read on it. */
  lemma IdleIsSilent(s: State, decode: Decoder, n: nat, i: nat)
    requires Reachable(s, decode, n) && i < |s.pool.idle|
    ensures s.pool.idle[i].conn < |s.streams| && s.streams[s.pool.idle[i].conn].inbox == []
  {
    hide Reachable;
    ReachableInv(s, decode, n);
  }
}
