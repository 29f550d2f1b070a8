/**
 The one connection all queries to an address share, and the single-flight dialling behind it,
 from `conn.rs`.  Every lock, counter and await point is a step, so any interleaving is a run.
 */
module SharedDial {

  datatype Option<T> = None | Some(value: T)

  /** A connection, known by number, with the stamp of this incarnation of the slot. */
  datatype Live = Live(stamp: nat, conn: nat)

  const DIAL_BACKOFF: nat := 1_000_000_000

  // ---- the slot and the dialler

  /** What `get` leaves in the slot and hands out: a dead connection is cleared away. */
  function GetFrom(live: Option<Live>, alive: nat -> bool): Option<Live> {
    if live.Some? && alive(live.value.conn) then live else None
  }

  function ForgetIn(live: Option<Live>, stamp: nat): Option<Live> {
    if live.Some? && live.value.stamp == stamp then None else live
  }

  predicate BlockedAt(recent: Option<nat>, now: nat) {
    recent.Some? && recent.value > now
  }

  class Shared {
    var live: Option<Live>
    var stamps: nat

    constructor ()
      ensures live == None && stamps == 0
    {
      live, stamps := None, 0;
    }

    method Get(alive: nat -> bool) returns (r: Option<Live>)
      modifies this`live
      ensures r == live == GetFrom(old(live), alive)
    {
      if live.Some? {
        if alive(live.value.conn) {
          return live;
        }
        live := None;
      }
      r := None;
    }

    method Put(conn: nat) returns (stamp: nat)
      modifies this
      ensures stamp == old(stamps) && stamps == old(stamps) + 1 && live == Some(Live(stamp, conn))
    {
      stamp := stamps;
      stamps := stamps + 1;
      live := Some(Live(stamp, conn));
    }

    method Forget(stamp: nat)
      modifies this`live
      ensures live == ForgetIn(old(live), stamp)
    {
      if live.Some? && live.value.stamp == stamp {
        live := None;
      }
    }
  }

  class Dialer {
    var recent: Option<nat>

    constructor ()
      ensures recent == None
    {
      recent := None;
    }

    method Blocked(now: nat) returns (r: bool)
      ensures r == BlockedAt(recent, now)
    {
      r := recent.Some? && recent.value > now;
    }

    method Failed(now: nat)
      modifies this
      ensures recent == Some(now + DIAL_BACKOFF)
    {
      recent := Some(now + DIAL_BACKOFF);
    }

    method Succeeded()
      modifies this
      ensures recent == None
    {
      recent := None;
    }
  }

  /** What an uncontended call finds or leaves: the slot, the next stamp, the recorded failure, and
      the connection handed out with whether it was already open.  The dial is put to the caller:
      `dialled` is the connection it gives, if it gives one. */
  function Connected(live: Option<Live>, stamps: nat, recent: Option<nat>, alive: nat -> bool,
                     asked: nat, refused: nat, dialled: Option<nat>): (Option<Live>, nat, Option<nat>, Option<(Live, bool)>)
  {
    var found := GetFrom(live, alive);
    if found.Some? then (found, stamps, recent, Some((found.value, true)))
    else if BlockedAt(recent, asked) then (None, stamps, recent, None)
    else if dialled.Some? then
      var l := Live(stamps, dialled.value);
      (Some(l), stamps + 1, None, Some((l, false)))
    else (None, stamps, Some(refused + DIAL_BACKOFF), None)
  }

  /** `shared`, when nobody else is at the gate; the slot is looked at on both sides of it. */
  method Connect(slot: Shared, dialer: Dialer, alive: nat -> bool, asked: nat, refused: nat, dialled: Option<nat>)
    returns (r: Option<(Live, bool)>)
    modifies slot, dialer
    ensures (slot.live, slot.stamps, dialer.recent, r)
            == Connected(old(slot.live), old(slot.stamps), old(dialer.recent), alive, asked, refused, dialled)
  {
    var found := slot.Get(alive);
    if found.Some? {
      return Some((found.value, true));
    }
    found := slot.Get(alive);
    assert found.None?;
    var blocked := dialer.Blocked(asked);
    if blocked {
      return None;
    }
    if dialled.None? {
      dialer.Failed(refused);
      return None;
    }
    dialer.Succeeded();
    var stamp := slot.Put(dialled.value);
    r := Some((Live(stamp, dialled.value), false));
  }

  // ---- callers

  datatype Caller =
    | Start
    | AtGate
    | Inside
    | Checked
    | Dialing
    | Opened(conn: nat)
    | Stamped(stamp: nat, conn: nat)
    | Have(stamp: nat, conn: nat)
    | Over

  /** `dead` only grows; `installed` records every connection ever put in the slot. */
  datatype State = State(live: Option<Live>, stamps: nat, gate: Option<nat>, recent: Option<nat>,
                         callers: seq<Caller>, conns: nat, dead: set<nat>, clock: nat, installed: seq<Live>)

  datatype Event =
    | Call
    | First(c: nat)      // the lookup before the gate
    | Acquire(c: nat)
    | Second(c: nat)     // the lookup behind the gate
    | Consult(c: nat)    // the recorded failure, then the dial
    | Opens(c: nat)
    | TakeStamp(c: nat)
    | Install(c: nat)
    | Refused(c: nat)
    | Forget(c: nat)
    | Retry(c: nat)
    | Abandon(c: nat)    // the future is dropped, and the gate with it
    | Dies(conn: nat)
    | Close
    | Tick(span: nat)

  const INITIAL: State := State(None, 0, None, None, [], 0, {}, 0, [])

  predicate Gated(c: Caller) {
    c.Inside? || c.Checked? || c.Dialing? || c.Opened? || c.Stamped?
  }

  predicate Enabled(s: State, e: Event) {
    match e
    case Call => true
    case First(c) => c < |s.callers| && s.callers[c].Start?
    case Acquire(c) => c < |s.callers| && s.callers[c].AtGate? && s.gate.None?
    case Second(c) => c < |s.callers| && s.callers[c].Inside?
    case Consult(c) => c < |s.callers| && s.callers[c].Checked?
    case Opens(c) => c < |s.callers| && s.callers[c].Dialing?
    case TakeStamp(c) => c < |s.callers| && s.callers[c].Opened?
    case Install(c) => c < |s.callers| && s.callers[c].Stamped?
    case Refused(c) => c < |s.callers| && s.callers[c].Dialing?
    case Forget(c) => c < |s.callers| && s.callers[c].Have?
    case Retry(c) => c < |s.callers| && s.callers[c].Over?
    case Abandon(c) => c < |s.callers|
    case Dies(_) => true
    case Close => true
    case Tick(_) => true
  }

  function AliveIn(s: State): nat -> bool {
    conn => conn !in s.dead
  }

  function To(s: State, c: nat, to: Caller): State
    requires c < |s.callers|
  {
    s.(callers := s.callers[c := to])
  }

  function Release(s: State, c: nat): State {
    if s.gate == Some(c) then s.(gate := None) else s
  }

  function Step(s: State, e: Event): State
    requires Enabled(s, e)
  {
    var alive := AliveIn(s);
    match e
    case Call => s.(callers := s.callers + [Start])
    case First(c) =>
      var got := GetFrom(s.live, alive);
      To(s.(live := got), c, if got.Some? then Have(got.value.stamp, got.value.conn) else AtGate)
    case Acquire(c) => To(s.(gate := Some(c)), c, Inside)
    case Second(c) =>
      var got := GetFrom(s.live, alive);
      if got.Some? then Release(To(s.(live := got), c, Have(got.value.stamp, got.value.conn)), c)
      else To(s.(live := got), c, Checked)
    case Consult(c) => if BlockedAt(s.recent, s.clock) then Release(To(s, c, Over), c) else To(s, c, Dialing)
    case Opens(c) => To(s.(recent := None, conns := s.conns + 1), c, Opened(s.conns))
    case TakeStamp(c) => To(s.(stamps := s.stamps + 1), c, Stamped(s.stamps, s.callers[c].conn))
    case Install(c) =>
      var l := Live(s.callers[c].stamp, s.callers[c].conn);
      Release(To(s.(live := Some(l), installed := s.installed + [l]), c, Have(l.stamp, l.conn)), c)
    case Refused(c) => Release(To(s.(recent := Some(s.clock + DIAL_BACKOFF)), c, Over), c)
    case Forget(c) => To(s.(live := ForgetIn(s.live, s.callers[c].stamp)), c, Over)
    case Retry(c) => To(s, c, Start)
    case Abandon(c) => Release(To(s, c, Over), c)
    case Dies(conn) => s.(dead := s.dead + {conn})
    case Close => s.(live := None)
    case Tick(span) => s.(clock := s.clock + span)
  }

  ghost predicate Reachable(s: State, n: nat)
    decreases n
  {
    if n == 0 then s == INITIAL
    else exists p, e :: Reachable(p, n - 1) && Enabled(p, e) && s == Step(p, e)
  }

  /** Whoever is past the gate holds it. */
  ghost predicate GateInv(s: State) {
    forall c :: 0 <= c < |s.callers| && Gated(s.callers[c]) ==> s.gate == Some(c)
  }

  /** Past the second lookup, nothing is installed until that caller installs. */
  ghost predicate EmptyInv(s: State) {
    forall c :: 0 <= c < |s.callers| && Gated(s.callers[c]) && !s.callers[c].Inside? ==> s.live.None?
  }

  ghost predicate StampInv(s: State) {
    && (forall i, j :: 0 <= i < j < |s.installed| ==> s.installed[i].stamp != s.installed[j].stamp)
    && (forall i :: 0 <= i < |s.installed| ==> s.installed[i].stamp < s.stamps)
    && (forall c :: 0 <= c < |s.callers| && s.callers[c].Stamped? ==> s.callers[c].stamp < s.stamps)
    && (forall c, i :: 0 <= c < |s.callers| && s.callers[c].Stamped? && 0 <= i < |s.installed| ==>
          s.installed[i].stamp != s.callers[c].stamp)
    && (s.live.Some? ==> s.live.value in s.installed)
    && (forall c :: 0 <= c < |s.callers| && s.callers[c].Have? ==>
          Live(s.callers[c].stamp, s.callers[c].conn) in s.installed)
  }

  ghost predicate Inv(s: State) {
    GateInv(s) && EmptyInv(s) && StampInv(s)
  }

  lemma GateStep(s: State, e: Event)
    requires GateInv(s) && Enabled(s, e)
    ensures GateInv(Step(s, e))
  {
    hide *;
    if e.Second? || e.Consult? || e.Install? || e.Refused? || e.Abandon? {
      LeavingGate(s, e);
    } else {
      KeepingGate(s, e);
    }
  }

  lemma LeavingGate(s: State, e: Event)
    requires GateInv(s) && Enabled(s, e)
    requires e.Second? || e.Consult? || e.Install? || e.Refused? || e.Abandon?
    ensures GateInv(Step(s, e))
  {
    hide GetFrom, ForgetIn, BlockedAt;
  }

  lemma KeepingGate(s: State, e: Event)
    requires GateInv(s) && Enabled(s, e)
    requires !e.Second? && !e.Consult? && !e.Install? && !e.Refused? && !e.Abandon?
    ensures GateInv(Step(s, e))
  {
    hide GetFrom, ForgetIn, BlockedAt;
  }

  lemma EmptyStep(s: State, e: Event)
    requires Inv(s) && Enabled(s, e)
    ensures EmptyInv(Step(s, e))
  {
    hide BlockedAt, StampInv;
  }

  lemma StampStep(s: State, e: Event)
    requires Inv(s) && Enabled(s, e)
    ensures StampInv(Step(s, e))
  {
    hide BlockedAt, EmptyInv;
    if !e.Install? {
      OtherStamp(s, e);
    }
  }

  lemma OtherStamp(s: State, e: Event)
    requires StampInv(s) && Enabled(s, e) && !e.Install?
    ensures StampInv(Step(s, e))
  {
    hide *;
    if e.First? || e.Second? {
      LookupStamp(s, e);
    } else if e.TakeStamp? {
      TakeStampKeeps(s, e);
    } else {
      PlainStamp(s, e);
    }
  }

  lemma LookupStamp(s: State, e: Event)
    requires StampInv(s) && Enabled(s, e) && (e.First? || e.Second?)
    ensures StampInv(Step(s, e))
  {
    hide BlockedAt;
  }

  lemma TakeStampKeeps(s: State, e: Event)
    requires StampInv(s) && Enabled(s, e) && e.TakeStamp?
    ensures StampInv(Step(s, e))
  {
    hide BlockedAt;
  }

  lemma PlainStamp(s: State, e: Event)
    requires StampInv(s) && Enabled(s, e) && !e.Install? && !e.First? && !e.Second? && !e.TakeStamp?
    ensures StampInv(Step(s, e))
  {
    hide *;
    if e.Forget? || e.Close? {
      ClearingStamp(s, e);
    } else {
      IdleStamp(s, e);
    }
  }

  lemma ClearingStamp(s: State, e: Event)
    requires StampInv(s) && Enabled(s, e) && (e.Forget? || e.Close?)
    ensures StampInv(Step(s, e))
  {
    hide BlockedAt, GetFrom;
  }

  lemma IdleStamp(s: State, e: Event)
    requires StampInv(s) && Enabled(s, e)
    requires !e.Install? && !e.First? && !e.Second? && !e.TakeStamp? && !e.Forget? && !e.Close?
    ensures StampInv(Step(s, e))
  {
    hide StampInv, BlockedAt, GetFrom, ForgetIn;
    SameStamps(s, Step(s, e));
  }

  /** Nobody has come by a stamp or a connection. */
  lemma SameStamps(s: State, t: State)
    requires StampInv(s) && t.live == s.live && t.stamps == s.stamps && t.installed == s.installed
    requires forall c :: 0 <= c < |t.callers| && (t.callers[c].Stamped? || t.callers[c].Have?) ==>
               c < |s.callers| && t.callers[c] == s.callers[c]
    ensures StampInv(t)
  {
  }

  lemma InvStep(s: State, e: Event)
    requires Inv(s) && Enabled(s, e)
    ensures Inv(Step(s, e))
  {
    hide GateInv, EmptyInv, StampInv, Step;
    GateStep(s, e);
    EmptyStep(s, e);
    StampStep(s, e);
  }

  lemma {:induction false} ReachableInv(s: State, n: nat)
    requires Reachable(s, n)
    ensures Inv(s)
    decreases n
  {
    hide GateInv, EmptyInv, StampInv, Step, Enabled;
    if n == 0 {
      InitialInv();
    } else {
      var p, e :| Reachable(p, n - 1) && Enabled(p, e) && s == Step(p, e);
      ReachableInv(p, n - 1);
      InvStep(p, e);
    }
  }

  lemma InitialInv()
    ensures Inv(INITIAL)
  {
  }

  // ---- the guarantees

  /** At most one dial runs at a time, and while it does nothing is installed. */
  lemma OneDialAtATime(s: State, n: nat, c: nat, d: nat)
    requires Reachable(s, n) && c < |s.callers| && d < |s.callers|
    ensures s.callers[c].Dialing? && s.callers[d].Dialing? ==> c == d
    ensures s.callers[c].Dialing? ==> s.live.None? && s.gate == Some(c)
  {
    hide StampInv;
    ReachableInv(s, n);
  }

  /** Whoever starts to dial was past its second lookup, and within no back-off. */
  lemma DialStarts(s: State, e: Event, c: nat)
    requires Enabled(s, e) && c < |s.callers| && !s.callers[c].Dialing? && Step(s, e).callers[c].Dialing?
    ensures s.callers[c].Checked? && (s.recent.Some? ==> s.recent.value <= s.clock)
  {
    hide GetFrom, ForgetIn;
  }

  lemma CheckedExcludes(s: State, c: nat)
    requires GateInv(s) && EmptyInv(s) && c < |s.callers| && s.callers[c].Checked?
    ensures s.live.None? && forall d :: 0 <= d < |s.callers| ==> !s.callers[d].Dialing?
  {
  }

  /** A dial starts only when no connection is installed and any recorded failure has outlived
      its back-off. */
  lemma DialOnlyWhenNeeded(s: State, n: nat, e: Event, c: nat)
    requires Reachable(s, n) && Enabled(s, e) && c < |s.callers| && !s.callers[c].Dialing?
    requires Step(s, e).callers[c].Dialing?
    ensures s.live.None? && (s.recent.Some? ==> s.recent.value <= s.clock)
    ensures forall d :: 0 <= d < |s.callers| ==> !s.callers[d].Dialing?
  {
    hide Step, Enabled, Reachable, GateInv, EmptyInv, StampInv;
    ReachableInv(s, n);
    DialStarts(s, e, c);
    CheckedExcludes(s, c);
  }

  /** No two installed connections ever share a stamp. */
  lemma StampsUnique(s: State, n: nat, i: nat, j: nat)
    requires Reachable(s, n) && i < |s.installed| && j < |s.installed|
    ensures s.installed[i].stamp == s.installed[j].stamp ==> i == j
  {
    ReachableInv(s, n);
    assert i < j ==> s.installed[i].stamp != s.installed[j].stamp;
    assert j < i ==> s.installed[j].stamp != s.installed[i].stamp;
  }

  /** Forgetting removes the caller's own connection or nothing: a replacement installed in the
      meantime stays. */
  lemma ForgetSparesReplacement(s: State, n: nat, c: nat)
    requires Reachable(s, n) && Enabled(s, Forget(c))
    ensures Step(s, Forget(c)).live
            == if s.live == Some(Live(s.callers[c].stamp, s.callers[c].conn)) then None else s.live
  {
    ReachableInv(s, n);
    if s.live.Some? && s.live.value.stamp == s.callers[c].stamp {
      var i :| 0 <= i < |s.installed| && s.installed[i] == s.live.value;
      var j :| 0 <= j < |s.installed| && s.installed[j] == Live(s.callers[c].stamp, s.callers[c].conn);
      StampsUnique(s, n, i, j);
    }
  }

  // ---- when a connection is shared, and when it is dialled

  /** Either lookup hands out the installed connection exactly while it is alive, and clears a dead one. */
  lemma LookupShares(s: State, e: Event)
    requires Enabled(s, e) && (e.First? || e.Second?)
    ensures var t := Step(s, e); var c := t.callers[e.c];
            if s.live.Some? && s.live.value.conn !in s.dead then
              t.live == s.live && c == Have(s.live.value.stamp, s.live.value.conn)
            else t.live.None? && c == if e.First? then AtGate else Checked
  {
  }

  /** A caller past both lookups dials exactly when no recorded failure is still ahead of the clock,
      and a refused dial is remembered for one second. */
  lemma DialsIff(s: State, e: Event)
    requires Enabled(s, e)
    ensures e.Consult? ==>
              (Step(s, e).callers[e.c].Dialing? <==> s.recent.None? || s.recent.value <= s.clock)
              && (!Step(s, e).callers[e.c].Dialing? ==> Step(s, e).callers[e.c].Over?)
    ensures e.Refused? ==> Step(s, e).recent == Some(s.clock + 1_000_000_000)
    ensures e.Opens? ==> Step(s, e).recent.None?
  {
    hide GetFrom, ForgetIn;
  }

  // ---- nobody keeps the gate

  ghost predicate Runs(s: State, es: seq<Event>)
    decreases |es|
  {
    es == [] || (Enabled(s, es[0]) && Runs(Step(s, es[0]), es[1..]))
  }

  function After(s: State, es: seq<Event>): State
    requires Runs(s, es)
    decreases |es|
  {
    if es == [] then s else After(Step(s, es[0]), es[1..])
  }

  /** Whoever holds the gate is on its way through. */
  ghost predicate HeldInv(s: State) {
    s.gate.Some? ==> s.gate.value < |s.callers| && Gated(s.callers[s.gate.value])
  }

  lemma HeldStep(s: State, e: Event)
    requires HeldInv(s) && Enabled(s, e)
    ensures HeldInv(Step(s, e))
  {
    hide GetFrom, ForgetIn, BlockedAt;
  }

  lemma {:induction false} ReachableHeld(s: State, n: nat)
    requires Reachable(s, n)
    ensures HeldInv(s)
    decreases n
  {
    hide Step, Enabled;
    if n > 0 {
      var p, e :| Reachable(p, n - 1) && Enabled(p, e) && s == Step(p, e);
      ReachableHeld(p, n - 1);
      HeldStep(p, e);
    }
  }

  /** How many steps a caller can still take before it lets go of the gate. */
  function Rank(c: Caller): nat {
    match c
    case Inside => 5
    case Checked => 4
    case Dialing => 3
    case Opened(_) => 2
    case Stamped(_, _) => 1
    case _ => 0
  }

  /** A step that takes caller `c` through the gate; being abandoned is not one. */
  predicate OwnStep(e: Event, c: nat) {
    (e.Second? || e.Consult? || e.Opens? || e.TakeStamp? || e.Install? || e.Refused?) && e.c == c
  }

  lemma HolderMovesOn(s: State, e: Event, c: nat)
    requires HeldInv(s) && Enabled(s, e) && s.gate == Some(c) && Step(s, e).gate == Some(c)
    ensures c < |Step(s, e).callers|
    ensures Rank(Step(s, e).callers[c]) + (if OwnStep(e, c) then 1 else 0) <= Rank(s.callers[c])
  {
    hide GetFrom, ForgetIn, BlockedAt;
  }

  /** Whoever holds the gate can always take its next step. */
  lemma HolderCanMove(s: State, n: nat, c: nat) returns (e: Event)
    requires Reachable(s, n) && s.gate == Some(c)
    ensures OwnStep(e, c) && Enabled(s, e)
  {
    hide Reachable;
    ReachableHeld(s, n);
    match s.callers[c]
    case Inside => e := Second(c);
    case Checked => e := Consult(c);
    case Dialing => e := Refused(c);
    case Opened(_) => e := TakeStamp(c);
    case Stamped(_, _) => e := Install(c);
  }

  /** Whether `c` holds the gate from `s` on and throughout the run. */
  ghost predicate Keeps(s: State, es: seq<Event>, c: nat)
    requires Runs(s, es)
    decreases |es|
  {
    s.gate == Some(c) && (es == [] || Keeps(Step(s, es[0]), es[1..], c))
  }

  function OwnSteps(es: seq<Event>, c: nat): nat {
    if es == [] then 0 else OwnSteps(es[1..], c) + if OwnStep(es[0], c) then 1 else 0
  }

  lemma {:induction false} KeepsBriefly(s: State, es: seq<Event>, c: nat)
    requires HeldInv(s) && Runs(s, es) && Keeps(s, es, c)
    ensures c < |s.callers| && OwnSteps(es, c) <= Rank(s.callers[c])
    decreases |es|
  {
    hide Step, Enabled, Rank, OwnStep;
    if es != [] {
      HeldStep(s, es[0]);
      HolderMovesOn(s, es[0], c);
      KeepsBriefly(Step(s, es[0]), es[1..], c);
    }
  }

  /** In every schedule a caller takes at most five steps of its own before it lets go of the gate,
      whether its dial succeeds or fails. */
  lemma GateLetGo(s: State, n: nat, es: seq<Event>, c: nat)
    requires Reachable(s, n) && Runs(s, es) && Keeps(s, es, c)
    ensures OwnSteps(es, c) <= 5
  {
    hide Reachable, Runs, Keeps, OwnSteps;
    ReachableHeld(s, n);
    KeepsBriefly(s, es, c);
  }

  // ---- one caller on its own

  /** The steps caller `c` takes on its own; a refusal takes `span` to come. */
  function Solo(s: State, c: nat, opens: bool, span: nat): seq<Event> {
    if GetFrom(s.live, AliveIn(s)).Some? then [First(c)]
    else [First(c), Acquire(c), Second(c), Consult(c)] + Dial(s, c, opens, span)
  }

  function Dial(s: State, c: nat, opens: bool, span: nat): seq<Event> {
    if BlockedAt(s.recent, s.clock) then []
    else if opens then [Opens(c), TakeStamp(c), Install(c)]
    else [Tick(span), Refused(c)]
  }

  lemma {:induction false} RunsOn(s: State, es: seq<Event>, more: seq<Event>)
    requires Runs(s, es) && Runs(After(s, es), more)
    ensures Runs(s, es + more) && After(s, es + more) == After(After(s, es), more)
    decreases |es|
  {
    hide Step, Enabled;
    if es == [] {
      assert es + more == more;
    } else {
      assert (es + more)[1..] == es[1..] + more;
      RunsOn(Step(s, es[0]), es[1..], more);
    }
  }

  lemma One(s: State, e: Event)
    requires Enabled(s, e)
    ensures Runs(s, [e]) && After(s, [e]) == Step(s, e)
  {
    hide Step, Enabled;
    assert [e][1..] == [];
    assert Runs(Step(s, e), []);
  }

  lemma Then(s: State, es: seq<Event>, e: Event)
    requires Runs(s, es) && Enabled(After(s, es), e)
    ensures Runs(s, es + [e]) && After(s, es + [e]) == Step(After(s, es), e)
  {
    hide Step, Enabled;
    One(After(s, es), e);
    RunsOn(s, es, [e]);
  }

  /** With nothing live in the slot a caller on its own reaches the dial, or is turned away. */
  lemma ReachesDial(s: State, c: nat)
    requires c < |s.callers| && s.callers[c].Start? && s.gate.None? && GetFrom(s.live, AliveIn(s)).None?
    ensures var es := [First(c), Acquire(c), Second(c), Consult(c)];
            && Runs(s, es)
            && After(s, es) == if BlockedAt(s.recent, s.clock) then To(s.(live := None), c, Over)
                               else To(s.(live := None, gate := Some(c)), c, Dialing)
  {
    hide BlockedAt, Runs, After;
    var s1 := To(s.(live := None), c, AtGate);
    assert Step(s, First(c)) == s1;
    One(s, First(c));
    var s2 := To(s1.(gate := Some(c)), c, Inside);
    assert Step(s1, Acquire(c)) == s2;
    Then(s, [First(c)], Acquire(c));
    assert [First(c)] + [Acquire(c)] == [First(c), Acquire(c)];
    var s3 := To(s2, c, Checked);
    assert Step(s2, Second(c)) == s3;
    Then(s, [First(c), Acquire(c)], Second(c));
    assert [First(c), Acquire(c)] + [Second(c)] == [First(c), Acquire(c), Second(c)];
    Then(s, [First(c), Acquire(c), Second(c)], Consult(c));
    assert [First(c), Acquire(c), Second(c)] + [Consult(c)] == [First(c), Acquire(c), Second(c), Consult(c)];
    assert s.callers[c := AtGate][c := Inside][c := Checked][c := Over] == s.callers[c := Over];
    assert s.callers[c := AtGate][c := Inside][c := Checked][c := Dialing] == s.callers[c := Dialing];
  }

  lemma Installs(s: State, c: nat)
    requires c < |s.callers| && s.callers[c].Dialing? && s.gate == Some(c)
    ensures var es := [Opens(c), TakeStamp(c), Install(c)]; var l := Live(s.stamps, s.conns);
            && Runs(s, es)
            && var t := After(s, es);
               && t.live == Some(l) && t.stamps == s.stamps + 1 && t.recent.None? && t.gate.None?
               && |t.callers| == |s.callers| && t.callers[c] == Have(l.stamp, l.conn)
  {
    hide Runs, After;
    var s1 := Step(s, Opens(c));
    One(s, Opens(c));
    var s2 := Step(s1, TakeStamp(c));
    Then(s, [Opens(c)], TakeStamp(c));
    assert [Opens(c)] + [TakeStamp(c)] == [Opens(c), TakeStamp(c)];
    Then(s, [Opens(c), TakeStamp(c)], Install(c));
    assert [Opens(c), TakeStamp(c)] + [Install(c)] == [Opens(c), TakeStamp(c), Install(c)];
  }

  lemma IsRefused(s: State, c: nat, span: nat)
    requires c < |s.callers| && s.callers[c].Dialing? && s.gate == Some(c)
    ensures var es := [Tick(span), Refused(c)];
            && Runs(s, es)
            && var t := After(s, es);
               && t.live == s.live && t.stamps == s.stamps && t.gate.None?
               && t.recent == Some(s.clock + span + DIAL_BACKOFF)
               && |t.callers| == |s.callers| && t.callers[c] == Over
  {
    hide Runs, After;
    One(s, Tick(span));
    Then(s, [Tick(span)], Refused(c));
    assert [Tick(span)] + [Refused(c)] == [Tick(span), Refused(c)];
  }

  /** A caller that nothing interrupts ends where the uncontended call ends. */
  lemma SoloIsConnect(s: State, c: nat, opens: bool, span: nat)
    requires c < |s.callers| && s.callers[c].Start? && s.gate.None?
    ensures var es := Solo(s, c, opens, span);
            var (live, stamps, recent, got) := Connected(s.live, s.stamps, s.recent, AliveIn(s), s.clock,
                                                         s.clock + span, if opens then Some(s.conns) else None);
            && Runs(s, es)
            && var t := After(s, es);
               && t.live == live && t.stamps == stamps && t.recent == recent && t.gate.None?
               && |t.callers| == |s.callers|
               && t.callers[c] == if got.Some? then Have(got.value.0.stamp, got.value.0.conn) else Over
  {
    hide Runs, After;
    if GetFrom(s.live, AliveIn(s)).Some? {
      One(s, First(c));
    } else {
      ReachesDial(s, c);
      var es := [First(c), Acquire(c), Second(c), Consult(c)];
      var t := After(s, es);
      if BlockedAt(s.recent, s.clock) {
        assert es + [] == es;
      } else if opens {
        Installs(t, c);
        RunsOn(s, es, [Opens(c), TakeStamp(c), Install(c)]);
      } else {
        IsRefused(t, c, span);
        RunsOn(s, es, [Tick(span), Refused(c)]);
      }
    }
  }
}
