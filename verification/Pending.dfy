/**
 Request coalescing from `pending.rs` as a step system: one step per lock or channel operation,
 so that any interleaving of leaders and followers is a run.
 */
module Pending {

  datatype Option<T> = None | Some(value: T)

  /** A question, and a reply message; their content does not matter here. */
  type Key = string
  type Answer = Option<int>

  /** One in-flight request and the leader that owns it.  `outcome` records what the leader set
      out to publish: the answer given to `finish`, or nothing when it was dropped. */
  datatype Slot = Slot(key: Key, closing: bool, removed: bool, sent: bool, answer: Answer, outcome: Answer, done: bool)

  datatype WaiterState = Waiting | Woken | Got(answer: Answer) | Gone

  datatype Waiter = Waiter(slot: nat, state: WaiterState)

  datatype State = State(inflight: map<Key, nat>, slots: seq<Slot>, waiters: seq<Waiter>)

  datatype Event =
    | Enter(key: Key)             // `enter`: leads if nobody is asking, else subscribes
    | Finish(slot: nat, answer: Answer)  // `finish`: stores the answer
    | Drop(slot: nat)             // the leader is dropped without finishing
    | Remove(slot: nat)           // the slot leaves the map
    | Send(slot: nat)             // the notification, lost when nobody is subscribed
    | Wake(waiter: nat)           // a subscribed follower sees the flag
    | Read(waiter: nat)           // it takes the answer
    | Abandon(waiter: nat)        // its future is dropped

  const INITIAL: State := State(map[], [], [])

  predicate Subscribed(w: Waiter) {
    w.state.Waiting? || w.state.Woken?
  }

  predicate HasReceiver(s: State, i: nat) {
    exists w :: 0 <= w < |s.waiters| && s.waiters[w].slot == i && Subscribed(s.waiters[w])
  }

  /** Whether an event can happen.  `removeFirst` is the order the source uses when closing a
      slot: out of the map first, then the notification. */
  predicate Enabled(s: State, e: Event, removeFirst: bool) {
    match e
    case Enter(_) => true
    case Finish(i, _) => i < |s.slots| && !s.slots[i].closing
    case Drop(i) => i < |s.slots| && !s.slots[i].closing
    case Remove(i) => i < |s.slots| && s.slots[i].closing && !s.slots[i].removed && (removeFirst || s.slots[i].sent)
    case Send(i) => i < |s.slots| && s.slots[i].closing && !s.slots[i].sent && (removeFirst ==> s.slots[i].removed)
    case Wake(w) => w < |s.waiters| && s.waiters[w].state.Waiting? && s.waiters[w].slot < |s.slots|
                    && s.slots[s.waiters[w].slot].done
    case Read(w) => w < |s.waiters| && s.waiters[w].state.Woken? && s.waiters[w].slot < |s.slots|
    case Abandon(w) => w < |s.waiters| && Subscribed(s.waiters[w])
  }

  function SetWaiter(s: State, w: nat, to: WaiterState): State
    requires w < |s.waiters|
  {
    s.(waiters := s.waiters[w := s.waiters[w].(state := to)])
  }

  function Step(s: State, e: Event): State
    requires Enabled(s, e, true) || Enabled(s, e, false)
  {
    match e
    case Enter(k) =>
      if k in s.inflight then s.(waiters := s.waiters + [Waiter(s.inflight[k], Waiting)])
      else s.(slots := s.slots + [Slot(k, false, false, false, None, None, false)],
              inflight := s.inflight[k := |s.slots|])
    case Finish(i, a) => s.(slots := s.slots[i := s.slots[i].(closing := true, answer := a, outcome := a)])
    case Drop(i) => s.(slots := s.slots[i := s.slots[i].(closing := true, outcome := None)])
    case Remove(i) =>
      s.(slots := s.slots[i := s.slots[i].(removed := true)], inflight := s.inflight - {s.slots[i].key})
    case Send(i) => s.(slots := s.slots[i := s.slots[i].(sent := true, done := HasReceiver(s, i))])
    case Wake(w) => SetWaiter(s, w, Woken)
    case Read(w) => SetWaiter(s, w, Got(s.slots[s.waiters[w].slot].answer))
    case Abandon(w) => SetWaiter(s, w, Gone)
  }

  ghost predicate Reachable(s: State, removeFirst: bool, n: nat)
    decreases n
  {
    if n == 0 then s == INITIAL
    else exists p, e :: Reachable(p, removeFirst, n - 1) && Enabled(p, e, removeFirst) && s == Step(p, e)
  }

  // ---- what every step keeps, in the source's order

  ghost predicate MapInv(s: State) {
    && (forall k :: k in s.inflight ==>
          s.inflight[k] < |s.slots| && s.slots[s.inflight[k]].key == k && !s.slots[s.inflight[k]].removed)
    && (forall i :: 0 <= i < |s.slots| && !s.slots[i].removed ==>
          s.slots[i].key in s.inflight && s.inflight[s.slots[i].key] == i)
  }

  ghost predicate SlotInv(t: Slot) {
    && (t.removed ==> t.closing)
    && (t.sent ==> t.removed)
    && (t.done ==> t.sent)
    && (!t.closing ==> t.answer == None)
    && t.answer == t.outcome
  }

  ghost predicate WaiterInv(w: Waiter, s: State) {
    && w.slot < |s.slots|
    && (Subscribed(w) && s.slots[w.slot].sent ==> s.slots[w.slot].done)
    && (w.state.Woken? || w.state.Got? ==> s.slots[w.slot].done)
    && (w.state.Got? ==> w.state.answer == s.slots[w.slot].outcome)
  }

  ghost predicate Inv(s: State) {
    && MapInv(s)
    && (forall i :: 0 <= i < |s.slots| ==> SlotInv(s.slots[i]))
    && (forall w :: 0 <= w < |s.waiters| ==> WaiterInv(s.waiters[w], s))
  }

  lemma MapInvStep(s: State, e: Event)
    requires Inv(s) && Enabled(s, e, true)
    ensures MapInv(Step(s, e))
  {
    hide SlotInv, WaiterInv, HasReceiver;
    if e.Enter? {
      EnterKeepsMap(s, e);
    } else {
      OthersKeepMap(s, e);
    }
  }

  lemma EnterKeepsMap(s: State, e: Event)
    requires MapInv(s) && e.Enter?
    ensures MapInv(Step(s, e))
  {
  }

  lemma OthersKeepMap(s: State, e: Event)
    requires MapInv(s) && Enabled(s, e, true) && !e.Enter?
    ensures MapInv(Step(s, e))
  {
    hide HasReceiver;
  }

  lemma SlotInvStep(s: State, e: Event, i: nat)
    requires Inv(s) && Enabled(s, e, true) && i < |Step(s, e).slots|
    ensures SlotInv(Step(s, e).slots[i])
  {
    if i < |s.slots| {
      assert SlotInv(s.slots[i]);
    }
  }

  lemma WaiterInvStep(s: State, e: Event, w: nat)
    requires Inv(s) && Enabled(s, e, true) && w < |Step(s, e).waiters|
    ensures WaiterInv(Step(s, e).waiters[w], Step(s, e))
  {
    if w < |s.waiters| {
      assert WaiterInv(s.waiters[w], s);
      assert SlotInv(s.slots[s.waiters[w].slot]);
    } else {
      assert MapInv(s);
      assert SlotInv(s.slots[s.inflight[e.key]]);
    }
  }

  lemma InvStep(s: State, e: Event)
    requires Inv(s) && Enabled(s, e, true)
    ensures Inv(Step(s, e))
  {
    MapInvStep(s, e);
    forall i | 0 <= i < |Step(s, e).slots| ensures SlotInv(Step(s, e).slots[i]) {
      SlotInvStep(s, e, i);
    }
    forall w | 0 <= w < |Step(s, e).waiters| ensures WaiterInv(Step(s, e).waiters[w], Step(s, e)) {
      WaiterInvStep(s, e, w);
    }
  }

  lemma InitialInv()
    ensures Inv(INITIAL)
  {
  }

  lemma {:induction false} ReachableInv(s: State, n: nat)
    requires Reachable(s, true, n)
    ensures Inv(s)
    decreases n
  {
    hide Step, Enabled, Inv;
    InitialInv();
    if n > 0 {
      var p, e :| Reachable(p, true, n - 1) && Enabled(p, e, true) && s == Step(p, e);
      ReachableInv(p, n - 1);
      InvStep(p, e);
    }
  }

  // ---- the guarantees

  /** A key has at most one leader that has not yet let go of it. */
  lemma OneLeader(s: State, n: nat, i: nat, j: nat)
    requires Reachable(s, true, n)
    requires i < |s.slots| && j < |s.slots| && !s.slots[i].removed && !s.slots[j].removed
    ensures s.slots[i].key == s.slots[j].key ==> i == j
  {
    ReachableInv(s, n);
  }

  /** A leader only ever removes its own slot, and every other request stays in the map. */
  lemma RemovesOwnSlot(s: State, n: nat, i: nat, k: Key)
    requires Reachable(s, true, n) && Enabled(s, Remove(i), true)
    ensures s.slots[i].key in s.inflight && s.inflight[s.slots[i].key] == i
    ensures k != s.slots[i].key ==>
              (k in Step(s, Remove(i)).inflight <==> k in s.inflight)
              && (k in s.inflight ==> Step(s, Remove(i)).inflight[k] == s.inflight[k])
  {
    ReachableInv(s, n);
  }

  /** A follower still waiting on a slot whose leader is through. */
  predicate Stranded(s: State, w: nat) {
    && w < |s.waiters| && s.waiters[w].state.Waiting? && s.waiters[w].slot < |s.slots|
    && s.slots[s.waiters[w].slot].removed && s.slots[s.waiters[w].slot].sent
    && !s.slots[s.waiters[w].slot].done
  }

  /** A run that strands a follower when the notification goes out before the slot is removed:
      the follower subscribes in between, after the only notification was lost. */
  lemma SendFirstStrands() returns (s: State)
    ensures Reachable(s, false, 5) && Stranded(s, 0)
  {
    hide Reachable;
    var opening := Slot("q", false, false, false, None, None, false);
    var closing := opening.(closing := true, answer := Some(7), outcome := Some(7));
    var lost := closing.(sent := true);
    var s1 := State(map["q" := 0], [opening], []);
    var s2 := State(map["q" := 0], [closing], []);
    var s3 := State(map["q" := 0], [lost], []);
    var s4 := State(map["q" := 0], [lost], [Waiter(0, Waiting)]);
    assert Step(INITIAL, Enter("q")) == s1;
    Extend(INITIAL, Enter("q"), false, 0);
    assert Step(s1, Finish(0, Some(7))) == s2;
    Extend(s1, Finish(0, Some(7)), false, 1);
    assert Step(s2, Send(0)) == s3;
    Extend(s2, Send(0), false, 2);
    assert Step(s3, Enter("q")) == s4;
    Extend(s3, Enter("q"), false, 3);
    s := Step(s4, Remove(0));
    Extend(s4, Remove(0), false, 4);
  }

  lemma Extend(p: State, e: Event, removeFirst: bool, n: nat)
    requires Reachable(p, removeFirst, n) && Enabled(p, e, removeFirst)
    ensures Reachable(Step(p, e), removeFirst, n + 1)
  {
  }

  /** No run strands a follower, exactly because the slot is removed before the notification. */
  lemma NobodyStrandedIffRemoveFirst(removeFirst: bool)
    ensures (forall s, n: nat, w: nat :: Reachable(s, removeFirst, n) ==> !Stranded(s, w)) <==> removeFirst
  {
    hide Reachable;
    if removeFirst {
      forall s, n: nat, w: nat | Reachable(s, removeFirst, n) ensures !Stranded(s, w) {
        ReachableInv(s, n);
        if w < |s.waiters| {
          assert WaiterInv(s.waiters[w], s);
        }
      }
    } else {
      var s := SendFirstStrands();
    }
  }

  /** What is left for a leader to do. */
  function Closing(s: State, i: nat): seq<Event>
    requires i < |s.slots|
  {
    (if s.slots[i].closing then [] else [Drop(i)])
    + (if s.slots[i].removed then [] else [Remove(i)])
    + (if s.slots[i].sent then [] else [Send(i)])
  }

  ghost predicate Runs(s: State, es: seq<Event>)
    decreases |es|
  {
    es == [] || (Enabled(s, es[0], true) && Runs(Step(s, es[0]), es[1..]))
  }

  function After(s: State, es: seq<Event>): State
    requires Runs(s, es)
    decreases |es|
  {
    if es == [] then s else After(Step(s, es[0]), es[1..])
  }

  /** From any reachable state a waiting follower is at most three steps of its own leader away
      from being woken; dropping the leader is enough, and nothing else has to happen. */
  lemma {:induction false} LeaderAlwaysReleases(s: State, n: nat, w: nat)
    requires Reachable(s, true, n) && w < |s.waiters| && s.waiters[w].state.Waiting?
    ensures s.waiters[w].slot < |s.slots|
    ensures var es := Closing(s, s.waiters[w].slot);
            |es| <= 3 && Runs(s, es) && Enabled(After(s, es), Wake(w), true)
    decreases if s.waiters[w].slot < |s.slots| then |Closing(s, s.waiters[w].slot)| else 0
  {
    hide Reachable, MapInv;
    ReachableInv(s, n);
    assert WaiterInv(s.waiters[w], s);
    var i := s.waiters[w].slot;
    assert SlotInv(s.slots[i]);
    var es := Closing(s, i);
    if es != [] {
      assert Subscribed(s.waiters[w]);
      var t := Step(s, es[0]);
      assert Closing(t, i) == es[1..];
      Extend(s, es[0], true, n);
      LeaderAlwaysReleases(t, n + 1, w);
    }
  }

  /** A follower that read something read exactly what its leader published: the answer it
      finished with, or nothing if it was dropped. */
  lemma ReadsWhatWasPublished(s: State, n: nat, w: nat)
    requires Reachable(s, true, n) && w < |s.waiters| && s.waiters[w].state.Got?
    ensures s.waiters[w].slot < |s.slots| && s.slots[s.waiters[w].slot].closing
    ensures s.waiters[w].state.answer == s.slots[s.waiters[w].slot].outcome
  {
    ReachableInv(s, n);
    assert WaiterInv(s.waiters[w], s);
    assert SlotInv(s.slots[s.waiters[w].slot]);
  }

  /** What a leader published never changes afterwards. */
  lemma OutcomeFinal(s: State, e: Event, i: nat)
    requires Enabled(s, e, true) && i < |s.slots| && s.slots[i].closing
    ensures Step(s, e).slots[i].outcome == s.slots[i].outcome && Step(s, e).slots[i].key == s.slots[i].key
    ensures Step(s, e).slots[i].closing
  {
  }
}
