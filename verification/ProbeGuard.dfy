/** The guard of `probe.rs` against sources that connect and never ask anything. */
module ProbeGuard {

  datatype Option<T> = None | Some(value: T)

  /** Times are in nanoseconds; addresses are numbers. */
  datatype Mark = Mark(strikes: nat, first: nat, until: Option<nat>)

  /** `local` holds the addresses `is_local` accepts. */
  datatype Config = Config(strikes: nat, window: nat, penalty: nat, exemptLocal: bool, allowlist: set<int>, local: set<int>)

  type Marks = map<int, Mark>

  const SWEEP_AT: nat := 16_384

  /** `duration_since`, which saturates. */
  function Elapsed(now: nat, since: nat): nat {
    if now < since then 0 else now - since
  }

  predicate Exempt(cfg: Config, ip: int) {
    cfg.strikes == 0 || ip in cfg.allowlist || (cfg.exemptLocal && ip in cfg.local)
  }

  predicate ShutOut(m: Mark, now: nat) {
    m.until.Some? && now < m.until.value
  }

  function Admit(ms: Marks, cfg: Config, ip: int, now: nat): (Marks, bool) {
    if Exempt(cfg, ip) || ip !in ms || ms[ip].until.None? then (ms, true)
    else if ShutOut(ms[ip], now) then (ms, false)
    else (ms - {ip}, true)
  }

  function Served(ms: Marks, cfg: Config, ip: int): Marks {
    if Exempt(cfg, ip) then ms else ms - {ip}
  }

  function Swept(ms: Marks, cfg: Config, now: nat): Marks {
    if |ms| >= SWEEP_AT then map k | k in ms && (ShutOut(ms[k], now) || Elapsed(now, ms[k].first) < cfg.window) :: ms[k]
    else ms
  }

  /** One more silent connection against a mark that is not shut out. */
  function Struck(m: Mark, cfg: Config, now: nat): Mark {
    var base := if Elapsed(now, m.first) > cfg.window then Mark(0, now, None) else m;
    Mark(base.strikes + 1, base.first,
         if base.strikes + 1 >= cfg.strikes then Some(now + cfg.penalty) else base.until)
  }

  function Wasted(ms: Marks, cfg: Config, ip: int, now: nat): Marks {
    if Exempt(cfg, ip) then ms
    else
      var kept := Swept(ms, cfg, now);
      var m := if ip in kept then kept[ip] else Mark(0, now, None);
      if ShutOut(m, now) then kept else kept[ip := Struck(m, cfg, now)]
  }

  class Guard {
    var cfg: Config
    var marks: Marks

    constructor (c: Config)
      ensures cfg == c && marks == map[]
    {
      cfg, marks := c, map[];
    }

    method Admits(ip: int, now: nat) returns (ok: bool)
      modifies this`marks
      ensures ok == Admit(old(marks), cfg, ip, now).1
      ensures marks == Step(old(marks), cfg, Event(Asks, ip, now))
    {
      if Exempt(cfg, ip) || ip !in marks {
        return true;
      }
      match marks[ip].until
      case None => ok := true;
      case Some(t) =>
        if now < t {
          ok := false;
        } else {
          marks := marks - {ip};
          ok := true;
        }
    }

    /** What a finished connection was answered decides which event it counts as. */
    method Record(ip: int, served: nat, now: nat)
      modifies this`marks
      ensures marks == Step(old(marks), cfg, Event(if served == 0 then Silent else Answered, ip, now))
    {
      if served == 0 {
        RecordWasted(ip, now);
      } else if !Exempt(cfg, ip) {
        marks := marks - {ip};
      }
    }

    method RecordWasted(ip: int, now: nat)
      modifies this`marks
      ensures marks == Wasted(old(marks), cfg, ip, now)
    {
      if Exempt(cfg, ip) {
        return;
      }
      if |marks| >= SWEEP_AT {
        marks := map k | k in marks && (ShutOut(marks[k], now) || Elapsed(now, marks[k].first) < cfg.window) :: marks[k];
      }
      var m := if ip in marks then marks[ip] else Mark(0, now, None);
      if ShutOut(m, now) {
        return;
      }
      if Elapsed(now, m.first) > cfg.window {
        m := Mark(0, now, None);
      }
      m := m.(strikes := m.strikes + 1);
      if m.strikes >= cfg.strikes {
        m := m.(until := Some(now + cfg.penalty));
      }
      marks := marks[ip := m];
    }
  }

  // ---- runs

  datatype Kind = Asks | Answered | Silent

  /** A connection asking to be let in, or one that has finished, answered or silent. */
  datatype Event = Event(kind: Kind, ip: int, at: nat)

  function Step(ms: Marks, cfg: Config, e: Event): Marks {
    match e.kind
    case Asks => Admit(ms, cfg, e.ip, e.at).0
    case Answered => Served(ms, cfg, e.ip)
    case Silent => Wasted(ms, cfg, e.ip, e.at)
  }

  function After(cfg: Config, es: seq<Event>): Marks {
    if es == [] then map[] else Step(After(cfg, es[..|es| - 1]), cfg, es[|es| - 1])
  }

  /** Each event reads the clock before it waits for the lock, so their times need not ascend. */
  ghost predicate InOrder(es: seq<Event>) {
    forall i, j :: 0 <= i < j < |es| ==> es[i].at <= es[j].at
  }

  /** `idx` picks out silent connections from `ip`, in order, the first at `first` and none later
      than one window after it, with no answered connection from `ip` since the first. */
  ghost predicate Streak(es: seq<Event>, cfg: Config, ip: int, first: nat, idx: seq<nat>) {
    && idx != []
    && (forall i :: 0 <= i < |idx| ==>
          idx[i] < |es| && es[idx[i]].kind == Silent && es[idx[i]].ip == ip && es[idx[i]].at <= first + cfg.window)
    && (forall i, j :: 0 <= i < j < |idx| ==> idx[i] < idx[j])
    && es[idx[0]].at == first
    && (forall n :: idx[0] <= n < |es| ==> !(es[n].kind == Answered && es[n].ip == ip))
  }

  /** What a mark remembers really happened. */
  ghost predicate Witnessed(es: seq<Event>, cfg: Config, ip: int, m: Mark, idx: seq<nat>) {
    && Streak(es, cfg, ip, m.first, idx) && |idx| == m.strikes
    && (m.until.Some? ==> m.strikes >= cfg.strikes && m.until.value == es[idx[|idx| - 1]].at + cfg.penalty)
  }

  lemma StreakGrows(es: seq<Event>, e: Event, cfg: Config, ip: int, m: Mark, idx: seq<nat>)
    requires Witnessed(es, cfg, ip, m, idx) && !(e.kind == Answered && e.ip == ip)
    ensures Witnessed(es + [e], cfg, ip, m, idx)
  {
    var more := es + [e];
    assert forall i :: 0 <= i < |idx| ==> more[idx[i]] == es[idx[i]];
    assert forall n :: 0 <= n < |es| ==> more[n] == es[n];
  }

  /** A strike on a mark extends its streak or starts a new one. */
  lemma StrikeWitnessed(es: seq<Event>, cfg: Config, ip: int, now: nat, m: Mark, idx: seq<nat>) returns (more: seq<nat>)
    requires !Exempt(cfg, ip)
    requires m == Mark(0, now, None) || Witnessed(es, cfg, ip, m, idx)
    ensures Witnessed(es + [Event(Silent, ip, now)], cfg, ip, Struck(m, cfg, now), more)
  {
    var e := Event(Silent, ip, now);
    if m == Mark(0, now, None) || Elapsed(now, m.first) > cfg.window {
      more := [|es|];
    } else {
      StreakGrows(es, e, cfg, ip, m, idx);
      more := idx + [|es|];
      assert more[0] == idx[0];
    }
  }

  /** Every mark is witnessed by the history, whatever was swept. */
  lemma {:induction false} MarkWitness(cfg: Config, es: seq<Event>, ip: int) returns (idx: seq<nat>)
    requires ip in After(cfg, es)
    ensures !Exempt(cfg, ip) && Witnessed(es, cfg, ip, After(cfg, es)[ip], idx)
  {
    hide Witnessed, Struck;
    var e, before := es[|es| - 1], es[..|es| - 1];
    assert es == before + [e];
    var ms := After(cfg, before);
    if ip in ms {
      idx := MarkWitness(cfg, before, ip);
    } else {
      idx := [];
    }
    if e.kind == Silent && e.ip == ip && !Exempt(cfg, ip) && !ShutOut(MarkFor(ms, cfg, ip, e.at), e.at) {
      var m := MarkFor(ms, cfg, ip, e.at);
      assert After(cfg, es)[ip] == Struck(m, cfg, e.at);
      idx := StrikeWitnessed(before, cfg, ip, e.at, m, idx);
    } else {
      StreakGrows(before, e, cfg, ip, ms[ip], idx);
    }
  }

  /** The mark a strike starts from. */
  function MarkFor(ms: Marks, cfg: Config, ip: int, now: nat): Mark {
    var kept := Swept(ms, cfg, now);
    if ip in kept then kept[ip] else Mark(0, now, None)
  }

  /** Whenever the guard refuses an address there were at least `strikes` silent connections from
      it, none later than one window after the first, no answered connection since, and the last
      less than the penalty ago.  Handled in clock order, they all lie inside that window. */
  lemma RefusalIsEarned(cfg: Config, es: seq<Event>, ip: int, now: nat) returns (first: nat, idx: seq<nat>)
    requires !Admit(After(cfg, es), cfg, ip, now).1
    ensures Streak(es, cfg, ip, first, idx) && |idx| >= cfg.strikes
    ensures now < es[idx[|idx| - 1]].at + cfg.penalty
    ensures InOrder(es) ==> forall i :: 0 <= i < |idx| ==> first <= es[idx[i]].at <= first + cfg.window
    ensures cfg.strikes > 0 && ip !in cfg.allowlist && !(cfg.exemptLocal && ip in cfg.local)
  {
    idx := MarkWitness(cfg, es, ip);
    first := After(cfg, es)[ip].first;
  }

  // ---- the guard does refuse

  predicate SilentFrom(e: Event, ip: int) {
    e.kind == Silent && e.ip == ip
  }

  predicate AnsweredFrom(e: Event, ip: int) {
    e.kind == Answered && e.ip == ip
  }

  /** Silent connections from `ip` among events `s` to `n`. */
  function Silents(es: seq<Event>, ip: int, s: nat, n: nat): nat
    requires s <= n <= |es|
    decreases n
  {
    if s == n then 0 else Silents(es, ip, s, n - 1) + if SilentFrom(es[n - 1], ip) then 1 else 0
  }

  /** Whether a strike at `now` falls into the window that began at `first`.  Its very end belongs to
      it too, unless the table is full and is swept first. */
  predicate InWindow(ms: Marks, cfg: Config, first: nat, now: nat) {
    Elapsed(now, first) < cfg.window || (Elapsed(now, first) == cfg.window && |ms| < SWEEP_AT)
  }

  /** Inside its window a mark is neither swept nor reset: a silent connection adds a strike. */
  lemma StrikeCounts(ms: Marks, cfg: Config, ip: int, e: Event)
    requires !Exempt(cfg, ip) && ip in ms && ms[ip].until.None? && !AnsweredFrom(e, ip)
    requires InWindow(ms, cfg, ms[ip].first, e.at)
    ensures ip in Step(ms, cfg, e)
    ensures Step(ms, cfg, e)[ip] == if SilentFrom(e, ip) then Struck(ms[ip], cfg, e.at) else ms[ip]
  {
    hide Struck, Exempt;
  }

  /** The first silent connection of an unmarked address starts a mark. */
  lemma FirstStrike(ms: Marks, cfg: Config, ip: int, e: Event)
    requires !Exempt(cfg, ip) && ip !in ms && SilentFrom(e, ip)
    ensures ip in Step(ms, cfg, e)
    ensures Step(ms, cfg, e)[ip] == Struck(Mark(0, e.at, None), cfg, e.at)
  {
    hide Struck, Exempt;
  }

  /** Whether event `i` falls into the window that event `s` began. */
  predicate StillIn(cfg: Config, es: seq<Event>, s: nat, i: nat)
    requires s < |es| && i < |es|
  {
    InWindow(After(cfg, es[..i]), cfg, es[s].at, es[i].at)
  }

  lemma LastStillIn(cfg: Config, es: seq<Event>, s: nat, n: nat)
    requires s < n < |es| && StillIn(cfg, es, s, n)
    ensures InWindow(After(cfg, es[..n]), cfg, es[s].at, es[n].at)
  {
  }

  /** From an unmarked address, strikes inside one window add up, whatever is swept meanwhile. */
  lemma {:induction false} StrikesAddUp(cfg: Config, es: seq<Event>, ip: int, s: nat, n: nat)
    requires cfg.strikes > 0 && ip !in cfg.allowlist && !(cfg.exemptLocal && ip in cfg.local) && s < n <= |es|
    requires ip !in After(cfg, es[..s]) && SilentFrom(es[s], ip)
    requires forall i :: s <= i < n ==> !AnsweredFrom(es[i], ip)
    requires forall i :: s < i < n ==> StillIn(cfg, es, s, i)
    requires Silents(es, ip, s, n - 1) < cfg.strikes
    ensures ip in After(cfg, es[..n])
    ensures After(cfg, es[..n])[ip]
            == Mark(Silents(es, ip, s, n), es[s].at,
                    if Silents(es, ip, s, n) >= cfg.strikes then Some(es[n - 1].at + cfg.penalty) else None)
    decreases n
  {
    hide Step, StillIn, InWindow;
    assert es[..n][..n - 1] == es[..n - 1];
    var ms := After(cfg, es[..n - 1]);
    if n > s + 1 {
      StrikesAddUp(cfg, es, ip, s, n - 1);
      LastStillIn(cfg, es, s, n - 1);
      StrikeCounts(ms, cfg, ip, es[n - 1]);
    } else {
      assert Silents(es, ip, s, s) == 0 && Silents(es, ip, s, n) == 1;
      FirstStrike(ms, cfg, ip, es[s]);
    }
  }

  /** No step but an answered connection touches a mark under penalty. */
  lemma ShutKept(ms: Marks, cfg: Config, ip: int, e: Event)
    requires ip in ms && ShutOut(ms[ip], e.at) && !AnsweredFrom(e, ip)
    ensures ip in Step(ms, cfg, e) && Step(ms, cfg, e)[ip] == ms[ip]
  {
    hide Struck, Exempt;
  }

  /** A penalty lasts until it runs out or a connection is answered. */
  lemma {:induction false} StaysShut(cfg: Config, es: seq<Event>, ip: int, n: nat)
    requires n <= |es| && ip in After(cfg, es[..n]) && After(cfg, es[..n])[ip].until.Some?
    requires forall i :: n <= i < |es| ==> !AnsweredFrom(es[i], ip) && es[i].at < After(cfg, es[..n])[ip].until.value
    ensures ip in After(cfg, es) && After(cfg, es)[ip] == After(cfg, es[..n])[ip]
    decreases |es|
  {
    hide Step;
    if n == |es| {
      assert es[..n] == es;
    } else {
      var before := es[..|es| - 1];
      assert before[..n] == es[..n];
      StaysShut(cfg, before, ip, n);
      ShutKept(After(cfg, before), cfg, ip, es[|es| - 1]);
    }
  }

  /** An unmarked address that makes `strikes` silent connections inside one window is refused from
      the last of them until its penalty runs out, unless one of its connections is answered. */
  lemma StrikesAreRefused(cfg: Config, es: seq<Event>, ip: int, s: nat, n: nat, now: nat)
    requires cfg.strikes > 0 && ip !in cfg.allowlist && !(cfg.exemptLocal && ip in cfg.local) && s < n <= |es|
    requires ip !in After(cfg, es[..s]) && SilentFrom(es[s], ip) && SilentFrom(es[n - 1], ip)
    requires Silents(es, ip, s, n) == cfg.strikes
    requires forall i :: s < i < n ==> StillIn(cfg, es, s, i)
    requires forall i :: s <= i < |es| ==> !AnsweredFrom(es[i], ip)
    requires now < es[n - 1].at + cfg.penalty && forall i :: n <= i < |es| ==> es[i].at < es[n - 1].at + cfg.penalty
    ensures !Admit(After(cfg, es), cfg, ip, now).1
  {
    hide Step, StillIn, After;
    StrikesAddUp(cfg, es, ip, s, n);
    StaysShut(cfg, es, ip, n);
  }

  /** With no strikes configured, or for an address on the list or an exempt local one, nothing is
      ever refused or remembered. */
  lemma ExemptGoFree(ms: Marks, cfg: Config, e: Event)
    requires cfg.strikes == 0 || e.ip in cfg.allowlist || (cfg.exemptLocal && e.ip in cfg.local)
    ensures Admit(ms, cfg, e.ip, e.at).1 && Step(ms, cfg, e) == ms
  {
  }

  /** An answered connection clears its address, and no other. */
  lemma AnswerClears(ms: Marks, cfg: Config, ip: int, now: nat)
    requires cfg.strikes > 0 && ip !in cfg.allowlist && !(cfg.exemptLocal && ip in cfg.local)
    ensures Step(ms, cfg, Event(Answered, ip, now)) == ms - {ip}
    ensures Admit(Step(ms, cfg, Event(Answered, ip, now)), cfg, ip, now).1
  {
  }
}
