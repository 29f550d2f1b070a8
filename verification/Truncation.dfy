/** Cutting a response down to what its client can receive, from `msg.rs`. */
module Truncation {

  datatype Option<T> = None | Some(value: T)

  /** A record; only its place matters here. */
  type Record = int

  /** The three sections the cut may empty.  Everything else in the message stays. */
  datatype Sections = Sections(answers: seq<Record>, authorities: seq<Record>, additionals: seq<Record>)

  const MIN_UDP_PAYLOAD: nat := 512

  /** The limit a request sets: its advertised size, floored at 512 as section 6.2.3 of RFC 6891
      requires, and 512 when it advertises none. */
  function UdpLimit(advertised: Option<nat>): (limit: nat)
    ensures limit >= MIN_UDP_PAYLOAD
    ensures advertised.Some? && advertised.value >= MIN_UDP_PAYLOAD ==> limit == advertised.value
    ensures advertised.None? || advertised.value < MIN_UDP_PAYLOAD ==> limit == MIN_UDP_PAYLOAD
  {
    var size := if advertised.None? then MIN_UDP_PAYLOAD else advertised.value;
    if size < MIN_UDP_PAYLOAD then MIN_UDP_PAYLOAD else size
  }

  function All(s: Sections): seq<Record> {
    s.answers + s.authorities + s.additionals
  }

  /** `all` cut after `keep` records and split where the sections used to end. */
  function Cut(all: seq<Record>, answers: nat, authorities: nat, keep: nat): Sections
    requires keep <= |all|
  {
    var a := if keep < answers then keep else answers;
    var b := if keep < answers + authorities then keep else answers + authorities;
    Sections(all[..a], all[a..b], all[b..keep])
  }

  function CutOf(s: Sections, keep: nat): Sections
    requires keep <= |All(s)|
  {
    Cut(All(s), |s.answers|, |s.authorities|, keep)
  }

  /** Whether the message with its first `keep` records fits; `size` is the encoder's length. */
  predicate Fits(s: Sections, size: Sections -> nat, limit: nat, keep: nat)
    requires keep <= |All(s)|
  {
    size(CutOf(s, keep)) <= limit
  }

  /** The bisection: `lo` was kept because it fits or is zero, everything past `hi` was ruled out. */
  function Bisect(s: Sections, size: Sections -> nat, limit: nat, lo: nat, hi: nat): (keep: nat)
    requires lo <= hi <= |All(s)|
    ensures lo <= keep <= hi
    decreases hi - lo
  {
    if lo == hi then lo
    else
      var mid := (lo + hi + 1) / 2;
      if Fits(s, size, limit, mid) then Bisect(s, size, limit, mid, hi) else Bisect(s, size, limit, lo, mid - 1)
  }

  function Keep(s: Sections, size: Sections -> nat, limit: nat): (keep: nat)
    ensures keep <= |All(s)|
  {
    Bisect(s, size, limit, 0, |All(s)|)
  }

  lemma BisectStep(s: Sections, size: Sections -> nat, limit: nat, lo: nat, hi: nat)
    requires lo <= hi <= |All(s)|
    ensures Bisect(s, size, limit, lo, hi)
            == if lo == hi then lo
               else if Fits(s, size, limit, (lo + hi + 1) / 2) then Bisect(s, size, limit, (lo + hi + 1) / 2, hi)
               else Bisect(s, size, limit, lo, (lo + hi + 1) / 2 - 1)
  {
    hide Fits, All;
  }

  /** One round of the bisection. */
  lemma Halve(s: Sections, size: Sections -> nat, limit: nat, lo: nat, hi: nat, mid: nat)
    requires lo < hi <= |All(s)| && mid == (lo + hi + 1) / 2
    ensures lo < mid <= hi
    ensures var tried := Cut(All(s), |s.answers|, |s.authorities|, mid);
            Bisect(s, size, limit, lo, hi)
            == if size(tried) <= limit then Bisect(s, size, limit, mid, hi) else Bisect(s, size, limit, lo, mid - 1)
  {
    hide Cut, All;
  }

  lemma KeepIs(s: Sections, size: Sections -> nat, limit: nat)
    ensures Keep(s, size, limit) == Bisect(s, size, limit, 0, |All(s)|)
  {
  }

  class Response {
    var sections: Sections
    var truncation: bool

    constructor (s: Sections, tc: bool)
      ensures sections == s && truncation == tc
    {
      sections, truncation := s, tc;
    }

    /** Tries prefixes of the records on the message itself, halving the range each time. */
    method Search(limit: nat, size: Sections -> nat, all: seq<Record>, answers: nat, authorities: nat,
                  ghost was: Sections)
      returns (lo: nat)
      requires all == All(was) && answers == |was.answers| && authorities == |was.authorities|
      modifies this`sections
      ensures lo == Keep(was, size, limit)
    {
      KeepIs(was, size, limit);
      hide *;
      var hi: nat := |all|;
      lo := 0;
      while lo < hi
        invariant lo <= hi <= |all|
        invariant Bisect(was, size, limit, lo, hi) == Keep(was, size, limit)
      {
        var mid: nat := (lo + hi + 1) / 2;
        Halve(was, size, limit, lo, hi, mid);
        sections := Cut(all, answers, authorities, mid);
        if size(sections) <= limit {
          lo := mid;
        } else {
          hi := mid - 1;
        }
      }
    }

    /** Cuts the response down to `limit` bytes, reporting whether anything had to go. */
    method Truncate(limit: nat, size: Sections -> nat) returns (cut: bool)
      modifies this
      ensures var was := old(sections);
              if size(was) <= limit then !cut && sections == was && truncation == old(truncation)
              else sections == CutOf(was, Keep(was, size, limit))
                   && truncation == cut == (Keep(was, size, limit) < |All(was)|)
    {
      if size(sections) <= limit {
        return false;
      }
      hide Cut, Bisect, Keep;
      ghost var was := sections;
      var answers, authorities := |sections.answers|, |sections.authorities|;
      var all := sections.answers + sections.authorities + sections.additionals;
      var lo := Search(limit, size, all, answers, authorities, was);
      sections := Cut(all, answers, authorities, lo);
      truncation := lo < |all|;
      cut := lo < |all|;
    }
  }

  /** Adding a record back never makes the message smaller. */
  ghost predicate Monotone(s: Sections, size: Sections -> nat) {
    forall i, j :: 0 <= i <= j <= |All(s)| ==> size(CutOf(s, i)) <= size(CutOf(s, j))
  }

  /** Keeping every record is the whole message. */
  lemma CutAll(s: Sections)
    ensures CutOf(s, |All(s)|) == s
  {
  }

  /** Wherever the bisection stops, that much fits unless it is nothing, and one more record
      does not, whatever the sizes. */
  lemma {:induction false} BisectLocal(s: Sections, size: Sections -> nat, limit: nat, lo: nat, hi: nat)
    requires lo <= hi <= |All(s)|
    requires lo == 0 || Fits(s, size, limit, lo)
    requires hi == |All(s)| || !Fits(s, size, limit, hi + 1)
    ensures var keep := Bisect(s, size, limit, lo, hi);
            (keep == 0 || Fits(s, size, limit, keep)) && (keep == |All(s)| || !Fits(s, size, limit, keep + 1))
    decreases hi - lo
  {
    hide Fits, All, Bisect;
    BisectStep(s, size, limit, lo, hi);
    if lo < hi {
      var mid := (lo + hi + 1) / 2;
      if Fits(s, size, limit, mid) {
        BisectLocal(s, size, limit, mid, hi);
      } else {
        BisectLocal(s, size, limit, lo, mid - 1);
      }
    }
  }

  /** When a message does not fit, truncation keeps the longest prefix of its records that does,
      provided the message without records fits and size never falls as records are added. */
  lemma KeepsLongestPrefix(s: Sections, size: Sections -> nat, limit: nat)
    requires Monotone(s, size) && Fits(s, size, limit, 0)
    ensures Fits(s, size, limit, Keep(s, size, limit))
    ensures forall k :: 0 <= k <= |All(s)| ==> (Fits(s, size, limit, k) <==> k <= Keep(s, size, limit))
  {
    hide CutOf;
    BisectLocal(s, size, limit, 0, |All(s)|);
    var keep := Keep(s, size, limit);
    forall k | 0 <= k <= |All(s)| ensures Fits(s, size, limit, k) <==> k <= keep {
      if k <= keep {
        assert size(CutOf(s, k)) <= size(CutOf(s, keep));
      } else {
        assert size(CutOf(s, keep + 1)) <= size(CutOf(s, k));
      }
    }
  }

  /** If even the message without records does not fit, every record goes. */
  lemma HopelessDropsAll(s: Sections, size: Sections -> nat, limit: nat)
    requires Monotone(s, size) && !Fits(s, size, limit, 0)
    ensures Keep(s, size, limit) == 0
  {
    hide CutOf;
    BisectLocal(s, size, limit, 0, |All(s)|);
    assert size(CutOf(s, 0)) <= size(CutOf(s, Keep(s, size, limit)));
  }

  /** A message that does not fit loses a record, and is marked truncated, exactly when it has one. */
  lemma TruncatedIffRecords(s: Sections, size: Sections -> nat, limit: nat)
    requires size(s) > limit
    ensures Keep(s, size, limit) < |All(s)| <==> All(s) != []
  {
    hide CutOf;
    CutAll(s);
    BisectLocal(s, size, limit, 0, |All(s)|);
  }

  /** The cut is a prefix of the records in section order, split at the original boundaries: a
      section loses records only when every later section is empty. */
  lemma CutIsPrefix(s: Sections, keep: nat)
    requires keep <= |All(s)|
    ensures var c := CutOf(s, keep);
            && All(c) == All(s)[..keep]
            && c.answers <= s.answers && c.authorities <= s.authorities && c.additionals <= s.additionals
            && (c.answers != s.answers ==> c.authorities == [])
            && (c.answers != s.answers || c.authorities != s.authorities ==> c.additionals == [])
  {
    var c, all, a, b := CutOf(s, keep), All(s), |s.answers|, |s.answers| + |s.authorities|;
    assert all[..a] == s.answers && all[a..b] == s.authorities && all[b..] == s.additionals;
    if keep >= a {
      assert c.answers == s.answers;
      if keep >= b {
        assert c.authorities == s.authorities;
      } else {
        assert all[a..keep] == s.authorities[..keep - a];
      }
    } else {
      assert all[..keep] == s.answers[..keep];
    }
    assert keep >= b ==> all[b..keep] == s.additionals[..keep - b];
  }
}
