/** Host-name matching from `name.rs`, on bytes. */
module Names {
  import opened Bytes

  const DOT: Byte := 46
  const STAR: Byte := 42
  const ANY: Byte := 63

  // ---- globs

  /** What a pattern means: a star stands for any run, a question mark for any one byte. */
  ghost predicate Glob(pat: ByteString, text: ByteString) {
    if pat == [] then text == []
    else if pat[0] == STAR then exists n :: 0 <= n <= |text| && Glob(pat[1..], text[n..])
    else text != [] && (pat[0] == text[0] || pat[0] == ANY) && Glob(pat[1..], text[1..])
  }

  /** The matcher's registers: positions in pattern and text, and the last star with the text
      position it is being tried from. */
  datatype Cursor = Cursor(p: nat, t: nat, star: Mark)
  datatype Mark = NoStar | Star(at: nat, mark: nat)

  ghost predicate Placed(pat: ByteString, text: ByteString, c: Cursor) {
    && c.p <= |pat| && c.t <= |text|
    && (c.star.Star? ==> c.star.at < c.p && c.star.mark <= c.t && pat[c.star.at] == STAR)
  }

  /** How much of the pattern lies beyond the last star. */
  function Beyond(pat: ByteString, c: Cursor): nat
    requires c.star.Star? ==> c.star.at < |pat|
  {
    if c.star.Star? then |pat| - c.star.at else |pat| + 1
  }

  /** How much text the last star has not been tried on. */
  function Untried(text: ByteString, c: Cursor): nat
    requires c.star.Star? ==> c.star.mark <= |text|
  {
    if c.star.Star? then |text| - c.star.mark else |text| + 1
  }

  /** The rest of the matcher's run from `c`; the measure is last star, then mark, then position. */
  ghost predicate Accepts(pat: ByteString, text: ByteString, c: Cursor)
    requires Placed(pat, text, c)
    decreases Beyond(pat, c), Untried(text, c), |text| - c.t
  {
    if c.t < |text| then
      if c.p < |pat| && (pat[c.p] == text[c.t] || pat[c.p] == ANY) then
        Accepts(pat, text, Cursor(c.p + 1, c.t + 1, c.star))
      else if c.p < |pat| && pat[c.p] == STAR then
        Accepts(pat, text, Cursor(c.p + 1, c.t, Star(c.p, c.t)))
      else if c.star.Star? then
        Accepts(pat, text, Cursor(c.star.at + 1, c.star.mark + 1, Star(c.star.at, c.star.mark + 1)))
      else false
    else AllStars(pat[c.p..])
  }

  ghost predicate AllStars(pat: ByteString) {
    forall i :: 0 <= i < |pat| ==> pat[i] == STAR
  }

  const START: Cursor := Cursor(0, 0, NoStar)

  method GlobMatch(pat: ByteString, text: ByteString) returns (r: bool)
    ensures r == Accepts(pat, text, START)
    ensures r ==> Glob(pat, text)
    ensures STAR !in text || STAR !in pat ==> (r <==> Glob(pat, text))
  {
    hide Glob;
    var p: nat, t: nat, star: Mark := 0, 0, NoStar;
    Meaning(pat, text);
    while t < |text|
      invariant Placed(pat, text, Cursor(p, t, star))
      invariant Accepts(pat, text, Cursor(p, t, star)) == Accepts(pat, text, START)
      decreases Beyond(pat, Cursor(p, t, star)), Untried(text, Cursor(p, t, star)), |text| - t
    {
      if p < |pat| && (pat[p] == text[t] || pat[p] == ANY) {
        p, t := p + 1, t + 1;
      } else if p < |pat| && pat[p] == STAR {
        star := Star(p, t);
        p := p + 1;
      } else if star.Star? {
        p := star.at + 1;
        star := Star(star.at, star.mark + 1);
        t := star.mark;
      } else {
        return false;
      }
    }
    ghost var end: nat := p;
    while p < |pat| && pat[p] == STAR
      invariant end <= p <= |pat|
      invariant forall i :: end <= i < p ==> pat[i] == STAR
    {
      p := p + 1;
    }
    r := p == |pat|;
    assert r ==> AllStars(pat[end..]);
    assert !r ==> p < |pat| && pat[end..][p - end] != STAR;
  }

  /** From the start, acceptance means the pattern matches; it is the same unless both hold a star. */
  lemma Meaning(pat: ByteString, text: ByteString)
    ensures Accepts(pat, text, START) ==> Glob(pat, text)
    ensures STAR !in text || STAR !in pat ==> (Accepts(pat, text, START) <==> Glob(pat, text))
  {
    hide Glob, Accepts;
    assert pat[0..] == pat && text[0..] == text;
    Sound(pat, text, START);
    if STAR !in text {
      Complete(pat, text, START);
    } else if STAR !in pat {
      CompleteWithoutStar(pat, text, START);
    }
  }

  lemma {:induction false} StarsMatchNothing(pat: ByteString)
    ensures Glob(pat, []) <==> AllStars(pat)
  {
    var none: ByteString := [];
    if pat != [] {
      StarsMatchNothing(pat[1..]);
      assert none[0..] == none;
      assert pat == [pat[0]] + pat[1..];
    }
  }

  /** What is still reachable from a cursor: matching on from here, or giving the last star more. */
  ghost predicate Hope(pat: ByteString, text: ByteString, c: Cursor)
    requires Placed(pat, text, c)
  {
    Glob(pat[c.p..], text[c.t..])
    || (c.star.Star? && exists n :: c.star.mark < n <= |text| && Glob(pat[c.star.at + 1..], text[n..]))
  }

  /** Every acceptance is justified by the meaning of the pattern, whatever the text holds. */
  lemma {:induction false} Sound(pat: ByteString, text: ByteString, c: Cursor)
    requires Placed(pat, text, c)
    ensures Accepts(pat, text, c) ==> Hope(pat, text, c)
    decreases Beyond(pat, c), Untried(text, c), |text| - c.t
  {
    hide Glob, Hope;
    if c.t == |text| {
      EndIsSound(pat, text, c);
    } else if c.p < |pat| && (pat[c.p] == text[c.t] || pat[c.p] == ANY) {
      Sound(pat, text, Cursor(c.p + 1, c.t + 1, c.star));
      LiteralIsSound(pat, text, c);
    } else if c.p < |pat| && pat[c.p] == STAR {
      Sound(pat, text, Cursor(c.p + 1, c.t, Star(c.p, c.t)));
      StarIsSound(pat, text, c);
    } else if c.star.Star? {
      Sound(pat, text, Cursor(c.star.at + 1, c.star.mark + 1, Star(c.star.at, c.star.mark + 1)));
      RetryIsSound(pat, text, c);
    }
  }

  lemma EndIsSound(pat: ByteString, text: ByteString, c: Cursor)
    requires Placed(pat, text, c) && c.t == |text|
    ensures AllStars(pat[c.p..]) ==> Hope(pat, text, c)
  {
    hide Glob, AllStars;
    StarsMatchNothing(pat[c.p..]);
    assert text[c.t..] == [];
  }

  lemma LiteralIsSound(pat: ByteString, text: ByteString, c: Cursor)
    requires Placed(pat, text, c) && c.t < |text| && c.p < |pat| && (pat[c.p] == text[c.t] || pat[c.p] == ANY)
    ensures Hope(pat, text, Cursor(c.p + 1, c.t + 1, c.star)) ==> Hope(pat, text, c)
  {
    hide Glob;
    if Glob(pat[c.p + 1..], text[c.t + 1..]) {
      Literal(pat, text, c.p, c.t);
    }
  }

  lemma StarIsSound(pat: ByteString, text: ByteString, c: Cursor)
    requires Placed(pat, text, c) && c.p < |pat| && pat[c.p] == STAR
    ensures Hope(pat, text, Cursor(c.p + 1, c.t, Star(c.p, c.t))) ==> Hope(pat, text, c)
  {
    hide Glob;
    StarFrom(pat, text, c.p, c.t);
  }

  lemma RetryIsSound(pat: ByteString, text: ByteString, c: Cursor)
    requires Placed(pat, text, c) && c.t < |text| && c.star.Star?
    ensures Hope(pat, text, Cursor(c.star.at + 1, c.star.mark + 1, Star(c.star.at, c.star.mark + 1))) ==> Hope(pat, text, c)
  {
    hide Glob;
  }

  lemma Literal(pat: ByteString, text: ByteString, p: nat, t: nat)
    requires p < |pat| && t < |text| && (pat[p] == text[t] || pat[p] == ANY)
    requires Glob(pat[p + 1..], text[t + 1..])
    ensures Glob(pat[p..], text[t..])
  {
    assert pat[p..][1..] == pat[p + 1..] && text[t..][1..] == text[t + 1..];
    if pat[p] == STAR {
      assert Glob(pat[p..][1..], text[t..][1..]);
    }
  }

  /** A star matches from `t` exactly when the rest matches from somewhere at or after `t`. */
  lemma StarFrom(pat: ByteString, text: ByteString, p: nat, t: nat)
    requires p < |pat| && t <= |text| && pat[p] == STAR
    ensures Glob(pat[p..], text[t..]) <==> exists n :: t <= n <= |text| && Glob(pat[p + 1..], text[n..])
  {
    assert pat[p..][1..] == pat[p + 1..];
    if exists n :: t <= n <= |text| && Glob(pat[p + 1..], text[n..]) {
      var n :| t <= n <= |text| && Glob(pat[p + 1..], text[n..]);
      assert text[t..][n - t..] == text[n..];
      assert Glob(pat[p..][1..], text[t..][n - t..]);
    }
    if Glob(pat[p..], text[t..]) {
      var n :| 0 <= n <= |text[t..]| && Glob(pat[p..][1..], text[t..][n..]);
      assert text[t..][n..] == text[t + n..];
    }
  }

  /** Since the last star the pattern has been literal and has advanced in step with the text. */
  ghost predicate InStep(pat: ByteString, c: Cursor) {
    c.star.Star? ==>
      && c.star.at < c.p <= |pat| && c.t - c.star.mark == c.p - c.star.at - 1
      && forall i :: c.star.at < i < c.p ==> pat[i] != STAR
  }

  /** A star-free stretch of pattern uses up exactly its own length of text. */
  lemma {:induction false} SkipLiteral(pat: ByteString, text: ByteString, a: nat, p: nat, n: nat)
    requires a <= p <= |pat| && n <= |text|
    requires forall i :: a <= i < p ==> pat[i] != STAR
    requires Glob(pat[a..], text[n..])
    ensures n + (p - a) <= |text| && Glob(pat[p..], text[n + (p - a)..])
    decreases p - a
  {
    if a < p {
      assert pat[a..][1..] == pat[a + 1..] && text[n..][1..] == text[n + 1..];
      SkipLiteral(pat, text, a + 1, p, n + 1);
    }
  }

  /** Whatever an earlier star could still be given, a later one can take instead. */
  lemma LaterStarSuffices(pat: ByteString, text: ByteString, c: Cursor)
    requires Placed(pat, text, c) && InStep(pat, c) && Hope(pat, text, c)
    requires c.p < |pat| && pat[c.p] == STAR
    ensures Hope(pat, text, Cursor(c.p + 1, c.t, Star(c.p, c.t)))
  {
    hide Glob;
    var t := c.t;
    if !Glob(pat[c.p..], text[c.t..]) {
      var n :| c.star.mark < n <= |text| && Glob(pat[c.star.at + 1..], text[n..]);
      SkipLiteral(pat, text, c.star.at + 1, c.p, n);
      t := n + (c.p - c.star.at - 1);
    }
    StarFrom(pat, text, c.p, t);
    var m :| t <= m <= |text| && Glob(pat[c.p + 1..], text[m..]);
  }

  lemma AtEnd(pat: ByteString, text: ByteString, c: Cursor)
    requires Placed(pat, text, c) && InStep(pat, c) && Hope(pat, text, c) && c.t == |text|
    ensures AllStars(pat[c.p..])
  {
    if !Glob(pat[c.p..], text[c.t..]) {
      var n :| c.star.mark < n <= |text| && Glob(pat[c.star.at + 1..], text[n..]);
      SkipLiteral(pat, text, c.star.at + 1, c.p, n);
      assert false;
    }
    assert text[c.t..] == [];
    StarsMatchNothing(pat[c.p..]);
  }

  lemma LiteralKeepsHope(pat: ByteString, text: ByteString, c: Cursor)
    requires Placed(pat, text, c) && Hope(pat, text, c) && STAR !in text
    requires c.t < |text| && c.p < |pat| && (pat[c.p] == text[c.t] || pat[c.p] == ANY)
    ensures Hope(pat, text, Cursor(c.p + 1, c.t + 1, c.star)) && pat[c.p] != STAR
  {
    assert pat[c.p..][1..] == pat[c.p + 1..] && text[c.t..][1..] == text[c.t + 1..];
    assert pat[c.p] != STAR;
    if Glob(pat[c.p..], text[c.t..]) {
      assert Glob(pat[c.p + 1..], text[c.t + 1..]);
    }
  }

  lemma NoMatchHere(pat: ByteString, text: ByteString)
    requires text != [] && (pat != [] ==> pat[0] != text[0] && pat[0] != ANY && pat[0] != STAR)
    ensures !Glob(pat, text)
  {
  }

  lemma MismatchKeepsHope(pat: ByteString, text: ByteString, c: Cursor)
    requires Placed(pat, text, c) && Hope(pat, text, c) && c.t < |text|
    requires c.p < |pat| ==> pat[c.p] != text[c.t] && pat[c.p] != ANY && pat[c.p] != STAR
    ensures c.star.Star?
    ensures Hope(pat, text, Cursor(c.star.at + 1, c.star.mark + 1, Star(c.star.at, c.star.mark + 1)))
  {
    hide Glob;
    NoMatchHere(pat[c.p..], text[c.t..]);
    var n :| c.star.mark < n <= |text| && Glob(pat[c.star.at + 1..], text[n..]);
    assert n == c.star.mark + 1 || c.star.mark + 1 < n;
  }

  /** On a text without stars nothing the pattern means is missed. */
  lemma {:induction false} Complete(pat: ByteString, text: ByteString, c: Cursor)
    requires Placed(pat, text, c) && InStep(pat, c) && STAR !in text
    ensures Hope(pat, text, c) ==> Accepts(pat, text, c)
    decreases Beyond(pat, c), Untried(text, c), |text| - c.t
  {
    hide Glob, Hope;
    if Hope(pat, text, c) {
      if c.t == |text| {
        AtEnd(pat, text, c);
      } else if c.p < |pat| && (pat[c.p] == text[c.t] || pat[c.p] == ANY) {
        LiteralKeepsHope(pat, text, c);
        Complete(pat, text, Cursor(c.p + 1, c.t + 1, c.star));
      } else if c.p < |pat| && pat[c.p] == STAR {
        LaterStarSuffices(pat, text, c);
        Complete(pat, text, Cursor(c.p + 1, c.t, Star(c.p, c.t)));
      } else {
        MismatchKeepsHope(pat, text, c);
        Complete(pat, text, Cursor(c.star.at + 1, c.star.mark + 1, Star(c.star.at, c.star.mark + 1)));
      }
    }
  }

  // ---- texts that hold a star

  function Repeat(b: Byte, n: nat): (r: ByteString)
    ensures |r| == n
  {
    seq(n, _ => b)
  }

  /** A pattern the text matches and the matcher refuses: up to the first star it repeats the
      text, so the matcher pairs star with star; then it asks for one byte more than is left. */
  function Trap(text: ByteString, i: nat): ByteString
    requires i < |text|
  {
    text[..i + 1] + Repeat(ANY, |text| - i)
  }

  lemma {:induction false} QuestionsMatch(n: nat, text: ByteString)
    requires |text| == n
    ensures Glob(Repeat(ANY, n), text)
  {
    if n > 0 {
      QuestionsMatch(n - 1, text[1..]);
      assert Repeat(ANY, n)[1..] == Repeat(ANY, n - 1);
    }
  }

  lemma {:induction false} PrefixGlob(text: ByteString, k: nat, rest: ByteString)
    requires k <= |text| && Glob(rest, text[k..])
    ensures Glob(text[..k] + rest, text)
  {
    if k == 0 {
      assert text[..0] + rest == rest && text[0..] == text;
    } else {
      assert text[1..][..k - 1] == text[..k][1..] && text[1..][k - 1..] == text[k..];
      assert text[..k][0] == text[0];
      PrefixGlob(text[1..], k - 1, rest);
      assert (text[..k] + rest)[1..] == text[1..][..k - 1] + rest;
    }
  }

  lemma StarSkips(pat: ByteString, text: ByteString, n: nat)
    requires n <= |text| && Glob(pat, text[n..])
    ensures Glob([STAR] + pat, text)
  {
    assert ([STAR] + pat)[1..] == pat;
    assert Glob(([STAR] + pat)[1..], text[n..]);
  }

  lemma TrapMatches(text: ByteString, i: nat)
    requires i < |text| && text[i] == STAR && STAR !in text[..i]
    ensures Glob(Trap(text, i), text)
  {
    hide Glob;
    var questions := Repeat(ANY, |text| - i);
    QuestionsMatch(|text| - i, text[i..]);
    assert text[i..][0..] == text[i..];
    StarSkips(questions, text[i..], 0);
    PrefixGlob(text, i, [STAR] + questions);
    assert Trap(text, i) == text[..i] + ([STAR] + questions);
  }

  lemma {:induction false} TrapRefused(text: ByteString, i: nat, t: nat)
    requires i < |text| && t <= |text|
    ensures !Accepts(Trap(text, i), text, Cursor(t, t, NoStar))
    decreases |text| - t
  {
    var pat := Trap(text, i);
    if t < |text| {
      TrapRefused(text, i, t + 1);
      assert pat[t] == text[t] || pat[t] == ANY;
    } else {
      assert pat[t..][0] == ANY;
    }
  }

  lemma FirstStar(text: ByteString) returns (i: nat)
    requires STAR in text
    ensures i < |text| && text[i] == STAR && STAR !in text[..i]
  {
    i := 0;
    while text[i] != STAR
      invariant i < |text| && STAR !in text[..i]
      invariant exists j :: i <= j < |text| && text[j] == STAR
      decreases |text| - i
    {
      i := i + 1;
    }
  }

  /** The matcher agrees with the meaning of every pattern exactly on the texts without a star. */
  lemma ExactOnStarFreeTexts(text: ByteString)
    ensures (forall pat :: Accepts(pat, text, START) <==> Glob(pat, text)) <==> STAR !in text
  {
    hide Glob, Accepts;
    if STAR in text {
      var i := FirstStar(text);
      TrapMatches(text, i);
      TrapRefused(text, i, 0);
      assert !(Accepts(Trap(text, i), text, START) <==> Glob(Trap(text, i), text));
    } else {
      forall pat ensures Accepts(pat, text, START) <==> Glob(pat, text) {
        Meaning(pat, text);
      }
    }
  }

  // ---- patterns that hold a star

  /** A text the pattern matches and the matcher refuses: it repeats the pattern, so that star is
      paired with star, with one byte more after the last. */
  function Decoy(pat: ByteString, k: nat): ByteString
    requires k < |pat|
  {
    pat[..k + 1] + [DOT] + pat[k + 1..]
  }

  lemma LastStar(pat: ByteString) returns (k: nat)
    requires STAR in pat
    ensures k < |pat| && pat[k] == STAR && STAR !in pat[k + 1..]
  {
    k := |pat| - 1;
    while pat[k] != STAR
      invariant k < |pat| && STAR !in pat[k + 1..]
      invariant exists j :: 0 <= j <= k && pat[j] == STAR
      decreases k
    {
      k := k - 1;
    }
  }

  /** Any pattern matches its own text. */
  lemma SelfGlob(pat: ByteString)
    ensures Glob(pat, pat)
  {
    assert pat[|pat|..] == [] && pat[..|pat|] + [] == pat;
    PrefixGlob(pat, |pat|, []);
  }

  lemma DecoyParts(pat: ByteString, k: nat)
    requires k < |pat| && pat[k] == STAR
    ensures var text := Decoy(pat, k);
            k <= |text| && text[k..] == [STAR, DOT] + pat[k + 1..] && text[..k] + ([STAR] + pat[k + 1..]) == pat
  {
  }

  lemma DecoyMatches(pat: ByteString, k: nat)
    requires k < |pat| && pat[k] == STAR
    ensures Glob(pat, Decoy(pat, k))
  {
    hide *;
    var text, rest := Decoy(pat, k), pat[k + 1..];
    DecoyParts(pat, k);
    SelfGlob(rest);
    assert ([STAR, DOT] + rest)[2..] == rest;
    StarSkips(rest, text[k..], 2);
    PrefixGlob(text, k, [STAR] + rest);
  }

  /** With no star to fall back on, a pattern without one cannot use up more text than it has bytes. */
  lemma {:induction false} TooLongRefused(pat: ByteString, text: ByteString, c: Cursor)
    requires Placed(pat, text, c) && c.star.NoStar? && STAR !in pat[c.p..] && |text| - c.t > |pat| - c.p
    ensures !Accepts(pat, text, c)
    decreases |text| - c.t
  {
    if c.p < |pat| {
      assert pat[c.p..][0] == pat[c.p] && pat[c.p..][1..] == pat[c.p + 1..];
      if pat[c.p] == text[c.t] || pat[c.p] == ANY {
        TooLongRefused(pat, text, Cursor(c.p + 1, c.t + 1, NoStar));
      }
    }
  }

  lemma {:induction false} DecoyRefused(pat: ByteString, k: nat, t: nat)
    requires k < |pat| && STAR !in pat[k + 1..] && t <= k + 1
    ensures !Accepts(pat, Decoy(pat, k), Cursor(t, t, NoStar))
    decreases k + 1 - t
  {
    var text := Decoy(pat, k);
    if t <= k {
      assert pat[t] == text[t];
      DecoyRefused(pat, k, t + 1);
    } else {
      TooLongRefused(pat, text, Cursor(t, t, NoStar));
    }
  }

  /** Without a star in the pattern the matcher follows its meaning step by step. */
  lemma {:induction false} CompleteWithoutStar(pat: ByteString, text: ByteString, c: Cursor)
    requires Placed(pat, text, c) && c.star.NoStar? && STAR !in pat[c.p..]
    ensures Glob(pat[c.p..], text[c.t..]) ==> Accepts(pat, text, c)
    decreases |text| - c.t
  {
    if c.p < |pat| {
      assert pat[c.p..][0] == pat[c.p] && pat[c.p..][1..] == pat[c.p + 1..];
      if c.t < |text| {
        assert text[c.t..][0] == text[c.t] && text[c.t..][1..] == text[c.t + 1..];
        if pat[c.p] == text[c.t] || pat[c.p] == ANY {
          CompleteWithoutStar(pat, text, Cursor(c.p + 1, c.t + 1, NoStar));
        }
      }
    }
  }

  /** The matcher agrees with the meaning on every text exactly for the patterns without a star. */
  lemma ExactForStarFreePatterns(pat: ByteString)
    ensures (forall text :: Accepts(pat, text, START) <==> Glob(pat, text)) <==> STAR !in pat
  {
    hide Glob, Accepts;
    if STAR in pat {
      var k := LastStar(pat);
      DecoyMatches(pat, k);
      DecoyRefused(pat, k, 0);
      assert !(Accepts(pat, Decoy(pat, k), START) <==> Glob(pat, Decoy(pat, k)));
    } else {
      forall text ensures Accepts(pat, text, START) <==> Glob(pat, text) {
        Meaning(pat, text);
      }
    }
  }

  // ---- domains

  predicate EndsWith(host: ByteString, tail: ByteString) {
    |tail| <= |host| && host[|host| - |tail|..] == tail
  }

  predicate IsSubdomainOf(host: ByteString, domain: ByteString) {
    host == domain
    || (|host| > |domain| && EndsWith(host, domain) && host[|host| - |domain| - 1] == DOT)
  }

  /** What follows the first dot, unless there is none or nothing follows it. */
  function Parent(host: ByteString): (r: seq<ByteString>)
    ensures |r| <= 1 && (|r| == 1 ==> |r[0]| < |host|)
  {
    if host == [] then []
    else if host[0] == DOT then (if host[1..] == [] then [] else [host[1..]])
    else Parent(host[1..])
  }

  /** `host` and each of its parents, longest first. */
  function Suffixes(host: ByteString): seq<ByteString>
    decreases |host|
  {
    [host] + if Parent(host) == [] then [] else Suffixes(Parent(host)[0])
  }

  /** The iterator, stepped to its end. */
  method ListSuffixes(host: ByteString) returns (out: seq<ByteString>)
    ensures out == Suffixes(host)
  {
    hide Parent, Suffixes;
    out := [];
    var cur := [host];
    while cur != []
      invariant |cur| <= 1
      invariant Suffixes(host) == out + if cur == [] then [] else Suffixes(cur[0])
      decreases if cur == [] then 0 else 1 + |cur[0]|
    {
      var c := cur[0];
      SuffixesStep(c);
      out := out + [c];
      cur := Parent(c);
    }
  }

  lemma SuffixesStep(host: ByteString)
    ensures Suffixes(host) == [host] + if Parent(host) == [] then [] else Suffixes(Parent(host)[0])
  {
  }

  /** The suffixes start with the host itself and get strictly shorter. */
  lemma {:induction false} SuffixesShrink(host: ByteString)
    ensures Suffixes(host)[0] == host
    ensures forall i, j :: 0 <= i < j < |Suffixes(host)| ==> |Suffixes(host)[i]| > |Suffixes(host)[j]|
    decreases |host|
  {
    SuffixesStep(host);
    if Parent(host) != [] {
      SuffixesShrink(Parent(host)[0]);
    }
  }

  lemma LongerTail(host: ByteString, domain: ByteString)
    requires |host| > |domain| + 1
    ensures IsSubdomainOf(host, domain) <==> IsSubdomainOf(host[1..], domain)
  {
    var rest := host[1..];
    assert host[|host| - |domain|..] == rest[|rest| - |domain|..];
    assert rest[|rest| - |domain| - 1] == host[|host| - |domain| - 1];
  }

  lemma OneLonger(host: ByteString, domain: ByteString)
    requires |host| == |domain| + 1
    ensures IsSubdomainOf(host, domain) <==> host[0] == DOT && host[1..] == domain
  {
  }

  lemma {:induction false} ParentIsSuffix(host: ByteString, domain: ByteString)
    requires domain != [] && domain != host
    ensures IsSubdomainOf(host, domain) <==> Parent(host) != [] && IsSubdomainOf(Parent(host)[0], domain)
  {
    hide EndsWith;
    if |host| == |domain| + 1 {
      OneLonger(host, domain);
    } else if |host| > |domain| {
      LongerTail(host, domain);
      if host[0] != DOT {
        ParentIsSuffix(host[1..], domain);
      }
    }
  }

  /** A host is under a domain exactly when the domain is one of its suffixes, unless the domain
      is empty and the host ends in a dot. */
  lemma {:induction false} SubdomainsAreSuffixes(host: ByteString, domain: ByteString)
    ensures (IsSubdomainOf(host, domain) <==> domain in Suffixes(host))
            <==> !(domain == [] && host != [] && host[|host| - 1] == DOT)
    decreases |host|
  {
    if domain == [] {
      EmptyNotSuffix(host);
    } else if domain != host {
      ParentIsSuffix(host, domain);
      if Parent(host) != [] {
        SubdomainsAreSuffixes(Parent(host)[0], domain);
      }
    }
  }

  lemma {:induction false} EmptyNotSuffix(host: ByteString)
    ensures [] in Suffixes(host) <==> host == []
    decreases |host|
  {
    if Parent(host) != [] {
      ParentNonEmpty(host);
      EmptyNotSuffix(Parent(host)[0]);
    }
  }

  lemma {:induction false} ParentNonEmpty(host: ByteString)
    ensures Parent(host) != [] ==> Parent(host)[0] != []
  {
    if host != [] {
      ParentNonEmpty(host[1..]);
    }
  }

  /** Wildcards: a leading `*.` covers the bare domain and all below it; anything else is a glob. */
  method WildcardMatch(pattern: ByteString, host: ByteString) returns (r: bool)
    ensures [STAR, DOT] <= pattern ==> (r <==> IsSubdomainOf(host, pattern[2..]))
    ensures !([STAR, DOT] <= pattern) ==> (r ==> Glob(pattern, host))
    ensures !([STAR, DOT] <= pattern) && (STAR !in host || STAR !in pattern) ==> (r <==> Glob(pattern, host))
  {
    if |pattern| >= 2 && pattern[0] == STAR && pattern[1] == DOT {
      return IsSubdomainOf(host, pattern[2..]);
    }
    r := GlobMatch(pattern, host);
  }
}
