/**
 One query over a stream, from `client.rs`: two-byte framing (section 4.2.2 of RFC 1035) and the
 checks a reply must pass before its connection may be used again.
 */
module StreamExchange {
  import opened Bytes
  import opened BitMask

  datatype Option<T> = None | Some(value: T)

  const MAX_MSG: nat := 0x1_0000

  /** A question: its name label by label, type and class. */
  datatype Question = Question(name: seq<ByteString>, qtype: nat, qclass: nat)

  datatype Message = Message(id: nat, queries: seq<Question>, rest: int)

  datatype Outcome = Answered(reply: Message) | Failed

  /** A connection: what has been written to it, and the bytes its other end will have sent. */
  datatype Conn = Conn(outbox: ByteString, inbox: ByteString)

  function Frame(wire: ByteString): ByteString {
    BE(|wire|, 2) + wire
  }

  // ---- whose reply it is

  function Lower(c: Byte): Byte {
    if 65 <= c <= 90 then c + 32 else c
  }

  /** `eq_ignore_ascii_case`. */
  predicate SameLabel(a: ByteString, b: ByteString) {
    |a| == |b| && forall i :: 0 <= i < |a| ==> Lower(a[i]) == Lower(b[i])
  }

  /** `same_name`. */
  predicate SameName(a: seq<ByteString>, b: seq<ByteString>) {
    |a| == |b| && forall i :: 0 <= i < |a| ==> SameLabel(a[i], b[i])
  }

  /** `check_reply`: a request that asked nothing accepts anything. */
  predicate CheckReply(req: Message, resp: Message) {
    req.queries == []
    || (|resp.queries| == 1
        && resp.queries[0].qtype == req.queries[0].qtype && resp.queries[0].qclass == req.queries[0].qclass
        && SameName(resp.queries[0].name, req.queries[0].name))
  }

  predicate Valid(req: Message, resp: Message) {
    resp.id == req.id && CheckReply(req, resp)
  }

  // ---- the exchange

  /** The reply is read as a length and that many bytes; a stream that ends too soon fails. */
  function ReadFrame(inbox: ByteString): Option<(ByteString, ByteString)> {
    if |inbox| < 2 then None
    else
      var n := FromBE(inbox[..2]);
      if n > MAX_MSG || |inbox| < 2 + n then None
      else Some((inbox[2..2 + n], inbox[2 + n..]))
  }

  /** What is left to read after a reply to `req` is read, and whether it is one. */
  function ReadReply(inbox: ByteString, req: Message, decode: ByteString -> Option<Message>): (ByteString, Outcome) {
    var got := ReadFrame(inbox);
    if got.None? then (inbox, Failed)
    else
      var (body, rest) := got.value;
      var resp := decode(body);
      (rest, if resp.Some? && Valid(req, resp.value) then Answered(resp.value) else Failed)
  }

  /** `wire` is the encoded request, and `decode` the message decoder.  A request too long for the
      length field is not written at all. */
  function Exchange(c: Conn, req: Message, wire: ByteString, decode: ByteString -> Option<Message>): (Conn, Outcome) {
    if |wire| >= U16_LIMIT then (c, Failed)
    else
      var (rest, outcome) := ReadReply(c.inbox, req, decode);
      (Conn(c.outbox + Frame(wire), rest), outcome)
  }

  lemma FrameReads(m: ByteString, rest: ByteString)
    requires |m| < U16_LIMIT
    ensures ReadFrame(Frame(m) + rest) == Some((m, rest))
  {
    hide BE, FromBE;
    Widths();
    BERoundTrip(|m|, 2);
    var s := Frame(m) + rest;
    assert s[..2] == BE(|m|, 2) && s[2..2 + |m|] == m && s[2 + |m|..] == rest;
  }

  lemma LengthFits(b: ByteString)
    requires |b| == 2
    ensures FromBE(b) < U16_LIMIT && BE(FromBE(b), 2) == b
  {
    FromBEBound(b);
    BEOfFromBE(b);
    assert Pow2(8) == 0x100;
    assert Pow2(16) == U16_LIMIT;
  }

  /** Reading takes exactly one whole frame off the front or nothing; no length is too large. */
  lemma ReadsOneFrame(inbox: ByteString)
    ensures ReadFrame(inbox).Some? ==>
              var (m, rest) := ReadFrame(inbox).value; |m| < U16_LIMIT && inbox == Frame(m) + rest
    ensures ReadFrame(inbox).None? <==> forall m, rest :: |m| < U16_LIMIT ==> inbox != Frame(m) + rest
  {
    hide BE, FromBE;
    Widths();
    if ReadFrame(inbox).Some? {
      var (m, rest) := ReadFrame(inbox).value;
      LengthFits(inbox[..2]);
      assert inbox == inbox[..2] + m + rest;
    }
    forall m, rest | |m| < U16_LIMIT && inbox == Frame(m) + rest ensures ReadFrame(inbox).Some? {
      FrameReads(m, rest);
    }
  }

  /** A reply is accepted exactly when it carries the request's identifier and, unless nothing was
      asked, one question of the same type, class and, letter case aside, name. */
  lemma ValidIff(req: Message, resp: Message)
    ensures Valid(req, resp) <==>
              resp.id == req.id
              && (req.queries == []
                  || (|resp.queries| == 1
                      && resp.queries[0].qtype == req.queries[0].qtype
                      && resp.queries[0].qclass == req.queries[0].qclass
                      && Folded(resp.queries[0].name) == Folded(req.queries[0].name)))
  {
    hide SameName, Folded;
    if req.queries != [] && |resp.queries| == 1 {
      SameNameIsFolded(resp.queries[0].name, req.queries[0].name);
    }
  }

  /** An exchange answers exactly when the next thing on the stream is one whole frame holding a
      reply with this identifier to this very question, and it then leaves the stream just past
      that frame. */
  lemma AnsweredIff(c: Conn, req: Message, wire: ByteString, decode: ByteString -> Option<Message>)
    ensures Exchange(c, req, wire, decode).1.Answered? <==>
              |wire| < U16_LIMIT
              && exists m, rest ::
                   && |m| < U16_LIMIT && c.inbox == Frame(m) + rest && decode(m).Some?
                   && var r := decode(m).value;
                      && r.id == req.id
                      && (req.queries == []
                          || (|r.queries| == 1
                              && r.queries[0].qtype == req.queries[0].qtype
                              && r.queries[0].qclass == req.queries[0].qclass
                              && Folded(r.queries[0].name) == Folded(req.queries[0].name)))
    ensures forall m, rest ::
              Exchange(c, req, wire, decode).1.Answered? && |m| < U16_LIMIT && c.inbox == Frame(m) + rest ==>
                decode(m).Some? && Exchange(c, req, wire, decode) == (Conn(c.outbox + Frame(wire), rest), Answered(decode(m).value))
  {
    hide Frame, ReadFrame, Valid, Folded;
    ReadsOneFrame(c.inbox);
    forall m, rest | |m| < U16_LIMIT && c.inbox == Frame(m) + rest ensures ReadFrame(c.inbox) == Some((m, rest)) {
      FrameReads(m, rest);
    }
    forall r ensures Valid(req, r) <==>
                       r.id == req.id
                       && (req.queries == []
                           || (|r.queries| == 1
                               && r.queries[0].qtype == req.queries[0].qtype
                               && r.queries[0].qclass == req.queries[0].qclass
                               && Folded(r.queries[0].name) == Folded(req.queries[0].name)))
    {
      ValidIff(req, r);
    }
  }

  /** A frame is the length in two bytes, high byte first, and then the message. */
  lemma FrameBytes(m: ByteString)
    requires |m| < U16_LIMIT
    ensures |Frame(m)| == 2 + |m| && Frame(m)[0] == |m| / 256 && Frame(m)[1] == |m| % 256 && Frame(m)[2..] == m
  {
    assert BE(|m|, 2) == BE(|m| / 256, 1) + [|m| % 256];
  }

  /** Why a connection with an unread frame must not be reused: the next query is given that frame,
      whatever its own reply is, so it fails unless the left-over happens to answer it too. */
  lemma LeftoverIsRead(c: Conn, req: Message, wire: ByteString, decode: ByteString -> Option<Message>,
                       left: ByteString, own: ByteString)
    requires |left| < U16_LIMIT && |own| < U16_LIMIT && |wire| < U16_LIMIT
    requires c.inbox == Frame(left) + Frame(own)
    ensures Exchange(c, req, wire, decode).0.inbox == Frame(own)
    ensures Exchange(c, req, wire, decode).1
            == if decode(left).Some? && Valid(req, decode(left).value) then Answered(decode(left).value) else Failed
  {
    hide Frame, ReadFrame, Valid;
    FrameReads(left, Frame(own));
  }

  function Frames(ms: seq<ByteString>): ByteString {
    if ms == [] then [] else Frame(ms[0]) + Frames(ms[1..])
  }

  /** Exchange after exchange on one connection, whatever each of them gives. */
  function RunAll(c: Conn, reqs: seq<Message>, wires: seq<ByteString>, decode: ByteString -> Option<Message>): (Conn, seq<Outcome>)
    requires |reqs| == |wires|
    decreases |reqs|
  {
    if reqs == [] then (c, [])
    else
      var (d, out) := Exchange(c, reqs[0], wires[0], decode);
      var (last, outs) := RunAll(d, reqs[1..], wires[1..], decode);
      (last, [out] + outs)
  }

  /** Reusing a clean connection keeps it clean: each query gets its own reply, and at the end as
      many frames have been read as were written. */
  lemma {:induction false} CleanRun(c: Conn, reqs: seq<Message>, wires: seq<ByteString>, replies: seq<ByteString>,
                                    decode: ByteString -> Option<Message>)
    requires |reqs| == |wires| == |replies| && c.inbox == Frames(replies)
    requires forall i :: 0 <= i < |reqs| ==> |wires[i]| < U16_LIMIT && |replies[i]| < U16_LIMIT
    requires forall i :: 0 <= i < |reqs| ==> decode(replies[i]).Some? && Valid(reqs[i], decode(replies[i]).value)
    ensures var (d, outs) := RunAll(c, reqs, wires, decode);
            && d == Conn(c.outbox + Frames(wires), [])
            && |outs| == |reqs|
            && forall i :: 0 <= i < |outs| ==> outs[i] == Answered(decode(replies[i]).value)
    decreases |reqs|
  {
    hide Frame, ReadFrame, Valid;
    if reqs == [] {
      assert c.outbox + Frames(wires) == c.outbox;
    } else {
      FrameReads(replies[0], Frames(replies[1..]));
      var d := Conn(c.outbox + Frame(wires[0]), Frames(replies[1..]));
      assert Exchange(c, reqs[0], wires[0], decode) == (d, Answered(decode(replies[0]).value));
      CleanRun(d, reqs[1..], wires[1..], replies[1..], decode);
      assert c.outbox + Frames(wires) == d.outbox + Frames(wires[1..]);
    }
  }

  function Folded(name: seq<ByteString>): seq<ByteString> {
    seq(|name|, i requires 0 <= i < |name| => FoldedLabel(name[i]))
  }

  function FoldedLabel(a: ByteString): (f: ByteString)
    ensures |f| == |a|
    ensures forall i :: 0 <= i < |a| ==> f[i] == Lower(a[i])
  {
    seq(|a|, i requires 0 <= i < |a| => Lower(a[i]))
  }

  /** Names are the same exactly when they are equal in lower case. */
  lemma SameNameIsFolded(a: seq<ByteString>, b: seq<ByteString>)
    ensures SameName(a, b) <==> Folded(a) == Folded(b)
  {
    if |a| == |b| {
      forall i | 0 <= i < |a| ensures SameLabel(a[i], b[i]) <==> FoldedLabel(a[i]) == FoldedLabel(b[i]) {
      }
      if Folded(a) == Folded(b) {
        forall i | 0 <= i < |a| ensures SameLabel(a[i], b[i]) {
          assert Folded(a)[i] == Folded(b)[i];
        }
      }
      assert SameName(a, b) ==> Folded(a) == Folded(b);
    } else {
      assert |Folded(a)| == |a| && |Folded(b)| == |b|;
    }
  }

  /** Two bytes are the same in lower case exactly when they are equal or the two cases of one letter. */
  lemma LowerSame(a: Byte, b: Byte)
    ensures Lower(a) == Lower(b) <==> a == b || (65 <= a <= 90 && b == a + 32) || (65 <= b <= 90 && a == b + 32)
  {
  }
}
