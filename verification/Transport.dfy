/** The framed connection: bytes in any chunks, a poison flag that never clears. */
module Transport {
  import opened Outcomes
  import opened Codec

  /** What one read of the socket yields; reading no bytes means the peer closed. */
  datatype ReadEvent = Read(bytes: seq<Byte>) | ReadFailed | TimedOut

  /** How one frame write ended; a failed one may have put out any part of the frame. */
  datatype WriteOutcome = Written | WriteFailed(part: nat) | WriteStalled(part: nat)

  datatype IoError = Poisoned | Closed | ReadError | BadFrame | WriteError | WriteTimeout

  datatype Received = Payload(payload: seq<Byte>) | NoFrame | Broken(error: IoError)

  /** The connection with its environment: bytes already on the socket, reads still to come. */
  datatype Channel = Channel(sent: seq<Byte>, readBuf: seq<Byte>, poisoned: bool, incoming: seq<ReadEvent>)

  function PartOf(payload: seq<Byte>, outcome: WriteOutcome): (bytes: seq<Byte>) {
    var frame := EncodeFrame(payload);
    match outcome
    case Written => frame
    case WriteFailed(part) => frame[..if part < |frame| then part else |frame|]
    case WriteStalled(part) => frame[..if part < |frame| then part else |frame|]
  }

  function Sent(c: Channel, payload: seq<Byte>, outcome: WriteOutcome): (Option<IoError>, Channel) {
    if c.poisoned then
      (Some(Poisoned), c)
    else
      var c' := c.(sent := c.sent + PartOf(payload, outcome), poisoned := outcome != Written);
      match outcome
      case Written => (None, c')
      case WriteFailed(_) => (Some(WriteError), c')
      case WriteStalled(_) => (Some(WriteTimeout), c')
  }

  function Receive(c: Channel): (Received, Channel)
    decreases |c.incoming|
  {
    if c.poisoned then (Broken(Poisoned), c)
    else
      match DecodeFrame(c.readBuf)
      case Frame(payload, consumed) => FrameExtent(c.readBuf); (Payload(payload), c.(readBuf := c.readBuf[consumed..]))
      case Invalid => (Broken(BadFrame), c.(poisoned := true))
      case Incomplete =>
        if c.incoming == [] then (NoFrame, c)
        else
          var rest := c.(incoming := c.incoming[1..]);
          match c.incoming[0]
          case TimedOut => (NoFrame, rest)
          case ReadFailed => (Broken(ReadError), rest.(poisoned := true))
          case Read(bytes) =>
            if bytes == [] then (Broken(Closed), rest.(poisoned := true))
            else Receive(rest.(readBuf := c.readBuf + bytes))
  }

  class Connection {
    var sent: seq<Byte>
    var readBuf: seq<Byte>
    var poisoned: bool
    var incoming: seq<ReadEvent>

    constructor (incoming: seq<ReadEvent>)
      ensures View() == Channel([], [], false, incoming)
    {
      sent, readBuf, poisoned := [], [], false;
      this.incoming := incoming;
    }

    function View(): Channel
      reads this
    {
      Channel(sent, readBuf, poisoned, incoming)
    }

    method SendFrame(payload: seq<Byte>, outcome: WriteOutcome) returns (error: Option<IoError>)
      modifies this
      ensures (error, View()) == Sent(old(View()), payload, outcome)
    {
      if poisoned {
        return Some(Poisoned);
      }
      sent := sent + PartOf(payload, outcome);
      match outcome {
        case Written => error := None;
        case WriteFailed(_) => error := Poison(WriteError);
        case WriteStalled(_) => error := Poison(WriteTimeout);
      }
    }

    method Poison(error: IoError) returns (r: Option<IoError>)
      modifies this`poisoned
      ensures poisoned && r == Some(error)
    {
      poisoned := true;
      r := Some(error);
    }

    /** Reads until a frame is whole, the time is up, or the connection is lost. */
    method RecvFrame() returns (r: Received)
      modifies this
      ensures (r, View()) == Receive(old(View()))
    {
      if poisoned {
        return Broken(Poisoned);
      }
      while true
        invariant !poisoned && Receive(View()) == Receive(old(View()))
        decreases |incoming|
      {
        match DecodeFrame(readBuf) {
          case Frame(payload, consumed) =>
            FrameExtent(readBuf);
            readBuf := readBuf[consumed..];
            return Payload(payload);
          case Incomplete =>
          case Invalid =>
            var e := Poison(BadFrame);
            return Broken(e.value);
        }
        if incoming == [] {
          return NoFrame;
        }
        var event := incoming[0];
        incoming := incoming[1..];
        match event {
          case TimedOut => return NoFrame;
          case ReadFailed =>
            var e := Poison(ReadError);
            return Broken(e.value);
          case Read(bytes) =>
            if bytes == [] {
              var e := Poison(Closed);
              return Broken(e.value);
            }
            readBuf := readBuf + bytes;
        }
      }
    }
  }

  // ---- Receiving: the payloads do not depend on how the bytes were cut -------

  function Frames(payloads: seq<seq<Byte>>): (bytes: seq<Byte>) {
    if payloads == [] then [] else EncodeFrame(payloads[0]) + Frames(payloads[1..])
  }

  function Bytes(events: seq<ReadEvent>): (bytes: seq<Byte>) {
    if events == [] then []
    else (if events[0].Read? then events[0].bytes else []) + Bytes(events[1..])
  }

  function Timeouts(events: seq<ReadEvent>): (n: nat) {
    if events == [] then 0 else (if events[0].TimedOut? then 1 else 0) + Timeouts(events[1..])
  }

  ghost predicate Sendable(payload: seq<Byte>) {
    Utf8(payload) && |payload| <= MAX_FRAME_PAYLOAD_BYTES
  }

  /** What is buffered and still to come spells out these payloads, in non-empty reads and timeouts. */
  ghost predicate Carries(c: Channel, payloads: seq<seq<Byte>>) {
    && !c.poisoned
    && (forall p :: p in payloads ==> Sendable(p))
    && (forall e :: e in c.incoming ==> e.TimedOut? || (e.Read? && e.bytes != []))
    && c.readBuf + Bytes(c.incoming) == Frames(payloads)
  }

  /** The channel after its next event was read into the buffer, or timed out. */
  function AfterEvent(c: Channel): Channel
    requires c.incoming != []
  {
    var rest := c.(incoming := c.incoming[1..]);
    if c.incoming[0].Read? then rest.(readBuf := c.readBuf + c.incoming[0].bytes) else rest
  }

  lemma EventKeepsPayloads(c: Channel, payloads: seq<seq<Byte>>)
    requires Carries(c, payloads) && c.incoming != []
    ensures Carries(AfterEvent(c), payloads)
    ensures Timeouts(AfterEvent(c).incoming) + (if c.incoming[0].TimedOut? then 1 else 0) == Timeouts(c.incoming)
  {
    hide Frames;
    assert forall e :: e in c.incoming[1..] ==> e in c.incoming;
    assert c.incoming[0] in c.incoming;
    var next := AfterEvent(c);
    assert next.readBuf + Bytes(next.incoming) == c.readBuf + Bytes(c.incoming);
  }

  lemma FrameKeepsPayloads(c: Channel, payloads: seq<seq<Byte>>)
    requires Carries(c, payloads) && payloads != [] && |EncodeFrame(payloads[0])| <= |c.readBuf|
    ensures Carries(c.(readBuf := c.readBuf[|EncodeFrame(payloads[0])|..]), payloads[1..])
  {
    var n := |EncodeFrame(payloads[0])|;
    assert c.readBuf[n..] + Bytes(c.incoming) == (c.readBuf + Bytes(c.incoming))[n..];
    assert Frames(payloads)[n..] == Frames(payloads[1..]);
    assert forall p :: p in payloads[1..] ==> p in payloads;
  }

  ghost predicate TookPayload(c: Channel, payloads: seq<seq<Byte>>, r: Received, c': Channel) {
    && payloads != [] && r == Payload(payloads[0]) && Carries(c', payloads[1..])
    && Timeouts(c'.incoming) == Timeouts(c.incoming)
  }

  ghost predicate WaitedOut(c: Channel, payloads: seq<seq<Byte>>, r: Received, c': Channel) {
    && r == NoFrame && Carries(c', payloads)
    && (Timeouts(c'.incoming) + 1 == Timeouts(c.incoming) || (payloads == [] && c'.incoming == []))
  }

  /** One receive takes the next payload, or waits one timeout, and never breaks. */
  lemma {:induction false} ReceiveStep(c: Channel, payloads: seq<seq<Byte>>)
    requires Carries(c, payloads)
    ensures TookPayload(c, payloads, Receive(c).0, Receive(c).1) || WaitedOut(c, payloads, Receive(c).0, Receive(c).1)
    decreases |c.incoming|
  {
    BufferVerdict(c, payloads);
    match DecodeFrame(c.readBuf)
    case Frame(payload, consumed) =>
      FrameKeepsPayloads(c, payloads);
    case Incomplete =>
      if c.incoming != [] {
        EventKeepsPayloads(c, payloads);
        assert c.incoming[0] in c.incoming;
        if c.incoming[0].Read? {
          ReceiveStep(AfterEvent(c), payloads);
        }
      }
  }

  lemma NothingIsIncomplete()
    ensures DecodeFrame([]) == Incomplete
  {
  }

  /** The buffer is judged exactly as the frames it is the beginning of. */
  lemma BufferVerdict(c: Channel, payloads: seq<seq<Byte>>)
    requires Carries(c, payloads)
    ensures match DecodeFrame(c.readBuf)
      case Frame(payload, consumed) =>
        payloads != [] && payload == payloads[0] && consumed == |EncodeFrame(payload)| <= |c.readBuf|
      case Incomplete => payloads == [] || c.incoming != []
      case Invalid => false
  {
    hide DecodeFrame, EncodeFrame, Utf8;
    if payloads == [] {
      NothingIsIncomplete();
    } else {
      var first := EncodeFrame(payloads[0]);
      assert payloads[0] in payloads;
      var later := Frames(payloads[1..]);
      var all := c.readBuf + Bytes(c.incoming);
      RoundTrip(payloads[0], later);
      assert all == first + later;
      if |c.readBuf| < |first| {
        assert c.readBuf == all[..|c.readBuf|] == first[..|c.readBuf|];
        ProperPrefixIsIncomplete(payloads[0], |c.readBuf|);
      } else {
        var extra := c.readBuf[|first|..];
        assert c.readBuf == first + extra by {
          assert c.readBuf[..|first|] == all[..|first|] == first;
        }
        RoundTrip(payloads[0], extra);
      }
    }
  }

  /** The payloads n receives in a row hand over. */
  function Collected(c: Channel, n: nat): (r: (seq<seq<Byte>>, Channel))
    decreases n
  {
    if n == 0 then ([], c)
    else
      var (first, c1) := Receive(c);
      var (rest, c2) := Collected(c1, n - 1);
      (if first.Payload? then [first.payload] + rest else rest, c2)
  }

  /**
   * However the frames were cut into reads and whatever timeouts fell between
   * them, receiving returns exactly the payloads, in order, without breaking.
   */
  lemma {:induction false} ChunkingDoesNotMatter(c: Channel, payloads: seq<seq<Byte>>, n: nat)
    requires Carries(c, payloads) && n >= |payloads| + Timeouts(c.incoming)
    ensures Collected(c, n).0 == payloads && Carries(Collected(c, n).1, [])
    decreases n
  {
    hide Receive, Frames;
    if n == 0 {
      assert payloads == [];
    } else {
      ReceiveStep(c, payloads);
      var (r, c1) := Receive(c);
      if r.Payload? {
        ChunkingDoesNotMatter(c1, payloads[1..], n - 1);
        assert payloads == [payloads[0]] + payloads[1..];
      } else {
        NoTimeoutsLeft(c1);
        ChunkingDoesNotMatter(c1, payloads, n - 1);
      }
    }
  }

  lemma NoTimeoutsLeft(c: Channel)
    ensures c.incoming == [] ==> Timeouts(c.incoming) == 0
  {
  }

  /** Two ways of cutting the same frames give the same payloads. */
  lemma SameBytesSamePayloads(a: Channel, b: Channel, payloads: seq<seq<Byte>>, n: nat)
    requires Carries(a, payloads) && Carries(b, payloads)
    requires n >= |payloads| + Timeouts(a.incoming) && n >= |payloads| + Timeouts(b.incoming)
    ensures Collected(a, n).0 == Collected(b, n).0
  {
    ChunkingDoesNotMatter(a, payloads, n);
    ChunkingDoesNotMatter(b, payloads, n);
  }

  // ---- Sending: whole frames, then at most one torn one -----------------------

  datatype Op = SendOp(payload: seq<Byte>, outcome: WriteOutcome) | ReceiveOp(arrived: seq<ReadEvent>)

  function Step(c: Channel, op: Op): Channel {
    match op
    case SendOp(payload, outcome) => Sent(c, payload, outcome).1
    case ReceiveOp(arrived) => Receive(c.(incoming := c.incoming + arrived)).1
  }

  function Run(c: Channel, ops: seq<Op>): Channel {
    if ops == [] then c else Step(Run(c, ops[..|ops| - 1]), ops[|ops| - 1])
  }

  /** The payloads whose send came back without an error, in order. */
  function Acknowledged(c: Channel, ops: seq<Op>): (payloads: seq<seq<Byte>>) {
    if ops == [] then []
    else
      var earlier, op := ops[..|ops| - 1], ops[|ops| - 1];
      Acknowledged(c, earlier)
      + if op.SendOp? && Sent(Run(c, earlier), op.payload, op.outcome).0.None? then [op.payload] else []
  }

  /** The k-th operation is the send that failed, and these bytes are the beginning of its frame. */
  ghost predicate FailedSend(c: Channel, ops: seq<Op>, k: nat, torn: seq<Byte>) {
    && k < |ops| && ops[k].SendOp? && !Run(c, ops[..k]).poisoned
    && Sent(Run(c, ops[..k]), ops[k].payload, ops[k].outcome).0.Some? && torn <= EncodeFrame(ops[k].payload)
  }

  ghost predicate TornBySend(c: Channel, ops: seq<Op>, torn: seq<Byte>) {
    exists k: nat :: FailedSend(c, ops, k, torn)
  }

  /**
   * What was put on the socket: the frames of exactly the acknowledged
   * payloads, in order, and after them at most the beginning of the frame of
   * the one send that failed, which poisoned the connection.
   */
  ghost predicate WireIntact(c: Channel, ops: seq<Op>, torn: seq<Byte>) {
    && Run(c, ops).sent == c.sent + Frames(Acknowledged(c, ops)) + torn
    && (torn != [] ==> Run(c, ops).poisoned && TornBySend(c, ops, torn))
  }

  lemma {:induction false} FramesAppend(payloads: seq<seq<Byte>>, p: seq<Byte>)
    ensures Frames(payloads + [p]) == Frames(payloads) + EncodeFrame(p)
  {
    if payloads == [] {
      assert payloads + [p] == [p];
      assert Frames([p]) == EncodeFrame(p) + Frames([p][1..]);
    } else {
      assert (payloads + [p])[1..] == payloads[1..] + [p];
      FramesAppend(payloads[1..], p);
    }
  }

  lemma {:induction false} ReceiveSendsNothing(c: Channel)
    ensures Receive(c).1.sent == c.sent && (c.poisoned ==> Receive(c).1 == c)
    decreases |c.incoming|
  {
    if !c.poisoned && DecodeFrame(c.readBuf).Incomplete? && c.incoming != []
       && c.incoming[0].Read? && c.incoming[0].bytes != []
    {
      ReceiveSendsNothing(c.(incoming := c.incoming[1..], readBuf := c.readBuf + c.incoming[0].bytes));
    }
  }

  lemma {:induction false} WireStaysIntact(c: Channel, ops: seq<Op>) returns (torn: seq<Byte>)
    ensures WireIntact(c, ops, torn)
  {
    torn := [];
    if ops != [] {
      hide Acknowledged, Run, WireIntact;
      var n := |ops| - 1;
      torn := WireStaysIntact(c, ops[..n]);
      match ops[n]
      case ReceiveOp(_) => ReceiveKeepsWire(c, ops, torn);
      case SendOp(_, _) => torn := SendKeepsWire(c, ops, torn);
    } else {
      assert c.sent + [] + [] == c.sent;
    }
  }

  lemma StillFailed(c: Channel, ops: seq<Op>, torn: seq<Byte>)
    requires ops != [] && TornBySend(c, ops[..|ops| - 1], torn)
    ensures TornBySend(c, ops, torn)
  {
    hide Run, EncodeFrame;
    var k: nat :| FailedSend(c, ops[..|ops| - 1], k, torn);
    assert ops[..|ops| - 1][..k] == ops[..k];
    assert FailedSend(c, ops, k, torn);
  }

  lemma ReceiveKeepsWire(c: Channel, ops: seq<Op>, torn: seq<Byte>)
    requires ops != [] && ops[|ops| - 1].ReceiveOp? && WireIntact(c, ops[..|ops| - 1], torn)
    ensures WireIntact(c, ops, torn)
  {
    hide Receive, TornBySend, Frames;
    var before := Run(c, ops[..|ops| - 1]);
    var asked := before.(incoming := before.incoming + ops[|ops| - 1].arrived);
    ReceiveSendsNothing(asked);
    ReceiveKeepsPoison(asked);
    assert Acknowledged(c, ops) == Acknowledged(c, ops[..|ops| - 1]);
    if torn != [] {
      StillFailed(c, ops, torn);
    }
  }

  lemma {:induction false} ReceiveKeepsPoison(c: Channel)
    ensures c.poisoned ==> Receive(c).1.poisoned
  {
  }

  lemma SendKeepsWire(c: Channel, ops: seq<Op>, torn: seq<Byte>) returns (torn': seq<Byte>)
    requires ops != [] && ops[|ops| - 1].SendOp? && WireIntact(c, ops[..|ops| - 1], torn)
    ensures WireIntact(c, ops, torn')
  {
    hide EncodeFrame, Frames, TornBySend;
    var n := |ops| - 1;
    var before, payload, outcome := Run(c, ops[..n]), ops[n].payload, ops[n].outcome;
    var whole := Acknowledged(c, ops[..n]);
    torn' := torn;
    if before.poisoned {
      assert Acknowledged(c, ops) == whole;
      if torn != [] {
        StillFailed(c, ops, torn);
      }
    } else if outcome == Written {
      FramesAppend(whole, payload);
      assert Acknowledged(c, ops) == whole + [payload];
      assert c.sent + Frames(whole) + [] + EncodeFrame(payload) == c.sent + (Frames(whole) + EncodeFrame(payload)) + [];
    } else {
      torn' := PartOf(payload, outcome);
      assert Acknowledged(c, ops) == whole;
      assert c.sent + Frames(whole) + [] + torn' == c.sent + Frames(whole) + torn';
      FailsHere(c, ops);
    }
  }

  lemma FailsHere(c: Channel, ops: seq<Op>)
    requires ops != [] && ops[|ops| - 1].SendOp?
    requires ops[|ops| - 1].outcome != Written && !Run(c, ops[..|ops| - 1]).poisoned
    ensures TornBySend(c, ops, PartOf(ops[|ops| - 1].payload, ops[|ops| - 1].outcome))
  {
    hide EncodeFrame, Run;
    assert FailedSend(c, ops, |ops| - 1, PartOf(ops[|ops| - 1].payload, ops[|ops| - 1].outcome));
  }

  /** Poison is absorbing: nothing is sent and nothing is received after it. */
  lemma {:induction false} PoisonIsForever(c: Channel, ops: seq<Op>)
    requires c.poisoned
    ensures Run(c, ops).poisoned && Run(c, ops).sent == c.sent && Run(c, ops).readBuf == c.readBuf
    ensures !Receive(Run(c, ops)).0.Payload?
    ensures forall payload, outcome :: Sent(Run(c, ops), payload, outcome) == (Some(Poisoned), Run(c, ops))
  {
    if ops != [] {
      PoisonIsForever(c, ops[..|ops| - 1]);
    }
  }

  /** Every failure that is not a timeout poisons; a timeout never does. */
  lemma {:induction false} OnlyTimeoutsAreHarmless(c: Channel)
    requires !c.poisoned
    ensures Receive(c).1.poisoned <==> Receive(c).0.Broken?
    decreases |c.incoming|
  {
    if DecodeFrame(c.readBuf).Incomplete? && c.incoming != [] && c.incoming[0].Read? && c.incoming[0].bytes != [] {
      OnlyTimeoutsAreHarmless(c.(incoming := c.incoming[1..], readBuf := c.readBuf + c.incoming[0].bytes));
    }
  }
}
