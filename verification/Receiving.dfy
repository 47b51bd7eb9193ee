/** Where one receive stops reading, and how each way of stopping leaves the connection. */
module Receiving {
  import opened Outcomes
  import opened Codec
  import opened Transport

  /** The buffer after so many of the reads to come. */
  function BufferAfter(c: Channel, k: nat): (buf: seq<Byte>)
    requires k <= |c.incoming|
  {
    if k == 0 then c.readBuf
    else BufferAfter(c, k - 1) + match c.incoming[k - 1] case Read(bytes) => bytes case _ => []
  }

  /** Nothing whole or wrong in the buffer, and the next read brings bytes. */
  predicate ReadsOn(c: Channel, k: nat)
    requires k <= |c.incoming|
  {
    && DecodeFrame(BufferAfter(c, k)) == Incomplete
    && k < |c.incoming| && c.incoming[k].Read? && |c.incoming[k].bytes| > 0
  }

  predicate StopsAt(c: Channel, k: nat) {
    k <= |c.incoming| && !ReadsOn(c, k) && forall i: nat :: i < k ==> ReadsOn(c, i)
  }

  lemma {:induction false} LaterBuffer(c: Channel, k: nat)
    requires k < |c.incoming| && c.incoming[0].Read?
    ensures var next := c.(incoming := c.incoming[1..], readBuf := c.readBuf + c.incoming[0].bytes);
      BufferAfter(next, k) == BufferAfter(c, k + 1)
  {
    if k > 0 {
      LaterBuffer(c, k - 1);
    } else {
      assert BufferAfter(c, 1) == BufferAfter(c, 0) + c.incoming[0].bytes;
    }
  }

  /** A receive reads exactly up to where it stops. */
  lemma {:induction false} ReadsUpTo(c: Channel, k: nat)
    requires !c.poisoned && StopsAt(c, k)
    ensures Receive(c) == Receive(c.(incoming := c.incoming[k..], readBuf := BufferAfter(c, k)))
    decreases k
  {
    if k == 0 {
      assert c.(incoming := c.incoming[0..], readBuf := c.readBuf) == c;
    } else {
      assert ReadsOn(c, 0);
      var next := c.(incoming := c.incoming[1..], readBuf := c.readBuf + c.incoming[0].bytes);
      forall i: nat | i < |c.incoming| ensures BufferAfter(next, i) == BufferAfter(c, i + 1) {
        LaterBuffer(c, i);
      }
      forall i: nat | i < k - 1 ensures ReadsOn(next, i) {
        assert ReadsOn(c, i + 1);
      }
      assert !ReadsOn(next, k - 1);
      ReadsUpTo(next, k - 1);
      assert next.incoming[k - 1..] == c.incoming[k..];
    }
  }

  /**
   * Where it stops decides: a whole frame is handed over and taken from the
   * buffer; bytes that are no frame, a failed read and a closed peer (a read of
   * nothing) break the connection for good; the time being up does not.
   */
  lemma ReceiveEndsAt(c: Channel, k: nat)
    requires !c.poisoned && StopsAt(c, k)
    ensures var buf, (r, c') := BufferAfter(c, k), Receive(c);
      && c'.sent == c.sent
      && match DecodeFrame(buf)
         case Frame(payload, consumed) =>
           && r == Payload(payload) && consumed <= |buf| && c'.readBuf == buf[consumed..]
           && c'.incoming == c.incoming[k..] && !c'.poisoned
         case Invalid => r == Broken(BadFrame) && c'.poisoned
         case Incomplete =>
           if k == |c.incoming| then r == NoFrame && c'.readBuf == buf && c'.incoming == [] && !c'.poisoned
           else
             match c.incoming[k]
             case TimedOut => r == NoFrame && c'.readBuf == buf && c'.incoming == c.incoming[k + 1..] && !c'.poisoned
             case ReadFailed => r == Broken(ReadError) && c'.poisoned
             case Read(bytes) => bytes == [] && r == Broken(Closed) && c'.poisoned
  {
    ReadsUpTo(c, k);
    var at := c.(incoming := c.incoming[k..], readBuf := BufferAfter(c, k));
    if DecodeFrame(at.readBuf).Frame? {
      FrameExtent(at.readBuf);
    }
    assert k < |c.incoming| ==> at.incoming[0] == c.incoming[k] && at.incoming[1..] == c.incoming[k + 1..];
  }

  /** There is always one place where it stops. */
  lemma StopsSomewhere(c: Channel) returns (k: nat)
    ensures StopsAt(c, k)
  {
    k := 0;
    while k < |c.incoming| && ReadsOn(c, k)
      invariant k <= |c.incoming| && forall i: nat :: i < k ==> ReadsOn(c, i)
    {
      k := k + 1;
    }
  }

  /** After that a broken connection answers at once, and stays as it is. */
  lemma PoisonedAnswers(c: Channel, payload: seq<Byte>, outcome: WriteOutcome)
    requires c.poisoned
    ensures Receive(c) == (Broken(Poisoned), c) && Sent(c, payload, outcome) == (Some(Poisoned), c)
  {
  }

  /** The beginning of the frame, as far as the write got. */
  predicate PutsOut(put: seq<Byte>, payload: seq<Byte>, part: nat) {
    put <= EncodeFrame(payload) && (|put| == part || (put == EncodeFrame(payload) && |put| <= part))
  }

  /** A write that fails or stalls says so, leaves what it put out, and breaks the connection. */
  lemma SendEnds(c: Channel, payload: seq<Byte>, outcome: WriteOutcome)
    requires !c.poisoned
    ensures var (error, c') := Sent(c, payload, outcome);
      && c'.readBuf == c.readBuf && c'.incoming == c.incoming && c.sent <= c'.sent
      && var put := c'.sent[|c.sent|..];
         match outcome
         case Written => error == None && put == EncodeFrame(payload) && !c'.poisoned
         case WriteFailed(part) => error == Some(WriteError) && PutsOut(put, payload, part) && c'.poisoned
         case WriteStalled(part) => error == Some(WriteTimeout) && PutsOut(put, payload, part) && c'.poisoned
  {
    hide EncodeFrame;
  }
}
