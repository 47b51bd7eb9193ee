/** Request ids, and the two loops that wait for the answer to one request. */
module Client {
  import opened Outcomes
  import opened Numerals

  const U64: nat := 0x1_0000_0000_0000_0000

  /** A reply names a request id; origin records which request, in order of issue, the server meant. */
  datatype Response =
    | Data(id: string, origin: nat, data: string)
    | ErrorReply(id: string, origin: nat, msg: string)
    | Rejected(id: string, origin: nat)
    | Killed(id: string, origin: nat)
    | Signal(name: string)
    | CmdLineOn
    | CmdLineOff

  /** What one bounded read of the connection, or a look at the clock, can bring. */
  datatype Event = Arrived(r: Response) | Quiet | Expired | Lost

  datatype Answer = Reply(r: Response) | TimedOut | Broken

  datatype Diagnostics = Diagnostics(
    queuedTaskId: Option<string>,
    signalCount: nat,
    finalResult: Option<string>,
    cancellation: Option<string>,
    rejectedCommandId: Option<string>)

  const NO_DIAGNOSTICS: Diagnostics := Diagnostics(None, 0, None, None, None)

  function RequestId(counter: nat): (id: string) {
    "RQ." + Decimal(counter)
  }

  /** The counter is 64 bits wide: the n-th request gets the id of n modulo 2^64. */
  function IdOf(n: nat): (id: string) {
    RequestId(n % U64)
  }

  lemma IdsRepeatIff(m: nat, n: nat)
    ensures IdOf(m) == IdOf(n) <==> m % 0x1_0000_0000_0000_0000 == n % 0x1_0000_0000_0000_0000
  {
    DecimalInjective(m % U64, n % U64);
    assert IdOf(m)[3..] == Decimal(m % U64) && IdOf(n)[3..] == Decimal(n % U64);
  }

  /** Until the counter wraps, an id spells the number of the request. */
  lemma IdSpellsTheNumber(m: nat)
    requires m < 0x1_0000_0000_0000_0000
    ensures IdOf(m) == "RQ." + Decimal(m)
  {
    hide Decimal;
    assert m % U64 == m;
  }

  predicate Names(r: Response, id: string) {
    match r
    case Data(i, _, _) => i == id
    case ErrorReply(i, _, _) => i == id
    case Rejected(i, _) => i == id
    case Killed(i, _) => i == id
    case _ => false
  }

  // ---- A GET: wait_for_id ---------------------------------------------------

  /** Signals, command line notices, other ids and a kill notice are all skipped. */
  function Waited(events: seq<Event>, id: string): (Answer, seq<Event>) {
    if events == [] then (TimedOut, [])
    else
      match events[0]
      case Quiet => (TimedOut, events[1..])
      case Expired => (TimedOut, events[1..])
      case Lost => (Broken, events[1..])
      case Arrived(r) => if Names(r, id) && !r.Killed? then (Reply(r), events[1..]) else Waited(events[1..], id)
  }

  // ---- A SET or EXEC: terminal_outcome and poll_loop --------------------------

  /** The kind of a reply that settles a request. */
  function KindOf(r: Response): (kind: string)
    requires r.Data? || r.ErrorReply? || r.Rejected? || r.Killed?
  {
    match r
    case Data(_, _, _) => "DATA"
    case ErrorReply(_, _, _) => "ERROR"
    case Rejected(_, _) => "REJECTED"
    case Killed(_, _) => "KILLED"
  }

  /** One response: whether it settles the request, and the bookkeeping either way. */
  function TerminalOutcome(r: Response, id: string, d: Diagnostics): (bool, Diagnostics) {
    if Names(r, id) then
      (true, d.(
        finalResult := Some(KindOf(r)),
        cancellation := if r.Killed? then Some("killed") else d.cancellation,
        rejectedCommandId := if r.Rejected? then Some(r.id) else d.rejectedCommandId))
    else if r.Signal? then
      (false, d.(signalCount := d.signalCount + 1,
                 queuedTaskId := if d.queuedTaskId.Some? then d.queuedTaskId else Some(r.name)))
    else
      (false, d)
  }

  /** After the deadline one kill is sent and one response is looked at. */
  function AfterDeadline(events: seq<Event>, id: string, d: Diagnostics): (Answer, Diagnostics, seq<Event>) {
    var timedOut := d.(finalResult := Some("TIMEOUT"));
    if events == [] then (TimedOut, timedOut.(cancellation := Some("kill_sent")), [])
    else
      var note := match events[0]
        case Arrived(r) => if r.Killed? && r.id == id then "killed" else "kill_sent_then_other"
        case Lost => "kill_sent_then_error"
        case _ => "kill_sent";
      (TimedOut, timedOut.(cancellation := Some(note)), events[1..])
  }

  function Polled(events: seq<Event>, id: string, d: Diagnostics): (Answer, Diagnostics, seq<Event>) {
    if events == [] then AfterDeadline([], id, d)
    else
      match events[0]
      case Expired => AfterDeadline(events[1..], id, d)
      case Lost => (Broken, d, events[1..])
      case Quiet => Polled(events[1..], id, d)
      case Arrived(r) =>
        var (settled, d') := TerminalOutcome(r, id, d);
        if settled then (Reply(r), d', events[1..]) else Polled(events[1..], id, d')
  }

  class Inner {
    var counter: nat
    var incoming: seq<Event>

    predicate Valid()
      reads this
    {
      counter < U64
    }

    constructor ()
      ensures Valid() && counter == 0 && incoming == []
    {
      counter, incoming := 0, [];
    }

    /** The id of the request after issued earlier ones. */
    method NextId(ghost issued: nat) returns (id: string)
      requires Valid() && counter == issued % U64
      modifies this`counter
      ensures id == IdOf(issued) && Valid() && counter == (issued + 1) % U64
    {
      id := RequestId(counter);
      counter := if counter + 1 == U64 then 0 else counter + 1;
    }

    method WaitForId(id: string) returns (answer: Answer)
      modifies this`incoming
      ensures (answer, incoming) == Waited(old(incoming), id)
    {
      while incoming != []
        invariant Waited(incoming, id) == Waited(old(incoming), id)
        decreases |incoming|
      {
        var event := incoming[0];
        incoming := incoming[1..];
        match event {
          case Quiet => return TimedOut;
          case Expired => return TimedOut;
          case Lost => return Broken;
          case Arrived(r) =>
            if Names(r, id) && !r.Killed? {
              return Reply(r);
            }
        }
      }
      answer := TimedOut;
    }

    /** A queued request: one early look, then polls until it settles or the deadline passes. */
    method PollLoop(id: string) returns (answer: Answer, d: Diagnostics)
      modifies this`incoming
      ensures (answer, d, incoming) == Polled(old(incoming), id, Diagnostics(None, 0, None, None, None))
    {
      d := NO_DIAGNOSTICS;
      ghost var start := d;
      while incoming != []
        invariant Polled(incoming, id, d) == Polled(old(incoming), id, start)
        decreases |incoming|
      {
        var event := incoming[0];
        incoming := incoming[1..];
        match event {
          case Lost => return Broken, d;
          case Quiet =>
          case Expired =>
            var (a, d', rest) := AfterDeadline(incoming, id, d);
            incoming := rest;
            return a, d';
          case Arrived(r) =>
            var (settled, d') := TerminalOutcome(r, id, d);
            d := d';
            if settled {
              return Reply(r), d;
            }
        }
      }
      var (a, d', _) := AfterDeadline([], id, d);
      answer, d := a, d';
    }
  }

  // ---- No stale answer over whole sessions ------------------------------------

  datatype Kind = Get | Queued

  function AnswerTo(kind: Kind, events: seq<Event>, id: string): Answer {
    match kind
    case Get => Waited(events, id).0
    case Queued => Polled(events, id, NO_DIAGNOSTICS).0
  }

  /** While request n waits, the server replies to issued requests only, under their own ids, however late. */
  ghost predicate HonestUntil(n: nat, events: seq<Event>) {
    forall e :: e in events && e.Arrived? && !e.r.Signal? && !e.r.CmdLineOn? && !e.r.CmdLineOff? ==>
      e.r.origin <= n && Names(e.r, IdOf(e.r.origin))
  }

  lemma {:induction false} AcceptedArrived(kind: Kind, events: seq<Event>, id: string)
    requires AnswerTo(kind, events, id).Reply?
    ensures var r := AnswerTo(kind, events, id).r; Arrived(r) in events && Names(r, id)
  {
    match kind
    case Get => WaitedArrived(events, id);
    case Queued => PolledArrived(events, id, NO_DIAGNOSTICS);
  }

  lemma {:induction false} WaitedArrived(events: seq<Event>, id: string)
    requires Waited(events, id).0.Reply?
    ensures Arrived(Waited(events, id).0.r) in events && Names(Waited(events, id).0.r, id)
  {
    if !(events[0].Arrived? && Names(events[0].r, id) && !events[0].r.Killed?) {
      WaitedArrived(events[1..], id);
    }
  }

  lemma {:induction false} PolledArrived(events: seq<Event>, id: string, d: Diagnostics)
    requires Polled(events, id, d).0.Reply?
    ensures Arrived(Polled(events, id, d).0.r) in events && Names(Polled(events, id, d).0.r, id)
  {
    match events[0]
    case Quiet => PolledArrived(events[1..], id, d);
    case Arrived(r) =>
      if !Names(r, id) {
        PolledArrived(events[1..], id, TerminalOutcome(r, id, d).1);
      }
  }

  /**
   * The n-th request only ever accepts an answer meant for it, or for a request
   * a whole multiple of 2^64 earlier, which the 64-bit counter cannot tell apart.
   */
  lemma NoStaleAnswer(n: nat, kind: Kind, events: seq<Event>)
    requires HonestUntil(n, events)
    requires AnswerTo(kind, events, IdOf(n)).Reply?
    ensures var r := AnswerTo(kind, events, IdOf(n)).r;
      !r.Signal? && !r.CmdLineOn? && !r.CmdLineOff? && r.origin <= n && (n - r.origin) % 0x1_0000_0000_0000_0000 == 0
      && (n < 0x1_0000_0000_0000_0000 ==> r.origin == n)
  {
    AcceptedArrived(kind, events, IdOf(n));
    var r := AnswerTo(kind, events, IdOf(n)).r;
    IdsRepeatIff(r.origin, n);
    NamesOneId(r, IdOf(r.origin), IdOf(n));
    if n < U64 {
      assert r.origin % U64 == r.origin && n % U64 == n;
    }
  }

  lemma NamesOneId(r: Response, a: string, b: string)
    requires Names(r, a) && Names(r, b)
    ensures a == b
  {
  }

  /** Late answers to earlier requests delay the right answer but never replace it. */
  lemma LateAnswersAreSkipped(n: nat, kind: Kind, late: seq<Event>, r: Response, later: seq<Event>)
    requires Names(r, IdOf(n)) && !r.Killed?
    requires forall e :: e in late ==> e.Arrived? && !Names(e.r, IdOf(n))
    ensures AnswerTo(kind, late + [Arrived(r)] + later, IdOf(n)) == Reply(r)
  {
    match kind
    case Get => SkipsWhileWaiting(IdOf(n), late, r, later);
    case Queued => SkipsWhilePolling(IdOf(n), late, r, later, NO_DIAGNOSTICS);
  }

  /**
   * For either kind of request, and whatever came before that is not for it:
   * a late answer to request m is taken for the answer to request n exactly
   * when 2^64 divides their distance.
   */
  lemma StaleAcceptedIff(m: nat, n: nat, kind: Kind, late: seq<Event>, r: Response, later: seq<Event>)
    requires Names(r, IdOf(m)) && !r.Killed?
    requires forall e :: e in late ==> e.Arrived? && !Names(e.r, IdOf(n))
    ensures AnswerTo(kind, late + [Arrived(r)] + later, IdOf(n)) == Reply(r) <==> m % U64 == n % U64
  {
    hide Names, Waited, Polled;
    IdsRepeatIff(m, n);
    var events := late + [Arrived(r)] + later;
    if IdOf(m) == IdOf(n) {
      LateAnswersAreSkipped(n, kind, late, r, later);
    } else if AnswerTo(kind, events, IdOf(n)) == Reply(r) {
      AcceptedArrived(kind, events, IdOf(n));
      NamesOneId(r, IdOf(m), IdOf(n));
    }
  }

  lemma {:induction false} SkipsWhileWaiting(id: string, late: seq<Event>, r: Response, later: seq<Event>)
    requires Names(r, id) && !r.Killed?
    requires forall e :: e in late ==> e.Arrived? && !Names(e.r, id)
    ensures Waited(late + [Arrived(r)] + later, id).0 == Reply(r)
  {
    var all := late + [Arrived(r)] + later;
    if late != [] {
      assert late[0] in late && forall e :: e in late[1..] ==> e in late;
      assert all[1..] == late[1..] + [Arrived(r)] + later;
      SkipsWhileWaiting(id, late[1..], r, later);
    }
  }

  lemma {:induction false} SkipsWhilePolling(id: string, late: seq<Event>, r: Response, later: seq<Event>,
                                             d: Diagnostics)
    requires Names(r, id)
    requires forall e :: e in late ==> e.Arrived? && !Names(e.r, id)
    ensures Polled(late + [Arrived(r)] + later, id, d).0 == Reply(r)
  {
    var all := late + [Arrived(r)] + later;
    if late != [] {
      assert late[0] in late && forall e :: e in late[1..] ==> e in late;
      assert all[1..] == late[1..] + [Arrived(r)] + later;
      SkipsWhilePolling(id, late[1..], r, later, TerminalOutcome(late[0].r, id, d).1);
    }
  }
}
