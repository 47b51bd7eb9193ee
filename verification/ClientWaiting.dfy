/** Which event ends the wait for an answer, what it answers, and what was counted until then. */
module ClientWaiting {
  import opened Outcomes
  import opened Client

  /** A reply of one of the four kinds that carries this id. */
  predicate IsFor(r: Response, id: string) {
    (r.Data? || r.ErrorReply? || r.Rejected? || r.Killed?) && r.id == id
  }

  // ---- GET -------------------------------------------------------------------------

  /** An empty read, the deadline, a lost connection, or this id's reply other than a kill notice. */
  predicate EndsWait(e: Event, id: string) {
    e.Quiet? || e.Expired? || e.Lost? || (e.Arrived? && IsFor(e.r, id) && !e.r.Killed?)
  }

  function AnswerOf(e: Event): (a: Answer) {
    match e
    case Quiet => TimedOut
    case Expired => TimedOut
    case Lost => Broken
    case Arrived(r) => Reply(r)
  }

  predicate FirstToEnd(events: seq<Event>, k: nat, ends: Event -> bool) {
    k < |events| && ends(events[k]) && forall i :: 0 <= i < k ==> !ends(events[i])
  }

  /** The first event that can end the wait does; everything after it is left for later. */
  lemma {:induction false} WaitEndsAt(events: seq<Event>, id: string, k: nat)
    requires FirstToEnd(events, k, (e: Event) => EndsWait(e, id))
    ensures Waited(events, id) == (AnswerOf(events[k]), events[k + 1..])
  {
    if k > 0 {
      assert !EndsWait(events[0], id);
      assert forall i :: 0 <= i < k - 1 ==> events[1..][i] == events[i + 1];
      WaitEndsAt(events[1..], id, k - 1);
    }
  }

  lemma {:induction false} WaitRunsOut(events: seq<Event>, id: string)
    requires forall e :: e in events ==> !EndsWait(e, id)
    ensures Waited(events, id) == (TimedOut, [])
  {
    if events != [] {
      assert events[0] in events && forall e :: e in events[1..] ==> e in events;
      WaitRunsOut(events[1..], id);
    }
  }

  // ---- SET and EXEC ---------------------------------------------------------------------

  /** The deadline, a lost connection, or any reply of this id; an empty read only means to poll again. */
  predicate EndsPoll(e: Event, id: string) {
    e.Expired? || e.Lost? || (e.Arrived? && IsFor(e.r, id))
  }

  /** The names of the signals that arrived, in order. */
  function SignalsIn(events: seq<Event>): (names: seq<string>) {
    if events == [] then []
    else
      SignalsIn(events[..|events| - 1])
      + match events[|events| - 1]
        case Arrived(Signal(name)) => [name]
        case _ => []
  }

  /** Signals are counted, and the first one names the task; nothing else is noted while waiting. */
  function Noting(d: Diagnostics, names: seq<string>): (d': Diagnostics) {
    d.(signalCount := d.signalCount + |names|,
       queuedTaskId := if d.queuedTaskId == None && names != [] then Some(names[0]) else d.queuedTaskId)
  }

  lemma {:induction false} SignalsFirst(events: seq<Event>)
    requires events != []
    ensures SignalsIn(events) == SignalsIn([events[0]]) + SignalsIn(events[1..])
  {
    var n := |events| - 1;
    if n == 0 {
      assert events == [events[0]] && events[1..] == [];
    } else {
      SignalsFirst(events[..n]);
      assert events[..n][1..] == events[1..][..n - 1] && events[1..][n - 1] == events[n];
    }
  }

  lemma OneSignal(e: Event)
    ensures SignalsIn([e]) == match e case Arrived(Signal(name)) => [name] case _ => []
  {
    assert [e][..0] == [];
  }

  lemma NotingBoth(d: Diagnostics, a: seq<string>, b: seq<string>)
    ensures |a| <= 1 ==> Noting(Noting(d, a), b) == Noting(d, a + b)
  {
  }

  /** Up to the event that ends it, polling only notes the signals. */
  lemma {:induction false} PollSkips(events: seq<Event>, id: string, k: nat, d: Diagnostics)
    requires k <= |events| && forall i :: 0 <= i < k ==> !EndsPoll(events[i], id)
    ensures Polled(events, id, d) == Polled(events[k..], id, Noting(d, SignalsIn(events[..k])))
    decreases k
  {
    if k == 0 {
      assert events[0..] == events && events[..0] == [];
    } else {
      var e := events[0];
      assert !EndsPoll(e, id);
      OneSignal(e);
      var d1 := Noting(d, SignalsIn([e]));
      assert Polled(events, id, d) == Polled(events[1..], id, d1);
      PollSkips(events[1..], id, k - 1, d1);
      SignalsFirst(events[..k]);
      assert events[..k][1..] == events[1..][..k - 1] && events[1..][k - 1..] == events[k..] && events[..k][0] == e;
      NotingBoth(d, SignalsIn([e]), SignalsIn(events[1..][..k - 1]));
    }
  }

  /** How the reply that settles a request is recorded. */
  function Settled(d: Diagnostics, r: Response): (d': Diagnostics) {
    match r
    case Data(_, _, _) => d.(finalResult := Some("DATA"))
    case ErrorReply(_, _, _) => d.(finalResult := Some("ERROR"))
    case Rejected(id, _) => d.(finalResult := Some("REJECTED"), rejectedCommandId := Some(id))
    case Killed(_, _) => d.(finalResult := Some("KILLED"), cancellation := Some("killed"))
    case _ => d
  }

  /** Any reply to this very request settles it, a kill notice and a rejection too. */
  lemma PollSettlesAt(events: seq<Event>, id: string, k: nat, d: Diagnostics)
    requires FirstToEnd(events, k, (e: Event) => EndsPoll(e, id)) && events[k].Arrived?
    ensures Polled(events, id, d) ==
      (Reply(events[k].r), Settled(Noting(d, SignalsIn(events[..k])), events[k].r), events[k + 1..])
  {
    PollSkips(events, id, k, d);
    assert events[k..][0] == events[k] && events[k..][1..] == events[k + 1..];
  }

  /** A lost connection is reported as that, with what was noted so far. */
  lemma PollBreaksAt(events: seq<Event>, id: string, k: nat, d: Diagnostics)
    requires FirstToEnd(events, k, (e: Event) => EndsPoll(e, id)) && events[k].Lost?
    ensures Polled(events, id, d) == (Broken, Noting(d, SignalsIn(events[..k])), events[k + 1..])
  {
    PollSkips(events, id, k, d);
    assert events[k..][0] == events[k] && events[k..][1..] == events[k + 1..];
  }

  /** The kill sent at the deadline is looked after for one response, whatever that is. */
  function KillNote(next: Option<Event>, id: string): (note: string) {
    match next
    case Some(Arrived(r)) => if r.Killed? && r.id == id then "killed" else "kill_sent_then_other"
    case Some(Lost) => "kill_sent_then_error"
    case _ => "kill_sent"
  }

  lemma PollExpiresAt(events: seq<Event>, id: string, k: nat, d: Diagnostics)
    requires FirstToEnd(events, k, (e: Event) => EndsPoll(e, id)) && events[k].Expired?
    ensures var noted := Noting(d, SignalsIn(events[..k]));
      var next := if k + 1 < |events| then Some(events[k + 1]) else None;
      Polled(events, id, d) ==
        (TimedOut, noted.(finalResult := Some("TIMEOUT"), cancellation := Some(KillNote(next, id))),
         if next.Some? then events[k + 2..] else [])
  {
    PollSkips(events, id, k, d);
    assert events[k..][0] == events[k] && events[k..][1..] == events[k + 1..];
    assert k + 1 < |events| ==> events[k + 1..][1..] == events[k + 2..];
  }

  lemma PollRunsOut(events: seq<Event>, id: string, d: Diagnostics)
    requires forall e :: e in events ==> !EndsPoll(e, id)
    ensures Polled(events, id, d) ==
      (TimedOut,
       Noting(d, SignalsIn(events)).(finalResult := Some("TIMEOUT"), cancellation := Some("kill_sent")), [])
  {
    assert forall i :: 0 <= i < |events| ==> events[i] in events;
    PollSkips(events, id, |events|, d);
    assert events[|events|..] == [] && events[..|events|] == events;
  }
}
