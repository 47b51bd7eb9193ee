/**
 * The calls that share the one main instance: who holds the proof lock and the
 * value-analysis lock, who may start while the project is locked, and what a
 * cancelled proof run says about itself.
 */
module WpLock {
  import opened Outcomes

  const EPOCHS: nat := 0x1_0000_0000_0000_0000

  datatype Kind =
    | RunWp(profiled: bool)
    | VerifyStep(unlock: bool)
    | Reload
    | CheckEva
    | Coverage
    | Cancel

  datatype Ending = Refused | Failed | Finished(cancelled: bool)

  datatype Phase =
    | Start
    | Queued // waiting for the proof lock
    | FirstLook // of a profiled run, which takes the lock before it looks at the flag
    | Recheck // holding what it waited for, the flag not read again yet
    | WantsEva // waiting for the value-analysis lock
    | InEva
    | Ready
    | Draining(epoch: nat)
    | Fetching(cancelled: bool)
    | Inside // the part of another call that the locks protect
    | Done(ending: Ending)

  datatype Call = Call(kind: Kind, phase: Phase)

  datatype World = World(locked: bool, wp: Option<nat>, eva: Option<nat>, epoch: nat, calls: seq<Call>)

  /** A call takes its next step, fails at an I/O step, or runs out of time while it proves. */
  datatype Event = Go(id: nat) | Fail(id: nat) | TimeOut(id: nat)

  /** A counter of 64 bits. */
  function Wrapped(n: nat): (epoch: nat)
    ensures epoch < EPOCHS
  {
    n % EPOCHS
  }

  // ---- Steps ----------------------------------------------------------------------

  predicate HoldsWp(c: Call) {
    match c.kind
    case RunWp(_) => c.phase.FirstLook? || c.phase.Recheck? || PastRecheck(c)
    case VerifyStep(_) => c.phase.Inside?
    case Reload => c.phase.WantsEva? || c.phase.Recheck? || c.phase.Inside?
    case Coverage => c.phase.Inside?
    case _ => false
  }

  predicate HoldsEva(c: Call) {
    match c.kind
    case RunWp(_) => c.phase.InEva?
    case Reload => c.phase.Recheck? || c.phase.Inside?
    case CheckEva => c.phase.Inside?
    case _ => false
  }

  /** Working on the main project, with the flag read for the last time. */
  predicate PastRecheck(c: Call) {
    || (c.kind.RunWp? && (c.phase.WantsEva? || c.phase.InEva? || c.phase.Ready?
         || c.phase.Draining? || c.phase.Fetching?))
    || (c.kind.Reload? && c.phase.Inside?)
  }

  /** The next phase of a call, given the flag and the epoch as it finds them. */
  function Next(c: Call, locked: bool, epoch: nat): (p: Phase)
    requires !c.phase.Done?
  {
    match c.phase
    case Start =>
      (match c.kind
       case RunWp(profiled) => if !profiled && locked then Done(Refused) else Queued
       case VerifyStep(unlock) => if unlock then Done(Finished(false)) else Queued
       case Reload => if locked then Done(Refused) else Queued
       case CheckEva => WantsEva
       case Coverage => Queued
       case Cancel => Inside)
    case Queued =>
      (match c.kind
       case RunWp(profiled) => if profiled then FirstLook else Recheck
       case Reload => WantsEva
       case _ => Inside)
    case FirstLook => if locked then Done(Refused) else Recheck
    case Recheck => if locked then Done(Refused) else if c.kind.RunWp? then WantsEva else Inside
    case WantsEva => if c.kind.RunWp? then InEva else if c.kind.Reload? then Recheck else Inside
    case InEva => Ready
    case Ready => Draining(epoch)
    case Draining(earlier) => Fetching(epoch != earlier)
    case Fetching(cancelled) => Done(Finished(cancelled))
    case Inside => Done(Finished(false))
  }

  predicate Enabled(w: World, e: Event) {
    && e.id < |w.calls| && !w.calls[e.id].phase.Done?
    && (e.Go? ==> (w.calls[e.id].phase.Queued? ==> w.wp.None?) && (w.calls[e.id].phase.WantsEva? ==> w.eva.None?))
    && (e.TimeOut? ==> w.calls[e.id].kind.RunWp? && w.calls[e.id].phase.Draining?)
  }

  /** Bumps are made by a cancel before its request, and by a run that ran out of time. */
  predicate IsBump(w: World, e: Event) {
    e.id < |w.calls| && (e.TimeOut? || (e.Go? && w.calls[e.id] == Call(Cancel, Start)))
  }

  function Became(w: World, e: Event): (c: Call)
    requires Enabled(w, e)
  {
    var c := w.calls[e.id];
    Call(c.kind, if e.Go? then Next(c, w.locked, w.epoch) else Done(Failed))
  }

  /** Leaving a phase that holds a lock for one that does not lets go of it. */
  function Held(owner: Option<nat>, id: nat, holds: bool): (r: Option<nat>) {
    if holds then Some(id) else if owner == Some(id) then None else owner
  }

  function Locked(w: World, e: Event): (locked: bool)
    requires Enabled(w, e)
  {
    var c := w.calls[e.id];
    if e.Go? && c.kind.VerifyStep? && c.kind.unlock && c.phase.Start? then false
    else if e.Go? && c.kind.VerifyStep? && c.phase.Inside? then true
    else w.locked
  }

  function Apply(w: World, e: Event): (w': World)
    requires Enabled(w, e)
  {
    var c' := Became(w, e);
    World(
      Locked(w, e),
      Held(w.wp, e.id, HoldsWp(c')),
      Held(w.eva, e.id, HoldsEva(c')),
      if IsBump(w, e) then Wrapped(w.epoch + 1) else w.epoch,
      w.calls[e.id := c'])
  }

  // ---- The invariant ---------------------------------------------------------------

  predicate Sound(c: Call) {
    match c.phase
    case Start => true
    case Done(_) => true
    case Queued => !c.kind.CheckEva? && !c.kind.Cancel? && c.kind != VerifyStep(true)
    case FirstLook => c.kind.RunWp?
    case Recheck => c.kind.RunWp? || c.kind.Reload?
    case WantsEva => c.kind.RunWp? || c.kind.Reload? || c.kind.CheckEva?
    case Inside => !c.kind.RunWp? && c.kind != VerifyStep(true)
    case _ => c.kind.RunWp?
  }

  ghost predicate OwnerIs(owner: Option<nat>, calls: seq<Call>, holds: Call -> bool) {
    && (owner.Some? ==> owner.value < |calls|)
    && forall id: nat :: id < |calls| ==> (holds(calls[id]) <==> owner == Some(id))
  }

  ghost predicate Inv(w: World) {
    && (forall id :: 0 <= id < |w.calls| ==> Sound(w.calls[id]))
    && OwnerIs(w.wp, w.calls, HoldsWp) && OwnerIs(w.eva, w.calls, HoldsEva)
    && (w.locked ==> forall id :: 0 <= id < |w.calls| ==> !PastRecheck(w.calls[id]))
    && w.epoch < EPOCHS
  }

  /** No call has begun, and both locks are free. */
  ghost predicate Fresh(w: World) {
    && w.wp.None? && w.eva.None? && w.epoch < EPOCHS
    && forall id :: 0 <= id < |w.calls| ==> w.calls[id].phase.Start?
  }

  lemma FreshInv(w: World)
    requires Fresh(w)
    ensures Inv(w)
  {
  }

  /** An owner stays the one holder when a call lets go, or takes what is free. */
  lemma OwnerAfter(owner: Option<nat>, calls: seq<Call>, holds: Call -> bool, id: nat, c: Call)
    requires OwnerIs(owner, calls, holds) && id < |calls|
    requires holds(c) && !holds(calls[id]) ==> owner.None?
    ensures OwnerIs(Held(owner, id, holds(c)), calls[id := c], holds)
  {
    assert holds(calls[id]) <==> owner == Some(id);
  }

  /** A lock is entered only when it is free, and the last look at the flag found it down. */
  lemma EntersWhenFree(w: World, e: Event)
    requires Inv(w) && Enabled(w, e)
    ensures var c, c' := w.calls[e.id], Became(w, e);
      && Sound(c')
      && (HoldsWp(c') && !HoldsWp(c) ==> w.wp.None?)
      && (HoldsEva(c') && !HoldsEva(c) ==> w.eva.None?)
      && (PastRecheck(c') && !PastRecheck(c) ==> !w.locked)
      && (Locked(w, e) && !w.locked ==> HoldsWp(c) && !PastRecheck(c'))
  {
  }

  lemma StepKeepsInv(w: World, e: Event)
    requires Inv(w) && Enabled(w, e)
    ensures Inv(Apply(w, e))
  {
    assert e.id < |w.calls|;
    hide Enabled, Became, Locked, HoldsWp, HoldsEva, Sound, PastRecheck, OwnerIs;
    var c, c' := w.calls[e.id], Became(w, e);
    EntersWhenFree(w, e);
    OwnerAfter(w.wp, w.calls, HoldsWp, e.id, c');
    OwnerAfter(w.eva, w.calls, HoldsEva, e.id, c');
    if Locked(w, e) && !w.locked {
      forall id: nat | id < |w.calls| && id != e.id ensures !PastRecheck(w.calls[id]) {
        OneHolder(w, e.id, id);
      }
    }
  }

  lemma OneHolder(w: World, a: nat, b: nat)
    requires Inv(w) && a < |w.calls| && b < |w.calls| && a != b && HoldsWp(w.calls[a])
    ensures !HoldsWp(w.calls[b]) && !PastRecheck(w.calls[b])
  {
    assert HoldsWp(w.calls[a]) <==> w.wp == Some(a);
    assert HoldsWp(w.calls[b]) <==> w.wp == Some(b);
  }

  // ---- Whole runs ------------------------------------------------------------------

  predicate Legal(w: World, events: seq<Event>)
    decreases |events|
  {
    events == [] || (Enabled(w, events[0]) && Legal(Apply(w, events[0]), events[1..]))
  }

  function Play(w: World, events: seq<Event>): (w': World)
    requires Legal(w, events)
    decreases |events|
  {
    if events == [] then w else Play(Apply(w, events[0]), events[1..])
  }

  lemma {:induction false} RunKeepsInv(w: World, events: seq<Event>)
    requires Inv(w) && Legal(w, events)
    ensures Inv(Play(w, events))
    decreases |events|
  {
    if events != [] {
      StepKeepsInv(w, events[0]);
      RunKeepsInv(Apply(w, events[0]), events[1..]);
    }
  }

  /** While the project is locked, no proof run and no reload is past its last look at the flag. */
  lemma NothingRunsWhileLocked(w: World, events: seq<Event>, id: nat)
    requires Inv(w) && Legal(w, events) && Play(w, events).locked && id < |Play(w, events).calls|
    ensures !PastRecheck(Play(w, events).calls[id])
  {
    RunKeepsInv(w, events);
  }

  /** Transactions on the main project never overlap; nor do the parts under the other lock. */
  lemma TransactionsNeverOverlap(w: World, events: seq<Event>, a: nat, b: nat)
    requires Inv(w) && Legal(w, events) && a < b < |Play(w, events).calls|
    ensures !(HoldsWp(Play(w, events).calls[a]) && HoldsWp(Play(w, events).calls[b]))
    ensures !(HoldsEva(Play(w, events).calls[a]) && HoldsEva(Play(w, events).calls[b]))
  {
    RunKeepsInv(w, events);
  }

  /** At work on the main project: proving, or inside a locking verify step, a reload or a coverage call. */
  predicate OnTheProject(c: Call) {
    match c.kind
    case RunWp(_) => c.phase.InEva? || c.phase.Ready? || c.phase.Draining? || c.phase.Fetching?
    case VerifyStep(_) => c.phase.Inside?
    case Reload => c.phase.Inside?
    case Coverage => c.phase.Inside?
    case CheckEva => false
    case Cancel => false
  }

  /** At work on the value analysis: a proof run's look at it, a reload, a check. */
  predicate OnTheAnalysis(c: Call) {
    match c.kind
    case RunWp(_) => c.phase.InEva?
    case Reload => c.phase.Inside?
    case CheckEva => c.phase.Inside?
    case _ => false
  }

  /** In every interleaving no two calls work on the main project at once, nor on the value analysis. */
  lemma OneAtATime(w: World, events: seq<Event>, a: nat, b: nat)
    requires Fresh(w) && Legal(w, events) && a < b < |Play(w, events).calls|
    ensures !(OnTheProject(Play(w, events).calls[a]) && OnTheProject(Play(w, events).calls[b]))
    ensures !(OnTheAnalysis(Play(w, events).calls[a]) && OnTheAnalysis(Play(w, events).calls[b]))
  {
    hide Inv, Fresh, Legal, Play;
    FreshInv(w);
    TransactionsNeverOverlap(w, events, a, b);
  }

  /** The locks are always taken in one order, so some call can go on until all have ended. */
  lemma NoDeadlock(w: World, id: nat)
    requires Inv(w) && id < |w.calls| && !w.calls[id].phase.Done?
    ensures exists next: nat :: Enabled(w, Go(next))
  {
    if w.eva.Some? {
      assert Enabled(w, Go(w.eva.value));
    } else if w.wp.Some? {
      assert Enabled(w, Go(w.wp.value));
    } else {
      assert Enabled(w, Go(id));
    }
  }

  /** Steps a call has left at most. */
  function Left(c: Call): (n: nat) {
    match c.phase
    case Start => 10
    case Queued => 9
    case FirstLook => 8
    case Recheck => if c.kind.Reload? then 5 else 7
    case WantsEva => 6
    case InEva => 5
    case Ready => 4
    case Draining(_) => 3
    case Fetching(_) => 2
    case Inside => 1
    case Done(_) => 0
  }

  function AllLeft(calls: seq<Call>): (n: nat) {
    if calls == [] then 0 else Left(calls[0]) + AllLeft(calls[1..])
  }

  lemma {:induction false} LeftAfter(calls: seq<Call>, id: nat, c: Call)
    requires id < |calls|
    ensures AllLeft(calls[id := c]) + Left(calls[id]) == AllLeft(calls) + Left(c)
  {
    if id == 0 {
      assert calls[id := c][1..] == calls[1..];
    } else {
      assert calls[id := c][1..] == calls[1..][id - 1 := c];
      LeftAfter(calls[1..], id - 1, c);
    }
  }

  lemma StepLeavesLess(w: World, e: Event)
    requires Inv(w) && Enabled(w, e)
    ensures AllLeft(Apply(w, e).calls) < AllLeft(w.calls)
  {
    LeftAfter(w.calls, e.id, Became(w, e));
  }

  /** However the calls interleave, they are done after a bounded number of steps. */
  lemma {:induction false} RunsAreBounded(w: World, events: seq<Event>)
    requires Inv(w) && Legal(w, events)
    ensures |events| + AllLeft(Play(w, events).calls) <= AllLeft(w.calls)
    decreases |events|
  {
    hide Inv, Enabled, Apply, AllLeft;
    if events != [] {
      StepKeepsInv(w, events[0]);
      StepLeavesLess(w, events[0]);
      RunsAreBounded(Apply(w, events[0]), events[1..]);
    }
  }

  ghost predicate AllDone(w: World) {
    forall id :: 0 <= id < |w.calls| ==> w.calls[id].phase.Done?
  }

  /**
   * Whatever the calls, and however their steps have interleaved so far: the
   * transactions are apart, nothing runs while the project is locked, at most
   * ten steps a call were taken, and some call can go on until all have ended.
   */
  lemma EveryInterleavingIsSafe(w: World, events: seq<Event>)
    requires Fresh(w) && Legal(w, events)
    ensures var now := Play(w, events);
      && (forall a, b :: 0 <= a < b < |now.calls| ==> !(HoldsWp(now.calls[a]) && HoldsWp(now.calls[b])))
      && (forall a, b :: 0 <= a < b < |now.calls| ==> !(HoldsEva(now.calls[a]) && HoldsEva(now.calls[b])))
      && (now.locked ==> forall id :: 0 <= id < |now.calls| ==> !PastRecheck(now.calls[id]))
      && |events| <= 10 * |w.calls|
      && (!(exists id :: 0 <= id < |now.calls| && !now.calls[id].phase.Done?)
          || exists next: nat :: Enabled(now, Go(next)))
  {
    hide Inv, Fresh, Legal, Play, HoldsWp, HoldsEva, PastRecheck, Enabled, Left;
    var now := Play(w, events);
    FreshInv(w);
    RunKeepsInv(w, events);
    RunsAreBounded(w, events);
    AllLeftIsBounded(w.calls);
    forall a, b | 0 <= a < b < |now.calls|
      ensures !(HoldsWp(now.calls[a]) && HoldsWp(now.calls[b])) && !(HoldsEva(now.calls[a]) && HoldsEva(now.calls[b]))
    {
      TransactionsNeverOverlap(w, events, a, b);
    }
    if now.locked {
      forall id | 0 <= id < |now.calls| ensures !PastRecheck(now.calls[id]) {
        NothingRunsWhileLocked(w, events, id);
      }
    }
    if !AllDone(now) {
      var id :| 0 <= id < |now.calls| && !now.calls[id].phase.Done?;
      NoDeadlock(now, id);
    }
  }

  lemma {:induction false} AllLeftIsBounded(calls: seq<Call>)
    ensures AllLeft(calls) <= 10 * |calls|
  {
    if calls != [] {
      AllLeftIsBounded(calls[1..]);
    }
  }

  // ---- Cancellation ------------------------------------------------------------------

  function Bumps(w: World, events: seq<Event>): (n: nat)
    requires Legal(w, events)
    decreases |events|
  {
    if events == [] then 0
    else (if IsBump(w, events[0]) then 1 else 0) + Bumps(Apply(w, events[0]), events[1..])
  }

  function PendingCancels(calls: seq<Call>): (n: nat) {
    if calls == [] then 0 else PendingCancels(calls[1..]) + if calls[0] == Call(Cancel, Start) then 1 else 0
  }

  lemma {:induction false} CancelsAfter(calls: seq<Call>, id: nat, c: Call)
    requires id < |calls|
    ensures PendingCancels(calls[id := c]) + (if calls[id] == Call(Cancel, Start) then 1 else 0)
      == PendingCancels(calls) + if c == Call(Cancel, Start) then 1 else 0
  {
    if id == 0 {
      assert calls[id := c][1..] == calls[1..];
    } else {
      assert calls[id := c][1..] == calls[1..][id - 1 := c];
      CancelsAfter(calls[1..], id - 1, c);
    }
  }

  /** A run that drains holds the proof lock. */
  predicate Drains(w: World, id: nat) {
    id < |w.calls| && w.calls[id].kind.RunWp? && w.calls[id].phase.Draining?
  }

  predicate LeavesAlone(events: seq<Event>, id: nat) {
    forall k :: 0 <= k < |events| ==> events[k].id != id
  }

  lemma StepWhileDraining(w: World, id: nat, e: Event)
    requires Inv(w) && Drains(w, id) && Enabled(w, e) && e.id != id
    ensures Inv(Apply(w, e)) && Drains(Apply(w, e), id) && Apply(w, e).calls[id] == w.calls[id]
    ensures Apply(w, e).epoch == if IsBump(w, e) then Wrapped(w.epoch + 1) else w.epoch
    ensures PendingCancels(Apply(w, e).calls) + (if IsBump(w, e) then 1 else 0) <= PendingCancels(w.calls)
  {
    hide Inv, Became;
    StepKeepsInv(w, e);
    OnlyCancels(w, id, e);
    CancelsAfter(w.calls, e.id, Became(w, e));
  }

  /** While a run drains, only cancel calls move the epoch, each of them once. */
  lemma {:induction false} WhileDraining(w: World, id: nat, events: seq<Event>)
    requires Inv(w) && Drains(w, id) && Legal(w, events) && LeavesAlone(events, id)
    ensures id < |Play(w, events).calls| && Play(w, events).calls[id] == w.calls[id]
    ensures Play(w, events).epoch == Wrapped(w.epoch + Bumps(w, events))
    ensures Bumps(w, events) + PendingCancels(Play(w, events).calls) <= PendingCancels(w.calls)
    decreases |events|
  {
    hide Apply, Inv, Enabled, IsBump, Drains, PendingCancels, Wrapped;
    DrainsHere(w, id);
    if events != [] {
      var e := events[0];
      StepWhileDraining(w, id, e);
      assert events[0].id != id && LeavesAlone(events[1..], id);
      WhileDraining(Apply(w, e), id, events[1..]);
      AddOne(w.epoch, Bumps(Apply(w, e), events[1..]));
    }
  }

  lemma DrainsHere(w: World, id: nat)
    requires Inv(w) && Drains(w, id)
    ensures id < |w.calls| && w.epoch == Wrapped(w.epoch + 0)
  {
  }

  lemma AddOne(epoch: nat, n: nat)
    ensures Wrapped(Wrapped(epoch + 1) + n) == Wrapped(epoch + 1 + n)
  {
  }

  /** No other run is proving, so none can run out of time. */
  lemma OnlyCancels(w: World, id: nat, e: Event)
    requires Inv(w) && Drains(w, id) && Enabled(w, e) && e.id != id
    ensures IsBump(w, e) ==> w.calls[e.id] == Call(Cancel, Start)
    ensures Became(w, e) != Call(Cancel, Start)
  {
    assert HoldsWp(w.calls[id]);
    if e.TimeOut? {
      assert HoldsWp(w.calls[e.id]);
    }
  }

  /** What the run finds when it reads the epoch again after draining. */
  lemma ReadsCancelledIff(w: World, id: nat, events: seq<Event>)
    requires Inv(w) && id < |w.calls| && w.calls[id].kind.RunWp? && w.calls[id].phase.Ready?
    requires LeavesAlone(events, id) && Legal(Apply(w, Go(id)), events)
    ensures var after := Play(Apply(w, Go(id)), events);
      && Enabled(after, Go(id))
      && var cancelled := Wrapped(Bumps(Apply(w, Go(id)), events)) != 0;
         Apply(after, Go(id)).calls[id] == Call(w.calls[id].kind, Fetching(cancelled))
  {
    hide Wrapped, Bumps, PendingCancels;
    StepKeepsInv(w, Go(id));
    var reading := Apply(w, Go(id));
    WhileDraining(reading, id, events);
    SameEpochIff(w.epoch, Bumps(reading, events));
  }

  lemma {:induction false} OthersLeaveItAlone(w: World, id: nat, events: seq<Event>)
    requires id < |w.calls| && Legal(w, events) && LeavesAlone(events, id)
    ensures id < |Play(w, events).calls| && Play(w, events).calls[id] == w.calls[id]
    decreases |events|
  {
    if events != [] {
      assert events[0].id != id && LeavesAlone(events[1..], id);
      OthersLeaveItAlone(Apply(w, events[0]), id, events[1..]);
    }
  }

  /** The second read of the epoch, whatever others do then, and the run's last step. */
  ghost predicate Answers(w: World, id: nat, later: seq<Event>, ending: Ending) {
    && Enabled(w, Go(id)) && Legal(Apply(w, Go(id)), later)
    && Enabled(Play(Apply(w, Go(id)), later), Go(id))
    && Apply(Play(Apply(w, Go(id)), later), Go(id)).calls[id].phase == Done(ending)
  }

  /**
   * A run answers that it was cancelled exactly when the cancels whose bump
   * falls between its read of the epoch and its look after draining are not a
   * multiple of 2^64 in number; what others do after that look does not matter.
   */
  lemma CancelledIff(w: World, id: nat, events: seq<Event>, later: seq<Event>)
    requires Inv(w) && id < |w.calls| && w.calls[id].kind.RunWp? && w.calls[id].phase.Ready?
    requires LeavesAlone(events, id) && Legal(Apply(w, Go(id)), events)
    requires var after := Play(Apply(w, Go(id)), events);
      LeavesAlone(later, id) && Enabled(after, Go(id)) && Legal(Apply(after, Go(id)), later)
    ensures var after := Play(Apply(w, Go(id)), events);
      Answers(after, id, later, Finished(Bumps(Apply(w, Go(id)), events) % 0x1_0000_0000_0000_0000 != 0))
  {
    hide Bumps, PendingCancels, Inv, Legal, Play;
    ReadsCancelledIff(w, id, events);
    OthersLeaveItAlone(Apply(Play(Apply(w, Go(id)), events), Go(id)), id, later);
  }

  lemma SameEpochIff(epoch: nat, n: nat)
    requires epoch < EPOCHS
    ensures Wrapped(epoch + n) == epoch <==> Wrapped(n) == 0
  {
  }

  /** With fewer than 2^64 cancels waiting, none of those can go unreported. */
  lemma NoCancelIsMissed(w: World, id: nat, events: seq<Event>, later: seq<Event>)
    requires Inv(w) && id < |w.calls| && w.calls[id].kind.RunWp? && w.calls[id].phase.Ready?
    requires LeavesAlone(events, id) && Legal(Apply(w, Go(id)), events)
    requires PendingCancels(w.calls) < 0x1_0000_0000_0000_0000
    requires var after := Play(Apply(w, Go(id)), events);
      LeavesAlone(later, id) && Enabled(after, Go(id)) && Legal(Apply(after, Go(id)), later)
    ensures var after := Play(Apply(w, Go(id)), events);
      Answers(after, id, later, Finished(Bumps(Apply(w, Go(id)), events) > 0))
  {
    hide Answers, Bumps;
    CancelledIff(w, id, events, later);
    FewerCancelsThanBumps(w, id, events);
  }

  lemma FewerCancelsThanBumps(w: World, id: nat, events: seq<Event>)
    requires Inv(w) && id < |w.calls| && w.calls[id].kind.RunWp? && w.calls[id].phase.Ready?
    requires LeavesAlone(events, id) && Legal(Apply(w, Go(id)), events)
    ensures Bumps(Apply(w, Go(id)), events) <= PendingCancels(w.calls)
  {
    hide Bumps;
    StepKeepsInv(w, Go(id));
    WhileDraining(Apply(w, Go(id)), id, events);
    CancelsAfter(w.calls, id, Became(w, Go(id)));
  }

  /** A call's first own step in a run, after steps of others. */
  ghost predicate Splits(w: World, id: nat, events: seq<Event>, others: seq<Event>, e: Event, later: seq<Event>) {
    && events == others + [e] + later && LeavesAlone(others, id) && e.id == id
    && Legal(w, events) && Legal(w, others) && Enabled(Play(w, others), e)
    && Legal(Apply(Play(w, others), e), later)
    && Play(w, events) == Play(Apply(Play(w, others), e), later)
    && id < |w.calls| && id < |Play(w, others).calls| && Play(w, others).calls[id] == w.calls[id]
  }

  lemma {:induction false} FirstOwnStep(w: World, id: nat, events: seq<Event>)
      returns (others: seq<Event>, e: Event, later: seq<Event>)
    requires id < |w.calls| && Legal(w, events)
    requires id < |Play(w, events).calls| ==> Play(w, events).calls[id] != w.calls[id]
    ensures Splits(w, id, events, others, e, later)
    decreases |events|
  {
    assert events != [];
    e := events[0];
    if e.id == id {
      others, later := [], events[1..];
    } else {
      hide Apply, Enabled;
      StepOfAnother(w, e, id);
      others, e, later := FirstOwnStep(Apply(w, e), id, events[1..]);
      others := [events[0]] + others;
      assert others[1..] + [e] + later == events[1..];
      assert events == [events[0]] + events[1..] == others + [e] + later;
    }
  }

  lemma StepOfAnother(w: World, e: Event, id: nat)
    requires Enabled(w, e) && e.id != id && id < |w.calls|
    ensures |Apply(w, e).calls| == |w.calls| && Apply(w, e).calls[id] == w.calls[id]
  {
  }

  lemma {:induction false} DoneStays(w: World, id: nat, events: seq<Event>)
    requires id < |w.calls| && w.calls[id].phase.Done? && Legal(w, events)
    ensures id < |Play(w, events).calls| && Play(w, events).calls[id] == w.calls[id]
    decreases |events|
  {
    if events != [] {
      DoneStays(Apply(w, events[0]), id, events[1..]);
    }
  }

  /** The run ended, and this is how. */
  ghost predicate Finishes(w: World, id: nat, events: seq<Event>, cancelled: bool) {
    && id < |w.calls| && w.calls[id].kind.RunWp? && Legal(w, events)
    && id < |Play(w, events).calls| && Play(w, events).calls[id].phase == Done(Finished(cancelled))
  }

  /** A run that is going to finish takes its next step, and then it still is. */
  lemma NextOwnStep(w: World, id: nat, events: seq<Event>, cancelled: bool)
      returns (others: seq<Event>, later: seq<Event>)
    requires Inv(w) && Finishes(w, id, events, cancelled) && !w.calls[id].phase.Done?
    ensures Splits(w, id, events, others, Go(id), later)
    ensures var there := Play(w, others);
      && Inv(there) && there.calls[id] == w.calls[id] && Inv(Apply(there, Go(id)))
      && Finishes(Apply(there, Go(id)), id, later, cancelled)
      && Apply(there, Go(id)).calls[id].phase == Next(w.calls[id], there.locked, there.epoch)
  {
    hide Legal, Play, Inv, Next;
    var e;
    others, e, later := FirstOwnStep(w, id, events);
    var there := Play(w, others);
    RunKeepsInv(w, others);
    StepKeepsInv(there, e);
    if !e.Go? {
      DoneStays(Apply(there, e), id, later);
    }
  }

  /** A proof run that has not read the epoch yet. */
  predicate BeforeReading(p: Phase) {
    p.Start? || p.Queued? || p.FirstLook? || p.Recheck? || p.WantsEva? || p.InEva? || p.Ready?
  }

  /**
   * The run's two reads of the epoch, the first with the value-analysis lock
   * let go of: what it answers is whether the cancels bumped between them are
   * no multiple of 2^64.
   */
  ghost predicate ReadsTwice(w: World, id: nat, events: seq<Event>, before: seq<Event>, during: seq<Event>,
                             later: seq<Event>, cancelled: bool) {
    && events == before + [Go(id)] + during + [Go(id)] + later && LeavesAlone(during, id)
    && Legal(w, before) && id < |Play(w, before).calls| && Play(w, before).calls[id].phase.Ready?
    && Enabled(Play(w, before), Go(id)) && Legal(Apply(Play(w, before), Go(id)), during)
    && cancelled == (Bumps(Apply(Play(w, before), Go(id)), during) % 0x1_0000_0000_0000_0000 != 0)
  }

  lemma ReadyReads(w: World, id: nat, events: seq<Event>, cancelled: bool)
      returns (before: seq<Event>, during: seq<Event>, later: seq<Event>)
    requires Inv(w) && Finishes(w, id, events, cancelled) && w.calls[id].phase.Ready?
    ensures ReadsTwice(w, id, events, before, during, later, cancelled)
  {
    hide Legal, Play, Inv, Apply, Bumps, Enabled;
    var rest;
    before, rest := NextOwnStep(w, id, events, cancelled);
    var there := Play(w, before);
    var end;
    during, end := NextOwnStep(Apply(there, Go(id)), id, rest, cancelled);
    ReadsCancelledIff(there, id, during);
    var read := Apply(Play(Apply(there, Go(id)), during), Go(id));
    var others, last := NextOwnStep(read, id, end, cancelled);
    DoneStays(Apply(Play(read, others), Go(id)), id, last);
    later := end;
    assert events == before + [Go(id)] + (during + [Go(id)] + later);
  }

  lemma {:induction false} FinishingRunReads(w: World, id: nat, events: seq<Event>, cancelled: bool)
      returns (before: seq<Event>, during: seq<Event>, later: seq<Event>)
    requires Inv(w) && Finishes(w, id, events, cancelled) && BeforeReading(w.calls[id].phase)
    ensures ReadsTwice(w, id, events, before, during, later, cancelled)
    decreases |events|
  {
    hide Legal, Play, Inv, Apply, Enabled, ReadsTwice;
    if w.calls[id].phase.Ready? {
      before, during, later := ReadyReads(w, id, events, cancelled);
    } else {
      var others, rest := NextOwnStep(w, id, events, cancelled);
      var next := Apply(Play(w, others), Go(id));
      if next.calls[id].phase.Done? {
        DoneStays(next, id, rest);
        assert false;
      }
      before, during, later := FinishingRunReads(next, id, rest, cancelled);
      ReadsEarlier(w, id, events, others, rest, before, during, later, cancelled);
      before := others + [Go(id)] + before;
    }
  }

  lemma ReadsEarlier(w: World, id: nat, events: seq<Event>, others: seq<Event>, rest: seq<Event>,
                     before: seq<Event>, during: seq<Event>, later: seq<Event>, cancelled: bool)
    requires Splits(w, id, events, others, Go(id), rest)
    requires ReadsTwice(Apply(Play(w, others), Go(id)), id, rest, before, during, later, cancelled)
    ensures ReadsTwice(w, id, events, others + [Go(id)] + before, during, later, cancelled)
  {
    hide Apply, Enabled, Bumps;
    PlayOn(w, others, Go(id), before);
    assert events == others + [Go(id)] + before + [Go(id)] + during + [Go(id)] + later;
  }

  lemma {:induction false} PlayOn(w: World, others: seq<Event>, e: Event, before: seq<Event>)
    requires Legal(w, others) && Enabled(Play(w, others), e) && Legal(Apply(Play(w, others), e), before)
    ensures Legal(w, others + [e] + before)
    ensures Play(w, others + [e] + before) == Play(Apply(Play(w, others), e), before)
    decreases |others|
  {
    hide Apply, Enabled;
    var all := others + [e] + before;
    if others == [] {
      assert all[1..] == before;
    } else {
      PlayOn(Apply(w, others[0]), others[1..], e, before);
      assert all[0] == others[0] && all[1..] == others[1..] + [e] + before;
    }
  }

  /** In every interleaving, every proof run that finishes read the epoch twice and answers what was bumped between. */
  lemma EveryFinishIsCounted(w: World, id: nat, events: seq<Event>, cancelled: bool)
      returns (before: seq<Event>, during: seq<Event>, later: seq<Event>)
    requires Fresh(w) && Finishes(w, id, events, cancelled)
    ensures ReadsTwice(w, id, events, before, during, later, cancelled)
  {
    hide Inv, Legal, Play, ReadsTwice;
    FreshInv(w);
    before, during, later := FinishingRunReads(w, id, events, cancelled);
  }

  lemma FourSteps(w: World, a: Event, b: Event, c: Event, d: Event)
    requires Enabled(w, a) && Enabled(Apply(w, a), b) && Enabled(Apply(Apply(w, a), b), c)
    requires Enabled(Apply(Apply(Apply(w, a), b), c), d)
    ensures Legal(w, [a, b, c, d])
    ensures Play(w, [a, b, c, d]) == Apply(Apply(Apply(Apply(w, a), b), c), d)
  {
    hide Enabled, Apply;
    var w1 := Apply(w, a);
    var w2 := Apply(w1, b);
    var w3 := Apply(w2, c);
    assert [a, b, c, d][1..] == [b, c, d] && [b, c, d][1..] == [c, d] && [c, d][1..] == [d] && [d][1..] == [];
    assert Legal(w3, [d]) && Play(w3, [d]) == Apply(w3, d);
    assert Legal(w2, [c, d]) && Play(w2, [c, d]) == Play(w3, [d]);
    assert Legal(w1, [b, c, d]) && Play(w1, [b, c, d]) == Play(w2, [c, d]);
  }

  /** Ends as this answer once the four steps are done. */
  ghost predicate EndsAs(w: World, events: seq<Event>, id: nat, ending: Ending) {
    && Legal(w, events) && id < |Play(w, events).calls|
    && Play(w, events).calls[id].phase == Done(ending)
  }

  /** A cancel whose bump comes before the run reads the epoch is not reported. */
  lemma EarlyCancelIsNotSeen(w: World, cancel: nat, id: nat)
    requires Inv(w) && cancel < |w.calls| && w.calls[cancel] == Call(Cancel, Start)
    requires id < |w.calls| && w.calls[id].kind.RunWp? && w.calls[id].phase.Ready?
    ensures EndsAs(w, [Go(cancel), Go(id), Go(id), Go(id)], id, Finished(false))
  {
    FourSteps(w, Go(cancel), Go(id), Go(id), Go(id));
  }

  /** One whose bump comes while the run drains is reported. */
  lemma CancelMidRunIsSeen(w: World, cancel: nat, id: nat)
    requires Inv(w) && cancel < |w.calls| && w.calls[cancel] == Call(Cancel, Start)
    requires id < |w.calls| && w.calls[id].kind.RunWp? && w.calls[id].phase.Ready?
    ensures EndsAs(w, [Go(id), Go(cancel), Go(id), Go(id)], id, Finished(true))
  {
    FourSteps(w, Go(id), Go(cancel), Go(id), Go(id));
  }

  /** And one whose bump comes after the run's second look is not. */
  lemma LateCancelIsNotSeen(w: World, cancel: nat, id: nat)
    requires Inv(w) && cancel < |w.calls| && w.calls[cancel] == Call(Cancel, Start)
    requires id < |w.calls| && w.calls[id].kind.RunWp? && w.calls[id].phase.Ready?
    ensures EndsAs(w, [Go(id), Go(id), Go(cancel), Go(id)], id, Finished(false))
  {
    FourSteps(w, Go(id), Go(id), Go(cancel), Go(id));
  }

  // ---- What moves the flag and the epoch -----------------------------------------------

  /** The project is locked or unlocked exactly when a verify step finishes, as that step asks. */
  lemma FlagMovesIff(w: World, e: Event)
    requires Inv(w) && Enabled(w, e)
    ensures var c, w' := w.calls[e.id], Apply(w, e);
      w'.locked == if c.kind.VerifyStep? && w'.calls[e.id].phase == Done(Finished(false))
                   then !c.kind.unlock
                   else w.locked
  {
  }

  /** The epoch moves on by one exactly when a cancel gets going or a run is out of time. */
  lemma EpochMovesIff(w: World, e: Event)
    requires Inv(w) && Enabled(w, e)
    ensures var c, w' := w.calls[e.id], Apply(w, e);
      w'.epoch == if e.TimeOut? || (c.kind.Cancel? && w'.calls[e.id].phase.Inside?)
                  then (w.epoch + 1) % 0x1_0000_0000_0000_0000
                  else w.epoch
  {
  }

  /** A call that fails lets go of what it holds, and nothing else changes. */
  lemma FailingLetsGo(w: World, id: nat)
    requires Inv(w) && id < |w.calls| && !w.calls[id].phase.Done?
    ensures Enabled(w, Fail(id))
    ensures Apply(w, Fail(id))
      == World(w.locked, if w.wp == Some(id) then None else w.wp, if w.eva == Some(id) then None else w.eva, w.epoch,
               w.calls[id := Call(w.calls[id].kind, Done(Failed))])
  {
  }

  // ---- What a call comes to when nobody interferes --------------------------------------

  /** How a call ends from here, alone, with the flag and the epoch as they are. */
  function Outcome(c: Call, locked: bool, epoch: nat): (ending: Ending) {
    match c.phase
    case Start => if locked && (c.kind.RunWp? || c.kind.Reload?) then Refused else Finished(false)
    case Queued => if locked && (c.kind.RunWp? || c.kind.Reload?) then Refused else Finished(false)
    case FirstLook => if locked then Refused else Finished(false)
    case Recheck => if locked then Refused else Finished(false)
    case WantsEva => if locked && c.kind.Reload? then Refused else Finished(false)
    case Draining(earlier) => Finished(epoch != earlier)
    case Fetching(cancelled) => Finished(cancelled)
    case Done(ending) => ending
    case _ => Finished(false)
  }

  /** A verify step unlocks the project, or locks it when it is done; nothing else moves the flag. */
  function FlagAfter(c: Call, locked: bool): (r: bool) {
    if c.kind.VerifyStep? && !c.phase.Done? then (if c.kind.unlock then c.phase.Inside? else true) else locked
  }

  predicate Alone(w: World, id: nat) {
    && id < |w.calls| && (w.wp.Some? ==> w.wp.value == id) && (w.eva.Some? ==> w.eva.value == id)
    && (w.calls[id].kind.VerifyStep? && w.calls[id].kind.unlock ==> w.calls[id].phase.Start? || w.calls[id].phase.Done?)
  }

  /** From w, by its own steps alone, the call ends like this. */
  ghost predicate EndsAlone(w: World, id: nat, events: seq<Event>, ending: Ending, locked: bool) {
    && (forall k :: 0 <= k < |events| ==> events[k] == Go(id))
    && EndsAs(w, events, id, ending)
    && Play(w, events).locked == locked
    && |Play(w, events).calls| == |w.calls|
    && forall other: nat :: other < |w.calls| && other != id ==> Play(w, events).calls[other] == w.calls[other]
  }

  lemma {:induction false} AloneFrom(w: World, id: nat) returns (events: seq<Event>)
    requires Inv(w) && Alone(w, id)
    ensures EndsAlone(w, id, events, Outcome(w.calls[id], w.locked, w.epoch), FlagAfter(w.calls[id], w.locked))
    decreases Left(w.calls[id])
  {
    if w.calls[id].phase.Done? {
      events := [];
    } else {
      OwnStep(w, id);
      StepKeepsInv(w, Go(id));
      hide Inv, Apply, Enabled, Outcome, FlagAfter, Left, Alone;
      var rest := AloneFrom(Apply(w, Go(id)), id);
      events := [Go(id)] + rest;
      assert events[1..] == rest;
    }
  }

  lemma OwnStep(w: World, id: nat)
    requires Inv(w) && Alone(w, id) && !w.calls[id].phase.Done?
    ensures Enabled(w, Go(id)) && Alone(Apply(w, Go(id)), id)
    ensures var w' := Apply(w, Go(id));
      && Left(w'.calls[id]) < Left(w.calls[id])
      && Outcome(w'.calls[id], w'.locked, w'.epoch) == Outcome(w.calls[id], w.locked, w.epoch)
      && FlagAfter(w'.calls[id], w'.locked) == FlagAfter(w.calls[id], w.locked)
      && |w'.calls| == |w.calls|
      && forall other: nat :: other < |w.calls| && other != id ==> w'.calls[other] == w.calls[other]
  {
    assert HoldsWp(w.calls[id]) <==> w.wp == Some(id);
    assert HoldsEva(w.calls[id]) <==> w.eva == Some(id);
  }

  /**
   * A call nobody interferes with ends: a proof run and a reload are refused
   * exactly while the project is locked, everything else finishes; a verify
   * step leaves the project locked, or unlocked when it was asked to unlock.
   */
  lemma LoneCallEnds(w: World, id: nat) returns (events: seq<Event>)
    requires Fresh(w) && id < |w.calls|
    ensures var kind := w.calls[id].kind;
      EndsAlone(w, id, events,
                if w.locked && (kind.RunWp? || kind.Reload?) then Refused else Finished(false),
                if kind == VerifyStep(false) then true else if kind == VerifyStep(true) then false else w.locked)
  {
    FreshInv(w);
    events := AloneFrom(w, id);
  }

  /** A plain run and a reload are refused without waiting for a lock; a profiled run waits for it first. */
  lemma RefusedWithoutWaiting(w: World, id: nat)
    requires id < |w.calls| && w.locked && w.calls[id].phase.Start?
    requires w.calls[id].kind.RunWp? || w.calls[id].kind.Reload?
    ensures Enabled(w, Go(id))
    ensures Apply(w, Go(id)).calls[id].phase == if w.calls[id].kind == RunWp(true) then Queued else Done(Refused)
  {
  }

  /** A run that is out of time fails, lets go of the proof lock and moves the epoch on. */
  lemma TimeOutFails(w: World, id: nat)
    requires Inv(w) && id < |w.calls| && w.calls[id].kind.RunWp? && w.calls[id].phase.Draining?
    ensures Enabled(w, TimeOut(id))
    ensures var w' := Apply(w, TimeOut(id));
      && id < |w'.calls| && w'.calls[id].phase == Done(Failed) && w'.wp.None? && w'.locked == w.locked
      && w'.epoch == (w.epoch + 1) % 0x1_0000_0000_0000_0000
  {
    assert HoldsWp(w.calls[id]) <==> w.wp == Some(id);
  }
}
