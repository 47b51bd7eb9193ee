/**
 * Reload-then-fetch over one process-global cursor: any number of tasks, one
 * request in flight at a time, requests that time out and are still carried
 * out later, and a server that may reset the table under a drain.
 */
module ReloadFetch {
  import opened Outcomes

  const PAGE: nat := 20000

  type Row = nat
  type Task = nat

  /** A page of the table, and (for the record) the table it was cut from. */
  datatype Page = Page(reload: bool, updated: seq<Row>, pending: nat, table: seq<Row>)

  // ---- fetch_all ------------------------------------------------------------

  /** A reload flag throws away what was accumulated before it. */
  function Absorb(entries: seq<Row>, page: Page): seq<Row> {
    (if page.reload then [] else entries) + page.updated
  }

  /** What the pages up to and including the first with nothing pending add up to. */
  function Drained(entries: seq<Row>, pages: seq<Page>): Option<seq<Row>>
    decreases |pages|
  {
    if pages == [] then None
    else if pages[0].pending == 0 then Some(Absorb(entries, pages[0]))
    else Drained(Absorb(entries, pages[0]), pages[1..])
  }

  function Updates(pages: seq<Page>): (rows: seq<Row>) {
    if pages == [] then [] else Updates(pages[..|pages| - 1]) + pages[|pages| - 1].updated
  }

  lemma OneMoreUpdate(pages: seq<Page>, first: nat, k: nat)
    requires first <= k < |pages|
    ensures Updates(pages[first..k + 1]) == Updates(pages[first..k]) + pages[k].updated
  {
    var more := pages[first..k + 1];
    assert more[..|more| - 1] == pages[first..k];
  }

  /** The first page with nothing pending after it. */
  predicate IsLastPage(pages: seq<Page>, n: nat) {
    n < |pages| && pages[n].pending == 0 && forall k :: 0 <= k < n ==> pages[k].pending != 0
  }

  /** The last page up to n that carries a reload flag, or the first page of all. */
  predicate IsFirstKept(pages: seq<Page>, first: nat, n: nat) {
    first <= n < |pages| && (first == 0 || pages[first].reload) && forall k :: first < k <= n ==> !pages[k].reload
  }

  /** What a drain is for: the rows since the last reload flag, up to the first page that is the last. */
  ghost predicate IsDrain(pages: seq<Page>, r: Option<seq<Row>>) {
    if r.None? then forall k :: 0 <= k < |pages| ==> pages[k].pending != 0
    else exists first: nat, n: nat ::
      IsLastPage(pages, n) && IsFirstKept(pages, first, n) && r.value == Updates(pages[first..n + 1])
  }

  /** The loop over get: it fails when a request does, here when no page is left. */
  method FetchAll(pages: seq<Page>) returns (r: Option<seq<Row>>)
    ensures IsDrain(pages, r)
    ensures r == Drained([], pages)
  {
    var entries: seq<Row> := [];
    var k := 0;
    ghost var first := 0;
    while k < |pages|
      invariant first <= k <= |pages| && Drained(entries, pages[k..]) == Drained([], pages)
      invariant entries == Updates(pages[first..k])
      invariant k > 0 ==> IsFirstKept(pages, first, k - 1)
      invariant k == 0 ==> first == 0
      invariant forall i :: 0 <= i < k ==> pages[i].pending != 0
    {
      if pages[k].reload {
        entries := [];
        first := k;
      }
      entries := entries + pages[k].updated;
      OneMoreUpdate(pages, first, k);
      assert IsFirstKept(pages, first, k);
      if pages[k].pending == 0 {
        assert IsLastPage(pages, k);
        return Some(entries);
      }
      k := k + 1;
    }
    r := None;
  }

  // ---- The server -------------------------------------------------------------

  /** unannounced: the cursor was reset and no fetch has told anyone yet. */
  datatype Server = Server(table: seq<Row>, cursor: nat, unannounced: bool)

  datatype Request = Reload | Fetch | Other

  datatype Reply = Ack | Rows(page: Page)

  function Served(s: Server, r: Request): (Server, Reply)
    requires s.cursor <= |s.table|
  {
    match r
    case Other => (s, Ack)
    case Reload => (s.(cursor := 0, unannounced := true), Ack)
    case Fetch =>
      var end := if s.cursor + PAGE < |s.table| then s.cursor + PAGE else |s.table|;
      (s.(cursor := end, unannounced := false),
       Rows(Page(s.unannounced, s.table[s.cursor..end], |s.table| - end, s.table)))
  }

  // ---- Tasks ------------------------------------------------------------------

  datatype Pc =
    | Idle
    | HasLock                                       // fetch_lock taken, reload not sent
    | Reloading(ticket: nat)
    | Between(entries: seq<Row>)                    // next fetch not sent
    | Fetching(ticket: nat, entries: seq<Row>)
    | Asking(ticket: nat)                           // some unrelated request
    | Returned(result: seq<Row>, table: seq<Row>)   // table: what the last page was cut from
    | Failed

  datatype InFlight = InFlight(ticket: nat, request: Request)

  datatype State = State(
    pcs: map<Task, Pc>,
    fetchLock: Option<Task>,
    inner: Option<Task>,
    queue: seq<InFlight>,
    replies: map<nat, Reply>,
    issued: nat,
    server: Server)

  datatype Step =
    | TakeFetchLock(task: Task)
    | Send(task: Task)
    | Ask(task: Task)
    | Serve
    | ResetTable(table: seq<Row>)
    | Accept(task: Task)
    | GiveUp(task: Task)

  function PcOf(s: State, t: Task): Pc {
    if t in s.pcs then s.pcs[t] else Idle
  }

  function TicketOf(pc: Pc): Option<nat> {
    match pc
    case Reloading(n) => Some(n)
    case Fetching(n, _) => Some(n)
    case Asking(n) => Some(n)
    case _ => None
  }

  function Start(table: seq<Row>): State {
    State(map[], None, None, [], map[], 0, Server(table, 0, true))
  }

  function Enqueue(s: State, t: Task, request: Request, pc: Pc): State {
    s.(pcs := s.pcs[t := pc], inner := Some(t),
        queue := s.queue + [InFlight(s.issued, request)], issued := s.issued + 1)
  }

  /** One atomic step; a step that is not enabled changes nothing. */
  function Do(s: State, step: Step): State
    requires s.server.cursor <= |s.server.table|
    ensures Do(s, step).server.cursor <= |Do(s, step).server.table|
  {
    match step
    case TakeFetchLock(t) =>
      if s.fetchLock.None? && PcOf(s, t).Idle? then s.(fetchLock := Some(t), pcs := s.pcs[t := HasLock]) else s
    case Send(t) =>
      if s.inner.Some? then s
      else if PcOf(s, t).HasLock? then Enqueue(s, t, Reload, Reloading(s.issued))
      else if PcOf(s, t).Between? then Enqueue(s, t, Fetch, Fetching(s.issued, PcOf(s, t).entries))
      else s
    case Ask(t) =>
      if s.inner.None? && PcOf(s, t).Idle? then Enqueue(s, t, Other, Asking(s.issued)) else s
    case Serve =>
      if s.queue == [] then s
      else
        var (server, reply) := Served(s.server, s.queue[0].request);
        s.(server := server, replies := s.replies[s.queue[0].ticket := reply], queue := s.queue[1..])
    case ResetTable(table) => s.(server := Server(table, 0, true))
    case Accept(t) =>
      var ticket := TicketOf(PcOf(s, t));
      if ticket.None? || ticket.value !in s.replies then s
      else Accepted(s, t, s.replies[ticket.value])
    case GiveUp(t) =>
      var pc := PcOf(s, t);
      if pc.Idle? || pc.Returned? || pc.Failed? then s
      else
        s.(pcs := s.pcs[t := Failed], inner := if s.inner == Some(t) then None else s.inner,
           fetchLock := if s.fetchLock == Some(t) then None else s.fetchLock)
  }

  function Accepted(s: State, t: Task, reply: Reply): State {
    var s' := s.(inner := None);
    match PcOf(s, t)
    case Reloading(_) => s'.(pcs := s.pcs[t := Between([])])
    case Fetching(_, entries) =>
      if reply.Ack? then s'
      else
        var entries' := Absorb(entries, reply.page);
        if reply.page.pending == 0
        then s'.(pcs := s.pcs[t := Returned(entries', reply.page.table)], fetchLock := None)
        else s'.(pcs := s.pcs[t := Between(entries')])
    case _ => s'.(pcs := s.pcs[t := Idle])
  }

  // ---- The invariant ------------------------------------------------------------

  predicate TouchesCursor(m: InFlight) {
    !m.request.Other?
  }

  /** No reload or fetch is on its way except possibly the one with this ticket, at the end of them. */
  ghost predicate OnlyLast(queue: seq<InFlight>, ticket: nat) {
    forall i, j :: 0 <= i < j < |queue| && queue[i].ticket == ticket ==> !TouchesCursor(queue[j])
  }

  ghost predicate Quiet(queue: seq<InFlight>) {
    forall m :: m in queue ==> !TouchesCursor(m)
  }

  ghost predicate Pending(s: State, ticket: nat, request: Request) {
    InFlight(ticket, request) in s.queue && ticket !in s.replies
  }

  /** The entries match the part of the table already handed out, unless a reset is about to be announced. */
  ghost predicate InStep(server: Server, entries: seq<Row>) {
    && server.cursor <= |server.table|
    && (server.unannounced ==> server.cursor == 0)
    && (server.unannounced || entries == server.table[..server.cursor])
  }

  ghost predicate HolderOk(s: State, t: Task) {
    match PcOf(s, t)
    case HasLock => true
    case Reloading(n) =>
      if n in s.replies then Quiet(s.queue) && s.server.unannounced && s.server.cursor == 0
      else Pending(s, n, Reload) && OnlyLast(s.queue, n)
    case Between(entries) => Quiet(s.queue) && InStep(s.server, entries)
    case Fetching(n, entries) =>
      if n in s.replies then
        && Quiet(s.queue) && s.replies[n].Rows?
        && InStep(s.server, Absorb(entries, s.replies[n].page))
        && (s.replies[n].page.pending == 0 ==> Absorb(entries, s.replies[n].page) == s.replies[n].page.table)
      else
        && Pending(s, n, Fetch) && InStep(s.server, entries)
        && forall m :: m in s.queue && TouchesCursor(m) ==> m == InFlight(n, Fetch)
    case _ => false
  }

  ghost predicate TaskOk(s: State, t: Task) {
    var pc := PcOf(s, t);
    && (TicketOf(pc).Some? <==> s.inner == Some(t))
    && (TicketOf(pc).Some? ==> TicketOf(pc).value < s.issued)
    && (s.fetchLock == Some(t) <==> pc.HasLock? || pc.Reloading? || pc.Between? || pc.Fetching?)
    && (s.fetchLock == Some(t) ==> HolderOk(s, t))
    && (pc.Returned? ==> pc.result == pc.table)
  }

  ghost predicate Inv(s: State) {
    && s.server.cursor <= |s.server.table|
    && (s.server.unannounced ==> s.server.cursor == 0)
    && (forall m :: m in s.queue ==> m.ticket < s.issued && m.ticket !in s.replies)
    && (forall i, j :: 0 <= i < j < |s.queue| ==> s.queue[i].ticket != s.queue[j].ticket)
    && (forall n :: n in s.replies ==> n < s.issued)
    && (forall t: Task :: TaskOk(s, t))
  }

  lemma RestOfQueue(s: State)
    requires Inv(s) && s.queue != []
    ensures s.queue[0] in s.queue && s.queue == [s.queue[0]] + s.queue[1..] && s.queue[0].ticket !in s.replies
    ensures forall m :: m in s.queue[1..] ==> m in s.queue && m.ticket != s.queue[0].ticket
  {
    var rest := s.queue[1..];
    forall m | m in rest ensures m in s.queue && m.ticket != s.queue[0].ticket {
      var i :| 0 <= i < |rest| && rest[i] == m;
      assert s.queue[i + 1] == m;
    }
  }

  lemma ServeKeepsInv(s: State)
    requires Inv(s) && s.queue != []
    ensures Inv(Do(s, Serve))
  {
    var s' := Do(s, Serve);
    RestOfQueue(s);
    forall t: Task ensures TaskOk(s', t) {
      hide HolderOk;
      assert TaskOk(s, t);
      if s.fetchLock == Some(t) {
        ServeKeepsHolder(s, t);
      }
    }
  }

  lemma ServeKeepsHolder(s: State, t: Task)
    requires Inv(s) && s.queue != [] && HolderOk(s, t)
    ensures HolderOk(Do(s, Serve), t)
  {
    hide Inv, TaskOk;
    RestOfQueue(s);
    match PcOf(s, t)
    case HasLock =>
    case Between(_) =>
    case Reloading(n) =>
      if n !in s.replies {
        if s.queue[0].ticket == n {
          QuietAfterHead(s.queue, n);
          assert s.queue[0] == InFlight(n, Reload);
        } else {
          OnlyLastInRest(s.queue, n);
        }
      }
    case Fetching(n, entries) =>
      if n !in s.replies && s.queue[0].ticket == n {
        ServeHolderFetch(s, t, n, entries);
      }
    case _ =>
  }

  lemma ServeHolderFetch(s: State, t: Task, n: nat, entries: seq<Row>)
    requires Inv(s) && s.queue != [] && PcOf(s, t) == Fetching(n, entries) && HolderOk(s, t)
    requires n !in s.replies && s.queue[0].ticket == n
    ensures HolderOk(Do(s, Serve), t)
  {
    hide TaskOk;
    RestOfQueue(s);
    var now, next := s.server.cursor, Do(s, Serve).server.cursor;
    assert s.queue[0] == InFlight(n, Fetch);
    assert s.server.table[..now] + s.server.table[now..next] == s.server.table[..next];
  }

  lemma QuietAfterHead(queue: seq<InFlight>, n: nat)
    requires queue != [] && queue[0].ticket == n && OnlyLast(queue, n)
    ensures Quiet(queue[1..])
  {
    forall m | m in queue[1..] ensures !TouchesCursor(m) {
      var i :| 0 <= i < |queue[1..]| && queue[1..][i] == m;
      assert queue[0].ticket == n && queue[i + 1] == m;
    }
  }

  lemma OnlyLastInRest(queue: seq<InFlight>, n: nat)
    requires queue != [] && OnlyLast(queue, n)
    ensures OnlyLast(queue[1..], n)
  {
    forall i, j | 0 <= i < j < |queue[1..]| && queue[1..][i].ticket == n ensures !TouchesCursor(queue[1..][j]) {
      assert queue[i + 1].ticket == n && queue[j + 1] == queue[1..][j];
    }
  }

  lemma EnqueueKeepsInv(s: State, t: Task, request: Request, pc: Pc)
    requires Inv(s) && s.inner.None? && TicketOf(pc) == Some(s.issued)
    requires match pc
      case Reloading(_) => PcOf(s, t).HasLock? && request == Reload
      case Fetching(_, entries) => PcOf(s, t) == Between(entries) && request == Fetch
      case Asking(_) => PcOf(s, t).Idle? && request == Other
      case _ => false
    ensures Inv(Enqueue(s, t, request, pc))
  {
    var s' := Enqueue(s, t, request, pc);
    var sent := InFlight(s.issued, request);
    assert s'.queue[|s.queue|] == sent;
    forall m | m in s'.queue ensures m == sent || m in s.queue {
    }
    assert TaskOk(s, t);
    forall u: Task ensures TaskOk(s', u) {
      assert TaskOk(s, u);
      assert PcOf(s', u) == if u == t then pc else PcOf(s, u);
    }
  }

  lemma AcceptKeepsInv(s: State, t: Task)
    requires Inv(s)
    ensures Inv(Do(s, Accept(t)))
  {
    var s' := Do(s, Accept(t));
    assert TaskOk(s, t);
    forall u: Task ensures TaskOk(s', u) {
      assert TaskOk(s, u);
      if s' != s && u != t {
        assert PcOf(s', u) == PcOf(s, u);
      }
    }
  }

  lemma OtherStepsKeepInv(s: State, step: Step)
    requires Inv(s) && (step.TakeFetchLock? || step.ResetTable? || step.GiveUp?)
    ensures Inv(Do(s, step))
  {
    var s' := Do(s, step);
    forall u: Task ensures TaskOk(s', u) {
      assert TaskOk(s, u);
      if !step.ResetTable? {
        assert TaskOk(s, step.task);
        assert u != step.task ==> PcOf(s', u) == PcOf(s, u);
      }
    }
  }

  lemma StepKeepsInv(s: State, step: Step)
    requires Inv(s)
    ensures Inv(Do(s, step))
  {
    match step
    case Serve => if s.queue != [] { ServeKeepsInv(s); }
    case Accept(t) => AcceptKeepsInv(s, t);
    case Send(t) =>
      if s.inner.None? && PcOf(s, t).HasLock? {
        EnqueueKeepsInv(s, t, Reload, Reloading(s.issued));
      } else if s.inner.None? && PcOf(s, t).Between? {
        EnqueueKeepsInv(s, t, Fetch, Fetching(s.issued, PcOf(s, t).entries));
      }
    case Ask(t) =>
      if s.inner.None? && PcOf(s, t).Idle? {
        EnqueueKeepsInv(s, t, Other, Asking(s.issued));
      }
    case _ => OtherStepsKeepInv(s, step);
  }

  // ---- Every interleaving -----------------------------------------------------

  function Run(table: seq<Row>, steps: seq<Step>): (s: State)
    ensures s.server.cursor <= |s.server.table|
  {
    if steps == [] then Start(table) else Do(Run(table, steps[..|steps| - 1]), steps[|steps| - 1])
  }

  lemma {:induction false} RunsKeepInv(table: seq<Row>, steps: seq<Step>)
    ensures Inv(Run(table, steps))
  {
    if steps == [] {
      forall t: Task ensures TaskOk(Start(table), t) {}
    } else {
      RunsKeepInv(table, steps[..|steps| - 1]);
      StepKeepsInv(Run(table, steps[..|steps| - 1]), steps[|steps| - 1]);
    }
  }

  /**
   * In every interleaving, with requests lost to timeouts still being carried
   * out and tables replaced mid-drain, a call that returns has the whole table
   * its last page was cut from: never a delta, never stale rows.
   */
  lemma ReloadFetchIsAtomic(table: seq<Row>, steps: seq<Step>, t: Task)
    requires PcOf(Run(table, steps), t).Returned?
    ensures PcOf(Run(table, steps), t).result == PcOf(Run(table, steps), t).table
  {
    RunsKeepInv(table, steps);
    assert TaskOk(Run(table, steps), t);
  }

  ghost predicate NeverReset(steps: seq<Step>) {
    forall step :: step in steps ==> !step.ResetTable?
  }

  ghost predicate CutFrom(s: State, table: seq<Row>) {
    && s.server.table == table
    && (forall n :: n in s.replies && s.replies[n].Rows? ==> s.replies[n].page.table == table)
    && (forall t :: t in s.pcs && s.pcs[t].Returned? ==> s.pcs[t].table == table)
  }

  lemma StepKeepsTable(s: State, step: Step, table: seq<Row>)
    requires s.server.cursor <= |s.server.table| && CutFrom(s, table) && !step.ResetTable?
    ensures CutFrom(Do(s, step), table)
  {
  }

  /** Pages are cut from the table there is; without resets that is the one table throughout. */
  lemma {:induction false} OneTable(table: seq<Row>, steps: seq<Step>)
    requires NeverReset(steps)
    ensures CutFrom(Run(table, steps), table)
  {
    hide Do;
    if steps != [] {
      hide CutFrom;
      assert steps == steps[..|steps| - 1] + [steps[|steps| - 1]];
      OneTable(table, steps[..|steps| - 1]);
      StepKeepsTable(Run(table, steps[..|steps| - 1]), steps[|steps| - 1], table);
    }
  }

  /** With a table that stays put, every call that returns has exactly that table. */
  lemma EveryCallReturnsTheTable(table: seq<Row>, steps: seq<Step>, t: Task)
    requires NeverReset(steps) && PcOf(Run(table, steps), t).Returned?
    ensures PcOf(Run(table, steps), t).result == table
  {
    ReloadFetchIsAtomic(table, steps, t);
    OneTable(table, steps);
  }

  /** At most one task is between a reload and its last page. */
  lemma OneDrainAtATime(table: seq<Row>, steps: seq<Step>, t: Task, u: Task)
    requires var s := Run(table, steps);
      && (PcOf(s, t).Reloading? || PcOf(s, t).Between? || PcOf(s, t).Fetching?)
      && (PcOf(s, u).Reloading? || PcOf(s, u).Between? || PcOf(s, u).Fetching?)
    ensures t == u
  {
    RunsKeepInv(table, steps);
    assert TaskOk(Run(table, steps), t) && TaskOk(Run(table, steps), u);
  }

  lemma RunOneMore(table: seq<Row>, steps: seq<Step>, step: Step)
    ensures Run(table, steps + [step]) == Do(Run(table, steps), step)
  {
    assert (steps + [step])[..|steps|] == steps;
  }

  /** A request that is sent, served and answered with nobody else about. */
  function Exchange(s: State, t: Task): (s': State)
    requires s.server.cursor <= |s.server.table|
    ensures s'.server.cursor <= |s'.server.table|
  {
    Do(Do(Do(s, Send(t)), Serve), Accept(t))
  }

  lemma RunExchange(table: seq<Row>, steps: seq<Step>, t: Task)
    ensures Run(table, steps + [Send(t), Serve, Accept(t)]) == Exchange(Run(table, steps), t)
  {
    hide Do, Run;
    RunOneMore(table, steps, Send(t));
    RunOneMore(table, steps + [Send(t)], Serve);
    RunOneMore(table, steps + [Send(t)] + [Serve], Accept(t));
    assert steps + [Send(t)] + [Serve] + [Accept(t)] == steps + [Send(t), Serve, Accept(t)];
  }

  /** Between two pages with nobody else about. */
  ghost predicate Undisturbed(s: State, table: seq<Row>, t: Task) {
    && s.queue == [] && s.inner.None? && s.server.table == table
    && PcOf(s, t).Between? && InStep(s.server, PcOf(s, t).entries)
  }

  /** One more page, which is the last or moves the cursor on. */
  lemma PageExchange(s: State, table: seq<Row>, t: Task)
    requires Undisturbed(s, table, t)
    ensures var s', left := Exchange(s, t), |table| - s.server.cursor;
      if left <= PAGE then PcOf(s', t) == Returned(table, table)
      else Undisturbed(s', table, t) && s'.server.cursor == s.server.cursor + PAGE
  {
    var cursor := s.server.cursor;
    var end := if cursor + PAGE < |table| then cursor + PAGE else |table|;
    assert table[..cursor] + table[cursor..end] == table[..end] && table[..|table|] == table;
  }

  /** From anywhere in a drain, as many exchanges as there are pages left bring the call home. */
  lemma {:induction false} DrainReturns(table: seq<Row>, steps: seq<Step>, now: seq<Row>, t: Task)
      returns (more: seq<Step>)
    requires Undisturbed(Run(table, steps), now, t)
    ensures NeverReset(more) && PcOf(Run(table, steps + more), t) == Returned(now, now)
    decreases |now| - Run(table, steps).server.cursor
  {
    hide Run, Do, Undisturbed;
    var s := Run(table, steps);
    var page := [Send(t), Serve, Accept(t)];
    more := page;
    RunExchange(table, steps, t);
    PageExchange(s, now, t);
    if |now| - s.server.cursor > PAGE {
      var rest := DrainReturns(table, steps + page, now, t);
      more := page + rest;
      assert steps + more == steps + page + rest;
    }
  }

  lemma ReloadExchange(table: seq<Row>, t: Task)
    ensures Undisturbed(Exchange(Do(Start(table), TakeFetchLock(t)), t), table, t)
    ensures Exchange(Do(Start(table), TakeFetchLock(t)), t).server.cursor == 0
  {
  }

  lemma RunNothing(table: seq<Row>)
    ensures Run(table, []) == Start(table)
  {
  }

  /** A call that has sent its reload and got the answer. */
  function Begun(t: Task): (steps: seq<Step>) {
    [TakeFetchLock(t)] + [Send(t), Serve, Accept(t)]
  }

  lemma BeginningRuns(table: seq<Row>, t: Task)
    ensures Undisturbed(Run(table, Begun(t)), table, t) && Run(table, Begun(t)).server.cursor == 0
    ensures NeverReset(Begun(t))
  {
    hide Run, Do, Undisturbed, Start;
    assert [] + [TakeFetchLock(t)] == [TakeFetchLock(t)];
    RunNothing(table);
    RunOneMore(table, [], TakeFetchLock(t));
    RunExchange(table, [TakeFetchLock(t)], t);
    ReloadExchange(table, t);
  }

  /** The claim is not empty: an undisturbed call on any table, of however many pages, returns it. */
  lemma UndisturbedCallReturns(table: seq<Row>, t: Task) returns (steps: seq<Step>)
    ensures NeverReset(steps) && PcOf(Run(table, steps), t) == Returned(table, table)
  {
    hide Run, Do, Undisturbed, Begun;
    BeginningRuns(table, t);
    var more := DrainReturns(table, Begun(t), table, t);
    steps := Begun(t) + more;
  }

  /** An unrelated request of another task, served between two pages, leaves the drain where it is. */
  lemma OtherRequestsDoNotDisturb(s: State, table: seq<Row>, t: Task, u: Task)
    requires Undisturbed(s, table, t) && u != t && PcOf(s, u).Idle?
    ensures var s' := Do(Do(Do(s, Ask(u)), Serve), Accept(u));
      Undisturbed(s', table, t) && s'.server == s.server && PcOf(s', t) == PcOf(s, t) && PcOf(s', u).Idle?
  {
  }

  /** One task at a time waits for the answer to a request. */
  lemma OneRequestAtATime(table: seq<Row>, steps: seq<Step>, t: Task, u: Task)
    requires TicketOf(PcOf(Run(table, steps), t)).Some? && TicketOf(PcOf(Run(table, steps), u)).Some?
    ensures t == u
  {
    RunsKeepInv(table, steps);
    assert TaskOk(Run(table, steps), t) && TaskOk(Run(table, steps), u);
  }

  lemma ResetIsAnnounced(s: State, table: seq<Row>, now: seq<Row>, t: Task)
    requires Undisturbed(s, table, t)
    ensures Undisturbed(Do(s, ResetTable(now)), now, t)
  {
  }

  /** A table that changes between two pages makes the call start over: it returns the new one, with no old row. */
  lemma ResetMidDrainIsSeen(table: seq<Row>, now: seq<Row>, t: Task) returns (before: seq<Step>, after: seq<Step>)
    requires |table| > 20000
    ensures PcOf(Run(table, before), t) == Between(table[..20000])
    ensures PcOf(Run(table, before + [ResetTable(now)] + after), t) == Returned(now, now) && NeverReset(after)
  {
    hide Run, Do, Begun;
    BeginningRuns(table, t);
    before := Begun(t) + [Send(t), Serve, Accept(t)];
    RunExchange(table, Begun(t), t);
    FirstPage(Run(table, Begun(t)), table, t);
    RunOneMore(table, before, ResetTable(now));
    ResetIsAnnounced(Run(table, before), table, now, t);
    after := DrainReturns(table, before + [ResetTable(now)], now, t);
  }

  lemma FirstPage(s: State, table: seq<Row>, t: Task)
    requires Undisturbed(s, table, t) && s.server.cursor == 0 && |table| > 20000
    ensures Undisturbed(Exchange(s, t), table, t) && PcOf(Exchange(s, t), t) == Between(table[..20000])
  {
    PageExchange(s, table, t);
  }

  // ---- After a timeout -----------------------------------------------------------

  /** A call under way that gives up fails and lets go of both locks; its request is carried out later all the same. */
  lemma GivingUpLetsGo(s: State, t: Task)
    requires Inv(s)
    ensures PcOf(s, t).Idle? || PcOf(s, t).Returned? || PcOf(s, t).Failed? ==> Do(s, GiveUp(t)) == s
    ensures var s' := Do(s, GiveUp(t));
      PcOf(s, t).Idle? || PcOf(s, t).Returned? || PcOf(s, t).Failed? || (
      && PcOf(s', t).Failed? && s'.queue == s.queue && s'.server == s.server
      && s'.inner == (if TicketOf(PcOf(s, t)).Some? then None else s.inner)
      && s'.fetchLock == (if PcOf(s, t).Asking? then s.fetchLock else None))
    ensures forall u :: u != t ==> PcOf(Do(s, GiveUp(t)), u) == PcOf(s, u)
  {
    assert TaskOk(s, t);
  }

  /** Both locks are free, on a table. */
  ghost predicate LocksFree(s: State, table: seq<Row>) {
    s.fetchLock.None? && s.inner.None? && s.server.table == table
  }

  /** The task that holds a lock gives up. */
  lemma HolderGivesUp(table: seq<Row>, steps: seq<Step>, u: Task, t: Task)
    requires Run(table, steps).fetchLock == Some(u) || Run(table, steps).inner == Some(u)
    requires PcOf(Run(table, steps), t).Idle?
    ensures var s, s' := Run(table, steps), Run(table, steps + [GiveUp(u)]);
      && PcOf(s', t).Idle? && s'.server == s.server
      && (s.fetchLock == Some(u) ==> s'.fetchLock.None?) && (s.inner == Some(u) ==> s'.inner.None?)
      && (s.fetchLock.None? ==> s'.fetchLock.None?)
  {
    var s := Run(table, steps);
    RunsKeepInv(table, steps);
    RunOneMore(table, steps, GiveUp(u));
    assert TaskOk(s, u) && TaskOk(s, t);
    hide Run;
    GivingUpLetsGo(s, u);
  }

  /** Whoever is in the way gives up: at most one task for each lock. */
  lemma LocksComeFree(table: seq<Row>, steps: seq<Step>, t: Task) returns (more: seq<Step>)
    requires PcOf(Run(table, steps), t).Idle?
    ensures |more| <= 2 && forall k :: 0 <= k < |more| ==> more[k].GiveUp?
    ensures LocksFree(Run(table, steps + more), Run(table, steps).server.table)
    ensures PcOf(Run(table, steps + more), t).Idle?
  {
    hide Run;
    more := [];
    assert steps + more == steps;
    if Run(table, steps).fetchLock.Some? {
      var u := Run(table, steps).fetchLock.value;
      HolderGivesUp(table, steps, u, t);
      more := [GiveUp(u)];
    }
    if Run(table, steps + more).inner.Some? {
      var u := Run(table, steps + more).inner.value;
      HolderGivesUp(table, steps + more, u, t);
      assert steps + more + [GiveUp(u)] == steps + (more + [GiveUp(u)]);
      more := more + [GiveUp(u)];
    }
  }

  /** What is still on its way is carried out, with nobody left to hear the answer. */
  lemma {:induction false} QueueDrains(table: seq<Row>, steps: seq<Step>, now: seq<Row>, t: Task)
      returns (more: seq<Step>)
    requires LocksFree(Run(table, steps), now) && PcOf(Run(table, steps), t).Idle?
    ensures NeverReset(more) && LocksFree(Run(table, steps + more), now) && PcOf(Run(table, steps + more), t).Idle?
    ensures Run(table, steps + more).queue == []
    decreases |Run(table, steps).queue|
  {
    hide Run;
    more := [];
    assert steps + more == steps;
    if Run(table, steps).queue != [] {
      RunOneMore(table, steps, Serve);
      var rest := QueueDrains(table, steps + [Serve], now, t);
      more := [Serve] + rest;
      assert steps + more == steps + [Serve] + rest;
    }
  }

  /** An idle task, with the locks free and nothing on its way, is soon between its reload and its first page. */
  lemma CallBegins(s: State, now: seq<Row>, t: Task)
    requires LocksFree(s, now) && s.queue == [] && PcOf(s, t).Idle? && s.server.cursor <= |s.server.table|
    ensures Undisturbed(Exchange(Do(s, TakeFetchLock(t)), t), now, t)
  {
  }

  /** Nobody is locked out: from any reachable state, once the holders have timed out, an idle task gets the table. */
  lemma CallAfterTimeoutsReturns(table: seq<Row>, steps: seq<Step>, t: Task) returns (more: seq<Step>)
    requires PcOf(Run(table, steps), t).Idle?
    ensures var now := Run(table, steps).server.table;
      NeverReset(more) && PcOf(Run(table, steps + more), t) == Returned(now, now)
  {
    hide Run, Do, Undisturbed, LocksFree, PcOf;
    var now := Run(table, steps).server.table;
    var free := LocksComeFree(table, steps, t);
    var served := QueueDrains(table, steps + free, now, t);
    var quiet := steps + free + served;
    CallBegins(Run(table, quiet), now, t);
    RunOneMore(table, quiet, TakeFetchLock(t));
    RunExchange(table, quiet + [TakeFetchLock(t)], t);
    assert quiet + Begun(t) == quiet + [TakeFetchLock(t)] + [Send(t), Serve, Accept(t)];
    var rest := DrainReturns(table, quiet + Begun(t), now, t);
    more := free + served + Begun(t) + rest;
    assert steps + more == quiet + Begun(t) + rest;
  }

  // ---- The loop and the run ------------------------------------------------------

  /** The pages a task has accepted so far, in order. */
  function PagesOf(table: seq<Row>, steps: seq<Step>, t: Task): (pages: seq<Page>) {
    if steps == [] then []
    else
      var earlier, s := steps[..|steps| - 1], Run(table, steps[..|steps| - 1]);
      PagesOf(table, earlier, t) + if steps[|steps| - 1] == Accept(t) then PageFor(s, t) else []
  }

  /** The page waiting for a task that fetches, if it is there. */
  function PageFor(s: State, t: Task): (pages: seq<Page>) {
    match PcOf(s, t)
    case Fetching(n, _) => if n in s.replies && s.replies[n].Rows? then [s.replies[n].page] else []
    case _ => []
  }

  /** A task holds what the loop holds after the same pages. */
  ghost predicate LikeTheLoop(pc: Pc, pages: seq<Page>) {
    match pc
    case Between(entries) => StillDraining(pages, entries)
    case Fetching(_, entries) => StillDraining(pages, entries)
    case Returned(result, _) => Drained([], pages) == Some(result)
    case Failed => true
    case _ => pages == []
  }

  /** After these pages the loop goes on, with these entries. */
  ghost predicate StillDraining(pages: seq<Page>, entries: seq<Row>) {
    forall more :: Drained([], pages + more) == Drained(entries, more)
  }

  lemma OnePageMore(pages: seq<Page>, entries: seq<Row>, page: Page)
    requires StillDraining(pages, entries)
    ensures page.pending != 0 ==> StillDraining(pages + [page], Absorb(entries, page))
    ensures page.pending == 0 ==> Drained([], pages + [page]) == Some(Absorb(entries, page))
  {
    forall more | page.pending != 0 ensures Drained([], pages + [page] + more) == Drained(Absorb(entries, page), more) {
      assert pages + [page] + more == pages + ([page] + more);
      assert ([page] + more)[1..] == more;
    }
  }

  lemma NoPageYet()
    ensures StillDraining([], [])
  {
    assert forall more: seq<Page> :: [] + more == more;
  }

  lemma StepIsLikeTheLoop(s: State, step: Step, t: Task, pages: seq<Page>)
    requires s.server.cursor <= |s.server.table| && LikeTheLoop(PcOf(s, t), pages)
    ensures LikeTheLoop(PcOf(Do(s, step), t), pages + if step == Accept(t) then PageFor(s, t) else [])
  {
    hide StillDraining, Drained;
    NoPageYet();
    assert pages + [] == pages;
    if step == Accept(t) && PageFor(s, t) != [] {
      OnePageMore(pages, PcOf(s, t).entries, PageFor(s, t)[0]);
    }
  }

  /** In every interleaving, what a call returns is what the loop makes of the pages that call accepted. */
  lemma {:induction false} CallsRunTheLoop(table: seq<Row>, steps: seq<Step>, t: Task)
    ensures LikeTheLoop(PcOf(Run(table, steps), t), PagesOf(table, steps, t))
  {
    if steps != [] {
      var earlier := steps[..|steps| - 1];
      CallsRunTheLoop(table, earlier, t);
      StepIsLikeTheLoop(Run(table, earlier), steps[|steps| - 1], t, PagesOf(table, earlier, t));
    }
  }

  lemma {:induction false} DrainedFrom(pages: seq<Page>, first: nat, k: nat)
    requires first <= k <= |pages| && (if k == 0 then first == 0 else IsFirstKept(pages, first, k - 1))
    requires forall i :: 0 <= i < k ==> pages[i].pending != 0
    ensures IsDrain(pages, Drained(Updates(pages[first..k]), pages[k..]))
    decreases |pages| - k
  {
    if k < |pages| {
      var first' := if pages[k].reload then k else first;
      assert IsFirstKept(pages, first', k);
      OneMoreUpdate(pages, first', k);
      assert pages[k..][1..] == pages[k + 1..];
      assert Updates(pages[first'..k + 1]) == Absorb(Updates(pages[first..k]), pages[k]);
      if pages[k].pending == 0 {
        assert IsLastPage(pages, k);
      } else {
        DrainedFrom(pages, first', k + 1);
      }
    }
  }

  /** So a call that returns has the rows since its last reload flag, up to its one last page. */
  lemma ReturnedIsTheDrain(table: seq<Row>, steps: seq<Step>, t: Task)
    requires PcOf(Run(table, steps), t).Returned?
    ensures IsDrain(PagesOf(table, steps, t), Some(PcOf(Run(table, steps), t).result))
  {
    hide Run, PagesOf, Drained;
    var pages := PagesOf(table, steps, t);
    CallsRunTheLoop(table, steps, t);
    DrainedFrom(pages, 0, 0);
    assert pages[0..] == pages && Updates(pages[0..0]) == [];
  }
}
