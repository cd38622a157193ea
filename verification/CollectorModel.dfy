/**
 The collector's ingest pipeline as a state machine.

 The service runs on one event loop, so a coroutine is atomic between two of its
 awaits. Every such piece is one `Step`; what it does is `Apply`, and when the event
 loop can run it is `Enabled`. The durable store is two tables whose commits are all or
 nothing. A `Crash` wipes the memory and runs the restore code.

 The fields under "history" are not in the program: they record what was accepted, what
 became of it and what readers were given, so that the claims can speak about it.
 */
module CollectorModel {
  import opened Common

  const MAX_EVENTS_PER_BATCH: nat := 500

  type RunId = nat
  type Time = int

  // One element of a posted batch: either validation rejects it, or it is an event.
  datatype Raw = Malformed | Valid(body: Body)

  /** A validated event. `fromPlatform`: its socket peer is in a synthetic network;
      `hasPeer`: some socket peer address is usable. */
  datatype Body = Body(kind: string, app: string, synthetic: bool, fromPlatform: bool, hasPeer: bool, payload: int)

  datatype QueuedEvent =
    QueuedEvent(run: RunId, kind: string, app: string, synthetic: bool, peerMissing: bool, payload: int)

  datatype Row = Row(run: RunId, seqno: nat, ev: QueuedEvent)

  datatype RunRow = RunRow(active: bool, closedAt: Option<Time>, startedAt: Time, eventCount: nat)

  datatype Settings = Settings(queueMaxsize: int, writeBatch: int)

  datatype Counters = Counters(received: nat, invalid: nat, overBatch: nat, idle: nat, overflow: nat,
                               writeError: nat, written: nat, bySource: nat, noPeer: nat, correlations: nat)

  const ZERO := Counters(0, 0, 0, 0, 0, 0, 0, 0, 0, 0)

  /** The writer task: waiting on the queue, inside the transaction, or past the commit
      but not yet resumed. `pending` batches are owed a `task_done`. */
  datatype Writer =
    | Idle
    | Writing(rows: seq<Row>, pending: nat)
    | Committed(rows: seq<Row>, pending: nat)

  /** Who closes a run: a forced open on its way to the next run, or a request that called
      when `mark` events had been accepted. */
  datatype Caller = ForOpen | Request(mark: nat)

  /** Who holds the run lock, and how far it got. */
  datatype Lock =
    | Free
    | Closing(run: RunId, merges: bool, caller: Caller)
    | CloseStored(run: RunId, caller: Caller)
    | Inserting(run: RunId, startedAt: Time)
    | Inserted(run: RunId)

  datatype Query = Query(kind: Option<string>, after: Option<nat>, limit: nat)

  datatype Goal = Close(run: RunId, merges: bool) | Read(run: RunId, query: Query)

  /** A request waiting in `flush`. `mark`: how many events had been accepted when it
      called; `released`: the join's event has been set; `afterClose`: the run's close had
      already returned when the request was made. */
  datatype Client = Client(mark: nat, released: bool, goal: Goal, afterClose: bool)

  /** What became of an accepted event. */
  datatype Fate = Stored(row: Row) | WriteFailed(ev: QueuedEvent) | Lost(ev: QueuedEvent)

  /** A close that has run its course: how many events had been accepted and how many were
      settled at that moment. */
  datatype Return = Return(run: RunId, caller: Caller, accepted: nat, settled: nat)

  datatype PageRead = PageRead(run: RunId, query: Query, mark: nat, afterClose: bool, page: seq<Row>)

  datatype State = State(
    // durable
    runs: map<RunId, RunRow>,
    events: seq<Row>,
    // memory
    active: Option<RunId>,
    seqs: map<RunId, nat>,
    queue: seq<seq<QueuedEvent>>,
    unfinished: int,
    writer: Writer,
    lock: Lock,
    counters: Counters,
    clients: map<nat, Client>,
    hints: seq<Body>, // what was handed to the correlation registry, in order
    // history
    malformedBodies: nat,
    accepted: seq<QueuedEvent>,
    settled: seq<Fate>,
    closed: set<RunId>,
    returned: seq<Return>,
    pages: seq<PageRead>,
    crashes: seq<nat>) // how many events were settled by then, for each crash

  const INIT := State(map[], [], None, map[], [], 0, Idle, Free, ZERO, map[], [], 0, [], [], {}, [], [], [])

  // ------------------------------------------------------------------- intake

  datatype Intake = Intake(accepted: seq<QueuedEvent>, dropped: nat, idle: nat, overBatch: nat,
                           bySource: nat, noPeer: nat, hints: seq<Body>)

  const NOTHING := Intake([], 0, 0, 0, 0, 0, [])

  const CORRELATION := "correlation"

  predicate IsSignal(kind: string) { kind == "signal" || kind == "trigger" }

  function Stamp(run: RunId, b: Body): QueuedEvent {
    QueuedEvent(run, b.kind, b.app, b.synthetic || b.fromPlatform, IsSignal(b.kind) && !b.hasPeer, b.payload)
  }

  /** One turn of the validation loop of `submit`. */
  function IntakeOne(run: Option<RunId>, index: nat, raw: Raw, t: Intake): Intake {
    if index >= MAX_EVENTS_PER_BATCH then t.(overBatch := t.overBatch + 1)
    else if raw.Malformed? then t.(dropped := t.dropped + 1)
    else
      var b := raw.body;
      var u := t.(bySource := t.bySource + (if b.fromPlatform && !b.synthetic then 1 else 0),
                  noPeer := t.noPeer + (if IsSignal(b.kind) && !b.hasPeer then 1 else 0),
                  hints := if b.kind == CORRELATION then t.hints + [b] else t.hints);
      if run.None? then u.(idle := u.idle + 1)
      else u.(accepted := u.accepted + [Stamp(run.value, b)])
  }

  function IntakeOf(run: Option<RunId>, raws: seq<Raw>): Intake {
    if raws == [] then NOTHING
    else IntakeOne(run, |raws| - 1, raws[|raws| - 1], IntakeOf(run, raws[..|raws| - 1]))
  }

  predicate Full(cfg: Settings, queue: seq<seq<QueuedEvent>>) {
    0 < cfg.queueMaxsize <= |queue|
  }

  /** `put_nowait`, with the overflow counted by its caller. */
  function Put(cfg: Settings, s: State, batch: seq<QueuedEvent>): State {
    if Full(cfg, s.queue) then s.(counters := s.counters.(overflow := s.counters.overflow + |batch|))
    else s.(queue := s.queue + [batch], unfinished := s.unfinished + 1, accepted := s.accepted + batch)
  }

  /** The figures of an intake counted, and its hints registered. */
  function Noted(s: State, t: Intake): State {
    var c := s.counters;
    s.(hints := s.hints + t.hints, counters := c.(
      received := c.received + |t.accepted| + t.dropped + t.idle + t.overBatch,
      invalid := c.invalid + t.dropped,
      overBatch := c.overBatch + t.overBatch,
      idle := c.idle + t.idle,
      bySource := c.bySource + t.bySource,
      noPeer := c.noPeer + t.noPeer,
      correlations := c.correlations + |t.hints|))
  }

  function Submit(cfg: Settings, s: State, raws: seq<Raw>): State {
    var t := IntakeOf(s.active, raws);
    if t.accepted == [] then Noted(s, t) else Put(cfg, Noted(s, t), t.accepted)
  }

  /** The registration of a hint, and its event copy. */
  function Correlate(cfg: Settings, s: State, b: Body): State {
    var s1 := s.(hints := s.hints + [b],
                 counters := s.counters.(received := s.counters.received + 1,
                                         correlations := s.counters.correlations + 1));
    if s.active.None? then s1.(counters := s1.counters.(idle := s1.counters.idle + 1))
    else Put(cfg, s1, [HintEvent(s.active.value, b)])
  }

  function HintEvent(run: RunId, b: Body): QueuedEvent {
    QueuedEvent(run, CORRELATION, b.app, b.synthetic || b.fromPlatform, false, b.payload)
  }

  /** The HTTP layer counts a body it cannot parse without counting it as received. */
  function BadBody(s: State): State {
    s.(counters := s.counters.(invalid := s.counters.invalid + 1), malformedBodies := s.malformedBodies + 1)
  }

  // ------------------------------------------------------------------- writer

  datatype Load = Load(items: seq<QueuedEvent>, rest: seq<seq<QueuedEvent>>, pending: nat)

  /** The coalescing loop: whole batches, until `writeBatch` items are in hand. */
  function Coalesce(writeBatch: int, l: Load): Load
    decreases |l.rest|
  {
    if |l.items| < writeBatch && l.rest != [] then
      Coalesce(writeBatch, Load(l.items + l.rest[0], l.rest[1..], l.pending + 1))
    else l
  }

  function SeqOf(seqs: map<RunId, nat>, run: RunId): nat {
    if run in seqs then seqs[run] else 0
  }

  datatype Numbered = Numbered(rows: seq<Row>, seqs: map<RunId, nat>)

  /** The numbering loop of `_write`. */
  function Number(seqs: map<RunId, nat>, items: seq<QueuedEvent>): Numbered {
    if items == [] then Numbered([], seqs)
    else
      var n := Number(seqs, items[..|items| - 1]);
      var ev := items[|items| - 1];
      var next := SeqOf(n.seqs, ev.run) + 1;
      Numbered(n.rows + [Row(ev.run, next, ev)], n.seqs[ev.run := next])
  }

  function WriterTake(cfg: Settings, s: State): State
    requires s.queue != []
  {
    var l := Coalesce(cfg.writeBatch, Load(s.queue[0], s.queue[1..], 1));
    var n := Number(s.seqs, l.items);
    s.(queue := l.rest, seqs := n.seqs, writer := Writing(n.rows, l.pending))
  }

  function RowsOf(rows: seq<Row>, run: RunId): seq<Row> {
    if rows == [] then []
    else RowsOf(rows[..|rows| - 1], run) + (if rows[|rows| - 1].run == run then [rows[|rows| - 1]] else [])
  }

  /** `event_count = event_count + n` for each run the batch touched. */
  function Recount(runs: map<RunId, RunRow>, rows: seq<Row>): map<RunId, RunRow> {
    map r | r in runs :: runs[r].(eventCount := runs[r].eventCount + |RowsOf(rows, r)|)
  }

  function StoredAll(rows: seq<Row>): seq<Fate> {
    seq(|rows|, i requires 0 <= i < |rows| => Stored(rows[i]))
  }

  function FailedAll(rows: seq<Row>): seq<Fate> {
    seq(|rows|, i requires 0 <= i < |rows| => WriteFailed(rows[i].ev))
  }

  function LostAll(evs: seq<QueuedEvent>): seq<Fate> {
    seq(|evs|, i requires 0 <= i < |evs| => Lost(evs[i]))
  }

  function WriterCommit(s: State): State
    requires s.writer.Writing?
  {
    var rows := s.writer.rows;
    s.(events := s.events + rows, runs := Recount(s.runs, rows),
       writer := Committed(rows, s.writer.pending), settled := s.settled + StoredAll(rows))
  }

  /** `task_done` once per batch taken; the join's event is set when none is left. */
  function TasksDone(s: State, pending: nat): State {
    var left := s.unfinished - pending;
    s.(unfinished := left, writer := Idle,
       clients := if left == 0 then map c | c in s.clients :: s.clients[c].(released := true) else s.clients)
  }

  function WriterFail(s: State): State
    requires s.writer.Writing?
  {
    var rows := s.writer.rows;
    TasksDone(s.(counters := s.counters.(writeError := s.counters.writeError + |rows|),
                 settled := s.settled + FailedAll(rows)), s.writer.pending)
  }

  function WriterDone(s: State): State
    requires s.writer.Committed?
  {
    TasksDone(s.(counters := s.counters.(written := s.counters.written + |s.writer.rows|)), s.writer.pending)
  }

  // --------------------------------------------------------------------- runs

  function Open(s: State, force: bool, newId: RunId, now: Time): State {
    if s.active.None? then s.(lock := Inserting(newId, now))
    else if !force then s
    else s.(lock := Closing(s.active.value, false, ForOpen))
  }

  /** The close transaction. An unknown run returns at once; a closed run without new
      addresses needs no commit; a failed commit unwinds and releases the lock. */
  function CloseCommit(s: State, ok: bool, now: Time): State
    requires s.lock.Closing?
  {
    var r := s.lock.run;
    var stored := CloseStored(r, s.lock.caller);
    if r !in s.runs then s.(lock := Free)
    else if !s.runs[r].active && !s.lock.merges then s.(lock := stored)
    else if !ok then s.(lock := Free)
    else
      var row := s.runs[r].(active := false,
                            closedAt := if s.runs[r].closedAt.Some? then s.runs[r].closedAt else Some(now));
      s.(runs := s.runs[r := row], lock := stored)
  }

  /** Clear the pointer if it names the run; a forced open goes on to its insert. */
  function CloseFinish(s: State, newId: RunId, now: Time): State
    requires s.lock.CloseStored?
  {
    var r := s.lock.run;
    s.(active := if s.active == Some(r) then None else s.active,
       closed := s.closed + {r},
       returned := s.returned + [Return(r, s.lock.caller, |s.accepted|, |s.settled|)],
       lock := if s.lock.caller.ForOpen? then Inserting(newId, now) else Free)
  }

  function OpenCommit(s: State, ok: bool): State
    requires s.lock.Inserting?
  {
    if !ok then s.(lock := Free)
    else s.(runs := s.runs[s.lock.run := RunRow(true, None, s.lock.startedAt, 0)], lock := Inserted(s.lock.run))
  }

  function OpenFinish(s: State): State
    requires s.lock.Inserted?
  {
    s.(seqs := s.seqs[s.lock.run := 0], active := Some(s.lock.run), lock := Free)
  }

  // ----------------------------------------------------------------- requests

  function Call(s: State, c: nat, goal: Goal): State {
    s.(clients := s.clients[c := Client(|s.accepted|, s.unfinished == 0, goal, goal.run in s.closed)])
  }

  function CloseEnter(s: State, c: nat): State
    requires c in s.clients && s.clients[c].goal.Close?
  {
    var g := s.clients[c].goal;
    s.(clients := s.clients - {c}, lock := Closing(g.run, g.merges, Request(s.clients[c].mark)))
  }

  predicate Wanted(row: Row, run: RunId, q: Query) {
    && row.run == run
    && (q.kind.Some? ==> row.ev.kind == q.kind.value || (IsSignal(q.kind.value) && IsSignal(row.ev.kind)))
    && (q.after.Some? ==> row.seqno > q.after.value)
  }

  function Matching(rows: seq<Row>, run: RunId, q: Query): seq<Row> {
    if rows == [] then []
    else
      Matching(rows[..|rows| - 1], run, q)
      + (if Wanted(rows[|rows| - 1], run, q) then [rows[|rows| - 1]] else [])
  }

  /** The page query. Rows are kept in commit order; `PageIsOrdered` shows that this is
      the ascending `seq` order the query asks for. */
  function Page(rows: seq<Row>, run: RunId, q: Query): seq<Row> {
    Clip(Matching(rows, run, q), q.limit)
  }

  function ReadPage(s: State, c: nat): State
    requires c in s.clients && s.clients[c].goal.Read?
  {
    var k := s.clients[c];
    var page := Page(s.events, k.goal.run, k.goal.query);
    s.(clients := s.clients - {c},
       pages := s.pages + [PageRead(k.goal.run, k.goal.query, k.mark, k.afterClose, page)])
  }

  // -------------------------------------------------------------------- crash

  function MaxSeq(rows: seq<Row>, run: RunId): nat {
    if rows == [] then 0
    else
      var m := MaxSeq(rows[..|rows| - 1], run);
      if rows[|rows| - 1].run == run then Max(m, rows[|rows| - 1].seqno) else m
  }

  /** The row the restore query returns first: active, latest start. */
  predicate RestorePicks(runs: map<RunId, RunRow>, pick: Option<RunId>) {
    match pick
    case None => forall r :: r in runs ==> !runs[r].active
    case Some(p) =>
      && p in runs && runs[p].active
      && forall r :: r in runs && runs[r].active ==> runs[r].startedAt <= runs[p].startedAt
  }

  function EventsOfRows(rows: seq<Row>): seq<QueuedEvent> {
    seq(|rows|, i requires 0 <= i < |rows| => rows[i].ev)
  }

  function InTransaction(w: Writer): seq<QueuedEvent> {
    if w.Writing? then EventsOfRows(w.rows) else []
  }

  function Crash(s: State, pick: Option<RunId>): State {
    var lost := LostAll(InTransaction(s.writer) + Flat(s.queue));
    s.(active := pick,
       seqs := if pick.Some? then map[pick.value := MaxSeq(s.events, pick.value)] else map[],
       queue := [], unfinished := 0, writer := Idle, lock := Free, counters := ZERO, clients := map[],
       hints := [], malformedBodies := 0,
       settled := s.settled + lost,
       crashes := s.crashes + [|s.settled + lost|])
  }

  // -------------------------------------------------------------------- steps

  datatype Step =
    | SubmitStep(raws: seq<Raw>)
    | CorrelateStep(body: Body)
    | BadBodyStep
    | WriterTakeStep
    | WriterCommitStep
    | WriterFailStep
    | WriterDoneStep
    | OpenStep(force: bool, newId: RunId, now: Time)
    | CloseCommitStep(ok: bool, now: Time)
    | CloseFinishStep(newId: RunId, now: Time)
    | OpenCommitStep(ok: bool)
    | OpenFinishStep
    | CallStep(client: nat, goal: Goal)
    | CloseEnterStep(client: nat)
    | ReadPageStep(client: nat)
    | CrashStep(pick: Option<RunId>)

  predicate Enabled(s: State, step: Step) {
    match step
    case SubmitStep(_) => true
    case CorrelateStep(_) => true
    case BadBodyStep => true
    case WriterTakeStep => s.writer.Idle? && s.queue != []
    case WriterCommitStep => s.writer.Writing?
    case WriterFailStep => s.writer.Writing?
    case WriterDoneStep => s.writer.Committed?
    case OpenStep(_, newId, _) => s.lock.Free? && newId !in s.runs
    case CloseCommitStep(_, _) => s.lock.Closing?
    case CloseFinishStep(newId, _) => s.lock.CloseStored? && newId !in s.runs
    case OpenCommitStep(_) => s.lock.Inserting?
    case OpenFinishStep => s.lock.Inserted?
    case CallStep(c, _) => c !in s.clients
    case CloseEnterStep(c) => s.lock.Free? && c in s.clients && s.clients[c].released && s.clients[c].goal.Close?
    case ReadPageStep(c) => c in s.clients && s.clients[c].released && s.clients[c].goal.Read?
    case CrashStep(pick) => RestorePicks(s.runs, pick)
  }

  function Apply(cfg: Settings, s: State, step: Step): State
    requires Enabled(s, step)
  {
    match step
    case SubmitStep(raws) => Submit(cfg, s, raws)
    case CorrelateStep(b) => Correlate(cfg, s, b)
    case BadBodyStep => BadBody(s)
    case WriterTakeStep => WriterTake(cfg, s)
    case WriterCommitStep => WriterCommit(s)
    case WriterFailStep => WriterFail(s)
    case WriterDoneStep => WriterDone(s)
    case OpenStep(force, newId, now) => Open(s, force, newId, now)
    case CloseCommitStep(ok, now) => CloseCommit(s, ok, now)
    case CloseFinishStep(newId, now) => CloseFinish(s, newId, now)
    case OpenCommitStep(ok) => OpenCommit(s, ok)
    case OpenFinishStep => OpenFinish(s)
    case CallStep(c, goal) => Call(s, c, goal)
    case CloseEnterStep(c) => CloseEnter(s, c)
    case ReadPageStep(c) => ReadPage(s, c)
    case CrashStep(pick) => Crash(s, pick)
  }

  /** `steps` is a possible run of the system from `s` to `t`. */
  ghost predicate Runs(cfg: Settings, s: State, steps: seq<Step>, t: State)
    decreases |steps|
  {
    if steps == [] then s == t
    else Enabled(s, steps[0]) && Runs(cfg, Apply(cfg, s, steps[0]), steps[1..], t)
  }

  ghost predicate Reachable(cfg: Settings, s: State) {
    exists steps :: Runs(cfg, INIT, steps, s)
  }
}
