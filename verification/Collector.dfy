/**
 The collector object. Each method is one piece of a coroutine between two awaits; its
 contract says that it makes exactly the step of the same name (the function that `Apply`
 calls for it, under the conditions of `Enabled`), so that everything proved about runs of
 steps holds of every interleaving of these methods.
 */
module CollectorObject {
  import opened Common
  import opened CollectorModel
  import opened CollectorInvariants
  import opened CollectorTheorems
  import opened CollectorMeanings

  class Collector {
    const settings: Settings

    // the store
    var runs: map<RunId, RunRow>
    var events: seq<Row>
    // the process
    var activeRunId: Option<RunId>
    var seqs: map<RunId, nat>
    var queue: seq<seq<QueuedEvent>>
    var unfinished: int
    var writer: Writer
    var runLock: Lock
    var counters: Counters
    var clients: map<nat, Client>
    var hints: seq<Body>
    // history
    ghost var malformedBodies: nat
    ghost var accepted: seq<QueuedEvent>
    ghost var settled: seq<Fate>
    ghost var closed: set<RunId>
    ghost var returned: seq<Return>
    ghost var pages: seq<PageRead>
    ghost var crashes: seq<nat>

    ghost function View(): State
      reads this
    {
      State(runs, events, activeRunId, seqs, queue, unfinished, writer, runLock, counters, clients, hints,
            malformedBodies, accepted, settled, closed, returned, pages, crashes)
    }

    constructor (settings: Settings)
      ensures View() == INIT && this.settings == settings
    {
      this.settings := settings;
      runs, events, activeRunId, seqs, queue, unfinished := map[], [], None, map[], [], 0;
      writer, runLock, counters, clients, hints := Idle, Free, ZERO, map[], [];
      malformedBodies, accepted, settled, closed, returned, pages, crashes := 0, [], [], {}, [], [], [];
    }

    /** `put_nowait`; false means the queue was full. */
    method PutNowait(batch: seq<QueuedEvent>) returns (ok: bool)
      modifies `queue, `unfinished, `accepted
      ensures ok <==> settings.queueMaxsize <= 0 || |old(queue)| < settings.queueMaxsize
      ensures ok ==> queue == old(queue) + [batch] && unfinished == old(unfinished) + 1
      ensures View() == if ok then Put(settings, old(View()), batch) else old(View())
    {
      ok := !(0 < settings.queueMaxsize <= |queue|);
      if ok {
        queue := queue + [batch];
        unfinished := unfinished + 1;
        accepted := accepted + batch;
      }
    }

    /** The validation loop of `submit`. */
    static method Validate(runId: Option<RunId>, raws: seq<Raw>)
      returns (batch: seq<QueuedEvent>, dropped: nat, idle: nat, overBatch: nat, bySource: nat, noPeer: nat,
               batchHints: seq<Body>)
      ensures Intake(batch, dropped, idle, overBatch, bySource, noPeer, batchHints) == IntakeOf(runId, raws)
      ensures if runId.Some? then CarriesAll(batch, runId.value, Bodies(Clip(raws, MAX_EVENTS_PER_BATCH))) else batch == []
    {
      batch, dropped, idle, overBatch, bySource, noPeer, batchHints := [], 0, 0, 0, 0, 0, [];
      var index := 0;
      while index < |raws|
        invariant 0 <= index <= |raws|
        invariant Intake(batch, dropped, idle, overBatch, bySource, noPeer, batchHints)
                  == IntakeOf(runId, raws[..index])
      {
        var raw := raws[index];
        assert raws[..index + 1][..index] == raws[..index];
        if index >= MAX_EVENTS_PER_BATCH {
          overBatch := overBatch + 1;
        } else {
          match raw {
            case Malformed => dropped := dropped + 1;
            case Valid(event) =>
              var synthetic := event.synthetic || event.fromPlatform;
              if synthetic && !event.synthetic { bySource := bySource + 1; }
              var peerMissing := false;
              if (event.kind == "signal" || event.kind == "trigger") && !event.hasPeer {
                peerMissing := true;
                noPeer := noPeer + 1;
              }
              if event.kind == "correlation" { batchHints := batchHints + [event]; }
              if runId.None? {
                idle := idle + 1;
              } else {
                batch := batch + [QueuedEvent(runId.value, event.kind, event.app, synthetic, peerMissing, event.payload)];
              }
          }
        }
        index := index + 1;
      }
      assert raws[..index] == raws;
      IntakeKeeps(runId, raws);
    }

    /** The counters of one `submit`, and the hints for the registry. */
    method CountIntake(kept: nat, dropped: nat, idle: nat, overBatch: nat, bySource: nat, noPeer: nat,
                       batchHints: seq<Body>)
      modifies `hints, `counters
      ensures hints == old(hints) + batchHints
      ensures counters == old(counters).(
                received := old(counters).received + kept + dropped + idle + overBatch,
                invalid := old(counters).invalid + dropped,
                overBatch := old(counters).overBatch + overBatch,
                idle := old(counters).idle + idle,
                bySource := old(counters).bySource + bySource,
                noPeer := old(counters).noPeer + noPeer,
                correlations := old(counters).correlations + |batchHints|)
    {
      hints := hints + batchHints;
      counters := counters.(
        received := counters.received + kept + dropped + idle + overBatch,
        invalid := counters.invalid + dropped,
        overBatch := counters.overBatch + overBatch,
        idle := counters.idle + idle,
        bySource := counters.bySource + bySource,
        noPeer := counters.noPeer + noPeer,
        correlations := counters.correlations + |batchHints|);
    }

    /** Returns the three figures the client is answered with. */
    method Submit(raws: seq<Raw>) returns (answer: (nat, nat, nat))
      modifies this
      ensures View() == CollectorModel.Submit(settings, old(View()), raws)
      ensures answer.0 == |accepted| - |old(accepted)|
      ensures answer.1 == counters.invalid + counters.overBatch - old(counters.invalid + counters.overBatch)
      ensures answer.2 == counters.idle - old(counters.idle)
      ensures hints == old(hints) + HintsOf(Clip(raws, MAX_EVENTS_PER_BATCH))
      // what is queued says what the bodies said
      ensures answer.0 > 0 ==>
                && activeRunId.Some? && |queue| == |old(queue)| + 1
                && CarriesAll(queue[|queue| - 1], activeRunId.value, Bodies(Clip(raws, MAX_EVENTS_PER_BATCH)))
    {
      HintsAreRegistered(activeRunId, raws);
      var batch, dropped, idle, overBatch, bySource, noPeer, batchHints := Validate(activeRunId, raws);
      ghost var t := IntakeOf(activeRunId, raws);
      CountIntake(|batch|, dropped, idle, overBatch, bySource, noPeer, batchHints);
      assert View() == Noted(old(View()), t);
      var queued := 0;
      if batch != [] {
        var ok := PutNowait(batch);
        if ok {
          queued := |batch|;
        } else {
          counters := counters.(overflow := counters.overflow + |batch|);
        }
      }
      answer := (queued, dropped + overBatch, idle);
    }

    static method CopyHint(run: RunId, hint: Body) returns (item: QueuedEvent)
      ensures item == HintEvent(run, hint) && CopyOf(item, run, hint)
    {
      item := QueuedEvent(run, "correlation", hint.app, hint.synthetic || hint.fromPlatform, false, hint.payload);
    }

    /** The event copy of a registered hint. False when nothing was kept. */
    method RegisterCorrelation(hint: Body) returns (kept: bool)
      modifies this
      ensures View() == Correlate(settings, old(View()), hint)
      ensures kept == (|accepted| == |old(accepted)| + 1)
      ensures hints == old(hints) + [hint] && counters.correlations == old(counters).correlations + 1
      ensures kept ==> exists ev :: queue == old(queue) + [[ev]] && activeRunId.Some? && CopyOf(ev, activeRunId.value, hint)
    {
      hints := hints + [hint];
      counters := counters.(received := counters.received + 1, correlations := counters.correlations + 1);
      if activeRunId.None? {
        counters := counters.(idle := counters.idle + 1);
        return false;
      }
      var item := CopyHint(activeRunId.value, hint);
      kept := PutNowait([item]);
      if !kept {
        counters := counters.(overflow := counters.overflow + 1);
      }
    }

    /** The coalescing loop of the writer. */
    method TakeBatch() returns (items: seq<QueuedEvent>, pending: nat)
      requires queue != []
      modifies `queue
      ensures Load(items, queue, pending)
              == Coalesce(settings.writeBatch, Load(old(queue)[0], old(queue)[1..], 1))
    {
      items, pending := queue[0], 1;
      queue := queue[1..];
      ghost var start := Load(items, queue, pending);
      while |items| < settings.writeBatch && queue != []
        invariant Coalesce(settings.writeBatch, Load(items, queue, pending)) == Coalesce(settings.writeBatch, start)
        decreases |queue|
      {
        items, queue, pending := items + queue[0], queue[1..], pending + 1;
      }
    }

    /** The numbering loop of `_write`. */
    method NumberRows(items: seq<QueuedEvent>) returns (rows: seq<Row>)
      modifies `seqs
      ensures Numbered(rows, seqs) == Number(old(seqs), items)
    {
      rows := [];
      for i := 0 to |items|
        invariant Numbered(rows, seqs) == Number(old(seqs), items[..i])
      {
        assert items[..i + 1][..i] == items[..i];
        var next := NextSeq(items[i].run);
        rows := rows + [Row(items[i].run, next, items[i])];
      }
      assert items[..|items|] == items;
    }

    /** The writer wakes up: take a batch, coalesce, and number the rows. */
    method WriterTake()
      requires writer.Idle? && queue != []
      modifies `queue, `seqs, `writer
      ensures View() == CollectorModel.WriterTake(settings, old(View()))
    {
      var items, pending := TakeBatch();
      var rows := NumberRows(items);
      writer := Writing(rows, pending);
    }

    method NextSeq(run: RunId) returns (next: nat)
      modifies `seqs
      ensures next == SeqOf(old(seqs), run) + 1 && seqs == old(seqs)[run := next]
    {
      next := (if run in seqs then seqs[run] else 0) + 1;
      seqs := seqs[run := next];
    }

    /** How many rows of the batch each run has. */
    static method GroupByRun(rows: seq<Row>) returns (perRun: map<RunId, nat>)
      ensures forall r :: (if r in perRun then perRun[r] else 0) == |RowsOf(rows, r)|
    {
      perRun := map[];
      for i := 0 to |rows|
        invariant forall r :: (if r in perRun then perRun[r] else 0) == |RowsOf(rows[..i], r)|
      {
        assert rows[..i + 1][..i] == rows[..i];
        var r := rows[i].run;
        perRun := perRun[r := (if r in perRun then perRun[r] else 0) + 1];
      }
      assert rows[..|rows|] == rows;
    }

    /** `event_count = event_count + n`, for the runs the batch touched. */
    static method AddCounts(runs: map<RunId, RunRow>, rows: seq<Row>) returns (after: map<RunId, RunRow>)
      ensures after == Recount(runs, rows)
    {
      var perRun := GroupByRun(rows);
      after := map r | r in runs ::
        if r in perRun then runs[r].(eventCount := runs[r].eventCount + perRun[r]) else runs[r];
      forall r | r in runs ensures after[r] == Recount(runs, rows)[r] {
        assert (if r in perRun then perRun[r] else 0) == |RowsOf(rows, r)|;
      }
    }

    /** The commit of the writer's transaction, with the counts grouped by run. */
    method WriterCommit()
      requires writer.Writing?
      modifies `events, `runs, `writer, `settled
      ensures View() == CollectorModel.WriterCommit(old(View()))
    {
      var rows := writer.rows;
      runs := AddCounts(runs, rows);
      events := events + rows;
      writer := Committed(rows, writer.pending);
      settled := settled + StoredAll(rows);
    }

    /** The `finally` of the writer's turn: one `task_done` per batch taken. */
    method TaskDone(pending: nat)
      requires 1 <= pending <= unfinished
      modifies `unfinished, `clients, `writer
      ensures View() == TasksDone(old(View()), pending)
    {
      for i := 0 to pending
        invariant unfinished == old(unfinished) - i
        invariant clients == if i > 0 && unfinished == 0
                             then map c | c in old(clients) :: old(clients)[c].(released := true)
                             else old(clients)
      {
        unfinished := unfinished - 1;
        if unfinished == 0 {
          clients := map c | c in clients :: clients[c].(released := true);
        }
      }
      writer := Idle;
    }

    method WriterFail()
      requires writer.Writing? && QueueInv(View())
      modifies this
      ensures View() == CollectorModel.WriterFail(old(View()))
    {
      var rows := writer.rows;
      counters := counters.(writeError := counters.writeError + |rows|);
      settled := settled + FailedAll(rows);
      TaskDone(writer.pending);
    }

    method WriterDone()
      requires writer.Committed? && QueueInv(View())
      modifies this
      ensures View() == CollectorModel.WriterDone(old(View()))
    {
      counters := counters.(written := counters.written + |writer.rows|);
      TaskDone(writer.pending);
    }

    /** `open_run` up to its first await. False is the 409 answer. */
    method OpenRun(force: bool, newId: RunId, now: Time) returns (ok: bool)
      requires runLock.Free? && newId !in runs
      modifies `runLock
      ensures View() == Open(old(View()), force, newId, now)
      ensures ok <==> force || activeRunId.None?
    {
      if activeRunId.Some? {
        if !force { return false; }
        runLock := Closing(activeRunId.value, false, ForOpen);
      } else {
        runLock := Inserting(newId, now);
      }
      return true;
    }

    method CloseCommit(ok: bool, now: Time)
      requires runLock.Closing?
      modifies `runs, `runLock
      ensures View() == CollectorModel.CloseCommit(old(View()), ok, now)
    {
      var run := runLock.run;
      if run !in runs {
        runLock := Free;
      } else if runs[run].active || runLock.merges {
        if ok {
          var row := runs[run];
          runs := runs[run := row.(active := false,
                                   closedAt := if row.closedAt.Some? then row.closedAt else Some(now))];
          runLock := CloseStored(run, runLock.caller);
        } else {
          runLock := Free;
        }
      } else {
        runLock := CloseStored(run, runLock.caller);
      }
    }

    /** The end of a close. The pointer no longer names the run and agrees with the active
        rows again; a close that was asked for releases the lock. */
    method CloseFinish(newId: RunId, now: Time)
      requires runLock.CloseStored? && newId !in runs
      modifies `activeRunId, `runLock, `closed, `returned
      ensures View() == CollectorModel.CloseFinish(old(View()), newId, now)
      ensures activeRunId != Some(old(runLock).run) && (activeRunId.None? || activeRunId == old(activeRunId))
      ensures RunInv(old(View())) ==> OnlyActive(View(), activeRunId)
      ensures runLock.Free? <==> old(runLock).caller.Request?
    {
      FinishAgrees(View(), newId, now);
      var run := runLock.run;
      closed := closed + {run};
      returned := returned + [Return(run, runLock.caller, |accepted|, |settled|)];
      if activeRunId == Some(run) { activeRunId := None; }
      runLock := if runLock.caller.ForOpen? then Inserting(newId, now) else Free;
    }

    /** The insert: one more row, active and with no events, and no other row touched; or
        nothing at all. When it succeeds the new run is the only active one. */
    method OpenCommit(ok: bool)
      requires runLock.Inserting?
      modifies `runs, `runLock
      ensures View() == CollectorModel.OpenCommit(old(View()), ok)
      ensures runs - {old(runLock).run} == old(runs) - {old(runLock).run} && (!ok ==> runs == old(runs))
      ensures ok && KnownInv(old(View())) && RunInv(old(View())) ==>
                && old(runLock).run !in old(runs) && EventCountInv(View()) == EventCountInv(old(View()))
                && OnlyActive(View(), Some(old(runLock).run)) && RunInv(View())
    {
      InsertAgrees(View(), ok);
      if ok {
        runs := runs[runLock.run := RunRow(true, None, runLock.startedAt, 0)];
        runLock := Inserted(runLock.run);
      } else {
        runLock := Free;
      }
    }

    /** The end of an open: the pointer is on the one active row, the first event of the run
        will get number 1, and no counter of another run moved. */
    method OpenFinish()
      requires runLock.Inserted?
      modifies `seqs, `activeRunId, `runLock
      ensures View() == CollectorModel.OpenFinish(old(View()))
      ensures activeRunId == Some(old(runLock).run)
      ensures RunInv(old(View())) && KnownInv(old(View())) ==> OnlyActive(View(), activeRunId) && RunInv(View())
      ensures forall r: RunId :: SeqOf(seqs, r) == if activeRunId == Some(r) then 0 else SeqOf(old(seqs), r)
    {
      PointerAgrees(View());
      seqs := seqs[runLock.run := 0];
      activeRunId := Some(runLock.run);
      runLock := Free;
    }

    /** The page query: the first `limit` wanted rows. */
    static method SelectPage(rows: seq<Row>, run: RunId, q: Query) returns (page: seq<Row>)
      ensures page == Page(rows, run, q)
    {
      page := [];
      var i := 0;
      while i < |rows| && |page| < q.limit
        invariant 0 <= i <= |rows|
        invariant page == Matching(rows[..i], run, q) && |page| <= q.limit
      {
        assert rows[..i + 1][..i] == rows[..i];
        if Wanted(rows[i], run, q) { page := page + [rows[i]]; }
        i := i + 1;
      }
      MatchingAppend(rows[..i], rows[i..], run, q);
      assert rows == rows[..i] + rows[i..];
      if i < |rows| { assert Matching(rows, run, q)[..q.limit] == page; }
    }

    /** `get_events`, once the join has been passed. */
    method GetEvents(client: nat) returns (page: seq<Row>, nextSeq: Option<nat>)
      requires client in clients && clients[client].released && clients[client].goal.Read?
      modifies `clients, `pages
      ensures View() == ReadPage(old(View()), client)
      ensures page == Page(events, old(clients[client].goal.run), old(clients[client].goal.query))
      ensures var goal := old(clients[client].goal);
              && |page| <= goal.query.limit
              && (forall row :: row in page ==> row in events && Asked(row, goal.run, goal.query))
              && (|page| < goal.query.limit ==>
                    forall row :: row in events && Asked(row, goal.run, goal.query) ==> row in page)
      ensures nextSeq == if page == [] then None else Some(page[|page| - 1].seqno)
    {
      var request := clients[client];
      page := SelectPage(events, request.goal.run, request.goal.query);
      SelectedRows(events, request.goal.run, request.goal.query);
      nextSeq := if page == [] then None else Some(page[|page| - 1].seqno);
      clients := clients - {client};
      pages := pages + [PageRead(request.goal.run, request.goal.query, request.mark, request.afterClose, page)];
    }

    /** `max(seq)` of a run's stored rows, 0 when there are none. */
    static method LastSeq(rows: seq<Row>, run: RunId) returns (last: nat)
      ensures last == MaxSeq(rows, run)
    {
      last := 0;
      for i := 0 to |rows|
        invariant last == MaxSeq(rows[..i], run)
      {
        assert rows[..i + 1][..i] == rows[..i];
        if rows[i].run == run && rows[i].seqno > last { last := rows[i].seqno; }
      }
      assert rows[..|rows|] == rows;
    }

    // A crash leaves the store. The memory is emptied in three parts.
    ghost method RecordLosses()
      modifies `settled, `crashes
      ensures var lost := LostAll(InTransaction(writer) + Flat(queue));
              View() == old(View()).(settled := old(settled) + lost, crashes := old(crashes) + [|old(settled) + lost|])
    {
      settled := settled + LostAll(InTransaction(writer) + Flat(queue));
      crashes := crashes + [|settled|];
    }

    method ForgetEvents()
      modifies `queue, `unfinished, `writer
      ensures View() == old(View()).(queue := [], unfinished := 0, writer := Idle)
    {
      queue, unfinished, writer := [], 0, Idle;
    }

    method ForgetRuns()
      modifies `activeRunId, `seqs, `runLock
      ensures View() == old(View()).(active := None, seqs := map[], lock := Free)
    {
      activeRunId, seqs, runLock := None, map[], Free;
    }

    method ForgetRequests()
      modifies `counters, `clients, `hints, `malformedBodies
      ensures View() == old(View()).(counters := ZERO, clients := map[], hints := [], malformedBodies := 0)
    {
      counters, clients, hints, malformedBodies := ZERO, map[], [], 0;
    }

    /** A restart: memory is gone, and `_restore_state` adopts what its query returned. */
    method Restart(first: Option<RunId>)
      requires RestorePicks(runs, first)
      modifies this
      ensures View() == Crash(old(View()), first)
    {
      RecordLosses();
      ForgetEvents();
      ForgetRuns();
      ForgetRequests();
      if first.Some? {
        activeRunId := first;
        var last := LastSeq(events, first.value);
        seqs := seqs[first.value := last];
      }
    }
  }
}
