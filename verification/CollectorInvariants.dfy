/**
 What every step of the collector keeps. Each invariant has its own preservation lemma;
 `InvAlways` puts them together for every run of the system.
 */
module CollectorInvariants {
  import opened Common
  import opened CollectorModel

  // ------------------------------------------------------------ the invariants

  function EventOf(f: Fate): QueuedEvent {
    match f
    case Stored(row) => row.ev
    case WriteFailed(ev) => ev
    case Lost(ev) => ev
  }

  /** The events whose fate is settled, in the order they were accepted. */
  function Decided(fates: seq<Fate>): seq<QueuedEvent> {
    seq(|fates|, i requires 0 <= i < |fates| => EventOf(fates[i]))
  }

  function StoredRows(fates: seq<Fate>): seq<Row> {
    if fates == [] then []
    else
      StoredRows(fates[..|fates| - 1])
      + (if fates[|fates| - 1].Stored? then [fates[|fates| - 1].row] else [])
  }

  function PendingRows(w: Writer): seq<Row> { if w.Writing? then w.rows else [] }

  function Held(w: Writer): seq<Row> { if w.Idle? then [] else w.rows }

  function Owed(w: Writer): nat { if w.Idle? then 0 else w.pending }

  /** `task_done` bookkeeping: what the join counts is exactly what is queued or held. */
  ghost predicate QueueInv(s: State) {
    && s.unfinished == |s.queue| + Owed(s.writer)
    && (!s.writer.Idle? ==> s.writer.pending >= 1)
    && (forall b :: b in s.queue ==> 1 <= |b| <= MAX_EVENTS_PER_BATCH)
  }

  /** Every accepted event is settled, in the transaction or queued, in that order; the
      stored table is exactly the stored fates, in the order they were settled. */
  ghost predicate LedgerInv(s: State) {
    && s.accepted == Decided(s.settled) + InTransaction(s.writer) + Flat(s.queue)
    && s.events == StoredRows(s.settled)
  }

  /** Conservation of counts. */
  ghost predicate CountInv(s: State) {
    var c := s.counters;
    c.received + s.malformedBodies
    == c.invalid + c.overBatch + c.idle + c.overflow + c.writeError + c.written
       + |Held(s.writer)| + |Flat(s.queue)|
  }

  /** Whatever refers to a run refers to a stored one, except a run still being inserted. */
  ghost predicate KnownInv(s: State) {
    && (forall e :: e in s.accepted ==> e.run in s.runs)
    && (forall row :: row in s.events ==> row.run in s.runs)
    && s.seqs.Keys <= s.runs.Keys
    && s.closed <= s.runs.Keys
    && (s.lock.Inserting? ==> s.lock.run !in s.runs)
    && (s.lock.CloseStored? ==> s.lock.run in s.runs)
    && (s.lock.Inserted? ==>
          && s.lock.run in s.runs && s.lock.run !in s.closed
          && (forall e :: e in s.accepted ==> e.run != s.lock.run)
          && (forall row :: row in s.events ==> row.run != s.lock.run))
  }

  ghost predicate OnlyActive(s: State, r: Option<RunId>) {
    forall q :: q in s.runs ==> (s.runs[q].active <==> r == Some(q))
  }

  /** One active run. With the lock free the active rows are exactly the pointer's; while
      an open or close is under way the row and the pointer differ by that run alone. */
  ghost predicate RunInv(s: State) {
    && (s.active.Some? ==> s.active.value in s.runs && s.active.value !in s.closed)
    && (forall q :: q in s.runs ==> (s.runs[q].active <==> s.runs[q].closedAt.None?))
    && (forall q :: q in s.closed && q in s.runs ==> !s.runs[q].active)
    && match s.lock
       case Free => OnlyActive(s, s.active)
       case Closing(r, _, caller) => OnlyActive(s, s.active) && (caller.ForOpen? ==> s.active == Some(r))
       case CloseStored(r, caller) =>
         && OnlyActive(s, if s.active == Some(r) then None else s.active)
         && (caller.ForOpen? ==> s.active == Some(r))
       case Inserting(_, _) => s.active.None? && OnlyActive(s, None)
       case Inserted(r) => s.active.None? && OnlyActive(s, Some(r))
  }

  /** Rows of one run carry strictly increasing numbers in commit order. */
  ghost predicate Ascending(rows: seq<Row>) {
    forall i, j :: 0 <= i < j < |rows| && rows[i].run == rows[j].run ==> rows[i].seqno < rows[j].seqno
  }

  ghost predicate Numbered1(seqs: map<RunId, nat>, rows: seq<Row>) {
    forall row :: row in rows ==>
      row.run == row.ev.run && row.seqno >= 1 && (row.run in seqs ==> row.seqno <= seqs[row.run])
  }

  ghost predicate SeqInv(s: State) {
    && Ascending(s.events + PendingRows(s.writer))
    && Numbered1(s.seqs, s.events)
    && Numbered1(s.seqs, PendingRows(s.writer))
    && (forall row :: row in PendingRows(s.writer) ==> row.run in s.seqs)
    && (forall e :: e in Flat(s.queue) ==> e.run in s.seqs)
    && (s.active.Some? ==> s.active.value in s.seqs)
  }

  ghost predicate EventCountInv(s: State) {
    forall r :: r in s.runs ==> s.runs[r].eventCount == |RowsOf(s.events, r)|
  }

  /** No event of `run` was accepted after the first `mark`. */
  ghost predicate QuietSince(s: State, run: RunId, mark: nat) {
    forall i :: mark <= i < |s.accepted| ==> s.accepted[i].run != run
  }

  /** The join's promise, and what it means to a reader of a closed run. */
  ghost predicate ClientInv(s: State, k: Client) {
    && k.mark <= |s.accepted|
    && (k.released ==> k.mark <= |s.settled|)
    && (k.afterClose ==> k.goal.run in s.closed && QuietSince(s, k.goal.run, k.mark))
  }

  ghost predicate PageInv(s: State, p: PageRead) {
    && p.mark <= |s.settled|
    && (p.afterClose ==>
          && p.run in s.closed
          && QuietSince(s, p.run, p.mark)
          && p.page == Page(s.events, p.run, p.query))
  }

  ghost predicate ReaderInv(s: State) {
    && (forall c :: c in s.clients ==> ClientInv(s, s.clients[c]))
    && (forall p :: p in s.pages ==> PageInv(s, p))
  }

  ghost predicate Inv(s: State) {
    && QueueInv(s) && LedgerInv(s) && CountInv(s) && KnownInv(s)
    && RunInv(s) && SeqInv(s) && EventCountInv(s) && ReaderInv(s)
  }

  // ------------------------------------------------------------ facts on the pieces

  lemma {:induction false} RowsOfAppend(a: seq<Row>, b: seq<Row>, run: RunId)
    ensures RowsOf(a + b, run) == RowsOf(a, run) + RowsOf(b, run)
  {
    if b == [] {
      assert a + b == a;
    } else {
      assert (a + b)[..|a + b| - 1] == a + b[..|b| - 1];
      RowsOfAppend(a, b[..|b| - 1], run);
    }
  }

  lemma {:induction false} MatchingAppend(a: seq<Row>, b: seq<Row>, run: RunId, q: Query)
    ensures Matching(a + b, run, q) == Matching(a, run, q) + Matching(b, run, q)
  {
    if b == [] {
      assert a + b == a;
    } else {
      assert (a + b)[..|a + b| - 1] == a + b[..|b| - 1];
      MatchingAppend(a, b[..|b| - 1], run, q);
    }
  }

  lemma {:induction false} MatchingNone(rows: seq<Row>, run: RunId, q: Query)
    requires forall row :: row in rows ==> row.run != run
    ensures Matching(rows, run, q) == []
  {
    if rows != [] { MatchingNone(rows[..|rows| - 1], run, q); }
  }

  lemma {:induction false} StoredRowsAppend(a: seq<Fate>, b: seq<Fate>)
    ensures StoredRows(a + b) == StoredRows(a) + StoredRows(b)
  {
    if b == [] {
      assert a + b == a;
    } else {
      assert (a + b)[..|a + b| - 1] == a + b[..|b| - 1];
      StoredRowsAppend(a, b[..|b| - 1]);
    }
  }

  lemma {:induction false} StoredRowsOfStored(rows: seq<Row>)
    ensures StoredRows(StoredAll(rows)) == rows
  {
    if rows != [] {
      var init := rows[..|rows| - 1];
      assert StoredAll(rows)[..|rows| - 1] == StoredAll(init);
      StoredRowsOfStored(init);
      assert rows == init + [rows[|rows| - 1]];
    }
  }

  lemma {:induction false} StoredRowsNone(fates: seq<Fate>)
    requires forall f :: f in fates ==> !f.Stored?
    ensures StoredRows(fates) == []
  {
    if fates != [] { StoredRowsNone(fates[..|fates| - 1]); }
  }

  lemma {:induction false} MaxSeqBounds(rows: seq<Row>, run: RunId)
    ensures forall row :: row in rows && row.run == run ==> row.seqno <= MaxSeq(rows, run)
  {
    if rows != [] {
      MaxSeqBounds(rows[..|rows| - 1], run);
      assert rows == rows[..|rows| - 1] + [rows[|rows| - 1]];
    }
  }

  /** Adding one row numbered above everything its run has used so far. */
  lemma AscendingOneMore(seqs: map<RunId, nat>, rows: seq<Row>, row: Row)
    requires Ascending(rows) && Numbered1(seqs, rows)
    requires forall r :: r in rows ==> r.run in seqs
    requires row.seqno > SeqOf(seqs, row.run)
    ensures Ascending(rows + [row])
  {
    var all := rows + [row];
    forall i, j | 0 <= i < j < |all| && all[i].run == all[j].run ensures all[i].seqno < all[j].seqno {
      if j == |rows| { assert rows[i] in rows; }
    }
  }

  /** The numbering loop keeps the events and their order ... */
  lemma {:induction false} NumberKeepsEvents(seqs: map<RunId, nat>, items: seq<QueuedEvent>)
    ensures EventsOfRows(Number(seqs, items).rows) == items
  {
    if items != [] {
      var init := items[..|items| - 1];
      NumberKeepsEvents(seqs, init);
      assert items == init + [items[|items| - 1]];
      var ev := items[|items| - 1];
      var n0 := Number(seqs, init);
      assert EventsOfRows(n0.rows + [Row(ev.run, SeqOf(n0.seqs, ev.run) + 1, ev)]) == EventsOfRows(n0.rows) + [ev];
    }
  }

  /** ... and hands out new, increasing numbers per run. */
  lemma {:induction false} NumberFacts(seqs: map<RunId, nat>, items: seq<QueuedEvent>)
    ensures NumberedFrom(seqs, Number(seqs, items))
  {
    if items != [] {
      var init, ev := items[..|items| - 1], items[|items| - 1];
      NumberFacts(seqs, init);
      NumberOneMore(seqs, Number(seqs, init), ev);
    }
  }

  ghost predicate NumberedFrom(seqs: map<RunId, nat>, n: Numbered) {
    && Ascending(n.rows)
    && Numbered1(n.seqs, n.rows)
    && (forall row :: row in n.rows ==> row.run in n.seqs && row.seqno > SeqOf(seqs, row.run))
    && n.seqs.Keys >= seqs.Keys
    && (forall r :: r in seqs ==> seqs[r] <= n.seqs[r])
  }

  lemma NumberOneMore(seqs: map<RunId, nat>, n: Numbered, ev: QueuedEvent)
    requires NumberedFrom(seqs, n)
    ensures var next := SeqOf(n.seqs, ev.run) + 1;
            NumberedFrom(seqs, Numbered(n.rows + [Row(ev.run, next, ev)], n.seqs[ev.run := next]))
  {
    AscendingOneMore(n.seqs, n.rows, Row(ev.run, SeqOf(n.seqs, ev.run) + 1, ev));
  }

  lemma {:induction false} NumberKeys(seqs: map<RunId, nat>, items: seq<QueuedEvent>)
    requires forall e :: e in items ==> e.run in seqs
    ensures Number(seqs, items).seqs.Keys == seqs.Keys
  {
    if items != [] {
      NumberKeys(seqs, items[..|items| - 1]);
      assert items[|items| - 1] in items;
    }
  }

  /** The coalescing loop only moves whole batches from the queue into the hand. */
  lemma {:induction false} CoalesceFacts(writeBatch: int, l: Load)
    requires forall b :: b in l.rest ==> |b| <= MAX_EVENTS_PER_BATCH
    ensures var m := Coalesce(writeBatch, l);
            && m.items + Flat(m.rest) == l.items + Flat(l.rest)
            && m.pending + |m.rest| == l.pending + |l.rest|
            && m.pending >= l.pending
            && (forall b :: b in m.rest ==> b in l.rest)
            && |m.items| <= Max(|l.items|, writeBatch + MAX_EVENTS_PER_BATCH - 1)
    decreases |l.rest|
  {
    if |l.items| < writeBatch && l.rest != [] {
      var next := Load(l.items + l.rest[0], l.rest[1..], l.pending + 1);
      assert l.rest[0] in l.rest;
      CoalesceFacts(writeBatch, next);
      assert next.items + Flat(next.rest) == l.items + Flat(l.rest);
    }
  }

  lemma {:induction false} IntakeFacts(run: Option<RunId>, raws: seq<Raw>)
    ensures var t := IntakeOf(run, raws);
            && |t.accepted| + t.dropped + t.idle + t.overBatch == |raws|
            && |t.accepted| <= MAX_EVENTS_PER_BATCH
            && |t.accepted| <= |raws|
            && (forall e :: e in t.accepted ==> run == Some(e.run))
  {
    if raws != [] { IntakeFacts(run, raws[..|raws| - 1]); }
  }

  // ------------------------------------------------------------ the batch entering the queue

  /** How `Submit` and `Correlate` change what the invariants look at. */
  lemma PutFacts(cfg: Settings, s: State, batch: seq<QueuedEvent>)
    ensures var t := Put(cfg, s, batch);
            && Flat(t.queue) == (if Full(cfg, s.queue) then Flat(s.queue) else Flat(s.queue) + batch)
            && t.accepted == (if Full(cfg, s.queue) then s.accepted else s.accepted + batch)
  {
    FlatAppend(s.queue, [batch]);
    FlatOne(batch);
  }

  /** A submit or a correlation changes counters, and at most appends one batch of events
      of the active run to the queue. */
  ghost predicate Intaken(s: State, t: State, batch: seq<QueuedEvent>) {
    && t == s.(queue := t.queue, unfinished := t.unfinished, accepted := t.accepted, counters := t.counters,
               hints := t.hints)
    && t.accepted == s.accepted + batch
    && Flat(t.queue) == Flat(s.queue) + batch
    && |batch| <= MAX_EVENTS_PER_BATCH
    && (if batch == [] then t.queue == s.queue && t.unfinished == s.unfinished
        else t.queue == s.queue + [batch] && t.unfinished == s.unfinished + 1)
    && (forall e :: e in batch ==> s.active == Some(e.run))
  }

  lemma SubmitIntakes(cfg: Settings, s: State, raws: seq<Raw>) returns (batch: seq<QueuedEvent>)
    ensures Intaken(s, Submit(cfg, s, raws), batch)
    ensures CountInv(s) ==> CountInv(Submit(cfg, s, raws))
  {
    IntakeFacts(s.active, raws);
    var t := IntakeOf(s.active, raws);
    var s1 := s.(hints := s.hints + t.hints, counters := s.counters.(
      received := s.counters.received + |t.accepted| + t.dropped + t.idle + t.overBatch,
      invalid := s.counters.invalid + t.dropped,
      overBatch := s.counters.overBatch + t.overBatch,
      idle := s.counters.idle + t.idle,
      bySource := s.counters.bySource + t.bySource,
      noPeer := s.counters.noPeer + t.noPeer,
      correlations := s.counters.correlations + |t.hints|));
    PutFacts(cfg, s1, t.accepted);
    batch := if Full(cfg, s.queue) then [] else t.accepted;
  }

  lemma CorrelateIntakes(cfg: Settings, s: State, b: Body) returns (batch: seq<QueuedEvent>)
    ensures Intaken(s, Correlate(cfg, s, b), batch)
    ensures CountInv(s) ==> CountInv(Correlate(cfg, s, b))
  {
    if s.active.None? {
      batch := [];
    } else {
      var one := [HintEvent(s.active.value, b)];
      PutFacts(cfg, s.(hints := s.hints + [b],
                       counters := s.counters.(received := s.counters.received + 1,
                                               correlations := s.counters.correlations + 1)), one);
      batch := if Full(cfg, s.queue) then [] else one;
    }
  }

  lemma Intakes(cfg: Settings, s: State, step: Step) returns (batch: seq<QueuedEvent>)
    requires step.SubmitStep? || step.CorrelateStep?
    ensures Intaken(s, Apply(cfg, s, step), batch)
    ensures CountInv(s) ==> CountInv(Apply(cfg, s, step))
  {
    if step.SubmitStep? {
      batch := SubmitIntakes(cfg, s, step.raws);
    } else {
      batch := CorrelateIntakes(cfg, s, step.body);
    }
  }

  /** How `WriterTake` changes what the invariants look at. */
  lemma TakeFacts(cfg: Settings, s: State)
    requires QueueInv(s) && s.writer.Idle? && s.queue != []
    ensures var t := WriterTake(cfg, s);
            && t.writer.Writing?
            && InTransaction(t.writer) + Flat(t.queue) == Flat(s.queue)
            && |t.writer.rows| == |InTransaction(t.writer)|
            && t.writer.pending + |t.queue| == |s.queue| && t.writer.pending >= 1
            && (forall b :: b in t.queue ==> b in s.queue)
            && |t.writer.rows| <= Max(1, cfg.writeBatch) + MAX_EVENTS_PER_BATCH - 1
  {
    var start := Load(s.queue[0], s.queue[1..], 1);
    assert s.queue[0] in s.queue;
    CoalesceFacts(cfg.writeBatch, start);
    NumberKeepsEvents(s.seqs, Coalesce(cfg.writeBatch, start).items);
  }

  // ------------------------------------------------------------ preservation

  lemma QueueStep(cfg: Settings, s: State, step: Step)
    requires Enabled(s, step) && QueueInv(s)
    ensures QueueInv(Apply(cfg, s, step))
  {
    if Control(step) {
      ControlFrame(cfg, s, step);
    } else if step.SubmitStep? || step.CorrelateStep? {
      var batch := Intakes(cfg, s, step);
    } else if step.WriterTakeStep? {
      TakeFacts(cfg, s);
    }
  }

  lemma DecidedAppend(a: seq<Fate>, b: seq<Fate>)
    ensures Decided(a + b) == Decided(a) + Decided(b)
  {}

  /** Settling the rows of the transaction, one way or the other. */
  lemma LedgerSettles(s: State, rows: seq<Row>, fates: seq<Fate>)
    requires LedgerInv(s) && s.writer.Writing? && s.writer.rows == rows && Decided(fates) == EventsOfRows(rows)
    ensures s.accepted == Decided(s.settled + fates) + Flat(s.queue)
    ensures StoredRows(s.settled + fates) == s.events + StoredRows(fates)
  {
    DecidedAppend(s.settled, fates);
    StoredRowsAppend(s.settled, fates);
  }

  lemma LedgerCommit(s: State)
    requires s.writer.Writing? && LedgerInv(s)
    ensures LedgerInv(WriterCommit(s))
  {
    var rows := s.writer.rows;
    assert Decided(StoredAll(rows)) == EventsOfRows(rows);
    LedgerSettles(s, rows, StoredAll(rows));
    StoredRowsOfStored(rows);
    assert InTransaction(WriterCommit(s).writer) == [];
  }

  lemma LedgerFail(s: State)
    requires s.writer.Writing? && LedgerInv(s)
    ensures LedgerInv(WriterFail(s))
  {
    var rows := s.writer.rows;
    assert Decided(FailedAll(rows)) == EventsOfRows(rows);
    LedgerSettles(s, rows, FailedAll(rows));
    StoredRowsNone(FailedAll(rows));
  }

  lemma LedgerCrash(s: State, pick: Option<RunId>)
    requires LedgerInv(s)
    ensures LedgerInv(Crash(s, pick))
  {
    var lost := InTransaction(s.writer) + Flat(s.queue);
    AllLost(s.settled, lost);
    var d, a, b := Decided(s.settled), InTransaction(s.writer), Flat(s.queue);
    assert d + a + b == d + (a + b);
    var t := Crash(s, pick);
    assert t.accepted == Decided(t.settled);
    assert InTransaction(t.writer) == [] && Flat(t.queue) == [];
  }

  lemma AllLost(fates: seq<Fate>, lost: seq<QueuedEvent>)
    ensures Decided(fates + LostAll(lost)) == Decided(fates) + lost
    ensures StoredRows(fates + LostAll(lost)) == StoredRows(fates)
  {
    DecidedAppend(fates, LostAll(lost));
    assert Decided(LostAll(lost)) == lost;
    StoredRowsAppend(fates, LostAll(lost));
    StoredRowsNone(LostAll(lost));
  }

  /** Steps of the lock, of requests and of readers: they move no event. */
  predicate Control(step: Step) {
    || step.OpenStep? || step.CloseCommitStep? || step.CloseFinishStep? || step.OpenCommitStep? || step.OpenFinishStep?
    || step.CallStep? || step.CloseEnterStep? || step.ReadPageStep?
  }

  ghost predicate EventsUntouched(s: State, t: State) {
    && t.events == s.events && t.queue == s.queue && t.unfinished == s.unfinished && t.writer == s.writer
    && t.counters == s.counters && t.malformedBodies == s.malformedBodies
    && t.accepted == s.accepted && t.settled == s.settled && t.hints == s.hints
  }

  lemma ControlFrame(cfg: Settings, s: State, step: Step)
    requires Enabled(s, step) && Control(step)
    ensures EventsUntouched(s, Apply(cfg, s, step))
  {}

  lemma LedgerStep(cfg: Settings, s: State, step: Step)
    requires Enabled(s, step) && QueueInv(s) && LedgerInv(s)
    ensures LedgerInv(Apply(cfg, s, step))
  {
    if Control(step) {
      ControlFrame(cfg, s, step);
    } else if step.SubmitStep? || step.CorrelateStep? {
      var batch := Intakes(cfg, s, step);
      LedgerIntake(s, Apply(cfg, s, step), batch);
    } else {
      LedgerWriter(cfg, s, step);
    }
  }

  lemma LedgerWriter(cfg: Settings, s: State, step: Step)
    requires Enabled(s, step) && QueueInv(s) && LedgerInv(s)
    requires !Control(step) && !step.SubmitStep? && !step.CorrelateStep?
    ensures LedgerInv(Apply(cfg, s, step))
  {
    match step {
      case WriterTakeStep => LedgerTake(cfg, s);
      case WriterCommitStep => LedgerCommit(s);
      case WriterFailStep => LedgerFail(s);
      case WriterDoneStep => assert InTransaction(s.writer) == [];
      case CrashStep(pick) => LedgerCrash(s, pick);
      case BadBodyStep =>
    }
  }

  lemma LedgerIntake(s: State, t: State, batch: seq<QueuedEvent>)
    requires Intaken(s, t, batch) && LedgerInv(s)
    ensures LedgerInv(t)
  {
    var before := Decided(s.settled) + InTransaction(s.writer);
    assert (before + Flat(s.queue)) + batch == before + (Flat(s.queue) + batch);
  }

  lemma LedgerTake(cfg: Settings, s: State)
    requires s.writer.Idle? && s.queue != [] && QueueInv(s) && LedgerInv(s)
    ensures LedgerInv(WriterTake(cfg, s))
  {
    TakeFacts(cfg, s);
    var t := WriterTake(cfg, s);
    assert t.accepted == s.accepted && t.settled == s.settled && t.events == s.events;
    Regroup(Decided(s.settled), InTransaction(t.writer), Flat(t.queue), Flat(s.queue));
    assert InTransaction(s.writer) == [];
  }

  lemma Regroup(d: seq<QueuedEvent>, a: seq<QueuedEvent>, b: seq<QueuedEvent>, c: seq<QueuedEvent>)
    requires a + b == c
    ensures d + a + b == d + [] + c
  {
    assert d + a + b == d + (a + b);
    assert d + [] == d;
  }

  lemma CountStep(cfg: Settings, s: State, step: Step)
    requires Enabled(s, step) && QueueInv(s) && CountInv(s)
    ensures CountInv(Apply(cfg, s, step))
  {
    if Control(step) {
      ControlFrame(cfg, s, step);
    } else if step.SubmitStep? || step.CorrelateStep? {
      var batch := Intakes(cfg, s, step);
    } else if step.WriterTakeStep? {
      TakeFacts(cfg, s);
    }
  }

  lemma InHandIsAccepted(s: State)
    requires LedgerInv(s)
    ensures forall row :: row in PendingRows(s.writer) ==> row.ev in s.accepted
    ensures forall e :: e in Flat(s.queue) ==> e in s.accepted
  {
    forall row | row in PendingRows(s.writer) ensures row.ev in s.accepted {
      var i :| 0 <= i < |s.writer.rows| && s.writer.rows[i] == row;
      assert InTransaction(s.writer)[i] == row.ev;
    }
  }

  lemma KnownStep(cfg: Settings, s: State, step: Step)
    requires Enabled(s, step) && QueueInv(s) && LedgerInv(s) && KnownInv(s) && RunInv(s) && SeqInv(s)
    ensures KnownInv(Apply(cfg, s, step))
  {
    match step {
      case SubmitStep(_) => var batch := Intakes(cfg, s, step); KnownIntake(s, Apply(cfg, s, step), batch);
      case CorrelateStep(_) => var batch := Intakes(cfg, s, step); KnownIntake(s, Apply(cfg, s, step), batch);
      case WriterTakeStep => KnownTake(cfg, s);
      case WriterCommitStep => KnownCommit(s);
      case CrashStep(pick) => KnownCrash(s, pick);
      case _ => if Control(step) { KnownControl(cfg, s, step); } else { KnownOther(cfg, s, step); }
    }
  }

  lemma KnownTake(cfg: Settings, s: State)
    requires s.writer.Idle? && s.queue != [] && QueueInv(s) && SeqInv(s) && KnownInv(s)
    ensures KnownInv(WriterTake(cfg, s))
  {
    TakeSeqs(cfg, s);
  }

  lemma KnownCrash(s: State, pick: Option<RunId>)
    requires KnownInv(s) && RestorePicks(s.runs, pick)
    ensures KnownInv(Crash(s, pick))
  {}

  lemma KnownOther(cfg: Settings, s: State, step: Step)
    requires Enabled(s, step) && (step.BadBodyStep? || step.WriterFailStep? || step.WriterDoneStep?) && KnownInv(s)
    ensures KnownInv(Apply(cfg, s, step))
  {}

  lemma KnownControl(cfg: Settings, s: State, step: Step)
    requires Enabled(s, step) && Control(step) && KnownInv(s) && RunInv(s)
    ensures KnownInv(Apply(cfg, s, step))
  {}

  lemma KnownIntake(s: State, t: State, batch: seq<QueuedEvent>)
    requires Intaken(s, t, batch) && KnownInv(s) && RunInv(s)
    ensures KnownInv(t)
  {
    forall e | e in t.accepted ensures e in s.accepted || e in batch {}
  }

  lemma KnownCommit(s: State)
    requires s.writer.Writing? && LedgerInv(s) && KnownInv(s) && SeqInv(s)
    ensures KnownInv(WriterCommit(s))
  {
    InHandIsAccepted(s);
    var rows := s.writer.rows;
    forall row | row in s.events + rows ensures row in s.events || row in PendingRows(s.writer) {}
  }

  /** What `RunInv` looks at. */
  ghost predicate SameRuns(s: State, t: State) {
    && t.active == s.active && t.closed == s.closed && t.lock == s.lock && t.runs.Keys == s.runs.Keys
    && forall q :: q in s.runs ==> t.runs[q].active == s.runs[q].active && t.runs[q].closedAt == s.runs[q].closedAt
  }

  lemma DataFrame(cfg: Settings, s: State, step: Step)
    requires Enabled(s, step) && !Control(step) && !step.CrashStep?
    ensures SameRuns(s, Apply(cfg, s, step))
  {
    if step.SubmitStep? || step.CorrelateStep? { var batch := Intakes(cfg, s, step); }
  }

  lemma RunFrame(s: State, t: State)
    requires RunInv(s) && SameRuns(s, t)
    ensures RunInv(t)
  {}

  lemma RunCrash(s: State, pick: Option<RunId>)
    requires RunInv(s) && RestorePicks(s.runs, pick)
    ensures RunInv(Crash(s, pick))
  {}

  lemma RunClose(s: State, ok: bool, now: Time)
    requires s.lock.Closing? && RunInv(s)
    ensures RunInv(CloseCommit(s, ok, now))
  {}

  lemma RunClosed(s: State, newId: RunId, now: Time)
    requires s.lock.CloseStored? && RunInv(s)
    ensures RunInv(CloseFinish(s, newId, now))
  {}

  lemma RunInsert(s: State, ok: bool)
    requires s.lock.Inserting? && KnownInv(s) && RunInv(s)
    ensures RunInv(OpenCommit(s, ok))
  {}

  lemma RunControl(cfg: Settings, s: State, step: Step)
    requires Enabled(s, step) && KnownInv(s) && RunInv(s) && Control(step)
    ensures RunInv(Apply(cfg, s, step))
  {
    match step {
      case CloseCommitStep(ok, now) => RunClose(s, ok, now);
      case CloseFinishStep(newId, now) => RunClosed(s, newId, now);
      case OpenCommitStep(ok) => RunInsert(s, ok);
      case _ =>
    }
  }

  lemma RunStep(cfg: Settings, s: State, step: Step)
    requires Enabled(s, step) && KnownInv(s) && RunInv(s)
    ensures RunInv(Apply(cfg, s, step))
  {
    if Control(step) {
      RunControl(cfg, s, step);
    } else if step.CrashStep? {
      RunCrash(s, step.pick);
    } else {
      DataFrame(cfg, s, step);
      RunFrame(s, Apply(cfg, s, step));
    }
  }

  /** The sequence bookkeeping of a take, before it is joined with the stored rows. */
  lemma TakeSeqs(cfg: Settings, s: State)
    requires s.writer.Idle? && s.queue != [] && QueueInv(s)
    requires forall e :: e in Flat(s.queue) ==> e.run in s.seqs
    ensures var t := WriterTake(cfg, s);
            && Ascending(t.writer.rows)
            && Numbered1(t.seqs, t.writer.rows)
            && t.seqs.Keys == s.seqs.Keys
            && (forall row :: row in t.writer.rows ==> row.run in s.seqs && row.seqno > s.seqs[row.run])
            && (forall r :: r in s.seqs ==> s.seqs[r] <= t.seqs[r])
            && (forall e :: e in Flat(t.queue) ==> e in Flat(s.queue))
  {
    TakeFacts(cfg, s);
    var t := WriterTake(cfg, s);
    var items := Coalesce(cfg.writeBatch, Load(s.queue[0], s.queue[1..], 1)).items;
    NumberFacts(s.seqs, items);
    NumberKeepsEvents(s.seqs, items);
    assert items + Flat(t.queue) == Flat(s.queue);
    forall e | e in items ensures e.run in s.seqs { assert e in Flat(s.queue); }
    NumberKeys(s.seqs, items);
  }

  /** Numbers above everything used so far may follow the stored rows. */
  lemma AscendingJoin(seqs: map<RunId, nat>, a: seq<Row>, b: seq<Row>)
    requires Ascending(a) && Ascending(b) && Numbered1(seqs, a)
    requires forall row :: row in b ==> row.run in seqs && row.seqno > seqs[row.run]
    ensures Ascending(a + b)
  {
    var all := a + b;
    forall i, j | 0 <= i < j < |all| && all[i].run == all[j].run ensures all[i].seqno < all[j].seqno {
      if i < |a| <= j {
        assert a[i] in a && b[j - |a|] in b;
      }
    }
  }

  lemma SeqTake(cfg: Settings, s: State)
    requires s.writer.Idle? && s.queue != [] && QueueInv(s) && SeqInv(s)
    ensures SeqInv(WriterTake(cfg, s))
  {
    TakeSeqs(cfg, s);
    assert s.events + PendingRows(s.writer) == s.events;
    AscendingJoin(s.seqs, s.events, WriterTake(cfg, s).writer.rows);
  }

  lemma SeqCommit(s: State)
    requires s.writer.Writing? && SeqInv(s)
    ensures SeqInv(WriterCommit(s))
  {
    assert s.events + s.writer.rows + [] == s.events + s.writer.rows;
    forall row | row in s.events + s.writer.rows ensures row in s.events || row in PendingRows(s.writer) {}
  }

  lemma SeqFail(s: State)
    requires s.writer.Writing? && SeqInv(s)
    ensures SeqInv(WriterFail(s))
  {
    AscendingPrefix(s.events, s.writer.rows);
    assert s.events + [] == s.events;
  }

  lemma SeqOpen(s: State)
    requires s.lock.Inserted? && LedgerInv(s) && KnownInv(s) && SeqInv(s)
    ensures SeqInv(OpenFinish(s))
  {
    InHandIsAccepted(s);
  }

  /** After a crash the counter restarts at the largest stored number of the run. */
  lemma SeqCrash(s: State, pick: Option<RunId>)
    requires SeqInv(s)
    ensures SeqInv(Crash(s, pick))
  {
    AscendingPrefix(s.events, PendingRows(s.writer));
    assert s.events + [] == s.events;
    if pick.Some? { MaxSeqBounds(s.events, pick.value); }
  }

  lemma SeqIntake(s: State, t: State, batch: seq<QueuedEvent>)
    requires Intaken(s, t, batch) && SeqInv(s)
    ensures SeqInv(t)
  {
    forall e | e in Flat(t.queue) ensures e in Flat(s.queue) || e in batch {}
  }

  lemma SeqStep(cfg: Settings, s: State, step: Step)
    requires Enabled(s, step) && QueueInv(s) && LedgerInv(s) && KnownInv(s) && SeqInv(s)
    ensures SeqInv(Apply(cfg, s, step))
  {
    match step {
      case SubmitStep(_) => var batch := Intakes(cfg, s, step); SeqIntake(s, Apply(cfg, s, step), batch);
      case CorrelateStep(_) => var batch := Intakes(cfg, s, step); SeqIntake(s, Apply(cfg, s, step), batch);
      case WriterTakeStep => SeqTake(cfg, s);
      case WriterCommitStep => SeqCommit(s);
      case WriterFailStep => SeqFail(s);
      case OpenFinishStep => SeqOpen(s);
      case CrashStep(pick) => SeqCrash(s, pick);
      case _ => SeqOther(cfg, s, step);
    }
  }

  lemma SeqFrame(s: State, t: State)
    requires SeqInv(s) && t.events == s.events && t.queue == s.queue && t.seqs == s.seqs
    requires PendingRows(t.writer) == PendingRows(s.writer) && (t.active.None? || t.active == s.active)
    ensures SeqInv(t)
  {}

  lemma SeqOther(cfg: Settings, s: State, step: Step)
    requires Enabled(s, step) && SeqInv(s)
    requires (Control(step) && !step.OpenFinishStep?) || step.BadBodyStep? || step.WriterDoneStep?
    ensures SeqInv(Apply(cfg, s, step))
  {
    if Control(step) { ControlFrame(cfg, s, step); }
    SeqFrame(s, Apply(cfg, s, step));
  }

  lemma AscendingPrefix(a: seq<Row>, b: seq<Row>)
    requires Ascending(a + b)
    ensures Ascending(a)
  {
    forall i, j | 0 <= i < j < |a| && a[i].run == a[j].run ensures a[i].seqno < a[j].seqno {
      assert (a + b)[i] == a[i] && (a + b)[j] == a[j];
    }
  }

  lemma {:induction false} RowsOfNone(rows: seq<Row>, run: RunId)
    requires forall row :: row in rows ==> row.run != run
    ensures RowsOf(rows, run) == []
  {
    if rows != [] { RowsOfNone(rows[..|rows| - 1], run); }
  }

  lemma EventCountStep(cfg: Settings, s: State, step: Step)
    requires Enabled(s, step) && KnownInv(s) && EventCountInv(s)
    ensures EventCountInv(Apply(cfg, s, step))
  {
    if step.SubmitStep? || step.CorrelateStep? {
      var batch := Intakes(cfg, s, step);
    } else if step.WriterCommitStep? {
      forall r | r in s.runs
        ensures |RowsOf(s.events + s.writer.rows, r)| == s.runs[r].eventCount + |RowsOf(s.writer.rows, r)|
      {
        RowsOfAppend(s.events, s.writer.rows, r);
      }
    } else if step.OpenCommitStep? {
      RowsOfNone(s.events, s.lock.run);
    }
  }

  /** Steps that accept, store and settle nothing keep every reader's promise. */
  lemma ReadersKept(s: State, t: State)
    requires ReaderInv(s)
    requires t.events == s.events && t.accepted == s.accepted && |t.settled| >= |s.settled| && t.closed >= s.closed
    requires t.pages == s.pages && t.clients.Keys <= s.clients.Keys
    requires forall c :: c in t.clients ==> t.clients[c] == s.clients[c]
    ensures ReaderInv(t)
  {
    forall c | c in t.clients ensures ClientInv(t, t.clients[c]) { assert ClientInv(s, s.clients[c]); }
    forall p | p in t.pages ensures PageInv(t, p) { assert PageInv(s, p); }
  }

  /** Releasing the joins is right when nothing is queued or held: all is settled. */
  lemma ReadersReleased(s: State, fates: seq<Fate>, pending: nat, c: Counters)
    requires ReaderInv(s)
    requires s.unfinished == pending ==> |s.settled + fates| == |s.accepted|
    ensures ReaderInv(TasksDone(s.(counters := c, settled := s.settled + fates), pending))
  {
    var t := TasksDone(s.(counters := c, settled := s.settled + fates), pending);
    forall k | k in t.clients ensures ClientInv(t, t.clients[k]) { assert ClientInv(s, s.clients[k]); }
    forall p | p in t.pages ensures PageInv(t, p) { assert PageInv(s, p); }
  }

  lemma FinishedMeansSettled(s: State, owed: nat)
    requires LedgerInv(s) && QueueInv(s) && owed == Owed(s.writer) && s.unfinished == owed
    ensures |s.accepted| == |s.settled| + |InTransaction(s.writer)|
  {
    assert Flat(s.queue) == [];
  }

  lemma ReadersAfterFail(s: State)
    requires s.writer.Writing? && QueueInv(s) && LedgerInv(s) && ReaderInv(s)
    ensures ReaderInv(WriterFail(s))
  {
    if s.unfinished == s.writer.pending { FinishedMeansSettled(s, s.writer.pending); }
    var rows, c := s.writer.rows, s.counters;
    ReadersReleased(s, FailedAll(rows), s.writer.pending, c.(writeError := c.writeError + |rows|));
  }

  lemma ReadersAfterDone(s: State)
    requires s.writer.Committed? && QueueInv(s) && LedgerInv(s) && ReaderInv(s)
    ensures ReaderInv(WriterDone(s))
  {
    if s.unfinished == s.writer.pending { FinishedMeansSettled(s, s.writer.pending); }
    var rows, c := s.writer.rows, s.counters;
    assert s.settled + [] == s.settled;
    ReadersReleased(s, [], s.writer.pending, c.(written := c.written + |rows|));
  }

  /** A new request: its join may be released at once, and a closed run stays quiet. */
  lemma ReadersAfterCall(s: State, c: nat, goal: Goal)
    requires c !in s.clients && QueueInv(s) && LedgerInv(s) && ReaderInv(s)
    ensures ReaderInv(Call(s, c, goal))
  {
    var t := Call(s, c, goal);
    if s.unfinished == 0 { FinishedMeansSettled(s, 0); }
    forall k | k in t.clients ensures ClientInv(t, t.clients[k]) {
      if k != c { assert ClientInv(s, s.clients[k]); }
    }
    forall p | p in t.pages ensures PageInv(t, p) { assert PageInv(s, p); }
  }

  lemma ReadersAfterPage(s: State, c: nat)
    requires c in s.clients && s.clients[c].released && s.clients[c].goal.Read? && ReaderInv(s)
    ensures ReaderInv(ReadPage(s, c))
  {
    var t, k := ReadPage(s, c), s.clients[c];
    assert ClientInv(s, k);
    forall j | j in t.clients ensures ClientInv(t, t.clients[j]) { assert ClientInv(s, s.clients[j]); }
    forall p | p in t.pages ensures PageInv(t, p) {
      if p in s.pages { assert PageInv(s, p); }
    }
  }

  lemma ReaderStep(cfg: Settings, s: State, step: Step)
    requires Enabled(s, step) && QueueInv(s) && LedgerInv(s) && RunInv(s) && SeqInv(s) && ReaderInv(s)
    ensures ReaderInv(Apply(cfg, s, step))
  {
    match step {
      case SubmitStep(_) => var batch := Intakes(cfg, s, step); QuietAfterIntake(s, Apply(cfg, s, step), batch);
      case CorrelateStep(_) => var batch := Intakes(cfg, s, step); QuietAfterIntake(s, Apply(cfg, s, step), batch);
      case WriterCommitStep => PagesAfterCommit(s);
      case WriterFailStep => ReadersAfterFail(s);
      case WriterDoneStep => ReadersAfterDone(s);
      case CallStep(c, goal) => ReadersAfterCall(s, c, goal);
      case ReadPageStep(c) => ReadersAfterPage(s, c);
      case _ => ReadersOther(cfg, s, step);
    }
  }

  lemma ReadersOther(cfg: Settings, s: State, step: Step)
    requires Enabled(s, step) && ReaderInv(s)
    requires step.BadBodyStep? || step.WriterTakeStep? || step.CrashStep? || step.OpenStep? || step.CloseCommitStep?
             || step.CloseFinishStep? || step.OpenCommitStep? || step.OpenFinishStep? || step.CloseEnterStep?
    ensures ReaderInv(Apply(cfg, s, step))
  {
    ReadersKept(s, Apply(cfg, s, step));
  }

  /** The active run is never a closed one, so an intake cannot disturb a closed run. */
  lemma QuietAfterIntake(s: State, t: State, batch: seq<QueuedEvent>)
    requires Intaken(s, t, batch) && RunInv(s) && ReaderInv(s)
    ensures ReaderInv(t)
  {
    forall r, mark: nat | r in s.closed && mark <= |s.accepted| && QuietSince(s, r, mark)
      ensures QuietSince(t, r, mark)
    {
      forall i | mark <= i < |t.accepted| ensures t.accepted[i].run != r {
        if i >= |s.accepted| { assert t.accepted[i] in batch; }
      }
    }
  }

  /** The transaction holds events beyond every mark a reader was released at. */
  lemma TransactionIsLate(s: State, p: PageRead)
    requires LedgerInv(s) && SeqInv(s) && PageInv(s, p) && p.afterClose
    ensures forall row :: row in PendingRows(s.writer) ==> row.run != p.run
  {
    var rows := PendingRows(s.writer);
    forall row | row in rows ensures row.run != p.run {
      var i :| 0 <= i < |rows| && rows[i] == row;
      assert InTransaction(s.writer)[i] == row.ev;
      assert s.accepted[|s.settled| + i] == row.ev;
    }
  }

  /** So a commit never changes a page of a closed run that was already read. */
  lemma PagesAfterCommit(s: State)
    requires s.writer.Writing? && LedgerInv(s) && SeqInv(s) && ReaderInv(s)
    ensures ReaderInv(WriterCommit(s))
  {
    var rows, t := s.writer.rows, WriterCommit(s);
    forall p | p in s.pages ensures PageInv(t, p) {
      assert PageInv(s, p);
      if p.afterClose {
        TransactionIsLate(s, p);
        MatchingAppend(s.events, rows, p.run, p.query);
        MatchingNone(rows, p.run, p.query);
      }
    }
    forall c | c in s.clients ensures ClientInv(t, t.clients[c]) { assert ClientInv(s, s.clients[c]); }
  }

  // --------------------------------------------- pointer and rows after open and close

  lemma FinishAgrees(s: State, newId: RunId, now: Time)
    requires s.lock.CloseStored?
    ensures var t := CloseFinish(s, newId, now);
            RunInv(s) ==> OnlyActive(t, t.active) && RunInv(t)
  {
    if RunInv(s) { RunClosed(s, newId, now); }
  }

  lemma InsertAgrees(s: State, ok: bool)
    requires s.lock.Inserting?
    ensures var t := OpenCommit(s, ok);
            ok && KnownInv(s) && RunInv(s) ==>
              && s.lock.run !in s.runs && EventCountInv(t) == EventCountInv(s)
              && OnlyActive(t, Some(s.lock.run)) && RunInv(t)
  {
    if ok && KnownInv(s) && RunInv(s) {
      RunInsert(s, ok);
      RowsOfNone(s.events, s.lock.run);
      CountsOfInsert(s);
    }
  }

  lemma CountsOfInsert(s: State)
    requires s.lock.Inserting? && s.lock.run !in s.runs && RowsOf(s.events, s.lock.run) == []
    ensures EventCountInv(OpenCommit(s, true)) == EventCountInv(s)
  {
    var t := OpenCommit(s, true);
    if EventCountInv(t) {
      forall r | r in s.runs ensures s.runs[r].eventCount == |RowsOf(s.events, r)| {
        assert t.runs[r] == s.runs[r];
      }
    }
  }

  lemma PointerAgrees(s: State)
    requires s.lock.Inserted?
    ensures var t := OpenFinish(s);
            RunInv(s) && KnownInv(s) ==> OnlyActive(t, t.active) && RunInv(t)
  {}

  lemma InvInit()
    ensures Inv(INIT)
  {}

  lemma InvStep(cfg: Settings, s: State, step: Step)
    requires Enabled(s, step) && Inv(s)
    ensures Inv(Apply(cfg, s, step))
  {
    QueueStep(cfg, s, step);
    LedgerStep(cfg, s, step);
    CountStep(cfg, s, step);
    KnownStep(cfg, s, step);
    RunStep(cfg, s, step);
    SeqStep(cfg, s, step);
    EventCountStep(cfg, s, step);
    ReaderStep(cfg, s, step);
  }

  lemma {:induction false} InvRuns(cfg: Settings, s: State, steps: seq<Step>, t: State)
    requires Inv(s) && Runs(cfg, s, steps, t)
    ensures Inv(t)
    decreases |steps|
  {
    if steps != [] {
      InvStep(cfg, s, steps[0]);
      InvRuns(cfg, Apply(cfg, s, steps[0]), steps[1..], t);
    }
  }

  lemma InvAlways(cfg: Settings, s: State)
    requires Reachable(cfg, s)
    ensures Inv(s)
  {
    var steps :| Runs(cfg, INIT, steps, s);
    InvInit();
    InvRuns(cfg, INIT, steps, s);
  }
}
