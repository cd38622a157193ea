/**
 What the functions of the model mean, said on the elements: which fields an accepted event
 takes over, which rows a page holds, which batches a take moves, and what the pieces of an
 open, a close and a request come to when they are put together.
 */
module CollectorMeanings {
  import opened Common
  import opened CollectorModel
  import opened CollectorInvariants
  import opened CollectorTheorems

  // ------------------------------------------------------------------- intake

  /** The events among the elements of a body. */
  function Bodies(raws: seq<Raw>): seq<Body> {
    if raws == [] then []
    else
      var last := raws[|raws| - 1];
      Bodies(raws[..|raws| - 1]) + (if last.Valid? then [last.body] else [])
  }

  /** The event says what the body said: it is marked if the body was, or if its peer is the
      platform's own, and flagged if it is a signal for which no peer is known. */
  predicate Carries(ev: QueuedEvent, run: RunId, b: Body) {
    && ev.run == run && ev.kind == b.kind && ev.app == b.app && ev.payload == b.payload
    && (ev.synthetic <==> b.synthetic || b.fromPlatform)
    && (ev.peerMissing <==> (b.kind == "signal" || b.kind == "trigger") && !b.hasPeer)
  }

  ghost predicate CarriesAll(evs: seq<QueuedEvent>, run: RunId, bodies: seq<Body>) {
    |evs| == |bodies| && forall i :: 0 <= i < |evs| ==> Carries(evs[i], run, bodies[i])
  }

  lemma {:induction false} KeptCarries(run: RunId, raws: seq<Raw>)
    ensures CarriesAll(Kept(run, raws), run, Bodies(raws))
  {
    if raws != [] { KeptCarries(run, raws[..|raws| - 1]); }
  }

  /** With a run active a submit keeps one event for each valid element of the first 500, in
      order, and each carries what its body said. */
  lemma IntakeCarries(run: RunId, raws: seq<Raw>)
    ensures CarriesAll(IntakeOf(Some(run), raws).accepted, run, Bodies(Clip(raws, 500)))
  {
    IntakeMeaning(Some(run), raws);
    KeptCarries(run, Clip(raws, 500));
  }

  lemma IntakeKeeps(run: Option<RunId>, raws: seq<Raw>)
    ensures var kept := IntakeOf(run, raws).accepted;
            if run.Some? then CarriesAll(kept, run.value, Bodies(Clip(raws, 500))) else kept == []
  {
    IntakeMeaning(run, raws);
    if run.Some? { IntakeCarries(run.value, raws); }
  }

  predicate MarkedHere(b: Body) { b.fromPlatform && !b.synthetic }

  predicate Alone(b: Body) { (b.kind == "signal" || b.kind == "trigger") && !b.hasPeer }

  predicate IsFlagged(ev: QueuedEvent) { ev.peerMissing }

  /** The two counters of a submit, as numbers of bodies. */
  lemma {:induction false} CountersCount(run: Option<RunId>, raws: seq<Raw>)
    ensures IntakeOf(run, raws).bySource == CountIf(Bodies(Clip(raws, 500)), MarkedHere)
    ensures IntakeOf(run, raws).noPeer == CountIf(Bodies(Clip(raws, 500)), Alone)
  {
    if raws == [] {
      CountIfNone(MarkedHere);
      CountIfNone(Alone);
    } else {
      var init, last := raws[..|raws| - 1], raws[|raws| - 1];
      CountersCount(run, init);
      if |raws| <= 500 {
        assert Clip(raws, 500) == raws && Clip(init, 500) == init;
        if last.Valid? {
          assert Bodies(raws) == Bodies(init) + [last.body];
          CountIfSnoc(Bodies(init), last.body, MarkedHere);
          CountIfSnoc(Bodies(init), last.body, Alone);
        } else {
          assert Bodies(raws) == Bodies(init);
        }
      } else {
        assert raws[..500] == Clip(init, 500);
      }
    }
  }

  /** So the mark reaches the events: the counter is the number of kept events that are
      marked although their body was not. */
  lemma MarksReachTheEvents(run: RunId, raws: seq<Raw>)
    ensures var t, bodies := IntakeOf(Some(run), raws), Bodies(Clip(raws, 500));
            && |t.accepted| == |bodies|
            && t.bySource == |set i | 0 <= i < |bodies| && t.accepted[i].synthetic && !bodies[i].synthetic|
            && t.noPeer == CountIf(t.accepted, IsFlagged)
  {
    IntakeCarries(run, raws);
    CountersCount(Some(run), raws);
    var t, bodies := IntakeOf(Some(run), raws), Bodies(Clip(raws, 500));
    MarkedTogether(t.accepted, run, bodies);
  }

  lemma MarkedTogether(evs: seq<QueuedEvent>, run: RunId, bodies: seq<Body>)
    requires CarriesAll(evs, run, bodies)
    ensures CountIf(bodies, MarkedHere) == |set i | 0 <= i < |bodies| && evs[i].synthetic && !bodies[i].synthetic|
    ensures CountIf(bodies, Alone) == CountIf(evs, IsFlagged)
  {
    CountIs(bodies, MarkedHere, set i | 0 <= i < |bodies| && evs[i].synthetic && !bodies[i].synthetic);
    var flagged := set i | 0 <= i < |evs| && evs[i].peerMissing;
    CountIs(evs, IsFlagged, flagged);
    CountIs(bodies, Alone, flagged);
  }

  lemma {:induction false} BodiesAreKept(run: RunId, raws: seq<Raw>)
    ensures |Kept(run, raws)| == |Bodies(raws)|
  {
    if raws != [] { BodiesAreKept(run, raws[..|raws| - 1]); }
  }

  /** Which counter counts what in a submit: all elements received, those beyond the first
      500, the invalid ones of these, and the valid ones if no run is active or the queue is
      full; none is counted as written or as a write error. */
  lemma SubmitCounters(cfg: Settings, s: State, raws: seq<Raw>)
    ensures var c, d, valid := s.counters, Submit(cfg, s, raws).counters, |Bodies(Clip(raws, 500))|;
            && d.received == c.received + |raws|
            && d.overBatch == c.overBatch + (if |raws| > 500 then |raws| - 500 else 0)
            && d.invalid == c.invalid + (if |raws| > 500 then 500 else |raws|) - valid
            && d.idle == c.idle + (if s.active.None? then valid else 0)
            && d.overflow == c.overflow
                 + (if s.active.Some? && 0 < cfg.queueMaxsize <= |s.queue| then valid else 0)
            && d.bySource == c.bySource + CountIf(Bodies(Clip(raws, 500)), MarkedHere)
            && d.noPeer == c.noPeer + CountIf(Bodies(Clip(raws, 500)), Alone)
            && d.writeError == c.writeError && d.written == c.written
  {
    IntakeMeaning(s.active, raws);
    BodiesAreKept(if s.active.Some? then s.active.value else 0, Clip(raws, 500));
    CountersCount(s.active, raws);
  }

  /** And in the registration of a hint. */
  lemma HintCounters(cfg: Settings, s: State, b: Body)
    ensures var c := s.counters;
            Correlate(cfg, s, b).counters
            == c.(received := c.received + 1, correlations := c.correlations + 1,
                  idle := c.idle + (if s.active.None? then 1 else 0),
                  overflow := c.overflow + (if s.active.Some? && 0 < cfg.queueMaxsize <= |s.queue| then 1 else 0))
  {}

  /** The event copy of a registered hint. */
  predicate CopyOf(ev: QueuedEvent, run: RunId, b: Body) {
    && ev.run == run && ev.kind == "correlation" && ev.app == b.app && ev.payload == b.payload
    && (ev.synthetic <==> b.synthetic || b.fromPlatform) && !ev.peerMissing
  }

  lemma HintCarries(run: RunId, b: Body)
    ensures CopyOf(HintEvent(run, b), run, b)
  {}

  /** The queue never holds more batches than a positive bound allows. */
  lemma QueueBoundStep(cfg: Settings, s: State, step: Step)
    requires Enabled(s, step) && (cfg.queueMaxsize > 0 ==> |s.queue| <= cfg.queueMaxsize)
    ensures cfg.queueMaxsize > 0 ==> |Apply(cfg, s, step).queue| <= cfg.queueMaxsize
  {
    if step.WriterTakeStep? { var k := TakeMoves(cfg, s); }
    if Control(step) { ControlFrame(cfg, s, step); }
  }

  lemma {:induction false} QueueBoundRuns(cfg: Settings, s: State, steps: seq<Step>, t: State)
    requires Runs(cfg, s, steps, t) && (cfg.queueMaxsize > 0 ==> |s.queue| <= cfg.queueMaxsize)
    ensures cfg.queueMaxsize > 0 ==> |t.queue| <= cfg.queueMaxsize
    decreases |steps|
  {
    if steps != [] {
      QueueBoundStep(cfg, s, steps[0]);
      QueueBoundRuns(cfg, Apply(cfg, s, steps[0]), steps[1..], t);
    }
  }

  lemma QueueIsBounded(cfg: Settings, s: State)
    requires Reachable(cfg, s) && cfg.queueMaxsize > 0
    ensures |s.queue| <= cfg.queueMaxsize
  {
    var steps :| Runs(cfg, INIT, steps, s);
    QueueBoundRuns(cfg, INIT, steps, s);
  }

  // ------------------------------------------------------------------- the take

  lemma {:induction false} CoalesceMoves(writeBatch: int, queue: seq<seq<QueuedEvent>>, k: nat) returns (n: nat)
    requires 1 <= k <= |queue|
    requires k > 1 ==> |Flat(queue[..k - 1])| < writeBatch
    ensures k <= n <= |queue|
    ensures Coalesce(writeBatch, Load(Flat(queue[..k]), queue[k..], k)) == Load(Flat(queue[..n]), queue[n..], n)
    ensures n < |queue| ==> |Flat(queue[..n])| >= writeBatch
    ensures n > 1 ==> |Flat(queue[..n - 1])| < writeBatch
    decreases |queue| - k
  {
    if |Flat(queue[..k])| < writeBatch && k < |queue| {
      assert queue[..k + 1] == queue[..k] + [queue[k]] && queue[k..][1..] == queue[k + 1..];
      FlatAppend(queue[..k], [queue[k]]);
      FlatOne(queue[k]);
      assert queue[..k + 1 - 1] == queue[..k];
      n := CoalesceMoves(writeBatch, queue, k + 1);
    } else {
      n := k;
    }
  }

  /** A take moves the first batches of the queue, whole: as many as it needs to have
      `write_batch` events in hand, or all there are, and always one. */
  lemma TakeMoves(cfg: Settings, s: State) returns (n: nat)
    requires Enabled(s, WriterTakeStep)
    ensures 1 <= n <= |s.queue|
    ensures var t := Apply(cfg, s, WriterTakeStep);
            && t.queue == s.queue[n..] && t.writer.Writing? && t.writer.pending == n
            && EventsOfRows(t.writer.rows) == Flat(s.queue[..n])
    ensures n < |s.queue| ==> |Flat(s.queue[..n])| >= cfg.writeBatch
    ensures n > 1 ==> |Flat(s.queue[..n - 1])| < cfg.writeBatch
  {
    assert s.queue[..1] == [s.queue[0]];
    FlatOne(s.queue[0]);
    n := CoalesceMoves(cfg.writeBatch, s.queue, 1);
    NumberKeepsEvents(s.seqs, Flat(s.queue[..n]));
  }

  // -------------------------------------------------------------------- the page

  const SIGNALS := {"signal", "trigger"}

  /** The kind a client asks for: the two names of a signal stand for each other. */
  predicate OfKindAsked(kind: string, asked: Option<string>) {
    asked.None? || (if asked.value in SIGNALS then kind in SIGNALS else kind == asked.value)
  }

  predicate Asked(row: Row, run: RunId, q: Query) {
    row.run == run && OfKindAsked(row.ev.kind, q.kind) && (q.after.None? || q.after.value < row.seqno)
  }

  lemma AskedIsWanted(row: Row, run: RunId, q: Query)
    ensures Wanted(row, run, q) <==> Asked(row, run, q)
  {}

  /** A page holds rows of the run, of the kind asked for and past the cursor, the first
      `limit` of them in ascending order; and what it leaves out is behind a full page. */
  lemma PageMeaning(cfg: Settings, s: State, run: RunId, q: Query)
    requires Reachable(cfg, s)
    ensures var page := Page(s.events, run, q);
            && |page| <= q.limit
            && (forall i, j :: 0 <= i < j < |page| ==> page[i].seqno < page[j].seqno)
            && (forall row :: row in page ==> row in s.events && Asked(row, run, q))
            && (forall row :: row in s.events && Asked(row, run, q) && row !in page ==>
                  |page| == q.limit && forall p :: p in page ==> p.seqno < row.seqno)
  {
    PageIsOrdered(cfg, s, run, q);
    var all, page := Matching(s.events, run, q), Page(s.events, run, q);
    MatchingSelects(s.events, run, q);
    forall row | row in page ensures Asked(row, run, q) { AskedIsWanted(row, run, q); }
    forall row | row in s.events && Asked(row, run, q) && row !in page
      ensures |page| == q.limit && forall p :: p in page ==> p.seqno < row.seqno
    {
      AskedIsWanted(row, run, q);
      assert row in all;
    }
  }

  lemma SelectedRows(rows: seq<Row>, run: RunId, q: Query)
    ensures var page := Page(rows, run, q);
            && |page| <= q.limit
            && (forall row :: row in page ==> row in rows && Asked(row, run, q))
            && (|page| < q.limit ==> forall row :: row in rows && Asked(row, run, q) ==> row in page)
  {
    var all, page := Matching(rows, run, q), Page(rows, run, q);
    MatchingSelects(rows, run, q);
    forall row | row in page ensures row in rows && Asked(row, run, q) {
      assert row in all;
      AskedIsWanted(row, run, q);
    }
    forall row | row in rows && Asked(row, run, q) ensures row in all { AskedIsWanted(row, run, q); }
  }
}
