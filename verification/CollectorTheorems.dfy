/**
 What the collector promises over whole runs, and three short traces for what it does not.
 */
module CollectorTheorems {
  import opened Common
  import opened CollectorModel
  import opened CollectorInvariants

  // ------------------------------------------------------------- conservation

  lemma Conservation(cfg: Settings, s: State)
    requires Reachable(cfg, s)
    ensures var c := s.counters;
            c.received + s.malformedBodies
            == c.invalid + c.overBatch + c.idle + c.overflow + c.writeError + c.written
               + |Held(s.writer)| + |Flat(s.queue)|
  {
    InvAlways(cfg, s);
  }

  /** The reconciliation the statistics are published for holds exactly when the bodies
      the HTTP layer rejected balance the events still on their way. */
  lemma ReconcilesIff(cfg: Settings, s: State)
    requires Reachable(cfg, s)
    ensures var c := s.counters;
            c.received == c.written + (c.invalid + c.overflow + c.overBatch + c.writeError) + c.idle
            <==> s.malformedBodies == |Held(s.writer)| + |Flat(s.queue)|
  {
    Conservation(cfg, s);
  }

  /** What one `submit` counts, and that it keeps the valid events of the first 500 in order. */
  function Kept(run: RunId, raws: seq<Raw>): seq<QueuedEvent> {
    if raws == [] then []
    else
      Kept(run, raws[..|raws| - 1])
      + (if raws[|raws| - 1].Valid? then [Stamp(run, raws[|raws| - 1].body)] else [])
  }

  lemma {:induction false} IntakeMeaning(run: Option<RunId>, raws: seq<Raw>)
    ensures var t := IntakeOf(run, raws);
            var head := Clip(raws, MAX_EVENTS_PER_BATCH);
            && t.accepted == (if run.Some? then Kept(run.value, head) else [])
            && t.overBatch == |raws| - |head|
            && t.idle == (if run.Some? then 0 else |Kept(0, head)|)
            && |t.accepted| + t.dropped + t.idle + t.overBatch == |raws|
  {
    if raws != [] {
      var init := raws[..|raws| - 1];
      IntakeMeaning(run, init);
      if |raws| <= MAX_EVENTS_PER_BATCH {
        assert Clip(raws, MAX_EVENTS_PER_BATCH) == raws;
        assert Clip(init, MAX_EVENTS_PER_BATCH) == init;
      } else {
        assert raws[..MAX_EVENTS_PER_BATCH] == Clip(init, MAX_EVENTS_PER_BATCH);
      }
    }
  }

  function Flagged(evs: seq<QueuedEvent>): nat {
    if evs == [] then 0 else Flagged(evs[..|evs| - 1]) + (if evs[|evs| - 1].peerMissing then 1 else 0)
  }

  /** Of the bodies of a batch, those marked synthetic by their source address alone. */
  function MarkedBySource(raws: seq<Raw>): nat {
    if raws == [] then 0
    else
      var last := raws[|raws| - 1];
      MarkedBySource(raws[..|raws| - 1])
      + (if last.Valid? && last.body.fromPlatform && !last.body.synthetic then 1 else 0)
  }

  /** The counter of signals without a peer is the number of events kept with the flag, and
      it does not depend on a run being active. */
  lemma {:induction false} SignalsWithoutPeerAreFlagged(run: Option<RunId>, raws: seq<Raw>, other: RunId)
    ensures IntakeOf(run, raws).noPeer == Flagged(IntakeOf(Some(other), raws).accepted)
  {
    if raws != [] {
      SignalsWithoutPeerAreFlagged(run, raws[..|raws| - 1], other);
      FlaggedByOne(Some(other), |raws| - 1, raws[|raws| - 1], IntakeOf(Some(other), raws[..|raws| - 1]));
    }
  }

  lemma FlaggedByOne(run: Option<RunId>, index: nat, raw: Raw, t: Intake)
    requires run.Some?
    ensures Flagged(IntakeOne(run, index, raw, t).accepted) - Flagged(t.accepted)
            == IntakeOne(run, index, raw, t).noPeer - t.noPeer
  {
    if index < MAX_EVENTS_PER_BATCH && raw.Valid? {
      var ev := Stamp(run.value, raw.body);
      assert (t.accepted + [ev])[..|t.accepted|] == t.accepted;
    }
  }

  /** The counter of events marked synthetic by source is the number of those marked among
      the first 500, whether or not a run is active. */
  lemma {:induction false} MarkedBySourceAreCounted(run: Option<RunId>, raws: seq<Raw>)
    ensures IntakeOf(run, raws).bySource == MarkedBySource(Clip(raws, MAX_EVENTS_PER_BATCH))
  {
    if raws != [] {
      var init := raws[..|raws| - 1];
      MarkedBySourceAreCounted(run, init);
      if |raws| <= MAX_EVENTS_PER_BATCH {
        assert Clip(raws, MAX_EVENTS_PER_BATCH) == raws;
        assert Clip(init, MAX_EVENTS_PER_BATCH) == init;
      } else {
        assert raws[..MAX_EVENTS_PER_BATCH] == Clip(init, MAX_EVENTS_PER_BATCH);
      }
    }
  }

  /** The correlation events of a batch. */
  function HintsOf(raws: seq<Raw>): seq<Body> {
    if raws == [] then []
    else
      var last := raws[|raws| - 1];
      HintsOf(raws[..|raws| - 1]) + (if last.Valid? && last.body.kind == CORRELATION then [last.body] else [])
  }

  /** The registry is given every correlation event of the first 500, in order, whether or
      not a run is active: it behaves the same between runs. */
  lemma {:induction false} HintsAreRegistered(run: Option<RunId>, raws: seq<Raw>)
    ensures IntakeOf(run, raws).hints == HintsOf(Clip(raws, MAX_EVENTS_PER_BATCH))
  {
    if raws != [] {
      var init := raws[..|raws| - 1];
      HintsAreRegistered(run, init);
      if |raws| <= MAX_EVENTS_PER_BATCH {
        assert Clip(raws, MAX_EVENTS_PER_BATCH) == raws;
        assert Clip(init, MAX_EVENTS_PER_BATCH) == init;
      } else {
        assert raws[..MAX_EVENTS_PER_BATCH] == Clip(init, MAX_EVENTS_PER_BATCH);
      }
    }
  }

  function OfKind(evs: seq<QueuedEvent>, kind: string): seq<QueuedEvent> {
    if evs == [] then []
    else OfKind(evs[..|evs| - 1], kind) + (if evs[|evs| - 1].kind == kind then [evs[|evs| - 1]] else [])
  }

  function StampAll(run: RunId, hints: seq<Body>): seq<QueuedEvent> {
    seq(|hints|, i requires 0 <= i < |hints| => Stamp(run, hints[i]))
  }

  /** And with a run active the batch holds exactly their event copies, in the same order. */
  lemma {:induction false} HintsAreCopied(run: RunId, raws: seq<Raw>)
    ensures var t := IntakeOf(Some(run), raws);
            OfKind(t.accepted, CORRELATION) == StampAll(run, t.hints)
  {
    if raws != [] {
      var t := IntakeOf(Some(run), raws[..|raws| - 1]);
      HintsAreCopied(run, raws[..|raws| - 1]);
      CopyOfOne(run, |raws| - 1, raws[|raws| - 1], t);
    }
  }

  lemma CopyOfOne(run: RunId, index: nat, raw: Raw, t: Intake)
    requires OfKind(t.accepted, CORRELATION) == StampAll(run, t.hints)
    ensures var u := IntakeOne(Some(run), index, raw, t);
            OfKind(u.accepted, CORRELATION) == StampAll(run, u.hints)
  {
    if index < MAX_EVENTS_PER_BATCH && raw.Valid? {
      assert (t.accepted + [Stamp(run, raw.body)])[..|t.accepted|] == t.accepted;
      if raw.body.kind == CORRELATION {
        assert StampAll(run, t.hints + [raw.body]) == StampAll(run, t.hints) + [Stamp(run, raw.body)];
      }
    }
  }

  lemma HintStep(cfg: Settings, s: State, step: Step)
    requires Enabled(s, step) && s.counters.correlations == |s.hints|
    ensures Apply(cfg, s, step).counters.correlations == |Apply(cfg, s, step).hints|
  {
    if Control(step) { ControlFrame(cfg, s, step); }
  }

  lemma {:induction false} HintRuns(cfg: Settings, s: State, steps: seq<Step>, t: State)
    requires Runs(cfg, s, steps, t) && s.counters.correlations == |s.hints|
    ensures t.counters.correlations == |t.hints|
    decreases |steps|
  {
    if steps != [] {
      HintStep(cfg, s, steps[0]);
      HintRuns(cfg, Apply(cfg, s, steps[0]), steps[1..], t);
    }
  }

  lemma HintsAreCounted(cfg: Settings, s: State)
    requires Reachable(cfg, s)
    ensures s.counters.correlations == |s.hints|
  {
    var steps :| Runs(cfg, INIT, steps, s);
    HintRuns(cfg, INIT, steps, s);
  }

  lemma TransactionBound(cfg: Settings, s: State)
    requires Reachable(cfg, s) && Enabled(s, WriterTakeStep)
    ensures |Held(Apply(cfg, s, WriterTakeStep).writer)| <= Max(1, cfg.writeBatch) + 499
  {
    InvAlways(cfg, s);
    TakeFacts(cfg, s);
  }

  // ----------------------------------------------------------- order of events

  lemma SeqUniqueAndOrdered(cfg: Settings, s: State)
    requires Reachable(cfg, s)
    ensures forall i, j :: 0 <= i < j < |s.events| && s.events[i].run == s.events[j].run ==>
              s.events[i].seqno < s.events[j].seqno
    ensures forall r :: r in s.runs ==> s.runs[r].eventCount == |RowsOf(s.events, r)|
  {
    InvAlways(cfg, s);
    AscendingPrefix(s.events, PendingRows(s.writer));
  }

  function OfRun(evs: seq<QueuedEvent>, run: RunId): seq<QueuedEvent> {
    if evs == [] then []
    else OfRun(evs[..|evs| - 1], run) + (if evs[|evs| - 1].run == run then [evs[|evs| - 1]] else [])
  }

  lemma {:induction false} OfRunAppend(a: seq<QueuedEvent>, b: seq<QueuedEvent>, run: RunId)
    ensures OfRun(a + b, run) == OfRun(a, run) + OfRun(b, run)
  {
    if b == [] {
      assert a + b == a;
    } else {
      assert (a + b)[..|a + b| - 1] == a + b[..|b| - 1];
      OfRunAppend(a, b[..|b| - 1], run);
    }
  }

  ghost predicate OwnRun(rows: seq<Row>) { forall row :: row in rows ==> row.run == row.ev.run }

  /** How one more fate shows in the stored rows and in the settled events of a run. */
  lemma OneMoreFate(fates: seq<Fate>, run: RunId)
    requires fates != [] && OwnRun(StoredRows(fates))
    ensures var init, f := fates[..|fates| - 1], fates[|fates| - 1];
            var mine := EventOf(f).run == run;
            && OwnRun(StoredRows(init))
            && OfRun(Decided(fates), run) == OfRun(Decided(init), run) + (if mine then [EventOf(f)] else [])
            && RowsOf(StoredRows(fates), run)
               == RowsOf(StoredRows(init), run) + (if mine && f.Stored? then [f.row] else [])
  {
    var init, f := fates[..|fates| - 1], fates[|fates| - 1];
    assert Decided(fates)[..|fates| - 1] == Decided(init);
    var all := StoredRows(fates);
    if f.Stored? {
      assert all[..|all| - 1] == StoredRows(init) && all[|all| - 1] == f.row;
      assert f.row in all;
    } else {
      assert all == StoredRows(init);
    }
  }

  lemma {:induction false} StoredAreSubsequence(fates: seq<Fate>, run: RunId)
    requires OwnRun(StoredRows(fates))
    ensures Subsequence(EventsOfRows(RowsOf(StoredRows(fates), run)), OfRun(Decided(fates), run))
  {
    if fates == [] {
      assert EventsOfRows(RowsOf(StoredRows(fates), run)) == [];
    } else {
      var init, f := fates[..|fates| - 1], fates[|fates| - 1];
      OneMoreFate(fates, run);
      StoredAreSubsequence(init, run);
      var a, b := RowsOf(StoredRows(init), run), OfRun(Decided(init), run);
      if EventOf(f).run == run {
        SubsequenceSnoc(EventsOfRows(a), b, EventOf(f));
        if f.Stored? {
          assert EventsOfRows(a + [f.row]) == EventsOfRows(a) + [f.row.ev];
        } else {
          assert a + [] == a;
        }
      } else {
        assert a + [] == a && b + [] == b;
      }
    }
  }

  lemma SettledAndRest(cfg: Settings, s: State) returns (rest: seq<QueuedEvent>)
    requires Reachable(cfg, s)
    ensures s.accepted == Decided(s.settled) + rest
    ensures s.events == StoredRows(s.settled) && OwnRun(s.events)
  {
    InvAlways(cfg, s);
    rest := LedgerRest(s);
    RowsAreOwn(s);
  }

  lemma LedgerRest(s: State) returns (rest: seq<QueuedEvent>)
    requires LedgerInv(s)
    ensures s.accepted == Decided(s.settled) + rest && s.events == StoredRows(s.settled)
    ensures rest == InTransaction(s.writer) + Flat(s.queue)
  {
    rest := InTransaction(s.writer) + Flat(s.queue);
    var d, a, b := Decided(s.settled), InTransaction(s.writer), Flat(s.queue);
    assert d + a + b == d + (a + b);
  }

  lemma RowsAreOwn(s: State)
    requires SeqInv(s)
    ensures OwnRun(s.events)
  {}

  /** The stored events of a run, in `seq` order, are the accepted ones in submission order
      with some left out: nothing is reordered, repeated or moved to another run. */
  lemma StoredInSubmissionOrder(cfg: Settings, s: State, run: RunId)
    requires Reachable(cfg, s)
    ensures Subsequence(EventsOfRows(RowsOf(s.events, run)), OfRun(s.accepted, run))
  {
    var rest := SettledAndRest(cfg, s);
    StoredAreSubsequence(s.settled, run);
    OfRunAppend(Decided(s.settled), rest, run);
    var stored, decided := EventsOfRows(RowsOf(s.events, run)), OfRun(Decided(s.settled), run);
    SubsequenceAppend(stored, decided, OfRun(rest, run));
  }

  /** The stored stream of a run only ever grows at its end, whatever happens. */
  lemma {:induction false} StreamGrows(cfg: Settings, s: State, steps: seq<Step>, t: State, run: RunId)
    requires Runs(cfg, s, steps, t)
    ensures RowsOf(s.events, run) <= RowsOf(t.events, run)
    decreases |steps|
  {
    if steps != [] {
      var u := Apply(cfg, s, steps[0]);
      StreamGrows(cfg, u, steps[1..], t, run);
      if steps[0].WriterCommitStep? {
        RowsOfAppend(s.events, s.writer.rows, run);
      } else if steps[0].SubmitStep? || steps[0].CorrelateStep? {
        var batch := Intakes(cfg, s, steps[0]);
      }
      assert RowsOf(s.events, run) <= RowsOf(u.events, run);
    }
  }

  // ------------------------------------------------------------ one active run

  function ActiveRuns(runs: map<RunId, RunRow>): set<RunId> {
    set r | r in runs && runs[r].active
  }

  lemma OneActiveRun(cfg: Settings, s: State)
    requires Reachable(cfg, s)
    ensures |ActiveRuns(s.runs)| <= 1
    ensures s.lock.Free? ==> ActiveRuns(s.runs) == (if s.active.Some? then {s.active.value} else {})
    ensures forall r :: r in s.runs ==> (s.runs[r].active <==> s.runs[r].closedAt.None?)
  {
    InvAlways(cfg, s);
    var only := match s.lock
      case Free => s.active
      case Closing(_, _, _) => s.active
      case CloseStored(r, _) => (if s.active == Some(r) then None else s.active)
      case Inserting(_, _) => None
      case Inserted(r) => Some(r);
    assert OnlyActive(s, only);
    assert ActiveRuns(s.runs) <= (if only.Some? then {only.value} else {});
    if only.Some? && ActiveRuns(s.runs) != {} { assert ActiveRuns(s.runs) == {only.value}; }
  }

  /** A crash at any point, and whatever the restore query picks, leaves the pointer on the
      one active row, numbering on from what is stored. */
  lemma CrashRestores(cfg: Settings, s: State, pick: Option<RunId>)
    requires Reachable(cfg, s) && RestorePicks(s.runs, pick)
    ensures var t := Crash(s, pick);
            && ActiveRuns(t.runs) == ActiveRuns(s.runs)
            && t.active == pick
            && ActiveRuns(s.runs) == (if pick.Some? then {pick.value} else {})
            && (pick.Some? ==> forall row :: row in s.events && row.run == pick.value ==> row.seqno <= t.seqs[pick.value])
  {
    OneActiveRun(cfg, s);
    if pick.Some? {
      MaxSeqBounds(s.events, pick.value);
      assert pick.value in ActiveRuns(s.runs);
      var others := ActiveRuns(s.runs) - {pick.value};
      assert |others| == |ActiveRuns(s.runs)| - 1;
    }
  }

  /** Once a run has a closing time it keeps it, and stays inactive. */
  ghost predicate StaysClosed(s: State, t: State, r: RunId) {
    r in s.runs && s.runs[r].closedAt.Some? ==>
      r in t.runs && t.runs[r].closedAt == s.runs[r].closedAt && !t.runs[r].active
  }

  lemma ClosedAtStep(cfg: Settings, s: State, step: Step, r: RunId)
    requires KnownInv(s) && RunInv(s) && Enabled(s, step)
    ensures StaysClosed(s, Apply(cfg, s, step), r)
  {
    if step.SubmitStep? || step.CorrelateStep? { var batch := Intakes(cfg, s, step); }
  }

  lemma {:induction false} ClosedAtStable(cfg: Settings, s: State, steps: seq<Step>, t: State, r: RunId)
    requires Inv(s) && Runs(cfg, s, steps, t)
    ensures StaysClosed(s, t, r)
    decreases |steps|
  {
    if steps == [] {
      assert RunInv(s);
    } else {
      InvStep(cfg, s, steps[0]);
      ClosedAtStep(cfg, s, steps[0], r);
      ClosedAtStable(cfg, Apply(cfg, s, steps[0]), steps[1..], t, r);
    }
  }

  // -------------------------------------------------------------- closed runs

  /** Only the active run's events are ever added. */
  lemma OnlyActiveGrows(cfg: Settings, s: State, step: Step) returns (batch: seq<QueuedEvent>)
    requires Enabled(s, step)
    ensures Apply(cfg, s, step).accepted == s.accepted + batch
    ensures forall e :: e in batch ==> s.active == Some(e.run)
  {
    if step.SubmitStep? || step.CorrelateStep? {
      batch := Intakes(cfg, s, step);
    } else {
      batch := [];
    }
  }

  lemma {:induction false} OfRunNone(evs: seq<QueuedEvent>, run: RunId)
    requires forall e :: e in evs ==> e.run != run
    ensures OfRun(evs, run) == []
  {
    if evs != [] { OfRunNone(evs[..|evs| - 1], run); }
  }

  ghost predicate Frozen(s: State, t: State, r: RunId) {
    && r in t.closed && s.accepted <= t.accepted
    && (forall i :: |s.accepted| <= i < |t.accepted| ==> t.accepted[i].run != r)
  }

  lemma ClosedStep(cfg: Settings, s: State, step: Step, r: RunId)
    requires RunInv(s) && Enabled(s, step) && r in s.closed
    ensures Frozen(s, Apply(cfg, s, step), r)
  {
    var batch := OnlyActiveGrows(cfg, s, step);
    var t := Apply(cfg, s, step);
    forall i | |s.accepted| <= i < |t.accepted| ensures t.accepted[i].run != r {
      assert t.accepted[i] in batch;
    }
  }

  lemma FrozenTrans(s: State, u: State, t: State, r: RunId)
    requires Frozen(s, u, r) && Frozen(u, t, r)
    ensures Frozen(s, t, r)
  {
    forall i | |s.accepted| <= i < |t.accepted| ensures t.accepted[i].run != r {
      if i < |u.accepted| { assert t.accepted[i] == u.accepted[i]; }
    }
  }

  lemma {:induction false} ClosedStays(cfg: Settings, s: State, steps: seq<Step>, t: State, r: RunId)
    requires Inv(s) && Runs(cfg, s, steps, t) && r in s.closed
    ensures Frozen(s, t, r)
    decreases |steps|
  {
    if steps != [] {
      var u := Apply(cfg, s, steps[0]);
      ClosedStep(cfg, s, steps[0], r);
      InvStep(cfg, s, steps[0]);
      ClosedStays(cfg, u, steps[1..], t, r);
      FrozenTrans(s, u, t, r);
    }
  }

  /** Once a close (or a forced open) of `r` has returned, no event of `r` is accepted again:
      stored, queued and held events of `r` together never grow. */
  lemma ClosedIsFrozen(cfg: Settings, s: State, steps: seq<Step>, t: State, r: RunId)
    requires Reachable(cfg, s) && Runs(cfg, s, steps, t) && r in s.closed
    ensures r in t.closed && OfRun(t.accepted, r) == OfRun(s.accepted, r)
  {
    InvAlways(cfg, s);
    ClosedStays(cfg, s, steps, t, r);
    var more := t.accepted[|s.accepted|..];
    assert t.accepted == s.accepted + more;
    OfRunAppend(s.accepted, more, r);
    OfRunNone(more, r);
  }

  /** What a join hands to its caller: everything accepted before the call is settled. */
  lemma FlushContract(cfg: Settings, s: State, c: nat)
    requires Reachable(cfg, s) && c in s.clients && s.clients[c].released
    ensures s.clients[c].mark <= |s.settled| <= |s.accepted|
    ensures Decided(s.settled)[..s.clients[c].mark] == s.accepted[..s.clients[c].mark]
  {
    var rest := SettledAndRest(cfg, s);
    InvAlways(cfg, s);
    assert ClientInv(s, s.clients[c]);
    assert |Decided(s.settled)| == |s.settled|;
  }

  function NotStored(fates: seq<Fate>, run: RunId): nat {
    if fates == [] then 0
    else
      var f := fates[|fates| - 1];
      NotStored(fates[..|fates| - 1], run) + (if !f.Stored? && EventOf(f).run == run then 1 else 0)
  }

  lemma {:induction false} EveryFateCounts(fates: seq<Fate>, run: RunId)
    requires OwnRun(StoredRows(fates))
    ensures |OfRun(Decided(fates), run)| == |RowsOf(StoredRows(fates), run)| + NotStored(fates, run)
  {
    if fates != [] {
      OneMoreFate(fates, run);
      EveryFateCounts(fates[..|fates| - 1], run);
    }
  }

  /** Export after close is complete: a page requested after the close of its run returned
      was read when every accepted event of the run was settled. What the page query can
      still miss are exactly the events whose write failed or that a crash took. */
  lemma ExportAfterClose(cfg: Settings, s: State, p: PageRead)
    requires Reachable(cfg, s) && p in s.pages && p.afterClose
    ensures p.page == Page(s.events, p.run, p.query)
    ensures OfRun(s.accepted, p.run) == OfRun(Decided(s.settled), p.run)
    ensures |OfRun(s.accepted, p.run)| == |RowsOf(s.events, p.run)| + NotStored(s.settled, p.run)
  {
    InvAlways(cfg, s);
    assert PageInv(s, p);
    var rest := LedgerRest(s);
    RowsAreOwn(s);
    RestIsOther(s, p, rest);
    OfRunAppend(Decided(s.settled), rest, p.run);
    OfRunNone(rest, p.run);
    EveryFateCounts(s.settled, p.run);
  }

  lemma RestIsOther(s: State, p: PageRead, rest: seq<QueuedEvent>)
    requires PageInv(s, p) && p.afterClose && s.accepted == Decided(s.settled) + rest
    ensures forall e :: e in rest ==> e.run != p.run
  {
    forall e | e in rest ensures e.run != p.run {
      var i :| 0 <= i < |rest| && rest[i] == e;
      assert s.accepted[|s.settled| + i] == e;
    }
  }

  ghost predicate SamePages(s: State, t: State, p: PageRead) {
    p in t.pages && RowsOf(t.events, p.run) == RowsOf(s.events, p.run)
  }

  lemma FinalCommit(s: State, p: PageRead)
    requires s.writer.Writing? && LedgerInv(s) && SeqInv(s) && PageInv(s, p) && p in s.pages && p.afterClose
    ensures SamePages(s, WriterCommit(s), p)
  {
    TransactionIsLate(s, p);
    RowsOfAppend(s.events, s.writer.rows, p.run);
    RowsOfNone(s.writer.rows, p.run);
  }

  /** Only the commit touches the table, and no step takes a page back. */
  lemma TableFrame(cfg: Settings, s: State, step: Step)
    requires Enabled(s, step) && !step.WriterCommitStep?
    ensures Apply(cfg, s, step).events == s.events && s.pages <= Apply(cfg, s, step).pages
  {
    if step.SubmitStep? || step.CorrelateStep? { var batch := Intakes(cfg, s, step); }
  }

  lemma FinalStep(cfg: Settings, s: State, step: Step, p: PageRead)
    requires Inv(s) && Enabled(s, step) && p in s.pages && p.afterClose
    ensures SamePages(s, Apply(cfg, s, step), p)
  {
    if step.WriterCommitStep? {
      assert PageInv(s, p);
      FinalCommit(s, p);
    } else {
      TableFrame(cfg, s, step);
    }
  }

  /** And it is final: no later read of that run, with any query, sees anything else. */
  lemma {:induction false} ExportIsFinal(cfg: Settings, s: State, steps: seq<Step>, t: State, p: PageRead)
    requires Inv(s) && Runs(cfg, s, steps, t) && p in s.pages && p.afterClose
    ensures SamePages(s, t, p)
    decreases |steps|
  {
    if steps != [] {
      FinalStep(cfg, s, steps[0], p);
      InvStep(cfg, s, steps[0]);
      ExportIsFinal(cfg, Apply(cfg, s, steps[0]), steps[1..], t, p);
    }
  }

  // ---------------------------------------------------------------- the pages

  /** A query looks at its own run only. */
  lemma {:induction false} MatchingWithinRun(rows: seq<Row>, run: RunId, q: Query)
    ensures Matching(rows, run, q) == Matching(RowsOf(rows, run), run, q)
  {
    if rows != [] {
      var init, last := rows[..|rows| - 1], rows[|rows| - 1];
      MatchingWithinRun(init, run, q);
      var own := RowsOf(rows, run);
      if last.run == run {
        assert own[..|own| - 1] == RowsOf(init, run);
      } else {
        assert own == RowsOf(init, run);
      }
    }
  }

  lemma {:induction false} MatchingSelects(rows: seq<Row>, run: RunId, q: Query)
    ensures forall row :: row in Matching(rows, run, q) <==> row in rows && Wanted(row, run, q)
    ensures Ascending(rows) ==> Ascending(Matching(rows, run, q))
  {
    if rows != [] {
      var init, last := rows[..|rows| - 1], rows[|rows| - 1];
      MatchingSelects(init, run, q);
      assert rows == init + [last];
      if Ascending(rows) {
        AscendingPrefix(init, [last]);
        var m, n := Matching(init, run, q), Matching(rows, run, q);
        forall i, j | 0 <= i < j < |n| && n[i].run == n[j].run ensures n[i].seqno < n[j].seqno {
          assert n[i] in m;
          var k :| 0 <= k < |init| && init[k] == n[i];
          assert rows[k] == n[i] && rows[|rows| - 1] == last;
        }
      }
    }
  }

  ghost predicate Rising(rows: seq<Row>) {
    forall i, j :: 0 <= i < j < |rows| ==> rows[i].seqno < rows[j].seqno
  }

  lemma RunRowsAscend(rows: seq<Row>, run: RunId, q: Query)
    requires Ascending(rows)
    ensures Rising(Matching(rows, run, q))
  {
    MatchingSelects(rows, run, q);
    var all := Matching(rows, run, q);
    forall i, j | 0 <= i < j < |all| ensures all[i].seqno < all[j].seqno {
      assert all[i] in all && all[j] in all;
    }
  }

  lemma ClipKeepsSmallest(all: seq<Row>, n: nat, row: Row, p: Row)
    requires Rising(all)
    requires row in all && row !in Clip(all, n) && p in Clip(all, n)
    ensures |Clip(all, n)| == n && p.seqno < row.seqno
  {
    var page := Clip(all, n);
    var k :| 0 <= k < |all| && all[k] == row;
    var i :| 0 <= i < |page| && page[i] == p;
    assert forall m :: 0 <= m < |page| ==> page[m] == all[m] && page[m] in page;
    assert k >= |page|;
  }

  /** A page is the wanted rows in strictly ascending `seq` order, the smallest first. */
  lemma PageIsOrdered(cfg: Settings, s: State, run: RunId, q: Query)
    requires Reachable(cfg, s)
    ensures var page := Page(s.events, run, q);
            && Rising(page)
            && (forall row :: row in page ==> row in s.events && Wanted(row, run, q))
            && (forall row :: row in s.events && Wanted(row, run, q) && row !in page ==>
                  forall p :: p in page ==> |page| == q.limit && p.seqno < row.seqno)
  {
    SeqUniqueAndOrdered(cfg, s);
    RunRowsAscend(s.events, run, q);
    MatchingSelects(s.events, run, q);
    var all, page := Matching(s.events, run, q), Page(s.events, run, q);
    assert forall i :: 0 <= i < |page| ==> page[i] == all[i] && all[i] in all;
    forall row, p | row in s.events && Wanted(row, run, q) && row !in page && p in page
      ensures |page| == q.limit && p.seqno < row.seqno
    {
      assert row in all;
      ClipKeepsSmallest(all, q.limit, row, p);
    }
  }

  // ------------------------------------------------------------- the gaps, by trace

  lemma {:induction false} RunsAppend(cfg: Settings, s: State, a: seq<Step>, t: State, step: Step)
    requires Runs(cfg, s, a, t) && Enabled(t, step)
    ensures Runs(cfg, s, a + [step], Apply(cfg, t, step))
    decreases |a|
  {
    if a == [] {
      assert (a + [step])[1..] == [];
    } else {
      assert (a + [step])[1..] == a[1..] + [step];
      RunsAppend(cfg, Apply(cfg, s, a[0]), a[1..], t, step);
    }
  }

  lemma ReachableStep(cfg: Settings, s: State, step: Step)
    requires Reachable(cfg, s) && Enabled(s, step)
    ensures Reachable(cfg, Apply(cfg, s, step))
  {
    var a :| Runs(cfg, INIT, a, s);
    RunsAppend(cfg, INIT, a, s, step);
  }

  lemma OpenedRun(cfg: Settings) returns (s: State)
    ensures Reachable(cfg, s)
    ensures s == INIT.(runs := map[0 := RunRow(true, None, 0, 0)], seqs := map[0 := 0], active := Some(0))
  {
    assert Runs(cfg, INIT, [], INIT);
    ReachableStep(cfg, INIT, OpenStep(false, 0, 0));
    var s1 := Apply(cfg, INIT, OpenStep(false, 0, 0));
    ReachableStep(cfg, s1, OpenCommitStep(true));
    var s2 := Apply(cfg, s1, OpenCommitStep(true));
    ReachableStep(cfg, s2, OpenFinishStep);
    s := Apply(cfg, s2, OpenFinishStep);
    assert s.runs == map[0 := RunRow(true, None, 0, 0)] && s.seqs == map[0 := 0];
  }

  const NOTE := Body("note", "app", false, false, false, 0)

  const NOTE_EVENT := QueuedEvent(0, "note", "app", false, false, 0)

  lemma OneNote(cfg: Settings, s: State)
    requires s.active == Some(0) && !Full(cfg, s.queue)
    ensures Apply(cfg, s, SubmitStep([Valid(NOTE)])) ==
            s.(counters := s.counters.(received := s.counters.received + 1),
               queue := s.queue + [[NOTE_EVENT]], unfinished := s.unfinished + 1,
               accepted := s.accepted + [NOTE_EVENT])
  {
    var raws := [Valid(NOTE)];
    assert raws[..0] == [];
    assert IntakeOf(s.active, raws) == IntakeOne(s.active, 0, raws[0], NOTHING);
    assert IntakeOf(s.active, raws) == NOTHING.(accepted := [NOTE_EVENT]);
  }

  /** One body that cannot be parsed is enough to break the published reconciliation, for as
      long as nothing else is on its way. */
  lemma ReconciliationCanFail(cfg: Settings) returns (s: State)
    ensures Reachable(cfg, s) && s.queue == [] && s.writer.Idle?
    ensures var c := s.counters;
            c.received != c.written + (c.invalid + c.overflow + c.overBatch + c.writeError) + c.idle
  {
    assert Runs(cfg, INIT, [], INIT);
    ReachableStep(cfg, INIT, BadBodyStep);
    s := Apply(cfg, INIT, BadBodyStep);
  }

  /** An event submitted between the flush and the pointer reset is accepted for a run whose
      row is already closed, and is still queued when the close returns. */
  lemma CloseCanReturnBeforeTheLastEvents(cfg: Settings) returns (s: State)
    ensures Reachable(cfg, s)
    ensures 0 in s.closed && 0 in s.runs && !s.runs[0].active && s.lock.Free?
    ensures Flat(s.queue) == [NOTE_EVENT] && s.events == []
  {
    var s3 := HalfClosed(cfg);
    OneNote(cfg, s3);
    ReachableStep(cfg, s3, SubmitStep([Valid(NOTE)]));
    var s4 := Apply(cfg, s3, SubmitStep([Valid(NOTE)]));
    ReachableStep(cfg, s4, CloseFinishStep(1, 1));
    s := Apply(cfg, s4, CloseFinishStep(1, 1));
    assert s.queue == [[NOTE_EVENT]];
    FlatOne([NOTE_EVENT]);
  }

  /** A close of the first run that was let through, and whose row is stored. */
  lemma HalfClosed(cfg: Settings) returns (s: State)
    ensures Reachable(cfg, s)
    ensures s.active == Some(0) && s.queue == [] && s.events == [] && s.lock == CloseStored(0, Request(0))
    ensures 0 in s.runs && !s.runs[0].active && 1 !in s.runs
  {
    var s0 := OpenedRun(cfg);
    var goal := Close(0, false);
    ReachableStep(cfg, s0, CallStep(0, goal));
    var s1 := Apply(cfg, s0, CallStep(0, goal));
    ReachableStep(cfg, s1, CloseEnterStep(0));
    var s2 := Apply(cfg, s1, CloseEnterStep(0));
    ReachableStep(cfg, s2, CloseCommitStep(true, 1));
    s := Apply(cfg, s2, CloseCommitStep(true, 1));
  }

  /** A forced open closes the previous run without flushing: all of its queue is late. */
  lemma ForcedOpenDoesNotFlush(cfg: Settings) returns (s: State)
    ensures Reachable(cfg, s)
    ensures s.active == Some(1) && 0 in s.closed && s.lock.Free?
    ensures Flat(s.queue) == [NOTE_EVENT] && s.events == []
  {
    var s0 := OpenedRun(cfg);
    OneNote(cfg, s0);
    ReachableStep(cfg, s0, SubmitStep([Valid(NOTE)]));
    var s1 := Apply(cfg, s0, SubmitStep([Valid(NOTE)]));
    ReachableStep(cfg, s1, OpenStep(true, 1, 1));
    var s2 := Apply(cfg, s1, OpenStep(true, 1, 1));
    ReachableStep(cfg, s2, CloseCommitStep(true, 1));
    var s3 := Apply(cfg, s2, CloseCommitStep(true, 1));
    ReachableStep(cfg, s3, CloseFinishStep(1, 1));
    var s4 := Apply(cfg, s3, CloseFinishStep(1, 1));
    ReachableStep(cfg, s4, OpenCommitStep(true));
    var s5 := Apply(cfg, s4, OpenCommitStep(true));
    ReachableStep(cfg, s5, OpenFinishStep);
    s := Apply(cfg, s5, OpenFinishStep);
    assert s.queue == [[NOTE_EVENT]];
    FlatOne([NOTE_EVENT]);
  }

  lemma TakesOneNote(cfg: Settings, s: State)
    requires s.writer.Idle? && s.queue == [[NOTE_EVENT]]
    ensures Apply(cfg, s, WriterTakeStep) ==
            s.(queue := [], seqs := s.seqs[0 := SeqOf(s.seqs, 0) + 1],
               writer := Writing([Row(0, SeqOf(s.seqs, 0) + 1, NOTE_EVENT)], 1))
  {
    var items := [NOTE_EVENT];
    assert items[..0] == [];
    assert s.queue[1..] == [];
    assert Number(s.seqs, items[..0]) == Numbered([], s.seqs);
    assert Number(s.seqs, items).rows == [Row(0, SeqOf(s.seqs, 0) + 1, NOTE_EVENT)];
  }

  /** One note accepted and taken by the writer. */
  lemma OneTaken(cfg: Settings) returns (s: State)
    ensures Reachable(cfg, s)
    ensures s.active == Some(0) && s.queue == [] && s.unfinished == 1 && s.events == [] && s.seqs == map[0 := 1]
    ensures s.writer == Writing([Row(0, 1, NOTE_EVENT)], 1) && s.counters.writeError == 0
  {
    var s1 := OneAccepted(cfg);
    TakesOneNote(cfg, s1);
    ReachableStep(cfg, s1, WriterTakeStep);
    s := Apply(cfg, s1, WriterTakeStep);
    assert map[0 := 0][0 := 1] == map[0 := 1];
  }

  lemma OneAccepted(cfg: Settings) returns (s: State)
    ensures Reachable(cfg, s)
    ensures s.active == Some(0) && s.queue == [[NOTE_EVENT]] && s.unfinished == 1 && s.events == []
    ensures s.seqs == map[0 := 0] && s.writer.Idle? && s.counters.writeError == 0
  {
    var s0 := OpenedRun(cfg);
    OneNote(cfg, s0);
    ReachableStep(cfg, s0, SubmitStep([Valid(NOTE)]));
    s := Apply(cfg, s0, SubmitStep([Valid(NOTE)]));
  }

  /** And its write failed: the number is used up. */
  lemma OneFailedWrite(cfg: Settings) returns (s: State)
    ensures Reachable(cfg, s)
    ensures s.active == Some(0) && s.writer.Idle? && s.queue == [] && s.events == [] && s.seqs == map[0 := 1]
    ensures s.counters.writeError == 1
  {
    var s2 := OneTaken(cfg);
    ReachableStep(cfg, s2, WriterFailStep);
    s := Apply(cfg, s2, WriterFailStep);
  }

  /** A failed write burns its numbers: the first stored event of a run can carry number 2. */
  lemma FailedWriteBurnsNumbers(cfg: Settings) returns (s: State)
    ensures Reachable(cfg, s)
    ensures s.events == [Row(0, 2, NOTE_EVENT)] && s.counters.writeError == 1
  {
    var s3 := OneFailedWrite(cfg);
    OneNote(cfg, s3);
    ReachableStep(cfg, s3, SubmitStep([Valid(NOTE)]));
    var s4 := Apply(cfg, s3, SubmitStep([Valid(NOTE)]));
    assert s4.queue == [[NOTE_EVENT]];
    TakesOneNote(cfg, s4);
    ReachableStep(cfg, s4, WriterTakeStep);
    var s5 := Apply(cfg, s4, WriterTakeStep);
    ReachableStep(cfg, s5, WriterCommitStep);
    s := Apply(cfg, s5, WriterCommitStep);
  }
}
