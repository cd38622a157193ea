/**
 Opening, closing and reading from the call to the answer: what the pieces between two
 awaits come to when they are put together, with everything else going on in between.
 */
module CollectorRequests {
  import opened Common
  import opened CollectorModel
  import opened CollectorInvariants
  import opened CollectorTheorems
  import opened CollectorMeanings

  // ------------------------------------------------------------- waiting requests

  /** A request that still waits has something to wait for. */
  ghost predicate WaitsForSomething(s: State) {
    forall c :: c in s.clients && !s.clients[c].released ==> s.unfinished > 0
  }

  lemma WaitingStep(cfg: Settings, s: State, step: Step)
    requires Enabled(s, step) && QueueInv(s) && WaitsForSomething(s)
    ensures WaitsForSomething(Apply(cfg, s, step))
  {
    if Control(step) { WaitingControl(cfg, s, step); } else { WaitingOther(cfg, s, step); }
  }

  lemma WaitingControl(cfg: Settings, s: State, step: Step)
    requires Enabled(s, step) && Control(step) && QueueInv(s) && WaitsForSomething(s)
    ensures WaitsForSomething(Apply(cfg, s, step))
  {}

  lemma WaitingOther(cfg: Settings, s: State, step: Step)
    requires Enabled(s, step) && !Control(step) && QueueInv(s) && WaitsForSomething(s)
    ensures WaitsForSomething(Apply(cfg, s, step))
  {}

  lemma {:induction false} WaitingRuns(cfg: Settings, s: State, steps: seq<Step>, t: State)
    requires Inv(s) && WaitsForSomething(s) && Runs(cfg, s, steps, t)
    ensures WaitsForSomething(t)
    decreases |steps|
  {
    if steps != [] {
      InvStep(cfg, s, steps[0]);
      WaitingStep(cfg, s, steps[0]);
      WaitingRuns(cfg, Apply(cfg, s, steps[0]), steps[1..], t);
    }
  }

  /** No request waits for ever for want of work: as long as one is held back, the writer has
      a step to make; and with the queue empty and the writer idle none is held back. */
  lemma WriterCanGoOn(cfg: Settings, s: State, c: nat)
    requires Reachable(cfg, s) && c in s.clients && !s.clients[c].released
    ensures || Enabled(s, WriterTakeStep)
            || (Enabled(s, WriterCommitStep) && Enabled(s, WriterFailStep))
            || Enabled(s, WriterDoneStep)
    ensures s.queue != [] || !s.writer.Idle?
  {
    WaitingAlways(cfg, s);
    QueueAlways(cfg, s);
    BusyWriter(s, c);
  }

  lemma WaitingAlways(cfg: Settings, s: State)
    requires Reachable(cfg, s)
    ensures WaitsForSomething(s)
  {
    var steps :| Runs(cfg, INIT, steps, s);
    InvInit();
    WaitingRuns(cfg, INIT, steps, s);
  }

  lemma QueueAlways(cfg: Settings, s: State)
    requires Reachable(cfg, s)
    ensures QueueInv(s)
  {
    InvAlways(cfg, s);
  }

  lemma BusyWriter(s: State, c: nat)
    requires QueueInv(s) && WaitsForSomething(s) && c in s.clients && !s.clients[c].released
    ensures || Enabled(s, WriterTakeStep)
            || (Enabled(s, WriterCommitStep) && Enabled(s, WriterFailStep))
            || Enabled(s, WriterDoneStep)
    ensures s.queue != [] || !s.writer.Idle?
  {}

  // ------------------------------------------------------- from a call to its answer

  predicate CallsFor(step: Step, c: nat) { step.CallStep? && step.client == c }

  predicate SameRequest(a: Client, b: Client) { a.mark == b.mark && a.goal == b.goal && a.afterClose == b.afterClose }

  lemma RequestStep(cfg: Settings, s: State, step: Step, c: nat)
    requires Enabled(s, step) && !CallsFor(step, c) && c in Apply(cfg, s, step).clients
    ensures c in s.clients && SameRequest(s.clients[c], Apply(cfg, s, step).clients[c])
  {
    if step.SubmitStep? || step.CorrelateStep? {
      var batch := Intakes(cfg, s, step);
    } else {
      RequestOther(cfg, s, step, c);
    }
  }

  lemma RequestOther(cfg: Settings, s: State, step: Step, c: nat)
    requires Enabled(s, step) && !step.SubmitStep? && !step.CorrelateStep? && !CallsFor(step, c)
    requires c in Apply(cfg, s, step).clients
    ensures c in s.clients && SameRequest(s.clients[c], Apply(cfg, s, step).clients[c])
  {
    match step {
      case WriterFailStep => DoneKeepsRequest(s, WriterFail(s), c);
      case WriterDoneStep => DoneKeepsRequest(s, WriterDone(s), c);
      case _ => RequestPlain(cfg, s, step, c);
    }
  }

  lemma DoneKeepsRequest(s: State, t: State, c: nat)
    requires t.clients.Keys == s.clients.Keys && c in t.clients
    requires t.clients == s.clients || t.clients == map k | k in s.clients :: s.clients[k].(released := true)
    ensures c in s.clients && SameRequest(s.clients[c], t.clients[c])
  {}

  lemma RequestPlain(cfg: Settings, s: State, step: Step, c: nat)
    requires Enabled(s, step) && !step.SubmitStep? && !step.CorrelateStep? && !CallsFor(step, c)
    requires !step.WriterFailStep? && !step.WriterDoneStep? && c in Apply(cfg, s, step).clients
    ensures c in s.clients && s.clients[c] == Apply(cfg, s, step).clients[c]
  {}

  lemma {:induction false} RequestKept(cfg: Settings, s: State, steps: seq<Step>, t: State, c: nat)
    requires Runs(cfg, s, steps, t) && c in t.clients && forall step :: step in steps ==> !CallsFor(step, c)
    ensures c in s.clients && SameRequest(s.clients[c], t.clients[c])
    decreases |steps|
  {
    if steps != [] {
      RequestKept(cfg, Apply(cfg, s, steps[0]), steps[1..], t, c);
      RequestStep(cfg, s, steps[0], c);
    }
  }

  lemma {:induction false} AcceptedGrows(cfg: Settings, s: State, steps: seq<Step>, t: State)
    requires Runs(cfg, s, steps, t)
    ensures s.accepted <= t.accepted
    decreases |steps|
  {
    if steps != [] {
      var batch := OnlyActiveGrows(cfg, s, steps[0]);
      AcceptedGrows(cfg, Apply(cfg, s, steps[0]), steps[1..], t);
    }
  }

  lemma CalledIsReachable(cfg: Settings, s: State, c: nat, goal: Goal, steps: seq<Step>, t: State)
    requires Reachable(cfg, s) && c !in s.clients && Runs(cfg, Call(s, c, goal), steps, t)
    requires c in t.clients && forall step :: step in steps ==> !CallsFor(step, c)
    ensures Reachable(cfg, t) && s.accepted <= t.accepted
    ensures t.clients[c].mark == |s.accepted| && t.clients[c].goal == goal
    ensures t.clients[c].afterClose == (goal.run in s.closed)
  {
    ReachableStep(cfg, s, CallStep(c, goal));
    ReachableRuns(cfg, Call(s, c, goal), steps, t);
    RequestKept(cfg, Call(s, c, goal), steps, t, c);
    AcceptedGrows(cfg, Call(s, c, goal), steps, t);
  }

  lemma {:induction false} ReachableRuns(cfg: Settings, s: State, steps: seq<Step>, t: State)
    requires Reachable(cfg, s) && Runs(cfg, s, steps, t)
    ensures Reachable(cfg, t)
    decreases |steps|
  {
    if steps != [] {
      ReachableStep(cfg, s, steps[0]);
      ReachableRuns(cfg, Apply(cfg, s, steps[0]), steps[1..], t);
    }
  }

  /** A flush from the call to the moment its caller is let through, whatever happens in
      between: everything accepted before the call has been settled, in order. */
  lemma FlushFromCall(cfg: Settings, s: State, c: nat, goal: Goal, steps: seq<Step>, t: State)
    requires Reachable(cfg, s) && c !in s.clients && Runs(cfg, Call(s, c, goal), steps, t)
    requires c in t.clients && t.clients[c].released && forall step :: step in steps ==> !CallsFor(step, c)
    ensures |s.accepted| <= |t.settled| && Decided(t.settled)[..|s.accepted|] == s.accepted
  {
    CalledIsReachable(cfg, s, c, goal, steps, t);
    FlushContract(cfg, t, c);
    assert t.accepted[..|s.accepted|] == s.accepted;
  }

  /** A page from the call to the answer: it holds the first rows asked for that are stored
      by then, and if the run's close had returned before the call, nothing of the run is
      still on its way. */
  lemma PageFromCall(cfg: Settings, s: State, c: nat, run: RunId, q: Query, steps: seq<Step>, t: State)
    returns (p: PageRead)
    requires Reachable(cfg, s) && c !in s.clients && Runs(cfg, Call(s, c, Goal.Read(run, q)), steps, t)
    requires c in t.clients && t.clients[c].released && forall step :: step in steps ==> !CallsFor(step, c)
    ensures Enabled(t, ReadPageStep(c)) && Apply(cfg, t, ReadPageStep(c)).pages == t.pages + [p]
    ensures p.run == run && p.query == q && |p.page| <= q.limit
    ensures forall i, j :: 0 <= i < j < |p.page| ==> p.page[i].seqno < p.page[j].seqno
    ensures forall row :: row in p.page ==> row in t.events && Asked(row, run, q)
    ensures forall row :: row in t.events && Asked(row, run, q) && row !in p.page ==>
              |p.page| == q.limit && forall other :: other in p.page ==> other.seqno < row.seqno
    ensures run in s.closed ==> OfRun(t.accepted, run) == OfRun(Decided(t.settled), run)
  {
    CalledIsReachable(cfg, s, c, Goal.Read(run, q), steps, t);
    p := PageRead(run, q, |s.accepted|, run in s.closed, Page(t.events, run, q));
    PageMeaning(cfg, t, run, q);
    ReachableStep(cfg, t, ReadPageStep(c));
    var u := ReadPage(t, c);
    if run in s.closed {
      assert p in u.pages;
      ExportAfterClose(cfg, u, p);
    }
  }

  /** A close from the call to the lock: it closes the run it was called for, and by then
      everything accepted before the call has been settled. */
  lemma CloseFromCall(cfg: Settings, s: State, c: nat, run: RunId, merges: bool, steps: seq<Step>, t: State)
    requires Reachable(cfg, s) && c !in s.clients && Runs(cfg, Call(s, c, Goal.Close(run, merges)), steps, t)
    requires c in t.clients && t.clients[c].released && t.lock.Free?
    requires forall step :: step in steps ==> !CallsFor(step, c)
    ensures Enabled(t, CloseEnterStep(c))
    ensures Apply(cfg, t, CloseEnterStep(c)).lock == Closing(run, merges, Request(|s.accepted|))
    ensures |s.accepted| <= |t.settled| && Decided(t.settled)[..|s.accepted|] == s.accepted
  {
    CalledIsReachable(cfg, s, c, Goal.Close(run, merges), steps, t);
    FlushFromCall(cfg, s, c, Goal.Close(run, merges), steps, t);
  }

  // ------------------------------------------------------------ opening and closing

  /** A close that finds its run active, or brings addresses: the row is inactive afterwards
      and closed at the time of this commit unless it was closed before, the pointer has let
      go of the run and of no other, and the return is on record. */
  lemma CloseWorks(s: State, now: Time, newId: RunId, later: Time)
    requires s.lock.Closing? && s.lock.run in s.runs && s.lock.caller.Request?
    requires s.runs[s.lock.run].active || s.lock.merges
    ensures var run, row := s.lock.run, s.runs[s.lock.run];
            CloseCommit(s, true, now).lock.CloseStored?
            && CloseFinish(CloseCommit(s, true, now), newId, later)
               == s.(runs := s.runs[run := RunRow(false, Some(if row.closedAt.Some? then row.closedAt.value else now),
                                                  row.startedAt, row.eventCount)],
                     active := if s.active == Some(run) then None else s.active,
                     lock := Free,
                     closed := s.closed + {run},
                     returned := s.returned + [Return(run, s.lock.caller, |s.accepted|, |s.settled|)])
  {}

  /** A closing time appears in one way only: a close of that run commits at that time. */
  lemma ClosedAtIsTimeOfClose(cfg: Settings, s: State, step: Step, run: RunId)
    requires Enabled(s, step) && run in s.runs && s.runs[run].closedAt.None?
    requires KnownInv(s)
    ensures var t := Apply(cfg, s, step);
            run in t.runs
            && (t.runs[run].closedAt.Some? ==>
                  && step == CloseCommitStep(true, t.runs[run].closedAt.value)
                  && s.lock.Closing? && s.lock.run == run && !t.runs[run].active)
  {
    if step.SubmitStep? || step.CorrelateStep? { var batch := Intakes(cfg, s, step); }
  }

  /** An open with no run active: one more row, active from the time of the call on, and the
      pointer and the numbering are on it. */
  lemma OpenWorks(s: State, force: bool, id: RunId, now: Time)
    requires s.lock.Free? && s.active.None? && id !in s.runs
    ensures Open(s, force, id, now).lock.Inserting? && OpenCommit(Open(s, force, id, now), true).lock.Inserted?
    ensures OpenFinish(OpenCommit(Open(s, force, id, now), true))
            == s.(runs := s.runs[id := RunRow(true, None, now, 0)], seqs := s.seqs[id := 0],
                  active := Some(id), lock := Free)
  {}

  /** A forced open over an active run: the old one is closed and the new one open. */
  lemma ForcedOpenWorks(s: State, first: RunId, called: Time, closed: Time, id: RunId, now: Time)
    requires s.lock.Free? && s.active.Some? && s.active.value in s.runs && s.runs[s.active.value].active
    requires s.runs[s.active.value].closedAt.None? && id !in s.runs
    ensures var old1, row := s.active.value, s.runs[s.active.value];
            var s1 := Open(s, true, first, called);
            s1.lock.Closing? && CloseCommit(s1, true, closed).lock.CloseStored?
            && var s3 := CloseFinish(CloseCommit(s1, true, closed), id, now);
            s3.lock.Inserting? && OpenCommit(s3, true).lock.Inserted?
            && OpenFinish(OpenCommit(s3, true))
               == s.(runs := s.runs[old1 := RunRow(false, Some(closed), row.startedAt, row.eventCount)]
                                   [id := RunRow(true, None, now, 0)],
                     seqs := s.seqs[id := 0], active := Some(id), lock := Free, closed := s.closed + {old1},
                     returned := s.returned + [Return(old1, ForOpen, |s.accepted|, |s.settled|)])
  {}

  /** Without force nothing happens while a run is active. */
  lemma OpenRefused(s: State, id: RunId, now: Time)
    requires s.active.Some?
    ensures Open(s, false, id, now) == s
  {}

  // -------------------------------------------------------- what the counters count

  predicate IsWritten(f: Fate) { f.Stored? }

  predicate IsFailure(f: Fate) { f.WriteFailed? }

  /** Where the present process began. */
  function SinceCrash(s: State): seq<Fate>
    requires s.crashes != [] ==> s.crashes[|s.crashes| - 1] <= |s.settled|
  {
    if s.crashes == [] then s.settled else s.settled[s.crashes[|s.crashes| - 1]..]
  }

  ghost predicate CountersTell(s: State) {
    && (s.crashes != [] ==> s.crashes[|s.crashes| - 1] <= |s.settled|)
    && s.counters.writeError == CountIf(SinceCrash(s), IsFailure)
    && s.counters.written + (if s.writer.Committed? then |s.writer.rows| else 0) == CountIf(SinceCrash(s), IsWritten)
  }

  lemma MoreSettled(s: State, t: State, more: seq<Fate>)
    requires CountersTell(s) && t.settled == s.settled + more && t.crashes == s.crashes
    ensures s.crashes != [] ==> s.crashes[|s.crashes| - 1] <= |t.settled|
    ensures CountIf(SinceCrash(t), IsFailure) == CountIf(SinceCrash(s), IsFailure) + CountIf(more, IsFailure)
    ensures CountIf(SinceCrash(t), IsWritten) == CountIf(SinceCrash(s), IsWritten) + CountIf(more, IsWritten)
  {
    assert SinceCrash(t) == SinceCrash(s) + more;
    CountIfAppend(SinceCrash(s), more, IsFailure);
    CountIfAppend(SinceCrash(s), more, IsWritten);
  }

  lemma OneKind(rows: seq<Row>)
    ensures CountIf(StoredAll(rows), IsWritten) == |rows| && CountIf(StoredAll(rows), IsFailure) == 0
    ensures CountIf(FailedAll(rows), IsFailure) == |rows| && CountIf(FailedAll(rows), IsWritten) == 0
  {
    var all := Places(|rows|);
    PlacesAre(|rows|);
    CountIs(StoredAll(rows), IsWritten, all);
    CountIs(StoredAll(rows), IsFailure, {});
    CountIs(FailedAll(rows), IsFailure, all);
    CountIs(FailedAll(rows), IsWritten, {});
  }

  function Places(n: nat): set<int> { if n == 0 then {} else Places(n - 1) + {n - 1} }

  lemma {:induction false} PlacesAre(n: nat)
    ensures |Places(n)| == n && forall i :: i in Places(n) <==> 0 <= i < n
  {
    if n > 0 { PlacesAre(n - 1); }
  }

  lemma TellStep(cfg: Settings, s: State, step: Step)
    requires Enabled(s, step) && CountersTell(s)
    ensures CountersTell(Apply(cfg, s, step))
  {
    match step {
      case WriterCommitStep =>
        OneKind(s.writer.rows);
        MoreSettled(s, WriterCommit(s), StoredAll(s.writer.rows));
      case WriterFailStep =>
        OneKind(s.writer.rows);
        MoreSettled(s, WriterFail(s), FailedAll(s.writer.rows));
      case CrashStep(pick) => TellCrash(s, pick);
      case _ => TellOther(cfg, s, step);
    }
  }

  lemma TellCrash(s: State, pick: Option<RunId>)
    ensures CountersTell(Crash(s, pick))
  {
    var t := Crash(s, pick);
    assert SinceCrash(t) == [];
    CountIfNone(IsFailure);
    CountIfNone(IsWritten);
  }

  /** Nothing that the two counters are about has changed. */
  ghost predicate TellsSame(s: State, t: State) {
    && t.settled == s.settled && t.crashes == s.crashes
    && t.counters.writeError == s.counters.writeError
    && t.counters.written + (if t.writer.Committed? then |t.writer.rows| else 0)
       == s.counters.written + (if s.writer.Committed? then |s.writer.rows| else 0)
  }

  lemma TellOther(cfg: Settings, s: State, step: Step)
    requires Enabled(s, step) && CountersTell(s) && !step.WriterCommitStep? && !step.WriterFailStep? && !step.CrashStep?
    ensures CountersTell(Apply(cfg, s, step))
  {
    match step {
      case SubmitStep(raws) => SubmitTells(cfg, s, raws);
      case CorrelateStep(b) => CorrelateTells(cfg, s, b);
      case WriterDoneStep => DoneTells(s);
      case _ => FrameTells(cfg, s, step);
    }
    assert TellsSame(s, Apply(cfg, s, step));
  }

  lemma SubmitTells(cfg: Settings, s: State, raws: seq<Raw>)
    ensures TellsSame(s, Submit(cfg, s, raws))
  {}

  lemma CorrelateTells(cfg: Settings, s: State, b: Body)
    ensures TellsSame(s, Correlate(cfg, s, b))
  {}

  lemma DoneTells(s: State)
    requires s.writer.Committed?
    ensures TellsSame(s, WriterDone(s))
  {}

  lemma FrameTells(cfg: Settings, s: State, step: Step)
    requires Enabled(s, step) && (Control(step) || step.BadBodyStep? || step.WriterTakeStep?)
    ensures TellsSame(s, Apply(cfg, s, step))
  {}

  lemma {:induction false} TellRuns(cfg: Settings, s: State, steps: seq<Step>, t: State)
    requires CountersTell(s) && Runs(cfg, s, steps, t)
    ensures CountersTell(t)
    decreases |steps|
  {
    if steps != [] {
      TellStep(cfg, s, steps[0]);
      TellRuns(cfg, Apply(cfg, s, steps[0]), steps[1..], t);
    }
  }

  /** The counters of a process are about this process: at every moment `write_errors` is the
      number of events whose write failed since it began, and `written` that of the rows
      stored since, less a transaction that is committed but not yet counted. */
  lemma WriterCountersTell(cfg: Settings, s: State)
    requires Reachable(cfg, s)
    ensures CountersTell(s)
  {
    var steps :| Runs(cfg, INIT, steps, s);
    CountIfNone(IsFailure);
    CountIfNone(IsWritten);
    TellRuns(cfg, INIT, steps, s);
  }
}
