/**
 What a close has promised by the time it returns, and what a forced open leaves behind.
 A close that was asked for carries the mark of its caller from the flush to its return.
 */
module CollectorCloses {
  import opened Common
  import opened CollectorModel
  import opened CollectorInvariants
  import opened CollectorTheorems

  ghost predicate MarkKept(s: State, caller: Caller) { caller.Request? ==> caller.mark <= |s.settled| }

  ghost predicate ReturnKept(s: State, ret: Return) {
    && ret.settled <= |s.settled| && ret.settled <= ret.accepted <= |s.accepted|
    && (ret.caller.Request? ==> ret.caller.mark <= ret.settled)
    && ret.run in s.closed && QuietSince(s, ret.run, ret.accepted)
  }

  /** Whoever is closing a run found everything accepted before the call settled; and every
      close that returned did so at a moment that is on record. */
  ghost predicate ReturnInv(s: State) {
    && (s.lock.Closing? || s.lock.CloseStored? ==> MarkKept(s, s.lock.caller))
    && (forall ret :: ret in s.returned ==> ReturnKept(s, ret))
  }

  lemma LockStep(cfg: Settings, s: State, step: Step)
    requires Enabled(s, step) && ReaderInv(s)
    requires s.lock.Closing? || s.lock.CloseStored? ==> MarkKept(s, s.lock.caller)
    ensures var t := Apply(cfg, s, step);
            t.lock.Closing? || t.lock.CloseStored? ==> MarkKept(t, t.lock.caller)
  {
    if step.SubmitStep? || step.CorrelateStep? {
      var batch := Intakes(cfg, s, step);
    } else if step.CloseEnterStep? {
      assert ClientInv(s, s.clients[step.client]);
    }
  }

  /** A return on record stays right: the run is closed, so nothing of it is accepted again. */
  lemma OldReturnStep(cfg: Settings, s: State, step: Step, ret: Return)
    requires Enabled(s, step) && RunInv(s) && ReturnKept(s, ret)
    ensures ReturnKept(Apply(cfg, s, step), ret)
  {
    var batch := OnlyActiveGrows(cfg, s, step);
    var t := Apply(cfg, s, step);
    forall i | ret.accepted <= i < |t.accepted| ensures t.accepted[i].run != ret.run {
      if i >= |s.accepted| { assert t.accepted[i] in batch; }
    }
    SettledGrows(cfg, s, step);
  }

  lemma SettledGrows(cfg: Settings, s: State, step: Step)
    requires Enabled(s, step)
    ensures s.settled <= Apply(cfg, s, step).settled && s.closed <= Apply(cfg, s, step).closed
    ensures var t := Apply(cfg, s, step); s.returned <= t.returned && (!step.CloseFinishStep? ==> t.returned == s.returned)
  {
    if step.SubmitStep? || step.CorrelateStep? { var batch := Intakes(cfg, s, step); }
  }

  lemma SettledIsAccepted(s: State)
    requires LedgerInv(s)
    ensures |s.settled| <= |s.accepted|
  {
    assert |Decided(s.settled)| == |s.settled|;
  }

  lemma NewReturn(s: State, newId: RunId, now: Time)
    requires s.lock.CloseStored? && MarkKept(s, s.lock.caller) && LedgerInv(s)
    ensures ReturnKept(CloseFinish(s, newId, now), Return(s.lock.run, s.lock.caller, |s.accepted|, |s.settled|))
  {
    SettledIsAccepted(s);
  }

  lemma ReturnStep(cfg: Settings, s: State, step: Step)
    requires Enabled(s, step) && Inv(s) && ReturnInv(s)
    ensures ReturnInv(Apply(cfg, s, step))
  {
    LockStep(cfg, s, step);
    SettledGrows(cfg, s, step);
    var t := Apply(cfg, s, step);
    if step.CloseFinishStep? { NewReturn(s, step.newId, step.now); }
    forall ret | ret in t.returned ensures ReturnKept(t, ret) {
      if ret in s.returned { OldReturnStep(cfg, s, step, ret); }
    }
  }

  lemma {:induction false} ReturnRuns(cfg: Settings, s: State, steps: seq<Step>, t: State)
    requires Inv(s) && ReturnInv(s) && Runs(cfg, s, steps, t)
    ensures ReturnInv(t)
    decreases |steps|
  {
    if steps != [] {
      InvStep(cfg, s, steps[0]);
      ReturnStep(cfg, s, steps[0]);
      ReturnRuns(cfg, Apply(cfg, s, steps[0]), steps[1..], t);
    }
  }

  lemma ReturnAlways(cfg: Settings, s: State)
    requires Reachable(cfg, s)
    ensures ReturnInv(s)
  {
    var steps :| Runs(cfg, INIT, steps, s);
    InvInit();
    ReturnRuns(cfg, INIT, steps, s);
  }

  /** The events of the run that a close found accepted and not yet settled as it returned. */
  function LeftOver(s: State, ret: Return): seq<QueuedEvent>
    requires ret.settled <= ret.accepted <= |s.accepted|
  {
    OfRun(s.accepted[ret.settled..ret.accepted], ret.run)
  }

  lemma OfRunSplit(evs: seq<QueuedEvent>, run: RunId, i: nat, j: nat, k: nat)
    requires i <= j <= k <= |evs|
    ensures OfRun(evs[i..k], run) == OfRun(evs[i..j], run) + OfRun(evs[j..k], run)
  {
    assert evs[i..k] == evs[i..j] + evs[j..k];
    OfRunAppend(evs[i..j], evs[j..k], run);
  }

  /** What a close that was asked for guarantees: everything accepted before the call was
      settled before the return, so whatever of the run was left over is the end of what was
      accepted between the call and the return. */
  lemma CloseReturnMeans(cfg: Settings, s: State, ret: Return)
    requires Reachable(cfg, s) && ret in s.returned && ret.caller.Request?
    ensures ret.caller.mark <= ret.settled <= ret.accepted <= |s.accepted| && ret.settled <= |s.settled|
    ensures Decided(s.settled)[..ret.settled] == s.accepted[..ret.settled]
    ensures OfRun(s.accepted[ret.caller.mark..ret.accepted], ret.run)
            == OfRun(s.accepted[ret.caller.mark..ret.settled], ret.run) + LeftOver(s, ret)
  {
    ReturnAlways(cfg, s);
    assert ReturnKept(s, ret);
    var rest := SettledAndRest(cfg, s);
    assert |Decided(s.settled)| == |s.settled|;
    OfRunSplit(s.accepted, ret.run, ret.caller.mark, ret.settled, ret.accepted);
  }

  /** A close of a run to which nothing came between the call and the return leaves nothing
      over: every event ever accepted for the run was settled by then. */
  lemma NothingLeftOver(cfg: Settings, s: State, ret: Return)
    requires Reachable(cfg, s) && ret in s.returned && ret.caller.Request?
    requires ret.caller.mark <= ret.accepted <= |s.accepted|
    requires OfRun(s.accepted[ret.caller.mark..ret.accepted], ret.run) == []
    ensures ret.settled <= |s.settled|
    ensures OfRun(s.accepted, ret.run) == OfRun(Decided(s.settled)[..ret.settled], ret.run)
  {
    CloseReturnMeans(cfg, s, ret);
    ReturnAlways(cfg, s);
    assert ReturnKept(s, ret);
    var a := s.accepted;
    OfRunNone(a[ret.accepted..], ret.run);
    OfRunSplit(a, ret.run, 0, ret.settled, ret.accepted);
    OfRunSplit(a, ret.run, 0, ret.accepted, |a|);
    assert a[0..|a|] == a && a[ret.accepted..|a|] == a[ret.accepted..] && a[0..ret.settled] == a[..ret.settled];
    assert LeftOver(s, ret) == [];
    assert OfRun(a[..ret.settled], ret.run) + [] + [] == OfRun(a[..ret.settled], ret.run);
  }

  /** The events of the run still on their way: in the transaction or in the queue. */
  function OnTheWay(s: State, run: RunId): seq<QueuedEvent> {
    OfRun(InTransaction(s.writer) + Flat(s.queue), run)
  }

  lemma SettledThenOnTheWay(cfg: Settings, s: State, run: RunId)
    requires Reachable(cfg, s)
    ensures OfRun(s.accepted, run) == OfRun(Decided(s.settled), run) + OnTheWay(s, run)
  {
    InvAlways(cfg, s);
    var rest := LedgerRest(s);
    OfRunAppend(Decided(s.settled), rest, run);
  }

  lemma {:induction false} SettledRuns(cfg: Settings, s: State, steps: seq<Step>, t: State)
    requires Runs(cfg, s, steps, t)
    ensures s.settled <= t.settled
    decreases |steps|
  {
    if steps != [] {
      SettledGrows(cfg, s, steps[0]);
      SettledRuns(cfg, Apply(cfg, s, steps[0]), steps[1..], t);
    }
  }

  /** What a forced open (or any close) leaves on its way only drains: at every later moment
      what is left is the end of what was left, in order, and nothing has joined it. */
  lemma LeavingsDrain(cfg: Settings, s: State, steps: seq<Step>, t: State, r: RunId) returns (gone: seq<QueuedEvent>)
    requires Reachable(cfg, s) && Runs(cfg, s, steps, t) && Reachable(cfg, t) && r in s.closed
    ensures OnTheWay(s, r) == gone + OnTheWay(t, r)
  {
    SettledThenOnTheWay(cfg, s, r);
    SettledThenOnTheWay(cfg, t, r);
    ClosedIsFrozen(cfg, s, steps, t, r);
    SettledRuns(cfg, s, steps, t);
    gone := DecidedSince(s.settled, t.settled, r);
    SamePrefix(OfRun(Decided(s.settled), r), OnTheWay(s, r), gone, OnTheWay(t, r));
  }

  lemma DecidedSince(before: seq<Fate>, after: seq<Fate>, r: RunId) returns (since: seq<QueuedEvent>)
    requires before <= after
    ensures OfRun(Decided(after), r) == OfRun(Decided(before), r) + since
  {
    var more := after[|before|..];
    assert after == before + more;
    DecidedAppend(before, more);
    OfRunAppend(Decided(before), Decided(more), r);
    since := OfRun(Decided(more), r);
  }

  lemma SamePrefix(d: seq<QueuedEvent>, x: seq<QueuedEvent>, a: seq<QueuedEvent>, b: seq<QueuedEvent>)
    requires d + x == d + a + b
    ensures x == a + b
  {
    assert (d + x)[|d|..] == x;
    assert d + a + b == d + (a + b);
    assert (d + (a + b))[|d|..] == a + b;
  }

  /** And all of it has landed or failed for whoever is let through a flush afterwards. */
  lemma LeavingsAreGoneAfterFlush(cfg: Settings, s: State, ret: Return, c: nat)
    requires Reachable(cfg, s) && ret in s.returned
    requires c in s.clients && s.clients[c].released && s.clients[c].mark >= ret.accepted
    ensures OnTheWay(s, ret.run) == []
  {
    ReturnAlways(cfg, s);
    assert ReturnKept(s, ret);
    FlushContract(cfg, s, c);
    InvAlways(cfg, s);
    QuietRest(s, ret.run, ret.accepted);
  }

  lemma QuietRest(s: State, run: RunId, mark: nat)
    requires LedgerInv(s) && QuietSince(s, run, mark) && mark <= |s.settled|
    ensures OnTheWay(s, run) == []
  {
    var rest := LedgerRest(s);
    forall e | e in rest ensures e.run != run {
      var i :| 0 <= i < |rest| && rest[i] == e;
      assert s.accepted[|s.settled| + i] == e;
    }
    OfRunNone(rest, run);
  }
}
