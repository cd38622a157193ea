/**
 Gaps in the numbers of a run. A failed write burns the numbers it used, and a crash gives
 back the burnt ones that no stored row has passed yet; nothing else leaves a gap.
 */
module CollectorNumbers {
  import opened Common
  import opened CollectorModel
  import opened CollectorInvariants
  import CollectorTheorems

  predicate FailedAt(settled: seq<Fate>, r: RunId, i: nat) {
    i < |settled| && settled[i].WriteFailed? && settled[i].ev.run == r
  }

  predicate StoredAt(settled: seq<Fate>, r: RunId, j: nat) {
    j < |settled| && settled[j].Stored? && settled[j].row.run == r
  }

  /** A write of the run failed, and a later one landed with no crash between them. */
  ghost predicate Burnt(settled: seq<Fate>, crashes: seq<nat>, r: RunId, i: nat, j: nat) {
    i < j && FailedAt(settled, r, i) && StoredAt(settled, r, j) && forall c :: c in crashes ==> c <= i || j < c
  }

  ghost predicate Gapped(settled: seq<Fate>, crashes: seq<nat>, r: RunId) {
    exists i: nat, j: nat :: Burnt(settled, crashes, r, i, j)
  }

  /** A write of the run failed since the last crash. */
  ghost predicate FailedNow(settled: seq<Fate>, crashes: seq<nat>, r: RunId) {
    exists i: nat :: FailedAt(settled, r, i) && forall c :: c in crashes ==> c <= i
  }

  /** The largest number and the number of rows agree unless there is a gap; and `base`, the
      counter without what the transaction holds, agrees with both unless a write failed. */
  ghost predicate Tight(events: seq<Row>, settled: seq<Fate>, crashes: seq<nat>, r: RunId, base: Option<int>) {
    var n, last := |RowsOf(events, r)|, MaxSeq(events, r);
    && n <= last
    && (n == last <==> !Gapped(settled, crashes, r))
    && (base.Some? ==>
          && last <= base.value
          && (!FailedNow(settled, crashes, r) ==> base.value == last)
          && (FailedNow(settled, crashes, r) && n == last ==> last < base.value))
  }

  ghost predicate CountedFrom(rows: seq<Row>, base: int) {
    forall k :: 0 <= k < |rows| ==> rows[k].seqno == base + k + 1
  }

  function Base(s: State, r: RunId): Option<int> {
    if r in s.seqs then Some(s.seqs[r] - |RowsOf(PendingRows(s.writer), r)|) else None
  }

  ghost predicate TightAt(s: State, r: RunId) {
    && Tight(s.events, s.settled, s.crashes, r, Base(s, r))
    && (r in s.seqs ==> CountedFrom(RowsOf(PendingRows(s.writer), r), Base(s, r).value))
  }

  ghost predicate NumbersInv(s: State) {
    && (forall c :: c in s.crashes ==> c <= |s.settled|)
    && (forall r :: TightAt(s, r))
  }

  // ------------------------------------------------------------------ the numbering

  lemma RowsOfSnoc(rows: seq<Row>, row: Row, r: RunId)
    ensures RowsOf(rows + [row], r) == RowsOf(rows, r) + (if row.run == r then [row] else [])
  {
    assert (rows + [row])[..|rows|] == rows;
  }

  lemma {:induction false} NumberCounts(seqs: map<RunId, nat>, items: seq<QueuedEvent>, r: RunId)
    ensures var n := Number(seqs, items);
            && SeqOf(n.seqs, r) == SeqOf(seqs, r) + |RowsOf(n.rows, r)|
            && CountedFrom(RowsOf(n.rows, r), SeqOf(seqs, r))
  {
    if items != [] {
      var init, ev := items[..|items| - 1], items[|items| - 1];
      NumberCounts(seqs, init, r);
      OneNumbered(Number(seqs, init), ev, r, SeqOf(seqs, r));
    }
  }

  lemma OneNumbered(n: Numbered, ev: QueuedEvent, r: RunId, base: nat)
    requires SeqOf(n.seqs, r) == base + |RowsOf(n.rows, r)| && CountedFrom(RowsOf(n.rows, r), base)
    ensures var next := SeqOf(n.seqs, ev.run) + 1;
            var rows := n.rows + [Row(ev.run, next, ev)];
            && SeqOf(n.seqs[ev.run := next], r) == base + |RowsOf(rows, r)|
            && CountedFrom(RowsOf(rows, r), base)
  {
    RowsOfSnoc(n.rows, Row(ev.run, SeqOf(n.seqs, ev.run) + 1, ev), r);
  }

  lemma {:induction false} MaxSeqAppend(a: seq<Row>, b: seq<Row>, r: RunId)
    ensures MaxSeq(a + b, r) == Max(MaxSeq(a, r), MaxSeq(b, r))
  {
    if b == [] {
      assert a + b == a;
    } else {
      assert (a + b)[..|a + b| - 1] == a + b[..|b| - 1];
      MaxSeqAppend(a, b[..|b| - 1], r);
    }
  }

  lemma {:induction false} MaxSeqNumbered(rows: seq<Row>, r: RunId, base: nat)
    requires CountedFrom(RowsOf(rows, r), base)
    ensures MaxSeq(rows, r) == (if RowsOf(rows, r) == [] then 0 else base + |RowsOf(rows, r)|)
  {
    if rows != [] {
      var init := rows[..|rows| - 1];
      var own := RowsOf(rows, r);
      if rows[|rows| - 1].run == r {
        assert own[..|own| - 1] == RowsOf(init, r);
        assert own[|own| - 1] == rows[|rows| - 1];
        assert CountedFrom(RowsOf(init, r), base) by {
          forall k | 0 <= k < |RowsOf(init, r)| ensures RowsOf(init, r)[k].seqno == base + k + 1 {
            assert own[k] == RowsOf(init, r)[k];
          }
        }
      } else {
        assert own == RowsOf(init, r);
      }
      MaxSeqNumbered(init, r, base);
    }
  }

  lemma {:induction false} RowsOfHas(rows: seq<Row>, r: RunId)
    ensures RowsOf(rows, r) != [] <==> exists k :: 0 <= k < |rows| && rows[k].run == r
  {
    if rows != [] {
      var init := rows[..|rows| - 1];
      RowsOfHas(init, r);
      if RowsOf(init, r) != [] {
        var k :| 0 <= k < |init| && init[k].run == r;
        assert rows[k].run == r;
      }
      if k :| 0 <= k < |rows| && rows[k].run == r {
        if k < |init| { assert init[k].run == r; }
      }
      if rows[|rows| - 1].run == r { assert rows[|rows| - 1].run == r; }
    }
  }

  // ------------------------------------------------------- fates added at the end

  /** Fates that say nothing of `r` change none of the three notions. */
  lemma OtherFates(settled: seq<Fate>, more: seq<Fate>, crashes: seq<nat>, r: RunId)
    requires forall i :: 0 <= i < |more| ==> !FailedAt(more, r, i) && !StoredAt(more, r, i)
    ensures Gapped(settled + more, crashes, r) <==> Gapped(settled, crashes, r)
    ensures FailedNow(settled + more, crashes, r) <==> FailedNow(settled, crashes, r)
  {
    var all := settled + more;
    forall i: nat ensures FailedAt(all, r, i) <==> FailedAt(settled, r, i) {
      if |settled| <= i < |all| { assert all[i] == more[i - |settled|] && !FailedAt(more, r, i - |settled|); }
    }
    forall i: nat ensures StoredAt(all, r, i) <==> StoredAt(settled, r, i) {
      if |settled| <= i < |all| { assert all[i] == more[i - |settled|] && !StoredAt(more, r, i - |settled|); }
    }
    forall i: nat, j: nat ensures Burnt(all, crashes, r, i, j) <==> Burnt(settled, crashes, r, i, j) {}
  }

  /** Rows of `r` landed: there is a gap now if there was one, or a write failed since the
      last crash. */
  lemma StoredFates(settled: seq<Fate>, rows: seq<Row>, crashes: seq<nat>, r: RunId)
    requires forall c :: c in crashes ==> c <= |settled|
    requires RowsOf(rows, r) != []
    ensures var all := settled + StoredAll(rows);
            && (Gapped(all, crashes, r) <==> Gapped(settled, crashes, r) || FailedNow(settled, crashes, r))
            && (FailedNow(all, crashes, r) <==> FailedNow(settled, crashes, r))
  {
    var all := settled + StoredAll(rows);
    forall i: nat ensures FailedAt(all, r, i) <==> FailedAt(settled, r, i) {}
    if FailedNow(settled, crashes, r) {
      var i: nat :| FailedAt(settled, r, i) && forall c :: c in crashes ==> c <= i;
      RowsOfHas(rows, r);
      var k :| 0 <= k < |rows| && rows[k].run == r;
      assert all[|settled| + k] == Stored(rows[k]);
      assert Burnt(all, crashes, r, i, |settled| + k);
    }
    if Gapped(settled, crashes, r) {
      var i: nat, j: nat :| Burnt(settled, crashes, r, i, j);
      assert Burnt(all, crashes, r, i, j);
    }
    if Gapped(all, crashes, r) {
      var i: nat, j: nat :| Burnt(all, crashes, r, i, j);
      if j < |settled| {
        assert Burnt(settled, crashes, r, i, j);
      } else {
        assert FailedAt(settled, r, i);
      }
    }
  }

  lemma FailedFates(settled: seq<Fate>, rows: seq<Row>, crashes: seq<nat>, r: RunId)
    requires forall c :: c in crashes ==> c <= |settled|
    requires RowsOf(rows, r) != [] && forall row :: row in rows ==> row.ev.run == row.run
    ensures var all := settled + FailedAll(rows);
            && (Gapped(all, crashes, r) <==> Gapped(settled, crashes, r))
            && FailedNow(all, crashes, r)
  {
    var all := settled + FailedAll(rows);
    forall j: nat ensures StoredAt(all, r, j) <==> StoredAt(settled, r, j) {}
    forall i: nat, j: nat ensures Burnt(all, crashes, r, i, j) <==> Burnt(settled, crashes, r, i, j) {}
    RowsOfHas(rows, r);
    var k :| 0 <= k < |rows| && rows[k].run == r;
    assert rows[k] in rows && all[|settled| + k] == WriteFailed(rows[k].ev);
    assert FailedAt(all, r, |settled| + k);
  }

  /** A crash forgives the failures that no stored row has passed. */
  lemma CrashFates(settled: seq<Fate>, lost: seq<QueuedEvent>, crashes: seq<nat>, r: RunId)
    ensures var all := settled + LostAll(lost);
            && (Gapped(all, crashes + [|all|], r) <==> Gapped(settled, crashes, r))
            && !FailedNow(all, crashes + [|all|], r)
  {
    var all := settled + LostAll(lost);
    var later := crashes + [|all|];
    assert |all| in later;
    forall c ensures c in later <==> c in crashes || c == |all| {}
    forall i: nat ensures FailedAt(all, r, i) <==> FailedAt(settled, r, i) {}
    forall j: nat ensures StoredAt(all, r, j) <==> StoredAt(settled, r, j) {}
    forall i: nat, j: nat ensures Burnt(all, later, r, i, j) <==> Burnt(settled, crashes, r, i, j) {}
  }

  // ------------------------------------------------------------------ preservation

  lemma NoneOfRun(rows: seq<Row>, r: RunId, more: seq<Fate>)
    requires RowsOf(rows, r) == []
    requires more == StoredAll(rows) || (more == FailedAll(rows) && forall row :: row in rows ==> row.ev.run == row.run)
    ensures forall i :: 0 <= i < |more| ==> !FailedAt(more, r, i) && !StoredAt(more, r, i)
  {
    RowsOfHas(rows, r);
    forall i | 0 <= i < |more| ensures !FailedAt(more, r, i) && !StoredAt(more, r, i) {
      assert rows[i] in rows && rows[i].run != r;
    }
  }

  lemma CommitTight(s: State, r: RunId)
    requires s.writer.Writing? && TightAt(s, r) && (forall c :: c in s.crashes ==> c <= |s.settled|)
    requires RowsOf(s.writer.rows, r) != [] ==> r in s.seqs
    ensures TightAt(WriterCommit(s), r)
  {
    var rows := s.writer.rows;
    var own := RowsOf(rows, r);
    RowsOfAppend(s.events, rows, r);
    MaxSeqAppend(s.events, rows, r);
    if own == [] {
      NoneOfRun(rows, r, StoredAll(rows));
      OtherFates(s.settled, StoredAll(rows), s.crashes, r);
      MaxSeqNumbered(rows, r, 0);
    } else {
      StoredFates(s.settled, rows, s.crashes, r);
      MaxSeqNumbered(rows, r, Base(s, r).value);
    }
  }

  lemma FailTight(s: State, r: RunId)
    requires s.writer.Writing? && TightAt(s, r) && (forall c :: c in s.crashes ==> c <= |s.settled|)
    requires RowsOf(s.writer.rows, r) != [] ==> r in s.seqs
    requires forall row :: row in s.writer.rows ==> row.ev.run == row.run
    ensures TightAt(WriterFail(s), r)
  {
    var rows := s.writer.rows;
    if RowsOf(rows, r) == [] {
      NoneOfRun(rows, r, FailedAll(rows));
      OtherFates(s.settled, FailedAll(rows), s.crashes, r);
    } else {
      FailedFates(s.settled, rows, s.crashes, r);
    }
  }

  lemma CrashTight(s: State, pick: Option<RunId>, r: RunId)
    requires TightAt(s, r)
    ensures TightAt(Crash(s, pick), r)
  {
    CrashFates(s.settled, InTransaction(s.writer) + Flat(s.queue), s.crashes, r);
  }

  lemma TakeTight(cfg: Settings, s: State, r: RunId)
    requires s.writer.Idle? && s.queue != [] && TightAt(s, r)
    requires WriterTake(cfg, s).seqs.Keys == s.seqs.Keys
    ensures TightAt(WriterTake(cfg, s), r)
  {
    var items := Coalesce(cfg.writeBatch, Load(s.queue[0], s.queue[1..], 1)).items;
    NumberCounts(s.seqs, items, r);
  }

  lemma OpenTight(s: State, r: RunId)
    requires s.lock.Inserted? && TightAt(s, r) && LedgerInv(s) && KnownInv(s) && SeqInv(s)
    ensures TightAt(OpenFinish(s), r)
  {
    if r == s.lock.run {
      InHandIsAccepted(s);
      NothingYet(s, s.lock.run);
    }
  }

  /** A run that no event was accepted for has no row, in the table or in the transaction,
      and no fate. */
  lemma NothingYet(s: State, r: RunId)
    requires LedgerInv(s)
    requires forall e :: e in s.accepted ==> e.run != r
    requires forall row :: row in s.events ==> row.run != r
    requires forall row :: row in PendingRows(s.writer) ==> row.ev in s.accepted
    ensures RowsOf(s.events, r) == [] && MaxSeq(s.events, r) == 0
    ensures !FailedNow(s.settled, s.crashes, r)
    ensures (forall row :: row in PendingRows(s.writer) ==> row.run == row.ev.run) ==> RowsOf(PendingRows(s.writer), r) == []
  {
    RowsOfNone(s.events, r);
    MaxSeqNumbered(s.events, r, 0);
    forall i | 0 <= i < |s.settled| ensures EventOf(s.settled[i]).run != r {
      assert s.accepted[i] == Decided(s.settled)[i];
    }
    if forall row :: row in PendingRows(s.writer) ==> row.run == row.ev.run { RowsOfNone(PendingRows(s.writer), r); }
  }

  /** Steps that move no row, no counter and no fate. */
  ghost predicate SameNumbers(s: State, t: State) {
    && t.events == s.events && t.settled == s.settled && t.crashes == s.crashes && t.seqs == s.seqs
    && PendingRows(t.writer) == PendingRows(s.writer)
  }

  lemma NumbersFrame(cfg: Settings, s: State, step: Step)
    requires Enabled(s, step) && !step.WriterTakeStep? && !step.WriterCommitStep? && !step.WriterFailStep?
    requires !step.OpenFinishStep? && !step.CrashStep?
    ensures SameNumbers(s, Apply(cfg, s, step))
  {
    if step.SubmitStep? || step.CorrelateStep? { var batch := Intakes(cfg, s, step); }
  }

  lemma PendingKnown(s: State, r: RunId)
    requires SeqInv(s)
    ensures RowsOf(PendingRows(s.writer), r) != [] ==> r in s.seqs
  {
    RowsOfHas(PendingRows(s.writer), r);
    if RowsOf(PendingRows(s.writer), r) != [] {
      var k :| 0 <= k < |PendingRows(s.writer)| && PendingRows(s.writer)[k].run == r;
      assert PendingRows(s.writer)[k] in PendingRows(s.writer);
    }
  }

  lemma TightStep(cfg: Settings, s: State, step: Step, r: RunId)
    requires Enabled(s, step) && NumbersInv(s)
    requires QueueInv(s) && LedgerInv(s) && KnownInv(s) && SeqInv(s)
    ensures TightAt(Apply(cfg, s, step), r)
  {
    assert TightAt(s, r);
    PendingKnown(s, r);
    match step {
      case WriterTakeStep => TakeSeqs(cfg, s); TakeTight(cfg, s, r);
      case WriterCommitStep => CommitTight(s, r);
      case WriterFailStep => FailTight(s, r);
      case OpenFinishStep => OpenTight(s, r);
      case CrashStep(pick) => CrashTight(s, pick, r);
      case _ =>
        NumbersFrame(cfg, s, step);
        TightFrame(s, Apply(cfg, s, step), r);
    }
  }

  lemma TightFrame(s: State, t: State, r: RunId)
    requires TightAt(s, r) && SameNumbers(s, t)
    ensures TightAt(t, r)
  {}

  lemma CrashesStep(cfg: Settings, s: State, step: Step)
    requires Enabled(s, step) && forall c :: c in s.crashes ==> c <= |s.settled|
    ensures var t := Apply(cfg, s, step); forall c :: c in t.crashes ==> c <= |t.settled|
  {
    if step.SubmitStep? || step.CorrelateStep? { var batch := Intakes(cfg, s, step); }
  }

  lemma NumbersStep(cfg: Settings, s: State, step: Step)
    requires Enabled(s, step) && Inv(s) && NumbersInv(s)
    ensures NumbersInv(Apply(cfg, s, step))
  {
    CrashesStep(cfg, s, step);
    forall r ensures TightAt(Apply(cfg, s, step), r) { TightStep(cfg, s, step, r); }
  }

  lemma NumbersInit()
    ensures NumbersInv(INIT)
  {
    forall r ensures TightAt(INIT, r) {}
  }

  lemma {:induction false} NumbersRuns(cfg: Settings, s: State, steps: seq<Step>, t: State)
    requires Inv(s) && NumbersInv(s) && Runs(cfg, s, steps, t)
    ensures NumbersInv(t)
    decreases |steps|
  {
    if steps != [] {
      InvStep(cfg, s, steps[0]);
      NumbersStep(cfg, s, steps[0]);
      NumbersRuns(cfg, Apply(cfg, s, steps[0]), steps[1..], t);
    }
  }

  // -------------------------------------------------------------------- the theorem

  ghost predicate Consecutive(rows: seq<Row>) {
    forall i :: 0 <= i < |rows| ==> rows[i].seqno == i + 1
  }

  lemma {:induction false} RisingSpreads(rows: seq<Row>, i: nat, j: nat)
    requires CollectorTheorems.Rising(rows) && i <= j < |rows|
    ensures rows[i].seqno + (j - i) <= rows[j].seqno
    decreases j
  {
    if i < j { RisingSpreads(rows, i, j - 1); }
  }

  /** Rising numbers from 1 on have no gap exactly when the last is the number of rows. */
  lemma LastTells(rows: seq<Row>)
    requires CollectorTheorems.Rising(rows) && forall row :: row in rows ==> row.seqno >= 1
    ensures Consecutive(rows) <==> |rows| == (if rows == [] then 0 else rows[|rows| - 1].seqno)
  {
    if rows != [] && |rows| == rows[|rows| - 1].seqno {
      forall i | 0 <= i < |rows| ensures rows[i].seqno == i + 1 {
        assert rows[0] in rows;
        RisingSpreads(rows, 0, i);
        RisingSpreads(rows, i, |rows| - 1);
      }
    }
  }

  lemma {:induction false} RowsOfWithin(rows: seq<Row>, r: RunId)
    ensures forall row :: row in RowsOf(rows, r) ==> row in rows && row.run == r
  {
    if rows != [] {
      RowsOfWithin(rows[..|rows| - 1], r);
      assert rows == rows[..|rows| - 1] + [rows[|rows| - 1]];
    }
  }

  lemma {:induction false} RowsOfRise(rows: seq<Row>, r: RunId)
    requires Ascending(rows)
    ensures CollectorTheorems.Rising(RowsOf(rows, r))
  {
    if rows != [] {
      var init, last := rows[..|rows| - 1], rows[|rows| - 1];
      assert rows == init + [last];
      AscendingPrefix(init, [last]);
      RowsOfRise(init, r);
      if last.run == r {
        var before := RowsOf(init, r);
        forall i | 0 <= i < |before| ensures before[i].seqno < last.seqno { BeforeLast(rows, r, before[i]); }
      }
    }
  }

  lemma BeforeLast(rows: seq<Row>, r: RunId, row: Row)
    requires Ascending(rows) && rows != [] && rows[|rows| - 1].run == r && row in RowsOf(rows[..|rows| - 1], r)
    ensures row.seqno < rows[|rows| - 1].seqno
  {
    RowsOfWithin(rows[..|rows| - 1], r);
    var k :| 0 <= k < |rows| - 1 && rows[k] == row;
  }

  lemma {:induction false} MaxSeqIsLast(rows: seq<Row>, r: RunId)
    requires Ascending(rows)
    ensures var own := RowsOf(rows, r); MaxSeq(rows, r) == (if own == [] then 0 else own[|own| - 1].seqno)
  {
    if rows != [] {
      var init := rows[..|rows| - 1];
      AscendingPrefix(init, [rows[|rows| - 1]]);
      assert rows == init + [rows[|rows| - 1]];
      MaxSeqIsLast(init, r);
      var before := RowsOf(init, r);
      if rows[|rows| - 1].run == r && before != [] { BeforeLast(rows, r, before[|before| - 1]); }
    }
  }

  lemma NumbersAlways(cfg: Settings, s: State, r: RunId)
    requires Reachable(cfg, s)
    ensures Tight(s.events, s.settled, s.crashes, r, Base(s, r))
  {
    var steps :| Runs(cfg, INIT, steps, s);
    InvInit();
    NumbersInit();
    NumbersRuns(cfg, INIT, steps, s);
    assert TightAt(s, r);
  }

  lemma RowsAlways(cfg: Settings, s: State)
    requires Reachable(cfg, s)
    ensures Ascending(s.events) && forall row :: row in s.events ==> row.seqno >= 1
  {
    InvAlways(cfg, s);
    AscendingPrefix(s.events, PendingRows(s.writer));
  }

  /** The rows of a run are numbered 1, 2, 3, ... without a gap exactly when no write of the
      run failed before one that landed with no crash between: whatever was coalesced,
      closed, reopened, lost or restored. */
  lemma NoGapIff(cfg: Settings, s: State, r: RunId)
    requires Reachable(cfg, s)
    ensures Consecutive(RowsOf(s.events, r)) <==> !Gapped(s.settled, s.crashes, r)
  {
    NumbersAlways(cfg, s, r);
    RowsAlways(cfg, s);
    GapTells(s.events, s.settled, s.crashes, r, Base(s, r));
  }

  lemma GapTells(events: seq<Row>, settled: seq<Fate>, crashes: seq<nat>, r: RunId, base: Option<int>)
    requires Ascending(events) && (forall row :: row in events ==> row.seqno >= 1)
    requires Tight(events, settled, crashes, r, base)
    ensures Consecutive(RowsOf(events, r)) <==> !Gapped(settled, crashes, r)
  {
    RowsOfRise(events, r);
    RowsOfWithin(events, r);
    MaxSeqIsLast(events, r);
    LastTells(RowsOf(events, r));
  }

  /** In particular a run none of whose writes failed has no gap. */
  lemma NoFailureNoGap(cfg: Settings, s: State, r: RunId)
    requires Reachable(cfg, s) && forall i :: 0 <= i < |s.settled| ==> !FailedAt(s.settled, r, i)
    ensures Consecutive(RowsOf(s.events, r))
  {
    NoGapIff(cfg, s, r);
  }
}
