/**
 The exporter object, with the interlocked fields of the original. The ghost field `model`
 is the step machine's state; `Valid` ties the fields to it. `Enqueue` and `RunPass` are
 written as the program has them, undisturbed; each is proved to be one of the runs of the
 step machine and, beside that, to do what it should when nothing interferes.
 */
module TransportObject {
  import opened Common
  import opened TransportModel
  import opened TransportTheorems

  class Transport {
    const config: Config
    var channel: seq<Rec>
    var completed: bool
    var closed: bool
    var queued: int
    var inFlight: int
    var unreported: int
    var enqueued: nat
    var dropped: nat
    var sent: nat
    var failed: nat
    var batches: nat
    ghost var model: State

    ghost predicate Valid()
      reads this
    {
      && channel == model.channel && completed == model.completed && closed == model.closed
      && queued == model.queued && inFlight == model.inFlight && unreported == model.unreported
      && enqueued == model.enqueued && dropped == model.dropped
      && sent == model.sent && failed == model.failed && batches == model.batches
    }

    constructor (config: Config)
      ensures Valid() && model == INIT && this.config == config
    {
      this.config := config;
      channel, completed, closed := [], false, false;
      queued, inFlight, unreported, enqueued, dropped, sent, failed, batches := 0, 0, 0, 0, 0, 0, 0, 0;
      model := INIT;
    }

    /** `TryWrite` on the drop-oldest channel: whether it took the record, and whether that
        pushed one out. */
    method TryWrite(record: Rec) returns (ok: bool, full: bool)
      requires Valid() && record in model.writing
      modifies `channel, `model
      ensures Valid() && model == WriteTo(config, old(model), record)
      ensures ok == !completed && full == (ok && |old(channel)| >= Capacity(config))
    {
      model := WriteTo(config, model, record);
      if completed { return false, false; }
      full := |channel| >= Max(1, config.maxQueueSize);
      channel := (if full then channel[1..] else channel) + [record];
      ok := true;
    }

    /** The drop callback: three interlocked updates. The record moves from the queue count
        to the dropped ones and is owed to the next note; `DropIsRun` shows that the machine
        may do the same in three steps. */
    method OnDropped()
      requires Valid() && model.dropUnqueue > 0
      modifies `queued, `dropped, `unreported, `model
      ensures Valid() && model == DropDone(old(model))
      ensures queued + dropped == old(queued + dropped) && unreported == old(unreported) + (dropped - old(dropped))
      ensures dropped == old(dropped) + 1 && (Inv(config, old(model)) ==> Inv(config, model))
    {
      DropKeeps(config, model);
      queued := queued - 1;
      dropped := dropped + 1;
      unreported := unreported + 1;
      model := DropDone(model);
    }

    /** An undisturbed `Enqueue`: the record is at the back of the channel, the oldest one
        made room for it if there was none, and the counters say so. */
    method Enqueue(record: Rec)
      requires Valid()
      modifies this
      ensures Valid() && model == Enqueued(config, old(model), record)
      ensures old(closed) ==> model == old(model)
      ensures !old(closed) && old(completed) ==>
                channel == old(channel) && queued == old(queued) && enqueued == old(enqueued)
      ensures !old(closed) && !old(completed) ==>
                && enqueued == old(enqueued) + 1 && model.accepted == old(model).accepted + [record]
                && if |old(channel)| >= (if config.maxQueueSize > 1 then config.maxQueueSize else 1)
                   then channel == old(channel)[1..] + [record] && queued == old(queued) && dropped == old(dropped) + 1
                   else channel == old(channel) + [record] && queued == old(queued) + 1 && dropped == old(dropped)
    {
      EnqueuedMeans(config, model, record);
      if closed { return; }
      queued := queued + 1;
      model := Begun(model, record);
      Offer(record);
    }

    /** The rest of `Enqueue`: the write, and the count of what came of it. */
    method Offer(record: Rec)
      requires Valid() && record in model.writing
      modifies `channel, `queued, `enqueued, `dropped, `unreported, `model
      ensures Valid() && model == Offered(config, old(model), record)
    {
      var ok, full := TryWrite(record);
      if ok {
        if full { OnDropped(); }
        enqueued := enqueued + 1;
        model := model.(enqueued := model.enqueued + 1, counting := model.counting - 1);
      } else {
        queued := queued - 1;
        model := model.(queued := model.queued - 1, refused := model.refused - 1);
      }
    }

    /** The drain loop up to its note: the oldest records, as many as there is room for. */
    method Drain() returns (batch: seq<Item>)
      requires Valid() && model.reader.Waiting? && channel != [] && !model.stopping
      modifies `channel, `queued, `model
      ensures Valid() && model == Drained(config, old(model))
      ensures batch == DataAll(old(channel)[..Taking(config, old(model))])
    {
      var room: int := config.batchSize;
      if unreported > 0 { room := room - 1; }
      batch := [];
      while |batch| < room && channel != []
        invariant |batch| <= Max(0, room) && |batch| <= |old(channel)|
        invariant batch == DataAll(old(channel)[..|batch|])
        invariant channel == old(channel)[|batch|..] && queued == old(queued) - |batch|
        invariant model == old(model)
        decreases |channel|
      {
        var record := channel[0];
        channel := channel[1..];
        queued := queued - 1;
        assert old(channel)[..|batch| + 1] == old(channel)[..|batch|] + [record];
        batch := batch + [Data(record)];
      }
      model := Drained(config, model);
    }

    method AppendDropNote(batch: seq<Item>) returns (noted: seq<Item>)
      requires Valid() && model.reader.Noting? && model.reader.batch == batch
      modifies `unreported, `model
      ensures Valid() && model == NoteTo(config, old(model))
      ensures noted == batch + (if old(unreported) > 0 && config.reportDiscards then [Note(old(unreported))] else [])
      ensures model.reader.Noted? && model.reader.batch == noted
    {
      model := NoteTo(config, model);
      var count := unreported;
      unreported := 0;
      noted := batch;
      if count <= 0 { return; }
      if !config.reportDiscards { return; }
      noted := batch + [Note(count)];
    }

    /** Post one batch. False: no client could be built, and the exception is on its way out
        of the loop; the batch is then in neither counter. */
    method PostBatch(batch: seq<Item>, o: Outcome) returns (alive: bool)
      requires Valid() && model.reader.Posting? && model.reader.batch == batch && Possible(config, batch, o)
      modifies `batches, `sent, `failed, `model
      ensures Valid() && alive == !config.endpoint.Unusable?
      ensures model == if alive then PostTo(old(model), o) else BreakTo(old(model))
      ensures batches == old(batches) + 1
      ensures sent == old(sent) + (if Ok(o) then |batch| else 0)
      ensures failed == old(failed) + (if alive && !Ok(o) then |batch| else 0)
    {
      model := if config.endpoint.Unusable? then BreakTo(model) else PostTo(model, o);
      batches := batches + 1;
      if config.endpoint.Unset? {
        failed := failed + |batch|;
        return true;
      }
      if config.endpoint.Unusable? { return false; }
      if Ok(o) { sent := sent + |batch|; } else { failed := failed + |batch|; }
      alive := true;
    }

    /** One undisturbed pass of the loop. The batch is the oldest records there is room for,
        plus a note of all unreported drops if there are any and they are to be reported;
        it is posted once, and counted as sent or as failed unless no client can be built,
        which ends the loop. */
    method RunPass(o: Outcome) returns (batch: seq<Item>)
      requires Valid() && model.reader.Waiting? && channel != [] && !model.stopping
      requires Possible(config, NextBatch(config, model), o)
      modifies this
      ensures Valid() && model == AfterTail(config, Drained(config, old(model)), o)
      ensures var taken := Taking(config, old(model));
              && batch == DataAll(old(channel)[..taken])
                          + (if old(unreported) > 0 && config.reportDiscards then [Note(old(unreported))] else [])
              && channel == old(channel)[taken..]
      ensures unreported == 0 && inFlight == old(inFlight)
      ensures model.handed == old(model).handed + (if batch == [] then [] else [batch])
      ensures sent == old(sent) + (if Ok(o) then |batch| else 0)
      ensures failed == old(failed) + (if Ok(o) || config.endpoint.Unusable? then 0 else |batch|)
      ensures model.reader == if config.endpoint.Unusable? && batch != [] then Stopped else Waiting
    {
      batch := Drain();
      batch := AppendDropNote(batch);
      Deliver(batch, o);
    }

    /** The end of a pass: post a batch that is not empty, under the in-flight count, which
        is taken back whatever comes of the post. */
    method Deliver(batch: seq<Item>, o: Outcome)
      requires Valid() && model.reader.Noted? && model.reader.batch == batch && Possible(config, batch, o)
      modifies `inFlight, `batches, `sent, `failed, `model
      ensures Valid() && model == Delivered(config, old(model), o) && inFlight == old(inFlight)
    {
      if batch == [] {
        model := model.(reader := Waiting);
        return;
      }
      inFlight := inFlight + 1;
      model := Underway(model);
      var alive := PostBatch(batch, o);
      inFlight := inFlight - 1;
      model := Landed(model, if alive then Waiting else Stopped);
    }
  }

  // ------------------------------------------------ the undisturbed calls as runs

  function Begun(s: State, rec: Rec): State {
    s.(queued := s.queued + 1, writing := s.writing + multiset{rec})
  }

  function DropDone(s: State): State
    requires s.dropUnqueue > 0
  {
    s.(queued := s.queued - 1, dropped := s.dropped + 1, unreported := s.unreported + 1,
       dropUnqueue := s.dropUnqueue - 1, counting := s.counting + 1)
  }

  function EnqueueSteps(cfg: Config, s: State, rec: Rec): seq<Step> {
    if s.closed then []
    else if s.completed then [Begin(rec), Write(rec), Refuse]
    else if |s.channel| >= Capacity(cfg) then
      [Begin(rec), Write(rec), DropUnqueue, DropCount, DropNote, CountEnqueued]
    else [Begin(rec), Write(rec), CountEnqueued]
  }

  function Offered(cfg: Config, s: State, rec: Rec): State {
    var s2 := WriteTo(cfg, s, rec);
    if s.completed then s2.(queued := s2.queued - 1, refused := s2.refused - 1)
    else
      var s3 := if |s.channel| >= Capacity(cfg) then DropDone(s2) else s2;
      s3.(enqueued := s3.enqueued + 1, counting := s3.counting - 1)
  }

  function Enqueued(cfg: Config, s: State, rec: Rec): State {
    if s.closed then s else Offered(cfg, Begun(s, rec), rec)
  }

  /** An undisturbed `Enqueue` puts the record at the back of the channel, lets the oldest
      one make room for it if there was none, and counts both; a closed exporter does not
      change, and a completed channel is left with all counts as they were. */
  lemma EnqueuedMeans(cfg: Config, s: State, rec: Rec)
    ensures var t := Enqueued(cfg, s, rec);
            && (s.closed ==> t == s)
            && (!s.closed && s.completed ==>
                  t.channel == s.channel && t.queued == s.queued && t.enqueued == s.enqueued)
            && (!s.closed && !s.completed ==>
                  && t.enqueued == s.enqueued + 1 && t.accepted == s.accepted + [rec]
                  && (if |s.channel| >= Capacity(cfg)
                      then t.channel == s.channel[1..] + [rec] && t.queued == s.queued
                           && t.dropped == s.dropped + 1 && t.unreported == s.unreported + 1
                      else t.channel == s.channel + [rec] && t.queued == s.queued + 1 && t.dropped == s.dropped))
  {}

  lemma DropIsRun(cfg: Config, s: State)
    requires s.dropUnqueue > 0
    ensures Runs(cfg, s, [DropUnqueue, DropCount, DropNote], DropDone(s))
  {
    var s1 := Apply(cfg, s, DropUnqueue);
    var s2 := Apply(cfg, s1, DropCount);
    assert Apply(cfg, s2, DropNote) == DropDone(s);
    var steps := [DropUnqueue, DropCount, DropNote];
    assert steps[1..] == [DropCount, DropNote] && steps[1..][1..] == [DropNote] && steps[1..][1..][1..] == [];
  }

  /** The callback as a whole keeps everything that holds in every interleaving. */
  lemma DropKeeps(cfg: Config, s: State)
    requires s.dropUnqueue > 0
    ensures Inv(cfg, s) ==> Inv(cfg, DropDone(s))
  {
    if Inv(cfg, s) {
      DropIsRun(cfg, s);
      InvRuns(cfg, s, [DropUnqueue, DropCount, DropNote], DropDone(s));
    }
  }

  lemma EnqueueIsRun(cfg: Config, s: State, rec: Rec)
    ensures Runs(cfg, s, EnqueueSteps(cfg, s, rec), Enqueued(cfg, s, rec))
  {
    if !s.closed {
      var s1, s2 := Begun(s, rec), WriteTo(cfg, Begun(s, rec), rec);
      Two(cfg, s, Begin(rec), s1, Write(rec), s2);
      if !s.completed && |s.channel| >= Capacity(cfg) {
        PushOutIsRun(cfg, s, rec);
      } else {
        var last := if s.completed then Refuse else CountEnqueued;
        assert Apply(cfg, s2, last) == Enqueued(cfg, s, rec);
        RunsAppend(cfg, s, [Begin(rec), Write(rec)], s2, last);
        assert [Begin(rec), Write(rec)] + [last] == EnqueueSteps(cfg, s, rec);
      }
    }
  }

  /** The write that pushes a record out, with its drop callback. */
  lemma PushOutIsRun(cfg: Config, s: State, rec: Rec)
    requires !s.closed && !s.completed && |s.channel| >= Capacity(cfg)
    requires Runs(cfg, s, [Begin(rec), Write(rec)], WriteTo(cfg, Begun(s, rec), rec))
    ensures Runs(cfg, s, EnqueueSteps(cfg, s, rec), Enqueued(cfg, s, rec))
  {
    var s2 := WriteTo(cfg, Begun(s, rec), rec);
    var a, b := [Begin(rec), Write(rec)], [DropUnqueue, DropCount, DropNote];
    DropIsRun(cfg, s2);
    RunsJoin(cfg, s, a, s2, b, DropDone(s2));
    assert Apply(cfg, DropDone(s2), CountEnqueued) == Enqueued(cfg, s, rec);
    RunsAppend(cfg, s, a + b, DropDone(s2), CountEnqueued);
    assert a + b + [CountEnqueued] == EnqueueSteps(cfg, s, rec);
  }

  function PostSteps(cfg: Config, o: Outcome): seq<Step> {
    if cfg.endpoint.Unusable? then [Decide, Break, Unwind] else [Decide, Post(o), Done]
  }

  function TailSteps(cfg: Config, s: State, o: Outcome): seq<Step>
    requires s.reader.Noting?
  {
    if NoteTo(cfg, s).reader.batch == [] then [NoteDrops, Decide] else [NoteDrops] + PostSteps(cfg, o)
  }

  function Delivered(cfg: Config, s: State, o: Outcome): State
    requires s.reader.Noted?
  {
    if s.reader.batch == [] then s.(reader := Waiting)
    else if cfg.endpoint.Unusable? then Landed(BreakTo(Underway(s)), Stopped)
    else Landed(PostTo(Underway(s), o), Waiting)
  }

  /** The in-flight count goes up around the post and down again. */
  function Underway(s: State): State
    requires s.reader.Noted?
  {
    s.(inFlight := s.inFlight + 1, reader := Posting(s.reader.room, s.reader.batch))
  }

  function Landed(s: State, reader: Reader): State { s.(inFlight := s.inFlight - 1, reader := reader) }

  function AfterTail(cfg: Config, s: State, o: Outcome): State
    requires s.reader.Noting?
  {
    Delivered(cfg, NoteTo(cfg, s), o)
  }

  /** The batch of an undisturbed pass. */
  function NextBatch(cfg: Config, s: State): seq<Item> { NoteTo(cfg, Drained(cfg, s)).reader.batch }

  /** How many records a pass takes. */
  function Taking(cfg: Config, s: State): nat {
    Min(Max(0, RoomFor(cfg, s.unreported)), |s.channel|)
  }

  function Reads(n: nat): seq<Fate> { seq(n, _ => Read) }

  /** In the drain with `n` more records read. */
  function Draining(s: State, room: nat, n: nat): State
    requires n <= |s.channel|
  {
    s.(channel := s.channel[n..], queued := s.queued - n, fates := s.fates + Reads(n),
       reader := Reader.Draining(room, DataAll(s.channel[..n])))
  }

  function Drained(cfg: Config, s: State): State {
    var n := Taking(cfg, s);
    Draining(s, Max(0, RoomFor(cfg, s.unreported)), n).(
      reader := Noting(Max(0, RoomFor(cfg, s.unreported)), DataAll(s.channel[..n])))
  }

  lemma OneRead(cfg: Config, s: State, room: nat, n: nat)
    requires n < |s.channel| && n < room
    ensures Runs(cfg, Draining(s, room, n), [ReadOne, TransportModel.Step.Unqueue], Draining(s, room, n + 1))
  {
    var a, b := Draining(s, room, n), Draining(s, room, n + 1);
    var rec := s.channel[n];
    assert a.channel[0] == rec && a.channel[1..] == s.channel[n + 1..];
    assert a.fates + [Read] == b.fates;
    var mid := a.(channel := b.channel, fates := b.fates, reader := Taken(room, a.reader.batch, rec));
    assert s.channel[..n + 1] == s.channel[..n] + [rec];
    assert DataAll(s.channel[..n + 1]) == DataAll(s.channel[..n]) + [Data(rec)];
    Two(cfg, a, ReadOne, mid, TransportModel.Step.Unqueue, b);
  }

  lemma {:induction false} ReadsAreRun(cfg: Config, s: State, room: nat, n: nat) returns (steps: seq<Step>)
    requires n <= |s.channel| && n <= room
    ensures Runs(cfg, Draining(s, room, 0), steps, Draining(s, room, n))
  {
    if n == 0 {
      steps := [];
    } else {
      steps := ReadsAreRun(cfg, s, room, n - 1);
      OneRead(cfg, s, room, n - 1);
      RunsJoin(cfg, Draining(s, room, 0), steps, Draining(s, room, n - 1),
               [ReadOne, TransportModel.Step.Unqueue], Draining(s, room, n));
      steps := steps + [ReadOne, TransportModel.Step.Unqueue];
    }
  }

  lemma DrainIsRun(cfg: Config, s: State) returns (steps: seq<Step>)
    requires s.reader.Waiting? && s.channel != [] && !s.stopping
    ensures Runs(cfg, s, steps, Drained(cfg, s))
  {
    var room, n := Max(0, RoomFor(cfg, s.unreported)), Taking(cfg, s);
    var start := Draining(s, room, 0);
    assert start == s.(reader := Reader.Draining(room, []));
    Two(cfg, s, Awake, s.(reader := Sizing), Size, start);
    var inner := ReadsAreRun(cfg, s, room, n);
    RunsJoin(cfg, s, [Awake, Size], start, inner, Draining(s, room, n));
    RunsAppend(cfg, s, [Awake, Size] + inner, Draining(s, room, n), EndDrain);
    steps := [Awake, Size] + inner + [EndDrain];
  }

  lemma PostIsRun(cfg: Config, s: State, o: Outcome)
    requires s.reader.Noted? && s.reader.batch != [] && Possible(cfg, s.reader.batch, o)
    ensures Runs(cfg, s, PostSteps(cfg, o), Delivered(cfg, s, o))
  {
    DecideIsUnderway(cfg, s);
    var s2 := Underway(s);
    if cfg.endpoint.Unusable? {
      BreakIsRun(cfg, s2);
      OneThenTwo(cfg, s, Decide, s2, Break, Unwind, Landed(BreakTo(s2), Stopped));
    } else {
      SendIsRun(cfg, s2, o);
      OneThenTwo(cfg, s, Decide, s2, Post(o), Done, Landed(PostTo(s2, o), Waiting));
    }
  }

  lemma BreakIsRun(cfg: Config, s: State)
    requires s.reader.Posting? && cfg.endpoint.Unusable?
    ensures Runs(cfg, s, [Break, Unwind], Landed(BreakTo(s), Stopped))
  {
    Two(cfg, s, Break, BreakTo(s), Unwind, Landed(BreakTo(s), Stopped));
  }

  lemma SendIsRun(cfg: Config, s: State, o: Outcome)
    requires s.reader.Posting? && !cfg.endpoint.Unusable? && Possible(cfg, s.reader.batch, o)
    ensures Runs(cfg, s, [Post(o), Done], Landed(PostTo(s, o), Waiting))
  {
    Two(cfg, s, Post(o), PostTo(s, o), Done, Landed(PostTo(s, o), Waiting));
  }

  lemma DecideIsUnderway(cfg: Config, s: State)
    requires s.reader.Noted? && s.reader.batch != []
    ensures Enabled(cfg, s, Decide) && Apply(cfg, s, Decide) == Underway(s)
    ensures Underway(s).reader == Posting(s.reader.room, s.reader.batch)
  {}

  lemma OneThenTwo(cfg: Config, s: State, a: Step, s1: State, b: Step, c: Step, t: State)
    requires Enabled(cfg, s, a) && s1 == Apply(cfg, s, a) && Runs(cfg, s1, [b, c], t)
    ensures Runs(cfg, s, [a, b, c], t)
  {
    assert [a, b, c][1..] == [b, c];
  }

  lemma TailIsRun(cfg: Config, s: State, o: Outcome)
    requires s.reader.Noting? && Possible(cfg, NoteTo(cfg, s).reader.batch, o)
    ensures Runs(cfg, s, TailSteps(cfg, s, o), AfterTail(cfg, s, o))
  {
    var s1 := NoteTo(cfg, s);
    if s1.reader.batch == [] {
      Two(cfg, s, NoteDrops, s1, Decide, s1.(reader := Waiting));
    } else {
      PostIsRun(cfg, s1, o);
      var steps := TailSteps(cfg, s, o);
      assert steps[0] == NoteDrops && steps[1..] == PostSteps(cfg, o);
      assert s1 == Apply(cfg, s, NoteDrops);
    }
  }

  /** An undisturbed pass is a run of the machine. */
  lemma PassIsRun(cfg: Config, s: State, o: Outcome) returns (steps: seq<Step>)
    requires s.reader.Waiting? && s.channel != [] && !s.stopping && Possible(cfg, NextBatch(cfg, s), o)
    ensures Runs(cfg, s, steps, AfterTail(cfg, Drained(cfg, s), o))
  {
    var drain := DrainIsRun(cfg, s);
    var d := Drained(cfg, s);
    TailIsRun(cfg, d, o);
    RunsJoin(cfg, s, drain, d, TailSteps(cfg, d, o), AfterTail(cfg, d, o));
    steps := drain + TailSteps(cfg, d, o);
  }

  lemma Two(cfg: Config, s: State, a: Step, s1: State, b: Step, s2: State)
    requires Enabled(cfg, s, a) && s1 == Apply(cfg, s, a) && Enabled(cfg, s1, b) && s2 == Apply(cfg, s1, b)
    ensures Runs(cfg, s, [a, b], s2)
  {
    assert [a, b][1..] == [b] && [b][1..] == [];
  }

  lemma {:induction false} RunsJoin(cfg: Config, s: State, a: seq<Step>, t: State, b: seq<Step>, u: State)
    requires Runs(cfg, s, a, t) && Runs(cfg, t, b, u)
    ensures Runs(cfg, s, a + b, u)
    decreases |a|
  {
    if a == [] {
      assert a + b == b;
    } else {
      assert (a + b)[1..] == a[1..] + b;
      RunsJoin(cfg, Apply(cfg, s, a[0]), a[1..], t, b, u);
    }
  }

  function DataAll(recs: seq<Rec>): seq<Item> {
    seq(|recs|, i requires 0 <= i < |recs| => Data(recs[i]))
  }
}
