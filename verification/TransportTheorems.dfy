/** What the exporter keeps in every interleaving of producers, reader and shutdown. */
module TransportTheorems {
  import opened Common
  import opened TransportModel
  import CollectorModel

  // -------------------------------------------------------------- invariants

  function Drops(fates: seq<Fate>): nat {
    if fates == [] then 0 else Drops(fates[..|fates| - 1]) + (if fates[|fates| - 1].Dropped? then 1 else 0)
  }

  /** The items of the batches that were answered below 500. */
  function SentIn(posts: seq<Delivery>): nat {
    if posts == [] then 0
    else
      var last := posts[|posts| - 1];
      SentIn(posts[..|posts| - 1]) + (if Ok(last.outcome) then |last.batch| else 0)
  }

  /** The records the reader took, in order. */
  function ReadOf(recs: seq<Rec>, fates: seq<Fate>): seq<Rec>
    requires |fates| <= |recs|
  {
    if fates == [] then []
    else
      var n := |fates| - 1;
      ReadOf(recs, fates[..n]) + (if fates[n].Read? then [recs[n]] else [])
  }

  /** The channel is a suffix of what was accepted; the rest was read or dropped. */
  ghost predicate ChannelInv(cfg: Config, s: State) {
    && |s.fates| + |s.channel| == |s.accepted|
    && s.channel == s.accepted[|s.fates|..]
    && |s.channel| <= Capacity(cfg)
  }

  ghost predicate CountInv(s: State) {
    && s.queued == |s.channel| + |s.writing| + s.dropUnqueue + s.refused + (if s.reader.Taken? then 1 else 0)
    && |s.accepted| == s.enqueued + s.counting + s.dropUnqueue + s.dropCount + s.dropNote
    && Drops(s.fates) == s.dropped + s.dropUnqueue + s.dropCount
    && s.dropped == s.announced + s.silenced + s.unreported + s.dropNote
    && s.unreported >= 0
    && s.inFlight == (if s.reader.Posting? || s.reader.Posted? || s.reader.Broken? then 1 else 0)
    && s.sent + s.failed + s.broken == |Flat(s.handed)| && s.sent == SentIn(s.posts) && s.batches == |s.handed|
  }

  /** Every record read is in exactly one batch, in order: handed over or in hand. */
  ghost predicate OnceInv(s: State) {
    && |s.fates| <= |s.accepted|
    && ReadOf(s.accepted, s.fates) == Records(Flat(s.handed)) + Records(InHand(s.reader))
  }

  predicate AllData(b: seq<Item>) { forall i :: 0 <= i < |b| ==> b[i].Data? }

  /** A finished batch: records, then at most one note, which alone may exceed the room. */
  predicate Shaped(cfg: Config, room: nat, b: seq<Item>) {
    && room <= cfg.batchSize
    && ((|b| <= room && AllData(b))
        || (1 <= |b| <= room + 1 && b[|b| - 1].Note? && AllData(b[..|b| - 1])))
  }

  /** Once woken, the reader finds a record if it has room for one: nobody else removes
      records without putting a newer one in. */
  ghost predicate ReaderInv(cfg: Config, s: State) {
    && (forall b :: b in s.handed ==> Shaped(cfg, cfg.batchSize, b))
    && match s.reader
       case Sizing => s.channel != []
       case Draining(room, b) =>
         |b| <= room <= cfg.batchSize <= room + 1 && AllData(b) && (b == [] ==> s.channel != [])
       case Taken(room, b, _) => |b| < room <= cfg.batchSize <= room + 1 && AllData(b)
       case Noting(room, b) => |b| <= room <= cfg.batchSize <= room + 1 && AllData(b) && (b == [] ==> room == 0)
       case Noted(room, b) => Shaped(cfg, room, b)
       case Posting(room, b) => Shaped(cfg, room, b) && b != []
       case _ => true
  }

  ghost predicate Inv(cfg: Config, s: State) {
    ChannelInv(cfg, s) && CountInv(s) && OnceInv(s) && ReaderInv(cfg, s)
  }

  // ------------------------------------------------------------ preservation

  lemma {:induction false} RecordsAppend(a: seq<Item>, b: seq<Item>)
    ensures Records(a + b) == Records(a) + Records(b)
  {
    if b == [] {
      assert a + b == a;
    } else {
      assert (a + b)[..|a + b| - 1] == a + b[..|b| - 1];
      RecordsAppend(a, b[..|b| - 1]);
    }
  }

  /** Later arrivals do not change what was read. */
  lemma {:induction false} ReadOfMore(recs: seq<Rec>, more: seq<Rec>, fates: seq<Fate>)
    requires |fates| <= |recs|
    ensures ReadOf(recs + more, fates) == ReadOf(recs, fates)
  {
    if fates != [] { ReadOfMore(recs, more, fates[..|fates| - 1]); }
  }

  lemma ReadOfOne(recs: seq<Rec>, fates: seq<Fate>, f: Fate)
    requires |fates| < |recs|
    ensures ReadOf(recs, fates + [f]) == ReadOf(recs, fates) + (if f.Read? then [recs[|fates|]] else [])
    ensures Drops(fates + [f]) == Drops(fates) + (if f.Dropped? then 1 else 0)
  {
    assert (fates + [f])[..|fates|] == fates;
  }

  lemma WriteCounts(cfg: Config, s: State, rec: Rec)
    requires ChannelInv(cfg, s) && CountInv(s) && rec in s.writing
    ensures ChannelInv(cfg, WriteTo(cfg, s, rec)) && CountInv(WriteTo(cfg, s, rec))
  {
    if !s.completed && |s.channel| >= Capacity(cfg) { DropsSnoc(s.fates, Dropped); }
  }

  lemma DropsSnoc(fates: seq<Fate>, f: Fate)
    ensures Drops(fates + [f]) == Drops(fates) + (if f.Dropped? then 1 else 0)
  {
    assert (fates + [f])[..|fates|] == fates;
  }

  lemma WriteOnce(cfg: Config, s: State, rec: Rec)
    requires ChannelInv(cfg, s) && OnceInv(s) && rec in s.writing
    ensures OnceInv(WriteTo(cfg, s, rec))
  {
    if !s.completed {
      ReadOfMore(s.accepted, [rec], s.fates);
      if |s.channel| >= Capacity(cfg) {
        ReadOfOne(s.accepted + [rec], s.fates, Dropped);
        assert ReadOf(s.accepted, s.fates) + [] == ReadOf(s.accepted, s.fates);
      }
    }
  }

  lemma WriteKeeps(cfg: Config, s: State, rec: Rec)
    requires Inv(cfg, s) && rec in s.writing
    ensures Inv(cfg, WriteTo(cfg, s, rec))
  {
    WriteCounts(cfg, s, rec);
    WriteOnce(cfg, s, rec);
    WriteReader(cfg, s, rec);
  }

  /** A write never leaves the channel empty under a reader that was promised a record. */
  lemma WriteReader(cfg: Config, s: State, rec: Rec)
    requires ReaderInv(cfg, s) && rec in s.writing
    ensures ReaderInv(cfg, WriteTo(cfg, s, rec))
  {}

  lemma ReadCounts(cfg: Config, s: State)
    requires ChannelInv(cfg, s) && CountInv(s) && Enabled(cfg, s, ReadOne)
    ensures ChannelInv(cfg, Apply(cfg, s, ReadOne)) && CountInv(Apply(cfg, s, ReadOne))
  {
    DropsSnoc(s.fates, Read);
  }

  lemma ReadTakesNext(cfg: Config, s: State)
    requires ChannelInv(cfg, s) && OnceInv(s) && Enabled(cfg, s, ReadOne)
    ensures OnceInv(Apply(cfg, s, ReadOne))
  {
    var rec := s.channel[0];
    ReadOfOne(s.accepted, s.fates, Read);
    assert rec == s.accepted[|s.fates|];
    RecordsSnoc(s.reader.batch, Data(rec));
    var handed, mine := Records(Flat(s.handed)), Records(s.reader.batch);
    assert handed + mine + [rec] == handed + (mine + [rec]);
  }

  lemma RecordsSnoc(items: seq<Item>, item: Item)
    ensures Records(items + [item]) == Records(items) + (if item.Data? then [item.rec] else [])
  {
    assert (items + [item])[..|items|] == items;
  }

  lemma ReadKeeps(cfg: Config, s: State)
    requires Inv(cfg, s) && Enabled(cfg, s, ReadOne)
    ensures Inv(cfg, Apply(cfg, s, ReadOne))
  {
    ReadCounts(cfg, s);
    ReadTakesNext(cfg, s);
    assert ReaderInv(cfg, Apply(cfg, s, ReadOne));
  }

  /** A note changes the reader and three tallies, and those only among themselves. */
  ghost predicate NoteTaken(s: State, t: State) {
    && t == s.(unreported := 0, reader := t.reader, announced := t.announced, silenced := t.silenced)
    && t.reader.Noted?
    && t.announced + t.silenced == s.announced + s.silenced + Max(0, s.unreported)
    && Records(InHand(t.reader)) == Records(InHand(s.reader))
  }

  lemma NoteMoves(cfg: Config, s: State)
    requires s.reader.Noting?
    ensures NoteTaken(s, NoteTo(cfg, s))
  {
    if s.unreported > 0 { RecordsSnoc(s.reader.batch, Note(s.unreported)); }
  }

  lemma NoteCounts(s: State, t: State)
    requires CountInv(s) && s.reader.Noting? && NoteTaken(s, t)
    ensures CountInv(t)
  {}

  lemma NoteOnce(s: State, t: State)
    requires OnceInv(s) && NoteTaken(s, t)
    ensures OnceInv(t)
  {}

  lemma NoteShapes(cfg: Config, s: State)
    requires ReaderInv(cfg, s) && s.reader.Noting?
    ensures ReaderInv(cfg, NoteTo(cfg, s))
  {
    if s.unreported > 0 && cfg.reportDiscards {
      var b := s.reader.batch + [Note(s.unreported)];
      assert b[..|b| - 1] == s.reader.batch;
    }
  }

  lemma NoteKeeps(cfg: Config, s: State)
    requires Inv(cfg, s) && s.reader.Noting?
    ensures Inv(cfg, NoteTo(cfg, s))
  {
    NoteMoves(cfg, s);
    NoteCounts(s, NoteTo(cfg, s));
    NoteOnce(s, NoteTo(cfg, s));
    NoteShapes(cfg, s);
    assert ChannelInv(cfg, NoteTo(cfg, s));
  }

  lemma FlatSnoc(batches: seq<seq<Item>>, b: seq<Item>)
    ensures Flat(batches + [b]) == Flat(batches) + b
  {
    FlatAppend(batches, [b]);
    FlatOne(b);
  }

  lemma SentSnoc(posts: seq<Delivery>, d: Delivery)
    ensures SentIn(posts + [d]) == SentIn(posts) + (if Ok(d.outcome) then |d.batch| else 0)
  {
    assert (posts + [d])[..|posts|] == posts;
  }

  lemma PostCounts(s: State, o: Outcome)
    requires CountInv(s) && s.reader.Posting?
    ensures CountInv(PostTo(s, o))
  {
    FlatSnoc(s.handed, s.reader.batch);
    SentSnoc(s.posts, Delivery(s.reader.batch, o));
  }

  /** What was in hand is handed over as one batch. */
  lemma HandOverOnce(s: State, t: State)
    requires OnceInv(s) && t.accepted == s.accepted && t.fates == s.fates
    requires t.handed == s.handed + [InHand(s.reader)] && InHand(t.reader) == []
    ensures OnceInv(t)
  {
    HandedOver(s.handed, InHand(s.reader));
  }

  lemma HandedOver(handed: seq<seq<Item>>, b: seq<Item>)
    ensures Records(Flat(handed + [b])) + Records([]) == Records(Flat(handed)) + Records(b)
  {
    FlatSnoc(handed, b);
    RecordsAppend(Flat(handed), b);
    assert Records([]) == [];
  }

  lemma PostKeeps(cfg: Config, s: State, o: Outcome)
    requires Inv(cfg, s) && s.reader.Posting?
    ensures Inv(cfg, PostTo(s, o))
  {
    PostCounts(s, o);
    PostOnce(s, o);
    PostShapes(cfg, s, o);
    PostChannel(cfg, s, o);
  }

  lemma SameChannel(cfg: Config, s: State, t: State)
    requires ChannelInv(cfg, s) && t.accepted == s.accepted && t.fates == s.fates && t.channel == s.channel
    ensures ChannelInv(cfg, t)
  {}

  lemma PostChannel(cfg: Config, s: State, o: Outcome)
    requires ChannelInv(cfg, s) && s.reader.Posting?
    ensures ChannelInv(cfg, PostTo(s, o))
  {
    SameChannel(cfg, s, PostTo(s, o));
  }

  lemma PostOnce(s: State, o: Outcome)
    requires OnceInv(s) && s.reader.Posting?
    ensures OnceInv(PostTo(s, o))
  {
    HandOverOnce(s, PostTo(s, o));
  }

  lemma PostShapes(cfg: Config, s: State, o: Outcome)
    requires ReaderInv(cfg, s) && s.reader.Posting?
    ensures ReaderInv(cfg, PostTo(s, o))
  {}

  /** The batch with which the loop dies is counted nowhere, but it is not kept either. */
  lemma BreakKeeps(cfg: Config, s: State)
    requires Inv(cfg, s) && s.reader.Posting?
    ensures Inv(cfg, BreakTo(s))
  {
    FlatSnoc(s.handed, s.reader.batch);
    HandOverOnce(s, BreakTo(s));
    BreakShapes(cfg, s);
    SameChannel(cfg, s, BreakTo(s));
  }

  lemma BreakShapes(cfg: Config, s: State)
    requires ReaderInv(cfg, s) && s.reader.Posting?
    ensures ReaderInv(cfg, BreakTo(s))
  {}

  /** Steps that neither move a record nor end a batch. */
  predicate Plain(step: Step) {
    !step.Write? && !step.ReadOne? && !step.NoteDrops? && !step.Post? && !step.Break?
  }

  lemma PlainCounts(cfg: Config, s: State, step: Step)
    requires Plain(step) && Enabled(cfg, s, step) && ChannelInv(cfg, s) && CountInv(s)
    ensures ChannelInv(cfg, Apply(cfg, s, step)) && CountInv(Apply(cfg, s, step))
  {
    PlainMoves(cfg, s, step);
    PlainTallies(cfg, s, step);
  }

  predicate OfProducer(step: Step) {
    step.Begin? || step.DropUnqueue? || step.DropCount? || step.DropNote? || step.CountEnqueued? || step.Refuse?
  }

  /** Steps of the background loop. */
  predicate OfReader(step: Step) {
    !OfProducer(step) && !step.Write? && !step.Close? && !step.Complete? && !step.Stop?
  }

  /** Nobody else touches what the loop has in hand or has handed over. */
  lemma OutsideFrame(cfg: Config, s: State, step: Step)
    requires !OfReader(step) && Enabled(cfg, s, step)
    ensures var t := Apply(cfg, s, step);
            && t.reader == s.reader && t.handed == s.handed && t.posts == s.posts && t.broken == s.broken
            && t.announced == s.announced && t.silenced == s.silenced && t.sent == s.sent && t.failed == s.failed
            && s.accepted <= t.accepted && s.fates <= t.fates
  {}

  lemma ProducerTallies(cfg: Config, s: State, step: Step)
    requires OfProducer(step) && Enabled(cfg, s, step) && CountInv(s)
    ensures CountInv(Apply(cfg, s, step))
  {}

  /** Only the reader and the in-flight count move, and they move together. */
  lemma InFlightTallies(s: State, t: State)
    requires CountInv(s) && t == s.(inFlight := t.inFlight, reader := t.reader)
    requires !s.reader.Taken? && !t.reader.Taken?
    requires t.inFlight == (if t.reader.Posting? || t.reader.Posted? || t.reader.Broken? then 1 else 0)
    ensures CountInv(t)
  {}

  lemma DecideTallies(cfg: Config, s: State)
    requires s.reader.Noted? && CountInv(s)
    ensures CountInv(Apply(cfg, s, Decide))
  {
    InFlightTallies(s, Apply(cfg, s, Decide));
  }

  lemma DoneTallies(cfg: Config, s: State)
    requires s.reader.Posted? && CountInv(s)
    ensures CountInv(Apply(cfg, s, Done))
  {
    InFlightTallies(s, Apply(cfg, s, Done));
  }

  lemma UnwindTallies(cfg: Config, s: State)
    requires s.reader.Broken? && CountInv(s)
    ensures CountInv(Apply(cfg, s, Unwind))
  {
    InFlightTallies(s, Apply(cfg, s, Unwind));
  }

  lemma UnqueueTallies(cfg: Config, s: State)
    requires s.reader.Taken? && CountInv(s)
    ensures CountInv(Apply(cfg, s, Unqueue))
  {}

  lemma ReaderTallies(cfg: Config, s: State, step: Step)
    requires Plain(step) && !OfProducer(step) && Enabled(cfg, s, step) && CountInv(s)
    ensures CountInv(Apply(cfg, s, step))
  {
    match step {
      case Decide => DecideTallies(cfg, s);
      case Done => DoneTallies(cfg, s);
      case Unwind => UnwindTallies(cfg, s);
      case Unqueue => UnqueueTallies(cfg, s);
      case _ =>
    }
  }

  lemma PlainTallies(cfg: Config, s: State, step: Step)
    requires Plain(step) && Enabled(cfg, s, step) && CountInv(s)
    ensures CountInv(Apply(cfg, s, step))
  {
    if OfProducer(step) { ProducerTallies(cfg, s, step); } else { ReaderTallies(cfg, s, step); }
  }

  lemma PlainOnce(cfg: Config, s: State, step: Step)
    requires Plain(step) && Enabled(cfg, s, step) && OnceInv(s)
    ensures OnceInv(Apply(cfg, s, step))
  {
    PlainMoves(cfg, s, step);
  }

  lemma PlainMoves(cfg: Config, s: State, step: Step)
    requires Plain(step) && Enabled(cfg, s, step)
    ensures var t := Apply(cfg, s, step);
            && t.accepted == s.accepted && t.fates == s.fates && t.handed == s.handed && t.channel == s.channel
            && InHand(t.reader) == InHand(s.reader)
  {
    if OfReader(step) { PlainReaderMoves(cfg, s, step); } else { PlainOutsideMoves(cfg, s, step); }
  }

  lemma PlainReaderMoves(cfg: Config, s: State, step: Step)
    requires Plain(step) && OfReader(step) && Enabled(cfg, s, step)
    ensures var t := Apply(cfg, s, step);
            && t.accepted == s.accepted && t.fates == s.fates && t.handed == s.handed && t.channel == s.channel
            && InHand(t.reader) == InHand(s.reader)
  {}

  lemma PlainOutsideMoves(cfg: Config, s: State, step: Step)
    requires Plain(step) && !OfReader(step) && Enabled(cfg, s, step)
    ensures var t := Apply(cfg, s, step);
            && t.accepted == s.accepted && t.fates == s.fates && t.handed == s.handed && t.channel == s.channel
            && t.reader == s.reader
  {}

  lemma PlainReader(cfg: Config, s: State, step: Step)
    requires Plain(step) && Enabled(cfg, s, step) && ReaderInv(cfg, s)
    ensures ReaderInv(cfg, Apply(cfg, s, step))
  {}

  lemma InvStep(cfg: Config, s: State, step: Step)
    requires Inv(cfg, s) && Enabled(cfg, s, step)
    ensures Inv(cfg, Apply(cfg, s, step))
  {
    match step {
      case Write(rec) => WriteKeeps(cfg, s, rec);
      case ReadOne => ReadKeeps(cfg, s);
      case NoteDrops => NoteKeeps(cfg, s);
      case Post(o) => PostKeeps(cfg, s, o);
      case Break => BreakKeeps(cfg, s);
      case _ =>
        PlainCounts(cfg, s, step);
        PlainOnce(cfg, s, step);
        PlainReader(cfg, s, step);
    }
  }

  lemma {:induction false} InvRuns(cfg: Config, s: State, steps: seq<Step>, t: State)
    requires Inv(cfg, s) && Runs(cfg, s, steps, t)
    ensures Inv(cfg, t)
    decreases |steps|
  {
    if steps != [] {
      InvStep(cfg, s, steps[0]);
      InvRuns(cfg, Apply(cfg, s, steps[0]), steps[1..], t);
    }
  }

  lemma InvAlways(cfg: Config, s: State)
    requires Reachable(cfg, s)
    ensures Inv(cfg, s)
  {
    var steps :| Runs(cfg, INIT, steps, s);
    InvInit(cfg);
    InvRuns(cfg, INIT, steps, s);
  }

  lemma InvInit(cfg: Config)
    ensures Inv(cfg, INIT)
  {}

  // ------------------------------------------------------------ what follows

  lemma {:induction false} FatesSplit(recs: seq<Rec>, fates: seq<Fate>)
    requires |fates| <= |recs|
    ensures |fates| == |ReadOf(recs, fates)| + Drops(fates)
  {
    if fates != [] { FatesSplit(recs, fates[..|fates| - 1]); }
  }

  /** Conservation: accepted = in the channel + dropped + read; and the two counters agree
      with it once no producer is between its operations. */
  lemma Conservation(cfg: Config, s: State)
    requires Reachable(cfg, s)
    ensures |s.fates| <= |s.accepted|
    ensures |s.accepted| == |s.channel| + Drops(s.fates) + |ReadOf(s.accepted, s.fates)|
    ensures s.dropUnqueue == s.dropCount == s.dropNote == s.counting == 0 ==>
              s.enqueued == |s.channel| + s.dropped + |ReadOf(s.accepted, s.fates)|
    ensures s.queued >= |s.channel|
    ensures s.channel == s.accepted[|s.accepted| - |s.channel|..] && |s.channel| <= Capacity(cfg)
  {
    InvAlways(cfg, s);
    FatesSplit(s.accepted, s.fates);
  }

  /** At most once, and in order: the records of all batches handed over are the beginning
      of the records read, so no accepted record is in two batches or twice in one. */
  lemma AtMostOnce(cfg: Config, s: State)
    requires Reachable(cfg, s)
    ensures |s.fates| <= |s.accepted|
    ensures Records(Flat(s.handed)) <= ReadOf(s.accepted, s.fates)
    ensures Subsequence(Records(Flat(s.handed)), s.accepted)
    ensures !s.reader.Posting? && Records(InHand(s.reader)) == [] ==>
              Records(Flat(s.handed)) == ReadOf(s.accepted, s.fates)
  {
    InvAlways(cfg, s);
    ReadIsSubsequence(s.accepted, s.fates);
    SubsequencePrefix(Records(Flat(s.handed)), ReadOf(s.accepted, s.fates), s.accepted);
  }

  lemma {:induction false} ReadIsSubsequence(recs: seq<Rec>, fates: seq<Fate>)
    requires |fates| <= |recs|
    ensures Subsequence(ReadOf(recs, fates), recs[..|fates|]) && Subsequence(ReadOf(recs, fates), recs)
  {
    if fates != [] {
      var n := |fates| - 1;
      ReadIsSubsequence(recs, fates[..n]);
      SubsequenceSnoc(ReadOf(recs, fates[..n]), recs[..n], recs[n]);
      assert recs[..n + 1] == recs[..n] + [recs[n]];
      assert ReadOf(recs, fates[..n]) + [] == ReadOf(recs, fates[..n]);
    }
    SubsequenceAppend(ReadOf(recs, fates), recs[..|fates|], recs[|fates|..]);
    assert recs == recs[..|fates|] + recs[|fates|..];
  }

  lemma {:induction false} SubsequencePrefix<T>(a: seq<T>, b: seq<T>, c: seq<T>)
    requires a <= b && Subsequence(b, c)
    ensures Subsequence(a, c)
    decreases |c|
  {
    if c != [] {
      if Subsequence(b, c[..|c| - 1]) {
        SubsequencePrefix(a, b, c[..|c| - 1]);
      } else if a != b {
        SubsequencePrefix(a, b[..|b| - 1], c[..|c| - 1]);
      }
    }
  }

  /** Every drop is announced, waiting to be announced, or silent by configuration. */
  lemma DropsAccounted(cfg: Config, s: State)
    requires Reachable(cfg, s)
    ensures s.dropUnqueue == s.dropCount == s.dropNote == 0 ==>
              Drops(s.fates) == s.dropped == s.announced + s.silenced + s.unreported
    ensures cfg.reportDiscards ==> s.silenced == 0
    ensures !cfg.reportDiscards ==> s.announced == 0
  {
    InvAlways(cfg, s);
    var steps :| Runs(cfg, INIT, steps, s);
    OnlyOneKind(cfg, INIT, steps, s);
  }

  lemma {:induction false} OnlyOneKind(cfg: Config, s: State, steps: seq<Step>, t: State)
    requires Runs(cfg, s, steps, t)
    ensures cfg.reportDiscards ==> t.silenced == s.silenced
    ensures !cfg.reportDiscards ==> t.announced == s.announced
    decreases |steps|
  {
    if steps != [] {
      OneKindStep(cfg, s, steps[0]);
      OnlyOneKind(cfg, Apply(cfg, s, steps[0]), steps[1..], t);
    }
  }

  lemma OneKindStep(cfg: Config, s: State, step: Step)
    requires Enabled(cfg, s, step)
    ensures var t := Apply(cfg, s, step);
            && (cfg.reportDiscards ==> t.silenced == s.silenced)
            && (!cfg.reportDiscards ==> t.announced == s.announced)
  {
    if !OfReader(step) { OutsideFrame(cfg, s, step); }
  }

  /** A batch exceeds the batch size by one note at most, and only when no drop was known
      as the pass chose its room: the drop raced the drain. */
  lemma OnlyANoteExceeds(cfg: Config, s: State)
    requires Reachable(cfg, s) && s.reader.Posting?
    ensures |s.reader.batch| <= cfg.batchSize + 1
    ensures |s.reader.batch| > cfg.batchSize ==>
              s.reader.batch[|s.reader.batch| - 1].Note? && s.reader.room == cfg.batchSize
  {
    InvAlways(cfg, s);
  }

  lemma {:induction false} GoodKeepsShape(b: seq<Item>)
    ensures AllData(b) ==> AllData(Good(b))
    ensures |Good(b)| <= |b|
    ensures (|Good(b)| == |b|) <==> (forall i :: 0 <= i < |b| ==> b[i].Data? ==> b[i].rec.serialisable)
  {
    if b != [] { GoodKeepsShape(b[..|b| - 1]); }
  }

  /** The body holds the items that can be written, in order, and nothing else. */
  lemma {:induction false} GoodMeaning(b: seq<Item>)
    ensures Subsequence(Good(b), b)
    ensures forall x :: x in Good(b) <==> x in b && (x.Note? || x.rec.serialisable)
  {
    if b != [] {
      var init, last := b[..|b| - 1], b[|b| - 1];
      GoodMeaning(init);
      SubsequenceSnoc(Good(init), init, last);
      assert b == init + [last] && Good(init) + [] == Good(init);
    }
  }

  /** A record is dropped only for want of room: a write into a channel with room for it
      keeps all, and one into a full channel costs the oldest record and no other. */
  lemma DropsOnlyWhenFull(cfg: Config, s: State, rec: Rec)
    requires Reachable(cfg, s) && rec in s.writing && !s.completed
    ensures var t, room := Apply(cfg, s, Write(rec)), (if cfg.maxQueueSize > 1 then cfg.maxQueueSize else 1);
            && t.accepted == s.accepted + [rec]
            && (|s.channel| < room ==> t.channel == s.channel + [rec] && t.fates == s.fates)
            && (|s.channel| >= room ==>
                  |s.channel| == room && t.channel == s.channel[1..] + [rec] && t.fates == s.fates + [Dropped]
                  && |s.fates| < |s.accepted| && s.accepted[|s.fates|] == s.channel[0])
  {
    InvAlways(cfg, s);
  }

  /** The collector cuts a body at its own limit. With a batch size within that limit the
      cut can only lose the note, never a record. */
  lemma CollectorCutLosesNoRecord(cfg: Config, s: State, b: seq<Item>)
    requires cfg.batchSize <= CollectorModel.MAX_EVENTS_PER_BATCH
    requires Reachable(cfg, s) && b in s.handed
    ensures Records(Clip(Good(b), CollectorModel.MAX_EVENTS_PER_BATCH)) == Records(Good(b))
  {
    InvAlways(cfg, s);
    GoodKeepsShape(b);
    var limit, g := CollectorModel.MAX_EVENTS_PER_BATCH, Good(b);
    if |g| > limit {
      assert Shaped(cfg, cfg.batchSize, b);
      assert |g| == |b| == limit + 1;
      assert g == Good(b[..|b| - 1]) + [b[|b| - 1]];
      assert g[..|g| - 1] == g[..limit];
    }
  }

  /** With a batch size of two or more every pass that was woken drains a record. */
  lemma EveryPassDrains(cfg: Config, s: State)
    requires Reachable(cfg, s) && s.reader.Noting? && cfg.batchSize >= 2
    ensures s.reader.batch != []
  {
    InvAlways(cfg, s);
  }

  /** The room a pass has chosen; none between passes. */
  function RoomOf(r: Reader): Option<nat> {
    match r
    case Draining(room, _) => Some(room)
    case Taken(room, _, _) => Some(room)
    case Noting(room, _) => Some(room)
    case _ => None
  }

  /** Without a new `Size` a reader that is filling a batch is still in the same pass. */
  lemma RoomStep(cfg: Config, s: State, step: Step, room: nat)
    requires Enabled(cfg, s, step) && !step.Size? && (RoomOf(s.reader).None? || RoomOf(s.reader) == Some(room))
    ensures RoomOf(Apply(cfg, s, step).reader).None? || RoomOf(Apply(cfg, s, step).reader) == Some(room)
  {
    if OfReader(step) { RoomOfReader(cfg, s, step); } else { OutsideFrame(cfg, s, step); }
  }

  lemma RoomOfReader(cfg: Config, s: State, step: Step)
    requires OfReader(step) && Enabled(cfg, s, step) && !step.Size?
    ensures RoomOf(Apply(cfg, s, step).reader).None? || RoomOf(Apply(cfg, s, step).reader) == RoomOf(s.reader)
  {}

  lemma {:induction false} SamePass(cfg: Config, s: State, steps: seq<Step>, t: State, room: nat)
    requires Runs(cfg, s, steps, t) && (forall step :: step in steps ==> !step.Size?)
    requires RoomOf(s.reader).None? || RoomOf(s.reader) == Some(room)
    ensures RoomOf(t.reader).None? || RoomOf(t.reader) == Some(room)
    decreases |steps|
  {
    if steps != [] {
      assert steps[0] in steps && forall step :: step in steps[1..] ==> step in steps;
      RoomStep(cfg, s, steps[0], room);
      SamePass(cfg, Apply(cfg, s, steps[0]), steps[1..], t, room);
    }
  }

  /** A pass has no room exactly when the batch size is one and a drop is unreported. */
  lemma NoRoomIff(cfg: Config, s: State)
    requires Reachable(cfg, s) && s.reader.Sizing? && cfg.batchSize >= 1
    ensures Apply(cfg, s, Size).reader.room == 0 <==> cfg.batchSize == 1 && s.unreported > 0
  {}

  /** A pass drains nothing exactly when the batch size is one and a drop was unreported as
      the pass chose its room (a size of zero is ruled out by the configuration). */
  lemma PassDrainsIff(cfg: Config, s: State, steps: seq<Step>, t: State)
    requires cfg.batchSize >= 1 && Reachable(cfg, s) && s.reader.Sizing?
    requires Runs(cfg, Apply(cfg, s, Size), steps, t) && (forall step :: step in steps ==> !step.Size?)
    requires t.reader.Noting?
    ensures t.reader.batch == [] <==> cfg.batchSize == 1 && s.unreported > 0
  {
    var u := Apply(cfg, s, Size);
    InvAlways(cfg, s);
    InvStep(cfg, s, Size);
    InvRuns(cfg, u, steps, t);
    NoRoomIff(cfg, s);
    SamePass(cfg, u, steps, t, u.reader.room);
  }

  const RECORD := Rec(0, true)
  const ONE_BY_ONE := Config(1, 1, true, Usable)

  /** And it does happen: with batches of one, a pass over a waiting record takes nothing. */
  lemma PassCanDrainNothing() returns (s: State)
    ensures Reachable(ONE_BY_ONE, s) && s.reader.Noting? && s.reader.batch == [] && s.channel == [RECORD]
  {
    var s1 := OneDropped();
    ReachableStep(ONE_BY_ONE, s1, Awake);
    var s2 := s1.(reader := Sizing);
    assert s2 == Apply(ONE_BY_ONE, s1, Awake);
    ReachableStep(ONE_BY_ONE, s2, Size);
    var s3 := s2.(reader := Draining(0, []));
    assert s3 == Apply(ONE_BY_ONE, s2, Size);
    ReachableStep(ONE_BY_ONE, s3, EndDrain);
    s := Apply(ONE_BY_ONE, s3, EndDrain);
  }

  /** Two writes into a channel of one: the first record is dropped and not yet reported. */
  lemma OneDropped() returns (s: State)
    ensures Reachable(ONE_BY_ONE, s) && s.reader.Waiting? && s.channel == [RECORD] && s.unreported == 1 && !s.stopping
  {
    var s0 := OneQueued(ONE_BY_ONE, RECORD);
    var s1 := OnePushedOut(s0);
    ReachableStep(ONE_BY_ONE, s1, DropUnqueue);
    var s2 := Apply(ONE_BY_ONE, s1, DropUnqueue);
    ReachableStep(ONE_BY_ONE, s2, DropCount);
    var s3 := Apply(ONE_BY_ONE, s2, DropCount);
    ReachableStep(ONE_BY_ONE, s3, DropNote);
    s := Apply(ONE_BY_ONE, s3, DropNote);
  }

  lemma OnePushedOut(s: State) returns (t: State)
    requires Reachable(ONE_BY_ONE, s)
    requires s == INIT.(queued := 1, channel := [RECORD], accepted := [RECORD], counting := 1)
    ensures Reachable(ONE_BY_ONE, t) && t.reader.Waiting? && t.channel == [RECORD] && !t.stopping
    ensures t.dropUnqueue == 1 && t.dropCount == 0 && t.dropNote == 0 && t.unreported == 0
  {
    ReachableStep(ONE_BY_ONE, s, Begin(RECORD));
    var s1 := Apply(ONE_BY_ONE, s, Begin(RECORD));
    ReachableStep(ONE_BY_ONE, s1, Write(RECORD));
    t := Apply(ONE_BY_ONE, s1, Write(RECORD));
  }

  // ----------------------------------------------------------------- flushing

  ghost predicate Extends(s: State, t: State) {
    s.accepted <= t.accepted && s.fates <= t.fates && s.handed <= t.handed
  }

  lemma HistoryStep(cfg: Config, s: State, step: Step)
    requires Enabled(cfg, s, step)
    ensures Extends(s, Apply(cfg, s, step))
  {
    if !OfReader(step) { OutsideFrame(cfg, s, step); }
  }

  lemma {:induction false} HistoryGrows(cfg: Config, s: State, steps: seq<Step>, t: State)
    requires Runs(cfg, s, steps, t)
    ensures Extends(s, t)
    decreases |steps|
  {
    if steps != [] {
      HistoryStep(cfg, s, steps[0]);
      HistoryGrows(cfg, Apply(cfg, s, steps[0]), steps[1..], t);
    }
  }

  lemma {:induction false} ReadOfPrefix(recs: seq<Rec>, fates: seq<Fate>, n: nat)
    requires n <= |fates| <= |recs|
    ensures ReadOf(recs, fates[..n]) <= ReadOf(recs, fates)
    decreases |fates|
  {
    if n == |fates| {
      assert fates[..n] == fates;
    } else {
      ReadOfPrefix(recs, fates[..|fates| - 1], n);
      assert fates[..|fates| - 1][..n] == fates[..n];
    }
  }

  /** Between the end of the drain and the in-flight increment, and inside the drain. */
  predicate InWindow(r: Reader) { r.Draining? || r.Taken? || r.Noting? || r.Noted? }

  /** `FlushAsync` reads the queue count as zero in `s`, and the in-flight count as zero in
      the later `t`. Everything accepted up to `s` is then dropped, handed over, or in the
      reader's own batch; and the last only while the reader is in the window. */
  lemma FlushMeans(cfg: Config, s: State, steps: seq<Step>, t: State)
    requires Reachable(cfg, s) && Runs(cfg, s, steps, t)
    requires s.queued == 0 && t.inFlight == 0
    ensures |s.fates| == |s.accepted|
    ensures ReadOf(s.accepted, s.fates) <= Records(Flat(t.handed)) + Records(InHand(t.reader))
    ensures !InWindow(t.reader) ==> ReadOf(s.accepted, s.fates) <= Records(Flat(t.handed))
  {
    InvAlways(cfg, s);
    InvRuns(cfg, s, steps, t);
    HistoryGrows(cfg, s, steps, t);
    var later := t.accepted[|s.accepted|..];
    assert t.accepted == s.accepted + later;
    ReadOfMore(s.accepted, later, s.fates);
    assert t.fates[..|s.fates|] == s.fates;
    ReadOfPrefix(t.accepted, t.fates, |s.fates|);
  }

  /** What the reader has in hand stays in hand until it is handed over as a whole. */
  ghost predicate HandKept(s: State, t: State) {
    if |t.handed| == |s.handed| then t.handed == s.handed && InHand(s.reader) <= InHand(t.reader)
    else Records(Flat(s.handed)) + Records(InHand(s.reader)) <= Records(Flat(t.handed))
  }

  lemma {:induction false} RecordsPrefix(a: seq<Item>, b: seq<Item>)
    requires a <= b
    ensures Records(a) <= Records(b)
  {
    assert b == a + b[|a|..];
    RecordsAppend(a, b[|a|..]);
  }

  lemma {:induction false} FlatPrefix(a: seq<seq<Item>>, b: seq<seq<Item>>)
    requires a <= b
    ensures Flat(a) <= Flat(b)
  {
    assert b == a + b[|a|..];
    FlatAppend(a, b[|a|..]);
  }

  lemma HandStep(cfg: Config, s: State, step: Step)
    requires Enabled(cfg, s, step)
    ensures var t := Apply(cfg, s, step);
            if step.Post? || step.Break? then t.handed == s.handed + [InHand(s.reader)]
            else t.handed == s.handed && InHand(s.reader) <= InHand(t.reader)
  {
    if OfReader(step) { HandReader(cfg, s, step); } else { OutsideFrame(cfg, s, step); }
  }

  lemma HandReader(cfg: Config, s: State, step: Step)
    requires OfReader(step) && Enabled(cfg, s, step)
    ensures var t := Apply(cfg, s, step);
            if step.Post? || step.Break? then t.handed == s.handed + [InHand(s.reader)]
            else t.handed == s.handed && InHand(s.reader) <= InHand(t.reader)
  {}

  lemma {:induction false} HandRuns(cfg: Config, s: State, steps: seq<Step>, t: State)
    requires Runs(cfg, s, steps, t)
    ensures HandKept(s, t)
    decreases |steps|
  {
    if steps != [] {
      var u := Apply(cfg, s, steps[0]);
      HandStep(cfg, s, steps[0]);
      HandRuns(cfg, u, steps[1..], t);
      HistoryStep(cfg, s, steps[0]);
      HistoryGrows(cfg, u, steps[1..], t);
      if steps[0].Post? || steps[0].Break? { HandedThen(s, u, t); } else { HeldThen(s, u, t); }
    }
  }

  lemma HandedThen(s: State, u: State, t: State)
    requires u.handed == s.handed + [InHand(s.reader)] && u.handed <= t.handed
    ensures HandKept(s, t)
  {
    HandedOver(s.handed, InHand(s.reader));
    FlatPrefix(u.handed, t.handed);
    RecordsPrefix(Flat(u.handed), Flat(t.handed));
    assert Records(Flat(u.handed)) + Records([]) == Records(Flat(u.handed));
  }

  lemma HeldThen(s: State, u: State, t: State)
    requires u.handed == s.handed && InHand(s.reader) <= InHand(u.reader) && HandKept(u, t) && u.handed <= t.handed
    ensures HandKept(s, t)
  {
    if |t.handed| != |s.handed| {
      RecordsPrefix(InHand(s.reader), InHand(u.reader));
      var h := Records(Flat(s.handed));
      assert h + Records(InHand(s.reader)) <= h + Records(InHand(u.reader));
    }
  }

  /** The exact condition. When the queue count reads zero in `s`, everything accepted by
      then and not dropped has been handed over by `t` exactly if the reader held no record
      in `s`, or the count of batches has moved on since. */
  lemma FlushedIff(cfg: Config, s: State, steps: seq<Step>, t: State)
    requires Reachable(cfg, s) && Runs(cfg, s, steps, t) && s.queued == 0
    ensures |s.fates| == |s.accepted|
    ensures ReadOf(s.accepted, s.fates) <= Records(Flat(t.handed))
            <==> Records(InHand(s.reader)) == [] || t.batches > s.batches
  {
    InvAlways(cfg, s);
    InvRuns(cfg, s, steps, t);
    HandRuns(cfg, s, steps, t);
    HistoryGrows(cfg, s, steps, t);
    FlushedEither(s, t);
  }

  lemma FlushedEither(s: State, t: State)
    requires OnceInv(s) && HandKept(s, t) && s.handed <= t.handed
    ensures ReadOf(s.accepted, s.fates) <= Records(Flat(t.handed))
            <==> Records(InHand(s.reader)) == [] || |t.handed| > |s.handed|
  {
    var out, mine := Records(Flat(s.handed)), Records(InHand(s.reader));
    assert ReadOf(s.accepted, s.fates) == out + mine;
    if |t.handed| == |s.handed| {
      assert Records(Flat(t.handed)) == out;
      if mine == [] {
        assert out + mine == out;
      } else {
        assert |out + mine| > |out|;
        assert !(out + mine <= out);
      }
    } else {
      assert out + mine <= Records(Flat(t.handed));
    }
  }

  lemma {:induction false} RunsAppend(cfg: Config, s: State, a: seq<Step>, t: State, step: Step)
    requires Runs(cfg, s, a, t) && Enabled(cfg, t, step)
    ensures Runs(cfg, s, a + [step], Apply(cfg, t, step))
    decreases |a|
  {
    if a == [] {
      assert (a + [step])[1..] == [];
    } else {
      assert (a + [step])[1..] == a[1..] + [step];
      RunsAppend(cfg, Apply(cfg, s, a[0]), a[1..], t, step);
    }
  }

  lemma ReachableStep(cfg: Config, s: State, step: Step)
    requires Reachable(cfg, s) && Enabled(cfg, s, step)
    ensures Reachable(cfg, Apply(cfg, s, step))
  {
    var a :| Runs(cfg, INIT, a, s);
    RunsAppend(cfg, INIT, a, s, step);
  }

  /** The window is real: both counters read zero while a record is neither dropped nor
      handed over, so "flushed" can be answered before the record has left. */
  lemma FlushCanReturnEarly(cfg: Config, rec: Rec) returns (s: State)
    requires cfg.batchSize >= 1
    ensures Reachable(cfg, s) && s.queued == 0 && s.inFlight == 0
    ensures s.accepted == [rec] && s.fates == [Read] && s.handed == []
  {
    s := OneInHand(cfg, rec);
  }

  /** One record accepted, and taken by the reader. */
  lemma OneInHand(cfg: Config, rec: Rec) returns (s: State)
    requires cfg.batchSize >= 1
    ensures Reachable(cfg, s)
    ensures s == INIT.(accepted := [rec], counting := 1, fates := [Read],
                       reader := Draining(cfg.batchSize, [Data(rec)]))
  {
    var s4 := OneAwaited(cfg, rec);
    ReachableStep(cfg, s4, ReadOne);
    var s5 := s4.(channel := [], fates := [Read], reader := Taken(cfg.batchSize, [], rec));
    assert s4.channel[1..] == [] && s4.fates + [Read] == [Read];
    assert s5 == Apply(cfg, s4, ReadOne);
    ReachableStep(cfg, s5, Unqueue);
    s := Apply(cfg, s5, Unqueue);
    assert s.reader.batch == [Data(rec)];
  }

  /** One record accepted, and a pass begun. */
  lemma OneAwaited(cfg: Config, rec: Rec) returns (s: State)
    requires cfg.batchSize >= 1
    ensures Reachable(cfg, s)
    ensures s == INIT.(queued := 1, channel := [rec], accepted := [rec], counting := 1,
                       reader := Draining(cfg.batchSize, []))
  {
    var s2 := OneQueued(cfg, rec);
    ReachableStep(cfg, s2, Awake);
    var s3 := s2.(reader := Sizing);
    assert s3 == Apply(cfg, s2, Awake);
    ReachableStep(cfg, s3, Size);
    s := Apply(cfg, s3, Size);
  }

  lemma OneQueued(cfg: Config, rec: Rec) returns (s: State)
    ensures Reachable(cfg, s)
    ensures s == INIT.(queued := 1, channel := [rec], accepted := [rec], counting := 1)
  {
    assert Runs(cfg, INIT, [], INIT);
    ReachableStep(cfg, INIT, Begin(rec));
    var s1 := Apply(cfg, INIT, Begin(rec));
    ReachableStep(cfg, s1, Write(rec));
    s := Apply(cfg, s1, Write(rec));
    assert s.writing == multiset{};
  }
}
