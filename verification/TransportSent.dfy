/**
 What the exporter's `Sent` is worth. The exporter takes any answer below 500 for success
 and counts the whole batch; what the collector keeps of the body is `CollectorModel.Submit`
 at the moment it arrives, whatever state the collector is in by then.
 */
module TransportSent {
  import opened Common
  import opened TransportModel
  import opened TransportTheorems
  import CollectorModel
  import CollectorTheorems

  // ------------------------------------------------------- what the collector keeps

  /** The number of events this body added to those the collector accepted. */
  function KeptBy(r: Reception): nat {
    |CollectorModel.Submit(r.cfg, r.at, r.raws).accepted| - |r.at.accepted|
  }

  function KeptOf(o: Outcome): nat { if o.reception.Some? then KeptBy(o.reception.value) else 0 }

  predicate AllValid(raws: seq<CollectorModel.Raw>) { forall i :: 0 <= i < |raws| ==> raws[i].Valid? }

  predicate NoneValid(raws: seq<CollectorModel.Raw>) { forall i :: 0 <= i < |raws| ==> raws[i].Malformed? }

  predicate Listening(r: Reception) { r.at.active.Some? && !CollectorModel.Full(r.cfg, r.at.queue) }

  lemma {:induction false} KeptSize(run: CollectorModel.RunId, raws: seq<CollectorModel.Raw>)
    ensures |CollectorTheorems.Kept(run, raws)| <= |raws|
    ensures |CollectorTheorems.Kept(run, raws)| == |raws| <==> AllValid(raws)
  {
    if raws != [] { KeptSize(run, raws[..|raws| - 1]); }
  }

  lemma {:induction false} KeptNone(run: CollectorModel.RunId, raws: seq<CollectorModel.Raw>)
    ensures |CollectorTheorems.Kept(run, raws)| == 0 <==> NoneValid(raws)
  {
    if raws != [] { KeptNone(run, raws[..|raws| - 1]); }
  }

  /** All or part of a body: all of it exactly if a run is active, the queue has room, no
      element lies beyond the limit and every one is valid; nothing of it exactly if no run
      is active, the queue is full or nothing within the limit is valid. */
  lemma KeptByIff(r: Reception)
    requires r.raws != []
    ensures KeptBy(r) <= |r.raws|
    ensures KeptBy(r) == |r.raws|
            <==> Listening(r) && |r.raws| <= CollectorModel.MAX_EVENTS_PER_BATCH && AllValid(r.raws)
    ensures KeptBy(r) == 0 <==> !Listening(r) || NoneValid(Clip(r.raws, CollectorModel.MAX_EVENTS_PER_BATCH))
  {
    CollectorTheorems.IntakeMeaning(r.at.active, r.raws);
    if r.at.active.Some? {
      KeptSize(r.at.active.value, Clip(r.raws, CollectorModel.MAX_EVENTS_PER_BATCH));
      KeptNone(r.at.active.value, Clip(r.raws, CollectorModel.MAX_EVENTS_PER_BATCH));
    }
  }

  /** A collector that listens keeps a valid body up to its limit. */
  lemma KeptUpToTheLimit(r: Reception)
    requires r.raws != [] && Listening(r) && AllValid(r.raws)
    ensures KeptBy(r) == |Clip(r.raws, CollectorModel.MAX_EVENTS_PER_BATCH)|
  {
    CollectorTheorems.IntakeMeaning(r.at.active, r.raws);
    KeptSize(r.at.active.value, Clip(r.raws, CollectorModel.MAX_EVENTS_PER_BATCH));
  }

  // ------------------------------------------------------------------- one post

  predicate AllSerialisable(items: seq<Item>) {
    forall i :: 0 <= i < |items| ==> items[i].Data? ==> items[i].rec.serialisable
  }

  predicate Written(d: Delivery) { AllSerialisable(d.batch) && d.outcome.fits }

  lemma WrittenIff(d: Delivery)
    requires d.batch != []
    ensures |BodyOf(d.batch, d.outcome)| <= |d.batch|
    ensures |BodyOf(d.batch, d.outcome)| == |d.batch| <==> Written(d)
  {
    GoodKeepsShape(d.batch);
  }

  predicate Success(reply: Reply) { reply.Status? && 200 <= reply.code < 300 }

  /** Everything went as it should: each item could be written, the collector's endpoint
      answered, a run was active, the queue had room, the batch was within the collector's
      limit and each item passed validation. */
  predicate KeptWhole(d: Delivery) {
    && Written(d) && Success(d.outcome.reply) && d.outcome.reception.Some?
    && Listening(d.outcome.reception.value)
    && |d.batch| <= CollectorModel.MAX_EVENTS_PER_BATCH
    && AllValid(d.outcome.reception.value.raws)
  }

  /** The body never arrived, or arrived empty, while no run was active or the queue was full,
      or with nothing valid within the limit. */
  predicate KeptNothing(d: Delivery) {
    || d.outcome.reception.None?
    || !Listening(d.outcome.reception.value)
    || NoneValid(Clip(d.outcome.reception.value.raws, CollectorModel.MAX_EVENTS_PER_BATCH))
  }

  ghost predicate Proper(cfg: Config, d: Delivery) { d.batch != [] && Possible(cfg, d.batch, d.outcome) }

  lemma KeptWholeIff(cfg: Config, d: Delivery)
    requires Proper(cfg, d)
    ensures KeptOf(d.outcome) <= |d.batch|
    ensures Ok(d.outcome) ==> (KeptOf(d.outcome) == |d.batch| <==> KeptWhole(d))
  {
    WrittenIff(d);
    if d.outcome.reception.Some? {
      var r := d.outcome.reception.value;
      if r.raws != [] { KeptByIff(r); } else { NothingSubmitted(r); }
    }
  }

  lemma NothingSubmitted(r: Reception)
    requires r.raws == []
    ensures KeptBy(r) == 0
  {}

  lemma KeptNothingIff(d: Delivery)
    ensures KeptOf(d.outcome) == 0 <==> KeptNothing(d)
  {
    if d.outcome.reception.Some? {
      var r := d.outcome.reception.value;
      if r.raws != [] { KeptByIff(r); } else { NothingSubmitted(r); }
    }
  }

  // ------------------------------------------------------------------- all posts

  /** What the collector kept of the batches that were answered below 500. */
  function KeptIn(posts: seq<Delivery>): nat {
    if posts == [] then 0
    else
      var last := posts[|posts| - 1];
      KeptIn(posts[..|posts| - 1]) + (if Ok(last.outcome) then KeptOf(last.outcome) else 0)
  }

  /** How many items were in the bodies that were answered below 500. */
  function WrittenIn(posts: seq<Delivery>): nat {
    if posts == [] then 0
    else
      var last := posts[|posts| - 1];
      WrittenIn(posts[..|posts| - 1]) + (if Ok(last.outcome) then |BodyOf(last.batch, last.outcome)| else 0)
  }

  ghost predicate AllProper(cfg: Config, posts: seq<Delivery>) {
    forall i :: 0 <= i < |posts| ==> Proper(cfg, posts[i])
  }

  lemma {:induction false} SentAgainstKept(cfg: Config, posts: seq<Delivery>)
    requires AllProper(cfg, posts)
    ensures SentIn(posts) >= KeptIn(posts)
    ensures SentIn(posts) == KeptIn(posts)
            <==> forall i :: 0 <= i < |posts| && Ok(posts[i].outcome) ==> KeptWhole(posts[i])
  {
    if posts != [] {
      SentAgainstKept(cfg, posts[..|posts| - 1]);
      KeptWholeIff(cfg, posts[|posts| - 1]);
    }
  }

  lemma {:induction false} SentAgainstWritten(cfg: Config, posts: seq<Delivery>)
    requires AllProper(cfg, posts)
    ensures SentIn(posts) >= WrittenIn(posts)
    ensures SentIn(posts) == WrittenIn(posts)
            <==> forall i :: 0 <= i < |posts| && Ok(posts[i].outcome) ==> Written(posts[i])
  {
    if posts != [] {
      SentAgainstWritten(cfg, posts[..|posts| - 1]);
      WrittenIff(posts[|posts| - 1]);
    }
  }

  // ------------------------------------------------------------------ over all runs

  /** Every post on record was one of a batch that was not empty; and with an endpoint no
      client can be built for, the first batch is the last. */
  ghost predicate PostsInv(cfg: Config, s: State) {
    && AllProper(cfg, s.posts)
    && (!cfg.endpoint.Unusable? ==> s.broken == 0 && !s.reader.Broken?)
    && (cfg.endpoint.Unusable? ==>
          && s.posts == [] && s.failed == 0 && |s.handed| <= 1 && (s.broken == 0 <==> s.handed == [])
          && (s.handed != [] ==> s.reader.Broken? || s.reader.Stopped?))
  }

  lemma PostsStep(cfg: Config, s: State, step: Step)
    requires ReaderInv(cfg, s) && PostsInv(cfg, s) && Enabled(cfg, s, step)
    ensures PostsInv(cfg, Apply(cfg, s, step))
  {
    if OfReader(step) { PostsReader(cfg, s, step); } else { PostsOutside(cfg, s, step); }
  }

  lemma PostsOutside(cfg: Config, s: State, step: Step)
    requires PostsInv(cfg, s) && Enabled(cfg, s, step) && !OfReader(step)
    ensures PostsInv(cfg, Apply(cfg, s, step))
  {
    OutsideFrame(cfg, s, step);
  }

  lemma PostsReader(cfg: Config, s: State, step: Step)
    requires ReaderInv(cfg, s) && PostsInv(cfg, s) && Enabled(cfg, s, step) && OfReader(step)
    ensures PostsInv(cfg, Apply(cfg, s, step))
  {
    match step {
      case Post(o) => PostsPost(cfg, s, o);
      case Break => PostsBreak(cfg, s);
      case _ => PostsPlain(cfg, s, step);
    }
  }

  lemma PostsPost(cfg: Config, s: State, o: Outcome)
    requires ReaderInv(cfg, s) && PostsInv(cfg, s) && Enabled(cfg, s, Post(o))
    ensures PostsInv(cfg, PostTo(s, o))
  {}

  lemma PostsBreak(cfg: Config, s: State)
    requires ReaderInv(cfg, s) && PostsInv(cfg, s) && Enabled(cfg, s, Break)
    ensures PostsInv(cfg, BreakTo(s))
  {}

  lemma PostsPlain(cfg: Config, s: State, step: Step)
    requires PostsInv(cfg, s) && Enabled(cfg, s, step) && OfReader(step) && !step.Post? && !step.Break?
    ensures PostsInv(cfg, Apply(cfg, s, step))
  {}

  lemma {:induction false} PostsRuns(cfg: Config, s: State, steps: seq<Step>, t: State)
    requires Inv(cfg, s) && PostsInv(cfg, s) && Runs(cfg, s, steps, t)
    ensures PostsInv(cfg, t)
    decreases |steps|
  {
    if steps != [] {
      InvStep(cfg, s, steps[0]);
      PostsStep(cfg, s, steps[0]);
      PostsRuns(cfg, Apply(cfg, s, steps[0]), steps[1..], t);
    }
  }

  lemma PostsAlways(cfg: Config, s: State)
    requires Reachable(cfg, s)
    ensures PostsInv(cfg, s)
  {
    var steps :| Runs(cfg, INIT, steps, s);
    InvInit(cfg);
    PostsInit(cfg);
    PostsRuns(cfg, INIT, steps, s);
  }

  lemma PostsInit(cfg: Config)
    ensures PostsInv(cfg, INIT)
  {}

  lemma SentAlways(cfg: Config, s: State)
    requires Reachable(cfg, s)
    ensures s.sent == SentIn(s.posts)
  {
    InvAlways(cfg, s);
  }

  /** "Records the collector accepted": at every moment of every run `Sent` is at least the
      number kept of the batches answered below 500, and it is that number exactly when each
      of those batches was kept whole. */
  lemma SentIsAcceptedIff(cfg: Config, s: State)
    requires Reachable(cfg, s)
    ensures s.sent >= KeptIn(s.posts)
    ensures s.sent == KeptIn(s.posts)
            <==> forall i :: 0 <= i < |s.posts| && Ok(s.posts[i].outcome) ==> KeptWhole(s.posts[i])
  {
    SentAlways(cfg, s);
    PostsAlways(cfg, s);
    SentAgainstKept(cfg, s.posts);
  }

  /** Batch by batch, with those that were not answered: a batch is counted as sent for what
      was kept of it exactly when it was kept whole if it was answered below 500, and when
      nothing of it was kept if it was not. */
  lemma CountedAsKeptIff(cfg: Config, s: State, d: Delivery)
    requires Reachable(cfg, s) && d in s.posts
    ensures (if Ok(d.outcome) then |d.batch| else 0) == KeptOf(d.outcome)
            <==> if Ok(d.outcome) then KeptWhole(d) else KeptNothing(d)
  {
    PostsAlways(cfg, s);
    KeptWholeIff(cfg, d);
    KeptNothingIff(d);
  }

  /** `Sent` is the number of items in the bodies answered below 500 exactly when every item
      of those batches could be written. */
  lemma SentIsWrittenIff(cfg: Config, s: State)
    requires Reachable(cfg, s)
    ensures s.sent >= WrittenIn(s.posts)
    ensures s.sent == WrittenIn(s.posts)
            <==> forall i :: 0 <= i < |s.posts| && Ok(s.posts[i].outcome) ==> Written(s.posts[i])
  {
    SentAlways(cfg, s);
    PostsAlways(cfg, s);
    SentAgainstWritten(cfg, s.posts);
  }

  /** Every item handed over is counted as sent or failed, exactly unless no client can be
      built and a batch was handed over. */
  lemma HandedIsCountedIff(cfg: Config, s: State)
    requires Reachable(cfg, s)
    ensures s.sent + s.failed == |Flat(s.handed)| <==> !(cfg.endpoint.Unusable? && s.handed != [])
  {
    InvAlways(cfg, s);
    PostsAlways(cfg, s);
  }

  /** Then that batch was the only one: its items are in no counter, and the loop is over. */
  lemma NoClientEndsTheLoop(cfg: Config, s: State)
    requires Reachable(cfg, s) && cfg.endpoint.Unusable? && s.handed != []
    ensures |s.handed| == 1 && s.batches == 1 && s.sent == 0 && s.failed == 0
    ensures s.reader.Broken? || s.reader.Stopped?
  {
    InvAlways(cfg, s);
    PostsAlways(cfg, s);
  }

  /** How many items were in batches with that outcome: a status below 500, or anything else. */
  function ItemsOf(posts: seq<Delivery>, answered: bool): nat {
    if posts == [] then 0
    else
      var last := posts[|posts| - 1];
      ItemsOf(posts[..|posts| - 1], answered)
      + (if (last.outcome.reply.Status? && last.outcome.reply.code < 500) == answered then |last.batch| else 0)
  }

  ghost predicate PostsCounted(s: State) { s.sent == ItemsOf(s.posts, true) && s.failed == ItemsOf(s.posts, false) }

  lemma CountedStep(cfg: Config, s: State, step: Step)
    requires Enabled(cfg, s, step) && PostsCounted(s)
    ensures PostsCounted(Apply(cfg, s, step))
  {
    if step.Post? { PostCounted(s, step.outcome); } else { CountsFrame(cfg, s, step); }
  }

  lemma PostCounted(s: State, o: Outcome)
    requires s.reader.Posting? && PostsCounted(s)
    ensures PostsCounted(PostTo(s, o))
  {
    ItemsSnoc(s.posts, Delivery(s.reader.batch, o), true);
    ItemsSnoc(s.posts, Delivery(s.reader.batch, o), false);
  }

  lemma ItemsSnoc(posts: seq<Delivery>, d: Delivery, answered: bool)
    ensures ItemsOf(posts + [d], answered)
            == ItemsOf(posts, answered) + (if Ok(d.outcome) == answered then |d.batch| else 0)
  {
    assert (posts + [d])[..|posts|] == posts;
  }

  lemma CountsFrame(cfg: Config, s: State, step: Step)
    requires Enabled(cfg, s, step) && !step.Post?
    ensures var t := Apply(cfg, s, step); t.sent == s.sent && t.failed == s.failed && t.posts == s.posts
  {
    if OfReader(step) { CountsReader(cfg, s, step); } else { OutsideFrame(cfg, s, step); }
  }

  lemma CountsReader(cfg: Config, s: State, step: Step)
    requires Enabled(cfg, s, step) && OfReader(step) && !step.Post?
    ensures var t := Apply(cfg, s, step); t.sent == s.sent && t.failed == s.failed && t.posts == s.posts
  {}

  lemma {:induction false} CountedRuns(cfg: Config, s: State, steps: seq<Step>, t: State)
    requires PostsCounted(s) && Runs(cfg, s, steps, t)
    ensures PostsCounted(t)
    decreases |steps|
  {
    if steps != [] {
      CountedStep(cfg, s, steps[0]);
      CountedRuns(cfg, Apply(cfg, s, steps[0]), steps[1..], t);
    }
  }

  /** At every moment `Sent` counts the items of the batches answered with a status below
      500, and `Failed` those of all the others: no answer, or 500 and above. */
  lemma SentAndFailedAre(cfg: Config, s: State)
    requires Reachable(cfg, s)
    ensures s.sent == ItemsOf(s.posts, true) && s.failed == ItemsOf(s.posts, false)
  {
    var steps :| Runs(cfg, INIT, steps, s);
    CountedRuns(cfg, INIT, steps, s);
  }

  /** Why the loop is over: it was told to stop, or the channel was completed and empty, or
      no client could be built. */
  ghost predicate StoppedInv(cfg: Config, s: State) {
    s.reader.Broken? || s.reader.Stopped? ==> s.stopping || (s.completed && s.channel == []) || cfg.endpoint.Unusable?
  }

  lemma StoppedStep(cfg: Config, s: State, step: Step)
    requires Enabled(cfg, s, step) && StoppedInv(cfg, s)
    ensures StoppedInv(cfg, Apply(cfg, s, step))
  {
    if OfReader(step) { StoppedReader(cfg, s, step); } else { StoppedOutside(cfg, s, step); }
  }

  lemma StoppedReader(cfg: Config, s: State, step: Step)
    requires Enabled(cfg, s, step) && OfReader(step) && StoppedInv(cfg, s)
    ensures StoppedInv(cfg, Apply(cfg, s, step))
  {}

  lemma StoppedOutside(cfg: Config, s: State, step: Step)
    requires Enabled(cfg, s, step) && !OfReader(step) && StoppedInv(cfg, s)
    ensures StoppedInv(cfg, Apply(cfg, s, step))
  {}

  lemma {:induction false} StoppedRuns(cfg: Config, s: State, steps: seq<Step>, t: State)
    requires StoppedInv(cfg, s) && Runs(cfg, s, steps, t)
    ensures StoppedInv(cfg, t)
    decreases |steps|
  {
    if steps != [] {
      StoppedStep(cfg, s, steps[0]);
      StoppedRuns(cfg, Apply(cfg, s, steps[0]), steps[1..], t);
    }
  }

  /** A loop that ends of itself leaves nothing behind: unless it was told to stop or could
      build no client, the channel was completed, and every record that was ever accepted
      was dropped or handed over. */
  lemma NothingLeftBehind(cfg: Config, s: State)
    requires Reachable(cfg, s) && s.reader.Stopped? && !s.stopping && !cfg.endpoint.Unusable?
    ensures s.completed && s.channel == [] && |s.fates| == |s.accepted|
    ensures Records(Flat(s.handed)) == ReadOf(s.accepted, s.fates)
  {
    var steps :| Runs(cfg, INIT, steps, s);
    StoppedRuns(cfg, INIT, steps, s);
    InvAlways(cfg, s);
    assert Records(Flat(s.handed)) + [] == Records(Flat(s.handed));
  }

  // ------------------------------------------------------------------- witnesses

  const ONLINE := Config(2, 1, true, Usable)

  function Single(rec: Rec, o: Outcome): Delivery { Delivery([Data(rec)], o) }

  /** One record, and how its post went. */
  lemma OnePosted(rec: Rec, o: Outcome) returns (s: State)
    requires Possible(ONLINE, [Data(rec)], o)
    ensures Reachable(ONLINE, s) && s.posts == [Single(rec, o)]
    ensures if Ok(o) then s.sent == 1 && s.failed == 0 else s.sent == 0 && s.failed == 1
  {
    var s1 := OneToPost(ONLINE, rec);
    ReachableStep(ONLINE, s1, Post(o));
    s := Apply(ONLINE, s1, Post(o));
  }

  lemma OneSum(d: Delivery)
    ensures KeptIn([d]) == (if Ok(d.outcome) then KeptOf(d.outcome) else 0)
    ensures WrittenIn([d]) == (if Ok(d.outcome) then |BodyOf(d.batch, d.outcome)| else 0)
  {
    assert [d][..0] == [];
  }

  lemma GoodOne(rec: Rec)
    ensures Good([Data(rec)]) == if rec.serialisable then [Data(rec)] else []
  {
    assert [Data(rec)][..0] == [];
  }

  /** A record that could be written, answered with 202 by a collector in which no run is
      active: one sent by the counter, none kept. */
  lemma IdleCollectorCountsAsSent(settings: CollectorModel.Settings, body: CollectorModel.Body) returns (s: State)
    ensures CollectorModel.Reachable(settings, CollectorModel.INIT)
    ensures Reachable(ONLINE, s) && s.sent == 1 && WrittenIn(s.posts) == 1 && KeptIn(s.posts) == 0
    ensures s.posts == [Single(RECORD, Outcome(true, Status(202),
                               Some(Reception(settings, CollectorModel.INIT, [CollectorModel.Valid(body)]))))]
  {
    assert CollectorModel.Runs(settings, CollectorModel.INIT, [], CollectorModel.INIT);
    var r := Reception(settings, CollectorModel.INIT, [CollectorModel.Valid(body)]);
    var o := Outcome(true, Status(202), Some(r));
    GoodOne(RECORD);
    s := OnePosted(RECORD, o);
    OneSum(Single(RECORD, o));
    KeptByIff(r);
  }

  /** Any answer below 500 from elsewhere, as from a wrong path or a proxy, counts as well. */
  lemma WrongPathCountsAsSent(code: nat) returns (s: State)
    requires code < 500
    ensures Reachable(ONLINE, s) && s.sent == 1 && WrittenIn(s.posts) == 1 && KeptIn(s.posts) == 0
    ensures s.posts == [Single(RECORD, Outcome(true, Status(code), None))]
  {
    var o := Outcome(true, Status(code), None);
    GoodOne(RECORD);
    s := OnePosted(RECORD, o);
    OneSum(Single(RECORD, o));
  }

  const UNWRITABLE := Rec(0, false)

  /** `Sent` counts a record that was left out of the body because it could not be written. */
  lemma SentCanCountTheUnsent(settings: CollectorModel.Settings, at: CollectorModel.State) returns (s: State)
    ensures Reachable(ONLINE, s) && s.sent == 1 && WrittenIn(s.posts) == 0 && KeptIn(s.posts) == 0
    ensures s.posts == [Single(UNWRITABLE, Outcome(true, Status(202), Some(Reception(settings, at, []))))]
  {
    var r := Reception(settings, at, []);
    var o := Outcome(true, Status(202), Some(r));
    GoodOne(UNWRITABLE);
    s := OnePosted(UNWRITABLE, o);
    OneSum(Single(UNWRITABLE, o));
    NothingSubmitted(r);
  }

  /** The other way round: a record the collector kept is counted as failed when its answer
      is lost, whatever the collector's state, as long as it listens. */
  lemma LostAnswerCountsAsFailed(r: Reception) returns (s: State)
    requires Listening(r) && |r.raws| == 1 && r.raws[0].Valid?
    ensures Reachable(ONLINE, s) && s.sent == 0 && s.failed == 1
    ensures s.posts == [Single(RECORD, Outcome(true, NoReply, Some(r)))] && KeptBy(r) == 1
  {
    var o := Outcome(true, NoReply, Some(r));
    GoodOne(RECORD);
    s := OnePosted(RECORD, o);
    KeptByIff(r);
  }

  /** One record accepted, and its batch about to be posted. */
  lemma OneToPost(cfg: Config, rec: Rec) returns (s: State)
    requires cfg.batchSize >= 1
    ensures Reachable(cfg, s)
    ensures s == INIT.(accepted := [rec], counting := 1, fates := [Read], inFlight := 1,
                       reader := Posting(cfg.batchSize, [Data(rec)]))
  {
    var s3 := OneNoted(cfg, rec);
    ReachableStep(cfg, s3, Decide);
    s := Apply(cfg, s3, Decide);
  }

  lemma OneNoted(cfg: Config, rec: Rec) returns (s: State)
    requires cfg.batchSize >= 1
    ensures Reachable(cfg, s)
    ensures s == INIT.(accepted := [rec], counting := 1, fates := [Read],
                       reader := Noted(cfg.batchSize, [Data(rec)]))
  {
    var s1 := OneInHand(cfg, rec);
    ReachableStep(cfg, s1, EndDrain);
    var s2 := s1.(reader := Noting(cfg.batchSize, [Data(rec)]));
    assert s2 == Apply(cfg, s1, EndDrain);
    ReachableStep(cfg, s2, NoteDrops);
    s := Apply(cfg, s2, NoteDrops);
  }
}
