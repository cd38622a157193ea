/**
 A trace in which every item is written, every element is valid, a run is active and the
 answer is 202, and yet one item is not kept: a drop that races a full drain puts a note
 behind the largest batch, and the collector cuts it off.
 */
module TransportCut {
  import opened Common
  import opened TransportModel
  import opened TransportTheorems
  import opened TransportSent
  import opened TransportObject
  import CollectorModel

  const LIMIT: nat := CollectorModel.MAX_EVENTS_PER_BATCH
  const LARGEST := Config(LIMIT, LIMIT, true, Usable)

  function Copies(n: nat): seq<Rec> { seq(n, _ => RECORD) }

  /** After `n` undisturbed calls of `Enqueue` that found room. */
  function Filled(n: nat): State { INIT.(channel := Copies(n), accepted := Copies(n), queued := n, enqueued := n) }

  lemma ReachableRun(cfg: Config, s: State, steps: seq<Step>, t: State)
    requires Reachable(cfg, s) && Runs(cfg, s, steps, t)
    ensures Reachable(cfg, t)
  {
    var a :| Runs(cfg, INIT, a, s);
    RunsJoin(cfg, INIT, a, s, steps, t);
  }

  lemma {:induction false} FilledIsReachable(n: nat)
    requires n <= LIMIT
    ensures Reachable(LARGEST, Filled(n))
  {
    if n == 0 {
      assert Runs(LARGEST, INIT, [], INIT) && Filled(0) == INIT;
    } else {
      FilledIsReachable(n - 1);
      EnqueueIsRun(LARGEST, Filled(n - 1), RECORD);
      OneMoreFilled(n - 1);
      ReachableRun(LARGEST, Filled(n - 1), EnqueueSteps(LARGEST, Filled(n - 1), RECORD), Filled(n));
    }
  }

  lemma OneMoreFilled(n: nat)
    requires n < LIMIT
    ensures Enqueued(LARGEST, Filled(n), RECORD) == Filled(n + 1)
  {
    assert Copies(n + 1) == Copies(n) + [RECORD];
    assert multiset{RECORD} - multiset{RECORD} == multiset{};
  }

  /** A full channel, and a pass that has chosen room for all of it. */
  function Sized(): State { Filled(LIMIT).(reader := Reader.Draining(LIMIT, [])) }

  lemma SizedIsReachable()
    ensures Reachable(LARGEST, Sized())
  {
    var full, woken := Filled(LIMIT), Filled(LIMIT).(reader := Sizing);
    FilledIsReachable(LIMIT);
    Two(LARGEST, full, Awake, woken, Size, Sized());
    ReachableRun(LARGEST, full, [Awake, Size], Sized());
  }

  /** And then one more record: the oldest is dropped, and the drop not yet reported. */
  function Pushed(): State {
    Sized().(accepted := Copies(LIMIT) + [RECORD], fates := [Dropped], enqueued := LIMIT + 1, dropped := 1,
             unreported := 1)
  }

  lemma PushedIsReachable()
    ensures Reachable(LARGEST, Pushed())
  {
    SizedIsReachable();
    EnqueueIsRun(LARGEST, Sized(), RECORD);
    OnePushed();
    ReachableRun(LARGEST, Sized(), EnqueueSteps(LARGEST, Sized(), RECORD), Pushed());
  }

  lemma OnePushed()
    ensures Enqueued(LARGEST, Sized(), RECORD) == Pushed()
  {
    assert Copies(LIMIT)[1..] + [RECORD] == Copies(LIMIT);
    assert multiset{RECORD} - multiset{RECORD} == multiset{};
  }

  /** The pass has drained the whole channel. */
  lemma AllDrained() returns (s: State)
    ensures Reachable(LARGEST, s) && s.posts == [] && s.sent == 0 && s.unreported == 1
    ensures s.reader == Noting(LIMIT, DataAll(Copies(LIMIT)))
  {
    PushedIsReachable();
    var s0, s1 := Pushed(), TransportObject.Draining(Pushed(), LIMIT, LIMIT);
    assert s0.fates + Reads(0) == s0.fates && DataAll(s0.channel[..0]) == [];
    assert TransportObject.Draining(s0, LIMIT, 0) == s0;
    var taken := ReadsAreRun(LARGEST, s0, LIMIT, LIMIT);
    ReachableRun(LARGEST, s0, taken, s1);
    assert s0.channel[..LIMIT] == s0.channel;
    ReachableStep(LARGEST, s1, EndDrain);
    s := s1.(reader := Noting(LIMIT, DataAll(Copies(LIMIT))));
  }

  /** The largest batch with a note behind it, about to be posted. */
  lemma NoteBehindTheLargest() returns (s: State)
    ensures Reachable(LARGEST, s) && s.posts == [] && s.sent == 0
    ensures s.reader == Posting(LIMIT, DataAll(Copies(LIMIT)) + [Note(1)])
  {
    var s0 := AllDrained();
    var s1 := NoteTo(LARGEST, s0);
    Two(LARGEST, s0, NoteDrops, s1, Decide, Underway(s1));
    ReachableRun(LARGEST, s0, [NoteDrops, Decide], Underway(s1));
    s := Underway(s1);
  }

  lemma AllWritten()
    ensures AllSerialisable(DataAll(Copies(LIMIT)) + [Note(1)])
  {}

  lemma CutNoteCountsAsSent(r: Reception) returns (s: State)
    requires Listening(r) && |r.raws| == LIMIT + 1 && AllValid(r.raws)
    ensures Reachable(LARGEST, s) && s.sent == LIMIT + 1 && KeptIn(s.posts) == LIMIT
    ensures |s.posts| == 1 && Written(s.posts[0]) && s.posts[0].outcome == Outcome(true, Status(202), Some(r))
  {
    var s0 := NoteBehindTheLargest();
    var b, o := s0.reader.batch, Outcome(true, Status(202), Some(r));
    AllWritten();
    WrittenIff(Delivery(b, o));
    ReachableStep(LARGEST, s0, Post(o));
    s := PostTo(s0, o);
    KeptUpToTheLimit(r);
    OneSum(Delivery(b, o));
  }
}
