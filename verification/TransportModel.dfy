/**
 The exporter: any number of producers, one reader, a bounded drop-oldest channel.

 Each step is one interlocked operation or one channel operation. The channel runs its
 drop callback after it has released its own lock, so a producer whose write pushed a
 record out still owes three separate counter updates. A producer is nothing but its
 program point, so the producers are kept as counts: `writing` holds the records between
 the first increment and the write, the other five count producers at later points.

 Fields under "history" only record what happened.
 */
module TransportModel {
  import opened Common
  import CollectorModel

  datatype Rec = Rec(payload: int, serialisable: bool)

  datatype Item = Data(rec: Rec) | Note(count: nat)

  /** Where to post: nowhere, somewhere no client can be built for, or somewhere. */
  datatype Endpoint = Unset | Unusable | Usable

  datatype Config = Config(batchSize: nat, maxQueueSize: int, reportDiscards: bool, endpoint: Endpoint)

  function Capacity(cfg: Config): nat { Max(1, cfg.maxQueueSize) }

  /** The drain loop's program points. `room` is the batch limit chosen for this pass. */
  datatype Reader =
    | Waiting
    | Sizing
    | Draining(room: nat, batch: seq<Item>)
    | Taken(room: nat, batch: seq<Item>, rec: Rec)
    | Noting(room: nat, batch: seq<Item>)
    | Noted(room: nat, batch: seq<Item>)
    | Posting(room: nat, batch: seq<Item>)
    | Posted
    | Broken
    | Stopped

  datatype Fate = Read | Dropped

  datatype Reply = NoReply | Status(code: nat)

  /** A body at the collector's events endpoint: the state it found, and what validation
      will make of each element. */
  datatype Reception = Reception(cfg: CollectorModel.Settings, at: CollectorModel.State, raws: seq<CollectorModel.Raw>)

  /** How a post went. `fits`: what serialises one by one can also be written as a whole.
      The body may have reached the collector and the reply been lost all the same. */
  datatype Outcome = Outcome(fits: bool, reply: Reply, reception: Option<Reception>)

  datatype Delivery = Delivery(batch: seq<Item>, outcome: Outcome)

  datatype State = State(
    channel: seq<Rec>,
    completed: bool, closed: bool, stopping: bool,
    queued: int, inFlight: int, unreported: int,
    enqueued: nat, dropped: nat, sent: nat, failed: nat, batches: nat,
    // producers, by program point
    writing: multiset<Rec>,
    dropUnqueue: nat, dropCount: nat, dropNote: nat, counting: nat, refused: nat,
    reader: Reader,
    // history
    accepted: seq<Rec>, fates: seq<Fate>,
    handed: seq<seq<Item>>, posts: seq<Delivery>, broken: nat,
    announced: nat, silenced: nat)

  const INIT := State([], false, false, false, 0, 0, 0, 0, 0, 0, 0, 0, multiset{}, 0, 0, 0, 0, 0, Waiting,
                      [], [], [], [], 0, 0, 0)

  datatype Step =
    | Begin(rec: Rec) | Write(rec: Rec)
    | DropUnqueue | DropCount | DropNote | CountEnqueued | Refuse
    | Close | Complete | Stop
    | Awake | Exit | Size | ReadOne | Unqueue | EndDrain | NoteDrops | Decide
    | Post(outcome: Outcome) | Done | Break | Unwind

  /** What the exporter takes for success. */
  predicate Ok(o: Outcome) { o.reply.Status? && o.reply.code < 500 }

  /** The body of a post: everything, or what serialises when the whole does not, or nothing
      when that cannot be written either. */
  function BodyOf(batch: seq<Item>, o: Outcome): seq<Item> { if o.fits then Good(batch) else [] }

  /** Without a client nothing is sent. The collector sees one element for each item of the
      body, and its own answer is always 202. */
  predicate Possible(cfg: Config, batch: seq<Item>, o: Outcome) {
    && (!cfg.endpoint.Usable? ==> o.reply.NoReply? && o.reception.None?)
    && (o.reception.Some? ==> |o.reception.value.raws| == |BodyOf(batch, o)| && (Ok(o) ==> o.reply.code == 202))
  }

  predicate Enabled(cfg: Config, s: State, step: Step) {
    match step
    case Begin(_) => true // a producer may have looked at the flag before it was set
    case Write(rec) => rec in s.writing
    case DropUnqueue => s.dropUnqueue > 0
    case DropCount => s.dropCount > 0
    case DropNote => s.dropNote > 0
    case CountEnqueued => s.counting > 0
    case Refuse => s.refused > 0
    case Close => true
    case Complete => s.closed
    case Stop => s.closed
    case Awake => s.reader.Waiting? && s.channel != [] && !s.stopping
    case Exit => s.reader.Waiting? && (s.stopping || (s.completed && s.channel == []))
    case Size => s.reader.Sizing?
    case ReadOne => s.reader.Draining? && |s.reader.batch| < s.reader.room && s.channel != []
    case Unqueue => s.reader.Taken?
    case EndDrain => s.reader.Draining? && (|s.reader.batch| >= s.reader.room || s.channel == [])
    case NoteDrops => s.reader.Noting?
    case Decide => s.reader.Noted?
    case Post(o) => s.reader.Posting? && !cfg.endpoint.Unusable? && Possible(cfg, s.reader.batch, o)
    case Done => s.reader.Posted?
    case Break => s.reader.Posting? && cfg.endpoint.Unusable?
    case Unwind => s.reader.Broken?
  }

  function WriteTo(cfg: Config, s: State, rec: Rec): State {
    var t := s.(writing := s.writing - multiset{rec});
    if s.completed then t.(refused := s.refused + 1)
    else if |s.channel| >= Capacity(cfg) then
      t.(channel := s.channel[1..] + [rec], accepted := s.accepted + [rec], fates := s.fates + [Dropped],
         dropUnqueue := s.dropUnqueue + 1)
    else t.(channel := s.channel + [rec], accepted := s.accepted + [rec], counting := s.counting + 1)
  }

  /** `AppendDropNote`: take the drop count, and announce it unless told not to. */
  function NoteTo(cfg: Config, s: State): State
    requires s.reader.Noting?
  {
    var d := s.unreported;
    var r := s.reader;
    if d <= 0 then s.(unreported := 0, reader := Noted(r.room, r.batch))
    else if !cfg.reportDiscards then
      s.(unreported := 0, reader := Noted(r.room, r.batch), silenced := s.silenced + d)
    else
      s.(unreported := 0, reader := Noted(r.room, r.batch + [Note(d)]), announced := s.announced + d)
  }

  function PostTo(s: State, o: Outcome): State
    requires s.reader.Posting?
  {
    var b := s.reader.batch;
    var t := s.(batches := s.batches + 1, handed := s.handed + [b], posts := s.posts + [Delivery(b, o)],
                reader := Posted);
    if Ok(o) then t.(sent := s.sent + |b|) else t.(failed := s.failed + |b|)
  }

  /** No client can be built: the exception passes the counters by and ends the loop. */
  function BreakTo(s: State): State
    requires s.reader.Posting?
  {
    var b := s.reader.batch;
    s.(batches := s.batches + 1, handed := s.handed + [b], broken := s.broken + |b|, reader := Broken)
  }

  function RoomFor(cfg: Config, unreported: int): int {
    if unreported > 0 then cfg.batchSize - 1 else cfg.batchSize
  }

  function Apply(cfg: Config, s: State, step: Step): State
    requires Enabled(cfg, s, step)
  {
    match step
    case Begin(rec) => s.(queued := s.queued + 1, writing := s.writing + multiset{rec})
    case Write(rec) => WriteTo(cfg, s, rec)
    case DropUnqueue => s.(queued := s.queued - 1, dropUnqueue := s.dropUnqueue - 1, dropCount := s.dropCount + 1)
    case DropCount => s.(dropped := s.dropped + 1, dropCount := s.dropCount - 1, dropNote := s.dropNote + 1)
    case DropNote => s.(unreported := s.unreported + 1, dropNote := s.dropNote - 1, counting := s.counting + 1)
    case CountEnqueued => s.(enqueued := s.enqueued + 1, counting := s.counting - 1)
    case Refuse => s.(queued := s.queued - 1, refused := s.refused - 1)
    case Close => s.(closed := true)
    case Complete => s.(completed := true)
    case Stop => s.(stopping := true)
    case Awake => s.(reader := Sizing)
    case Exit => s.(reader := Stopped)
    case Size => s.(reader := Draining(Max(0, RoomFor(cfg, s.unreported)), []))
    case ReadOne =>
      s.(channel := s.channel[1..], fates := s.fates + [Read],
         reader := Taken(s.reader.room, s.reader.batch, s.channel[0]))
    case Unqueue =>
      s.(queued := s.queued - 1, reader := Draining(s.reader.room, s.reader.batch + [Data(s.reader.rec)]))
    case EndDrain => s.(reader := Noting(s.reader.room, s.reader.batch))
    case NoteDrops => NoteTo(cfg, s)
    case Decide =>
      if s.reader.batch == [] then s.(reader := Waiting)
      else s.(inFlight := s.inFlight + 1, reader := Posting(s.reader.room, s.reader.batch))
    case Post(o) => PostTo(s, o)
    case Done => s.(inFlight := s.inFlight - 1, reader := Waiting)
    case Break => BreakTo(s)
    case Unwind => s.(inFlight := s.inFlight - 1, reader := Stopped)
  }

  ghost predicate Runs(cfg: Config, s: State, steps: seq<Step>, t: State)
    decreases |steps|
  {
    if steps == [] then s == t
    else Enabled(cfg, s, steps[0]) && Runs(cfg, Apply(cfg, s, steps[0]), steps[1..], t)
  }

  ghost predicate Reachable(cfg: Config, s: State) { exists steps :: Runs(cfg, INIT, steps, s) }

  /** The items that serialise. */
  function Good(batch: seq<Item>): seq<Item> {
    if batch == [] then []
    else
      Good(batch[..|batch| - 1])
      + (if batch[|batch| - 1].Data? && !batch[|batch| - 1].rec.serialisable then [] else [batch[|batch| - 1]])
  }

  function Records(items: seq<Item>): seq<Rec> {
    if items == [] then []
    else Records(items[..|items| - 1]) + (if items[|items| - 1].Data? then [items[|items| - 1].rec] else [])
  }

  /** What the reader holds in its own hands, not yet handed over. */
  function InHand(r: Reader): seq<Item> {
    match r
    case Draining(_, b) => b
    case Taken(_, b, rec) => b + [Data(rec)]
    case Noting(_, b) => b
    case Noted(_, b) => b
    case Posting(_, b) => b
    case _ => []
  }
}
