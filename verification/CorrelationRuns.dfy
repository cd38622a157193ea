/**
 The registry over whole runs, with a clock that does not go back and fresh ids, and one
 poller that keeps it company: it reads what was registered after its cursor and then moves
 the cursor to the newest hint it saw, less a margin. `seen` and `late` only record what
 happened: the hints the poller was given, and those registered at or before its cursor.
 */
module CorrelationRuns {
  import opened Common
  import opened CorrelationModel

  datatype Setup = Setup(max: nat, margin: real)

  datatype State = State(entries: seq<Entry>, now: real, used: set<Id>, cursor: Option<real>,
                         seen: set<Entry>, late: set<Entry>)

  datatype Step = RegisterHint(entry: Entry) | DiscardHint(id: Id) | OtherRead | Poll | Tick(now: real)

  ghost predicate Initial(s: State) {
    s.entries == [] && s.used == {} && s.cursor.None? && s.seen == {} && s.late == {}
  }

  predicate Enabled(s: State, step: Step) {
    match step
    case RegisterHint(e) => e.registeredAt == s.now && e.id !in s.used
    case Tick(now) => now >= s.now
    case _ => true
  }

  function Latest(hints: seq<Entry>): real
    requires hints != []
  {
    var last := hints[|hints| - 1].registeredAt;
    if |hints| == 1 then last
    else
      var before := Latest(hints[..|hints| - 1]);
      if before > last then before else last
  }

  function Advance(cursor: Option<real>, hints: seq<Entry>, margin: real): Option<real> {
    if hints == [] then cursor
    else
      var newest := Latest(hints) - margin;
      if cursor.Some? && cursor.value > newest then cursor else Some(newest)
  }

  lemma {:induction false} LatestMeaning(hints: seq<Entry>)
    requires hints != []
    ensures exists i :: 0 <= i < |hints| && hints[i].registeredAt == Latest(hints)
    ensures forall i :: 0 <= i < |hints| ==> hints[i].registeredAt <= Latest(hints)
  {
    var n := |hints| - 1;
    if n > 0 {
      LatestMeaning(hints[..n]);
      if Latest(hints) != hints[n].registeredAt {
        var i :| 0 <= i < n && hints[..n][i].registeredAt == Latest(hints[..n]);
        assert hints[i].registeredAt == Latest(hints);
      }
    } else {
      assert hints[0].registeredAt == Latest(hints);
    }
  }

  /** The cursor never goes back, and moves to the newest hint seen less the margin. */
  lemma CursorMeaning(cursor: Option<real>, hints: seq<Entry>, margin: real)
    ensures hints == [] ==> Advance(cursor, hints, margin) == cursor
    ensures hints != [] ==>
              var next := Advance(cursor, hints, margin);
              && next.Some? && (cursor.Some? ==> next.value >= cursor.value)
              && (forall i :: 0 <= i < |hints| ==> next.value >= hints[i].registeredAt - margin)
              && (next == cursor || exists i :: 0 <= i < |hints| && hints[i].registeredAt - margin == next.value)
  {
    if hints != [] {
      LatestMeaning(hints);
      var i :| 0 <= i < |hints| && hints[i].registeredAt == Latest(hints);
      assert hints[i].registeredAt - margin == Latest(hints) - margin;
    }
  }

  predicate Reached(cursor: Option<real>, at: real) { cursor.Some? && at <= cursor.value }

  function Polled(s: State): seq<Entry> { Pending(s.entries, s.now, Filter(None, s.cursor)) }

  function Apply(cfg: Setup, s: State, step: Step): State
    requires Enabled(s, step)
  {
    match step
    case RegisterHint(e) =>
      s.(entries := Registered(s.entries, e, s.now, cfg.max), used := s.used + {e.id},
         late := if Reached(s.cursor, s.now) then s.late + {e} else s.late)
    case DiscardHint(id) => s.(entries := Without(s.entries, id))
    case OtherRead => s.(entries := LiveOf(s.entries, s.now))
    case Poll =>
      var hints := Polled(s);
      s.(entries := LiveOf(s.entries, s.now), seen := s.seen + (set h | h in hints),
         cursor := Advance(s.cursor, hints, cfg.margin))
    case Tick(now) => s.(now := now)
  }

  ghost predicate Runs(cfg: Setup, s: State, steps: seq<Step>, t: State)
    decreases |steps|
  {
    if steps == [] then s == t
    else Enabled(s, steps[0]) && Runs(cfg, Apply(cfg, s, steps[0]), steps[1..], t)
  }

  ghost predicate Reachable(cfg: Setup, s: State) {
    exists start, steps :: Initial(start) && Runs(cfg, start, steps, s)
  }

  // -------------------------------------------------------------- invariants

  ghost predicate OrderInv(s: State) {
    && UniqueIds(s.entries) && Sorted(s.entries)
    && (forall e :: e in s.entries ==> e.registeredAt <= s.now && e.id in s.used)
  }

  ghost predicate CursorInv(cfg: Setup, s: State) {
    && (s.cursor.Some? ==> s.cursor.value <= s.now - cfg.margin)
    && (forall e :: e in s.seen + s.late ==> e.id in s.used)
    && (forall e :: e in s.late ==> e !in s.seen && Reached(s.cursor, e.registeredAt))
    && (forall e :: e in s.entries && e !in s.late && e !in s.seen ==> !Reached(s.cursor, e.registeredAt))
  }

  ghost predicate Fewer(s: State, t: State) {
    t == s.(entries := t.entries) && forall e :: e in t.entries ==> e in s.entries
  }

  lemma OrderRegister(cfg: Setup, s: State, e: Entry)
    requires OrderInv(s) && Enabled(s, RegisterHint(e))
    ensures OrderInv(Apply(cfg, s, RegisterHint(e)))
  {
    var live := LiveOf(s.entries, s.now);
    LiveOfMeaning(s.entries, s.now);
    LiveKeepsUnique(s.entries, s.now);
    LiveKeepsSorted(s.entries, s.now);
    FreshId(live, e, s.used);
    PutFresh(live, e);
    SortedSnoc(live, e);
    PutMeaning(live, e);
    NewestOfSorted(live + [e], cfg.max);
    NewestIsSome(live + [e], cfg.max);
  }

  lemma FreshId(es: seq<Entry>, e: Entry, used: set<Id>)
    requires e.id !in used && forall x :: x in es ==> x.id in used
    ensures !HasId(es, e.id)
  {
    forall i | 0 <= i < |es| ensures es[i].id != e.id { assert es[i] in es; }
  }

  lemma NewestIsSome(all: seq<Entry>, max: nat)
    requires UniqueIds(all)
    ensures UniqueIds(Newest(all, max)) && forall e :: e in Newest(all, max) ==> e in all
  {
    var kept := Newest(all, max);
    var cut := |all| - |kept|;
    forall i, j | 0 <= i < j < |kept| ensures kept[i].id != kept[j].id { EndOf(all, max, i); EndOf(all, max, j); }
    forall e | e in kept ensures e in all {
      var i :| 0 <= i < |kept| && kept[i] == e;
      EndOf(all, max, i);
    }
  }

  lemma EndOf(all: seq<Entry>, max: nat, i: nat)
    requires i < |Newest(all, max)|
    ensures |Newest(all, max)| <= |all| && Newest(all, max)[i] == all[|all| - |Newest(all, max)| + i]
  {}

  lemma {:induction false} WithoutKeepsSorted(es: seq<Entry>, id: Id)
    requires Sorted(es) && UniqueIds(es)
    ensures Sorted(Without(es, id))
  {
    if es != [] {
      var init, last := es[..|es| - 1], es[|es| - 1];
      WithoutKeepsSorted(init, id);
      WithoutMeaning(init, id);
      SortedSnocKept(Without(init, id), init, last);
    }
  }

  lemma SortedSnocKept(kept: seq<Entry>, init: seq<Entry>, last: Entry)
    requires Sorted(kept) && Sorted(init + [last]) && forall e :: e in kept ==> e in init
    ensures Sorted(kept + [last])
  {
    forall e | e in kept ensures e.registeredAt <= last.registeredAt {
      var k :| 0 <= k < |init| && init[k] == e;
      assert (init + [last])[k] == e && (init + [last])[|init|] == last;
    }
    SortedSnoc(kept, last);
  }

  lemma OrderStep(cfg: Setup, s: State, step: Step)
    requires OrderInv(s) && Enabled(s, step)
    ensures OrderInv(Apply(cfg, s, step))
  {
    match step {
      case RegisterHint(e) => OrderRegister(cfg, s, e);
      case DiscardHint(id) => WithoutMeaning(s.entries, id); WithoutKeepsSorted(s.entries, id);
      case Tick(_) =>
      case _ =>
        LiveOfMeaning(s.entries, s.now);
        LiveKeepsUnique(s.entries, s.now);
        LiveKeepsSorted(s.entries, s.now);
    }
  }

  lemma {:induction false} LatestIsLargest(hints: seq<Entry>)
    requires hints != []
    ensures forall h :: h in hints ==> h.registeredAt <= Latest(hints)
    ensures exists h :: h in hints && h.registeredAt == Latest(hints)
  {
    var init, last := hints[..|hints| - 1], hints[|hints| - 1];
    assert hints == init + [last];
    assert last in hints;
    if init != [] { LatestIsLargest(init); }
  }

  lemma CursorRegister(cfg: Setup, s: State, e: Entry)
    requires OrderInv(s) && CursorInv(cfg, s) && Enabled(s, RegisterHint(e))
    ensures CursorInv(cfg, Apply(cfg, s, RegisterHint(e)))
  {
    RegisteredAreSome(s.entries, e, s.now, cfg.max);
  }

  lemma RegisteredAreSome(es: seq<Entry>, e: Entry, now: real, max: nat)
    requires UniqueIds(es)
    ensures forall x :: x in Registered(es, e, now, max) ==> x == e || x in es
  {
    LiveOfMeaning(es, now);
    LiveKeepsUnique(es, now);
    PutMeaning(LiveOf(es, now), e);
    NewestIsSome(Put(LiveOf(es, now), e), max);
  }

  lemma AdvanceReaches(cursor: Option<real>, hints: seq<Entry>, margin: real, at: real)
    requires Reached(cursor, at)
    ensures Reached(Advance(cursor, hints, margin), at)
  {}

  lemma AdvanceBound(cfg: Setup, s: State)
    requires OrderInv(s) && CursorInv(cfg, s)
    ensures var c := Advance(s.cursor, Polled(s), cfg.margin); c.Some? ==> c.value <= s.now - cfg.margin
  {
    var hints := Polled(s);
    PendingMeaning(s.entries, s.now, Filter(None, s.cursor));
    if hints != [] {
      LatestIsLargest(hints);
      var h :| h in hints && h.registeredAt == Latest(hints);
    }
  }

  lemma CursorPoll(cfg: Setup, s: State)
    requires OrderInv(s) && CursorInv(cfg, s)
    ensures CursorInv(cfg, Apply(cfg, s, Poll))
  {
    var hints, t := Polled(s), Apply(cfg, s, Poll);
    PendingMeaning(s.entries, s.now, Filter(None, s.cursor));
    LiveOfMeaning(s.entries, s.now);
    AdvanceBound(cfg, s);
    forall e | e in s.late ensures Reached(t.cursor, e.registeredAt) {
      AdvanceReaches(s.cursor, hints, cfg.margin, e.registeredAt);
    }
    forall e | e in t.entries && e !in t.late ensures e in t.seen {
      if e !in s.seen { assert e in hints; }
    }
  }

  lemma CursorStep(cfg: Setup, s: State, step: Step)
    requires OrderInv(s) && CursorInv(cfg, s) && Enabled(s, step)
    ensures CursorInv(cfg, Apply(cfg, s, step))
  {
    match step {
      case RegisterHint(e) => CursorRegister(cfg, s, e);
      case DiscardHint(id) => WithoutMeaning(s.entries, id);
      case OtherRead => LiveOfMeaning(s.entries, s.now);
      case Poll => CursorPoll(cfg, s);
      case Tick(_) =>
    }
  }

  lemma {:induction false} InvRuns(cfg: Setup, s: State, steps: seq<Step>, t: State)
    requires OrderInv(s) && CursorInv(cfg, s) && Runs(cfg, s, steps, t)
    ensures OrderInv(t) && CursorInv(cfg, t)
    decreases |steps|
  {
    if steps != [] {
      OrderStep(cfg, s, steps[0]);
      CursorStep(cfg, s, steps[0]);
      InvRuns(cfg, Apply(cfg, s, steps[0]), steps[1..], t);
    }
  }

  lemma InvAlways(cfg: Setup, s: State)
    requires Reachable(cfg, s)
    ensures OrderInv(s) && CursorInv(cfg, s)
  {
    var start, steps :| Initial(start) && Runs(cfg, start, steps, s);
    InvRuns(cfg, start, steps, s);
  }

  // ---------------------------------------------------------------- theorems

  /** With a clock that does not go back and fresh ids, the registry is in registration order
      at every moment of every run. */
  lemma AlwaysInRegistrationOrder(cfg: Setup, s: State)
    requires Reachable(cfg, s)
    ensures Sorted(s.entries)
  {
    InvAlways(cfg, s);
  }

  /** And whatever a registration removes over the cap is no younger than anything it keeps;
      the new hint itself is kept. */
  lemma OverflowAlwaysDropsOldest(cfg: Setup, s: State, e: Entry)
    requires Reachable(cfg, s) && Enabled(s, RegisterHint(e))
    ensures var t := Apply(cfg, s, RegisterHint(e));
            && |t.entries| <= cfg.max && (cfg.max > 0 ==> e in t.entries)
            && forall x, y :: x in t.entries && y in LiveOf(s.entries, s.now) && y !in t.entries ==>
                 y.registeredAt <= x.registeredAt
  {
    InvAlways(cfg, s);
    LiveOfMeaning(s.entries, s.now);
    FreshId(LiveOf(s.entries, s.now), e, s.used);
    OverflowDropsOldest(s.entries, e, s.now, cfg.max);
  }

  /** A poller that comes back often enough misses, of the hints still live at a poll, exactly
      the late ones: every other one it has been given, these it has not and will not be. */
  lemma PollMissesExactlyTheLate(cfg: Setup, s: State)
    requires Reachable(cfg, s)
    ensures var t := Apply(cfg, s, Poll); forall e :: e in t.entries ==> (e !in t.seen <==> e in t.late)
  {
    InvAlways(cfg, s);
    CursorPoll(cfg, s);
    LiveOfMeaning(s.entries, s.now);
    PendingMeaning(s.entries, s.now, Filter(None, s.cursor));
    var t := Apply(cfg, s, Poll);
    forall e | e in t.entries ensures e !in t.seen <==> e in t.late {
      if e !in s.seen && e !in s.late { assert e in Polled(s); }
    }
  }

  lemma {:induction false} LateGrows(cfg: Setup, s: State, steps: seq<Step>, t: State)
    requires Runs(cfg, s, steps, t)
    ensures s.late <= t.late
    decreases |steps|
  {
    if steps != [] { LateGrows(cfg, Apply(cfg, s, steps[0]), steps[1..], t); }
  }

  /** A late hint is never returned, at no later moment. */
  lemma LateIsNeverSeen(cfg: Setup, s: State, steps: seq<Step>, t: State, e: Entry)
    requires Reachable(cfg, s) && e in s.late && Runs(cfg, s, steps, t)
    ensures e !in t.seen
  {
    InvAlways(cfg, s);
    InvRuns(cfg, s, steps, t);
    LateGrows(cfg, s, steps, t);
  }

  /** A registration is late exactly when it falls on the cursor's own instant, which takes a
      margin of zero (or less). */
  lemma LateIff(cfg: Setup, s: State, e: Entry)
    requires cfg.margin >= 0.0 && Reachable(cfg, s) && Enabled(s, RegisterHint(e))
    ensures e in Apply(cfg, s, RegisterHint(e)).late <==> s.cursor == Some(e.registeredAt)
    ensures cfg.margin > 0.0 ==> e !in Apply(cfg, s, RegisterHint(e)).late
  {
    InvAlways(cfg, s);
  }

  lemma {:induction false} MarginRuns(cfg: Setup, s: State, steps: seq<Step>, t: State)
    requires cfg.margin > 0.0 && OrderInv(s) && CursorInv(cfg, s) && s.late == {} && Runs(cfg, s, steps, t)
    ensures t.late == {}
    decreases |steps|
  {
    if steps != [] {
      OrderStep(cfg, s, steps[0]);
      CursorStep(cfg, s, steps[0]);
      MarginRuns(cfg, Apply(cfg, s, steps[0]), steps[1..], t);
    }
  }

  /** So a poller that steps its cursor back, as the resolver does by one second, has been
      given every hint that is live when it polls. */
  lemma SteppingBackMissesNothing(cfg: Setup, s: State)
    requires cfg.margin > 0.0 && Reachable(cfg, s)
    ensures var t := Apply(cfg, s, Poll); forall e :: e in t.entries ==> e in t.seen
  {
    var start, steps :| Initial(start) && Runs(cfg, start, steps, s);
    MarginRuns(cfg, start, steps, s);
    PollMissesExactlyTheLate(cfg, s);
  }

  const EXACT := Setup(10, 0.0)

  /** Without a margin one is missed when two hints share an instant and the poll falls
      between them. */
  lemma SameInstantIsMissed(d: Entry, e: Entry) returns (s: State)
    requires d.id != e.id && d.registeredAt == e.registeredAt
    requires Live(d, e.registeredAt) && Live(e, e.registeredAt)
    ensures Reachable(EXACT, s) && e in s.entries && Live(e, s.now) && e in s.late
  {
    var s2 := OneSeen(d);
    s := Apply(EXACT, s2, RegisterHint(e));
    LiveOne(d, s2.now);
    assert Put([d], e) == [d, e] by { assert [d][1..] == []; }
    ReachableStep(EXACT, s2, RegisterHint(e));
  }

  /** One hint registered, and seen by a poll at the same instant. */
  lemma OneSeen(d: Entry) returns (s: State)
    requires Live(d, d.registeredAt)
    ensures Reachable(EXACT, s)
    ensures s == State([d], d.registeredAt, {d.id}, Some(d.registeredAt), {d}, {})
  {
    var now := d.registeredAt;
    var s0 := State([], now, {}, None, {}, {});
    assert Initial(s0) && Runs(EXACT, s0, [], s0);
    ReachableStep(EXACT, s0, RegisterHint(d));
    var s1 := State([d], now, {d.id}, None, {}, {});
    assert s1 == Apply(EXACT, s0, RegisterHint(d));
    ReachableStep(EXACT, s1, Poll);
    PollOfOne(d);
    s := State([d], now, {d.id}, Some(now), {d}, {});
  }

  lemma PollOfOne(d: Entry)
    requires Live(d, d.registeredAt)
    ensures Apply(EXACT, State([d], d.registeredAt, {d.id}, None, {}, {}), Poll)
            == State([d], d.registeredAt, {d.id}, Some(d.registeredAt), {d}, {})
  {
    LiveOne(d, d.registeredAt);
    WantedOne(d, Filter(None, None));
    assert Pending([d], d.registeredAt, Filter(None, None)) == [d];
    assert (set h | h in [d]) == {d};
    assert Latest([d]) == d.registeredAt;
  }

  lemma {:induction false} RunsAppend(cfg: Setup, s: State, a: seq<Step>, t: State, step: Step)
    requires Runs(cfg, s, a, t) && Enabled(t, step)
    ensures Runs(cfg, s, a + [step], Apply(cfg, t, step))
    decreases |a|
  {
    if a == [] {
      assert (a + [step])[1..] == [];
    } else {
      assert (a + [step])[1..] == a[1..] + [step];
      RunsAppend(cfg, Apply(cfg, s, a[0]), a[1..], t, step);
    }
  }

  lemma ReachableStep(cfg: Setup, s: State, step: Step)
    requires Reachable(cfg, s) && Enabled(s, step)
    ensures Reachable(cfg, Apply(cfg, s, step))
  {
    var start, a :| Initial(start) && Runs(cfg, start, a, s);
    RunsAppend(cfg, start, a, s, step);
  }

  lemma LiveOne(d: Entry, now: real)
    requires Live(d, now)
    ensures LiveOf([d], now) == [d]
  {
    assert [d][..0] == [];
    assert LiveOf([d], now) == LiveOf([d][..0], now) + [d];
  }

  lemma WantedOne(d: Entry, f: Filter)
    requires Wanted(d, f)
    ensures WantedOf([d], f) == [d]
  {
    assert [d][..0] == [];
    assert WantedOf([d], f) == WantedOf([d][..0], f) + [d];
  }
}
