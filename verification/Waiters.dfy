/**
 The long poll on the registry. A waiter that finds nothing keeps the arrival event that is
 current and sleeps on it; every registration sets that event and puts a new one in its
 place. Events are numbered: number `g` has been set exactly when `g < arrival`.
 */
module Waiters {
  import opened Common
  import opened CorrelationModel

  datatype Phase = Checking | Suspended(event: nat)

  /** `started` only records when the wait began. */
  datatype Waiter = Waiter(filter: Filter, timeout: real, started: real, deadline: real, phase: Phase)

  /** One answered wait: what it got, and the registry and the clocks at that moment. */
  datatype Answer = Answer(waiter: Waiter, hints: seq<Entry>, entries: seq<Entry>, now: real, loopTime: real)

  datatype State = State(entries: seq<Entry>, arrival: nat, now: real, loopTime: real, max: nat,
                         waiters: map<nat, Waiter>, answers: seq<Answer>)

  datatype Step =
    | Start(w: nat, filter: Filter, timeout: real)
    | Check(w: nat)
    | Wake(w: nat)
    | TimeOut(w: nat)
    | RegisterHint(entry: Entry)
    | DiscardHint(id: Id)
    | Poll
    | Tick(now: real, loopTime: real)

  function NotBefore(timeout: real): real { if timeout > 0.0 then timeout else 0.0 }

  predicate Enabled(s: State, step: Step) {
    match step
    case Start(w, _, _) => w !in s.waiters
    case Check(w) => w in s.waiters && s.waiters[w].phase.Checking?
    case Wake(w) => w in s.waiters && s.waiters[w].phase.Suspended? && s.waiters[w].phase.event < s.arrival
    case TimeOut(w) => w in s.waiters && s.waiters[w].phase.Suspended? && s.loopTime >= s.waiters[w].deadline
    case RegisterHint(_) => true
    case DiscardHint(_) => true
    case Poll => true
    case Tick(_, loopTime) => loopTime >= s.loopTime
  }

  function Reply(s: State, w: nat, hints: seq<Entry>): State
    requires w in s.waiters
  {
    s.(waiters := s.waiters - {w},
       answers := s.answers + [Answer(s.waiters[w], hints, s.entries, s.now, s.loopTime)])
  }

  /** The registry clock is a wall clock: a `Tick` may set it to anything. */
  function Apply(s: State, step: Step): State
    requires Enabled(s, step)
  {
    match step
    case Start(w, f, timeout) =>
      s.(waiters := s.waiters[w := Waiter(f, timeout, s.loopTime, s.loopTime + NotBefore(timeout), Checking)])
    case Check(w) =>
      var k := s.waiters[w];
      var t := s.(entries := LiveOf(s.entries, s.now));
      var hints := Pending(s.entries, s.now, k.filter);
      if hints != [] || k.timeout <= 0.0 then Reply(t, w, hints)
      else if k.deadline - s.loopTime <= 0.0 then Reply(t, w, [])
      else t.(waiters := t.waiters[w := k.(phase := Suspended(s.arrival))])
    case Wake(w) => s.(waiters := s.waiters[w := s.waiters[w].(phase := Checking)])
    case TimeOut(w) =>
      Reply(s.(entries := LiveOf(s.entries, s.now)), w, Pending(s.entries, s.now, s.waiters[w].filter))
    case RegisterHint(e) => s.(entries := Registered(s.entries, e, s.now, s.max), arrival := s.arrival + 1)
    case DiscardHint(id) => s.(entries := Without(s.entries, id))
    case Poll => s.(entries := LiveOf(s.entries, s.now))
    case Tick(now, loopTime) => s.(now := now, loopTime := loopTime)
  }

  predicate AnyWanted(es: seq<Entry>, f: Filter) { exists i :: 0 <= i < |es| && Wanted(es[i], f) }

  /** A sleeper whose event has not been set has nothing to wait for in the registry. */
  ghost predicate NobodyStranded(s: State) {
    forall w :: w in s.waiters && s.waiters[w].phase.Suspended? ==>
      && s.waiters[w].phase.event <= s.arrival
      && (s.waiters[w].phase.event == s.arrival ==> !AnyWanted(s.entries, s.waiters[w].filter))
  }

  /** Every answer is the pending set of its moment; an empty one comes only from a wait
      without a timeout or one whose deadline has passed. */
  ghost predicate AnswersRight(s: State) {
    forall a :: a in s.answers ==>
      && a.hints == Pending(a.entries, a.now, a.waiter.filter)
      && (a.hints == [] ==> a.waiter.timeout <= 0.0 || a.loopTime >= a.waiter.deadline)
  }

  ghost predicate Inv(s: State) { UniqueIds(s.entries) && NobodyStranded(s) && AnswersRight(s) }

  /** The deadline is the timeout after the start. */
  predicate OnTime(k: Waiter) { if k.timeout > 0.0 then k.deadline == k.started + k.timeout else k.deadline == k.started }

  ghost predicate TimesRight(s: State) {
    (forall w :: w in s.waiters ==> OnTime(s.waiters[w])) && (forall a :: a in s.answers ==> OnTime(a.waiter))
  }

  lemma TimesStep(s: State, step: Step)
    requires Enabled(s, step) && TimesRight(s)
    ensures TimesRight(Apply(s, step))
  {}

  lemma {:induction false} TimesRuns(s: State, steps: seq<Step>, t: State)
    requires TimesRight(s) && Runs(s, steps, t)
    ensures TimesRight(t)
    decreases |steps|
  {
    if steps != [] {
      TimesStep(s, steps[0]);
      TimesRuns(Apply(s, steps[0]), steps[1..], t);
    }
  }

  /** A wait keeps what it asked for and when it began, for as long as it waits. */
  predicate SameWait(a: Waiter, b: Waiter) {
    a.filter == b.filter && a.timeout == b.timeout && a.started == b.started && a.deadline == b.deadline
  }

  lemma {:induction false} WaitKept(s: State, steps: seq<Step>, t: State, w: nat)
    requires Runs(s, steps, t) && w in t.waiters && forall step :: step in steps ==> !(step.Start? && step.w == w)
    ensures w in s.waiters && SameWait(s.waiters[w], t.waiters[w])
    decreases |steps|
  {
    if steps != [] {
      WaitKept(Apply(s, steps[0]), steps[1..], t, w);
      WaitStep(s, steps[0], w);
    }
  }

  lemma WaitStep(s: State, step: Step, w: nat)
    requires Enabled(s, step) && w in Apply(s, step).waiters && !(step.Start? && step.w == w)
    ensures w in s.waiters && SameWait(s.waiters[w], Apply(s, step).waiters[w])
  {}

  lemma FewerWanted(es: seq<Entry>, fewer: seq<Entry>, f: Filter)
    requires forall e :: e in fewer ==> e in es
    ensures AnyWanted(fewer, f) ==> AnyWanted(es, f)
  {
    if AnyWanted(fewer, f) {
      var i :| 0 <= i < |fewer| && Wanted(fewer[i], f);
      assert fewer[i] in es;
      var j :| 0 <= j < |es| && es[j] == fewer[i];
    }
  }

  /** Removing entries strands nobody. */
  lemma StrandedByRemoval(s: State, fewer: seq<Entry>)
    requires NobodyStranded(s) && forall e :: e in fewer ==> e in s.entries
    ensures NobodyStranded(s.(entries := fewer))
  {
    forall w | w in s.waiters && s.waiters[w].phase.Suspended? && s.waiters[w].phase.event == s.arrival
      ensures !AnyWanted(fewer, s.waiters[w].filter)
    {
      FewerWanted(s.entries, fewer, s.waiters[w].filter);
    }
  }

  lemma {:induction false} LiveTwice(es: seq<Entry>, now: real)
    ensures LiveOf(LiveOf(es, now), now) == LiveOf(es, now)
  {
    if es != [] {
      LiveTwice(es[..|es| - 1], now);
      var l := LiveOf(es, now);
      if Live(es[|es| - 1], now) { assert l[..|l| - 1] == LiveOf(es[..|es| - 1], now); }
      else { assert l == LiveOf(es[..|es| - 1], now); }
    }
  }

  lemma NoPendingNoWanted(es: seq<Entry>, now: real, f: Filter)
    requires Pending(es, now, f) == []
    ensures !AnyWanted(LiveOf(es, now), f)
  {
    WantedOfMeaning(LiveOf(es, now), f);
    assert forall i :: 0 <= i < |LiveOf(es, now)| ==> LiveOf(es, now)[i] in LiveOf(es, now);
  }

  lemma RegisteredUnique(es: seq<Entry>, e: Entry, now: real, max: nat)
    requires UniqueIds(es)
    ensures UniqueIds(Registered(es, e, now, max))
  {
    LiveKeepsUnique(es, now);
    PutMeaning(LiveOf(es, now), e);
    NewestKeepsUnique(Put(LiveOf(es, now), e), max);
  }

  lemma NewestKeepsUnique(all: seq<Entry>, max: nat)
    requires UniqueIds(all)
    ensures UniqueIds(Newest(all, max))
  {
    var kept := Newest(all, max);
    forall i, j | 0 <= i < j < |kept| ensures kept[i].id != kept[j].id {
      assert kept[i] == all[|all| - |kept| + i] && kept[j] == all[|all| - |kept| + j];
    }
  }

  /** Answering with the pending set of the moment keeps all three invariants. */
  lemma ReplyKeeps(s: State, w: nat, hints: seq<Entry>)
    requires Inv(s) && w in s.waiters
    requires hints == Pending(s.entries, s.now, s.waiters[w].filter)
    requires hints == [] ==> s.waiters[w].timeout <= 0.0 || s.loopTime >= s.waiters[w].deadline
    ensures Inv(Reply(s.(entries := LiveOf(s.entries, s.now)), w, hints))
  {
    var live := LiveOf(s.entries, s.now);
    LiveKeepsUnique(s.entries, s.now);
    LiveOfMeaning(s.entries, s.now);
    StrandedByRemoval(s, live);
    LiveTwice(s.entries, s.now);
    var t := Reply(s.(entries := live), w, hints);
    forall v | v in t.waiters && t.waiters[v].phase.Suspended?
      ensures t.waiters[v].phase.event <= t.arrival
      ensures t.waiters[v].phase.event == t.arrival ==> !AnyWanted(t.entries, t.waiters[v].filter)
    {
      assert v in s.waiters && s.(entries := live).waiters[v] == t.waiters[v];
    }
  }

  /** Going to sleep: nothing wanted is in the registry, and the event is the current one. */
  lemma SleepKeeps(s: State, w: nat)
    requires Inv(s) && w in s.waiters && Pending(s.entries, s.now, s.waiters[w].filter) == []
    ensures Inv(s.(entries := LiveOf(s.entries, s.now),
                   waiters := s.waiters[w := s.waiters[w].(phase := Suspended(s.arrival))]))
  {
    LiveKeepsUnique(s.entries, s.now);
    LiveOfMeaning(s.entries, s.now);
    StrandedByRemoval(s, LiveOf(s.entries, s.now));
    NoPendingNoWanted(s.entries, s.now, s.waiters[w].filter);
  }

  lemma RegisterKeeps(s: State, e: Entry)
    requires Inv(s)
    ensures Inv(Apply(s, RegisterHint(e)))
  {
    RegisteredUnique(s.entries, e, s.now, s.max);
  }

  lemma RemovalKeeps(s: State, step: Step)
    requires Inv(s) && (step.DiscardHint? || step.Poll?)
    ensures Inv(Apply(s, step))
  {
    LiveKeepsUnique(s.entries, s.now);
    LiveOfMeaning(s.entries, s.now);
    if step.DiscardHint? { WithoutMeaning(s.entries, step.id); }
    StrandedByRemoval(s, Apply(s, step).entries);
  }

  lemma InvStep(s: State, step: Step)
    requires Enabled(s, step) && Inv(s)
    ensures Inv(Apply(s, step))
  {
    match step {
      case Check(w) =>
        var hints := Pending(s.entries, s.now, s.waiters[w].filter);
        if hints != [] || s.waiters[w].timeout <= 0.0 || s.waiters[w].deadline - s.loopTime <= 0.0 {
          ReplyKeeps(s, w, hints);
        } else {
          SleepKeeps(s, w);
        }
      case TimeOut(w) => ReplyKeeps(s, w, Pending(s.entries, s.now, s.waiters[w].filter));
      case RegisterHint(e) => RegisterKeeps(s, e);
      case DiscardHint(_) => RemovalKeeps(s, step);
      case Poll => RemovalKeeps(s, step);
      case _ =>
    }
  }

  ghost predicate Runs(s: State, steps: seq<Step>, t: State)
    decreases |steps|
  {
    if steps == [] then s == t
    else Enabled(s, steps[0]) && Runs(Apply(s, steps[0]), steps[1..], t)
  }

  ghost predicate Initial(s: State) { s.entries == [] && s.waiters == map[] && s.answers == [] }

  lemma {:induction false} InvRuns(s: State, steps: seq<Step>, t: State)
    requires Inv(s) && Runs(s, steps, t)
    ensures Inv(t)
    decreases |steps|
  {
    if steps != [] {
      InvStep(s, steps[0]);
      InvRuns(Apply(s, steps[0]), steps[1..], t);
    }
  }

  /** No lost wake-up: whenever a sleeper's hint is in the registry, the event it sleeps on
      has been set, so it can run; and if the hint is still live when it checks, it gets it. */
  lemma NoLostWakeUp(s: State, steps: seq<Step>, t: State, w: nat, e: Entry)
    requires Initial(s) && Runs(s, steps, t)
    requires w in t.waiters && t.waiters[w].phase.Suspended?
    requires e in t.entries && Wanted(e, t.waiters[w].filter)
    ensures Enabled(t, Wake(w))
    ensures Live(e, t.now) ==>
              var u := Apply(t, Wake(w));
              Enabled(u, Check(w)) && |Apply(u, Check(w)).answers| == |t.answers| + 1
              && e in Apply(u, Check(w)).answers[|t.answers|].hints
  {
    InvRuns(s, steps, t);
    var i :| 0 <= i < |t.entries| && t.entries[i] == e;
    assert AnyWanted(t.entries, t.waiters[w].filter);
    PendingMeaning(t.entries, t.now, t.waiters[w].filter);
  }

  /** An empty answer to a wait with a timeout means its deadline had passed and no wanted
      hint was live at that moment. */
  lemma EmptyMeansTimedOut(s: State, steps: seq<Step>, t: State, a: Answer)
    requires Initial(s) && Runs(s, steps, t) && a in t.answers
    ensures a.hints == [] ==> a.waiter.timeout <= 0.0 || a.loopTime >= a.waiter.deadline
    ensures forall e :: e in a.hints <==> e in a.entries && Live(e, a.now) && Wanted(e, a.waiter.filter)
  {
    InvRuns(s, steps, t);
    PendingMeaning(a.entries, a.now, a.waiter.filter);
  }

  /** No hint in the registry is live and wanted. */
  predicate NothingThere(s: State, f: Filter) { forall e :: e in s.entries ==> !(Live(e, s.now) && Wanted(e, f)) }

  lemma NothingPending(s: State, f: Filter)
    ensures Pending(s.entries, s.now, f) == [] <==> NothingThere(s, f)
  {
    PendingMeaning(s.entries, s.now, f);
    var p := Pending(s.entries, s.now, f);
    if p != [] { assert p[0] in p; }
  }

  /** From the call to the answer. A wait for `f` with a timeout was called in `s` and is
      still waiting in `t`. If it looks and there is nothing, it goes to sleep before the
      timeout has passed, and answers empty after that; with no timeout it answers at once.
      If there is something it answers with exactly that. */
  lemma LooksUntilTimeout(from: State, before: seq<Step>, s: State, w: nat, f: Filter, timeout: real,
                          steps: seq<Step>, t: State)
    requires Initial(from) && Runs(from, before, s) && w !in s.waiters
    requires Runs(Apply(s, Start(w, f, timeout)), steps, t) && forall step :: step in steps ==> !(step.Start? && step.w == w)
    requires Enabled(t, Check(w))
    ensures var u := Apply(t, Check(w));
            && (NothingThere(t, f) && timeout > 0.0 && t.loopTime < s.loopTime + timeout ==>
                  u.answers == t.answers && w in u.waiters && u.waiters[w].phase.Suspended?)
            && (!NothingThere(t, f) || timeout <= 0.0 || t.loopTime >= s.loopTime + timeout ==>
                  && w !in u.waiters && |u.answers| == |t.answers| + 1
                  && forall e :: e in u.answers[|t.answers|].hints <==> e in t.entries && Live(e, t.now) && Wanted(e, f))
  {
    TimesRuns(from, before, s);
    TimesStep(s, Start(w, f, timeout));
    TimesRuns(Apply(s, Start(w, f, timeout)), steps, t);
    WaitKept(Apply(s, Start(w, f, timeout)), steps, t, w);
    NothingPending(t, f);
    PendingMeaning(t.entries, t.now, f);
  }

  /** A sleeper is given up on at the timeout and not before: the timer can fire exactly
      from then on, and the answer is what is there at that moment. */
  lemma SleepsUntilTimeout(from: State, before: seq<Step>, s: State, w: nat, f: Filter, timeout: real,
                           steps: seq<Step>, t: State)
    requires Initial(from) && Runs(from, before, s) && w !in s.waiters && timeout > 0.0
    requires Runs(Apply(s, Start(w, f, timeout)), steps, t) && forall step :: step in steps ==> !(step.Start? && step.w == w)
    requires w in t.waiters && t.waiters[w].phase.Suspended?
    ensures Enabled(t, TimeOut(w)) <==> t.loopTime >= s.loopTime + timeout
    ensures Enabled(t, TimeOut(w)) ==>
              var u := Apply(t, TimeOut(w));
              && w !in u.waiters && |u.answers| == |t.answers| + 1
              && forall e :: e in u.answers[|t.answers|].hints <==> e in t.entries && Live(e, t.now) && Wanted(e, f)
  {
    TimesRuns(from, before, s);
    TimesStep(s, Start(w, f, timeout));
    TimesRuns(Apply(s, Start(w, f, timeout)), steps, t);
    WaitKept(Apply(s, Start(w, f, timeout)), steps, t, w);
    PendingMeaning(t.entries, t.now, f);
  }

  /** Over any run: an empty answer to a wait with a timeout comes no earlier than that long
      after the wait began. */
  lemma EmptyNotBeforeTimeout(s: State, steps: seq<Step>, t: State, a: Answer)
    requires Initial(s) && Runs(s, steps, t) && a in t.answers && a.hints == [] && a.waiter.timeout > 0.0
    ensures a.loopTime >= a.waiter.started + a.waiter.timeout
  {
    InvRuns(s, steps, t);
    TimesRuns(s, steps, t);
  }
}
