/**
 The run loop under a budget: one container after the other, each with a share of the time
 that is left, polled until it exits or a limit is reached. Time is `real` and passes only
 while the loop sleeps and while a container is being stopped.
 */
module Budget {
  import opened Common

  datatype StopReason = COMPLETED | BUDGET_WALL_CLOCK | BUDGET_REQUESTS | INTERRUPTED | ERROR {
    predicate Exhausted() { BUDGET_WALL_CLOCK? || BUDGET_REQUESTS? }
  }

  /** None on an axis means no limit. */
  datatype Limits = Limits(wallClock: Option<int>, maxRequests: Option<nat>, grace: nat, poll: real)

  class Clock {
    var now: real
    constructor (start: real) ensures now == start { now := start; }
  }

  /** The time has not reached the limit. */
  predicate InTime(limit: Option<int>, elapsed: real) { limit.Some? ==> elapsed < limit.value as real }

  /** The count has not reached the limit. */
  predicate Below(limit: Option<nat>, count: nat) { limit.Some? ==> count < limit.value }

  class BudgetWatch {
    const budget: Limits
    const clock: Clock
    const started: real
    var requests: nat

    constructor (budget: Limits, clock: Clock)
      ensures this.budget == budget && this.clock == clock && started == clock.now && requests == 0
    {
      this.budget, this.clock, started, requests := budget, clock, clock.now, 0;
    }

    function Elapsed(): real
      reads this, clock
    {
      clock.now - started
    }

    function RemainingS(): Option<real>
      reads this, clock
    {
      if budget.wallClock.None? then None
      else
        var left := budget.wallClock.value as real - Elapsed();
        Some(if left > 0.0 then left else 0.0)
    }

    /** The counter only goes up: a meter that falls back to 0 hands out no extra budget. */
    method Check(reading: Option<nat>, exited: bool) returns (reason: Option<StopReason>)
      modifies `requests
      ensures requests == (if reading.Some? then Max(old(requests), reading.value) else old(requests))
      ensures reason.None? <==> !exited && InTime(budget.wallClock, Elapsed()) && Below(budget.maxRequests, requests)
      ensures reason == Some(COMPLETED) <==> exited
      ensures reason == Some(BUDGET_WALL_CLOCK) <==> !exited && !InTime(budget.wallClock, Elapsed())
      ensures reason == Some(BUDGET_REQUESTS)
              <==> !exited && InTime(budget.wallClock, Elapsed()) && !Below(budget.maxRequests, requests)
    {
      if reading.Some? && reading.value > requests { requests := reading.value; }
      if exited {
        reason := Some(COMPLETED);
      } else if budget.wallClock.Some? && Elapsed() >= budget.wallClock.value as real {
        reason := Some(BUDGET_WALL_CLOCK);
      } else if budget.maxRequests.Some? && requests >= budget.maxRequests.value {
        reason := Some(BUDGET_REQUESTS);
      } else {
        reason := None;
      }
    }
  }

  /** What one turn of the poll loop observes. `meter` None: the reading failed.
      `interrupt`: Ctrl-C arrived that far into the sleep. */
  datatype Poll = Poll(running: bool, meter: Option<nat>, interrupt: Option<real>)

  /** How one container will behave: whether it starts, what the polls see (after them it
      has exited), how long stopping it takes, and the meter reading once it is over. */
  datatype Life = Life(starts: bool, polls: seq<Poll>, stopTakes: real, afterwards: Option<nat>)

  ghost predicate Possible(life: Life, b: Limits) {
    && 0.0 <= life.stopTakes <= b.grace as real
    && forall p :: p in life.polls && p.interrupt.Some? ==> 0.0 <= p.interrupt.value <= b.poll
  }

  datatype Outcome = Outcome(name: int, reason: StopReason, skipped: bool)

  /** A failed reading counts as 0; the clock still limits the run. */
  function SafeMeter(reading: Option<nat>): nat { if reading.Some? then reading.value else 0 }

  function Top(limit: int): real { if limit > 0 then limit as real else 0.0 }

  /** The count after the first `n` polls: it never falls. */
  function Most(life: Life, had: nat, n: nat): nat {
    if n == 0 then had
    else
      var before := Most(life, had, n - 1);
      Max(before, if n <= |life.polls| then SafeMeter(life.polls[n - 1].meter) else 0)
  }

  /** It is the largest of the count before and the readings that succeeded, and it is below
      a limit exactly if each of them is. */
  lemma {:induction false} MostMeaning(life: Life, had: nat, n: nat, limit: Option<nat>)
    ensures Most(life, had, n) >= had
    ensures forall i :: 0 <= i < n && i < |life.polls| && life.polls[i].meter.Some? ==>
              Most(life, had, n) >= life.polls[i].meter.value
    ensures Most(life, had, n) == had
            || exists i :: 0 <= i < n && i < |life.polls| && life.polls[i].meter == Some(Most(life, had, n))
    ensures limit.Some? && Most(life, had, n) < limit.value
            <==> limit.Some? && had < limit.value
                 && forall i :: 0 <= i < n && i < |life.polls| && life.polls[i].meter.Some? ==>
                      life.polls[i].meter.value < limit.value
  {
    if n > 0 {
      MostMeaning(life, had, n - 1, limit);
      if n <= |life.polls| && life.polls[n - 1].meter.Some? && Most(life, had, n) != Most(life, had, n - 1) {
        assert life.polls[n - 1].meter == Some(Most(life, had, n));
      }
    }
  }

  /** The time of that many full sleeps. */
  function Slept(sleeps: nat, poll: real): real {
    if sleeps == 0 then 0.0 else Slept(sleeps - 1, poll) + poll
  }

  /** The container is still there at poll `i`; after the last poll it is gone. */
  predicate RunningAt(life: Life, i: nat) { i < |life.polls| && life.polls[i].running }

  /** A poll that lets the loop go on: the tool runs, nobody interrupts, neither clock is up,
      and the count has not reached the limit. `own` is the container's share, `began` the
      time of the whole run at which it started, `had` the count by then. */
  ghost predicate GoesOn(b: Limits, own: Option<int>, life: Life, began: real, had: nat, i: nat) {
    && RunningAt(life, i) && life.polls[i].interrupt.None?
    && InTime(own, Slept(i, b.poll)) && InTime(b.wallClock, began + Slept(i, b.poll))
    && Below(b.maxRequests, Most(life, had, i + 1))
  }

  ghost predicate AllGoOn(b: Limits, own: Option<int>, life: Life, began: real, had: nat, n: nat) {
    n == 0 || (GoesOn(b, own, life, began, had, n - 1) && AllGoOn(b, own, life, began, had, n - 1))
  }

  lemma {:induction false} EachGoesOn(b: Limits, own: Option<int>, life: Life, began: real, had: nat, n: nat, i: nat)
    requires AllGoOn(b, own, life, began, had, n) && i < n
    ensures GoesOn(b, own, life, began, had, i)
  {
    if i < n - 1 { EachGoesOn(b, own, life, began, had, n - 1, i); }
  }

  /** The first reason that applies at poll `i`: the tool is gone, its share is up, its own
      count has reached the limit, the time of the run is up, the count of the run has
      reached the limit, or somebody interrupts. */
  function ReasonAt(b: Limits, own: Option<int>, life: Life, began: real, had: nat, i: nat): StopReason {
    if !RunningAt(life, i) then COMPLETED
    else if !InTime(own, Slept(i, b.poll)) then BUDGET_WALL_CLOCK
    else if !Below(b.maxRequests, Most(life, 0, i + 1)) then BUDGET_REQUESTS
    else if !InTime(b.wallClock, began + Slept(i, b.poll)) then BUDGET_WALL_CLOCK
    else if !Below(b.maxRequests, Most(life, had, i + 1)) then BUDGET_REQUESTS
    else INTERRUPTED
  }

  /** How polling ends: every poll before number `last` let it go on, and the reason is the
      one that applies there. */
  ghost predicate Ended(b: Limits, own: Option<int>, life: Life, began: real, had: nat, last: nat, reason: StopReason) {
    && last <= |life.polls| && AllGoOn(b, own, life, began, had, last)
    && reason == ReasonAt(b, own, life, began, had, last)
    && (reason == INTERRUPTED ==> life.polls[last].interrupt.Some?)
  }

  lemma {:induction false} SleptIs(n: nat, poll: real)
    ensures Slept(n, poll) == n as real * poll
  {
    if n > 0 { SleptIs(n - 1, poll); }
  }

  /** How polling ends, on the readings: every poll before the last saw the tool running and
      no reading, and no count from before, at the limit; a tool that is gone is the only
      completion; and the limit of requests is the reason only if something had reached it. */
  lemma EndedMeans(b: Limits, own: Option<int>, life: Life, began: real, had: nat, last: nat, reason: StopReason)
    requires Ended(b, own, life, began, had, last, reason) && b.maxRequests.Some?
    ensures forall i :: 0 <= i < last ==> i < |life.polls| && life.polls[i].running
    ensures last > 0 ==> had < b.maxRequests.value
    ensures forall i :: 0 <= i < last && life.polls[i].meter.Some? ==> life.polls[i].meter.value < b.maxRequests.value
    ensures reason == COMPLETED <==> last == |life.polls| || !life.polls[last].running
    ensures reason == BUDGET_REQUESTS ==>
              || had >= b.maxRequests.value
              || exists i :: 0 <= i <= last < |life.polls| && life.polls[i].meter.Some?
                   && life.polls[i].meter.value >= b.maxRequests.value
    ensures reason == INTERRUPTED ==>
              && had < b.maxRequests.value
              && forall i :: 0 <= i <= last && life.polls[i].meter.Some? ==> life.polls[i].meter.value < b.maxRequests.value
  {
    forall i | 0 <= i < last ensures i < |life.polls| && life.polls[i].running {
      EachGoesOn(b, own, life, began, had, last, i);
    }
    if last > 0 {
      EachGoesOn(b, own, life, began, had, last, last - 1);
      MostMeaning(life, had, last, b.maxRequests);
    }
    MostMeaning(life, had, last + 1, b.maxRequests);
    MostMeaning(life, 0, last + 1, b.maxRequests);
  }

  /** The time polling took: full sleeps, and what an interrupt left of one. */
  function Polled(b: Limits, life: Life, last: nat, reason: StopReason): real {
    Slept(last, b.poll)
    + (if reason == INTERRUPTED && last < |life.polls| && life.polls[last].interrupt.Some?
       then life.polls[last].interrupt.value else 0.0)
  }

  /** Only the last sleep can run past a limit. */
  lemma SleptInTime(b: Limits, own: Option<int>, life: Life, began: real, had: nat, last: nat, reason: StopReason)
    requires Ended(b, own, life, began, had, last, reason) && Possible(life, b) && b.poll >= 0.0
    ensures Polled(b, life, last, reason) >= 0.0
    ensures own.Some? ==> Polled(b, life, last, reason) <= Top(own.value) + b.poll
    ensures b.wallClock.Some? && began <= Top(b.wallClock.value) ==>
              began + Polled(b, life, last, reason) <= Top(b.wallClock.value) + b.poll
  {
    SleptGrows(last, b.poll);
    if last > 0 { assert GoesOn(b, own, life, began, had, last - 1); }
    if reason == INTERRUPTED { assert life.polls[last] in life.polls; }
  }

  lemma {:induction false} SleptGrows(n: nat, poll: real)
    requires poll >= 0.0
    ensures Slept(n, poll) >= 0.0
  {
    if n > 0 { SleptGrows(n - 1, poll); }
  }

  /** The poll loop of one container. A check that finds no reason to stop leaves both
      clocks inside their limits, so only one sleep can run past them. */
  method PollUntil(b: Limits, clock: Clock, life: Life, watch: BudgetWatch, local: BudgetWatch)
    returns (reason: StopReason, ghost last: nat)
    requires Possible(life, b) && b.poll >= 0.0 && watch.clock == clock && watch.budget == b && local != watch
    requires local.clock == clock && local.started == clock.now && local.requests == 0
    requires local.budget.maxRequests == b.maxRequests
    modifies clock, watch`requests, local`requests
    ensures Ended(b, local.budget.wallClock, life, old(watch.Elapsed()), old(watch.requests), last, reason)
    ensures watch.requests == Most(life, old(watch.requests), last + 1)
    ensures clock.now == old(clock.now) + Polled(b, life, last, reason) && clock.now >= old(clock.now)
    ensures local.budget.wallClock.Some? ==> local.Elapsed() <= Top(local.budget.wallClock.value) + b.poll
    ensures b.wallClock.Some? && old(watch.Elapsed()) <= Top(b.wallClock.value) ==>
              watch.Elapsed() <= Top(b.wallClock.value) + b.poll
  {
    var i: nat := 0;
    ghost var own, began, had := local.budget.wallClock, watch.Elapsed(), watch.requests;
    while true
      invariant i <= |life.polls| && AllGoOn(b, own, life, began, had, i)
      invariant local.requests == Most(life, 0, i) && watch.requests == Most(life, had, i)
      invariant clock.now == old(clock.now) + Slept(i, b.poll)
      decreases |life.polls| - i
    {
      var seen := if i < |life.polls| then life.polls[i] else Poll(false, None, None);
      var mine, global := CheckBoth(life, i, had, seen, watch, local);
      if mine.Some? || global.Some? {
        reason := if mine.Some? then mine.value else global.value;
        SleptInTime(b, own, life, began, had, i, reason);
        return reason, i;
      }
      if seen.interrupt.Some? {
        SleptInTime(b, own, life, began, had, i, INTERRUPTED);
        clock.now := clock.now + seen.interrupt.value;
        return INTERRUPTED, i;
      }
      clock.now := clock.now + b.poll;
      i := i + 1;
    }
  }

  /** The two checks of one turn: the container's own, which learns whether it is gone, and
      that of the whole run. */
  method CheckBoth(life: Life, i: nat, ghost had: nat, seen: Poll, watch: BudgetWatch, local: BudgetWatch)
    returns (mine: Option<StopReason>, global: Option<StopReason>)
    requires i <= |life.polls| && seen == (if i < |life.polls| then life.polls[i] else Poll(false, None, None))
    requires local != watch && local.requests == Most(life, 0, i) && watch.requests == Most(life, had, i)
    modifies watch`requests, local`requests
    ensures local.requests == Most(life, 0, i + 1) && watch.requests == Most(life, had, i + 1)
    ensures mine == if !seen.running then Some(COMPLETED)
                    else if !InTime(local.budget.wallClock, local.Elapsed()) then Some(BUDGET_WALL_CLOCK)
                    else if !Below(local.budget.maxRequests, local.requests) then Some(BUDGET_REQUESTS)
                    else None
    ensures global == if !InTime(watch.budget.wallClock, watch.Elapsed()) then Some(BUDGET_WALL_CLOCK)
                      else if !Below(watch.budget.maxRequests, watch.requests) then Some(BUDGET_REQUESTS)
                      else None
  {
    var requests := SafeMeter(seen.meter);
    mine := local.Check(Some(requests), !seen.running);
    global := watch.Check(Some(requests), false);
  }

  /** One invocation of a run: when it began, counted from the start of the run, and the
      requests counted by then; how many polls let it go on; and both figures afterwards,
      with the reading after it. */
  datatype Turn = Turn(began: real, had: nat, last: nat, ended: real, has: nat)

  /** What a share in seconds comes to as a limit in whole ones. */
  function Whole(share: Option<real>): Option<int> { if share.Some? then Some(share.value.Floor) else None }

  /** How one container ended, and when. */
  ghost predicate Done(b: Limits, share: Option<real>, life: Life, turn: Turn, reason: StopReason) {
    if !life.starts then reason == ERROR && turn.ended == turn.began
    else
      && Ended(b, Whole(share), life, turn.began, turn.had, turn.last, reason)
      && turn.ended == turn.began + Polled(b, life, turn.last, reason)
                       + (if reason == COMPLETED then 0.0 else life.stopTakes)
  }

  /** The polls of a container that were made; none of one that did not start. */
  function Polls(life: Life, last: nat): nat { if life.starts then last + 1 else 0 }

  /** One container, from start to stop. */
  method RunOne(b: Limits, clock: Clock, name: int, life: Life, watch: BudgetWatch, share: Option<real>)
    returns (result: Outcome, ghost last: nat)
    requires Possible(life, b) && b.poll >= 0.0 && watch.clock == clock && watch.budget == b
    requires share.Some? ==> share.value >= 1.0
    modifies clock, watch`requests
    ensures result.name == name && !result.skipped
    ensures Done(b, share, life, Turn(old(watch.Elapsed()), old(watch.requests), last, watch.Elapsed(), watch.requests),
                 result.reason)
    ensures watch.requests == Most(life, old(watch.requests), Polls(life, last))
    ensures clock.now >= old(clock.now)
    // its own share, one poll and the grace
    ensures share.Some? ==> clock.now - old(clock.now) <= share.value + b.poll + b.grace as real
    // and never far beyond the deadline of the whole run
    ensures b.wallClock.Some? && old(watch.Elapsed()) <= Top(b.wallClock.value) ==>
              watch.Elapsed() <= Top(b.wallClock.value) + b.poll + b.grace as real
  {
    last := 0;
    if !life.starts { return Outcome(name, ERROR, false), 0; }
    var localLimits := Limits(if share.Some? then Some(share.value.Floor) else None, b.maxRequests, b.grace, b.poll);
    var local := new BudgetWatch(localLimits, clock);
    var reason;
    reason, last := PollUntil(b, clock, life, watch, local);
    if reason != COMPLETED { clock.now := clock.now + life.stopTakes; }
    result := Outcome(name, reason, false);
  }

  /** The share of an invocation: what is left, split evenly, but at least a second. */
  function Share(remaining: real, invocations: nat): real
    requires invocations >= 1
  {
    var even := remaining / invocations as real;
    if even > 1.0 then even else 1.0
  }

  /** All shares of that size together are what is left, unless that is not a second for
      each; then each has one second. */
  lemma ShareMeaning(remaining: real, invocations: nat)
    requires invocations >= 1
    ensures var share := Share(remaining, invocations);
            if remaining > invocations as real then share * invocations as real == remaining else share == 1.0
  {
    var n := invocations as real;
    var even := remaining / n;
    assert even * n == remaining;
    Scaled(even, 1.0, n);
  }

  lemma Scaled(a: real, b: real, n: real)
    requires n > 0.0
    ensures a > b <==> a * n > b * n
  {
    assert a * n - b * n == (a - b) * n;
    if a > b { assert (a - b) * n > 0.0; } else { assert (a - b) * n <= 0.0; }
  }

  /** The share an invocation is given `elapsed` seconds into the run with `left` to go,
      itself included. */
  function ShareOf(b: Limits, elapsed: real, left: nat): Option<real>
    requires left >= 1
  {
    if b.wallClock.None? then None
    else
      var remaining := b.wallClock.value as real - elapsed;
      Some(Share(if remaining > 0.0 then remaining else 0.0, left))
  }

  /** Every invocation has one outcome, in order: the first `ran` were run, the others are
      recorded as skipped with the limit that was reached. */
  ghost predicate Matches(results: seq<Outcome>, names: seq<int>, ran: nat) {
    && |results| == |names| && ran <= |names|
    && (forall i :: 0 <= i < |names| ==> results[i].name == names[i])
    && (forall i :: 0 <= i < ran ==> !results[i].skipped)
    && (forall i :: ran <= i < |names| ==> results[i].skipped && results[i].reason.Exhausted())
  }

  /** The invocations that are not started any more. */
  method Skip(rest: seq<int>, reason: StopReason) returns (others: seq<Outcome>)
    ensures |others| == |rest|
    ensures forall k :: 0 <= k < |rest| ==> others[k] == Outcome(rest[k], reason, true)
  {
    others := [];
    for k := 0 to |rest|
      invariant |others| == k && forall i :: 0 <= i < k ==> others[i] == Outcome(rest[i], reason, true)
    {
      others := others + [Outcome(rest[k], reason, true)];
    }
  }

  /** Each invocation so far was run, in order, and its reading succeeded. */
  ghost predicate AllRan(rs: seq<Outcome>, names: seq<int>, lives: seq<Life>) {
    && |rs| <= |names| == |lives|
    && forall i :: 0 <= i < |rs| ==> rs[i].name == names[i] && !rs[i].skipped && lives[i].afterwards.Some?
  }

  lemma OneMoreRan(rs: seq<Outcome>, result: Outcome, names: seq<int>, lives: seq<Life>)
    requires AllRan(rs, names, lives) && |rs| < |names| && result.name == names[|rs|] && !result.skipped
    requires lives[|rs|].afterwards.Some?
    ensures AllRan(rs + [result], names, lives)
  {}

  lemma SkippedBehind(rs: seq<Outcome>, others: seq<Outcome>, names: seq<int>, lives: seq<Life>, reason: StopReason)
    requires AllRan(rs, names, lives) && |others| == |names| - |rs| && reason.Exhausted()
    requires forall k :: 0 <= k < |others| ==> others[k] == Outcome(names[|rs|..][k], reason, true)
    ensures Matches(rs + others, names, |rs|)
    ensures forall i :: |rs| <= i < |names| ==> (rs + others)[i].reason == reason
  {
    forall i | |rs| <= i < |names| ensures (rs + others)[i] == Outcome(names[i], reason, true) {
      assert (rs + others)[i] == others[i - |rs|];
    }
  }

  /** One invocation with its share of the time that is left. */
  method RunNext(b: Limits, clock: Clock, name: int, life: Life, watch: BudgetWatch, left: nat)
    returns (result: Outcome, ghost last: nat)
    requires Possible(life, b) && b.poll >= 0.0 && watch.clock == clock && watch.budget == b && left >= 1
    modifies clock, watch`requests
    ensures result.name == name && !result.skipped
    ensures Done(b, ShareOf(b, old(watch.Elapsed()), left), life,
                 Turn(old(watch.Elapsed()), old(watch.requests), last, watch.Elapsed(), watch.requests), result.reason)
    ensures watch.requests == Most(life, old(watch.requests), Polls(life, last))
    ensures b.wallClock.Some? && old(watch.Elapsed()) <= Top(b.wallClock.value) ==>
              watch.Elapsed() <= Top(b.wallClock.value) + b.poll + b.grace as real
  {
    var share := None;
    if b.wallClock.Some? {
      share := Some(Share(watch.RemainingS().value, left));
    }
    result, last := RunOne(b, clock, name, life, watch, share);
  }

  /** The count after an invocation: the largest of what was counted before, what its polls
      read and the reading afterwards, if that succeeded. */
  ghost predicate CountedOn(life: Life, turn: Turn) {
    turn.has == Max(Most(life, turn.had, Polls(life, turn.last)), SafeMeter(life.afterwards))
  }

  /** The invocations follow one another: each begins where the one before ended and with
      the count it left, and none but the first begins with a limit reached. */
  ghost predicate Follows(b: Limits, lives: seq<Life>, trace: seq<Turn>) {
    && |trace| <= |lives|
    && (forall i :: 0 <= i < |trace| ==> CountedOn(lives[i], trace[i]))
    && (trace != [] ==> trace[0].began == 0.0 && trace[0].had == 0)
    && (forall i, j :: 0 <= i < |trace| && 0 <= j < |trace| && j == i + 1 ==>
          && trace[j].began == trace[i].ended && trace[j].had == trace[i].has
          && InTime(b.wallClock, trace[j].began) && Below(b.maxRequests, trace[j].had))
  }

  lemma FollowsOne(b: Limits, lives: seq<Life>, trace: seq<Turn>, turn: Turn)
    requires Follows(b, lives, trace) && |trace| < |lives| && CountedOn(lives[|trace|], turn)
    requires Standing(b, trace, turn.began, turn.had)
    ensures Follows(b, lives, trace + [turn])
  {}

  /** Each invocation that was run ended as `Done` says, with its share of the time. */
  ghost predicate AllDone(b: Limits, lives: seq<Life>, trace: seq<Turn>, rs: seq<Outcome>) {
    && |trace| <= |lives| && |trace| <= |rs|
    && forall i :: 0 <= i < |trace| ==>
         Done(b, ShareOf(b, trace[i].began, |lives| - i), lives[i], trace[i], rs[i].reason)
  }

  lemma AllDoneOne(b: Limits, lives: seq<Life>, trace: seq<Turn>, rs: seq<Outcome>, turn: Turn, result: Outcome)
    requires AllDone(b, lives, trace, rs) && |trace| == |rs| < |lives|
    requires Done(b, ShareOf(b, turn.began, |lives| - |trace|), lives[|trace|], turn, result.reason)
    ensures AllDone(b, lives, trace + [turn], rs + [result])
  {}

  function LastEnd(trace: seq<Turn>): real { if trace == [] then 0.0 else trace[|trace| - 1].ended }

  /** A limit was reached as the last invocation that was run ended, and the others say which. */
  ghost predicate Spent(b: Limits, trace: seq<Turn>, results: seq<Outcome>) {
    && trace != [] && |trace| <= |results|
    && (InTime(b.wallClock, LastEnd(trace)) ==> !Below(b.maxRequests, trace[|trace| - 1].has))
    && forall i :: |trace| <= i < |results| ==>
         results[i].reason == if InTime(b.wallClock, LastEnd(trace)) then BUDGET_REQUESTS else BUDGET_WALL_CLOCK
  }

  lemma SpentBehind(b: Limits, lives: seq<Life>, trace: seq<Turn>, rs: seq<Outcome>, others: seq<Outcome>,
                    reason: StopReason)
    requires AllDone(b, lives, trace, rs) && trace != [] && |trace| == |rs|
    requires !InTime(b.wallClock, LastEnd(trace)) || !Below(b.maxRequests, trace[|trace| - 1].has)
    requires reason == if InTime(b.wallClock, LastEnd(trace)) then BUDGET_REQUESTS else BUDGET_WALL_CLOCK
    requires forall k :: 0 <= k < |others| ==> others[k].reason == reason
    ensures AllDone(b, lives, trace, rs + others) && Spent(b, trace, rs + others)
  {}

  /** The loop so far: every invocation was run, counted, and read afterwards. */
  ghost predicate SoFar(b: Limits, names: seq<int>, lives: seq<Life>, trace: seq<Turn>, rs: seq<Outcome>) {
    && |trace| == |rs| <= |names| == |lives|
    && (trace != [] ==>
          var n := |trace| - 1;
          && SoFar(b, names, lives, trace[..n], rs[..n])
          && rs[n].name == names[n] && !rs[n].skipped && lives[n].afterwards.Some?
          && CountedOn(lives[n], trace[n]) && Standing(b, trace[..n], trace[n].began, trace[n].had)
          && Done(b, ShareOf(b, trace[n].began, |lives| - n), lives[n], trace[n], rs[n].reason))
  }

  lemma SoFarOne(b: Limits, names: seq<int>, lives: seq<Life>, trace: seq<Turn>, rs: seq<Outcome>, turn: Turn, r: Outcome)
    requires SoFar(b, names, lives, trace, rs) && |trace| < |names|
    requires var n := |trace|;
             && r.name == names[n] && !r.skipped && lives[n].afterwards.Some?
             && CountedOn(lives[n], turn) && Standing(b, trace, turn.began, turn.had)
             && Done(b, ShareOf(b, turn.began, |lives| - n), lives[n], turn, r.reason)
    ensures SoFar(b, names, lives, trace + [turn], rs + [r])
  {
    assert (trace + [turn])[..|trace|] == trace && (rs + [r])[..|rs|] == rs;
  }

  lemma {:induction false} SoFarRan(b: Limits, names: seq<int>, lives: seq<Life>, trace: seq<Turn>, rs: seq<Outcome>)
    requires SoFar(b, names, lives, trace, rs)
    ensures AllRan(rs, names, lives)
    decreases |trace|
  {
    if trace != [] {
      var n := |trace| - 1;
      SoFarRan(b, names, lives, trace[..n], rs[..n]);
      OneMoreRan(rs[..n], rs[n], names, lives);
      assert rs == rs[..n] + [rs[n]];
    }
  }

  lemma {:induction false} SoFarFollows(b: Limits, names: seq<int>, lives: seq<Life>, trace: seq<Turn>, rs: seq<Outcome>)
    requires SoFar(b, names, lives, trace, rs)
    ensures Follows(b, lives, trace)
    decreases |trace|
  {
    if trace != [] {
      var n := |trace| - 1;
      SoFarFollows(b, names, lives, trace[..n], rs[..n]);
      FollowsOne(b, lives, trace[..n], trace[n]);
      assert trace == trace[..n] + [trace[n]];
    }
  }

  lemma {:induction false} SoFarDone(b: Limits, names: seq<int>, lives: seq<Life>, trace: seq<Turn>, rs: seq<Outcome>)
    requires SoFar(b, names, lives, trace, rs)
    ensures AllDone(b, lives, trace, rs)
    decreases |trace|
  {
    if trace != [] {
      var n := |trace| - 1;
      SoFarDone(b, names, lives, trace[..n], rs[..n]);
      AllDoneOne(b, lives, trace[..n], rs[..n], trace[n], rs[n]);
      assert trace == trace[..n] + [trace[n]] && rs == rs[..n] + [rs[n]];
    }
  }

  lemma SoFarMeans(b: Limits, names: seq<int>, lives: seq<Life>, trace: seq<Turn>, rs: seq<Outcome>)
    requires SoFar(b, names, lives, trace, rs)
    ensures AllRan(rs, names, lives) && Follows(b, lives, trace) && AllDone(b, lives, trace, rs)
  {
    SoFarRan(b, names, lives, trace, rs);
    SoFarFollows(b, names, lives, trace, rs);
    SoFarDone(b, names, lives, trace, rs);
  }

  /** The last invocation was run and its reading failed. */
  lemma CutShort(b: Limits, names: seq<int>, lives: seq<Life>, trace: seq<Turn>, rs: seq<Outcome>, turn: Turn)
    requires SoFar(b, names, lives, trace, rs) && |trace| < |names|
    requires CountedOn(lives[|trace|], turn) && Standing(b, trace, turn.began, turn.had)
    ensures Follows(b, lives, trace + [turn])
  {
    SoFarMeans(b, names, lives, trace, rs);
    FollowsOne(b, lives, trace, turn);
  }

  /** One turn of the loop over the invocations. No check is made when the reading fails. */
  method RunTurn(b: Limits, clock: Clock, names: seq<int>, lives: seq<Life>, index: nat, watch: BudgetWatch,
                 ghost trace: seq<Turn>, rs: seq<Outcome>)
    returns (more: seq<Outcome>, reason: Option<StopReason>, ghost after: seq<Turn>)
    requires index < |names| && |trace| == index && SoFar(b, names, lives, trace, rs) && Possible(lives[index], b)
    requires b.poll >= 0.0 && watch.clock == clock && watch.budget == b
    requires Standing(b, trace, watch.Elapsed(), watch.requests)
    modifies clock, watch`requests
    ensures lives[index].afterwards.None? ==> CutOff(b, lives, after)
    ensures lives[index].afterwards.Some? ==> |after| == index + 1 && SoFar(b, names, lives, after, more)
    ensures lives[index].afterwards.Some? && reason.None? ==> Standing(b, after, watch.Elapsed(), watch.requests)
    ensures lives[index].afterwards.Some? && reason.Some? ==>
              LastEnd(after) == watch.Elapsed() && StopsFor(b, after, reason.value)
    ensures b.wallClock.Some? && old(watch.Elapsed()) <= Top(b.wallClock.value) ==>
              watch.Elapsed() <= Top(b.wallClock.value) + b.poll + b.grace as real
  {
    ghost var began, had, last := watch.Elapsed(), watch.requests, 0;
    var result;
    result, last := RunNext(b, clock, names[index], lives[index], watch, |names| - index);
    reason := None;
    if lives[index].afterwards.Some? { reason := watch.Check(lives[index].afterwards, false); }
    ghost var turn := Turn(began, had, last, watch.Elapsed(), watch.requests);
    after, more := trace + [turn], rs + [result];
    CutShort(b, names, lives, trace, rs, turn);
    if lives[index].afterwards.Some? { SoFarOne(b, names, lives, trace, rs, turn, result); }
  }

  /** The limit that was reached as the last invocation that was run ended: time first. */
  ghost predicate StopsFor(b: Limits, trace: seq<Turn>, reason: StopReason) {
    && trace != []
    && (!InTime(b.wallClock, LastEnd(trace)) || !Below(b.maxRequests, trace[|trace| - 1].has))
    && reason == if InTime(b.wallClock, LastEnd(trace)) then BUDGET_REQUESTS else BUDGET_WALL_CLOCK
  }

  /** The record of a run that a limit cut short. */
  method SkipRest(b: Limits, names: seq<int>, ghost lives: seq<Life>, ghost trace: seq<Turn>, rs: seq<Outcome>,
                  reason: StopReason)
    returns (all: seq<Outcome>)
    requires SoFar(b, names, lives, trace, rs) && StopsFor(b, trace, reason)
    ensures Matches(all, names, |trace|) && Spent(b, trace, all)
    ensures Follows(b, lives, trace) && AllDone(b, lives, trace, all)
    ensures forall i :: 0 <= i < |trace| ==> lives[i].afterwards.Some?
  {
    SoFarMeans(b, names, lives, trace, rs);
    var others := Skip(names[|rs|..], reason);
    SkippedBehind(rs, others, names, lives, reason);
    SpentBehind(b, lives, trace, rs, others, reason);
    all := rs + others;
  }

  /** Where the loop stands before an invocation. */
  ghost predicate Standing(b: Limits, trace: seq<Turn>, elapsed: real, requests: nat) {
    if trace == [] then elapsed == 0.0 && requests == 0
    else var before := trace[|trace| - 1];
         && elapsed == before.ended && requests == before.has
         && InTime(b.wallClock, elapsed) && Below(b.maxRequests, requests)
  }

  lemma WholeRun(b: Limits, names: seq<int>, lives: seq<Life>, trace: seq<Turn>, rs: seq<Outcome>)
    requires SoFar(b, names, lives, trace, rs) && |trace| == |names|
    ensures Matches(rs, names, |trace|) && Follows(b, lives, trace) && AllDone(b, lives, trace, rs)
    ensures forall i :: 0 <= i < |trace| ==> lives[i].afterwards.Some?
  {
    SoFarMeans(b, names, lives, trace, rs);
  }

  /** The whole run. `None` is the exception of the one unguarded meter reading: it happens
      exactly when the reading after some invocation that was run fails. */
  method Run(b: Limits, clock: Clock, names: seq<int>, lives: seq<Life>)
    returns (results: Option<seq<Outcome>>, ghost trace: seq<Turn>)
    requires |lives| == |names| && b.poll >= 0.0
    requires forall life :: life in lives ==> Possible(life, b)
    modifies clock
    ensures |trace| <= |names|
    ensures results.Some? ==> Matches(results.value, names, |trace|)
    ensures b.wallClock.Some? ==>
              clock.now - old(clock.now) <= Top(b.wallClock.value) + b.poll + b.grace as real
    ensures results.Some? ==> forall i :: 0 <= i < |trace| ==> lives[i].afterwards.Some?
    ensures results.None? ==> trace != [] && lives[|trace| - 1].afterwards.None?
    // an invocation is started only with both limits in the clear, and ends for its reason
    ensures Follows(b, lives, trace)
    ensures results.Some? ==> AllDone(b, lives, trace, results.value)
    // the others are skipped exactly because a limit was reached, time before requests
    ensures results.Some? && |trace| < |names| ==>
              clock.now - old(clock.now) == LastEnd(trace) && Spent(b, trace, results.value)
  {
    var rs, reason, cut;
    rs, reason, cut, trace := RunLoop(b, clock, names, lives);
    if cut { return None, trace; }
    if reason.Some? {
      rs := SkipRest(b, names, lives, trace, rs, reason.value);
    } else {
      WholeRun(b, names, lives, trace, rs);
    }
    results := Some(rs);
  }

  /** The loop over the invocations, up to its end, the limit that stops it, or the reading
      that fails. */
  method RunLoop(b: Limits, clock: Clock, names: seq<int>, lives: seq<Life>)
    returns (rs: seq<Outcome>, reason: Option<StopReason>, cut: bool, ghost trace: seq<Turn>)
    requires |lives| == |names| && b.poll >= 0.0
    requires forall life :: life in lives ==> Possible(life, b)
    modifies clock
    ensures if cut then CutOff(b, lives, trace) else SoFar(b, names, lives, trace, rs)
    ensures !cut && reason.None? ==> |trace| == |names|
    ensures !cut && reason.Some? ==> clock.now - old(clock.now) == LastEnd(trace) && StopsFor(b, trace, reason.value)
    ensures b.wallClock.Some? ==>
              clock.now - old(clock.now) <= Top(b.wallClock.value) + b.poll + b.grace as real
  {
    rs, reason, cut, trace := [], None, false, [];
    var watch := new BudgetWatch(b, clock);
    for index := 0 to |names|
      invariant |trace| == index && SoFar(b, names, lives, trace, rs) && reason.None? && !cut
      invariant watch.clock == clock && watch.budget == b && fresh(watch) && watch.started == old(clock.now)
      invariant Standing(b, trace, watch.Elapsed(), watch.requests)
    {
      assert lives[index] in lives;
      rs, reason, trace := RunTurn(b, clock, names, lives, index, watch, trace, rs);
      if lives[index].afterwards.None? { return rs, None, true, trace; }
      if reason.Some? && reason.value.Exhausted() { return rs, reason, false, trace; }
    }
  }

  /** The reading after the last invocation that was run failed. */
  ghost predicate CutOff(b: Limits, lives: seq<Life>, trace: seq<Turn>) {
    Follows(b, lives, trace) && trace != [] && lives[|trace| - 1].afterwards.None?
  }

  /** A spent request budget starts nothing more: of every invocation that another one
      follows, each reading made was below the limit. */
  lemma OnlyBelowIsFollowed(b: Limits, lives: seq<Life>, trace: seq<Turn>, i: nat)
    requires Follows(b, lives, trace) && i + 1 < |trace| && b.maxRequests.Some?
    ensures forall k :: 0 <= k < Polls(lives[i], trace[i].last) && k < |lives[i].polls| && lives[i].polls[k].meter.Some? ==>
              lives[i].polls[k].meter.value < b.maxRequests.value
    ensures lives[i].afterwards.Some? ==> lives[i].afterwards.value < b.maxRequests.value
    ensures b.wallClock.Some? ==> trace[i].ended < b.wallClock.value as real
  {
    MostMeaning(lives[i], trace[i].had, Polls(lives[i], trace[i].last), b.maxRequests);
    assert CountedOn(lives[i], trace[i]);
    assert trace[i + 1].had == trace[i].has && Below(b.maxRequests, trace[i + 1].had);
  }

  /** Sharing is fair to the later ones: an invocation that stays within its share leaves
      the next one at least as large a share. */
  lemma ShareNeverShrinks(remaining: real, invocations: nat, used: real)
    requires invocations >= 2 && 0.0 <= used <= Share(remaining, invocations) && remaining >= 0.0
    ensures var left := if remaining - used > 0.0 then remaining - used else 0.0;
            Share(left, invocations - 1) >= Share(remaining, invocations)
  {
    var even := remaining / invocations as real;
    if even > 1.0 {
      var n := (invocations - 1) as real;
      assert remaining == even * (n + 1.0);
      assert remaining - used >= even * n;
      Quotient(remaining - used, even, n);
    }
  }

  lemma Quotient(a: real, q: real, n: real)
    requires n > 0.0 && a >= q * n
    ensures a / n >= q
  {
    var d := a / n;
    assert d * n == a;
    assert d < q ==> d * n < q * n;
  }
}
