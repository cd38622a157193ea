/**
 The live registry of outbound-fetch hints: a map in insertion order with expiry and a cap.
 `Entries` are the map's values in order; the functions say what each operation does to
 them, and the class is proved against those functions.
 */
module CorrelationModel {
  import opened Common
  import opened Hosts

  type Id = nat

  datatype Entry = Entry(id: Id, host: string, registeredAt: real, expiresAt: real)

  // What a caller registers: an id and a ttl may be missing.
  datatype Hint = Hint(id: Option<Id>, host: string, ttl: Option<real>)

  datatype Filter = Filter(host: Option<string>, after: Option<real>)

  predicate Wanted(e: Entry, f: Filter) {
    && (f.host.Some? && f.host.value != "" ==> HostMatches(e.host, Normal(f.host.value)))
    && (f.after.Some? ==> e.registeredAt > f.after.value)
  }

  predicate Live(e: Entry, now: real) { e.expiresAt > now }

  function LiveOf(es: seq<Entry>, now: real): seq<Entry> {
    if es == [] then []
    else LiveOf(es[..|es| - 1], now) + (if Live(es[|es| - 1], now) then [es[|es| - 1]] else [])
  }

  function WantedOf(es: seq<Entry>, f: Filter): seq<Entry> {
    if es == [] then []
    else WantedOf(es[..|es| - 1], f) + (if Wanted(es[|es| - 1], f) then [es[|es| - 1]] else [])
  }

  function Pending(es: seq<Entry>, now: real, f: Filter): seq<Entry> {
    WantedOf(LiveOf(es, now), f)
  }

  predicate HasId(es: seq<Entry>, id: Id) { exists i :: 0 <= i < |es| && es[i].id == id }

  /** Assignment in an ordered map: a known key keeps its slot. */
  function Put(es: seq<Entry>, e: Entry): seq<Entry> {
    if es == [] then [e]
    else if es[0].id == e.id then [e] + es[1..]
    else [es[0]] + Put(es[1..], e)
  }

  function Newest(es: seq<Entry>, max: nat): seq<Entry> {
    if |es| <= max then es else es[|es| - max..]
  }

  /** `float(ttl or entry.ttl or self.ttl)`: absent and zero both fall through. */
  function Ttl(given: Option<real>, own: Option<real>, default: real): real {
    if given.Some? && given.value != 0.0 then given.value
    else if own.Some? && own.value != 0.0 then own.value
    else default
  }

  function Registered(es: seq<Entry>, e: Entry, now: real, max: nat): seq<Entry> {
    Newest(Put(LiveOf(es, now), e), max)
  }

  function Without(es: seq<Entry>, id: Id): seq<Entry> {
    if es == [] then []
    else Without(es[..|es| - 1], id) + (if es[|es| - 1].id != id then [es[|es| - 1]] else [])
  }

  ghost predicate UniqueIds(es: seq<Entry>) {
    forall i, j :: 0 <= i < j < |es| ==> es[i].id != es[j].id
  }

  // ----------------------------------------------------------- facts on the functions

  lemma {:induction false} LiveOfMeaning(es: seq<Entry>, now: real)
    ensures forall e :: e in LiveOf(es, now) <==> e in es && Live(e, now)
    ensures Subsequence(LiveOf(es, now), es)
    ensures |LiveOf(es, now)| <= |es|
  {
    if es != [] {
      var init := es[..|es| - 1];
      LiveOfMeaning(init, now);
      SubsequenceSnoc(LiveOf(init, now), init, es[|es| - 1]);
      assert es == init + [es[|es| - 1]];
      assert LiveOf(init, now) + [] == LiveOf(init, now);
    }
  }

  lemma {:induction false} WantedOfMeaning(es: seq<Entry>, f: Filter)
    ensures forall e :: e in WantedOf(es, f) <==> e in es && Wanted(e, f)
    ensures Subsequence(WantedOf(es, f), es)
  {
    if es != [] {
      var init := es[..|es| - 1];
      WantedOfMeaning(init, f);
      SubsequenceSnoc(WantedOf(init, f), init, es[|es| - 1]);
      assert es == init + [es[|es| - 1]];
      assert WantedOf(init, f) + [] == WantedOf(init, f);
    }
  }

  lemma {:induction false} SubsequenceTrans<T>(a: seq<T>, b: seq<T>, c: seq<T>)
    requires Subsequence(a, b) && Subsequence(b, c)
    ensures Subsequence(a, c)
    decreases |b| + |c|
  {
    if c != [] {
      var c' := c[..|c| - 1];
      if Subsequence(b, c') {
        SubsequenceTrans(a, b, c');
      } else {
        var b' := b[..|b| - 1];
        if Subsequence(a, b') {
          SubsequenceTrans(a, b', c');
        } else {
          SubsequenceTrans(a[..|a| - 1], b', c');
        }
      }
    }
  }

  /** A filtered read returns exactly the live entries comparable with the host and past
      the cursor, in registration order. */
  lemma PendingMeaning(es: seq<Entry>, now: real, f: Filter)
    ensures forall e :: e in Pending(es, now, f) <==> e in es && Live(e, now) && Wanted(e, f)
    ensures Subsequence(Pending(es, now, f), es)
  {
    LiveOfMeaning(es, now);
    WantedOfMeaning(LiveOf(es, now), f);
    SubsequenceTrans(Pending(es, now, f), LiveOf(es, now), es);
  }

  /** The same on the fields: not expired, past the cursor if there is one, and, if a host is
      asked for, with labels that are the end of the other's or the other way round. */
  lemma PendingExactly(es: seq<Entry>, now: real, f: Filter, e: Entry)
    ensures e in Pending(es, now, f)
            <==> && e in es && e.expiresAt > now
                 && (f.after.Some? ==> e.registeredAt > f.after.value)
                 && (f.host.Some? && f.host.value != "" ==>
                       var asked := Labels(Normal(f.host.value));
                       e.host != "" && (IsSuffix(Labels(e.host), asked) || IsSuffix(asked, Labels(e.host))))
  {
    PendingMeaning(es, now, f);
    if f.host.Some? { MatchesIffComparable(e.host, Normal(f.host.value)); }
  }

  lemma {:induction false} PutMeaning(es: seq<Entry>, e: Entry)
    requires UniqueIds(es)
    ensures UniqueIds(Put(es, e))
    ensures |Put(es, e)| == |es| + (if HasId(es, e.id) then 0 else 1)
    ensures forall x :: x in Put(es, e) <==> x == e || (x in es && x.id != e.id)
  {
    if es != [] {
      var rest := es[1..];
      assert forall i :: 0 <= i < |rest| ==> rest[i] == es[i + 1];
      if es[0].id == e.id {
        assert forall x :: x in es <==> x == es[0] || x in rest;
      } else {
        PutMeaning(rest, e);
        assert HasId(es, e.id) <==> HasId(rest, e.id) by {
          if HasId(es, e.id) {
            var i :| 0 <= i < |es| && es[i].id == e.id;
            assert rest[i - 1].id == e.id;
          }
          if HasId(rest, e.id) {
            var i :| 0 <= i < |rest| && rest[i].id == e.id;
            assert es[i + 1].id == e.id;
          }
        }
        var all := Put(es, e);
        assert all[1..] == Put(rest, e);
        forall i, j | 0 <= i < j < |all| ensures all[i].id != all[j].id {
          assert all[j] == Put(rest, e)[j - 1];
          assert all[j] in Put(rest, e);
          if i > 0 { assert all[i] == Put(rest, e)[i - 1]; }
        }
        assert forall x :: x in es <==> x == es[0] || x in rest;
      }
    }
  }

  lemma {:induction false} LiveKeepsUnique(es: seq<Entry>, now: real)
    requires UniqueIds(es)
    ensures UniqueIds(LiveOf(es, now))
  {
    if es != [] {
      var init, last := es[..|es| - 1], es[|es| - 1];
      LiveKeepsUnique(init, now);
      LiveOfMeaning(init, now);
      var live := LiveOf(init, now);
      forall i | 0 <= i < |live| ensures live[i].id != last.id { assert live[i] in init; }
    }
  }

  lemma {:induction false} WithoutMeaning(es: seq<Entry>, id: Id)
    requires UniqueIds(es)
    ensures forall e :: e in Without(es, id) <==> e in es && e.id != id
    ensures UniqueIds(Without(es, id))
    ensures |Without(es, id)| == |es| - (if HasId(es, id) then 1 else 0)
  {
    if es != [] {
      var init, last := es[..|es| - 1], es[|es| - 1];
      WithoutMeaning(init, id);
      assert es == init + [last];
      UniqueSnoc(Without(init, id), init, last);
      HasIdSnoc(init, last, id);
    }
  }

  lemma UniqueSnoc(kept: seq<Entry>, init: seq<Entry>, last: Entry)
    requires UniqueIds(kept) && UniqueIds(init + [last]) && forall e :: e in kept ==> e in init
    ensures UniqueIds(kept + [last])
  {
    forall i | 0 <= i < |kept| ensures kept[i].id != last.id {
      assert kept[i] in init;
      var k :| 0 <= k < |init| && init[k] == kept[i];
      assert (init + [last])[k] == kept[i] && (init + [last])[|init|] == last;
    }
  }

  lemma HasIdSnoc(init: seq<Entry>, last: Entry, id: Id)
    ensures HasId(init + [last], id) <==> HasId(init, id) || last.id == id
  {
    var es := init + [last];
    if i :| 0 <= i < |init| && init[i].id == id { assert es[i].id == id; }
    if last.id == id { assert es[|init|].id == id; }
  }

  // --------------------------------------------------------------- registration order

  ghost predicate Sorted(es: seq<Entry>) {
    forall i, j :: 0 <= i < j < |es| ==> es[i].registeredAt <= es[j].registeredAt
  }

  lemma {:induction false} LiveKeepsSorted(es: seq<Entry>, now: real)
    requires Sorted(es)
    ensures Sorted(LiveOf(es, now))
  {
    if es != [] {
      var init := es[..|es| - 1];
      LiveKeepsSorted(init, now);
      LiveOfMeaning(init, now);
      var live := LiveOf(init, now);
      forall i | 0 <= i < |live| ensures live[i].registeredAt <= es[|es| - 1].registeredAt {
        assert live[i] in init;
      }
    }
  }

  lemma {:induction false} PutFresh(es: seq<Entry>, e: Entry)
    requires !HasId(es, e.id)
    ensures Put(es, e) == es + [e]
  {
    if es != [] {
      assert es[0].id != e.id;
      forall i | 0 <= i < |es[1..]| ensures es[1..][i].id != e.id { assert es[1..][i] == es[i + 1]; }
      PutFresh(es[1..], e);
    }
  }

  lemma {:induction false} PutKnown(es: seq<Entry>, e: Entry, slot: nat)
    requires UniqueIds(es) && slot < |es| && es[slot].id == e.id
    ensures Put(es, e) == es[slot := e]
  {
    if slot > 0 {
      assert es[0].id != e.id;
      assert forall i :: 0 <= i < |es[1..]| ==> es[1..][i] == es[i + 1];
      PutKnown(es[1..], e, slot - 1);
    }
  }

  // Every entry behind the slot of `e`'s id was registered at the moment of `e`.
  ghost predicate LevelBehind(es: seq<Entry>, e: Entry) {
    forall i, j :: 0 <= i < j < |es| && es[i].id == e.id ==> es[j].registeredAt == e.registeredAt
  }

  lemma OrderOfReused(es: seq<Entry>, e: Entry, slot: nat)
    requires Sorted(es) && UniqueIds(es) && slot < |es| && es[slot].id == e.id
    requires forall x :: x in es ==> x.registeredAt <= e.registeredAt
    ensures Sorted(es[slot := e]) <==> LevelBehind(es, e)
  {
    var all := es[slot := e];
    assert forall j :: 0 <= j < |es| ==> es[j] in es;
    if Sorted(all) {
      forall i, j | 0 <= i < j < |es| && es[i].id == e.id ensures es[j].registeredAt == e.registeredAt {
        assert i == slot && all[slot].registeredAt <= all[j].registeredAt;
      }
    }
    if LevelBehind(es, e) {
      forall i, j | 0 <= i < j < |all| ensures all[i].registeredAt <= all[j].registeredAt {
        if i == slot { assert es[slot].id == e.id; }
      }
    }
  }

  /** "Insertion order is registration order" holds after a registration, made at a moment
      no earlier than every stored one, exactly when the id is new or every entry behind
      the reused slot was registered at that same moment. */
  lemma OrderKeptIff(es: seq<Entry>, e: Entry)
    requires UniqueIds(es) && Sorted(es)
    requires forall x :: x in es ==> x.registeredAt <= e.registeredAt
    ensures Sorted(Put(es, e)) <==> LevelBehind(es, e)
  {
    if HasId(es, e.id) {
      var slot :| 0 <= slot < |es| && es[slot].id == e.id;
      PutKnown(es, e, slot);
      OrderOfReused(es, e, slot);
    } else {
      PutFresh(es, e);
      SortedSnoc(es, e);
      assert forall i :: 0 <= i < |es| ==> es[i].id != e.id;
    }
  }

  /** The order can break: the first of two hints is registered again after the second. */
  lemma OrderCanBreak() returns (es: seq<Entry>, e: Entry)
    ensures UniqueIds(es) && Sorted(es) && (forall x :: x in es ==> x.registeredAt <= e.registeredAt)
    ensures !Sorted(Put(es, e))
  {
    var a, b := Entry(1, "a.example", 1.0, 9.0), Entry(2, "b.example", 2.0, 9.0);
    es, e := [a, b], Entry(1, "a.example", 3.0, 9.0);
    var all := Put(es, e);
    assert all == [e] + es[1..] == [e, b];
    assert all[0].registeredAt > all[1].registeredAt;
  }

  lemma SortedSnoc(es: seq<Entry>, e: Entry)
    requires Sorted(es) && forall x :: x in es ==> x.registeredAt <= e.registeredAt
    ensures Sorted(es + [e])
  {
    forall i, j | 0 <= i < j < |es + [e]| ensures (es + [e])[i].registeredAt <= (es + [e])[j].registeredAt {
      if j == |es| { assert es[i] in es; }
    }
  }

  lemma NewestOfSorted(all: seq<Entry>, max: nat)
    requires Sorted(all)
    ensures var kept := Newest(all, max);
            && Sorted(kept) && |kept| <= max
            && forall x, y :: x in kept && y in all && y !in kept ==> y.registeredAt <= x.registeredAt
  {
    var kept := Newest(all, max);
    var cut := |all| - |kept|;
    forall i, j | 0 <= i < j < |kept| ensures kept[i].registeredAt <= kept[j].registeredAt {
      assert all[cut + i].registeredAt <= all[cut + j].registeredAt;
    }
    BehindTheCut(all, max);
    forall x, y | x in kept && y in all && y !in kept ensures y.registeredAt <= x.registeredAt {
      var i :| 0 <= i < |kept| && kept[i] == x;
      var j :| 0 <= j < |all| && all[j] == y;
      assert j < cut;
      assert all[j].registeredAt <= all[cut + i].registeredAt;
    }
  }

  lemma BehindTheCut(all: seq<Entry>, max: nat)
    ensures forall j :: |all| - |Newest(all, max)| <= j < |all| ==> all[j] in Newest(all, max)
  {
    var kept := Newest(all, max);
    var cut := |all| - |kept|;
    forall j | cut <= j < |all| ensures all[j] in kept { assert kept[j - cut] == all[j]; }
  }

  /** A full registry that receives a new id loses exactly its longest-pending hints. */
  lemma OverflowDropsOldest(es: seq<Entry>, e: Entry, now: real, max: nat)
    requires UniqueIds(es) && Sorted(es) && !HasId(LiveOf(es, now), e.id)
    requires e.registeredAt == now && forall x :: x in es ==> x.registeredAt <= now
    ensures var kept := Registered(es, e, now, max);
            && Sorted(kept) && |kept| <= max
            && (max > 0 ==> e in kept)
            && forall x, y :: x in kept && y in LiveOf(es, now) && y !in kept ==> y.registeredAt <= x.registeredAt
  {
    var live := LiveOf(es, now);
    LiveKeepsSorted(es, now);
    LiveOfMeaning(es, now);
    PutFresh(live, e);
    SortedSnoc(live, e);
    NewestOfSorted(live + [e], max);
    NewestKeepsLast(live, e, max);
    assert forall y :: y in live ==> y in live + [e];
  }

  /** A registration that fits: what has expired is gone, the new entry is there in place of
      any with its id, and every other one stays. */
  lemma RegisteredExactly(es: seq<Entry>, e: Entry, now: real, max: nat, x: Entry)
    requires UniqueIds(es) && |es| < max
    ensures x in Registered(es, e, now, max) <==> x == e || (x in es && x.expiresAt > now && x.id != e.id)
  {
    LiveOfMeaning(es, now);
    LiveKeepsUnique(es, now);
    PutMeaning(LiveOf(es, now), e);
  }

  lemma NewestKeepsLast(es: seq<Entry>, e: Entry, max: nat)
    ensures max > 0 ==> e in Newest(es + [e], max)
  {
    var kept := Newest(es + [e], max);
    if max > 0 { assert kept[|kept| - 1] == e; }
  }

  /** The strict cursor misses a hint registered at the very moment of the cursor, and
      only such a hint: any newer one is returned as long as it is live. */
  lemma CursorMissesIff(es: seq<Entry>, now: real, cursor: real, e: Entry)
    requires e in es && Live(e, now) && e.registeredAt >= cursor
    ensures e !in Pending(es, now, Filter(None, Some(cursor))) <==> e.registeredAt == cursor
  {
    PendingMeaning(es, now, Filter(None, Some(cursor)));
  }
}

module CorrelationObject {
  import opened Common
  import opened CorrelationModel

  class CorrelationRegistry {
    const ttl: real
    const maxEntries: nat
    var entries: seq<Entry>
    /** Which arrival event is current; every earlier one has been set. */
    var arrival: nat
    var registered: nat
    var expired: nat
    var overflowed: nat
    ghost var discarded: nat
    ghost var replaced: nat

    /** Nothing is lost without being counted, and the cap holds. */
    ghost predicate Valid()
      reads this
    {
      && UniqueIds(entries)
      && |entries| <= maxEntries
      && registered == |entries| + expired + overflowed + discarded + replaced
    }

    constructor (ttl: real, maxEntries: nat)
      ensures Valid() && entries == [] && registered == 0 && this.ttl == ttl && this.maxEntries == maxEntries
    {
      this.ttl, this.maxEntries := ttl, maxEntries;
      entries, arrival, registered, expired, overflowed, discarded, replaced := [], 0, 0, 0, 0, 0, 0;
    }

    method Register(hint: Hint, given: Option<real>, now: real, newId: Id) returns (entry: Entry)
      requires Valid()
      modifies this
      ensures Valid()
      ensures entry.id == (if hint.id.Some? then hint.id.value else newId) && entry.host == hint.host
      ensures entry.registeredAt == now
      // the caller's ttl, else the hint's, else the registry's; a ttl of zero is none
      ensures entry.expiresAt == now + (if given.Some? && given.value != 0.0 then given.value
                                        else if hint.ttl.Some? && hint.ttl.value != 0.0 then hint.ttl.value
                                        else ttl)
      ensures entries == Registered(old(entries), entry, now, maxEntries)
      ensures registered == old(registered) + 1 && arrival == old(arrival) + 1
      ensures discarded == old(discarded)
    {
      var id := if hint.id.Some? then hint.id.value else newId;
      entry := Entry(id, hint.host, now, now + Ttl(given, hint.ttl, ttl));
      Evict(now);
      Insert(entry);
    }

    /** Store the entry, wake the waiters, and go back under the cap. */
    method Insert(entry: Entry)
      requires UniqueIds(entries)
      modifies `entries, `registered, `replaced, `overflowed, `arrival
      ensures UniqueIds(entries) && entries == Newest(Put(old(entries), entry), maxEntries)
      ensures |entries| <= maxEntries && registered == old(registered) + 1 && arrival == old(arrival) + 1
      ensures |entries| + overflowed + replaced == |old(entries)| + old(overflowed) + old(replaced) + 1
    {
      Store(entry);
      arrival := arrival + 1;
      Trim();
    }

    method Store(entry: Entry)
      requires UniqueIds(entries)
      modifies `entries, `registered, `replaced
      ensures UniqueIds(entries) && entries == Put(old(entries), entry)
      ensures registered == old(registered) + 1
      ensures |entries| + replaced == |old(entries)| + old(replaced) + 1
    {
      PutMeaning(entries, entry);
      if HasId(entries, entry.id) { replaced := replaced + 1; }
      entries := Put(entries, entry);
      registered := registered + 1;
    }

    /** Over the cap, the front of the map goes first. */
    method Trim()
      requires UniqueIds(entries)
      modifies `entries, `overflowed
      ensures UniqueIds(entries) && entries == Newest(old(entries), maxEntries) && |entries| <= maxEntries
      ensures overflowed == old(overflowed) + |old(entries)| - |entries|
    {
      while |entries| > maxEntries
        invariant |old(entries)| >= |entries| >= Min(|old(entries)|, maxEntries)
        invariant entries == old(entries)[|old(entries)| - |entries|..]
        invariant overflowed == old(overflowed) + |old(entries)| - |entries|
      {
        entries := entries[1..];
        overflowed := overflowed + 1;
      }
    }

    method PendingHints(f: Filter, now: real) returns (hints: seq<Entry>)
      requires Valid()
      modifies `entries, `expired
      ensures Valid()
      ensures entries == LiveOf(old(entries), now)
      ensures hints == Pending(old(entries), now, f)
    {
      Evict(now);
      hints := [];
      for i := 0 to |entries|
        invariant hints == WantedOf(entries[..i], f)
      {
        assert entries[..i + 1][..i] == entries[..i];
        if Wanted(entries[i], f) { hints := hints + [entries[i]]; }
      }
      assert entries[..|entries|] == entries;
    }

    method Discard(id: Id) returns (found: Option<Entry>)
      requires Valid()
      modifies `entries, `discarded
      ensures Valid()
      ensures entries == Without(old(entries), id)
      ensures found.Some? <==> HasId(old(entries), id)
      ensures found.Some? ==> found.value in old(entries) && found.value.id == id
    {
      WithoutMeaning(entries, id);
      found := None;
      for i := 0 to |entries|
        invariant found.None? ==> forall j :: 0 <= j < i ==> entries[j].id != id
        invariant found.Some? ==> found.value in entries && found.value.id == id
      {
        if entries[i].id == id { found := Some(entries[i]); }
      }
      if found.Some? {
        var k :| 0 <= k < |entries| && entries[k] == found.value;
        assert HasId(entries, id);
        discarded := discarded + 1;
      }
      entries := Without(entries, id);
    }

    /** Collect the expired keys, then delete each. */
    method Evict(now: real)
      requires UniqueIds(entries)
      modifies `entries, `expired
      ensures UniqueIds(entries) && entries == LiveOf(old(entries), now)
      ensures |entries| <= |old(entries)|
      ensures expired == old(expired) + |old(entries)| - |entries|
    {
      LiveKeepsUnique(entries, now);
      OutsideExpired(entries, now);
      var gone := Expired(now);
      Delete(gone);
      expired := expired + |gone|;
    }

    method Expired(now: real) returns (gone: seq<Id>)
      ensures gone == ExpiredIds(entries, now)
    {
      gone := [];
      for i := 0 to |entries|
        invariant gone == ExpiredIds(entries[..i], now)
      {
        assert entries[..i + 1][..i] == entries[..i];
        if entries[i].expiresAt <= now { gone := gone + [entries[i].id]; }
      }
      assert entries[..|entries|] == entries;
    }

    method Delete(gone: seq<Id>)
      modifies `entries
      ensures entries == Outside(old(entries), gone)
    {
      OutsideNothing(entries);
      for k := 0 to |gone|
        invariant entries == Outside(old(entries), gone[..k])
      {
        OutsideOne(old(entries), gone[..k], gone[k]);
        assert gone[..k + 1] == gone[..k] + [gone[k]];
        entries := Without(entries, gone[k]);
      }
      assert gone[..|gone|] == gone;
    }
  }

  function ExpiredIds(es: seq<Entry>, now: real): seq<Id> {
    if es == [] then []
    else ExpiredIds(es[..|es| - 1], now) + (if !Live(es[|es| - 1], now) then [es[|es| - 1].id] else [])
  }

  /** What is left once the listed keys are deleted. */
  function Outside(es: seq<Entry>, ids: seq<Id>): seq<Entry> {
    if es == [] then []
    else Outside(es[..|es| - 1], ids) + (if es[|es| - 1].id !in ids then [es[|es| - 1]] else [])
  }

  lemma {:induction false} OutsideOne(es: seq<Entry>, ids: seq<Id>, id: Id)
    ensures Without(Outside(es, ids), id) == Outside(es, ids + [id])
  {
    if es != [] {
      var init, last := es[..|es| - 1], es[|es| - 1];
      OutsideOne(init, ids, id);
      var kept := Outside(es, ids);
      if last.id !in ids {
        assert kept[..|kept| - 1] == Outside(init, ids);
      } else {
        assert kept == Outside(init, ids);
      }
    }
  }

  lemma {:induction false} OutsideNothing(es: seq<Entry>)
    ensures Outside(es, []) == es
  {
    if es != [] {
      OutsideNothing(es[..|es| - 1]);
      assert es == es[..|es| - 1] + [es[|es| - 1]];
    }
  }

  lemma {:induction false} OutsideAlso(es: seq<Entry>, ids: seq<Id>, id: Id)
    requires forall e :: e in es ==> e.id != id
    ensures Outside(es, ids + [id]) == Outside(es, ids)
  {
    if es != [] { OutsideAlso(es[..|es| - 1], ids, id); }
  }

  lemma {:induction false} ExpiredIdsIn(es: seq<Entry>, now: real)
    ensures forall id :: id in ExpiredIds(es, now) ==> HasId(es, id)
  {
    if es != [] {
      var init := es[..|es| - 1];
      ExpiredIdsIn(init, now);
      forall id | id in ExpiredIds(es, now) ensures HasId(es, id) {
        if id in ExpiredIds(init, now) {
          var i :| 0 <= i < |init| && init[i].id == id;
          assert es[i].id == id;
        } else {
          assert es[|es| - 1].id == id;
        }
      }
    }
  }

  lemma {:induction false} OutsideExpired(es: seq<Entry>, now: real)
    requires UniqueIds(es)
    ensures Outside(es, ExpiredIds(es, now)) == LiveOf(es, now)
    ensures |ExpiredIds(es, now)| + |LiveOf(es, now)| == |es|
  {
    if es != [] {
      var init, last := es[..|es| - 1], es[|es| - 1];
      OutsideExpired(init, now);
      var ids := ExpiredIds(init, now);
      ExpiredIdsIn(init, now);
      forall e | e in init ensures e.id != last.id {
        var i :| 0 <= i < |init| && init[i] == e;
        assert es[i] == e;
      }
      assert !HasId(init, last.id);
      if !Live(last, now) {
        OutsideAlso(init, ids, last.id);
        assert ExpiredIds(es, now) == ids + [last.id];
      } else {
        assert ExpiredIds(es, now) == ids;
      }
    }
  }
}
