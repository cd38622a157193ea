/**
 What flattening lists, by a walk of its own. A route is the positions of the children one
 goes through from the root of a document; a route stops at a leaf, at an empty container or
 at the nesting bound. `LeavesAreStops` ties the two: the list is one entry for each route
 that stops, in document order, named by the keys on the way.
 */
module DocumentWalk {
  import opened Common
  import opened Attributes

  // ---------------------------------------------------------------- decimal names

  /** A reader of decimal numbers. */
  function NumberOf(s: string): int {
    if s == "" then 0 else 10 * NumberOf(s[..|s| - 1]) + (s[|s| - 1] as int - 48)
  }

  /** The name of an array item is its index in decimal, without leading zeros. */
  lemma {:induction false} DigitsMeaning(n: nat)
    ensures NumberOf(Digits(n)) == n
    ensures Digits(n) != "" && forall c :: c in Digits(n) ==> '0' <= c <= '9'
    ensures Digits(n)[0] == '0' ==> Digits(n) == "0"
  {
    var last := n % 10;
    DigitOf(last);
    if n < 10 {
      assert [Digits(n)[0]] == Digits(n);
      assert Digits(n)[..0] == "";
    } else {
      DigitsMeaning(n / 10);
      var init := Digits(n / 10);
      assert Digits(n) == init + ["0123456789"[last]];
      assert Digits(n)[..|init|] == init;
      assert Digits(n)[0] == init[0];
      ZeroReads();
    }
  }

  lemma ZeroReads()
    ensures NumberOf("0") == 0
  {
    assert "0"[..0] == "";
  }

  lemma DigitOf(d: nat)
    requires d < 10
    ensures "0123456789"[d] as int == 48 + d
  {}

  lemma DigitsDiffer(m: nat, n: nat)
    requires m != n
    ensures Digits(m) != Digits(n)
  {
    DigitsMeaning(m);
    DigitsMeaning(n);
  }

  // ----------------------------------------------------------------- the walk

  type Route = seq<nat>

  function Child(j: Json, k: nat): Option<Json> {
    match j
    case Leaf(_) => None
    case Obj(props, _) => if k < |props| then Some(props[k].value) else None
    case Arr(items, _) => if k < |items| then Some(items[k]) else None
  }

  /** A property goes by its name, an item by its index. */
  function KeyOf(j: Json, k: nat): string {
    if j.Obj? && k < |j.props| then j.props[k].name else Digits(k)
  }

  function At(j: Json, r: Route): Option<Json>
    decreases |r|
  {
    if r == [] then Some(j)
    else
      var c := Child(j, r[0]);
      if c.None? then None else At(c.value, r[1..])
  }

  function Keys(j: Json, r: Route): seq<string>
    requires At(j, r).Some?
    decreases |r|
  {
    if r == [] then [] else [KeyOf(j, r[0])] + Keys(Child(j, r[0]).value, r[1..])
  }

  predicate Childless(j: Json) { j.Leaf? || (j.Obj? && j.props == []) || (j.Arr? && j.items == []) }

  /** The walk stops here; `bound` levels may be entered. */
  predicate Stops(j: Json, r: Route, bound: int) {
    At(j, r).Some? && (r == [] || |r| <= bound) && (|r| >= bound || Childless(At(j, r).value))
  }

  /** A leaf is described by its text, an empty container within the bound by its brackets,
      and a container at the bound by its raw text. */
  function TextOf(j: Json, within: bool): string {
    if j.Leaf? then j.text
    else if within && Childless(j) then (if j.Obj? then "{}" else "[]")
    else j.raw
  }

  function DropEmpty(keys: seq<string>): seq<string> {
    if keys != [] && keys[0] == "" then DropEmpty(keys[1..]) else keys
  }

  function Joined(keys: seq<string>): string {
    if keys == [] then "" else if |keys| == 1 then keys[0] else keys[0] + "." + Joined(keys[1..])
  }

  /** The keys joined with dots, empty ones in front left out; "body" if nothing is left. */
  function NameOf(keys: seq<string>): string {
    if DropEmpty(keys) == [] then "body" else Joined(DropEmpty(keys))
  }

  /** Document order: at the first position where two routes differ, the smaller one. */
  predicate Precedes(a: Route, b: Route)
    decreases |a|
  {
    a != [] && b != [] && (a[0] < b[0] || (a[0] == b[0] && Precedes(a[1..], b[1..])))
  }

  lemma {:induction false} NotBeforeItself(r: Route)
    ensures !Precedes(r, r)
    decreases |r|
  {
    if r != [] { NotBeforeItself(r[1..]); }
  }

  // ------------------------------------------------------- names along the way

  function Along(prefix: string, keys: seq<string>): string
    decreases |keys|
  {
    if keys == [] then prefix else Along(Under(prefix, keys[0]), keys[1..])
  }

  lemma {:induction false} AlongJoins(prefix: string, keys: seq<string>)
    requires prefix != "" && keys != []
    ensures Along(prefix, keys) == prefix + "." + Joined(keys)
    decreases |keys|
  {
    if |keys| > 1 {
      AlongJoins(Under(prefix, keys[0]), keys[1..]);
      assert prefix + "." + keys[0] + "." + Joined(keys[1..]) == prefix + "." + (keys[0] + "." + Joined(keys[1..]));
    }
  }

  lemma {:induction false} AlongIsName(keys: seq<string>)
    ensures Named(Along("", keys)) == NameOf(keys)
    decreases |keys|
  {
    if keys != [] {
      if keys[0] == "" {
        AlongIsName(keys[1..]);
      } else if |keys| > 1 {
        AlongJoins(keys[0], keys[1..]);
      } else {
        assert Along("", keys) == Along(keys[0], keys[1..]) == keys[0];
      }
    }
  }

  // ------------------------------------------------------- the list and the walk

  /** Entry `i` of the list is what the walk finds at the end of route `i`. */
  ghost predicate Lists(j: Json, prefix: string, bound: int, paths: seq<Path>, routes: seq<Route>) {
    |paths| == |routes| && forall i :: 0 <= i < |routes| ==> Listed(j, prefix, bound, paths[i], routes[i])
  }

  ghost predicate Listed(j: Json, prefix: string, bound: int, path: Path, r: Route) {
    && Stops(j, r, bound)
    && path == Path(Named(Along(prefix, Keys(j, r))), TextOf(At(j, r).value, |r| < bound))
  }

  ghost predicate InOrder(routes: seq<Route>) {
    forall i, k :: 0 <= i < k < |routes| ==> Precedes(routes[i], routes[k])
  }

  lemma StopOfChild(j: Json, k: nat, r: Route, bound: int)
    requires Child(j, k).Some? && bound >= 1
    ensures Stops(j, [k] + r, bound) <==> Stops(Child(j, k).value, r, bound - 1)
    ensures At(j, [k] + r) == At(Child(j, k).value, r)
    ensures At(j, [k] + r).Some? ==> Keys(j, [k] + r) == [KeyOf(j, k)] + Keys(Child(j, k).value, r)
  {
    assert ([k] + r)[1..] == r;
  }

  function Behind(k: nat, routes: seq<Route>): seq<Route> {
    seq(|routes|, i requires 0 <= i < |routes| => [k] + routes[i])
  }

  lemma BehindLists(j: Json, k: nat, prefix: string, bound: int, paths: seq<Path>, routes: seq<Route>)
    requires Child(j, k).Some? && bound >= 1
    requires Lists(Child(j, k).value, Under(prefix, KeyOf(j, k)), bound - 1, paths, routes)
    ensures Lists(j, prefix, bound, paths, Behind(k, routes))
  {
    var c := Child(j, k).value;
    forall i | 0 <= i < |routes| ensures Listed(j, prefix, bound, paths[i], Behind(k, routes)[i]) {
      assert Listed(c, Under(prefix, KeyOf(j, k)), bound - 1, paths[i], routes[i]);
      StopOfChild(j, k, routes[i], bound);
      var keys := Keys(j, Behind(k, routes)[i]);
      assert keys[0] == KeyOf(j, k) && keys[1..] == Keys(c, routes[i]);
    }
  }

  lemma BehindInOrder(k: nat, routes: seq<Route>)
    requires InOrder(routes)
    ensures InOrder(Behind(k, routes))
  {
    forall i, m | 0 <= i < m < |routes| ensures Precedes(Behind(k, routes)[i], Behind(k, routes)[m]) {
      assert ([k] + routes[i])[1..] == routes[i] && ([k] + routes[m])[1..] == routes[m];
    }
  }

  ghost predicate AllFrom(k: nat, routes: seq<Route>) {
    forall i :: 0 <= i < |routes| ==> routes[i] != [] && routes[i][0] >= k
  }

  lemma ListsJoin(j: Json, prefix: string, bound: int, p: seq<Path>, a: seq<Route>, q: seq<Path>, b: seq<Route>)
    requires Lists(j, prefix, bound, p, a) && Lists(j, prefix, bound, q, b)
    ensures Lists(j, prefix, bound, p + q, a + b)
  {
    forall i | 0 <= i < |a + b| ensures Listed(j, prefix, bound, (p + q)[i], (a + b)[i]) {
      if i < |a| {
        assert (p + q)[i] == p[i] && (a + b)[i] == a[i];
      } else {
        assert (p + q)[i] == q[i - |a|] && (a + b)[i] == b[i - |a|];
      }
    }
  }

  lemma OrderJoin(k: nat, a: seq<Route>, b: seq<Route>)
    requires InOrder(a) && InOrder(b) && AllFrom(k + 1, b)
    requires forall i :: 0 <= i < |a| ==> a[i] != [] && a[i][0] == k
    ensures InOrder(a + b) && AllFrom(k, a + b)
  {}

  /** No route that stops is missing; behind the children from number `k` on. */
  ghost predicate Complete(j: Json, bound: int, routes: seq<Route>) {
    forall r: Route :: Stops(j, r, bound) ==> r in routes
  }

  ghost predicate CompleteFrom(j: Json, k: nat, bound: int, routes: seq<Route>) {
    forall r: Route :: r != [] && r[0] >= k && Stops(j, r, bound) ==> r in routes
  }

  lemma OneMoreChild(j: Json, k: nat, bound: int, mine: seq<Route>, others: seq<Route>)
    requires Child(j, k).Some? && bound >= 1
    requires InOrder(mine) && Complete(Child(j, k).value, bound - 1, mine)
    requires InOrder(others) && AllFrom(k + 1, others) && CompleteFrom(j, k + 1, bound, others)
    ensures var routes := Behind(k, mine) + others;
            InOrder(routes) && AllFrom(k, routes) && CompleteFrom(j, k, bound, routes)
  {
    BehindInOrder(k, mine);
    OrderJoin(k, Behind(k, mine), others);
    var routes := Behind(k, mine) + others;
    forall r: Route | r != [] && r[0] >= k && Stops(j, r, bound) ensures r in routes {
      if r[0] == k { ChildRouteFound(j, k, r, bound, mine); }
    }
  }

  lemma ChildRouteFound(j: Json, k: nat, r: Route, bound: int, mine: seq<Route>)
    requires Child(j, k).Some? && bound >= 1 && r != [] && r[0] == k && Stops(j, r, bound)
    requires Complete(Child(j, k).value, bound - 1, mine)
    ensures r in Behind(k, mine)
  {
    var rest := r[1..];
    assert r == [k] + rest;
    StopOfChild(j, k, rest, bound);
    assert rest in mine;
    var i :| 0 <= i < |mine| && mine[i] == rest;
    assert Behind(k, mine)[i] == r;
  }

  lemma {:induction false} ChildrenListed(j: Json, k: nat, prefix: string, maxDepth: int, depth: int, bound: int)
    returns (routes: seq<Route>)
    requires !j.Leaf? && k <= |Children(j)| && bound == maxDepth - depth >= 1
    ensures Lists(j, prefix, bound, LeavesFrom(j, k, prefix, maxDepth, depth + 1), routes)
    ensures InOrder(routes) && AllFrom(k, routes) && CompleteFrom(j, k, bound, routes)
    decreases j, 0, |Children(j)| - k
  {
    if k == |Children(j)| {
      routes := [];
      NoMoreChildren(j, prefix, maxDepth, depth + 1);
      assert CompleteFrom(j, k, bound, routes);
    } else {
      LeavesFromStep(j, k, prefix, maxDepth, depth + 1);
      var c := ChildSmaller(j, k);
      var under := Under(prefix, KeyOf(j, k));
      var mine := LeavesListed(c, under, maxDepth, depth + 1, bound - 1);
      var others := ChildrenListed(j, k + 1, prefix, maxDepth, depth, bound);
      BehindLists(j, k, prefix, bound, Leaves(c, under, maxDepth, depth + 1), mine);
      OneMoreChild(j, k, bound, mine, others);
      routes := Behind(k, mine) + others;
      ListsJoin(j, prefix, bound, Leaves(c, under, maxDepth, depth + 1), Behind(k, mine),
                LeavesFrom(j, k + 1, prefix, maxDepth, depth + 1), others);
    }
  }

  lemma NoMoreChildren(j: Json, prefix: string, maxDepth: int, depth: int)
    requires !j.Leaf?
    ensures LeavesFrom(j, |Children(j)|, prefix, maxDepth, depth) == []
  {}

  lemma ChildSmaller(j: Json, k: nat) returns (c: Json)
    requires !j.Leaf? && k < |Children(j)|
    ensures Child(j, k) == Some(c) && Children(j)[k] == Prop(KeyOf(j, k), c) && c < j
  {
    c := Child(j, k).value;
    if j.Obj? { assert j.props[k] < j; }
  }

  lemma {:induction false} LeavesListed(j: Json, prefix: string, maxDepth: int, depth: int, bound: int)
    returns (routes: seq<Route>)
    requires bound == maxDepth - depth
    ensures Lists(j, prefix, bound, Leaves(j, prefix, maxDepth, depth), routes)
    ensures InOrder(routes) && Complete(j, bound, routes)
    decreases j, 1, 0
  {
    if depth < maxDepth && !Childless(j) {
      routes := ChildrenListed(j, 0, prefix, maxDepth, depth, bound);
      if j.Obj? { assert j.props[0..] == j.props; } else { assert j.items[0..] == j.items; }
    } else {
      routes := [[]];
      forall r: Route | Stops(j, r, bound) ensures r in routes { if r != [] { assert false; } }
    }
  }

  /** Flattening a document lists each route that stops exactly once, in document order,
      under the keys on the way and with the text found there. */
  lemma LeavesAreStops(j: Json, maxDepth: int) returns (routes: seq<Route>)
    ensures |Leaves(j, "", maxDepth, 0)| == |routes|
    ensures forall i :: 0 <= i < |routes| ==>
              && Stops(j, routes[i], maxDepth)
              && Leaves(j, "", maxDepth, 0)[i]
                 == Path(NameOf(Keys(j, routes[i])), TextOf(At(j, routes[i]).value, |routes[i]| < maxDepth))
    ensures forall r: Route :: Stops(j, r, maxDepth) ==> r in routes
    ensures forall i, k :: 0 <= i < k < |routes| ==> Precedes(routes[i], routes[k]) && routes[i] != routes[k]
  {
    routes := LeavesListed(j, "", maxDepth, 0, maxDepth);
    forall i | 0 <= i < |routes|
      ensures Stops(j, routes[i], maxDepth)
      ensures Leaves(j, "", maxDepth, 0)[i]
              == Path(NameOf(Keys(j, routes[i])), TextOf(At(j, routes[i]).value, |routes[i]| < maxDepth))
    {
      assert Listed(j, "", maxDepth, Leaves(j, "", maxDepth, 0)[i], routes[i]);
      AlongIsName(Keys(j, routes[i]));
    }
    forall i, k | 0 <= i < k < |routes| ensures routes[i] != routes[k] { NotBeforeItself(routes[i]); }
  }

  /** A record of values is flattened like an object that holds them, one level in. */
  lemma {:induction false} RecordIsObject(record: seq<Prop>, maxDepth: int)
    ensures LeavesOfRecord(record, maxDepth) == LeavesOfProps(record, "", maxDepth, 0)
    decreases |record|
  {
    if record != [] {
      RecordIsObject(record[1..], maxDepth);
      assert Under("", record[0].name) == record[0].name;
    }
  }

  lemma {:induction false} OneLevelIn(props: seq<Prop>, prefix: string, maxDepth: int, depth: int)
    ensures LeavesOfProps(props, prefix, maxDepth, depth) == LeavesOfProps(props, prefix, maxDepth + 1, depth + 1)
    decreases props, 0
  {
    if props != [] {
      DepthShifts(props[0].value, Under(prefix, props[0].name), maxDepth, depth);
      OneLevelIn(props[1..], prefix, maxDepth, depth);
    }
  }

  lemma {:induction false} ItemsOneLevelIn(items: seq<Json>, first: nat, prefix: string, maxDepth: int, depth: int)
    ensures LeavesOfItems(items, first, prefix, maxDepth, depth)
            == LeavesOfItems(items, first, prefix, maxDepth + 1, depth + 1)
    decreases items, 0
  {
    if items != [] {
      DepthShifts(items[0], Under(prefix, Digits(first)), maxDepth, depth);
      ItemsOneLevelIn(items[1..], first + 1, prefix, maxDepth, depth);
    }
  }

  /** Only the distance to the bound matters. */
  lemma {:induction false} DepthShifts(j: Json, prefix: string, maxDepth: int, depth: int)
    ensures Leaves(j, prefix, maxDepth, depth) == Leaves(j, prefix, maxDepth + 1, depth + 1)
    decreases j, 1
  {
    if depth < maxDepth && j.Obj? { OneLevelIn(j.props, prefix, maxDepth, depth + 1); }
    if depth < maxDepth && j.Arr? { ItemsOneLevelIn(j.items, 0, prefix, maxDepth, depth + 1); }
  }

  /** So the walk says what a record's list is too. */
  lemma RecordListed(record: seq<Prop>, raw: string, maxDepth: nat)
    requires record != []
    ensures LeavesOfRecord(record, maxDepth) == Leaves(Obj(record, raw), "", maxDepth + 1, 0)
  {
    RecordIsObject(record, maxDepth);
    OneLevelIn(record, "", maxDepth, 0);
  }

  // ------------------------------------------------------ items of one array

  /** Text that `head` starts and that goes on with a dot, if at all. */
  predicate Heads(head: string, s: string) {
    |head| <= |s| && s[..|head|] == head && (|s| > |head| ==> s[|head|] == '.')
  }

  lemma {:induction false} JoinedHeads(keys: seq<string>)
    requires keys != []
    ensures Heads(keys[0], Joined(keys))
  {}

  predicate NoDot(s: string) { forall i :: 0 <= i < |s| ==> s[i] != '.' }

  lemma HeadLength(a: string, b: string, s: string)
    requires Heads(a, s) && Heads(b, s) && NoDot(b)
    ensures |b| <= |a|
  {
    assert forall i :: 0 <= i < |b| ==> s[..|b|][i] == s[i];
  }

  /** Different dotless heads behind the same text: the names differ. */
  lemma HeadsDiffer(p: string, a: string, b: string, s: string, t: string)
    requires Heads(a, s) && Heads(b, t) && NoDot(a) && NoDot(b) && a != b
    ensures p + s != p + t
  {
    assert (p + s)[|p|..] == s && (p + t)[|p|..] == t;
    if s == t { OneHead(a, b, s); }
  }

  lemma OneHead(a: string, b: string, s: string)
    requires Heads(a, s) && Heads(b, s) && NoDot(a) && NoDot(b)
    ensures a == b
  {
    HeadLength(a, b, s);
    HeadLength(b, a, s);
  }

  /** What stands in front of a name's last part: the keys so far and a dot. */
  function Front(keys: seq<string>): string {
    if DropEmpty(keys) == [] then "" else Joined(DropEmpty(keys)) + "."
  }

  lemma {:induction false} JoinedAppend(a: seq<string>, b: seq<string>)
    requires a != [] && b != []
    ensures Joined(a + b) == Joined(a) + "." + Joined(b)
    decreases |a|
  {
    if |a| == 1 {
      assert (a + b)[1..] == b;
    } else {
      assert (a + b)[1..] == a[1..] + b;
      JoinedAppend(a[1..], b);
      assert a[0] + "." + (Joined(a[1..]) + "." + Joined(b)) == a[0] + "." + Joined(a[1..]) + "." + Joined(b);
    }
  }

  lemma {:induction false} DropAppend(a: seq<string>, b: seq<string>)
    requires b != [] && b[0] != ""
    ensures DropEmpty(a + b) == DropEmpty(a) + b
    decreases |a|
  {
    if a == [] {
      assert a + b == b;
    } else {
      assert (a + b)[1..] == a[1..] + b;
      if a[0] == "" { DropAppend(a[1..], b); }
    }
  }

  lemma NameBehind(a: seq<string>, b: seq<string>)
    requires b != [] && b[0] != ""
    ensures NameOf(a + b) == Front(a) + Joined(b)
  {
    DropAppend(a, b);
    if DropEmpty(a) == [] {
      assert [] + b == b;
    } else {
      JoinedAppend(DropEmpty(a), b);
    }
  }

  /** No two items of one array share a name, nor does anything found in them. */
  lemma ItemsNeverShareNames(a: seq<string>, i: nat, b: seq<string>, k: nat, c: seq<string>)
    requires i != k
    ensures NameOf(a + ([Digits(i)] + b)) != NameOf(a + ([Digits(k)] + c))
  {
    DigitsMeaning(i);
    DigitsMeaning(k);
    DigitsDiffer(i, k);
    assert forall n: nat, m: nat :: m < |Digits(n)| ==> Digits(n)[m] in Digits(n);
    var s, t := [Digits(i)] + b, [Digits(k)] + c;
    NameBehind(a, s);
    NameBehind(a, t);
    JoinedHeads(s);
    JoinedHeads(t);
    HeadsDiffer(Front(a), Digits(i), Digits(k), Joined(s), Joined(t));
  }
}
