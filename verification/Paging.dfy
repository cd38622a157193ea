/**
 The runner's side of the collector: the cursor loops that export a run and that count its
 requests, against a service whose stored rows may grow between any two calls and whose
 calls may fail.
 */
module Paging {
  import opened Common
  import opened CollectorModel
  import opened CollectorInvariants
  import CollectorTheorems
  import CollectorMeanings

  // ------------------------------------------------------------------ the service

  /** What happens around one call: rows committed just before it, and whether it succeeds. */
  datatype Moment = Moment(ok: bool, arrived: seq<Row>)

  function Arrivals(script: seq<Moment>): seq<Row> {
    if script == [] then [] else script[0].arrived + Arrivals(script[1..])
  }

  const MAX_LIMIT := 50000

  class Service {
    var rows: seq<Row>
    // the future, consumed one moment per call; afterwards nothing arrives and calls succeed
    var script: seq<Moment>

    /** What the collector guarantees of its table, now and after every arrival:
        see `CollectorTheorems.SeqUniqueAndOrdered` and `StreamGrows`. */
    ghost predicate Valid()
      reads this
    {
      Ascending(rows + Arrivals(script)) && forall row :: row in rows + Arrivals(script) ==> row.seqno >= 1
    }

    /** `GET /v1/runs/{run}/events`. None is a failed call, which includes a limit outside
        the range the endpoint validates. */
    method Events(run: RunId, kind: Option<string>, after: nat, limit: int) returns (page: Option<seq<Row>>)
      requires Valid()
      modifies this
      ensures Valid()
      ensures old(rows) <= rows
      ensures if old(script) == [] then rows == old(rows) && script == [] else script == old(script)[1..]
      ensures old(script) == [] && 1 <= limit <= MAX_LIMIT ==> page.Some?
      ensures page.Some? ==> 1 <= limit <= MAX_LIMIT && page.value == Page(rows, run, Query(kind, Some(after), limit))
    {
      var ok := true;
      if script != [] {
        ok := script[0].ok;
        assert rows + Arrivals(script) == rows + script[0].arrived + Arrivals(script[1..]);
        rows := rows + script[0].arrived;
        script := script[1..];
      }
      if !ok || limit < 1 || limit > MAX_LIMIT { return None; }
      page := Some(Page(rows, run, Query(kind, Some(after), limit)));
    }
  }

  lemma {:induction false} TableGrows(cfg: Settings, s: State, steps: seq<Step>, t: State)
    requires Runs(cfg, s, steps, t)
    ensures s.events <= t.events
    decreases |steps|
  {
    if steps != [] {
      if steps[0].SubmitStep? || steps[0].CorrelateStep? { var batch := Intakes(cfg, s, steps[0]); }
      TableGrows(cfg, Apply(cfg, s, steps[0]), steps[1..], t);
    }
  }

  /** The collector is such a service: between any two moments of any of its runs its table
      grows at the end, and what it holds and what arrives satisfy `Service.Valid`. */
  lemma CollectorServes(cfg: Settings, s: State, steps: seq<Step>, t: State) returns (arrived: seq<Row>)
    requires Reachable(cfg, s) && Runs(cfg, s, steps, t)
    ensures t.events == s.events + arrived
    ensures Ascending(s.events + arrived) && forall row :: row in s.events + arrived ==> row.seqno >= 1
  {
    TableGrows(cfg, s, steps, t);
    arrived := t.events[|s.events|..];
    SoundAfter(cfg, s, steps, t);
    TableSound(t);
  }

  lemma SoundAfter(cfg: Settings, s: State, steps: seq<Step>, t: State)
    requires Reachable(cfg, s) && Runs(cfg, s, steps, t)
    ensures SeqInv(t)
  {
    InvAlways(cfg, s);
    InvRuns(cfg, s, steps, t);
  }

  lemma TableSound(s: State)
    requires SeqInv(s)
    ensures Ascending(s.events) && forall row :: row in s.events ==> row.seqno >= 1
  {
    AscendingPrefix(s.events, PendingRows(s.writer));
  }

  // ------------------------------------------------------- the stream behind the pages

  /** A plain scan: every stored row of the run, of the kind if one is given. */
  function Stream(rows: seq<Row>, run: RunId, kind: Option<string>): seq<Row> {
    Matching(rows, run, Query(kind, None, 0))
  }

  /** The cursor after the first `n` rows of a stream. */
  function CursorAt(stream: seq<Row>, n: nat): nat
    requires n <= |stream|
  {
    if n == 0 then 0 else stream[n - 1].seqno
  }

  ghost predicate Increasing(stream: seq<Row>) {
    && (forall i, j :: 0 <= i < j < |stream| ==> stream[i].seqno < stream[j].seqno)
    && (forall i :: 0 <= i < |stream| ==> stream[i].seqno >= 1)
  }

  lemma StreamIncreasing(rows: seq<Row>, run: RunId, kind: Option<string>)
    requires Ascending(rows) && forall row :: row in rows ==> row.seqno >= 1
    ensures Increasing(Stream(rows, run, kind))
  {
    var s := Stream(rows, run, kind);
    CollectorTheorems.MatchingSelects(rows, run, Query(kind, None, 0));
    forall i | 0 <= i < |s| ensures s[i].run == run && s[i].seqno >= 1 { assert s[i] in s; }
  }

  /** Asking for what follows a cursor is filtering the whole stream by number. */
  function Above(stream: seq<Row>, after: nat): seq<Row> {
    if stream == [] then []
    else
      Above(stream[..|stream| - 1], after)
      + (if stream[|stream| - 1].seqno > after then [stream[|stream| - 1]] else [])
  }

  lemma {:induction false} MatchingIsAbove(rows: seq<Row>, run: RunId, kind: Option<string>, after: nat, limit: nat)
    ensures Matching(rows, run, Query(kind, Some(after), limit)) == Above(Stream(rows, run, kind), after)
  {
    if rows != [] {
      var init, last := rows[..|rows| - 1], rows[|rows| - 1];
      MatchingIsAbove(init, run, kind, after, limit);
      var s := Stream(rows, run, kind);
      if Wanted(last, run, Query(kind, None, 0)) {
        assert s[..|s| - 1] == Stream(init, run, kind);
      } else {
        assert s == Stream(init, run, kind);
      }
    }
  }

  lemma {:induction false} AboveIsRest(stream: seq<Row>, n: nat, after: nat)
    requires n <= |stream|
    requires forall i :: 0 <= i < n ==> stream[i].seqno <= after
    requires forall i :: n <= i < |stream| ==> stream[i].seqno > after
    ensures Above(stream, after) == stream[n..]
  {
    if stream != [] {
      var init := stream[..|stream| - 1];
      if n == |stream| {
        AboveIsRest(init, n - 1, after);
        assert Above(stream, after) == Above(init, after) + [];
        assert init[n - 1..] == [];
      } else {
        AboveIsRest(init, n, after);
        RestSnoc(stream, n);
      }
    }
  }

  lemma RestSnoc(stream: seq<Row>, n: nat)
    requires n < |stream|
    ensures stream[n..] == stream[..|stream| - 1][n..] + [stream[|stream| - 1]]
  {}

  /** The heart of paging: from the cursor after `n` rows, the service returns the rows
      that follow, whatever gaps the numbers have. */
  lemma PageIsNext(rows: seq<Row>, run: RunId, kind: Option<string>, n: nat, limit: nat)
    requires Ascending(rows) && forall row :: row in rows ==> row.seqno >= 1
    requires n <= |Stream(rows, run, kind)|
    ensures var s := Stream(rows, run, kind);
            Page(rows, run, Query(kind, Some(CursorAt(s, n)), limit)) == Clip(s[n..], limit)
  {
    var s := Stream(rows, run, kind);
    StreamIncreasing(rows, run, kind);
    MatchingIsAbove(rows, run, kind, CursorAt(s, n), limit);
    AboveIsRest(s, n, CursorAt(s, n));
  }

  /** New rows only lengthen the stream, so a cursor keeps its meaning. */
  lemma StreamExtends(rows: seq<Row>, more: seq<Row>, run: RunId, kind: Option<string>)
    requires rows <= more
    ensures Stream(rows, run, kind) <= Stream(more, run, kind)
  {
    assert more == rows + more[|rows|..];
    MatchingAppend(rows, more[|rows|..], run, Query(kind, None, 0));
  }

  /** One call, seen from a cursor that stands after `n` rows: the next rows of the stream
      as it is by then, all of the rest if the page is short. */
  method FetchNext(service: Service, run: RunId, kind: Option<string>, cursor: nat, limit: int, ghost n: nat)
    returns (reply: Option<seq<Row>>)
    requires service.Valid()
    requires n <= |Stream(service.rows, run, kind)| && cursor == CursorAt(Stream(service.rows, run, kind), n)
    modifies service
    ensures service.Valid() && old(service.rows) <= service.rows
    ensures if old(service.script) == [] then service.rows == old(service.rows) && service.script == []
            else service.script == old(service.script)[1..]
    ensures old(service.script) == [] && 1 <= limit <= MAX_LIMIT ==> reply.Some?
    ensures var s := Stream(service.rows, run, kind);
            && old(Stream(service.rows, run, kind)) <= s && Increasing(s)
            && (reply.Some? ==>
                  && 1 <= limit && |reply.value| <= limit && n + |reply.value| <= |s|
                  && reply.value == s[n..n + |reply.value|]
                  && (|reply.value| < limit ==> n + |reply.value| == |s|))
  {
    reply := service.Events(run, kind, cursor, limit);
    StreamExtends(old(service.rows), service.rows, run, kind);
    AscendingPrefix(service.rows, Arrivals(service.script));
    StreamIncreasing(service.rows, run, kind);
    if reply.Some? { PageIsNext(service.rows, run, kind, n, limit); }
  }

  /** The running maximum over a page of increasing numbers ends at its last. */
  function MaxOver(seed: nat, page: seq<Row>): nat {
    if page == [] then seed else Max(MaxOver(seed, page[..|page| - 1]), page[|page| - 1].seqno)
  }

  lemma {:induction false} MaxOverPage(stream: seq<Row>, n: nat, k: nat)
    requires Increasing(stream) && n + k <= |stream|
    ensures MaxOver(CursorAt(stream, n), stream[n..n + k]) == CursorAt(stream, n + k)
  {
    if k > 0 {
      var page := stream[n..n + k];
      assert page[..k - 1] == stream[n..n + k - 1];
      MaxOverPage(stream, n, k - 1);
    }
  }

  // ---------------------------------------------------------------------- export

  type Scope = Option<Row -> bool>

  predicate InScope(scope: Scope, row: Row) { scope.None? || scope.value(row) }

  /** The rows on one side of the scope. */
  function Only(rows: seq<Row>, scope: Scope, inside: bool): seq<Row> {
    if rows == [] then []
    else
      Only(rows[..|rows| - 1], scope, inside)
      + (if InScope(scope, rows[|rows| - 1]) == inside then [rows[|rows| - 1]] else [])
  }

  const HTTP_REQUEST := "http_request"

  // The three tallies count rows under a key; a row without a key is not counted.
  function KindKey(row: Row): Option<string> { Some(row.ev.kind) }

  function AppKey(row: Row): Option<string> { if row.ev.app == "" then None else Some(row.ev.app) }

  function RequestKey(row: Row): Option<string> {
    if row.ev.kind == HTTP_REQUEST && !row.ev.synthetic then AppKey(row) else None
  }

  function Having(rows: seq<Row>, key: Row -> Option<string>, k: string): nat {
    if rows == [] then 0
    else Having(rows[..|rows| - 1], key, k) + (if key(rows[|rows| - 1]) == Some(k) then 1 else 0)
  }

  function Get(m: map<string, nat>, k: string): nat { if k in m then m[k] else 0 }

  function Bump(m: map<string, nat>, key: Option<string>): map<string, nat> {
    if key.None? then m else m[key.value := Get(m, key.value) + 1]
  }

  /** The two files and the tallies of an export. */
  datatype Export = Export(lines: seq<Row>, outLines: seq<Row>, kept: nat, dropped: nat, tallies: Tallies,
                           lastSeq: nat, complete: bool)

  datatype Tallies = Tallies(byType: map<string, nat>, byApp: map<string, nat>, requestsByApp: map<string, nat>)

  function LastNumber(rows: seq<Row>): nat { if rows == [] then 0 else rows[|rows| - 1].seqno }

  ghost predicate Tallied(m: map<string, nat>, rows: seq<Row>, key: Row -> Option<string>) {
    forall k :: Get(m, k) == Having(rows, key, k)
  }

  ghost predicate TalliesShow(t: Tallies, rows: seq<Row>) {
    && Tallied(t.byType, rows, KindKey)
    && Tallied(t.byApp, rows, AppKey)
    && Tallied(t.requestsByApp, rows, RequestKey)
  }

  /** An export whose files and tallies say exactly that these rows were read. */
  ghost predicate Shows(e: Export, done: seq<Row>, scope: Scope, hasOut: bool) {
    && e.lines == Only(done, scope, true)
    && e.outLines == (if hasOut then Only(done, scope, false) else [])
    && e.kept == |Only(done, scope, true)|
    && e.dropped == |Only(done, scope, false)|
    && TalliesShow(e.tallies, e.lines)
    && e.lastSeq == LastNumber(done)
  }

  /** The tallies on the rows: by kind, by application where there is one, and of the organic
      requests by application. */
  lemma TalliesMeaning(t: Tallies, rows: seq<Row>, k: string)
    requires TalliesShow(t, rows)
    ensures (if k in t.byType then t.byType[k] else 0) == |set i | 0 <= i < |rows| && rows[i].ev.kind == k|
    ensures (if k in t.byApp then t.byApp[k] else 0) == |set i | 0 <= i < |rows| && rows[i].ev.app == k != ""|
    ensures (if k in t.requestsByApp then t.requestsByApp[k] else 0)
            == |set i | 0 <= i < |rows| && rows[i].ev.app == k != ""
                        && rows[i].ev.kind == "http_request" && !rows[i].ev.synthetic|
  {
    HavingCounts(rows, KindKey, k, set i | 0 <= i < |rows| && rows[i].ev.kind == k);
    HavingCounts(rows, AppKey, k, set i | 0 <= i < |rows| && rows[i].ev.app == k != "");
    HavingCounts(rows, RequestKey, k,
      set i | 0 <= i < |rows| && rows[i].ev.app == k != "" && rows[i].ev.kind == "http_request" && !rows[i].ev.synthetic);
    assert Get(t.byType, k) == Having(rows, KindKey, k) && Get(t.byApp, k) == Having(rows, AppKey, k);
    assert Get(t.requestsByApp, k) == Having(rows, RequestKey, k);
  }

  lemma {:induction false} HavingCounts(rows: seq<Row>, key: Row -> Option<string>, k: string, places: set<int>)
    requires forall i :: i in places <==> 0 <= i < |rows| && key(rows[i]) == Some(k)
    ensures Having(rows, key, k) == |places|
  {
    if rows == [] {
      assert forall i :: i !in places;
    } else {
      var n := |rows| - 1;
      HavingCounts(rows[..n], key, k, places - {n});
    }
  }

  /** One side of the scope: those rows of it, each as often as it was, in order. */
  lemma OnlyMeaning(rows: seq<Row>, scope: Scope, inside: bool)
    ensures Subsequence(Only(rows, scope, inside), rows)
    ensures |Only(rows, scope, inside)| == |set i | 0 <= i < |rows| && (scope.None? || scope.value(rows[i])) == inside|
    ensures forall row :: row in Only(rows, scope, inside) <==> row in rows && (scope.None? || scope.value(row)) == inside
  {
    OnlyInOrder(rows, scope, inside);
    OnlyCounts(rows, scope, inside, set i | 0 <= i < |rows| && (scope.None? || scope.value(rows[i])) == inside);
    OnlyHas(rows, scope, inside);
  }

  lemma {:induction false} OnlyInOrder(rows: seq<Row>, scope: Scope, inside: bool)
    ensures Subsequence(Only(rows, scope, inside), rows)
  {
    if rows != [] {
      var init, last := rows[..|rows| - 1], rows[|rows| - 1];
      OnlyInOrder(init, scope, inside);
      SubsequenceSnoc(Only(init, scope, inside), init, last);
      assert rows == init + [last] && Only(init, scope, inside) + [] == Only(init, scope, inside);
    }
  }

  lemma {:induction false} OnlyCounts(rows: seq<Row>, scope: Scope, inside: bool, places: set<int>)
    requires forall i :: i in places <==> 0 <= i < |rows| && InScope(scope, rows[i]) == inside
    ensures |Only(rows, scope, inside)| == |places|
  {
    if rows == [] {
      assert forall i :: i !in places;
    } else {
      OnlyCounts(rows[..|rows| - 1], scope, inside, places - {|rows| - 1});
    }
  }

  lemma {:induction false} OnlySplits(rows: seq<Row>, scope: Scope)
    ensures |Only(rows, scope, true)| + |Only(rows, scope, false)| == |rows|
  {
    if rows != [] { OnlySplits(rows[..|rows| - 1], scope); }
  }

  /** What one event does to the tallies. */
  function TallyRow(t: Tallies, row: Row): Tallies {
    Tallies(Bump(t.byType, KindKey(row)), Bump(t.byApp, AppKey(row)), Bump(t.requestsByApp, RequestKey(row)))
  }

  /** What one event does to the files and tallies. */
  function WriteRow(e: Export, row: Row, scope: Scope, hasOut: bool): Export {
    var f := e.(lastSeq := Max(e.lastSeq, row.seqno));
    if !InScope(scope, row) then
      f.(dropped := e.dropped + 1, outLines := if hasOut then e.outLines + [row] else e.outLines)
    else
      f.(lines := e.lines + [row], kept := e.kept + 1, tallies := TallyRow(e.tallies, row))
  }

  lemma OnlySnoc(done: seq<Row>, row: Row, scope: Scope, inside: bool)
    ensures Only(done + [row], scope, inside)
            == Only(done, scope, inside) + (if InScope(scope, row) == inside then [row] else [])
  {
    assert (done + [row])[..|done|] == done;
  }

  lemma BumpTallies(m: map<string, nat>, rows: seq<Row>, row: Row, key: Row -> Option<string>)
    requires Tallied(m, rows, key)
    ensures Tallied(Bump(m, key(row)), rows + [row], key)
  {
    assert (rows + [row])[..|rows|] == rows;
  }

  lemma TallyRowShows(t: Tallies, rows: seq<Row>, row: Row)
    requires TalliesShow(t, rows)
    ensures TalliesShow(TallyRow(t, row), rows + [row])
  {
    BumpTallies(t.byType, rows, row, KindKey);
    BumpTallies(t.byApp, rows, row, AppKey);
    BumpTallies(t.requestsByApp, rows, row, RequestKey);
  }

  lemma WriteRowShows(e: Export, done: seq<Row>, row: Row, scope: Scope, hasOut: bool)
    requires Shows(e, done, scope, hasOut) && LastNumber(done) < row.seqno
    ensures Shows(WriteRow(e, row, scope, hasOut), done + [row], scope, hasOut)
  {
    OnlySnoc(done, row, scope, true);
    OnlySnoc(done, row, scope, false);
    if InScope(scope, row) { TallyRowShows(e.tallies, e.lines, row); }
  }

  /** Row `i` of a page is the next number after all that was read before it. */
  lemma NextRow(done: seq<Row>, page: seq<Row>, i: nat)
    requires Increasing(done + page) && i < |page|
    ensures LastNumber(done + page[..i]) < page[i].seqno
    ensures done + page[..i + 1] == done + page[..i] + [page[i]]
  {
    var all := done + page;
    assert all[|done| + i] == page[i];
    if |done| + i > 0 { assert (done + page[..i])[|done| + i - 1] == all[|done| + i - 1]; }
  }

  method WritePage(e0: Export, page: seq<Row>, scope: Scope, hasOut: bool, ghost done: seq<Row>) returns (e: Export)
    requires Increasing(done + page) && Shows(e0, done, scope, hasOut)
    ensures Shows(e, done + page, scope, hasOut) && e.complete == e0.complete
  {
    e := e0;
    assert done + page[..0] == done;
    for i := 0 to |page|
      invariant Shows(e, done + page[..i], scope, hasOut) && e.complete == e0.complete
    {
      NextRow(done, page, i);
      WriteRowShows(e, done + page[..i], page[i], scope, hasOut);
      e := WriteRow(e, page[i], scope, hasOut);
    }
    assert page[..|page|] == page;
    if page != [] {
      var nextSeq := page[|page| - 1].seqno;
      e := e.(lastSeq := Max(e.lastSeq, nextSeq));
    }
  }

  lemma IncreasingPrefix(stream: seq<Row>, n: nat)
    requires Increasing(stream) && n <= |stream|
    ensures Increasing(stream[..n])
  {}

  /** The exporter's files against a stream: they show its first `n` rows. */
  ghost predicate Stands(e: Export, stream: seq<Row>, n: nat, scope: Scope, hasOut: bool) {
    n <= |stream| && Shows(e, stream[..n], scope, hasOut)
  }

  lemma StandsAtCursor(e: Export, stream: seq<Row>, n: nat, scope: Scope, hasOut: bool)
    requires Stands(e, stream, n, scope, hasOut)
    ensures e.lastSeq == CursorAt(stream, n)
  {
    if n > 0 { assert stream[..n][n - 1] == stream[n - 1]; }
  }

  lemma StandsLonger(e: Export, was: seq<Row>, stream: seq<Row>, n: nat, scope: Scope, hasOut: bool)
    requires Stands(e, was, n, scope, hasOut) && was <= stream
    ensures Stands(e, stream, n, scope, hasOut)
  {
    assert stream[..n] == was[..n];
  }

  /** A page that follows the first `n` rows, written. */
  method WriteNext(e0: Export, events: seq<Row>, scope: Scope, hasOut: bool, ghost stream: seq<Row>, ghost n: nat)
    returns (e: Export)
    requires Increasing(stream) && Stands(e0, stream, n, scope, hasOut)
    requires n + |events| <= |stream| && events == stream[n..n + |events|]
    ensures Stands(e, stream, n + |events|, scope, hasOut) && e.complete == e0.complete
  {
    IncreasingPrefix(stream, n + |events|);
    assert stream[..n] + events == stream[..n + |events|];
    e := WritePage(e0, events, scope, hasOut, stream[..n]);
  }

  /** One turn of the export loop. */
  method ExportPage(service: Service, run: RunId, page: int, e0: Export, scope: Scope, hasOut: bool, ghost n0: nat)
    returns (e: Export, failed: bool, last: bool, ghost n: nat)
    requires service.Valid() && Stands(e0, Stream(service.rows, run, None), n0, scope, hasOut)
    modifies service
    ensures service.Valid() && old(service.rows) <= service.rows
    ensures if old(service.script) == [] then service.rows == old(service.rows) && service.script == []
            else service.script == old(service.script)[1..]
    ensures Stands(e, Stream(service.rows, run, None), n, scope, hasOut) && n0 <= n && e.complete == e0.complete
    ensures old(service.script) == [] && 1 <= page <= MAX_LIMIT ==> !failed
    ensures !failed && last ==> n == |Stream(service.rows, run, None)|
    ensures !failed && !last ==> n > n0
  {
    ghost var was := Stream(service.rows, run, None);
    StandsAtCursor(e0, was, n0, scope, hasOut);
    var reply := FetchNext(service, run, None, e0.lastSeq, page, n0);
    ghost var stream := Stream(service.rows, run, None);
    StandsLonger(e0, was, stream, n0, scope, hasOut);
    e, failed, last, n := e0, reply.None?, true, n0;
    if !failed {
      var events := reply.value;
      e := WriteNext(e0, events, scope, hasOut, stream, n0);
      n := n0 + |events|;
      last := events == [] || |events| < page;
    }
  }

  /** The export loop. What is on disk is exactly the scan of the stream up to `lastSeq`,
      split by scope, in order; and unless a call failed, that is the whole stream. */
  method ExportEvents(service: Service, run: RunId, page: int, scope: Scope, hasOut: bool)
    returns (e: Export, ghost n: nat)
    requires service.Valid()
    modifies service
    ensures service.Valid() && old(service.rows) <= service.rows
    ensures Stands(e, Stream(service.rows, run, None), n, scope, hasOut)
    ensures e.kept + e.dropped == n
    ensures e.complete ==> n == |Stream(service.rows, run, None)|
    ensures old(service.script) == [] && 1 <= page <= MAX_LIMIT ==> e.complete
  {
    e, n := Export([], [], 0, 0, Tallies(map[], map[], map[]), 0, false), 0;
    while true
      invariant service.Valid() && old(service.rows) <= service.rows
      invariant Stands(e, Stream(service.rows, run, None), n, scope, hasOut) && !e.complete
      invariant old(service.script) == [] ==> service.script == []
      decreases |service.script|, |Stream(service.rows, run, None)| - n
    {
      var failed, last;
      e, failed, last, n := ExportPage(service, run, page, e, scope, hasOut, n);
      if failed { break; }
      if last {
        e := e.(complete := true);
        break;
      }
    }
    OnlySplits(Stream(service.rows, run, None)[..n], scope);
  }

  lemma {:induction false} StreamIsRows(rows: seq<Row>, run: RunId)
    ensures Stream(rows, run, None) == RowsOf(rows, run)
  {
    if rows != [] { StreamIsRows(rows[..|rows| - 1], run); }
  }

  lemma {:induction false} OnlyHas(rows: seq<Row>, scope: Scope, inside: bool)
    ensures forall row :: row in Only(rows, scope, inside) <==> row in rows && InScope(scope, row) == inside
  {
    if rows != [] {
      OnlyHas(rows[..|rows| - 1], scope, inside);
      assert rows == rows[..|rows| - 1] + [rows[|rows| - 1]];
    }
  }

  lemma {:induction false} RowsOfHave(rows: seq<Row>, run: RunId)
    ensures forall row :: row in RowsOf(rows, run) <==> row in rows && row.run == run
  {
    if rows != [] {
      RowsOfHave(rows[..|rows| - 1], run);
      assert rows == rows[..|rows| - 1] + [rows[|rows| - 1]];
    }
  }

  lemma {:induction false} StoredRowsHave(fates: seq<Fate>)
    ensures forall row :: row in StoredRows(fates) <==> Stored(row) in fates
  {
    if fates != [] {
      StoredRowsHave(fates[..|fates| - 1]);
      assert fates == fates[..|fates| - 1] + [fates[|fates| - 1]];
    }
  }

  /** The rows of a closed run do not change any more, and a complete export shows them all. */
  lemma ClosedExportShows(cfg: Settings, s: State, p: PageRead, steps: seq<Step>, t: State,
                          e: Export, scope: Scope, hasOut: bool)
    requires Inv(s) && p in s.pages && p.afterClose && Runs(cfg, s, steps, t)
    requires var stream := Stream(t.events, p.run, None); Stands(e, stream, |stream|, scope, hasOut)
    ensures Shows(e, RowsOf(s.events, p.run), scope, hasOut)
  {
    CollectorTheorems.ExportIsFinal(cfg, s, steps, t, p);
    StreamIsRows(t.events, p.run);
    var stream := Stream(t.events, p.run, None);
    assert stream[..|stream|] == stream;
  }

  /** From the target to the published record. Let `p` be a page of a run read by a request
      that came after the run's close, as every page of an export at close is. In a complete
      export then or at any later moment, a row of the run is in the first file exactly if
      it was stored and is in scope, and in the second, if there is one, exactly if it was
      stored and is out of scope. */
  lemma ClosedExportIsWhole(cfg: Settings, s: State, p: PageRead, steps: seq<Step>, t: State,
                            e: Export, scope: Scope, hasOut: bool)
    requires Reachable(cfg, s) && p in s.pages && p.afterClose && Runs(cfg, s, steps, t)
    requires var stream := Stream(t.events, p.run, None); Stands(e, stream, |stream|, scope, hasOut)
    ensures forall row :: row in e.lines <==> Stored(row) in s.settled && row.run == p.run && InScope(scope, row)
    ensures hasOut ==>
              forall row :: row in e.outLines <==> Stored(row) in s.settled && row.run == p.run && !InScope(scope, row)
    ensures !hasOut ==> e.outLines == []
  {
    InvAlways(cfg, s);
    ClosedExportShows(cfg, s, p, steps, t, e, scope, hasOut);
    var own := RowsOf(s.events, p.run);
    OnlyHas(own, scope, true);
    OnlyHas(own, scope, false);
    RowsOfHave(s.events, p.run);
    StoredRowsHave(s.settled);
  }

  /** And every event ever accepted for the run has been accounted for by then: its row was
      read into the export, its write failed, or a crash took it. */
  lemma ClosedExportAccounts(cfg: Settings, s: State, p: PageRead, steps: seq<Step>, t: State,
                             e: Export, scope: Scope, hasOut: bool)
    requires Reachable(cfg, s) && p in s.pages && p.afterClose && Runs(cfg, s, steps, t)
    requires var stream := Stream(t.events, p.run, None); Stands(e, stream, |stream|, scope, hasOut)
    ensures CollectorTheorems.OfRun(t.accepted, p.run) == CollectorTheorems.OfRun(Decided(s.settled), p.run)
    ensures e.kept + e.dropped + CollectorTheorems.NotStored(s.settled, p.run)
            == |CollectorTheorems.OfRun(t.accepted, p.run)|
  {
    CollectorTheorems.ExportAfterClose(cfg, s, p);
    InvAlways(cfg, s);
    ClosedExportShows(cfg, s, p, steps, t, e, scope, hasOut);
    OnlySplits(RowsOf(s.events, p.run), scope);
    assert PageInv(s, p);
    CollectorTheorems.ClosedIsFrozen(cfg, s, steps, t, p.run);
  }

  // ------------------------------------------------------------- counting requests

  function Organic(rows: seq<Row>): nat {
    if rows == [] then 0 else Organic(rows[..|rows| - 1]) + (if rows[|rows| - 1].ev.synthetic then 0 else 1)
  }

  lemma {:induction false} OrganicAppend(a: seq<Row>, b: seq<Row>)
    ensures Organic(a + b) == Organic(a) + Organic(b)
  {
    if b == [] {
      assert a + b == a;
    } else {
      assert (a + b)[..|a + b| - 1] == a + b[..|b| - 1];
      OrganicAppend(a, b[..|b| - 1]);
    }
  }

  /** A cursor and a count that agree: the count is that of the requests up to the cursor. */
  ghost predicate InStep(rows: seq<Row>, run: RunId, cursor: nat, count: nat) {
    exists n: nat :: StandsAt(Stream(rows, run, Some(HTTP_REQUEST)), n, cursor, count)
  }

  /** Cursor and count stand behind the first `n` rows. */
  ghost predicate StandsAt(stream: seq<Row>, n: nat, cursor: nat, count: nat) {
    n <= |stream| && cursor == CursorAt(stream, n) && count == Organic(stream[..n])
  }

  lemma StandsStill(was: seq<Row>, stream: seq<Row>, n: nat, cursor: nat, count: nat)
    requires was <= stream && StandsAt(was, n, cursor, count)
    ensures StandsAt(stream, n, cursor, count)
  {
    assert stream[..n] == was[..n];
  }

  lemma InStepGrows(rows: seq<Row>, more: seq<Row>, run: RunId, cursor: nat, count: nat)
    requires rows <= more && InStep(rows, run, cursor, count)
    ensures InStep(more, run, cursor, count)
  {
    var s, t := Stream(rows, run, Some(HTTP_REQUEST)), Stream(more, run, Some(HTTP_REQUEST));
    StreamExtends(rows, more, run, Some(HTTP_REQUEST));
    var n: nat :| StandsAt(s, n, cursor, count);
    StandsStill(s, t, n, cursor, count);
  }

  /** An organic request of a run, as it is stored. */
  predicate OrganicRequest(row: Row, run: RunId) {
    row.run == run && row.ev.kind == "http_request" && !row.ev.synthetic
  }

  /** The number of organic requests of a run in a table. */
  ghost function RequestsIn(rows: seq<Row>, run: RunId): nat {
    |set i | 0 <= i < |rows| && OrganicRequest(rows[i], run)|
  }

  /** And of those up to a number. */
  ghost function RequestsUpTo(rows: seq<Row>, run: RunId, seqno: nat): nat {
    |set i | 0 <= i < |rows| && OrganicRequest(rows[i], run) && rows[i].seqno <= seqno|
  }

  lemma RequestsSnoc(rows: seq<Row>, row: Row, run: RunId)
    ensures RequestsIn(rows + [row], run) == RequestsIn(rows, run) + (if OrganicRequest(row, run) then 1 else 0)
  {
    var all := rows + [row];
    var before := set i | 0 <= i < |rows| && OrganicRequest(rows[i], run);
    var after := set i | 0 <= i < |all| && OrganicRequest(all[i], run);
    assert after == before + (if OrganicRequest(row, run) then {|rows|} else {});
  }

  lemma RequestsUpToSnoc(rows: seq<Row>, row: Row, run: RunId, seqno: nat)
    ensures RequestsUpTo(rows + [row], run, seqno)
            == RequestsUpTo(rows, run, seqno) + (if OrganicRequest(row, run) && row.seqno <= seqno then 1 else 0)
  {
    var all := rows + [row];
    var before := set i | 0 <= i < |rows| && OrganicRequest(rows[i], run) && rows[i].seqno <= seqno;
    var after := set i | 0 <= i < |all| && OrganicRequest(all[i], run) && all[i].seqno <= seqno;
    assert after == before + (if OrganicRequest(row, run) && row.seqno <= seqno then {|rows|} else {});
  }

  /** The organic rows of the stream are the organic requests of the table. */
  lemma {:induction false} OrganicIsRequests(rows: seq<Row>, run: RunId)
    ensures Organic(Stream(rows, run, Some(HTTP_REQUEST))) == RequestsIn(rows, run)
  {
    if rows != [] {
      var init, last := rows[..|rows| - 1], rows[|rows| - 1];
      OrganicIsRequests(init, run);
      RequestsSnoc(init, last, run);
      assert rows == init + [last];
      OneMoreInStream(init, last, run);
    }
  }

  lemma OneMoreInStream(rows: seq<Row>, row: Row, run: RunId)
    ensures Stream(rows + [row], run, Some(HTTP_REQUEST))
            == Stream(rows, run, Some(HTTP_REQUEST))
               + (if row.run == run && row.ev.kind == "http_request" then [row] else [])
    ensures Organic(Stream(rows + [row], run, Some(HTTP_REQUEST)))
            == Organic(Stream(rows, run, Some(HTTP_REQUEST))) + (if OrganicRequest(row, run) then 1 else 0)
  {
    assert (rows + [row])[..|rows|] == rows;
    var s := Stream(rows, run, Some(HTTP_REQUEST));
    assert (s + [row])[..|s|] == s && s + [] == s;
  }

  /** Up to a number: the rows of the stream that do not lie above it. */
  function NotAbove(stream: seq<Row>, seqno: nat): seq<Row> {
    if stream == [] then []
    else
      NotAbove(stream[..|stream| - 1], seqno)
      + (if stream[|stream| - 1].seqno <= seqno then [stream[|stream| - 1]] else [])
  }

  lemma {:induction false} NotAboveIsPrefix(stream: seq<Row>, n: nat, seqno: nat)
    requires n <= |stream|
    requires forall i :: 0 <= i < |stream| ==> (stream[i].seqno <= seqno <==> i < n)
    ensures NotAbove(stream, seqno) == stream[..n]
  {
    if stream != [] {
      var init := stream[..|stream| - 1];
      NotAboveIsPrefix(init, if n < |stream| then n else n - 1, seqno);
      if n == |stream| {
        assert stream[..n] == init[..n - 1] + [stream[n - 1]];
      } else {
        assert init[..n] == stream[..n] && NotAbove(init, seqno) + [] == NotAbove(init, seqno);
      }
    }
  }

  lemma {:induction false} OrganicUpTo(rows: seq<Row>, run: RunId, seqno: nat)
    ensures Organic(NotAbove(Stream(rows, run, Some(HTTP_REQUEST)), seqno)) == RequestsUpTo(rows, run, seqno)
  {
    if rows != [] {
      var init, last := rows[..|rows| - 1], rows[|rows| - 1];
      OrganicUpTo(init, run, seqno);
      RequestsUpToSnoc(init, last, run, seqno);
      assert rows == init + [last];
      OneMoreInStream(init, last, run);
      OneMoreNotAbove(Stream(init, run, Some(HTTP_REQUEST)), last, seqno);
    }
  }

  lemma OneMoreNotAbove(s: seq<Row>, row: Row, seqno: nat)
    ensures Organic(NotAbove(s + [row], seqno))
            == Organic(NotAbove(s, seqno)) + (if !row.ev.synthetic && row.seqno <= seqno then 1 else 0)
    ensures s + [] == s
  {
    assert (s + [row])[..|s|] == s;
    var below := NotAbove(s, seqno);
    assert (below + [row])[..|below|] == below && below + [] == below;
  }

  /** Cursor and count in step, on the table: the count is the number of organic requests of
      the run whose number is not above the cursor. */
  lemma InStepMeaning(rows: seq<Row>, run: RunId, cursor: nat, count: nat)
    requires Ascending(rows) && (forall row :: row in rows ==> row.seqno >= 1) && InStep(rows, run, cursor, count)
    ensures count == RequestsUpTo(rows, run, cursor)
  {
    var s := Stream(rows, run, Some(HTTP_REQUEST));
    StreamIncreasing(rows, run, Some(HTTP_REQUEST));
    var n: nat :| StandsAt(s, n, cursor, count);
    NotAboveIsPrefix(s, n, cursor);
    OrganicUpTo(rows, run, cursor);
  }

  class CollectorClient {
    var seqCursor: map<RunId, nat>
    var requestCounts: map<RunId, nat>

    /** Every stored cursor agrees with its count, over the rows stored by now. */
    ghost predicate Valid(rows: seq<Row>)
      reads this
    {
      && seqCursor.Keys == requestCounts.Keys
      && forall r :: r in seqCursor ==> InStep(rows, r, seqCursor[r], requestCounts[r])
    }

    constructor ()
      ensures Valid([]) && seqCursor == map[]
    {
      seqCursor, requestCounts := map[], map[];
    }

    /** Count the run's organic requests, fetching only what is new. Whatever fails and
        whatever arrives, cursor and count stay in step for every run; and when no call
        failed the answer is the exact number stored. */
    method CountHttpRequests(service: Service, run: RunId, page: int) returns (total: nat, ghost complete: bool)
      requires service.Valid() && Valid(service.rows)
      modifies this, service
      ensures service.Valid() && Valid(service.rows) && old(service.rows) <= service.rows
      ensures run in requestCounts && run in seqCursor && total == requestCounts[run]
      ensures forall r :: r in old(seqCursor) && r != run ==>
                r in seqCursor && seqCursor[r] == old(seqCursor)[r] && requestCounts[r] == old(requestCounts)[r]
      ensures complete ==> total == RequestsIn(service.rows, run)
      ensures total == RequestsUpTo(service.rows, run, seqCursor[run])
      ensures old(service.script) == [] && 1 <= page <= MAX_LIMIT ==> complete
    {
      var seqno := if run in seqCursor then seqCursor[run] else 0;
      total := if run in requestCounts then requestCounts[run] else 0;
      ghost var n: nat := Start(service.rows, run);
      seqno, total, complete, n := CountFrom(service, run, page, seqno, total, n);
      Remember(old(service.rows), service.rows, run, seqno, total, n);
      CountMeans(service.rows, Arrivals(service.script), run, seqno, total);
      seqCursor := seqCursor[run := seqno];
      requestCounts := requestCounts[run := total];
    }

    lemma CountMeans(rows: seq<Row>, arrivals: seq<Row>, run: RunId, seqno: nat, total: nat)
      requires Ascending(rows + arrivals) && forall row :: row in rows + arrivals ==> row.seqno >= 1
      requires InStep(rows, run, seqno, total)
      ensures total == RequestsUpTo(rows, run, seqno)
      ensures total == Organic(Stream(rows, run, Some(HTTP_REQUEST))) ==> total == RequestsIn(rows, run)
    {
      OrganicIsRequests(rows, run);
      AscendingPrefix(rows, arrivals);
      InStepMeaning(rows, run, seqno, total);
    }

    /** Where the stored cursor stands, or the beginning. */
    ghost method Start(rows: seq<Row>, run: RunId) returns (n: nat)
      requires Valid(rows)
      ensures StandsAt(Stream(rows, run, Some(HTTP_REQUEST)), n,
                       if run in seqCursor then seqCursor[run] else 0,
                       if run in requestCounts then requestCounts[run] else 0)
    {
      if run in seqCursor {
        assert InStep(rows, run, seqCursor[run], requestCounts[run]);
        n :| StandsAt(Stream(rows, run, Some(HTTP_REQUEST)), n, seqCursor[run], requestCounts[run]);
      } else {
        n := 0;
      }
    }

    /** The new cursor is in step, and the others stay so over the longer table. */
    lemma Remember(rows: seq<Row>, more: seq<Row>, run: RunId, seqno: nat, total: nat, n: nat)
      requires Valid(rows) && rows <= more
      requires StandsAt(Stream(more, run, Some(HTTP_REQUEST)), n, seqno, total)
      ensures InStep(more, run, seqno, total)
      ensures forall r :: r in seqCursor ==> InStep(more, r, seqCursor[r], requestCounts[r])
    {
      forall r | r in seqCursor ensures InStep(more, r, seqCursor[r], requestCounts[r]) {
        InStepGrows(rows, more, r, seqCursor[r], requestCounts[r]);
      }
    }
  }

  /** The loop of the count, from a cursor that stands after `n0` requests. */
  method CountFrom(service: Service, run: RunId, page: int, seqno0: nat, total0: nat, ghost n0: nat)
    returns (seqno: nat, total: nat, ghost complete: bool, ghost n: nat)
    requires service.Valid()
    requires StandsAt(Stream(service.rows, run, Some(HTTP_REQUEST)), n0, seqno0, total0)
    modifies service
    ensures service.Valid() && old(service.rows) <= service.rows
    ensures var s := Stream(service.rows, run, Some(HTTP_REQUEST));
            && StandsAt(s, n, seqno, total) && (complete ==> n == |s| && total == Organic(s))
    ensures old(service.script) == [] && 1 <= page <= MAX_LIMIT ==> complete
  {
    seqno, total, complete, n := seqno0, total0, false, n0;
    while true
      invariant service.Valid() && old(service.rows) <= service.rows && !complete
      invariant StandsAt(Stream(service.rows, run, Some(HTTP_REQUEST)), n, seqno, total)
      invariant old(service.script) == [] ==> service.script == []
      decreases |service.script|, |Stream(service.rows, run, Some(HTTP_REQUEST))| - n
    {
      ghost var was := Stream(service.rows, run, Some(HTTP_REQUEST));
      var reply := FetchNext(service, run, Some(HTTP_REQUEST), seqno, page, n);
      ghost var stream := Stream(service.rows, run, Some(HTTP_REQUEST));
      StandsStill(was, stream, n, seqno, total);
      if reply.None? { break; }
      var events := reply.value;
      seqno, total := TallyPage(events, seqno, total, stream, n);
      n := n + |events|;
      if events == [] || |events| < page {
        complete := true;
        assert stream[..n] == stream;
        break;
      }
    }
  }

  /** A page that follows the first `n` requests moves cursor and count over it. */
  method TallyPage(events: seq<Row>, seqno0: nat, total0: nat, ghost stream: seq<Row>, ghost n: nat)
    returns (seqno: nat, total: nat)
    requires Increasing(stream) && n + |events| <= |stream| && events == stream[n..n + |events|]
    requires StandsAt(stream, n, seqno0, total0)
    ensures StandsAt(stream, n + |events|, seqno, total)
  {
    seqno, total := Tally(events, seqno0, total0);
    TallyAdvances(stream, n, |events|);
    if events != [] { seqno := Max(seqno, events[|events| - 1].seqno); }
  }

  lemma TallyAdvances(stream: seq<Row>, n: nat, k: nat)
    requires Increasing(stream) && n + k <= |stream|
    ensures Organic(stream[..n + k]) == Organic(stream[..n]) + Organic(stream[n..n + k])
    ensures MaxOver(CursorAt(stream, n), stream[n..n + k]) == CursorAt(stream, n + k)
  {
    OrganicAppend(stream[..n], stream[n..n + k]);
    assert stream[..n] + stream[n..n + k] == stream[..n + k];
    MaxOverPage(stream, n, k);
  }

  /** The page loops of the count: sum the organic ones, keep the largest number. */
  method Tally(events: seq<Row>, seqno0: nat, total0: nat) returns (seqno: nat, total: nat)
    ensures total == total0 + Organic(events) && seqno == MaxOver(seqno0, events)
  {
    seqno, total := seqno0, total0;
    for i := 0 to |events|
      invariant total == total0 + Organic(events[..i]) && seqno == MaxOver(seqno0, events[..i])
    {
      assert events[..i + 1][..i] == events[..i];
      if !events[i].ev.synthetic { total := total + 1; }
      seqno := Max(seqno, events[i].seqno);
    }
    assert events[..|events|] == events;
  }
}
