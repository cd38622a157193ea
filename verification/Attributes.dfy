/**
 Flattening a decoded document into described inputs: the .NET accumulator, bounded and
 de-duplicating, and the Node one, bounded with early exits. Both are proved against the
 same full list of leaves.
 */
module Attributes {
  import opened Common

  // -------------------------------------------------------------------- leaves

  /** A decoded document. Containers also carry their raw text, which is what is described
      when the nesting bound is reached. */
  datatype Json = Leaf(text: string) | Obj(props: seq<Prop>, raw: string) | Arr(items: seq<Json>, raw: string)

  datatype Prop = Prop(name: string, value: Json)

  datatype Path = Path(name: string, text: string)

  function Digits(n: nat): string {
    if n < 10 then ["0123456789"[n]] else Digits(n / 10) + ["0123456789"[n % 10]]
  }

  function Under(prefix: string, key: string): string {
    if prefix == "" then key else prefix + "." + key
  }

  function Named(prefix: string): string { if prefix == "" then "body" else prefix }

  function RawText(j: Json): string { if j.Leaf? then j.text else j.raw }

  /** One entry per leaf under its dotted path; an empty container is a leaf. */
  function Leaves(j: Json, prefix: string, maxDepth: int, depth: int): seq<Path>
    decreases j, 1
  {
    if depth < maxDepth && j.Obj? then
      if j.props == [] then [Path(Named(prefix), "{}")] else LeavesOfProps(j.props, prefix, maxDepth, depth + 1)
    else if depth < maxDepth && j.Arr? then
      if j.items == [] then [Path(Named(prefix), "[]")] else LeavesOfItems(j.items, 0, prefix, maxDepth, depth + 1)
    else [Path(Named(prefix), RawText(j))]
  }

  function LeavesOfProps(props: seq<Prop>, prefix: string, maxDepth: int, depth: int): seq<Path>
    decreases props, 0
  {
    if props == [] then []
    else
      Leaves(props[0].value, Under(prefix, props[0].name), maxDepth, depth)
      + LeavesOfProps(props[1..], prefix, maxDepth, depth)
  }

  /** `first` is the index the first of `items` has in its array. */
  function LeavesOfItems(items: seq<Json>, first: nat, prefix: string, maxDepth: int, depth: int): seq<Path>
    decreases items, 0
  {
    if items == [] then []
    else
      Leaves(items[0], Under(prefix, Digits(first)), maxDepth, depth)
      + LeavesOfItems(items[1..], first + 1, prefix, maxDepth, depth)
  }

  // -------------------------------------------------------- the .NET accumulator

  datatype ParamEntry = ParamEntry(name: string, location: string, sha: Option<string>)

  function Key(e: ParamEntry): string {
    e.location + " " + e.name + " " + (if e.sha.Some? then e.sha.value else "")
  }

  /** Locations are fixed words and digests are hex: neither holds a space. */
  predicate Keyable(e: ParamEntry) { ' ' !in e.location && (e.sha.Some? ==> ' ' !in e.sha.value) }

  lemma SplitAtFirstSpace(a: string, x: string, b: string, y: string)
    requires ' ' !in a && ' ' !in b && a + " " + x == b + " " + y
    ensures a == b && x == y
  {
    var s := a + " " + x;
    assert s[|a|] == ' ' && s[|b|] == ' ';
    forall i | 0 <= i < |a| ensures s[i] != ' ' { assert s[i] == a[i] && a[i] in a; }
    forall i | 0 <= i < |b| ensures s[i] != ' ' { assert s[i] == b[i] && b[i] in b; }
    assert |a| == |b|;
    assert s[..|a|] == a == b && s[|a| + 1..] == x == y;
  }

  lemma SplitAtLastSpace(x: string, a: string, y: string, b: string)
    requires ' ' !in a && ' ' !in b && x + " " + a == y + " " + b
    ensures a == b && x == y
  {
    var s := x + " " + a;
    assert s[|x|] == ' ' && s[|y|] == ' ';
    forall i | |x| < i < |s| ensures s[i] != ' ' { assert s[i] == a[i - |x| - 1] && s[i] in a; }
    forall i | |y| < i < |s| ensures s[i] != ' ' { assert s[i] == b[i - |y| - 1] && s[i] in b; }
    assert |x| == |y|;
    assert s[..|x|] == x == y && s[|x| + 1..] == a == b;
  }

  function ShaText(e: ParamEntry): string { if e.sha.Some? then e.sha.value else "" }

  /** The joined key stands for the triple: names may hold spaces, and still no two
      different inputs share a key. */
  lemma KeyIsInjective(d: ParamEntry, e: ParamEntry)
    requires Keyable(d) && Keyable(e)
    ensures Key(d) == Key(e) <==> d.location == e.location && d.name == e.name && ShaText(d) == ShaText(e)
  {
    if Key(d) == Key(e) {
      assert Key(d) == d.location + " " + (d.name + " " + ShaText(d));
      assert Key(e) == e.location + " " + (e.name + " " + ShaText(e));
      SplitAtFirstSpace(d.location, d.name + " " + ShaText(d), e.location, e.name + " " + ShaText(e));
      SplitAtLastSpace(d.name, ShaText(d), e.name, ShaText(e));
    }
  }

  predicate HasKey(es: seq<ParamEntry>, key: string) { exists i :: 0 <= i < |es| && Key(es[i]) == key }

  /** The first occurrence of every key, in order. */
  function Firsts(adds: seq<ParamEntry>): seq<ParamEntry> {
    if adds == [] then []
    else
      var init, last := adds[..|adds| - 1], adds[|adds| - 1];
      Firsts(init) + (if HasKey(init, Key(last)) then [] else [last])
  }

  lemma {:induction false} FirstsHaveAllKeys(adds: seq<ParamEntry>, key: string)
    ensures HasKey(Firsts(adds), key) <==> HasKey(adds, key)
  {
    if adds != [] {
      var init, last := adds[..|adds| - 1], adds[|adds| - 1];
      FirstsHaveAllKeys(init, key);
      HasKeySnoc(init, last, key);
      HasKeySnoc(Firsts(init), last, key);
      assert init + [last] == adds && Firsts(init) + [] == Firsts(init);
    }
  }

  lemma HasKeySnoc(es: seq<ParamEntry>, e: ParamEntry, key: string)
    ensures HasKey(es + [e], key) <==> HasKey(es, key) || Key(e) == key
  {
    if HasKey(es, key) {
      var i :| 0 <= i < |es| && Key(es[i]) == key;
      assert (es + [e])[i] == es[i];
    }
    assert (es + [e])[|es|] == e;
  }

  /** What one more `Add` does to the first occurrences. */
  lemma FirstsSnoc(adds: seq<ParamEntry>, e: ParamEntry)
    ensures Firsts(adds + [e]) == Firsts(adds) + (if HasKey(adds, Key(e)) then [] else [e])
  {
    assert (adds + [e])[..|adds|] == adds;
  }

  /** Some `Add` came when the bound had been reached. */
  predicate AddedBeyond(adds: seq<ParamEntry>, max: nat) {
    adds != [] && |Firsts(adds[..|adds| - 1])| >= max
  }

  /** Everything about first occurrences is distinct and nothing distinct is missing. */
  lemma {:induction false} FirstsAreDistinct(adds: seq<ParamEntry>)
    ensures forall i, j :: 0 <= i < j < |Firsts(adds)| ==> Key(Firsts(adds)[i]) != Key(Firsts(adds)[j])
    ensures Subsequence(Firsts(adds), adds)
  {
    if adds != [] {
      var init, last := adds[..|adds| - 1], adds[|adds| - 1];
      FirstsAreDistinct(init);
      FirstsHaveAllKeys(init, Key(last));
      SubsequenceSnoc(Firsts(init), init, last);
      assert init + [last] == adds && Firsts(init) + [] == Firsts(init);
    }
  }

  class ParamCollector {
    const max: nat
    const digest: string -> string
    var entries: seq<ParamEntry>
    var seen: set<string>
    var truncated: bool
    ghost var adds: seq<ParamEntry>

    /** The entries are the first `max` first occurrences of everything added, and the flag
        says exactly that some `Add` came after the bound was reached. */
    ghost predicate Valid()
      reads this
    {
      && max >= 1
      && entries == Clip(Firsts(adds), max)
      && (forall k :: k in seen <==> HasKey(entries, k))
      && truncated == AddedBeyond(adds, max)
    }

    constructor (maxEntries: int, digest: string -> string)
      ensures Valid() && adds == [] && max == Max(1, maxEntries) && this.digest == digest
    {
      max, this.digest := if maxEntries < 1 then 1 else maxEntries, digest;
      entries, seen, truncated, adds := [], {}, false, [];
    }

    function Describe(name: string, location: string, value: string): ParamEntry {
      ParamEntry(name, location, Some(digest(value)))
    }

    method AddEntry(entry: ParamEntry)
      requires Valid()
      modifies `entries, `seen, `truncated, `adds
      ensures Valid() && adds == old(adds) + [entry]
    {
      FirstsSnoc(adds, entry);
      assert (adds + [entry])[..|adds|] == adds;
      ghost var before := adds;
      adds := adds + [entry];
      if |entries| >= max {
        truncated := true;
        return;
      }
      BelowBoundMeansNoTruncation(before, max);
      FirstsHaveAllKeys(before, Key(entry));
      var key := Key(entry);
      if key in seen { return; }
      HasKeySnocAll(entries, entry);
      seen := seen + {key};
      entries := entries + [entry];
    }

    method Add(name: string, location: string, value: string)
      requires Valid()
      modifies `entries, `seen, `truncated, `adds
      ensures Valid() && adds == old(adds) + [Describe(name, location, value)]
    {
      AddEntry(Describe(name, location, value));
    }

    /** One described input per leaf, in document order. */
    function DescribeAll(paths: seq<Path>, location: string): seq<ParamEntry> {
      seq(|paths|, i requires 0 <= i < |paths| => Describe(paths[i].name, location, paths[i].text))
    }

    /** One described input for each leaf: its name, the location, and a digest of its text. */
    lemma DescribedAre(paths: seq<Path>, location: string)
      ensures |DescribeAll(paths, location)| == |paths|
      ensures forall i :: 0 <= i < |paths| ==>
                DescribeAll(paths, location)[i] == ParamEntry(paths[i].name, location, Some(digest(paths[i].text)))
    {}

    lemma DescribeAppend(a: seq<Path>, b: seq<Path>, location: string)
      ensures DescribeAll(a + b, location) == DescribeAll(a, location) + DescribeAll(b, location)
    {}

    lemma DescribedMore(start: seq<ParamEntry>, before: seq<ParamEntry>, after: seq<ParamEntry>,
                        done: seq<Path>, here: seq<Path>, location: string)
      requires before == start + DescribeAll(done, location) && after == before + DescribeAll(here, location)
      ensures after == start + DescribeAll(done + here, location)
    {
      DescribeAppend(done, here, location);
    }

    /** Flattening adds exactly the leaves, so that the entries are the first `max` distinct
        ones of everything added before and of the leaves. */
    method Flatten(element: Json, location: string, prefix: string, maxDepth: int, depth: int)
      requires Valid()
      modifies `entries, `seen, `truncated, `adds
      ensures Valid() && adds == old(adds) + DescribeAll(Leaves(element, prefix, maxDepth, depth), location)
      decreases element, 1
    {
      if depth < maxDepth && element.Obj? {
        if element.props == [] {
          Add(if prefix == "" then "body" else prefix, location, "{}");
        } else {
          FlattenProps(element.props, location, prefix, maxDepth, depth + 1);
        }
      } else if depth < maxDepth && element.Arr? {
        if element.items == [] {
          Add(if prefix == "" then "body" else prefix, location, "[]");
        } else {
          FlattenItems(element.items, location, prefix, maxDepth, depth + 1);
        }
      } else {
        Add(if prefix == "" then "body" else prefix, location, RawText(element));
      }
    }

    method FlattenProps(props: seq<Prop>, location: string, prefix: string, maxDepth: int, depth: int)
      requires Valid()
      modifies `entries, `seen, `truncated, `adds
      ensures Valid() && adds == old(adds) + DescribeAll(LeavesOfProps(props, prefix, maxDepth, depth), location)
      decreases props, 0
    {
      ghost var done: seq<Path> := [];
      ghost var all := LeavesOfProps(props, prefix, maxDepth, depth);
      assert props[0..] == props;
      for i := 0 to |props|
        invariant Valid() && done + LeavesOfProps(props[i..], prefix, maxDepth, depth) == all
        invariant adds == old(adds) + DescribeAll(done, location)
      {
        var path := if prefix == "" then props[i].name else prefix + "." + props[i].name;
        ghost var here := PropsTurn(props, i, prefix, maxDepth, depth, done);
        ghost var before := adds;
        Flatten(props[i].value, location, path, maxDepth, depth);
        assert adds == before + DescribeAll(here, location);
        DescribedMore(old(adds), before, adds, done, here, location);
        done := done + here;
      }
      assert done + [] == done;
    }

    method FlattenItems(items: seq<Json>, location: string, prefix: string, maxDepth: int, depth: int)
      requires Valid()
      modifies `entries, `seen, `truncated, `adds
      ensures Valid() && adds == old(adds) + DescribeAll(LeavesOfItems(items, 0, prefix, maxDepth, depth), location)
      decreases items, 0
    {
      ghost var done: seq<Path> := [];
      ghost var all := LeavesOfItems(items, 0, prefix, maxDepth, depth);
      assert items[0..] == items;
      for index := 0 to |items|
        invariant Valid() && done + LeavesOfItems(items[index..], index, prefix, maxDepth, depth) == all
        invariant adds == old(adds) + DescribeAll(done, location)
      {
        var path := if prefix == "" then Digits(index) else prefix + "." + Digits(index);
        ghost var here := ItemsTurn(items, index, prefix, maxDepth, depth, done);
        ghost var before := adds;
        Flatten(items[index], location, path, maxDepth, depth);
        assert adds == before + DescribeAll(here, location);
        DescribedMore(old(adds), before, adds, done, here, location);
        done := done + here;
      }
      assert done + [] == done;
    }
  }

  lemma PropsTurn(props: seq<Prop>, i: nat, prefix: string, maxDepth: int, depth: int, done: seq<Path>)
    returns (here: seq<Path>)
    requires i < |props|
    ensures here == Leaves(props[i].value, Under(prefix, props[i].name), maxDepth, depth)
    ensures done + LeavesOfProps(props[i..], prefix, maxDepth, depth)
            == done + here + LeavesOfProps(props[i + 1..], prefix, maxDepth, depth)
  {
    here := Leaves(props[i].value, Under(prefix, props[i].name), maxDepth, depth);
    assert props[i..][1..] == props[i + 1..];
  }

  lemma ItemsTurn(items: seq<Json>, i: nat, prefix: string, maxDepth: int, depth: int, done: seq<Path>)
    returns (here: seq<Path>)
    requires i < |items|
    ensures here == Leaves(items[i], Under(prefix, Digits(i)), maxDepth, depth)
    ensures done + LeavesOfItems(items[i..], i, prefix, maxDepth, depth)
            == done + here + LeavesOfItems(items[i + 1..], i + 1, prefix, maxDepth, depth)
  {
    here := Leaves(items[i], Under(prefix, Digits(i)), maxDepth, depth);
    assert items[i..][1..] == items[i + 1..];
  }

  lemma HasKeySnocAll(es: seq<ParamEntry>, e: ParamEntry)
    ensures forall key :: HasKey(es + [e], key) <==> HasKey(es, key) || Key(e) == key
  {
    forall key ensures HasKey(es + [e], key) <==> HasKey(es, key) || Key(e) == key { HasKeySnoc(es, e, key); }
  }

  lemma {:induction false} FirstsGrow(adds: seq<ParamEntry>)
    ensures adds != [] ==> Firsts(adds[..|adds| - 1]) <= Firsts(adds)
  {
    if adds != [] {
      var init, last := adds[..|adds| - 1], adds[|adds| - 1];
      assert init + [last] == adds;
      FirstsSnoc(init, last);
    }
  }

  lemma BelowBoundMeansNoTruncation(adds: seq<ParamEntry>, max: nat)
    ensures |Clip(Firsts(adds), max)| < max ==> Clip(Firsts(adds), max) == Firsts(adds) && !AddedBeyond(adds, max)
    ensures AddedBeyond(adds, max) ==> |Firsts(adds)| >= max
  {
    FirstsGrow(adds);
  }

  lemma {:induction false} FirstsNeverShrink(adds: seq<ParamEntry>, k: nat)
    requires k <= |adds|
    ensures Firsts(adds[..k]) <= Firsts(adds)
  {
    if k == |adds| {
      assert adds[..k] == adds;
    } else {
      var init := adds[..|adds| - 1];
      assert init[..k] == adds[..k];
      FirstsNeverShrink(init, k);
      FirstsGrow(adds);
    }
  }

  /** Looking at the last `Add` is looking at all of them: the flag is set exactly when some
      `Add` came when the bound had been reached. */
  lemma BeyondMeansSomeAdd(adds: seq<ParamEntry>, max: nat)
    ensures AddedBeyond(adds, max) <==> exists k :: 0 <= k < |adds| && |Firsts(adds[..k])| >= max
  {
    if k :| 0 <= k < |adds| && |Firsts(adds[..k])| >= max {
      var init := adds[..|adds| - 1];
      assert init[..k] == adds[..k];
      FirstsNeverShrink(init, k);
    }
    if AddedBeyond(adds, max) { assert |Firsts(adds[..|adds| - 1])| >= max; }
  }

  /** "Something was left out" is exactly that there were more than `max` different inputs,
      and then the flag is set. The flag is set with nothing left out exactly when there were
      `max` different inputs and the last one added was a repeat. */
  lemma TruncatedMeans(adds: seq<ParamEntry>, max: nat)
    ensures Clip(Firsts(adds), max) != Firsts(adds) <==> |Firsts(adds)| > max
    ensures |Firsts(adds)| > max ==> AddedBeyond(adds, max)
    ensures AddedBeyond(adds, max) && |Firsts(adds)| <= max
            <==> adds != [] && |Firsts(adds)| == max && HasKey(adds[..|adds| - 1], Key(adds[|adds| - 1]))
  {
    if adds != [] {
      var init, last := adds[..|adds| - 1], adds[|adds| - 1];
      assert init + [last] == adds;
      FirstsSnoc(init, last);
    }
  }

  /** The flag can be set with nothing left out: one input twice under a bound of one. */
  lemma RepeatSetsTruncated(e: ParamEntry)
    ensures AddedBeyond([e, e], 1) && Clip(Firsts([e, e]), 1) == Firsts([e, e])
  {
    FirstsOfOne(e);
    assert HasKey([e], Key(e)) by { assert Key([e][0]) == Key(e); }
    FirstsSnoc([e], e);
    assert [e] + [e] == [e, e] && [e, e][..1] == [e];
    assert Firsts([e, e]) == [e];
  }

  lemma FirstsOfOne(e: ParamEntry)
    ensures Firsts([e]) == [e]
  {
    FirstsSnoc([], e);
    assert [] + [e] == [e];
  }

  // ----------------------------------------------------------- the Node flattener

  datatype Attribute = Attribute(name: string, source: string, raw: string)

  function Observed(paths: seq<Path>, source: string): seq<Attribute> {
    seq(|paths|, i requires 0 <= i < |paths| => Attribute(paths[i].name, source, paths[i].text))
  }

  /** As many of the new ones as the bound still has room for. */
  function UpTo(out: seq<Attribute>, more: seq<Attribute>, max: int): seq<Attribute> {
    if |out| >= max then out else Clip(out + more, max)
  }

  /** The list keeps what it held and goes on with the new ones in order, until it holds
      `max` or there are no more. */
  lemma UpToMeaning(out: seq<Attribute>, paths: seq<Path>, source: string, max: int)
    ensures var all := UpTo(out, Observed(paths, source), max);
            && out <= all
            && (|all| == |out| + |paths| || (|all| >= max && (|all| == |out| || |all| == max)))
            && |all| <= |out| + |paths|
            && forall i :: 0 <= i < |all| - |out| ==> all[|out| + i] == Attribute(paths[i].name, source, paths[i].text)
  {}

  /** Filling up in two goes is filling up in one. */
  lemma UpToTwice(out: seq<Attribute>, a: seq<Attribute>, b: seq<Attribute>, max: int)
    ensures UpTo(UpTo(out, a, max), b, max) == UpTo(out, a + b, max)
  {
    if |out| < max {
      assert out + (a + b) == out + a + b;
    }
  }

  lemma ObservedAppend(a: seq<Path>, b: seq<Path>, source: string)
    ensures Observed(a + b, source) == Observed(a, source) + Observed(b, source)
  {}

  class AttributeList {
    var items: seq<Attribute>
    constructor () ensures items == [] { items := []; }
  }

  datatype FlattenOptions = FlattenOptions(maxDepth: int, maxAttributes: int)

  /** The children of a container with their keys, an array's keys being its indices. */
  function Children(j: Json): seq<Prop>
    requires !j.Leaf?
  {
    if j.Obj? then j.props
    else seq(|j.items|, i requires 0 <= i < |j.items| => Prop(Digits(i), j.items[i]))
  }

  /** The early exits lose nothing: what is in the list afterwards is what it held and the
      leaves of the full flattening, cut at the bound. */
  method FlattenInto(out: AttributeList, value: Json, source: string, prefix: string, options: FlattenOptions, depth: int)
    modifies out
    ensures out.items == UpTo(old(out.items), Observed(Leaves(value, prefix, options.maxDepth, depth), source),
                              options.maxAttributes)
    decreases value, 1
  {
    if |out.items| >= options.maxAttributes { return; }
    if !value.Leaf? && depth < options.maxDepth {
      if Children(value) == [] {
        out.items := out.items + [Attribute(Named(prefix), source, if value.Obj? then "{}" else "[]")];
      } else {
        FlattenChildren(out, value, source, prefix, options, depth);
      }
      return;
    }
    out.items := out.items + [Attribute(Named(prefix), source, RawText(value))];
  }

  /** Leaves of the children from index `i` on. */
  function LeavesFrom(j: Json, i: nat, prefix: string, maxDepth: int, depth: int): seq<Path>
    requires !j.Leaf? && i <= |Children(j)|
  {
    if j.Obj? then LeavesOfProps(j.props[i..], prefix, maxDepth, depth)
    else LeavesOfItems(j.items[i..], i, prefix, maxDepth, depth)
  }

  lemma LeavesFromStep(j: Json, i: nat, prefix: string, maxDepth: int, depth: int)
    requires !j.Leaf? && i < |Children(j)|
    ensures LeavesFrom(j, i, prefix, maxDepth, depth)
            == Leaves(Children(j)[i].value, Under(prefix, Children(j)[i].name), maxDepth, depth)
               + LeavesFrom(j, i + 1, prefix, maxDepth, depth)
    ensures LeavesFrom(j, |Children(j)|, prefix, maxDepth, depth) == []
  {
    if j.Obj? {
      assert j.props[i..][1..] == j.props[i + 1..];
    } else {
      assert j.items[i..][1..] == j.items[i + 1..];
    }
  }

  method FlattenChildren(out: AttributeList, value: Json, source: string, prefix: string, options: FlattenOptions,
                         depth: int)
    requires !value.Leaf? && Children(value) != [] && depth < options.maxDepth
    modifies out
    ensures out.items == UpTo(old(out.items), Observed(Leaves(value, prefix, options.maxDepth, depth), source),
                              options.maxAttributes)
    decreases value, 0
  {
    var entries := Children(value);
    ghost var max := options.maxAttributes;
    ghost var all := Observed(LeavesFrom(value, 0, prefix, options.maxDepth, depth + 1), source);
    assert LeavesFrom(value, 0, prefix, options.maxDepth, depth + 1) == Leaves(value, prefix, options.maxDepth, depth) by {
      if value.Obj? { assert value.props[0..] == value.props; } else { assert value.items[0..] == value.items; }
    }
    for i := 0 to |entries|
      invariant UpTo(out.items, Observed(LeavesFrom(value, i, prefix, options.maxDepth, depth + 1), source), max)
                == UpTo(old(out.items), all, max)
    {
      if |out.items| >= options.maxAttributes { return; }
      var path := if prefix != "" then prefix + "." + entries[i].name else entries[i].name;
      LeavesFromStep(value, i, prefix, options.maxDepth, depth + 1);
      ghost var here := Leaves(entries[i].value, path, options.maxDepth, depth + 1);
      ghost var rest := LeavesFrom(value, i + 1, prefix, options.maxDepth, depth + 1);
      ObservedAppend(here, rest, source);
      UpToTwice(out.items, Observed(here, source), Observed(rest, source), max);
      FlattenInto(out, entries[i].value, source, path, options, depth + 1);
    }
    LeavesFromStep(value, 0, prefix, options.maxDepth, depth + 1);
    assert out.items + [] == out.items;
  }

  function LeavesOfRecord(record: seq<Prop>, maxDepth: int): seq<Path> {
    if record == [] then []
    else Leaves(record[0].value, record[0].name, maxDepth, 0) + LeavesOfRecord(record[1..], maxDepth)
  }

  /** A record of query or path values, each flattened under its own key. */
  method ObserveRecord(out: AttributeList, record: Option<seq<Prop>>, source: string, options: FlattenOptions)
    modifies out
    ensures out.items == if record.None? then old(out.items)
                         else UpTo(old(out.items), Observed(LeavesOfRecord(record.value, options.maxDepth), source),
                                   options.maxAttributes)
  {
    if record.None? { return; }
    var entries := record.value;
    ghost var max := options.maxAttributes;
    ghost var all := Observed(LeavesOfRecord(entries, options.maxDepth), source);
    assert entries[0..] == entries;
    for i := 0 to |entries|
      invariant UpTo(out.items, Observed(LeavesOfRecord(entries[i..], options.maxDepth), source), max)
                == UpTo(old(out.items), all, max)
    {
      if |out.items| >= options.maxAttributes { return; }
      assert entries[i..][1..] == entries[i + 1..];
      ghost var here := Leaves(entries[i].value, entries[i].name, options.maxDepth, 0);
      ghost var rest := LeavesOfRecord(entries[i + 1..], options.maxDepth);
      ObservedAppend(here, rest, source);
      UpToTwice(out.items, Observed(here, source), Observed(rest, source), max);
      FlattenInto(out, entries[i].value, source, entries[i].name, options, 0);
    }
    assert out.items + [] == out.items;
  }
}
