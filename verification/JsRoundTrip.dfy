/**
 Trees written as the report writes them, and what the reader makes of them. The JSON text
 it returns is read by an independent reader, which finds the same tree.
 */
module JsRoundTrip {
  import opened Common
  import opened Hosts
  import opened JsonText
  import opened JsLiteral

  // ------------------------------------------------------------------ the printer

  /** A JavaScript value as the report writes it, with its layout: `quote` is the quote a
      string uses, and the gaps are the blanks around its parts. */
  datatype Tree =
    | Text(value: string, quote: char)
    | Bare(word: string)
    | Arr(gap: string, items: seq<Item>)
    | Obj(gap: string, entries: seq<Entry>)

  datatype Item = Item(before: string, value: Tree, after: string)

  datatype Entry = Entry(before: string, key: string, quote: char, middle: string, item: Item)

  /** A character that can stand outside strings and means nothing to either reader. */
  predicate WordChar(c: char) {
    !Quote(c) && !Opens(c) && !Closes(c) && c != ';' && c != ',' && c != ':' && !Blank(c)
  }

  predicate Gap(s: string) { forall c :: c in s ==> JsonBlank(c) }

  predicate JsonBlank(c: char) { c == ' ' || c == '\t' || c == '\n' || c == '\r' }

  predicate Proper(t: Tree) {
    match t
    case Text(_, q) => Quote(q)
    case Bare(w) => w != "" && forall c :: c in w ==> WordChar(c)
    case Arr(gap, items) => Gap(gap) && forall i :: 0 <= i < |items| ==> ProperItem(items[i])
    case Obj(gap, entries) => Gap(gap) && forall i :: 0 <= i < |entries| ==> ProperEntry(entries[i])
  }

  predicate ProperItem(item: Item) { Gap(item.before) && Gap(item.after) && Proper(item.value) }

  predicate ProperEntry(e: Entry) { Gap(e.before) && Gap(e.middle) && Quote(e.quote) && ProperItem(e.item) }

  /** A piece of a literal: a quoted string, or any other character. */
  datatype Piece = Str(value: string, quote: char) | Mark(c: char)

  function Marks(s: string): seq<Piece> { seq(|s|, i requires 0 <= i < |s| => Mark(s[i])) }

  /** The pieces of a tree, in the order they are written. */
  function Pieces(t: Tree): seq<Piece> {
    match t
    case Text(v, q) => [Str(v, q)]
    case Bare(w) => Marks(w)
    case Arr(gap, items) => [Mark('[')] + (Marks(gap) + ItemPieces(items)) + [Mark(']')]
    case Obj(gap, entries) => [Mark('{')] + (Marks(gap) + EntryPieces(entries)) + [Mark('}')]
  }

  function OneItem(item: Item): seq<Piece> { Marks(item.before) + Pieces(item.value) + Marks(item.after) }

  function OneEntry(e: Entry): seq<Piece> {
    Marks(e.before) + [Str(e.key, e.quote)] + Marks(e.middle) + [Mark(':')] + OneItem(e.item)
  }

  function ItemPieces(items: seq<Item>): seq<Piece> {
    if items == [] then []
    else if |items| == 1 then OneItem(items[0])
    else OneItem(items[0]) + ([Mark(',')] + ItemPieces(items[1..]))
  }

  function EntryPieces(entries: seq<Entry>): seq<Piece> {
    if entries == [] then []
    else if |entries| == 1 then OneEntry(entries[0])
    else OneEntry(entries[0]) + ([Mark(',')] + EntryPieces(entries[1..]))
  }

  function Escaped(s: string, quote: char): string {
    if s == "" then ""
    else (if s[0] == quote || s[0] == '\\' then ['\\', s[0]] else [s[0]]) + Escaped(s[1..], quote)
  }

  function Quoted(s: string, quote: char): string { [quote] + Escaped(s, quote) + [quote] }

  /** The same pieces in the report's notation and in JSON. */
  function JsOf(ps: seq<Piece>): string {
    if ps == [] then ""
    else (if ps[0].Str? then Quoted(ps[0].value, ps[0].quote) else [ps[0].c]) + JsOf(ps[1..])
  }

  function JsonOf(ps: seq<Piece>): string {
    if ps == [] then ""
    else (if ps[0].Str? then Dumps(ps[0].value) else [ps[0].c]) + JsonOf(ps[1..])
  }

  function Js(t: Tree): string { JsOf(Pieces(t)) }

  function Json(t: Tree): string { JsonOf(Pieces(t)) }

  // --------------------------------------------------------------------- scanning

  lemma {:induction false} StringReadsBack(s: string, quote: char, rest: string)
    requires Quote(quote)
    ensures ReadString(Escaped(s, quote) + ([quote] + rest), quote) == Token(s, rest)
  {
    if s == "" {
      assert Escaped(s, quote) + ([quote] + rest) == [quote] + rest;
      QuoteEnds(quote, rest);
    } else {
      StringReadsBack(s[1..], quote, rest);
      var tail := Escaped(s[1..], quote) + ([quote] + rest);
      var first := EscapedCons(s, quote, [quote] + rest);
      OneCharReads(s[0], quote, first, tail);
      assert s == [s[0]] + s[1..];
    }
  }

  lemma EscapedCons(s: string, quote: char, rest: string) returns (first: string)
    requires s != ""
    ensures first == (if s[0] == quote || s[0] == '\\' then ['\\', s[0]] else [s[0]])
    ensures Escaped(s, quote) + rest == first + (Escaped(s[1..], quote) + rest)
  {
    first := if s[0] == quote || s[0] == '\\' then ['\\', s[0]] else [s[0]];
    assert Escaped(s, quote) == first + Escaped(s[1..], quote);
  }

  lemma QuoteEnds(quote: char, rest: string)
    requires Quote(quote)
    ensures ReadString([quote] + rest, quote) == Token("", rest)
  {
    assert ([quote] + rest)[1..] == rest;
  }

  lemma OneCharReads(c: char, quote: char, first: string, tail: string)
    requires Quote(quote) && first == (if c == quote || c == '\\' then ['\\', c] else [c])
    ensures ReadString(first + tail, quote) == Prefixed([c], ReadString(tail, quote))
  {
    assert (first + tail)[|first|..] == tail;
    if c == quote || c == '\\' { assert (first + tail)[1] == c; }
  }

  /** One quoted string in the scan, at any depth. */
  lemma StringScans(s: string, quote: char, rest: string, depth: nat, buf: string)
    requires Quote(quote)
    ensures Scan(Quoted(s, quote) + rest, depth, buf) == Scan(rest, depth, buf + Dumps(s))
  {
    StringReadsBack(s, quote, rest);
    var t := Quoted(s, quote) + rest;
    assert t == [quote] + (Escaped(s, quote) + ([quote] + rest));
    assert t[1..] == Escaped(s, quote) + ([quote] + rest);
  }

  function Deeper(depth: nat, c: char): nat {
    if Opens(c) then depth + 1 else if Closes(c) && depth > 0 then depth - 1 else depth
  }

  function DepthAfter(ps: seq<Piece>, depth: nat): nat {
    if ps == [] then depth
    else DepthAfter(ps[1..], if ps[0].Mark? then Deeper(depth, ps[0].c) else depth)
  }

  /** Pieces that do not end a scan that reaches them at this depth. */
  predicate Inside(ps: seq<Piece>, depth: nat) {
    if ps == [] then true
    else if ps[0].Str? then Quote(ps[0].quote) && Inside(ps[1..], depth)
    else
      var c := ps[0].c;
      && !Quote(c) && (depth == 0 ==> !Opens(c) && c != ';') && (Closes(c) ==> depth >= 2)
      && Inside(ps[1..], Deeper(depth, c))
  }

  lemma {:induction false} InsideAppend(a: seq<Piece>, b: seq<Piece>, depth: nat)
    ensures DepthAfter(a + b, depth) == DepthAfter(b, DepthAfter(a, depth))
    ensures Inside(a + b, depth) <==> Inside(a, depth) && Inside(b, DepthAfter(a, depth))
    decreases |a|
  {
    if a == [] {
      assert a + b == b;
    } else {
      assert (a + b)[1..] == a[1..] + b;
      InsideAppend(a[1..], b, if a[0].Mark? then Deeper(depth, a[0].c) else depth);
    }
  }

  /** What stays inside and comes back to its depth: such pieces can be put side by side. */
  predicate Level(ps: seq<Piece>, depth: nat) { Inside(ps, depth) && DepthAfter(ps, depth) == depth }

  lemma LevelAppend(a: seq<Piece>, b: seq<Piece>, depth: nat)
    requires Level(a, depth) && Level(b, depth)
    ensures Level(a + b, depth)
  {
    InsideAppend(a, b, depth);
  }

  lemma {:induction false} MarksLevel(s: string, depth: nat)
    requires forall c :: c in s ==> !Quote(c) && !Opens(c) && !Closes(c) && c != ';'
    ensures Level(Marks(s), depth)
    decreases |s|
  {
    if s != "" {
      assert Marks(s)[1..] == Marks(s[1..]);
      forall c | c in s[1..] ensures c in s {}
      MarksLevel(s[1..], depth);
    }
  }

  lemma BracketsLevel(open: char, close: char, inner: seq<Piece>, depth: nat)
    requires Opens(open) && Closes(close) && depth >= 1 && Level(inner, depth + 1)
    ensures Level([Mark(open)] + inner + [Mark(close)], depth)
  {
    var a, b := [Mark(open)], [Mark(close)];
    assert a[1..] == [] && b[1..] == [];
    InsideAppend(a, inner, depth);
    InsideAppend(a + inner, b, depth);
  }

  lemma OneMark(c: char, depth: nat)
    requires c == ',' || c == ':'
    ensures Level([Mark(c)], depth)
  {
    assert [Mark(c)][1..] == [];
  }

  /** A printed tree stays inside its container, whatever brackets, quotes and semicolons its
      strings hold. */
  lemma {:induction false} TreeLevel(t: Tree, depth: nat)
    requires Proper(t) && (depth >= 1 || t.Text? || t.Bare?)
    ensures Level(Pieces(t), depth)
    decreases t, 3
  {
    match t {
      case Text(v, q) => assert [Str(v, q)][1..] == [];
      case Bare(w) => MarksLevel(w, depth);
      case Arr(gap, items) =>
        InnerLevel(t, depth + 1);
        BracketsLevel('[', ']', Marks(gap) + ItemPieces(items), depth);
      case Obj(gap, entries) =>
        InnerLevel(t, depth + 1);
        BracketsLevel('{', '}', Marks(gap) + EntryPieces(entries), depth);
    }
  }

  /** What stands between the brackets of a container. */
  function Inner(t: Tree): seq<Piece>
    requires t.Arr? || t.Obj?
  {
    if t.Arr? then Marks(t.gap) + ItemPieces(t.items) else Marks(t.gap) + EntryPieces(t.entries)
  }

  lemma {:induction false} InnerLevel(t: Tree, depth: nat)
    requires (t.Arr? || t.Obj?) && Proper(t) && depth >= 1
    ensures Level(Inner(t), depth)
    decreases t, 2
  {
    MarksLevel(t.gap, depth);
    if t.Arr? {
      ItemsLevel(t.items, depth);
      LevelAppend(Marks(t.gap), ItemPieces(t.items), depth);
    } else {
      EntriesLevel(t.entries, depth);
      LevelAppend(Marks(t.gap), EntryPieces(t.entries), depth);
    }
  }

  lemma {:induction false} ItemLevel(item: Item, depth: nat)
    requires ProperItem(item) && depth >= 1
    ensures Level(OneItem(item), depth)
    decreases item, 4
  {
    MarksLevel(item.before, depth);
    TreeLevel(item.value, depth);
    MarksLevel(item.after, depth);
    LevelAppend(Marks(item.before), Pieces(item.value), depth);
    LevelAppend(Marks(item.before) + Pieces(item.value), Marks(item.after), depth);
  }

  lemma {:induction false} ItemsLevel(items: seq<Item>, depth: nat)
    requires (forall i :: 0 <= i < |items| ==> ProperItem(items[i])) && depth >= 1
    ensures Level(ItemPieces(items), depth)
    decreases items, 1
  {
    if items != [] {
      ItemLevel(items[0], depth);
      if |items| > 1 {
        ItemsLevel(items[1..], depth);
        OneMark(',', depth);
        LevelAppend([Mark(',')], ItemPieces(items[1..]), depth);
        LevelAppend(OneItem(items[0]), [Mark(',')] + ItemPieces(items[1..]), depth);
      }
    }
  }

  lemma {:induction false} EntryLevel(e: Entry, depth: nat)
    requires ProperEntry(e) && depth >= 1
    ensures Level(OneEntry(e), depth)
    decreases e, 5
  {
    var a, k, m, c := Marks(e.before), [Str(e.key, e.quote)], Marks(e.middle), [Mark(':')];
    MarksLevel(e.before, depth);
    assert k[1..] == [];
    MarksLevel(e.middle, depth);
    OneMark(':', depth);
    ItemLevel(e.item, depth);
    LevelAppend(a, k, depth);
    LevelAppend(a + k, m, depth);
    LevelAppend(a + k + m, c, depth);
    LevelAppend(a + k + m + c, OneItem(e.item), depth);
  }

  lemma {:induction false} EntriesLevel(entries: seq<Entry>, depth: nat)
    requires (forall i :: 0 <= i < |entries| ==> ProperEntry(entries[i])) && depth >= 1
    ensures Level(EntryPieces(entries), depth)
    decreases entries, 1
  {
    if entries != [] {
      EntryLevel(entries[0], depth);
      if |entries| > 1 {
        EntriesLevel(entries[1..], depth);
        OneMark(',', depth);
        LevelAppend([Mark(',')], EntryPieces(entries[1..]), depth);
        LevelAppend(OneEntry(entries[0]), [Mark(',')] + EntryPieces(entries[1..]), depth);
      }
    }
  }

  /** The scan turns the pieces inside into their JSON text, one after the other. */
  lemma {:induction false} PiecesScan(ps: seq<Piece>, rest: string, depth: nat, buf: string)
    requires Inside(ps, depth)
    ensures Scan(JsOf(ps) + rest, depth, buf) == Scan(rest, DepthAfter(ps, depth), buf + JsonOf(ps))
    decreases |ps|
  {
    if ps == [] {
      assert JsOf(ps) + rest == rest && buf + JsonOf(ps) == buf;
    } else if ps[0].Str? {
      StringScans(ps[0].value, ps[0].quote, JsOf(ps[1..]) + rest, depth, buf);
      Assoc(Quoted(ps[0].value, ps[0].quote), JsOf(ps[1..]), rest);
      PiecesScan(ps[1..], rest, depth, buf + Dumps(ps[0].value));
      Assoc(buf, Dumps(ps[0].value), JsonOf(ps[1..]));
    } else {
      MarkScans(ps[0].c, JsOf(ps[1..]) + rest, depth, buf);
      Assoc([ps[0].c], JsOf(ps[1..]), rest);
      PiecesScan(ps[1..], rest, Deeper(depth, ps[0].c), buf + [ps[0].c]);
      Assoc(buf, [ps[0].c], JsonOf(ps[1..]));
    }
  }

  lemma MarkScans(c: char, rest: string, depth: nat, buf: string)
    requires !Quote(c) && (depth == 0 ==> !Opens(c) && c != ';') && (Closes(c) ==> depth >= 2)
    ensures Scan([c] + rest, depth, buf) == Scan(rest, Deeper(depth, c), buf + [c])
  {
    assert ([c] + rest)[1..] == rest;
  }

  /** Inside a container a printed tree is scanned into its JSON text, and the scan is back
      at the same depth. */
  lemma TreeScans(t: Tree, rest: string, depth: nat, buf: string)
    requires Proper(t) && depth >= 1
    ensures Scan(Js(t) + rest, depth, buf) == Scan(rest, depth, buf + Json(t))
  {
    TreeLevel(t, depth);
    PiecesScan(Pieces(t), rest, depth, buf);
  }

  lemma {:induction false} TextAppend(a: seq<Piece>, b: seq<Piece>)
    ensures JsOf(a + b) == JsOf(a) + JsOf(b) && JsonOf(a + b) == JsonOf(a) + JsonOf(b)
  {
    if a == [] {
      assert a + b == b;
    } else {
      assert (a + b)[1..] == a[1..] + b;
      TextAppend(a[1..], b);
      Assoc(if a[0].Str? then Quoted(a[0].value, a[0].quote) else [a[0].c], JsOf(a[1..]), JsOf(b));
      Assoc(if a[0].Str? then Dumps(a[0].value) else [a[0].c], JsonOf(a[1..]), JsonOf(b));
    }
  }

  function Open(t: Tree): char { if t.Arr? then '[' else '{' }

  function Close(t: Tree): char { if t.Arr? then ']' else '}' }

  lemma ContainerText(t: Tree, rest: string)
    requires t.Arr? || t.Obj?
    ensures Js(t) + rest == [Open(t)] + (JsOf(Inner(t)) + ([Close(t)] + rest))
    ensures Json(t) == [Open(t)] + JsonOf(Inner(t)) + [Close(t)]
  {
    assert Pieces(t) == [Mark(Open(t))] + Inner(t) + [Mark(Close(t))];
    BracketText(Open(t), Inner(t), Close(t));
    Around([Open(t)], JsOf(Inner(t)), [Close(t)], rest);
  }

  lemma Around(a: string, b: string, c: string, d: string)
    ensures a + b + c + d == a + (b + (c + d))
  {}

  /** A container at the top: the scan ends with its closing bracket. */
  lemma ContainerScansAtTop(t: Tree, rest: string)
    requires (t.Arr? || t.Obj?) && Proper(t)
    ensures Scan(Js(t) + rest, 0, "") == Scanned(Some(Json(t)), rest)
  {
    ContainerText(t, rest);
    InnerLevel(t, 1);
    InnerScans(Open(t), Inner(t), Close(t), rest);
  }

  lemma InnerScans(open: char, inner: seq<Piece>, close: char, rest: string)
    requires Opens(open) && Closes(close) && Level(inner, 1)
    ensures Scan([open] + (JsOf(inner) + ([close] + rest)), 0, "")
            == Scanned(Some([open] + JsonOf(inner) + [close]), rest)
  {
    FirstOpens(open, JsOf(inner) + ([close] + rest));
    PiecesScan(inner, [close] + rest, 1, [open]);
    LastCloses(close, rest, [open] + JsonOf(inner));
  }

  lemma BracketText(open: char, inner: seq<Piece>, close: char)
    ensures JsOf([Mark(open)] + inner + [Mark(close)]) == [open] + JsOf(inner) + [close]
    ensures JsonOf([Mark(open)] + inner + [Mark(close)]) == [open] + JsonOf(inner) + [close]
  {
    TextAppend([Mark(open)] + inner, [Mark(close)]);
    TextAppend([Mark(open)], inner);
    assert [Mark(open)][1..] == [] && [Mark(close)][1..] == [];
    assert JsOf([Mark(open)]) == [open] && JsOf([Mark(close)]) == [close];
    assert JsonOf([Mark(open)]) == [open] && JsonOf([Mark(close)]) == [close];
  }

  lemma FirstOpens(c: char, rest: string)
    requires Opens(c)
    ensures Scan([c] + rest, 0, "") == Scan(rest, 1, [c])
  {
    assert ([c] + rest)[1..] == rest && "" + [c] == [c];
  }

  lemma LastCloses(c: char, rest: string, buf: string)
    requires Closes(c)
    ensures Scan([c] + rest, 1, buf) == Scanned(Some(buf + [c]), rest)
  {
    assert ([c] + rest)[1..] == rest;
  }

  /** A string or a word at the top, with blanks behind it: the scan ends at the semicolon. */
  lemma ScalarScansAtTop(t: Tree, gap: string, tail: string)
    requires (t.Text? || t.Bare?) && Proper(t) && Gap(gap)
    ensures Scan(Js(t) + gap + (";" + tail), 0, "") == Scanned(Some(Json(t) + gap), ";" + tail)
  {
    TreeLevel(t, 0);
    MarksLevel(gap, 0);
    LevelAppend(Pieces(t), Marks(gap), 0);
    PiecesScan(Pieces(t) + Marks(gap), ";" + tail, 0, "");
    TextAppend(Pieces(t), Marks(gap));
    MarksText(gap);
    assert "" + (Json(t) + gap) == Json(t) + gap;
  }

  lemma {:induction false} MarksText(s: string)
    ensures JsOf(Marks(s)) == s && JsonOf(Marks(s)) == s
  {
    if s != "" {
      assert Marks(s)[1..] == Marks(s[1..]);
      MarksText(s[1..]);
      assert s == [s[0]] + s[1..];
    }
  }

  // ---------------------------------------------------------------- a reader of JSON

  /** What a JSON text says: layout and quotes are gone. A word is kept as it is written. */
  datatype Value = String(text: string) | Word(text: string) | List(items: seq<Value>) | Dict(members: seq<Member>)

  datatype Member = Member(key: string, value: Value)

  function ValueOf(t: Tree): Value {
    match t
    case Text(v, _) => String(v)
    case Bare(w) => Word(w)
    case Arr(_, items) => List(ValuesOf(items))
    case Obj(_, entries) => Dict(MembersOf(entries))
  }

  function ValuesOf(items: seq<Item>): seq<Value> {
    if items == [] then [] else [ValueOf(items[0].value)] + ValuesOf(items[1..])
  }

  function MembersOf(entries: seq<Entry>): seq<Member> {
    if entries == [] then []
    else [Member(entries[0].key, ValueOf(entries[0].item.value))] + MembersOf(entries[1..])
  }

  // The first pass of the reader finds the strings.
  datatype Lexeme = Lit(text: string) | Sign(c: char)

  function Lex(s: string): Option<seq<Lexeme>>
    decreases |s|
  {
    if s == "" then Some([])
    else if s[0] == '"' then
      var t := LoadString(s[1..]);
      if t.None? then None else Front(Lit(t.value.value), Lex(t.value.rest))
    else Front(Sign(s[0]), Lex(s[1..]))
  }

  function Front(x: Lexeme, xs: Option<seq<Lexeme>>): Option<seq<Lexeme>> {
    if xs.None? then None else Some([x] + xs.value)
  }

  // The second pass builds the value.
  datatype Parsed<T> = Parsed(value: T, rest: seq<Lexeme>)

  function Skip(ls: seq<Lexeme>): (r: seq<Lexeme>)
    ensures |r| <= |ls|
  {
    if ls != [] && ls[0].Sign? && JsonBlank(ls[0].c) then Skip(ls[1..]) else ls
  }

  predicate At(ls: seq<Lexeme>, c: char) { ls != [] && ls[0] == Sign(c) }

  predicate AtWord(ls: seq<Lexeme>) { ls != [] && ls[0].Sign? && WordChar(ls[0].c) }

  function ReadWord(ls: seq<Lexeme>): (p: Parsed<string>)
    ensures |p.rest| <= |ls| && (AtWord(ls) ==> |p.rest| < |ls|)
  {
    if AtWord(ls) then
      var p := ReadWord(ls[1..]);
      Parsed([ls[0].c] + p.value, p.rest)
    else Parsed("", ls)
  }

  function ReadValue(all: seq<Lexeme>): (p: Option<Parsed<Value>>)
    ensures p.Some? ==> |p.value.rest| < |all|
    decreases |all|, 1
  {
    var ls := Skip(all);
    if ls == [] then None
    else if ls[0].Lit? then Some(Parsed(String(ls[0].text), ls[1..]))
    else if At(ls, '[') then
      var inner := Skip(ls[1..]);
      if At(inner, ']') then Some(Parsed(List([]), inner[1..]))
      else
        var p := ReadItems(ls[1..]);
        if p.None? then None else Some(Parsed(List(p.value.value), p.value.rest))
    else if At(ls, '{') then
      var inner := Skip(ls[1..]);
      if At(inner, '}') then Some(Parsed(Dict([]), inner[1..]))
      else
        var p := ReadMembers(ls[1..]);
        if p.None? then None else Some(Parsed(Dict(p.value.value), p.value.rest))
    else if AtWord(ls) then
      var w := ReadWord(ls);
      Some(Parsed(Word(w.value), w.rest))
    else None
  }

  /** Values between commas, up to the closing bracket. */
  function ReadItems(ls: seq<Lexeme>): (p: Option<Parsed<seq<Value>>>)
    ensures p.Some? ==> |p.value.rest| < |ls|
    decreases |ls|, 2
  {
    var first := ReadValue(ls);
    if first.None? then None
    else
      var next := Skip(first.value.rest);
      if At(next, ']') then Some(Parsed([first.value.value], next[1..]))
      else if At(next, ',') then
        var others := ReadItems(next[1..]);
        if others.None? then None else Some(Parsed([first.value.value] + others.value.value, others.value.rest))
      else None
  }

  /** A key and its colon. */
  function ReadKey(ls: seq<Lexeme>): (p: Option<Parsed<string>>)
    ensures p.Some? ==> |p.value.rest| < |ls|
  {
    var start := Skip(ls);
    if start == [] || !start[0].Lit? then None
    else
      var colon := Skip(start[1..]);
      if At(colon, ':') then Some(Parsed(start[0].text, colon[1..])) else None
  }

  function ReadMembers(ls: seq<Lexeme>): (p: Option<Parsed<seq<Member>>>)
    ensures p.Some? ==> |p.value.rest| < |ls|
    decreases |ls|, 2
  {
    var key := ReadKey(ls);
    if key.None? then None
    else
      var first := ReadValue(key.value.rest);
      if first.None? then None
      else
        var member := Member(key.value.value, first.value.value);
        var next := Skip(first.value.rest);
        if At(next, '}') then Some(Parsed([member], next[1..]))
        else if At(next, ',') then
          var others := ReadMembers(next[1..]);
          if others.None? then None else Some(Parsed([member] + others.value.value, others.value.rest))
        else None
  }

  /** The value of a JSON text, if it is one. */
  function Loads(s: string): Option<Value> {
    var ls := Lex(s);
    if ls.None? then None
    else
      var p := ReadValue(ls.value);
      if p.None? || Skip(p.value.rest) != [] then None else Some(p.value.value)
  }

  // ------------------------------------------------- the JSON text says the same tree

  function LexemesOf(ps: seq<Piece>): seq<Lexeme> {
    seq(|ps|, i requires 0 <= i < |ps| => if ps[i].Str? then Lit(ps[i].value) else Sign(ps[i].c))
  }

  predicate NoLooseQuotes(ps: seq<Piece>) { forall p :: p in ps ==> p.Mark? ==> !Quote(p.c) }

  lemma StringLexes(v: string, rest: string)
    ensures Lex(Dumps(v) + rest) == Front(Lit(v), Lex(rest))
  {
    StringLoads(v, rest);
    var behind := DumpAll(v) + ("\"" + rest);
    assert Dumps(v) + rest == "\"" + behind;
    assert ("\"" + behind)[1..] == behind;
  }

  lemma MarkLexes(c: char, rest: string)
    requires c != '"'
    ensures Lex([c] + rest) == Front(Sign(c), Lex(rest))
  {
    assert ([c] + rest)[1..] == rest;
  }

  lemma {:induction false} PiecesLex(ps: seq<Piece>)
    requires NoLooseQuotes(ps)
    ensures Lex(JsonOf(ps)) == Some(LexemesOf(ps))
  {
    if ps != [] {
      assert ps[0] in ps && forall p :: p in ps[1..] ==> p in ps;
      PiecesLex(ps[1..]);
      assert LexemesOf(ps) == [LexemesOf(ps)[0]] + LexemesOf(ps[1..]);
      if ps[0].Str? {
        StringLexes(ps[0].value, JsonOf(ps[1..]));
      } else {
        MarkLexes(ps[0].c, JsonOf(ps[1..]));
      }
    }
  }

  lemma {:induction false} InsideHasNoLooseQuotes(ps: seq<Piece>, depth: nat)
    requires Inside(ps, depth)
    ensures NoLooseQuotes(ps)
    decreases |ps|
  {
    if ps != [] {
      InsideHasNoLooseQuotes(ps[1..], if ps[0].Mark? then Deeper(depth, ps[0].c) else depth);
      assert ps == [ps[0]] + ps[1..];
    }
  }

  lemma LexemesAppend(a: seq<Piece>, b: seq<Piece>)
    ensures LexemesOf(a + b) == LexemesOf(a) + LexemesOf(b)
  {}

  lemma {:induction false} SkipGap(gap: string, rest: seq<Lexeme>)
    requires Gap(gap)
    ensures Skip(LexemesOf(Marks(gap)) + rest) == Skip(rest)
  {
    var ls := LexemesOf(Marks(gap));
    if gap == "" {
      assert ls + rest == rest;
    } else {
      assert gap[0] in gap && forall c :: c in gap[1..] ==> c in gap;
      assert ls[1..] == LexemesOf(Marks(gap[1..]));
      assert (ls + rest)[1..] == ls[1..] + rest;
      SkipGap(gap[1..], rest);
    }
  }

  lemma {:induction false} WordReads(w: string, rest: seq<Lexeme>)
    requires (forall c :: c in w ==> WordChar(c)) && !AtWord(rest)
    ensures ReadWord(LexemesOf(Marks(w)) + rest) == Parsed(w, rest)
  {
    var ls := LexemesOf(Marks(w));
    if w == "" {
      assert ls + rest == rest;
    } else {
      assert w[0] in w && forall c :: c in w[1..] ==> c in w;
      assert ls[1..] == LexemesOf(Marks(w[1..]));
      assert (ls + rest)[1..] == ls[1..] + rest;
      WordReads(w[1..], rest);
      assert [w[0]] + w[1..] == w;
    }
  }

  /** Blanks before a value change nothing. */
  lemma GapThenValue(gap: string, rest: seq<Lexeme>)
    requires Gap(gap)
    ensures ReadValue(LexemesOf(Marks(gap)) + rest) == ReadValue(rest)
  {
    SkipGap(gap, rest);
  }

  /** A tree is read back from its lexemes, up to what follows it. */
  lemma {:induction false} TreeReads(t: Tree, rest: seq<Lexeme>)
    requires Proper(t) && (t.Bare? ==> !AtWord(rest))
    ensures ReadValue(LexemesOf(Pieces(t)) + rest) == Some(Parsed(ValueOf(t), rest))
    decreases t, 3
  {
    var ls := LexemesOf(Pieces(t));
    match t {
      case Text(v, q) =>
        assert ls + rest == [Lit(v)] + rest && ([Lit(v)] + rest)[1..] == rest;
      case Bare(w) =>
        WordReads(w, rest);
        assert w[0] in w && (ls + rest)[0] == Sign(w[0]);
      case Arr(gap, items) => ArrayReads(gap, items, rest);
      case Obj(gap, entries) => ObjectReads(gap, entries, rest);
    }
  }

  lemma ContainerLexemes(open: char, inner: seq<Piece>, close: char, rest: seq<Lexeme>)
    ensures var ls := LexemesOf([Mark(open)] + inner + [Mark(close)]) + rest;
            && ls == [Sign(open)] + (LexemesOf(inner) + ([Sign(close)] + rest))
            && ls[1..] == LexemesOf(inner) + ([Sign(close)] + rest)
  {
    LexemesAppend([Mark(open)] + inner, [Mark(close)]);
    LexemesAppend([Mark(open)], inner);
    assert LexemesOf([Mark(open)]) == [Sign(open)] && LexemesOf([Mark(close)]) == [Sign(close)];
  }

  lemma GapThenBody(gap: string, body: seq<Piece>, tail: seq<Lexeme>)
    requires Gap(gap)
    ensures LexemesOf(Marks(gap) + body) + tail == LexemesOf(Marks(gap)) + (LexemesOf(body) + tail)
    ensures Skip(LexemesOf(Marks(gap) + body) + tail) == Skip(LexemesOf(body) + tail)
  {
    LexemesAppend(Marks(gap), body);
    SkipGap(gap, LexemesOf(body) + tail);
  }

  lemma ReadsList(ls: seq<Lexeme>, values: seq<Value>, rest: seq<Lexeme>)
    requires At(ls, '[')
    requires if values == [] then Skip(ls[1..]) == [Sign(']')] + rest
             else !At(Skip(ls[1..]), ']') && ReadItems(ls[1..]) == Some(Parsed(values, rest))
    ensures ReadValue(ls) == Some(Parsed(List(values), rest))
  {
    if values == [] { assert ([Sign(']')] + rest)[1..] == rest; }
  }

  lemma ReadsDict(ls: seq<Lexeme>, members: seq<Member>, rest: seq<Lexeme>)
    requires At(ls, '{')
    requires if members == [] then Skip(ls[1..]) == [Sign('}')] + rest
             else !At(Skip(ls[1..]), '}') && ReadMembers(ls[1..]) == Some(Parsed(members, rest))
    ensures ReadValue(ls) == Some(Parsed(Dict(members), rest))
  {
    if members == [] { assert ([Sign('}')] + rest)[1..] == rest; }
  }

  lemma {:induction false} ArrayReads(gap: string, items: seq<Item>, rest: seq<Lexeme>)
    requires Gap(gap) && forall i :: 0 <= i < |items| ==> ProperItem(items[i])
    ensures ReadValue(LexemesOf(Pieces(Arr(gap, items))) + rest) == Some(Parsed(List(ValuesOf(items)), rest))
    decreases items, 2
  {
    var tail := [Sign(']')] + rest;
    ContainerLexemes('[', Marks(gap) + ItemPieces(items), ']', rest);
    GapThenBody(gap, ItemPieces(items), tail);
    if items == [] {
      assert LexemesOf(ItemPieces(items)) + tail == tail;
    } else {
      ItemsRead(items, rest);
      ItemsStart(items, tail);
      GapThenItems(gap, LexemesOf(ItemPieces(items)) + tail);
    }
    ReadsList(LexemesOf(Pieces(Arr(gap, items))) + rest, ValuesOf(items), rest);
  }

  lemma GapThenItems(gap: string, rest: seq<Lexeme>)
    requires Gap(gap)
    ensures ReadItems(LexemesOf(Marks(gap)) + rest) == ReadItems(rest)
  {
    GapThenValue(gap, rest);
  }

  lemma GapThenMembers(gap: string, rest: seq<Lexeme>)
    requires Gap(gap)
    ensures ReadMembers(LexemesOf(Marks(gap)) + rest) == ReadMembers(rest)
  {
    SkipGap(gap, rest);
    assert ReadKey(LexemesOf(Marks(gap)) + rest) == ReadKey(rest);
  }

  /** Behind blanks a value starts with no closing bracket. */
  lemma {:induction false} TreeStarts(t: Tree, rest: seq<Lexeme>)
    requires Proper(t)
    ensures var ls := Skip(LexemesOf(Pieces(t)) + rest);
            ls != [] && ls[0] == LexemesOf(Pieces(t))[0] && !At(ls, ']') && !At(ls, '}')
  {
    if t.Bare? { assert t.word[0] in t.word; }
    assert (LexemesOf(Pieces(t)) + rest)[0] == LexemesOf(Pieces(t))[0];
  }

  lemma ItemLexemes(item: Item, rest: seq<Lexeme>)
    ensures LexemesOf(OneItem(item)) + rest
            == LexemesOf(Marks(item.before)) + (LexemesOf(Pieces(item.value)) + (LexemesOf(Marks(item.after)) + rest))
  {
    LexemesAppend(Marks(item.before) + Pieces(item.value), Marks(item.after));
    LexemesAppend(Marks(item.before), Pieces(item.value));
  }

  lemma FirstThenMore(a: seq<Piece>, more: seq<Piece>, rest: seq<Lexeme>)
    ensures LexemesOf(a + more) + rest == LexemesOf(a) + (LexemesOf(more) + rest)
  {
    LexemesAppend(a, more);
  }

  lemma ItemStarts(item: Item, rest: seq<Lexeme>)
    requires ProperItem(item)
    ensures !At(Skip(LexemesOf(OneItem(item)) + rest), ']')
  {
    ItemLexemes(item, rest);
    var after := LexemesOf(Marks(item.after)) + rest;
    SkipGap(item.before, LexemesOf(Pieces(item.value)) + after);
    TreeStarts(item.value, after);
  }

  lemma ItemsStart(items: seq<Item>, rest: seq<Lexeme>)
    requires items != [] && ProperItem(items[0])
    ensures !At(Skip(LexemesOf(ItemPieces(items)) + rest), ']')
  {
    var more := if |items| == 1 then [] else [Mark(',')] + ItemPieces(items[1..]);
    assert ItemPieces(items) == OneItem(items[0]) + more;
    FirstThenMore(OneItem(items[0]), more, rest);
    ItemStarts(items[0], LexemesOf(more) + rest);
  }

  /** One item up to a sign that is no word character: the value, and the blanks behind it
      are skipped. */
  lemma {:induction false} ItemReads(item: Item, next: char, rest: seq<Lexeme>)
    requires ProperItem(item) && !WordChar(next) && !JsonBlank(next)
    ensures var p := ReadValue(LexemesOf(OneItem(item)) + ([Sign(next)] + rest));
            && p.Some? && p.value.value == ValueOf(item.value)
            && Skip(p.value.rest) == [Sign(next)] + rest
    decreases item, 4
  {
    var tail := [Sign(next)] + rest;
    ItemLexemes(item, tail);
    var after := LexemesOf(Marks(item.after)) + tail;
    GapThenValue(item.before, LexemesOf(Pieces(item.value)) + after);
    AfterIsNoWord(item.after, tail);
    TreeReads(item.value, after);
    SkipGap(item.after, tail);
  }

  lemma AfterIsNoWord(gap: string, tail: seq<Lexeme>)
    requires Gap(gap) && !AtWord(tail)
    ensures !AtWord(LexemesOf(Marks(gap)) + tail)
  {
    if gap != "" { assert gap[0] in gap; } else { assert LexemesOf(Marks(gap)) + tail == tail; }
  }

  lemma {:induction false} ItemsRead(items: seq<Item>, rest: seq<Lexeme>)
    requires items != [] && forall i :: 0 <= i < |items| ==> ProperItem(items[i])
    ensures ReadItems(LexemesOf(ItemPieces(items)) + ([Sign(']')] + rest)) == Some(Parsed(ValuesOf(items), rest))
    decreases items, 1
  {
    var tail := [Sign(']')] + rest;
    assert tail[1..] == rest;
    if |items| == 1 {
      ItemReads(items[0], ']', rest);
      assert ValuesOf(items) == [ValueOf(items[0].value)];
    } else {
      var others := LexemesOf(ItemPieces(items[1..])) + tail;
      MoreItems(items, tail);
      ItemReads(items[0], ',', others);
      ItemsRead(items[1..], rest);
      assert ([Sign(',')] + others)[1..] == others;
    }
  }

  lemma MoreItems(items: seq<Item>, tail: seq<Lexeme>)
    requires |items| > 1
    ensures LexemesOf(ItemPieces(items)) + tail
            == LexemesOf(OneItem(items[0])) + ([Sign(',')] + (LexemesOf(ItemPieces(items[1..])) + tail))
  {
    CommaBetween(OneItem(items[0]), ItemPieces(items[1..]), tail);
  }

  lemma CommaBetween(a: seq<Piece>, b: seq<Piece>, tail: seq<Lexeme>)
    ensures LexemesOf(a + ([Mark(',')] + b)) + tail == LexemesOf(a) + ([Sign(',')] + (LexemesOf(b) + tail))
  {
    LexemesAppend(a, [Mark(',')] + b);
    LexemesAppend([Mark(',')], b);
    assert LexemesOf([Mark(',')]) == [Sign(',')];
    Regroup(LexemesOf(a), [Sign(',')], LexemesOf(b), tail);
  }

  lemma Regroup(a: seq<Lexeme>, b: seq<Lexeme>, c: seq<Lexeme>, d: seq<Lexeme>)
    ensures a + (b + c) + d == a + (b + (c + d))
  {}

  lemma ObjectOpens(gap: string, entries: seq<Entry>, rest: seq<Lexeme>)
    ensures var ls := LexemesOf(Pieces(Obj(gap, entries))) + rest;
            At(ls, '{') && ls[1..] == LexemesOf(Marks(gap) + EntryPieces(entries)) + ([Sign('}')] + rest)
  {
    ContainerLexemes('{', Marks(gap) + EntryPieces(entries), '}', rest);
  }

  lemma {:induction false} ObjectReads(gap: string, entries: seq<Entry>, rest: seq<Lexeme>)
    requires Gap(gap) && forall i :: 0 <= i < |entries| ==> ProperEntry(entries[i])
    ensures ReadValue(LexemesOf(Pieces(Obj(gap, entries))) + rest) == Some(Parsed(Dict(MembersOf(entries)), rest))
    decreases entries, 2
  {
    var tail := [Sign('}')] + rest;
    ObjectOpens(gap, entries, rest);
    GapThenBody(gap, EntryPieces(entries), tail);
    if entries == [] {
      assert LexemesOf(EntryPieces(entries)) + tail == tail;
    } else {
      EntriesRead(entries, rest);
      EntriesStart(entries, tail);
      GapThenMembers(gap, LexemesOf(EntryPieces(entries)) + tail);
    }
    ReadsDict(LexemesOf(Pieces(Obj(gap, entries))) + rest, MembersOf(entries), rest);
  }

  lemma EntryLexemes(e: Entry, rest: seq<Lexeme>)
    ensures LexemesOf(OneEntry(e)) + rest
            == LexemesOf(Marks(e.before))
               + ([Lit(e.key)] + (LexemesOf(Marks(e.middle)) + ([Sign(':')] + (LexemesOf(OneItem(e.item)) + rest))))
  {
    var a, k, m, c := Marks(e.before), [Str(e.key, e.quote)], Marks(e.middle), [Mark(':')];
    LexemesAppend(a + k + m + c, OneItem(e.item));
    LexemesAppend(a + k + m, c);
    LexemesAppend(a + k, m);
    LexemesAppend(a, k);
    assert LexemesOf(k) == [Lit(e.key)] && LexemesOf(c) == [Sign(':')];
    SixLists(LexemesOf(a), [Lit(e.key)], LexemesOf(m), [Sign(':')], LexemesOf(OneItem(e.item)), rest);
  }

  lemma SixLists(a: seq<Lexeme>, b: seq<Lexeme>, c: seq<Lexeme>, d: seq<Lexeme>, e: seq<Lexeme>, f: seq<Lexeme>)
    ensures a + b + c + d + e + f == a + (b + (c + (d + (e + f))))
  {}

  lemma EntryStarts(e: Entry, rest: seq<Lexeme>)
    requires ProperEntry(e)
    ensures !At(Skip(LexemesOf(OneEntry(e)) + rest), '}')
  {
    EntryLexemes(e, rest);
    var key := [Lit(e.key)] + (LexemesOf(Marks(e.middle)) + ([Sign(':')] + (LexemesOf(OneItem(e.item)) + rest)));
    SkipGap(e.before, key);
    assert Skip(key) == key;
  }

  lemma EntriesStart(entries: seq<Entry>, rest: seq<Lexeme>)
    requires entries != [] && ProperEntry(entries[0])
    ensures !At(Skip(LexemesOf(EntryPieces(entries)) + rest), '}')
  {
    var more := if |entries| == 1 then [] else [Mark(',')] + EntryPieces(entries[1..]);
    assert EntryPieces(entries) == OneEntry(entries[0]) + more;
    FirstThenMore(OneEntry(entries[0]), more, rest);
    EntryStarts(entries[0], LexemesOf(more) + rest);
  }

  lemma KeyReads(e: Entry, value: seq<Lexeme>)
    requires ProperEntry(e)
    ensures var middle := LexemesOf(Marks(e.middle)) + ([Sign(':')] + value);
            ReadKey(LexemesOf(Marks(e.before)) + ([Lit(e.key)] + middle)) == Some(Parsed(e.key, value))
  {
    var colon := [Sign(':')] + value;
    var middle := LexemesOf(Marks(e.middle)) + colon;
    var key := [Lit(e.key)] + middle;
    SkipGap(e.before, key);
    SkipGap(e.middle, colon);
    assert Skip(key) == key && Skip(colon) == colon;
    assert key[1..] == middle && colon[1..] == value;
  }

  /** One member, as the reader takes it apart. */
  lemma ReadsMember(ls: seq<Lexeme>, key: string, value: seq<Lexeme>, v: Value, after: seq<Lexeme>,
                    next: char, rest: seq<Lexeme>)
    requires ReadKey(ls) == Some(Parsed(key, value))
    requires ReadValue(value) == Some(Parsed(v, after)) && Skip(after) == [Sign(next)] + rest
    requires next == ',' || next == '}'
    ensures var others := ReadMembers(rest);
            ReadMembers(ls)
            == (if next == '}' then Some(Parsed([Member(key, v)], rest))
                else if others.None? then None
                else Some(Parsed([Member(key, v)] + others.value.value, others.value.rest)))
  {
    assert ([Sign(next)] + rest)[1..] == rest;
  }

  /** One member and what follows it. */
  lemma {:induction false} EntryReads(e: Entry, next: char, rest: seq<Lexeme>)
    requires ProperEntry(e) && (next == ',' || next == '}')
    ensures var others := ReadMembers(rest);
            var m := Member(e.key, ValueOf(e.item.value));
            ReadMembers(LexemesOf(OneEntry(e)) + ([Sign(next)] + rest))
            == (if next == '}' then Some(Parsed([m], rest))
                else if others.None? then None else Some(Parsed([m] + others.value.value, others.value.rest)))
    decreases e, 5
  {
    var tail := [Sign(next)] + rest;
    EntryLexemes(e, tail);
    var value := LexemesOf(OneItem(e.item)) + tail;
    KeyReads(e, value);
    ItemReads(e.item, next, rest);
    ReadsMember(LexemesOf(OneEntry(e)) + tail, e.key, value, ValueOf(e.item.value), ReadValue(value).value.rest,
                next, rest);
  }

  lemma {:induction false} EntriesRead(entries: seq<Entry>, rest: seq<Lexeme>)
    requires entries != [] && forall i :: 0 <= i < |entries| ==> ProperEntry(entries[i])
    ensures ReadMembers(LexemesOf(EntryPieces(entries)) + ([Sign('}')] + rest)) == Some(Parsed(MembersOf(entries), rest))
    decreases entries, 1
  {
    var tail := [Sign('}')] + rest;
    if |entries| == 1 {
      EntryReads(entries[0], '}', rest);
      assert MembersOf(entries) == [Member(entries[0].key, ValueOf(entries[0].item.value))];
    } else {
      var others := LexemesOf(EntryPieces(entries[1..])) + tail;
      MoreEntries(entries, tail);
      EntryReads(entries[0], ',', others);
      EntriesRead(entries[1..], rest);
    }
  }

  lemma MoreEntries(entries: seq<Entry>, tail: seq<Lexeme>)
    requires |entries| > 1
    ensures LexemesOf(EntryPieces(entries)) + tail
            == LexemesOf(OneEntry(entries[0])) + ([Sign(',')] + (LexemesOf(EntryPieces(entries[1..])) + tail))
  {
    CommaBetween(OneEntry(entries[0]), EntryPieces(entries[1..]), tail);
  }

  // ------------------------------------------------ what is not read as it is written

  /** A backslash in front of anything but a quote or a backslash stays where it is. */
  lemma OtherEscapesStay(c: char, rest: string, quote: char)
    requires !Quote(c) && c != '\\'
    ensures ReadString(['\\', c] + rest, quote)
            == Token(['\\', c] + ReadString(rest, quote).value, ReadString(rest, quote).rest)
  {
    assert (['\\', c] + rest)[2..] == rest;
  }

  /** A string without its closing quote is read to the end of the text. */
  lemma {:induction false} UnclosedRunsOut(s: string, quote: char)
    requires Quote(quote) && forall i :: 0 <= i < |s| ==> s[i] != quote && s[i] != '\\'
    ensures ReadString(s, quote) == Token(s, "")
  {
    if s != "" {
      assert forall i :: 0 <= i < |s[1..]| ==> s[1..][i] == s[i + 1];
      UnclosedRunsOut(s[1..], quote);
      assert s == [s[0]] + s[1..];
    }
  }

  /** Words and then a closing bracket that nothing opened: there is no literal. */
  lemma {:induction false} StrayBracketIsNone(word: string, close: char, rest: string, buf: string)
    requires Closes(close) && forall i :: 0 <= i < |word| ==> WordChar(word[i])
    ensures Scan(word + [close] + rest, 0, buf) == Scanned(None, [close] + rest)
    decreases |word|
  {
    var s := word + [close] + rest;
    if word == "" {
      assert s == [close] + rest;
    } else {
      assert forall i :: 0 <= i < |word[1..]| ==> word[1..][i] == word[i + 1];
      StrayBracketIsNone(word[1..], close, rest, buf + [word[0]]);
      assert s[0] == word[0] && s[1..] == word[1..] + [close] + rest;
    }
  }

  predicate AllSemicolons(s: string) { forall i :: 0 <= i < |s| ==> s[i] == ';' }

  lemma {:induction false} SemicolonsStripped(s: string) returns (back: string)
    ensures s == StripSemicolons(s) + back && AllSemicolons(back)
    ensures StripSemicolons(s) != "" ==> StripSemicolons(s)[|StripSemicolons(s)| - 1] != ';'
  {
    if s != "" && s[|s| - 1] == ';' {
      back := SemicolonsStripped(s[..|s| - 1]);
      back := back + [';'];
    } else {
      back := "";
    }
  }

  lemma Trimmed(s: string) returns (front: string, back: string)
    ensures s == front + Trim(s) + back && AllBlank(front) && AllBlank(back)
    ensures Trim(s) != "" ==> !Blank(Trim(s)[0]) && !Blank(Trim(s)[|Trim(s)| - 1])
  {
    front := LeftStripped(s);
    back := RightStripped(StripLeft(s));
  }

  /** The literal is the collected text without the blanks around it, then without the
      semicolons at its end, then without the blanks around that; none if nothing is left. */
  lemma TidyMeaning(s: string)
    returns (front: string, core: string, semicolons: string, back: string, left: string, right: string)
    ensures s == front + (left + core + right + semicolons) + back
    ensures AllBlank(front) && AllBlank(back) && AllBlank(left) && AllBlank(right) && AllSemicolons(semicolons)
    ensures core != "" ==> !Blank(core[0]) && !Blank(core[|core| - 1])
    ensures (left + core + right) != "" ==> (left + core + right)[|left + core + right| - 1] != ';'
    ensures Tidy(Some(s)) == if core == "" then None else Some(core)
  {
    front, back := Trimmed(s);
    semicolons := SemicolonsStripped(Trim(s));
    left, right := Trimmed(StripSemicolons(Trim(s)));
    core := Trim(StripSemicolons(Trim(s)));
  }

  // ------------------------------------------------------------------- round trip

  /** The JSON text of a tree means the tree: strings, words, order and nesting. */
  lemma JsonLoads(t: Tree)
    requires Proper(t)
    ensures Loads(Json(t)) == Some(ValueOf(t))
  {
    TreeLevel(t, 1);
    InsideHasNoLooseQuotes(Pieces(t), 1);
    PiecesLex(Pieces(t));
    TreeReads(t, []);
    assert LexemesOf(Pieces(t)) + [] == LexemesOf(Pieces(t));
  }

  /** So equal JSON text means equal trees, up to quotes and layout. */
  lemma JsonTellsTreesApart(t: Tree, u: Tree)
    requires Proper(t) && Proper(u) && Json(t) == Json(u)
    ensures ValueOf(t) == ValueOf(u)
  {
    JsonLoads(t);
    JsonLoads(u);
  }

  /** JSON text of a tree begins and ends with characters that trimming leaves alone. */
  lemma JsonIsTidy(t: Tree, gap: string)
    requires Proper(t) && Gap(gap)
    ensures Tidy(Some(Json(t) + gap)) == Some(Json(t))
  {
    var s := Json(t);
    JsonEnds(t);
    assert (s + gap)[0] == s[0];
    assert StripLeft(s + gap) == s + gap;
    StripGap(s, gap);
    assert StripRight(s) == s && StripLeft(s) == s;
  }

  lemma {:induction false} StripGap(s: string, gap: string)
    requires Gap(gap) && s != "" && !Blank(s[|s| - 1])
    ensures StripRight(s + gap) == s
  {
    if gap == "" {
      assert s + gap == s;
    } else {
      var init := gap[..|gap| - 1];
      assert gap[|gap| - 1] in gap && forall c :: c in init ==> c in gap;
      assert (s + gap)[..|s + gap| - 1] == s + init;
      StripGap(s, init);
    }
  }

  lemma JsonEnds(t: Tree)
    requires Proper(t)
    ensures var s := Json(t); s != "" && !Blank(s[0]) && !Blank(s[|s| - 1]) && s[|s| - 1] != ';'
  {
    match t {
      case Text(v, q) =>
        assert [Str(v, q)][1..] == [] && JsonOf([]) == "";
        assert Json(t) == Dumps(v);
      case Bare(w) =>
        MarksText(w);
        assert w[0] in w && w[|w| - 1] in w;
      case Arr(_, _) => BracketText('[', Inner(t), ']');
      case Obj(_, _) => BracketText('{', Inner(t), '}');
    }
  }

  /** Round trip. For any tree written in the report's notation, in either quote and any
      layout, then blanks, a semicolon and any tail, the reader returns a JSON text that says
      exactly that tree, and stops at the value's end. */
  lemma LiteralRoundTrip(t: Tree, gap: string, tail: string)
    requires Proper(t) && Gap(gap)
    ensures var r := Scan(Js(t) + gap + (";" + tail), 0, "");
            && Tidy(r.text).Some? && Loads(Tidy(r.text).value) == Some(ValueOf(t))
            && r.rest == (if t.Arr? || t.Obj? then gap + (";" + tail) else ";" + tail)
  {
    JsonLoads(t);
    if t.Arr? || t.Obj? {
      Assoc(Js(t), gap, ";" + tail);
      ContainerScansAtTop(t, gap + (";" + tail));
      JsonIsTidy(t, "");
      assert Json(t) + "" == Json(t);
    } else {
      ScalarScansAtTop(t, gap, tail);
      JsonIsTidy(t, gap);
    }
  }
}
