/**
 The hand-written multipart splitter. The structural pass works on Latin-1 text, where a
 character is a byte, so bodies and part values are strings here.
 */
module Multipart {
  import opened Common
  import opened Hosts

  datatype Field = Field(name: string, fileName: Option<string>, value: string)

  // ------------------------------------------------------------------ searching

  predicate StartsWith(s: string, p: string) { |p| <= |s| && s[..|p|] == p }

  predicate At(s: string, p: string, i: int) {
    0 <= i && i + |p| <= |s| && s[i..i + |p|] == p
  }

  function FindFrom(s: string, p: string, i: nat): (k: Option<nat>)
    ensures k.Some? ==> i <= k.value && At(s, p, k.value) && forall j :: i <= j < k.value ==> !At(s, p, j)
    ensures k.None? ==> forall j :: i <= j ==> !At(s, p, j)
    decreases |s| - i
  {
    if i + |p| > |s| then None
    else if s[i..i + |p|] == p then Some(i)
    else if i < |s| then FindFrom(s, p, i + 1)
    else None
  }

  /** `IndexOf`: the first place where `p` occurs. */
  function Find(s: string, p: string): (k: Option<nat>)
    ensures k.Some? ==> At(s, p, k.value) && forall j :: 0 <= j < k.value ==> !At(s, p, j)
    ensures k.None? ==> forall j :: !At(s, p, j)
  {
    FindFrom(s, p, 0)
  }

  predicate SameIgnoringCase(a: string, b: string) {
    |a| == |b| && forall i :: 0 <= i < |a| ==> Lower(a[i]) == Lower(b[i])
  }

  /** The quoted value a key opens: up to a quote, a backslash taking the next character
      (but not a line feed) with it. */
  function Closing(s: string): (k: Option<nat>)
    ensures k.Some? ==> k.value < |s|
  {
    if s == "" then None
    else if s[0] == '"' then Some(0)
    else if s[0] == '\\' then
      if |s| < 2 || s[1] == '\n' then None
      else
        var k := Closing(s[2..]);
        if k.None? then None else Some(k.value + 2)
    else
      var k := Closing(s[1..]);
      if k.None? then None else Some(k.value + 1)
  }

  const NAME_KEY := "name=\""
  const FILE_KEY := "filename=\""

  predicate KeyAt(s: string, i: nat, key: string) {
    i + |key| <= |s| && SameIgnoringCase(s[i..i + |key|], key)
  }

  /** The leftmost match of `key`, a quoted value and its closing quote. */
  function Quoted(s: string, key: string): Option<string> {
    if KeyAt(s, 0, key) && Closing(s[|key|..]).Some? then Some(s[|key|..][..Closing(s[|key|..]).value])
    else if s == "" then None
    else Quoted(s[1..], key)
  }

  // -------------------------------------------------------------------- parsing

  const BLANK_LINE := "\r\n\r\n"

  /** The field of one part, if it has a head with a name. */
  function FieldOf(part: string): Option<Field> {
    var split := Find(part, BLANK_LINE);
    if split.None? then None
    else
      var head, payload := part[..split.value], part[split.value + 4..];
      var name := Quoted(head, NAME_KEY);
      if name.None? then None
      else
        var ends := |payload| >= 2 && payload[|payload| - 2..] == "\r\n";
        Some(Field(name.value, Quoted(head, FILE_KEY), if ends then payload[..|payload| - 2] else payload))
  }

  function AsList(f: Option<Field>): seq<Field> { if f.Some? then [f.value] else [] }

  // The closing mark ends the list; any other part is one of it.
  function Unless(part: string, more: seq<string>): seq<string> {
    if StartsWith(part, "--") then [] else [part] + more
  }

  /** What follows a delimiter that ends at `start`: a part up to the next one, until the
      closing mark. */
  function PartsFrom(text: string, start: nat, delimiter: string): seq<string>
    requires delimiter != "" && start <= |text|
    decreases |text| - start
  {
    var next := FindFrom(text, delimiter, start);
    if next.None? then Unless(text[start..], [])
    else Unless(text[start..next.value], PartsFrom(text, next.value + |delimiter|, delimiter))
  }

  function FieldsOf(parts: seq<string>): seq<Field> {
    if parts == [] then [] else FieldsOf(parts[..|parts| - 1]) + AsList(FieldOf(parts[|parts| - 1]))
  }

  /** The parts still to come when the cursor is on a delimiter, or past the last one. */
  function Remaining(text: string, cursor: int, delimiter: string): seq<string>
    requires delimiter != "" && (cursor >= 0 ==> cursor + |delimiter| <= |text|)
  {
    if cursor < 0 then [] else PartsFrom(text, cursor + |delimiter|, delimiter)
  }

  function Parts(text: string, delimiter: string): seq<string>
    requires delimiter != ""
  {
    var first := Find(text, delimiter);
    if text == "" || first.None? then [] else Remaining(text, first.value, delimiter)
  }

  function Fields(text: string, boundary: string): seq<Field> { FieldsOf(Parts(text, "--" + boundary)) }

  lemma FieldsOfOneMore(parts: seq<string>, part: string)
    ensures FieldsOf(parts + [part]) == FieldsOf(parts) + AsList(FieldOf(part))
  {
    assert (parts + [part])[..|parts|] == parts;
  }

  lemma UnlessJoins(done: seq<string>, part: string, more: seq<string>, all: seq<string>)
    requires done + Unless(part, more) == all
    ensures StartsWith(part, "--") ==> all == done
    ensures !StartsWith(part, "--") ==> all == done + [part] + more
  {
    if StartsWith(part, "--") { assert done + [] == done; }
  }

  /** The splitter as written: a cursor over the text. It terminates and stays in range on
      every input. */
  method ParseMultipart(text: string, boundary: Option<string>) returns (fields: seq<Field>)
    ensures fields == if boundary.None? then [] else Fields(text, boundary.value)
  {
    if boundary.None? { return []; }
    if text == "" { return []; }
    var delimiter := "--" + boundary.value;
    var first := Find(text, delimiter);
    if first.None? { return []; }
    fields := SplitFrom(text, first.value, delimiter);
  }

  /** One turn of the cursor. */
  lemma RemainingTurn(text: string, cursor: nat, delimiter: string, part: string, next: int)
    requires delimiter != "" && cursor + |delimiter| <= |text|
    requires var found := FindFrom(text, delimiter, cursor + |delimiter|);
             if found.None? then next == -1 && part == text[cursor + |delimiter|..|text|]
             else next == found.value && part == text[cursor + |delimiter|..next]
    ensures next >= 0 ==> next + |delimiter| <= |text| && next > cursor
    ensures Remaining(text, cursor, delimiter) == Unless(part, Remaining(text, next, delimiter))
  {
    if next < 0 { assert text[cursor + |delimiter|..|text|] == text[cursor + |delimiter|..]; }
  }

  method AddField(fields: seq<Field>, part: string, ghost done: seq<string>) returns (more: seq<Field>)
    requires fields == FieldsOf(done)
    ensures more == FieldsOf(done + [part])
  {
    FieldsOfOneMore(done, part);
    var field := FieldOf(part);
    more := if field.Some? then fields + [field.value] else fields;
  }

  method SplitFrom(text: string, first: nat, delimiter: string) returns (fields: seq<Field>)
    requires delimiter != "" && first + |delimiter| <= |text|
    ensures fields == FieldsOf(Remaining(text, first, delimiter))
  {
    fields := [];
    var cursor: int := first;
    ghost var done: seq<string> := [];
    ghost var all := Remaining(text, first, delimiter);
    assert done + all == all;
    while cursor >= 0
      invariant cursor >= 0 ==> cursor + |delimiter| <= |text|
      invariant done + Remaining(text, cursor, delimiter) == all
      invariant fields == FieldsOf(done)
      decreases if cursor < 0 then 0 else |text| - cursor + 1
    {
      var start := cursor + |delimiter|;
      var found := FindFrom(text, delimiter, start);
      var end := if found.None? then |text| else found.value;
      var part := text[start..end];
      var next := if found.None? then -1 else end;
      RemainingTurn(text, cursor, delimiter, part, next);
      UnlessJoins(done, part, Remaining(text, next, delimiter), all);
      cursor := next;
      if StartsWith(part, "--") { return; }
      fields := AddField(fields, part, done);
      done := done + [part];
    }
    assert done + [] == done;
  }

  // -------------------------------------------------------------------- printing

  /** A field with the head it is written in: any text before the name parameter, between
      it and the file name, and behind them. Other header lines are part of that text. */
  datatype Entry = Entry(field: Field, lead: string, between: string, tail: string)

  function Named(e: Entry): string { e.lead + NAME_KEY + e.field.name + "\"" }

  function Behind(e: Entry): string {
    if e.field.fileName.Some? then e.between + (FILE_KEY + e.field.fileName.value + "\"" + e.tail) else e.tail
  }

  function Head(e: Entry): string { Named(e) + Behind(e) }

  function Part(e: Entry): string { "\r\n" + Head(e) + BLANK_LINE + e.field.value + "\r\n" }

  function Body(entries: seq<Entry>, boundary: string): string {
    if entries == [] then "--" + boundary + "--"
    else "--" + boundary + Part(entries[0]) + Body(entries[1..], boundary)
  }

  /** The pattern of a key matches here: the key, a quoted value and its closing quote. */
  predicate MatchAt(s: string, i: nat, key: string) {
    KeyAt(s, i, key) && Closing(s[i + |key|..]).Some?
  }

  /** Text that can stand between quotes as it is: no bare quote, no dangling backslash. */
  predicate Quotable(v: string) {
    if v == "" then true
    else if v[0] == '\\' then |v| >= 2 && v[1] != '\n' && Quotable(v[2..])
    else v[0] != '"' && Quotable(v[1..])
  }

  function FilePlace(e: Entry): nat {
    if e.field.fileName.Some? then |Named(e)| + |e.between| else |Head(e)|
  }

  predicate NoEarlyBlankLine(head: string) {
    forall i :: 0 <= i < 2 + |head| ==> !At("\r\n" + head + BLANK_LINE, BLANK_LINE, i)
  }

  /** A head that says what it means: the name comes first, nothing before a parameter looks
      like it, and the first blank line is the one that ends the head. */
  predicate Readable(e: Entry) {
    && Quotable(e.field.name) && (e.field.fileName.Some? ==> Quotable(e.field.fileName.value))
    && (forall i :: 0 <= i < |e.lead| ==> !MatchAt(Head(e), i, NAME_KEY))
    && (forall i :: 0 <= i < FilePlace(e) ==> !MatchAt(Head(e), i, FILE_KEY))
    && NoEarlyBlankLine(Head(e))
  }

  predicate Renderable(e: Entry, boundary: string) { Readable(e) && Find(Part(e), "--" + boundary).None? }

  // ---------------------------------------------------------- searching, the facts

  lemma FindFirst(s: string, p: string, k: nat)
    requires At(s, p, k) && forall i :: 0 <= i < k ==> !At(s, p, i)
    ensures Find(s, p) == Some(k)
  {
    var f := Find(s, p);
    assert f.Some? && f.value <= k && k <= f.value;
  }

  /** Text free of the delimiter and ending in a line feed, which the delimiter does not
      contain: the next delimiter is the one printed behind it. */
  lemma NextDelimiter(before: string, part: string, delimiter: string, more: string)
    requires part != "" && part[|part| - 1] == '\n' && '\n' !in delimiter && delimiter != ""
    requires Find(part, delimiter).None?
    ensures FindFrom(before + part + delimiter + more, delimiter, |before|) == Some(|before| + |part|)
  {
    var s := before + part + delimiter + more;
    var k := |before| + |part|;
    assert At(s, delimiter, k);
    assert s[k - 1] == '\n';
    forall i | |before| <= i < k ensures !At(s, delimiter, i) {
      if i + |delimiter| <= k {
        assert !At(part, delimiter, i - |before|);
        assert s[i..i + |delimiter|] == part[i - |before|..i - |before| + |delimiter|];
      } else if i + |delimiter| <= |s| {
        var w := s[i..i + |delimiter|];
        assert w[k - 1 - i] == '\n' && w[k - 1 - i] in w;
      }
    }
    var f := FindFrom(s, delimiter, |before|);
    assert f.Some? && f.value <= k && k <= f.value;
  }

  /** The blank line of a printed part is the one behind its head. */
  lemma BlankLineBehindHead(head: string, payload: string)
    requires NoEarlyBlankLine(head)
    ensures Find("\r\n" + head + BLANK_LINE + payload, BLANK_LINE) == Some(2 + |head|)
  {
    var front := "\r\n" + head + BLANK_LINE;
    var s := front + payload;
    assert At(s, BLANK_LINE, 2 + |head|);
    forall i | 0 <= i < 2 + |head| ensures !At(s, BLANK_LINE, i) {
      assert s[i..i + 4] == front[i..i + 4];
      assert !At(front, BLANK_LINE, i);
    }
    FindFirst(s, BLANK_LINE, 2 + |head|);
  }

  // A key is some text without quotes and one quote at its end.
  predicate IsKey(key: string) {
    |key| >= 1 && key[|key| - 1] == '"' && forall i :: 0 <= i < |key| - 1 ==> key[i] != '"'
  }

  lemma LowerQuote(c: char, d: char)
    requires Lower(c) == Lower(d) && (c == '"' || d == '"')
    ensures c == d
  {}

  /** A key can only start where its own quote falls on the next quote of the text. */
  lemma KeyEndsAtNextQuote(s: string, i: nat, q: nat, key: string)
    requires IsKey(key) && i <= q < |s| && s[q] == '"' && '"' !in s[i..q] && KeyAt(s, i, key)
    ensures i + |key| - 1 == q
  {
    var w := s[i..i + |key|];
    LowerQuote(w[|key| - 1], key[|key| - 1]);
    assert s[i + |key| - 1] == '"';
    forall j | i <= j < q ensures s[j] != '"' { assert s[j] == s[i..q][j - i] && s[j] in s[i..q]; }
    assert i + |key| - 1 >= q;
    if i + |key| - 1 > q {
      LowerQuote(w[q - i], key[q - i]);
    }
  }

  lemma KeyStartsAlike(s: string, i: nat, key: string)
    requires key != "" && KeyAt(s, i, key)
    ensures Lower(s[i]) == Lower(key[0])
  {
    assert s[i..i + |key|][0] == s[i];
  }

  lemma MatchAtTail(s: string, i: nat, key: string)
    requires s != ""
    ensures MatchAt(s[1..], i, key) == MatchAt(s, i + 1, key)
  {
    if i + 1 + |key| <= |s| {
      assert s[1..][i..i + |key|] == s[i + 1..i + 1 + |key|];
      assert s[1..][i + |key|..] == s[i + 1 + |key|..];
    }
  }

  /** Nothing matches before `k`, so the search may start there. */
  lemma {:induction false} SkipTo(s: string, k: nat, key: string)
    requires k <= |s|
    requires forall i :: 0 <= i < k ==> !MatchAt(s, i, key)
    ensures Quoted(s, key) == Quoted(s[k..], key)
  {
    if k > 0 {
      assert !MatchAt(s, 0, key);
      forall i | 0 <= i < k - 1 ensures !MatchAt(s[1..], i, key) { MatchAtTail(s, i, key); }
      SkipTo(s[1..], k - 1, key);
      assert s[1..][k - 1..] == s[k..];
    } else {
      assert s[0..] == s;
    }
  }

  lemma {:induction false} ClosingQuotable(v: string, more: string)
    requires Quotable(v)
    ensures Closing(v + "\"" + more) == Some(|v|)
    decreases |v|
  {
    var s := v + "\"" + more;
    if v != "" {
      if v[0] == '\\' {
        assert s[1] == v[1] && s[2..] == v[2..] + "\"" + more;
        ClosingQuotable(v[2..], more);
      } else {
        assert s[1..] == v[1..] + "\"" + more;
        ClosingQuotable(v[1..], more);
      }
    }
  }

  lemma QuotedHere(key: string, v: string, more: string)
    requires Quotable(v)
    ensures Quoted(key + v + "\"" + more, key) == Some(v)
  {
    var s := key + v + "\"" + more;
    assert s[0..0 + |key|] == key;
    assert KeyAt(s, 0, key);
    assert s[|key|..] == v + "\"" + more;
    ClosingQuotable(v, more);
    assert s[|key|..][..|v|] == v;
  }

  // ------------------------------------------------------ what the searches find

  /** A key stands at a place if the text there is the key, in small letters or capitals. */
  lemma KeyMatches(s: string, i: nat, key: string)
    requires key == NAME_KEY || key == FILE_KEY
    ensures KeyAt(s, i, key)
            <==> i + |key| <= |s|
                 && forall j :: 0 <= j < |key| ==>
                      s[i + j] == key[j] || ('a' <= key[j] <= 'z' && s[i + j] as int == key[j] as int - 32)
  {
    if i + |key| <= |s| {
      var w := s[i..i + |key|];
      assert forall j :: 0 <= j < |key| ==> w[j] == s[i + j];
      forall j | 0 <= j < |key|
        ensures Lower(w[j]) == Lower(key[j])
                <==> w[j] == key[j] || ('a' <= key[j] <= 'z' && w[j] as int == key[j] as int - 32)
      {
        SameLetter(w[j], key[j]);
      }
    }
  }

  lemma SameLetter(c: char, k: char)
    requires !('A' <= k <= 'Z')
    ensures Lower(c) == Lower(k) <==> c == k || ('a' <= k <= 'z' && c as int == k as int - 32)
  {}

  lemma {:induction false} ClosingMeaning(s: string)
    ensures Closing(s).Some? ==> Quotable(s[..Closing(s).value]) && s[Closing(s).value] == '"'
    ensures Closing(s).None? ==> forall k :: 0 <= k < |s| && s[k] == '"' ==> !Quotable(s[..k])
    decreases |s|
  {
    if s != "" && s[0] != '"' {
      var step := if s[0] == '\\' then 2 else 1;
      if s[0] == '\\' && (|s| < 2 || s[1] == '\n') {
        forall k | 0 <= k < |s| && s[k] == '"' ensures !Quotable(s[..k]) { HeadOfQuotable(s, k); }
      } else {
        ClosingMeaning(s[step..]);
        if Closing(s).Some? {
          var k := Closing(s).value;
          assert s[..k][step..] == s[step..][..k - step];
          assert s[..k][0] == s[0] && (step == 2 ==> s[..k][1] == s[1]);
        } else {
          forall k | 0 <= k < |s| && s[k] == '"' ensures !Quotable(s[..k]) {
            if k >= step { assert s[..k][step..] == s[step..][..k - step] && s[step..][k - step] == '"'; }
            HeadOfQuotable(s, k);
          }
        }
      }
    }
  }

  lemma HeadOfQuotable(s: string, k: nat)
    requires 0 < k < |s|
    ensures s[..k][0] == s[0] && (k >= 2 ==> s[..k][1] == s[1])
    ensures s[..k] != "" && (s[0] == '\\' && k < 2 ==> !Quotable(s[..k]))
  {}

  /** The leftmost place where the key, a quoted value and its closing quote stand, and the
      value there; none if there is no such place. */
  lemma {:induction false} QuotedMeaning(s: string, key: string)
    requires key == NAME_KEY || key == FILE_KEY
    ensures Quoted(s, key).None? <==> forall i :: 0 <= i <= |s| ==> !MatchAt(s, i, key)
    ensures Quoted(s, key).Some? ==>
              exists i :: 0 <= i <= |s| && MatchAt(s, i, key) && (forall j :: 0 <= j < i ==> !MatchAt(s, j, key))
                && ValueAt(s, i + |key|, Quoted(s, key).value)
  {
    if MatchAt(s, 0, key) {
      ClosingMeaning(s[|key|..]);
      ValueHere(s, key);
    } else if s != "" {
      QuotedMeaning(s[1..], key);
      forall i | 0 <= i < |s| ensures MatchAt(s[1..], i, key) == MatchAt(s, i + 1, key) { MatchAtTail(s, i, key); }
      if Quoted(s, key).Some? {
        var i :| 0 <= i <= |s[1..]| && MatchAt(s[1..], i, key) && (forall j :: 0 <= j < i ==> !MatchAt(s[1..], j, key))
                && ValueAt(s[1..], i + |key|, Quoted(s[1..], key).value);
        FirstLater(s, i, key, Quoted(s[1..], key).value);
      } else {
        forall i | 0 <= i <= |s| ensures !MatchAt(s, i, key) { if i > 0 { MatchAtTail(s, i - 1, key); } }
      }
    }
  }

  /** A quotable text and a quote behind it. */
  predicate ValueAt(s: string, i: nat, v: string) {
    i + |v| < |s| && s[i..i + |v|] == v && s[i + |v|] == '"' && Quotable(v)
  }

  lemma ValueHere(s: string, key: string)
    requires MatchAt(s, 0, key)
    requires var rest := s[|key|..]; Quotable(rest[..Closing(rest).value]) && rest[Closing(rest).value] == '"'
    ensures Quoted(s, key).Some? && ValueAt(s, 0 + |key|, Quoted(s, key).value)
  {
    var rest := s[|key|..];
    var v := rest[..Closing(rest).value];
    assert s[|key|..|key| + |v|] == v && s[|key| + |v|] == rest[|v|];
  }

  lemma FirstLater(s: string, i: nat, key: string, v: string)
    requires s != "" && i <= |s| - 1 && !MatchAt(s, 0, key) && MatchAt(s[1..], i, key)
    requires forall j :: 0 <= j < i ==> !MatchAt(s[1..], j, key)
    requires ValueAt(s[1..], i + |key|, v)
    ensures MatchAt(s, i + 1, key) && (forall j :: 0 <= j < i + 1 ==> !MatchAt(s, j, key)) && ValueAt(s, i + 1 + |key|, v)
  {
    MatchAtTail(s, i, key);
    forall j | 0 <= j < i + 1 ensures !MatchAt(s, j, key) { if j > 0 { MatchAtTail(s, j - 1, key); } }
    var k := i + |key|;
    assert s[1..][k..k + |v|] == s[k + 1..k + 1 + |v|];
  }

  /** A part gives a field exactly if it has a blank line and a name in the head before it;
      of the text behind the blank line one line end at the very end is not part of the value. */
  lemma FieldOfMeaning(part: string)
    ensures FieldOf(part).Some? <==> exists k: nat ::
              At(part, "\r\n\r\n", k) && (forall j :: 0 <= j < k ==> !At(part, "\r\n\r\n", j))
              && Quoted(part[..k], NAME_KEY).Some?
    ensures FieldOf(part).Some? ==>
              exists k: nat :: At(part, "\r\n\r\n", k)
                && Quoted(part[..k], NAME_KEY) == Some(FieldOf(part).value.name)
                && Quoted(part[..k], FILE_KEY) == FieldOf(part).value.fileName
                && (part[k + 4..] == FieldOf(part).value.value + "\r\n"
                    || (part[k + 4..] == FieldOf(part).value.value
                        && !(|part[k + 4..]| >= 2 && part[|part| - 2..] == "\r\n")))
  {
    var split := Find(part, BLANK_LINE);
    if split.Some? {
      var k := split.value;
      assert At(part, "\r\n\r\n", k);
      var payload := part[k + 4..];
      if |payload| >= 2 {
        assert payload[|payload| - 2..] == part[|part| - 2..];
        assert payload == payload[..|payload| - 2] + payload[|payload| - 2..];
      }
      if FieldOf(part).None? {
        forall m: nat | At(part, "\r\n\r\n", m) && (forall j :: 0 <= j < m ==> !At(part, "\r\n\r\n", j)) ensures m == k {}
      }
    }
  }

  /** The pieces, each behind its delimiter. */
  function Chained(pieces: seq<string>, delimiter: string): string {
    if pieces == [] then "" else delimiter + pieces[0] + Chained(pieces[1..], delimiter)
  }

  predicate Dashed(s: string) { |s| >= 2 && s[0] == '-' && s[1] == '-' }

  lemma DashedStarts(s: string)
    ensures Dashed(s) <==> StartsWith(s, "--")
  {
    if |s| >= 2 { assert s[..2] == [s[0], s[1]]; }
  }

  ghost predicate Pieces(pieces: seq<string>, delimiter: string, n: nat) {
    && n <= |pieces|
    && (forall i :: 0 <= i < |pieces| ==> Find(pieces[i], delimiter).None?)
    && (forall i :: 0 <= i < n ==> !Dashed(pieces[i]))
    && (n < |pieces| ==> Dashed(pieces[n]))
  }

  lemma {:induction false} RestMeaning(text: string, start: nat, delimiter: string)
    returns (pieces: seq<string>, n: nat)
    requires delimiter != "" && start <= |text|
    ensures delimiter + text[start..] == Chained(pieces, delimiter) && pieces != []
    ensures Pieces(pieces, delimiter, n) && PartsFrom(text, start, delimiter) == pieces[..n]
    decreases |text| - start
  {
    var next := FindFrom(text, delimiter, start);
    if next.None? {
      pieces, n := [text[start..]], if StartsWith(text[start..], "--") then 0 else 1;
      DashedStarts(text[start..]);
      LastPiece(text, start, delimiter, text[start..], n);
    } else {
      var part, after := text[start..next.value], next.value + |delimiter|;
      var others, m := RestMeaning(text, after, delimiter);
      n := if StartsWith(part, "--") then 0 else m + 1;
      pieces := [part] + others;
      DashedStarts(part);
      PieceHasNone(text, start, next.value, delimiter);
      MorePieces(part, others, delimiter, m, n);
      OnePieceMore(text, start, delimiter, next.value, after, part, others);
      PartsStep(text, start, delimiter, part, next.value, after);
      Prefixes(part, others, m, n);
    }
  }

  lemma Prefixes(part: string, others: seq<string>, m: nat, n: nat)
    requires m <= |others| && n == if StartsWith(part, "--") then 0 else m + 1
    ensures Unless(part, others[..m]) == ([part] + others)[..n]
  {}

  lemma LastPiece(text: string, start: nat, delimiter: string, part: string, n: nat)
    requires delimiter != "" && start <= |text| && FindFrom(text, delimiter, start).None? && part == text[start..]
    requires n == (if StartsWith(part, "--") then 0 else 1) && (Dashed(part) <==> StartsWith(part, "--"))
    ensures delimiter + part == Chained([part], delimiter) && Pieces([part], delimiter, n)
    ensures PartsFrom(text, start, delimiter) == [part][..n]
  {
    PieceHasNone(text, start, |text|, delimiter);
    assert text[start..|text|] == part;
    assert delimiter + part + "" == delimiter + part;
    assert [part] + [] == [part];
  }

  lemma OnePieceMore(text: string, start: nat, delimiter: string, k: nat, after: nat, part: string, others: seq<string>)
    requires start <= k && At(text, delimiter, k) && after == k + |delimiter| && part == text[start..k]
    requires delimiter + text[after..] == Chained(others, delimiter)
    ensures delimiter + text[start..] == Chained([part] + others, delimiter)
  {
    TextInThree(text, start, k, delimiter);
    ChainedCons(part, others, delimiter);
    FiveTexts(delimiter, part, text[after..]);
  }

  lemma ChainedCons(part: string, others: seq<string>, delimiter: string)
    ensures Chained([part] + others, delimiter) == delimiter + part + Chained(others, delimiter)
  {
    assert ([part] + others)[1..] == others;
  }

  lemma FiveTexts(d: string, part: string, rest: string)
    ensures d + part + (d + rest) == d + (part + d + rest)
  {}

  lemma MorePieces(part: string, others: seq<string>, delimiter: string, m: nat, n: nat)
    requires Find(part, delimiter).None? && Pieces(others, delimiter, m)
    requires n == if Dashed(part) then 0 else m + 1
    ensures Pieces([part] + others, delimiter, n)
  {}

  lemma TextInThree(text: string, start: nat, k: nat, delimiter: string)
    requires start <= k && At(text, delimiter, k)
    ensures text[start..] == text[start..k] + delimiter + text[k + |delimiter|..]
  {
    assert text[start..] == text[start..k] + text[k..];
    assert text[k..] == text[k..k + |delimiter|] + text[k + |delimiter|..];
  }

  /** A piece between two finds holds no delimiter of its own. */
  lemma PieceHasNone(text: string, start: nat, k: nat, delimiter: string)
    requires delimiter != "" && start <= k <= |text| && forall j :: start <= j < k ==> !At(text, delimiter, j)
    ensures Find(text[start..k], delimiter).None?
  {
    var piece := text[start..k];
    forall j | 0 <= j ensures !At(piece, delimiter, j) {
      if j + |delimiter| <= |piece| {
        SliceOfSlice(text, start, k, j, j + |delimiter|);
        assert !At(text, delimiter, start + j);
      }
    }
  }

  lemma SliceOfSlice(s: string, a: nat, b: nat, i: nat, j: nat)
    requires a <= b <= |s| && i <= j <= b - a
    ensures s[a..b][i..j] == s[a + i..a + j]
  {
    var u, v := s[a..b][i..j], s[a + i..a + j];
    assert |u| == |v| && forall m :: 0 <= m < |u| ==> u[m] == s[a + i + m] && v[m] == s[a + i + m];
  }

  /** The parts of a body: cut it at each delimiter from left to right; what stands before
      the first is none, and what begins with two dashes ends the list. */
  lemma PartsMeaning(text: string, delimiter: string) returns (before: string, pieces: seq<string>, n: nat)
    requires delimiter != "" && Find(text, delimiter).Some?
    ensures text == before + Chained(pieces, delimiter) && Find(before, delimiter).None?
    ensures Pieces(pieces, delimiter, n) && Parts(text, delimiter) == pieces[..n]
  {
    var k := Find(text, delimiter).value;
    var start := k + |delimiter|;
    pieces, n := RestMeaning(text, start, delimiter);
    before := BeforeFirst(text, delimiter, k, start, pieces);
    PartsFound(text, delimiter, k, start);
  }

  lemma NoDelimiterNoParts(text: string, delimiter: string)
    requires delimiter != "" && Find(text, delimiter).None?
    ensures Parts(text, delimiter) == []
  {}

  lemma BeforeFirst(text: string, delimiter: string, k: nat, start: nat, pieces: seq<string>) returns (before: string)
    requires delimiter != "" && Find(text, delimiter) == Some(k) && start == k + |delimiter|
    requires delimiter + text[start..] == Chained(pieces, delimiter)
    ensures text == before + Chained(pieces, delimiter) && Find(before, delimiter).None?
  {
    before := text[..k];
    PieceHasNone(text, 0, k, delimiter);
    assert text[0..k] == before;
    TextInThree(text, 0, k, delimiter);
    assert text[0..] == text;
    assert before + delimiter + text[start..] == before + (delimiter + text[start..]);
  }

  // ------------------------------------------------------------------ one part

  lemma HeadFromName(e: Entry)
    ensures Head(e)[|e.lead|..] == NAME_KEY + e.field.name + "\"" + Behind(e)
  {
    FromSecond(e.lead, NAME_KEY, e.field.name, "\"", Behind(e));
  }

  lemma FromSecond(a: string, b: string, c: string, d: string, e: string)
    ensures (a + b + c + d + e)[|a|..] == b + c + d + e
  {}

  lemma NameIsFound(e: Entry)
    requires Readable(e)
    ensures Quoted(Head(e), NAME_KEY) == Some(e.field.name)
  {
    SkipTo(Head(e), |e.lead|, NAME_KEY);
    HeadFromName(e);
    QuotedHere(NAME_KEY, e.field.name, Behind(e));
  }

  lemma FromThird(a: string, b: string, c: string)
    ensures (a + (b + c))[|a| + |b|..] == c
  {}

  lemma FileNameIsFound(e: Entry)
    requires Readable(e)
    ensures Quoted(Head(e), FILE_KEY) == e.field.fileName
  {
    SkipTo(Head(e), FilePlace(e), FILE_KEY);
    HeadFromFileName(e);
    if e.field.fileName.Some? { QuotedHere(FILE_KEY, e.field.fileName.value, e.tail); }
  }

  lemma HeadFromFileName(e: Entry)
    ensures Head(e)[FilePlace(e)..] == (if e.field.fileName.None? then ""
                                        else FILE_KEY + e.field.fileName.value + "\"" + e.tail)
  {
    if e.field.fileName.Some? {
      FromThird(Named(e), e.between, FILE_KEY + e.field.fileName.value + "\"" + e.tail);
    }
  }

  /** What parsing makes of a part whose head ends where it should. */
  lemma HeadFields(head: string, value: string)
    requires NoEarlyBlankLine(head)
    ensures var name := Quoted(head, NAME_KEY);
            FieldOf("\r\n" + head + BLANK_LINE + value + "\r\n")
            == (if name.None? then None else Some(Field(name.value, Quoted(head, FILE_KEY), value)))
  {
    BlankLineBehindHead(head, value + "\r\n");
    PartSplits(head, value);
    FieldOfSplit("\r\n" + head + BLANK_LINE + value + "\r\n", "\r\n" + head, value);
    SkipLineEnd(head, NAME_KEY);
    SkipLineEnd(head, FILE_KEY);
  }

  lemma PartFields(e: Entry)
    requires NoEarlyBlankLine(Head(e))
    ensures var name := Quoted(Head(e), NAME_KEY);
            FieldOf(Part(e)) == (if name.None? then None
                                 else Some(Field(name.value, Quoted(Head(e), FILE_KEY), e.field.value)))
  {
    HeadFields(Head(e), e.field.value);
  }

  lemma FieldOfSplit(part: string, head: string, value: string)
    requires Find(part, BLANK_LINE) == Some(|head|) && part[..|head|] == head
    requires part[|head| + 4..] == value + "\r\n"
    ensures var name := Quoted(head, NAME_KEY);
            FieldOf(part) == (if name.None? then None else Some(Field(name.value, Quoted(head, FILE_KEY), value)))
  {
    var payload := value + "\r\n";
    assert payload[|payload| - 2..] == "\r\n" && payload[..|payload| - 2] == value;
  }

  lemma PartSplits(head: string, value: string)
    ensures var part := "\r\n" + head + BLANK_LINE + value + "\r\n";
            && part == "\r\n" + head + BLANK_LINE + (value + "\r\n")
            && part[..2 + |head|] == "\r\n" + head && part[2 + |head| + 4..] == value + "\r\n"
  {}

  lemma SkipLineEnd(head: string, key: string)
    requires key == NAME_KEY || key == FILE_KEY
    ensures Quoted("\r\n" + head, key) == Quoted(head, key)
  {
    var s := "\r\n" + head;
    forall i | 0 <= i < 2 ensures !MatchAt(s, i, key) {
      if i + |key| <= |s| { assert s[i..i + |key|][0] == s[i]; }
    }
    SkipTo(s, 2, key);
    assert s[2..] == head;
  }

  /** A part with a readable head gives its name, its file name and its bytes, whatever else
      the head holds. */
  lemma PartRoundTrip(e: Entry)
    requires Readable(e)
    ensures FieldOf(Part(e)) == Some(e.field)
  {
    PartFields(e);
    NameIsFound(e);
    FileNameIsFound(e);
  }

  // --------------------------------------------- a file name in front of the name

  /** A head in which the file name comes first, with anything behind it. */
  function FileFirst(lead: string, fileName: string, tail: string): string {
    lead + FILE_KEY + fileName + "\"" + tail
  }

  predicate FileFirstReadable(lead: string, fileName: string, tail: string) {
    && Quotable(fileName) && NoEarlyBlankLine(FileFirst(lead, fileName, tail))
    && forall i :: 0 <= i < |lead| ==>
         !MatchAt(FileFirst(lead, fileName, tail), i, NAME_KEY) && !MatchAt(FileFirst(lead, fileName, tail), i, FILE_KEY)
  }

  lemma FileFirstFile(lead: string, fileName: string, tail: string)
    requires FileFirstReadable(lead, fileName, tail)
    ensures Quoted(FileFirst(lead, fileName, tail), FILE_KEY) == Some(fileName)
  {
    var h := FileFirst(lead, fileName, tail);
    SkipTo(h, |lead|, FILE_KEY);
    FromSecond(lead, FILE_KEY, fileName, "\"", tail);
    QuotedHere(FILE_KEY, fileName, tail);
  }

  /** The name pattern matches in the middle of the other key. */
  lemma FileFirstName(lead: string, fileName: string, tail: string)
    requires FileFirstReadable(lead, fileName, tail)
    ensures Quoted(FileFirst(lead, fileName, tail), NAME_KEY) == Some(fileName)
  {
    var h := FileFirst(lead, fileName, tail);
    forall i | 0 <= i < |lead| + 4 ensures !MatchAt(h, i, NAME_KEY) {
      if i >= |lead| { NoNameInside(lead, fileName, tail, i); }
    }
    SkipTo(h, |lead| + 4, NAME_KEY);
    InnerKey(lead, fileName, tail);
    QuotedHere(NAME_KEY, fileName, tail);
  }

  lemma NoNameInside(lead: string, fileName: string, tail: string, i: nat)
    requires |lead| <= i < |lead| + 4
    ensures !MatchAt(FileFirst(lead, fileName, tail), i, NAME_KEY)
  {
    var h := FileFirst(lead, fileName, tail);
    assert h[i] == FILE_KEY[i - |lead|];
    if KeyAt(h, i, NAME_KEY) { KeyStartsAlike(h, i, NAME_KEY); }
  }

  lemma InnerKey(lead: string, fileName: string, tail: string)
    ensures FileFirst(lead, fileName, tail)[|lead| + 4..] == NAME_KEY + fileName + "\"" + tail
  {
    var key: string := FILE_KEY;
    assert key == "file" + NAME_KEY;
    var h := FileFirst(lead, fileName, tail);
    assert h == (lead + "file") + NAME_KEY + fileName + "\"" + tail;
    FromSecond(lead + "file", NAME_KEY, fileName, "\"", tail);
  }

  /** Whatever name comes behind it, a file name in front is read as the name too: the field
      comes back exactly if it is named like its file. */
  lemma FileFirstSurvivesIff(lead: string, fileName: string, tail: string, name: string, value: string)
    requires FileFirstReadable(lead, fileName, tail)
    ensures var part := "\r\n" + FileFirst(lead, fileName, tail) + BLANK_LINE + value + "\r\n";
            && FieldOf(part) == Some(Field(fileName, Some(fileName), value))
            && (FieldOf(part) == Some(Field(name, Some(fileName), value)) <==> name == fileName)
  {
    HeadFields(FileFirst(lead, fileName, tail), value);
    FileFirstFile(lead, fileName, tail);
    FileFirstName(lead, fileName, tail);
  }

  // ------------------------------------------------------------------ the body

  /** The parts of a printed body are the printed entries. */
  function Printed(entries: seq<Entry>): seq<string> {
    if entries == [] then [] else [Part(entries[0])] + Printed(entries[1..])
  }

  /** What may follow the closing mark: nothing, or an epilogue on a line of its own. */
  predicate Epilogue(more: string) { more == "" || more[0] == '\r' }

  /** What may stand before the first delimiter: anything the delimiter does not start in. */
  predicate Preamble(before: string, delimiter: string) { Find(before + delimiter, delimiter) == Some(|before|) }

  predicate UsableBoundary(boundary: string) { boundary != "" && '\n' !in boundary && '\r' !in boundary }

  lemma NoDelimiterInMark(s: string, start: nat, more: string, boundary: string)
    requires UsableBoundary(boundary) && Epilogue(more)
    requires |s| == start + 2 + |more| && (more != "" ==> s[start + 2] == more[0])
    ensures !At(s, "--" + boundary, start) && !At(s, "--" + boundary, start + 1)
  {
    var delimiter := "--" + boundary;
    assert delimiter[2] == boundary[0] && boundary[0] in boundary;
    forall i | start <= i < start + 2 ensures !At(s, delimiter, i) {
      if i + |delimiter| <= |s| { assert s[i..i + |delimiter|][start + 2 - i] == s[start + 2]; }
    }
  }

  lemma ClosingMark(s: string, start: nat, more: string, boundary: string)
    requires UsableBoundary(boundary) && Epilogue(more)
    requires |s| == start + 2 + |more| && s[start] == '-' && s[start + 1] == '-'
    requires more != "" ==> s[start + 2] == more[0]
    ensures PartsFrom(s, start, "--" + boundary) == []
  {
    NoDelimiterInMark(s, start, more, boundary);
    var next := FindFrom(s, "--" + boundary, start);
    if next.Some? {
      assert next.value >= start + 2;
      assert s[start..next.value][..2] == "--";
    } else {
      assert s[start..][..2] == "--";
    }
  }

  /** The parts behind the first delimiter of a printed body, whatever stands before it. */
  lemma {:induction false} AfterDelimiter(
    text: string, before: string, entries: seq<Entry>, boundary: string, delimiter: string, more: string, start: nat)
    requires UsableBoundary(boundary) && Epilogue(more) && delimiter == "--" + boundary
    requires forall e :: e in entries ==> Renderable(e, boundary)
    requires text == before + Body(entries, boundary) + more && start == |before| + |delimiter|
    ensures start <= |text| && PartsFrom(text, start, delimiter) == Printed(entries)
    decreases |entries|
  {
    if entries == [] {
      assert Body(entries, boundary) == delimiter + "--";
      ClosingMark(text, start, more, boundary);
    } else {
      var part, next := Part(entries[0]), start + |Part(entries[0])| + |delimiter|;
      BodyCons(before, entries, boundary, more);
      assert entries[0] in entries;
      forall e | e in entries[1..] ensures e in entries {}
      AfterDelimiter(text, before + delimiter + part, entries[1..], boundary, delimiter, more, next);
      PartEnds(entries[0]);
      OnePart(text, before + delimiter, part, boundary, delimiter, entries[1..], more, start, next);
    }
  }

  lemma PartEnds(e: Entry)
    ensures |Part(e)| >= 2 && Part(e)[|Part(e)| - 1] == '\n' && Part(e)[0] == '\r'
  {}

  lemma BodyCons(before: string, entries: seq<Entry>, boundary: string, more: string)
    requires entries != []
    ensures before + Body(entries, boundary) + more
            == (before + ("--" + boundary) + Part(entries[0])) + Body(entries[1..], boundary) + more
  {
    var d, p, o := "--" + boundary, Part(entries[0]), Body(entries[1..], boundary);
    assert Body(entries, boundary) == d + p + o;
    FourTexts(before, d, p, o);
  }

  lemma FourTexts(a: string, b: string, c: string, d: string)
    ensures a + (b + c + d) == (a + b + c) + d
  {}

  lemma BodyStarts(entries: seq<Entry>, boundary: string) returns (behind: string)
    ensures Body(entries, boundary) == ("--" + boundary) + behind
  {
    if entries == [] {
      behind := "--";
    } else {
      behind := Part(entries[0]) + Body(entries[1..], boundary);
    }
  }

  /** A printed part, and a body behind it, is that part and then the parts of the body. */
  lemma OnePart(text: string, before: string, part: string, boundary: string, delimiter: string,
                others: seq<Entry>, more: string, start: nat, next: nat)
    requires UsableBoundary(boundary) && delimiter == "--" + boundary && Find(part, delimiter).None?
    requires |part| >= 2 && part[|part| - 1] == '\n' && part[0] == '\r'
    requires text == (before + part) + Body(others, boundary) + more
    requires start == |before| && next == start + |part| + |delimiter|
    ensures next <= |text| && PartsFrom(text, start, delimiter) == [part] + PartsFrom(text, next, delimiter)
  {
    var behind := BodyStarts(others, boundary);
    Reassociate(before, part, delimiter, behind, more);
    OneText(text, before, part, delimiter, behind + more, start, next);
  }

  lemma Reassociate(a: string, b: string, c: string, d: string, e: string)
    ensures (a + b) + (c + d) + e == a + b + c + (d + e)
  {}

  lemma OneText(text: string, before: string, part: string, delimiter: string, more: string, start: nat, next: nat)
    requires |delimiter| >= 2 && '\n' !in delimiter && Find(part, delimiter).None?
    requires |part| >= 2 && part[|part| - 1] == '\n' && part[0] == '\r'
    requires text == before + part + delimiter + more
    requires start == |before| && next == start + |part| + |delimiter|
    ensures PartsFrom(text, start, delimiter) == [part] + PartsFrom(text, next, delimiter)
  {
    NextDelimiter(before, part, delimiter, more);
    assert text == before + part + (delimiter + more);
    SliceAt(before, part, delimiter + more);
    PartsStep(text, start, delimiter, part, start + |part|, next);
    UnlessOther(part, PartsFrom(text, next, delimiter));
  }

  lemma SliceAt(a: string, b: string, c: string)
    ensures (a + b + c)[|a|..|a| + |b|] == b
  {}

  lemma UnlessOther(part: string, more: seq<string>)
    requires |part| >= 2 && part[0] == '\r'
    ensures Unless(part, more) == [part] + more
  {
    assert part[..2][0] == '\r';
  }

  lemma PartsStep(text: string, start: nat, delimiter: string, part: string, k: nat, next: nat)
    requires delimiter != "" && start <= |text| && FindFrom(text, delimiter, start) == Some(k)
    requires part == text[start..k] && next == k + |delimiter|
    ensures next <= |text|
    ensures PartsFrom(text, start, delimiter) == Unless(part, PartsFrom(text, next, delimiter))
  {}

  function FieldsIn(entries: seq<Entry>): seq<Field> {
    if entries == [] then [] else [entries[0].field] + FieldsIn(entries[1..])
  }

  lemma {:induction false} FieldsOfAppend(a: seq<string>, b: seq<string>)
    ensures FieldsOf(a + b) == FieldsOf(a) + FieldsOf(b)
  {
    if b == [] {
      assert a + b == a;
    } else {
      assert (a + b)[..|a + b| - 1] == a + b[..|b| - 1];
      FieldsOfAppend(a, b[..|b| - 1]);
    }
  }

  lemma {:induction false} PrintedReads(entries: seq<Entry>, boundary: string)
    requires forall e :: e in entries ==> Renderable(e, boundary)
    ensures FieldsOf(Printed(entries)) == FieldsIn(entries)
  {
    if entries != [] {
      assert entries[0] in entries;
      forall e | e in entries[1..] ensures e in entries {}
      PrintedReads(entries[1..], boundary);
      FieldsOfAppend([Part(entries[0])], Printed(entries[1..]));
      OneReads(entries[0]);
    }
  }

  lemma OneReads(e: Entry)
    requires Readable(e)
    ensures FieldsOf([Part(e)]) == [e.field]
  {
    PartRoundTrip(e);
    FieldsOfOneMore([], Part(e));
    assert [] + [Part(e)] == [Part(e)];
  }

  /** Any list of fields comes back, in order, names, file names and bytes: whatever other
      header lines and parameters their heads hold, with or without preamble and epilogue. */
  lemma BodyRoundTrip(entries: seq<Entry>, boundary: string, before: string, more: string)
    requires UsableBoundary(boundary) && Preamble(before, "--" + boundary) && Epilogue(more)
    requires forall e :: e in entries ==> Renderable(e, boundary)
    ensures Fields(before + Body(entries, boundary) + more, boundary) == FieldsIn(entries)
  {
    BodyFields(before + Body(entries, boundary) + more, entries, boundary, "--" + boundary, before, more,
               |before| + |"--" + boundary|);
  }

  lemma BodyFields(text: string, entries: seq<Entry>, boundary: string, delimiter: string, before: string,
                   more: string, start: nat)
    requires UsableBoundary(boundary) && delimiter == "--" + boundary && Preamble(before, delimiter) && Epilogue(more)
    requires forall e :: e in entries ==> Renderable(e, boundary)
    requires text == before + Body(entries, boundary) + more && start == |before| + |delimiter|
    ensures FieldsOf(Parts(text, delimiter)) == FieldsIn(entries)
  {
    PartsOfBody(text, entries, boundary, delimiter, before, more, start);
    FieldsBehind(text, entries, boundary, delimiter, before, more, start);
  }

  /** Behind its first delimiter a printed body holds the fields it was printed from. */
  lemma FieldsBehind(text: string, entries: seq<Entry>, boundary: string, delimiter: string, before: string,
                     more: string, start: nat)
    requires UsableBoundary(boundary) && delimiter == "--" + boundary && Epilogue(more)
    requires forall e :: e in entries ==> Renderable(e, boundary)
    requires text == before + Body(entries, boundary) + more && start == |before| + |delimiter|
    ensures start <= |text| && FieldsOf(PartsFrom(text, start, delimiter)) == FieldsIn(entries)
  {
    AfterDelimiter(text, before, entries, boundary, delimiter, more, start);
    PrintedReads(entries, boundary);
  }

  lemma PartsOfBody(text: string, entries: seq<Entry>, boundary: string, delimiter: string, before: string,
                    more: string, start: nat)
    requires delimiter == "--" + boundary && Preamble(before, delimiter)
    requires text == before + Body(entries, boundary) + more && start == |before| + |delimiter|
    ensures start <= |text| && Parts(text, delimiter) == PartsFrom(text, start, delimiter)
  {
    var behind := TextStarts(text, entries, boundary, before, more);
    PartsBehind(text, before, delimiter, behind, start);
  }

  /** The parts of a text start behind its first delimiter. */
  lemma PartsBehind(text: string, before: string, delimiter: string, behind: string, start: nat)
    requires delimiter != "" && Preamble(before, delimiter) && text == before + delimiter + behind
    requires start == |before| + |delimiter|
    ensures start <= |text| && Parts(text, delimiter) == PartsFrom(text, start, delimiter)
  {
    FirstDelimiter(before, delimiter, behind);
    PartsFound(text, delimiter, |before|, start);
  }

  lemma PartsFound(text: string, delimiter: string, k: nat, start: nat)
    requires delimiter != "" && text != "" && start == k + |delimiter| <= |text| && Find(text, delimiter) == Some(k)
    ensures Parts(text, delimiter) == PartsFrom(text, start, delimiter)
  {
    assert Parts(text, delimiter) == Remaining(text, k, delimiter);
  }

  lemma TextStarts(text: string, entries: seq<Entry>, boundary: string, before: string, more: string)
    returns (behind: string)
    requires text == before + Body(entries, boundary) + more
    ensures text == before + ("--" + boundary) + behind
  {
    var body := BodyStarts(entries, boundary);
    Around(before, "--" + boundary, body, more);
    behind := body + more;
  }

  lemma Around(a: string, b: string, c: string, d: string)
    ensures a + (b + c) + d == a + b + (c + d)
  {}

  lemma FirstDelimiter(before: string, delimiter: string, more: string)
    requires delimiter != "" && Preamble(before, delimiter)
    ensures Find(before + delimiter + more, delimiter) == Some(|before|)
  {
    var front := before + delimiter;
    var s := front + more;
    assert s[|before|..|before| + |delimiter|] == delimiter;
    forall i | 0 <= i < |before| ensures !At(s, delimiter, i) {
      assert s[i..i + |delimiter|] == front[i..i + |delimiter|];
      assert !At(front, delimiter, i);
    }
    FindFirst(s, delimiter, |before|);
  }

  // ------------------------------------------------- ordinary heads, and the shadowed one

  predicate NoQuote(s: string) { '"' !in s && '\\' !in s }

  predicate EndsLike(s: string, t: string) { |s| >= |t| && SameIgnoringCase(s[|s| - |t|..], t) }

  /** Heads as clients write them: no quotes but those of the two parameters, and the name
      parameter is not itself the end of a `filename`. */
  predicate Ordinary(e: Entry) {
    && NoQuote(e.lead) && NoQuote(e.between) && !EndsLike(e.lead, "file")
    && NoQuote(e.field.name)
    && (if e.field.fileName.Some? then NoQuote(e.field.fileName.value) else NoQuote(e.tail))
    && NoEarlyBlankLine(Head(e))
  }

  // The name ends in `filename=`, so that its closing quote completes the other key.
  predicate NameEndsLikeKey(name: string) { EndsLike(name, "filename=") }

  lemma {:induction false} PlainIsQuotable(v: string)
    requires NoQuote(v)
    ensures Quotable(v)
  {
    if v != "" {
      assert v[0] in v;
      forall c | c in v[1..] ensures c in v {}
      PlainIsQuotable(v[1..]);
    }
  }

  // Where the two quotes of the name stand.
  function OpenQuote(e: Entry): nat { |e.lead| + 5 }

  function CloseQuote(e: Entry): nat { |e.lead| + 6 + |e.field.name| }

  lemma TwoQuotes(a: string, b: string, c: string)
    ensures var s := a + "\"" + b + "\"" + c;
            && s[|a|] == '"' && s[|a| + 1 + |b|] == '"'
            && s[..|a|] == a && s[|a| + 1..|a| + 1 + |b|] == b && s[|a| + 1 + |b| + 1..] == c
  {}

  lemma HeadText(e: Entry)
    ensures Head(e) == (e.lead + "name=") + "\"" + e.field.name + "\"" + Behind(e)
  {
    assert NAME_KEY == "name=" + "\"";
    assert e.lead + NAME_KEY == (e.lead + "name=") + "\"";
  }

  lemma HeadBefore(e: Entry)
    ensures OpenQuote(e) < |Head(e)| && Head(e)[OpenQuote(e)] == '"'
    ensures Head(e)[..OpenQuote(e)] == e.lead + "name="
  {
    HeadText(e);
    TwoQuotes(e.lead + "name=", e.field.name, Behind(e));
  }

  lemma HeadName(e: Entry)
    ensures CloseQuote(e) < |Head(e)| && Head(e)[CloseQuote(e)] == '"'
    ensures Head(e)[OpenQuote(e) + 1..CloseQuote(e)] == e.field.name
  {
    HeadText(e);
    TwoQuotes(e.lead + "name=", e.field.name, Behind(e));
  }

  lemma HeadBehind(e: Entry)
    ensures CloseQuote(e) < |Head(e)| && Head(e)[CloseQuote(e) + 1..] == Behind(e)
  {
    HeadText(e);
    TwoQuotes(e.lead + "name=", e.field.name, Behind(e));
  }

  /** A key that starts in a stretch of `s` without quotes ends at the quote behind it. */
  lemma KeyInStretch(s: string, from: nat, text: string, i: nat, key: string)
    requires IsKey(key) && from + |text| < |s| && s[from..from + |text|] == text && '"' !in text
    requires s[from + |text|] == '"' && from <= i <= from + |text| && KeyAt(s, i, key)
    ensures i + |key| - 1 == from + |text|
  {
    var q := from + |text|;
    forall j | i <= j < q ensures s[j] != '"' { assert s[j] == text[j - from] && text[j - from] in text; }
    assert '"' !in s[i..q];
    KeyEndsAtNextQuote(s, i, q, key);
  }

  lemma BothAreKeys()
    ensures IsKey(NAME_KEY) && IsKey(FILE_KEY) && |NAME_KEY| == 6 && |FILE_KEY| == 10
  {}

  /** Up to the opening quote of the name neither key starts, but the name's own. */
  lemma KeyUpToName(e: Entry, i: nat, key: string)
    requires '"' !in e.lead && !EndsLike(e.lead, "file")
    requires (key == NAME_KEY || key == FILE_KEY) && i <= OpenQuote(e)
    ensures KeyAt(Head(e), i, key) ==> key == NAME_KEY && i == |e.lead|
  {
    BothAreKeys();
    HeadBefore(e);
    if KeyAt(Head(e), i, key) {
      KeyInStretch(Head(e), 0, e.lead + "name=", i, key);
      if key == FILE_KEY { FileBeforeName(e, i); }
    }
  }

  lemma FileBeforeName(e: Entry, i: nat)
    requires i + 9 == OpenQuote(e) && KeyAt(Head(e), i, FILE_KEY)
    ensures EndsLike(e.lead, "file")
  {
    var h := Head(e);
    HeadBefore(e);
    SameFront(h[i..i + 10], FILE_KEY, 4);
    assert FILE_KEY[..4] == "file";
    assert h[i..i + 10][..4] == h[..OpenQuote(e)][i..i + 4] == e.lead[|e.lead| - 4..];
  }

  /** Inside the name the file key starts only where the name ends in it. */
  lemma FileKeyInName(e: Entry, i: nat)
    requires '"' !in e.field.name && OpenQuote(e) < i <= CloseQuote(e)
    ensures KeyAt(Head(e), i, FILE_KEY) <==> NameEndsLikeKey(e.field.name) && i == CloseQuote(e) - 9
  {
    BothAreKeys();
    HeadName(e);
    if KeyAt(Head(e), i, FILE_KEY) {
      KeyInStretch(Head(e), OpenQuote(e) + 1, e.field.name, i, FILE_KEY);
      KeyEndsName(e, i);
    }
    if NameEndsLikeKey(e.field.name) && i == CloseQuote(e) - 9 { NameMakesKey(e, i); }
  }

  lemma KeyEndsName(e: Entry, i: nat)
    requires OpenQuote(e) < i == CloseQuote(e) - 9 && KeyAt(Head(e), i, FILE_KEY)
    ensures NameEndsLikeKey(e.field.name)
  {
    var h, name := Head(e), e.field.name;
    HeadName(e);
    SameFront(h[i..i + 10], FILE_KEY, 9);
    assert FILE_KEY[..9] == "filename=";
    assert h[i..i + 10][..9] == h[OpenQuote(e) + 1..CloseQuote(e)][|name| - 9..];
  }

  lemma NameMakesKey(e: Entry, i: nat)
    requires NameEndsLikeKey(e.field.name) && i == CloseQuote(e) - 9
    ensures KeyAt(Head(e), i, FILE_KEY)
  {
    var h, name := Head(e), e.field.name;
    HeadName(e);
    assert h[OpenQuote(e) + 1..CloseQuote(e)][|name| - 9..] == h[i..i + 9];
    assert h[i..i + 10] == name[|name| - 9..] + "\"";
    assert FILE_KEY == "filename=" + "\"";
  }

  lemma SameFront(a: string, b: string, n: nat)
    requires SameIgnoringCase(a, b) && n <= |a|
    ensures SameIgnoringCase(a[..n], b[..n])
  {}

  /** What stands behind the name, up to the file name's own quote. */
  lemma FileBehind(e: Entry)
    requires e.field.fileName.Some?
    ensures Behind(e) == (e.between + "filename=") + "\"" + (e.field.fileName.value + "\"" + e.tail)
  {
    assert FILE_KEY == "filename=" + "\"";
  }

  lemma HeadFile(e: Entry)
    requires e.field.fileName.Some?
    ensures var from, text := CloseQuote(e) + 1, e.between + "filename=";
            && from + |text| == FilePlace(e) + 9 < |Head(e)|
            && Head(e)[from..from + |text|] == text && Head(e)[from + |text|] == '"'
  {
    HeadBehind(e);
    FileBehind(e);
    var from, text, b := CloseQuote(e) + 1, e.between + "filename=", Behind(e);
    assert b[..|text|] == text && b[|text|] == '"';
    assert Head(e)[from..][..|text|] == Head(e)[from..from + |text|];
    assert Head(e)[from..][|text|] == Head(e)[from + |text|];
  }

  /** Between the name and the file parameter the file key does not start. */
  lemma FileKeyBetween(e: Entry, i: nat)
    requires '"' !in e.between && e.field.fileName.Some? && CloseQuote(e) < i < FilePlace(e)
    ensures !KeyAt(Head(e), i, FILE_KEY)
  {
    BothAreKeys();
    HeadFile(e);
    if KeyAt(Head(e), i, FILE_KEY) {
      KeyInStretch(Head(e), CloseQuote(e) + 1, e.between + "filename=", i, FILE_KEY);
    }
  }

  /** Without a file name nothing behind the name matches. */
  lemma NoFileKeyBehind(e: Entry, i: nat)
    requires '"' !in e.tail && e.field.fileName.None? && CloseQuote(e) - 9 <= i
    ensures !MatchAt(Head(e), i, FILE_KEY)
  {
    HeadBehind(e);
    if KeyAt(Head(e), i, FILE_KEY) {
      var rest, at := Head(e)[i + 10..], i + 10 - CloseQuote(e) - 1;
      assert rest == Head(e)[CloseQuote(e) + 1..][at..] == e.tail[at..];
      NoClosing(rest);
    }
  }

  lemma {:induction false} NoClosing(s: string)
    requires '"' !in s
    ensures Closing(s).None?
    decreases |s|
  {
    if s != "" {
      assert s[0] in s;
      forall c | c in s[1..] ensures c in s {}
      NoClosing(s[1..]);
      if |s| >= 2 {
        forall c | c in s[2..] ensures c in s {}
        NoClosing(s[2..]);
      }
    }
  }

  /** Every ordinary head whose name does not end in the file key is readable: a content type
      or any other line may stand before the disposition or behind it. */
  lemma OrdinaryIsReadable(e: Entry)
    requires Ordinary(e) && !NameEndsLikeKey(e.field.name)
    ensures Readable(e)
  {
    PlainIsQuotable(e.field.name);
    if e.field.fileName.Some? { PlainIsQuotable(e.field.fileName.value); }
    forall i | 0 <= i < |e.lead| ensures !MatchAt(Head(e), i, NAME_KEY) { KeyUpToName(e, i, NAME_KEY); }
    forall i | 0 <= i < FilePlace(e) ensures !MatchAt(Head(e), i, FILE_KEY) { NoEarlierFile(e, i); }
  }

  lemma NoEarlierFile(e: Entry, i: nat)
    requires Ordinary(e) && !NameEndsLikeKey(e.field.name) && i < FilePlace(e)
    ensures !MatchAt(Head(e), i, FILE_KEY)
  {
    if i <= OpenQuote(e) {
      KeyUpToName(e, i, FILE_KEY);
    } else if i <= CloseQuote(e) {
      FileKeyInName(e, i);
    } else if e.field.fileName.Some? {
      FileKeyBetween(e, i);
    } else {
      NoFileKeyBehind(e, i);
    }
  }

  lemma OrdinaryName(e: Entry)
    requires Ordinary(e)
    ensures Quoted(Head(e), NAME_KEY) == Some(e.field.name)
  {
    forall i | 0 <= i < |e.lead| ensures !MatchAt(Head(e), i, NAME_KEY) { KeyUpToName(e, i, NAME_KEY); }
    SkipTo(Head(e), |e.lead|, NAME_KEY);
    HeadFromName(e);
    PlainIsQuotable(e.field.name);
    QuotedHere(NAME_KEY, e.field.name, Behind(e));
  }

  lemma NothingBeforeShadow(e: Entry, i: nat)
    requires Ordinary(e) && i < CloseQuote(e) - 9
    ensures !MatchAt(Head(e), i, FILE_KEY)
  {
    if i <= OpenQuote(e) { KeyUpToName(e, i, FILE_KEY); } else { FileKeyInName(e, i); }
  }

  /** A name that ends in the file key: what is read as the file name is the text up to the
      file name's own quote. */
  lemma ShadowedFileName(e: Entry)
    requires Ordinary(e) && NameEndsLikeKey(e.field.name) && e.field.fileName.Some?
    ensures Quoted(Head(e), FILE_KEY) == Some(e.between + "filename=")
  {
    var k := CloseQuote(e) - 9;
    HeadBehind(e);
    FileBehind(e);
    NameMakesKey(e, k);
    forall i | 0 <= i < k ensures !MatchAt(Head(e), i, FILE_KEY) { NothingBeforeShadow(e, i); }
    SkipTo(Head(e), k, FILE_KEY);
    ReadFromKey(Head(e), k, e.between + "filename=", e.field.fileName.value + "\"" + e.tail);
  }

  lemma ReadFromKey(h: string, k: nat, v: string, more: string)
    requires KeyAt(h, k, FILE_KEY) && h[k + 10..] == v + "\"" + more && NoQuote(v)
    ensures Quoted(h[k..], FILE_KEY) == Some(v)
  {
    var s := h[k..];
    assert s[0..10] == h[k..k + 10] && s[10..] == h[k + 10..];
    PlainIsQuotable(v);
    ClosingQuotable(v, more);
    assert s[10..][..|v|] == v;
  }

  lemma NoFileNameRead(e: Entry)
    requires Ordinary(e) && e.field.fileName.None?
    ensures Quoted(Head(e), FILE_KEY).None?
  {
    var h := Head(e);
    forall i | 0 <= i < |h| ensures !MatchAt(h, i, FILE_KEY) {
      if i < CloseQuote(e) - 9 { NothingBeforeShadow(e, i); } else { NoFileKeyBehind(e, i); }
    }
    SkipTo(h, |h|, FILE_KEY);
    assert h[|h|..] == "";
  }

  /** With an ordinary head a field comes back exactly when it has no file name, or its name
      does not end in the file key, or its file name is what the shadowed search reads. */
  lemma FileNameSurvivesIff(e: Entry)
    requires Ordinary(e)
    ensures FieldOf(Part(e)) == Some(e.field)
            <==> e.field.fileName.None? || !NameEndsLikeKey(e.field.name)
                 || e.field.fileName.value == e.between + "filename="
  {
    PartFields(e);
    OrdinaryName(e);
    if e.field.fileName.None? {
      NoFileNameRead(e);
    } else if NameEndsLikeKey(e.field.name) {
      ShadowedFileName(e);
    } else {
      OrdinaryIsReadable(e);
      FileNameIsFound(e);
    }
  }

  const DISPOSITION := "Content-Disposition: form-data; "

  function FileWithType(name: string, fileName: string, mime: string, value: string): Entry {
    Entry(Field(name, Some(fileName), value), DISPOSITION, "; ", "\r\n" + ("Content-Type: " + mime))
  }

  lemma FileWithTypeLines(name: string, fileName: string, mime: string, value: string)
    requires '\r' !in name && '\r' !in fileName && '\r' !in mime
    ensures NoEarlyBlankLine(Head(FileWithType(name, fileName, mime, value)))
  {
    var line := DISPOSITION + NAME_KEY + name + "\"" + ("; " + FILE_KEY + fileName + "\"");
    var second := "Content-Type: " + mime;
    LineText(DISPOSITION + NAME_KEY + name + "\"", "; ", FILE_KEY + fileName + "\"", second);
    assert "; " + FILE_KEY + fileName + "\"" == "; " + (FILE_KEY + fileName + "\"");
    NoReturn(name, fileName);
    TwoLines(line, second);
  }

  lemma LineText(a: string, b: string, c: string, second: string)
    ensures a + (b + (c + ("\r\n" + second))) == a + (b + c) + "\r\n" + second
  {}

  lemma NoReturn(name: string, fileName: string)
    requires '\r' !in name && '\r' !in fileName
    ensures '\r' !in DISPOSITION + NAME_KEY + name + "\"" + ("; " + FILE_KEY + fileName + "\"")
  {}

  /** The file part that the repository's own clients send: a disposition line with name and
      file name, and a content type on the next line. */
  lemma FileWithTypeIsRead(name: string, fileName: string, mime: string, value: string)
    requires NoQuote(name) && NoQuote(fileName) && '\r' !in name && '\r' !in fileName && '\r' !in mime
    requires !NameEndsLikeKey(name)
    ensures var e := FileWithType(name, fileName, mime, value); FieldOf(Part(e)) == Some(e.field)
  {
    var e := FileWithType(name, fileName, mime, value);
    FileWithTypeLines(name, fileName, mime, value);
    DispositionIsOrdinary();
    OrdinaryIsReadable(e);
    PartRoundTrip(e);
  }

  lemma DispositionIsOrdinary()
    ensures NoQuote(DISPOSITION) && NoQuote("; ") && !EndsLike(DISPOSITION, "file")
  {
    assert DISPOSITION[|DISPOSITION| - 4..][3] == ' ';
    assert Lower(' ') == ' ' && "file"[3] == 'e';
  }

  lemma BlankLineNeeds(s: string, i: int)
    requires At(s, BLANK_LINE, i)
    ensures s[i] == '\r' && s[i + 2] == '\r'
  {
    assert s[i..i + 4][0] == s[i] && s[i..i + 4][2] == s[i + 2];
  }

  /** Two lines that are not empty hold no blank line. */
  lemma TwoLines(a: string, b: string)
    requires a != "" && b != "" && '\r' !in a && '\r' !in b
    ensures NoEarlyBlankLine(a + "\r\n" + b)
  {
    var head := a + "\r\n" + b;
    var s := "\r\n" + head + BLANK_LINE;
    var p := 2 + |a|;
    assert s[1] == '\n' && s[p + 1] == '\n';
    forall k | 2 <= k < p ensures s[k] != '\r' { assert s[k] == a[k - 2] && a[k - 2] in a; }
    forall k | p + 2 <= k < p + 2 + |b| ensures s[k] != '\r' { assert s[k] == b[k - p - 2] && b[k - p - 2] in b; }
    forall i | 0 <= i < 2 + |head| ensures !At(s, BLANK_LINE, i) {
      if At(s, BLANK_LINE, i) {
        BlankLineNeeds(s, i);
        NotReturn(s, p, |b|, i);
      }
    }
  }

  /** Where neither of two line ends begins, or no other begins two places further on. */
  lemma NotReturn(s: string, p: nat, n: nat, i: nat)
    requires p >= 3 && n >= 1 && |s| >= p + 2 + n + 4 && i < p + 2 + n
    requires s[1] == '\n' && s[p + 1] == '\n'
    requires forall k :: 2 <= k < p ==> s[k] != '\r'
    requires forall k :: p + 2 <= k < p + 2 + n ==> s[k] != '\r'
    ensures s[i] != '\r' || s[i + 2] != '\r'
  {}
}
