/**
 The key/value store's wire protocol: the command printer, the reply parser as a function
 of the bytes received, and the client object that refills and cuts its buffer.
 */
module Resp {
  import opened Common

  newtype byte = x: int | 0 <= x < 256

  type bytes = seq<byte>

  const CR: byte := 13
  const LF: byte := 10
  const CRLF: bytes := [CR, LF]
  const PLUS: byte := 43
  const MINUS: byte := 45
  const COLON: byte := 58
  const DOLLAR: byte := 36
  const STAR: byte := 42
  const UNDERSCORE: byte := 95

  /** A decoded reply. Status lines and error lines both come back as text. */
  datatype Reply = Text(line: bytes) | Number(n: int) | Bulk(data: bytes) | Nil | Multi(items: seq<Reply>)

  /** A parse of a byte stream: the value and the bytes after it; or the stream ended; or
      an unexpected reply or a malformed number. */
  datatype Parsed<T> = Done(value: T, rest: bytes) | Closed | Bad

  // ------------------------------------------------------------------ numbers

  predicate Digit(b: byte) { 48 <= b <= 57 }

  predicate Space(b: byte) { b == 32 || 9 <= b <= 13 }

  /** Digits, with single underscores allowed between two of them. */
  function NatOf(s: bytes): Option<nat> {
    if s == [] || !Digit(s[|s| - 1]) then None
    else
      var d := s[|s| - 1] as int - 48;
      var init := s[..|s| - 1];
      if init == [] then Some(d)
      else
        var higher := NatOf(if init[|init| - 1] == UNDERSCORE then init[..|init| - 1] else init);
        if higher.None? then None else Some(10 * higher.value + d)
  }

  function Strip(s: bytes): bytes {
    if s != [] && Space(s[0]) then Strip(s[1..])
    else if s != [] && Space(s[|s| - 1]) then Strip(s[..|s| - 1])
    else s
  }

  function IntOf(raw: bytes): Option<int> {
    var s := Strip(raw);
    var signed := s != [] && (s[0] == MINUS || s[0] == PLUS);
    var n := NatOf(if signed then s[1..] else s);
    if n.None? then None
    else
      var v: int := n.value;
      Some(if signed && s[0] == MINUS then -v else v)
  }

  function Decimal(n: nat): (s: bytes)
    ensures s != [] && forall b :: b in s ==> Digit(b)
  {
    if n < 10 then [(48 + n) as byte] else Decimal(n / 10) + [(48 + n % 10) as byte]
  }

  function PrintInt(i: int): bytes { if i < 0 then [MINUS] + Decimal(-i) else Decimal(i) }

  lemma {:induction false} NatOfDecimal(n: nat)
    ensures NatOf(Decimal(n)) == Some(n)
  {
    if n >= 10 {
      NatOfDecimal(n / 10);
      var s := Decimal(n);
      assert s[..|s| - 1] == Decimal(n / 10);
      var init := Decimal(n / 10);
      assert init[|init| - 1] in init;
    }
  }

  lemma StripsNothing(s: bytes)
    requires s != [] && !Space(s[0]) && !Space(s[|s| - 1])
    ensures Strip(s) == s
  {}

  lemma DecimalEnds(n: nat)
    ensures Digit(Decimal(n)[0]) && Digit(Decimal(n)[|Decimal(n)| - 1])
  {
    var d := Decimal(n);
    assert d[0] in d && d[|d| - 1] in d;
  }

  lemma IntOfPrintInt(i: int)
    ensures IntOf(PrintInt(i)) == Some(i)
  {
    var n: nat := if i < 0 then -i else i;
    var d, s := Decimal(n), PrintInt(i);
    NatOfDecimal(n);
    DecimalEnds(n);
    assert s[|s| - 1] == d[|d| - 1];
    StripsNothing(s);
    if i < 0 { assert s[1..] == d; }
  }

  // -------------------------------------------------------------------- lines

  /** Where the first line end starts. */
  function FindCrlf(s: bytes): (k: Option<nat>)
    ensures k.Some? ==> k.value + 2 <= |s| && s[k.value..k.value + 2] == CRLF
  {
    if |s| < 2 then None
    else if s[0] == CR && s[1] == LF then assert s[0..2] == CRLF; Some(0)
    else
      var k := FindCrlf(s[1..]);
      if k.None? then None
      else
        assert s[k.value + 1..k.value + 3] == s[1..][k.value..k.value + 2];
        Some(k.value + 1)
  }

  lemma {:induction false} LineEndStays(s: bytes, more: bytes)
    requires FindCrlf(s).Some?
    ensures FindCrlf(s + more) == FindCrlf(s)
  {
    if !(s[0] == CR && s[1] == LF) {
      assert (s + more)[1..] == s[1..] + more;
      LineEndStays(s[1..], more);
    }
  }

  lemma {:induction false} LineEndHere(line: bytes, more: bytes)
    requires FindCrlf(line).None?
    ensures FindCrlf(line + CRLF + more) == Some(|line|)
  {
    var s := line + CRLF + more;
    if line != [] {
      assert s[1..] == line[1..] + CRLF + more;
      LineEndHere(line[1..], more);
    }
  }

  lemma {:induction false} NoCrInDigits(s: bytes)
    requires forall b :: b in s ==> b != CR
    ensures FindCrlf(s).None?
  {
    if |s| >= 2 {
      assert s[0] in s;
      forall b | b in s[1..] ensures b != CR { assert b in s; }
      NoCrInDigits(s[1..]);
    }
  }

  // ------------------------------------------------------------------ parsing

  function Parse(s: bytes): (p: Parsed<Reply>)
    ensures p.Done? ==> |p.rest| < |s|
    decreases |s|, 0
  {
    var k := FindCrlf(s);
    if k.None? then Closed
    else
      var head, rest := s[..k.value], s[k.value + 2..];
      if head == [] then Bad
      else if head[0] == PLUS || head[0] == MINUS then Done(Text(head[1..]), rest)
      else
        var n := IntOf(head[1..]);
        if head[0] == COLON then if n.None? then Bad else Done(Number(n.value), rest)
        else if head[0] == DOLLAR then
          if n.None? then Bad
          else if n.value < 0 then Done(Nil, rest)
          else if |rest| < n.value + 2 then Closed
          else Done(Bulk(rest[..n.value]), rest[n.value + 2..])
        else if head[0] == STAR then
          if n.None? then Bad
          else if n.value < 0 then Done(Nil, rest)
          else
            var items := ParseMany(rest, n.value);
            if items.Done? then Done(Multi(items.value), items.rest)
            else if items.Closed? then Closed else Bad
        else Bad
  }

  function ParseMany(s: bytes, count: nat): (p: Parsed<seq<Reply>>)
    ensures p.Done? ==> |p.rest| <= |s| && |p.value| == count
    decreases |s|, 1
  {
    if count == 0 then Done([], s)
    else
      var first := Parse(s);
      if first.Closed? then Closed
      else if first.Bad? then Bad
      else
        var others := ParseMany(first.rest, count - 1);
        if others.Done? then Done([first.value] + others.value, others.rest) else others
  }

  // ------------------------------------------------- what numbers and lines are

  /** Digits with single underscores between them. */
  predicate NumberText(s: bytes) {
    && s != [] && Digit(s[0]) && Digit(s[|s| - 1])
    && (forall i :: 0 <= i < |s| ==> Digit(s[i]) || s[i] == UNDERSCORE)
    && (forall i, j :: 0 <= i < |s| && 0 <= j < |s| && j == i + 1 && s[i] == UNDERSCORE ==> s[j] != UNDERSCORE)
  }

  /** Reading from the left: each digit is one more place. */
  function FromLeft(so: nat, s: bytes): nat
    decreases |s|
  {
    if s == [] then so
    else FromLeft(if Digit(s[0]) then 10 * so + (s[0] as int - 48) else so, s[1..])
  }

  lemma {:induction false} FromLeftSnoc(so: nat, s: bytes, b: byte)
    ensures FromLeft(so, s + [b]) == (if Digit(b) then 10 * FromLeft(so, s) + (b as int - 48) else FromLeft(so, s))
    decreases |s|
  {
    if s == [] {
      assert (s + [b])[1..] == [];
    } else {
      assert (s + [b])[1..] == s[1..] + [b];
      FromLeftSnoc(if Digit(s[0]) then 10 * so + (s[0] as int - 48) else so, s[1..], b);
    }
  }

  lemma {:induction false} NatOfMeaning(s: bytes)
    ensures NatOf(s).Some? <==> NumberText(s)
    ensures NatOf(s).Some? ==> NatOf(s).value == FromLeft(0, s)
    decreases |s|
  {
    if s != [] && Digit(s[|s| - 1]) {
      var init, last := s[..|s| - 1], s[|s| - 1];
      assert s == init + [last];
      FromLeftSnoc(0, init, last);
      if init != [] {
        if init[|init| - 1] == UNDERSCORE {
          var shorter := init[..|init| - 1];
          NatOfMeaning(shorter);
          assert init == shorter + [UNDERSCORE];
          FromLeftSnoc(0, shorter, UNDERSCORE);
          UnderscoreText(s, shorter, last);
        } else {
          NatOfMeaning(init);
          DigitText(s, init, last);
        }
      }
    }
  }

  lemma DigitText(s: bytes, init: bytes, last: byte)
    requires s == init + [last] && init != [] && Digit(last) && init[|init| - 1] != UNDERSCORE
    ensures NumberText(s) <==> NumberText(init)
  {
    assert forall i :: 0 <= i < |init| ==> s[i] == init[i];
  }

  lemma UnderscoreText(s: bytes, shorter: bytes, last: byte)
    requires s == shorter + [UNDERSCORE] + [last] && Digit(last)
    ensures NumberText(s) <==> NumberText(shorter)
  {
    assert forall i :: 0 <= i < |shorter| ==> s[i] == shorter[i];
    assert s[|shorter|] == UNDERSCORE;
  }

  predicate AllSpace(s: bytes) { forall i :: 0 <= i < |s| ==> Space(s[i]) }

  lemma Joins(a: bytes, b: bytes, c: bytes, d: bytes)
    ensures a + (b + c + d) == (a + b) + c + d && (a + b + c) + d == a + b + (c + d)
  {}

  lemma {:induction false} StripSplits(s: bytes) returns (front: bytes, back: bytes)
    ensures s == front + Strip(s) + back && AllSpace(front) && AllSpace(back)
    decreases |s|
  {
    if s != [] && Space(s[0]) {
      front, back := StripSplits(s[1..]);
      Joins([s[0]], front, Strip(s), back);
      front := [s[0]] + front;
    } else if s != [] && Space(s[|s| - 1]) {
      front, back := StripSplits(s[..|s| - 1]);
      Joins(front, Strip(s), back, [s[|s| - 1]]);
      back := back + [s[|s| - 1]];
    } else {
      front, back := [], [];
    }
  }

  lemma {:induction false} StripEnds(s: bytes)
    ensures Strip(s) != [] ==> !Space(Strip(s)[0]) && !Space(Strip(s)[|Strip(s)| - 1])
    decreases |s|
  {
    if s != [] && Space(s[0]) {
      StripEnds(s[1..]);
    } else if s != [] && Space(s[|s| - 1]) {
      StripEnds(s[..|s| - 1]);
    }
  }

  /** A number as the language reads it: white space around it, at most one sign, and digits
      with single underscores between them. */
  lemma IntOfMeaning(raw: bytes) returns (front: bytes, sign: bytes, digits: bytes, back: bytes)
    ensures raw == front + (sign + digits) + back && AllSpace(front) && AllSpace(back)
    ensures sign == [] || sign == [MINUS] || sign == [PLUS]
    ensures sign + digits != [] ==> !Space((sign + digits)[0]) && !Space((sign + digits)[|sign + digits| - 1])
    ensures sign == [] ==> digits == [] || (digits[0] != MINUS && digits[0] != PLUS)
    ensures IntOf(raw).Some? <==> NumberText(digits)
    ensures IntOf(raw).Some? ==>
              if sign == [MINUS] then IntOf(raw).value + FromLeft(0, digits) == 0
              else IntOf(raw).value == FromLeft(0, digits)
  {
    front, back := StripSplits(raw);
    StripEnds(raw);
    var s := Strip(raw);
    if s != [] && (s[0] == MINUS || s[0] == PLUS) {
      sign, digits := [s[0]], s[1..];
    } else {
      sign, digits := [], s;
    }
    assert sign + digits == s;
    NatOfMeaning(digits);
  }

  /** The first line end, if there is one. */
  lemma {:induction false} FindCrlfMeaning(s: bytes)
    ensures FindCrlf(s).Some? ==>
              var k := FindCrlf(s).value;
              k + 1 < |s| && s[k] == 13 && s[k + 1] == 10 && forall j :: 0 <= j < k ==> !(s[j] == 13 && s[j + 1] == 10)
    ensures FindCrlf(s).None? ==> forall j :: 0 <= j < |s| - 1 ==> !(s[j] == 13 && s[j + 1] == 10)
  {
    if |s| >= 2 && !(s[0] == CR && s[1] == LF) {
      FindCrlfMeaning(s[1..]);
      assert forall j :: 0 <= j < |s| - 1 ==> s[1..][j] == s[j + 1];
      forall j | 0 < j < |s| - 1 ensures (s[j] == 13 && s[j + 1] == 10) <==> (s[1..][j - 1] == 13 && s[1..][j] == 10) {}
    }
  }

  // ------------------------------------------------ replies that are not what they should be

  /** A reply line that is empty, of an unknown kind or without a readable number is an
      unexpected reply; a negative length stands for nothing. */
  lemma OddReplies(s: bytes, k: nat)
    requires FindCrlf(s) == Some(k)
    ensures k == 0 ==> Parse(s) == Bad
    ensures k > 0 && s[0] != 43 && s[0] != 45 && s[0] != 58 && s[0] != 36 && s[0] != 42 ==> Parse(s) == Bad
    ensures k > 0 && (s[0] == 58 || s[0] == 36 || s[0] == 42) && IntOf(s[1..k]).None? ==> Parse(s) == Bad
    ensures k > 0 && (s[0] == 36 || s[0] == 42) && IntOf(s[1..k]).Some? && IntOf(s[1..k]).value < 0 ==>
              Parse(s) == Done(Nil, s[k + 2..])
  {
    var head := s[..k];
    if k > 0 { assert head[0] == s[0] && head[1..] == s[1..k]; }
  }

  // ----------------------------------------------------------------- printing

  function Encode(r: Reply): bytes {
    match r
    case Text(line) => [PLUS] + line + CRLF
    case Number(n) => [COLON] + PrintInt(n) + CRLF
    case Bulk(data) => [DOLLAR] + Decimal(|data|) + CRLF + data + CRLF
    case Nil => [DOLLAR] + PrintInt(-1) + CRLF
    case Multi(items) => [STAR] + Decimal(|items|) + CRLF + EncodeAll(items)
  }

  function EncodeAll(items: seq<Reply>): bytes {
    if items == [] then [] else Encode(items[0]) + EncodeAll(items[1..])
  }

  /** A status line cannot hold a line end; bulk data can hold anything. */
  predicate Printable(r: Reply) {
    match r
    case Text(line) => FindCrlf(line).None?
    case Multi(items) => forall i :: 0 <= i < |items| ==> Printable(items[i])
    case _ => true
  }

  /** The header of a printed value, as the parser sees it. */
  lemma HeaderParses(kind: byte, n: int, more: bytes)
    requires kind != CR
    ensures var s := [kind] + PrintInt(n) + CRLF + more;
            && FindCrlf(s) == Some(1 + |PrintInt(n)|)
            && s[..1 + |PrintInt(n)|] == [kind] + PrintInt(n)
            && s[1 + |PrintInt(n)| + 2..] == more
            && ([kind] + PrintInt(n))[1..] == PrintInt(n)
            && IntOf(PrintInt(n)) == Some(n)
  {
    NoCrInDigits([kind] + PrintInt(n));
    LineEndHere([kind] + PrintInt(n), more);
    IntOfPrintInt(n);
  }

  lemma TextRoundTrip(line: bytes, more: bytes)
    requires FindCrlf(line).None?
    ensures Parse(Encode(Text(line)) + more) == Done(Text(line), more)
  {
    TextLine(line);
    LineEndHere([PLUS] + line, more);
    var s := [PLUS] + line + CRLF + more;
    assert Encode(Text(line)) + more == s;
    assert s[..1 + |line|] == [PLUS] + line;
    assert s[1 + |line| + 2..] == more;
    assert ([PLUS] + line)[1..] == line;
  }

  lemma NumberRoundTrip(n: int, more: bytes)
    ensures Parse(Encode(Number(n)) + more) == Done(Number(n), more)
  {
    HeaderParses(COLON, n, more);
    assert Encode(Number(n)) + more == [COLON] + PrintInt(n) + CRLF + more;
  }

  lemma BulkRoundTrip(data: bytes, more: bytes)
    ensures Parse(Encode(Bulk(data)) + more) == Done(Bulk(data), more)
  {
    var rest := data + CRLF + more;
    HeaderParses(DOLLAR, |data|, rest);
    assert Encode(Bulk(data)) + more == [DOLLAR] + PrintInt(|data|) + CRLF + rest;
    assert rest[..|data|] == data && rest[|data| + 2..] == more;
  }

  lemma NilRoundTrip(more: bytes)
    ensures Parse(Encode(Nil) + more) == Done(Nil, more)
  {
    HeaderParses(DOLLAR, -1, more);
    assert Encode(Nil) + more == [DOLLAR] + PrintInt(-1) + CRLF + more;
  }

  lemma MultiRoundTrip(items: seq<Reply>, more: bytes)
    requires ParseMany(EncodeAll(items) + more, |items|) == Done(items, more)
    ensures Parse(Encode(Multi(items)) + more) == Done(Multi(items), more)
  {
    MultiEncoding(items, more);
    ArrayHeader(|items|, EncodeAll(items) + more);
  }

  lemma MultiEncoding(items: seq<Reply>, more: bytes)
    ensures Encode(Multi(items)) + more == [STAR] + PrintInt(|items|) + CRLF + (EncodeAll(items) + more)
  {
    Regroup([STAR] + PrintInt(|items|) + CRLF, EncodeAll(items), more);
  }

  lemma Regroup(a: bytes, b: bytes, c: bytes)
    ensures a + b + c == a + (b + c)
  {}

  lemma ArrayHeader(n: nat, rest: bytes)
    requires ParseMany(rest, n).Done?
    ensures Parse([STAR] + PrintInt(n) + CRLF + rest)
            == Done(Multi(ParseMany(rest, n).value), ParseMany(rest, n).rest)
  {
    HeaderParses(STAR, n, rest);
    ArrayParses([STAR] + PrintInt(n) + CRLF + rest, 1 + |PrintInt(n)|, n, rest);
  }

  /** An array reply with a well-formed header is the items that follow it. */
  lemma ArrayParses(s: bytes, k: nat, n: nat, rest: bytes)
    requires FindCrlf(s) == Some(k) && k >= 1 && s[..k][0] == STAR && IntOf(s[..k][1..]) == Some(n)
    requires s[k + 2..] == rest && ParseMany(rest, n).Done?
    ensures Parse(s) == Done(Multi(ParseMany(rest, n).value), ParseMany(rest, n).rest)
  {}

  /** Decoding what was encoded, with anything behind it: the same value, and exactly the
      bytes behind it are left. */
  lemma {:induction false} RoundTrip(r: Reply, more: bytes)
    requires Printable(r)
    ensures Parse(Encode(r) + more) == Done(r, more)
    decreases r, 1
  {
    match r {
      case Text(line) => TextRoundTrip(line, more);
      case Number(n) => NumberRoundTrip(n, more);
      case Bulk(data) => BulkRoundTrip(data, more);
      case Nil => NilRoundTrip(more);
      case Multi(items) =>
        RoundTripAll(items, more);
        MultiRoundTrip(items, more);
    }
  }

  lemma TextLine(line: bytes)
    requires FindCrlf(line).None?
    ensures FindCrlf([PLUS] + line).None?
  {
    assert ([PLUS] + line)[1..] == line;
  }

  lemma {:induction false} RoundTripAll(items: seq<Reply>, more: bytes)
    requires forall i :: 0 <= i < |items| ==> Printable(items[i])
    ensures ParseMany(EncodeAll(items) + more, |items|) == Done(items, more)
    decreases items, 0
  {
    if items == [] {
      assert EncodeAll(items) + more == more;
    } else {
      var others := EncodeAll(items[1..]) + more;
      Regroup(Encode(items[0]), EncodeAll(items[1..]), more);
      RoundTrip(items[0], others);
      RoundTripAll(items[1..], more);
      ManyStep(Encode(items[0]) + others, |items|, items[0], others, items[1..], more);
      assert items == [items[0]] + items[1..];
    }
  }

  lemma ManyStep(s: bytes, count: nat, first: Reply, others: bytes, rest: seq<Reply>, more: bytes)
    requires count >= 1 && Parse(s) == Done(first, others) && ParseMany(others, count - 1) == Done(rest, more)
    ensures ParseMany(s, count) == Done([first] + rest, more)
  {}

  /** An error line decodes to the same value as a status line: the client cannot tell. */
  lemma ErrorsLookLikeText(line: bytes, more: bytes)
    requires FindCrlf(line).None?
    ensures Parse([MINUS] + line + CRLF + more) == Parse([PLUS] + line + CRLF + more) == Done(Text(line), more)
  {
    TextLine(line);
    assert ([MINUS] + line)[1..] == line;
    forall kind: byte | kind == PLUS || kind == MINUS
      ensures Parse([kind] + line + CRLF + more) == Done(Text(line), more)
    {
      LineEndHere([kind] + line, more);
      var s := [kind] + line + CRLF + more;
      assert s[..1 + |line|] == [kind] + line;
      assert s[1 + |line| + 2..] == more;
    }
  }

  /** The two bytes behind bulk data are taken for its line end unseen. */
  lemma BulkEndIsNotChecked(data: bytes, x: byte, y: byte, more: bytes)
    ensures Parse([DOLLAR] + PrintInt(|data|) + CRLF + (data + [x, y] + more)) == Done(Bulk(data), more)
  {
    var rest := data + [x, y] + more;
    HeaderParses(DOLLAR, |data|, rest);
    assert rest[..|data|] == data && rest[|data| + 2..] == more;
  }

  // -------------------------------------------------------------- replies cut short

  lemma NoLineEndYet(line: bytes, m: nat)
    requires FindCrlf(line).None? && m <= |line| + 1
    ensures FindCrlf((line + CRLF)[..m]).None?
  {
    var s := (line + CRLF)[..m];
    FindCrlfMeaning(line);
    FindCrlfMeaning(s);
    assert forall j :: 0 <= j < m ==> s[j] == (line + CRLF)[j];
    assert forall j :: 0 <= j < |line| && j < m ==> s[j] == line[j];
    assert m > |line| ==> s[|line|] == CR;
  }

  lemma CutLine(line: bytes, m: nat)
    requires FindCrlf(line).None? && m < |line| + 2
    ensures Parse((line + CRLF)[..m]) == Closed
  {
    NoLineEndYet(line, m);
  }

  lemma NumberLine(kind: byte, n: int)
    requires kind != CR
    ensures FindCrlf([kind] + PrintInt(n)).None?
  {
    NoCrInDigits([kind] + PrintInt(n));
  }

  /** A prefix of a header line and what follows it: inside the line, or behind it. */
  lemma CutBehind(line: bytes, body: bytes, m: nat)
    requires m < |line| + 2 + |body|
    ensures m < |line| + 2 ==> (line + CRLF + body)[..m] == (line + CRLF)[..m]
    ensures m >= |line| + 2 ==> (line + CRLF + body)[..m] == line + CRLF + body[..m - |line| - 2]
  {}

  lemma CutBulk(data: bytes, m: nat)
    requires m < |Encode(Bulk(data))|
    ensures Parse(Encode(Bulk(data))[..m]) == Closed
  {
    var line, body := [DOLLAR] + PrintInt(|data|), data + CRLF;
    assert Encode(Bulk(data)) == line + CRLF + body;
    NumberLine(DOLLAR, |data|);
    CutBehind(line, body, m);
    if m < |line| + 2 { CutLine(line, m); } else { HeaderParses(DOLLAR, |data|, body[..m - |line| - 2]); }
  }

  lemma CutMulti(items: seq<Reply>, m: nat)
    requires m < |Encode(Multi(items))|
    requires forall k: nat :: k < |EncodeAll(items)| ==> ParseMany(EncodeAll(items)[..k], |items|) == Closed
    ensures Parse(Encode(Multi(items))[..m]) == Closed
  {
    var line, body := [STAR] + PrintInt(|items|), EncodeAll(items);
    NumberLine(STAR, |items|);
    CutBehind(line, body, m);
    if m < |line| + 2 {
      CutLine(line, m);
    } else {
      HeaderParses(STAR, |items|, body[..m - |line| - 2]);
      ClosedArray(line + CRLF + body[..m - |line| - 2], |line|, |items|, body[..m - |line| - 2]);
    }
  }

  lemma ClosedArray(s: bytes, k: nat, n: nat, rest: bytes)
    requires FindCrlf(s) == Some(k) && k >= 1 && s[..k][0] == STAR && IntOf(s[..k][1..]) == Some(n)
    requires s[k + 2..] == rest && ParseMany(rest, n) == Closed
    ensures Parse(s) == Closed
  {}

  /** A reply that is not there in full is not answered yet: every shorter part of it is
      read as a stream that ended. */
  lemma {:induction false} TruncatedIsClosed(r: Reply, m: nat)
    requires Printable(r) && m < |Encode(r)|
    ensures Parse(Encode(r)[..m]) == Closed
    decreases r, 1
  {
    match r {
      case Text(line) =>
        TextLine(line);
        CutLine([PLUS] + line, m);
      case Number(n) =>
        NumberLine(COLON, n);
        CutLine([COLON] + PrintInt(n), m);
      case Bulk(data) => CutBulk(data, m);
      case Nil =>
        NumberLine(DOLLAR, -1);
        CutLine([DOLLAR] + PrintInt(-1), m);
      case Multi(items) =>
        forall k: nat | k < |EncodeAll(items)| ensures ParseMany(EncodeAll(items)[..k], |items|) == Closed {
          TruncatedMany(items, k);
        }
        CutMulti(items, m);
    }
  }

  lemma {:induction false} TruncatedMany(items: seq<Reply>, m: nat)
    requires (forall i :: 0 <= i < |items| ==> Printable(items[i])) && m < |EncodeAll(items)|
    ensures ParseMany(EncodeAll(items)[..m], |items|) == Closed
    decreases items, 0
  {
    var first, others := Encode(items[0]), EncodeAll(items[1..]);
    if m < |first| {
      assert (first + others)[..m] == first[..m];
      TruncatedIsClosed(items[0], m);
    } else {
      var rest := others[..m - |first|];
      assert (first + others)[..m] == first + rest;
      RoundTrip(items[0], rest);
      TruncatedMany(items[1..], m - |first|);
    }
  }

  // ------------------------------------------------------------------- client

  datatype Answer = Got(value: Reply) | Ended | Unexpected

  /** The client's answer is the parse of the stream, and what is left is left. */
  ghost predicate Agrees(a: Answer, p: Parsed<Reply>, left: bytes) {
    match p
    case Done(v, rest) => a == Got(v) && left == rest
    case Closed => a.Ended?
    case Bad => a.Unexpected?
  }

  function Prepend(items: seq<Reply>, p: Parsed<seq<Reply>>): Parsed<seq<Reply>> {
    if p.Done? then Done(items + p.value, p.rest) else p
  }

  lemma PrependNone(p: Parsed<seq<Reply>>)
    ensures Prepend([], p) == p
  {
    if p.Done? { assert [] + p.value == p.value; }
  }

  lemma PrependOne(items: seq<Reply>, item: Reply, p: Parsed<seq<Reply>>)
    ensures Prepend(items, Prepend([item], p)) == Prepend(items + [item], p)
  {
    if p.Done? { assert items + ([item] + p.value) == items + [item] + p.value; }
  }

  lemma ManyNext(all: Parsed<seq<Reply>>, items: seq<Reply>, s: bytes, count: nat, item: Answer, left: bytes)
    requires count >= 1 && all == Prepend(items, ParseMany(s, count)) && Agrees(item, Parse(s), left)
    ensures match item
            case Got(v) => all == Prepend(items + [v], ParseMany(left, count - 1)) && |left| < |s|
            case Ended => all == Closed
            case Unexpected => all == Bad
  {
    var p := Parse(s);
    if p.Done? {
      assert ParseMany(s, count) == Prepend([p.value], ParseMany(p.rest, count - 1));
      PrependOne(items, p.value, ParseMany(p.rest, count - 1));
    }
  }

  lemma ManyEnds(items: seq<Reply>, s: bytes)
    ensures Prepend(items, ParseMany(s, 0)) == Done(items, s)
  {
    assert items + [] == items;
  }

  class KeyValue {
    var buffer: bytes
    // the blocks the socket will still deliver; then it is closed
    var incoming: seq<bytes>
    var sent: bytes

    ghost predicate Valid()
      reads this
    {
      forall b :: b in incoming ==> b != []
    }

    /** All bytes not yet consumed, however they are cut. */
    ghost function Stream(): bytes
      reads this
    {
      buffer + Flat(incoming)
    }

    /** Print a command; the caller then reads the reply. */
    method SendCommand(args: seq<bytes>)
      modifies `sent
      ensures sent == old(sent) + Encode(Multi(Bulks(args)))
    {
      var out := [STAR] + Decimal(|args|) + CRLF;
      ghost var header := out;
      for i := 0 to |args|
        invariant out == header + EncodeAll(Bulks(args[..i])) && sent == old(sent)
      {
        assert Bulks(args[..i + 1]) == Bulks(args[..i]) + [Bulk(args[i])];
        EncodeAllAppend(Bulks(args[..i]), [Bulk(args[i])]);
        assert EncodeAll([Bulk(args[i])]) == Encode(Bulk(args[i])) by { assert [Bulk(args[i])][1..] == []; }
        out := out + ([DOLLAR] + Decimal(|args[i]|) + CRLF + args[i] + CRLF);
      }
      assert args[..|args|] == args;
      assert out == Encode(Multi(Bulks(args)));
      sent := sent + out;
    }

    method Refill() returns (ok: bool)
      requires Valid()
      modifies `buffer, `incoming
      ensures Valid() && Stream() == old(Stream())
      ensures ok <==> old(incoming) != []
      ensures ok ==> |incoming| < |old(incoming)|
      ensures !ok ==> incoming == [] && buffer == old(buffer)
    {
      if incoming == [] { return false; }
      assert incoming[0] in incoming && forall b :: b in incoming[1..] ==> b in incoming;
      buffer := buffer + incoming[0];
      incoming := incoming[1..];
      assert old(Stream()) == old(buffer) + (old(incoming)[0] + Flat(old(incoming)[1..]));
      ok := true;
    }

    method Line() returns (line: Option<bytes>)
      requires Valid()
      modifies `buffer, `incoming
      ensures Valid()
      ensures var k := FindCrlf(old(Stream()));
              if k.None? then line.None?
              else line == Some(old(Stream())[..k.value]) && Stream() == old(Stream())[k.value + 2..]
    {
      while FindCrlf(buffer).None?
        invariant Valid() && Stream() == old(Stream())
        decreases |incoming|
      {
        var ok := Refill();
        if !ok {
          assert Stream() == buffer;
          return None;
        }
      }
      var k := FindCrlf(buffer).value;
      LineEndStays(buffer, Flat(incoming));
      assert old(Stream()) == buffer + Flat(incoming);
      assert (buffer + Flat(incoming))[..k] == buffer[..k];
      assert (buffer + Flat(incoming))[k + 2..] == buffer[k + 2..] + Flat(incoming);
      line := Some(buffer[..k]);
      buffer := buffer[k + 2..];
    }

    method Exact(count: nat) returns (data: Option<bytes>)
      requires Valid()
      modifies `buffer, `incoming
      ensures Valid()
      ensures if |old(Stream())| < count then data.None?
              else data == Some(old(Stream())[..count]) && Stream() == old(Stream())[count..]
    {
      while |buffer| < count
        invariant Valid() && Stream() == old(Stream())
        decreases |incoming|
      {
        var ok := Refill();
        if !ok {
          assert Stream() == buffer;
          return None;
        }
      }
      assert old(Stream()) == buffer + Flat(incoming);
      assert (buffer + Flat(incoming))[..count] == buffer[..count];
      assert (buffer + Flat(incoming))[count..] == buffer[count..] + Flat(incoming);
      data := Some(buffer[..count]);
      buffer := buffer[count..];
    }

    /** Read one reply. The answer depends only on the bytes, not on how they are cut into
        blocks, and the bytes after the reply are exactly what the next one starts from. */
    method ReadReply() returns (a: Answer)
      requires Valid()
      modifies `buffer, `incoming
      ensures Valid()
      ensures Agrees(a, Parse(old(Stream())), Stream())
      decreases |Stream()|, 0
    {
      var line := Line();
      if line.None? { return Ended; }
      var head := line.value;
      if head == [] { return Unexpected; }
      var kind, rest := head[0], head[1..];
      if kind == PLUS || kind == MINUS { return Got(Text(rest)); }
      if kind != COLON && kind != DOLLAR && kind != STAR { return Unexpected; }
      var n := IntOf(rest);
      if n.None? { return Unexpected; }
      if kind == COLON { return Got(Number(n.value)); }
      if n.value < 0 { return Got(Nil); }
      if kind == DOLLAR {
        a := ReadBulk(n.value);
      } else {
        a := ReadItems(n.value, ParseMany(Stream(), n.value));
      }
    }

    /** `exact(length + 2)[:-2]`: the two bytes behind the data are not looked at. */
    method ReadBulk(length: nat) returns (a: Answer)
      requires Valid()
      modifies `buffer, `incoming
      ensures Valid()
      ensures if |old(Stream())| < length + 2 then a == Ended
              else a == Got(Bulk(old(Stream())[..length])) && Stream() == old(Stream())[length + 2..]
    {
      ghost var all := Stream();
      var data := Exact(length + 2);
      if data.None? { return Ended; }
      assert data.value[..|data.value| - 2] == all[..length];
      a := Got(Bulk(data.value[..|data.value| - 2]));
    }

    /** One item of an array, of which `items` have been read and `count` are to come. */
    method NextItem(count: nat, ghost items: seq<Reply>, ghost p: Parsed<seq<Reply>>) returns (item: Answer)
      requires Valid() && count >= 1 && p == Prepend(items, ParseMany(Stream(), count))
      modifies `buffer, `incoming
      ensures Valid()
      ensures match item
              case Got(v) => p == Prepend(items + [v], ParseMany(Stream(), count - 1)) && |Stream()| < |old(Stream())|
              case Ended => p == Closed
              case Unexpected => p == Bad
      decreases |Stream()|, 1
    {
      ghost var here := Stream();
      item := ReadReply();
      ManyNext(p, items, here, count, item, Stream());
    }

    /** The items of an array reply, one after the other. */
    method ReadItems(count: nat, ghost p: Parsed<seq<Reply>>) returns (a: Answer)
      requires Valid() && p == ParseMany(Stream(), count)
      modifies `buffer, `incoming
      ensures Valid()
      ensures match p
              case Done(vs, rest) => a == Got(Multi(vs)) && Stream() == rest
              case Closed => a == Ended
              case Bad => a == Unexpected
      decreases |Stream()|, 2
    {
      ghost var all := Stream();
      var items: seq<Reply> := [];
      PrependNone(p);
      var i := 0;
      while i < count
        invariant 0 <= i <= count && Valid() && |Stream()| <= |all|
        invariant p == Prepend(items, ParseMany(Stream(), count - i))
      {
        var item := NextItem(count - i, items, p);
        if !item.Got? { return item; }
        items := items + [item.value];
        i := i + 1;
      }
      ManyEnds(items, Stream());
      a := Got(Multi(items));
    }
  }

  function Bulks(args: seq<bytes>): seq<Reply> {
    seq(|args|, i requires 0 <= i < |args| => Bulk(args[i]))
  }

  lemma {:induction false} EncodeAllAppend(a: seq<Reply>, b: seq<Reply>)
    ensures EncodeAll(a + b) == EncodeAll(a) + EncodeAll(b)
  {
    if a == [] {
      assert a + b == b;
    } else {
      assert (a + b)[1..] == a[1..] + b;
      EncodeAllAppend(a[1..], b);
    }
  }

  /** A peer that echoes a command is read back as the list of its arguments, however the
      echo is cut into blocks. */
  lemma CommandRoundTrip(args: seq<bytes>, more: bytes)
    ensures Parse(Encode(Multi(Bulks(args))) + more) == Done(Multi(Bulks(args)), more)
  {
    RoundTrip(Multi(Bulks(args)), more);
  }
}
