/**
 The reader of JavaScript literals in a scanner's report: a tokeniser that turns one value
 into JSON text. `Scan` is its loop as a function of the text that is left; the methods are
 the loops as written.
 */
module JsLiteral {
  import opened Common
  import opened Hosts
  import opened JsonText

  predicate Quote(c: char) { c == '\'' || c == '"' }

  predicate Opens(c: char) { c == '[' || c == '{' }

  predicate Closes(c: char) { c == ']' || c == '}' }

  // ------------------------------------------------------------------ the reader

  /** A string body up to its quote. A backslash keeps a quote or backslash behind it bare,
      and stays in front of anything else. An unterminated string ends with the text. */
  function ReadString(s: string, quote: char): (t: Token)
    ensures |t.rest| <= |s|
  {
    if s == "" then Token("", "")
    else if s[0] == '\\' && |s| >= 2 then
      Prefixed(if Quote(s[1]) || s[1] == '\\' then [s[1]] else ['\\', s[1]], ReadString(s[2..], quote))
    else if s[0] == quote then Token("", s[1..])
    else Prefixed([s[0]], ReadString(s[1..], quote))
  }

  /** What the scan collected, None for a stray closing bracket, and where it stopped. */
  datatype Scanned = Scanned(text: Option<string>, rest: string)

  function Scan(s: string, depth: nat, buf: string): (r: Scanned)
    ensures |r.rest| <= |s|
    decreases |s|
  {
    if s == "" then Scanned(Some(buf), "")
    else if Quote(s[0]) then
      var t := ReadString(s[1..], s[0]);
      Scan(t.rest, depth, buf + Dumps(t.value))
    else if Closes(s[0]) && depth == 0 then Scanned(None, s)
    else if s[0] == ';' && depth == 0 then Scanned(Some(buf), s)
    else
      var now := if Opens(s[0]) then depth + 1 else if Closes(s[0]) then depth - 1 else depth;
      if now == 0 && Closes(s[0]) then Scanned(Some(buf + [s[0]]), s[1..])
      else Scan(s[1..], now, buf + [s[0]])
  }

  function StripSemicolons(s: string): string {
    if s != "" && s[|s| - 1] == ';' then StripSemicolons(s[..|s| - 1]) else s
  }

  function Trim(s: string): string { StripRight(StripLeft(s)) }

  /** The collected text, trimmed; nothing left means no literal. */
  function Tidy(text: Option<string>): Option<string> {
    if text.None? then None
    else
      var t := Trim(StripSemicolons(Trim(text.value)));
      if t == "" then None else Some(t)
  }

  lemma DropOne(text: string, i: nat)
    requires i < |text|
    ensures text[i..][0] == text[i] && text[i..][1..] == text[i + 1..]
  {}

  lemma DropTwo(text: string, i: nat)
    requires i + 2 <= |text|
    ensures text[i..][1] == text[i + 1] && text[i..][2..] == text[i + 2..]
  {}

  lemma PrefixedTwice(p: string, q: string, t: Token)
    ensures Prefixed(p, Prefixed(q, t)) == Prefixed(p + q, t)
  {
    assert p + (q + t.value) == p + q + t.value;
  }

  method ReadJsString(text: string, start: nat) returns (value: string, i: nat)
    requires start < |text| && Quote(text[start])
    ensures start < i <= |text|
    ensures ReadString(text[start + 1..], text[start]) == Token(value, text[i..])
  {
    var quote := text[start];
    ghost var all := ReadString(text[start + 1..], quote);
    i, value := start + 1, "";
    assert Prefixed("", all) == all by { assert "" + all.value == all.value; }
    while i < |text|
      invariant start < i <= |text|
      invariant Prefixed(value, ReadString(text[i..], quote)) == all
    {
      var ch := text[i];
      DropOne(text, i);
      if ch == '\\' && i + 1 < |text| {
        var nxt := text[i + 1];
        DropTwo(text, i);
        var piece := if nxt == '\'' || nxt == '"' || nxt == '\\' then [nxt] else ['\\', nxt];
        PrefixedTwice(value, piece, ReadString(text[i + 2..], quote));
        value, i := value + piece, i + 2;
      } else if ch == quote {
        i := i + 1;
        assert value + "" == value;
        return;
      } else {
        PrefixedTwice(value, [ch], ReadString(text[i + 1..], quote));
        value, i := value + [ch], i + 1;
      }
    }
    assert value + "" == value;
  }

  /** One turn of the scan at position `i` on a character outside strings. */
  lemma ScanTurn(r: Scanned, text: string, i: nat, depth: nat, buf: string)
    requires i < |text| && !Quote(text[i]) && r == Scan(text[i..], depth, buf)
    ensures var c := text[i];
            var now := if Opens(c) then depth + 1 else if Closes(c) then depth - 1 else depth;
            if now < 0 then r == Scanned(None, text[i..])
            else if c == ';' && depth == 0 then r == Scanned(Some(buf), text[i..])
            else if now == 0 && Closes(c) then r == Scanned(Some(buf + [c]), text[i + 1..])
            else r == Scan(text[i + 1..], now, buf + [c])
  {
    DropOne(text, i);
  }

  lemma ScanString(r: Scanned, text: string, i: nat, depth: nat, buf: string, value: string, next: nat)
    requires i < |text| && Quote(text[i]) && next <= |text| && r == Scan(text[i..], depth, buf)
    requires ReadString(text[i + 1..], text[i]) == Token(value, text[next..])
    ensures r == Scan(text[next..], depth, buf + Dumps(value))
  {
    DropOne(text, i);
  }

  /** A turn on a character outside strings: it ends the scan, or it is collected. */
  method PlainTurn(text: string, i0: nat, depth0: nat, chars0: string, ghost all: Scanned)
    returns (ended: bool, buf: Option<string>, i: nat, depth: nat, chars: string)
    requires i0 < |text| && !Quote(text[i0]) && all == Scan(text[i0..], depth0, chars0)
    ensures i0 <= i <= |text|
    ensures ended ==> all == Scanned(buf, text[i..])
    ensures !ended ==> i == i0 + 1 && all == Scan(text[i..], depth, chars)
  {
    ScanTurn(all, text, i0, depth0, chars0);
    var ch := text[i0];
    ended, buf, i, depth, chars := true, None, i0, depth0, chars0;
    if ch == '[' || ch == '{' {
      depth := depth + 1;
    } else if ch == ']' || ch == '}' {
      if depth == 0 { return; }
      depth := depth - 1;
    } else if ch == ';' && depth == 0 {
      buf := Some(chars);
      return;
    }
    chars := chars + [ch];
    i := i + 1;
    ended := depth == 0 && (ch == ']' || ch == '}');
    buf := Some(chars);
  }

  /** The loop of the reader. The index strictly advances in every turn, so it ends on every
      input. */
  method ScanLiteral(text: string, start: nat, ghost all: Scanned) returns (buf: Option<string>, i: nat)
    requires start <= |text| && all == Scan(text[start..], 0, "")
    ensures start <= i <= |text|
    ensures all == Scanned(buf, text[i..])
  {
    i := start;
    var depth: nat := 0;
    var chars := "";
    while i < |text|
      invariant start <= i <= |text| && all == Scan(text[i..], depth, chars)
    {
      if text[i] == '\'' || text[i] == '"' {
        var value, next := ReadJsString(text, i);
        ScanString(all, text, i, depth, chars, value, next);
        chars, i := chars + Dumps(value), next;
      } else {
        var ended;
        ended, buf, i, depth, chars := PlainTurn(text, i, depth, chars, all);
        if ended { return; }
      }
    }
    buf := Some(chars);
    ScanEnd(all, text, depth, chars);
  }

  lemma ScanEnd(all: Scanned, text: string, depth: nat, buf: string)
    requires all == Scan(text[|text|..], depth, buf)
    ensures all == Scanned(Some(buf), text[|text|..])
  {}

  method ReadJsLiteral(text: string, start: nat) returns (literal: Option<string>, i: nat)
    requires start <= |text|
    ensures start <= i <= |text|
    ensures text[i..] == Scan(text[start..], 0, "").rest
    ensures literal == Tidy(Scan(text[start..], 0, "").text)
  {
    var buf;
    buf, i := ScanLiteral(text, start, Scan(text[start..], 0, ""));
    literal := Tidy(buf);
  }
}
