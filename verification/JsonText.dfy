/** Strings in JSON text: how the report's normaliser prints them, and how they are read. */
module JsonText {
  import opened Common

  // ------------------------------------------------------------ JSON string text

  function HexDigit(n: nat): char
    requires n < 16
  {
    "0123456789abcdef"[n]
  }

  /** The last `k` hex digits of a number. */
  function Hex(n: nat, k: nat): (s: string)
    ensures |s| == k
  {
    if k == 0 then "" else Hex(n / 16, k - 1) + [HexDigit(n % 16)]
  }

  /** The two code units of a character beyond 16 bits, from its distance to them. */
  function Surrogates(n: nat): (pair: (nat, nat))
    requires n < 0x10_0000
    ensures 0xd800 <= pair.0 < 0xdc00 && 0xdc00 <= pair.1 < 0xe000
    ensures (pair.0 - 0xd800) * 1024 + (pair.1 - 0xdc00) == n
  {
    (0xd800 + n / 1024, 0xdc00 + n % 1024)
  }

  function UnicodeText(unit: nat): string { "\\u" + Hex(unit, 4) }

  /** One character in `json.dumps` text: short escapes, then ASCII as it is, then code
      units. */
  function DumpChar(c: char): string {
    if c == '"' then "\\\""
    else if c == '\\' then "\\\\"
    else if c == '\n' then "\\n"
    else if c == '\r' then "\\r"
    else if c == '\t' then "\\t"
    else if c as int == 8 then "\\b"
    else if c as int == 12 then "\\f"
    else if 32 <= c as int < 127 then [c]
    else if c as int < 0x1_0000 then UnicodeText(c as int)
    else
      var pair := Surrogates(c as int - 0x1_0000);
      UnicodeText(pair.0) + UnicodeText(pair.1)
  }

  function DumpAll(s: string): string {
    if s == "" then "" else DumpChar(s[0]) + DumpAll(s[1..])
  }

  function Dumps(s: string): string { "\"" + DumpAll(s) + "\"" }

  /** What was read, and what is left. */
  datatype Token = Token(value: string, rest: string)

  function Prefixed(p: string, t: Token): Token { Token(p + t.value, t.rest) }

  // --------------------------------------------------- a reader of JSON strings

  function HexValue(c: char): Option<nat> {
    if '0' <= c <= '9' then Some(c as int - '0' as int)
    else if 'a' <= c <= 'f' then Some(c as int - 'a' as int + 10)
    else if 'A' <= c <= 'F' then Some(c as int - 'A' as int + 10)
    else None
  }

  function HexNumber(s: string): Option<nat> {
    if s == "" then Some(0)
    else
      var d, init := HexValue(s[|s| - 1]), HexNumber(s[..|s| - 1]);
      if d.None? || init.None? then None else Some(init.value * 16 + d.value)
  }

  function Pow16(k: nat): nat { if k == 0 then 1 else 16 * Pow16(k - 1) }

  lemma {:induction false} HexNumberBound(s: string)
    ensures HexNumber(s).Some? ==> HexNumber(s).value < Pow16(|s|)
  {
    if s != "" { HexNumberBound(s[..|s| - 1]); }
  }

  /** Four hex digits at the front. */
  function Hex4Value(s: string): (n: Option<nat>)
    ensures n.Some? ==> |s| >= 4 && n.value < 0x1_0000
  {
    if |s| < 4 then None
    else
      HexNumberBound(s[..4]);
      FourDigits();
      HexNumber(s[..4])
  }

  lemma FourDigits()
    ensures Pow16(4) == 0x1_0000
  {
    assert Pow16(2) == 256;
    assert Pow16(4) == 16 * (16 * Pow16(2));
  }

  /** What follows `\\u`: a code unit, or two that make a pair. A lone surrogate is no
      character and is refused. */
  function CodePoint(s: string): (t: Option<Token>)
    ensures t.Some? ==> |t.value.rest| < |s|
  {
    var high := Hex4Value(s);
    if high.None? || 0xdc00 <= high.value < 0xe000 then None
    else if high.value < 0xd800 || 0xe000 <= high.value then Some(Token([high.value as char], s[4..]))
    else if |s| < 6 || s[4] != '\\' || s[5] != 'u' then None
    else
      var low := Hex4Value(s[6..]);
      if low.None? || low.value < 0xdc00 || 0xe000 <= low.value then None
      else Some(Token([(0x1_0000 + (high.value - 0xd800) * 1024 + (low.value - 0xdc00)) as char], s[10..]))
  }

  /** What follows a backslash. */
  function Escape(s: string): (t: Option<Token>)
    ensures t.Some? ==> |t.value.rest| < |s|
  {
    if s == "" then None
    else if s[0] == '"' || s[0] == '\\' || s[0] == '/' then Some(Token([s[0]], s[1..]))
    else if s[0] == 'n' then Some(Token("\n", s[1..]))
    else if s[0] == 'r' then Some(Token("\r", s[1..]))
    else if s[0] == 't' then Some(Token("\t", s[1..]))
    else if s[0] == 'b' then Some(Token([8 as char], s[1..]))
    else if s[0] == 'f' then Some(Token([12 as char], s[1..]))
    else if s[0] == 'u' then CodePoint(s[1..])
    else None
  }

  /** A JSON string behind its opening quote: the characters it stands for, and what comes
      behind its closing quote. Section 7 of RFC 8259. */
  function LoadString(s: string): (t: Option<Token>)
    ensures t.Some? ==> |t.value.rest| < |s|
  {
    if s == "" then None
    else if s[0] == '"' then Some(Token("", s[1..]))
    else if (s[0] as int) < 32 then None
    else
      var first := if s[0] == '\\' then Escape(s[1..]) else Some(Token([s[0]], s[1..]));
      if first.None? then None else Before(first.value.value, LoadString(first.value.rest))
  }

  function Before(p: string, t: Option<Token>): Option<Token> {
    if t.None? then None else Some(Prefixed(p, t.value))
  }

  lemma HexDigitReads(n: nat)
    requires n < 16
    ensures HexValue(HexDigit(n)) == Some(n)
  {}

  lemma {:induction false} HexReads(n: nat, k: nat)
    requires n < Pow16(k)
    ensures HexNumber(Hex(n, k)) == Some(n)
    decreases k
  {
    if k > 0 {
      HexReads(n / 16, k - 1);
      HexDigitReads(n % 16);
      assert Hex(n, k)[..k - 1] == Hex(n / 16, k - 1);
    }
  }

  lemma Hex4Reads(n: nat, rest: string)
    requires n < 0x1_0000
    ensures Hex4Value(Hex(n, 4) + rest) == Some(n) && (Hex(n, 4) + rest)[4..] == rest
  {
    FourDigits();
    HexReads(n, 4);
    assert (Hex(n, 4) + rest)[..4] == Hex(n, 4);
  }

  /** The escape of a code point in front of anything. */
  lemma UnicodeEscape(u: string)
    requires CodePoint(u).Some?
    ensures LoadString("\\u" + u) == Before(CodePoint(u).value.value, LoadString(CodePoint(u).value.rest))
  {
    var s := "\\u" + u;
    assert s[1..][1..] == u;
  }

  lemma PairPoint(high: nat, low: nat, rest: string)
    requires 0xd800 <= high < 0xdc00 && 0xdc00 <= low < 0xe000
    ensures var c := (0x1_0000 + (high - 0xd800) * 1024 + (low - 0xdc00)) as char;
            CodePoint(Hex(high, 4) + ("\\u" + (Hex(low, 4) + rest))) == Some(Token([c], rest))
  {
    var third := Hex(low, 4) + rest;
    var second := "\\u" + third;
    var u := Hex(high, 4) + second;
    Hex4Reads(high, second);
    Hex4Reads(low, rest);
    assert u[4] == u[4..][0] && u[5] == u[4..][1];
    assert u[6..] == u[4..][2..] == third;
    assert u[10..] == u[6..][4..] == rest;
  }

  lemma PairEscape(high: nat, low: nat, rest: string)
    requires 0xd800 <= high < 0xdc00 && 0xdc00 <= low < 0xe000
    ensures var c := (0x1_0000 + (high - 0xd800) * 1024 + (low - 0xdc00)) as char;
            LoadString("\\u" + (Hex(high, 4) + ("\\u" + (Hex(low, 4) + rest)))) == Before([c], LoadString(rest))
  {
    PairPoint(high, low, rest);
    UnicodeEscape(Hex(high, 4) + ("\\u" + (Hex(low, 4) + rest)));
  }

  lemma PairIsDumped(c: char, rest: string) returns (high: nat, low: nat)
    requires c as int >= 0x1_0000
    ensures 0xd800 <= high < 0xdc00 && 0xdc00 <= low < 0xe000
    ensures 0x1_0000 + (high - 0xd800) * 1024 + (low - 0xdc00) == c as int
    ensures DumpChar(c) + rest == "\\u" + (Hex(high, 4) + ("\\u" + (Hex(low, 4) + rest)))
  {
    var pair := Surrogates(c as int - 0x1_0000);
    high, low := pair.0, pair.1;
    PairText(Hex(high, 4), Hex(low, 4), rest);
  }

  /** Characters beyond 16 bits are printed as two code units and read back as one. */
  lemma PairReads(c: char, rest: string)
    requires c as int >= 0x1_0000
    ensures LoadString(DumpChar(c) + rest) == Before([c], LoadString(rest))
  {
    var high, low := PairIsDumped(c, rest);
    PairEscape(high, low, rest);
  }

  lemma PairText(h: string, l: string, rest: string)
    ensures "\\u" + h + ("\\u" + l) + rest == "\\u" + (h + ("\\u" + (l + rest)))
  {}

  lemma UnitReads(c: char, rest: string)
    requires (c as int) < 0x1_0000 && DumpChar(c) == UnicodeText(c as int)
    ensures LoadString(DumpChar(c) + rest) == Before([c], LoadString(rest))
  {
    var h := Hex(c as int, 4);
    Hex4Reads(c as int, rest);
    UnicodeEscape(h + rest);
    Assoc("\\u", h, rest);
  }

  lemma Assoc(a: string, b: string, c: string)
    ensures a + b + c == a + (b + c)
  {}

  lemma CharLoads(c: char, rest: string)
    ensures LoadString(DumpChar(c) + rest) == Before([c], LoadString(rest))
  {
    if c as int >= 0x1_0000 {
      PairReads(c, rest);
    } else if |DumpChar(c)| == 6 {
      UnitReads(c, rest);
    } else {
      var s := DumpChar(c) + rest;
      assert s[|DumpChar(c)|..] == rest;
      if |DumpChar(c)| == 2 { assert s[1] == DumpChar(c)[1] && s[1..][1..] == rest; }
    }
  }

  lemma DumpCons(s: string, tail: string)
    requires s != ""
    ensures DumpAll(s) + tail == DumpChar(s[0]) + (DumpAll(s[1..]) + tail) && [s[0]] + s[1..] == s
  {
    Assoc(DumpChar(s[0]), DumpAll(s[1..]), tail);
  }

  /** Every string, whatever it holds, is read back from its JSON text. */
  lemma {:induction false} StringLoads(s: string, rest: string)
    ensures LoadString(DumpAll(s) + ("\"" + rest)) == Some(Token(s, rest))
  {
    var tail := "\"" + rest;
    if s == "" {
      assert DumpAll(s) + tail == tail && tail[1..] == rest;
    } else {
      StringLoads(s[1..], rest);
      CharLoads(s[0], DumpAll(s[1..]) + tail);
      DumpCons(s, tail);
    }
  }
}
