/** Host matching of callback hints: on strings as the program does it, and on label lists. */
module Hosts {
  predicate EndsWith(s: string, t: string) { |t| <= |s| && s[|s| - |t|..] == t }

  /** The program's test: same host, or one is a dotted suffix of the other. */
  predicate HostMatches(host: string, wanted: string) {
    host != "" && (wanted == host || EndsWith(wanted, "." + host) || EndsWith(host, "." + wanted))
  }

  /** The labels of a name: its pieces between dots. */
  function Labels(s: string): (r: seq<string>)
    ensures |r| >= 1
  {
    if s == "" then [""]
    else
      var rest := Labels(s[1..]);
      if s[0] == '.' then [""] + rest else [[s[0]] + rest[0]] + rest[1..]
  }

  function Join(labels: seq<string>): string
    requires labels != []
  {
    if |labels| == 1 then labels[0] else labels[0] + "." + Join(labels[1..])
  }

  predicate IsSuffix(a: seq<string>, b: seq<string>) { |a| <= |b| && b[|b| - |a|..] == a }

  lemma {:induction false} JoinLabels(s: string)
    ensures Join(Labels(s)) == s
  {
    if s != "" {
      JoinLabels(s[1..]);
      var rest := Labels(s[1..]);
      assert s == [s[0]] + s[1..];
      if s[0] == '.' {
        assert ([""] + rest)[1..] == rest;
      } else {
        JoinLonger(s[0], rest);
      }
    }
  }

  lemma JoinLonger(c: char, rest: seq<string>)
    requires rest != []
    ensures Join([[c] + rest[0]] + rest[1..]) == [c] + Join(rest)
  {
    var all := [[c] + rest[0]] + rest[1..];
    if |rest| > 1 {
      assert all[1..] == rest[1..];
      assert [c] + rest[0] + "." + Join(rest[1..]) == [c] + (rest[0] + "." + Join(rest[1..]));
    }
  }

  lemma {:induction false} LabelsOfDotted(a: string, b: string)
    ensures Labels(a + "." + b) == Labels(a) + Labels(b)
  {
    var s := a + "." + b;
    if a == "" {
      assert s[1..] == b;
    } else {
      assert s[1..] == a[1..] + "." + b;
      LabelsOfDotted(a[1..], b);
    }
  }

  lemma {:induction false} JoinAppend(p: seq<string>, q: seq<string>)
    requires p != [] && q != []
    ensures Join(p + q) == Join(p) + "." + Join(q)
  {
    if |p| == 1 {
      assert (p + q)[1..] == q;
    } else {
      assert (p + q)[1..] == p[1..] + q;
      JoinAppend(p[1..], q);
      assert Join(p + q) == p[0] + "." + (Join(p[1..]) + "." + Join(q));
    }
  }

  lemma DottedGivesSuffix(host: string, wanted: string)
    requires EndsWith(wanted, "." + host)
    ensures IsSuffix(Labels(host), Labels(wanted)) && |Labels(host)| < |Labels(wanted)|
  {
    var a := wanted[..|wanted| - |host| - 1];
    assert wanted == a + "." + host;
    LabelsOfDotted(a, host);
  }

  lemma SuffixGivesDotted(host: string, wanted: string)
    requires IsSuffix(Labels(host), Labels(wanted)) && |Labels(host)| < |Labels(wanted)|
    ensures EndsWith(wanted, "." + host)
  {
    JoinLabels(host);
    JoinLabels(wanted);
    var first := SuffixSplits(Labels(host), Labels(wanted));
    JoinParts(first, Labels(host));
    EndsWithTail(Join(first), "." + host);
  }

  lemma SuffixSplits(a: seq<string>, b: seq<string>) returns (first: seq<string>)
    requires IsSuffix(a, b) && |a| < |b|
    ensures first != [] && b == first + a
  {
    first := b[..|b| - |a|];
  }

  lemma JoinParts(p: seq<string>, q: seq<string>)
    requires p != [] && q != []
    ensures Join(p + q) == Join(p) + ("." + Join(q))
  {
    JoinAppend(p, q);
    assert Join(p) + "." + Join(q) == Join(p) + ("." + Join(q));
  }

  lemma EndsWithTail(a: string, b: string)
    ensures EndsWith(a + b, b)
  {}

  lemma DottedSuffix(host: string, wanted: string)
    ensures EndsWith(wanted, "." + host)
            <==> IsSuffix(Labels(host), Labels(wanted)) && |Labels(host)| < |Labels(wanted)|
  {
    if EndsWith(wanted, "." + host) { DottedGivesSuffix(host, wanted); }
    if IsSuffix(Labels(host), Labels(wanted)) && |Labels(host)| < |Labels(wanted)| { SuffixGivesDotted(host, wanted); }
  }

  /** On label lists the test is comparability under the suffix order. */
  lemma MatchesIffComparable(host: string, wanted: string)
    ensures HostMatches(host, wanted)
            <==> host != "" && (IsSuffix(Labels(host), Labels(wanted)) || IsSuffix(Labels(wanted), Labels(host)))
  {
    DottedSuffix(host, wanted);
    DottedSuffix(wanted, host);
    JoinLabels(host);
    JoinLabels(wanted);
  }

  lemma MatchesSymmetric(host: string, wanted: string)
    requires host != "" && wanted != ""
    ensures HostMatches(host, wanted) <==> HostMatches(wanted, host)
  {
    MatchesIffComparable(host, wanted);
    MatchesIffComparable(wanted, host);
  }

  // ------------------------------------------------- the query string's normal form

  predicate Blank(c: char) { c == ' ' || 9 <= c as int <= 13 }

  function Lower(c: char): char {
    if 'A' <= c <= 'Z' then c - 'A' + 'a' else c
  }

  function StripLeft(s: string): string {
    if s != "" && Blank(s[0]) then StripLeft(s[1..]) else s
  }

  function StripRight(s: string): string {
    if s != "" && Blank(s[|s| - 1]) then StripRight(s[..|s| - 1]) else s
  }

  function StripDots(s: string): string {
    if s != "" && s[|s| - 1] == '.' then StripDots(s[..|s| - 1]) else s
  }

  function Normal(s: string): string {
    var t := StripDots(StripRight(StripLeft(s)));
    seq(|t|, i requires 0 <= i < |t| => Lower(t[i]))
  }

  const BLANKS := " \t\n\r"

  /** White space of ASCII: the four above, vertical tab and form feed. */
  lemma BlankMeaning(c: char)
    ensures Blank(c) <==> c in BLANKS || c as int == 11 || c as int == 12
  {}

  /** Capitals become small letters and nothing else changes. */
  lemma LowerMeaning(c: char)
    ensures if c in "ABCDEFGHIJKLMNOPQRSTUVWXYZ" then Lower(c) as int == c as int + 32 else Lower(c) == c
  {
    assert c in "ABCDEFGHIJKLMNOPQRSTUVWXYZ" <==> 'A' <= c <= 'Z';
  }

  predicate AllBlank(s: string) { forall i :: 0 <= i < |s| ==> Blank(s[i]) }

  predicate AllDots(s: string) { forall i :: 0 <= i < |s| ==> s[i] == '.' }

  lemma {:induction false} LeftStripped(s: string) returns (front: string)
    ensures s == front + StripLeft(s) && AllBlank(front) && (StripLeft(s) != "" ==> !Blank(StripLeft(s)[0]))
  {
    if s != "" && Blank(s[0]) {
      front := LeftStripped(s[1..]);
      front := [s[0]] + front;
      assert s == [s[0]] + s[1..];
    } else {
      front := "";
    }
  }

  lemma {:induction false} RightStripped(s: string) returns (back: string)
    ensures s == StripRight(s) + back && AllBlank(back)
    ensures StripRight(s) != "" ==> StripRight(s)[0] == s[0] && !Blank(StripRight(s)[|StripRight(s)| - 1])
  {
    if s != "" && Blank(s[|s| - 1]) {
      back := RightStripped(s[..|s| - 1]);
      back := back + [s[|s| - 1]];
    } else {
      back := "";
    }
  }

  lemma {:induction false} DotsStripped(s: string) returns (back: string)
    ensures s == StripDots(s) + back && AllDots(back)
    ensures StripDots(s) != "" ==> StripDots(s)[0] == s[0] && StripDots(s)[|StripDots(s)| - 1] != '.'
  {
    if s != "" && s[|s| - 1] == '.' {
      back := DotsStripped(s[..|s| - 1]);
      back := back + ['.'];
    } else {
      back := "";
    }
  }

  /** What is asked for, in normal form: blanks around it go, then the dots at its end, and
      what is left is in small letters. */
  lemma NormalMeaning(s: string) returns (front: string, core: string, dots: string, back: string)
    ensures s == front + core + dots + back && AllBlank(front) && AllBlank(back) && AllDots(dots)
    ensures core + dots != "" ==> !Blank((core + dots)[0]) && !Blank((core + dots)[|core + dots| - 1])
    ensures core != "" ==> core[|core| - 1] != '.'
    ensures |Normal(s)| == |core| && forall i :: 0 <= i < |core| ==> Normal(s)[i] == Lower(core[i])
  {
    front := LeftStripped(s);
    back := RightStripped(StripLeft(s));
    var trimmed := StripRight(StripLeft(s));
    dots := DotsStripped(trimmed);
    core := StripDots(trimmed);
    assert core + dots == trimmed;
    assert s == front + (core + dots + back);
  }
}
