/** Small vocabulary shared by the models. */
module Common {
  datatype Option<+T> = None | Some(value: T)

  function Min(a: int, b: int): int { if a <= b then a else b }

  function Max(a: int, b: int): int { if a >= b then a else b }

  /** The first `n` elements, or all of them when there are fewer. */
  function Clip<T>(s: seq<T>, n: nat): seq<T> {
    if |s| <= n then s else s[..n]
  }

  /** How many places hold an element with the property. */
  ghost function CountIf<T>(s: seq<T>, p: T -> bool): nat { |set i | 0 <= i < |s| && p(s[i])| }

  lemma CountIs<T>(s: seq<T>, p: T -> bool, places: set<int>)
    requires forall i :: i in places <==> 0 <= i < |s| && p(s[i])
    ensures CountIf(s, p) == |places|
  {
    assert places == set i | 0 <= i < |s| && p(s[i]);
  }

  lemma CountIfNone<T>(p: T -> bool)
    ensures CountIf([], p) == 0
  {
    CountIs([], p, {});
  }

  lemma CountIfSnoc<T>(s: seq<T>, x: T, p: T -> bool)
    ensures CountIf(s + [x], p) == CountIf(s, p) + (if p(x) then 1 else 0)
  {
    var before := set i | 0 <= i < |s| && p(s[i]);
    CountIs(s, p, before);
    CountIs(s + [x], p, before + (if p(x) then {|s|} else {}));
  }

  lemma {:induction false} CountIfAppend<T>(a: seq<T>, b: seq<T>, p: T -> bool)
    ensures CountIf(a + b, p) == CountIf(a, p) + CountIf(b, p)
  {
    if b == [] {
      assert a + b == a;
      CountIfNone(p);
    } else {
      var init, last := b[..|b| - 1], b[|b| - 1];
      CountIfAppend(a, init, p);
      CountIfSnoc(a + init, last, p);
      CountIfSnoc(init, last, p);
      assert a + b == a + init + [last] && b == init + [last];
    }
  }

  /** Concatenation of a sequence of sequences. */
  function Flat<T>(parts: seq<seq<T>>): seq<T> {
    if parts == [] then [] else parts[0] + Flat(parts[1..])
  }

  lemma {:induction false} FlatAppend<T>(a: seq<seq<T>>, b: seq<seq<T>>)
    ensures Flat(a + b) == Flat(a) + Flat(b)
  {
    if a == [] {
      assert a + b == b;
    } else {
      assert (a + b)[1..] == a[1..] + b;
      FlatAppend(a[1..], b);
    }
  }

  lemma FlatOne<T>(x: seq<T>)
    ensures Flat([x]) == x
  {
    assert [x][1..] == [];
  }

  lemma {:induction false} FlatMember<T>(parts: seq<seq<T>>, x: T)
    ensures x in Flat(parts) <==> exists i :: 0 <= i < |parts| && x in parts[i]
  {
    if parts != [] {
      FlatMember(parts[1..], x);
      if x in Flat(parts[1..]) {
        var i :| 0 <= i < |parts[1..]| && x in parts[1..][i];
        assert x in parts[i + 1];
      }
      if i :| 0 <= i < |parts| && x in parts[i] {
        if i > 0 { assert x in parts[1..][i - 1]; }
      }
    }
  }

  /** `a` is `b` with some elements left out. */
  ghost predicate Subsequence<T>(a: seq<T>, b: seq<T>)
    decreases |b|
  {
    if b == [] then a == []
    else
      || Subsequence(a, b[..|b| - 1])
      || (a != [] && a[|a| - 1] == b[|b| - 1] && Subsequence(a[..|a| - 1], b[..|b| - 1]))
  }

  lemma SubsequenceSnoc<T>(a: seq<T>, b: seq<T>, x: T)
    requires Subsequence(a, b)
    ensures Subsequence(a, b + [x]) && Subsequence(a + [x], b + [x])
  {
    assert (b + [x])[..|b + [x]| - 1] == b;
    assert (a + [x])[..|a + [x]| - 1] == a;
  }

  lemma {:induction false} SubsequenceAppend<T>(a: seq<T>, b: seq<T>, c: seq<T>)
    requires Subsequence(a, b)
    ensures Subsequence(a, b + c)
  {
    if c == [] {
      assert b + c == b;
    } else {
      SubsequenceAppend(a, b, c[..|c| - 1]);
      SubsequenceSnoc(a, b + c[..|c| - 1], c[|c| - 1]);
      assert b + c == b + c[..|c| - 1] + [c[|c| - 1]];
    }
  }
}
