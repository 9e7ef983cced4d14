/** How often things occur in a sequence. */
module Counting {

  function Times<T(==)>(s: seq<T>, x: T): nat {
    if s == [] then 0
    else Times(s[..|s| - 1], x) + if s[|s| - 1] == x then 1 else 0
  }

  lemma TimesAppend<T>(s: seq<T>, y: T, x: T)
    ensures Times(s + [y], x) == Times(s, x) + if y == x then 1 else 0
  {
    assert (s + [y])[..|s|] == s;
  }

  lemma {:induction false} TimesConcat<T>(a: seq<T>, b: seq<T>, x: T)
    ensures Times(a + b, x) == Times(a, x) + Times(b, x)
  {
    if b == [] {
      assert a + b == a;
    } else {
      TimesConcat(a, b[..|b| - 1], x);
      assert (a + b)[..|a + b| - 1] == a + b[..|b| - 1];
    }
  }

  /** The sum of a weight over a sequence. */
  function Sum<T>(s: seq<T>, weight: T -> nat): nat {
    if s == [] then 0 else weight(s[0]) + Sum(s[1..], weight)
  }

  lemma {:induction false} SumUpdate<T>(s: seq<T>, i: nat, x: T, weight: T -> nat)
    requires i < |s|
    ensures Sum(s[i := x], weight) == Sum(s, weight) - weight(s[i]) + weight(x)
    ensures Sum(s, weight) >= weight(s[i])
  {
    if i == 0 {
      assert s[0 := x][1..] == s[1..];
    } else {
      assert s[i := x][1..] == s[1..][i - 1 := x];
      SumUpdate(s[1..], i - 1, x, weight);
    }
  }

  lemma {:induction false} SumZero<T>(s: seq<T>, weight: T -> nat)
    ensures Sum(s, weight) == 0 <==> forall i :: 0 <= i < |s| ==> weight(s[i]) == 0
  {
    if s != [] {
      SumZero(s[1..], weight);
      if Sum(s, weight) == 0 {
        forall i | 0 <= i < |s| ensures weight(s[i]) == 0 {
          assert i > 0 ==> s[i] == s[1..][i - 1];
        }
      } else if weight(s[0]) == 0 {
        var i :| 0 <= i < |s[1..]| && weight(s[1..][i]) != 0;
        assert s[i + 1] == s[1..][i];
      }
    }
  }
}
