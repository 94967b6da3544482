/** Sums of a measure over a sequence, the sub-sequence picked out by a test, and the larger and smaller of
    two numbers. */
module Sums {

  function Max(a: int, b: int): int { if a < b then b else a }

  function Min(a: int, b: int): int { if a < b then a else b }

  function Sum<T>(f: T -> nat, s: seq<T>): nat {
    if |s| == 0 then 0 else Sum(f, s[..|s| - 1]) + f(s[|s| - 1])
  }

  lemma {:induction false} SumSnoc<T>(f: T -> nat, s: seq<T>, x: T)
    ensures Sum(f, s + [x]) == Sum(f, s) + f(x)
  {
    assert (s + [x])[..|s|] == s;
  }

  lemma {:induction false} SumUncons<T>(f: T -> nat, s: seq<T>)
    requires |s| > 0
    ensures Sum(f, s) == f(s[0]) + Sum(f, s[1..])
  {
    if |s| <= 1 {
    } else {
      var front := s[..|s| - 1];
      SumUncons(f, front);
      assert front[1..] == s[1..][..|s| - 2];
    }
  }

  lemma {:induction false} SumUpdate<T>(f: T -> nat, s: seq<T>, i: nat, x: T)
    requires i < |s|
    ensures Sum(f, s[i := x]) + f(s[i]) == Sum(f, s) + f(x)
  {
    var front := s[..|s| - 1];
    if i < |s| - 1 {
      SumUpdate(f, front, i, x);
      assert s[i := x][..|s| - 1] == front[i := x];
    } else {
      assert s[i := x][..|s| - 1] == front;
    }
  }

  lemma {:induction false} SumMonotone<T>(f: T -> nat, g: T -> nat, s: seq<T>)
    requires forall i :: 0 <= i < |s| ==> f(s[i]) <= g(s[i])
    ensures Sum(f, s) <= Sum(g, s)
  {
    if |s| == 0 {
    } else {
      SumMonotone(f, g, s[..|s| - 1]);
    }
  }

  lemma {:induction false} SumBound<T>(f: T -> nat, s: seq<T>, bound: nat)
    requires forall i :: 0 <= i < |s| ==> f(s[i]) <= bound
    ensures Sum(f, s) <= |s| * bound
  {
    if |s| == 0 {
    } else {
      SumBound(f, s[..|s| - 1], bound);
    }
  }

  lemma {:induction false} SumNothing<T>(f: T -> nat, s: seq<T>)
    requires forall i :: 0 <= i < |s| ==> f(s[i]) == 0
    ensures Sum(f, s) == 0
  {
    if |s| == 0 {
    } else {
      SumNothing(f, s[..|s| - 1]);
    }
  }

  lemma {:induction false} SumOne<T>(f: T -> nat, x: T)
    ensures Sum(f, [x]) == f(x)
  {
    SumSnoc(f, [], x);
    assert [] + [x] == [x];
  }

  /** One summand is at most the whole sum. */
  lemma {:induction false} SumMember<T>(f: T -> nat, s: seq<T>, i: nat)
    requires i < |s|
    ensures f(s[i]) <= Sum(f, s)
  {
    if i < |s| - 1 {
      SumMember(f, s[..|s| - 1], i);
    }
  }

  /** The elements of s that pass p, in order. */
  function Only<T>(p: T -> bool, s: seq<T>): seq<T> {
    if |s| == 0 then []
    else Only(p, s[..|s| - 1]) + (if p(s[|s| - 1]) then [s[|s| - 1]] else [])
  }

  lemma {:induction false} OnlySnoc<T>(p: T -> bool, s: seq<T>, x: T)
    ensures Only(p, s + [x]) == Only(p, s) + (if p(x) then [x] else [])
  {
    assert (s + [x])[..|s|] == s;
  }

  lemma {:induction false} OnlyConcat<T>(p: T -> bool, a: seq<T>, b: seq<T>)
    ensures Only(p, a + b) == Only(p, a) + Only(p, b)
  {
    if |b| == 0 {
      assert a + b == a;
    } else {
      OnlyConcat(p, a, b[..|b| - 1]);
      assert (a + b)[..|a + b| - 1] == a + b[..|b| - 1];
    }
  }

  lemma {:induction false} OnlyAll<T>(p: T -> bool, s: seq<T>)
    ensures (forall x | x in s :: p(x)) ==> Only(p, s) == s
    ensures (forall x | x in s :: !p(x)) ==> Only(p, s) == []
  {
    if |s| == 0 {
    } else {
      OnlyAll(p, s[..|s| - 1]);
    }
  }

  lemma {:induction false} OnlyPasses<T>(p: T -> bool, s: seq<T>)
    ensures forall x | x in Only(p, s) :: p(x) && x in s
    ensures |Only(p, s)| <= |s|
  {
    if |s| == 0 {
    } else {
      OnlyPasses(p, s[..|s| - 1]);
    }
  }
}
