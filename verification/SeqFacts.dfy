/** Taking sequences apart, sequences without duplicates, and counting over sequences. */
module SeqFacts {
  lemma {:induction false} Associates<T>(a: seq<T>, b: seq<T>, c: seq<T>)
    ensures (a + b) + c == a + (b + c)
  {
  }

  lemma {:induction false} FirstAndRest<T>(s: seq<T>)
    requires s != []
    ensures s == [s[0]] + s[1..]
  {
  }

  lemma {:induction false} FrontAndLast<T>(s: seq<T>)
    requires s != []
    ensures s == s[..|s| - 1] + [s[|s| - 1]]
  {
  }

  lemma {:induction false} RestSnoc<T>(s: seq<T>, x: T)
    requires s != []
    ensures (s + [x])[1..] == s[1..] + [x]
  {
  }

  lemma {:induction false} SliceSnoc<T>(s: seq<T>, from: nat, i: nat)
    requires from <= i < |s|
    ensures s[from..i + 1] == s[from..i] + [s[i]]
  {
  }

  lemma {:induction false} NothingAround<T>(s: seq<T>)
    ensures s + [] == s && [] + s == s
  {
  }

  predicate NoDup<T(==)>(s: seq<T>) { forall i, j :: 0 <= i < j < |s| ==> s[i] != s[j] }

  /** s with every occurrence of x unlinked; the order of the rest is kept. */
  function Without<T(==, !new)>(s: seq<T>, x: T): (r: seq<T>)
    ensures forall y :: y in r <==> y in s && y != x
    ensures x !in s ==> r == s
    ensures |r| <= |s|
  {
    if s == [] then [] else
      var rest := Without(s[1..], x);
      assert forall y :: y in s <==> y == s[0] || y in s[1..];
      if s[0] == x then rest else [s[0]] + rest
  }

  lemma {:induction false} WithoutNoDup<T(!new)>(s: seq<T>, x: T)
    requires NoDup(s)
    ensures NoDup(Without(s, x))
    ensures x in s ==> |Without(s, x)| == |s| - 1
  {
    if s != [] {
      assert s == [s[0]] + s[1..];
      WithoutNoDup(s[1..], x);
      assert s[0] !in s[1..];
      assert s[0] !in Without(s[1..], x);
    }
  }

  lemma NoDupTail<T(!new)>(s: seq<T>)
    requires NoDup(s) && s != []
    ensures NoDup(s[1..]) && s[0] !in s[1..]
    ensures forall y :: y in s <==> y == s[0] || y in s[1..]
  {
    assert s == [s[0]] + s[1..];
  }

  lemma NoDupSnoc<T(!new)>(s: seq<T>, x: T)
    requires NoDup(s) && x !in s
    ensures NoDup(s + [x])
    ensures forall y :: y in s + [x] <==> y in s || y == x
  {
  }

  function Count<T>(s: seq<T>, f: T -> bool): (n: nat)
    ensures n <= |s|
  {
    if s == [] then 0 else (if f(s[0]) then 1 else 0) + Count(s[1..], f)
  }

  lemma {:induction false} CountUpdate<T>(s: seq<T>, f: T -> bool, i: nat, x: T)
    requires i < |s|
    ensures Count(s[i := x], f) == Count(s, f) - (if f(s[i]) then 1 else 0) + (if f(x) then 1 else 0)
  {
    if i == 0 {
      assert s[i := x][1..] == s[1..];
    } else {
      assert s[i := x][1..] == s[1..][i - 1 := x];
      CountUpdate(s[1..], f, i - 1, x);
    }
  }

  lemma {:induction false} CountSome<T>(s: seq<T>, f: T -> bool)
    ensures Count(s, f) > 0 <==> exists i :: 0 <= i < |s| && f(s[i])
  {
    if s != [] {
      CountSome(s[1..], f);
      if i :| 0 <= i < |s| && f(s[i]) { assert i == 0 || f(s[1..][i - 1]); }
      if i :| 0 <= i < |s[1..]| && f(s[1..][i]) { assert f(s[i + 1]); }
    }
  }

  lemma {:induction false} CountAll<T>(s: seq<T>, f: T -> bool)
    requires forall i :: 0 <= i < |s| ==> f(s[i])
    ensures Count(s, f) == |s|
  {
    if s != [] { CountAll(s[1..], f); }
  }

  lemma {:induction false} CountDisjoint<T(!new)>(s: seq<T>, f: T -> bool, g: T -> bool)
    requires forall x :: x in s ==> !(f(x) && g(x))
    ensures Count(s, f) + Count(s, g) <= |s|
  {
    if s != [] { CountDisjoint(s[1..], f, g); }
  }

  lemma {:induction false} CountSnoc<T>(s: seq<T>, f: T -> bool, x: T)
    ensures Count(s + [x], f) == Count(s, f) + if f(x) then 1 else 0
  {
    if s == [] {
      assert s + [x] == [x];
    } else {
      assert (s + [x])[1..] == s[1..] + [x];
      CountSnoc(s[1..], f, x);
    }
  }

  function Sum<T>(s: seq<T>, f: T -> nat): nat { if s == [] then 0 else f(s[0]) + Sum(s[1..], f) }

  lemma {:induction false} SumUpdate<T>(s: seq<T>, f: T -> nat, i: nat, x: T)
    requires i < |s|
    ensures Sum(s[i := x], f) == Sum(s, f) - f(s[i]) + f(x)
  {
    if i == 0 {
      assert s[i := x][1..] == s[1..];
    } else {
      assert s[i := x][1..] == s[1..][i - 1 := x];
      SumUpdate(s[1..], f, i - 1, x);
    }
  }
}
