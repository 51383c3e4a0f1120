/** Counting the elements of sequences and index ranges. */
module Finite {

  ghost predicate Distinct<T(!new)>(s: seq<T>) {
    forall i, j :: 0 <= i < j < |s| ==> s[i] != s[j]
  }

  function Elements<T(==,!new)>(s: seq<T>): (e: set<T>)
    ensures forall x :: x in e <==> x in s
  {
    set x | x in s
  }

  lemma {:induction false} DistinctCount<T(!new)>(s: seq<T>)
    requires Distinct(s)
    ensures |Elements(s)| == |s|
  {
    if s != [] {
      var n := |s| - 1;
      DistinctCount(s[..n]);
      assert s == s[..n] + [s[n]];
      assert Elements(s) == Elements(s[..n]) + {s[n]};
      assert s[n] !in s[..n];
    }
  }

  lemma {:induction false} SubsetCount<T>(a: set<T>, b: set<T>)
    requires a <= b
    ensures |a| <= |b|
  {
    assert |b| == |a| + |b - a| by { assert b == a + (b - a); }
  }

  /** 0, 1, ..., n - 1. */
  function Indices(n: nat): (s: seq<nat>)
    ensures |s| == n && forall i :: 0 <= i < n ==> s[i] == i
  {
    seq(n, i => i)
  }

  function Repeat<T>(x: T, n: nat): (s: seq<T>)
    ensures |s| == n && forall i :: 0 <= i < n ==> s[i] == x
  {
    seq(n, _ => x)
  }

  function Below(n: nat): (e: set<nat>)
    ensures forall x: nat :: x in e <==> x < n
    ensures |e| == n
  {
    if n == 0 then {} else Below(n - 1) + {n - 1}
  }

  /** The indices below `n` that are not in `free`. */
  ghost function Out(n: nat, free: seq<nat>): set<nat> {
    Below(n) - Elements(free)
  }

  lemma OutCount(n: nat, free: seq<nat>)
    requires Distinct(free) && forall i :: i in free ==> i < n
    ensures |Out(n, free)| == n - |free|
  {
    DistinctCount(free);
    assert Below(n) == Out(n, free) + Elements(free);
  }

  lemma OutPop(n: nat, free: seq<nat>)
    requires Distinct(free) && free != [] && free[0] < n
    ensures free[0] !in Out(n, free) && Out(n, free[1..]) == Out(n, free) + {free[0]}
    ensures Distinct(free[1..]) && free[0] !in free[1..]
  {
    assert free == [free[0]] + free[1..];
  }

  lemma OutPush(n: nat, free: seq<nat>, i: nat)
    requires Distinct(free) && i in Out(n, free)
    ensures Out(n, free + [i]) == Out(n, free) - {i}
    ensures Distinct(free + [i])
  {}

  lemma NothingOut(n: nat)
    ensures Distinct(Indices(n)) && (forall i :: i in Indices(n) ==> i < n) && Out(n, Indices(n)) == {}
  {
    forall i: nat | i < n ensures i in Indices(n) {
      assert Indices(n)[i] == i;
    }
  }

  lemma PrefixStep<T>(s: seq<T>, k: nat)
    requires k < |s|
    ensures s[..k + 1] == s[..k] + [s[k]] && s[k..][0] == s[k] && s[k..][1..] == s[k + 1..]
  {}

  lemma UpdatePrefix<T>(s: seq<T>, after: seq<T>, k: nat, x: T)
    requires k < |s| && after == s[k := x]
    ensures after[..k + 1] == s[..k] + [x]
  {}

  function Without<T>(s: seq<T>, i: nat): (rest: seq<T>)
    requires i < |s|
    ensures |rest| == |s| - 1 && forall k :: 0 <= k < |rest| ==> rest[k] == if k < i then s[k] else s[k + 1]
  {
    s[..i] + s[i + 1..]
  }

  /** Moving an element forward. */
  function Earlier<T>(s: seq<T>, to: nat, from: nat): (after: seq<T>)
    requires to <= from < |s|
    ensures |after| == |s|
    ensures forall k :: 0 <= k < |s| ==>
              after[k] == if k == to then s[from] else if to < k <= from then s[k - 1] else s[k]
  {
    s[..to] + ([s[from]] + (s[to..from] + s[from + 1..]))
  }

  /** How often `x` occurs in `s`. */
  function Occurs<T(==)>(s: seq<T>, x: T): nat {
    if s == [] then 0 else (if s[0] == x then 1 else 0) + Occurs(s[1..], x)
  }

  lemma {:induction false} OccursConcat<T>(a: seq<T>, b: seq<T>, x: T)
    ensures Occurs(a + b, x) == Occurs(a, x) + Occurs(b, x)
  {
    if a == [] {
      assert a + b == b;
    } else {
      OccursConcat(a[1..], b, x);
      assert (a + b)[1..] == a[1..] + b;
    }
  }

  lemma {:induction false} OccursEarlier<T>(s: seq<T>, to: nat, from: nat, x: T)
    requires to <= from < |s|
    ensures Occurs(Earlier(s, to, from), x) == Occurs(s, x)
  {
    hide Occurs;
    var last := [s[from]];
    OccursConcat(s[..to], s[to..], x);
    OccursConcat(s[to..from], s[from..], x);
    OccursConcat(last, s[from + 1..], x);
    assert s == s[..to] + s[to..] && s[to..] == s[to..from] + s[from..] && s[from..] == last + s[from + 1..];
    OccursConcat(s[..to], last + (s[to..from] + s[from + 1..]), x);
    OccursConcat(last, s[to..from] + s[from + 1..], x);
    OccursConcat(s[to..from], s[from + 1..], x);
  }

  lemma {:induction false} OccursIn<T>(s: seq<T>, x: T)
    ensures x in s <==> Occurs(s, x) > 0
  {
    if s != [] {
      OccursIn(s[1..], x);
      assert s == [s[0]] + s[1..];
    }
  }

  lemma {:induction false} OnceIsDistinct<T(!new)>(s: seq<T>)
    requires forall x :: Occurs(s, x) <= 1
    ensures Distinct(s)
  {
    if s != [] {
      forall x ensures Occurs(s[1..], x) <= 1 { assert Occurs(s, x) <= 1; }
      OnceIsDistinct(s[1..]);
      OccursIn(s[1..], s[0]);
      assert Occurs(s, s[0]) <= 1;
      assert forall j :: 0 < j < |s| ==> s[j] == s[1..][j - 1];
    }
  }

  lemma {:induction false} OccursIndices(n: nat, x: nat)
    ensures Occurs(Indices(n), x) == if x < n then 1 else 0
  {
    if n > 0 {
      OccursIndices(n - 1, x);
      var last: seq<nat> := [n - 1];
      assert Indices(n) == Indices(n - 1) + last;
      OccursConcat(Indices(n - 1), last, x);
      assert Occurs(last, x) == if n - 1 == x then 1 else 0;
    }
  }

  lemma OccursPush<T>(s: seq<T>, last: T, x: T)
    ensures Occurs(s + [last], x) == Occurs(s, x) + if last == x then 1 else 0
  {
    OccursConcat(s, [last], x);
    assert [last][1..] == [];
  }
}
