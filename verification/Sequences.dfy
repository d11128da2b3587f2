/** The iterator adaptors the discovery policy is written with, and their meaning. */
module Sequences {
  import opened Common

  function Filter<T>(s: seq<T>, keep: T -> bool): seq<T> {
    if s == [] then [] else (if keep(s[0]) then [s[0]] else []) + Filter(s[1..], keep)
  }

  lemma {:induction false} FilterMembers<T>(s: seq<T>, keep: T -> bool, x: T)
    ensures x in Filter(s, keep) <==> x in s && keep(x)
  {
    if s != [] { FilterMembers(s[1..], keep, x); }
  }

  lemma Associates<T>(a: seq<T>, b: seq<T>, c: seq<T>)
    ensures (a + b) + c == a + (b + c)
  {
  }

  lemma {:induction false} FilterAppends<T>(a: seq<T>, b: seq<T>, keep: T -> bool)
    ensures Filter(a + b, keep) == Filter(a, keep) + Filter(b, keep)
  {
    if a == [] {
      assert a + b == b;
    } else {
      assert (a + b)[1..] == a[1..] + b;
      FilterAppends(a[1..], b, keep);
      Associates(if keep(a[0]) then [a[0]] else [], Filter(a[1..], keep), Filter(b, keep));
    }
  }

  function Map<T, U>(s: seq<T>, f: T -> U): (r: seq<U>)
    ensures |r| == |s| && forall i | 0 <= i < |s| :: r[i] == f(s[i])
  {
    if s == [] then [] else [f(s[0])] + Map(s[1..], f)
  }

  function FindFirst<T>(s: seq<T>, p: T -> bool): Option<T> {
    if s == [] then None else if p(s[0]) then Some(s[0]) else FindFirst(s[1..], p)
  }

  lemma {:induction false} FindFirstFinds<T>(s: seq<T>, p: T -> bool)
    ensures FindFirst(s, p).Some? ==> FindFirst(s, p).value in s && p(FindFirst(s, p).value)
    ensures FindFirst(s, p).None? <==> forall x | x in s :: !p(x)
  {
    if s != [] {
      FindFirstFinds(s[1..], p);
      if FindFirst(s, p).None? {
        assert forall x | x in s :: x == s[0] || x in s[1..];
      }
    }
  }

  lemma {:induction false} FindFirstAppends<T>(a: seq<T>, b: seq<T>, p: T -> bool)
    ensures FindFirst(a + b, p) == if FindFirst(a, p).Some? then FindFirst(a, p) else FindFirst(b, p)
  {
    if a == [] {
      assert a + b == b;
    } else {
      assert (a + b)[1..] == a[1..] + b;
      FindFirstAppends(a[1..], b, p);
    }
  }

  /** First occurrences, in order. */
  function Distinct<T(==)>(s: seq<T>): seq<T> {
    if s == [] then [] else AddNew(Distinct(s[..|s| - 1]), s[|s| - 1])
  }

  function AddNew<T(==)>(s: seq<T>, x: T): seq<T> {
    if x in s then s else s + [x]
  }

  lemma {:induction false} DistinctMembers<T>(s: seq<T>)
    ensures NoDuplicates(Distinct(s))
    ensures forall x :: x in Distinct(s) <==> x in s
  {
    if s != [] {
      var front, last := s[..|s| - 1], s[|s| - 1];
      DistinctMembers(front);
      assert forall x :: x in s <==> x in front || x == last;
      if last !in Distinct(front) {
        assert forall x :: x in Distinct(front) + [last] <==> x in Distinct(front) || x == last;
      }
    }
  }

  lemma {:induction false} DistinctOfDistinct<T>(s: seq<T>)
    requires NoDuplicates(s)
    ensures Distinct(s) == s
  {
    if s != [] {
      var front, last := s[..|s| - 1], s[|s| - 1];
      DistinctOfDistinct(front);
      assert s == front + [last];
    }
  }

  /** Values already present add nothing. */
  lemma {:induction false} DistinctAbsorbs<T>(s: seq<T>, more: seq<T>)
    requires forall x | x in more :: x in s
    ensures Distinct(s + more) == Distinct(s)
  {
    if more == [] {
      assert s + more == s;
    } else {
      var front := more[..|more| - 1];
      assert (s + more)[..|s + more| - 1] == s + front;
      DistinctAbsorbs(s, front);
      DistinctMembers(s);
      assert more[|more| - 1] in s;
    }
  }
}
