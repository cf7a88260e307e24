/** Options, and the few facts about finite sequences the models share. */
module Seqs {
  datatype Option<+T> = None | Some(value: T) {
    /** The `??` operator of the source. */
    function Or(fallback: T): T {
      if Some? then value else fallback
    }
  }

  ghost predicate NoDup<T>(s: seq<T>) {
    forall i, j :: 0 <= i < j < |s| ==> s[i] != s[j]
  }

  function Elements<T>(s: seq<T>): set<T> {
    set x | x in s
  }

  function Take<T>(s: seq<T>, n: nat): seq<T> {
    if |s| <= n then s else s[..n]
  }

  lemma AppendLast<T>(a: seq<T>, b: seq<T>, x: T)
    ensures a + (b + [x]) == a + b + [x]
    ensures a + [] == a
  {}

  lemma {:induction false} Larger(m: int, d: int)
    requires m > 0 && d >= 1
    ensures m * d >= m
    decreases d
  {
    if d > 1 { Larger(m, d - 1); }
  }

  lemma Regroup<T>(a: seq<T>, b: seq<T>, c: seq<T>)
    ensures a + b + c == a + (b + c)
  {}

  lemma TailOfPrefix<T>(s: seq<T>, n: nat)
    requires 0 < n <= |s|
    ensures s[..n][1..] == s[1..][..n - 1] && s[..n][0] == s[0]
  {}

  lemma CutFront<T>(a: seq<T>, b: seq<T>, n: nat)
    requires n <= |a|
    ensures (a + b)[..n] == a[..n] && (a + b)[n..] == a[n..] + b
  {}

  lemma PrefixOfConcat<T>(a: seq<T>, b: seq<T>, n: nat)
    requires n <= |b|
    ensures (a + b)[..|a| + n] == a + b[..n]
  {}

  lemma DropTwice<T>(s: seq<T>, n: nat, k: nat)
    requires n + k <= |s|
    ensures s[n..][k..] == s[n + k..]
  {}

  lemma PrefixInTwo<T>(s: seq<T>, n: nat, k: nat)
    requires n + k <= |s|
    ensures s[..n + k] == s[..n] + s[n..][..k] && s[n..][..k] == s[n..n + k]
  {}

  lemma SplitAt<T>(s: seq<T>, n: nat)
    requires n <= |s|
    ensures s == s[..n] + s[n..]
  {}

  /** Array.prototype.filter, unfolded from the right so that a loop appends to it. */
  function Filter<T>(s: seq<T>, keep: T -> bool): seq<T> {
    if s == [] then []
    else
      var rest, last := Filter(s[..|s| - 1], keep), s[|s| - 1];
      if keep(last) then rest + [last] else rest
  }

  lemma FilterSnoc<T>(s: seq<T>, x: T, keep: T -> bool)
    ensures Filter(s + [x], keep) == if keep(x) then Filter(s, keep) + [x] else Filter(s, keep)
  {
    assert (s + [x])[..|s|] == s;
  }

  /** One step of a loop that collects at most `n` of the elements it keeps. */
  lemma TakeFilterNext<T>(s: seq<T>, i: nat, keep: T -> bool, n: nat)
    requires i < |s|
    ensures var taken := Take(Filter(s[..i], keep), n);
            Take(Filter(s[..i + 1], keep), n) == if keep(s[i]) && |taken| < n then taken + [s[i]] else taken
  {
    assert s[..i + 1] == s[..i] + [s[i]];
    FilterSnoc(s[..i], s[i], keep);
  }

  /** Once `n` elements are collected, the rest of the sequence adds none. */
  lemma TakeFilterFull<T>(s: seq<T>, i: nat, keep: T -> bool, n: nat)
    requires i <= |s|
    requires i == |s| || |Take(Filter(s[..i], keep), n)| >= n
    ensures Take(Filter(s[..i], keep), n) == Take(Filter(s, keep), n)
  {
    assert s == s[..i] + s[i..];
    FilterConcat(s[..i], s[i..], keep);
  }

  lemma {:induction false} FilterIn<T>(s: seq<T>, keep: T -> bool)
    ensures forall x :: x in Filter(s, keep) <==> x in s && keep(x)
  {
    if s != [] {
      FilterIn(s[..|s| - 1], keep);
      assert s == s[..|s| - 1] + [s[|s| - 1]];
    }
  }

  lemma {:induction false} FilterConcat<T>(a: seq<T>, b: seq<T>, keep: T -> bool)
    ensures Filter(a + b, keep) == Filter(a, keep) + Filter(b, keep)
  {
    if b == [] {
      assert a + b == a;
    } else {
      FilterConcat(a, b[..|b| - 1], keep);
      assert a + b == (a + b[..|b| - 1]) + [b[|b| - 1]];
      FilterSnoc(a + b[..|b| - 1], b[|b| - 1], keep);
    }
  }

  lemma {:induction false} FilterAgree<T>(s: seq<T>, p: T -> bool, q: T -> bool)
    requires forall x :: x in s ==> p(x) == q(x)
    ensures Filter(s, p) == Filter(s, q)
  {
    if s != [] {
      FilterAgree(s[..|s| - 1], p, q);
    }
  }

  lemma {:induction false} FilterTwice<T>(s: seq<T>, p: T -> bool, q: T -> bool, both: T -> bool)
    requires forall x :: x in s ==> both(x) == (p(x) && q(x))
    ensures Filter(Filter(s, p), q) == Filter(s, both)
  {
    if s != [] {
      var rest, last := s[..|s| - 1], s[|s| - 1];
      FilterTwice(rest, p, q, both);
      if p(last) {
        FilterSnoc(Filter(rest, p), last, q);
      }
    }
  }

  lemma {:induction false} FilterNoDup<T>(s: seq<T>, keep: T -> bool)
    requires NoDup(s)
    ensures NoDup(Filter(s, keep))
  {
    if s != [] {
      FilterNoDup(s[..|s| - 1], keep);
      FilterIn(s[..|s| - 1], keep);
    }
  }

  lemma {:induction false} FilterAll<T>(s: seq<T>, keep: T -> bool)
    ensures (forall x :: x in s ==> keep(x)) ==> Filter(s, keep) == s
    ensures (forall x :: x in s ==> !keep(x)) ==> Filter(s, keep) == []
  {
    if s != [] {
      FilterAll(s[..|s| - 1], keep);
      assert s == s[..|s| - 1] + [s[|s| - 1]];
    }
  }

  /** Filtering out exactly the first `n` elements leaves the others, in order. */
  lemma FilterSuffix<T>(s: seq<T>, n: nat, keep: T -> bool)
    requires n <= |s|
    requires forall i :: 0 <= i < n ==> !keep(s[i])
    requires forall i :: n <= i < |s| ==> keep(s[i])
    ensures Filter(s, keep) == s[n..]
  {
    assert s == s[..n] + s[n..];
    FilterConcat(s[..n], s[n..], keep);
    FilterAll(s[..n], keep);
    FilterAll(s[n..], keep);
  }

  lemma NoDupConcat<T>(a: seq<T>, b: seq<T>)
    requires NoDup(a) && NoDup(b)
    requires forall x :: x in a ==> x !in b
    ensures NoDup(a + b)
  {
    forall i, j | 0 <= i < j < |a + b| ensures (a + b)[i] != (a + b)[j] {
      if i < |a| <= j {
        assert a[i] in a && b[j - |a|] in b;
      }
    }
  }

  /** A duplicate-free sequence has as many elements as its set. */
  lemma {:induction false} NoDupSize<T>(s: seq<T>)
    requires NoDup(s)
    ensures |Elements(s)| == |s|
  {
    if s != [] {
      var rest, last := s[..|s| - 1], s[|s| - 1];
      NoDupSize(rest);
      assert s == rest + [last];
      assert Elements(s) == Elements(rest) + {last};
    }
  }

  /** All parts, one after another. */
  function Flatten<T>(parts: seq<seq<T>>): seq<T> {
    if parts == [] then [] else Flatten(parts[..|parts| - 1]) + parts[|parts| - 1]
  }

  lemma {:induction false} FlattenPrefix<T>(parts: seq<seq<T>>, k: nat)
    requires k <= |parts|
    ensures Flatten(parts[..k]) <= Flatten(parts)
  {
    var n := |parts| - 1;
    if k <= n {
      FlattenPrefix(parts[..n], k);
      assert parts[..n][..k] == parts[..k];
    } else {
      assert parts[..k] == parts;
    }
  }
}
