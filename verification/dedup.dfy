/** `removeDuplicatesAndEmpty` (main.go): keep the distinct non-empty tokens
    in the order they are first seen, and count them. The file it writes them
    to is handled in module Images; this module is the pure part. */
module Dedup {

  predicate NoEmpty(s: seq<string>) {
    forall i :: 0 <= i < |s| ==> s[i] != ""
  }

  predicate NoDuplicates<T(==)>(s: seq<T>) {
    forall i, j :: 0 <= i < j < |s| ==> s[i] != s[j]
  }

  /** The position at which `x` first occurs in `s`. */
  function FirstIndex<T(==)>(s: seq<T>, x: T): (i: nat)
    requires x in s
    ensures i < |s| && s[i] == x && x !in s[..i]
  {
    if s[0] == x then 0 else 1 + FirstIndex(s[1..], x)
  }

  /** Every element of `d` occurs in `s`, and `d` lists them in the order of
      their first occurrences in `s`. */
  predicate FirstSeenOrder(d: seq<string>, s: seq<string>) {
    && (forall i :: 0 <= i < |d| ==> d[i] in s)
    && (forall i, j :: 0 <= i < j < |d| ==>
          d[i] in s && d[j] in s && FirstIndex(s, d[i]) < FirstIndex(s, d[j]))
  }

  /** The reference definition, one token at a time as the loop sees them: a
      token is kept when it is non-empty and not kept already. */
  function Distinct(s: seq<string>): seq<string> {
    if |s| == 0 then []
    else
      var d := Distinct(s[..|s| - 1]);
      var x := s[|s| - 1];
      if x == "" || x in d then d else d + [x]
  }

  /** The loop of `removeDuplicatesAndEmpty`; `encountered` is the Go map of
      strings already written, `count` the number of lines written. */
  method RemoveDuplicatesAndEmpty(slice: seq<string>) returns (lines: seq<string>, count: nat)
    ensures lines == Distinct(slice)
    ensures count == |lines|
    ensures NoEmpty(lines) && NoDuplicates(lines)
    ensures forall x :: x in lines <==> x in slice && x != ""
    ensures FirstSeenOrder(lines, slice)
  {
    var encountered: set<string> := {};
    lines := [];
    count := 0;
    var i := 0;
    while i < |slice|
      invariant 0 <= i <= |slice|
      invariant lines == Distinct(slice[..i])
      invariant forall x :: x in encountered <==> x in lines
      invariant count == |lines|
    {
      var str := slice[i];
      assert slice[..i + 1][..i] == slice[..i];
      if str != "" && str !in encountered {
        count := count + 1;
        encountered := encountered + {str};
        lines := lines + [str];
      }
      i := i + 1;
    }
    assert slice[..|slice|] == slice;
    DistinctCharacterization(slice);
  }

  lemma {:induction false} FirstIndexOfPrefix(s: seq<string>, x: string, y: string)
    requires y in s
    ensures FirstIndex(s + [x], y) == FirstIndex(s, y)
    decreases |s|
  {
    if s[0] != y {
      assert (s + [x])[1..] == s[1..] + [x];
      FirstIndexOfPrefix(s[1..], x, y);
    }
  }

  lemma FirstIndexOfNew(s: seq<string>, x: string)
    requires x !in s
    ensures FirstIndex(s + [x], x) == |s|
  {
    assert forall m :: 0 <= m < |s| ==> (s + [x])[m] == s[m];
  }

  /** Distinct keeps exactly the distinct non-empty inputs, each once, in
      first-seen order. */
  lemma {:induction false} DistinctCharacterization(s: seq<string>)
    ensures NoEmpty(Distinct(s)) && NoDuplicates(Distinct(s))
    ensures forall x :: x in Distinct(s) <==> x in s && x != ""
    ensures FirstSeenOrder(Distinct(s), s)
    decreases |s|
  {
    if |s| > 0 {
      var p := s[..|s| - 1];
      var x := s[|s| - 1];
      var d := Distinct(p);
      DistinctCharacterization(p);
      assert s == p + [x];
      forall y | y in p
        ensures FirstIndex(s, y) == FirstIndex(p, y) < |p|
      {
        FirstIndexOfPrefix(p, x, y);
      }
      if x == "" || x in d {
        assert Distinct(s) == d;
      } else {
        assert Distinct(s) == d + [x];
        assert x !in p;
        FirstIndexOfNew(p, x);
        forall i, j | 0 <= i < j < |d + [x]|
          ensures FirstIndex(s, (d + [x])[i]) < FirstIndex(s, (d + [x])[j])
        {
          if j < |d| {
            assert FirstIndex(p, d[i]) < FirstIndex(p, d[j]);
          } else {
            assert (d + [x])[i] == d[i] && d[i] in p;
          }
        }
      }
    }
  }

  /** A list that is already free of duplicates and empty strings passes
      through unchanged. */
  lemma {:induction false} DistinctOfDeduplicated(s: seq<string>)
    requires NoEmpty(s) && NoDuplicates(s)
    ensures Distinct(s) == s
    decreases |s|
  {
    if |s| > 0 {
      var p := s[..|s| - 1];
      DistinctOfDeduplicated(p);
      assert s[|s| - 1] !in p by {
        forall i | 0 <= i < |p| ensures p[i] != s[|s| - 1] {
          assert p[i] == s[i];
        }
      }
      assert s == p + [s[|s| - 1]];
    }
  }

  /** Deduplicating twice is deduplicating once. */
  lemma {:induction false} DistinctIdempotent(s: seq<string>)
    ensures Distinct(Distinct(s)) == Distinct(s)
  {
    DistinctCharacterization(s);
    DistinctOfDeduplicated(Distinct(s));
  }

  /** The last element of a list in first-seen order is the member that `s`
      mentions last, so two such lists with the same members end alike. */
  lemma SameLast(s: seq<string>, a: seq<string>, b: seq<string>)
    requires |a| > 0 && |b| > 0
    requires forall x :: x in a <==> x in b
    requires FirstSeenOrder(a, s) && FirstSeenOrder(b, s)
    ensures a[|a| - 1] == b[|b| - 1]
  {
    var x, y := a[|a| - 1], b[|b| - 1];
    assert y in b && x in a;
    var i :| 0 <= i < |a| && a[i] == y;
    var j :| 0 <= j < |b| && b[j] == x;
    LastSeenLatest(s, a, i);
    LastSeenLatest(s, b, j);
    assert s[FirstIndex(s, x)] == x && s[FirstIndex(s, y)] == y;
  }

  /** In a list in first-seen order, the last element is first seen no
      earlier than any other. */
  lemma LastSeenLatest(s: seq<string>, d: seq<string>, i: nat)
    requires i < |d| && FirstSeenOrder(d, s)
    ensures d[i] in s && d[|d| - 1] in s
    ensures FirstIndex(s, d[i]) <= FirstIndex(s, d[|d| - 1])
  {
    if i < |d| - 1 {
      assert FirstIndex(s, d[i]) < FirstIndex(s, d[|d| - 1]);
    }
  }

  ghost predicate SameMembers(a: seq<string>, b: seq<string>) {
    forall z :: z in a <==> z in b
  }

  /** Dropping a common last element from two duplicate-free lists with the
      same members leaves lists with the same members. */
  lemma DropLastMembers(a: seq<string>, b: seq<string>)
    requires |a| > 0 && |b| > 0 && a[|a| - 1] == b[|b| - 1]
    requires NoDuplicates(a) && NoDuplicates(b)
    requires SameMembers(a, b)
    ensures SameMembers(a[..|a| - 1], b[..|b| - 1])
  {
    var x := a[|a| - 1];
    var a', b' := a[..|a| - 1], b[..|b| - 1];
    forall z | z in a' ensures z in b' {
      var k :| 0 <= k < |a'| && a'[k] == z;
      assert a[k] == z && z != x;
      assert z in a;
      var m :| 0 <= m < |b| && b[m] == z;
      assert m < |b| - 1 && b'[m] == z;
    }
    forall z | z in b' ensures z in a' {
      var k :| 0 <= k < |b'| && b'[k] == z;
      assert b[k] == z && z != x;
      assert z in b;
      var m :| 0 <= m < |a| && a[m] == z;
      assert m < |a| - 1 && a'[m] == z;
    }
  }

  lemma PrefixKeepsOrder(d: seq<string>, s: seq<string>, n: nat)
    requires n <= |d|
    requires NoDuplicates(d) && FirstSeenOrder(d, s)
    ensures NoDuplicates(d[..n]) && FirstSeenOrder(d[..n], s)
  {
    assert forall k :: 0 <= k < n ==> d[..n][k] == d[k];
  }

  lemma HeadIsMember(b: seq<string>)
    ensures |b| > 0 ==> b[0] in b
  {
  }

  /** Two duplicate-free lists with the same elements, both in first-seen
      order of `s`, end alike, and what precedes their common last element
      is again such a pair. */
  lemma DropCommonLast(s: seq<string>, a: seq<string>, b: seq<string>)
    requires |a| > 0
    requires NoDuplicates(a) && NoDuplicates(b)
    requires forall x :: x in a <==> x in b
    requires FirstSeenOrder(a, s) && FirstSeenOrder(b, s)
    ensures |b| > 0 && a[|a| - 1] == b[|b| - 1]
    ensures var a', b' := a[..|a| - 1], b[..|b| - 1];
      && NoDuplicates(a') && NoDuplicates(b')
      && (forall x :: x in a' <==> x in b')
      && FirstSeenOrder(a', s) && FirstSeenOrder(b', s)
  {
    assert a[0] in b;
    SameLast(s, a, b);
    DropLastMembers(a, b);
    PrefixKeepsOrder(a, s, |a| - 1);
    PrefixKeepsOrder(b, s, |b| - 1);
  }

  /** Two duplicate-free lists with the same elements, both in first-seen
      order of `s`, are equal. */
  lemma {:induction false} FirstSeenOrderUnique(s: seq<string>, a: seq<string>, b: seq<string>)
    requires NoDuplicates(a) && NoDuplicates(b)
    requires forall x :: x in a <==> x in b
    requires FirstSeenOrder(a, s) && FirstSeenOrder(b, s)
    ensures a == b
    decreases |a|
  {
    if |a| == 0 {
      HeadIsMember(b);
    } else {
      DropCommonLast(s, a, b);
      var a', b' := a[..|a| - 1], b[..|b| - 1];
      FirstSeenOrderUnique(s, a', b');
      assert a == a' + [a[|a| - 1]] && b == b' + [b[|b| - 1]];
    }
  }

  /** Distinct is the only list of the distinct non-empty inputs in
      first-seen order: its characterization determines it. */
  lemma DistinctUnique(s: seq<string>, d: seq<string>)
    requires NoDuplicates(d)
    requires forall x :: x in d <==> x in s && x != ""
    requires FirstSeenOrder(d, s)
    ensures d == Distinct(s)
  {
    DistinctCharacterization(s);
    FirstSeenOrderUnique(s, d, Distinct(s));
  }

  /** A list without duplicates holds each value at most once. */
  lemma {:induction false} NoDuplicatesCount(s: seq<string>, x: string)
    requires NoDuplicates(s)
    ensures multiset(s)[x] <= 1
    decreases |s|
  {
    if |s| > 0 {
      var rest := s[1..];
      assert s == [s[0]] + rest;
      assert NoDuplicates(rest) by {
        forall i, j | 0 <= i < j < |rest| ensures rest[i] != rest[j] {
          assert rest[i] == s[i + 1] && rest[j] == s[j + 1];
        }
      }
      NoDuplicatesCount(rest, x);
      if s[0] == x {
        assert x !in rest by {
          forall i | 0 <= i < |rest| ensures rest[i] != x {
            assert rest[i] == s[i + 1];
          }
        }
      }
    }
  }
}
