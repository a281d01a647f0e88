/**
 * Sequence operations that the components use through JavaScript's
 * `Array.prototype.filter` and through reversed orderings, with the facts
 * about them that the rest of the model relies on.
 */
module Seqs {

  /** `s.filter(p)`: the elements of `s` that satisfy `p`, in their original order. */
  function Filter<T(==,!new)>(p: T -> bool, s: seq<T>): (r: seq<T>)
    ensures |r| <= |s|
    ensures forall x :: x in r <==> x in s && p(x)
  {
    if s == [] then []
    else if p(s[0]) then [s[0]] + Filter(p, s[1..])
    else Filter(p, s[1..])
  }

  /** Filtering distributes over concatenation: the kept elements stay in their relative order. */
  lemma {:induction false} FilterConcat<T(!new)>(p: T -> bool, a: seq<T>, b: seq<T>)
    ensures Filter(p, a + b) == Filter(p, a) + Filter(p, b)
  {
    if a == [] {
      assert a + b == b;
    } else {
      assert (a + b)[1..] == a[1..] + b;
      FilterConcat(p, a[1..], b);
    }
  }

  /** Filtering keeps every occurrence of an element that satisfies `p` and none of the others. */
  lemma {:induction false} FilterCount<T(!new)>(p: T -> bool, s: seq<T>, x: T)
    ensures multiset(Filter(p, s))[x] == if p(x) then multiset(s)[x] else 0
  {
    if s != [] {
      assert s == [s[0]] + s[1..];
      FilterCount(p, s[1..], x);
    }
  }

  /** Filtering is the identity when every element satisfies `p`. */
  lemma {:induction false} FilterKeepsAll<T(!new)>(p: T -> bool, s: seq<T>)
    requires forall x :: x in s ==> p(x)
    ensures Filter(p, s) == s
  {
    if s != [] {
      assert s == [s[0]] + s[1..];
      FilterKeepsAll(p, s[1..]);
    }
  }

  /** Filtering keeps nothing when no element satisfies `p`. */
  lemma {:induction false} FilterKeepsNone<T(!new)>(p: T -> bool, s: seq<T>)
    requires forall x :: x in s ==> !p(x)
    ensures Filter(p, s) == []
  {
    if s != [] {
      assert s[0] in s;
      FilterKeepsNone(p, s[1..]);
    }
  }

  /** Filtering a sequence without duplicates gives one without duplicates. */
  lemma {:induction false} FilterKeepsNoDuplicates<T(!new)>(p: T -> bool, s: seq<T>)
    requires NoDuplicates(s)
    ensures NoDuplicates(Filter(p, s))
  {
    if s != [] {
      var t := s[1..];
      forall i, j | 0 <= i < j < |t| ensures t[i] != t[j] {
        assert t[i] == s[i + 1] && t[j] == s[j + 1];
      }
      FilterKeepsNoDuplicates(p, t);
      if p(s[0]) {
        var r, rest := Filter(p, s), Filter(p, t);
        forall m | 0 <= m < |t| ensures t[m] != s[0] {
          assert t[m] == s[m + 1];
        }
        forall i, j | 0 <= i < j < |r| ensures r[i] != r[j] {
          assert r[j] == rest[j - 1] && rest[j - 1] in rest;
          if i > 0 {
            assert r[i] == rest[i - 1];
          }
        }
      }
    }
  }

  /** Filtering with `p` after filtering with `q` is filtering with `q` after `p`. */
  lemma {:induction false} FilterCommutes<T(!new)>(p: T -> bool, q: T -> bool, s: seq<T>)
    ensures Filter(p, Filter(q, s)) == Filter(q, Filter(p, s))
  {
    if s != [] {
      FilterCommutes(p, q, s[1..]);
    }
  }

  /**
   * When `p` rejects exactly the element at index `k`, filtering cuts out
   * that element and keeps the others in order.
   */
  lemma {:induction false} FilterRejectsOne<T(!new)>(p: T -> bool, s: seq<T>, k: nat)
    requires k < |s| && !p(s[k])
    requires forall i :: 0 <= i < |s| && i != k ==> p(s[i])
    ensures Filter(p, s) == s[..k] + s[k + 1..]
  {
    var before, after := s[..k], s[k + 1..];
    assert s == before + ([s[k]] + after);
    forall x | x in before ensures p(x) {
      var i :| 0 <= i < |before| && before[i] == x;
      assert s[i] == x;
    }
    forall x | x in after ensures p(x) {
      var i :| 0 <= i < |after| && after[i] == x;
      assert s[k + 1 + i] == x;
    }
    FilterKeepsAll(p, before);
    FilterKeepsAll(p, after);
    assert [s[k]][1..] == [];
    assert Filter(p, [s[k]]) == [];
    FilterConcat(p, [s[k]], after);
    FilterConcat(p, before, [s[k]] + after);
  }

  /** The elements of `s` in the opposite order. */
  function Reverse<T>(s: seq<T>): (r: seq<T>)
    ensures |r| == |s|
    ensures forall i :: 0 <= i < |s| ==> r[i] == s[|s| - 1 - i]
  {
    if s == [] then [] else Reverse(s[1..]) + [s[0]]
  }

  lemma {:induction false} ReverseMultiset<T>(s: seq<T>)
    ensures multiset(Reverse(s)) == multiset(s)
  {
    if s != [] {
      assert s == [s[0]] + s[1..];
      ReverseMultiset(s[1..]);
    }
  }

  /** No value occurs twice. */
  predicate NoDuplicates<T(==)>(s: seq<T>)
  {
    forall i, j :: 0 <= i < j < |s| ==> s[i] != s[j]
  }
}
