/**
 * The array operations the pages apply to copies of their lists:
 * `filter`, `slice(0, n)`, the two `splice` forms, and collecting the
 * distinct members of a list in first-seen order (a JavaScript `Set`
 * filled by `forEach` and read back with `Array.from`).
 */
module Seqs {

  /** `s.filter(p)`. */
  function Filter<T>(s: seq<T>, p: T -> bool): (r: seq<T>)
    ensures |r| <= |s|
  {
    if s == [] then [] else (if p(s[0]) then [s[0]] else []) + Filter(s[1..], p)
  }

  /** `a` is `b` with some elements left out, the rest kept in order. */
  predicate IsSubsequence<T(==)>(a: seq<T>, b: seq<T>) {
    a == [] || (b != [] && ((a[0] == b[0] && IsSubsequence(a[1..], b[1..])) || IsSubsequence(a, b[1..])))
  }

  /** A filter keeps exactly the elements that pass, and only those. */
  lemma {:induction false} FilterMembers<T>(s: seq<T>, p: T -> bool)
    ensures forall x :: x in Filter(s, p) <==> x in s && p(x)
  {
    if s != [] {
      FilterMembers(s[1..], p);
      assert s == [s[0]] + s[1..];
    }
  }

  /** A filter keeps the order of what it keeps. */
  lemma {:induction false} FilterIsSubsequence<T>(s: seq<T>, p: T -> bool)
    ensures IsSubsequence(Filter(s, p), s)
  {
    if s != [] {
      FilterIsSubsequence(s[1..], p);
      var r := Filter(s, p);
      if p(s[0]) {
        assert r[0] == s[0] && r[1..] == Filter(s[1..], p);
      } else {
        assert r == Filter(s[1..], p);
      }
    }
  }

  /** When every element passes, a filter changes nothing. */
  lemma {:induction false} FilterAllPass<T>(s: seq<T>, p: T -> bool)
    requires forall i :: 0 <= i < |s| ==> p(s[i])
    ensures Filter(s, p) == s
  {
    if s != [] {
      FilterAllPass(s[1..], p);
      assert [s[0]] + s[1..] == s;
    }
  }

  /**
   * A filter drops exactly the elements that fail: counted with
   * multiplicity, what a filter keeps plus what the opposite filter keeps is the original.
   */
  lemma {:induction false} FilterSplitsMultiset<T>(s: seq<T>, p: T -> bool, q: T -> bool)
    requires forall x :: q(x) == !p(x)
    ensures multiset(Filter(s, p)) + multiset(Filter(s, q)) == multiset(s)
  {
    if s != [] {
      FilterSplitsMultiset(s[1..], p, q);
      var x, rest := s[0], s[1..];
      assert s == [x] + rest;
      var kept, dropped := Filter(rest, p), Filter(rest, q);
      if p(x) {
        assert !q(x);
        assert Filter(s, p) == [x] + kept;
        assert Filter(s, q) == dropped;
        AddOne(x, multiset(kept), multiset(dropped), multiset(rest));
      } else {
        assert q(x);
        assert Filter(s, p) == kept;
        assert Filter(s, q) == [x] + dropped;
        AddOne(x, multiset(dropped), multiset(kept), multiset(rest));
      }
    }
  }

  /** One more element on one side of a split. */
  lemma AddOne<T>(x: T, a: multiset<T>, b: multiset<T>, whole: multiset<T>)
    requires a + b == whole
    ensures (multiset{x} + a) + b == multiset{x} + whole && b + (multiset{x} + a) == multiset{x} + whole
  {
  }

  /** Filtering a concatenation filters each part. */
  lemma {:induction false} FilterConcat<T>(a: seq<T>, b: seq<T>, p: T -> bool)
    ensures Filter(a + b, p) == Filter(a, p) + Filter(b, p)
  {
    if a != [] {
      assert (a + b)[1..] == a[1..] + b;
      FilterConcat(a[1..], b, p);
    } else {
      assert a + b == b;
    }
  }

  /** `s.slice(0, n)`: the first `n` elements, or all of them when there are fewer. */
  function Take<T>(s: seq<T>, n: nat): (r: seq<T>)
    ensures |r| == if |s| < n then |s| else n
    ensures r <= s
  {
    if |s| <= n then s else s[..n]
  }

  /** Taking after an element put in front takes one more. */
  lemma TakeCons<T>(x: T, s: seq<T>, n: nat)
    ensures [x] + Take(s, n) == Take([x] + s, n + 1)
  {
    if |s| > n {
      assert ([x] + s)[..n + 1] == [x] + s[..n];
    }
  }

  /** Taking fewer from what was taken is taking fewer. */
  lemma TakeTake<T>(s: seq<T>, a: nat, b: nat)
    requires b <= a
    ensures Take(Take(s, a), b) == Take(s, b)
  {
  }

  /** `copy.splice(i, 1)` on a copy of `s`: the element at `i` is removed, and nothing when `i` is past the end. */
  function RemoveAt<T>(s: seq<T>, i: nat): (r: seq<T>)
    ensures i < |s| ==> |r| == |s| - 1 && r == s[..i] + s[i + 1..]
    ensures i >= |s| ==> r == s
  {
    if i < |s| then s[..i] + s[i + 1..] else s
  }

  /** `copy.splice(i, 0, x)` on a copy of `s`: `x` is inserted before position `i`, or appended when `i` is past the end. */
  function InsertAt<T>(s: seq<T>, i: nat, x: T): (r: seq<T>)
    ensures |r| == |s| + 1
    ensures i <= |s| ==> r[i] == x && r[..i] == s[..i] && r[i + 1..] == s[i..]
    ensures i > |s| ==> r == s + [x]
  {
    if i <= |s| then s[..i] + [x] + s[i..] else s + [x]
  }

  /** Removing the element at `i` takes exactly that one element out of the multiset. */
  lemma RemoveAtMultiset<T>(s: seq<T>, i: nat)
    requires i < |s|
    ensures multiset(RemoveAt(s, i)) == multiset(s) - multiset{s[i]}
  {
    assert s == s[..i] + [s[i]] + s[i + 1..];
  }

  /** Inserting adds exactly that one element to the multiset. */
  lemma InsertAtMultiset<T>(s: seq<T>, i: nat, x: T)
    ensures multiset(InsertAt(s, i, x)) == multiset(s) + multiset{x}
  {
    if i <= |s| {
      assert s == s[..i] + s[i..];
    }
  }

  /** `set.add(x)` on a set read back in insertion order. */
  function Add<T(==)>(acc: seq<T>, x: T): seq<T> {
    if x in acc then acc else acc + [x]
  }

  /** Adding every element of `s`, in order, to a set that already holds `acc`. */
  function AddAll<T(==)>(acc: seq<T>, s: seq<T>): seq<T> {
    if s == [] then acc else Add(AddAll(acc, s[..|s| - 1]), s[|s| - 1])
  }

  /** Adding one more element after `s`. */
  lemma AddAllStep<T>(acc: seq<T>, s: seq<T>, x: T)
    ensures AddAll(acc, s + [x]) == Add(AddAll(acc, s), x)
  {
    assert (s + [x])[..|s|] == s;
  }

  /** Adding `a + b` is adding `a`, then `b`. */
  lemma {:induction false} AddAllConcat<T>(acc: seq<T>, a: seq<T>, b: seq<T>)
    ensures AddAll(acc, a + b) == AddAll(AddAll(acc, a), b)
  {
    if b == [] {
      assert a + b == a;
    } else {
      var init := b[..|b| - 1];
      AddAllConcat(acc, a, init);
      assert (a + b)[..|a + b| - 1] == a + init;
    }
  }

  predicate NoDuplicates<T(==)>(s: seq<T>) {
    forall i, j :: 0 <= i < j < |s| ==> s[i] != s[j]
  }

  /** The collected set holds each element of `acc` and `s` and nothing else; it keeps `acc` as its beginning. */
  lemma {:induction false} AddAllMembers<T>(acc: seq<T>, s: seq<T>)
    ensures forall x :: x in AddAll(acc, s) <==> x in acc || x in s
    ensures acc <= AddAll(acc, s)
  {
    if s != [] {
      AddAllMembers(acc, s[..|s| - 1]);
      assert s == s[..|s| - 1] + [s[|s| - 1]];
    }
  }

  /** Starting from a list without duplicates, the collected set holds each element once. */
  lemma {:induction false} AddAllNoDuplicates<T>(acc: seq<T>, s: seq<T>)
    requires NoDuplicates(acc)
    ensures NoDuplicates(AddAll(acc, s))
  {
    if s != [] {
      AddAllNoDuplicates(acc, s[..|s| - 1]);
    }
  }
}
