/** The iterator combinators the cipher-suite code is written with
    (`find`, `any`, `filter`/`collect`, `contains`), stated once over `seq`
    together with the facts that pin down what each of them returns. */
module Sequences {

  datatype Option<+T> = None | Some(value: T)

  /** `r` is obtained from `s` by deleting elements: the elements of `r`
      occur in `s` in the same relative order (matching each element of
      `r` at its earliest possible position, which loses no solution). */
  ghost predicate IsSubsequence<T>(r: seq<T>, s: seq<T>)
    decreases |s|
  {
    if r == [] then true
    else if s == [] then false
    else if r[0] == s[0] then IsSubsequence(r[1..], s[1..])
    else IsSubsequence(r, s[1..])
  }

  /** `Iterator::find`: the first element satisfying `p`, if any. */
  function Find<T>(p: T -> bool, s: seq<T>): (r: Option<T>)
    ensures r.None? <==> forall i :: 0 <= i < |s| ==> !p(s[i])
    ensures r.Some? ==>
      exists i :: 0 <= i < |s| && s[i] == r.value && p(s[i]) && forall j :: 0 <= j < i ==> !p(s[j])
  {
    if s == [] then None
    else if p(s[0]) then Some(s[0])
    else
      var r := Find(p, s[1..]);
      assert r.Some? ==> exists i :: 1 <= i < |s| && s[i] == r.value && p(s[i]) && forall j :: 1 <= j < i ==> !p(s[j]) by {
        if r.Some? {
          var i :| 0 <= i < |s[1..]| && s[1..][i] == r.value && p(s[1..][i]) && forall j :: 0 <= j < i ==> !p(s[1..][j]);
          assert s[i + 1] == r.value && p(s[i + 1]);
          assert forall j :: 1 <= j < i + 1 ==> !p(s[j]) by {
            forall j | 1 <= j < i + 1 ensures !p(s[j]) {
              assert s[j] == s[1..][j - 1];
            }
          }
        }
      }
      r
  }

  /** `Iterator::any`: some element satisfies `p`. */
  function Any<T>(p: T -> bool, s: seq<T>): (b: bool)
    ensures b <==> exists i :: 0 <= i < |s| && p(s[i])
  {
    if s == [] then false
    else if p(s[0]) then true
    else
      var b := Any(p, s[1..]);
      assert b ==> exists i :: 0 <= i < |s| && p(s[i]) by {
        if b {
          var i :| 0 <= i < |s[1..]| && p(s[1..][i]);
          assert p(s[i + 1]);
        }
      }
      assert (exists i :: 0 <= i < |s| && p(s[i])) ==> b by {
        if exists i :: 0 <= i < |s| && p(s[i]) {
          var i :| 0 <= i < |s| && p(s[i]);
          assert i != 0;
          assert p(s[1..][i - 1]);
        }
      }
      b
  }

  /** `filter(p).collect()`: the elements of `s` that satisfy `p`, in the
      order of `s` (FilterSpec, FilterUnique). */
  function Filter<T(!new)>(p: T -> bool, s: seq<T>): seq<T>
  {
    if s == [] then []
    else if p(s[0]) then [s[0]] + Filter(p, s[1..])
    else Filter(p, s[1..])
  }

  /** Filter keeps the order of `s`, keeps every occurrence of an element
      that passes and drops every element that fails. */
  lemma {:induction false} FilterSpec<T(!new)>(p: T -> bool, s: seq<T>)
    ensures IsSubsequence(Filter(p, s), s)
    ensures forall x :: multiset(Filter(p, s))[x] == if p(x) then multiset(s)[x] else 0
    ensures forall x :: x in Filter(p, s) <==> x in s && p(x)
  {
    if s != [] {
      var rest := Filter(p, s[1..]);
      FilterSpec(p, s[1..]);
      assert s == [s[0]] + s[1..];
      if p(s[0]) {
        assert ([s[0]] + rest)[1..] == rest;
      }
    }
  }

  // ---------------------------------------------------------------------
  // Facts about subsequences and Filter

  lemma {:induction false} SubsequenceMultiset<T>(r: seq<T>, s: seq<T>)
    requires IsSubsequence(r, s)
    ensures multiset(r) <= multiset(s)
    decreases |s|
  {
    if r != [] {
      assert s != [];
      assert s == [s[0]] + s[1..];
      if r[0] == s[0] {
        SubsequenceMultiset(r[1..], s[1..]);
        assert r == [r[0]] + r[1..];
      } else {
        SubsequenceMultiset(r, s[1..]);
      }
    }
  }

  /** A subsequence of `s` whose multiplicities are those of the elements
      of `s` satisfying `p` can only be `Filter(p, s)`. */
  lemma {:induction false} FilterUnique<T(!new)>(p: T -> bool, s: seq<T>, r: seq<T>)
    requires IsSubsequence(r, s)
    requires forall x :: multiset(r)[x] == if p(x) then multiset(s)[x] else 0
    ensures r == Filter(p, s)
    decreases |s|
  {
    if s == [] {
      assert r == [];
    } else {
      var h, t := s[0], s[1..];
      assert s == [h] + t;
      if r == [] {
        assert !p(h) by {
          assert multiset(s)[h] > 0;
        }
        FilterUnique(p, t, r);
      } else {
        assert r == [r[0]] + r[1..];
        if p(h) {
          assert r[0] == h && IsSubsequence(r[1..], t) by {
            if !(r[0] == h && IsSubsequence(r[1..], t)) {
              assert IsSubsequence(r, t);
              SubsequenceMultiset(r, t);
              assert false;
            }
          }
          FilterUnique(p, t, r[1..]);
        } else {
          assert multiset(r)[h] == 0;
          assert r[0] != h;
          FilterUnique(p, t, r);
        }
      }
    }
  }

  /** Filtering keeps a list whose every element passes. */
  lemma {:induction false} FilterKeepsPassing<T(!new)>(p: T -> bool, s: seq<T>)
    requires forall i :: 0 <= i < |s| ==> p(s[i])
    ensures Filter(p, s) == s
  {
    if s != [] {
      FilterKeepsPassing(p, s[1..]);
      assert s == [s[0]] + s[1..];
    }
  }

  /** Filtering twice with the same predicate is filtering once. */
  lemma {:induction false} FilterIdempotent<T(!new)>(p: T -> bool, s: seq<T>)
    ensures Filter(p, Filter(p, s)) == Filter(p, s)
  {
    var r := Filter(p, s);
    FilterSpec(p, s);
    forall i | 0 <= i < |r| ensures p(r[i]) {
      assert r[i] in r;
    }
    FilterKeepsPassing(p, r);
  }

  /** Filtering empties a list exactly when no element passes. */
  lemma {:induction false} FilterEmpty<T(!new)>(p: T -> bool, s: seq<T>)
    ensures Filter(p, s) == [] <==> forall i :: 0 <= i < |s| ==> !p(s[i])
  {
    var r := Filter(p, s);
    FilterSpec(p, s);
    if r != [] {
      assert r[0] in r;
    }
    if exists i :: 0 <= i < |s| && p(s[i]) {
      var i :| 0 <= i < |s| && p(s[i]);
      assert s[i] in r;
    }
  }

  /** Two filters may be applied in either order. */
  lemma {:induction false} FilterCommutes<T(!new)>(p: T -> bool, q: T -> bool, s: seq<T>)
    ensures Filter(p, Filter(q, s)) == Filter(q, Filter(p, s))
  {
    if s != [] {
      FilterCommutes(p, q, s[1..]);
    }
  }

  /** Filtering distributes over concatenation. */
  lemma {:induction false} FilterConcat<T(!new)>(p: T -> bool, a: seq<T>, b: seq<T>)
    ensures Filter(p, a + b) == Filter(p, a) + Filter(p, b)
  {
    if a == [] {
      assert a + b == b;
    } else {
      var ab := a + b;
      assert ab[0] == a[0];
      assert ab[1..] == a[1..] + b;
      FilterConcat(p, a[1..], b);
      if p(a[0]) {
        assert Filter(p, ab) == [a[0]] + Filter(p, ab[1..]);
        assert Filter(p, a) == [a[0]] + Filter(p, a[1..]);
      } else {
        assert Filter(p, ab) == Filter(p, ab[1..]);
        assert Filter(p, a) == Filter(p, a[1..]);
      }
    }
  }

  /** When exactly the first `n` elements pass, filtering keeps that prefix. */
  lemma FilterPrefix<T(!new)>(p: T -> bool, s: seq<T>, n: nat)
    requires n <= |s|
    requires forall i :: 0 <= i < |s| ==> (p(s[i]) <==> i < n)
    ensures Filter(p, s) == s[..n]
  {
    assert s == s[..n] + s[n..];
    FilterConcat(p, s[..n], s[n..]);
    FilterKeepsPassing(p, s[..n]);
    FilterEmpty(p, s[n..]);
  }

  /** When exactly the elements from `n` on pass, filtering keeps that suffix. */
  lemma FilterSuffix<T(!new)>(p: T -> bool, s: seq<T>, n: nat)
    requires n <= |s|
    requires forall i :: 0 <= i < |s| ==> (p(s[i]) <==> n <= i)
    ensures Filter(p, s) == s[n..]
  {
    assert s == s[..n] + s[n..];
    FilterConcat(p, s[..n], s[n..]);
    FilterEmpty(p, s[..n]);
    FilterKeepsPassing(p, s[n..]);
  }
}
