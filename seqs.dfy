/** Stream operations on sequences: `filter`, `findFirst`, and a `map` whose steps can throw. */
module Seqs {
  import opened Wrappers

  /** `stream().filter(keep)` collected to a list: the elements that `keep` accepts, in order. */
  function Filter<T>(s: seq<T>, keep: T -> bool): (r: seq<T>)
    ensures |r| <= |s|
  {
    if s == [] then []
    else Filter(s[..|s| - 1], keep) + (if keep(s[|s| - 1]) then [s[|s| - 1]] else [])
  }

  /** `stream().filter(p).findFirst()`. */
  function FindFirst<T(==)>(s: seq<T>, p: T -> bool): (r: Option<T>)
    ensures r.None? <==> forall x <- s :: !p(x)
    ensures r.Some? ==> exists i | 0 <= i < |s| :: s[i] == r.value && p(s[i]) && forall j | 0 <= j < i :: !p(s[j])
  {
    if s == [] then None
    else if p(s[0]) then Some(s[0])
    else
      var r := FindFirst(s[1..], p);
      assert forall x <- s[1..] :: x in s;
      if r.Some? then
        var i :| 0 <= i < |s[1..]| && s[1..][i] == r.value && p(s[1..][i]) && forall j | 0 <= j < i :: !p(s[1..][j]);
        assert s[i + 1] == r.value && forall j | 0 <= j < i + 1 :: !p(s[j]);
        r
      else r
  }

  /** Applies `f` to each element in order and stops at the first failure, like a `forEach`
      whose action may throw. */
  function MapResult<T, U, E>(s: seq<T>, f: T -> Result<U, E>): (r: Result<seq<U>, E>)
    ensures r.Success? ==> |r.value| == |s|
    ensures r.Failure? ==> exists i | 0 <= i < |s| :: f(s[i]) == Failure(r.error)
  {
    if s == [] then Success([])
    else
      var init :- MapResult(s[..|s| - 1], f);
      var last :- f(s[|s| - 1]);
      Success(init + [last])
  }

  /** The concatenation of a sequence of strings (`Collectors.joining()`). */
  function Concat(parts: seq<string>): string
  {
    if parts == [] then [] else Concat(parts[..|parts| - 1]) + parts[|parts| - 1]
  }

  // ---------------------------------------------------------------------------------------------

  /** Filtering distributes over concatenation: it keeps the relative order of what it keeps. */
  lemma {:induction false} FilterConcat<T>(a: seq<T>, b: seq<T>, keep: T -> bool)
    ensures Filter(a + b, keep) == Filter(a, keep) + Filter(b, keep)
  {
    if b != [] {
      var b' := b[..|b| - 1];
      assert (a + b)[..|a + b| - 1] == a + b';
      assert (a + b)[|a + b| - 1] == b[|b| - 1];
      FilterConcat(a, b', keep);
    } else {
      assert a + b == a;
    }
  }

  /** An element survives filtering exactly when it occurs and is accepted. */
  lemma {:induction false} FilterMembers<T>(s: seq<T>, keep: T -> bool)
    ensures forall x <- Filter(s, keep) :: x in s && keep(x)
    ensures forall x <- s :: keep(x) ==> x in Filter(s, keep)
  {
    if s != [] {
      var s' := s[..|s| - 1];
      FilterMembers(s', keep);
      assert s == s' + [s[|s| - 1]];
      assert forall x :: x in s <==> x in s' || x == s[|s| - 1];
    }
  }

  /** Filtering changes nothing when every element is accepted. */
  lemma {:induction false} FilterKeepsAll<T>(s: seq<T>, keep: T -> bool)
    requires forall x <- s :: keep(x)
    ensures Filter(s, keep) == s
  {
    if s != [] {
      FilterKeepsAll(s[..|s| - 1], keep);
      assert s[..|s| - 1] + [s[|s| - 1]] == s;
    }
  }

  /** Filtering twice with the same predicate is filtering once. */
  lemma FilterIdempotent<T>(s: seq<T>, keep: T -> bool)
    ensures Filter(Filter(s, keep), keep) == Filter(s, keep)
  {
    FilterMembers(s, keep);
    FilterKeepsAll(Filter(s, keep), keep);
  }

  /** Once a prefix fails, the whole map fails with the same exception. */
  lemma {:induction false} MapResultPrefixFailure<T, U, E>(s: seq<T>, k: nat, f: T -> Result<U, E>)
    requires k <= |s| && MapResult(s[..k], f).Failure?
    ensures MapResult(s, f) == MapResult(s[..k], f)
  {
    if k < |s| {
      assert s[..|s| - 1][..k] == s[..k];
      MapResultPrefixFailure(s[..|s| - 1], k, f);
    } else {
      assert s[..k] == s;
    }
  }

  /** A successful map holds `f`'s value for each element, at the element's position. */
  lemma {:induction false} MapResultAt<T, U, E>(s: seq<T>, f: T -> Result<U, E>, i: nat)
    requires MapResult(s, f).Success? && i < |s|
    ensures f(s[i]).Success? && MapResult(s, f).value[i] == f(s[i]).value
  {
    if i < |s| - 1 {
      MapResultAt(s[..|s| - 1], f, i);
    }
  }

  /** The map fails exactly when `f` fails on some element. */
  lemma {:induction false} MapResultFails<T, U, E>(s: seq<T>, f: T -> Result<U, E>)
    ensures MapResult(s, f).Failure? <==> exists i | 0 <= i < |s| :: f(s[i]).Failure?
  {
    if s != [] {
      var s' := s[..|s| - 1];
      MapResultFails(s', f);
      if MapResult(s', f).Failure? {
        var i :| 0 <= i < |s'| && f(s'[i]).Failure?;
        assert f(s[i]).Failure?;
      }
      if MapResult(s', f).Success? && f(s[|s| - 1]).Success? {
        forall i | 0 <= i < |s| ensures f(s[i]).Success? {
          if i < |s'| { assert s[i] == s'[i]; }
        }
      }
    }
  }

  lemma {:induction false} ConcatAppend(a: seq<string>, b: seq<string>)
    ensures Concat(a + b) == Concat(a) + Concat(b)
  {
    if b != [] {
      var b' := b[..|b| - 1];
      assert (a + b)[..|a + b| - 1] == a + b';
      ConcatAppend(a, b');
    } else {
      assert a + b == a;
    }
  }

  /** Filtering with `p` and then with `q` is filtering with both at once. */
  lemma {:induction false} FilterFilter<T>(s: seq<T>, p: T -> bool, q: T -> bool)
    ensures Filter(Filter(s, p), q) == Filter(s, x => p(x) && q(x))
  {
    if s != [] {
      var init, last := s[..|s| - 1], s[|s| - 1];
      FilterFilter(init, p, q);
      FilterConcat(Filter(init, p), if p(last) then [last] else [], q);
      if p(last) {
        assert [last][..0] == [];
      }
    }
  }

  /** One more step of `MapResult` over a growing prefix. */
  lemma MapResultStep<T, U, E>(s: seq<T>, i: nat, f: T -> Result<U, E>)
    requires i < |s| && MapResult(s[..i], f).Success?
    ensures MapResult(s[..i + 1], f) ==
              if f(s[i]).Success? then Success(MapResult(s[..i], f).value + [f(s[i]).value]) else Failure(f(s[i]).error)
  {
    assert s[..i + 1][..i] == s[..i];
  }
  /** Filtering a prefix gives a prefix of the filtered sequence. */
  lemma FilterPrefix<T>(s: seq<T>, n: nat, keep: T -> bool)
    requires n <= |s|
    ensures |Filter(s[..n], keep)| <= |Filter(s, keep)|
    ensures Filter(s, keep)[..|Filter(s[..n], keep)|] == Filter(s[..n], keep)
  {
    assert s == s[..n] + s[n..];
    FilterConcat(s[..n], s[n..], keep);
  }

  /** Mapping over the accepted elements fails with the exception of the first accepted element
      that fails, once those before it have succeeded. */
  lemma MapResultFilterFailsAt<T, U, E>(s: seq<T>, i: nat, keep: T -> bool, f: T -> Result<U, E>)
    requires i < |s| && keep(s[i]) && f(s[i]).Failure?
    requires MapResult(Filter(s[..i], keep), f).Success?
    ensures MapResult(Filter(s, keep), f) == Failure(f(s[i]).error)
  {
    var upTo := Filter(s[..i + 1], keep);
    FilterSnoc(s, i, keep);
    MapResultSnocFails(Filter(s[..i], keep), s[i], f);
    FilterPrefix(s, i + 1, keep);
    MapResultPrefixFailure(Filter(s, keep), |upTo|, f);
  }

  lemma FilterSnoc<T>(s: seq<T>, i: nat, keep: T -> bool)
    requires i < |s| && keep(s[i])
    ensures Filter(s[..i + 1], keep) == Filter(s[..i], keep) + [s[i]]
  {
    assert s[..i + 1][..i] == s[..i];
  }

  lemma MapResultSnocFails<T, U, E>(a: seq<T>, x: T, f: T -> Result<U, E>)
    requires MapResult(a, f).Success? && f(x).Failure?
    ensures MapResult(a + [x], f) == Failure(f(x).error)
  {
    assert (a + [x])[..|a|] == a;
  }
  /** Appending three pieces one after another is appending their concatenation. */
  lemma AppendThree<T>(base: seq<T>, a: seq<T>, b: seq<T>, c: seq<T>)
    ensures base + a + b + c == base + (a + b + c)
  {
  }

  /** Filtering depends only on what the predicate says about the elements present. */
  lemma {:induction false} FilterSame<T>(s: seq<T>, p: T -> bool, q: T -> bool)
    requires forall x <- s :: p(x) == q(x)
    ensures Filter(s, p) == Filter(s, q)
  {
    if s != [] {
      assert forall x <- s[..|s| - 1] :: x in s;
      assert s[|s| - 1] in s;
      FilterSame(s[..|s| - 1], p, q);
    }
  }
  /** Filtering with `p` and then with `q` is filtering with any predicate that means both. */
  lemma {:induction false} FilterTwice<T>(s: seq<T>, p: T -> bool, q: T -> bool, both: T -> bool)
    requires forall x <- s :: both(x) == (p(x) && q(x))
    ensures Filter(Filter(s, p), q) == Filter(s, both)
  {
    if s != [] {
      var init, last := s[..|s| - 1], s[|s| - 1];
      assert forall x <- init :: x in s;
      assert last in s;
      FilterTwice(init, p, q, both);
      FilterConcat(Filter(init, p), if p(last) then [last] else [], q);
      if p(last) {
        assert [last][..0] == [];
      }
    }
  }

  /** Nothing is kept when nothing is accepted. */
  lemma {:induction false} FilterNone<T>(s: seq<T>, keep: T -> bool)
    requires forall x <- s :: !keep(x)
    ensures Filter(s, keep) == []
  {
    if s != [] {
      assert forall x <- s[..|s| - 1] :: x in s;
      assert s[|s| - 1] in s;
      FilterNone(s[..|s| - 1], keep);
    }
  }

  /** `Collectors.toMap` over a stream whose entries may throw: the first element whose entry
      throws, or whose key an earlier element already has, aborts with that failure. */
  function ToMap<T, K(==), V, E>(elements: seq<T>, entry: T -> Result<(K, V), E>, duplicate: E): Result<map<K, V>, E>
  {
    if elements == [] then Success(map[])
    else
      var m :- ToMap(elements[..|elements| - 1], entry, duplicate);
      var e :- entry(elements[|elements| - 1]);
      if e.0 in m then Failure(duplicate) else Success(m[e.0 := e.1])
  }

  /** Every element yields an entry without throwing. */
  predicate EntriesSucceed<T, K, V, E>(elements: seq<T>, entry: T -> Result<(K, V), E>)
  {
    forall i | 0 <= i < |elements| :: entry(elements[i]).Success?
  }

  /** No two elements yield the same key. */
  predicate KeysDistinct<T, K(==), V, E>(elements: seq<T>, entry: T -> Result<(K, V), E>)
    requires EntriesSucceed(elements, entry)
  {
    forall i, j | 0 <= i < j < |elements| :: entry(elements[i]).value.0 != entry(elements[j]).value.0
  }

  /** `toMap` succeeds exactly when every entry is made and no key repeats; the map then holds
      each element's key with its value, and nothing else. */
  lemma {:induction false} ToMapCases<T, K, V, E>(elements: seq<T>, entry: T -> Result<(K, V), E>, duplicate: E)
    ensures ToMap(elements, entry, duplicate).Success? <==> EntriesSucceed(elements, entry) && KeysDistinct(elements, entry)
    ensures ToMap(elements, entry, duplicate).Success? ==>
              var m := ToMap(elements, entry, duplicate).value;
              && (forall i | 0 <= i < |elements| :: entry(elements[i]).value.0 in m
                                                  && m[entry(elements[i]).value.0] == entry(elements[i]).value.1)
              && (forall k <- m :: exists i | 0 <= i < |elements| :: entry(elements[i]).value.0 == k)
  {
    if elements != [] {
      var n := |elements|;
      var init, last := elements[..n - 1], elements[n - 1];
      ToMapCases(init, entry, duplicate);
      assert forall i | 0 <= i < n - 1 :: init[i] == elements[i];
      if ToMap(init, entry, duplicate).Failure? {
        if EntriesSucceed(elements, entry) {
          assert EntriesSucceed(init, entry);
        }
      } else {
        var m := ToMap(init, entry, duplicate).value;
        var made := entry(last);
        if made.Failure? {
          assert !entry(elements[n - 1]).Success?;
        } else if made.value.0 in m {
          var i :| 0 <= i < n - 1 && entry(init[i]).value.0 == made.value.0;
          assert entry(elements[i]).value.0 == entry(elements[n - 1]).value.0;
        } else {
          forall i | 0 <= i < n ensures entry(elements[i]).Success? {
            if i < n - 1 {
              assert init[i] == elements[i];
            }
          }
          forall i, j | 0 <= i < j < n
            ensures entry(elements[i]).value.0 != entry(elements[j]).value.0
          {
            if j < n - 1 {
              assert init[i] == elements[i] && init[j] == elements[j];
            } else {
              assert entry(init[i]).value.0 in m;
            }
          }
          var m' := ToMap(elements, entry, duplicate).value;
          assert m' == m[made.value.0 := made.value.1];
          forall i | 0 <= i < n
            ensures entry(elements[i]).value.0 in m'
            ensures m'[entry(elements[i]).value.0] == entry(elements[i]).value.1
          {
            if i < n - 1 {
              assert init[i] == elements[i];
              assert entry(init[i]).value.0 in m;
            }
          }
          forall k <- m' ensures exists i | 0 <= i < n :: entry(elements[i]).value.0 == k {
            if k in m {
              var i :| 0 <= i < n - 1 && entry(init[i]).value.0 == k;
              assert entry(elements[i]).value.0 == k;
            } else {
              assert entry(elements[n - 1]).value.0 == k;
            }
          }
        }
      }
    }
  }
}
