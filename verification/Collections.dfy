/**
  Sequence helpers shared by the selectors: an option type for the values
  JavaScript leaves `undefined` or `null`, `Array.prototype.filter`,
  `Array.prototype.slice(0, n)`, and the contract of `lodash.shuffle`.
 */
module Collections {

  datatype Option<+T> = None | Some(value: T)

  function Min(a: int, b: int): int
  {
    if a <= b then a else b
  }

  /** A stand-in for `lodash.shuffle`: every call returns some reordering of its argument. */
  ghost predicate IsShuffle<T(!new)>(shuffle: seq<T> -> seq<T>)
  {
    forall s :: |shuffle(s)| == |s| && multiset(shuffle(s)) == multiset(s)
  }

  /** `s.filter(f)`: keeps, in order, exactly the entries that satisfy `f`. */
  function Filter<T(!new)>(f: T -> bool, s: seq<T>): (r: seq<T>)
    ensures |r| <= |s|
  {
    if s == [] then []
    else (if f(s[0]) then [s[0]] else []) + Filter(f, s[1..])
  }

  /** Every entry a filter keeps is an entry of the input that satisfies `f`. */
  lemma {:induction false} FilterMembers<T(!new)>(f: T -> bool, s: seq<T>)
    ensures forall x :: x in Filter(f, s) ==> x in s && f(x)
  {
    if s != [] {
      FilterMembers(f, s[1..]);
    }
  }

  /** A filter keeps every occurrence of an entry that satisfies `f` and none of the others. */
  lemma {:induction false} FilterMultiplicity<T(!new)>(f: T -> bool, s: seq<T>)
    ensures forall x {:trigger multiset(Filter(f, s))[x]} ::
      multiset(Filter(f, s))[x] == if f(x) then multiset(s)[x] else 0
  {
    if s != [] {
      assert s == [s[0]] + s[1..];
      FilterMultiplicity(f, s[1..]);
    }
  }

  /** `s.slice(0, n)` for a non-negative `n`: the first `n` entries, or all of them. */
  function Take<T>(s: seq<T>, n: nat): (r: seq<T>)
    ensures |r| == Min(n, |s|)
    ensures r == s[..|r|]
  {
    s[..Min(n, |s|)]
  }

  /** A prefix never uses an entry more often than the whole sequence does. */
  lemma TakeIsSubMultiset<T>(s: seq<T>, n: nat)
    ensures multiset(Take(s, n)) <= multiset(s)
  {
    var k := Min(n, |s|);
    assert s == s[..k] + s[k..];
  }

  /** Every entry of a prefix is an entry of the whole sequence. */
  lemma TakeMembers<T>(s: seq<T>, n: nat)
    ensures forall x :: x in Take(s, n) ==> x in s
  {
  }

  /** Filtering a concatenation is filtering each part and concatenating the results. */
  lemma {:induction false} FilterConcat<T(!new)>(f: T -> bool, a: seq<T>, b: seq<T>)
    ensures Filter(f, a + b) == Filter(f, a) + Filter(f, b)
  {
    if a != [] {
      assert (a + b)[0] == a[0] && (a + b)[1..] == a[1..] + b;
      FilterConcat(f, a[1..], b);
      var head := if f(a[0]) then [a[0]] else [];
      calc {
        Filter(f, a + b);
        head + Filter(f, a[1..] + b);
        head + (Filter(f, a[1..]) + Filter(f, b));
        (head + Filter(f, a[1..])) + Filter(f, b);
      }
    } else {
      assert a + b == b;
    }
  }

  /** A filter that every entry passes returns its input unchanged. */
  lemma {:induction false} FilterKeepsAll<T(!new)>(f: T -> bool, s: seq<T>)
    requires forall x :: x in s ==> f(x)
    ensures Filter(f, s) == s
  {
    if s != [] {
      FilterKeepsAll(f, s[1..]);
    }
  }

  /** A filter that no entry passes returns nothing. */
  lemma {:induction false} FilterDropsAll<T(!new)>(f: T -> bool, s: seq<T>)
    requires forall x :: x in s ==> !f(x)
    ensures Filter(f, s) == []
  {
    if s != [] {
      FilterDropsAll(f, s[1..]);
    }
  }

  /** Filtering two runs, the first all kept and the second all dropped, leaves the first. */
  lemma FilterKeepsFirstRun<T(!new)>(f: T -> bool, a: seq<T>, b: seq<T>)
    requires forall x :: x in a ==> f(x)
    requires forall x :: x in b ==> !f(x)
    ensures Filter(f, a + b) == a
  {
    FilterConcat(f, a, b);
    FilterKeepsAll(f, a);
    FilterDropsAll(f, b);
  }

  /** Filtering two runs, the first all dropped and the second all kept, leaves the second. */
  lemma FilterKeepsSecondRun<T(!new)>(f: T -> bool, a: seq<T>, b: seq<T>)
    requires forall x :: x in a ==> !f(x)
    requires forall x :: x in b ==> f(x)
    ensures Filter(f, a + b) == b
  {
    FilterConcat(f, a, b);
    FilterDropsAll(f, a);
    FilterKeepsAll(f, b);
  }

  /** Reordering the input does not change how many entries a filter keeps. */
  lemma FilterCountInvariant<T(!new)>(f: T -> bool, s: seq<T>, t: seq<T>)
    requires multiset(s) == multiset(t)
    ensures |Filter(f, s)| == |Filter(f, t)|
  {
    var a, b := Filter(f, s), Filter(f, t);
    FilterMultiplicity(f, s);
    FilterMultiplicity(f, t);
    assert multiset(a) == multiset(b) by {
      forall x ensures multiset(a)[x] == multiset(b)[x] {
      }
    }
    assert |multiset(a)| == |multiset(b)|;
  }

  /** Every entry of a sub-multiset of `b` is an entry of `b`. */
  lemma SubMultisetMembers<T>(a: seq<T>, b: seq<T>)
    requires multiset(a) <= multiset(b)
    ensures forall x :: x in a ==> x in b
  {
    forall x | x in a ensures x in b {
      assert multiset(a)[x] > 0;
    }
  }
}
