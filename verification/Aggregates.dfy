/** Sums, filters and sorting over sequences: the list comprehensions, `sum`, `sorted`
    and `sort_values` calls of the program, together with the order-independence facts
    the other modules rely on. */
module Aggregates {

  datatype Option<+T> = None | Some(value: T)
  {
    predicate IsFailure() { None? }

    function PropagateFailure<U>(): Option<U>
      requires None?
    {
      None
    }

    function Extract(): T
      requires Some?
    {
      value
    }
  }

  // ---------------------------------------------------------------- sums

  function Sum<T>(f: T -> real, s: seq<T>): real
  {
    if s == [] then 0.0 else f(s[0]) + Sum(f, s[1..])
  }

  lemma {:induction false} SumAppend<T>(f: T -> real, s: seq<T>, t: seq<T>)
    ensures Sum(f, s + t) == Sum(f, s) + Sum(f, t)
  {
    if s == [] {
      assert s + t == t;
    } else {
      assert (s + t)[1..] == s[1..] + t;
      SumAppend(f, s[1..], t);
    }
  }

  lemma SumSnoc<T>(f: T -> real, s: seq<T>, i: nat)
    requires i < |s|
    ensures Sum(f, s[..i + 1]) == Sum(f, s[..i]) + f(s[i])
  {
    assert s[..i + 1] == s[..i] + [s[i]];
    SumAppend(f, s[..i], [s[i]]);
  }

  lemma SumRemove<T>(f: T -> real, s: seq<T>, i: nat)
    requires i < |s|
    ensures Sum(f, s) == f(s[i]) + Sum(f, s[..i] + s[i + 1..])
  {
    hide Sum;
    SumSnoc(f, s, i);
    assert s == s[..i + 1] + s[i + 1..];
    SumAppend(f, s[..i + 1], s[i + 1..]);
    SumAppend(f, s[..i], s[i + 1..]);
  }

  /** A sum does not depend on the order in which its terms are listed. */
  lemma {:induction false} SumPermutation<T>(f: T -> real, s: seq<T>, t: seq<T>)
    requires multiset(s) == multiset(t)
    ensures Sum(f, s) == Sum(f, t)
    decreases |s|
  {
    if s == [] {
      SameSize(s, t);
    } else {
      var i := HeadOccurrence(s, t);
      var u := t[..i] + t[i + 1..];
      SumPermutation(f, s[1..], u);
      SumRemove(f, t, i);
    }
  }

  /** The first element of s occurs somewhere in every rearrangement t of s. */
  lemma HeadOccurrence<T>(s: seq<T>, t: seq<T>) returns (i: nat)
    requires multiset(s) == multiset(t) && s != []
    ensures i < |t| && t[i] == s[0]
    ensures multiset(s[1..]) == multiset(t[..i] + t[i + 1..])
  {
    assert s[0] in multiset(t);
    i :| 0 <= i < |t| && t[i] == s[0];
    Around(t, i);
    Uncons(s);
    Cancel(s[0], multiset(s[1..]), multiset(t[..i] + t[i + 1..]));
  }

  lemma CountTwice<T>(s: seq<T>, i: nat, j: nat)
    requires i < j < |s| && s[i] == s[j]
    ensures multiset(s)[s[i]] >= 2
  {
    Around(s, j);
    assert s[i] == s[..j][i];
  }

  lemma CountOnce<T>(s: seq<T>, x: T)
    requires forall i, j :: 0 <= i < j < |s| ==> s[i] != s[j]
    ensures multiset(s)[x] <= 1
  {
    if x in s {
      var i :| 0 <= i < |s| && s[i] == x;
      Around(s, i);
      assert x !in s[..i] && x !in s[i + 1..];
    }
  }

  function Image<T, U>(f: T -> U, a: set<T>): set<U>
  {
    set x | x in a :: f(x)
  }

  /** An injective image of a finite set has the same size. */
  lemma {:induction false} ImageSize<T, U>(f: T -> U, a: set<T>)
    requires forall x, y :: x in a && y in a && f(x) == f(y) ==> x == y
    ensures |Image(f, a)| == |a|
    decreases |a|
  {
    if a != {} {
      var x :| x in a;
      ImageSize(f, a - {x});
      assert Image(f, a) == Image(f, a - {x}) + {f(x)};
    } else {
      assert Image(f, a) == {};
    }
  }

  lemma ImageUnion<T, U>(f: T -> U, a: set<T>, b: set<T>)
    ensures Image(f, a + b) == Image(f, a) + Image(f, b)
  {
  }

  lemma Cancel<T>(x: T, a: multiset<T>, b: multiset<T>)
    requires multiset{x} + a == multiset{x} + b
    ensures a == b
  {
    assert a == (multiset{x} + a) - multiset{x};
    assert b == (multiset{x} + b) - multiset{x};
  }

  lemma Uncons<T>(s: seq<T>)
    requires s != []
    ensures multiset(s) == multiset{s[0]} + multiset(s[1..])
  {
    assert s == [s[0]] + s[1..];
  }

  lemma Around<T>(s: seq<T>, i: nat)
    requires i < |s|
    ensures multiset(s) == multiset{s[i]} + multiset(s[..i] + s[i + 1..])
  {
    assert s == s[..i] + [s[i]] + s[i + 1..];
  }

  lemma SameSize<T>(s: seq<T>, t: seq<T>)
    requires multiset(s) == multiset(t)
    ensures |s| == |t|
  {
    assert |multiset(s)| == |s| && |multiset(t)| == |t|;
  }

  lemma {:induction false} SumMonotone<T>(f: T -> real, g: T -> real, s: seq<T>)
    requires forall x :: x in s ==> f(x) <= g(x)
    ensures Sum(f, s) <= Sum(g, s)
  {
    if s != [] {
      SumMonotone(f, g, s[1..]);
    }
  }

  lemma SumCongruent<T>(f: T -> real, g: T -> real, s: seq<T>)
    requires forall x :: x in s ==> f(x) == g(x)
    ensures Sum(f, s) == Sum(g, s)
  {
    SumMonotone(f, g, s);
    SumMonotone(g, f, s);
  }

  /** Sum(h) is a * Sum(f) + b * Sum(g) whenever h is that combination term by term. */
  lemma {:induction false} SumLinear<T>(a: real, f: T -> real, b: real, g: T -> real, h: T -> real, s: seq<T>)
    requires forall x :: x in s ==> h(x) == a * f(x) + b * g(x)
    ensures Sum(h, s) == a * Sum(f, s) + b * Sum(g, s)
  {
    if s != [] {
      SumLinear(a, f, b, g, h, s[1..]);
    }
  }

  lemma {:induction false} SumConstant<T>(f: T -> real, c: real, s: seq<T>)
    requires forall x :: x in s ==> f(x) == c
    ensures Sum(f, s) == c * |s| as real
  {
    if s != [] {
      SumConstant(f, c, s[1..]);
    }
  }

  // ---------------------------------------------------------------- map and filter

  function Map<T, U>(f: T -> U, s: seq<T>): (r: seq<U>)
    ensures |r| == |s|
    ensures forall i :: 0 <= i < |s| ==> r[i] == f(s[i])
  {
    if s == [] then [] else [f(s[0])] + Map(f, s[1..])
  }

  function Filter<T(!new)>(p: T -> bool, s: seq<T>): (r: seq<T>)
    ensures forall x :: x in r <==> x in s && p(x)
  {
    if s == [] then [] else (if p(s[0]) then [s[0]] else []) + Filter(p, s[1..])
  }

  lemma {:induction false} FilterAppend<T(!new)>(p: T -> bool, s: seq<T>, t: seq<T>)
    ensures Filter(p, s + t) == Filter(p, s) + Filter(p, t)
  {
    if s == [] {
      assert s + t == t;
    } else {
      assert (s + t)[1..] == s[1..] + t;
      FilterAppend(p, s[1..], t);
    }
  }

  lemma FilterSnoc<T(!new)>(p: T -> bool, s: seq<T>, x: T)
    ensures Filter(p, s + [x]) == if p(x) then Filter(p, s) + [x] else Filter(p, s)
  {
    FilterAppend(p, s, [x]);
    assert Filter(p, [x]) == if p(x) then [x] else [];
  }

  lemma {:induction false} FilterCount<T(!new)>(p: T -> bool, s: seq<T>, x: T)
    ensures multiset(Filter(p, s))[x] == if p(x) then multiset(s)[x] else 0
  {
    if s != [] {
      assert s == [s[0]] + s[1..];
      FilterCount(p, s[1..], x);
    }
  }

  lemma FilterPermutation<T(!new)>(p: T -> bool, s: seq<T>, t: seq<T>)
    requires multiset(s) == multiset(t)
    ensures multiset(Filter(p, s)) == multiset(Filter(p, t))
  {
    forall x ensures multiset(Filter(p, s))[x] == multiset(Filter(p, t))[x] {
      FilterCount(p, s, x);
      FilterCount(p, t, x);
    }
  }

  lemma {:induction false} FilterNone<T(!new)>(p: T -> bool, s: seq<T>)
    requires forall x :: x in s ==> !p(x)
    ensures Filter(p, s) == []
  {
    if s != [] {
      FilterNone(p, s[1..]);
    }
  }

  lemma {:induction false} FilterCongruent<T(!new)>(p: T -> bool, q: T -> bool, s: seq<T>)
    requires forall x :: x in s ==> p(x) == q(x)
    ensures Filter(p, s) == Filter(q, s)
  {
    if s != [] {
      FilterCongruent(p, q, s[1..]);
    }
  }

  /** Filtering twice is filtering by the conjunction. */
  lemma {:induction false} FilterFilter<T(!new)>(p: T -> bool, q: T -> bool, r: T -> bool, s: seq<T>)
    requires forall x :: r(x) <==> p(x) && q(x)
    ensures Filter(p, Filter(q, s)) == Filter(r, s)
  {
    if s != [] {
      FilterFilter(p, q, r, s[1..]);
      FilterAppend(p, if q(s[0]) then [s[0]] else [], Filter(q, s[1..]));
    }
  }

  function Where<T(!new)>(p: T -> bool, f: T -> real): T -> real
  {
    (x: T) => if p(x) then f(x) else 0.0
  }

  lemma {:induction false} SumFilter<T(!new)>(p: T -> bool, f: T -> real, s: seq<T>)
    ensures Sum(f, Filter(p, s)) == Sum(Where(p, f), s)
  {
    if s != [] {
      SumFilter(p, f, s[1..]);
      var rest := Filter(p, s[1..]);
      if p(s[0]) {
        assert Filter(p, s) == [s[0]] + rest && ([s[0]] + rest)[1..] == rest;
      } else {
        assert Filter(p, s) == [] + rest == rest;
      }
    }
  }

  lemma {:induction false} FilterMap<T(!new), U(!new)>(f: T -> U, p: T -> bool, q: U -> bool, s: seq<T>)
    requires forall x :: x in s ==> q(f(x)) == p(x)
    ensures Filter(q, Map(f, s)) == Map(f, Filter(p, s))
  {
    if s != [] {
      FilterMap(f, p, q, s[1..]);
      assert Map(f, s)[1..] == Map(f, s[1..]);
      MapAppend(f, if p(s[0]) then [s[0]] else [], Filter(p, s[1..]));
    }
  }

  lemma {:induction false} SumMap<T, U>(f: T -> U, g: U -> real, h: T -> real, s: seq<T>)
    requires forall x :: x in s ==> g(f(x)) == h(x)
    ensures Sum(g, Map(f, s)) == Sum(h, s)
  {
    if s != [] {
      SumMap(f, g, h, s[1..]);
      assert Map(f, s)[1..] == Map(f, s[1..]);
    }
  }

  lemma MapAppend<T, U>(f: T -> U, s: seq<T>, t: seq<T>)
    ensures Map(f, s + t) == Map(f, s) + Map(f, t)
  {
    hide Map;
  }

  lemma {:induction false} MapPermutation<T, U>(f: T -> U, s: seq<T>, t: seq<T>)
    requires multiset(s) == multiset(t)
    ensures multiset(Map(f, s)) == multiset(Map(f, t))
    decreases |s|
  {
    if s == [] {
      SameSize(s, t);
    } else {
      var i := HeadOccurrence(s, t);
      MapPermutation(f, s[1..], t[..i] + t[i + 1..]);
      MapAround(f, t, i);
      MapAround(f, s, 0);
      assert s[..0] + s[0 + 1..] == s[1..];
    }
  }

  lemma MapAround<T, U>(f: T -> U, s: seq<T>, i: nat)
    requires i < |s|
    ensures multiset(Map(f, s)) == multiset{f(s[i])} + multiset(Map(f, s[..i] + s[i + 1..]))
  {
    hide Map;
    Around(Map(f, s), i);
    assert Map(f, s[..i] + s[i + 1..]) == Map(f, s)[..i] + Map(f, s)[i + 1..];
  }

  function Reverse<T>(s: seq<T>): (r: seq<T>)
    ensures |r| == |s| && forall k :: 0 <= k < |s| ==> r[k] == s[|s| - 1 - k]
  {
    if s == [] then [] else Reverse(s[1..]) + [s[0]]
  }

  lemma {:induction false} ReversePermutes<T>(s: seq<T>)
    ensures multiset(Reverse(s)) == multiset(s)
  {
    if s != [] {
      ReversePermutes(s[1..]);
      Uncons(s);
    }
  }

  // ---------------------------------------------------------------- sorting

  ghost predicate TotalPreorder<T(!new)>(le: (T, T) -> bool)
  {
    && (forall x, y :: le(x, y) || le(y, x))
    && (forall x, y, z :: le(x, y) && le(y, z) ==> le(x, z))
  }

  ghost predicate SortedBy<T>(le: (T, T) -> bool, s: seq<T>)
  {
    forall i, j :: 0 <= i < j < |s| ==> le(s[i], s[j])
  }

  function Insert<T>(le: (T, T) -> bool, x: T, s: seq<T>): (r: seq<T>)
    ensures multiset(r) == multiset(s) + multiset{x}
  {
    if s == [] || le(x, s[0]) then [x] + s
    else
      assert s == [s[0]] + s[1..];
      [s[0]] + Insert(le, x, s[1..])
  }

  /** A stable sort: an element stays before the later elements it compares equal to. */
  function SortBy<T>(le: (T, T) -> bool, s: seq<T>): (r: seq<T>)
    ensures multiset(r) == multiset(s)
    ensures |r| == |s|
  {
    if s == [] then [] else
      assert s == [s[0]] + s[1..];
      var r := Insert(le, s[0], SortBy(le, s[1..]));
      SameSize(r, s);
      r
  }

  lemma {:induction false} InsertSorted<T(!new)>(le: (T, T) -> bool, x: T, s: seq<T>)
    requires TotalPreorder(le) && SortedBy(le, s)
    ensures SortedBy(le, Insert(le, x, s))
  {
    if s == [] || le(x, s[0]) {
    } else {
      InsertSorted(le, x, s[1..]);
      var r := Insert(le, x, s[1..]);
      assert le(s[0], x);
      forall j | 0 <= j < |r| ensures le(s[0], r[j]) {
        assert r[j] in multiset(s[1..]) + multiset{x};
        assert r[j] == x || r[j] in s[1..];
      }
    }
  }

  lemma {:induction false} SortBySorted<T(!new)>(le: (T, T) -> bool, s: seq<T>)
    requires TotalPreorder(le)
    ensures SortedBy(le, SortBy(le, s))
  {
    if s != [] {
      SortBySorted(le, s[1..]);
      InsertSorted(le, s[0], SortBy(le, s[1..]));
    }
  }

  function AtMost(): (real, real) -> bool
  {
    (x: real, y: real) => x <= y
  }

  /** Python's `sorted` on numbers. */
  function Sorted(s: seq<real>): (r: seq<real>)
    ensures multiset(r) == multiset(s) && |r| == |s|
    ensures forall i, j :: 0 <= i <= j < |r| ==> r[i] <= r[j]
  {
    SortBySorted(AtMost(), s);
    assert forall i, j :: 0 <= i < j < |s| ==> AtMost()(SortBy(AtMost(), s)[i], SortBy(AtMost(), s)[j]);
    SortBy(AtMost(), s)
  }

  /** A multiset of numbers has one ascending arrangement. */
  lemma {:induction false} AscendingUnique(s: seq<real>, t: seq<real>)
    requires multiset(s) == multiset(t)
    requires forall i, j :: 0 <= i <= j < |s| ==> s[i] <= s[j]
    requires forall i, j :: 0 <= i <= j < |t| ==> t[i] <= t[j]
    ensures s == t
    decreases |s|
  {
    SameSize(s, t);
    if s != [] {
      var i := HeadOccurrence(s, t);
      var j := HeadOccurrence(t, s);
      assert t[0] <= t[i] == s[0] <= s[j] == t[0];
      Uncons(s);
      Uncons(t);
      Cancel(s[0], multiset(s[1..]), multiset(t[1..]));
      AscendingUnique(s[1..], t[1..]);
    }
  }

  lemma SortedPermutation(s: seq<real>, t: seq<real>)
    requires multiset(s) == multiset(t)
    ensures Sorted(s) == Sorted(t)
  {
    AscendingUnique(Sorted(s), Sorted(t));
  }

  function Minus(): real -> real { (x: real) => -x }

  /** Every number negated, in reverse order: ascending if s is. */
  function Negated(s: seq<real>): (r: seq<real>)
    ensures |r| == |s| && forall k :: 0 <= k < |s| ==> r[k] == -s[|s| - 1 - k]
  {
    Map(Minus(), Reverse(s))
  }

  lemma NegatedPermutes(s: seq<real>, t: seq<real>)
    requires multiset(s) == multiset(t)
    ensures multiset(Negated(s)) == multiset(Negated(t))
  {
    ReversePermutes(s);
    ReversePermutes(t);
    MapPermutation(Minus(), Reverse(s), Reverse(t));
  }

  lemma SortedNegated(s: seq<real>)
    ensures Sorted(Map(Minus(), s)) == Negated(Sorted(s))
  {
    hide Map, Reverse, Sorted;
    ReversePermutes(s);
    MapPermutation(Minus(), Reverse(s), s);
    NegatedPermutes(Sorted(s), s);
    AscendingUnique(Sorted(Map(Minus(), s)), Negated(Sorted(s)));
  }

  // ---------------------------------------------------------------- strings

  /** Python's `<=` on strings: lexicographic by code point. */
  predicate StringLe(a: string, b: string)
  {
    a == "" || (b != "" && (a[0] < b[0] || (a[0] == b[0] && StringLe(a[1..], b[1..]))))
  }

  lemma {:induction false} StringTotal(a: string, b: string)
    ensures StringLe(a, b) || StringLe(b, a)
  {
    if a != "" && b != "" && a[0] == b[0] {
      StringTotal(a[1..], b[1..]);
    }
  }

  lemma {:induction false} StringTransitive(a: string, b: string, c: string)
    requires StringLe(a, b) && StringLe(b, c)
    ensures StringLe(a, c)
  {
    if a != "" && a[0] == b[0] && b[0] == c[0] {
      StringTransitive(a[1..], b[1..], c[1..]);
    }
  }
}
