/**
 Orders the system sorts by: Python's order on text (by code point), and its
 stable `sorted`, which takes the comparison of the sort keys as a parameter.
 */
module Ordering {

  // ----- the order on text -----

  /** `a < b` on Python strings: lexicographic by code point. */
  predicate TextLt(a: string, b: string) {
    if b == [] then false
    else if a == [] then true
    else a[0] < b[0] || (a[0] == b[0] && TextLt(a[1..], b[1..]))
  }

  predicate TextLe(a: string, b: string) {
    !TextLt(b, a)
  }

  lemma {:induction false} TextIrreflexive(a: string)
    ensures !TextLt(a, a)
  {
    if a != [] { TextIrreflexive(a[1..]); }
  }

  lemma {:induction false} TextTransitive(a: string, b: string, c: string)
    requires TextLt(a, b) && TextLt(b, c)
    ensures TextLt(a, c)
  {
    if a != [] && a[0] == b[0] == c[0] { TextTransitive(a[1..], b[1..], c[1..]); }
  }

  lemma {:induction false} TextTotal(a: string, b: string)
    ensures TextLt(a, b) || TextLt(b, a) || a == b
  {
    if a != [] && b != [] && a[0] == b[0] {
      TextTotal(a[1..], b[1..]);
      assert a == [a[0]] + a[1..] && b == [b[0]] + b[1..];
    } else {
      assert a == [] && b == [] ==> a == b;
    }
  }

  /** The first difference decides: a smaller character, or the end of the text. */
  lemma {:induction false} TextLtExactly(a: string, b: string)
    ensures TextLt(a, b) <==>
      exists k :: 0 <= k <= |a| && k < |b| && a[..k] == b[..k] && (k == |a| || a[k] < b[k])
  {
    if a != [] && b != [] && a[0] == b[0] {
      var x, y := a[1..], b[1..];
      TextLtExactly(x, y);
      if k :| 0 <= k <= |x| && k < |y| && x[..k] == y[..k] && (k == |x| || x[k] < y[k]) {
        assert a[..k + 1] == [a[0]] + x[..k] && b[..k + 1] == [b[0]] + y[..k];
      }
      if k :| 0 <= k <= |a| && k < |b| && a[..k] == b[..k] && (k == |a| || a[k] < b[k]) {
        assert x[..k - 1] == a[..k][1..] && y[..k - 1] == b[..k][1..];
      }
    } else {
      assert a[..0] == b[..0];
      forall k | 0 < k <= |a| && k < |b| ensures a[..k] != b[..k] {
        assert a[..k][0] == a[0] && b[..k][0] == b[0];
      }
    }
  }

  lemma TextOrder()
    ensures StrictWeak(TextLt)
    ensures forall a, b :: TextLt(a, b) || TextLt(b, a) || a == b
  {
    forall a { TextIrreflexive(a); }
    forall a, b, c | TextLt(a, b) && TextLt(b, c) ensures TextLt(a, c) { TextTransitive(a, b, c); }
    forall a, b { TextTotal(a, b); }
  }

  // ----- sorting by a comparison -----

  /** What a comparison of sort keys always is: a strict order in which "neither
      comes first" means "same key". */
  ghost predicate StrictWeak<T(!new)>(lt: (T, T) -> bool) {
    && (forall x :: !lt(x, x))
    && (forall x, y, z :: lt(x, y) && lt(y, z) ==> lt(x, z))
    && (forall x, y, z :: lt(x, z) ==> lt(x, y) || lt(y, z))
  }

  ghost predicate Sorted<T>(s: seq<T>, lt: (T, T) -> bool) {
    forall i, j :: 0 <= i < j < |s| ==> !lt(s[j], s[i])
  }

  ghost predicate StrictlySorted<T>(s: seq<T>, lt: (T, T) -> bool) {
    forall i, j :: 0 <= i < j < |s| ==> lt(s[i], s[j])
  }

  /** No two positions hold the same key. */
  ghost predicate DistinctKeys<T>(s: seq<T>, lt: (T, T) -> bool) {
    forall i, j :: 0 <= i < j < |s| ==> lt(s[i], s[j]) || lt(s[j], s[i])
  }

  /** Puts `x` behind every element whose key is not greater. */
  function Insert<T>(s: seq<T>, x: T, lt: (T, T) -> bool): (r: seq<T>)
    ensures |r| == |s| + 1
    ensures multiset(r) == multiset(s) + multiset{x}
  {
    if s == [] then [x]
    else if lt(x, s[0]) then [x] + s
    else
      var rest := Insert(s[1..], x, lt);
      assert s == [s[0]] + s[1..];
      [s[0]] + rest
  }

  /** `sorted(xs, key=...)`: stable, by insertion in order of appearance. */
  function Sort<T>(xs: seq<T>, lt: (T, T) -> bool): (r: seq<T>)
    ensures |r| == |xs|
    ensures multiset(r) == multiset(xs)
  {
    if xs == [] then []
    else
      var n := |xs| - 1;
      assert xs == xs[..n] + [xs[n]];
      Insert(Sort(xs[..n], lt), xs[n], lt)
  }

  lemma {:induction false} SortMembers<T>(xs: seq<T>, lt: (T, T) -> bool)
    ensures forall x :: x in Sort(xs, lt) <==> x in xs
  {
    forall x ensures x in Sort(xs, lt) <==> x in xs {
      assert x in Sort(xs, lt) <==> x in multiset(Sort(xs, lt));
      assert x in xs <==> x in multiset(xs);
    }
  }

  lemma CountSnoc<T>(s: seq<T>, x: T)
    requires s != []
    ensures multiset(s)[x] == multiset(s[..|s| - 1])[x] + (if s[|s| - 1] == x then 1 else 0)
  {
    var front, last := s[..|s| - 1], s[|s| - 1];
    assert s == front + [last];
    assert multiset(s) == multiset(front) + multiset{last};
  }

  lemma CountNone<T>(s: seq<T>, x: T)
    requires x !in s
    ensures multiset(s)[x] == 0
  {
    assert x !in multiset(s);
  }

  lemma TwoPlaces<T>(s: seq<T>, i: nat, j: nat)
    requires i < j < |s| && s[i] == s[j]
    ensures multiset(s)[s[i]] >= 2
  {
    assert s == s[..j] + [s[j]] + s[j + 1..];
    assert s[i] == s[..j][i];
    assert s[i] in multiset(s[..j]);
  }

  lemma WithoutPlace<T>(s: seq<T>, j: nat)
    requires j < |s|
    ensures multiset(s) == multiset(s[..j] + s[j + 1..]) + multiset{s[j]}
  {
    assert s == s[..j] + ([s[j]] + s[j + 1..]);
  }

  /** Where the last element of `s` is in `others`. */
  lemma SameRest<T>(s: seq<T>, others: seq<T>) returns (j: nat)
    requires multiset(s) == multiset(others) && s != []
    ensures j < |others| && others[j] == s[|s| - 1]
    ensures multiset(others[..j] + others[j + 1..]) == multiset(s[..|s| - 1])
  {
    var n := |s| - 1;
    assert s[n] in multiset(others);
    j :| 0 <= j < |others| && others[j] == s[n];
    WithoutPlace(s, n);
    WithoutPlace(others, j);
    assert s[..n] + s[n + 1..] == s[..n];
    SameWithout(multiset(s[..n]), multiset(others[..j] + others[j + 1..]), s[n]);
  }

  lemma SameWithout<T>(a: multiset<T>, b: multiset<T>, x: T)
    requires a + multiset{x} == b + multiset{x}
    ensures a == b
  {
    assert a == (a + multiset{x}) - multiset{x};
  }

  lemma {:induction false} InsertSorted<T(!new)>(s: seq<T>, x: T, lt: (T, T) -> bool)
    requires StrictWeak(lt) && Sorted(s, lt)
    ensures Sorted(Insert(s, x, lt), lt)
  {
    if s != [] && !lt(x, s[0]) {
      InsertSorted(s[1..], x, lt);
      var rest := Insert(s[1..], x, lt);
      forall j | 0 <= j < |rest| ensures !lt(rest[j], s[0]) {
        assert rest[j] in multiset(rest);
        if rest[j] != x {
          assert rest[j] in multiset(s[1..]);
          assert rest[j] in s[1..];
        }
      }
    }
  }

  lemma {:induction false} SortSorted<T(!new)>(xs: seq<T>, lt: (T, T) -> bool)
    requires StrictWeak(lt)
    ensures Sorted(Sort(xs, lt), lt)
  {
    if xs != [] {
      var n := |xs| - 1;
      hide StrictWeak, Sorted;
      SortSorted(xs[..n], lt);
      InsertSorted(Sort(xs[..n], lt), xs[n], lt);
    }
  }

  lemma {:induction false} InsertMember<T>(s: seq<T>, x: T, lt: (T, T) -> bool)
    ensures forall y :: y in Insert(s, x, lt) <==> y in s || y == x
  {
    hide Insert;
    forall y ensures y in Insert(s, x, lt) <==> y in s || y == x {
      assert y in Insert(s, x, lt) <==> y in multiset(Insert(s, x, lt));
      assert y in s <==> y in multiset(s);
    }
  }

  lemma {:induction false} InsertStrict<T(!new)>(s: seq<T>, x: T, lt: (T, T) -> bool)
    requires StrictWeak(lt) && StrictlySorted(s, lt)
    requires forall y :: y in s ==> lt(x, y) || lt(y, x)
    ensures StrictlySorted(Insert(s, x, lt), lt)
  {
    if s != [] && !lt(x, s[0]) {
      InsertStrict(s[1..], x, lt);
      var rest := Insert(s[1..], x, lt);
      InsertMember(s[1..], x, lt);
      forall j | 0 <= j < |rest| ensures lt(s[0], rest[j]) {
        assert rest[j] in rest;
      }
    }
  }

  /** Distinct keys come out strictly increasing. */
  lemma {:induction false} SortStrict<T(!new)>(xs: seq<T>, lt: (T, T) -> bool)
    requires StrictWeak(lt) && DistinctKeys(xs, lt)
    ensures StrictlySorted(Sort(xs, lt), lt)
  {
    if xs != [] {
      var n := |xs| - 1;
      SortStrict(xs[..n], lt);
      SortMembers(xs[..n], lt);
      InsertStrict(Sort(xs[..n], lt), xs[n], lt);
    }
  }

  /** A strictly increasing sequence is determined by its elements. */
  lemma {:induction false} StrictUnique<T(!new)>(a: seq<T>, b: seq<T>, lt: (T, T) -> bool)
    requires StrictWeak(lt) && StrictlySorted(a, lt) && StrictlySorted(b, lt)
    requires forall x :: x in a <==> x in b
    ensures a == b
  {
    assert forall x :: x in b <==> x in multiset(b);
    if a == [] {
      assert multiset(b) == multiset{};
    } else {
      assert a[0] in a && b != [];
      assert b[0] in b;
      assert a[0] == b[0];
      forall x ensures x in a[1..] <==> x in b[1..] {
        if x in a[1..] { assert x in a && x != a[0]; }
        if x in b[1..] { assert x in b && x != b[0]; }
      }
      StrictUnique(a[1..], b[1..], lt);
      assert a == [a[0]] + a[1..] && b == [b[0]] + b[1..];
    }
  }

  /** Input order does not matter when keys are distinct. */
  lemma {:induction false} SortSameMembers<T(!new)>(xs: seq<T>, ys: seq<T>, lt: (T, T) -> bool)
    requires StrictWeak(lt) && DistinctKeys(xs, lt) && DistinctKeys(ys, lt)
    requires forall x :: x in xs <==> x in ys
    ensures Sort(xs, lt) == Sort(ys, lt)
  {
    SortStrict(xs, lt);
    SortStrict(ys, lt);
    SortMembers(xs, lt);
    SortMembers(ys, lt);
    StrictUnique(Sort(xs, lt), Sort(ys, lt), lt);
  }

  // ----- stability -----

  /** The elements that come neither before nor behind `x`, in order. */
  function Tied<T>(s: seq<T>, x: T, lt: (T, T) -> bool): seq<T> {
    if s == [] then []
    else (if lt(s[0], x) || lt(x, s[0]) then [] else [s[0]]) + Tied(s[1..], x, lt)
  }

  lemma {:induction false} TiedConcat<T>(s: seq<T>, t: seq<T>, x: T, lt: (T, T) -> bool)
    ensures Tied(s + t, x, lt) == Tied(s, x, lt) + Tied(t, x, lt)
  {
    if s == [] {
      assert s + t == t;
    } else {
      assert (s + t)[1..] == s[1..] + t;
      TiedConcat(s[1..], t, x, lt);
    }
  }

  lemma {:induction false} InsertBehindTies<T(!new)>(s: seq<T>, y: T, x: T, lt: (T, T) -> bool)
    requires StrictWeak(lt) && Sorted(s, lt)
    ensures Tied(Insert(s, y, lt), x, lt) == Tied(s + [y], x, lt)
  {
    TiedConcat(s, [y], x, lt);
    if s != [] {
      if lt(y, s[0]) {
        TiedConcat([y], s, x, lt);
        if !lt(y, x) && !lt(x, y) { NoneTied(s, y, x, lt); }
      } else {
        InsertBehindTies(s[1..], y, x, lt);
        TiedConcat(s[1..], [y], x, lt);
      }
    }
  }

  lemma {:induction false} NoneTied<T(!new)>(s: seq<T>, y: T, x: T, lt: (T, T) -> bool)
    requires StrictWeak(lt) && Sorted(s, lt) && (s != [] ==> lt(y, s[0])) && !lt(y, x) && !lt(x, y)
    ensures Tied(s, x, lt) == []
  {
    if s != [] {
      assert lt(x, s[0]);
      if |s| > 1 { assert !lt(s[1], s[0]); }
      NoneTied(s[1..], y, x, lt);
    }
  }

  /** `sorted` is stable: elements with one key stay in their order. */
  lemma {:induction false} SortIsStable<T(!new)>(xs: seq<T>, x: T, lt: (T, T) -> bool)
    requires StrictWeak(lt)
    ensures Tied(Sort(xs, lt), x, lt) == Tied(xs, x, lt)
  {
    hide StrictWeak, Sorted, Tied, Insert;
    if xs != [] {
      var n := |xs| - 1;
      SortIsStable(xs[..n], x, lt);
      SortSorted(xs[..n], lt);
      InsertBehindTies(Sort(xs[..n], lt), xs[n], x, lt);
      TiedConcat(Sort(xs[..n], lt), [xs[n]], x, lt);
      TiedConcat(xs[..n], [xs[n]], x, lt);
      assert xs == xs[..n] + [xs[n]];
    }
  }
}
