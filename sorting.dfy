/**
 * The sort of the asset listing (src/routes/assets.js): `items.sort` with a
 * comparator that compares one string per item, ascending or descending,
 * and calls equal keys equal. JavaScript's sort is stable, so its result is
 * the stable insertion sort below; the array method sorts in place.
 */
module Sorting {
  import opened JsText

  datatype Direction = Asc | Desc

  /** The comparator is negative: `a` goes before `b`. */
  predicate Before<T>(a: T, b: T, kv: T -> string, dir: Direction) {
    if dir == Asc then LexLess(kv(a), kv(b)) else LexLess(kv(b), kv(a))
  }

  /** Places `x` behind the last element of `s` that it does not go before. */
  function Insert<T>(s: seq<T>, x: T, kv: T -> string, dir: Direction): seq<T> {
    if |s| == 0 then [x]
    else if Before(x, s[|s| - 1], kv, dir) then Insert(s[..|s| - 1], x, kv, dir) + [s[|s| - 1]]
    else s + [x]
  }

  /** The stable sort: the elements inserted one after the other. */
  function SortBy<T>(xs: seq<T>, kv: T -> string, dir: Direction): seq<T> {
    if |xs| == 0 then [] else Insert(SortBy(xs[..|xs| - 1], kv, dir), xs[|xs| - 1], kv, dir)
  }

  /** No element goes before an earlier one. */
  predicate Ordered<T>(s: seq<T>, kv: T -> string, dir: Direction) {
    forall i, j :: 0 <= i < j < |s| ==> !Before(s[j], s[i], kv, dir)
  }

  /** The elements whose key is `k`, in order. */
  function WithKey<T>(s: seq<T>, kv: T -> string, k: string): seq<T> {
    if |s| == 0 then []
    else WithKey(s[..|s| - 1], kv, k) + (if kv(s[|s| - 1]) == k then [s[|s| - 1]] else [])
  }

  /** `a.sort(cmp)`, by insertion in place. */
  method SortInPlace<T>(a: array<T>, kv: T -> string, dir: Direction)
    modifies a
    ensures a[..] == SortBy(old(a[..]), kv, dir)
  {
    ghost var orig := a[..];
    for i := 0 to a.Length
      invariant a[..i] == SortBy(orig[..i], kv, dir)
      invariant a[i..] == orig[i..]
    {
      assert a[i] == orig[i];
      InsertAt(a, i, kv, dir);
      SortStep(orig, kv, dir, i);
    }
    assert orig[..a.Length] == orig;
  }

  /** A new array holding `s`. */
  method ToArray<T>(s: seq<T>) returns (a: array<T>)
    ensures fresh(a) && a[..] == s
  {
    a := new T[|s|](k requires 0 <= k < |s| => s[k]);
  }

  /** Moves `a[i]` down into the sorted part `a[..i]`, shifting up those it goes before. */
  method InsertAt<T>(a: array<T>, i: nat, kv: T -> string, dir: Direction)
    requires i < a.Length
    modifies a
    ensures a[..i + 1] == Insert(old(a[..i]), old(a[i]), kv, dir)
    ensures a[i + 1..] == old(a[i + 1..])
  {
    ghost var s := a[..i];
    ghost var rest := a[i + 1..];
    var x := a[i];
    assert s[..i] == s && s[i..] == [];
    var j := i;
    while j > 0 && Before(x, a[j - 1], kv, dir)
      invariant 0 <= j <= i
      invariant a[..j] == s[..j]
      invariant a[j + 1..i + 1] == s[j..]
      invariant a[i + 1..] == rest
      invariant Insert(s, x, kv, dir) == Insert(s[..j], x, kv, dir) + s[j..]
      decreases j
    {
      InsertShift(s, x, kv, dir, j);
      ghost var b := a[..];
      a[j] := a[j - 1];
      assert a[..] == b[j := b[j - 1]];
      ShiftUp(b, s, rest, j);
      j := j - 1;
    }
    InsertStop(s, x, kv, dir, j);
    ghost var b := a[..];
    a[j] := x;
    assert a[..] == b[j := x];
    Place(b, s, rest, j, x);
  }

  /** Moving `b[j - 1]` up one place keeps the shape of the inner loop. */
  lemma ShiftUp<T>(b: seq<T>, s: seq<T>, rest: seq<T>, j: nat)
    requires 0 < j <= |s| < |b|
    requires b[..j] == s[..j] && b[j + 1..|s| + 1] == s[j..] && b[|s| + 1..] == rest
    ensures var c := b[j := b[j - 1]];
      c[..j - 1] == s[..j - 1] && c[j..|s| + 1] == s[j - 1..] && c[|s| + 1..] == rest
  {
    var c := b[j := b[j - 1]];
    assert c[j..|s| + 1] == [b[j - 1]] + b[j + 1..|s| + 1];
    assert b[j - 1] == s[..j][j - 1];
    assert s[j - 1..] == [s[j - 1]] + s[j..];
  }

  /** Writing `x` into the gap gives the sorted prefix of one more element. */
  lemma Place<T>(b: seq<T>, s: seq<T>, rest: seq<T>, j: nat, x: T)
    requires j <= |s| < |b|
    requires b[..j] == s[..j] && b[j + 1..|s| + 1] == s[j..] && b[|s| + 1..] == rest
    ensures var c := b[j := x];
      c[..|s| + 1] == s[..j] + [x] + s[j..] && c[|s| + 1..] == rest
  {
    var c := b[j := x];
    assert c[..|s| + 1] == c[..j] + [c[j]] + c[j + 1..|s| + 1];
  }

  /** One step of the inner loop: `x` goes before `s[j - 1]`, which moves up one place. */
  lemma InsertShift<T>(s: seq<T>, x: T, kv: T -> string, dir: Direction, j: nat)
    requires 0 < j <= |s| && Before(x, s[j - 1], kv, dir)
    requires Insert(s, x, kv, dir) == Insert(s[..j], x, kv, dir) + s[j..]
    ensures Insert(s, x, kv, dir) == Insert(s[..j - 1], x, kv, dir) + s[j - 1..]
  {
    assert s[..j][..j - 1] == s[..j - 1];
    assert s[j - 1..] == [s[j - 1]] + s[j..];
  }

  /** The inner loop stops where `x` belongs. */
  lemma InsertStop<T>(s: seq<T>, x: T, kv: T -> string, dir: Direction, j: nat)
    requires j <= |s| && (j == 0 || !Before(x, s[j - 1], kv, dir))
    requires Insert(s, x, kv, dir) == Insert(s[..j], x, kv, dir) + s[j..]
    ensures Insert(s, x, kv, dir) == s[..j] + [x] + s[j..]
  {
  }

  /** The sorted prefix grows by one insertion. */
  lemma SortStep<T>(xs: seq<T>, kv: T -> string, dir: Direction, i: nat)
    requires i < |xs|
    ensures SortBy(xs[..i + 1], kv, dir) == Insert(SortBy(xs[..i], kv, dir), xs[i], kv, dir)
  {
    assert xs[..i + 1][..i] == xs[..i];
  }

  // ---------- properties ----------

  /** Insertion keeps the elements. */
  lemma {:induction false} InsertMultiset<T>(s: seq<T>, x: T, kv: T -> string, dir: Direction)
    ensures multiset(Insert(s, x, kv, dir)) == multiset(s) + multiset{x}
    decreases |s|
  {
    if |s| > 0 && Before(x, s[|s| - 1], kv, dir) {
      InsertMultiset(s[..|s| - 1], x, kv, dir);
      assert s == s[..|s| - 1] + [s[|s| - 1]];
    }
  }

  /** The sort is a permutation of its input. */
  lemma {:induction false} SortPermutes<T>(xs: seq<T>, kv: T -> string, dir: Direction)
    ensures multiset(SortBy(xs, kv, dir)) == multiset(xs)
    decreases |xs|
  {
    if |xs| > 0 {
      var init := xs[..|xs| - 1];
      SortPermutes(init, kv, dir);
      InsertMultiset(SortBy(init, kv, dir), xs[|xs| - 1], kv, dir);
      assert xs == init + [xs[|xs| - 1]];
    }
  }

  /** "Does not go before" is transitive. */
  lemma NotBeforeTransitive<T>(a: T, b: T, c: T, kv: T -> string, dir: Direction)
    requires !Before(a, b, kv, dir) && !Before(b, c, kv, dir)
    ensures !Before(a, c, kv, dir)
  {
    if dir == Asc {
      LexLessEqTransitive(kv(c), kv(b), kv(a));
    } else {
      LexLessEqTransitive(kv(a), kv(b), kv(c));
    }
  }

  /** Of two elements, at most one goes before the other. */
  lemma BeforeAsymmetric<T>(a: T, b: T, kv: T -> string, dir: Direction)
    requires Before(a, b, kv, dir)
    ensures !Before(b, a, kv, dir)
  {
    if dir == Asc {
      LexLessAsymmetric(kv(a), kv(b));
    } else {
      LexLessAsymmetric(kv(b), kv(a));
    }
  }

  /** Every element of `Insert(s, x)` is `x` or an element of `s`. */
  lemma {:induction false} InsertFrom<T>(s: seq<T>, x: T, kv: T -> string, dir: Direction, n: nat)
    requires n < |Insert(s, x, kv, dir)|
    ensures Insert(s, x, kv, dir)[n] == x || exists k :: 0 <= k < |s| && s[k] == Insert(s, x, kv, dir)[n]
    decreases |s|
  {
    if |s| > 0 {
      var init := s[..|s| - 1];
      if Before(x, s[|s| - 1], kv, dir) {
        var ins := Insert(init, x, kv, dir);
        if n < |ins| {
          InsertFrom(init, x, kv, dir, n);
          if ins[n] != x {
            var k :| 0 <= k < |init| && init[k] == ins[n];
            assert s[k] == init[k];
          }
        } else {
          assert s[|s| - 1] == Insert(s, x, kv, dir)[n];
        }
      } else if n < |s| {
        assert s[n] == Insert(s, x, kv, dir)[n];
      }
    }
  }

  /** Inserting into an ordered sequence keeps it ordered. */
  lemma {:induction false} InsertOrdered<T>(s: seq<T>, x: T, kv: T -> string, dir: Direction)
    requires Ordered(s, kv, dir)
    ensures Ordered(Insert(s, x, kv, dir), kv, dir)
    decreases |s|
  {
    if |s| > 0 {
      var last := s[|s| - 1];
      var init := s[..|s| - 1];
      if Before(x, last, kv, dir) {
        InsertOrdered(init, x, kv, dir);
        var ins := Insert(init, x, kv, dir);
        BeforeAsymmetric(x, last, kv, dir);
        forall n | 0 <= n < |ins|
          ensures !Before(last, ins[n], kv, dir)
        {
          InsertFrom(init, x, kv, dir, n);
          if ins[n] != x {
            var k :| 0 <= k < |init| && init[k] == ins[n];
            assert s[k] == ins[n];
          }
        }
        AppendOrdered(ins, last, kv, dir);
      } else {
        forall k | 0 <= k < |s|
          ensures !Before(x, s[k], kv, dir)
        {
          if k < |s| - 1 {
            NotBeforeTransitive(x, last, s[k], kv, dir);
          }
        }
        AppendOrdered(s, x, kv, dir);
      }
    }
  }

  /** An element that goes before none of an ordered sequence may follow it. */
  lemma AppendOrdered<T>(s: seq<T>, x: T, kv: T -> string, dir: Direction)
    requires Ordered(s, kv, dir)
    requires forall k :: 0 <= k < |s| ==> !Before(x, s[k], kv, dir)
    ensures Ordered(s + [x], kv, dir)
  {
    var t := s + [x];
    forall i, j | 0 <= i < j < |t|
      ensures !Before(t[j], t[i], kv, dir)
    {
      if j == |s| {
        assert t[i] == s[i];
      } else {
        assert t[i] == s[i] && t[j] == s[j];
      }
    }
  }

  /** The sort orders its result by the key in the requested direction. */
  lemma {:induction false} SortOrders<T>(xs: seq<T>, kv: T -> string, dir: Direction)
    ensures Ordered(SortBy(xs, kv, dir), kv, dir)
    decreases |xs|
  {
    if |xs| > 0 {
      SortOrders(xs[..|xs| - 1], kv, dir);
      InsertOrdered(SortBy(xs[..|xs| - 1], kv, dir), xs[|xs| - 1], kv, dir);
    }
  }

  /** Inserting `x` puts it behind every element with its key and leaves the others in order. */
  lemma {:induction false} InsertWithKey<T>(s: seq<T>, x: T, kv: T -> string, dir: Direction, k: string)
    ensures WithKey(Insert(s, x, kv, dir), kv, k) == WithKey(s, kv, k) + (if kv(x) == k then [x] else [])
    decreases |s|
  {
    if |s| == 0 {
      assert [x][..0] == [];
    } else {
      var last := s[|s| - 1];
      var init := s[..|s| - 1];
      if Before(x, last, kv, dir) {
        InsertWithKey(init, x, kv, dir, k);
        var ins := Insert(init, x, kv, dir);
        assert (ins + [last])[..|ins|] == ins;
        if kv(x) == k && kv(last) == k {
          LexLessIrreflexive(k);
        }
      } else {
        assert (s + [x])[..|s|] == s;
      }
    }
  }

  /** The sort is stable: the elements of equal key keep their input order. */
  lemma {:induction false} SortStable<T>(xs: seq<T>, kv: T -> string, dir: Direction, k: string)
    ensures WithKey(SortBy(xs, kv, dir), kv, k) == WithKey(xs, kv, k)
    decreases |xs|
  {
    if |xs| > 0 {
      SortStable(xs[..|xs| - 1], kv, dir, k);
      InsertWithKey(SortBy(xs[..|xs| - 1], kv, dir), xs[|xs| - 1], kv, dir, k);
    }
  }

  /** When every item has the same key the comparator always returns 0 and the order stays as it was. */
  lemma {:induction false} SameKeyKeepsOrder<T>(xs: seq<T>, kv: T -> string, dir: Direction, c: string)
    requires forall i :: 0 <= i < |xs| ==> kv(xs[i]) == c
    ensures SortBy(xs, kv, dir) == xs
    decreases |xs|
  {
    if |xs| > 0 {
      var init := xs[..|xs| - 1];
      SameKeyKeepsOrder(init, kv, dir, c);
      LexLessIrreflexive(c);
      if |init| > 0 {
        assert kv(init[|init| - 1]) == c;
      }
      assert init + [xs[|xs| - 1]] == xs;
    }
  }
}
