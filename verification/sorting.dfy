/** Python's `sorted` on a list of strings, as a functional insertion sort
    under the code-point order of module Text. */
module Sorting {
  import opened Text

  /** Every element is `<=` every later one. */
  ghost predicate Sorted(xs: seq<string>) {
    forall i, j :: 0 <= i < j < |xs| ==> Below(xs[i], xs[j])
  }

  /** No element occurs twice. */
  ghost predicate Distinct(xs: seq<string>) {
    forall i, j :: 0 <= i < j < |xs| ==> xs[i] != xs[j]
  }

  /** Inserts `x` into the sorted `xs` before the first element it is `<=`. */
  function Insert(x: string, xs: seq<string>): (r: seq<string>)
    requires Sorted(xs)
    ensures Sorted(r)
    ensures multiset(r) == multiset(xs) + multiset{x}
  {
    if xs == [] then [x]
    else if Below(x, xs[0]) then
      assert Sorted([x] + xs) by {
        forall j | 0 <= j < |xs|
          ensures Below(x, xs[j])
        {
          if j > 0 {
            BelowTransitive(x, xs[0], xs[j]);
          }
        }
        forall i, j | 0 <= i < j < |xs| + 1
          ensures Below(([x] + xs)[i], ([x] + xs)[j])
        {
          if i == 0 {
            assert ([x] + xs)[j] == xs[j - 1];
          }
        }
      }
      [x] + xs
    else
      assert xs == [xs[0]] + xs[1..];
      var tail := Insert(x, xs[1..]);
      BelowTotal(x, xs[0]);
      assert forall e :: e in multiset(tail) ==> Below(xs[0], e) by {
        forall e | e in multiset(tail)
          ensures Below(xs[0], e)
        {
          if e != x {
            assert e in multiset(xs[1..]);
            var j :| 0 <= j < |xs[1..]| && xs[1..][j] == e;
            assert xs[j + 1] == e;
          }
        }
      }
      assert Sorted([xs[0]] + tail) by {
        forall i, j | 0 <= i < j < |tail| + 1
          ensures Below(([xs[0]] + tail)[i], ([xs[0]] + tail)[j])
        {
          if i == 0 {
            assert tail[j - 1] in multiset(tail);
          }
        }
      }
      [xs[0]] + tail
  }

  /** Python's `sorted(xs)`: the same strings, in ascending order. */
  function Sort(xs: seq<string>): (r: seq<string>)
    ensures Sorted(r)
    ensures multiset(r) == multiset(xs)
  {
    if xs == [] then []
    else
      assert xs == [xs[0]] + xs[1..];
      Insert(xs[0], Sort(xs[1..]))
  }

  /** A string occurs at most once in a list without duplicates. */
  lemma {:induction false} DistinctCount(xs: seq<string>, v: string)
    requires Distinct(xs)
    ensures multiset(xs)[v] <= 1
  {
    if xs != [] {
      assert xs == [xs[0]] + xs[1..];
      DistinctCount(xs[1..], v);
      if xs[0] == v {
        assert v !in xs[1..];
      }
    }
  }

  /** Rearranging a list without duplicates gives a list without duplicates. */
  lemma DistinctPermutation(xs: seq<string>, ys: seq<string>)
    requires Distinct(xs) && multiset(xs) == multiset(ys)
    ensures Distinct(ys)
  {
    forall i, j | 0 <= i < j < |ys|
      ensures ys[i] != ys[j]
    {
      if ys[i] == ys[j] {
        var v := ys[i];
        assert ys == ys[..j] + ys[j..];
        assert v in ys[..j];
        assert v in ys[j..];
        assert multiset(ys)[v] == multiset(ys[..j])[v] + multiset(ys[j..])[v];
        DistinctCount(xs, v);
        assert false;
      }
    }
  }

  /** Sorting keeps exactly the strings that were there. */
  lemma SortSameElements(xs: seq<string>)
    ensures forall c :: c in Sort(xs) <==> c in xs
  {
    forall c
      ensures c in Sort(xs) <==> c in xs
    {
      assert c in Sort(xs) <==> c in multiset(Sort(xs));
      assert c in xs <==> c in multiset(xs);
    }
  }

  /** Sorting a list without duplicates leaves it strictly ascending, so the
      order on the result is that of the code points and no two entries tie. */
  lemma SortDistinct(xs: seq<string>)
    requires Distinct(xs)
    ensures Distinct(Sort(xs))
    ensures forall i, j :: 0 <= i < j < |Sort(xs)| ==> Below(Sort(xs)[i], Sort(xs)[j]) && !Below(Sort(xs)[j], Sort(xs)[i])
  {
    var r := Sort(xs);
    DistinctPermutation(xs, r);
    forall i, j | 0 <= i < j < |r|
      ensures !Below(r[j], r[i])
    {
      if Below(r[j], r[i]) {
        BelowAntisymmetric(r[i], r[j]);
      }
    }
  }
}
