/** Small facts about finite sets used by the accounting and export models. */
module Sets {

  /** The image of a set under a function. */
  function Image<A, B>(xs: set<A>, f: A -> B): (ys: set<B>)
    ensures forall x :: x in xs ==> f(x) in ys
    ensures forall y :: y in ys ==> exists x :: x in xs && y == f(x)
  {
    set x | x in xs :: f(x)
  }

  /** An injective image of a finite set has as many elements as the set. */
  lemma {:induction false} InjectiveImageCard<A, B>(xs: set<A>, f: A -> B)
    requires forall x, y :: x in xs && y in xs && f(x) == f(y) ==> x == y
    ensures |Image(xs, f)| == |xs|
    decreases |xs|
  {
    if x :| x in xs {
      var rest := xs - {x};
      InjectiveImageCard(rest, f);
      assert Image(xs, f) == Image(rest, f) + {f(x)};
    }
  }

  /** The sizes of disjoint sets add up. */
  lemma DisjointUnionCard<A>(xs: set<A>, ys: set<A>)
    requires xs * ys == {}
    ensures |xs + ys| == |xs| + |ys|
  {
  }

  /** Every finite set of integers that holds some `w` has a least element. */
  lemma {:induction false} MinExists(xs: set<int>, w: int)
    requires w in xs
    ensures exists m :: m in xs && forall y :: y in xs ==> m <= y
    decreases |xs|
  {
    var rest := xs - {w};
    if z :| z in rest {
      MinExists(rest, z);
      var m :| m in rest && forall y :: y in rest ==> m <= y;
      var least := if w < m then w else m;
      forall y | y in xs
        ensures least <= y
      {
        if y != w {
          assert y in rest;
        }
      }
      assert least in xs;
    } else {
      forall y | y in xs
        ensures w <= y
      {
        assert y !in rest;
      }
    }
  }

  /** The elements of a finite set of integers in ascending order, as Go's `sort.Ints` leaves them. */
  method SortedElements(xs: set<int>) returns (r: seq<int>)
    ensures forall i, j :: 0 <= i < j < |r| ==> r[i] < r[j]
    ensures forall x :: x in r <==> x in xs
  {
    r := [];
    var rest := xs;
    while exists w :: w in rest
      invariant forall i, j :: 0 <= i < j < |r| ==> r[i] < r[j]
      invariant forall x :: x in xs <==> x in r || x in rest
      invariant forall x :: x in rest ==> x !in r
      invariant forall i, y :: 0 <= i < |r| && y in rest ==> r[i] < y
      decreases |rest|
    {
      var w :| w in rest;
      MinExists(rest, w);
      var m :| m in rest && forall y :: y in rest ==> m <= y;
      r := r + [m];
      rest := rest - {m};
    }
  }
}
