/** Facts about sequences and finite sets that the model needs in several places. */
module Collections {
  ghost predicate Distinct<T(!new)>(xs: seq<T>) {
    forall i, j :: 0 <= i < j < |xs| ==> xs[i] != xs[j]
  }

  lemma {:induction false} SubsetSize<T>(small: set<T>, large: set<T>)
    requires small <= large
    ensures |small| <= |large|
    ensures |small| == |large| ==> small == large
  {
    assert large == small + (large - small);
    assert |large| == |small| + |large - small|;
    if |small| == |large| {
      assert large - small == {};
    }
  }

  /** Two disjoint subsets whose sizes add up to the whole are a partition of it. */
  lemma {:induction false} PartitionBySize<T>(left: set<T>, right: set<T>, whole: set<T>)
    requires left <= whole && right <= whole && left !! right
    requires |left| + |right| == |whole|
    ensures left + right == whole
  {
    assert |left + right| == |left| + |right|;
    SubsetSize(left + right, whole);
  }

  lemma {:induction false} Peel<T>(p: seq<T>, x: seq<T>, y: seq<T>)
    requires p + x == p + y
    ensures x == y
  {
    assert (p + x)[|p|..] == x && (p + y)[|p|..] == y;
  }

  lemma {:induction false} Regroup2<T>(a: seq<T>, b: seq<T>, x: seq<T>)
    ensures a + b + x == a + (b + x)
  {
  }

  lemma {:induction false} Regroup3<T>(a: seq<T>, b: seq<T>, c: seq<T>, x: seq<T>)
    ensures a + b + c + x == a + (b + (c + x))
  {
  }

  lemma {:induction false} Regroup4<T>(a: seq<T>, b: seq<T>, c: seq<T>, d: seq<T>, x: seq<T>)
    ensures a + b + c + d + x == a + (b + (c + (d + x)))
  {
  }

  lemma {:induction false} Regroup5<T>(a: seq<T>, b: seq<T>, c: seq<T>, d: seq<T>, f: seq<T>, x: seq<T>)
    ensures a + b + c + d + f + x == a + (b + (c + (d + (f + x))))
  {
  }

  lemma {:induction false} Prepend3<T>(r: seq<T>, a: seq<T>, b: seq<T>, c: seq<T>)
    ensures r + a + b + c == r + (a + b + c)
  {
  }

  lemma {:induction false} Prepend5<T>(r: seq<T>, a: seq<T>, b: seq<T>, c: seq<T>, d: seq<T>, f: seq<T>)
    ensures r + a + b + c + d + f == r + (a + b + c + d + f)
  {
  }
}
