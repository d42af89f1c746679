/** Typed references and the small set helpers of api/shared_contract_v2.go. */
module Refs {
  import opened Collections
  import opened Wrappers

  /** The kinds of reference the verifier tells apart. */
  datatype Kind =
    | Component | CoverageGroup | TestInput | SourceMember | SourceArtifact
    | BundleArtifact | AtomicGroup | Directive
    | Unknown(name: string)

  datatype TypedRef = TypedRef(kind: Kind, scope: string, id: string)

  function RefIds(refs: seq<TypedRef>): (ids: seq<string>)
    ensures |ids| == |refs| && forall i :: 0 <= i < |refs| ==> ids[i] == refs[i].id
  {
    seq(|refs|, i requires 0 <= i < |refs| => refs[i].id)
  }

  function IdSet(refs: seq<TypedRef>): set<string> {
    set i | 0 <= i < |refs| :: refs[i].id
  }

  /** Every reference has the kind and scope and names something in the index. */
  predicate AllRefer(refs: seq<TypedRef>, kind: Kind, scope: string, index: set<string>) {
    forall i :: 0 <= i < |refs| ==> refs[i].kind == kind && refs[i].scope == scope && refs[i].id in index
  }

  /** A list holds exactly the elements of a set, once each. */
  ghost predicate Lists(xs: seq<string>, elements: set<string>) {
    multiset(xs) == multiset(elements)
  }

  lemma {:induction false} ListsMeans(xs: seq<string>, elements: set<string>)
    ensures Lists(xs, elements) <==> Distinct(xs) && (set x | x in xs) == elements
  {
    if Lists(xs, elements) {
      forall x ensures x in xs <==> x in elements {
        assert x in multiset(xs) <==> x in multiset(elements);
      }
      forall i, j | 0 <= i < j < |xs| ensures xs[i] != xs[j] {
        if xs[i] == xs[j] {
          TwiceInMultiset(xs, i, j);
        }
      }
    }
    if Distinct(xs) && (set x | x in xs) == elements {
      DistinctMultiset(xs);
      forall x ensures multiset(xs)[x] == multiset(elements)[x] {
        assert x in multiset(xs) <==> x in xs;
      }
    }
  }

  lemma {:induction false} TwiceInMultiset(xs: seq<string>, i: nat, j: nat)
    requires i < j < |xs| && xs[i] == xs[j]
    ensures multiset(xs)[xs[i]] >= 2
  {
    assert xs == xs[..j] + [xs[j]] + xs[j + 1..];
    assert xs[i] in xs[..j];
    assert multiset(xs) == multiset(xs[..j]) + multiset([xs[j]]) + multiset(xs[j + 1..]);
    assert multiset(xs[..j])[xs[i]] >= 1;
  }

  lemma {:induction false} DistinctMultiset(xs: seq<string>)
    requires Distinct(xs)
    ensures forall x :: multiset(xs)[x] <= 1
    decreases |xs|
  {
    if xs != [] {
      var init, last := xs[..|xs| - 1], xs[|xs| - 1];
      DistinctMultiset(init);
      assert xs == init + [last];
      assert multiset(xs) == multiset(init) + multiset{last};
      assert last !in init;
      assert last !in multiset(init);
    }
  }

  /** Distinct lists have as many elements as their sets. */
  lemma {:induction false} DistinctSize(xs: seq<string>)
    requires Distinct(xs)
    ensures |set x | x in xs| == |xs|
    decreases |xs|
  {
    if xs != [] {
      var init, last := xs[..|xs| - 1], xs[|xs| - 1];
      DistinctSize(init);
      assert (set x | x in xs) == (set x | x in init) + {last};
      assert last !in init;
    }
  }

  lemma {:induction false} SubMultiset(small: multiset<string>, large: multiset<string>)
    requires small <= large && |small| == |large|
    ensures small == large
  {
    assert large == small + (large - small);
    assert |large - small| == 0;
  }

  function Count(seen: map<string, int>, x: string): int {
    if x in seen then seen[x] else 0
  }

  lemma {:induction false} OneMore(xs: seq<string>, i: nat, x: string)
    requires i < |xs|
    ensures multiset(xs[..i + 1])[x] == multiset(xs[..i])[x] + (if xs[i] == x then 1 else 0)
    ensures multiset(xs[..i + 1])[x] <= multiset(xs)[x]
  {
    assert xs[..i + 1] == xs[..i] + [xs[i]];
    assert xs == xs[..i + 1] + xs[i + 1..];
    assert multiset(xs) == multiset(xs[..i + 1]) + multiset(xs[i + 1..]);
  }

  /** sameStringSetLocal: despite its name it compares with multiplicity. */
  method SameStringSet(a: seq<string>, b: seq<string>) returns (same: bool)
    ensures same <==> multiset(a) == multiset(b)
  {
    if |a| != |b| {
      assert |multiset(a)| != |multiset(b)|;
      return false;
    }
    var seen: map<string, int> := map[];
    for i := 0 to |a|
      invariant forall x :: Count(seen, x) == multiset(a[..i])[x]
    {
      ghost var before := seen;
      seen := seen[a[i] := Count(seen, a[i]) + 1];
      forall x ensures Count(seen, x) == multiset(a[..i + 1])[x] {
        OneMore(a, i, x);
        assert Count(before, x) == multiset(a[..i])[x];
      }
    }
    assert a[..|a|] == a;
    for j := 0 to |b|
      invariant forall x :: Count(seen, x) + multiset(b[..j])[x] == multiset(a)[x]
      invariant forall x :: Count(seen, x) >= 0
    {
      forall x ensures multiset(b[..j + 1])[x] == multiset(b[..j])[x] + (if b[j] == x then 1 else 0) {
        OneMore(b, j, x);
      }
      seen := seen[b[j] := Count(seen, b[j]) - 1];
      if seen[b[j]] < 0 {
        OneMore(b, j, b[j]);
        return false;
      }
    }
    assert b[..|b|] == b;
    forall x ensures multiset(b)[x] <= multiset(a)[x] {
      assert Count(seen, x) + multiset(b)[x] == multiset(a)[x];
    }
    SubMultiset(multiset(b), multiset(a));
    return true;
  }

  /** The order of sort.Strings: character by character. */
  predicate Before(a: string, b: string)
    decreases |a|
  {
    b != "" && (a == "" || a[0] < b[0] || (a[0] == b[0] && Before(a[1..], b[1..])))
  }

  lemma {:induction false} BeforeIsTotal(a: string, b: string)
    ensures Before(a, b) || a == b || Before(b, a)
    decreases |a|
  {
    if a != "" && b != "" && a[0] == b[0] {
      BeforeIsTotal(a[1..], b[1..]);
      assert a == [a[0]] + a[1..] && b == [b[0]] + b[1..];
    }
  }

  lemma {:induction false} BeforeIsTransitive(a: string, b: string, c: string)
    requires Before(a, b) && Before(b, c)
    ensures Before(a, c)
    decreases |a|
  {
    if a != "" && a[0] == b[0] == c[0] {
      BeforeIsTransitive(a[1..], b[1..], c[1..]);
    }
  }

  predicate IsFirst(elements: set<string>, x: string) {
    x in elements && forall y :: y in elements ==> y == x || Before(x, y)
  }

  lemma {:induction false} FirstExists(elements: set<string>)
    requires elements != {}
    ensures exists x :: IsFirst(elements, x)
    decreases elements
  {
    var some :| some in elements;
    if elements == {some} {
      assert IsFirst(elements, some);
    } else {
      var rest := elements - {some};
      FirstExists(rest);
      var x :| IsFirst(rest, x);
      BeforeIsTotal(some, x);
      var first := if Before(some, x) then some else x;
      forall y | y in elements && y != first ensures Before(first, y) {
        if y != some && first == some && y != x {
          BeforeIsTransitive(some, x, y);
        }
      }
      assert IsFirst(elements, first);
    }
  }

  ghost predicate Sorted(xs: seq<string>) {
    forall i, j :: 0 <= i < j < |xs| ==> Before(xs[i], xs[j])
  }

  /** keys: the elements of a set in order, once each. */
  method Keys(elements: set<string>) returns (out: seq<string>)
    ensures Lists(out, elements) && Sorted(out)
  {
    hide Before;
    out := [];
    var rest := elements;
    while rest != {}
      invariant rest <= elements
      invariant multiset(out) == multiset(elements - rest)
      invariant Sorted(out) && forall i, y :: 0 <= i < |out| && y in rest ==> Before(out[i], y)
      decreases rest
    {
      FirstExists(rest);
      var x :| x in rest && IsFirst(rest, x);
      assert elements - (rest - {x}) == (elements - rest) + {x};
      assert multiset(elements - (rest - {x})) == multiset(elements - rest) + multiset{x};
      rest := rest - {x};
      out := out + [x];
    }
    assert elements - rest == elements;
  }

  /** What checkedRefs accepts: the right kind and scope, known, and no name twice. */
  ghost predicate Checked(refs: seq<TypedRef>, kind: Kind, scope: string, index: set<string>) {
    AllRefer(refs, kind, scope, index) && Distinct(RefIds(refs))
  }

  method CheckedRefs(refs: seq<TypedRef>, kind: Kind, scope: string, index: set<string>)
    returns (ids: Option<seq<string>>)
    ensures ids.Some? <==> Checked(refs, kind, scope, index)
    ensures ids.Some? <==>
              && (forall i :: 0 <= i < |refs| ==> refs[i].kind == kind && refs[i].scope == scope && refs[i].id in index)
              && (forall i, j :: 0 <= i < j < |refs| ==> refs[i].id != refs[j].id)
    ensures ids.Some? ==> ids.value == RefIds(refs)
  {
    var seen: set<string> := {};
    var out: seq<string> := [];
    for i := 0 to |refs|
      invariant out == RefIds(refs)[..i]
      invariant seen == set k | 0 <= k < i :: refs[k].id
      invariant AllRefer(refs[..i], kind, scope, index) && Distinct(out)
    {
      if refs[i].kind != kind || refs[i].scope != scope {
        return None;
      }
      if refs[i].id !in index || refs[i].id in seen {
        if refs[i].id in seen {
          var k :| 0 <= k < i && refs[k].id == refs[i].id;
          assert RefIds(refs)[k] == RefIds(refs)[i];
        }
        return None;
      }
      seen := seen + {refs[i].id};
      out := out + [refs[i].id];
    }
    assert refs[..|refs|] == refs;
    return Some(out);
  }

  // ----- sets collected along a list -----------------------------------------------------------

  function UnionOver<T>(items: seq<T>, part: T -> set<string>): set<string>
    decreases |items|
  {
    if items == [] then {} else UnionOver(items[..|items| - 1], part) + part(items[|items| - 1])
  }

  lemma {:induction false} UnionGrows<T>(items: seq<T>, part: T -> set<string>, i: nat)
    requires i < |items|
    ensures UnionOver(items[..i + 1], part) == UnionOver(items[..i], part) + part(items[i])
  {
    assert items[..i + 1][..i] == items[..i];
  }

  lemma {:induction false} InUnion<T>(items: seq<T>, part: T -> set<string>, x: string)
    ensures x in UnionOver(items, part) <==> exists i :: 0 <= i < |items| && x in part(items[i])
    decreases |items|
  {
    if items != [] {
      var init := items[..|items| - 1];
      InUnion(init, part, x);
      if i :| 0 <= i < |init| && x in part(init[i]) {
        assert x in part(items[i]);
      }
      if i :| 0 <= i < |items| && x in part(items[i]) && i < |init| {
        assert x in part(init[i]);
      }
    }
  }

  lemma {:induction false} UnionWithin<T>(items: seq<T>, part: T -> set<string>, whole: set<string>)
    requires forall i :: 0 <= i < |items| ==> part(items[i]) <= whole
    ensures UnionOver(items, part) <= whole
    decreases |items|
  {
    if items != [] {
      UnionWithin(items[..|items| - 1], part, whole);
    }
  }

  // ----- lists indexed by an identifier --------------------------------------------------------

  /** Identifiers are present and used once. */
  ghost predicate Identified(ids: seq<string>) {
    Distinct(ids) && forall i :: 0 <= i < |ids| ==> ids[i] != ""
  }

  function Ids<T>(items: seq<T>, key: T -> string): (ids: seq<string>)
    ensures |ids| == |items| && forall i :: 0 <= i < |ids| ==> ids[i] == key(items[i])
  {
    seq(|items|, i requires 0 <= i < |items| => key(items[i]))
  }

  function Index<T>(items: seq<T>, key: T -> string): (index: map<string, T>)
    ensures index.Keys == set i | 0 <= i < |items| :: key(items[i])
    decreases |items|
  {
    if items == [] then map[]
    else
      var last := items[|items| - 1];
      Index(items[..|items| - 1], key)[key(last) := last]
  }

  lemma {:induction false} LastIsNew<T>(items: seq<T>, key: T -> string)
    requires items != [] && Distinct(Ids(items, key))
    ensures var init := items[..|items| - 1];
            Distinct(Ids(init, key)) && forall i :: 0 <= i < |init| ==> key(init[i]) != key(items[|items| - 1])
  {
    var init := items[..|items| - 1];
    assert forall i :: 0 <= i < |init| ==> Ids(init, key)[i] == Ids(items, key)[i];
    forall i | 0 <= i < |init| ensures key(init[i]) != key(items[|init|]) {
      assert Ids(items, key)[i] != Ids(items, key)[|init|];
    }
  }

  lemma {:induction false} IndexSize<T>(items: seq<T>, key: T -> string)
    requires Distinct(Ids(items, key))
    ensures |Index(items, key)| == |items|
    decreases |items|
  {
    hide Distinct, Ids;
    if items != [] {
      LastIsNew(items, key);
      IndexSize(items[..|items| - 1], key);
      assert key(items[|items| - 1]) !in Index(items[..|items| - 1], key);
    }
  }

  lemma {:induction false} IndexLookup<T>(items: seq<T>, key: T -> string, i: nat)
    requires Distinct(Ids(items, key)) && i < |items|
    ensures key(items[i]) in Index(items, key) && Index(items, key)[key(items[i])] == items[i]
    decreases |items|
  {
    hide Distinct, Ids;
    if i < |items| - 1 {
      LastIsNew(items, key);
      IndexLookup(items[..|items| - 1], key, i);
      assert items[..|items| - 1][i] == items[i];
    }
  }

  /** An index of identified items finds each of them under its identifier, and nothing else. */
  lemma {:induction false} IndexFinds<T>(items: seq<T>, key: T -> string)
    requires Distinct(Ids(items, key))
    ensures forall i :: 0 <= i < |items| ==>
              key(items[i]) in Index(items, key) && Index(items, key)[key(items[i])] == items[i]
    ensures |Index(items, key)| == |items|
  {
    hide Distinct, Ids, Index;
    IndexSize(items, key);
    forall i | 0 <= i < |items|
      ensures key(items[i]) in Index(items, key) && Index(items, key)[key(items[i])] == items[i]
    {
      IndexLookup(items, key, i);
    }
  }

  /** The loops that build an index, rejecting an empty or repeated identifier. */
  method BuildIndex<T>(items: seq<T>, key: T -> string) returns (index: Option<map<string, T>>)
    ensures index.Some? <==> Identified(Ids(items, key))
    ensures index.Some? ==> index.value == Index(items, key)
  {
    var built: map<string, T> := map[];
    for i := 0 to |items|
      invariant Identified(Ids(items, key)[..i])
      invariant built == Index(items[..i], key)
    {
      assert items[..i + 1][..i] == items[..i];
      if key(items[i]) == "" || key(items[i]) in built {
        return None;
      }
      built := built[key(items[i]) := items[i]];
    }
    assert items[..|items|] == items;
    return Some(built);
  }
}
