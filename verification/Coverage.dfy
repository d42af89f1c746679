/**
 sharedCoverageRequirements of api/shared_contract_v2.go: a depth-first walk over the coverage graph that collects
 the inputs and source members a reference stands for and rejects cycles. Walk is the walk; what it decides and
 what it returns is stated over paths, without mentioning a walk.
 */
module Coverage {
  import opened Collections
  import opened Wrappers
  import opened Refs

  datatype Component = Component(componentId: string, inputRefs: seq<TypedRef>, sourceMemberRefs: seq<TypedRef>)

  datatype Group = Group(groupId: string, memberRefs: seq<TypedRef>, sourceMemberRefs: seq<TypedRef>)

  /** The coverage graph once its two indexes are built. */
  datatype Graph = Graph(scope: string, components: map<string, Component>, groups: map<string, Group>)

  datatype Found = Found(inputs: set<string>, members: set<string>) {
    function Plus(other: Found): Found {
      Found(inputs + other.inputs, members + other.members)
    }
  }

  const NOTHING: Found := Found({}, {})

  // ----- what the walk decides, over paths -----------------------------------------------------

  /** The references below a coverage group. */
  function Children(g: Graph, ref: TypedRef): seq<TypedRef> {
    if ref.kind.CoverageGroup? && ref.id in g.groups then g.groups[ref.id].memberRefs else []
  }

  /** A path down the graph from a reference. */
  ghost predicate Path(g: Graph, from: TypedRef, p: seq<TypedRef>)
    decreases |p|
  {
    && |p| > 0 && p[0] == from
    && (|p| > 1 ==> p[1] in Children(g, from) && Path(g, p[1], p[1..]))
  }

  ghost predicate ReachesInput(g: Graph, from: TypedRef, input: string) {
    exists p :: Path(g, from, p) && InputAt(g, p[|p| - 1], input)
  }

  ghost predicate ReachesMember(g: Graph, from: TypedRef, member: string) {
    exists p :: Path(g, from, p) && MemberAt(g, p[|p| - 1], member)
  }

  ghost predicate InputAt(g: Graph, ref: TypedRef, input: string) {
    ref.kind.Component? && ref.id in g.components && input in RefIds(g.components[ref.id].inputRefs)
  }

  ghost predicate MemberAt(g: Graph, ref: TypedRef, member: string) {
    ref.kind.Component? && ref.id in g.components && member in RefIds(g.components[ref.id].sourceMemberRefs)
  }

  predicate OfKind(refs: seq<TypedRef>, kind: Kind, scope: string) {
    forall i :: 0 <= i < |refs| ==> refs[i].kind == kind && refs[i].scope == scope
  }

  /** The reference is in scope and names a known component or group whose own references are in order. */
  predicate Known(g: Graph, ref: TypedRef) {
    && ref.scope == g.scope
    && match ref.kind
       case Component =>
         && ref.id in g.components
         && OfKind(g.components[ref.id].inputRefs, TestInput, g.scope)
         && OfKind(g.components[ref.id].sourceMemberRefs, SourceMember, g.scope)
       case CoverageGroup => ref.id in g.groups
       case _ => false
  }

  /** A group lists exactly the source members below it, each once. */
  ghost predicate AncestryAgrees(g: Graph, ref: TypedRef) {
    ref.kind.CoverageGroup? && ref.id in g.groups ==>
      var listed := RefIds(g.groups[ref.id].sourceMemberRefs);
      Distinct(listed) && forall m :: m in listed <==> ReachesMember(g, ref, m)
  }

  /** The groups met along a path are all different, and none is one of those already being visited. */
  ghost predicate NoGroupTwice(p: seq<TypedRef>, visiting: set<string>) {
    && (forall i, j :: 0 <= i < j < |p| && p[i].kind.CoverageGroup? && p[j].kind.CoverageGroup? ==> p[i].id != p[j].id)
    && (forall i :: 0 <= i < |p| && p[i].kind.CoverageGroup? ==> p[i].id !in visiting)
  }

  ghost predicate PathInOrder(g: Graph, p: seq<TypedRef>, visiting: set<string>)
    requires |p| > 0
  {
    Known(g, p[|p| - 1]) && NoGroupTwice(p, visiting) && AncestryAgrees(g, p[|p| - 1])
  }

  /** Everything reachable is known and in scope, no path meets a group twice, and every reachable group agrees with
      its source ancestry. */
  ghost predicate InOrder(g: Graph, from: TypedRef, visiting: set<string>) {
    forall p :: Path(g, from, p) ==> PathInOrder(g, p, visiting)
  }

  // ----- the walk ------------------------------------------------------------------------------

  function Walk(g: Graph, ref: TypedRef, visiting: set<string>): Result<Found>
    decreases |g.groups.Keys - visiting|, 0
  {
    if ref.scope != g.scope then Err
    else match ref.kind
      case Component =>
        if !Known(g, ref) then Err
        else
          var c := g.components[ref.id];
          Ok(Found(set i | 0 <= i < |c.inputRefs| :: c.inputRefs[i].id,
                   set i | 0 <= i < |c.sourceMemberRefs| :: c.sourceMemberRefs[i].id))
      case CoverageGroup =>
        if ref.id in visiting || ref.id !in g.groups then Err
        else
          var group := g.groups[ref.id];
          assert g.groups.Keys - (visiting + {ref.id}) < g.groups.Keys - visiting;
          SubsetSize(g.groups.Keys - (visiting + {ref.id}), g.groups.Keys - visiting);
          (match WalkAll(g, group.memberRefs, visiting + {ref.id})
           case Err => Err
           case Ok(found) =>
             if multiset(found.members) == multiset(RefIds(group.sourceMemberRefs)) then Ok(found) else Err)
      case _ => Err
  }

  function WalkAll(g: Graph, refs: seq<TypedRef>, visiting: set<string>): Result<Found>
    decreases |g.groups.Keys - visiting|, |refs| + 1
  {
    if refs == [] then Ok(NOTHING)
    else match WalkAll(g, refs[..|refs| - 1], visiting)
         case Err => Err
         case Ok(before) =>
           match Walk(g, refs[|refs| - 1], visiting)
           case Err => Err
           case Ok(found) => Ok(before.Plus(found))
  }

  // ----- the walk decides exactly that ---------------------------------------------------------

  ghost predicate FoundIs(g: Graph, from: TypedRef, found: Found) {
    && (forall i :: i in found.inputs <==> ReachesInput(g, from, i))
    && (forall m :: m in found.members <==> ReachesMember(g, from, m))
  }

  lemma {:induction false} PathSplits(g: Graph, from: TypedRef, p: seq<TypedRef>)
    requires Path(g, from, p) && |p| > 1
    ensures p[1] in Children(g, from) && Path(g, p[1], p[1..]) && p == [from] + p[1..]
    ensures p[1..][|p[1..]| - 1] == p[|p| - 1]
  {
  }

  lemma {:induction false} PathExtends(g: Graph, from: TypedRef, child: TypedRef, q: seq<TypedRef>)
    requires child in Children(g, from) && Path(g, child, q)
    ensures Path(g, from, [from] + q) && ([from] + q)[|[from] + q| - 1] == q[|q| - 1]
  {
    assert ([from] + q)[1..] == q;
  }

  lemma {:induction false} InputsThroughChildren(g: Graph, ref: TypedRef, x: string)
    requires ref.kind.CoverageGroup?
    ensures ReachesInput(g, ref, x) <==> exists c :: c in Children(g, ref) && ReachesInput(g, c, x)
  {
    if p :| Path(g, ref, p) && InputAt(g, p[|p| - 1], x) {
      PathSplits(g, ref, p);
      assert ReachesInput(g, p[1], x);
    }
    if c :| c in Children(g, ref) && ReachesInput(g, c, x) {
      var q :| Path(g, c, q) && InputAt(g, q[|q| - 1], x);
      PathExtends(g, ref, c, q);
    }
  }

  lemma {:induction false} MembersThroughChildren(g: Graph, ref: TypedRef, x: string)
    requires ref.kind.CoverageGroup?
    ensures ReachesMember(g, ref, x) <==> exists c :: c in Children(g, ref) && ReachesMember(g, c, x)
  {
    if p :| Path(g, ref, p) && MemberAt(g, p[|p| - 1], x) {
      PathSplits(g, ref, p);
      assert ReachesMember(g, p[1], x);
    }
    if c :| c in Children(g, ref) && ReachesMember(g, c, x) {
      var q :| Path(g, c, q) && MemberAt(g, q[|q| - 1], x);
      PathExtends(g, ref, c, q);
    }
  }

  lemma {:induction false} ComponentReaches(g: Graph, ref: TypedRef, x: string)
    requires !ref.kind.CoverageGroup?
    ensures ReachesInput(g, ref, x) <==> InputAt(g, ref, x)
    ensures ReachesMember(g, ref, x) <==> MemberAt(g, ref, x)
    ensures forall p :: Path(g, ref, p) <==> p == [ref]
  {
    forall p | Path(g, ref, p) ensures p == [ref] {
      if |p| > 1 {
        PathSplits(g, ref, p);
      }
    }
    assert Path(g, ref, [ref]);
    if InputAt(g, ref, x) {
      assert InputAt(g, [ref][|[ref]| - 1], x);
    }
    if MemberAt(g, ref, x) {
      assert MemberAt(g, [ref][|[ref]| - 1], x);
    }
  }

  /** A longer path that starts with a group is in order when what follows is, with the group being visited. */
  lemma {:induction false} PathInOrderSplits(g: Graph, p: seq<TypedRef>, visiting: set<string>)
    requires |p| > 1 && p[0].kind.CoverageGroup?
    ensures PathInOrder(g, p, visiting) <==> p[0].id !in visiting && PathInOrder(g, p[1..], visiting + {p[0].id})
  {
    hide Known, AncestryAgrees;
    var q := p[1..];
    assert forall i :: 0 < i < |p| ==> p[i] == q[i - 1];
    if NoGroupTwice(q, visiting + {p[0].id}) && p[0].id !in visiting {
      forall i, j | 0 <= i < j < |p| && p[i].kind.CoverageGroup? && p[j].kind.CoverageGroup?
        ensures p[i].id != p[j].id {
        assert p[j] == q[j - 1];
      }
    }
  }

  ghost predicate ChildrenInOrder(g: Graph, ref: TypedRef, visiting: set<string>) {
    forall c :: c in Children(g, ref) ==> InOrder(g, c, visiting)
  }

  lemma {:induction false} InOrderBelow(g: Graph, ref: TypedRef, visiting: set<string>)
    requires ref.kind.CoverageGroup? && InOrder(g, ref, visiting)
    ensures Known(g, ref) && ref.id !in visiting && AncestryAgrees(g, ref)
    ensures ChildrenInOrder(g, ref, visiting + {ref.id})
  {
    hide AncestryAgrees, Known, Children;
    assert Path(g, ref, [ref]);
    assert PathInOrder(g, [ref], visiting) && [ref][0] == ref;
    forall c, q | c in Children(g, ref) && Path(g, c, q) ensures PathInOrder(g, q, visiting + {ref.id}) {
      PathExtends(g, ref, c, q);
      PathInOrderSplits(g, [ref] + q, visiting);
      assert ([ref] + q)[1..] == q;
    }
  }

  lemma {:induction false} InOrderAbove(g: Graph, ref: TypedRef, visiting: set<string>)
    requires ref.kind.CoverageGroup? && Known(g, ref) && ref.id !in visiting && AncestryAgrees(g, ref)
    requires ChildrenInOrder(g, ref, visiting + {ref.id})
    ensures InOrder(g, ref, visiting)
  {
    hide AncestryAgrees, Known, Children;
    forall p | Path(g, ref, p) ensures PathInOrder(g, p, visiting) {
      if |p| == 1 {
        assert p == [ref];
      } else {
        PathSplits(g, ref, p);
        PathInOrderSplits(g, p, visiting);
        assert InOrder(g, p[1], visiting + {ref.id});
      }
    }
  }

  /** A group is in order when it is itself and its children are, with the group being visited. */
  lemma {:induction false} GroupInOrder(g: Graph, ref: TypedRef, visiting: set<string>)
    requires ref.kind.CoverageGroup?
    ensures InOrder(g, ref, visiting)
       <==> && Known(g, ref) && ref.id !in visiting && AncestryAgrees(g, ref)
            && ChildrenInOrder(g, ref, visiting + {ref.id})
  {
    hide InOrder, Known, AncestryAgrees, ChildrenInOrder;
    if InOrder(g, ref, visiting) {
      InOrderBelow(g, ref, visiting);
    } else if Known(g, ref) && ref.id !in visiting && AncestryAgrees(g, ref)
        && ChildrenInOrder(g, ref, visiting + {ref.id}) {
      InOrderAbove(g, ref, visiting);
    }
  }

  /** The walk succeeds exactly on references that are in order, and then finds exactly what they reach. */
  lemma {:induction false} WalkDecides(g: Graph, ref: TypedRef, visiting: set<string>)
    ensures Walk(g, ref, visiting).Ok? <==> InOrder(g, ref, visiting)
    ensures Walk(g, ref, visiting).Ok? ==> FoundIs(g, ref, Walk(g, ref, visiting).value)
    decreases |g.groups.Keys - visiting|, 1
  {
    if ref.kind.CoverageGroup? {
      GroupDecides(g, ref, visiting);
    } else {
      LeafDecides(g, ref, visiting);
    }
  }

  lemma {:induction false} LeafDecides(g: Graph, ref: TypedRef, visiting: set<string>)
    requires !ref.kind.CoverageGroup?
    ensures Walk(g, ref, visiting).Ok? <==> InOrder(g, ref, visiting)
    ensures Walk(g, ref, visiting).Ok? ==> FoundIs(g, ref, Walk(g, ref, visiting).value)
  {
    ComponentReaches(g, ref, "");
    assert InOrder(g, ref, visiting) <==> PathInOrder(g, [ref], visiting);
    if Walk(g, ref, visiting).Ok? {
      var found := Walk(g, ref, visiting).value;
      forall x
        ensures x in found.inputs <==> ReachesInput(g, ref, x)
        ensures x in found.members <==> ReachesMember(g, ref, x)
      {
        ComponentReaches(g, ref, x);
        var c := g.components[ref.id];
        assert x in RefIds(c.inputRefs) <==> exists i :: 0 <= i < |c.inputRefs| && c.inputRefs[i].id == x;
        assert x in RefIds(c.sourceMemberRefs)
               <==> exists i :: 0 <= i < |c.sourceMemberRefs| && c.sourceMemberRefs[i].id == x;
      }
    }
  }

  lemma {:induction false} GroupDecides(g: Graph, ref: TypedRef, visiting: set<string>)
    requires ref.kind.CoverageGroup?
    ensures Walk(g, ref, visiting).Ok? <==> InOrder(g, ref, visiting)
    ensures Walk(g, ref, visiting).Ok? ==> FoundIs(g, ref, Walk(g, ref, visiting).value)
    decreases |g.groups.Keys - visiting|, 0
  {
    GroupInOrder(g, ref, visiting);
    if ref.scope == g.scope && ref.id !in visiting && ref.id in g.groups {
      var inner := visiting + {ref.id};
      var children := Children(g, ref);
      assert g.groups.Keys - inner < g.groups.Keys - visiting;
      SubsetSize(g.groups.Keys - inner, g.groups.Keys - visiting);
      WalkAllDecides(g, children, inner);
      if WalkAll(g, children, inner).Ok? {
        GroupFound(g, ref, WalkAll(g, children, inner).value);
      }
    }
  }

  /** What the children found is what the group reaches, and the multiset comparison is the ancestry condition. */
  lemma {:induction false} GroupFound(g: Graph, ref: TypedRef, found: Found)
    requires ref.kind.CoverageGroup? && ref.id in g.groups
    requires forall x :: x in found.inputs <==> exists c :: c in Children(g, ref) && ReachesInput(g, c, x)
    requires forall x :: x in found.members <==> exists c :: c in Children(g, ref) && ReachesMember(g, c, x)
    ensures FoundIs(g, ref, found)
    ensures multiset(found.members) == multiset(RefIds(g.groups[ref.id].sourceMemberRefs)) <==> AncestryAgrees(g, ref)
  {
    hide ReachesInput, ReachesMember, Children, AncestryAgrees;
    forall x
      ensures x in found.inputs <==> ReachesInput(g, ref, x)
      ensures x in found.members <==> ReachesMember(g, ref, x)
    {
      InputsThroughChildren(g, ref, x);
      MembersThroughChildren(g, ref, x);
    }
    AncestryByMultiset(g, ref, found.members);
  }

  lemma {:induction false} AncestryByMultiset(g: Graph, ref: TypedRef, members: set<string>)
    requires ref.kind.CoverageGroup? && ref.id in g.groups
    requires forall m :: m in members <==> ReachesMember(g, ref, m)
    ensures multiset(members) == multiset(RefIds(g.groups[ref.id].sourceMemberRefs)) <==> AncestryAgrees(g, ref)
  {
    hide ReachesMember;
    var listed := RefIds(g.groups[ref.id].sourceMemberRefs);
    ListsMeans(listed, members);
    assert (set x | x in listed) == members <==> forall m :: m in listed <==> m in members;
  }

  lemma {:induction false} WalkAllDecides(g: Graph, refs: seq<TypedRef>, visiting: set<string>)
    ensures WalkAll(g, refs, visiting).Ok? <==> forall c :: c in refs ==> InOrder(g, c, visiting)
    ensures WalkAll(g, refs, visiting).Ok? ==>
              var found := WalkAll(g, refs, visiting).value;
              && (forall x :: x in found.inputs <==> exists c :: c in refs && ReachesInput(g, c, x))
              && (forall x :: x in found.members <==> exists c :: c in refs && ReachesMember(g, c, x))
    decreases |g.groups.Keys - visiting|, |refs| + 2
  {
    if refs != [] {
      var init, last := refs[..|refs| - 1], refs[|refs| - 1];
      assert refs == init + [last];
      WalkAllDecides(g, init, visiting);
      WalkDecides(g, last, visiting);
      assert forall c :: c in refs <==> c in init || c == last;
    }
  }

  // ----- the indexes and the whole function ----------------------------------------------------

  function ComponentKey(component: Component): string {
    component.componentId
  }

  function GroupKey(group: Group): string {
    group.groupId
  }

  function GraphOf(scope: string, components: seq<Component>, groups: seq<Group>): Graph {
    Graph(scope, Index(components, ComponentKey), Index(groups, GroupKey))
  }

  /** What sharedCoverageRequirements returns. */
  ghost function Requirements(scope: string, components: seq<Component>, groups: seq<Group>,
                              root: TypedRef): Result<Found> {
    if !Identified(Ids(components, ComponentKey)) || !Identified(Ids(groups, GroupKey)) then Err
    else Walk(GraphOf(scope, components, groups), root, {})
  }

  /** Success is exactly: identifiers unique, and everything reachable known, in scope, free of cycles and agreeing
      with its ancestry; the answer is then the union over the reachable components. */
  lemma {:induction false} RequirementsDecide(scope: string, components: seq<Component>, groups: seq<Group>,
                                              root: TypedRef)
    ensures var g := GraphOf(scope, components, groups);
            && (Requirements(scope, components, groups, root).Ok? <==>
                  Identified(Ids(components, ComponentKey)) && Identified(Ids(groups, GroupKey))
                      && InOrder(g, root, {}))
            && (Requirements(scope, components, groups, root).Ok? ==>
                  FoundIs(g, root, Requirements(scope, components, groups, root).value))
  {
    WalkDecides(GraphOf(scope, components, groups), root, {});
  }

  /** What success says of every reference a path leads to: it is in scope and names a component, whose inputs and
      members are references of their kinds in scope, or a group that lists exactly the members below it, each once.
      */
  lemma {:induction false} ReachedIsSound(scope: string, components: seq<Component>, groups: seq<Group>, root: TypedRef,
                                          p: seq<TypedRef>)
    requires Requirements(scope, components, groups, root).Ok? && Path(GraphOf(scope, components, groups), root, p)
    ensures var g, ref := GraphOf(scope, components, groups), p[|p| - 1];
            && ref.scope == scope
            && ((ref.kind == Kind.Component && ref.id in g.components
                 && (forall i :: 0 <= i < |g.components[ref.id].inputRefs| ==>
                       && g.components[ref.id].inputRefs[i].kind == Kind.TestInput
                       && g.components[ref.id].inputRefs[i].scope == scope)
                 && (forall i :: 0 <= i < |g.components[ref.id].sourceMemberRefs| ==>
                       && g.components[ref.id].sourceMemberRefs[i].kind == Kind.SourceMember
                       && g.components[ref.id].sourceMemberRefs[i].scope == scope))
                || (ref.kind == Kind.CoverageGroup && ref.id in g.groups
                    && (forall i, j :: 0 <= i < j < |g.groups[ref.id].sourceMemberRefs| ==>
                          g.groups[ref.id].sourceMemberRefs[i].id != g.groups[ref.id].sourceMemberRefs[j].id)
                    && forall m :: ReachesMember(g, ref, m)
                          <==> exists i :: 0 <= i < |g.groups[ref.id].sourceMemberRefs|
                                           && g.groups[ref.id].sourceMemberRefs[i].id == m))
    ensures forall i, j :: 0 <= i < j < |p| && p[i].kind == Kind.CoverageGroup && p[j].kind == Kind.CoverageGroup ==>
              p[i].id != p[j].id
  {
    hide Requirements, ReachesMember;
    RequirementsDecide(scope, components, groups, root);
    var g, ref := GraphOf(scope, components, groups), p[|p| - 1];
    assert PathInOrder(g, p, {});
    hide GraphOf, InOrder, Path;
    if ref.kind.CoverageGroup? {
      var refs := g.groups[ref.id].sourceMemberRefs;
      var listed := RefIds(refs);
      forall i, j | 0 <= i < j < |refs| ensures refs[i].id != refs[j].id {
        assert listed[i] != listed[j];
      }
      forall m ensures ReachesMember(g, ref, m) <==> exists i :: 0 <= i < |refs| && refs[i].id == m {
        if m in listed {
          var i :| 0 <= i < |listed| && listed[i] == m;
          assert refs[i].id == m;
        }
        if i :| 0 <= i < |refs| && refs[i].id == m {
          assert listed[i] == m;
        }
      }
    }
  }

  class CoverageWalk {
    const graph: Graph
    var visiting: set<string>

    constructor (graph: Graph)
      ensures this.graph == graph && visiting == {}
    {
      this.graph := graph;
      visiting := {};
    }

    /** The recursive walk; visiting is restored unless the whole walk has failed. */
    method Visit(ref: TypedRef) returns (result: Result<Found>)
      modifies this
      ensures result == Walk(graph, ref, old(visiting))
      ensures result.Ok? ==> visiting == old(visiting)
      decreases |graph.groups.Keys - visiting|
    {
      if ref.scope != graph.scope {
        return Err;
      }
      var inputs: set<string>, members: set<string> := {}, {};
      match ref.kind
      case Component =>
        if ref.id !in graph.components {
          return Err;
        }
        var component := graph.components[ref.id];
        for i := 0 to |component.inputRefs|
          invariant OfKind(component.inputRefs[..i], TestInput, graph.scope)
          invariant inputs == set k | 0 <= k < i :: component.inputRefs[k].id
        {
          if component.inputRefs[i].kind != TestInput || component.inputRefs[i].scope != graph.scope {
            return Err;
          }
          inputs := inputs + {component.inputRefs[i].id};
        }
        for i := 0 to |component.sourceMemberRefs|
          invariant OfKind(component.sourceMemberRefs[..i], SourceMember, graph.scope)
          invariant members == set k | 0 <= k < i :: component.sourceMemberRefs[k].id
        {
          if component.sourceMemberRefs[i].kind != SourceMember || component.sourceMemberRefs[i].scope != graph.scope {
            return Err;
          }
          members := members + {component.sourceMemberRefs[i].id};
        }
        return Ok(Found(inputs, members));
      case CoverageGroup =>
        if ref.id in visiting || ref.id !in graph.groups {
          return Err;
        }
        result := VisitGroup(ref.id);
      case _ =>
        return Err;
    }

    method VisitGroup(id: string) returns (result: Result<Found>)
      requires id !in visiting && id in graph.groups
      modifies this
      ensures result == Walk(graph, TypedRef(CoverageGroup, graph.scope, id), old(visiting))
      ensures result.Ok? ==> visiting == old(visiting)
      decreases |graph.groups.Keys - visiting|, 0
    {
      hide Walk, WalkAll;
      var group := graph.groups[id];
      var found := NOTHING;
      ghost var before := visiting;
      SubsetSize(graph.groups.Keys - (before + {id}), graph.groups.Keys - before);
      assert id in graph.groups.Keys - before && id !in graph.groups.Keys - (before + {id});
      WalkGroup(graph, id, before);
      visiting := visiting + {id};
      for i := 0 to |group.memberRefs|
        invariant visiting == before + {id}
        invariant WalkAll(graph, group.memberRefs[..i], before + {id}) == Ok(found)
      {
        var child := Visit(group.memberRefs[i]);
        if child.Err? {
          WalkAllFailsEarly(graph, group.memberRefs, i, before + {id});
          return Err;
        }
        WalkAllGrows(graph, group.memberRefs, i, before + {id});
        found := found.Plus(child.value);
      }
      assert group.memberRefs[..|group.memberRefs|] == group.memberRefs;
      visiting := visiting - {id};
      assert visiting == before;
      var listed := Keys(found.members);
      var same := SameStringSet(listed, RefIds(group.sourceMemberRefs));
      return if same then Ok(found) else Err;
    }
  }

  lemma {:induction false} WalkGroup(g: Graph, id: string, visiting: set<string>)
    requires id !in visiting && id in g.groups
    ensures WalkAll(g, g.groups[id].memberRefs[..0], visiting + {id}) == Ok(NOTHING)
    ensures var listed := multiset(RefIds(g.groups[id].sourceMemberRefs));
            Walk(g, TypedRef(CoverageGroup, g.scope, id), visiting)
            == match WalkAll(g, g.groups[id].memberRefs, visiting + {id})
               case Err => Err
               case Ok(found) => if multiset(found.members) == listed then Ok(found) else Err
  {
  }

  lemma {:induction false} WalkAllGrows(g: Graph, refs: seq<TypedRef>, i: nat, visiting: set<string>)
    requires i < |refs| && WalkAll(g, refs[..i], visiting).Ok? && Walk(g, refs[i], visiting).Ok?
    ensures WalkAll(g, refs[..i + 1], visiting)
            == Ok(WalkAll(g, refs[..i], visiting).value.Plus(Walk(g, refs[i], visiting).value))
  {
    assert refs[..i + 1][..i] == refs[..i];
  }

  lemma {:induction false} WalkAllFailsEarly(g: Graph, refs: seq<TypedRef>, i: nat, visiting: set<string>)
    requires i < |refs| && Walk(g, refs[i], visiting).Err?
    ensures WalkAll(g, refs, visiting).Err?
    decreases |refs|
  {
    if i < |refs| - 1 {
      WalkAllFailsEarly(g, refs[..|refs| - 1], i, visiting);
    }
  }

  /** sharedCoverageRequirements. */
  method CoverageRequirements(scope: string, components: seq<Component>, groups: seq<Group>, root: TypedRef)
    returns (result: Result<Found>)
    ensures result == Requirements(scope, components, groups, root)
  {
    var componentIndex := BuildIndex(components, ComponentKey);
    if componentIndex.None? {
      return Err;
    }
    var groupIndex := BuildIndex(groups, GroupKey);
    if groupIndex.None? {
      return Err;
    }
    var walk := new CoverageWalk(Graph(scope, componentIndex.value, groupIndex.value));
    result := walk.Visit(root);
  }
}
