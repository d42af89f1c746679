/** validateSharedCompleteness of api/shared_contract_v2.go. */
module Completeness {
  import opened Collections
  import opened Wrappers
  import opened Refs
  import opened Coverage
  import opened Semantics

  // ----- what acceptance means, check by check -------------------------------------------------

  ghost predicate Identities(cg: Document, s: Semantics) {
    && cg.members.Some? && Identified(Ids(cg.members.value, OuterMemberKey))
    && cg.artifacts.Some? && Identified(Ids(cg.artifacts.value, OuterArtifactKey))
    && cg.inputs.Some? && Identified(Ids(cg.inputs.value, OuterInputKey))
    && Identified(Ids(s.members, MemberKey))
    && Identified(Ids(s.artifacts, ArtifactKey))
    && Identified(Ids(s.testInputs, InputKey))
    && Identified(Ids(s.components, ComponentKey))
  }

  /** The indexes the checks look things up in. */
  datatype Indexes = Indexes(
    outerMembers: map<string, OuterMember>, outerArtifacts: map<string, OuterArtifact>,
    outerInputs: map<string, OuterInput>,
    members: map<string, SourceMember>, artifacts: map<string, SourceArtifact>, inputs: map<string, TestInput>,
    components: set<string>, obligations: set<string>)

  function IndexesOf(cg: Document, s: Semantics): Indexes
    requires cg.members.Some? && cg.artifacts.Some? && cg.inputs.Some?
  {
    Indexes(Index(cg.members.value, OuterMemberKey), Index(cg.artifacts.value, OuterArtifactKey),
            Index(cg.inputs.value, OuterInputKey),
            Index(s.members, MemberKey), Index(s.artifacts, ArtifactKey), Index(s.testInputs, InputKey),
            Index(s.components, ComponentKey).Keys, Index(s.obligations, ObligationKey).Keys)
  }

  predicate SameIdentities(x: Indexes, s: Semantics) {
    && x.members.Keys == x.outerMembers.Keys && |x.members| == s.memberCount
    && x.artifacts.Keys == x.outerArtifacts.Keys && |x.artifacts| == s.artifactCount
    && x.inputs.Keys <= x.outerInputs.Keys
  }

  function TerminalStateFromCG(state: string): string {
    if state == "no-checkable-artifact" then "no-checkable-signal" else state
  }

  predicate Positive(m: SourceMember) {
    m.terminalState == "verified" || m.terminalState == "signal-produced"
  }

  ghost predicate MemberAgrees(x: Indexes, s: Semantics, m: SourceMember) {
    && m.memberId in x.outerMembers
    && var outer := x.outerMembers[m.memberId];
    && m.signalId == outer.signalId && m.affectedArtifactId == outer.affectedArtifactId
    && m.terminalState == TerminalStateFromCG(outer.terminalState)
    && multiset(RefIds(m.artifactRefs)) == multiset(outer.artifactRefs)
    && (Positive(m) <==> |m.artifactRefs| > 0)
    && AllRefer(m.artifactRefs, Kind.SourceArtifact, s.semanticsId, x.artifacts.Keys)
  }

  predicate ContentAgrees(a: SourceArtifact, outer: OuterArtifact) {
    match a.content
    case Internal(resolves) => resolves
    case External(digest) => outer.contentHash == "" || outer.contentHash == digest
  }

  predicate Within(xs: seq<string>, index: set<string>) {
    forall i :: 0 <= i < |xs| ==> xs[i] in index
  }

  ghost predicate ArtifactAgrees(x: Indexes, s: Semantics, a: SourceArtifact) {
    && a.artifactId in x.outerArtifacts
    && var outer := x.outerArtifacts[a.artifactId];
    && a.artifactKind == outer.artifactKind
    && multiset(a.signalIds) == multiset(outer.signalIds)
    && multiset(a.affectedArtifactIds) == multiset(outer.affectedArtifactIds)
    && multiset(RefIds(a.memberRefs)) == multiset(outer.memberIds)
    && AllRefer(a.memberRefs, Kind.SourceMember, s.semanticsId, x.members.Keys)
    && ContentAgrees(a, outer)
    && (outer.semanticsRef.Some? ==>
          && outer.semanticsRef.value.semanticsId == s.semanticsId
          && Within(outer.semanticsRef.value.componentIds, x.components)
          && Within(outer.semanticsRef.value.obligationIds, x.obligations))
  }

  /** What the outer artifacts claim to be the semantics of. */
  function Claims(x: Indexes, artifacts: seq<SourceArtifact>): (set<string>, set<string>, set<string>)
    decreases |artifacts|
  {
    if artifacts == [] then ({}, {}, {})
    else
      var (claimers, components, obligations) := Claims(x, artifacts[..|artifacts| - 1]);
      var id := artifacts[|artifacts| - 1].artifactId;
      if id !in x.outerArtifacts || x.outerArtifacts[id].semanticsRef.None? then (claimers, components, obligations)
      else
        var ref := x.outerArtifacts[id].semanticsRef.value;
        (claimers + {id}, components + (set c | c in ref.componentIds), obligations + (set o | o in ref.obligationIds))
  }

  ghost predicate InputAgrees(x: Indexes, s: Semantics, i: TestInput) {
    && i.inputId in x.outerInputs
    && i.sourceArtifactRef.kind == Kind.SourceArtifact && i.sourceArtifactRef.scope == s.semanticsId
    && i.sourceArtifactRef.id in x.artifacts
    && i.sourceArtifactRef.id == x.outerInputs[i.inputId].artifactId
    && multiset(RefIds(i.sourceMemberRefs)) == multiset(x.outerInputs[i.inputId].memberIds)
    && AllRefer(i.sourceMemberRefs, Kind.SourceMember, s.semanticsId, x.members.Keys)
  }

  /** The obligation/input assignments as the code keys them. */
  function WorkKeys(obligations: seq<Obligation>): seq<string>
    decreases |obligations|
  {
    if obligations == [] then []
    else WorkKeys(obligations[..|obligations| - 1]) + KeysOf(obligations[|obligations| - 1])
  }

  function WorkKey(obligationId: string, inputId: string): string {
    obligationId + [0 as char] + inputId
  }

  function KeysOf(o: Obligation): (keys: seq<string>)
    ensures |keys| == |o.requiredInputRefs|
    ensures forall i :: 0 <= i < |keys| ==> keys[i] == WorkKey(o.obligationId, o.requiredInputRefs[i].id)
  {
    seq(|o.requiredInputRefs|,
        i requires 0 <= i < |o.requiredInputRefs| => WorkKey(o.obligationId, o.requiredInputRefs[i].id))
  }

  ghost predicate ObligationAgrees(x: Indexes, s: Semantics, o: Obligation) {
    && o.required
    && AllRefer(o.requiredInputRefs, Kind.TestInput, s.semanticsId, x.inputs.Keys)
    && var coverage := Requirements(s.semanticsId, s.components, s.groups, o.coverageRef);
    && coverage.Ok?
    && multiset(RefIds(o.requiredInputRefs)) == multiset(coverage.value.inputs)
  }

  ghost predicate DimensionAgrees(x: Indexes, s: Semantics, d: UnsupportedDimension) {
    && d.dimension != "" && d.reason != "" && |d.sourceMemberRefs| > 0
    && AllRefer(d.sourceMemberRefs, Kind.SourceMember, s.semanticsId, x.members.Keys)
    && AllRefer(d.sourceArtifactRefs, Kind.SourceArtifact, s.semanticsId, x.artifacts.Keys)
    && AllRefer(d.sourceInputRefs, Kind.TestInput, s.semanticsId, x.outerInputs.Keys)
  }

  /** The partition checks as they are written: disjointness and a sum of sizes. */
  predicate Counted(x: Indexes, s: Semantics) {
    && RepresentedMembers(s) !! UnsupportedMembers(s)
    && |RepresentedMembers(s)| + |UnsupportedMembers(s)| == |x.members|
    && x.members.Keys <= RepresentedMembers(s) + UnsupportedMembers(s)
    && RepresentedArtifacts(s) !! UnsupportedArtifacts(s)
    && |RepresentedArtifacts(s)| + |UnsupportedArtifacts(s)| == |x.artifacts|
    && (forall id :: id in x.artifacts ==> (id in RepresentedArtifacts(s) <==> id in Claims(x, s.artifacts).0))
    && RepresentedInputs(s) !! UnsupportedInputs(s)
    && |RepresentedInputs(s)| + |UnsupportedInputs(s)| == |x.outerInputs|
  }

  ghost predicate Agree(x: Indexes, s: Semantics) {
    && SameIdentities(x, s)
    && (forall i :: 0 <= i < |s.members| ==> MemberAgrees(x, s, s.members[i]))
    && (forall i :: 0 <= i < |s.artifacts| ==> ArtifactAgrees(x, s, s.artifacts[i]))
    && |Claims(x, s.artifacts).1| == |x.components| && |Claims(x, s.artifacts).2| == |x.obligations|
    && (forall i :: 0 <= i < |s.testInputs| ==> InputAgrees(x, s, s.testInputs[i]))
    && Identified(Ids(s.obligations, ObligationKey))
    && (forall i :: 0 <= i < |s.obligations| ==> ObligationAgrees(x, s, s.obligations[i]))
    && Distinct(WorkKeys(s.obligations))
    && (forall i :: 0 <= i < |s.unsupportedDimensions| ==> DimensionAgrees(x, s, s.unsupportedDimensions[i]))
    && Counted(x, s)
  }

  /** What validateSharedCompleteness accepts. */
  ghost predicate Complete(cg: Document, s: Semantics) {
    Identities(cg, s) && Agree(IndexesOf(cg, s), s)
  }

  // ----- what acceptance gives -----------------------------------------------------------------

  ghost predicate Partition(left: set<string>, right: set<string>, whole: set<string>) {
    left !! right && left + right == whole
  }

  lemma {:induction false} RepresentedExists(x: Indexes, s: Semantics)
    requires forall i :: 0 <= i < |s.testInputs| ==> InputAgrees(x, s, s.testInputs[i])
    ensures RepresentedMembers(s) <= x.members.Keys && RepresentedArtifacts(s) <= x.artifacts.Keys
    ensures RepresentedInputs(s) <= x.outerInputs.Keys
  {
    forall i | 0 <= i < |s.testInputs|
      ensures InputMembers(s.testInputs[i]) <= x.members.Keys
      ensures InputArtifact(s.testInputs[i]) <= x.artifacts.Keys
      ensures InputItself(s.testInputs[i]) <= x.outerInputs.Keys
    {
      assert InputAgrees(x, s, s.testInputs[i]);
    }
    UnionWithin(s.testInputs, InputMembers, x.members.Keys);
    UnionWithin(s.testInputs, InputArtifact, x.artifacts.Keys);
    UnionWithin(s.testInputs, InputItself, x.outerInputs.Keys);
  }

  lemma {:induction false} UnsupportedExists(x: Indexes, s: Semantics)
    requires forall i :: 0 <= i < |s.unsupportedDimensions| ==> DimensionAgrees(x, s, s.unsupportedDimensions[i])
    requires x.inputs.Keys <= x.outerInputs.Keys
    ensures UnsupportedMembers(s) <= x.members.Keys && UnsupportedArtifacts(s) <= x.artifacts.Keys
    ensures UnsupportedInputs(s) <= x.outerInputs.Keys
  {
    forall i | 0 <= i < |s.unsupportedDimensions|
      ensures DimensionMembers(s.unsupportedDimensions[i]) <= x.members.Keys
      ensures DimensionArtifacts(s.unsupportedDimensions[i]) <= x.artifacts.Keys
      ensures DimensionInputs(s.unsupportedDimensions[i]) <= x.outerInputs.Keys
    {
      assert DimensionAgrees(x, s, s.unsupportedDimensions[i]);
    }
    UnionWithin(s.unsupportedDimensions, DimensionMembers, x.members.Keys);
    UnionWithin(s.unsupportedDimensions, DimensionArtifacts, x.artifacts.Keys);
    UnionWithin(s.unsupportedDimensions, DimensionInputs, x.outerInputs.Keys);
  }

  /** Everything the inputs and dimensions refer to exists. */
  lemma {:induction false} CollectedExists(x: Indexes, s: Semantics)
    requires Agree(x, s)
    ensures RepresentedMembers(s) <= x.members.Keys && UnsupportedMembers(s) <= x.members.Keys
    ensures RepresentedArtifacts(s) <= x.artifacts.Keys && UnsupportedArtifacts(s) <= x.artifacts.Keys
    ensures RepresentedInputs(s) <= x.outerInputs.Keys && UnsupportedInputs(s) <= x.outerInputs.Keys
  {
    hide InputAgrees, DimensionAgrees, MemberAgrees, ArtifactAgrees, ObligationAgrees, Counted, Claims, WorkKeys,
         Identified;
    hide RepresentedMembers, RepresentedArtifacts, RepresentedInputs;
    hide UnsupportedMembers, UnsupportedArtifacts, UnsupportedInputs;
    RepresentedExists(x, s);
    UnsupportedExists(x, s);
  }

  lemma {:induction false} ClaimsExist(x: Indexes, s: Semantics, artifacts: seq<SourceArtifact>)
    requires forall i :: 0 <= i < |artifacts| ==>
               ArtifactAgrees(x, s, artifacts[i]) && artifacts[i].artifactId in x.artifacts
    ensures Claims(x, artifacts).0 <= x.artifacts.Keys
    ensures Claims(x, artifacts).1 <= x.components && Claims(x, artifacts).2 <= x.obligations
    decreases |artifacts|
  {
    if artifacts != [] {
      ClaimsExist(x, s, artifacts[..|artifacts| - 1]);
      assert ArtifactAgrees(x, s, artifacts[|artifacts| - 1]);
    }
  }

  lemma {:induction false} CountedPartitions(x: Indexes, s: Semantics)
    requires Agree(x, s) && x.inputs == Index(s.testInputs, InputKey)
    ensures Partition(RepresentedMembers(s), UnsupportedMembers(s), x.outerMembers.Keys)
    ensures Partition(RepresentedArtifacts(s), UnsupportedArtifacts(s), x.outerArtifacts.Keys)
    ensures Partition(RepresentedInputs(s), UnsupportedInputs(s), x.outerInputs.Keys)
  {
    hide MemberAgrees, ArtifactAgrees, InputAgrees, ObligationAgrees, DimensionAgrees, Claims, WorkKeys;
    hide RepresentedMembers, RepresentedArtifacts, RepresentedInputs;
    hide UnsupportedMembers, UnsupportedArtifacts, UnsupportedInputs;
    CollectedExists(x, s);
    PartitionBySize(RepresentedMembers(s), UnsupportedMembers(s), x.members.Keys);
    PartitionBySize(RepresentedArtifacts(s), UnsupportedArtifacts(s), x.artifacts.Keys);
    PartitionBySize(RepresentedInputs(s), UnsupportedInputs(s), x.outerInputs.Keys);
  }

  /** Every source member, source artifact and outer input is represented by a test input or excused by an
      unsupported dimension, and never both. For artifacts and inputs the code only compares sizes. */
  lemma {:induction false} AcceptancePartitions(cg: Document, s: Semantics)
    requires Complete(cg, s)
    ensures var x := IndexesOf(cg, s);
            && Partition(RepresentedMembers(s), UnsupportedMembers(s), x.outerMembers.Keys)
            && Partition(RepresentedArtifacts(s), UnsupportedArtifacts(s), x.outerArtifacts.Keys)
            && Partition(RepresentedInputs(s), UnsupportedInputs(s), x.outerInputs.Keys)
  {
    hide Agree, Partition;
    CountedPartitions(IndexesOf(cg, s), s);
  }

  lemma {:induction false} AllWhole<T>(part: set<T>, left: set<T>, whole: set<T>)
    requires part <= whole && left <= whole
    requires forall x :: x in whole ==> (x in part <==> x in left)
    ensures part == left
  {
    assert forall x :: x in part ==> x in left;
  }

  lemma {:induction false} ClaimsWithin(x: Indexes, s: Semantics)
    requires Agree(x, s) && x.artifacts == Index(s.artifacts, ArtifactKey)
    ensures Claims(x, s.artifacts).0 <= x.artifacts.Keys
    ensures Claims(x, s.artifacts).1 == x.components && Claims(x, s.artifacts).2 == x.obligations
  {
    hide Claims, Counted, WorkKeys, ArtifactAgrees, Identified, SameIdentities;
    forall i | 0 <= i < |s.artifacts| ensures s.artifacts[i].artifactId in x.artifacts {
      assert ArtifactKey(s.artifacts[i]) in x.artifacts;
    }
    ClaimsExist(x, s, s.artifacts);
    SubsetSize(Claims(x, s.artifacts).1, x.components);
    SubsetSize(Claims(x, s.artifacts).2, x.obligations);
  }

  lemma {:induction false} ClaimersRepresented(x: Indexes, s: Semantics)
    requires Agree(x, s) && x.inputs == Index(s.testInputs, InputKey)
    requires Claims(x, s.artifacts).0 <= x.artifacts.Keys
    ensures Claims(x, s.artifacts).0 == RepresentedArtifacts(s)
  {
    hide Claims, RepresentedArtifacts, WorkKeys, MemberAgrees, ArtifactAgrees, InputAgrees, ObligationAgrees;
    hide DimensionAgrees, Identified, SameIdentities;
    CollectedExists(x, s);
    AllWhole(RepresentedArtifacts(s), Claims(x, s.artifacts).0, x.artifacts.Keys);
  }

  /** The artifacts that claim the semantics are exactly the represented ones, and between them they claim every
      component and every obligation. */
  lemma {:induction false} ClaimsAreComplete(cg: Document, s: Semantics)
    requires Complete(cg, s)
    ensures var x := IndexesOf(cg, s);
            var claims := Claims(x, s.artifacts);
            claims.0 == RepresentedArtifacts(s) && claims.1 == x.components && claims.2 == x.obligations
  {
    hide Identified, Agree, Claims, RepresentedArtifacts;
    ClaimsWithin(IndexesOf(cg, s), s);
    ClaimersRepresented(IndexesOf(cg, s), s);
  }

  ghost predicate RequiresItsCoverage(s: Semantics, o: Obligation) {
    var g := GraphOf(s.semanticsId, s.components, s.groups);
    && InOrder(g, o.coverageRef, {})
    && Distinct(RefIds(o.requiredInputRefs))
    && (forall input :: input in RefIds(o.requiredInputRefs) <==> ReachesInput(g, o.coverageRef, input))
    && IdSet(o.requiredInputRefs) <= Index(s.testInputs, InputKey).Keys
  }

  lemma {:induction false} AgreeingObligation(x: Indexes, s: Semantics, o: Obligation)
    requires ObligationAgrees(x, s, o) && x.inputs == Index(s.testInputs, InputKey)
    ensures RequiresItsCoverage(s, o)
  {
    hide Requirements, InOrder, ReachesInput, ReachesMember, GraphOf, Index, Identified;
    RequirementsDecide(s.semanticsId, s.components, s.groups, o.coverageRef);
    var found := Requirements(s.semanticsId, s.components, s.groups, o.coverageRef).value;
    ListsMeans(RefIds(o.requiredInputRefs), found.inputs);
    var listed := RefIds(o.requiredInputRefs);
    assert forall input :: input in listed <==> input in (set y | y in listed);
  }

  /** Each obligation requires exactly the inputs its coverage reference reaches, each once, and each of them is a
      known test input; its coverage graph is in order. */
  lemma {:induction false} ObligationsMatchCoverage(cg: Document, s: Semantics)
    requires Complete(cg, s)
    ensures forall i :: 0 <= i < |s.obligations| ==> RequiresItsCoverage(s, s.obligations[i])
  {
    hide RequiresItsCoverage, Identified, SameIdentities, MemberAgrees, ArtifactAgrees, InputAgrees, ObligationAgrees;
    hide DimensionAgrees, Counted, Claims, WorkKeys, Index;
    forall i | 0 <= i < |s.obligations| ensures RequiresItsCoverage(s, s.obligations[i]) {
      AgreeingObligation(IndexesOf(cg, s), s, s.obligations[i]);
    }
  }

  // ----- the verifier itself -------------------------------------------------------------------

  method AllReferTo(refs: seq<TypedRef>, kind: Kind, scope: string, index: set<string>) returns (ok: bool)
    ensures ok <==> AllRefer(refs, kind, scope, index)
  {
    for i := 0 to |refs|
      invariant AllRefer(refs[..i], kind, scope, index)
    {
      if refs[i].kind != kind || refs[i].scope != scope || refs[i].id !in index {
        return false;
      }
    }
    return true;
  }

  method AllWithin(xs: seq<string>, index: set<string>) returns (ok: bool)
    ensures ok <==> Within(xs, index)
  {
    for i := 0 to |xs|
      invariant Within(xs[..i], index)
    {
      if xs[i] !in index {
        return false;
      }
    }
    return true;
  }

  method CheckMember(x: Indexes, s: Semantics, m: SourceMember) returns (ok: bool)
    ensures ok <==> MemberAgrees(x, s, m)
  {
    if m.memberId !in x.outerMembers {
      return false;
    }
    var outer := x.outerMembers[m.memberId];
    var same := SameStringSet(RefIds(m.artifactRefs), outer.artifactRefs);
    if m.signalId != outer.signalId || m.affectedArtifactId != outer.affectedArtifactId
       || m.terminalState != TerminalStateFromCG(outer.terminalState) || !same {
      return false;
    }
    if Positive(m) != (|m.artifactRefs| > 0) {
      return false;
    }
    ok := AllReferTo(m.artifactRefs, Kind.SourceArtifact, s.semanticsId, x.artifacts.Keys);
  }

  method CheckMembers(x: Indexes, s: Semantics) returns (ok: bool)
    ensures ok <==> forall i :: 0 <= i < |s.members| ==> MemberAgrees(x, s, s.members[i])
  {
    hide MemberAgrees;
    for i := 0 to |s.members|
      invariant forall k :: 0 <= k < i ==> MemberAgrees(x, s, s.members[k])
    {
      var agrees := CheckMember(x, s, s.members[i]);
      if !agrees {
        return false;
      }
    }
    return true;
  }

  method CheckArtifact(x: Indexes, s: Semantics, a: SourceArtifact) returns (ok: bool)
    ensures ok <==> ArtifactAgrees(x, s, a)
  {
    if a.artifactId !in x.outerArtifacts {
      return false;
    }
    var outer := x.outerArtifacts[a.artifactId];
    var signals := SameStringSet(a.signalIds, outer.signalIds);
    var affected := SameStringSet(a.affectedArtifactIds, outer.affectedArtifactIds);
    var memberIds := SameStringSet(RefIds(a.memberRefs), outer.memberIds);
    if a.artifactKind != outer.artifactKind || !signals || !affected || !memberIds {
      return false;
    }
    ok := AllReferTo(a.memberRefs, Kind.SourceMember, s.semanticsId, x.members.Keys);
    if !ok || !ContentAgrees(a, outer) {
      return false;
    }
    if outer.semanticsRef.Some? {
      if outer.semanticsRef.value.semanticsId != s.semanticsId {
        return false;
      }
      ok := AllWithin(outer.semanticsRef.value.componentIds, x.components);
      if !ok {
        return false;
      }
      ok := AllWithin(outer.semanticsRef.value.obligationIds, x.obligations);
    }
  }

  lemma {:induction false} ClaimsStart(x: Indexes, artifacts: seq<SourceArtifact>)
    ensures Claims(x, artifacts[..0]) == ({}, {}, {})
  {
  }

  lemma {:induction false} ClaimsGrow(x: Indexes, artifacts: seq<SourceArtifact>, i: nat)
    requires i < |artifacts|
    ensures var (claimers, components, obligations) := Claims(x, artifacts[..i]);
            var id := artifacts[i].artifactId;
            Claims(x, artifacts[..i + 1])
            == if id !in x.outerArtifacts || x.outerArtifacts[id].semanticsRef.None? then
                 (claimers, components, obligations)
               else var ref := x.outerArtifacts[id].semanticsRef.value;
                    (claimers + {id}, components + (set c | c in ref.componentIds),
                     obligations + (set o | o in ref.obligationIds))
  {
    assert artifacts[..i + 1][..i] == artifacts[..i];
  }

  lemma {:induction false} ArtifactKnown(x: Indexes, s: Semantics, a: SourceArtifact)
    requires ArtifactAgrees(x, s, a)
    ensures a.artifactId in x.outerArtifacts
  {
  }

  /** The loop over source artifacts, and what they claim to be the semantics of. */
  method CheckArtifacts(x: Indexes, s: Semantics) returns (ok: bool, claimers: set<string>)
    ensures ok <==> && (forall i :: 0 <= i < |s.artifacts| ==> ArtifactAgrees(x, s, s.artifacts[i]))
                    && |Claims(x, s.artifacts).1| == |x.components| && |Claims(x, s.artifacts).2| == |x.obligations|
    ensures ok ==> claimers == Claims(x, s.artifacts).0
  {
    hide ArtifactAgrees, Claims;
    var components: set<string>, obligations: set<string> := {}, {};
    claimers := {};
    ClaimsStart(x, s.artifacts);
    for i := 0 to |s.artifacts|
      invariant forall k :: 0 <= k < i ==> ArtifactAgrees(x, s, s.artifacts[k])
      invariant (claimers, components, obligations) == Claims(x, s.artifacts[..i])
    {
      ClaimsGrow(x, s.artifacts, i);
      var agrees := CheckArtifact(x, s, s.artifacts[i]);
      if !agrees {
        return false, {};
      }
      ArtifactKnown(x, s, s.artifacts[i]);
      var id := s.artifacts[i].artifactId;
      if x.outerArtifacts[id].semanticsRef.Some? {
        var ref := x.outerArtifacts[id].semanticsRef.value;
        claimers := claimers + {id};
        components := components + (set c | c in ref.componentIds);
        obligations := obligations + (set o | o in ref.obligationIds);
      }
    }
    assert s.artifacts[..|s.artifacts|] == s.artifacts;
    ok := |components| == |x.components| && |obligations| == |x.obligations|;
  }

  method CheckInput(x: Indexes, s: Semantics, i: TestInput) returns (ok: bool)
    ensures ok <==> InputAgrees(x, s, i)
  {
    if i.inputId !in x.outerInputs {
      return false;
    }
    var same := SameStringSet(RefIds(i.sourceMemberRefs), x.outerInputs[i.inputId].memberIds);
    if i.sourceArtifactRef.kind != Kind.SourceArtifact || i.sourceArtifactRef.scope != s.semanticsId
       || i.sourceArtifactRef.id !in x.artifacts
       || i.sourceArtifactRef.id != x.outerInputs[i.inputId].artifactId || !same {
      return false;
    }
    ok := AllReferTo(i.sourceMemberRefs, Kind.SourceMember, s.semanticsId, x.members.Keys);
  }

  /** The loop over test inputs, collecting what they represent. */
  method CheckInputs(x: Indexes, s: Semantics)
    returns (ok: bool, members: set<string>, artifacts: set<string>, inputs: set<string>)
    ensures ok <==> forall i :: 0 <= i < |s.testInputs| ==> InputAgrees(x, s, s.testInputs[i])
    ensures ok ==>
              && members == RepresentedMembers(s) && artifacts == RepresentedArtifacts(s)
              && inputs == RepresentedInputs(s)
  {
    members, artifacts, inputs := {}, {}, {};
    hide InputAgrees;
    for i := 0 to |s.testInputs|
      invariant forall k :: 0 <= k < i ==> InputAgrees(x, s, s.testInputs[k])
      invariant members == UnionOver(s.testInputs[..i], InputMembers)
      invariant artifacts == UnionOver(s.testInputs[..i], InputArtifact)
      invariant inputs == UnionOver(s.testInputs[..i], InputItself)
    {
      UnionGrows(s.testInputs, InputMembers, i);
      UnionGrows(s.testInputs, InputArtifact, i);
      UnionGrows(s.testInputs, InputItself, i);
      var agrees := CheckInput(x, s, s.testInputs[i]);
      if !agrees {
        return false, {}, {}, {};
      }
      members := members + IdSet(s.testInputs[i].sourceMemberRefs);
      artifacts := artifacts + {s.testInputs[i].sourceArtifactRef.id};
      inputs := inputs + {s.testInputs[i].inputId};
    }
    assert s.testInputs[..|s.testInputs|] == s.testInputs;
    ok := true;
  }

  method CheckObligation(x: Indexes, s: Semantics, o: Obligation) returns (ok: bool)
    ensures ok <==> ObligationAgrees(x, s, o)
  {
    var coverage := CoverageRequirements(s.semanticsId, s.components, s.groups, o.coverageRef);
    if !o.required || coverage.Err? {
      return false;
    }
    ok := AllReferTo(o.requiredInputRefs, Kind.TestInput, s.semanticsId, x.inputs.Keys);
    if !ok {
      return false;
    }
    var expected := Keys(coverage.value.inputs);
    ok := SameStringSet(RefIds(o.requiredInputRefs), expected);
  }

  /** No assignment key of this list repeats, nor occurs in work. */
  method AddWork(keys: seq<string>, work: set<string>, ghost earlier: seq<string>) returns (ok: bool, more: set<string>)
    requires work == set k | k in earlier
    requires Distinct(earlier)
    ensures ok <==> Distinct(earlier + keys)
    ensures ok ==> more == set k | k in earlier + keys
  {
    more := work;
    for i := 0 to |keys|
      invariant Distinct(earlier + keys[..i])
      invariant more == set k | k in earlier + keys[..i]
    {
      ghost var before := earlier + keys[..i];
      assert earlier + keys[..i + 1] == before + [keys[i]];
      if keys[i] in more {
        ghost var k :| 0 <= k < |before| && before[k] == keys[i];
        assert (earlier + keys)[k] == before[k] && (earlier + keys)[|before|] == keys[i];
        return false, {};
      }
      more := more + {keys[i]};
    }
    assert keys[..|keys|] == keys;
    ok := true;
  }

  lemma {:induction false} WorkKeysPrefix(obligations: seq<Obligation>, i: nat)
    requires i <= |obligations|
    ensures WorkKeys(obligations[..i]) <= WorkKeys(obligations)
    decreases |obligations|
  {
    if i < |obligations| {
      assert obligations[..|obligations| - 1][..i] == obligations[..i];
      WorkKeysPrefix(obligations[..|obligations| - 1], i);
    } else {
      assert obligations[..i] == obligations;
    }
  }

  lemma {:induction false} WorkKeysStart(obligations: seq<Obligation>)
    ensures WorkKeys(obligations[..0]) == []
  {
  }

  lemma {:induction false} WorkKeysGrow(obligations: seq<Obligation>, i: nat)
    requires i < |obligations|
    ensures WorkKeys(obligations[..i + 1]) == WorkKeys(obligations[..i]) + KeysOf(obligations[i])
  {
    assert obligations[..i + 1][..i] == obligations[..i];
  }

  /** The loop over obligations. */
  method CheckObligations(x: Indexes, s: Semantics) returns (ok: bool)
    ensures ok <==> && Identified(Ids(s.obligations, ObligationKey))
                    && (forall i :: 0 <= i < |s.obligations| ==> ObligationAgrees(x, s, s.obligations[i]))
                    && Distinct(WorkKeys(s.obligations))
  {
    hide ObligationAgrees, KeysOf, WorkKeys;
    WorkKeysStart(s.obligations);
    var seen: set<string>, work: set<string> := {}, {};
    for i := 0 to |s.obligations|
      invariant Identified(Ids(s.obligations, ObligationKey)[..i])
      invariant seen == set k | 0 <= k < i :: s.obligations[k].obligationId
      invariant forall k :: 0 <= k < i ==> ObligationAgrees(x, s, s.obligations[k])
      invariant Distinct(WorkKeys(s.obligations[..i]))
      invariant work == set k | k in WorkKeys(s.obligations[..i])
    {
      WorkKeysGrow(s.obligations, i);
      var o := s.obligations[i];
      if o.obligationId == "" || o.obligationId in seen {
        assert !Identified(Ids(s.obligations, ObligationKey));
        return false;
      }
      seen := seen + {o.obligationId};
      var agrees := CheckObligation(x, s, o);
      if !agrees {
        return false;
      }
      var isNew, more := AddWork(KeysOf(o), work, WorkKeys(s.obligations[..i]));
      if !isNew {
        WorkKeysPrefix(s.obligations, i + 1);
        return false;
      }
      work := more;
    }
    assert s.obligations[..|s.obligations|] == s.obligations;
    ok := true;
  }

  method CheckDimension(x: Indexes, s: Semantics, d: UnsupportedDimension) returns (ok: bool)
    ensures ok <==> DimensionAgrees(x, s, d)
  {
    if d.dimension == "" || d.reason == "" || |d.sourceMemberRefs| == 0 {
      return false;
    }
    ok := AllReferTo(d.sourceMemberRefs, Kind.SourceMember, s.semanticsId, x.members.Keys);
    if !ok {
      return false;
    }
    ok := AllReferTo(d.sourceArtifactRefs, Kind.SourceArtifact, s.semanticsId, x.artifacts.Keys);
    if !ok {
      return false;
    }
    ok := AllReferTo(d.sourceInputRefs, Kind.TestInput, s.semanticsId, x.outerInputs.Keys);
  }

  /** The loop over unsupported dimensions, collecting what they excuse. */
  method CheckDimensions(x: Indexes, s: Semantics)
    returns (ok: bool, members: set<string>, artifacts: set<string>, inputs: set<string>)
    ensures ok <==> forall i :: 0 <= i < |s.unsupportedDimensions| ==> DimensionAgrees(x, s, s.unsupportedDimensions[i])
    ensures ok ==>
              && members == UnsupportedMembers(s) && artifacts == UnsupportedArtifacts(s)
              && inputs == UnsupportedInputs(s)
  {
    members, artifacts, inputs := {}, {}, {};
    hide DimensionAgrees;
    for i := 0 to |s.unsupportedDimensions|
      invariant forall k :: 0 <= k < i ==> DimensionAgrees(x, s, s.unsupportedDimensions[k])
      invariant members == UnionOver(s.unsupportedDimensions[..i], DimensionMembers)
      invariant artifacts == UnionOver(s.unsupportedDimensions[..i], DimensionArtifacts)
      invariant inputs == UnionOver(s.unsupportedDimensions[..i], DimensionInputs)
    {
      UnionGrows(s.unsupportedDimensions, DimensionMembers, i);
      UnionGrows(s.unsupportedDimensions, DimensionArtifacts, i);
      UnionGrows(s.unsupportedDimensions, DimensionInputs, i);
      var agrees := CheckDimension(x, s, s.unsupportedDimensions[i]);
      if !agrees {
        return false, {}, {}, {};
      }
      members := members + IdSet(s.unsupportedDimensions[i].sourceMemberRefs);
      artifacts := artifacts + IdSet(s.unsupportedDimensions[i].sourceArtifactRefs);
      inputs := inputs + IdSet(s.unsupportedDimensions[i].sourceInputRefs);
    }
    assert s.unsupportedDimensions[..|s.unsupportedDimensions|] == s.unsupportedDimensions;
    ok := true;
  }

  /** The indexes, or nothing when an identifier is missing or repeated. */
  method BuildIndexes(cg: Document, s: Semantics) returns (x: Option<Indexes>)
    ensures x.Some? <==> Identities(cg, s)
    ensures x.Some? ==> x.value == IndexesOf(cg, s)
  {
    if cg.members.None? || cg.artifacts.None? || cg.inputs.None? {
      return None;
    }
    var outerMembers := BuildIndex(cg.members.value, OuterMemberKey);
    var outerArtifacts := BuildIndex(cg.artifacts.value, OuterArtifactKey);
    var outerInputs := BuildIndex(cg.inputs.value, OuterInputKey);
    var members := BuildIndex(s.members, MemberKey);
    var artifacts := BuildIndex(s.artifacts, ArtifactKey);
    var inputs := BuildIndex(s.testInputs, InputKey);
    var components := BuildIndex(s.components, ComponentKey);
    if outerMembers.None? || outerArtifacts.None? || outerInputs.None? || members.None? || artifacts.None?
       || inputs.None? || components.None? {
      return None;
    }
    return Some(Indexes(outerMembers.value, outerArtifacts.value, outerInputs.value, members.value, artifacts.value,
                        inputs.value, components.value.Keys, Index(s.obligations, ObligationKey).Keys));
  }

  /** The checks after the loops. */
  method PartitionsCount(x: Indexes, s: Semantics, members: set<string>, noMembers: set<string>,
                         artifacts: set<string>, noArtifacts: set<string>, inputs: set<string>, noInputs: set<string>,
                         claimers: set<string>) returns (ok: bool)
    requires members == RepresentedMembers(s) && artifacts == RepresentedArtifacts(s) && inputs == RepresentedInputs(s)
    requires noMembers == UnsupportedMembers(s) && noArtifacts == UnsupportedArtifacts(s)
             && noInputs == UnsupportedInputs(s)
    requires claimers == Claims(x, s.artifacts).0
    ensures ok <==> Counted(x, s)
  {
    hide RepresentedMembers, RepresentedArtifacts, RepresentedInputs, Claims;
    hide UnsupportedMembers, UnsupportedArtifacts, UnsupportedInputs;
    ok := && members !! noMembers && |members| + |noMembers| == |x.members| && x.members.Keys <= members + noMembers
          && artifacts !! noArtifacts && |artifacts| + |noArtifacts| == |x.artifacts|
          && (forall id :: id in x.artifacts ==> (id in artifacts <==> id in claimers))
          && inputs !! noInputs && |inputs| + |noInputs| == |x.outerInputs|;
  }

  /** validateSharedCompleteness: it accepts exactly the complete documents. */
  method ValidateCompleteness(cg: Document, s: Semantics) returns (ok: bool)
    ensures ok <==> Complete(cg, s)
  {
    hide Identities, MemberAgrees, ArtifactAgrees, InputAgrees, ObligationAgrees, DimensionAgrees, Claims, WorkKeys;
    hide RepresentedMembers, RepresentedArtifacts, RepresentedInputs, IndexesOf, Counted, SameIdentities, Identified;
    hide UnsupportedMembers, UnsupportedArtifacts, UnsupportedInputs;
    var indexes := BuildIndexes(cg, s);
    if indexes.None? {
      return false;
    }
    var x := indexes.value;
    if !SameIdentities(x, s) {
      return false;
    }
    ok := CheckMembers(x, s);
    if !ok {
      return false;
    }
    var claimers: set<string>;
    ok, claimers := CheckArtifacts(x, s);
    if !ok {
      return false;
    }
    var members, artifacts, inputs;
    ok, members, artifacts, inputs := CheckInputs(x, s);
    if !ok {
      return false;
    }
    ok := CheckObligations(x, s);
    if !ok {
      return false;
    }
    var noMembers, noArtifacts, noInputs;
    ok, noMembers, noArtifacts, noInputs := CheckDimensions(x, s);
    if !ok {
      return false;
    }
    ok := PartitionsCount(x, s, members, noMembers, artifacts, noArtifacts, inputs, noInputs, claimers);
  }
}
