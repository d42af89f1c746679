/**
 What validateSharedCompleteness gives, in terms of the two documents: the semantics mirror the outer Check Generation
 document member by member, artifact by artifact and input by input.
 */
module Mirror {
  import opened Collections
  import opened Refs
  import opened Coverage
  import opened Semantics
  import opened Completeness

  ghost predicate HasMember(s: Semantics, ref: TypedRef) {
    && ref.kind == Kind.SourceMember && ref.scope == s.semanticsId
    && exists k :: 0 <= k < |s.members| && s.members[k].memberId == ref.id
  }

  ghost predicate HasArtifact(s: Semantics, ref: TypedRef) {
    && ref.kind == Kind.SourceArtifact && ref.scope == s.semanticsId
    && exists k :: 0 <= k < |s.artifacts| && s.artifacts[k].artifactId == ref.id
  }

  /** The same member, with its state renamed, the same artifacts, each a source artifact of these semantics, and an
      artifact exactly when something was found. */
  ghost predicate SameMember(s: Semantics, outer: OuterMember, m: SourceMember) {
    && m.memberId == outer.memberId && m.signalId == outer.signalId && m.affectedArtifactId == outer.affectedArtifactId
    && m.terminalState == (if outer.terminalState == "no-checkable-artifact" then "no-checkable-signal"
                           else outer.terminalState)
    && multiset(RefIds(m.artifactRefs)) == multiset(outer.artifactRefs)
    && (m.terminalState == "verified" || m.terminalState == "signal-produced" <==> |m.artifactRefs| > 0)
    && forall i :: 0 <= i < |m.artifactRefs| ==> HasArtifact(s, m.artifactRefs[i])
  }

  /** The same artifact, with the same signals, affected artifacts and members, each a source member of these semantics,
      and with content that resolves in the document or is not contradicted by its hash. */
  ghost predicate SameArtifact(s: Semantics, outer: OuterArtifact, a: SourceArtifact) {
    && a.artifactId == outer.artifactId && a.artifactKind == outer.artifactKind
    && multiset(a.signalIds) == multiset(outer.signalIds)
    && multiset(a.affectedArtifactIds) == multiset(outer.affectedArtifactIds)
    && multiset(RefIds(a.memberRefs)) == multiset(outer.memberIds)
    && (a.content.Internal? ==> a.content.resolves)
    && (a.content.External? && outer.contentHash != "" ==> outer.contentHash == a.content.digest)
    && (outer.semanticsRef.Some? ==> outer.semanticsRef.value.semanticsId == s.semanticsId)
    && forall i :: 0 <= i < |a.memberRefs| ==> HasMember(s, a.memberRefs[i])
  }

  /** The same input, from the same artifact and members, all of these semantics. */
  ghost predicate SameInput(s: Semantics, outer: OuterInput, t: TestInput) {
    && t.inputId == outer.inputId && t.sourceArtifactRef.id == outer.artifactId && HasArtifact(s, t.sourceArtifactRef)
    && multiset(RefIds(t.sourceMemberRefs)) == multiset(outer.memberIds)
    && forall n :: 0 <= n < |t.sourceMemberRefs| ==> HasMember(s, t.sourceMemberRefs[n])
  }

  // ----- one at a time -------------------------------------------------------------------------

  /** Something under a key of an index stands in the list it was built from. */
  lemma {:induction false} IndexedAt<T>(items: seq<T>, key: T -> string, id: string) returns (i: nat)
    requires Distinct(Ids(items, key)) && id in Index(items, key)
    ensures i < |items| && key(items[i]) == id && Index(items, key)[id] == items[i]
  {
    IndexFinds(items, key);
    i :| 0 <= i < |items| && key(items[i]) == id;
  }

  lemma {:induction false} Referred(s: Semantics, ref: TypedRef)
    requires Distinct(Ids(s.members, MemberKey)) && Distinct(Ids(s.artifacts, ArtifactKey))
             && ref.scope == s.semanticsId
    ensures ref.kind == Kind.SourceMember && ref.id in Index(s.members, MemberKey) ==> HasMember(s, ref)
    ensures ref.kind == Kind.SourceArtifact && ref.id in Index(s.artifacts, ArtifactKey) ==> HasArtifact(s, ref)
  {
    hide Index;
    if ref.id in Index(s.members, MemberKey) {
      var k := IndexedAt(s.members, MemberKey, ref.id);
      assert s.members[k].memberId == ref.id;
    }
    if ref.id in Index(s.artifacts, ArtifactKey) {
      var k := IndexedAt(s.artifacts, ArtifactKey, ref.id);
      assert s.artifacts[k].artifactId == ref.id;
    }
  }

  /** The indexes of a document with distinct identifiers. */
  ghost predicate Indexed(cg: Document, s: Semantics, x: Indexes) {
    Identities(cg, s) && x == IndexesOf(cg, s)
  }

  lemma {:induction false} MemberMirrored(cg: Document, s: Semantics, x: Indexes, m: SourceMember) returns (i: nat)
    requires Indexed(cg, s, x) && MemberAgrees(x, s, m)
    ensures i < |cg.members.value| && SameMember(s, cg.members.value[i], m)
  {
    hide Index, HasArtifact, Ids;
    i := IndexedAt(cg.members.value, OuterMemberKey, m.memberId);
    forall n | 0 <= n < |m.artifactRefs| ensures HasArtifact(s, m.artifactRefs[n]) {
      Referred(s, m.artifactRefs[n]);
    }
  }

  lemma {:induction false} ArtifactMirrored(cg: Document, s: Semantics, x: Indexes, a: SourceArtifact) returns (i: nat)
    requires Indexed(cg, s, x) && ArtifactAgrees(x, s, a)
    ensures i < |cg.artifacts.value| && SameArtifact(s, cg.artifacts.value[i], a)
  {
    hide Index, HasMember, Ids;
    i := IndexedAt(cg.artifacts.value, OuterArtifactKey, a.artifactId);
    forall n | 0 <= n < |a.memberRefs| ensures HasMember(s, a.memberRefs[n]) {
      Referred(s, a.memberRefs[n]);
    }
  }

  lemma {:induction false} InputMirrored(cg: Document, s: Semantics, x: Indexes, t: TestInput) returns (i: nat)
    requires Indexed(cg, s, x) && InputAgrees(x, s, t)
    ensures i < |cg.inputs.value| && SameInput(s, cg.inputs.value[i], t)
  {
    hide Index, HasMember, HasArtifact, Ids;
    i := IndexedAt(cg.inputs.value, OuterInputKey, t.inputId);
    Referred(s, t.sourceArtifactRef);
    forall n | 0 <= n < |t.sourceMemberRefs| ensures HasMember(s, t.sourceMemberRefs[n]) {
      Referred(s, t.sourceMemberRefs[n]);
    }
  }

  /** What acceptance says about each element. */
  lemma {:induction false} AcceptedElements(cg: Document, s: Semantics)
    requires Complete(cg, s)
    ensures Indexed(cg, s, IndexesOf(cg, s)) && SameIdentities(IndexesOf(cg, s), s)
    ensures forall m :: m in s.members ==> MemberAgrees(IndexesOf(cg, s), s, m)
    ensures forall a :: a in s.artifacts ==> ArtifactAgrees(IndexesOf(cg, s), s, a)
    ensures forall t :: t in s.testInputs ==> InputAgrees(IndexesOf(cg, s), s, t)
  {
    hide IndexesOf, Identities, MemberAgrees, ArtifactAgrees, InputAgrees, ObligationAgrees, DimensionAgrees, Counted;
    hide Claims, WorkKeys, SameIdentities;
  }

  lemma {:induction false} SameKeySamePlace<T>(items: seq<T>, key: T -> string, i: nat, k: nat)
    requires Distinct(Ids(items, key)) && i < |items| && k < |items| && key(items[i]) == key(items[k])
    ensures i == k
  {
    assert Ids(items, key)[i] == Ids(items, key)[k];
  }

  // ----- the whole documents -------------------------------------------------------------------

  ghost predicate MemberStandsFor(cg: Document, s: Semantics, i: nat, k: nat) {
    && cg.members.Some? && i < |cg.members.value| && k < |s.members|
    && SameMember(s, cg.members.value[i], s.members[k])
  }

  ghost predicate ArtifactStandsFor(cg: Document, s: Semantics, i: nat, k: nat) {
    && cg.artifacts.Some? && i < |cg.artifacts.value| && k < |s.artifacts|
    && SameArtifact(s, cg.artifacts.value[i], s.artifacts[k])
  }

  ghost predicate InputStandsFor(cg: Document, s: Semantics, i: nat, k: nat) {
    && cg.inputs.Some? && i < |cg.inputs.value| && k < |s.testInputs|
    && SameInput(s, cg.inputs.value[i], s.testInputs[k])
  }

  /** In accepted documents every source member, source artifact and test input stands for an outer one. */
  lemma {:induction false} EachStandsForOne(cg: Document, s: Semantics, k: nat)
    requires Complete(cg, s)
    ensures k < |s.members| ==> exists i: nat :: MemberStandsFor(cg, s, i, k)
    ensures k < |s.artifacts| ==> exists i: nat :: ArtifactStandsFor(cg, s, i, k)
    ensures k < |s.testInputs| ==> exists i: nat :: InputStandsFor(cg, s, i, k)
  {
    hide Complete, MemberAgrees, ArtifactAgrees, InputAgrees, SameMember, SameArtifact, SameInput, SameIdentities;
    AcceptedElements(cg, s);
    var x := IndexesOf(cg, s);
    hide IndexesOf;
    if k < |s.members| {
      assert s.members[k] in s.members;
      var i := MemberMirrored(cg, s, x, s.members[k]);
      assert MemberStandsFor(cg, s, i, k);
    }
    if k < |s.artifacts| {
      assert s.artifacts[k] in s.artifacts;
      var i := ArtifactMirrored(cg, s, x, s.artifacts[k]);
      assert ArtifactStandsFor(cg, s, i, k);
    }
    if k < |s.testInputs| {
      assert s.testInputs[k] in s.testInputs;
      var i := InputMirrored(cg, s, x, s.testInputs[k]);
      assert InputStandsFor(cg, s, i, k);
    }
  }

  /** And every outer member and every outer artifact has one that stands for it. */
  lemma {:induction false} EachHasOne(cg: Document, s: Semantics, i: nat)
    requires Complete(cg, s)
    ensures cg.members.Some? && cg.artifacts.Some? && cg.inputs.Some?
    ensures i < |cg.members.value| ==> exists k: nat :: MemberStandsFor(cg, s, i, k)
    ensures i < |cg.artifacts.value| ==> exists k: nat :: ArtifactStandsFor(cg, s, i, k)
  {
    hide Complete, MemberAgrees, ArtifactAgrees, InputAgrees, SameMember, SameArtifact, Index, Ids;
    AcceptedElements(cg, s);
    var x := IndexesOf(cg, s);
    if i < |cg.members.value| {
      IndexFinds(cg.members.value, OuterMemberKey);
      var k := IndexedAt(s.members, MemberKey, OuterMemberKey(cg.members.value[i]));
      assert s.members[k] in s.members;
      var n := MemberMirrored(cg, s, x, s.members[k]);
      MemberIdentity(s, cg.members.value[n], s.members[k]);
      SameKeySamePlace(cg.members.value, OuterMemberKey, n, i);
      assert MemberStandsFor(cg, s, i, k);
    }
    if i < |cg.artifacts.value| {
      IndexFinds(cg.artifacts.value, OuterArtifactKey);
      var k := IndexedAt(s.artifacts, ArtifactKey, OuterArtifactKey(cg.artifacts.value[i]));
      assert s.artifacts[k] in s.artifacts;
      var n := ArtifactMirrored(cg, s, x, s.artifacts[k]);
      ArtifactIdentity(s, cg.artifacts.value[n], s.artifacts[k]);
      SameKeySamePlace(cg.artifacts.value, OuterArtifactKey, n, i);
      assert ArtifactStandsFor(cg, s, i, k);
    }
  }

  lemma {:induction false} MemberIdentity(s: Semantics, outer: OuterMember, m: SourceMember)
    requires SameMember(s, outer, m)
    ensures m.memberId == outer.memberId
  {
  }

  lemma {:induction false} ArtifactIdentity(s: Semantics, outer: OuterArtifact, a: SourceArtifact)
    requires SameArtifact(s, outer, a)
    ensures a.artifactId == outer.artifactId
  {
  }

  /** The declared counts are those of both documents. */
  lemma {:induction false} CountsMirrored(cg: Document, s: Semantics)
    requires Complete(cg, s)
    ensures cg.members.Some? && s.memberCount == |s.members| == |cg.members.value|
    ensures cg.artifacts.Some? && s.artifactCount == |s.artifacts| == |cg.artifacts.value|
  {
    hide Complete, MemberAgrees, ArtifactAgrees, InputAgrees, Index;
    AcceptedElements(cg, s);
    IndexSize(s.members, MemberKey);
    IndexSize(cg.members.value, OuterMemberKey);
    IndexSize(s.artifacts, ArtifactKey);
    IndexSize(cg.artifacts.value, OuterArtifactKey);
    var x := IndexesOf(cg, s);
    assert |x.members| == |x.members.Keys| && |x.outerMembers| == |x.outerMembers.Keys|;
    assert |x.artifacts| == |x.artifacts.Keys| && |x.outerArtifacts| == |x.outerArtifacts.Keys|;
  }

  ghost predicate HasInput(s: Semantics, ref: TypedRef) {
    && ref.kind == Kind.TestInput && ref.scope == s.semanticsId
    && exists k :: 0 <= k < |s.testInputs| && s.testInputs[k].inputId == ref.id
  }

  /** Every accepted obligation is required and asks for test inputs of these semantics; every unsupported dimension
      has a name, a reason and a member, and excuses only members and artifacts of these semantics; identifiers are
      distinct. */
  lemma {:induction false} ObligationsStayInside(cg: Document, s: Semantics, i: nat, k: nat)
    requires Complete(cg, s)
    ensures i < |s.obligations| ==> s.obligations[i].required && s.obligations[i].obligationId != ""
    ensures i < |s.obligations| && k < |s.obligations[i].requiredInputRefs| ==>
              HasInput(s, s.obligations[i].requiredInputRefs[k])
    ensures i < k < |s.obligations| ==> s.obligations[i].obligationId != s.obligations[k].obligationId
    ensures i < |s.unsupportedDimensions| ==>
              var d := s.unsupportedDimensions[i];
              && d.dimension != "" && d.reason != "" && |d.sourceMemberRefs| > 0
              && (k < |d.sourceMemberRefs| ==> HasMember(s, d.sourceMemberRefs[k]))
              && (k < |d.sourceArtifactRefs| ==> HasArtifact(s, d.sourceArtifactRefs[k]))
  {
    AcceptedRest(cg, s);
    var x := IndexesOf(cg, s);
    hide Complete, Index, HasMember, HasArtifact, Requirements;
    if i < |s.obligations| {
      assert Ids(s.obligations, ObligationKey)[i] != "";
      assert ObligationAgrees(x, s, s.obligations[i]);
      if k < |s.obligations[i].requiredInputRefs| {
        var n := IndexedAt(s.testInputs, InputKey, s.obligations[i].requiredInputRefs[k].id);
        assert s.testInputs[n].inputId == s.obligations[i].requiredInputRefs[k].id;
      }
      if i < k < |s.obligations| {
        assert Ids(s.obligations, ObligationKey)[i] != Ids(s.obligations, ObligationKey)[k];
      }
    }
    if i < |s.unsupportedDimensions| {
      var d := s.unsupportedDimensions[i];
      assert DimensionAgrees(x, s, d);
      if k < |d.sourceMemberRefs| {
        Referred(s, d.sourceMemberRefs[k]);
      }
      if k < |d.sourceArtifactRefs| {
        Referred(s, d.sourceArtifactRefs[k]);
      }
    }
  }

  lemma {:induction false} AcceptedRest(cg: Document, s: Semantics)
    requires Complete(cg, s)
    ensures Indexed(cg, s, IndexesOf(cg, s)) && Identified(Ids(s.obligations, ObligationKey))
    ensures forall i :: 0 <= i < |s.obligations| ==> ObligationAgrees(IndexesOf(cg, s), s, s.obligations[i])
    ensures forall i :: 0 <= i < |s.unsupportedDimensions| ==>
              DimensionAgrees(IndexesOf(cg, s), s, s.unsupportedDimensions[i])
  {
    hide IndexesOf, Identities, MemberAgrees, ArtifactAgrees, InputAgrees, ObligationAgrees, DimensionAgrees, Counted;
    hide Claims, WorkKeys, SameIdentities;
  }

  // ----- partitions and claims, in terms of the lists ------------------------------------------

  /** Some reference in the list has this identifier. */
  ghost predicate Names(refs: seq<TypedRef>, id: string) {
    exists j :: 0 <= j < |refs| && refs[j].id == id
  }

  /** Some test input comes from the member, or from the artifact, or is the input. */
  ghost predicate MemberTested(s: Semantics, id: string) {
    exists i :: 0 <= i < |s.testInputs| && Names(s.testInputs[i].sourceMemberRefs, id)
  }

  ghost predicate ArtifactTested(s: Semantics, id: string) {
    exists i :: 0 <= i < |s.testInputs| && s.testInputs[i].sourceArtifactRef.id == id
  }

  ghost predicate InputTested(s: Semantics, id: string) {
    exists i :: 0 <= i < |s.testInputs| && s.testInputs[i].inputId == id
  }

  /** Some unsupported dimension excuses it. */
  ghost predicate MemberExcused(s: Semantics, id: string) {
    exists i :: 0 <= i < |s.unsupportedDimensions| && Names(s.unsupportedDimensions[i].sourceMemberRefs, id)
  }

  ghost predicate ArtifactExcused(s: Semantics, id: string) {
    exists i :: 0 <= i < |s.unsupportedDimensions| && Names(s.unsupportedDimensions[i].sourceArtifactRefs, id)
  }

  ghost predicate InputExcused(s: Semantics, id: string) {
    exists i :: 0 <= i < |s.unsupportedDimensions| && Names(s.unsupportedDimensions[i].sourceInputRefs, id)
  }

  lemma {:induction false} SetsMean(s: Semantics, id: string)
    ensures id in RepresentedMembers(s) <==> MemberTested(s, id)
    ensures id in RepresentedArtifacts(s) <==> ArtifactTested(s, id)
    ensures id in RepresentedInputs(s) <==> InputTested(s, id)
    ensures id in UnsupportedMembers(s) <==> MemberExcused(s, id)
    ensures id in UnsupportedArtifacts(s) <==> ArtifactExcused(s, id)
    ensures id in UnsupportedInputs(s) <==> InputExcused(s, id)
  {
    hide UnionOver;
    InUnion(s.testInputs, InputMembers, id);
    InUnion(s.testInputs, InputArtifact, id);
    InUnion(s.testInputs, InputItself, id);
    InUnion(s.unsupportedDimensions, DimensionMembers, id);
    InUnion(s.unsupportedDimensions, DimensionArtifacts, id);
    InUnion(s.unsupportedDimensions, DimensionInputs, id);
    forall refs: seq<TypedRef> ensures id in IdSet(refs) <==> Names(refs, id) {
    }
  }

  /** In accepted documents every source member, every source artifact and every outer input is tested or excused, and
      none of them both. */
  lemma {:induction false} TestedOrExcused(cg: Document, s: Semantics, k: nat)
    requires Complete(cg, s)
    ensures k < |s.members| ==> (MemberTested(s, s.members[k].memberId) <==> !MemberExcused(s, s.members[k].memberId))
    ensures k < |s.artifacts| ==>
              (ArtifactTested(s, s.artifacts[k].artifactId) <==> !ArtifactExcused(s, s.artifacts[k].artifactId))
    ensures cg.inputs.Some?
    ensures k < |cg.inputs.value| ==>
              (InputTested(s, cg.inputs.value[k].inputId) <==> !InputExcused(s, cg.inputs.value[k].inputId))
  {
    AcceptancePartitions(cg, s);
    AcceptedRest(cg, s);
    hide Complete, RepresentedMembers, RepresentedArtifacts, RepresentedInputs, Index, Ids;
    hide UnsupportedMembers, UnsupportedArtifacts, UnsupportedInputs, ObligationAgrees, DimensionAgrees;
    hide MemberTested, ArtifactTested, InputTested, MemberExcused, ArtifactExcused, InputExcused;
    if k < |s.members| {
      SetsMean(s, s.members[k].memberId);
      IndexFinds(s.members, MemberKey);
      assert MemberKey(s.members[k]) in Index(s.members, MemberKey);
    }
    if k < |s.artifacts| {
      SetsMean(s, s.artifacts[k].artifactId);
      IndexFinds(s.artifacts, ArtifactKey);
      assert ArtifactKey(s.artifacts[k]) in Index(s.artifacts, ArtifactKey);
    }
    if k < |cg.inputs.value| {
      SetsMean(s, cg.inputs.value[k].inputId);
      IndexFinds(cg.inputs.value, OuterInputKey);
      assert OuterInputKey(cg.inputs.value[k]) in Index(cg.inputs.value, OuterInputKey);
    }
  }

  /** The artifact claims to be the semantics, of this component and of this obligation. */
  ghost predicate ClaimsToBe(cg: Document, artifactId: string) {
    && cg.artifacts.Some?
    && exists i :: 0 <= i < |cg.artifacts.value| && cg.artifacts.value[i].artifactId == artifactId
                   && cg.artifacts.value[i].semanticsRef.Some?
  }

  ghost predicate ComponentClaimed(cg: Document, id: string) {
    && cg.artifacts.Some?
    && exists i :: 0 <= i < |cg.artifacts.value| && cg.artifacts.value[i].semanticsRef.Some?
                   && id in cg.artifacts.value[i].semanticsRef.value.componentIds
  }

  ghost predicate ObligationClaimed(cg: Document, id: string) {
    && cg.artifacts.Some?
    && exists i :: 0 <= i < |cg.artifacts.value| && cg.artifacts.value[i].semanticsRef.Some?
                   && id in cg.artifacts.value[i].semanticsRef.value.obligationIds
  }

  lemma {:induction false} ClaimsMean(x: Indexes, artifacts: seq<SourceArtifact>, id: string)
    ensures id in Claims(x, artifacts).0 ==>
              && id in x.outerArtifacts && x.outerArtifacts[id].semanticsRef.Some?
              && exists a :: a in artifacts && a.artifactId == id
    ensures id in Claims(x, artifacts).1 ==>
              exists k :: k in x.outerArtifacts && x.outerArtifacts[k].semanticsRef.Some?
                          && id in x.outerArtifacts[k].semanticsRef.value.componentIds
    ensures id in Claims(x, artifacts).2 ==>
              exists k :: k in x.outerArtifacts && x.outerArtifacts[k].semanticsRef.Some?
                          && id in x.outerArtifacts[k].semanticsRef.value.obligationIds
    ensures forall a ::
              a in artifacts && a.artifactId in x.outerArtifacts
                  && x.outerArtifacts[a.artifactId].semanticsRef.Some? ==>
                a.artifactId in Claims(x, artifacts).0
    decreases |artifacts|
  {
    if artifacts != [] {
      var init, last := artifacts[..|artifacts| - 1], artifacts[|artifacts| - 1];
      ClaimsMean(x, init, id);
      assert artifacts == init + [last];
    }
  }

  /** In accepted documents an artifact is tested exactly when its outer artifact claims to be the semantics, and
      between them these claim every component and every obligation. */
  lemma {:induction false} ClaimedAndTested(cg: Document, s: Semantics, k: nat)
    requires Complete(cg, s)
    ensures k < |s.artifacts| ==>
            (ArtifactTested(s, s.artifacts[k].artifactId) <==> ClaimsToBe(cg, s.artifacts[k].artifactId))
    ensures k < |s.components| ==> ComponentClaimed(cg, s.components[k].componentId)
    ensures k < |s.obligations| ==> ObligationClaimed(cg, s.obligations[k].obligationId)
  {
    ClaimsAreComplete(cg, s);
    AcceptedRest(cg, s);
    AcceptedElements(cg, s);
    var x := IndexesOf(cg, s);
    hide Complete, Index, Ids, Claims, RepresentedArtifacts, ObligationAgrees, DimensionAgrees, MemberAgrees,
         InputAgrees;
    hide SameIdentities, ArtifactTested;
    if k < |s.artifacts| {
      var a := s.artifacts[k];
      assert a in s.artifacts;
      assert ArtifactAgrees(x, s, a);
      SetsMean(s, a.artifactId);
      ClaimsMean(x, s.artifacts, a.artifactId);
      var i := IndexedAt(cg.artifacts.value, OuterArtifactKey, a.artifactId);
      OneOuterArtifact(cg, x, i, a.artifactId);
    }
    if k < |s.components| {
      var id := s.components[k].componentId;
      IndexFinds(s.components, ComponentKey);
      assert ComponentKey(s.components[k]) == id;
      ClaimsMean(x, s.artifacts, id);
      var n :| n in x.outerArtifacts && x.outerArtifacts[n].semanticsRef.Some?
               && id in x.outerArtifacts[n].semanticsRef.value.componentIds;
      var i := IndexedAt(cg.artifacts.value, OuterArtifactKey, n);
      assert cg.artifacts.value[i] == x.outerArtifacts[n];
    }
    if k < |s.obligations| {
      var id := s.obligations[k].obligationId;
      IndexFinds(s.obligations, ObligationKey);
      assert ObligationKey(s.obligations[k]) == id;
      ClaimsMean(x, s.artifacts, id);
      var n :| n in x.outerArtifacts && x.outerArtifacts[n].semanticsRef.Some?
               && id in x.outerArtifacts[n].semanticsRef.value.obligationIds;
      var i := IndexedAt(cg.artifacts.value, OuterArtifactKey, n);
      assert cg.artifacts.value[i] == x.outerArtifacts[n];
    }
  }

  lemma {:induction false} OneOuterArtifact(cg: Document, x: Indexes, i: nat, id: string)
    requires cg.artifacts.Some? && Distinct(Ids(cg.artifacts.value, OuterArtifactKey)) && i < |cg.artifacts.value|
    requires cg.artifacts.value[i].artifactId == id && id in x.outerArtifacts
             && x.outerArtifacts[id] == cg.artifacts.value[i]
    ensures ClaimsToBe(cg, id) <==> x.outerArtifacts[id].semanticsRef.Some?
  {
    if k :| 0 <= k < |cg.artifacts.value| && cg.artifacts.value[k].artifactId == id
            && cg.artifacts.value[k].semanticsRef.Some? {
      SameKeySamePlace(cg.artifacts.value, OuterArtifactKey, i, k);
    }
  }
}
