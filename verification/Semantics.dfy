/**
 The documents the shared-contract verifier reads (api/shared_contract_v2.go): the outer Check Generation document
 and the attack semantics embedded in it. Schema validation and digests have happened before; an array that is
 absent is None, an element that is not an object has the empty identifier.
 */
module Semantics {
  import opened Wrappers
  import opened Refs
  import opened Coverage

  datatype OuterMember = OuterMember(
    memberId: string, signalId: string, affectedArtifactId: string, terminalState: string, artifactRefs: seq<string>)

  datatype SemanticsRef = SemanticsRef(semanticsId: string, componentIds: seq<string>, obligationIds: seq<string>)

  datatype OuterArtifact = OuterArtifact(
    artifactId: string, artifactKind: string, signalIds: seq<string>, affectedArtifactIds: seq<string>,
    memberIds: seq<string>, contentHash: string, semanticsRef: Option<SemanticsRef>)

  datatype OuterInput = OuterInput(inputId: string, artifactId: string, memberIds: seq<string>)

  datatype Document = Document(
    members: Option<seq<OuterMember>>, artifacts: Option<seq<OuterArtifact>>, inputs: Option<seq<OuterInput>>)

  /** Where an artifact's bytes are: inside the document (and whether they resolve to the locator), or elsewhere. */
  datatype Content = Internal(resolves: bool) | External(digest: string)

  datatype SourceMember = SourceMember(
    memberId: string, signalId: string, affectedArtifactId: string, terminalState: string, artifactRefs: seq<TypedRef>)

  datatype SourceArtifact = SourceArtifact(
    artifactId: string, artifactKind: string, signalIds: seq<string>, affectedArtifactIds: seq<string>,
    content: Content, memberRefs: seq<TypedRef>)

  /** The fields of a test input that say where it is sent. */
  datatype HttpInput = HttpInput(
    modality: string, verb: string, scheme: string, authority: string, path: string, pathKey: string)

  datatype TestInput = TestInput(
    inputId: string, sourceMemberRefs: seq<TypedRef>, sourceArtifactRef: TypedRef, input: HttpInput)

  datatype Obligation = Obligation(
    obligationId: string, coverageRef: TypedRef, requiredInputRefs: seq<TypedRef>, required: bool)

  datatype UnsupportedDimension = UnsupportedDimension(
    dimension: string, reason: string, sourceMemberRefs: seq<TypedRef>, sourceArtifactRefs: seq<TypedRef>,
    sourceInputRefs: seq<TypedRef>)

  datatype Semantics = Semantics(
    contractId: string, semanticsRevision: int, semanticsDigest: string, semanticsId: string, memberCount: int,
    artifactCount: int,
    members: seq<SourceMember>, artifacts: seq<SourceArtifact>, testInputs: seq<TestInput>,
    obligations: seq<Obligation>, unsupportedDimensions: seq<UnsupportedDimension>,
    components: seq<Component>, groups: seq<Group>)

  function OuterMemberKey(m: OuterMember): string { m.memberId }
  function OuterArtifactKey(a: OuterArtifact): string { a.artifactId }
  function OuterInputKey(i: OuterInput): string { i.inputId }
  function MemberKey(m: SourceMember): string { m.memberId }
  function ArtifactKey(a: SourceArtifact): string { a.artifactId }
  function InputKey(i: TestInput): string { i.inputId }
  function ObligationKey(o: Obligation): string { o.obligationId }

  // What the lists refer to, element by element.
  function InputMembers(i: TestInput): set<string> { IdSet(i.sourceMemberRefs) }
  function InputArtifact(i: TestInput): set<string> { {i.sourceArtifactRef.id} }
  function InputItself(i: TestInput): set<string> { {i.inputId} }
  function DimensionMembers(d: UnsupportedDimension): set<string> { IdSet(d.sourceMemberRefs) }
  function DimensionArtifacts(d: UnsupportedDimension): set<string> { IdSet(d.sourceArtifactRefs) }
  function DimensionInputs(d: UnsupportedDimension): set<string> { IdSet(d.sourceInputRefs) }

  /** The source members, artifacts and inputs that some test input represents. */
  function RepresentedMembers(s: Semantics): set<string> { UnionOver(s.testInputs, InputMembers) }
  function RepresentedArtifacts(s: Semantics): set<string> { UnionOver(s.testInputs, InputArtifact) }
  function RepresentedInputs(s: Semantics): set<string> { UnionOver(s.testInputs, InputItself) }

  /** The ones some unsupported dimension excuses. */
  function UnsupportedMembers(s: Semantics): set<string> { UnionOver(s.unsupportedDimensions, DimensionMembers) }
  function UnsupportedArtifacts(s: Semantics): set<string> { UnionOver(s.unsupportedDimensions, DimensionArtifacts) }
  function UnsupportedInputs(s: Semantics): set<string> { UnionOver(s.unsupportedDimensions, DimensionInputs) }
}
