/**
 validateSharedBundle of api/shared_contract_v2.go: the decoded bundle, the JSON document it was decoded from, and the
 Check Generation document it is bound to.
 */
module Bundle {
  import opened Collections
  import opened Wrappers
  import opened Refs
  import opened Coverage
  import opened Semantics
  import opened JsonPointer
  import opened JsonValues
  import opened CanonicalJson
  import opened BundleDigests

  datatype BundleArtifact = BundleArtifact(
    artifactId: string, order: int, content: Locator, applicationGroupRef: TypedRef, dependsOn: seq<TypedRef>)

  datatype Directive = Directive(directiveId: string, artifactRef: TypedRef)

  datatype Mapping = Mapping(
    obligationId: string, semanticsRefs: seq<TypedRef>, sourceMemberRefs: seq<TypedRef>, artifactRefs: seq<TypedRef>,
    directiveRefs: seq<TypedRef>, coverage: string)

  /** How a set of artifacts is applied, rolled back, removed and read back. */
  datatype Handling = Handling(apply: string, rollback: string, remove: string, readback: string)

  datatype AtomicGroup = AtomicGroup(atomicGroupId: string, artifactRefs: seq<TypedRef>, handling: Handling)

  datatype ProvenanceStep = ProvenanceStep(order: int, outputDigest: string)

  datatype CandidateBundle = CandidateBundle(
    contractId: string, digestProfile: string, selectedControlClass: string, candidateDigest: string,
    bundleDigest: string, binding: Binding, bundleId: string, artifacts: seq<BundleArtifact>,
    directives: seq<Directive>, mappings: seq<Mapping>,
    unitRefs: seq<TypedRef>, unitHandling: Handling, groups: seq<AtomicGroup>, provenance: seq<ProvenanceStep>)

  /** What a bundle is judged against: its own document, the result it comes from, the place and the document of the
      Check Generation result, and the semantics. */
  datatype Submission = Submission(
    document: map<string, Json>, contents: map<string, string>, resultId: string, place: ResultPlace, cg: Json,
    s: Semantics)

  const DIGEST_PROFILE := "rfc8785-sha256-exclude-bundle_digest-and-candidate_digest-v1"
  const UNIT_HANDLING := Handling("all-or-nothing", "all-or-nothing", "all-or-nothing",
                                  "verify-every-artifact-or-rollback")
  const GROUP_HANDLING := Handling("all-or-nothing", "all-or-nothing", "all-or-nothing", "verify-group-or-rollback")

  function ArtifactKey(a: BundleArtifact): string { a.artifactId }
  function DirectiveKey(d: Directive): string { d.directiveId }
  function GroupKey(g: AtomicGroup): string { g.atomicGroupId }
  function MappingKey(m: Mapping): string { m.obligationId }

  // ----- what is accepted ----------------------------------------------------------------------

  predicate ValidContentUri(c: Codecs, uri: string, resultId: string, artifactId: string) {
    uri == "janus-result-internal:" + c.queryEscape(resultId) + "#" + ContentPointer(artifactId)
  }

  predicate ContentAgrees(c: Codecs, a: BundleArtifact, contents: map<string, string>, resultId: string) {
    && a.artifactId in contents
    && a.content.digest == c.digest(contents[a.artifactId]) && a.content.byteLength == c.size(contents[a.artifactId])
    && a.content.immutable && ValidContentUri(c, a.content.uri, resultId, a.artifactId)
  }

  predicate ArtifactFits(c: Codecs, a: BundleArtifact, position: int, contents: map<string, string>, resultId: string) {
    a.order == position && ContentAgrees(c, a, contents, resultId)
  }

  ghost predicate ArtifactsAgree(c: Codecs, b: CandidateBundle, contents: map<string, string>, resultId: string) {
    && Identified(Ids(b.artifacts, ArtifactKey))
    && (forall i :: 0 <= i < |b.artifacts| ==> ArtifactFits(c, b.artifacts[i], i, contents, resultId))
    && |b.artifacts| > 0 && |b.artifacts| == |contents|
  }

  ghost predicate UnitAgrees(b: CandidateBundle, index: map<string, BundleArtifact>) {
    && Checked(b.unitRefs, Kind.BundleArtifact, b.bundleId, index.Keys)
    && Lists(RefIds(b.unitRefs), index.Keys) && b.unitHandling == UNIT_HANDLING
  }

  ghost predicate GroupsAgree(b: CandidateBundle, index: map<string, BundleArtifact>) {
    && Identified(Ids(b.groups, GroupKey))
    && forall i :: 0 <= i < |b.groups| ==>
         && b.groups[i].handling == GROUP_HANDLING
         && Checked(b.groups[i].artifactRefs, Kind.BundleArtifact, b.bundleId, index.Keys)
  }

  /** In how many groups an artifact is listed. */
  function Memberships(groups: seq<AtomicGroup>, id: string): nat
    decreases |groups|
  {
    if groups == [] then 0
    else Memberships(groups[..|groups| - 1], id) + (if id in IdSet(groups[|groups| - 1].artifactRefs) then 1 else 0)
  }

  ghost predicate ArtifactPlaced(b: CandidateBundle, index: map<string, BundleArtifact>, a: BundleArtifact) {
    && a.applicationGroupRef.id in (set i | 0 <= i < |b.groups| :: b.groups[i].atomicGroupId)
    && a.applicationGroupRef.kind == Kind.AtomicGroup && a.applicationGroupRef.scope == b.bundleId
    && Memberships(b.groups, a.artifactId) == 1
    && Checked(a.dependsOn, Kind.BundleArtifact, b.bundleId, index.Keys)
    && forall k :: 0 <= k < |a.dependsOn| ==> a.dependsOn[k].id in index && index[a.dependsOn[k].id].order < a.order
  }

  ghost predicate DirectivesAgree(b: CandidateBundle, index: map<string, BundleArtifact>) {
    && Identified(Ids(b.directives, DirectiveKey))
    && forall i :: 0 <= i < |b.directives| ==>
         var ref := b.directives[i].artifactRef;
         ref.id in index && ref.kind == Kind.BundleArtifact && ref.scope == b.bundleId
  }

  /** One mapping agrees with its obligation and with the coverage graph. */
  ghost predicate MappingAgrees(b: CandidateBundle, s: Semantics, index: map<string, BundleArtifact>, m: Mapping) {
    var obligations := Index(s.obligations, ObligationKey);
    && m.obligationId in obligations
    && m.coverage == "exact" && m.semanticsRefs == [obligations[m.obligationId].coverageRef]
    && var required := Requirements(s.semanticsId, s.components, s.groups, obligations[m.obligationId].coverageRef);
    && required.Ok? && multiset(RefIds(m.sourceMemberRefs)) == multiset(required.value.members)
    && OfKind(m.sourceMemberRefs, Kind.SourceMember, s.semanticsId)
    && Checked(m.artifactRefs, Kind.BundleArtifact, b.bundleId, index.Keys)
    && Checked(m.directiveRefs, Kind.Directive, b.bundleId, Index(b.directives, DirectiveKey).Keys)
  }

  ghost predicate MappingsAgree(b: CandidateBundle, s: Semantics, index: map<string, BundleArtifact>) {
    && Distinct(Ids(b.mappings, MappingKey))
    && (forall i :: 0 <= i < |b.mappings| ==> MappingAgrees(b, s, index, b.mappings[i]))
    && |b.mappings| == |Index(s.obligations, ObligationKey)|
  }

  /** validSHA256: the prefix and 64 hexadecimal digits in lower case. */
  predicate ValidSha256(digest: string) {
    && |digest| == 71 && digest[..7] == "sha256:"
    && forall i :: 7 <= i < 71 ==> '0' <= digest[i] <= '9' || 'a' <= digest[i] <= 'f'
  }

  predicate ProvenanceAgrees(b: CandidateBundle) {
    && |b.provenance| > 0
    && forall i :: 0 <= i < |b.provenance| ==> b.provenance[i].order == i && ValidSha256(b.provenance[i].outputDigest)
  }

  /** The header, the two digests and the binding. */
  ghost predicate HeaderAgrees(c: Codecs, b: CandidateBundle, x: Submission) {
    && b.contractId == "candidate-bundle@1.0" && b.digestProfile == DIGEST_PROFILE && b.selectedControlClass == "waf"
    && DigestAny(c, CandidatePreimage(x.document)) == b.candidateDigest
    && DigestAny(c, BundlePreimage(x.document)) == b.bundleDigest
    && BindingAgrees(c, b.binding, x.place, x.cg, x.s)
  }

  /** What validateSharedBundle accepts. */
  ghost predicate Accepted(c: Codecs, b: CandidateBundle, x: Submission) {
    HeaderAgrees(c, b, x) && BodyAgrees(c, b, x.contents, x.resultId, x.s)
  }

  /** What it demands of the artifacts, the groups, the directives, the mappings and the provenance. */
  ghost predicate BodyAgrees(c: Codecs, b: CandidateBundle, contents: map<string, string>, resultId: string,
                             s: Semantics) {
    var index := Index(b.artifacts, ArtifactKey);
    && ArtifactsAgree(c, b, contents, resultId)
    && UnitAgrees(b, index)
    && GroupsAgree(b, index)
    && (forall i :: 0 <= i < |b.artifacts| ==> ArtifactPlaced(b, index, b.artifacts[i]))
    && DirectivesAgree(b, index)
    && MappingsAgree(b, s, index)
    && ProvenanceAgrees(b)
  }

  // ----- what the digests give -----------------------------------------------------------------

  /** Two accepted bundles with one bundle_digest carry the same document, up to the two digests and the spelling of
      numbers, and hence one candidate_digest, unless their texts are a collision of SHA-256. An empty digest, which is
      what a document without a canonical text has, is left out. */
  lemma {:induction false} DigestIdentifiesBundle(c: Codecs, a: CandidateBundle, x: Submission, b: CandidateBundle,
                                                  y: Submission)
    requires Faithful(c.encoders) && Accepted(c, a, x) && Accepted(c, b, y)
    requires a.bundleDigest == b.bundleDigest != ""
    ensures var p, q := BundlePreimage(x.document), BundlePreimage(y.document);
            Collide(c, p, q) || (Equivalent(c.encoders, p, q) && a.candidateDigest == b.candidateDigest)
  {
    hide BodyAgrees, DigestAny, Equivalent, Collide, BundlePreimage, CandidatePreimage, Faithful;
    var p, q := BundlePreimage(x.document), BundlePreimage(y.document);
    DigestPins(c, p, q);
    if Equivalent(c.encoders, p, q) {
      CandidateIsSigned(c.encoders, x.document, y.document);
      EquivalentDigest(c, CandidatePreimage(x.document), CandidatePreimage(y.document));
    }
  }

  /** An accepted bundle is bound to one Check Generation document: another one in its place is accepted with the same
      binding only if it is the same up to the spelling of numbers, or its text is a collision. */
  lemma {:induction false} BindingIdentifiesDocument(c: Codecs, a: CandidateBundle, x: Submission, b: CandidateBundle,
                                                     y: Submission)
    requires Faithful(c.encoders) && Accepted(c, a, x) && Accepted(c, b, y)
    requires a.binding == b.binding
    ensures Collide(c, x.cg, y.cg) || Equivalent(c.encoders, x.cg, y.cg)
    ensures x.s.semanticsId == y.s.semanticsId && x.s.semanticsDigest == y.s.semanticsDigest
    ensures x.s.contractId == y.s.contractId && x.s.semanticsRevision == y.s.semanticsRevision
    ensures a.binding.contractId == x.s.contractId && a.binding.semanticsId == x.s.semanticsId
    ensures a.binding.semanticsRevision == x.s.semanticsRevision && a.binding.semanticsDigest == x.s.semanticsDigest
    ensures a.binding.locator.mediaType == "application/json" && a.binding.locator.immutable
    ensures Writable(c.encoders, x.cg) && a.binding.locator.digest == c.digest(Canonical(c.encoders, x.cg))
    ensures a.binding.locator.byteLength == c.size(Canonical(c.encoders, x.cg))
    ensures PlaceUri(c, x.place) == PlaceUri(c, y.place)
  {
    hide BodyAgrees, DigestAny, Equivalent, Faithful, Writable, Canonical;
    CanonicalIsInjective(c.encoders, x.cg, y.cg);
  }

  /** Two texts with one digest. */
  predicate TextsCollide(c: Codecs, a: string, b: string) {
    a != b && c.digest(a) == c.digest(b)
  }

  /** The digest an artifact of an accepted bundle carries identifies its content: an artifact with the same digest in
      another accepted bundle has the same content, unless the two contents are a collision. And the digest, the length
      and the locator are those of the content under the artifact's identifier. */
  lemma {:induction false} DigestIdentifiesContent(c: Codecs, a: CandidateBundle, x: Submission, i: nat,
                                                   b: CandidateBundle, y: Submission, k: nat)
    requires Accepted(c, a, x) && Accepted(c, b, y) && i < |a.artifacts| && k < |b.artifacts|
    ensures a.artifacts[i].artifactId in x.contents && b.artifacts[k].artifactId in y.contents
    ensures var left, right := x.contents[a.artifacts[i].artifactId], y.contents[b.artifacts[k].artifactId];
            a.artifacts[i].content.digest == b.artifacts[k].content.digest ==>
              left == right || TextsCollide(c, left, right)
    ensures var item, text := a.artifacts[i], x.contents[a.artifacts[i].artifactId];
            && item.content.digest == c.digest(text) && item.content.byteLength == c.size(text)
            && item.content.immutable && item.order == i && item.artifactId != ""
            && item.content.uri == "janus-result-internal:" + c.queryEscape(x.resultId) + "#"
                                   + ContentPointer(item.artifactId)
  {
    hide HeaderAgrees, UnitAgrees, GroupsAgree, ArtifactPlaced, DirectivesAgree, MappingsAgree, ProvenanceAgrees;
    hide ContentPointer;
    assert ArtifactFits(c, a.artifacts[i], i, x.contents, x.resultId);
    assert ArtifactFits(c, b.artifacts[k], k, y.contents, y.resultId);
    assert Ids(a.artifacts, ArtifactKey)[i] != "";
  }

  /** An accepted bundle is applied, rolled back and removed as a whole and read back artifact by artifact, and so is
      each of its groups; its directives have distinct identifiers and name its artifacts; and its provenance counts
      its steps from zero, each with a digest. */
  lemma {:induction false} AppliedAsAWhole(c: Codecs, b: CandidateBundle, x: Submission)
    requires Accepted(c, b, x)
    ensures b.contractId == "candidate-bundle@1.0" && b.selectedControlClass == "waf"
    ensures b.digestProfile == "rfc8785-sha256-exclude-bundle_digest-and-candidate_digest-v1"
    ensures b.unitHandling.apply == b.unitHandling.rollback == b.unitHandling.remove == "all-or-nothing"
    ensures b.unitHandling.readback == "verify-every-artifact-or-rollback"
    ensures forall g :: g in b.groups ==>
              && g.atomicGroupId != "" && g.handling.readback == "verify-group-or-rollback"
              && g.handling.apply == g.handling.rollback == g.handling.remove == "all-or-nothing"
    ensures forall i, k :: 0 <= i < k < |b.directives| ==> b.directives[i].directiveId != b.directives[k].directiveId
    ensures forall d :: d in b.directives ==>
              && d.directiveId != "" && d.artifactRef.kind == Kind.BundleArtifact && d.artifactRef.scope == b.bundleId
              && exists i :: 0 <= i < |b.artifacts| && b.artifacts[i].artifactId == d.artifactRef.id
    ensures |b.provenance| > 0
    ensures forall i :: 0 <= i < |b.provenance| ==>
              var digest := b.provenance[i].outputDigest;
              && b.provenance[i].order == i && |digest| == 7 + 64 && digest[..7] == "sha256:"
              && forall k :: 7 <= k < 71 ==> '0' <= digest[k] <= '9' || 'a' <= digest[k] <= 'f'
  {
    hide DigestAny, BindingAgrees, ArtifactsAgree, ArtifactPlaced, MappingsAgree, Checked;
    var index := Index(b.artifacts, ArtifactKey);
    var names, groups := Ids(b.directives, DirectiveKey), Ids(b.groups, GroupKey);
    forall i, k | 0 <= i < k < |b.directives| ensures b.directives[i].directiveId != b.directives[k].directiveId {
      assert names[i] != names[k];
    }
    forall g | g in b.groups ensures g.handling == GROUP_HANDLING && g.atomicGroupId != "" {
      var i :| 0 <= i < |b.groups| && b.groups[i] == g;
      assert groups[i] != "";
    }
    forall d | d in b.directives
      ensures d.directiveId != "" && d.artifactRef.id in index
      ensures d.artifactRef.kind == Kind.BundleArtifact && d.artifactRef.scope == b.bundleId
      ensures exists i :: 0 <= i < |b.artifacts| && b.artifacts[i].artifactId == d.artifactRef.id
    {
      var i :| 0 <= i < |b.directives| && b.directives[i] == d;
      assert names[i] != "";
      var k :| 0 <= k < |b.artifacts| && ArtifactKey(b.artifacts[k]) == d.artifactRef.id;
    }
  }

  /** Each mapping of an accepted bundle is exact, and everything it names is known: source members of the semantics,
      and artifacts and directives of the bundle, each at most once. */
  lemma {:induction false} MappingsStayInside(c: Codecs, b: CandidateBundle, x: Submission, i: nat, k: nat)
    requires Accepted(c, b, x) && i < |b.mappings|
    ensures var m := b.mappings[i];
            && m.coverage == "exact" && Distinct(RefIds(m.artifactRefs)) && Distinct(RefIds(m.directiveRefs))
            && (k < |m.sourceMemberRefs| ==>
                  m.sourceMemberRefs[k].kind == Kind.SourceMember && m.sourceMemberRefs[k].scope == x.s.semanticsId)
            && (k < |m.artifactRefs| ==>
                  && m.artifactRefs[k].kind == Kind.BundleArtifact && m.artifactRefs[k].scope == b.bundleId
                  && exists n :: 0 <= n < |b.artifacts| && b.artifacts[n].artifactId == m.artifactRefs[k].id)
            && (k < |m.directiveRefs| ==>
                  && m.directiveRefs[k].kind == Kind.Directive && m.directiveRefs[k].scope == b.bundleId
                  && exists n :: 0 <= n < |b.directives| && b.directives[n].directiveId == m.directiveRefs[k].id)
  {
    hide HeaderAgrees, ArtifactsAgree, UnitAgrees, GroupsAgree, DirectivesAgree, ProvenanceAgrees, ArtifactPlaced;
    hide Requirements;
    var m := b.mappings[i];
    assert MappingAgrees(b, x.s, Index(b.artifacts, ArtifactKey), m);
    if k < |m.artifactRefs| {
      var n :| 0 <= n < |b.artifacts| && ArtifactKey(b.artifacts[n]) == m.artifactRefs[k].id;
    }
    if k < |m.directiveRefs| {
      var n :| 0 <= n < |b.directives| && DirectiveKey(b.directives[n]) == m.directiveRefs[k].id;
    }
  }

  // ----- what acceptance gives -----------------------------------------------------------------

  /** Artifact i lists artifact k among what it depends on. */
  predicate DependsOn(b: CandidateBundle, i: int, k: int) {
    && 0 <= i < |b.artifacts| && 0 <= k < |b.artifacts|
    && b.artifacts[k].artifactId in RefIds(b.artifacts[i].dependsOn)
  }

  /** A chain of dependencies. */
  predicate Chain(b: CandidateBundle, chain: seq<int>) {
    forall n :: 0 <= n < |chain| - 1 ==> DependsOn(b, chain[n], chain[n + 1])
  }

  lemma {:induction false} DependenciesComeFirst(c: Codecs, b: CandidateBundle, x: Submission, i: int, k: int)
    requires Accepted(c, b, x)
    ensures DependsOn(b, i, k) ==> k < i
  {
    if !DependsOn(b, i, k) {
      return;
    }
    hide HeaderAgrees, UnitAgrees, GroupsAgree, DirectivesAgree, MappingsAgree, ProvenanceAgrees, Memberships,
         ContentAgrees;
    var index := Index(b.artifacts, ArtifactKey);
    var a := b.artifacts[i];
    assert ArtifactPlaced(b, index, a);
    IndexFinds(b.artifacts, ArtifactKey);
    var n :| 0 <= n < |RefIds(a.dependsOn)| && RefIds(a.dependsOn)[n] == b.artifacts[k].artifactId;
    assert ArtifactKey(b.artifacts[k]) == a.dependsOn[n].id;
  }

  /** The order of the list is a topological order of the dependencies: along any chain of them the position falls, so
      no chain comes back to where it started. */
  lemma {:induction false} OrderIsTopological(c: Codecs, b: CandidateBundle, x: Submission, chain: seq<int>)
    requires Accepted(c, b, x) && Chain(b, chain) && |chain| > 1
    ensures chain[|chain| - 1] < chain[0]
    decreases |chain|
  {
    hide Accepted;
    assert DependsOn(b, chain[0], chain[1]);
    DependenciesComeFirst(c, b, x, chain[0], chain[1]);
    if |chain| > 2 {
      var rest := chain[1..];
      forall n | 0 <= n < |rest| - 1 ensures DependsOn(b, rest[n], rest[n + 1]) {
        assert DependsOn(b, chain[n + 1], chain[n + 2]);
      }
      OrderIsTopological(c, b, x, rest);
    }
  }

  lemma {:induction false} PlacedDependency(b: CandidateBundle, i: int, id: string)
    requires 0 <= i < |b.artifacts| && ArtifactPlaced(b, Index(b.artifacts, ArtifactKey), b.artifacts[i])
    requires id in RefIds(b.artifacts[i].dependsOn)
    ensures exists k :: DependsOn(b, i, k) && b.artifacts[k].artifactId == id
  {
    hide Memberships;
    var n :| 0 <= n < |RefIds(b.artifacts[i].dependsOn)| && RefIds(b.artifacts[i].dependsOn)[n] == id;
    assert b.artifacts[i].dependsOn[n].id in Index(b.artifacts, ArtifactKey);
    var k :| 0 <= k < |b.artifacts| && ArtifactKey(b.artifacts[k]) == id;
    assert DependsOn(b, i, k);
  }

  /** Every dependency is an artifact of the bundle. */
  lemma {:induction false} DependenciesAreKnown(c: Codecs, b: CandidateBundle, x: Submission, i: int, id: string)
    requires Accepted(c, b, x)
    ensures 0 <= i < |b.artifacts| && id in RefIds(b.artifacts[i].dependsOn) ==>
              exists k :: DependsOn(b, i, k) && b.artifacts[k].artifactId == id
  {
    hide HeaderAgrees, UnitAgrees, GroupsAgree, DirectivesAgree, MappingsAgree, ProvenanceAgrees, ArtifactPlaced,
         ArtifactsAgree;
    if 0 <= i < |b.artifacts| && id in RefIds(b.artifacts[i].dependsOn) {
      PlacedDependency(b, i, id);
    }
  }

  predicate Holds(groups: seq<AtomicGroup>, g: int, id: string) {
    0 <= g < |groups| && id in IdSet(groups[g].artifactRefs)
  }

  lemma {:induction false} InNoGroup(groups: seq<AtomicGroup>, id: string)
    requires Memberships(groups, id) == 0
    ensures forall g :: !Holds(groups, g, id)
    decreases |groups|
  {
    if groups != [] {
      var init := groups[..|groups| - 1];
      InNoGroup(init, id);
      forall g ensures !Holds(groups, g, id) {
        assert !Holds(init, g, id);
      }
    }
  }

  lemma {:induction false} InOneGroup(groups: seq<AtomicGroup>, id: string) returns (g: int)
    requires Memberships(groups, id) == 1
    ensures Holds(groups, g, id) && forall h :: Holds(groups, h, id) ==> h == g
    decreases |groups|
  {
    var init, n := groups[..|groups| - 1], |groups| - 1;
    if id in IdSet(groups[n].artifactRefs) {
      g := n;
      InNoGroup(init, id);
      forall h | Holds(groups, h, id) ensures h == g {
        assert !Holds(init, h, id);
      }
    } else {
      g := InOneGroup(init, id);
      forall h | Holds(groups, h, id) ensures h == g {
        assert Holds(init, h, id);
      }
    }
  }

  /** The atomic groups partition the artifacts: every artifact is in exactly one group, and a group holds nothing
      else. */
  lemma {:induction false} GroupsPartition(c: Codecs, b: CandidateBundle, x: Submission, id: string)
    requires Accepted(c, b, x)
    ensures id in Ids(b.artifacts, ArtifactKey) <==> exists g :: Holds(b.groups, g, id)
    ensures forall g, h :: Holds(b.groups, g, id) && Holds(b.groups, h, id) ==> g == h
  {
    hide HeaderAgrees, UnitAgrees, DirectivesAgree, MappingsAgree, ProvenanceAgrees, Memberships, ContentAgrees;
    var index := Index(b.artifacts, ArtifactKey);
    forall g | Holds(b.groups, g, id) ensures id in index.Keys {
      assert Checked(b.groups[g].artifactRefs, Kind.BundleArtifact, b.bundleId, index.Keys);
    }
    assert id in index.Keys <==> id in Ids(b.artifacts, ArtifactKey);
    if id in index.Keys {
      var i :| 0 <= i < |b.artifacts| && ArtifactKey(b.artifacts[i]) == id;
      assert ArtifactPlaced(b, index, b.artifacts[i]);
      var g := InOneGroup(b.groups, id);
    }
  }

  /** The application unit is the whole artifact set, and so is the set of contents. */
  lemma {:induction false} UnitIsEverything(c: Codecs, b: CandidateBundle, x: Submission)
    requires Accepted(c, b, x)
    ensures Lists(RefIds(b.unitRefs), set i | 0 <= i < |b.artifacts| :: b.artifacts[i].artifactId)
    ensures x.contents.Keys == set i | 0 <= i < |b.artifacts| :: b.artifacts[i].artifactId
  {
    hide HeaderAgrees, GroupsAgree, DirectivesAgree, MappingsAgree, ProvenanceAgrees, ArtifactPlaced, ValidContentUri;
    var index := Index(b.artifacts, ArtifactKey);
    IndexFinds(b.artifacts, ArtifactKey);
    var ids := set i | 0 <= i < |b.artifacts| :: b.artifacts[i].artifactId;
    assert index.Keys == ids;
    assert ids <= x.contents.Keys by {
      forall i | 0 <= i < |b.artifacts| ensures b.artifacts[i].artifactId in x.contents {
        assert ArtifactFits(c, b.artifacts[i], i, x.contents, x.resultId);
      }
    }
    assert |index| == |index.Keys| && |x.contents| == |x.contents.Keys|;
    SubsetSize(ids, x.contents.Keys);
  }

  /** The obligation mappings are in bijection with the obligations, and each maps to the source members that its
      obligation's coverage reaches, each once. */
  lemma {:induction false} MappingsAreExact(c: Codecs, b: CandidateBundle, x: Submission)
    requires Accepted(c, b, x)
    ensures Lists(Ids(b.mappings, MappingKey), Index(x.s.obligations, ObligationKey).Keys)
    ensures forall i :: 0 <= i < |b.mappings| ==>
              var m := b.mappings[i];
              var obligation := Index(x.s.obligations, ObligationKey)[m.obligationId];
              var g := GraphOf(x.s.semanticsId, x.s.components, x.s.groups);
              && m.semanticsRefs == [obligation.coverageRef]
              && Distinct(RefIds(m.sourceMemberRefs))
              && forall x :: x in RefIds(m.sourceMemberRefs) <==> ReachesMember(g, obligation.coverageRef, x)
  {
    hide HeaderAgrees, ArtifactsAgree, UnitAgrees, GroupsAgree, DirectivesAgree, ProvenanceAgrees, ArtifactPlaced;
    var index := Index(b.artifacts, ArtifactKey);
    var obligations := Index(x.s.obligations, ObligationKey);
    var ids := Ids(b.mappings, MappingKey);
    DistinctSize(ids);
    var named := set x | x in ids;
    assert named <= obligations.Keys by {
      forall i | 0 <= i < |ids| ensures ids[i] in obligations {
        assert MappingAgrees(b, x.s, index, b.mappings[i]);
      }
    }
    SubsetSize(named, obligations.Keys);
    ListsMeans(ids, obligations.Keys);
    forall i | 0 <= i < |b.mappings|
      ensures b.mappings[i].obligationId in obligations
      ensures var m := b.mappings[i];
              var obligation := obligations[m.obligationId];
              var g := GraphOf(x.s.semanticsId, x.s.components, x.s.groups);
              && m.semanticsRefs == [obligation.coverageRef]
              && Distinct(RefIds(m.sourceMemberRefs))
              && forall x :: x in RefIds(m.sourceMemberRefs) <==> ReachesMember(g, obligation.coverageRef, x)
    {
      assert MappingAgrees(b, x.s, index, b.mappings[i]);
      MappingCovers(b, x.s, index, b.mappings[i]);
    }
  }

  lemma {:induction false} MappingCovers(b: CandidateBundle, s: Semantics, index: map<string, BundleArtifact>,
                                         m: Mapping)
    requires MappingAgrees(b, s, index, m)
    ensures var obligation := Index(s.obligations, ObligationKey)[m.obligationId];
            var g := GraphOf(s.semanticsId, s.components, s.groups);
            && Distinct(RefIds(m.sourceMemberRefs))
            && forall x :: x in RefIds(m.sourceMemberRefs) <==> ReachesMember(g, obligation.coverageRef, x)
  {
    var root := Index(s.obligations, ObligationKey)[m.obligationId].coverageRef;
    RequirementsDecide(s.semanticsId, s.components, s.groups, root);
    var found := Requirements(s.semanticsId, s.components, s.groups, root).value;
    var ids := RefIds(m.sourceMemberRefs);
    ListsMeans(ids, found.members);
    assert forall x :: x in ids <==> x in (set y | y in ids);
  }

  /** Different artifacts of one result have different content locators. */
  lemma {:induction false} LocatorsTellArtifactsApart(c: Codecs, uri: string, resultId: string, a: string, b: string)
    requires ValidContentUri(c, uri, resultId, a) && ValidContentUri(c, uri, resultId, b)
    ensures a == b
  {
    hide Escape, Unescape;
    var head := "janus-result-internal:" + c.queryEscape(resultId) + "#" + "/" + ContentMember() + "/";
    assert uri == head + Escape(a) && uri == head + Escape(b);
    assert uri[|head|..] == Escape(a) && uri[|head|..] == Escape(b);
    EscapeRoundTrip(a);
    EscapeRoundTrip(b);
  }

  // ----- the verifier itself -------------------------------------------------------------------

  method CheckRefs(refs: seq<TypedRef>, kind: Kind, scope: string, index: set<string>) returns (ok: bool)
    ensures ok <==> Checked(refs, kind, scope, index)
  {
    var ids := CheckedRefs(refs, kind, scope, index);
    ok := ids.Some?;
  }

  /** The loop over the artifacts. */
  method IndexArtifacts(c: Codecs, b: CandidateBundle, contents: map<string, string>, resultId: string)
    returns (index: Option<map<string, BundleArtifact>>)
    ensures index.Some? <==> && Identified(Ids(b.artifacts, ArtifactKey))
                             && forall i :: 0 <= i < |b.artifacts| ==>
                                 ArtifactFits(c, b.artifacts[i], i, contents, resultId)
    ensures index.Some? ==> index.value == Index(b.artifacts, ArtifactKey)
  {
    hide ArtifactFits, Ids;
    var artifacts: map<string, BundleArtifact> := map[];
    for i := 0 to |b.artifacts|
      invariant Identified(Ids(b.artifacts, ArtifactKey)[..i]) && artifacts == Index(b.artifacts[..i], ArtifactKey)
      invariant forall k :: 0 <= k < i ==> ArtifactFits(c, b.artifacts[k], k, contents, resultId)
    {
      assert b.artifacts[..i + 1][..i] == b.artifacts[..i];
      var artifact := b.artifacts[i];
      if artifact.artifactId == "" || artifact.artifactId in artifacts {
        return None;
      }
      if !ArtifactFits(c, artifact, i, contents, resultId) {
        return None;
      }
      artifacts := artifacts[artifact.artifactId := artifact];
    }
    assert b.artifacts[..|b.artifacts|] == b.artifacts;
    return Some(artifacts);
  }

  method CheckArtifacts(c: Codecs, b: CandidateBundle, contents: map<string, string>, resultId: string)
    returns (index: Option<map<string, BundleArtifact>>)
    ensures index.Some? <==> ArtifactsAgree(c, b, contents, resultId)
    ensures index.Some? ==> index.value == Index(b.artifacts, ArtifactKey)
  {
    hide ArtifactFits, Identified;
    index := IndexArtifacts(c, b, contents, resultId);
    if index.Some? {
      SizeOfIndex(b);
      if |index.value| == 0 || |index.value| != |contents| {
        index := None;
      }
    }
  }

  lemma {:induction false} SizeOfIndex(b: CandidateBundle)
    requires Identified(Ids(b.artifacts, ArtifactKey))
    ensures |Index(b.artifacts, ArtifactKey)| == |b.artifacts|
  {
    IndexFinds(b.artifacts, ArtifactKey);
  }

  method CheckUnit(b: CandidateBundle, index: map<string, BundleArtifact>) returns (ok: bool)
    ensures ok <==> UnitAgrees(b, index)
  {
    var applicationIds := CheckedRefs(b.unitRefs, Kind.BundleArtifact, b.bundleId, index.Keys);
    if applicationIds.None? {
      return false;
    }
    var expected := Keys(index.Keys);
    ok := SameStringSet(applicationIds.value, expected);
    ok := ok && b.unitHandling == UNIT_HANDLING;
  }

  /** One group's identifiers, each counted once more. */
  method CountIds(memberships: map<string, int>, ids: seq<string>) returns (more: map<string, int>)
    requires Distinct(ids)
    ensures forall x :: Count(more, x) == Count(memberships, x) + (if x in ids then 1 else 0)
  {
    more := memberships;
    for i := 0 to |ids|
      invariant forall x :: Count(more, x) == Count(memberships, x) + (if x in ids[..i] then 1 else 0)
    {
      ghost var before := more;
      assert ids[i] !in ids[..i] && Count(before, ids[i]) == Count(memberships, ids[i]);
      more := more[ids[i] := Count(more, ids[i]) + 1];
      forall x ensures Count(more, x) == Count(memberships, x) + (if x in ids[..i + 1] then 1 else 0) {
        assert ids[..i + 1] == ids[..i] + [ids[i]];
        assert Count(before, x) == Count(memberships, x) + (if x in ids[..i] then 1 else 0);
      }
    }
    assert ids[..|ids|] == ids;
  }

  /** The loop over the atomic groups. */
  method CheckGroups(b: CandidateBundle, index: map<string, BundleArtifact>)
    returns (ok: bool, groups: set<string>, memberships: map<string, int>)
    ensures ok <==> GroupsAgree(b, index)
    ensures ok ==> groups == set i | 0 <= i < |b.groups| :: b.groups[i].atomicGroupId
    ensures ok ==> forall x :: Count(memberships, x) == Memberships(b.groups, x)
  {
    hide Checked;
    groups, memberships := {}, map[];
    ghost var names := Ids(b.groups, GroupKey);
    for i := 0 to |b.groups|
      invariant Identified(names[..i]) && groups == set k | 0 <= k < i :: b.groups[k].atomicGroupId
      invariant forall k :: 0 <= k < i ==>
                  && b.groups[k].handling == GROUP_HANDLING
                  && Checked(b.groups[k].artifactRefs, Kind.BundleArtifact, b.bundleId, index.Keys)
      invariant forall x :: Count(memberships, x) == Memberships(b.groups[..i], x)
    {
      var group := b.groups[i];
      assert names[i] == group.atomicGroupId;
      if group.atomicGroupId == "" || group.atomicGroupId in groups || group.handling != GROUP_HANDLING {
        if group.atomicGroupId in groups {
          ghost var k :| 0 <= k < i && b.groups[k].atomicGroupId == group.atomicGroupId;
          assert names[k] == names[i];
        }
        return false, {}, map[];
      }
      groups := groups + {group.atomicGroupId};
      var ids := CheckedRefs(group.artifactRefs, Kind.BundleArtifact, b.bundleId, index.Keys);
      if ids.None? {
        return false, {}, map[];
      }
      GroupIds(group, b.bundleId, index.Keys);
      ghost var before := memberships;
      memberships := CountIds(memberships, ids.value);
      forall x ensures Count(memberships, x) == Memberships(b.groups[..i + 1], x) {
        OneMoreGroup(b.groups, i, x);
        assert Count(before, x) == Memberships(b.groups[..i], x);
      }
    }
    assert names[..|b.groups|] == names && b.groups[..|b.groups|] == b.groups;
    ok := true;
  }

  lemma {:induction false} GroupIds(group: AtomicGroup, scope: string, index: set<string>)
    requires Checked(group.artifactRefs, Kind.BundleArtifact, scope, index)
    ensures Distinct(RefIds(group.artifactRefs))
  {
  }

  lemma {:induction false} OneMoreGroup(groups: seq<AtomicGroup>, i: nat, x: string)
    requires i < |groups|
    ensures Memberships(groups[..i + 1], x)
            == Memberships(groups[..i], x) + (if x in RefIds(groups[i].artifactRefs) then 1 else 0)
  {
    assert groups[..i + 1][..i] == groups[..i];
    assert x in IdSet(groups[i].artifactRefs) <==> x in RefIds(groups[i].artifactRefs) by {
      var refs := groups[i].artifactRefs;
      assert forall k :: 0 <= k < |refs| ==> RefIds(refs)[k] == refs[k].id;
    }
  }

  method CheckPlaced(b: CandidateBundle, index: map<string, BundleArtifact>, groups: set<string>,
                     memberships: map<string, int>,
                     a: BundleArtifact) returns (ok: bool)
    requires groups == set i | 0 <= i < |b.groups| :: b.groups[i].atomicGroupId
    requires forall x :: Count(memberships, x) == Memberships(b.groups, x)
    ensures ok <==> ArtifactPlaced(b, index, a)
  {
    var ref := a.applicationGroupRef;
    if ref.id !in groups || ref.kind != Kind.AtomicGroup || ref.scope != b.bundleId
        || Count(memberships, a.artifactId) != 1 {
      return false;
    }
    var dependencies := CheckedRefs(a.dependsOn, Kind.BundleArtifact, b.bundleId, index.Keys);
    if dependencies.None? {
      return false;
    }
    for k := 0 to |dependencies.value|
      invariant forall n :: 0 <= n < k ==> index[a.dependsOn[n].id].order < a.order
    {
      if index[dependencies.value[k]].order >= a.order {
        assert a.dependsOn[k].id == dependencies.value[k];
        return false;
      }
    }
    ok := true;
  }

  method CheckDirectives(b: CandidateBundle, index: map<string, BundleArtifact>) returns (ok: bool)
    ensures ok <==> DirectivesAgree(b, index)
  {
    var seen := BuildIndex(b.directives, DirectiveKey);
    if seen.None? {
      return false;
    }
    for i := 0 to |b.directives|
      invariant forall k :: 0 <= k < i ==>
                  var ref := b.directives[k].artifactRef;
                  ref.id in index && ref.kind == Kind.BundleArtifact && ref.scope == b.bundleId
    {
      var ref := b.directives[i].artifactRef;
      if ref.id !in index || ref.kind != Kind.BundleArtifact || ref.scope != b.bundleId {
        return false;
      }
    }
    ok := true;
  }

  method CheckMapping(b: CandidateBundle, s: Semantics, index: map<string, BundleArtifact>, directives: set<string>,
                      obligations: map<string, Obligation>, m: Mapping) returns (ok: bool)
    requires obligations == Index(s.obligations, ObligationKey) && directives == Index(b.directives, DirectiveKey).Keys
    ensures ok <==> MappingAgrees(b, s, index, m)
  {
    hide Checked, Requirements;
    if m.obligationId !in obligations || m.coverage != "exact" || |m.semanticsRefs| != 1
       || m.semanticsRefs[0] != obligations[m.obligationId].coverageRef {
      return false;
    }
    var required := CoverageRequirements(s.semanticsId, s.components, s.groups,
                                         obligations[m.obligationId].coverageRef);
    if required.Err? {
      return false;
    }
    var expected := Keys(required.value.members);
    ok := SameStringSet(RefIds(m.sourceMemberRefs), expected);
    if !ok {
      return;
    }
    for i := 0 to |m.sourceMemberRefs|
      invariant OfKind(m.sourceMemberRefs[..i], Kind.SourceMember, s.semanticsId)
    {
      if m.sourceMemberRefs[i].kind != Kind.SourceMember || m.sourceMemberRefs[i].scope != s.semanticsId {
        return false;
      }
    }
    ok := CheckRefs(m.artifactRefs, Kind.BundleArtifact, b.bundleId, index.Keys);
    if ok {
      ok := CheckRefs(m.directiveRefs, Kind.Directive, b.bundleId, directives);
    }
  }

  /** The loop over the obligation mappings. */
  method CheckMappings(b: CandidateBundle, s: Semantics, index: map<string, BundleArtifact>) returns (ok: bool)
    ensures ok <==> MappingsAgree(b, s, index)
  {
    hide MappingAgrees;
    var obligations := Index(s.obligations, ObligationKey);
    var directives := Index(b.directives, DirectiveKey).Keys;
    var seen: set<string> := {};
    ghost var ids := Ids(b.mappings, MappingKey);
    for i := 0 to |b.mappings|
      invariant seen == set k | 0 <= k < i :: ids[k]
      invariant Distinct(ids[..i]) && forall k :: 0 <= k < i ==> MappingAgrees(b, s, index, b.mappings[k])
    {
      var m := b.mappings[i];
      assert ids[i] == m.obligationId;
      if m.obligationId in seen {
        return false;
      }
      seen := seen + {m.obligationId};
      var agrees := CheckMapping(b, s, index, directives, obligations, m);
      if !agrees {
        return false;
      }
    }
    assert ids[..|b.mappings|] == ids;
    DistinctSize(ids);
    assert seen == set x | x in ids;
    ok := |seen| == |obligations|;
  }

  /** validateSharedBundle. */
  method ValidateBundle(c: Codecs, b: CandidateBundle, x: Submission) returns (ok: bool)
    ensures ok <==> Accepted(c, b, x)
  {
    hide BodyAgrees, HeaderAgrees;
    ok := CheckHeader(c, b, x);
    if ok {
      ok := CheckBody(c, b, x.contents, x.resultId, x.s);
    }
  }

  method CheckHeader(c: Codecs, b: CandidateBundle, x: Submission) returns (ok: bool)
    ensures ok <==> HeaderAgrees(c, b, x)
  {
    hide DigestAny, BindingAgrees;
    if b.contractId != "candidate-bundle@1.0" || b.digestProfile != DIGEST_PROFILE || b.selectedControlClass != "waf" {
      return false;
    }
    var candidateDigest := ComputeDigest(c, CandidatePreimage(x.document));
    if candidateDigest != b.candidateDigest {
      return false;
    }
    var bundleDigest := ComputeDigest(c, BundlePreimage(x.document));
    if bundleDigest != b.bundleDigest {
      return false;
    }
    ok := CheckBinding(c, b.binding, x.place, x.cg, x.s);
  }

  method CheckBody(c: Codecs, b: CandidateBundle, contents: map<string, string>, resultId: string, s: Semantics)
    returns (ok: bool)
    ensures ok <==> BodyAgrees(c, b, contents, resultId, s)
  {
    hide ArtifactsAgree, UnitAgrees, GroupsAgree, ArtifactPlaced, DirectivesAgree, MappingsAgree, Memberships;
    var artifacts := CheckArtifacts(c, b, contents, resultId);
    if artifacts.None? {
      return false;
    }
    var index := artifacts.value;
    ok := CheckUnit(b, index);
    if !ok {
      return;
    }
    var groups, memberships;
    ok, groups, memberships := CheckGroups(b, index);
    if !ok {
      return;
    }
    for i := 0 to |b.artifacts|
      invariant forall k :: 0 <= k < i ==> ArtifactPlaced(b, index, b.artifacts[k])
    {
      ok := CheckPlaced(b, index, groups, memberships, b.artifacts[i]);
      if !ok {
        return;
      }
    }
    ok := CheckDirectives(b, index);
    if !ok {
      return;
    }
    ok := CheckMappings(b, s, index);
    if !ok || |b.provenance| == 0 {
      return false;
    }
    for i := 0 to |b.provenance|
      invariant forall k :: 0 <= k < i ==> b.provenance[k].order == k && ValidSha256(b.provenance[k].outputDigest)
    {
      if b.provenance[i].order != i || !ValidSha256(b.provenance[i].outputDigest) {
        return false;
      }
    }
    ok := true;
  }
}
